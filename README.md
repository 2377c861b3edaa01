# SSDPreprocess tile geometry, rotation and image store — a Dafny model

SSDPreprocess reads a video, corrects the brightness of every frame, cuts each
frame into overlapping square tiles along its long axis, turns every tile by a
random multiple of 90 degrees and saves it as `out/<unix seconds>_<index>.png`.
This project models the logic of that pipeline in `main.cpp` and proves its
properties:

- `split.dfy` (module `Split`): `splitWimage`, `splitHImage` and `splitImage`.
  A frame is its dimensions `(cols, rows)`, a tile is the crop rectangle
  `(x, y, width, height)`. Each split is a loop that appends rectangles to the
  caller's sequence. It is proved equal to a closed-form list: tile k sits at
  `paddingX + k * addVal` (width split) or `k * addVal + paddingY` (height
  split), and the number of tiles is the number of loop positions that pass the
  loop test. `addVal` uses C++ truncating division (`TruncDiv`, characterised by `TruncDivRemainder`). The
  precondition of each split is exactly "no division by zero and the loop
  ends": either the stride is positive or the first test already fails. The
  `...LoopDiverges` lemmas show that in the excluded case the loop test never
  fails. With `addVal == 0` the program then repeats forever; with `addVal < 0`
  it reaches a region left of or above the frame, which OpenCV refuses (not
  modelled, see "## Left out").
- `rotation.dfy` (module `Rotation`): `randamRota`. A tile is a grid with
  explicit height and width. `Transpose` and `Flip` model `cv::transpose` and
  `cv::flip`. `RandamRota` runs the same transpose and flip steps as each
  `switch` case and is proved to give the matching quarter turn, pixel by
  pixel. The lemmas prove the rotation identities.
- `store.dfy` (module `Store`): the `ImgStore` struct as a class with its
  `index` field. `Save` takes the clock reading as a parameter and returns the
  path it would write. Distinct indices give distinct paths.
- `pipeline.dfy` (module `Pipeline`): the driver's per-frame save loop. Every
  tile is rotated by its own draw and saved. The random draws and clock
  readings are input sequences.

## Model

| member | source | states |
|---|---|---|
| `Split.TruncDivRemainder` | main.cpp:39 | `TruncDiv`, the C++ `int` division that computes `addVal`, truncates toward zero: the remainder `a - TruncDiv(a, b)*b` has the sign of `a` (or is 0) and is smaller than `b` in magnitude. |
| `Split.StepCountExact` | main.cpp:41 | For a positive step s, the position `k*s` is below the bound exactly when k is less than the step count. |
| `Split.WidthCountExact` | main.cpp:39-41 | Width-split loop position `k*addVal` passes `i + side + paddingX < cols` exactly for k below the tile count. A non-positive stride gives no tiles. |
| `Split.WidthLoopDiverges` | main.cpp:39-41 | If `addVal <= 0` and the first test passes, the loop test passes at every later position too, so the test never ends the loop. |
| `Split.WidthTilesShape` | main.cpp:37-44 | Every width tile is a `(rows - paddingY)` square at `y = paddingY`. Its x is at least `paddingX` and its right edge is strictly left of `cols`. The x values are strictly increasing. |
| `Split.SplitWImage` | main.cpp:36-46 | The loop adds exactly the closed-form width tiles after the existing entries, which stay unchanged. Tile k is `(paddingX + k*addVal, paddingY, side, side)`. |
| `Split.HeightCountExact` | main.cpp:51-53 | Height-split loop position `k*addVal` passes `i + side < rows` exactly for k below the tile count. A non-positive stride gives no tiles. |
| `Split.HeightLoopDiverges` | main.cpp:51-53 | If `addVal <= 0` and the first test passes, the height loop's test passes at every later position, so the test never ends the loop. |
| `Split.HeightTilesShape` | main.cpp:49-57 | Every height tile is a `(cols - paddingX)` square at `x = paddingX` with `y >= paddingY`. Its bottom edge is only bounded by `rows - 1 + paddingY`. The y values are strictly increasing. |
| `Split.HeightTileOverrunsFrame` | main.cpp:53-54 | A concrete frame (10 x 20, paddingY 5, numsplit 2) gets five tiles. Tile 2, `(0, 9, 10, 10)`, still fits. Tile 3, `(0, 11, 10, 10)`, ends at row 21, below the frame, and so does tile 4, `(0, 13, 10, 10)`. |
| `Split.SplitHImage` | main.cpp:48-58 | The loop, with its test as written, adds exactly the closed-form height tiles after the existing entries. |
| `Split.HeightIsTransposedWidth` | main.cpp:36-58 | With `paddingY = 0`, the height split equals the width split of the transposed frame (paddings swapped), transposed back. |
| `Split.SplitHImageBounded` | main.cpp:48-58 | With the test `i + side + paddingY < rows`, the height split is exactly the transposed width split. Every tile's bottom edge is strictly above `rows`. When `0 <= paddingX <= cols` and `0 <= paddingY`, every tile has non-negative size and lies inside the frame. |
| `Split.SplitImage` | main.cpp:60-67 | Frames with `cols >= rows` (and positive `cols`) take the width split; all others take the height split. Every tile added is square. |
| `Rotation.Transpose` | main.cpp:84 | `cv::transpose` turns an h x w grid into a w x h grid. |
| `Rotation.Flip` | main.cpp:85-94 | `cv::flip` leaves the dimensions unchanged for every flip code. |
| `Rotation.Rotated` | main.cpp:81-101 | The rotation picked by case k keeps a square tile's dimensions. |
| `Rotation.TransposeThenMirrorIsRotate90` | main.cpp:83-86 | Transpose followed by a flip around the vertical axis is the 90-degree turn. |
| `Rotation.FlipBothIsRotate180` | main.cpp:88-90 | A flip around both axes is the 180-degree turn. |
| `Rotation.TransposeThenFlipIsRotate270` | main.cpp:92-95 | Transpose followed by a flip around the horizontal axis is the 270-degree turn. |
| `Rotation.RandamRota` | main.cpp:80-104 | The draw mod 4 selects the case, and the case's `cv` steps give its quarter turn. Pixel by pixel: case 0 gives `out[i][j] = in[h-1-j][i]` (a w x h result), case 1 gives `in[h-1-i][w-1-j]`, case 2 gives `in[j][w-1-i]` (w x h), and case 3 leaves the tile unchanged. A square tile keeps its dimensions. |
| `Rotation.Rotate270UndoesRotate90` | main.cpp:83-95 | Case 0 followed by case 2 restores the tile. |
| `Rotation.Rotate90UndoesRotate270` | main.cpp:83-95 | Case 2 followed by case 0 restores the tile. |
| `Rotation.Rotate180Involution` | main.cpp:88-90 | Case 1 applied twice restores the tile. |
| `Rotation.TwoQuarterTurnsAreHalfTurn` | main.cpp:83-90 | Case 0 applied twice equals case 1. |
| `Rotation.FourQuarterTurnsAreIdentity` | main.cpp:83-86 | Case 0 applied four times restores the tile. |
| `Store.DecimalString` | main.cpp:15 | `%llu` / `%d` of a non-negative value gives at least one digit, only digits, and no leading zero. |
| `Store.DecimalRoundTrip` | main.cpp:15 | Reading the formatted digits back yields the original number. |
| `Store.PathShape` | main.cpp:22-29 | `OutPath` (built from `BaseName` and `FileName`) is `out/` + prefix + `<t>_<index>.png` for every prefix: prepending the prefix only when it is non-empty is the same as always prepending it. |
| `Store.OutPathInjective` | main.cpp:22-29 | Two paths with the same prefix are equal only when both the clock reading and the index are equal. |
| `Store.SavedPathsDistinct` | main.cpp:18-29 | Saves whose indices increase one by one write pairwise different paths, whatever the clock says. |
| `Store.ImgStore.constructor` | main.cpp:33 | The index starts at 0. |
| `Store.ImgStore.Save` | main.cpp:20-31 | The returned path is `OutPath` of the clock reading and the index from before the increment (its shape is `Store.PathShape`). The index then goes up by exactly 1. |
| `Pipeline.SaveRotated` | main.cpp:157 | One tile is turned by case `draw mod 4` and saved under the current index, which then goes up by 1. |
| `Pipeline.SavedEntriesDistinctPaths` | main.cpp:156-158 | The entries that one pass over a frame's tiles writes have pairwise different paths. |
| `Pipeline.SaveRotatedTiles` | main.cpp:156-158 | Tile k's path uses index `start + k`, and tile k is rotated by case `draws[k] mod 4`. The index advances by the number of tiles, and no two tiles share a path. |

## Findings

| source | as written | input that shows it | evidently intended | confidence | as-written member | corrected member |
|---|---|---|---|---|---|---|
| main.cpp:53 | The height split tests `i + size.height < frame.rows` and leaves out `paddingY`, but it places the tile at `y = i + paddingY`. | cols 10, rows 20, paddingX 0, paddingY 5, numsplit 2: addVal is 2, and the loop test admits five positions. Tile 2, `(0, 9, 10, 10)`, still fits. Tile 3, `(0, 11, 10, 10)`, reaches row 21 of a 20-row frame, so the region `frame(rect)` at main.cpp:55 is refused by OpenCV there and the program stops before tile 4. | `i + size.height + paddingY < frame.rows`, mirroring `splitWimage` | medium; not executed | `Split.HeightTileOverrunsFrame` (with `Split.SplitHImage`, `Split.HeightTilesShape`) | `Split.SplitHImageBounded` |

`Split.SplitImage` still dispatches to the height split as written, because
that is what the program runs. `Split.SplitHImageBounded` is the corrected loop.
It is proved to be the transposed width split. Every one of its tiles ends
strictly above the bottom edge. When `0 <= paddingX <= cols` and
`0 <= paddingY`, every tile has non-negative size and lies inside the frame.

## Left out

- `correctBrightness` (main.cpp:69-78): HSV conversion and float scaling in OpenCV. It uses floating point and a foreign library.
- `main`'s argument parsing and checks (main.cpp:106-121), opening the video, `mkdir` with `ACCESS_FLAGS` and the read loop (main.cpp:124-147), and the final `ok` (main.cpp:161): these are I/O and CLI handling. Only the per-tile save loop (main.cpp:156-158) is modelled.
- `cv::imwrite` (main.cpp:30): the file write. `Save` returns the path instead.
- `time(NULL)` (main.cpp:22): passed in as the parameter `now`, one reading per save.
- `std::random_device` / `std::mt19937` (main.cpp:137-138, 81): every generator output is an input natural number (the generator's values are unsigned).
- Pixel contents and ROI cloning (main.cpp:42-44, 54-56): a split yields crop rectangles, not pixel copies. OpenCV's run-time check on regions outside the frame is not modelled: such a region (past the bottom edge, or left of or above the frame after a negative `addVal` or padding) throws `cv::Exception` and ends the program, while the model goes on listing rectangles. The bounds lemmas state what the loops guarantee.
- `SPLIT_SIZE` (main.cpp:9): declared as 2 and never used, so it has no behaviour to model.
- Split.SplitWImage, Split.SplitHImage, Split.SplitHImageBounded, Split.TruncDivRemainder: integers are unbounded. C `int` overflow is not modelled. This covers `i += addVal` and `i + size + padding` in both loops (main.cpp:41-45, 53-57), the subtractions that form the dividend, and `INT_MIN / -1` in `addVal` (main.cpp:39, 51). Signed overflow is undefined behaviour in C++.
- Split.SplitImage: the float test `1 <= (float)cols / (float)rows` is modelled as an exact comparison. A zero height gives +infinity for a positive width and NaN for a zero width. Rounding of dimensions above 2^24 to `float` is not modelled.
- Split.SplitHImage: the transposition property between the two splits holds for the code as written only when `paddingY = 0` (`Split.HeightIsTransposedWidth`). For other values it holds only for the corrected loop.
- Rotation.RandamRota: the in-place overwrite of the caller's `Mat` is modelled as returning the new grid. Sharing of the buffer with the caller is not captured.
- Store.ImgStore.Save: `index` is a `nat`. Wrap-around of the C `int` after 2^31 saves is not modelled.
