/**
 * Tile geometry of the frame splitter: a frame is cut into overlapping
 * square windows that step along its long axis. A frame is modelled by its
 * dimensions only and a tile by the rectangle that is cropped out of it.
 */
module Split {

  /** The dimensions of a decoded frame (an OpenCV matrix has non-negative sizes). */
  datatype Frame = Frame(cols: nat, rows: nat)

  /** A crop rectangle: top-left corner (x, y), then width and height. */
  datatype Rect = Rect(x: int, y: int, width: int, height: int)

  /** The command-line split parameters, as C `int`s of any sign. */
  datatype SplitParams = SplitParams(paddingX: int, paddingY: int, numsplit: int)

  function Abs(a: int): nat { if a < 0 then -a else a }

  /**
   * C++ `int` division, which truncates toward zero.
   * (Dafny's own `/` is Euclidean and differs for negative operands.)
   */
  function TruncDiv(a: int, b: int): int
    requires b != 0
  {
    var m := Abs(a) / Abs(b);
    if (a >= 0) == (b > 0) then m else -m
  }

  /**
   * What truncation toward zero means: the remainder has the sign of the
   * dividend (or is zero) and is smaller than the divisor in magnitude.
   */
  lemma TruncDivRemainder(a: int, b: int)
    requires b != 0
    ensures Abs(a - TruncDiv(a, b) * b) < Abs(b)
    ensures a >= 0 ==> a - TruncDiv(a, b) * b >= 0
    ensures a <= 0 ==> a - TruncDiv(a, b) * b <= 0
  {
    var q, m, r := TruncDiv(a, b), Abs(a) / Abs(b), Abs(a) % Abs(b);
    assert Abs(a) == m * Abs(b) + r && 0 <= r < Abs(b);
    if a >= 0 && b > 0 {
      assert a - q * b == r;
    } else if a >= 0 {
      assert q * b == m * Abs(b);
      assert a - q * b == r;
    } else if b > 0 {
      assert q * b == -(m * Abs(b));
      assert a - q * b == -r;
    } else {
      assert q * b == -(m * Abs(b));
      assert a - q * b == -r;
    }
  }

  /**
   * How many of the loop positions 0, s, 2s, ... lie strictly below
   * `bound`, for a positive step `s`; zero when not even position 0 does.
   */
  function StepCount(bound: int, s: int): nat
    requires s > 0 || bound <= 0
  {
    if bound <= 0 then 0 else (bound - 1) / s + 1
  }

  lemma MulMono(a: int, b: int, s: int)
    requires a <= b && s >= 0
    ensures a * s <= b * s
  {
    assert b * s - a * s == (b - a) * s;
  }

  /** Position k*s passes the test `k*s < bound` exactly for the first StepCount(bound, s) values of k. */
  lemma StepCountExact(bound: int, s: int, k: nat)
    requires s > 0
    ensures k * s < bound <==> k < StepCount(bound, s)
  {
    if bound > 0 {
      var q := (bound - 1) / s;
      assert (bound - 1) == q * s + (bound - 1) % s;
      if k <= q {
        MulMono(k, q, s);
      } else {
        MulMono(q + 1, k, s);
        assert (q + 1) * s == q * s + s;
      }
    } else {
      MulMono(0, k, s);
    }
  }

  // ---------------------------------------------------------------- width split

  /** Side of every tile of the width split (both dimensions of its size). */
  function WidthSide(f: Frame, p: SplitParams): int { f.rows - p.paddingY }

  /** `addVal` of the width split. */
  function WidthStride(f: Frame, p: SplitParams): int
    requires p.numsplit != 0
  {
    TruncDiv(f.cols - f.rows - p.paddingX, p.numsplit)
  }

  /** The width split's loop test at position i. */
  predicate WidthTest(f: Frame, p: SplitParams, i: int)
  {
    i + WidthSide(f, p) + p.paddingX < f.cols
  }

  /** The width split neither divides by zero nor loops forever. */
  predicate WidthTerminates(f: Frame, p: SplitParams)
  {
    p.numsplit != 0 && (WidthStride(f, p) > 0 || !WidthTest(f, p, 0))
  }

  /** The k-th tile of the width split, in closed form. */
  function WidthTile(f: Frame, p: SplitParams, k: nat): Rect
    requires p.numsplit != 0
  {
    Rect(p.paddingX + k * WidthStride(f, p), p.paddingY, WidthSide(f, p), WidthSide(f, p))
  }

  function WidthCount(f: Frame, p: SplitParams): nat
    requires WidthTerminates(f, p)
  {
    StepCount(f.cols - WidthSide(f, p) - p.paddingX, WidthStride(f, p))
  }

  /** Reference definition of everything the width split appends. */
  function WidthTiles(f: Frame, p: SplitParams): seq<Rect>
    requires WidthTerminates(f, p)
  {
    seq(WidthCount(f, p), k requires 0 <= k => WidthTile(f, p, k))
  }

  /** The width split loop stops at the first position that fails its test. */
  lemma WidthCountExact(f: Frame, p: SplitParams, k: nat)
    requires WidthTerminates(f, p)
    ensures WidthStride(f, p) > 0 ==> (WidthTest(f, p, k * WidthStride(f, p)) <==> k < WidthCount(f, p))
    ensures WidthStride(f, p) <= 0 ==> WidthCount(f, p) == 0
  {
    if WidthStride(f, p) > 0 {
      StepCountExact(f.cols - WidthSide(f, p) - p.paddingX, WidthStride(f, p), k);
    }
  }

  /**
   * Without a positive stride and with a passing first test, every position
   * of the loop passes its test, so the test never ends the loop.
   */
  lemma WidthLoopDiverges(f: Frame, p: SplitParams, k: nat)
    requires p.numsplit != 0 && WidthStride(f, p) <= 0 && WidthTest(f, p, 0)
    ensures WidthTest(f, p, k * WidthStride(f, p))
  {
    MulMono(0, k, -WidthStride(f, p));
    assert k * WidthStride(f, p) == -(k * -WidthStride(f, p));
  }

  /**
   * Every width tile is a (rows - paddingY) square on row paddingY, its left
   * edge at paddingX or beyond and its right edge strictly inside the frame;
   * the tiles go left to right.
   */
  lemma WidthTilesShape(f: Frame, p: SplitParams)
    requires WidthTerminates(f, p)
    ensures forall t :: t in WidthTiles(f, p) ==>
      t.width == t.height == f.rows - p.paddingY && t.y == p.paddingY &&
      p.paddingX <= t.x && t.x + t.width < f.cols
    ensures forall j, k :: 0 <= j < k < |WidthTiles(f, p)| ==> WidthTiles(f, p)[j].x < WidthTiles(f, p)[k].x
  {
    var tiles, s := WidthTiles(f, p), WidthStride(f, p);
    forall k | 0 <= k < |tiles|
      ensures p.paddingX <= tiles[k].x && tiles[k].x + tiles[k].width < f.cols
    {
      WidthCountExact(f, p, k);
      MulMono(0, k, s);
    }
    forall j, k | 0 <= j < k < |tiles|
      ensures tiles[j].x < tiles[k].x
    {
      WidthCountExact(f, p, 0);
      MulMono(j + 1, k, s);
      assert (j + 1) * s == j * s + s;
    }
  }

  /** splitWimage: appends the width split's tiles, in order, after `imgs`. */
  method SplitWImage(frame: Frame, imgs: seq<Rect>, p: SplitParams) returns (out: seq<Rect>)
    requires WidthTerminates(frame, p)
    ensures out == imgs + WidthTiles(frame, p)
  {
    var side := frame.rows - p.paddingY;
    var addVal := TruncDiv(frame.cols - frame.rows - p.paddingX, p.numsplit);
    ghost var tiles := WidthTiles(frame, p);
    out := imgs;
    var i := 0;
    ghost var k: nat := 0;
    while i + side + p.paddingX < frame.cols
      invariant i == k * addVal
      invariant addVal > 0 || k == 0
      invariant k <= |tiles|
      invariant out == imgs + tiles[..k]
      decreases frame.cols - (i + side + p.paddingX)
    {
      assert addVal > 0 && k < |tiles| && (k + 1) * addVal == i + addVal &&
        out + [Rect(i + p.paddingX, p.paddingY, side, side)] == imgs + tiles[..k + 1] by {
        WidthCountExact(frame, p, k);
        assert tiles[k] == Rect(i + p.paddingX, p.paddingY, side, side);
        assert tiles[..k + 1] == tiles[..k] + [tiles[k]];
      }
      out := out + [Rect(i + p.paddingX, p.paddingY, side, side)];
      i := i + addVal;
      k := k + 1;
    }
    WidthCountExact(frame, p, k);
    assert tiles[..k] == tiles;
  }

  // --------------------------------------------------------------- height split

  /** Side of every tile of the height split. */
  function HeightSide(f: Frame, p: SplitParams): int { f.cols - p.paddingX }

  /** `addVal` of the height split. */
  function HeightStride(f: Frame, p: SplitParams): int
    requires p.numsplit != 0
  {
    TruncDiv(f.rows - f.cols - p.paddingY, p.numsplit)
  }

  /** The height split's loop test at position i, which leaves paddingY out. */
  predicate HeightTest(f: Frame, p: SplitParams, i: int)
  {
    i + HeightSide(f, p) < f.rows
  }

  predicate HeightTerminates(f: Frame, p: SplitParams)
  {
    p.numsplit != 0 && (HeightStride(f, p) > 0 || !HeightTest(f, p, 0))
  }

  function HeightTile(f: Frame, p: SplitParams, k: nat): Rect
    requires p.numsplit != 0
  {
    Rect(p.paddingX, k * HeightStride(f, p) + p.paddingY, HeightSide(f, p), HeightSide(f, p))
  }

  function HeightCount(f: Frame, p: SplitParams): nat
    requires HeightTerminates(f, p)
  {
    StepCount(f.rows - HeightSide(f, p), HeightStride(f, p))
  }

  /** Reference definition of everything the height split appends. */
  function HeightTiles(f: Frame, p: SplitParams): seq<Rect>
    requires HeightTerminates(f, p)
  {
    seq(HeightCount(f, p), k requires 0 <= k => HeightTile(f, p, k))
  }

  lemma HeightCountExact(f: Frame, p: SplitParams, k: nat)
    requires HeightTerminates(f, p)
    ensures HeightStride(f, p) > 0 ==> (HeightTest(f, p, k * HeightStride(f, p)) <==> k < HeightCount(f, p))
    ensures HeightStride(f, p) <= 0 ==> HeightCount(f, p) == 0
  {
    if HeightStride(f, p) > 0 {
      StepCountExact(f.rows - HeightSide(f, p), HeightStride(f, p), k);
    }
  }

  lemma HeightLoopDiverges(f: Frame, p: SplitParams, k: nat)
    requires p.numsplit != 0 && HeightStride(f, p) <= 0 && HeightTest(f, p, 0)
    ensures HeightTest(f, p, k * HeightStride(f, p))
  {
    MulMono(0, k, -HeightStride(f, p));
    assert k * HeightStride(f, p) == -(k * -HeightStride(f, p));
  }

  /**
   * Every height tile is a (cols - paddingX) square in column paddingX, its
   * top at paddingY or below; because the loop test leaves paddingY out, its
   * bottom edge y + height is only bounded by rows - 1 + paddingY.
   * The tiles go top to bottom.
   */
  lemma HeightTilesShape(f: Frame, p: SplitParams)
    requires HeightTerminates(f, p)
    ensures forall t :: t in HeightTiles(f, p) ==>
      t.width == t.height == f.cols - p.paddingX && t.x == p.paddingX &&
      p.paddingY <= t.y && t.y + t.height <= f.rows - 1 + p.paddingY
    ensures forall j, k :: 0 <= j < k < |HeightTiles(f, p)| ==> HeightTiles(f, p)[j].y < HeightTiles(f, p)[k].y
  {
    var tiles, s := HeightTiles(f, p), HeightStride(f, p);
    forall k | 0 <= k < |tiles|
      ensures p.paddingY <= tiles[k].y && tiles[k].y + tiles[k].height <= f.rows - 1 + p.paddingY
    {
      HeightCountExact(f, p, k);
      MulMono(0, k, s);
    }
    forall j, k | 0 <= j < k < |tiles|
      ensures tiles[j].y < tiles[k].y
    {
      HeightCountExact(f, p, 0);
      MulMono(j + 1, k, s);
      assert (j + 1) * s == j * s + s;
    }
  }

  /**
   * The bound above is reached: a 10 x 20 frame with paddingY = 5 and
   * numsplit = 2 gets five tiles. The third still fits; the fourth, the
   * first region past the bottom edge, ends at row 21; the fifth at row 23.
   */
  lemma HeightTileOverrunsFrame()
    ensures var f, p := Frame(10, 20), SplitParams(0, 5, 2);
      HeightTerminates(f, p) && |HeightTiles(f, p)| == 5 &&
      HeightTiles(f, p)[2] == Rect(0, 9, 10, 10) &&
      HeightTiles(f, p)[2].y + HeightTiles(f, p)[2].height <= f.rows &&
      HeightTiles(f, p)[3] == Rect(0, 11, 10, 10) &&
      HeightTiles(f, p)[3].y + HeightTiles(f, p)[3].height > f.rows &&
      HeightTiles(f, p)[4] == Rect(0, 13, 10, 10) &&
      HeightTiles(f, p)[4].y + HeightTiles(f, p)[4].height > f.rows
  {
    var f, p := Frame(10, 20), SplitParams(0, 5, 2);
    assert HeightStride(f, p) == 2;
    assert HeightCount(f, p) == 5;
  }

  /** splitHImage, with its loop test as written. */
  method SplitHImage(frame: Frame, imgs: seq<Rect>, p: SplitParams) returns (out: seq<Rect>)
    requires HeightTerminates(frame, p)
    ensures out == imgs + HeightTiles(frame, p)
  {
    var side := frame.cols - p.paddingX;
    var addVal := TruncDiv(frame.rows - frame.cols - p.paddingY, p.numsplit);
    ghost var tiles := HeightTiles(frame, p);
    out := imgs;
    var i := 0;
    ghost var k: nat := 0;
    while i + side < frame.rows
      invariant i == k * addVal
      invariant addVal > 0 || k == 0
      invariant k <= |tiles|
      invariant out == imgs + tiles[..k]
      decreases frame.rows - (i + side)
    {
      assert addVal > 0 && k < |tiles| && (k + 1) * addVal == i + addVal &&
        out + [Rect(p.paddingX, i + p.paddingY, side, side)] == imgs + tiles[..k + 1] by {
        HeightCountExact(frame, p, k);
        assert tiles[k] == Rect(p.paddingX, i + p.paddingY, side, side);
        assert tiles[..k + 1] == tiles[..k] + [tiles[k]];
      }
      out := out + [Rect(p.paddingX, i + p.paddingY, side, side)];
      i := i + addVal;
      k := k + 1;
    }
    HeightCountExact(frame, p, k);
    assert tiles[..k] == tiles;
  }

  // ---------------------------------------------- the two splits are transposes

  function TransposeFrame(f: Frame): Frame { Frame(f.rows, f.cols) }

  function SwapPadding(p: SplitParams): SplitParams
  {
    SplitParams(p.paddingY, p.paddingX, p.numsplit)
  }

  function TransposeRect(r: Rect): Rect { Rect(r.y, r.x, r.height, r.width) }

  function TransposeRects(rs: seq<Rect>): (ts: seq<Rect>)
    ensures |ts| == |rs|
  {
    seq(|rs|, k requires 0 <= k < |rs| => TransposeRect(rs[k]))
  }

  /**
   * With paddingY = 0 the height split as written is the width split of the
   * transposed frame (with the paddings swapped), transposed back.
   */
  lemma HeightIsTransposedWidth(f: Frame, p: SplitParams)
    requires HeightTerminates(f, p) && p.paddingY == 0
    ensures WidthTerminates(TransposeFrame(f), SwapPadding(p))
    ensures HeightTiles(f, p) == TransposeRects(WidthTiles(TransposeFrame(f), SwapPadding(p)))
  {
    var tf, tp := TransposeFrame(f), SwapPadding(p);
    assert WidthStride(tf, tp) == HeightStride(f, p);
    assert WidthCount(tf, tp) == HeightCount(f, p);
  }

  /** The transposed width tiles, read as height tiles of the original frame. */
  lemma TransposedWidthTilesShape(f: Frame, p: SplitParams)
    requires WidthTerminates(TransposeFrame(f), SwapPadding(p))
    ensures forall t :: t in TransposeRects(WidthTiles(TransposeFrame(f), SwapPadding(p))) ==>
      t.width == t.height == f.cols - p.paddingX && t.x == p.paddingX &&
      p.paddingY <= t.y && t.y + t.height < f.rows
    ensures 0 <= p.paddingX <= f.cols && 0 <= p.paddingY ==>
      forall t :: t in TransposeRects(WidthTiles(TransposeFrame(f), SwapPadding(p))) ==>
        0 <= t.width && 0 <= t.x <= f.cols && 0 <= t.y &&
        t.x + t.width <= f.cols && t.y + t.height <= f.rows
  {
    var tf, tp := TransposeFrame(f), SwapPadding(p);
    var ws := WidthTiles(tf, tp);
    var ts := TransposeRects(ws);
    WidthTilesShape(tf, tp);
    forall t | t in ts
      ensures t.width == t.height == f.cols - p.paddingX && t.x == p.paddingX &&
        p.paddingY <= t.y && t.y + t.height < f.rows
    {
      var k :| 0 <= k < |ts| && ts[k] == t;
      assert ws[k] in ws;
    }
  }

  /**
   * The height split with the loop test the width split uses,
   * `i + side + paddingY < rows`: it is exactly the transposed width split,
   * so every tile ends strictly above the bottom edge; when paddingY is not
   * negative and paddingX lies between 0 and the width, every tile is a
   * rectangle of non-negative size inside the frame.
   */
  method SplitHImageBounded(frame: Frame, imgs: seq<Rect>, p: SplitParams) returns (out: seq<Rect>)
    requires WidthTerminates(TransposeFrame(frame), SwapPadding(p))
    ensures out == imgs + TransposeRects(WidthTiles(TransposeFrame(frame), SwapPadding(p)))
    ensures |imgs| <= |out|
    ensures forall t :: t in out[|imgs|..] ==>
      t.width == t.height == frame.cols - p.paddingX && t.x == p.paddingX &&
      p.paddingY <= t.y && t.y + t.height < frame.rows
    ensures 0 <= p.paddingX <= frame.cols && 0 <= p.paddingY ==> forall t :: t in out[|imgs|..] ==>
      0 <= t.width && 0 <= t.x <= frame.cols && 0 <= t.y &&
      t.x + t.width <= frame.cols && t.y + t.height <= frame.rows
  {
    ghost var tf, tp := TransposeFrame(frame), SwapPadding(p);
    ghost var tiles := TransposeRects(WidthTiles(tf, tp));
    var side := frame.cols - p.paddingX;
    var addVal := TruncDiv(frame.rows - frame.cols - p.paddingY, p.numsplit);
    out := imgs;
    var i := 0;
    ghost var k: nat := 0;
    while i + side + p.paddingY < frame.rows
      invariant i == k * addVal
      invariant addVal > 0 || k == 0
      invariant k <= |tiles|
      invariant out == imgs + tiles[..k]
      decreases frame.rows - (i + side + p.paddingY)
    {
      assert addVal > 0 && k < |tiles| && (k + 1) * addVal == i + addVal &&
        out + [Rect(p.paddingX, i + p.paddingY, side, side)] == imgs + tiles[..k + 1] by {
        WidthCountExact(tf, tp, k);
        assert tiles[k] == TransposeRect(WidthTile(tf, tp, k)) == Rect(p.paddingX, i + p.paddingY, side, side);
        assert tiles[..k + 1] == tiles[..k] + [tiles[k]];
      }
      out := out + [Rect(p.paddingX, i + p.paddingY, side, side)];
      i := i + addVal;
      k := k + 1;
    }
    assert out == imgs + tiles by {
      WidthCountExact(tf, tp, k);
      assert tiles[..k] == tiles;
    }
    assert out[|imgs|..] == tiles;
    TransposedWidthTilesShape(frame, p);
  }

  // ------------------------------------------------------------------ dispatch

  /**
   * The test `1 <= (float)cols / (float)rows` on exact values: an empty
   * height gives +infinity for a positive width and NaN for a zero one.
   */
  predicate UsesWidthSplit(f: Frame)
  {
    if f.rows == 0 then f.cols > 0 else f.rows <= f.cols
  }

  predicate SplitTerminates(f: Frame, p: SplitParams)
  {
    if UsesWidthSplit(f) then WidthTerminates(f, p) else HeightTerminates(f, p)
  }

  /** splitImage: wide or square frames take the width split, tall ones the height split. */
  method SplitImage(frame: Frame, imgs: seq<Rect>, p: SplitParams) returns (out: seq<Rect>)
    requires SplitTerminates(frame, p)
    ensures frame.rows <= frame.cols && 0 < frame.cols ==> out == imgs + WidthTiles(frame, p)
    ensures !(frame.rows <= frame.cols && 0 < frame.cols) ==> out == imgs + HeightTiles(frame, p)
    ensures |imgs| <= |out|
    ensures forall t :: t in out[|imgs|..] ==> t.width == t.height
  {
    if UsesWidthSplit(frame) {
      out := SplitWImage(frame, imgs, p);
      WidthTilesShape(frame, p);
    } else {
      out := SplitHImage(frame, imgs, p);
      HeightTilesShape(frame, p);
    }
    assert out[|imgs|..] == if UsesWidthSplit(frame) then WidthTiles(frame, p) else HeightTiles(frame, p);
  }
}
