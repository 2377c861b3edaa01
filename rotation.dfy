/**
 * The tile augmenter: one of four quarter-turn rotations, chosen by a random
 * draw, built from matrix transposition and flips. A tile is a rectangular
 * grid of pixels of an abstract type; dimensions are kept explicitly so that
 * grids with no columns transpose and back without loss.
 */
module Rotation {

  datatype Grid<T> = Grid(height: nat, width: nat, cells: seq<seq<T>>) {
    /** Every one of the `height` rows holds `width` pixels. */
    ghost predicate Valid()
    {
      |cells| == height && forall i :: 0 <= i < height ==> |cells[i]| == width
    }

    function At(i: nat, j: nat): T
      requires Valid() && i < height && j < width
    {
      cells[i][j]
    }
  }

  /** Two grids with the same dimensions and the same pixels are equal. */
  lemma GridsEqual<T>(a: Grid<T>, b: Grid<T>)
    requires a.Valid() && b.Valid() && a.height == b.height && a.width == b.width
    requires forall i, j :: 0 <= i < a.height && 0 <= j < a.width ==> a.At(i, j) == b.At(i, j)
    ensures a == b
  {
    forall i | 0 <= i < a.height
      ensures a.cells[i] == b.cells[i]
    {
      assert |a.cells[i]| == a.width == |b.cells[i]|;
      forall j | 0 <= j < a.width
        ensures a.cells[i][j] == b.cells[i][j]
      {
        assert a.At(i, j) == b.At(i, j);
      }
    }
    assert a.cells == b.cells;
  }

  /** cv::transpose: pixel (i, j) of the result is pixel (j, i) of the source. */
  function Transpose<T>(g: Grid<T>): (r: Grid<T>)
    requires g.Valid()
    ensures r.Valid() && r.height == g.width && r.width == g.height
  {
    Grid(g.width, g.height,
      seq(g.width, i requires 0 <= i < g.width =>
        seq(g.height, j requires 0 <= j < g.height => g.cells[j][i])))
  }

  /** Mirror around the horizontal axis: row i becomes row h-1-i. */
  function MirrorRows<T>(g: Grid<T>): (r: Grid<T>)
    requires g.Valid()
    ensures r.Valid() && r.height == g.height && r.width == g.width
  {
    Grid(g.height, g.width,
      seq(g.height, i requires 0 <= i < g.height =>
        seq(g.width, j requires 0 <= j < g.width => g.cells[g.height - 1 - i][j])))
  }

  /** Mirror around the vertical axis: column j becomes column w-1-j. */
  function MirrorColumns<T>(g: Grid<T>): (r: Grid<T>)
    requires g.Valid()
    ensures r.Valid() && r.height == g.height && r.width == g.width
  {
    Grid(g.height, g.width,
      seq(g.height, i requires 0 <= i < g.height =>
        seq(g.width, j requires 0 <= j < g.width => g.cells[i][g.width - 1 - j])))
  }

  /**
   * cv::flip: a positive code mirrors around the vertical axis, zero around
   * the horizontal axis, a negative code around both.
   */
  function Flip<T>(g: Grid<T>, code: int): (r: Grid<T>)
    requires g.Valid()
    ensures r.Valid() && r.height == g.height && r.width == g.width
  {
    if code > 0 then MirrorColumns(g)
    else if code == 0 then MirrorRows(g)
    else MirrorColumns(MirrorRows(g))
  }

  /** Rotation by 90 degrees as a pixel index map. */
  function Rotate90<T>(g: Grid<T>): (r: Grid<T>)
    requires g.Valid()
    ensures r.Valid() && r.height == g.width && r.width == g.height
  {
    Grid(g.width, g.height,
      seq(g.width, i requires 0 <= i < g.width =>
        seq(g.height, j requires 0 <= j < g.height => g.cells[g.height - 1 - j][i])))
  }

  /** Rotation by 180 degrees as a pixel index map. */
  function Rotate180<T>(g: Grid<T>): (r: Grid<T>)
    requires g.Valid()
    ensures r.Valid() && r.height == g.height && r.width == g.width
  {
    Grid(g.height, g.width,
      seq(g.height, i requires 0 <= i < g.height =>
        seq(g.width, j requires 0 <= j < g.width => g.cells[g.height - 1 - i][g.width - 1 - j])))
  }

  /** Rotation by 270 degrees as a pixel index map. */
  function Rotate270<T>(g: Grid<T>): (r: Grid<T>)
    requires g.Valid()
    ensures r.Valid() && r.height == g.width && r.width == g.height
  {
    Grid(g.width, g.height,
      seq(g.width, i requires 0 <= i < g.width =>
        seq(g.height, j requires 0 <= j < g.height => g.cells[j][g.width - 1 - i])))
  }

  /** The rotation selected by case k of randamRota (3 and any other value: none). */
  function Rotated<T>(k: int, g: Grid<T>): (r: Grid<T>)
    requires g.Valid()
    ensures r.Valid()
    ensures g.height == g.width ==> r.height == g.height && r.width == g.width
  {
    if k == 0 then Rotate90(g)
    else if k == 1 then Rotate180(g)
    else if k == 2 then Rotate270(g)
    else g
  }

  /**
   * The pixel index map of each case: case 0 reads pixel (h-1-j, i) into
   * (i, j), case 1 pixel (h-1-i, w-1-j), case 2 pixel (j, w-1-i), and case 3
   * leaves the tile as it is.
   */
  ghost predicate RotationIndexMap<T>(k: int, g: Grid<T>, r: Grid<T>)
    requires g.Valid() && r.Valid()
  {
    var h, w := g.height, g.width;
    (k == 0 ==> (r.height == w && r.width == h &&
      forall i, j :: 0 <= i < w && 0 <= j < h ==> r.At(i, j) == g.At(h - 1 - j, i))) &&
    (k == 1 ==> (r.height == h && r.width == w &&
      forall i, j :: 0 <= i < h && 0 <= j < w ==> r.At(i, j) == g.At(h - 1 - i, w - 1 - j))) &&
    (k == 2 ==> (r.height == w && r.width == h &&
      forall i, j :: 0 <= i < w && 0 <= j < h ==> r.At(i, j) == g.At(j, w - 1 - i))) &&
    (k == 3 ==> r == g)
  }

  lemma TransposeAt<T>(g: Grid<T>, i: nat, j: nat)
    requires g.Valid() && i < g.width && j < g.height
    ensures Transpose(g).At(i, j) == g.At(j, i)
  {
  }

  lemma MirrorRowsAt<T>(g: Grid<T>, i: nat, j: nat)
    requires g.Valid() && i < g.height && j < g.width
    ensures MirrorRows(g).At(i, j) == g.At(g.height - 1 - i, j)
  {
  }

  lemma MirrorColumnsAt<T>(g: Grid<T>, i: nat, j: nat)
    requires g.Valid() && i < g.height && j < g.width
    ensures MirrorColumns(g).At(i, j) == g.At(i, g.width - 1 - j)
  {
  }

  lemma Rotate90At<T>(g: Grid<T>, i: nat, j: nat)
    requires g.Valid() && i < g.width && j < g.height
    ensures Rotate90(g).At(i, j) == g.At(g.height - 1 - j, i)
  {
  }

  lemma Rotate180At<T>(g: Grid<T>, i: nat, j: nat)
    requires g.Valid() && i < g.height && j < g.width
    ensures Rotate180(g).At(i, j) == g.At(g.height - 1 - i, g.width - 1 - j)
  {
  }

  lemma Rotate270At<T>(g: Grid<T>, i: nat, j: nat)
    requires g.Valid() && i < g.width && j < g.height
    ensures Rotate270(g).At(i, j) == g.At(j, g.width - 1 - i)
  {
  }

  /** Transposing, then mirroring around the vertical axis, turns by 90 degrees. */
  lemma TransposeThenMirrorIsRotate90<T>(g: Grid<T>)
    requires g.Valid()
    ensures Flip(Transpose(g), 1) == Rotate90(g)
  {
    var t := Transpose(g);
    var a, b := MirrorColumns(t), Rotate90(g);
    forall i, j | 0 <= i < a.height && 0 <= j < a.width
      ensures a.At(i, j) == b.At(i, j)
    {
      MirrorColumnsAt(t, i, j);
      TransposeAt(g, i, g.height - 1 - j);
      Rotate90At(g, i, j);
    }
    GridsEqual(a, b);
  }

  /** Transposing, then mirroring around the horizontal axis, turns by 270 degrees. */
  lemma TransposeThenFlipIsRotate270<T>(g: Grid<T>)
    requires g.Valid()
    ensures Flip(Transpose(g), 0) == Rotate270(g)
  {
    var t := Transpose(g);
    var a, b := MirrorRows(t), Rotate270(g);
    forall i, j | 0 <= i < a.height && 0 <= j < a.width
      ensures a.At(i, j) == b.At(i, j)
    {
      MirrorRowsAt(t, i, j);
      TransposeAt(g, g.width - 1 - i, j);
      Rotate270At(g, i, j);
    }
    GridsEqual(a, b);
  }

  /** Mirroring around both axes turns by 180 degrees. */
  lemma FlipBothIsRotate180<T>(g: Grid<T>)
    requires g.Valid()
    ensures Flip(g, -1) == Rotate180(g)
  {
    var m := MirrorRows(g);
    var a, b := MirrorColumns(m), Rotate180(g);
    forall i, j | 0 <= i < a.height && 0 <= j < a.width
      ensures a.At(i, j) == b.At(i, j)
    {
      MirrorColumnsAt(m, i, j);
      MirrorRowsAt(g, i, g.width - 1 - j);
      Rotate180At(g, i, j);
    }
    GridsEqual(a, b);
  }

  /**
   * randamRota: the draw modulo 4 selects the case; the tile is transformed
   * by transposes and flips exactly as the cases do, and the result is the
   * matching quarter turn, pixel by pixel.
   */
  method RandamRota<T>(draw: nat, frame: Grid<T>) returns (out: Grid<T>)
    requires frame.Valid()
    ensures out == Rotated(draw % 4, frame)
    ensures out.Valid()
    ensures frame.height == frame.width ==> out.height == frame.height && out.width == frame.width
    ensures RotationIndexMap(draw % 4, frame, out)
  {
    out := frame;
    var index := draw % 4;
    if index == 0 {
      out := Transpose(out);
      out := Flip(out, 1);
      TransposeThenMirrorIsRotate90(frame);
    } else if index == 1 {
      out := Flip(out, -1);
      FlipBothIsRotate180(frame);
    } else if index == 2 {
      out := Transpose(out);
      out := Flip(out, 0);
      TransposeThenFlipIsRotate270(frame);
    }
  }

  /** Case 0 followed by case 2 restores the tile. */
  lemma Rotate270UndoesRotate90<T>(g: Grid<T>)
    requires g.Valid()
    ensures Rotate270(Rotate90(g)) == g
  {
    var r := Rotate90(g);
    var a := Rotate270(r);
    forall i, j | 0 <= i < a.height && 0 <= j < a.width
      ensures a.At(i, j) == g.At(i, j)
    {
      Rotate270At(r, i, j);
      Rotate90At(g, j, g.height - 1 - i);
    }
    GridsEqual(a, g);
  }

  /** Case 2 followed by case 0 restores the tile. */
  lemma Rotate90UndoesRotate270<T>(g: Grid<T>)
    requires g.Valid()
    ensures Rotate90(Rotate270(g)) == g
  {
    var r := Rotate270(g);
    var a := Rotate90(r);
    forall i, j | 0 <= i < a.height && 0 <= j < a.width
      ensures a.At(i, j) == g.At(i, j)
    {
      Rotate90At(r, i, j);
      Rotate270At(g, g.width - 1 - j, i);
    }
    GridsEqual(a, g);
  }

  /** Case 1 applied twice restores the tile. */
  lemma Rotate180Involution<T>(g: Grid<T>)
    requires g.Valid()
    ensures Rotate180(Rotate180(g)) == g
  {
    var r := Rotate180(g);
    var a := Rotate180(r);
    forall i, j | 0 <= i < a.height && 0 <= j < a.width
      ensures a.At(i, j) == g.At(i, j)
    {
      Rotate180At(r, i, j);
      Rotate180At(g, g.height - 1 - i, g.width - 1 - j);
    }
    GridsEqual(a, g);
  }

  /** Case 0 applied twice is case 1. */
  lemma TwoQuarterTurnsAreHalfTurn<T>(g: Grid<T>)
    requires g.Valid()
    ensures Rotate90(Rotate90(g)) == Rotate180(g)
  {
    var r := Rotate90(g);
    var a, b := Rotate90(r), Rotate180(g);
    forall i, j | 0 <= i < a.height && 0 <= j < a.width
      ensures a.At(i, j) == b.At(i, j)
    {
      Rotate90At(r, i, j);
      Rotate90At(g, g.width - 1 - j, i);
      Rotate180At(g, i, j);
    }
    GridsEqual(a, b);
  }

  /** Four quarter turns restore the tile. */
  lemma FourQuarterTurnsAreIdentity<T>(g: Grid<T>)
    requires g.Valid()
    ensures Rotate90(Rotate90(Rotate90(Rotate90(g)))) == g
  {
    TwoQuarterTurnsAreHalfTurn(g);
    TwoQuarterTurnsAreHalfTurn(Rotate90(Rotate90(g)));
    Rotate180Involution(g);
  }
}
