/**
 * Scaffold view (day 17): the camera's pixel stream laid out on a grid of
 * (x, y) cells, and the search for scaffold intersections, which marks each
 * intersection it counts in place. The Intcode program that produces the
 * pixels is not part of this model: the stream is a parameter.
 */
module Scaffold {
  import opened Common

  const NEWLINE: int := 10
  const SCAFFOLD: int := 35
  const INTERSECTION: int := 73

  type Cell = (int, int)

  /**
   * A Python dict from cells to pixels: the values, and the keys in
   * insertion order (the order `items()` visits them).
   */
  datatype View = View(order: seq<Cell>, pixels: map<Cell, int>)

  /** No cell is listed twice. */
  predicate Distinct(order: seq<Cell>)
  {
    forall i, j :: 0 <= i < j < |order| ==> order[i] != order[j]
  }

  /** The key order lists every key of the dict exactly once. */
  predicate Valid(view: View)
  {
    && Distinct(view.order)
    && (forall i :: 0 <= i < |view.order| ==> view.order[i] in view.pixels)
    && (forall c :: c in view.pixels ==> c in view.order)
  }

  /** `view[cell] = pixel`: a new key goes to the end of the order, an old one keeps its place. */
  function Put(view: View, cell: Cell, pixel: int): (r: View)
    ensures Valid(view) ==> Valid(r)
    ensures r.pixels == view.pixels[cell := pixel]
    ensures cell !in view.pixels && Valid(view) ==> r.order == view.order + [cell]
  {
    if cell in view.pixels then View(view.order, view.pixels[cell := pixel])
    else View(view.order + [cell], view.pixels[cell := pixel])
  }

  // ---------------------------------------------------------------------
  // `build_scaffold_view`: the layout loop.

  /** The loop's state: the next cell, the sizes seen so far and the view. */
  datatype Layout = Layout(x: int, y: int, xsize: int, ysize: int, view: View)

  function Max(a: int, b: int): int
  {
    if a < b then b else a
  }

  /**
   * One pixel: a newline first records the row it ends as `ysize` (when
   * larger) and moves to column 0 of the next row; then the pixel itself is
   * stored at the current cell, `xsize` grows to its column and the column
   * advances.
   */
  function Step(s: Layout, pixel: int): (r: Layout)
    ensures r.view.pixels == s.view.pixels[NextCell(s, pixel) := pixel]
    ensures (r.x - 1, r.y) == NextCell(s, pixel)
    ensures r.xsize >= s.xsize && r.xsize >= r.x - 1 && r.ysize >= s.ysize
    ensures pixel == NEWLINE ==> r.ysize >= s.y
  {
    var ysize := if pixel == NEWLINE then Max(s.ysize, s.y) else s.ysize;
    var y := if pixel == NEWLINE then s.y + 1 else s.y;
    var x := if pixel == NEWLINE then 0 else s.x;
    Layout(x + 1, y, Max(s.xsize, x), ysize, Put(s.view, (x, y), pixel))
  }

  /**
   * The layout after the whole stream, starting at (0, 0) with both sizes 0:
   * the cursor is on the row after the last newline, and neither size goes
   * below 0.
   */
  function Build(stream: seq<int>): (r: Layout)
    ensures r.y == Newlines(stream)
    ensures r.xsize >= 0 && r.ysize >= 0
  {
    if |stream| == 0 then Layout(0, 0, 0, 0, View([], map[]))
    else Step(Build(stream[..|stream| - 1]), stream[|stream| - 1])
  }

  /** How many newlines the stream holds. */
  function Newlines(stream: seq<int>): nat
  {
    if |stream| == 0 then 0
    else Newlines(stream[..|stream| - 1]) + (if stream[|stream| - 1] == NEWLINE then 1 else 0)
  }

  /** The index of the last newline of the stream, or 0 when it has none. */
  function LastNewline(stream: seq<int>): (i: nat)
    ensures |stream| > 0 ==> i < |stream|
  {
    if |stream| == 0 then 0
    else if stream[|stream| - 1] == NEWLINE then |stream| - 1
    else LastNewline(stream[..|stream| - 1])
  }

  /**
   * Where the k-th pixel of the stream lands: its row is the number of
   * newlines up to and including it, and its column its distance from the
   * last of those newlines (from the start of the stream on the first row).
   */
  function Position(stream: seq<int>, k: nat): Cell
    requires k < |stream|
  {
    var upto := stream[..k + 1];
    (k - LastNewline(upto), Newlines(upto))
  }

  /** The largest column any pixel lands in, 0 for an empty stream. */
  function Width(stream: seq<int>): int
  {
    if |stream| == 0 then 0
    else Max(Width(stream[..|stream| - 1]), Position(stream, |stream| - 1).0)
  }

  lemma {:induction false} WidthBounds(stream: seq<int>)
    ensures Width(stream) >= 0
    ensures forall k :: 0 <= k < |stream| ==> Position(stream, k).0 <= Width(stream)
    ensures |stream| > 0 ==> exists k :: 0 <= k < |stream| && Position(stream, k).0 == Width(stream)
  {
    if |stream| > 0 {
      var last := |stream| - 1;
      var prefix := stream[..last];
      WidthBounds(prefix);
      var here := Position(stream, last).0;
      assert Width(stream) == Max(Width(prefix), here);
      forall k | 0 <= k < |prefix|
        ensures Position(prefix, k) == Position(stream, k)
      {
        PositionPrefix(stream, last, k);
      }
      if |prefix| > 0 && here < Width(prefix) {
        var k :| 0 <= k < |prefix| && Position(prefix, k).0 == Width(prefix);
        assert Position(stream, k).0 == Width(stream);
      } else {
        assert here == Width(stream);
      }
    }
  }

  /** A pixel lands where it lands in any longer stream. */
  lemma PositionPrefix(stream: seq<int>, n: nat, k: nat)
    requires k < n <= |stream|
    ensures Position(stream[..n], k) == Position(stream, k)
  {
    assert stream[..n][..k + 1] == stream[..k + 1];
  }

  /** Moving from the prefix of length k to that of length k + 1: a newline restarts the column. */
  lemma PositionStep(stream: seq<int>, k: nat)
    requires k < |stream|
    ensures stream[k] == NEWLINE ==> Position(stream, k) == (0, Newlines(stream[..k]) + 1)
    ensures stream[k] != NEWLINE && k > 0 ==>
      Position(stream, k) == (Position(stream, k - 1).0 + 1, Position(stream, k - 1).1)
    ensures stream[k] != NEWLINE && k == 0 ==> Position(stream, k) == (0, 0)
  {
    var upto := stream[..k + 1];
    assert upto[..|upto| - 1] == stream[..k];
    if stream[k] != NEWLINE {
      assert LastNewline(upto) == LastNewline(stream[..k]);
      assert Newlines(upto) == Newlines(stream[..k]);
      if k > 0 {
        assert stream[..k] == stream[..k - 1 + 1];
      }
    }
  }

  /**
   * The layout after `stream`: the k-th pixel at `Position(stream, k)`, on a
   * cell of its own, in stream order; the cursor on the row after the last
   * newline, one column past the last pixel, so every cell written lies
   * before it.
   */
  predicate LaidOut(stream: seq<int>, s: Layout)
  {
    Placed(stream, s.view) && Cursor(stream, s) && Fresh(s)
  }

  /** The k-th pixel of the stream is the k-th key, at `Position(stream, k)`. */
  predicate Placed(stream: seq<int>, view: View)
  {
    && |view.order| == |stream|
    && (forall k :: 0 <= k < |stream| ==> view.order[k] == Position(stream, k))
    && (forall k :: 0 <= k < |stream| ==> view.order[k] in view.pixels && view.pixels[view.order[k]] == stream[k])
  }

  /** The cursor is on the row after the last newline, one column past the last pixel. */
  predicate Cursor(stream: seq<int>, s: Layout)
  {
    && s.y == Newlines(stream)
    && s.x == (if |stream| == 0 then 0 else Position(stream, |stream| - 1).0 + 1)
  }

  /** Every key is listed once, and lies before the cursor. */
  predicate Fresh(s: Layout)
  {
    Valid(s.view) && forall k :: 0 <= k < |s.view.order| ==> Before(s.view.order[k], s)
  }

  /** A cell the loop has already passed: an earlier row, or this row left of the cursor. */
  predicate Before(c: Cell, s: Layout)
  {
    c.1 < s.y || (c.1 == s.y && c.0 < s.x)
  }

  /** The cell the next pixel goes to, as the loop computes it from its cursor. */
  function NextCell(s: Layout, pixel: int): Cell
  {
    if pixel == NEWLINE then (0, s.y + 1) else (s.x, s.y)
  }

  /** With the cursor after the prefix, the last pixel goes to its position and the cursor moves past it. */
  lemma CursorStep(stream: seq<int>, s0: Layout)
    requires |stream| > 0 && Cursor(stream[..|stream| - 1], s0)
    ensures NextCell(s0, stream[|stream| - 1]) == Position(stream, |stream| - 1)
    ensures Cursor(stream, Step(s0, stream[|stream| - 1]))
  {
    var n := |stream| - 1;
    PositionStep(stream, n);
    if n > 0 {
      PositionPrefix(stream, n, n - 1);
    }
  }

  /** A step writes a cell not yet written, and the cells written so far stay behind the cursor. */
  lemma StepFresh(s0: Layout, pixel: int)
    requires Fresh(s0)
    ensures NextCell(s0, pixel) !in s0.view.pixels
    ensures Step(s0, pixel).view.order == s0.view.order + [NextCell(s0, pixel)]
    ensures Fresh(Step(s0, pixel))
  {
  }

  /** Writing the last pixel on a new key keeps the earlier keys, and their pixels, where they were. */
  lemma EarlierKeysKept(stream: seq<int>, s0: Layout)
    requires |stream| > 0 && Placed(stream[..|stream| - 1], s0.view)
    requires NextCell(s0, stream[|stream| - 1]) !in s0.view.pixels
    requires Step(s0, stream[|stream| - 1]).view.order == s0.view.order + [NextCell(s0, stream[|stream| - 1])]
    ensures var s := Step(s0, stream[|stream| - 1]);
      forall k :: 0 <= k < |stream| - 1 ==>
        && s.view.order[k] == Position(stream, k)
        && s.view.order[k] in s.view.pixels && s.view.pixels[s.view.order[k]] == stream[k]
  {
    var n := |stream| - 1;
    var s := Step(s0, stream[n]);
    forall k | 0 <= k < n
      ensures s.view.order[k] == Position(stream, k)
      ensures s.view.order[k] in s.view.pixels && s.view.pixels[s.view.order[k]] == stream[k]
    {
      PositionPrefix(stream, n, k);
      assert stream[..n][k] == stream[k];
    }
  }

  /** Writing the last pixel at its position, on a new key, places the whole stream. */
  lemma PlacedStep(stream: seq<int>, s0: Layout)
    requires |stream| > 0 && Placed(stream[..|stream| - 1], s0.view)
    requires NextCell(s0, stream[|stream| - 1]) == Position(stream, |stream| - 1)
    requires NextCell(s0, stream[|stream| - 1]) !in s0.view.pixels
    requires Step(s0, stream[|stream| - 1]).view.order == s0.view.order + [NextCell(s0, stream[|stream| - 1])]
    ensures Placed(stream, Step(s0, stream[|stream| - 1]).view)
  {
    EarlierKeysKept(stream, s0);
  }

  /** One more pixel keeps the layout. */
  lemma LayoutStep(stream: seq<int>, s0: Layout)
    requires |stream| > 0 && LaidOut(stream[..|stream| - 1], s0)
    ensures LaidOut(stream, Step(s0, stream[|stream| - 1]))
  {
    CursorStep(stream, s0);
    StepFresh(s0, stream[|stream| - 1]);
    PlacedStep(stream, s0);
  }

  /** The layout loop lays the whole stream out. */
  lemma {:induction false} BuildLayout(stream: seq<int>)
    ensures LaidOut(stream, Build(stream))
  {
    if |stream| > 0 {
      BuildLayout(stream[..|stream| - 1]);
      LayoutStep(stream, Build(stream[..|stream| - 1]));
    }
  }

  lemma BuildCursor(stream: seq<int>)
    ensures Cursor(stream, Build(stream))
  {
    BuildLayout(stream);
  }

  /**
   * `xsize` is the widest column written and `ysize` the row the last
   * newline ended, 0 when there is none.
   */
  lemma {:induction false} BuildSizes(stream: seq<int>)
    ensures Build(stream).xsize == Width(stream)
    ensures Build(stream).ysize == (if Newlines(stream) == 0 then 0 else Newlines(stream) - 1)
  {
    if |stream| > 0 {
      var n := |stream| - 1;
      var prefix := stream[..n];
      BuildSizes(prefix);
      BuildCursor(prefix);
      PositionStep(stream, n);
      assert Build(stream) == Step(Build(prefix), stream[n]);
      if n > 0 {
        PositionPrefix(stream, n, n - 1);
      }
    }
  }

  /** The first pixel lands at (0, 0) unless it is a newline, which lands at (0, 1). */
  lemma FirstPixel(stream: seq<int>)
    requires |stream| > 0
    ensures |Build(stream).view.order| == |stream|
    ensures Build(stream).view.order[0] == (if stream[0] == NEWLINE then (0, 1) else (0, 0))
  {
    BuildLayout(stream);
    PositionStep(stream, 0);
  }

  /**
   * A newline is stored at column 0 of the row it starts, and the pixels
   * after it on that row start at column 1.
   */
  lemma NewlineStartsRow(stream: seq<int>, k: nat)
    requires k < |stream| && stream[k] == NEWLINE
    ensures |Build(stream).view.order| == |stream|
    ensures Build(stream).view.order[k] == (0, Newlines(stream[..k]) + 1)
    ensures k + 1 < |stream| && stream[k + 1] != NEWLINE ==>
      Build(stream).view.order[k + 1] == (1, Newlines(stream[..k]) + 1)
  {
    BuildLayout(stream);
    PositionStep(stream, k);
    if k + 1 < |stream| && stream[k + 1] != NEWLINE {
      PositionStep(stream, k + 1);
    }
  }

  // ---------------------------------------------------------------------
  // `find_intersections`.

  predicate IsScaffold(pixels: map<Cell, int>, c: Cell)
  {
    c in pixels && pixels[c] == SCAFFOLD
  }

  /** The four neighbours, in the order the source lists them. */
  function Neighbors(c: Cell): seq<Cell>
  {
    [(c.0 + 1, c.1), (c.0 - 1, c.1), (c.0, c.1 + 1), (c.0, c.1 - 1)]
  }

  predicate Adjacent(a: Cell, b: Cell)
  {
    Abs(a.0 - b.0) + Abs(a.1 - b.1) == 1
  }

  /** A scaffold cell whose four neighbours are scaffold too (`view.get` gives None off the grid). */
  predicate Crossing(pixels: map<Cell, int>, c: Cell)
  {
    IsScaffold(pixels, c) && forall i :: 0 <= i < 4 ==> IsScaffold(pixels, Neighbors(c)[i])
  }

  /** The alignment parameter the source records for a counted cell. */
  function Alignment(c: Cell): nat
  {
    Abs((c.0 - 1) * c.1)
  }

  /** Visiting one cell: a crossing, as the pixels stand now, is overwritten with 73. */
  function Visit(pixels: map<Cell, int>, c: Cell): (r: map<Cell, int>)
    ensures r.Keys == pixels.Keys
  {
    if Crossing(pixels, c) then pixels[c := INTERSECTION] else pixels
  }

  /** Visiting `c` changes at most the pixel at `c`. */
  lemma VisitAt(pixels: map<Cell, int>, c: Cell, d: Cell)
    requires d in pixels
    ensures Visit(pixels, c)[d] == (if d == c && Crossing(pixels, c) then INTERSECTION else pixels[d])
  {
  }

  /** The pixels after the loop has visited the first i keys. */
  function Marked(view: View, i: nat): (r: map<Cell, int>)
    requires i <= |view.order|
    ensures r.Keys == view.pixels.Keys
  {
    if i == 0 then view.pixels else Visit(Marked(view, i - 1), view.order[i - 1])
  }

  /** Whether the i-th key is counted: it is a crossing when the loop reaches it. */
  predicate Counted(view: View, i: nat)
    requires i < |view.order|
  {
    Crossing(Marked(view, i), view.order[i])
  }

  /** The alignment parameters collected from the first i keys. */
  function Parameters(view: View, i: nat): (ps: seq<int>)
    requires i <= |view.order|
    ensures |ps| <= i
    ensures forall j :: 0 <= j < |ps| ==> ps[j] >= 0
  {
    if i == 0 then []
    else Parameters(view, i - 1) + (if Counted(view, i - 1) then [Alignment(view.order[i - 1])] else [])
  }

  /**
   * `find_intersections`: the calibration code, the sum of the alignment
   * parameters, together with the view as the loop leaves it.
   */
  function FindIntersections(view: View): (r: (int, View))
    ensures r.0 >= 0
    ensures r.1.order == view.order && r.1.pixels.Keys == view.pixels.Keys
  {
    var ps := Parameters(view, |view.order|);
    SumNonNegative(ps);
    (Sum(ps), View(view.order, Marked(view, |view.order|)))
  }

  /**
   * After visiting the first i keys, the j-th key holds 73 when it was
   * visited and counted, and its original pixel otherwise.
   */
  lemma {:induction false} MarkedCell(view: View, i: nat, j: nat)
    requires i <= |view.order| && j < |view.order|
    requires Distinct(view.order) && view.order[j] in view.pixels
    ensures Marked(view, i)[view.order[j]] ==
      (if j < i && Counted(view, j) then INTERSECTION else view.pixels[view.order[j]])
  {
    if i > 0 {
      MarkedCell(view, i - 1, j);
      var prev := Marked(view, i - 1);
      var c := view.order[i - 1];
      var d := view.order[j];
      assert Marked(view, i) == Visit(prev, c);
      VisitAt(prev, c, d);
      if j == i - 1 {
        assert Counted(view, j) == Crossing(prev, c);
      } else {
        assert c != d;
      }
    }
  }

  /** Marking only turns scaffold into 73, so a scaffold cell at visit time was scaffold from the start. */
  lemma ScaffoldWasScaffold(view: View, i: nat, c: Cell)
    requires Valid(view) && i <= |view.order|
    requires IsScaffold(Marked(view, i), c)
    ensures IsScaffold(view.pixels, c)
  {
    var j :| 0 <= j < |view.order| && view.order[j] == c;
    MarkedCell(view, i, j);
  }

  /** A counted cell is a crossing of the original view. */
  lemma CountedIsCrossing(view: View, i: nat)
    requires Valid(view) && i < |view.order|
    ensures Counted(view, i) ==> Crossing(view.pixels, view.order[i])
  {
    if Counted(view, i) {
      var c := view.order[i];
      ScaffoldWasScaffold(view, i, c);
      forall k | 0 <= k < 4
        ensures IsScaffold(view.pixels, Neighbors(c)[k])
      {
        ScaffoldWasScaffold(view, i, Neighbors(c)[k]);
      }
    }
  }

  /** Of two adjacent keys, the later is not counted when the earlier was: it sees 73 next to it. */
  lemma AdjacentNotBothCounted(view: View, i: nat, j: nat)
    requires Valid(view) && i < j < |view.order|
    requires Adjacent(view.order[i], view.order[j])
    ensures !(Counted(view, i) && Counted(view, j))
  {
    if Counted(view, i) {
      MarkedCell(view, j, i);
      var a := view.order[i];
      var b := view.order[j];
      assert Marked(view, j)[a] == INTERSECTION;
      assert a in Neighbors(b);
    }
  }

  /** No two crossings of the view are next to each other. */
  predicate CrossingsApart(pixels: map<Cell, int>)
  {
    forall a, b :: a in pixels && b in pixels && Crossing(pixels, a) && Crossing(pixels, b) ==> !Adjacent(a, b)
  }

  /**
   * When no two crossings touch, the marks change nothing: a key is counted
   * exactly when it is a crossing of the original view.
   */
  lemma CountedIffCrossing(view: View, i: nat)
    requires Valid(view) && i < |view.order| && CrossingsApart(view.pixels)
    ensures Counted(view, i) <==> Crossing(view.pixels, view.order[i])
  {
    CountedIsCrossing(view, i);
    var c := view.order[i];
    if Crossing(view.pixels, c) {
      MarkedCell(view, i, i);
      forall k | 0 <= k < 4
        ensures IsScaffold(Marked(view, i), Neighbors(c)[k])
      {
        NeighborStaysScaffold(view, i, k);
      }
    }
  }

  /** A neighbour of a crossing still shows scaffold when the search reaches it: no crossing before it touches it. */
  lemma NeighborStaysScaffold(view: View, i: nat, k: nat)
    requires Valid(view) && i < |view.order| && CrossingsApart(view.pixels)
    requires Crossing(view.pixels, view.order[i]) && k < 4
    ensures IsScaffold(Marked(view, i), Neighbors(view.order[i])[k])
  {
    var c := view.order[i];
    var nb := Neighbors(c)[k];
    assert IsScaffold(view.pixels, nb);
    assert nb in view.order;
    var m :| 0 <= m < |view.order| && view.order[m] == nb;
    MarkedCell(view, i, m);
    if m < i && Counted(view, m) {
      CountedIsCrossing(view, m);
      NeighborAdjacent(c, k);
      assert false;
    }
  }

  lemma NeighborAdjacent(c: Cell, k: nat)
    requires k < 4
    ensures Adjacent(c, Neighbors(c)[k])
  {
  }

  /** The keys counted among the first i, as a reference: the crossings of the original view. */
  function CrossingParameters(view: View, i: nat): seq<int>
    requires i <= |view.order|
  {
    if i == 0 then []
    else
      var c := view.order[i - 1];
      CrossingParameters(view, i - 1) + (if Crossing(view.pixels, c) then [Alignment(c)] else [])
  }

  /** When no two crossings touch, the calibration code sums the alignment of every crossing. */
  lemma {:induction false} CalibrationOfCrossings(view: View, i: nat)
    requires Valid(view) && i <= |view.order| && CrossingsApart(view.pixels)
    ensures Parameters(view, i) == CrossingParameters(view, i)
    ensures i == |view.order| ==> FindIntersections(view).0 == Sum(CrossingParameters(view, i))
  {
    if i > 0 {
      CalibrationOfCrossings(view, i - 1);
      CountedIffCrossing(view, i - 1);
    }
  }

  /**
   * After the search, exactly the counted keys hold 73; every other key keeps
   * its pixel, and every counted key was a crossing from the start.
   */
  lemma FindIntersectionsMarks(view: View)
    requires Valid(view)
    ensures var after := FindIntersections(view).1;
      forall j :: 0 <= j < |view.order| ==>
        && after.pixels[view.order[j]] == (if Counted(view, j) then INTERSECTION else view.pixels[view.order[j]])
        && (Counted(view, j) ==> Crossing(view.pixels, view.order[j]))
  {
    forall j | 0 <= j < |view.order|
      ensures FindIntersections(view).1.pixels[view.order[j]] ==
        (if Counted(view, j) then INTERSECTION else view.pixels[view.order[j]])
      ensures Counted(view, j) ==> Crossing(view.pixels, view.order[j])
    {
      MarkedCell(view, |view.order|, j);
      CountedIsCrossing(view, j);
    }
  }
}
