/**
 * Crossed wires (day 3): each wire is a list of moves from the central port
 * at (0, 0), each move read from its text (a direction letter, then the
 * number of steps). Every grid point a move passes over, both ends included, is
 * recorded with the wires that reached it; a point reached by two different
 * wires is an intersection, the central port excepted; the answer is the
 * intersection nearest to the port in Manhattan distance.
 */
module Wires {
  import opened Common

  /** A grid point: horizontal and vertical coordinate. */
  datatype Point = Point(h: int, v: int)

  const Origin: Point := Point(0, 0)

  /** One move of a wire: a direction letter and a number of steps. */
  datatype Move = Move(dir: char, magnitude: int)

  /** A unit step on the grid. */
  datatype Delta = Delta(dh: int, dv: int)

  /** The unit step of a direction letter, in either case; None for any other letter. */
  function Heading(c: char): (d: Option<Delta>)
    ensures d.Some? <==> c in "RLUDrlud"
    ensures d.Some? ==> Abs(d.value.dh) + Abs(d.value.dv) == 1
    ensures c in "Rr" ==> d == Some(Delta(1, 0))
    ensures c in "Ll" ==> d == Some(Delta(-1, 0))
    ensures c in "Uu" ==> d == Some(Delta(0, 1))
    ensures c in "Dd" ==> d == Some(Delta(0, -1))
  {
    if c == 'R' || c == 'r' then Some(Delta(1, 0))
    else if c == 'L' || c == 'l' then Some(Delta(-1, 0))
    else if c == 'U' || c == 'u' then Some(Delta(0, 1))
    else if c == 'D' || c == 'd' then Some(Delta(0, -1))
    else None
  }

  function Shift(c: Point, d: Delta, k: int): Point
  {
    Point(c.h + k * d.dh, c.v + k * d.dv)
  }

  /** The points one move passes over: i = 0 .. magnitude steps from the cursor; none when magnitude < 0. */
  function Segment(c: Point, d: Delta, magnitude: int): (s: seq<Point>)
    ensures |s| == if magnitude < 0 then 0 else magnitude + 1
    ensures forall i :: 0 <= i < |s| ==> s[i] == Shift(c, d, i)
  {
    if magnitude < 0 then [] else seq(magnitude + 1, i => Shift(c, d, i))
  }

  /** A segment of a right move is the horizontal run from the cursor to `magnitude` columns right of it. */
  lemma SegmentRight(c: Point, m: int, p: Point)
    ensures p in Segment(c, Heading('R').value, m) <==> p.v == c.v && c.h <= p.h <= c.h + m
  {
    if p.v == c.v && c.h <= p.h <= c.h + m {
      assert Segment(c, Delta(1, 0), m)[p.h - c.h] == p;
    }
  }

  /** A segment of a down move is the vertical run from the cursor to `magnitude` rows below it. */
  lemma SegmentDown(c: Point, m: int, p: Point)
    ensures p in Segment(c, Heading('D').value, m) <==> p.h == c.h && c.v - m <= p.v <= c.v
  {
    if p.h == c.h && c.v - m <= p.v <= c.v {
      assert Segment(c, Delta(0, -1), m)[c.v - p.v] == p;
    }
  }

  /** Consecutive points of a segment are neighbours on the grid. */
  lemma SegmentIsConnected(c: Point, d: Delta, m: int, i: nat)
    requires Abs(d.dh) + Abs(d.dv) == 1
    requires i + 1 < |Segment(c, d, m)|
    ensures Manhattan(Segment(c, d, m)[i], Segment(c, d, m)[i + 1]) == 1
  {
    var s := Segment(c, d, m);
    assert s[i + 1].h == s[i].h + d.dh && s[i + 1].v == s[i].v + d.dv;
  }

  /**
   * The points a wire passes over, move by move, from cursor `c`. A move in an
   * unknown direction passes over nothing and leaves the cursor; a known one
   * moves the cursor by its magnitude, even a negative one.
   */
  function Path(moves: seq<Move>, c: Point): seq<Point>
  {
    if |moves| == 0 then []
    else
      match Heading(moves[0].dir)
      case None => Path(moves[1..], c)
      case Some(d) => Segment(c, d, moves[0].magnitude) + Path(moves[1..], Shift(c, d, moves[0].magnitude))
  }

  /** A wire whose first move is known and not backwards starts at the cursor. */
  lemma PathStartsAtCursor(moves: seq<Move>, c: Point)
    requires |moves| > 0 && Heading(moves[0].dir).Some? && moves[0].magnitude >= 0
    ensures |Path(moves, c)| > 0 && Path(moves, c)[0] == c
  {
  }

  // ---------------------------------------------------------------------
  // Reading the moves, as `get_wire_intersections` does before each move.

  /**
   * One move as written: `movement[0].upper()` is the direction (IndexError
   * for an empty move) and `int(movement[1:])` the magnitude (ValueError when
   * that is not an integer, whatever the letter).
   */
  function ParseMove(text: string): (r: Result<Move>)
    ensures r == Failure(IndexError) <==> |text| == 0
    ensures r == Failure(ValueError) <==> |text| > 0 && PyInt(text[1..]).None?
    ensures r.Success? ==> r.value.dir == text[0] && Some(r.value.magnitude) == PyInt(text[1..])
    ensures r.Failure? ==> r.error == IndexError || r.error == ValueError
  {
    if |text| == 0 then Failure(IndexError)
    else
      match PyInt(text[1..])
      case None => Failure(ValueError)
      case Some(n) => Success(Move(text[0], n))
  }

  /** A move written as its letter and decimal magnitude reads back as that move, with or without the line's newline after it. */
  lemma MoveRoundTrip(dir: char, n: int)
    ensures ParseMove([dir] + Str(n)) == Success(Move(dir, n))
    ensures ParseMove([dir] + Str(n) + "\n") == Success(Move(dir, n))
  {
    var s := Str(n);
    StrRoundTrip(n);
    NotSpace(s[0]);
    PyIntNewline(s);
    assert ([dir] + s)[1..] == s;
    assert ([dir] + s + "\n")[1..] == s + "\n";
  }

  /**
   * Results taken in order, as a loop that stops at the first exception:
   * all the values when every one succeeded, otherwise the first failure.
   */
  function Collect<T>(rs: seq<Result<T>>): (r: Result<seq<T>>)
    ensures r.Success? <==> forall i :: 0 <= i < |rs| ==> rs[i].Success?
    ensures r.Success? ==> |r.value| == |rs| && forall i :: 0 <= i < |rs| ==> rs[i] == Success(r.value[i])
    ensures r.Failure? ==> exists i ::
      && 0 <= i < |rs| && rs[i] == Failure(r.error)
      && forall j :: 0 <= j < i ==> rs[j].Success?
  {
    if |rs| == 0 then Success([])
    else
      var rest := rs[1..];
      assert forall i :: 1 <= i < |rs| ==> rs[i] == rest[i - 1];
      match rs[0]
      case Failure(e) => Failure(e)
      case Success(v) =>
        match Collect(rest)
        case Failure(e) =>
          ghost var i :| 0 <= i < |rest| && rest[i] == Failure(e) && forall j :: 0 <= j < i ==> rest[j].Success?;
          assert rs[i + 1] == Failure(e);
          Failure(e)
        case Success(vs) =>
          var r := [v] + vs;
          assert forall i :: 1 <= i < |r| ==> r[i] == vs[i - 1];
          Success(r)
  }

  /** The moves of one wire, read in order; the first move that cannot be read raises. */
  function ParseWire(texts: seq<string>): (r: Result<seq<Move>>)
    ensures r.Success? <==> forall i :: 0 <= i < |texts| ==> ParseMove(texts[i]).Success?
    ensures r.Success? ==> |r.value| == |texts| && forall i :: 0 <= i < |texts| ==> ParseMove(texts[i]) == Success(r.value[i])
    ensures r.Failure? ==> exists i ::
      && 0 <= i < |texts| && ParseMove(texts[i]) == Failure(r.error)
      && forall j :: 0 <= j < i ==> ParseMove(texts[j]).Success?
  {
    var rs := seq(|texts|, i requires 0 <= i < |texts| => ParseMove(texts[i]));
    assert |rs| == |texts| && forall i :: 0 <= i < |texts| ==> rs[i] == ParseMove(texts[i]);
    Collect(rs)
  }

  /** Every wire's moves, wire after wire; the first move that cannot be read raises. */
  function ParseWires(wires: seq<seq<string>>): (r: Result<seq<seq<Move>>>)
    ensures r.Success? <==> forall w :: 0 <= w < |wires| ==> ParseWire(wires[w]).Success?
    ensures r.Success? ==> |r.value| == |wires| && forall w :: 0 <= w < |wires| ==> ParseWire(wires[w]) == Success(r.value[w])
    ensures r.Failure? ==> exists w ::
      && 0 <= w < |wires| && ParseWire(wires[w]) == Failure(r.error)
      && forall v :: 0 <= v < w ==> ParseWire(wires[v]).Success?
  {
    var rs := seq(|wires|, w requires 0 <= w < |wires| => ParseWire(wires[w]));
    assert |rs| == |wires| && forall w :: 0 <= w < |wires| ==> rs[w] == ParseWire(wires[w]);
    Collect(rs)
  }

  /** `get_manhattan_distance`. */
  function Manhattan(p: Point, q: Point): (r: nat)
    ensures r == 0 <==> p == q
  {
    Abs(p.h - q.h) + Abs(p.v - q.v)
  }

  /** The Manhattan distance is a metric: zero exactly on equal points, symmetric, and it obeys the triangle inequality. */
  lemma ManhattanMetric(p: Point, q: Point, r: Point)
    ensures Manhattan(p, q) == 0 <==> p == q
    ensures Manhattan(p, q) == Manhattan(q, p)
    ensures Manhattan(p, r) <= Manhattan(p, q) + Manhattan(q, r)
  {
  }

  // ---------------------------------------------------------------------
  // Recording the wires, as `get_wire_intersections` does.

  /** The wires seen at each point so far (a missing point has seen none) and the intersections found. */
  datatype Grid = Grid(locations: map<Point, set<nat>>, intersections: set<Point>)

  function Seen(g: Grid, p: Point): set<nat>
  {
    if p in g.locations then g.locations[p] else {}
  }

  /** Wire w reaches point p: record it, and if p has now seen more than one wire, it is an intersection. */
  function Visit(g: Grid, w: nat, p: Point): (r: Grid)
    ensures Seen(r, p) == Seen(g, p) + {w}
    ensures forall q :: q != p ==> Seen(r, q) == Seen(g, q)
    ensures r.intersections == if |Seen(r, p)| > 1 then g.intersections + {p} else g.intersections
  {
    var seen := Seen(g, p) + {w};
    Grid(g.locations[p := seen], if |seen| > 1 then g.intersections + {p} else g.intersections)
  }

  /** Every point a wire passes over, tagged with the wire's number, wire after wire. */
  function Events(wires: seq<seq<Move>>): seq<(nat, Point)>
  {
    if |wires| == 0 then []
    else
      var w := |wires| - 1;
      Events(wires[..w]) + Tag(w, Path(wires[w], Origin))
  }

  /** The points of one wire's path, tagged with its number. */
  function Tag(w: nat, path: seq<Point>): (r: seq<(nat, Point)>)
    ensures |r| == |path|
    ensures forall i :: 0 <= i < |path| ==> r[i] == (w, path[i])
  {
    if |path| == 0 then [] else Tag(w, path[..|path| - 1]) + [(w, path[|path| - 1])]
  }

  function Replay(events: seq<(nat, Point)>): Grid
  {
    if |events| == 0 then Grid(map[], {})
    else
      var e := events[|events| - 1];
      Visit(Replay(events[..|events| - 1]), e.0, e.1)
  }

  /** The wires among the events that reached p. */
  function Owners(events: seq<(nat, Point)>, p: Point): set<nat>
  {
    if |events| == 0 then {}
    else
      var e := events[|events| - 1];
      Owners(events[..|events| - 1], p) + if e.1 == p then {e.0} else {}
  }

  lemma CardGrows(a: set<nat>, w: nat)
    ensures |a + {w}| >= |a|
  {
    if w !in a {
      assert |a + {w}| == |a| + 1;
    } else {
      assert a + {w} == a;
    }
  }

  /**
   * After replaying any sequence of events, each point has seen exactly the
   * wires that reached it, and the intersections are exactly the points that
   * have seen more than one wire: a point once marked stays marked, because
   * what a point has seen only grows.
   */
  lemma {:induction false} ReplayRecords(events: seq<(nat, Point)>, p: Point)
    ensures Seen(Replay(events), p) == Owners(events, p)
    ensures p in Replay(events).intersections <==> |Owners(events, p)| > 1
  {
    if |events| > 0 {
      var front := events[..|events| - 1];
      var e := events[|events| - 1];
      ReplayRecords(front, p);
      if e.1 == p {
        CardGrows(Owners(front, p), e.0);
      }
    }
  }

  /** The wires of a list that pass over p. */
  function WiresAt(wires: seq<seq<Move>>, p: Point): set<nat>
  {
    set w | 0 <= w < |wires| && p in Path(wires[w], Origin)
  }

  lemma {:induction false} TaggedOwners(w: nat, path: seq<Point>, p: Point)
    ensures Owners(Tag(w, path), p) == if p in path then {w} else {}
  {
    if |path| > 0 {
      var front := path[..|path| - 1];
      assert Tag(w, path)[..|path| - 1] == Tag(w, front);
      TaggedOwners(w, front, p);
      assert p in path <==> p in front || path[|path| - 1] == p;
    }
  }

  lemma {:induction false} OwnersAppend(a: seq<(nat, Point)>, b: seq<(nat, Point)>, p: Point)
    ensures Owners(a + b, p) == Owners(a, p) + Owners(b, p)
  {
    if |b| > 0 {
      assert (a + b)[..|a + b| - 1] == a + b[..|b| - 1];
      OwnersAppend(a, b[..|b| - 1], p);
    } else {
      assert a + b == a;
    }
  }

  /** The events of a list of wires reach p from exactly the wires whose paths pass over p. */
  lemma {:induction false} EventsOwners(wires: seq<seq<Move>>, p: Point)
    ensures Owners(Events(wires), p) == WiresAt(wires, p)
  {
    if |wires| > 0 {
      var w := |wires| - 1;
      var path := Path(wires[w], Origin);
      var tagged := Tag(w, path);
      assert Events(wires) == Events(wires[..w]) + tagged;
      EventsOwners(wires[..w], p);
      OwnersAppend(Events(wires[..w]), tagged, p);
      TaggedOwners(w, path, p);
      forall u | 0 <= u
        ensures u in WiresAt(wires, p) <==> u in WiresAt(wires[..w], p) || (u == w && p in path)
      {
        if u < w {
          assert wires[..w][u] == wires[u];
        }
      }
      var mine: set<nat> := if p in path then {w} else {};
      assert Owners(tagged, p) == mine;
      assert WiresAt(wires, p) == WiresAt(wires[..w], p) + mine;
      assert Owners(Events(wires), p) == Owners(Events(wires[..w]), p) + Owners(tagged, p);
    }
  }

  /** A set has more than one element exactly when it holds two different ones. */
  lemma TwoMembers(s: set<nat>)
    ensures |s| > 1 <==> exists a, b :: a in s && b in s && a < b
  {
    if |s| > 1 {
      var a :| a in s;
      assert |s - {a}| > 0;
      var b :| b in s - {a};
      if a < b {
        assert a in s && b in s && a < b;
      } else {
        assert b in s && a in s && b < a;
      }
    }
    if exists a, b :: a in s && b in s && a < b {
      var a, b :| a in s && b in s && a < b;
      assert {a, b} <= s;
      assert |{a, b}| == 2;
      SubsetCard({a, b}, s);
    }
  }

  /**
   * `get_wire_intersections`: replay every wire from the central port, then
   * drop the port itself from the intersections.
   */
  function WireIntersections(wires: seq<seq<Move>>): (r: set<Point>)
    ensures Origin !in r
  {
    Replay(Events(wires)).intersections - {Origin}
  }

  /**
   * The intersections are exactly the points other than the central port that
   * two different wires pass over.
   */
  lemma WireIntersectionsExact(wires: seq<seq<Move>>, p: Point)
    ensures p in WireIntersections(wires) <==>
      p != Origin && exists w1, w2 :: 0 <= w1 < w2 < |wires| && p in Path(wires[w1], Origin) && p in Path(wires[w2], Origin)
  {
    ReplayRecords(Events(wires), p);
    EventsOwners(wires, p);
    TwoWiresAt(wires, p);
  }

  lemma TwoWiresAt(wires: seq<seq<Move>>, p: Point)
    ensures |WiresAt(wires, p)| > 1 <==>
      exists w1, w2 :: 0 <= w1 < w2 < |wires| && p in Path(wires[w1], Origin) && p in Path(wires[w2], Origin)
  {
    var s := WiresAt(wires, p);
    TwoMembers(s);
    if exists a, b :: a in s && b in s && a < b {
      var a, b :| a in s && b in s && a < b;
      assert 0 <= a < b < |wires| && p in Path(wires[a], Origin) && p in Path(wires[b], Origin);
    }
    if exists w1, w2 :: 0 <= w1 < w2 < |wires| && p in Path(wires[w1], Origin) && p in Path(wires[w2], Origin) {
      var w1, w2 :| 0 <= w1 < w2 < |wires| && p in Path(wires[w1], Origin) && p in Path(wires[w2], Origin);
      assert w1 in s && w2 in s;
    }
  }

  /**
   * `get_wire_intersections` on the wires as the input gives them: every
   * move is read first, wire after wire and move after move (the first that
   * cannot be read raises), then the wires are replayed.
   */
  function GetWireIntersections(wires: seq<seq<string>>): (r: Result<set<Point>>)
    ensures r.Success? <==> forall w, i :: 0 <= w < |wires| && 0 <= i < |wires[w]| ==> ParseMove(wires[w][i]).Success?
    ensures r.Failure? ==> r.error == IndexError || r.error == ValueError
    ensures r.Success? ==> Origin !in r.value
  {
    match ParseWires(wires)
    case Failure(e) =>
      ghost var w :| 0 <= w < |wires| && ParseWire(wires[w]) == Failure(e);
      ghost var i :| 0 <= i < |wires[w]| && ParseMove(wires[w][i]) == Failure(e);
      Failure(e)
    case Success(ms) => Success(WireIntersections(ms))
  }

  /**
   * When every move reads, the intersections are exactly the points other
   * than the central port that two different wires pass over.
   */
  lemma GetWireIntersectionsExact(wires: seq<seq<string>>, p: Point)
    requires GetWireIntersections(wires).Success?
    ensures var moves := ParseWires(wires).value;
      p in GetWireIntersections(wires).value <==>
        p != Origin && exists w1, w2 :: 0 <= w1 < w2 < |wires| && p in Path(moves[w1], Origin) && p in Path(moves[w2], Origin)
  {
    WireIntersectionsExact(ParseWires(wires).value, p);
  }

  /** A single wire never intersects itself, however often it crosses its own path. */
  lemma OneWireNoIntersections(wire: seq<Move>, p: Point)
    ensures p !in WireIntersections([wire])
  {
    WireIntersectionsExact([wire], p);
  }

  // ---------------------------------------------------------------------
  // The nearest intersection.

  /**
   * `get_closest_intersection_distance` over the intersections, visited in
   * whatever order the set yields them. An intersection replaces the current
   * best when there is none yet, when the best distance is 0 (Python's
   * `not closest_distance`), or when it is strictly nearer.
   */
  method ClosestIntersection(intersections: set<Point>) returns (closest: Option<Point>, distance: Option<nat>)
    requires Origin !in intersections
    ensures closest.None? <==> intersections == {}
    ensures distance.None? <==> intersections == {}
    ensures closest.Some? ==> closest.value in intersections && distance == Some(Manhattan(Origin, closest.value))
    ensures distance.Some? ==> forall q :: q in intersections ==> distance.value <= Manhattan(Origin, q)
  {
    closest, distance := None, None;
    var rest := intersections;
    while rest != {}
      invariant rest <= intersections
      invariant closest.None? <==> rest == intersections
      invariant distance.None? <==> rest == intersections
      invariant closest.Some? ==> closest.value in intersections && distance == Some(Manhattan(Origin, closest.value))
      invariant distance.Some? ==> distance.value > 0
      invariant distance.Some? ==> forall q :: q in intersections - rest ==> distance.value <= Manhattan(Origin, q)
      decreases |rest|
    {
      var p :| p in rest;
      var d := Manhattan(Origin, p);
      ManhattanMetric(Origin, p, p);
      if distance.None? || distance.value == 0 || d < distance.value {
        closest, distance := Some(p), Some(d);
      }
      rest := rest - {p};
    }
  }

  /**
   * `get_closest_intersection_distance`: the nearest crossing of the wires
   * and its distance, or (None, None) when they do not cross; the exception
   * of the first move that cannot be read.
   */
  method ClosestIntersectionDistance(wires: seq<seq<string>>) returns (r: Result<(Option<Point>, Option<nat>)>)
    ensures r.Failure? <==> GetWireIntersections(wires).Failure?
    ensures r.Failure? ==> r.error == GetWireIntersections(wires).error
    ensures r.Success? ==> var xs := GetWireIntersections(wires).value;
      && (r.value.0.None? <==> xs == {})
      && (r.value.1.None? <==> xs == {})
      && (r.value.0.Some? ==> r.value.0.value in xs && r.value.1 == Some(Manhattan(Origin, r.value.0.value)))
      && (r.value.1.Some? ==> forall q :: q in xs ==> r.value.1.value <= Manhattan(Origin, q))
  {
    match GetWireIntersections(wires)
    case Failure(e) =>
      r := Failure(e);
    case Success(xs) =>
      var closest, distance := ClosestIntersection(xs);
      r := Success((closest, distance));
  }
}
