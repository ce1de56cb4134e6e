/**
 * Repair droid grid (day 15): the four movement directions, their
 * opposites, and the locations the droid explores, which are compared by
 * their coordinates alone. The search that drives the droid through an
 * Intcode program is not part of this model.
 */
module Droid {
  import opened Common

  /** The movement commands, numbered as the droid's program reads them. */
  datatype Direction = North | South | West | East

  function Code(d: Direction): (c: int)
    ensures 1 <= c <= 4
  {
    match d
    case North => 1
    case South => 2
    case West => 3
    case East => 4
  }

  /** `Direction` iterates in declaration order. */
  const DIRECTIONS: seq<Direction> := [North, South, West, East]

  /** `opposite`: north and south swap, east and west swap. */
  function Opposite(d: Direction): (r: Direction)
    ensures r != d
  {
    match d
    case North => South
    case South => North
    case East => West
    case West => East
  }

  /** Opposite is an involution without a fixed point. */
  lemma OppositeInvolution(d: Direction)
    ensures Opposite(Opposite(d)) == d
    ensures Opposite(d) != d
  {
  }

  datatype LocationType = Wall | Path | System

  /**
   * A location: coordinates, what was found there, the location it was
   * reached from and the direction leading back to it (all unset at first).
   */
  datatype Location = Location(x: int, y: int, kind: Option<LocationType>, pred: Option<Location>, predDirection: Option<Direction>)

  /** A fresh `Location(x, y)`. */
  function NewLocation(x: int, y: int): Location
  {
    Location(x, y, None, None, None)
  }

  /** The equality and hash key. */
  function Key(loc: Location): (int, int)
  {
    (loc.x, loc.y)
  }

  /** `__eq__`: two locations are equal when their coordinates are. */
  function Same(a: Location, b: Location): (r: bool)
    ensures r <==> a.x == b.x && a.y == b.y
  {
    Key(a) == Key(b)
  }

  /** Equality of locations is an equivalence that ignores everything but the coordinates. */
  lemma SameIsEquivalence(a: Location, b: Location, c: Location)
    ensures Same(a, a)
    ensures Same(a, b) ==> Same(b, a)
    ensures Same(a, b) && Same(b, c) ==> Same(a, c)
    ensures Same(a, b) <==> a.x == b.x && a.y == b.y
  {
  }

  /** `update`: one unit along the direction (north is y+1, south y-1, east x+1, west x-1); nothing else changes. */
  function Update(loc: Location, d: Direction): (r: Location)
    ensures r.kind == loc.kind && r.pred == loc.pred && r.predDirection == loc.predDirection
    ensures Abs(r.x - loc.x) + Abs(r.y - loc.y) == 1
    ensures d == North ==> r.y == loc.y + 1 && r.x == loc.x
    ensures d == South ==> r.y == loc.y - 1 && r.x == loc.x
    ensures d == East ==> r.x == loc.x + 1 && r.y == loc.y
    ensures d == West ==> r.x == loc.x - 1 && r.y == loc.y
  {
    match d
    case North => loc.(y := loc.y + 1)
    case South => loc.(y := loc.y - 1)
    case East => loc.(x := loc.x + 1)
    case West => loc.(x := loc.x - 1)
  }

  /** Going one way and then the opposite way returns to the same location. */
  lemma UpdateThenBack(loc: Location, d: Direction)
    ensures Update(Update(loc, d), Opposite(d)) == loc
  {
  }

  /**
   * `get_neighbors`: a fresh location one step away in each direction, in the
   * order north, south, west, east, paired with that direction.
   */
  function Neighbors(loc: Location): (r: seq<(Location, Direction)>)
    ensures |r| == 4
    ensures forall i :: 0 <= i < 4 ==> r[i].1 == DIRECTIONS[i]
    ensures forall i :: 0 <= i < 4 ==> r[i].0 == Update(NewLocation(loc.x, loc.y), r[i].1)
  {
    seq(4, i requires 0 <= i < 4 => (Update(NewLocation(loc.x, loc.y), DIRECTIONS[i]), DIRECTIONS[i]))
  }

  /**
   * The neighbours are four different locations, each one step from `loc`,
   * none of them equal to it, and stepping back the opposite way from any of
   * them lands on `loc`.
   */
  lemma NeighborsAround(loc: Location)
    ensures forall i :: 0 <= i < 4 ==>
      var n := Neighbors(loc)[i].0;
      && Abs(n.x - loc.x) + Abs(n.y - loc.y) == 1
      && !Same(n, loc)
      && Same(Update(n, Opposite(Neighbors(loc)[i].1)), loc)
    ensures forall i, j :: 0 <= i < j < 4 ==> !Same(Neighbors(loc)[i].0, Neighbors(loc)[j].0)
  {
  }

  /** `copy`: coordinates, type and predecessor carried over; the direction back is not. */
  function Copy(loc: Location): (r: Location)
    ensures Same(r, loc)
    ensures r.kind == loc.kind && r.pred == loc.pred
    ensures r.predDirection.None?
  {
    Location(loc.x, loc.y, loc.kind, loc.pred, None)
  }

  /** A copy of a location with no direction back is the location itself; copying twice is copying once. */
  lemma CopyIdempotent(loc: Location)
    ensures Copy(Copy(loc)) == Copy(loc)
    ensures loc.predDirection.None? <==> Copy(loc) == loc
  {
  }
}
