/**
 * Arcade cabinet screen (day 13): the program's output lines are read as
 * (x, y, tile) triples into a screen map; the paddle and ball columns are
 * tracked, tiles are counted, and the joystick follows the ball. The Intcode
 * program that produces the output is not part of this model.
 */
module Arcade {
  import opened Common

  const TILE_EMPTY: int := 0
  const TILE_WALL: int := 1
  const TILE_BLOCK: int := 2
  const TILE_HPADDLE: int := 3
  const TILE_BALL: int := 4
  /** `TILE_NAMES`: the characters the tiles are logged with. */
  const TILE_NAMES: seq<char> := [' ', '%', '#', '=', 'o']

  /** The screen: tile ids by (x, y); x = -1 carries the score. */
  type Screen = map<(int, int), int>

  datatype Triple = Triple(x: int, y: int, tile: int)

  /** What `update_screen` leaves behind: the new screen and the paddle and ball columns it saw. */
  datatype Update = Update(screen: Screen, pad: Option<int>, ball: Option<int>)

  /** The output lines that are not blank, right-stripped, in order. */
  function Game(tileinfo: seq<string>): (game: seq<string>)
    ensures |game| <= |tileinfo|
    ensures forall i :: 0 <= i < |game| ==> game[i] != ""
  {
    if |tileinfo| == 0 then []
    else
      var rest := Game(tileinfo[..|tileinfo| - 1]);
      var line := RStrip(tileinfo[|tileinfo| - 1]);
      if line != "" then rest + [line] else rest
  }

  /** The log line for a tile subscripts `TILE_NAMES` unless the tile is the score. */
  predicate Loggable(t: Triple)
  {
    t.x == -1 || PyIndex(t.tile, |TILE_NAMES|).Some?
  }

  /** A single output line is kept, right-stripped, unless it is blank. */
  lemma GameOne(line: string)
    ensures Game([line]) == if RStrip(line) != "" then [RStrip(line)] else []
  {
    assert [line][..0] == [];
  }

  /** Filtering the output lines in two parts keeps the kept lines of each, in order. */
  lemma {:induction false} GameSplit(a: seq<string>, b: seq<string>)
    ensures Game(a + b) == Game(a) + Game(b)
    decreases |b|
  {
    if |b| == 0 {
      assert a + b == a;
    } else {
      assert (a + b)[..|a + b| - 1] == a + b[..|b| - 1];
      GameSplit(a, b[..|b| - 1]);
    }
  }

  /** `int` of each line, in order: None where it would raise ValueError. */
  function Readings(game: seq<string>): (vals: seq<Option<int>>)
    ensures |vals| == |game|
    ensures forall i :: 0 <= i < |game| ==> vals[i] == PyInt(game[i])
  {
    if |game| == 0 then [] else Readings(game[..|game| - 1]) + [PyInt(game[|game| - 1])]
  }

  /**
   * The `while game` loop over the values read so far: pop x, y and tile
   * (IndexError when the list runs out first, ValueError when a value is not
   * an integer), write the tile, note a ball or paddle column, then build the
   * log line. Reading each line as it is popped or all of them first makes no
   * difference, since reading has no effect.
   */
  function Consume(u: Update, game: seq<Option<int>>): (r: Result<Update>)
    ensures r.Failure? ==> r.error == ValueError || r.error == IndexError
    decreases |game|
  {
    if |game| == 0 then Success(u)
    else if game[0].None? then Failure(ValueError)
    else if |game| < 2 then Failure(IndexError)
    else if game[1].None? then Failure(ValueError)
    else if |game| < 3 then Failure(IndexError)
    else if game[2].None? then Failure(ValueError)
    else
      var t := Triple(game[0].value, game[1].value, game[2].value);
      var u' := Update(
        u.screen[(t.x, t.y) := t.tile],
        if t.tile == TILE_HPADDLE then Some(t.x) else u.pad,
        if t.tile == TILE_BALL then Some(t.x) else u.ball);
      if !Loggable(t) then Failure(IndexError)
      else Consume(u', game[3..])
  }

  /**
   * `update_screen`, with the screen passed in and the updated one handed
   * back: it raises only ValueError or IndexError.
   */
  function UpdateScreen(screen: Screen, tileinfo: seq<string>): (r: Result<Update>)
    ensures r.Failure? ==> r.error == ValueError || r.error == IndexError
  {
    Consume(Update(screen, None, None), Readings(Game(tileinfo)))
  }

  // ---------------------------------------------------------------------
  // The reference reading: the values as numbers, then as triples.

  /** Every value was read as an integer. */
  predicate AllInts(game: seq<Option<int>>)
  {
    forall i :: 0 <= i < |game| ==> game[i].Some?
  }

  /** The triples of a list of integer values whose length is a multiple of 3. */
  function Triples(game: seq<Option<int>>): (ts: seq<Triple>)
    requires AllInts(game) && |game| % 3 == 0
    ensures |ts| == |game| / 3
    ensures forall i :: 0 <= i < |ts| ==> ts[i] == Triple(game[3 * i].value, game[3 * i + 1].value, game[3 * i + 2].value)
    decreases |game|
  {
    if |game| == 0 then []
    else
      var rest := Triples(game[3..]);
      var ts := [Triple(game[0].value, game[1].value, game[2].value)] + rest;
      assert forall i :: 1 <= i < |ts| ==> ts[i] == rest[i - 1];
      ts
  }

  /** The tile of the last triple at `p`, if any. */
  function LastTile(ts: seq<Triple>, p: (int, int)): Option<int>
  {
    if |ts| == 0 then None
    else if (ts[|ts| - 1].x, ts[|ts| - 1].y) == p then Some(ts[|ts| - 1].tile)
    else LastTile(ts[..|ts| - 1], p)
  }

  /** The x of the last triple with the given tile, if any. */
  function LastX(ts: seq<Triple>, tile: int): Option<int>
  {
    if |ts| == 0 then None
    else if ts[|ts| - 1].tile == tile then Some(ts[|ts| - 1].x)
    else LastX(ts[..|ts| - 1], tile)
  }

  /** The screen after writing the triples in order, last write winning. */
  ghost predicate Written(before: Screen, ts: seq<Triple>, after: Screen)
  {
    forall p :: (p in after <==> p in before || LastTile(ts, p).Some?)
      && (p in after ==> after[p] == if LastTile(ts, p).Some? then LastTile(ts, p).value else before[p])
  }

  /** Carrying on from a state whose columns came from the triples read so far. */
  ghost predicate Continues(u: Update, done: seq<Triple>, start: Screen)
  {
    && Written(start, done, u.screen)
    && u.pad == LastX(done, TILE_HPADDLE)
    && u.ball == LastX(done, TILE_BALL)
  }

  lemma LastTileAppend(ts: seq<Triple>, t: Triple, p: (int, int))
    ensures LastTile(ts + [t], p) == if (t.x, t.y) == p then Some(t.tile) else LastTile(ts, p)
  {
    assert (ts + [t])[..|ts|] == ts;
  }

  lemma LastXAppend(ts: seq<Triple>, t: Triple, tile: int)
    ensures LastX(ts + [t], tile) == if t.tile == tile then Some(t.x) else LastX(ts, tile)
  {
    assert (ts + [t])[..|ts|] == ts;
  }

  /** Writing one more triple keeps the screen the in-order writing of all of them. */
  lemma WrittenStep(start: Screen, done: seq<Triple>, screen: Screen, t: Triple)
    requires Written(start, done, screen)
    ensures Written(start, done + [t], screen[(t.x, t.y) := t.tile])
  {
    forall p {
      LastTileAppend(done, t, p);
    }
  }

  /** Once the first three values read as integers, the rest of the reading is that of the tail. */
  lemma TailReading(game: seq<Option<int>>)
    requires |game| >= 3 && game[0].Some? && game[1].Some? && game[2].Some?
    ensures AllInts(game) <==> AllInts(game[3..])
    ensures AllInts(game) && |game| % 3 == 0 ==>
      && Triples(game) == [Triple(game[0].value, game[1].value, game[2].value)] + Triples(game[3..])
      && ((forall k :: 0 <= k < |Triples(game)| ==> Loggable(Triples(game)[k])) <==>
          Loggable(Triples(game)[0]) && forall k :: 0 <= k < |Triples(game[3..])| ==> Loggable(Triples(game[3..])[k]))
  {
    var rest := game[3..];
    if AllInts(rest) {
      forall i | 3 <= i < |game|
        ensures game[i].Some?
      {
        assert game[i] == rest[i - 3];
      }
    }
    if AllInts(game) && |game| % 3 == 0 {
      var ts := Triples(game);
      forall k | 0 <= k < |Triples(rest)|
        ensures Triples(rest)[k] == ts[k + 1]
      {
      }
    }
  }

  /**
   * Reading fails exactly when a value is not an integer, the count is not a
   * multiple of 3, or some non-score triple has a tile `TILE_NAMES` cannot
   * subscript; on success the screen, paddle and ball are those of the
   * triples written in order.
   */
  lemma {:induction false} ConsumeTriples(u: Update, done: seq<Triple>, start: Screen, game: seq<Option<int>>)
    requires Continues(u, done, start)
    ensures Consume(u, game).Success? <==>
      AllInts(game) && |game| % 3 == 0 && forall k :: 0 <= k < |Triples(game)| ==> Loggable(Triples(game)[k])
    ensures Consume(u, game).Success? ==> Continues(Consume(u, game).value, done + Triples(game), start)
    decreases |game|
  {
    if |game| == 0 {
      assert done + [] == done;
    } else if game[0].Some? && |game| >= 3 && game[1].Some? && game[2].Some? {
      var t := Triple(game[0].value, game[1].value, game[2].value);
      var u' := Update(
        u.screen[(t.x, t.y) := t.tile],
        if t.tile == TILE_HPADDLE then Some(t.x) else u.pad,
        if t.tile == TILE_BALL then Some(t.x) else u.ball);
      var rest := game[3..];
      WrittenStep(start, done, u.screen, t);
      LastXAppend(done, t, TILE_HPADDLE);
      LastXAppend(done, t, TILE_BALL);
      ConsumeTriples(u', done + [t], start, rest);
      TailReading(game);
      if AllInts(game) && |game| % 3 == 0 {
        assert done + Triples(game) == (done + [t]) + Triples(rest);
      }
    } else {
      assert !AllInts(game) || |game| % 3 != 0 by {
        if AllInts(game) {
          assert game[0].Some?;
          assert |game| < 3;
        }
      }
    }
  }

  /**
   * `update_screen` succeeds exactly when the non-blank lines are integers,
   * their count is a multiple of 3, and every non-score tile is a valid
   * `TILE_NAMES` subscript. Then each position holds the tile of the last
   * triple written there (other entries unchanged), and pad and ball are the
   * x of the last paddle and ball triples, or None.
   */
  lemma UpdateScreenSpec(screen: Screen, tileinfo: seq<string>)
    ensures var game := Readings(Game(tileinfo));
      UpdateScreen(screen, tileinfo).Success? <==>
        AllInts(game) && |game| % 3 == 0 && forall k :: 0 <= k < |Triples(game)| ==> Loggable(Triples(game)[k])
    ensures var game := Readings(Game(tileinfo));
      var r := UpdateScreen(screen, tileinfo);
      r.Success? ==>
        && Written(screen, Triples(game), r.value.screen)
        && r.value.pad == LastX(Triples(game), TILE_HPADDLE)
        && r.value.ball == LastX(Triples(game), TILE_BALL)
  {
    var game := Readings(Game(tileinfo));
    var u := Update(screen, None, None);
    assert UpdateScreen(screen, tileinfo) == Consume(u, game);
    assert Continues(u, [], screen) by {
      assert Written(screen, [], screen);
    }
    ConsumeTriples(u, [], screen, game);
    if Consume(u, game).Success? {
      assert [] + Triples(game) == Triples(game);
    }
  }

  /** A line count that is not a multiple of three always fails (the last `pop` finds the list empty, or a value is not an integer). */
  lemma RaggedFails(screen: Screen, tileinfo: seq<string>)
    requires |Game(tileinfo)| % 3 != 0
    ensures UpdateScreen(screen, tileinfo).Failure?
  {
    UpdateScreenSpec(screen, tileinfo);
  }

  // ---------------------------------------------------------------------
  // `count_tiles`

  /** The positions holding a given tile id. */
  function TilesWith(tiles: Screen, tileid: int): set<(int, int)>
  {
    set p | p in tiles && tiles[p] == tileid
  }

  /** `count_tiles`: one pass over the entries, counting those with the id. */
  method CountTiles(tiles: Screen, tileid: int) returns (counter: nat)
    ensures counter == |TilesWith(tiles, tileid)|
    ensures counter <= |tiles|
  {
    counter := 0;
    var rest := tiles.Keys;
    ghost var with := TilesWith(tiles, tileid);
    ghost var seen: set<(int, int)> := {};
    while rest != {}
      invariant rest !! seen && rest + seen == tiles.Keys
      invariant counter == |with * seen|
      decreases |rest|
    {
      var p :| p in rest;
      AddToSeen(with, seen, p);
      if tiles[p] == tileid {
        counter := counter + 1;
      }
      assert (rest - {p}) + (seen + {p}) == rest + seen;
      rest := rest - {p};
      seen := seen + {p};
    }
    assert with * seen == with;
    SubsetCard(with, tiles.Keys);
  }

  /** Adding an unseen element to `seen` adds one to the overlap with `w` exactly when the element is in `w`. */
  lemma AddToSeen<T>(w: set<T>, seen: set<T>, p: T)
    requires p !in seen
    ensures |w * (seen + {p})| == |w * seen| + (if p in w then 1 else 0)
  {
    if p in w {
      assert w * (seen + {p}) == (w * seen) + {p};
    } else {
      assert w * (seen + {p}) == w * seen;
    }
  }

  /** The counts of the different tile ids add up to at most the screen size (disjoint classes). */
  lemma TwoCountsFit(tiles: Screen, a: int, b: int)
    requires a != b
    ensures |TilesWith(tiles, a)| + |TilesWith(tiles, b)| <= |tiles|
  {
    var sa := TilesWith(tiles, a);
    var sb := TilesWith(tiles, b);
    assert sa !! sb;
    assert |sa + sb| == |sa| + |sb|;
    SubsetCard(sa + sb, tiles.Keys);
  }

  // ---------------------------------------------------------------------
  // The joystick rule in `run_game`.

  /**
   * The next joystick input: None when there is no ball (the game loop stops),
   * TypeError when there is a ball but no paddle (comparing with None), and
   * otherwise 1, -1 or 0 to move the paddle toward the ball.
   */
  function Joystick(pad: Option<int>, ball: Option<int>): (r: Result<Option<int>>)
    ensures ball.None? ==> r == Success(None)
    ensures ball.Some? && pad.None? ==> r == Failure(TypeError)
    ensures ball.Some? && pad.Some? ==>
      && r.Success? && r.value.Some?
      && (r.value.value == 1 <==> ball.value > pad.value)
      && (r.value.value == -1 <==> ball.value < pad.value)
      && (r.value.value == 0 <==> ball.value == pad.value)
  {
    match ball
    case None => Success(None)
    case Some(b) =>
      match pad
      case None => Failure(TypeError)
      case Some(p) => Success(Some(if b > p then 1 else if b < p then -1 else 0))
  }

  /** Moving the paddle by the input brings it one column closer to the ball, or keeps it under the ball. */
  lemma JoystickFollowsBall(pad: int, ball: int)
    ensures var input := Joystick(Some(pad), Some(ball)).value.value;
      && (ball != pad ==> Abs(ball - (pad + input)) == Abs(ball - pad) - 1)
      && (ball == pad ==> pad + input == ball)
  {
  }
}
