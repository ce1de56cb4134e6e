/**
 * Orbit map checksum (day 6): each line "A)B" says B orbits A. Every named
 * object counts the objects on its chain of parents (direct plus indirect
 * orbits), and the checksum sums those counts over all distinct names.
 */
module Orbits {
  import opened Common

  /** One input line: `orbiter` orbits `center`. */
  datatype Orbit = Orbit(center: string, orbiter: string)

  /**
   * A `SpaceObject`. The dict holds one object per name (`Stored`). The one
   * exception is the object `get` builds as its default for the center of a
   * line `X)X` when X is not in the dict yet: it is linked to, then replaced
   * in the dict by the orbiter's own fresh object, and stays a root under no
   * key (`Orphan`).
   */
  datatype Obj = Stored(name: string) | Orphan(name: string)

  /**
   * The object a line's orbiter is linked to. Both `get` defaults are built
   * before either is stored, so a line naming a new X on both sides links
   * two different objects.
   */
  function CenterObj(before: seq<Orbit>, line: Orbit): (r: Obj)
    ensures r.name == line.center
    ensures r.Orphan? <==> line.center == line.orbiter && !Named(before, line.center)
  {
    if line.center == line.orbiter && !Named(before, line.center) then Orphan(line.center) else Stored(line.center)
  }

  /**
   * The parent links after all lines: each orbiter's object points at the
   * center object of the LAST line that names it as orbiter (later lines
   * overwrite earlier ones). Only stored objects have links.
   */
  function Parents(orbits: seq<Orbit>): (p: map<Obj, Obj>)
    ensures forall i :: 0 <= i < |orbits| ==> Stored(orbits[i].orbiter) in p
    ensures forall o :: o in p ==> o.Stored? && exists i :: 0 <= i < |orbits| && orbits[i].orbiter == o.name
  {
    if |orbits| == 0 then map[]
    else
      var front := orbits[..|orbits| - 1];
      var last := orbits[|orbits| - 1];
      Parents(front)[Stored(last.orbiter) := CenterObj(front, last)]
  }

  /**
   * The parent of an orbiter is the center of the last line that names it:
   * the stored object of that name, or a root of its own for a line `X)X`
   * that names X for the first time.
   */
  lemma {:induction false} ParentsLastWins(orbits: seq<Orbit>, i: nat)
    requires i < |orbits| && LastFor(orbits, i)
    ensures Parents(orbits)[Stored(orbits[i].orbiter)] == CenterObj(orbits[..i], orbits[i])
  {
    var front := orbits[..|orbits| - 1];
    if i < |orbits| - 1 {
      assert LastFor(front, i) by {
        forall j | i < j < |front|
          ensures front[j].orbiter != front[i].orbiter
        {
          assert front[j] == orbits[j];
        }
      }
      ParentsLastWins(front, i);
      assert front[..i] == orbits[..i];
      assert orbits[|orbits| - 1].orbiter != orbits[i].orbiter;
    } else {
      assert front == orbits[..i];
    }
  }

  /** Line i is the last line naming its orbiter. */
  predicate LastFor(orbits: seq<Orbit>, i: nat)
    requires i < |orbits|
  {
    forall j :: i < j < |orbits| ==> orbits[j].orbiter != orbits[i].orbiter
  }

  /** `names` with `n` appended unless already present (dict insertion order). */
  function AddName(names: seq<string>, n: string): (r: seq<string>)
    ensures Distinct(names) ==> Distinct(r)
    ensures forall m :: m in r <==> m in names || m == n
  {
    if n in names then names else names + [n]
  }

  predicate Distinct(names: seq<string>)
  {
    forall i, j :: 0 <= i < j < |names| ==> names[i] != names[j]
  }

  /** Some line names `n`, as center or as orbiter. */
  predicate Named(orbits: seq<Orbit>, n: string)
  {
    exists i :: 0 <= i < |orbits| && (orbits[i].center == n || orbits[i].orbiter == n)
  }

  lemma NamedSnoc(orbits: seq<Orbit>, n: string)
    requires |orbits| > 0
    ensures var last := orbits[|orbits| - 1];
      Named(orbits, n) <==> Named(orbits[..|orbits| - 1], n) || last.center == n || last.orbiter == n
  {
    var front := orbits[..|orbits| - 1];
    if Named(orbits, n) {
      var i :| 0 <= i < |orbits| && (orbits[i].center == n || orbits[i].orbiter == n);
      if i < |front| {
        assert front[i] == orbits[i];
      }
    }
    if Named(front, n) {
      var i :| 0 <= i < |front| && (front[i].center == n || front[i].orbiter == n);
      assert front[i] == orbits[i];
    }
  }

  /** The distinct names of all lines, in order of first appearance (center before orbiter). */
  function Names(orbits: seq<Orbit>): (names: seq<string>)
    ensures Distinct(names)
    ensures forall n :: n in names <==> Named(orbits, n)
  {
    if |orbits| == 0 then []
    else
      var last := orbits[|orbits| - 1];
      var r := AddName(AddName(Names(orbits[..|orbits| - 1]), last.center), last.orbiter);
      assert forall n :: n in r <==> Named(orbits, n) by {
        forall n
          ensures n in r <==> Named(orbits, n)
        {
          NamedSnoc(orbits, n);
        }
      }
      r
  }

  /**
   * `get_direct_indirect_orbits` of `name`: 0 for an object without a parent,
   * otherwise 1 plus its parent's count. `seen` holds the objects already on
   * the chain; meeting one again means the recursion never ends (None).
   */
  function ChainLength(parents: map<Obj, Obj>, name: Obj, seen: set<Obj>): (r: Option<nat>)
    ensures r.Some? ==> (r.value == 0 <==> name !in parents)
    ensures name in seen && name in parents ==> r.None?
    decreases parents.Keys - seen
  {
    if name !in parents then Some(0)
    else if name in seen then None
    else
      match ChainLength(parents, parents[name], seen + {name})
      case None => None
      case Some(d) => Some(d + 1)
  }

  function Depth(parents: map<Obj, Obj>, name: Obj): Option<nat>
  {
    ChainLength(parents, name, {})
  }

  /** The object reached from `name` after `k` parent steps (a root stays put). */
  function Walk(parents: map<Obj, Obj>, name: Obj, k: nat): Obj
    decreases k
  {
    if k == 0 || name !in parents then name else Walk(parents, parents[name], k - 1)
  }

  /** The objects of the first `k` steps of the walk from `name`. */
  function Visited(parents: map<Obj, Obj>, name: Obj, k: nat): set<Obj>
  {
    if k == 0 then {} else Visited(parents, name, k - 1) + {Walk(parents, name, k - 1)}
  }

  lemma {:induction false} VisitedMembers(parents: map<Obj, Obj>, name: Obj, k: nat, m: Obj)
    ensures m in Visited(parents, name, k) ==> exists i :: 0 <= i < k && Walk(parents, name, i) == m
    ensures forall i :: 0 <= i < k && Walk(parents, name, i) == m ==> m in Visited(parents, name, k)
  {
    if k > 0 {
      VisitedMembers(parents, name, k - 1, m);
      assert Visited(parents, name, k) == Visited(parents, name, k - 1) + {Walk(parents, name, k - 1)};
    }
  }

  /** Forgetting some of the seen objects cannot turn a finished count into a different one. */
  lemma {:induction false} ChainLengthSeenSmaller(parents: map<Obj, Obj>, name: Obj, s: set<Obj>, s': set<Obj>)
    requires s' <= s
    requires ChainLength(parents, name, s).Some?
    ensures ChainLength(parents, name, s') == ChainLength(parents, name, s)
    decreases parents.Keys - s
  {
    if name in parents {
      ChainLengthSeenSmaller(parents, parents[name], s + {name}, s' + {name});
    }
  }

  /** A count of d means: d parent steps reach an object without a parent, and no fewer do. */
  lemma {:induction false} ChainLengthWalk(parents: map<Obj, Obj>, name: Obj, s: set<Obj>)
    requires ChainLength(parents, name, s).Some?
    ensures var d := ChainLength(parents, name, s).value;
      && Walk(parents, name, d) !in parents
      && forall k :: 0 <= k < d ==> Walk(parents, name, k) in parents
    decreases parents.Keys - s
  {
    if name in parents {
      ChainLengthWalk(parents, parents[name], s + {name});
      var d := ChainLength(parents, name, s).value;
      forall k | 0 <= k < d
        ensures Walk(parents, name, k) in parents
      {
        if k > 0 {
          assert Walk(parents, name, k) == Walk(parents, parents[name], k - 1);
        }
      }
    }
  }

  /** Root objects count 0; any other object counts one more than its parent. */
  lemma DepthUnfold(parents: map<Obj, Obj>, name: Obj)
    requires Depth(parents, name).Some?
    ensures name !in parents ==> Depth(parents, name) == Some(0)
    ensures name in parents ==>
      && Depth(parents, parents[name]).Some?
      && Depth(parents, name).value == Depth(parents, parents[name]).value + 1
  {
    if name in parents {
      var none: set<Obj> := {};
      assert none + {name} == {name};
      assert ChainLength(parents, parents[name], {name}).Some?;
      ChainLengthSeenSmaller(parents, parents[name], {name}, {});
    }
  }

  /** `Walk` composes: a + b steps are a steps followed by b steps. */
  lemma {:induction false} WalkAdd(parents: map<Obj, Obj>, name: Obj, a: nat, b: nat)
    ensures Walk(parents, name, a + b) == Walk(parents, Walk(parents, name, a), b)
    decreases a
  {
    if a > 0 && name in parents {
      WalkAdd(parents, parents[name], a - 1, b);
    }
  }

  /**
   * A count that never finishes comes from a cycle: walking up from `start`,
   * the chain meets an object a second time, and that object has a parent.
   * Here `name` is the object reached after `k` steps and `seen` holds the
   * objects of the first `k` steps.
   */
  lemma {:induction false} UnfinishedMeansCycle(parents: map<Obj, Obj>, start: Obj, k: nat, seen: set<Obj>)
    requires seen == Visited(parents, start, k)
    requires forall i :: 0 <= i < k ==> Walk(parents, start, i) in parents
    requires ChainLength(parents, Walk(parents, start, k), seen).None?
    ensures exists i, j :: 0 <= i < j && Walk(parents, start, i) == Walk(parents, start, j) && Walk(parents, start, i) in parents
    decreases parents.Keys - seen
  {
    var name := Walk(parents, start, k);
    assert name in parents;
    if name in seen {
      VisitedMembers(parents, start, k, name);
      var i :| 0 <= i < k && Walk(parents, start, i) == name;
      assert Walk(parents, start, i) == Walk(parents, start, k);
    } else {
      WalkAdd(parents, start, k, 1);
      assert Walk(parents, start, k + 1) == parents[name];
      UnfinishedMeansCycle(parents, start, k + 1, seen + {name});
    }
  }

  /** On a cycle of the parent chain no later step reaches an object without a parent. */
  lemma {:induction false} CycleNeverEnds(parents: map<Obj, Obj>, start: Obj, i: nat, j: nat, k: nat)
    requires i < j
    requires Walk(parents, start, i) == Walk(parents, start, j)
    requires forall t :: i <= t < j ==> Walk(parents, start, t) in parents
    requires k >= i
    ensures Walk(parents, start, k) in parents
    decreases k
  {
    if k >= j {
      CycleNeverEnds(parents, start, i, j, k - (j - i));
      WalkAdd(parents, start, j, k - j);
      WalkAdd(parents, start, i, k - j);
    }
  }

  /**
   * The count of an object is None exactly when its chain of parents never
   * reaches an object without a parent: the source's recursion then has no end.
   */
  lemma DepthNoneIffEndless(parents: map<Obj, Obj>, name: Obj)
    ensures Depth(parents, name).None? <==> forall k: nat :: Walk(parents, name, k) in parents
  {
    if Depth(parents, name).None? {
      UnfinishedMeansCycle(parents, name, 0, {});
      var i, j :| 0 <= i < j && Walk(parents, name, i) == Walk(parents, name, j) && Walk(parents, name, i) in parents;
      var i0, j0 := FirstRepeat(parents, name, i, j);
      forall k: nat
        ensures Walk(parents, name, k) in parents
      {
        if k < i0 {
          NoRootBefore(parents, name, i0, k);
        } else {
          CycleNeverEnds(parents, name, i0, j0, k);
        }
      }
    } else {
      ChainLengthWalk(parents, name, {});
    }
  }

  /** If step `j` is an object with a parent, so is every earlier step. */
  lemma {:induction false} NoRootBefore(parents: map<Obj, Obj>, name: Obj, j: nat, k: nat)
    requires Walk(parents, name, j) in parents
    requires k <= j
    ensures Walk(parents, name, k) in parents
    decreases j
  {
    if k > 0 && name in parents {
      NoRootBefore(parents, parents[name], j - 1, k - 1);
    }
  }

  /** Between two equal steps, every step of the walk has a parent. */
  lemma FirstRepeat(parents: map<Obj, Obj>, name: Obj, i: nat, j: nat) returns (i0: nat, j0: nat)
    requires i < j
    requires Walk(parents, name, i) == Walk(parents, name, j)
    requires Walk(parents, name, i) in parents
    ensures i0 < j0 && Walk(parents, name, i0) == Walk(parents, name, j0)
    ensures forall t :: i0 <= t < j0 ==> Walk(parents, name, t) in parents
  {
    i0, j0 := i, j;
    forall t | i <= t < j
      ensures Walk(parents, name, t) in parents
    {
      if Walk(parents, name, t) !in parents {
        WalkAdd(parents, name, t, j - t);
        RootStays(parents, Walk(parents, name, t), j - t);
        assert Walk(parents, name, j) == Walk(parents, name, t);
        NoRootBefore(parents, name, j, t);
      }
    }
  }

  /** An object without a parent walks nowhere. */
  lemma RootStays(parents: map<Obj, Obj>, name: Obj, k: nat)
    requires name !in parents
    ensures Walk(parents, name, k) == name
  {
  }

  /** The counts of `names`, summed; None as soon as one count never finishes. */
  function SumDepths(parents: map<Obj, Obj>, names: seq<string>): Result<nat>
  {
    if |names| == 0 then Success(0)
    else
      match SumDepths(parents, names[..|names| - 1])
      case Failure(e) => Failure(e)
      case Success(total) =>
        match Depth(parents, Stored(names[|names| - 1]))
        case None => Failure(RecursionError)
        case Some(d) => Success(total + d)
  }

  /** `get_orbit_checksum`: sum of the counts of the dict's objects, one per distinct name; a cycle raises RecursionError. */
  function Checksum(orbits: seq<Orbit>): (r: Result<nat>)
    ensures r.Failure? <==> exists i :: 0 <= i < |Names(orbits)| && Depth(Parents(orbits), Stored(Names(orbits)[i])).None?
    ensures r.Failure? ==> r.error == RecursionError
  {
    SumDepthsFails(Parents(orbits), Names(orbits));
    SumDepths(Parents(orbits), Names(orbits))
  }

  /** The sum fails exactly when some name's count never finishes. */
  lemma {:induction false} SumDepthsFails(parents: map<Obj, Obj>, names: seq<string>)
    ensures SumDepths(parents, names).Failure? <==> exists i :: 0 <= i < |names| && Depth(parents, Stored(names[i])).None?
    ensures SumDepths(parents, names).Failure? ==> SumDepths(parents, names).error == RecursionError
  {
    if |names| > 0 {
      SumDepthsFails(parents, names[..|names| - 1]);
      assert forall i :: 0 <= i < |names| - 1 ==> names[..|names| - 1][i] == names[i];
    }
  }

  /** Names with a parent among `names`. */
  function Orbiters(parents: map<Obj, Obj>, names: seq<string>): set<Obj>
  {
    set i | 0 <= i < |names| && Stored(names[i]) in parents :: Stored(names[i])
  }

  /** Each name with a parent counts at least 1, so the sum is at least their number. */
  lemma {:induction false} SumDepthsAtLeastOrbiters(parents: map<Obj, Obj>, names: seq<string>)
    requires SumDepths(parents, names).Success?
    ensures SumDepths(parents, names).value >= |Orbiters(parents, names)|
  {
    if |names| > 0 {
      var front := names[..|names| - 1];
      var last := Stored(names[|names| - 1]);
      SumDepthsAtLeastOrbiters(parents, front);
      if last in parents {
        DepthUnfold(parents, last);
        assert Orbiters(parents, names) == Orbiters(parents, front) + {last};
        assert |Orbiters(parents, names)| <= |Orbiters(parents, front)| + 1;
      } else {
        assert Orbiters(parents, names) == Orbiters(parents, front);
      }
    }
  }

  /** The checksum is at least the number of distinct orbiters. */
  lemma ChecksumAtLeastOrbiters(orbits: seq<Orbit>)
    requires Checksum(orbits).Success?
    ensures Checksum(orbits).value >= |Parents(orbits).Keys|
  {
    var p := Parents(orbits);
    var names := Names(orbits);
    SumDepthsAtLeastOrbiters(p, names);
    assert p.Keys <= Orbiters(p, names) by {
      forall o | o in p
        ensures o in Orbiters(p, names)
      {
        var i :| 0 <= i < |orbits| && orbits[i].orbiter == o.name;
        assert Named(orbits, o.name);
        assert o.name in names;
        var k :| 0 <= k < |names| && names[k] == o.name;
      }
    }
    assert |p.Keys| <= |Orbiters(p, names)| by {
      SubsetCard(p.Keys, Orbiters(p, names));
    }
  }

  /** A first line `A)A` links A to a root of its own, so A counts 1. */
  lemma SelfOrbitSample()
    ensures Checksum([Orbit("A", "A")]) == Success(1)
  {
    var one := [Orbit("A", "A")];
    var p1 := map[Stored("A") := Orphan("A")];
    assert Parents(one) == p1 by {
      assert one[..0] == [];
    }
    assert Names(one) == ["A"] by {
      assert one[..0] == [];
    }
    assert SumDepths(p1, ["A"]) == Success(1) by {
      assert ChainLength(p1, Orphan("A"), {Stored("A")}) == Some(0);
      assert Depth(p1, Stored("A")) == Some(1);
      assert ["A"][..0] == [];
    }
  }

  /** After `A)A`, a moon B of A counts 2: B, then A, then A's own root. */
  lemma SelfOrbitMoonSample()
    ensures Checksum([Orbit("A", "A"), Orbit("A", "B")]) == Success(3)
  {
    MoonSampleLinks();
    MoonSampleSum();
  }

  lemma MoonSampleLinks()
    ensures Parents([Orbit("A", "A"), Orbit("A", "B")]) == map[Stored("A") := Orphan("A"), Stored("B") := Stored("A")]
    ensures Names([Orbit("A", "A"), Orbit("A", "B")]) == ["A", "B"]
  {
    var one := [Orbit("A", "A")];
    var two := [Orbit("A", "A"), Orbit("A", "B")];
    assert one[..0] == [];
    assert two[..1] == one;
    assert one[0].center == "A";
    assert Named(one, "A");
  }

  lemma MoonSampleSum()
    ensures SumDepths(map[Stored("A") := Orphan("A"), Stored("B") := Stored("A")], ["A", "B"]) == Success(3)
  {
    var p2 := map[Stored("A") := Orphan("A"), Stored("B") := Stored("A")];
    assert Depth(p2, Stored("A")) == Some(1) by {
      assert ChainLength(p2, Orphan("A"), {Stored("A")}) == Some(0);
    }
    assert Depth(p2, Stored("B")) == Some(2) by {
      var none: set<Obj> := {};
      assert none + {Stored("B")} == {Stored("B")};
      assert {Stored("B")} + {Stored("A")} == {Stored("B"), Stored("A")};
      assert ChainLength(p2, Orphan("A"), {Stored("B"), Stored("A")}) == Some(0);
      assert ChainLength(p2, Stored("A"), {Stored("B")}) == Some(1);
    }
    assert ["A", "B"][..1] == ["A"];
    assert ["A"][..0] == [];
    assert SumDepths(p2, ["A"]) == Success(1);
  }

  /** Two objects orbiting each other raise RecursionError. */
  lemma CycleSample()
    ensures Checksum([Orbit("A", "B"), Orbit("B", "A")]) == Failure(RecursionError)
  {
    CycleSampleLinks();
    CycleSampleSum();
  }

  lemma CycleSampleLinks()
    ensures Parents([Orbit("A", "B"), Orbit("B", "A")]) == map[Stored("B") := Stored("A"), Stored("A") := Stored("B")]
    ensures Names([Orbit("A", "B"), Orbit("B", "A")]) == ["A", "B"]
  {
    var cyc := [Orbit("A", "B"), Orbit("B", "A")];
    assert cyc[..1] == [Orbit("A", "B")];
    assert [Orbit("A", "B")][..0] == [];
  }

  lemma CycleSampleSum()
    ensures SumDepths(map[Stored("B") := Stored("A"), Stored("A") := Stored("B")], ["A", "B"]) == Failure(RecursionError)
  {
    var p3 := map[Stored("B") := Stored("A"), Stored("A") := Stored("B")];
    assert Depth(p3, Stored("A")).None? by {
      var none: set<Obj> := {};
      assert none + {Stored("A")} == {Stored("A")};
      assert {Stored("A")} + {Stored("B")} == {Stored("A"), Stored("B")};
      assert ChainLength(p3, Stored("A"), {Stored("A"), Stored("B")}) == None;
      assert ChainLength(p3, Stored("B"), {Stored("A")}) == None;
    }
    assert ["A", "B"][..1] == ["A"];
    assert ["A"][..0] == [];
  }
}
