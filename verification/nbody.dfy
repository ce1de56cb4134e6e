/**
 * N-body moon simulation (day 12). In each time step every pair of moons
 * pulls the two moons' velocities one unit toward each other on each axis,
 * and only after all pairs are done does every moon move by its velocity.
 * Energy is |x|+|y|+|z| of position times that of velocity, summed over moons.
 */
module NBody {
  import opened Common

  datatype Vec = Vec(x: int, y: int, z: int)

  datatype Moon = Moon(pos: Vec, vel: Vec)

  const Zero: Vec := Vec(0, 0, 0)

  function VAdd(a: Vec, b: Vec): Vec
  {
    Vec(a.x + b.x, a.y + b.y, a.z + b.z)
  }

  function VNeg(a: Vec): Vec
  {
    Vec(-a.x, -a.y, -a.z)
  }

  /** A moon as `Moon(x, y, z)` creates it: at rest. */
  function NewMoon(x: int, y: int, z: int): Moon
  {
    Moon(Vec(x, y, z), Zero)
  }

  /** The velocity change on one axis from a moon at `self` toward a moon at `other`. */
  function Pull(self: int, other: int): int
  {
    if other > self then 1 else if other < self then -1 else 0
  }

  function PullVec(p: Vec, q: Vec): Vec
  {
    Vec(Pull(p.x, q.x), Pull(p.y, q.y), Pull(p.z, q.z))
  }

  /** Gravity is symmetric: the pull on q is the opposite of the pull on p. */
  lemma PullAntisymmetric(p: Vec, q: Vec)
    ensures PullVec(q, p) == VNeg(PullVec(p, q))
  {
  }

  /**
   * `Moon.update_relative_vel`: each velocity component moves by one unit
   * toward the other moon's coordinate on that axis, or stays when the
   * coordinates agree; the position does not change.
   */
  function UpdateRelativeVel(m: Moon, other: Moon): (r: Moon)
    ensures r.pos == m.pos
    ensures r.vel.x - m.vel.x in {-1, 0, 1} && (r.vel.x > m.vel.x <==> other.pos.x > m.pos.x) && (r.vel.x < m.vel.x <==> other.pos.x < m.pos.x)
    ensures r.vel.y - m.vel.y in {-1, 0, 1} && (r.vel.y > m.vel.y <==> other.pos.y > m.pos.y) && (r.vel.y < m.vel.y <==> other.pos.y < m.pos.y)
    ensures r.vel.z - m.vel.z in {-1, 0, 1} && (r.vel.z > m.vel.z <==> other.pos.z > m.pos.z) && (r.vel.z < m.vel.z <==> other.pos.z < m.pos.z)
  {
    Moon(m.pos, VAdd(m.vel, PullVec(m.pos, other.pos)))
  }

  /** `Moon.update_pos`: the position moves by the velocity; the velocity is kept. */
  function UpdatePos(m: Moon): (r: Moon)
    ensures r.vel == m.vel
    ensures r.pos.x - m.pos.x == m.vel.x && r.pos.y - m.pos.y == m.vel.y && r.pos.z - m.pos.z == m.vel.z
  {
    Moon(VAdd(m.pos, m.vel), m.vel)
  }

  function Manhattan(v: Vec): (r: nat)
    ensures r == 0 <==> v == Zero
  {
    Abs(v.x) + Abs(v.y) + Abs(v.z)
  }

  /** `get_potential_energy`: zero exactly for a moon at the origin. */
  function PotentialEnergy(m: Moon): (e: nat)
    ensures e == 0 <==> m.pos == Zero
  {
    Manhattan(m.pos)
  }

  /** `get_kinetic_energy`: zero exactly for a moon at rest. */
  function KineticEnergy(m: Moon): (e: nat)
    ensures e == 0 <==> m.vel == Zero
  {
    Manhattan(m.vel)
  }

  /** `get_total_energy`: never negative, and zero exactly when the moon is at the origin or at rest. */
  function TotalEnergy(m: Moon): (e: nat)
    ensures e == 0 <==> m.pos == Zero || m.vel == Zero
  {
    var p, k := PotentialEnergy(m), KineticEnergy(m);
    ProductZero(p, k);
    p * k
  }

  lemma ProductZero(a: nat, b: nat)
    ensures a * b == 0 <==> a == 0 || b == 0
  {
    if a > 0 && b > 0 {
      assert a * b >= 1 * b;
    }
  }

  /**
   * `get_total_system_energy`: the moons' total energies added up. It is at
   * least each moon's total, and zero exactly when every moon's total is.
   */
  function SystemEnergy(moons: seq<Moon>): (e: nat)
    ensures |moons| == 0 ==> e == 0
    ensures forall i :: 0 <= i < |moons| ==> TotalEnergy(moons[i]) <= e
    ensures e == 0 <==> forall i :: 0 <= i < |moons| ==> TotalEnergy(moons[i]) == 0
  {
    if |moons| == 0 then 0
    else
      var front := moons[..|moons| - 1];
      assert forall i :: 0 <= i < |front| ==> front[i] == moons[i];
      SystemEnergy(front) + TotalEnergy(moons[|moons| - 1])
  }

  /** The system energy is additive over any split of the moon list. */
  lemma {:induction false} SystemEnergySplit(a: seq<Moon>, b: seq<Moon>)
    ensures SystemEnergy(a + b) == SystemEnergy(a) + SystemEnergy(b)
    decreases |b|
  {
    if |b| == 0 {
      assert a + b == a;
    } else {
      assert (a + b)[..|a + b| - 1] == a + b[..|b| - 1];
      SystemEnergySplit(a, b[..|b| - 1]);
    }
  }

  /** The sum of all velocities (the system's momentum, every moon having unit mass). */
  function VelSum(moons: seq<Moon>): Vec
  {
    if |moons| == 0 then Zero else VAdd(VelSum(moons[..|moons| - 1]), moons[|moons| - 1].vel)
  }

  /** The pull on moon k from moons 0 .. m-1 of the start-of-step positions. */
  function Accel(moons: seq<Moon>, k: nat, m: nat): Vec
    requires k < |moons| && m <= |moons|
  {
    if m == 0 then Zero else VAdd(Accel(moons, k, m - 1), PullVec(moons[k].pos, moons[m - 1].pos))
  }

  /** The positions are those at the start of the step. */
  predicate SamePositions(moons: seq<Moon>, r: seq<Moon>)
  {
    |r| == |moons| && forall k :: 0 <= k < |moons| ==> r[k].pos == moons[k].pos
  }

  /** One pair (i, j), i < j: moon i is pulled toward moon j, then moon j toward moon i. */
  method PullPair(moons: seq<Moon>, r0: seq<Moon>, i: nat, j: nat) returns (r: seq<Moon>)
    requires i < j < |moons| && SamePositions(moons, r0)
    requires r0[i].vel == VAdd(moons[i].vel, Accel(moons, i, j))
    requires r0[j].vel == VAdd(moons[j].vel, Accel(moons, j, i))
    ensures SamePositions(moons, r)
    ensures forall k :: 0 <= k < |moons| && k != i && k != j ==> r[k] == r0[k]
    ensures r[i].vel == VAdd(moons[i].vel, Accel(moons, i, j + 1))
    ensures r[j].vel == VAdd(moons[j].vel, Accel(moons, j, i + 1))
  {
    var mi := UpdateRelativeVel(r0[i], r0[j]);
    var r1 := r0[i := mi];
    var mj := UpdateRelativeVel(r1[j], r1[i]);
    r := r1[j := mj];
  }

  /**
   * The pairs (i, j), j = i+1 .. n-1, in order. Afterwards moon i has the pull
   * of all moons and every later moon also has the pull of moon i.
   */
  method PullPairsOf(moons: seq<Moon>, r0: seq<Moon>, i: nat) returns (r: seq<Moon>)
    requires i < |moons| && SamePositions(moons, r0)
    requires forall k {:trigger r0[k]} :: i <= k < |moons| ==> r0[k].vel == VAdd(moons[k].vel, Accel(moons, k, i))
    ensures SamePositions(moons, r)
    ensures forall k :: 0 <= k < i ==> r[k] == r0[k]
    ensures r[i].vel == VAdd(moons[i].vel, Accel(moons, i, |moons|))
    ensures forall k {:trigger r[k]} :: i < k < |moons| ==> r[k].vel == VAdd(moons[k].vel, Accel(moons, k, i + 1))
  {
    var n := |moons|;
    r := r0;
    var j := i + 1;
    assert Accel(moons, i, i + 1) == Accel(moons, i, i);
    while j < n
      invariant i < j <= n && SamePositions(moons, r)
      invariant forall k :: 0 <= k < i ==> r[k] == r0[k]
      invariant r[i].vel == VAdd(moons[i].vel, Accel(moons, i, j))
      invariant forall k {:trigger r[k]} :: i < k < j ==> r[k].vel == VAdd(moons[k].vel, Accel(moons, k, i + 1))
      invariant forall k {:trigger r[k]} :: j <= k < n ==> r[k].vel == VAdd(moons[k].vel, Accel(moons, k, i))
    {
      r := PullPair(moons, r, i, j);
      j := j + 1;
    }
  }

  /**
   * The gravity half of a step, as `apply_steps` performs it: for each pair
   * (i, j) with i < j, in the order `combinations` yields them, moon i is
   * pulled toward moon j and then moon j toward moon i. Every moon ends with
   * the pull of all moons at their start-of-step positions.
   */
  method ApplyGravity(moons: seq<Moon>) returns (r: seq<Moon>)
    ensures |r| == |moons|
    ensures forall k :: 0 <= k < |moons| ==> r[k].pos == moons[k].pos
    ensures forall k {:trigger r[k]} :: 0 <= k < |moons| ==> r[k].vel == VAdd(moons[k].vel, Accel(moons, k, |moons|))
  {
    var n := |moons|;
    r := moons;
    var i := 0;
    while i < n
      invariant 0 <= i <= n && SamePositions(moons, r)
      invariant forall k {:trigger r[k]} :: 0 <= k < i ==> r[k].vel == VAdd(moons[k].vel, Accel(moons, k, n))
      invariant forall k {:trigger r[k]} :: i <= k < n ==> r[k].vel == VAdd(moons[k].vel, Accel(moons, k, i))
    {
      var next := PullPairsOf(moons, r, i);
      forall k | 0 <= k < i
        ensures next[k].vel == VAdd(moons[k].vel, Accel(moons, k, n))
      {
        assert next[k] == r[k];
      }
      r := next;
      i := i + 1;
    }
  }

  /** One time step as a formula: every moon gets the pull of all start-of-step positions, then moves. */
  function StepSpec(moons: seq<Moon>): (r: seq<Moon>)
    ensures |r| == |moons|
  {
    seq(|moons|, k requires 0 <= k < |moons| =>
      UpdatePos(Moon(moons[k].pos, VAdd(moons[k].vel, Accel(moons, k, |moons|)))))
  }

  /** `k` time steps. */
  function Steps(moons: seq<Moon>, k: nat): (r: seq<Moon>)
    ensures |r| == |moons|
    decreases k
  {
    if k == 0 then moons else Steps(StepSpec(moons), k - 1)
  }

  /** The pull on all of the first n moons from the first m moons. */
  function TotalAccel(moons: seq<Moon>, n: nat, m: nat): Vec
    requires n <= |moons| && m <= |moons|
  {
    if n == 0 then Zero else VAdd(TotalAccel(moons, n - 1, m), Accel(moons, n - 1, m))
  }

  /** The pull of moon m on each of the first n moons, summed. */
  function PullOn(moons: seq<Moon>, n: nat, m: nat): Vec
    requires n <= |moons| && m < |moons|
  {
    if n == 0 then Zero else VAdd(PullOn(moons, n - 1, m), PullVec(moons[n - 1].pos, moons[m].pos))
  }

  lemma AddZero(v: Vec)
    ensures VAdd(v, Zero) == v && VAdd(Zero, v) == v
  {
  }

  lemma Regroup(a: Vec, b: Vec, c: Vec, d: Vec)
    ensures VAdd(VAdd(a, b), VAdd(c, d)) == VAdd(VAdd(a, c), VAdd(b, d))
  {
  }

  lemma NegAdd(a: Vec, b: Vec)
    ensures VNeg(VAdd(a, b)) == VAdd(VNeg(a), VNeg(b))
  {
  }

  lemma AddNeg(a: Vec)
    ensures VAdd(a, VNeg(a)) == Zero
  {
  }

  /** Adding one more pulling moon adds its pull on each of the first n moons. */
  lemma {:induction false} TotalAccelNext(moons: seq<Moon>, n: nat, m: nat)
    requires n <= |moons| && m < |moons|
    ensures TotalAccel(moons, n, m + 1) == VAdd(TotalAccel(moons, n, m), PullOn(moons, n, m))
  {
    if n == 0 {
      AddZero(Zero);
    } else {
      TotalAccelNext(moons, n - 1, m);
      var a, b := TotalAccel(moons, n - 1, m), PullOn(moons, n - 1, m);
      var c, d := Accel(moons, n - 1, m), PullVec(moons[n - 1].pos, moons[m].pos);
      assert Accel(moons, n - 1, m + 1) == VAdd(c, d);
      Regroup(a, b, c, d);
    }
  }

  /** What moon m pulls on the first n moons is the opposite of what they pull on moon m. */
  lemma {:induction false} PullOnOpposes(moons: seq<Moon>, n: nat, m: nat)
    requires n <= |moons| && m < |moons|
    ensures PullOn(moons, n, m) == VNeg(Accel(moons, m, n))
  {
    if n == 0 {
      assert PullOn(moons, n, m) == Zero;
      assert Accel(moons, m, n) == Zero;
      AddNeg(Zero);
      AddZero(VNeg(Zero));
    } else {
      PullOnOpposes(moons, n - 1, m);
      var a, p := Accel(moons, m, n - 1), PullVec(moons[m].pos, moons[n - 1].pos);
      PullAntisymmetric(moons[m].pos, moons[n - 1].pos);
      assert PullOn(moons, n, m) == VAdd(VNeg(a), VNeg(p));
      assert Accel(moons, m, n) == VAdd(a, p);
      NegAdd(a, p);
    }
  }

  /** Among the first n moons the pulls cancel out: gravity conserves momentum. */
  lemma {:induction false} PullsCancel(moons: seq<Moon>, n: nat)
    requires n <= |moons|
    ensures TotalAccel(moons, n, n) == Zero
  {
    if n > 0 {
      var k := n - 1;
      PullsCancel(moons, k);
      TotalAccelNext(moons, k, k);
      PullOnOpposes(moons, k, k);
      var self := PullVec(moons[k].pos, moons[k].pos);
      assert self == Zero;
      var a := Accel(moons, k, k);
      assert Accel(moons, k, n) == VAdd(a, self);
      AddZero(a);
      var p := PullOn(moons, k, k);
      // TotalAccel(n, n) == TotalAccel(k, n) + Accel(k, n) == (Zero + p) + a, with p == -a
      assert TotalAccel(moons, k, n) == VAdd(Zero, p);
      AddZero(p);
      AddNeg(a);
      assert VAdd(p, a) == Zero;
    }
  }

  /** Summing velocities that each gained the pull of the first m moons. */
  lemma {:induction false} VelSumPulled(moons: seq<Moon>, r: seq<Moon>, n: nat, m: nat)
    requires |r| == |moons| && n <= |moons| && m <= |moons|
    requires forall k :: 0 <= k < |moons| ==> r[k].vel == VAdd(moons[k].vel, Accel(moons, k, m))
    ensures VelSum(r[..n]) == VAdd(VelSum(moons[..n]), TotalAccel(moons, n, m))
  {
    if n == 0 {
      AddZero(Zero);
    } else {
      VelSumPulled(moons, r, n - 1, m);
      assert r[..n][..n - 1] == r[..n - 1];
      assert moons[..n][..n - 1] == moons[..n - 1];
      Regroup(VelSum(moons[..n - 1]), TotalAccel(moons, n - 1, m), moons[n - 1].vel, Accel(moons, n - 1, m));
    }
  }

  /** A time step leaves the sum of all velocities unchanged. */
  lemma StepConservesMomentum(moons: seq<Moon>)
    ensures VelSum(StepSpec(moons)) == VelSum(moons)
  {
    var r := StepSpec(moons);
    var n := |moons|;
    forall k | 0 <= k < n
      ensures r[k].vel == VAdd(moons[k].vel, Accel(moons, k, n))
    {
    }
    VelSumPulled(moons, r, n, n);
    PullsCancel(moons, n);
    assert r[..n] == r && moons[..n] == moons;
    AddZero(VelSum(moons));
  }

  /** Any number of time steps leaves the sum of all velocities unchanged. */
  lemma {:induction false} StepsConserveMomentum(moons: seq<Moon>, k: nat)
    ensures VelSum(Steps(moons, k)) == VelSum(moons)
    decreases k
  {
    if k > 0 {
      StepConservesMomentum(moons);
      StepsConserveMomentum(StepSpec(moons), k - 1);
    }
  }

  /** One iteration of `apply_steps`: gravity over all pairs, then every moon moves. */
  method Step(moons: seq<Moon>) returns (r: seq<Moon>)
    ensures r == StepSpec(moons)
    ensures VelSum(r) == VelSum(moons)
  {
    var g := ApplyGravity(moons);
    r := g;
    var i := 0;
    while i < |r|
      invariant 0 <= i <= |r| && |r| == |g|
      invariant forall k :: 0 <= k < i ==> r[k] == UpdatePos(g[k])
      invariant forall k :: i <= k < |r| ==> r[k] == g[k]
    {
      r := r[i := UpdatePos(r[i])];
      i := i + 1;
    }
    StepConservesMomentum(moons);
  }

  /**
   * `apply_steps`: runs `steps` time steps (none when steps < 1); the sum of
   * all velocities on each axis is the same before and after.
   */
  method ApplySteps(moons: seq<Moon>, steps: int) returns (r: seq<Moon>)
    ensures r == Steps(moons, if steps < 0 then 0 else steps)
    ensures VelSum(r) == VelSum(moons)
  {
    r := moons;
    var step := 1;
    while step <= steps
      invariant 1 <= step && (steps >= 0 ==> step <= steps + 1)
      invariant Steps(r, if steps < step then 0 else steps - step + 1) == Steps(moons, if steps < 0 then 0 else steps)
      invariant VelSum(r) == VelSum(moons)
    {
      r := Step(r);
      step := step + 1;
    }
  }

  /** `get_axis_state`: the coordinates of all moons on one axis; any other axis name gives (). */
  function AxisState(moons: seq<Moon>, axis: char): (r: seq<int>)
    ensures axis in {'x', 'y', 'z'} ==> |r| == |moons|
    ensures axis !in {'x', 'y', 'z'} ==> r == []
    ensures forall i :: 0 <= i < |r| ==>
      r[i] == (if axis == 'x' then moons[i].pos.x else if axis == 'y' then moons[i].pos.y else moons[i].pos.z)
  {
    if |moons| == 0 then []
    else
      var front := AxisState(moons[..|moons| - 1], axis);
      var m := moons[|moons| - 1];
      if axis == 'x' then front + [m.pos.x]
      else if axis == 'y' then front + [m.pos.y]
      else if axis == 'z' then front + [m.pos.z]
      else front
  }

  // ---------------------------------------------------------------------
  // Least common multiple of the three axis periods.

  /** `math.gcd` on magnitudes: Euclid's algorithm. */
  function Gcd(a: nat, b: nat): nat
    decreases b
  {
    if b == 0 then a else Gcd(b, a % b)
  }

  /** A multiple of a positive `d` leaves no remainder. */
  lemma MultipleMod(d: int, k: int)
    requires d > 0
    ensures (d * k) % d == 0
  {
    var q, r := (d * k) / d, (d * k) % d;
    assert d * k == d * q + r && 0 <= r < d;
    var e := k - q;
    assert r == d * e;
    assert e == 0;
  }

  /** Bezout coefficients: the gcd is an integer combination of the arguments. */
  lemma {:induction false} Bezout(a: nat, b: nat) returns (s: int, t: int)
    ensures s * a + t * b == Gcd(a, b)
    decreases b
  {
    if b == 0 {
      s, t := 1, 0;
    } else {
      var s', t' := Bezout(b, a % b);
      var q := a / b;
      assert a % b == a - b * q;
      s, t := t', s' - t' * q;
      calc {
        s * a + t * b;
        t' * a + s' * b - t' * q * b;
        { assert t' * (a - b * q) == t' * a - t' * q * b; }
        s' * b + t' * (a - b * q);
      }
    }
  }

  /** `d` divides `x` and `y`, hence any combination of them. */
  lemma DividesCombination(d: int, x: int, y: int, p: int, q: int)
    requires d > 0 && x % d == 0 && y % d == 0
    ensures (p * x + q * y) % d == 0
  {
    var kx, ky := x / d, y / d;
    assert x == d * kx;
    assert y == d * ky;
    assert p * x == d * (p * kx);
    assert q * y == d * (q * ky);
    assert p * x + q * y == d * (p * kx + q * ky);
    MultipleMod(d, p * kx + q * ky);
  }

  /** The gcd of two numbers, not both zero, is positive and divides both. */
  lemma {:induction false} GcdDivides(a: nat, b: nat)
    requires a > 0 || b > 0
    ensures Gcd(a, b) > 0 && a % Gcd(a, b) == 0 && b % Gcd(a, b) == 0
    decreases b
  {
    if b > 0 {
      GcdDivides(b, a % b);
      var g := Gcd(a, b);
      assert a == (a / b) * b + a % b;
      DividesCombination(g, b, a % b, a / b, 1);
    }
  }

  /** Python's `(x * y) // gcd(x, y)`: ZeroDivisionError when both are zero. */
  function Lcm2(x: int, y: int): Result<int>
  {
    var g := Gcd(Abs(x), Abs(y));
    if g == 0 then Failure(ZeroDivisionError) else Success((x * y) / g)
  }

  /** The division fails, with ZeroDivisionError, exactly when both numbers are zero. */
  lemma Lcm2Fails(x: int, y: int)
    ensures Lcm2(x, y).Failure? <==> x == 0 && y == 0
    ensures Lcm2(x, y).Failure? ==> Lcm2(x, y).error == ZeroDivisionError
  {
    if x != 0 || y != 0 {
      GcdDivides(Abs(x), Abs(y));
    }
  }

  /** `get_lcm(x, y, z)`: lcm(lcm(x, y), z) with Python's floor division and `math.gcd`. */
  function GetLcm(x: int, y: int, z: int): (r: Result<int>)
    ensures x == 0 && y == 0 ==> r == Failure(ZeroDivisionError)
    ensures r.Failure? ==> r.error == ZeroDivisionError && ((x == 0 && y == 0) || z == 0)
  {
    Lcm2Fails(x, y);
    match Lcm2(x, y)
    case Failure(e) => Failure(e)
    case Success(lxy) =>
      Lcm2Fails(lxy, z);
      Lcm2(lxy, z)
  }

  /** For positive x and y, (x * y) / gcd(x, y) is a positive common multiple of both. */
  lemma Lcm2Multiple(x: int, y: int) returns (xg: int, yg: int)
    requires x > 0 && y > 0
    ensures Lcm2(x, y).Success?
    ensures var l := Lcm2(x, y).value; l == xg * y && l == x * yg && l > 0 && xg > 0 && yg > 0
    ensures Lcm2(x, y).value * Gcd(x, y) == x * y
  {
    var g := Gcd(x, y);
    GcdDivides(x, y);
    xg, yg := x / g, y / g;
    assert x == g * xg && y == g * yg;
    assert x * y == g * (xg * y) by {
      assert x * y == (g * xg) * y;
    }
    assert (x * y) / g == xg * y by {
      MultipleMod(g, xg * y);
    }
    assert xg * y == x * yg by {
      assert xg * y == xg * (g * yg);
      assert x * yg == (g * xg) * yg;
    }
    assert xg > 0 && yg > 0;
    ProductZero(xg, y);
  }

  /** m * gcd(x, y) is (x * y) times an integer combination, when m is a common multiple. */
  lemma CommonMultipleScaled(x: int, y: int, m: int, s: int, t: int)
    requires x > 0 && y > 0 && m % x == 0 && m % y == 0
    ensures m * (s * x + t * y) == (x * y) * (s * (m / y) + t * (m / x))
  {
    var p, q := m / x, m / y;
    assert m == x * p && m == y * q;
    assert m * (s * x) == s * (x * (y * q)) == (x * y) * (s * q);
    assert m * (t * y) == t * (y * (x * p)) == (x * y) * (t * p);
  }

  /** A common multiple of positive x and y is a multiple of (x * y) / gcd(x, y). */
  lemma Lcm2DividesCommon(x: int, y: int, m: int)
    requires x > 0 && y > 0 && m % x == 0 && m % y == 0
    ensures Lcm2(x, y).Success? && Lcm2(x, y).value > 0 && m % Lcm2(x, y).value == 0
  {
    var xg, yg := Lcm2Multiple(x, y);
    var l := Lcm2(x, y).value;
    var g := Gcd(x, y);
    GcdDivides(x, y);
    var s, t := Bezout(x, y);
    var c := s * (m / y) + t * (m / x);
    CommonMultipleScaled(x, y, m, s, t);
    assert m * g == (x * y) * c;
    assert (x * y) * c == (l * c) * g by {
      assert x * y == l * g;
    }
    CancelPositive(m, l * c, g);
    MultipleMod(l, c);
  }

  lemma CancelPositive(a: int, b: int, g: int)
    requires g > 0 && a * g == b * g
    ensures a == b
  {
    assert (a - b) * g == 0;
  }

  /** Multiples of multiples. */
  lemma DividesTransitive(a: int, b: int, c: int)
    requires a > 0 && b > 0 && b % a == 0 && c % b == 0
    ensures c % a == 0
  {
    var kb, kc := b / a, c / b;
    assert b == a * kb && c == b * kc;
    assert c == a * (kb * kc);
    MultipleMod(a, kb * kc);
  }

  /**
   * For positive periods, `get_lcm` is the least common multiple: positive,
   * divisible by each argument, and dividing every common multiple.
   */
  lemma GetLcmLeast(x: int, y: int, z: int)
    requires x > 0 && y > 0 && z > 0
    ensures GetLcm(x, y, z).Success?
    ensures var l := GetLcm(x, y, z).value;
      && l > 0 && l % x == 0 && l % y == 0 && l % z == 0
      && forall m :: m % x == 0 && m % y == 0 && m % z == 0 ==> m % l == 0
  {
    var a, b := Lcm2Multiple(x, y);
    var lxy := Lcm2(x, y).value;
    MultipleMod(y, a);
    MultipleMod(x, b);
    var c, d := Lcm2Multiple(lxy, z);
    var l := GetLcm(x, y, z).value;
    MultipleMod(z, c);
    MultipleMod(lxy, d);
    DividesTransitive(x, lxy, l);
    DividesTransitive(y, lxy, l);
    forall m | m % x == 0 && m % y == 0 && m % z == 0
      ensures m % l == 0
    {
      Lcm2DividesCommon(x, y, m);
      Lcm2DividesCommon(lxy, z, m);
    }
  }

  /** The lcm of two zero periods is a division by zero. */
  lemma GetLcmZero(z: int)
    ensures GetLcm(0, 0, z) == Failure(ZeroDivisionError)
  {
  }

  /** The periods of the first sample system (18, 28 and 44 steps) give 2772. */
  lemma SamplePeriods()
    ensures GetLcm(18, 28, 44) == Success(2772)
  {
    assert Gcd(8, 2) == 2;
    assert Gcd(18, 10) == 2;
    assert Gcd(18, 28) == 2;
    assert 18 * 28 / 2 == 252;
    assert Gcd(44, 32) == 4;
    assert Gcd(252, 44) == 4;
    assert 252 * 44 / 4 == 2772;
  }

  // ---------------------------------------------------------------------
  // Searching for the step at which each axis returns to its start.

  lemma {:induction false} StepsSucc(moons: seq<Moon>, s: nat)
    ensures Steps(moons, s + 1) == Steps(Steps(moons, s), 1)
    decreases s
  {
    if s > 0 {
      StepsSucc(StepSpec(moons), s - 1);
    }
  }

  /** After s steps the positions on `axis` are those of the start. */
  predicate RepeatsAt(moons: seq<Moon>, axis: char, s: nat)
  {
    AxisState(Steps(moons, s), axis) == AxisState(moons, axis)
  }

  /** s is the first step, from step 1 on, at which `axis` is back to its start. */
  predicate FirstRepeatAt(moons: seq<Moon>, axis: char, s: nat)
  {
    s >= 1 && RepeatsAt(moons, axis, s) && forall t :: 1 <= t < s ==> !RepeatsAt(moons, axis, t)
  }

  /** The period recorded for an axis: one more than the step it was found at. */
  predicate PeriodFound(moons: seq<Moon>, axis: char, p: Option<nat>, s: nat)
  {
    match p
    case Some(v) => v >= 2 && v - 1 <= s && FirstRepeatAt(moons, axis, v - 1)
    case None => NoRepeatUpTo(moons, axis, s)
  }

  /** No step from 1 to s brings `axis` back to its start. */
  predicate NoRepeatUpTo(moons: seq<Moon>, axis: char, s: nat)
  {
    forall t :: 1 <= t <= s ==> !RepeatsAt(moons, axis, t)
  }

  /** Record the period of `axis` the first time its positions are back to the start. */
  function Record(p: Option<nat>, now: seq<int>, start: seq<int>, s: nat): Option<nat>
  {
    if p.None? && now == start then Some(s + 1) else p
  }

  lemma RecordFound(moons: seq<Moon>, axis: char, p: Option<nat>, s: nat)
    requires s >= 1 && PeriodFound(moons, axis, p, s - 1)
    ensures PeriodFound(moons, axis, Record(p, AxisState(Steps(moons, s), axis), AxisState(moons, axis), s), s)
  {
    var now := AxisState(Steps(moons, s), axis);
    var start := AxisState(moons, axis);
    if p.Some? {
      FoundStays(moons, axis, p.value, s);
    } else if RepeatsAt(moons, axis, s) {
      FoundNow(moons, axis, s);
      assert Record(p, now, start, s) == Some(s + 1);
    } else {
      StillMissing(moons, axis, s);
    }
  }

  lemma FoundStays(moons: seq<Moon>, axis: char, v: nat, s: nat)
    requires s >= 1 && PeriodFound(moons, axis, Some(v), s - 1)
    ensures PeriodFound(moons, axis, Some(v), s)
  {
    assert v >= 2 && v - 1 <= s - 1 && FirstRepeatAt(moons, axis, v - 1);
  }

  lemma FoundNow(moons: seq<Moon>, axis: char, s: nat)
    requires s >= 1 && NoRepeatUpTo(moons, axis, s - 1) && RepeatsAt(moons, axis, s)
    ensures FirstRepeatAt(moons, axis, s)
  {
  }

  lemma StillMissing(moons: seq<Moon>, axis: char, s: nat)
    requires s >= 1 && NoRepeatUpTo(moons, axis, s - 1) && !RepeatsAt(moons, axis, s)
    ensures NoRepeatUpTo(moons, axis, s)
  {
  }

  /** One step of the search keeps the recorded period of every axis correct. */
  lemma RecordAll(moons: seq<Moon>, px: Option<nat>, py: Option<nat>, pz: Option<nat>, ms: seq<Moon>, s: nat)
    requires s >= 1 && ms == Steps(moons, s)
    requires PeriodFound(moons, 'x', px, s - 1) && PeriodFound(moons, 'y', py, s - 1) && PeriodFound(moons, 'z', pz, s - 1)
    ensures PeriodFound(moons, 'x', Record(px, AxisState(ms, 'x'), AxisState(moons, 'x'), s), s)
    ensures PeriodFound(moons, 'y', Record(py, AxisState(ms, 'y'), AxisState(moons, 'y'), s), s)
    ensures PeriodFound(moons, 'z', Record(pz, AxisState(ms, 'z'), AxisState(moons, 'z'), s), s)
  {
    RecordFound(moons, 'x', px, s);
    RecordFound(moons, 'y', py, s);
    RecordFound(moons, 'z', pz, s);
  }

  /** The lcm of three first-repeat periods exists and is positive. */
  lemma PeriodsLcm(moons: seq<Moon>, sx: nat, sy: nat, sz: nat)
    requires FirstRepeatAt(moons, 'x', sx) && FirstRepeatAt(moons, 'y', sy) && FirstRepeatAt(moons, 'z', sz)
    ensures GetLcm(sx + 1, sy + 1, sz + 1).Success? && GetLcm(sx + 1, sy + 1, sz + 1).value > 0
  {
    GetLcmLeast(sx + 1, sy + 1, sz + 1);
  }

  /** Step the system until every axis has repeated or `fuel` steps have run, recording each axis's period. */
  method FindPeriods(moons: seq<Moon>, fuel: nat) returns (px: Option<nat>, py: Option<nat>, pz: Option<nat>, steps: nat)
    ensures steps <= fuel && ((px.Some? && py.Some? && pz.Some?) || steps == fuel)
    ensures PeriodFound(moons, 'x', px, steps) && PeriodFound(moons, 'y', py, steps) && PeriodFound(moons, 'z', pz, steps)
  {
    var start := moons;
    var ms := moons;
    steps := 0;
    px, py, pz := None, None, None;
    while !(px.Some? && py.Some? && pz.Some?) && steps < fuel
      invariant steps <= fuel && ms == Steps(moons, steps)
      invariant PeriodFound(moons, 'x', px, steps)
      invariant PeriodFound(moons, 'y', py, steps)
      invariant PeriodFound(moons, 'z', pz, steps)
    {
      StepsSucc(moons, steps);
      ms := ApplySteps(ms, 1);
      steps := steps + 1;
      RecordAll(moons, px, py, pz, ms, steps);
      px := Record(px, AxisState(ms, 'x'), AxisState(start, 'x'), steps);
      py := Record(py, AxisState(ms, 'y'), AxisState(start, 'y'), steps);
      pz := Record(pz, AxisState(ms, 'z'), AxisState(start, 'z'), steps);
    }
  }

  /**
   * `get_steps_until_repeated`, bounded by `fuel` steps: step the system until
   * each axis has been seen back at its start positions, record for each axis
   * one more than the first step at which that happened, and return the lcm
   * of the three. None when the bound is reached first.
   */
  method StepsUntilRepeated(moons: seq<Moon>, fuel: nat) returns (r: Option<int>)
    ensures r.Some? ==> r.value > 0
    ensures r.Some? ==> exists sx: nat, sy: nat, sz: nat ::
      && FirstRepeatAt(moons, 'x', sx) && FirstRepeatAt(moons, 'y', sy) && FirstRepeatAt(moons, 'z', sz)
      && GetLcm(sx + 1, sy + 1, sz + 1) == Success(r.value)
    ensures r.None? ==> NoRepeatUpTo(moons, 'x', fuel) || NoRepeatUpTo(moons, 'y', fuel) || NoRepeatUpTo(moons, 'z', fuel)
  {
    var px, py, pz, steps := FindPeriods(moons, fuel);
    if px.Some? && py.Some? && pz.Some? {
      PeriodsLcm(moons, px.value - 1, py.value - 1, pz.value - 1);
      r := Some(GetLcm(px.value, py.value, pz.value).value);
    } else {
      r := None;
    }
  }
}
