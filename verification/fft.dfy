/**
 * Flawed Frequency Transmission (day 16). `fft` computes each output digit
 * as a weighted sum of the input under a repeating pattern; `fft2` is the
 * shortcut for the second half of a long signal, where every weight is 1 and
 * a digit is a suffix sum modulo 10.
 */
module Fft {
  import opened Common

  const PATTERN: seq<int> := [0, 1, 0, -1]

  // ---------------------------------------------------------------------
  // The repeating pattern.

  /** One cycle of the pattern for output digit `times - 1`: each element repeated `times` times, in order. */
  function Expand(pattern: seq<int>, times: nat): (e: seq<int>)
    ensures |e| == |pattern| * times
  {
    if |pattern| == 0 then []
    else Expand(pattern[..|pattern| - 1], times) + seq(times, _ => pattern[|pattern| - 1])
  }

  /** Element `m` of the endless `cycle(chain(repeat(p, times) for p in pattern))`. */
  function Cycled(pattern: seq<int>, times: nat, m: nat): int
    requires |pattern| > 0 && times > 0
  {
    Expand(pattern, times)[m % (|pattern| * times)]
  }

  /** The weight input position k gets for output digit i: the first pattern element is skipped. */
  function Weight(pattern: seq<int>, i: nat, k: nat): int
    requires |pattern| > 0
  {
    pattern[((k + 1) / (i + 1)) % |pattern|]
  }

  lemma DivBetween(r: nat, t: nat, q: nat)
    requires t > 0 && q * t <= r < q * t + t
    ensures r / t == q
  {
    var d := r / t;
    assert r == d * t + r % t;
    if d < q {
      MulLe(d + 1, q, t);
      assert false;
    } else if d > q {
      MulLe(q + 1, d, t);
      assert false;
    }
  }

  lemma MulLe(a: int, b: int, t: nat)
    requires a <= b
    ensures a * t <= b * t
  {
    assert b * t - a * t == (b - a) * t;
  }

  /** Element r of one cycle is pattern element r / times. */
  lemma {:induction false} ExpandAt(pattern: seq<int>, times: nat, r: nat)
    requires times > 0 && r < |pattern| * times
    ensures Expand(pattern, times)[r] == pattern[r / times]
  {
    var n := |pattern|;
    var front := pattern[..n - 1];
    if r < (n - 1) * times {
      ExpandAt(front, times, r);
      assert r / times < n - 1 by {
        DivUpper(r, times, n - 1);
      }
    } else {
      DivBetween(r, times, n - 1);
    }
  }

  lemma DivUpper(r: nat, t: nat, q: nat)
    requires t > 0 && r < q * t
    ensures r / t < q
  {
    var d := r / t;
    assert r == d * t + r % t;
    if d >= q {
      MulLe(q, d, t);
      assert false;
    }
  }

  /** Splitting m by whole cycles: (m / times) % n is the element index within the current cycle. */
  lemma CycleIndex(m: nat, times: nat, n: nat)
    requires times > 0 && n > 0
    ensures (m / times) % n == (m % (n * times)) / times
  {
    var len := n * times;
    var a := m / len;
    var r := m % len;
    var b := r / times;
    var c := r % times;
    assert b < n by { DivUpper(r, times, n); }
    var q := n * a + b;
    assert m == q * times + c by {
      assert m == len * a + r;
      assert r == b * times + c;
      Regroup(n, a, b, times);
    }
    DivBetween(m, times, q);
    ModOfMultiplePlus(n, a, b);
  }

  lemma Regroup(n: nat, a: nat, b: nat, t: nat)
    ensures (n * a + b) * t == (n * t) * a + b * t
  {
    assert (n * a + b) * t == (n * a) * t + b * t;
    assert (n * a) * t == (n * t) * a;
  }

  lemma ModOfMultiplePlus(n: nat, a: nat, b: nat)
    requires n > 0 && b < n
    ensures (n * a + b) % n == b
  {
    var q := (n * a + b) / n;
    var r := (n * a + b) % n;
    assert n * a + b == n * q + r;
    if q < a {
      MulLe(q + 1, a, n);
      assert false;
    } else if q > a {
      MulLe(a + 1, q, n);
      assert false;
    }
  }

  /**
   * The generator's values and the index formula agree: after the first
   * element is discarded, the k-th value drawn is the weight of position k.
   */
  lemma CycledIsWeight(pattern: seq<int>, i: nat, k: nat)
    requires |pattern| > 0
    ensures Cycled(pattern, i + 1, k + 1) == Weight(pattern, i, k)
  {
    var n := |pattern|;
    var t := i + 1;
    CycleIndex(k + 1, t, n);
    ExpandAt(pattern, t, (k + 1) % (n * t));
  }

  // ---------------------------------------------------------------------
  // `fft`

  /** The weighted sum of the first n input values for output digit i. */
  function WeightedSum(values: seq<int>, pattern: seq<int>, i: nat, n: nat): int
    requires |pattern| > 0 && n <= |values|
  {
    if n == 0 then 0 else WeightedSum(values, pattern, i, n - 1) + values[n - 1] * Weight(pattern, i, n - 1)
  }

  /** Output digit i of a phase: the last digit of the absolute weighted sum. */
  function Digit(values: seq<int>, pattern: seq<int>, i: nat): (d: int)
    requires |pattern| > 0
    ensures 0 <= d <= 9
  {
    Abs(WeightedSum(values, pattern, i, |values|)) % 10
  }

  /** One phase: `num_values` output digits, whatever the length of the input. */
  function Phase(values: seq<int>, pattern: seq<int>, numValues: nat): (out: seq<int>)
    requires |pattern| > 0
    ensures |out| == numValues
    ensures forall i :: 0 <= i < numValues ==> out[i] == Digit(values, pattern, i)
  {
    seq(numValues, i requires 0 <= i < numValues => Digit(values, pattern, i))
  }

  /** `n` phases, each feeding the next. */
  function Phases(values: seq<int>, pattern: seq<int>, numValues: nat, n: nat): seq<int>
    requires |pattern| > 0
  {
    if n == 0 then values else Phase(Phases(values, pattern, numValues, n - 1), pattern, numValues)
  }

  /** After at least one phase there are exactly `num_values` entries, all single digits. */
  lemma PhasesAreDigits(values: seq<int>, pattern: seq<int>, numValues: nat, n: nat)
    requires |pattern| > 0 && n > 0
    ensures |Phases(values, pattern, numValues, n)| == numValues
    ensures forall i :: 0 <= i < numValues ==> 0 <= Phases(values, pattern, numValues, n)[i] <= 9
  {
  }

  /** `''.join(str(x) for x in xs)`. */
  function JoinStr(xs: seq<int>): (s: string)
    ensures (forall i :: 0 <= i < |xs| ==> 0 <= xs[i] <= 9) ==> |s| == |xs|
  {
    if |xs| == 0 then "" else JoinStr(xs[..|xs| - 1]) + Str(xs[|xs| - 1])
  }

  /** Single digits join to one character each. */
  lemma {:induction false} JoinDigits(xs: seq<int>)
    requires forall i :: 0 <= i < |xs| ==> 0 <= xs[i] <= 9
    ensures |JoinStr(xs)| == |xs|
    ensures forall i :: 0 <= i < |xs| ==> JoinStr(xs)[i] == DigitChar(xs[i])
  {
    if |xs| > 0 {
      var front := xs[..|xs| - 1];
      JoinDigits(front);
      assert Str(xs[|xs| - 1]) == [DigitChar(xs[|xs| - 1])];
      forall i | 0 <= i < |xs| - 1
        ensures JoinStr(xs)[i] == DigitChar(xs[i])
      {
        assert JoinStr(xs)[i] == JoinStr(front)[i];
      }
    }
  }

  /**
   * `fft`: `num_phases` phases, then the first eight digits as text. An empty
   * pattern has nothing to draw (StopIteration as soon as a digit is asked
   * for); with no phase at all the final log line reads the loop variable
   * that was never bound (UnboundLocalError).
   */
  function FftRun(values: seq<int>, numValues: nat, pattern: seq<int>, numPhases: int): (r: Result<string>)
    ensures r.Success? <==> numPhases > 0 && (|pattern| > 0 || numValues == 0)
    ensures numPhases <= 0 ==> r == Failure(UnboundLocalError)
  {
    if numPhases <= 0 then Failure(UnboundLocalError)
    else if |pattern| == 0 then
      if numValues == 0 then Success("") else Failure(StopIteration)
    else Success(JoinStr(PySlice(Phases(values, pattern, numValues, numPhases), 0, 8)))
  }

  /**
   * `fft` with its `pattern` argument optional (its default is None). A
   * None pattern is iterated as soon as the first digit's pattern is built,
   * which raises TypeError; with no digit asked for it is never touched.
   */
  function Fft(values: seq<int>, numValues: nat, pattern: Option<seq<int>>, numPhases: int): (r: Result<string>)
    ensures pattern.Some? ==> r == FftRun(values, numValues, pattern.value, numPhases)
    ensures pattern.None? ==> (r == Failure(TypeError) <==> numPhases > 0 && numValues > 0)
    ensures pattern.None? && numPhases <= 0 ==> r == Failure(UnboundLocalError)
    ensures pattern.None? && numPhases > 0 && numValues == 0 ==> r == Success("")
  {
    match pattern
    case Some(p) => FftRun(values, numValues, p, numPhases)
    case None =>
      if numPhases > 0 && numValues > 0 then Failure(TypeError)
      else FftRun(values, numValues, [], numPhases)
  }

  /** `fft(values, num_values)` with both defaults: a None pattern and 100 phases. */
  lemma FftDefaults(values: seq<int>, numValues: nat)
    ensures Fft(values, numValues, None, 100) == if numValues > 0 then Failure(TypeError) else Success("")
  {
  }

  /**
   * The call `main` makes, `fft(values, len(values), PATTERN)`: the first
   * eight digits (fewer for a shorter signal) after 100 phases.
   */
  lemma FftOfMain(values: seq<int>)
    ensures var r := Fft(values, |values|, Some(PATTERN), 100);
      var out := Phases(values, PATTERN, |values|, 100);
      && r.Success?
      && |r.value| == (if |values| < 8 then |values| else 8)
      && forall i :: 0 <= i < |r.value| ==> r.value[i] == DigitChar(out[i])
  {
    FftFirstEight(values, |values|, PATTERN, 100);
  }

  /**
   * A successful `fft` run gives min(8, num_values) characters, character i
   * being digit i of the signal after `num_phases` phases.
   */
  lemma FftFirstEight(values: seq<int>, numValues: nat, pattern: seq<int>, numPhases: nat)
    requires |pattern| > 0 && numPhases > 0
    ensures var out := Phases(values, pattern, numValues, numPhases);
      && FftRun(values, numValues, pattern, numPhases).Success?
      && |FftRun(values, numValues, pattern, numPhases).value| == (if numValues < 8 then numValues else 8)
      && forall i :: 0 <= i < |FftRun(values, numValues, pattern, numPhases).value| ==>
           FftRun(values, numValues, pattern, numPhases).value[i] == DigitChar(out[i])
  {
    var out := Phases(values, pattern, numValues, numPhases);
    PhasesAreDigits(values, pattern, numValues, numPhases);
    var first := PySlice(out, 0, 8);
    assert first == out[..if numValues < 8 then numValues else 8];
    JoinDigits(first);
  }

  // ---------------------------------------------------------------------
  // `fft2`

  /** `values[i] + values[i+1] + ... + values[-1]`. */
  function SuffixSum(values: seq<int>, i: nat): int
    requires i <= |values|
    decreases |values| - i
  {
    if i == |values| then 0 else values[i] + SuffixSum(values, i + 1)
  }

  /**
   * The lowest index a phase rewrites: the scan from the end stops right after
   * it writes the first index below `offset`, so that is index offset-1, or
   * the last index when offset lies beyond the list, or 0 when offset <= 0.
   */
  function Lowest(n: nat, offset: int): (lo: nat)
    requires n > 0
    ensures lo < n
    ensures offset <= 0 ==> lo == 0
    ensures 0 < offset <= n ==> lo == offset - 1
  {
    if offset <= 0 then 0 else if offset - 1 < n then offset - 1 else n - 1
  }

  /** One `fft2` phase, as a formula: from the lowest rewritten index on, each value becomes its suffix sum mod 10. */
  function Phase2(values: seq<int>, offset: int): (out: seq<int>)
    ensures |out| == |values|
  {
    if |values| == 0 then values
    else
      seq(|values|, i requires 0 <= i < |values| =>
        if i >= Lowest(|values|, offset) then SuffixSum(values, i) % 10 else values[i])
  }

  function Phases2(values: seq<int>, offset: int, n: nat): (out: seq<int>)
    ensures |out| == |values|
  {
    if n == 0 then values else Phase2(Phases2(values, offset, n - 1), offset)
  }

  /** The inner loop of `fft2`: accumulate from the end, write each digit, stop after the first index below offset. */
  method Phase2Loop(values: seq<int>, offset: int) returns (out: seq<int>)
    ensures out == Phase2(values, offset)
  {
    out := values;
    if |values| == 0 {
      return;
    }
    var lo := Lowest(|values|, offset);
    var accum := 0;
    var v := |values| - 1;
    while v >= 0
      invariant -1 <= v < |values|
      invariant v >= lo as int - 1
      invariant v >= 0 ==> v >= lo
      invariant |out| == |values|
      invariant accum == SuffixSum(values, v + 1)
      invariant forall j :: 0 <= j <= v ==> out[j] == values[j]
      invariant forall j :: v < j < |values| ==> out[j] == SuffixSum(values, j) % 10
      decreases v
    {
      accum := accum + values[v];
      out := out[v := accum % 10];
      if v < offset {
        v := v - 1;
        break;
      }
      v := v - 1;
    }
    assert v == lo as int - 1;
  }

  /**
   * `fft2`: 100 phases on the list, then `values[offset:offset+8]`; the
   * list as left behind is returned too, since the source rewrites the
   * caller's list in place.
   */
  method Fft2(values: seq<int>, offset: int) returns (result: seq<int>, final: seq<int>)
    ensures final == Phases2(values, offset, 100)
    ensures |final| == |values|
    ensures result == PySlice(final, offset, offset + 8)
  {
    final := values;
    var i := 0;
    while i < 100
      invariant 0 <= i <= 100
      invariant final == Phases2(values, offset, i)
    {
      final := Phase2Loop(final, offset);
      i := i + 1;
    }
    result := PySlice(final, offset, offset + 8);
  }

  /** A phase leaves every index below the lowest rewritten one as it was, and keeps the length. */
  lemma {:induction false} Phases2KeepPrefix(values: seq<int>, offset: int, n: nat)
    requires |values| > 0
    ensures forall j :: 0 <= j < Lowest(|values|, offset) ==> Phases2(values, offset, n)[j] == values[j]
  {
    if n > 0 {
      Phases2KeepPrefix(values, offset, n - 1);
    }
  }

  /** Once a phase has run, every rewritten index holds a single digit. */
  lemma Phases2Digits(values: seq<int>, offset: int, n: nat)
    requires |values| > 0 && n > 0
    ensures forall j :: Lowest(|values|, offset) <= j < |values| ==> 0 <= Phases2(values, offset, n)[j] <= 9
  {
  }

  /**
   * From the lowest rewritten index on, the phase is a running sum from the
   * end: each digit is the one after it plus its own old value, mod 10.
   */
  lemma Phase2Recurrence(values: seq<int>, offset: int, i: nat)
    requires |values| > 0 && Lowest(|values|, offset) <= i < |values| - 1
    ensures Phase2(values, offset)[i] == (values[i] + Phase2(values, offset)[i + 1]) % 10
  {
    var s := SuffixSum(values, i + 1);
    assert Phase2(values, offset)[i + 1] == s % 10;
    assert SuffixSum(values, i) == values[i] + s;
    assert (values[i] + s) % 10 == (values[i] + s % 10) % 10 by {
      var q := s / 10;
      assert s == 10 * q + s % 10;
      assert values[i] + s == (values[i] + s % 10) + 10 * q;
    }
  }
}
