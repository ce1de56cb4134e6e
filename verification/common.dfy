/**
 * Shared vocabulary for the puzzle solvers: optional values, results that
 * carry the Python exception a solver would raise, and the few pieces of
 * Python's built-in behaviour the solvers lean on (list subscripts that count
 * from the end, slices that clamp, `str` of an integer, `sum`).
 */
module Common {

  datatype Option<+T> = None | Some(value: T)

  /** The exceptions the modelled code can raise on malformed input. */
  datatype Exception =
    | IndexError          // list subscript out of range, `pop` from an empty list
    | ZeroDivisionError   // floor division by a zero gcd
    | TypeError           // ordering comparison against None
    | AttributeError      // attribute access on None
    | UnboundLocalError   // a loop variable read after a loop that never ran
    | RecursionError      // unbounded recursion through a cyclic structure
    | ValueError          // `int` of text that is not a decimal integer
    | StopIteration       // `next` on an exhausted iterator

  datatype Result<+T> = Success(value: T) | Failure(error: Exception)

  /** Python list subscript `s[i]` on a list of length `n`: the position it reads, or None for IndexError. */
  function PyIndex(i: int, n: nat): (r: Option<nat>)
    ensures r.Some? <==> -(n as int) <= i < n
    ensures r.Some? ==> r.value < n && (r.value == i || r.value == i + n)
  {
    if 0 <= i < n then Some(i)
    else if -(n as int) <= i < 0 then Some(i + n)
    else None
  }

  /** Where a Python slice bound `i` lands in a list of length `n`. */
  function SliceBound(i: int, n: nat): (r: nat)
    ensures r <= n
    ensures 0 <= i <= n ==> r == i
  {
    if i < 0 then (if i + n < 0 then 0 else i + n)
    else if i > n then n
    else i
  }

  /** Python `s[lo:hi]`. */
  function PySlice<T>(s: seq<T>, lo: int, hi: int): (r: seq<T>)
    ensures 0 <= lo <= hi <= |s| ==> r == s[lo..hi]
    ensures |r| <= |s|
    ensures lo >= |s| || hi <= -(|s| as int) ==> r == []
    ensures (lo == 0 || lo <= -(|s| as int)) && hi >= |s| ==> r == s
  {
    var a := SliceBound(lo, |s|);
    var b := SliceBound(hi, |s|);
    if a < b then s[a..b] else []
  }

  function Abs(a: int): (r: nat)
    ensures r == a || r == -a
  {
    if a < 0 then -a else a
  }

  function Sum(s: seq<int>): int
  {
    if |s| == 0 then 0 else Sum(s[..|s| - 1]) + s[|s| - 1]
  }

  lemma {:induction false} SumAppend(s: seq<int>, t: seq<int>)
    ensures Sum(s + t) == Sum(s) + Sum(t)
    decreases |t|
  {
    if |t| == 0 {
      assert s + t == s;
    } else {
      assert (s + t)[..|s + t| - 1] == s + t[..|t| - 1];
      SumAppend(s, t[..|t| - 1]);
    }
  }

  lemma {:induction false} SumNonNegative(s: seq<int>)
    requires forall i :: 0 <= i < |s| ==> s[i] >= 0
    ensures Sum(s) >= 0
    decreases |s|
  {
    if |s| > 0 {
      SumNonNegative(s[..|s| - 1]);
    }
  }

  /** Replacing one element changes the sum by the difference. */
  lemma {:induction false} SumUpdate(s: seq<int>, i: nat, v: int)
    requires i < |s|
    ensures Sum(s[i := v]) == Sum(s) - s[i] + v
    decreases |s|
  {
    if i == |s| - 1 {
      assert s[i := v][..|s| - 1] == s[..|s| - 1];
    } else {
      assert s[i := v][..|s| - 1] == s[..|s| - 1][i := v];
      SumUpdate(s[..|s| - 1], i, v);
    }
  }

  // ---------------------------------------------------------------------
  // Decimal text, as Python's `str` and `int` produce and read it.

  function DigitChar(d: nat): (c: char)
    requires d < 10
    ensures '0' <= c <= '9'
  {
    ('0' as int + d) as char
  }

  predicate IsDigitChar(c: char)
  {
    '0' <= c <= '9'
  }

  /** The decimal digits of `n`, most significant first, without leading zeros. */
  function Digits(n: nat): (r: string)
    ensures |r| >= 1
    ensures forall i :: 0 <= i < |r| ==> IsDigitChar(r[i])
    ensures n >= 10 ==> r[0] != '0'
  {
    if n < 10 then [DigitChar(n)] else Digits(n / 10) + [DigitChar(n % 10)]
  }

  /** Python `str(n)` for an integer. */
  function Str(n: int): (r: string)
    ensures |r| >= 1
    ensures r[0] == '-' <==> n < 0
    ensures forall i :: (if n < 0 then 1 else 0) <= i < |r| ==> IsDigitChar(r[i])
  {
    if n < 0 then "-" + Digits(-n) else Digits(n)
  }

  predicate AllDigits(s: string)
  {
    forall i :: 0 <= i < |s| ==> IsDigitChar(s[i])
  }

  /** Reads a string of decimal digits, most significant first. */
  function ParseDigits(s: string): nat
    requires AllDigits(s)
  {
    if |s| == 0 then 0
    else
      assert IsDigitChar(s[|s| - 1]);
      10 * ParseDigits(s[..|s| - 1]) + (s[|s| - 1] as int - '0' as int)
  }

  /** Python `int(s)` on the text `str` produces (no blanks, no plus sign). */
  function ParseInt(s: string): Option<int>
  {
    if |s| > 1 && s[0] == '-' && AllDigits(s[1..]) then Some(-(ParseDigits(s[1..]) as int))
    else if |s| > 0 && AllDigits(s) then Some(ParseDigits(s))
    else None
  }

  /** Python's `str.isspace` for one character. */
  predicate IsSpace(c: char)
  {
    || c == ' ' || ('\t' <= c <= '\r') || ('\U{1c}' <= c <= '\U{1f}')
    || c == '\U{85}' || c == '\U{a0}' || c == '\U{1680}' || ('\U{2000}' <= c <= '\U{200a}')
    || c == '\U{2028}' || c == '\U{2029}' || c == '\U{202f}' || c == '\U{205f}' || c == '\U{3000}'
  }

  /** Python `s.rstrip()`: drop trailing whitespace. */
  function RStrip(s: string): (r: string)
    ensures r <= s
    ensures |r| > 0 ==> !IsSpace(r[|r| - 1])
    ensures forall i :: |r| <= i < |s| ==> IsSpace(s[i])
  {
    if |s| == 0 || !IsSpace(s[|s| - 1]) then s else RStrip(s[..|s| - 1])
  }

  /** Python `s.lstrip()`: drop leading whitespace. */
  function LStrip(s: string): (r: string)
    ensures |r| <= |s| && r == s[|s| - |r|..]
    ensures |r| > 0 ==> !IsSpace(r[0])
    ensures forall i :: 0 <= i < |s| - |r| ==> IsSpace(s[i])
  {
    if |s| == 0 || !IsSpace(s[0]) then s else LStrip(s[1..])
  }

  /**
   * Python `int(s)` on ASCII text: surrounding whitespace is ignored, then an
   * optional sign and at least one decimal digit; anything else is None (a
   * ValueError).
   */
  function PyInt(s: string): (r: Option<int>)
    ensures r.Some? ==> |RStrip(LStrip(s))| > 0
  {
    var t := RStrip(LStrip(s));
    if |t| > 1 && t[0] == '+' && AllDigits(t[1..]) then Some(ParseDigits(t[1..]))
    else ParseInt(t)
  }

  /** Plain decimal digits, with nothing around them, read as their value. */
  lemma PyIntDigits(s: string)
    requires |s| > 0 && AllDigits(s)
    ensures PyInt(s) == Some(ParseDigits(s))
  {
    assert IsDigitChar(s[0]) && IsDigitChar(s[|s| - 1]);
    NotSpace(s[0]);
    NotSpace(s[|s| - 1]);
    assert LStrip(s) == s;
    assert RStrip(s) == s;
  }

  lemma {:induction false} ParseDigitsRoundTrip(n: nat)
    ensures ParseDigits(Digits(n)) == n
    decreases n
  {
    if n >= 10 {
      var d := Digits(n);
      assert d[..|d| - 1] == Digits(n / 10);
      ParseDigitsRoundTrip(n / 10);
    }
  }

  /** Neither a digit nor a minus sign is whitespace. */
  lemma NotSpace(c: char)
    requires IsDigitChar(c) || c == '-'
    ensures !IsSpace(c)
  {
  }

  /** The decimal text of an integer reads back as that integer. */
  lemma ParseStr(n: int)
    ensures ParseInt(Str(n)) == Some(n)
  {
    if n < 0 {
      var d := Digits(-n);
      assert Str(n)[1..] == d;
      ParseDigitsRoundTrip(-n);
    } else {
      ParseDigitsRoundTrip(n);
    }
  }

  /** `int(str(n)) == n`: the decimal text of an integer reads back as that integer, and has no blanks to strip. */
  lemma StrRoundTrip(n: int)
    ensures ParseInt(Str(n)) == Some(n)
    ensures PyInt(Str(n)) == Some(n)
  {
    var s := Str(n);
    var d := if n < 0 then Digits(-n) else Digits(n);
    assert s[|s| - 1] == d[|d| - 1];
    NotSpace(s[0]);
    NotSpace(s[|s| - 1]);
    assert LStrip(s) == s;
    assert RStrip(s) == s;
    ParseStr(n);
  }

  /** A trailing newline, as on the last field of a line split at commas, does not change what `int` reads. */
  lemma PyIntNewline(s: string)
    requires |s| > 0 && !IsSpace(s[0])
    ensures PyInt(s + "\n") == PyInt(s)
  {
    var t := s + "\n";
    assert t[..|t| - 1] == s;
    assert RStrip(t) == RStrip(s);
    assert LStrip(t) == t;
    assert LStrip(s) == s;
  }

  function Pow10(k: nat): (r: nat)
    ensures r >= 1
  {
    if k == 0 then 1 else 10 * Pow10(k - 1)
  }

  /** `n` has more than `k` decimal digits exactly when it reaches 10^k. */
  lemma {:induction false} DigitsLength(n: nat, k: nat)
    requires n > 0 || k > 0
    ensures |Digits(n)| > k <==> n >= Pow10(k)
    decreases n
  {
    if n >= 10 && k > 0 {
      DigitsLength(n / 10, k - 1);
      assert |Digits(n)| == |Digits(n / 10)| + 1;
      assert n / 10 >= Pow10(k - 1) <==> n >= 10 * Pow10(k - 1);
    } else if k > 0 {
      assert Pow10(k) >= 10;
    }
  }

  /** A subset is no larger than its superset. */
  lemma SubsetCard<T>(a: set<T>, b: set<T>)
    requires a <= b
    ensures |a| <= |b|
  {
    assert b == a + (b - a);
  }
}
