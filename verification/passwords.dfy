/**
 * Password candidates (day 4): count the integers of a range whose decimal
 * text has an adjacent pair of equal characters among its first six and whose
 * first six characters never decrease. The characters are those of Python's
 * `str`, so a negative number's sign takes part in the comparisons, and a
 * text shorter than six characters raises IndexError.
 */
module Passwords {
  import opened Common

  /** `str(n)` is too short for the six subscripts the check performs. */
  predicate TooShort(n: int)
  {
    |Str(n)| < 6
  }

  /** Some adjacent pair among the first six characters is equal. */
  predicate HasDouble(c: string)
    requires |c| >= 6
  {
    c[0] == c[1] || c[1] == c[2] || c[2] == c[3] || c[3] == c[4] || c[4] == c[5]
  }

  /** The first six characters never decrease. */
  predicate NeverDecreases(c: string)
    requires |c| >= 6
  {
    c[0] <= c[1] && c[1] <= c[2] && c[2] <= c[3] && c[3] <= c[4] && c[4] <= c[5]
  }

  /** The candidate `n` is counted. */
  predicate IsMatch(n: int)
  {
    var c := Str(n);
    |c| >= 6 && HasDouble(c) && NeverDecreases(c)
  }

  /** Exactly the integers strictly between -10000 and 100000 have fewer than six characters. */
  lemma TooShortRange(n: int)
    ensures TooShort(n) <==> -10000 < n < 100000
  {
    if n < 0 {
      DigitsLength(-n, 4);
      assert Pow10(4) == 10000;
    } else {
      DigitsLength(n, 5);
      assert Pow10(5) == 100000;
    }
  }

  /** Every integer in [low, high] is counted or not. */
  ghost function Matches(low: int, high: int): set<int>
  {
    set n | low <= n <= high && IsMatch(n)
  }

  /**
   * `find_passwords`: the number of matches in [low, high], or IndexError
   * when some candidate of the range is shorter than six characters.
   */
  function FindPasswords(low: int, high: int): (r: Result<nat>)
    ensures r.Failure? <==> exists n :: low <= n <= high && TooShort(n)
    ensures r.Failure? ==> r.error == IndexError
    ensures high < low ==> r == Success(0)
    ensures r.Success? ==> r.value <= if high < low then 0 else high - low + 1
    decreases high - low
  {
    if high < low then Success(0)
    else if TooShort(low) then Failure(IndexError)
    else
      match FindPasswords(low + 1, high)
      case Failure(e) => Failure(e)
      case Success(k) => Success(k + if IsMatch(low) then 1 else 0)
  }

  /** The count is the number of integers of the range that match. */
  lemma {:induction false} FindPasswordsCounts(low: int, high: int)
    requires FindPasswords(low, high).Success?
    ensures FindPasswords(low, high).value == |Matches(low, high)|
    decreases high - low
  {
    if high < low {
      assert Matches(low, high) == {};
    } else {
      FindPasswordsCounts(low + 1, high);
      if IsMatch(low) {
        assert Matches(low, high) == Matches(low + 1, high) + {low};
      } else {
        assert Matches(low, high) == Matches(low + 1, high);
      }
    }
  }

  /** From 100000 upwards every candidate is long enough, so the count always succeeds. */
  lemma SixDigitRangeSucceeds(low: int, high: int)
    requires low >= 100000
    ensures FindPasswords(low, high).Success?
  {
    forall n | low <= n <= high
      ensures !TooShort(n)
    {
      TooShortRange(n);
    }
  }

  /** The worked example 111111 matches. */
  lemma SampleAllEqual()
    ensures IsMatch(111111)
  {
    assert Digits(11) == "11";
    assert Digits(111) == "111";
    assert Digits(1111) == "1111";
    assert Digits(11111) == "11111";
    assert Str(111111) == "111111";
  }

  /** The worked example 223450 has a double but decreases at its end. */
  lemma SampleDecreasing()
    ensures !IsMatch(223450)
  {
    assert Digits(22) == "22";
    assert Digits(223) == "223";
    assert Digits(2234) == "2234";
    assert Digits(22345) == "22345";
    assert Str(223450) == "223450";
  }

  /** The worked example 123789 never decreases but has no double. */
  lemma SampleNoDouble()
    ensures !IsMatch(123789)
  {
    assert Digits(12) == "12";
    assert Digits(123) == "123";
    assert Digits(1237) == "1237";
    assert Digits(12378) == "12378";
    assert Str(123789) == "123789";
  }
}
