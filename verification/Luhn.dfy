/** The Luhn checksum of the input sanitizer (Annex B of ISO/IEC 7812-1). */
module Luhn {
  import opened AsciiText

  function Digit(c: char): int {
    c as int - 48
  }

  /** What one digit adds to the sum; every second digit from the right is doubled. */
  function Contribution(n: int, alt: bool): int {
    if !alt then n else if 2 * n > 9 then 2 * n - 9 else 2 * n
  }

  /** The weighted sum, from the right; `alt` says whether the last digit is doubled. */
  function Sum(digits: string, alt: bool): int {
    if digits == [] then 0
    else
      var last := |digits| - 1;
      Contribution(Digit(digits[last]), alt) + Sum(digits[..last], !alt)
  }

  predicate Valid(digits: string) {
    Sum(digits, false) % 10 == 0
  }

  method LuhnValid(digits: string) returns (ok: bool)
    ensures ok == Valid(digits)
  {
    var sum := 0;
    var alt := false;
    var i := |digits| - 1;
    assert digits[..i + 1] == digits;
    while i >= 0
      invariant -1 <= i < |digits|
      invariant sum + Sum(digits[..i + 1], alt) == Sum(digits, false)
    {
      var n := Digit(digits[i]);
      if alt {
        n := n * 2;
        if n > 9 { n := n - 9; }
      }
      assert digits[..i + 1][..i] == digits[..i];
      sum := sum + n;
      alt := !alt;
      i := i - 1;
    }
    ok := sum % 10 == 0;
  }

  /** The sum of the two digits of a number below 100. */
  function CrossSum(n: nat): nat {
    n / 10 + n % 10
  }

  /** What the digit at index i adds (Annex B of ISO/IEC 7812-1): counted from the right, every second digit is doubled and
      the digits of the double are added. */
  function Weight(digits: string, i: nat): int
    requires AllDigits(digits) && i < |digits|
  {
    var d := (digits[i] - '0') as int;
    if (|digits| - i) % 2 == 0 then CrossSum(2 * d) else d
  }

  function TotalWeight(digits: string, n: nat): int
    requires AllDigits(digits) && n <= |digits|
  {
    if n == 0 then 0 else TotalWeight(digits, n - 1) + Weight(digits, n - 1)
  }

  lemma {:induction false} SumIsWeight(digits: string, n: nat)
    requires AllDigits(digits) && n <= |digits|
    ensures Sum(digits[..n], (|digits| - n) % 2 == 1) == TotalWeight(digits, n)
  {
    if n > 0 {
      SumIsWeight(digits, n - 1);
      assert digits[..n][..n - 1] == digits[..n - 1];
      ContributionIsWeight(digits, n - 1);
    }
  }

  lemma ContributionIsWeight(digits: string, i: nat)
    requires AllDigits(digits) && i < |digits|
    ensures Contribution(Digit(digits[i]), (|digits| - i) % 2 == 0) == Weight(digits, i)
  {
    assert IsDigit(digits[i]);
  }

  /** A digit string is valid exactly when the weights of its digits add up to a multiple of ten. */
  lemma {:induction false} ValidMeans(digits: string)
    requires AllDigits(digits)
    ensures Valid(digits) <==> TotalWeight(digits, |digits|) % 10 == 0
  {
    SumIsWeight(digits, |digits|);
    assert digits[..|digits|] == digits;
  }

  /** Whether the digit at index i is doubled. */
  predicate Doubled(digits: string, alt: bool, i: nat)
    requires i < |digits|
  {
    alt == ((|digits| - 1 - i) % 2 == 0)
  }

  lemma {:induction false} ChangeOne(digits: string, alt: bool, i: nat, c: char)
    requires i < |digits|
    ensures Sum(digits[i := c], alt) - Sum(digits, alt) ==
            Contribution(Digit(c), Doubled(digits, alt, i)) - Contribution(Digit(digits[i]), Doubled(digits, alt, i))
  {
    var last := |digits| - 1;
    if i < last {
      assert digits[i := c][..last] == digits[..last][i := c];
      ChangeOne(digits[..last], !alt, i, c);
    } else {
      assert digits[i := c][..last] == digits[..last];
    }
  }

  /** Doubling permutes the digits modulo 10. */
  lemma ContributionInjective(m: int, n: int, alt: bool)
    requires 0 <= m <= 9 && 0 <= n <= 9
    ensures (Contribution(m, alt) - Contribution(n, alt)) % 10 == 0 <==> m == n
  {
    var k := Contribution(m, alt) - Contribution(n, alt);
    assert -9 <= k <= 9;
  }

  /** Every change of a single digit is detected. */
  lemma DetectsSingleChange(digits: string, i: nat, c: char)
    requires AllDigits(digits) && i < |digits| && IsDigit(c) && Valid(digits)
    ensures Valid(digits[i := c]) <==> c == digits[i]
  {
    ChangeOne(digits, false, i, c);
    ContributionInjective(Digit(c), Digit(digits[i]), Doubled(digits, false, i));
    Shift(Sum(digits, false), Sum(digits[i := c], false));
  }

  lemma Shift(s: int, t: int)
    requires s % 10 == 0
    ensures t % 10 == 0 <==> (t - s) % 10 == 0
  {
  }

  function Swap(digits: string, i: nat): string
    requires i + 1 < |digits|
  {
    digits[i := digits[i + 1]][i + 1 := digits[i]]
  }

  /** The swaps that go unnoticed are those of equal digits and of 0 with 9. */
  lemma DetectsSwap(digits: string, i: nat)
    requires AllDigits(digits) && i + 1 < |digits| && Valid(digits)
    ensures Valid(Swap(digits, i)) <==>
            || digits[i] == digits[i + 1]
            || (digits[i] == '0' && digits[i + 1] == '9')
            || (digits[i] == '9' && digits[i + 1] == '0')
  {
    var once := digits[i := digits[i + 1]];
    var m, n, alt := Digit(digits[i]), Digit(digits[i + 1]), Doubled(digits, false, i);
    ChangeOne(digits, false, i, digits[i + 1]);
    ChangeOne(once, false, i + 1, digits[i]);
    assert Doubled(once, false, i + 1) == !alt by { Neighbour(digits, once, i); }
    assert Sum(Swap(digits, i), false) - Sum(digits, false) ==
           Contribution(n, alt) + Contribution(m, !alt) - Contribution(m, alt) - Contribution(n, !alt);
    SwapDifference(m, n, alt);
    Shift(Sum(digits, false), Sum(Swap(digits, i), false));
    SameDigit(digits[i], digits[i + 1]);
  }

  lemma Neighbour(digits: string, once: string, i: nat)
    requires |once| == |digits| && i + 1 < |digits|
    ensures Doubled(once, false, i + 1) == !Doubled(digits, false, i)
  {
  }

  lemma SameDigit(c: char, d: char)
    ensures Digit(c) == Digit(d) <==> c == d
    ensures (Digit(c) == 0 <==> c == '0') && (Digit(c) == 9 <==> c == '9')
    ensures (Digit(d) == 0 <==> d == '0') && (Digit(d) == 9 <==> d == '9')
  {
  }

  lemma SwapDifference(m: int, n: int, alt: bool)
    requires 0 <= m <= 9 && 0 <= n <= 9
    ensures (Contribution(n, alt) + Contribution(m, !alt) - Contribution(m, alt) - Contribution(n, !alt)) % 10 == 0 <==>
            m == n || (m == 0 && n == 9) || (m == 9 && n == 0)
  {
    var f := Contribution(n, alt) - Contribution(n, !alt);
    var g := Contribution(m, !alt) - Contribution(m, alt);
    assert -9 <= f <= 9 && -9 <= g <= 9;
  }

  /** Exactly one check digit completes any digit string to a valid one. */
  lemma OneCheckDigit(digits: string)
    ensures exists c :: IsDigit(c) && Valid(digits + [c]) && forall d :: IsDigit(d) && Valid(digits + [d]) ==> d == c
  {
    var s := Sum(digits, true);
    var n := (10 - s % 10) % 10;
    var c := (48 + n) as char;
    forall d | IsDigit(d)
      ensures Valid(digits + [d]) <==> d == c
    {
      assert (digits + [d])[..|digits|] == digits;
      assert Sum(digits + [d], false) == Digit(d) + s;
    }
    assert IsDigit(c);
  }
}
