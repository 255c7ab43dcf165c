/**
  The Luhn check (Annex B of ISO/IEC 7812-1) that cuts false positives of the card
  number pattern.
  */
module Luhn {
  import opened Text

  predicate IsDigits(d: seq<nat>) {
    forall i :: 0 <= i < |d| ==> d[i] < 10
  }

  /** A doubled digit, reduced to one digit by subtracting nine. */
  function Doubled(n: nat): nat
    requires n < 10
  {
    if 2 * n > 9 then 2 * n - 9 else 2 * n
  }

  /** It is the digit sum of twice the digit. */
  lemma DoubledIsDigitSum(n: nat)
    requires n < 10
    ensures Doubled(n) == 2 * n / 10 + 2 * n % 10
  {
  }

  /** The digit at distance `place` from the right end counts doubled when `place` is odd. */
  function Weight(n: nat, place: nat): nat
    requires n < 10
  {
    if place % 2 == 1 then Doubled(n) else n
  }

  /** The sum over all digits; `place` is the distance of the last one from the right end. */
  function Sum(d: seq<nat>, place: nat): nat
    requires IsDigits(d)
  {
    if d == [] then 0 else Weight(d[|d| - 1], place) + Sum(d[..|d| - 1], place + 1)
  }

  predicate Valid(d: seq<nat>)
    requires IsDigits(d)
  {
    Sum(d, 0) % 10 == 0
  }

  method LuhnValid(d: seq<nat>) returns (ok: bool)
    requires IsDigits(d)
    ensures ok <==> Valid(d)
  {
    var sum, double, i := 0, false, |d| - 1;
    assert d[..i + 1] == d;
    while i >= 0
      invariant -1 <= i < |d|
      invariant double == ((|d| - 1 - i) % 2 == 1)
      invariant sum + Sum(d[..i + 1], |d| - 1 - i) == Sum(d, 0)
    {
      var n := d[i];
      if double {
        n := n * 2;
        if n > 9 {
          n := n - 9;
        }
      }
      assert d[..i + 1][..i] == d[..i];
      sum := sum + n;
      double := !double;
      i := i - 1;
    }
    return sum % 10 == 0;
  }

  function DigitsOf(s: string): (d: seq<nat>)
    ensures IsDigits(d)
  {
    if s == "" then []
    else
      var rest := DigitsOf(s[..|s| - 1]);
      var c := s[|s| - 1];
      if IsDigit(c) then rest + [(c - '0') as nat] else rest
  }

  predicate Card(s: string) {
    var d := DigitsOf(s);
    13 <= |d| <= 19 && Valid(d)
  }

  method LooksLikeCard(match_: string) returns (ok: bool)
    ensures ok <==> Card(match_)
    ensures |DigitsOf(match_)| < 13 || |DigitsOf(match_)| > 19 ==> !ok
  {
    var digits: seq<nat> := [];
    for i := 0 to |match_|
      invariant digits == DigitsOf(match_[..i])
    {
      assert match_[..i + 1][..i] == match_[..i];
      var c := match_[i];
      if '0' <= c <= '9' {
        digits := digits + [(c - '0') as nat];
      }
    }
    assert match_[..|match_|] == match_;
    if |digits| < 13 || |digits| > 19 {
      return false;
    }
    ok := LuhnValid(digits);
  }

  // ----- what the check detects -----

  lemma {:induction false} SumConcat(a: seq<nat>, b: seq<nat>, place: nat)
    requires IsDigits(a) && IsDigits(b)
    ensures IsDigits(a + b) && Sum(a + b, place) == Sum(b, place) + Sum(a, place + |b|)
  {
    if b == [] {
      assert a + b == a;
    } else {
      var n := |b| - 1;
      assert (a + b)[..|a + b| - 1] == a + b[..n];
      SumConcat(a, b[..n], place + 1);
    }
  }

  /** How the sum splits around a middle part. */
  lemma SumMiddle(a: seq<nat>, m: seq<nat>, b: seq<nat>)
    requires IsDigits(a) && IsDigits(m) && IsDigits(b)
    ensures IsDigits(a + m + b)
    ensures Sum(a + m + b, 0) == Sum(b, 0) + Sum(m, |b|) + Sum(a, |b| + |m|)
  {
    SumConcat(a + m, b, 0);
    SumConcat(a, m, |b|);
  }

  /** Doubling permutes the digits, so different digits always weigh differently modulo ten. */
  lemma WeightInjective(x: nat, y: nat, place: nat)
    requires x < 10 && y < 10
    ensures Weight(x, place) % 10 == Weight(y, place) % 10 <==> x == y
  {
  }

  lemma SumOne(x: nat, place: nat)
    requires x < 10
    ensures Sum([x], place) == Weight(x, place)
  {
    assert [x][..0] == [];
  }

  lemma SumPair(x: nat, y: nat, place: nat)
    requires x < 10 && y < 10
    ensures Sum([x, y], place) == Weight(y, place) + Weight(x, place + 1)
  {
    assert [x, y] == [x] + [y];
    SumConcat([x], [y], place);
    SumOne(x, place + 1);
    SumOne(y, place);
  }

  lemma SameResidue(p: nat, q: nat, rest: nat)
    requires (p + rest) % 10 == 0
    ensures (q + rest) % 10 == 0 <==> p % 10 == q % 10
  {
  }

  /** Every change of one digit of a valid number is rejected. */
  lemma SingleDigitChange(a: seq<nat>, x: nat, y: nat, b: seq<nat>)
    requires IsDigits(a) && IsDigits(b) && x < 10 && y < 10 && x != y
    ensures IsDigits(a + [x] + b) && IsDigits(a + [y] + b)
    ensures Valid(a + [x] + b) ==> !Valid(a + [y] + b)
  {
    var rest := Sum(b, 0) + Sum(a, |b| + 1);
    SumMiddle(a, [x], b);
    SumMiddle(a, [y], b);
    SumOne(x, |b|);
    SumOne(y, |b|);
    WeightInjective(x, y, |b|);
    if Valid(a + [x] + b) {
      SameResidue(Weight(x, |b|), Weight(y, |b|), rest);
    }
  }

  /** Swapping two neighbouring digits of a valid number is missed for equal digits and for 0 and 9 only. */
  lemma AdjacentSwap(a: seq<nat>, x: nat, y: nat, b: seq<nat>)
    requires IsDigits(a) && IsDigits(b) && x < 10 && y < 10
    requires IsDigits(a + [x, y] + b) && Valid(a + [x, y] + b)
    ensures IsDigits(a + [y, x] + b)
    ensures Valid(a + [y, x] + b) <==> x == y || {x, y} == {0, 9}
  {
    hide Sum;
    hide Weight;
    var rest := Sum(b, 0) + Sum(a, |b| + 2);
    SumMiddle(a, [x, y], b);
    SumMiddle(a, [y, x], b);
    SumPair(x, y, |b|);
    SumPair(y, x, |b|);
    SwapWeights(x, y, |b|);
    SameResidue(Weight(y, |b|) + Weight(x, |b| + 1), Weight(x, |b|) + Weight(y, |b| + 1), rest);
  }

  lemma SwapWeights(x: nat, y: nat, place: nat)
    requires x < 10 && y < 10
    ensures (Weight(x, place) + Weight(y, place + 1)) % 10 == (Weight(y, place) + Weight(x, place + 1)) % 10
       <==> x == y || {x, y} == {0, 9}
  {
    var p, q := if place % 2 == 0 then x else y, if place % 2 == 0 then y else x;
    assert Weight(x, place) + Weight(y, place + 1) == p + Doubled(q);
    assert Weight(y, place) + Weight(x, place + 1) == q + Doubled(p);
    SwapDoubled(p, q);
    assert {x, y} == {p, q};
  }

  lemma SwapDoubled(x: nat, y: nat)
    requires x < 10 && y < 10
    ensures (x + Doubled(y)) % 10 == (y + Doubled(x)) % 10 <==> x == y || {x, y} == {0, 9}
  {
    assert {x, y} == {0, 9} <==> (x == 0 && y == 9) || (x == 9 && y == 0) by {
      if {x, y} == {0, 9} {
        assert x in {0, 9} && y in {0, 9} && 0 in {x, y} && 9 in {x, y};
      }
    }
  }

  function CheckDigit(prefix: seq<nat>): (c: nat)
    requires IsDigits(prefix)
    ensures c < 10
  {
    (10 - Sum(prefix, 1) % 10) % 10
  }

  /** Each prefix has exactly one valid check digit. */
  lemma OneCheckDigit(prefix: seq<nat>, c: nat)
    requires IsDigits(prefix) && c < 10
    ensures IsDigits(prefix + [c])
    ensures Valid(prefix + [c]) <==> c == CheckDigit(prefix)
  {
    hide Sum;
    SumConcat(prefix, [c], 0);
    SumOne(c, 0);
    var s := Sum(prefix, 1);
    assert Sum(prefix + [c], 0) == c + s;
    CompletesTo(s, c);
  }

  lemma CompletesTo(s: nat, c: nat)
    requires c < 10
    ensures (c + s) % 10 == 0 <==> c == (10 - s % 10) % 10
  {
  }

  lemma {:induction false} DigitsOfConcat(s: string, t: string)
    ensures DigitsOf(s + t) == DigitsOf(s) + DigitsOf(t)
  {
    if t == "" {
      assert s + t == s;
    } else {
      var n := |t| - 1;
      assert (s + t)[..|s + t| - 1] == s + t[..n];
      DigitsOfConcat(s, t[..n]);
    }
  }

  /** Of one character, what counts are decimal digits, with their value. */
  lemma DigitOf(c: char)
    ensures DigitsOf([c]) == if '0' <= c <= '9' then [c as nat - '0' as nat] else []
  {
    assert [c][..0] == [];
  }

  /** Spaces, hyphens and any other text without digits may stand anywhere in the number. */
  lemma SeparatorsIgnored(s: string, gap: string, t: string)
    requires DigitsOf(gap) == []
    ensures Card(s + gap + t) <==> Card(s + t)
  {
    DigitsOfConcat(s + gap, t);
    DigitsOfConcat(s, gap);
    assert DigitsOf(s) + [] == DigitsOf(s);
    DigitsOfConcat(s, t);
  }

  function Zeros(n: nat): (d: seq<nat>)
    ensures |d| == n && forall i :: 0 <= i < n ==> d[i] == 0
  {
    if n == 0 then [] else Zeros(n - 1) + [0]
  }

  lemma {:induction false} ZerosSum(n: nat, place: nat)
    ensures Sum(Zeros(n), place) == 0
  {
    if n > 0 {
      ZerosSum(n - 1, place + 1);
    }
  }

  /** Numbers of zeros only are valid. */
  lemma ZerosValid(n: nat)
    ensures Valid(Zeros(n))
  {
    ZerosSum(n, 0);
  }

  /** A single digit before the check digit counts with the digit sum of twice it. */
  lemma ValidPair(x: nat, c: nat)
    requires x < 10 && c < 10
    ensures Valid([x, c]) <==> (2 * x / 10 + 2 * x % 10 + c) % 10 == 0
  {
    SumPair(x, c, 0);
    DoubledIsDigitSum(x);
    assert Sum([x, c], 0) == c + Doubled(x);
    hide Sum;
    hide Doubled;
  }
}
