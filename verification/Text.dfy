/**
  Strings as the program sees them: finite sequences of bytes, one `char` per byte.

  Everything here serves the textual encodings of the program: decimal numbers in
  references and audit records, and fields joined by a separator character.
  */
module Text {

  datatype Option<+T> = None | Some(value: T)

  /** `c` does not occur in `s`. */
  predicate Free(s: string, c: char) {
    c !in s
  }

  /** A separator that the first field does not contain marks where that field ends. */
  lemma SplitFirst(a: string, x: string, b: string, y: string, c: char)
    requires Free(a, c) && Free(b, c)
    requires a + [c] + x == b + [c] + y
    ensures a == b && x == y
  {
    var s, t := a + [c] + x, b + [c] + y;
    assert s[|a|] == c && t[|b|] == c;
    assert forall i :: 0 <= i < |a| ==> s[i] == a[i] != c;
    assert forall i :: 0 <= i < |b| ==> t[i] == b[i] != c;
    assert a == s[..|a|] && b == t[..|b|];
    assert x == s[|a| + 1..] && y == t[|b| + 1..];
  }

  /** A separator that the last field does not contain marks where that field starts. */
  lemma SplitLast(x: string, a: string, y: string, b: string, c: char)
    requires Free(a, c) && Free(b, c)
    requires x + [c] + a == y + [c] + b
    ensures x == y && a == b
  {
    var s, t := x + [c] + a, y + [c] + b;
    assert s[|x|] == c && t[|y|] == c;
    assert forall i :: |x| < i < |s| ==> s[i] == a[i - |x| - 1] != c;
    assert forall i :: |y| < i < |t| ==> t[i] == b[i - |y| - 1] != c;
    assert x == s[..|x|] && y == t[..|y|];
    assert a == s[|x| + 1..] && b == t[|y| + 1..];
  }

  /** A string that contains `c` is two pieces joined by it. */
  lemma SplitAt(s: string, c: char) returns (x: string, y: string)
    requires !Free(s, c)
    ensures s == x + [c] + y
  {
    var i :| 0 <= i < |s| && s[i] == c;
    x, y := s[..i], s[i + 1..];
  }

  /** The parts with `c` between them. */
  function Joined(parts: seq<string>, c: char): string {
    if parts == [] then ""
    else if |parts| == 1 then parts[0]
    else parts[0] + [c] + Joined(parts[1..], c)
  }

  lemma JoinedTwo(x: string, y: string, c: char)
    ensures Joined([x, y], c) == x + [c] + y
  {
    assert [x, y][1..] == [y];
  }

  lemma JoinedMore(x: string, parts: seq<string>, c: char)
    requires parts != []
    ensures Joined([x] + parts, c) == x + [c] + Joined(parts, c)
  {
    assert ([x] + parts)[1..] == parts;
  }

  predicate OccursAt(s: string, g: string, i: int) {
    0 <= i <= |s| - |g| && s[i..i + |g|] == g
  }

  /** `strings.Contains` */
  predicate Occurs(s: string, g: string) {
    exists i :: 0 <= i <= |s| - |g| && OccursAt(s, g, i)
  }

  // ----- decimal numbers -----

  predicate IsDigit(c: char) {
    '0' <= c <= '9'
  }

  function Digit(d: nat): (c: char)
    requires d < 10
    ensures IsDigit(c)
  {
    '0' + d as char
  }

  predicate AllDigits(s: string) {
    forall i :: 0 <= i < |s| ==> IsDigit(s[i])
  }

  /** The decimal numeral of `n`, as `strconv.FormatUint(n, 10)` and `%d` print it. */
  function Dec(n: nat): (s: string)
    ensures |s| > 0 && AllDigits(s)
  {
    if n < 10 then [Digit(n)] else Dec(n / 10) + [Digit(n % 10)]
  }

  /** `%d` for a signed number. */
  function DecInt(n: int): (s: string)
  {
    if n < 0 then "-" + Dec(-n) else Dec(n)
  }

  function Value(s: string): nat
    requires AllDigits(s)
  {
    if s == [] then 0 else Value(s[..|s| - 1]) * 10 + (s[|s| - 1] - '0') as nat
  }

  const UINT64_LIMIT := 0x1_0000_0000_0000_0000

  /** `strconv.ParseUint(s, 10, 64)`: digits only, not empty, within 64 bits. */
  function ParseUint(s: string): (r: Option<nat>)
  {
    if s == "" || !AllDigits(s) || Value(s) >= UINT64_LIMIT then None else Some(Value(s))
  }

  /** Reading back a printed number gives the number. */
  lemma {:induction false} DecValue(n: nat)
    ensures Value(Dec(n)) == n
  {
    if n >= 10 {
      DecValue(n / 10);
      var s := Dec(n);
      assert s[..|s| - 1] == Dec(n / 10);
    }
  }

  lemma ParseDec(n: nat)
    ensures ParseUint(Dec(n)) == if n < UINT64_LIMIT then Some(n) else None
  {
    DecValue(n);
  }

  lemma DecInjective(m: nat, n: nat)
    requires Dec(m) == Dec(n)
    ensures m == n
  {
    DecValue(m);
    DecValue(n);
  }

  lemma DecIntInjective(m: int, n: int)
    requires DecInt(m) == DecInt(n)
    ensures m == n
  {
    var x, y := if m < 0 then -m else m, if n < 0 then -n else n;
    assert (m < 0) == (DecInt(m)[0] == '-') && (n < 0) == (DecInt(n)[0] == '-');
    assert Dec(x) == if m < 0 then DecInt(m)[1..] else DecInt(m);
    assert Dec(y) == if m < 0 then DecInt(n)[1..] else DecInt(n);
    DecInjective(x, y);
  }

  lemma DecFree(n: int, c: char)
    requires !IsDigit(c) && c != '-'
    ensures Free(DecInt(n), c)
  {
  }
}
