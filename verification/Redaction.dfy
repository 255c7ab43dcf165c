/**
  Redaction of log entries before they are persisted.

  The regular-expression passes are parameters; the entropy pass is modelled in full,
  except for the entropy itself, which is the predicate `high` ("at or above the
  threshold").
  */
module Redaction {
  import opened Filters
  import opened Text
  import opened Model
  import opened Sums

  const PLACEHOLDER := "[REDACTED]"

  predicate IsSeparator(c: char) {
    c == ' ' || c == '\t' || c == '=' || c == ':' || c == ',' ||
    c == '\"' || c == '\'' || c == '(' || c == ')' || c == '\n'
  }

  /** The separators, listed. */
  lemma SeparatorChars(c: char)
    ensures IsSeparator(c) <==> c in " \t=:,\"'()\n"
  {
  }

  predicate Solid(s: string) {
    forall i :: 0 <= i < |s| ==> !IsSeparator(s[i])
  }

  /** Length of the leading run without separators. */
  function RunLength(s: string): (n: nat)
    ensures n <= |s| && Solid(s[..n])
    ensures n < |s| ==> IsSeparator(s[n])
  {
    if s == "" || IsSeparator(s[0]) then 0 else 1 + RunLength(s[1..])
  }

  /** The pieces between separators, empty ones included; one more than there are separators. */
  function Pieces(s: string): (p: seq<string>)
    ensures |p| > 0 && forall i :: 0 <= i < |p| ==> Solid(p[i])
    decreases |s|
  {
    var n := RunLength(s);
    [s[..n]] + if n == |s| then [] else Pieces(s[n + 1..])
  }

  /** The separators of a string, in order. */
  function Separators(s: string): string
    decreases |s|
  {
    var n := RunLength(s);
    if n == |s| then "" else [s[n]] + Separators(s[n + 1..])
  }

  function NonEmpty(p: seq<string>): (f: seq<string>)
    ensures forall i :: 0 <= i < |f| ==> f[i] != "" && f[i] in p
    ensures forall x :: x in p && x != "" ==> x in f
  {
    if p == [] then []
    else
      var rest := NonEmpty(p[1..]);
      assert forall x :: x in p <==> x == p[0] || x in p[1..];
      if p[0] == "" then rest else [p[0]] + rest
  }

  /** `strings.FieldsFunc` for the separators of the entropy pass. */
  function Fields(s: string): (f: seq<string>)
    ensures forall i :: 0 <= i < |f| ==> f[i] != "" && Solid(f[i])
  {
    NonEmpty(Pieces(s))
  }

  /** `strings.ReplaceAll` for a non-empty `old`: leftmost matches that do not overlap. */
  function ReplaceAll(s: string, old_: string, new_: string): string
    requires old_ != ""
    decreases |s|
  {
    if |s| < |old_| then s
    else if old_ <= s then new_ + ReplaceAll(s[|old_|..], old_, new_)
    else [s[0]] + ReplaceAll(s[1..], old_, new_)
  }

  predicate IsTokenChar(c: char) {
    'a' <= c <= 'z' || 'A' <= c <= 'Z' || '0' <= c <= '9' ||
    c == '+' || c == '/' || c == '=' || c == '-' || c == '_'
  }

  const UPPER := "ABCDEFGHIJKLMNOPQRSTUVWXYZ"

  const LOWER := "abcdefghijklmnopqrstuvwxyz"

  const DIGITS := "0123456789"

  lemma Upper(c: char)
    ensures c in UPPER <==> 'A' <= c <= 'Z'
  {
    assert forall i :: 0 <= i < 26 ==> UPPER[i] == 'A' + i as char;
    if 'A' <= c <= 'Z' {
      assert UPPER[(c - 'A') as nat] == c;
    }
  }

  lemma Lower(c: char)
    ensures c in LOWER <==> 'a' <= c <= 'z'
  {
    assert forall i :: 0 <= i < 26 ==> LOWER[i] == 'a' + i as char;
    if 'a' <= c <= 'z' {
      assert LOWER[(c - 'a') as nat] == c;
    }
  }

  /** The characters of encoded secrets, listed. */
  lemma TokenChars(c: char)
    ensures IsTokenChar(c) <==> c in UPPER || c in LOWER || c in DIGITS || c in "+/=-_"
  {
    Upper(c);
    Lower(c);
    hide UPPER;
    hide LOWER;
    assert c in DIGITS <==> '0' <= c <= '9';
  }

  predicate TokenLike(s: string) {
    forall i :: 0 <= i < |s| ==> IsTokenChar(s[i])
  }

  method LooksLikeToken(s: string) returns (ok: bool)
    ensures ok <==> TokenLike(s)
  {
    for i := 0 to |s|
      invariant TokenLike(s[..i])
    {
      if !IsTokenChar(s[i]) {
        return false;
      }
    }
    return true;
  }

  /** Long enough, of token characters only, and random enough. */
  predicate Secret(f: string, minLen: nat, high: string -> bool) {
    |f| >= minLen && TokenLike(f) && high(f)
  }

  function IsSecret(minLen: nat, high: string -> bool): string -> bool {
    (f: string) => Secret(f, minLen, high)
  }

  /** The fields in order, each secret one replaced throughout the string as it then is. */
  function Scan(s: string, fields: seq<string>, minLen: nat, high: string -> bool): (r: (string, nat))
    requires forall i :: 0 <= i < |fields| ==> fields[i] != ""
  {
    if fields == [] then (s, 0)
    else
      var n := |fields| - 1;
      var before := Scan(s, fields[..n], minLen, high);
      if Secret(fields[n], minLen, high)
      then (ReplaceAll(before.0, fields[n], PLACEHOLDER), before.1 + 1)
      else before
  }

  function EntropyPass(s: string, minLen: nat, high: string -> bool): (string, nat) {
    Scan(s, Fields(s), minLen, high)
  }

  method RedactHighEntropyTokens(s: string, minLen: nat, high: string -> bool, count: nat)
    returns (out: string, newCount: nat)
    ensures (out, newCount) == (EntropyPass(s, minLen, high).0, count + EntropyPass(s, minLen, high).1)
  {
    hide ReplaceAll;
    out, newCount := s, count;
    var fields := Fields(s);
    hide Fields;
    if |fields| == 0 {
      return;
    }
    for i := 0 to |fields|
      invariant (out, newCount) ==
                (Scan(s, fields[..i], minLen, high).0, count + Scan(s, fields[..i], minLen, high).1)
    {
      var f := fields[i];
      assert fields[..i + 1][..i] == fields[..i];
      if |f| < minLen {
        continue;
      }
      var token := LooksLikeToken(f);
      if !token {
        continue;
      }
      if high(f) {
        out := ReplaceAll(out, f, PLACEHOLDER);
        newCount := newCount + 1;
      }
    }
    assert fields[..|fields|] == fields;
  }

  // ----- replacing never crosses a separator -----

  lemma {:induction false} ReplaceSolid(s: string, f: string)
    requires f != "" && Solid(s)
    ensures Solid(ReplaceAll(s, f, PLACEHOLDER))
    decreases |s|
  {
    if |s| < |f| {
    } else if f <= s {
      ReplaceSolid(s[|f|..], f);
    } else {
      ReplaceSolid(s[1..], f);
    }
  }

  lemma ReplaceEmpty(f: string)
    requires f != ""
    ensures ReplaceAll("", f, PLACEHOLDER) == ""
  {
  }

  lemma ReplaceMatch(s: string, f: string)
    requires f != "" && f <= s
    ensures ReplaceAll(s, f, PLACEHOLDER) == PLACEHOLDER + ReplaceAll(s[|f|..], f, PLACEHOLDER)
  {
  }

  lemma ReplaceShort(s: string, f: string)
    requires f != "" && s != "" && !(f <= s)
    ensures ReplaceAll(s, f, PLACEHOLDER) == [s[0]] + ReplaceAll(s[1..], f, PLACEHOLDER)
  {
  }

  lemma Regrouped(p: string, x: string, c: char, y: string)
    ensures p + (x + [c] + y) == (p + x) + [c] + y
  {
  }

  /** A text without separators does not reach across one. */
  lemma MatchStays(a: string, c: char, b: string, f: string)
    requires Solid(f) && IsSeparator(c)
    ensures f <= a + [c] + b <==> f <= a
    ensures f <= a ==> (a + [c] + b)[|f|..] == a[|f|..] + [c] + b
  {
    var s := a + [c] + b;
    assert s[|a|] == c && a <= s;
    if f <= s {
      assert forall i :: 0 <= i < |f| ==> f[i] == s[i];
      assert |f| <= |a|;
    }
  }

  /** Replacing acts on the text before a separator and on the text behind it separately. */
  lemma {:induction false} ReplaceAcross(a: string, c: char, b: string, f: string)
    requires f != "" && Solid(f) && IsSeparator(c)
    ensures ReplaceAll(a + [c] + b, f, PLACEHOLDER)
         == ReplaceAll(a, f, PLACEHOLDER) + [c] + ReplaceAll(b, f, PLACEHOLDER)
    decreases |a|
  {
    var s := a + [c] + b;
    MatchStays(a, c, b, f);
    hide *;
    if f <= a {
      ReplaceMatch(s, f);
      ReplaceMatch(a, f);
      ReplaceAcross(a[|f|..], c, b, f);
      Regrouped(PLACEHOLDER, ReplaceAll(a[|f|..], f, PLACEHOLDER), c, ReplaceAll(b, f, PLACEHOLDER));
    } else {
      ReplaceShort(s, f);
      if a == "" {
        ReplaceEmpty(f);
        assert s[1..] == b && s[0] == c;
      } else {
        ReplaceShort(a, f);
        assert s[1..] == a[1..] + [c] + b && s[0] == a[0];
        ReplaceAcross(a[1..], c, b, f);
        Regrouped([a[0]], ReplaceAll(a[1..], f, PLACEHOLDER), c, ReplaceAll(b, f, PLACEHOLDER));
      }
    }
  }

  lemma PiecesOf(a: string, c: char, b: string)
    requires Solid(a) && IsSeparator(c)
    ensures Pieces(a + [c] + b) == [a] + Pieces(b)
    ensures Separators(a + [c] + b) == [c] + Separators(b)
  {
    var s := a + [c] + b;
    assert s[|a|] == c;
    var n := RunLength(s);
    assert forall i :: 0 <= i < |a| ==> s[i] == a[i] && !IsSeparator(s[i]);
    assert forall i :: 0 <= i < n ==> s[i] == s[..n][i] && !IsSeparator(s[i]);
    assert s[..n] == a && s[n + 1..] == b;
  }

  lemma SolidPieces(s: string)
    requires Solid(s)
    ensures Pieces(s) == [s] && Separators(s) == ""
  {
    var n := RunLength(s);
    assert n == |s|;
    assert s[..n] == s;
  }

  function ReplaceEach(p: seq<string>, f: string): (q: seq<string>)
    requires f != ""
    ensures |q| == |p| && forall i :: 0 <= i < |p| ==> q[i] == ReplaceAll(p[i], f, PLACEHOLDER)
  {
    if p == [] then [] else [ReplaceAll(p[0], f, PLACEHOLDER)] + ReplaceEach(p[1..], f)
  }

  /** One replacement treats each piece on its own and leaves the separators as they are. */
  lemma {:induction false} ReplacePieces(s: string, f: string)
    requires f != "" && Solid(f)
    ensures Separators(ReplaceAll(s, f, PLACEHOLDER)) == Separators(s)
    ensures Pieces(ReplaceAll(s, f, PLACEHOLDER)) == ReplaceEach(Pieces(s), f)
    decreases |s|
  {
    var n := RunLength(s);
    if n == |s| {
      assert s[..n] == s;
      ReplaceSolid(s, f);
      SolidPieces(s);
      SolidPieces(ReplaceAll(s, f, PLACEHOLDER));
    } else {
      var a, c, b := s[..n], s[n], s[n + 1..];
      assert s == a + [c] + b;
      ReplacePieces(b, f);
      ReplaceStep(a, c, b, f);
    }
  }

  lemma ReplaceStep(a: string, c: char, b: string, f: string)
    requires f != "" && Solid(f) && Solid(a) && IsSeparator(c)
    ensures var r := ReplaceAll(a + [c] + b, f, PLACEHOLDER);
            && Separators(r) == [c] + Separators(ReplaceAll(b, f, PLACEHOLDER))
            && Pieces(r) == [ReplaceAll(a, f, PLACEHOLDER)] + Pieces(ReplaceAll(b, f, PLACEHOLDER))
    ensures Separators(a + [c] + b) == [c] + Separators(b)
    ensures ReplaceEach(Pieces(a + [c] + b), f)
         == [ReplaceAll(a, f, PLACEHOLDER)] + ReplaceEach(Pieces(b), f)
  {
    ReplaceAcross(a, c, b, f);
    ReplaceSolid(a, f);
    PiecesOf(a, c, b);
    PiecesOf(ReplaceAll(a, f, PLACEHOLDER), c, ReplaceAll(b, f, PLACEHOLDER));
    assert ([a] + Pieces(b))[1..] == Pieces(b);
  }

  /** The whole pass treats each piece on its own and leaves the separators as they are. */
  lemma {:induction false} ScanPieces(s: string, fields: seq<string>, minLen: nat, high: string -> bool)
    requires forall i :: 0 <= i < |fields| ==> fields[i] != "" && Solid(fields[i])
    ensures Separators(Scan(s, fields, minLen, high).0) == Separators(s)
    ensures |Pieces(Scan(s, fields, minLen, high).0)| == |Pieces(s)|
    ensures forall i :: 0 <= i < |Pieces(s)| ==>
                Pieces(Scan(s, fields, minLen, high).0)[i] == Scan(Pieces(s)[i], fields, minLen, high).0
  {
    if fields != [] {
      var n := |fields| - 1;
      ScanPieces(s, fields[..n], minLen, high);
      if Secret(fields[n], minLen, high) {
        ReplacePieces(Scan(s, fields[..n], minLen, high).0, fields[n]);
      }
    }
  }

  // ----- what becomes of one piece -----

  /** A replacement either leaves the string alone or leaves a bracket in it, and keeps brackets. */
  lemma {:induction false} ReplaceMarks(s: string, f: string)
    requires f != "" && TokenLike(f)
    ensures ReplaceAll(s, f, PLACEHOLDER) == s || '[' in ReplaceAll(s, f, PLACEHOLDER)
    ensures '[' in s ==> '[' in ReplaceAll(s, f, PLACEHOLDER)
    ensures s != "" ==> ReplaceAll(s, f, PLACEHOLDER) != ""
    decreases |s|
  {
    if |s| < |f| {
    } else if f <= s {
      assert PLACEHOLDER[0] == '[';
      assert ReplaceAll(s, f, PLACEHOLDER)[0] == '[';
    } else {
      ReplaceMarks(s[1..], f);
      assert s == [s[0]] + s[1..];
      if '[' in s[1..] {
        assert '[' in ReplaceAll(s[1..], f, PLACEHOLDER);
      }
    }
  }

  /** A piece comes out as it went in or with a bracket; a secret one never as it went in. */
  lemma {:induction false} ScanMarks(g: string, fields: seq<string>, minLen: nat, high: string -> bool)
    requires forall i :: 0 <= i < |fields| ==> fields[i] != ""
    ensures Scan(g, fields, minLen, high).0 == g || '[' in Scan(g, fields, minLen, high).0
    ensures g != "" ==> Scan(g, fields, minLen, high).0 != ""
    ensures g in fields && Secret(g, minLen, high) ==> '[' in Scan(g, fields, minLen, high).0
  {
    if fields != [] {
      var n := |fields| - 1;
      var before := Scan(g, fields[..n], minLen, high).0;
      ScanMarks(g, fields[..n], minLen, high);
      assert fields == fields[..n] + [fields[n]];
      if Secret(fields[n], minLen, high) {
        ReplaceMarks(before, fields[n]);
        if before == g == fields[n] {
          assert ReplaceAll(g, g, PLACEHOLDER) == PLACEHOLDER + ReplaceAll(g[|g|..], g, PLACEHOLDER);
          assert (PLACEHOLDER + ReplaceAll(g[|g|..], g, PLACEHOLDER))[0] == '[';
        }
      }
    }
  }

  // ----- main results on the entropy pass -----

  /** No secret field is left, and the text keeps its separators and its number of pieces. */
  lemma EntropyComplete(s: string, minLen: nat, high: string -> bool)
    ensures var out := EntropyPass(s, minLen, high).0;
            && (forall f :: f in Fields(out) ==> !Secret(f, minLen, high))
            && Separators(out) == Separators(s)
            && |Pieces(out)| == |Pieces(s)|
  {
    var out := EntropyPass(s, minLen, high).0;
    ScanPieces(s, Fields(s), minLen, high);
    forall f | f in Fields(out)
      ensures !Secret(f, minLen, high)
    {
      assert f in Pieces(out);
      var i :| 0 <= i < |Pieces(out)| && Pieces(out)[i] == f;
      var g := Pieces(s)[i];
      ScanMarks(g, Fields(s), minLen, high);
      if '[' !in f {
        assert f == g && g in Pieces(s) && g != "";
      }
    }
  }

  lemma {:induction false} ScanWithoutSecrets(s: string, fields: seq<string>, minLen: nat, high: string -> bool)
    requires forall i :: 0 <= i < |fields| ==> fields[i] != "" && !Secret(fields[i], minLen, high)
    ensures Scan(s, fields, minLen, high) == (s, 0)
  {
    if fields != [] {
      ScanWithoutSecrets(s, fields[..|fields| - 1], minLen, high);
    }
  }

  /** A second pass changes nothing and counts nothing. */
  lemma EntropyFixpoint(s: string, minLen: nat, high: string -> bool)
    ensures var out := EntropyPass(s, minLen, high).0; EntropyPass(out, minLen, high) == (out, 0)
  {
    EntropyComplete(s, minLen, high);
    var out := EntropyPass(s, minLen, high).0;
    ScanWithoutSecrets(out, Fields(out), minLen, high);
  }

  /** The number of fields is kept too, because no field becomes empty. */
  lemma EntropyFieldCount(s: string, minLen: nat, high: string -> bool)
    ensures |Fields(EntropyPass(s, minLen, high).0)| == |Fields(s)|
  {
    ScanPieces(s, Fields(s), minLen, high);
    var p, q := Pieces(s), Pieces(EntropyPass(s, minLen, high).0);
    forall i | 0 <= i < |p|
      ensures p[i] == "" <==> q[i] == ""
    {
      ScanMarks(p[i], Fields(s), minLen, high);
      if p[i] == "" {
        ScanEmpty(Fields(s), minLen, high);
      }
    }
    SameEmptiness(p, q);
  }

  lemma {:induction false} ScanEmpty(fields: seq<string>, minLen: nat, high: string -> bool)
    requires forall i :: 0 <= i < |fields| ==> fields[i] != ""
    ensures Scan("", fields, minLen, high).0 == ""
  {
    if fields != [] {
      ScanEmpty(fields[..|fields| - 1], minLen, high);
    }
  }

  lemma {:induction false} SameEmptiness(p: seq<string>, q: seq<string>)
    requires |p| == |q| && forall i :: 0 <= i < |p| ==> (p[i] == "" <==> q[i] == "")
    ensures |NonEmpty(p)| == |NonEmpty(q)|
  {
    if p != [] {
      assert p[0] == "" <==> q[0] == "";
      SameEmptiness(p[1..], q[1..]);
    }
  }

  // ----- the text of a secret is gone -----

  /** Longer than the word in the placeholder, so it fits in no placeholder. */
  predicate Unplaceable(g: string) {
    TokenLike(g) && |g| > |PLACEHOLDER| - 2
  }

  /** As far as a result has no bracket, it is the original text. */
  lemma {:induction false} PrefixKept(s: string, f: string, n: nat)
    requires f != "" && n <= |ReplaceAll(s, f, PLACEHOLDER)|
    ensures var kept := ReplaceAll(s, f, PLACEHOLDER)[..n]; '[' in kept || kept <= s
    decreases |s|
  {
    var r := ReplaceAll(s, f, PLACEHOLDER);
    if n > 0 && |s| >= |f| {
      assert r[..n] == [r[0]] + r[1..][..n - 1];
      if f <= s {
        assert r == PLACEHOLDER + ReplaceAll(s[|f|..], f, PLACEHOLDER);
        assert r[..n][0] == '[';
      } else {
        assert r[1..] == ReplaceAll(s[1..], f, PLACEHOLDER);
        PrefixKept(s[1..], f, n - 1);
        if r[1..][..n - 1] <= s[1..] {
          assert [s[0]] + r[1..][..n - 1] <= [s[0]] + s[1..];
          assert s == [s[0]] + s[1..];
        }
      }
    }
  }

  lemma FirstKept(s: string, f: string, g: string)
    requires f != "" && TokenLike(g)
    requires OccursAt(ReplaceAll(s, f, PLACEHOLDER), g, 0)
    ensures OccursAt(s, g, 0)
  {
    PrefixKept(s, f, |g|);
    assert '[' !in g;
  }

  lemma NotAcrossPlaceholder(rest: string, g: string, i: int)
    requires Unplaceable(g)
    ensures OccursAt(PLACEHOLDER + rest, g, i) ==> OccursAt(rest, g, i - |PLACEHOLDER|)
  {
    var s := PLACEHOLDER + rest;
    assert !IsTokenChar(s[0]) && !IsTokenChar(s[9]);
    if OccursAt(s, g, i) {
      assert forall k :: i <= k < i + |g| ==> s[k] == g[k - i] && IsTokenChar(s[k]);
      assert s[i..i + |g|] == rest[i - 10..i - 10 + |g|];
    }
  }

  lemma OccursInTail(c: char, t: string, g: string, i: int)
    requires i > 0
    ensures OccursAt([c] + t, g, i) <==> OccursAt(t, g, i - 1)
  {
    if i <= |t| + 1 - |g| {
      assert ([c] + t)[i..i + |g|] == t[i - 1..i - 1 + |g|];
    }
  }

  /** A text that is being replaced, or that was not there, is not there afterwards. */
  lemma {:induction false} ReplaceAbsent(s: string, f: string, g: string, i: int)
    requires f != "" && Unplaceable(g)
    requires g == f || !Occurs(s, g)
    ensures !OccursAt(ReplaceAll(s, f, PLACEHOLDER), g, i)
    decreases |s|
  {
    if |s| >= |f| && f <= s {
      var rest := s[|f|..];
      OccursLater(s, g, |f|);
      NotAcrossPlaceholder(ReplaceAll(rest, f, PLACEHOLDER), g, i);
      ReplaceAbsent(rest, f, g, i - |PLACEHOLDER|);
    } else if |s| >= |f| && i > 0 {
      OccursLater(s, g, 1);
      ReplaceAbsent(s[1..], f, g, i - 1);
      OccursInTail(s[0], ReplaceAll(s[1..], f, PLACEHOLDER), g, i);
    } else if |s| >= |f| && i == 0 {
      assert !OccursAt(s, g, 0);
      KeptFromStart(s, f, g);
    } else {
      assert g == f || !OccursAt(s, g, i);
    }
  }

  lemma KeptFromStart(s: string, f: string, g: string)
    requires f != "" && TokenLike(g)
    ensures OccursAt(ReplaceAll(s, f, PLACEHOLDER), g, 0) ==> OccursAt(s, g, 0)
  {
    if OccursAt(ReplaceAll(s, f, PLACEHOLDER), g, 0) {
      FirstKept(s, f, g);
    }
  }

  lemma OccursLater(s: string, g: string, n: nat)
    requires n <= |s|
    ensures Occurs(s[n..], g) ==> Occurs(s, g)
  {
    if Occurs(s[n..], g) {
      var i :| 0 <= i <= |s[n..]| - |g| && OccursAt(s[n..], g, i);
      assert s[n..][i..i + |g|] == s[n + i..n + i + |g|];
      assert OccursAt(s, g, n + i);
    }
  }

  lemma {:induction false} ScanAbsent(s: string, fields: seq<string>, minLen: nat, high: string -> bool, g: string)
    requires forall i :: 0 <= i < |fields| ==> fields[i] != ""
    requires Unplaceable(g) && (!Occurs(s, g) || (g in fields && Secret(g, minLen, high)))
    ensures !Occurs(Scan(s, fields, minLen, high).0, g)
  {
    if fields != [] {
      var n := |fields| - 1;
      var before := Scan(s, fields[..n], minLen, high).0;
      assert fields == fields[..n] + [fields[n]];
      if g != fields[n] || !Secret(g, minLen, high) {
        ScanAbsent(s, fields[..n], minLen, high, g);
      }
      if Secret(fields[n], minLen, high) {
        forall i
          ensures !OccursAt(ReplaceAll(before, fields[n], PLACEHOLDER), g, i)
        {
          ReplaceAbsent(before, fields[n], g, i);
        }
      }
    }
  }

  /** Wherever a secret field stood, alone or inside another field, its text is gone. */
  ghost predicate TextGone(minLen: nat, s: string, high: string -> bool) {
    forall f :: f in Fields(s) && Secret(f, minLen, high) ==> !Occurs(EntropyPass(s, minLen, high).0, f)
  }

  lemma SecretTextGone(minLen: nat, s: string, high: string -> bool)
    requires minLen > 8
    ensures TextGone(minLen, s, high)
  {
    forall f | f in Fields(s) && Secret(f, minLen, high)
      ensures !Occurs(EntropyPass(s, minLen, high).0, f)
    {
      ScanAbsent(s, Fields(s), minLen, high, f);
    }
  }

  /** The word in the placeholder is the one text that a shorter minimum would leave behind. */
  lemma SecretTextGoneIff(minLen: nat)
    ensures (forall s, high :: TextGone(minLen, s, high)) <==> minLen > 8
  {
    hide *;
    if minLen > 8 {
      forall s, high
        ensures TextGone(minLen, s, high)
      {
        SecretTextGone(minLen, s, high);
      }
    } else {
      WordLeftBehind("REDACTED", minLen, x => true);
    }
  }

  lemma WordLeftBehind(word: string, minLen: nat, high: string -> bool)
    requires word == "REDACTED" && minLen <= |word| && high(word)
    ensures !TextGone(minLen, word, high)
  {
    OnlyField(word);
    WholeReplaced(word, minLen, high);
    hide Fields;
    hide EntropyPass;
    assert word in Fields(word) && Secret(word, minLen, high);
    assert OccursAt(PLACEHOLDER, word, 1);
  }

  lemma OnlyField(f: string)
    requires Solid(f) && f != ""
    ensures Fields(f) == [f]
  {
    SolidPieces(f);
    assert [f][1..] == [];
    assert NonEmpty([f]) == [f] + NonEmpty([]);
  }

  /** A text that is nothing but a secret becomes the placeholder. */
  lemma WholeReplaced(f: string, minLen: nat, high: string -> bool)
    requires f != "" && Fields(f) == [f] && Secret(f, minLen, high)
    ensures EntropyPass(f, minLen, high).0 == PLACEHOLDER
  {
    hide Fields;
    hide Secret;
    assert [f][..0] == [] && Scan(f, [], minLen, high) == (f, 0);
    assert f[|f|..] == "";
    assert ReplaceAll("", f, PLACEHOLDER) == "";
    assert PLACEHOLDER + "" == PLACEHOLDER;
  }

  /** Text in which no secret field occurs is left alone. */
  lemma {:induction false} ReplaceNothing(s: string, f: string)
    requires f != "" && !Occurs(s, f)
    ensures ReplaceAll(s, f, PLACEHOLDER) == s
    decreases |s|
  {
    if |s| >= |f| {
      assert !OccursAt(s, f, 0);
      OccursLater(s, f, 1);
      ReplaceNothing(s[1..], f);
    }
  }

  lemma {:induction false} InnocentPieceKept(g: string, fields: seq<string>, minLen: nat, high: string -> bool)
    requires forall i :: 0 <= i < |fields| ==>
                fields[i] != "" && (Secret(fields[i], minLen, high) ==> !Occurs(g, fields[i]))
    ensures Scan(g, fields, minLen, high).0 == g
  {
    if fields != [] {
      var n := |fields| - 1;
      InnocentPieceKept(g, fields[..n], minLen, high);
      if Secret(fields[n], minLen, high) {
        ReplaceNothing(g, fields[n]);
      }
    }
  }

  /** What is counted are the secret fields of the text as it came. */
  lemma {:induction false} ScanCounts(s: string, fields: seq<string>, minLen: nat, high: string -> bool)
    requires forall i :: 0 <= i < |fields| ==> fields[i] != ""
    ensures Scan(s, fields, minLen, high).1 == |Filter(fields, IsSecret(minLen, high))|
  {
    hide Secret;
    hide ReplaceAll;
    if fields != [] {
      ScanCounts(s, fields[..|fields| - 1], minLen, high);
    }
  }

  lemma EntropyCount(s: string, minLen: nat, high: string -> bool)
    ensures EntropyPass(s, minLen, high).1 == |Filter(Fields(s), IsSecret(minLen, high))|
    ensures EntropyPass(s, minLen, high).1 == 0 <==> forall f :: f in Fields(s) ==> !Secret(f, minLen, high)
  {
    hide Secret;
    hide Fields;
    ScanCounts(s, Fields(s), minLen, high);
    FilterElements(Fields(s), IsSecret(minLen, high));
    var found := Filter(Fields(s), IsSecret(minLen, high));
    assert found != [] ==> found[0] in found;
  }

  // ----- whole entries -----

  /** One pattern: the text with its matches replaced, and how many were. */
  type Pattern = string -> (string, nat)

  datatype Rules = Rules(patterns: seq<Pattern>, minLen: nat, high: string -> bool, allowKeys: set<string>)
  {
    /** A pattern that replaces nothing changes nothing, and no match is empty. */
    ghost predicate Faithful() {
      forall i, s :: 0 <= i < |patterns| ==>
        && (patterns[i](s).1 == 0 ==> patterns[i](s).0 == s)
        && (s != "" ==> patterns[i](s).0 != "")
    }
  }

  function PatternPasses(patterns: seq<Pattern>, s: string): (string, nat) {
    if patterns == [] then (s, 0)
    else
      var n := |patterns| - 1;
      var before := PatternPasses(patterns[..n], s);
      var after := patterns[n](before.0);
      (after.0, before.1 + after.1)
  }

  function RedactedText(rules: Rules, s: string, useEntropy: bool): (string, nat) {
    var p := PatternPasses(rules.patterns, s);
    if useEntropy then
      var e := EntropyPass(p.0, rules.minLen, rules.high);
      (e.0, p.1 + e.1)
    else p
  }

  method RedactStringWithEntropy(rules: Rules, text: string, useEntropy: bool) returns (s: string, count: nat)
    ensures (s, count) == RedactedText(rules, text, useEntropy)
  {
    s, count := text, 0;
    for i := 0 to |rules.patterns|
      invariant (s, count) == PatternPasses(rules.patterns[..i], text)
    {
      assert rules.patterns[..i + 1][..i] == rules.patterns[..i];
      var (t, n) := rules.patterns[i](s);
      s, count := t, count + n;
    }
    assert rules.patterns[..|rules.patterns|] == rules.patterns;
    if useEntropy {
      s, count := RedactHighEntropyTokens(s, rules.minLen, rules.high, count);
    }
  }

  /** An attribute is rewritten when it is text and something in it was replaced. */
  function RedactedAttr(rules: Rules, k: string, v: AttrValue): (AttrValue, nat) {
    match v
    case Other(_) => (v, 0)
    case Str(text) =>
      var r := RedactedText(rules, text, k !in rules.allowKeys);
      (if r.1 > 0 then Str(r.0) else v, r.1)
  }

  function RedactedEntry(rules: Rules, e: LogEntry): LogEntry {
    e.(message := RedactedText(rules, e.message, true).0,
       attrs := map k | k in e.attrs :: RedactedAttr(rules, k, e.attrs[k]).0,
       redacted := true)
  }

  function AttrCount(rules: Rules, attrs: map<string, AttrValue>): string -> int {
    k => if k in attrs then RedactedAttr(rules, k, attrs[k]).1 else 0
  }

  /** Redacts message and attributes; the attributes are visited in any order. */
  method Redact(rules: Rules, e: LogEntry) returns (out: LogEntry, total: nat)
    ensures out == RedactedEntry(rules, e)
    ensures total == RedactedText(rules, e.message, true).1 + SumOver(e.attrs.Keys, AttrCount(rules, e.attrs))
  {
    hide RedactedText;
    hide SumOver;
    var msg, n := RedactStringWithEntropy(rules, e.message, true);
    ghost var count := AttrCount(rules, e.attrs);
    var attrs, keys := e.attrs, e.attrs.Keys;
    total := n;
    while keys != {}
      invariant keys <= e.attrs.Keys == attrs.Keys
      invariant forall k :: k in attrs ==>
                  attrs[k] == if k in keys then e.attrs[k] else RedactedAttr(rules, k, e.attrs[k]).0
      invariant total + SumOver(keys, count) == n + SumOver(e.attrs.Keys, count)
    {
      var k :| k in keys;
      SumTake(keys, k, count);
      keys := keys - {k};
      var v := e.attrs[k];
      if v.Str? {
        var red, cnt := RedactStringWithEntropy(rules, v.text, k !in rules.allowKeys);
        if cnt > 0 {
          attrs := attrs[k := Str(red)];
          total := total + cnt;
        }
      }
    }
    SumNone(count);
    assert attrs == map k | k in e.attrs :: RedactedAttr(rules, k, e.attrs[k]).0;
    out := e.(message := msg, attrs := attrs, redacted := true);
  }

  lemma {:induction false} PatternPassesFaithful(rules: Rules, s: string, n: nat)
    requires rules.Faithful() && n <= |rules.patterns|
    ensures var p := PatternPasses(rules.patterns[..n], s);
            (p.1 == 0 ==> p.0 == s) && (s != "" ==> p.0 != "")
  {
    if n > 0 {
      PatternPassesFaithful(rules, s, n - 1);
      assert rules.patterns[..n][..n - 1] == rules.patterns[..n - 1];
      assert rules.patterns[..n][n - 1] == rules.patterns[n - 1];
    }
  }

  /** No field of the text is secret. */
  predicate Clean(rules: Rules, s: string) {
    forall f :: f in Fields(s) ==> !Secret(f, rules.minLen, rules.high)
  }

  lemma RedactedTextClean(rules: Rules, s: string)
    requires rules.Faithful()
    ensures Clean(rules, RedactedText(rules, s, true).0)
    ensures RedactedText(rules, s, true).1 == 0 ==> Clean(rules, s)
    ensures s != "" ==> RedactedText(rules, s, true).0 != ""
  {
    var p := PatternPasses(rules.patterns, s).0;
    PatternPassesFaithful(rules, s, |rules.patterns|);
    assert rules.patterns[..|rules.patterns|] == rules.patterns;
    EntropyComplete(p, rules.minLen, rules.high);
    ScanMarks(p, Fields(p), rules.minLen, rules.high);
    ScanUncounted(p, Fields(p), rules.minLen, rules.high);
  }

  lemma {:induction false} ScanUncounted(s: string, fields: seq<string>, minLen: nat, high: string -> bool)
    requires forall i :: 0 <= i < |fields| ==> fields[i] != ""
    ensures Scan(s, fields, minLen, high).1 == 0 ==> Scan(s, fields, minLen, high).0 == s
  {
    if fields != [] {
      ScanUncounted(s, fields[..|fields| - 1], minLen, high);
    }
  }

  /** Nothing is counted, and nothing is changed, exactly when no pattern matches. */
  lemma {:induction false} PatternsCount(patterns: seq<Pattern>, s: string)
    requires forall i, x :: 0 <= i < |patterns| && patterns[i](x).1 == 0 ==> patterns[i](x).0 == x
    ensures PatternPasses(patterns, s).1 == 0 <==> forall i :: 0 <= i < |patterns| ==> patterns[i](s).1 == 0
    ensures PatternPasses(patterns, s).1 == 0 ==> PatternPasses(patterns, s).0 == s
  {
    if patterns != [] {
      var n := |patterns| - 1;
      assert forall i :: 0 <= i < n ==> patterns[..n][i] == patterns[i];
      PatternsCount(patterns[..n], s);
    }
  }

  /**
    A text is left alone and counts nothing exactly when no pattern matches in it and, with the
    entropy pass, no field of it is secret.
    */
  lemma NothingRedactedIff(rules: Rules, s: string, useEntropy: bool)
    requires rules.Faithful()
    ensures RedactedText(rules, s, useEntropy).1 == 0 <==>
              && (forall i :: 0 <= i < |rules.patterns| ==> rules.patterns[i](s).1 == 0)
              && (useEntropy ==> Clean(rules, s))
    ensures RedactedText(rules, s, useEntropy).1 == 0 ==> RedactedText(rules, s, useEntropy).0 == s
  {
    PatternsCount(rules.patterns, s);
    var p := PatternPasses(rules.patterns, s).0;
    EntropyCount(p, rules.minLen, rules.high);
    ScanUncounted(p, Fields(p), rules.minLen, rules.high);
    hide PatternPasses;
    hide Fields;
    hide Secret;
  }

  predicate NoMatch(p: Pattern, s: string) {
    p(s).1 == 0
  }

  /** Pattern `i` leaves no match of its own, and neither a later pattern nor the entropy pass makes a new one. */
  ghost predicate Erases(rules: Rules, i: nat) {
    && i < |rules.patterns|
    && (forall x :: NoMatch(rules.patterns[i], rules.patterns[i](x).0))
    && (forall j, x :: i < j < |rules.patterns| && NoMatch(rules.patterns[i], x) ==>
          NoMatch(rules.patterns[i], rules.patterns[j](x).0))
    && (forall x :: NoMatch(rules.patterns[i], x) ==>
          NoMatch(rules.patterns[i], EntropyPass(x, rules.minLen, rules.high).0))
  }

  lemma {:induction false} PatternErased(rules: Rules, i: nat, s: string, n: nat)
    requires Erases(rules, i) && i < n <= |rules.patterns|
    ensures NoMatch(rules.patterns[i], PatternPasses(rules.patterns[..n], s).0)
  {
    assert rules.patterns[..n][..n - 1] == rules.patterns[..n - 1];
    assert rules.patterns[..n][n - 1] == rules.patterns[n - 1];
    if i < n - 1 {
      PatternErased(rules, i, s, n - 1);
    }
  }

  /** Then the redacted text has no match of it. */
  lemma MatchesGone(rules: Rules, i: nat, s: string, useEntropy: bool)
    requires Erases(rules, i)
    ensures NoMatch(rules.patterns[i], RedactedText(rules, s, useEntropy).0)
  {
    PatternErased(rules, i, s, |rules.patterns|);
    assert rules.patterns[..|rules.patterns|] == rules.patterns;
  }

  /** Nor has any part of a redacted entry, allow-listed attributes included. */
  lemma EntryMatchesGone(rules: Rules, i: nat, e: LogEntry)
    requires rules.Faithful() && Erases(rules, i)
    ensures var r := RedactedEntry(rules, e);
            && NoMatch(rules.patterns[i], r.message)
            && forall k :: k in r.attrs && r.attrs[k].Str? ==> NoMatch(rules.patterns[i], r.attrs[k].text)
  {
    MatchesGone(rules, i, e.message, true);
    forall k | k in e.attrs && e.attrs[k].Str?
      ensures NoMatch(rules.patterns[i], RedactedAttr(rules, k, e.attrs[k]).0.text)
    {
      MatchesGone(rules, i, e.attrs[k].text, k !in rules.allowKeys);
      NothingRedactedIff(rules, e.attrs[k].text, k !in rules.allowKeys);
    }
  }

  /**
    After `Redact`, neither the message nor any text attribute outside the allow-list has a
    secret field; the entry is marked, keeps its origin, and a message does not vanish.
    */
  lemma RedactedEntryClean(rules: Rules, e: LogEntry)
    requires rules.Faithful()
    ensures var r := RedactedEntry(rules, e);
            && Clean(rules, r.message)
            && (forall k :: k in r.attrs && r.attrs[k].Str? && k !in rules.allowKeys ==> Clean(rules, r.attrs[k].text))
            && r == e.(message := r.message, attrs := r.attrs, redacted := true)
            && r.attrs.Keys == e.attrs.Keys
            && (forall k :: k in e.attrs && !e.attrs[k].Str? ==> r.attrs[k] == e.attrs[k])
            && (e.message != "" ==> r.message != "")
  {
    RedactedTextClean(rules, e.message);
    forall k | k in e.attrs && e.attrs[k].Str? && k !in rules.allowKeys
      ensures Clean(rules, RedactedAttr(rules, k, e.attrs[k]).0.text)
    {
      RedactedTextClean(rules, e.attrs[k].text);
    }
  }
}
