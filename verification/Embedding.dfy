/**
  Feature hashing with signed buckets and L2 normalisation, in exact reals.

  Parameters: the case folding and splitting of text into words (`split`), the FNV-1a
  hash (`fnv`, any 32-bit function), and the square root.
  */
module Embedding {
  import opened Filters
  import opened Permutations
  import opened Reals

  type Vec = seq<real>

  newtype Word32 = x: int | 0 <= x < 0x1_0000_0000

  datatype Embedder = Embedder(dim: nat, split: string -> seq<string>, fnv: string -> Word32, sqrt: Root)
  {
    ghost predicate Valid() {
      0 < dim < 0x1_0000_0000 && IsRoot(sqrt)
    }
  }

  function LongEnough(f: string): bool {
    |f| >= 2
  }

  /** The words of a text that are at least two bytes long. */
  function Tokens(e: Embedder, text: string): seq<string> {
    Filter(e.split(text), LongEnough)
  }

  method Tokenize(e: Embedder, text: string) returns (tokens: seq<string>)
    ensures tokens == Tokens(e, text)
  {
    var words := e.split(text);
    var fields := new string[|words|](i requires 0 <= i < |words| => words[i]);
    assert fields[..] == words;
    var n := FilterInPlace(fields, LongEnough);
    tokens := fields[..n];
  }

  /** The coordinate a token goes to, and its sign, taken from the top bit of its hash. */
  function Bucket(e: Embedder, token: string): (r: (nat, real))
    requires e.dim > 0
    ensures r.0 < e.dim
  {
    var sum := e.fnv(token) as int;
    (sum % e.dim, if sum >= 0x8000_0000 then -1.0 else 1.0)
  }

  function Share(e: Embedder, token: string, i: nat): real
    requires e.dim > 0
  {
    if Bucket(e, token).0 == i then Bucket(e, token).1 else 0.0
  }

  /** Coordinate `i` before normalisation: the signs of the tokens that go there. */
  function RawAt(e: Embedder, tokens: seq<string>, i: nat): real
    requires e.dim > 0
  {
    if tokens == [] then 0.0 else RawAt(e, tokens[..|tokens| - 1], i) + Share(e, tokens[|tokens| - 1], i)
  }

  function Raw(e: Embedder, tokens: seq<string>): (v: Vec)
    requires e.dim > 0
    ensures |v| == e.dim && forall i :: 0 <= i < e.dim ==> v[i] == RawAt(e, tokens, i)
  {
    seq(e.dim, i requires 0 <= i < e.dim => RawAt(e, tokens, i))
  }

  function SumSq(v: Vec): (s: real)
    ensures s >= 0.0
  {
    if v == [] then 0.0
    else
      SqNonNegative(v[|v| - 1]);
      SumSq(v[..|v| - 1]) + Sq(v[|v| - 1])
  }

  function Scaled(v: Vec, c: real): (w: Vec)
    ensures |w| == |v| && forall i :: 0 <= i < |v| ==> w[i] == Times(v[i], c)
  {
    if v == [] then [] else Scaled(v[..|v| - 1], c) + [Times(v[|v| - 1], c)]
  }

  function Inverse(x: real): real
    requires x != 0.0
  {
    1.0 / x
  }

  function Normalized(v: Vec, sqrt: Root): Vec
    requires IsRoot(sqrt)
  {
    if SumSq(v) == 0.0 then v
    else
      RootPositive(sqrt, SumSq(v));
      Scaled(v, Inverse(sqrt(SumSq(v))))
  }

  function Embedded(e: Embedder, text: string): (v: Vec)
    requires e.Valid()
    ensures |v| == e.dim
  {
    Normalized(Raw(e, Tokens(e, text)), e.sqrt)
  }

  method L2Normalize(v: array<real>, sqrt: Root)
    requires IsRoot(sqrt)
    modifies v
    ensures v[..] == Normalized(old(v[..]), sqrt)
  {
    var s := 0.0;
    for i := 0 to v.Length
      invariant s == SumSq(v[..i])
    {
      assert v[..i + 1][..i] == v[..i];
      s := s + v[i] * v[i];
    }
    assert v[..v.Length] == v[..];
    if s == 0.0 {
      return;
    }
    RootPositive(sqrt, s);
    var inv := Inverse(sqrt(s));
    hide Inverse;
    hide Times;
    for i := 0 to v.Length
      invariant forall j :: 0 <= j < i ==> v[j] == Times(old(v[j]), inv)
      invariant forall j :: i <= j < v.Length ==> v[j] == old(v[j])
    {
      v[i] := Times(v[i], inv);
    }
    assert v[..] == Scaled(old(v[..]), inv);
  }

  method Embed(e: Embedder, text: string) returns (v: array<real>)
    requires e.Valid()
    ensures fresh(v) && v[..] == Embedded(e, text)
  {
    v := new real[e.dim](i => 0.0);
    var tokens := Tokenize(e, text);
    for t := 0 to |tokens|
      invariant forall i :: 0 <= i < e.dim ==> v[i] == RawAt(e, tokens[..t], i)
    {
      assert tokens[..t + 1][..t] == tokens[..t];
      var (idx, sign) := Bucket(e, tokens[t]);
      v[idx] := v[idx] + sign;
    }
    assert tokens[..|tokens|] == tokens;
    assert v[..] == Raw(e, tokens);
    L2Normalize(v, e.sqrt);
  }

  function Dot(a: Vec, b: Vec): real
    requires |a| == |b|
  {
    if a == [] then 0.0
    else Dot(a[..|a| - 1], b[..|b| - 1]) + Times(a[|a| - 1], b[|b| - 1])
  }

  function CosineOf(a: Vec, b: Vec): real {
    if |a| != |b| then 0.0 else Dot(a, b)
  }

  method Cosine(a: Vec, b: Vec) returns (dot: real)
    ensures dot == CosineOf(a, b)
  {
    if |a| != |b| {
      return 0.0;
    }
    dot := 0.0;
    for i := 0 to |a|
      invariant dot == Dot(a[..i], b[..i])
    {
      assert a[..i + 1][..i] == a[..i] && b[..i + 1][..i] == b[..i];
      dot := dot + a[i] * b[i];
    }
    assert a[..|a|] == a && b[..|b|] == b;
  }

  // ----- scores -----

  lemma {:induction false} DotSymmetric(a: Vec, b: Vec)
    requires |a| == |b|
    ensures Dot(a, b) == Dot(b, a)
  {
    if a != [] {
      DotSymmetric(a[..|a| - 1], b[..|b| - 1]);
      assert Times(a[|a| - 1], b[|b| - 1]) == Times(b[|b| - 1], a[|a| - 1]);
    }
  }

  lemma CosineSymmetric(a: Vec, b: Vec)
    ensures CosineOf(a, b) == CosineOf(b, a)
  {
    if |a| == |b| {
      DotSymmetric(a, b);
    }
  }

  lemma {:induction false} DotSelf(a: Vec)
    ensures Dot(a, a) == SumSq(a)
  {
    if a != [] {
      DotSelf(a[..|a| - 1]);
      assert Times(a[|a| - 1], a[|a| - 1]) == Sq(a[|a| - 1]);
    }
  }

  /** The squared distance of `a` from `t` times `b`. */
  function Gap(a: Vec, b: Vec, t: real): (s: real)
    requires |a| == |b|
    ensures s >= 0.0
  {
    if a == [] then 0.0
    else
      SqNonNegative(a[|a| - 1] - Times(t, b[|b| - 1]));
      Gap(a[..|a| - 1], b[..|b| - 1], t) + Sq(a[|a| - 1] - Times(t, b[|b| - 1]))
  }

  lemma GapTerm(t: real, x: real, y: real)
    ensures Sq(x - Times(t, y)) == Sq(x) - Times(2.0 * t, Times(x, y)) + Times(Sq(t), Sq(y))
  {
  }

  lemma {:induction false} GapExpands(a: Vec, b: Vec, t: real)
    requires |a| == |b|
    ensures Gap(a, b, t) == SumSq(a) - Times(2.0 * t, Dot(a, b)) + Times(Sq(t), SumSq(b))
  {
    if a == [] {
    } else {
      hide Times;
      hide Sq;
      var n := |a| - 1;
      GapExpands(a[..n], b[..n], t);
      GapTerm(t, a[n], b[n]);
      TimesSum(2.0 * t, Dot(a[..n], b[..n]), Times(a[n], b[n]));
      TimesSum(Sq(t), SumSq(b[..n]), Sq(b[n]));
    }
  }

  lemma Completed(aa: real, bb: real, p: real, t: real, gap: real)
    requires bb > 0.0 && t * bb == p
    requires gap == aa - Times(2.0 * t, p) + Times(Sq(t), bb) && gap >= 0.0
    ensures Sq(p) <= aa * bb
  {
    assert Times(Sq(t), bb) == t * p;
    assert Times(2.0 * t, p) == 2.0 * (t * p);
    Product(aa - t * p, bb);
    assert (aa - t * p) * bb == aa * bb - (t * bb) * p;
  }

  lemma {:induction false} NothingToDot(a: Vec, b: Vec)
    requires |a| == |b| && SumSq(b) == 0.0
    ensures Dot(a, b) == 0.0
  {
    if a != [] {
      var n := |a| - 1;
      SqNonNegative(b[n]);
      NothingToDot(a[..n], b[..n]);
    }
  }

  lemma NothingLeft(aa: real, bb: real, p: real)
    requires bb == 0.0 && p == 0.0
    ensures Sq(p) <= aa * bb
  {
  }

  lemma Ratio(p: real, bb: real) returns (t: real)
    requires bb != 0.0
    ensures t * bb == p
  {
    t := p / bb;
  }

  lemma SumSqPositive(v: Vec)
    ensures SumSq(v) == 0.0 || SumSq(v) > 0.0
  {
  }

  lemma GapAt(a: Vec, b: Vec, t: real) returns (gap: real)
    requires |a| == |b|
    ensures gap >= 0.0 && gap == SumSq(a) - Times(2.0 * t, Dot(a, b)) + Times(Sq(t), SumSq(b))
  {
    gap := Gap(a, b, t);
    GapExpands(a, b, t);
  }

  /** Cauchy-Schwarz. */
  lemma CauchySchwarz(a: Vec, b: Vec)
    requires |a| == |b|
    ensures Sq(Dot(a, b)) <= SumSq(a) * SumSq(b)
  {
    hide *;
    SumSqPositive(b);
    if SumSq(b) == 0.0 {
      NothingToDot(a, b);
      NothingLeft(SumSq(a), SumSq(b), Dot(a, b));
    } else {
      var t := Ratio(Dot(a, b), SumSq(b));
      var gap := GapAt(a, b, t);
      Completed(SumSq(a), SumSq(b), Dot(a, b), t, gap);
    }
  }

  lemma SumSqNext(v: Vec, x: real)
    ensures SumSq(v + [x]) == SumSq(v) + Sq(x)
  {
    assert (v + [x])[..|v|] == v;
  }

  lemma ScaledSq(x: real, c: real)
    ensures Sq(Times(x, c)) == Times(Sq(c), Sq(x))
  {
    SqProduct(x, c);
  }

  lemma {:induction false} ScaledSumSq(v: Vec, c: real)
    ensures SumSq(Scaled(v, c)) == Times(Sq(c), SumSq(v))
  {
    if v == [] {
    } else {
      var n, w := |v| - 1, Scaled(v[..|v| - 1], c);
      assert Scaled(v, c) == w + [Times(v[n], c)] && v == v[..n] + [v[n]];
      hide *;
      ScaledSumSq(v[..n], c);
      SumSqNext(w, Times(v[n], c));
      SumSqNext(v[..n], v[n]);
      ScaledSq(v[n], c);
      TimesSum(Sq(c), SumSq(v[..n]), Sq(v[n]));
    }
  }

  /** A normalised vector has length one, unless it is zero. */
  lemma NormalizedUnit(v: Vec, sqrt: Root)
    requires IsRoot(sqrt)
    ensures SumSq(Normalized(v, sqrt)) == if SumSq(v) == 0.0 then 0.0 else 1.0
  {
    var s := SumSq(v);
    if s != 0.0 {
      RootPositive(sqrt, s);
      var r := sqrt(s);
      ScaledSumSq(v, Inverse(r));
      UnitScale(r, s);
    }
  }

  lemma UnitScale(r: real, s: real)
    requires r > 0.0 && Sq(r) == s
    ensures Times(Sq(Inverse(r)), s) == 1.0
  {
    var c := Inverse(r);
    assert c * r == 1.0;
    SqProduct(c, r);
    assert Sq(1.0) == 1.0;
  }

  lemma AtMostOne(d: real, x: real, y: real)
    requires 0.0 <= x <= 1.0 && 0.0 <= y <= 1.0 && Sq(d) <= x * y
    ensures -1.0 <= d <= 1.0
  {
    Product(x, 1.0 - y);
    assert Sq(1.0) == 1.0;
    SqAbs(d);
    SqMonotone(Abs(d), 1.0);
  }

  /** The score of any two texts lies between -1 and 1. */
  lemma ScoreBounds(e: Embedder, s: string, t: string)
    requires e.Valid()
    ensures -1.0 <= CosineOf(Embedded(e, s), Embedded(e, t)) <= 1.0
  {
    var a, b := Embedded(e, s), Embedded(e, t);
    NormalizedUnit(Raw(e, Tokens(e, s)), e.sqrt);
    NormalizedUnit(Raw(e, Tokens(e, t)), e.sqrt);
    CauchySchwarz(a, b);
    hide SumSq;
    hide Dot;
    AtMostOne(Dot(a, b), SumSq(a), SumSq(b));
  }

  /** A text scores one against itself, unless its words cancel out. */
  lemma SelfScore(e: Embedder, s: string)
    requires e.Valid()
    ensures CosineOf(Embedded(e, s), Embedded(e, s))
         == if SumSq(Raw(e, Tokens(e, s))) == 0.0 then 0.0 else 1.0
  {
    NormalizedUnit(Raw(e, Tokens(e, s)), e.sqrt);
    DotSelf(Embedded(e, s));
  }

  // ----- order of words -----

  lemma {:induction false} RawWithout(e: Embedder, tokens: seq<string>, j: nat, i: nat)
    requires e.dim > 0 && j < |tokens|
    ensures RawAt(e, tokens, i) == RawAt(e, tokens[..j] + tokens[j + 1..], i) + Share(e, tokens[j], i)
  {
    var n := |tokens| - 1;
    if j == n {
      assert tokens[..j] + tokens[j + 1..] == tokens[..n];
    } else {
      var t := tokens[..n];
      RawWithout(e, t, j, i);
      var u := tokens[..j] + tokens[j + 1..];
      assert u[..|u| - 1] == t[..j] + t[j + 1..];
      assert u[|u| - 1] == tokens[n];
    }
  }

  lemma {:induction false} RawOfPermutation(e: Embedder, s: seq<string>, t: seq<string>, i: nat)
    requires e.dim > 0 && multiset(s) == multiset(t)
    ensures RawAt(e, s, i) == RawAt(e, t, i)
    decreases |s|
  {
    if s == [] {
      assert |multiset(t)| == 0;
      assert t == [];
    } else {
      var n := |s| - 1;
      var j := WithoutLast(s, t);
      RawOfPermutation(e, s[..n], t[..j] + t[j + 1..], i);
      RawWithout(e, t, j, i);
    }
  }

  /** The embedding of a text depends on how often each token occurs, not on their order. */
  lemma OrderIrrelevant(e: Embedder, s: string, t: string)
    requires e.Valid()
    requires multiset(Tokens(e, s)) == multiset(Tokens(e, t))
    ensures Embedded(e, s) == Embedded(e, t)
  {
    forall i | 0 <= i < e.dim
      ensures RawAt(e, Tokens(e, s), i) == RawAt(e, Tokens(e, t), i)
    {
      RawOfPermutation(e, Tokens(e, s), Tokens(e, t), i);
    }
    assert Raw(e, Tokens(e, s)) == Raw(e, Tokens(e, t));
  }

  // ----- what the hash makes of words -----

  /** Coordinates add up over the words of a text. */
  lemma {:induction false} RawAdds(e: Embedder, s: seq<string>, t: seq<string>, i: nat)
    requires e.dim > 0
    ensures RawAt(e, s + t, i) == RawAt(e, s, i) + RawAt(e, t, i)
  {
    if t == [] {
      assert s + t == s;
    } else {
      assert (s + t)[..|s + t| - 1] == s + t[..|t| - 1];
      RawAdds(e, s, t[..|t| - 1], i);
    }
  }

  /** Zero except at one coordinate. */
  predicate Spike(v: Vec, j: nat, c: real) {
    j < |v| && forall i :: 0 <= i < |v| ==> v[i] == if i == j then c else 0.0
  }

  /** No coordinate of `a` but `j` counts. */
  lemma {:induction false} SpikeDot(a: Vec, b: Vec, j: nat, c: real)
    requires |a| == |b| && forall i :: 0 <= i < |a| ==> a[i] == if i == j then c else 0.0
    ensures Dot(a, b) == if j < |a| then Times(c, b[j]) else 0.0
  {
    if a != [] {
      var n := |a| - 1;
      SpikeDot(a[..n], b[..n], j, c);
      assert Times(0.0, b[n]) == 0.0;
    }
  }

  lemma ScaledByOne(v: Vec)
    ensures Scaled(v, Inverse(1.0)) == v
  {
    assert Inverse(1.0) == 1.0;
    assert forall i :: 0 <= i < |v| ==> Times(v[i], 1.0) == v[i];
  }

  /** The embedding of one word: the sign of its top bit, at the residue of its hash. */
  lemma OneWord(e: Embedder, s: string, a: string)
    requires e.Valid() && Tokens(e, s) == [a]
    ensures var h := e.fnv(a) as int;
            Spike(Embedded(e, s), h % e.dim, if h / 0x8000_0000 == 1 then -1.0 else 1.0)
  {
    var h := e.fnv(a) as int;
    var v, c := Raw(e, [a]), if h / 0x8000_0000 == 1 then -1.0 else 1.0;
    forall i | 0 <= i < e.dim
      ensures v[i] == if i == h % e.dim then c else 0.0
    {
      assert [a][..0] == [] && RawAt(e, [a], i) == RawAt(e, [], i) + Share(e, a, i);
    }
    SpikeDot(v, v, h % e.dim, c);
    DotSelf(v);
    assert SumSq(v) == 1.0;
    assert Sq(1.0) == 1.0;
    RootUnique(e.sqrt, 1.0);
    ScaledByOne(v);
  }

  /**
    Two words: hashes with different residues are orthogonal; with equal residues they score one
    when their top bits agree, and minus one when they do not.
    */
  lemma TwoWords(e: Embedder, s: string, t: string, a: string, b: string)
    requires e.Valid() && Tokens(e, s) == [a] && Tokens(e, t) == [b]
    ensures var g, h := e.fnv(a) as int, e.fnv(b) as int;
            CosineOf(Embedded(e, s), Embedded(e, t))
            == if g % e.dim != h % e.dim then 0.0 else if g / 0x8000_0000 == h / 0x8000_0000 then 1.0 else -1.0
  {
    var g, h := e.fnv(a) as int, e.fnv(b) as int;
    var c := if g / 0x8000_0000 == 1 then -1.0 else 1.0;
    OneWord(e, s, a);
    OneWord(e, t, b);
    var v, w := Embedded(e, s), Embedded(e, t);
    hide Embedded;
    hide Tokens;
    SpikeDot(v, w, g % e.dim, c);
    assert 0 <= g / 0x8000_0000 <= 1 && 0 <= h / 0x8000_0000 <= 1;
    hide Dot;
    assert w[g % e.dim] == if g % e.dim != h % e.dim then 0.0 else if h / 0x8000_0000 == 1 then -1.0 else 1.0;
    assert Times(c, 0.0) == 0.0 && Times(c, 1.0) == c && Times(c, -1.0) == -c;
  }

  /** The words of a text that count are those of at least two bytes. */
  lemma TokensAre(e: Embedder, text: string, w: string)
    ensures w in Tokens(e, text) <==> w in e.split(text) && |w| >= 2
  {
    FilterElements(e.split(text), LongEnough);
  }

  /** Vectors of different lengths have nothing to do with each other. */
  lemma OtherLength(a: Vec, b: Vec)
    requires |a| != |b|
    ensures CosineOf(a, b) == 0.0
  {
  }
}
