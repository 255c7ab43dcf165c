/**
  The hash-chained audit log: its records, their serialisation, and what the chain
  does and does not detect.

  SHA-256 with hex encoding is a parameter `sha`. Where a property needs it, the two
  facts used about it are stated as hypotheses: it has no collisions, and no `|`
  occurs in its output.
  */
module Audit {
  import opened Text

  type Hash = string -> string

  /** `at` is the record's time as UnixNano. */
  datatype Record = Record(
    seqNo: nat, tenant: string, actor: string, action: string,
    resource: string, at: int, prevHash: string, hash: string)

  const GENESIS_TEXT := "sentinellog-audit-genesis"

  const BAR := '|'

  function Genesis(sha: Hash): string {
    sha(GENESIS_TEXT)
  }

  /** The middle of a record's text: four caller-supplied strings joined by bars. */
  function Body(r: Record): string {
    r.tenant + [BAR] + (r.actor + [BAR] + (r.action + [BAR] + r.resource))
  }

  /** The text that is hashed: `%d|%s|%s|%s|%s|%d|%s`. */
  function Serialize(r: Record): string {
    Dec(r.seqNo) + [BAR] + (Body(r) + [BAR] + DecInt(r.at) + [BAR] + r.prevHash)
  }

  function HashRecord(sha: Hash, r: Record): string {
    sha(Serialize(r))
  }

  ghost predicate CollisionFree(sha: Hash) {
    forall x, y :: sha(x) == sha(y) ==> x == y
  }

  ghost predicate BarFreeOutput(sha: Hash) {
    forall x :: Free(sha(x), BAR)
  }

  /** The hash a chain ends in. */
  function HeadOf(sha: Hash, records: seq<Record>): string {
    if records == [] then Genesis(sha) else records[|records| - 1].hash
  }

  /** Record `i` points at its predecessor and carries its own hash. */
  predicate Intact(sha: Hash, records: seq<Record>, i: nat)
    requires i < |records|
  {
    && records[i].prevHash == HeadOf(sha, records[..i])
    && records[i].hash == HashRecord(sha, records[i])
  }

  predicate Verifies(sha: Hash, records: seq<Record>) {
    forall i :: 0 <= i < |records| ==> Intact(sha, records, i)
  }

  class Log {
    const sha: Hash
    var records: seq<Record>
    var lastHash: string
    var count: nat

    /** What every sequence of appends keeps. */
    ghost predicate Valid()
      reads this
    {
      && Verifies(sha, records)
      && lastHash == HeadOf(sha, records)
      && count == |records|
      && forall i :: 0 <= i < |records| ==> records[i].seqNo == i + 1
    }

    constructor (sha: Hash)
      ensures Valid() && this.sha == sha && records == []
    {
      this.sha := sha;
      records, lastHash, count := [], Genesis(sha), 0;
    }

    /** Adds one record at the end; `now` is the clock reading. */
    method Append(tenant: string, actor: string, action: string, resource: string, now: int)
      returns (r: Record)
      requires Valid()
      modifies this
      ensures Valid()
      ensures records == old(records) + [r]
      ensures (r.tenant, r.actor, r.action, r.resource, r.at) == (tenant, actor, action, resource, now)
      ensures r.prevHash == old(lastHash) && lastHash == r.hash
    {
      count := count + 1;
      r := Record(count, tenant, actor, action, resource, now, lastHash, "");
      r := r.(hash := HashRecord(sha, r));
      lastHash := r.hash;
      AppendIntact(sha, records, r);
      records := records + [r];
    }

    /**
      Says whether the chain as it now stands is intact, and otherwise the number of the
      first record that is not. Nothing is required: the records may have been altered.
      */
    method Verify() returns (ok: bool, at: nat)
      ensures ok <==> Verifies(sha, records)
      ensures ok ==> at == 0
      ensures !ok ==> exists i ::
                && 0 <= i < |records| && at == records[i].seqNo && !Intact(sha, records, i)
                && forall j :: 0 <= j < i ==> Intact(sha, records, j)
    {
      var prev := Genesis(sha);
      for i := 0 to |records|
        invariant prev == HeadOf(sha, records[..i])
        invariant forall j :: 0 <= j < i ==> Intact(sha, records, j)
      {
        var r := records[i];
        if r.prevHash != prev {
          assert !Intact(sha, records, i);
          return false, r.seqNo;
        }
        if r.hash != HashRecord(sha, r) {
          assert !Intact(sha, records, i);
          return false, r.seqNo;
        }
        prev := r.hash;
        assert records[..i + 1][i] == r;
      }
      return true, 0;
    }

    /** On a log that only `Append` has touched, the head is the last hash of the chain. */
    method Head() returns (h: string)
      requires Valid()
      ensures h == HeadOf(sha, records)
    {
      h := lastHash;
    }
  }

  lemma AppendIntact(sha: Hash, records: seq<Record>, r: Record)
    requires Verifies(sha, records)
    requires r.prevHash == HeadOf(sha, records)
    requires r.hash == HashRecord(sha, r)
    ensures Verifies(sha, records + [r])
  {
    var all := records + [r];
    forall i | 0 <= i < |all|
      ensures Intact(sha, all, i)
    {
      assert all[..i] == records[..i];
      if i < |records| {
        assert Intact(sha, records, i);
      } else {
        assert records[..i] == records;
      }
    }
  }

  /** The chain alone does not notice a missing tail. */
  lemma PrefixVerifies(sha: Hash, records: seq<Record>, n: nat)
    requires Verifies(sha, records) && n <= |records|
    ensures Verifies(sha, records[..n])
  {
    forall i | 0 <= i < n
      ensures Intact(sha, records[..n], i)
    {
      assert records[..n][..i] == records[..i];
      assert Intact(sha, records, i);
    }
  }

  // ----- the serialisation -----

  /** The hashed text: number, tenant, actor, action, resource, time and predecessor's hash, with bars between. */
  lemma SerializeJoins(r: Record)
    ensures Serialize(r)
         == Joined([Dec(r.seqNo), r.tenant, r.actor, r.action, r.resource, DecInt(r.at), r.prevHash], BAR)
  {
    var five := r.resource + [BAR] + (DecInt(r.at) + [BAR] + r.prevHash);
    JoinedTwo(DecInt(r.at), r.prevHash, BAR);
    var x, y := DecInt(r.at), r.prevHash;
    JoinedMore(r.resource, [x, y], BAR);
    JoinedMore(r.action, [r.resource, DecInt(r.at), r.prevHash], BAR);
    JoinedMore(r.actor, [r.action, r.resource, DecInt(r.at), r.prevHash], BAR);
    JoinedMore(r.tenant, [r.actor, r.action, r.resource, DecInt(r.at), r.prevHash], BAR);
    JoinedMore(Dec(r.seqNo), [r.tenant, r.actor, r.action, r.resource, DecInt(r.at), r.prevHash], BAR);
    hide Joined;
    hide Dec;
    hide DecInt;
    BodyThen(r, [BAR] + DecInt(r.at) + [BAR] + r.prevHash);
    assert Body(r) + [BAR] + DecInt(r.at) + [BAR] + r.prevHash == Body(r) + ([BAR] + DecInt(r.at) + [BAR] + r.prevHash);
    assert five == r.resource + ([BAR] + DecInt(r.at) + [BAR] + r.prevHash);
  }

  lemma BodyThen(r: Record, tail: string)
    ensures Body(r) + tail == r.tenant + [BAR] + (r.actor + [BAR] + (r.action + [BAR] + (r.resource + tail)))
  {
  }

  /** The number, the time and the predecessor's hash can always be read back. */
  lemma FrameInjective(a: Record, b: Record)
    requires Free(a.prevHash, BAR) && Free(b.prevHash, BAR)
    requires Serialize(a) == Serialize(b)
    ensures a.seqNo == b.seqNo && Body(a) == Body(b) && a.at == b.at && a.prevHash == b.prevHash
  {
    DecFree(a.seqNo, BAR);
    DecFree(b.seqNo, BAR);
    SplitFirst(Dec(a.seqNo), Body(a) + [BAR] + DecInt(a.at) + [BAR] + a.prevHash,
               Dec(b.seqNo), Body(b) + [BAR] + DecInt(b.at) + [BAR] + b.prevHash, BAR);
    DecInjective(a.seqNo, b.seqNo);
    SplitLast(Body(a) + [BAR] + DecInt(a.at), a.prevHash, Body(b) + [BAR] + DecInt(b.at), b.prevHash, BAR);
    DecFree(a.at, BAR);
    DecFree(b.at, BAR);
    SplitLast(Body(a), DecInt(a.at), Body(b), DecInt(b.at), BAR);
    DecIntInjective(a.at, b.at);
  }

  /** Tenant, actor and action without bars; the resource is free text. */
  predicate Delimited(r: Record) {
    Free(r.tenant, BAR) && Free(r.actor, BAR) && Free(r.action, BAR)
  }

  /** No bar in any of the four strings. */
  predicate BarFree(r: Record) {
    Delimited(r) && Free(r.resource, BAR)
  }

  lemma BodyInjective(a: Record, b: Record)
    requires Delimited(a) && Delimited(b) && Body(a) == Body(b)
    ensures (a.tenant, a.actor, a.action, a.resource) == (b.tenant, b.actor, b.action, b.resource)
  {
    SplitFirst(a.tenant, a.actor + [BAR] + (a.action + [BAR] + a.resource),
               b.tenant, b.actor + [BAR] + (b.action + [BAR] + b.resource), BAR);
    SplitFirst(a.actor, a.action + [BAR] + a.resource, b.actor, b.action + [BAR] + b.resource, BAR);
    SplitFirst(a.action, a.resource, b.action, b.resource, BAR);
  }

  /** Among delimited records the text determines every field. */
  lemma SerializeInjective(a: Record, b: Record)
    requires Delimited(a) && Delimited(b)
    requires Free(a.prevHash, BAR) && Free(b.prevHash, BAR)
    requires Serialize(a) == Serialize(b)
    ensures a == b.(hash := a.hash)
  {
    FrameInjective(a, b);
    BodyInjective(a, b);
  }

  /** `b` is another way to read the text of `a`. */
  ghost predicate SameReading(a: Record, b: Record) {
    Serialize(a) == Serialize(b) && Free(b.prevHash, BAR) && a.hash == b.hash
  }

  lemma Regroup(r: Record, s: Record)
    requires s == r.(tenant := s.tenant, actor := s.actor, action := s.action, resource := s.resource)
    requires Free(r.prevHash, BAR) && Body(r) == Body(s)
    ensures SameReading(r, s) && s.prevHash == r.prevHash
  {
  }

  /** A record with a bar in one of its four strings has a second reading. */
  lemma SecondReading(r: Record) returns (s: Record)
    requires Free(r.prevHash, BAR)
    requires !BarFree(r)
    ensures SameReading(r, s) && s.prevHash == r.prevHash && s != r
  {
    if !Free(r.tenant, BAR) {
      var x, y := SplitAt(r.tenant, BAR);
      s := r.(tenant := x, actor := y, action := r.actor, resource := r.action + [BAR] + r.resource);
      assert |s.tenant| < |r.tenant|;
    } else if !Free(r.actor, BAR) {
      var x, y := SplitAt(r.actor, BAR);
      s := r.(actor := x, action := y, resource := r.action + [BAR] + r.resource);
      assert |s.actor| < |r.actor|;
    } else if !Free(r.action, BAR) {
      var x, y := SplitAt(r.action, BAR);
      s := r.(action := x, resource := y + [BAR] + r.resource);
      assert |s.action| < |r.action|;
    } else {
      var x, y := SplitAt(r.resource, BAR);
      s := r.(tenant := r.tenant + [BAR] + r.actor, actor := r.action, action := x, resource := y);
      assert |s.tenant| > |r.tenant|;
    }
    assert Body(r) == Body(s);
    Regroup(r, s);
  }

  lemma BarFreeReading(r: Record, s: Record)
    requires Free(r.prevHash, BAR) && SameReading(r, s)
    requires BarFree(r)
    ensures s == r
  {
    FrameInjective(r, s);
    BarCount(r.tenant, r.actor + [BAR] + (r.action + [BAR] + r.resource));
    BarCount(r.actor, r.action + [BAR] + r.resource);
    BarCount(r.action, r.resource);
    BarCount(s.tenant, s.actor + [BAR] + (s.action + [BAR] + s.resource));
    BarCount(s.actor, s.action + [BAR] + s.resource);
    BarCount(s.action, s.resource);
    assert Delimited(s);
    BodyInjective(r, s);
  }

  lemma BarCount(x: string, y: string)
    ensures multiset(x + [BAR] + y)[BAR] == multiset(x)[BAR] + 1 + multiset(y)[BAR]
  {
    assert multiset(x + [BAR] + y) == multiset(x) + multiset([BAR]) + multiset(y);
  }

  /**
    When the text of a record has one reading only: exactly when none of its four strings
    contains a bar. Any other record can be regrouped without changing its hash.
    */
  lemma OneReadingIff(r: Record)
    requires Free(r.prevHash, BAR)
    ensures (forall s :: SameReading(r, s) ==> s == r) <==> BarFree(r)
  {
    if BarFree(r) {
      forall s | SameReading(r, s)
        ensures s == r
      {
        BarFreeReading(r, s);
      }
    } else {
      var s := SecondReading(r);
    }
  }

  // ----- tampering -----

  /** Two records with the same text and the same hashes. */
  predicate SameText(a: Record, b: Record) {
    Serialize(a) == Serialize(b) && a.hash == b.hash && a.prevHash == b.prevHash
  }

  /**
    Two chains that verify and end in the same hash have the same length, and record by
    record the same text, number, time and hashes, whatever the strings in them.
    */
  lemma {:induction false} AnchoredTexts(sha: Hash, a: seq<Record>, b: seq<Record>)
    requires CollisionFree(sha) && BarFreeOutput(sha)
    requires Verifies(sha, a) && Verifies(sha, b)
    requires HeadOf(sha, a) == HeadOf(sha, b)
    ensures |a| == |b|
    ensures forall i :: 0 <= i < |a| ==> SameText(a[i], b[i]) && a[i].seqNo == b[i].seqNo && a[i].at == b[i].at
  {
    hide *;
    if a == [] || b == [] {
      HeadIsNotGenesis(sha, a);
      HeadIsNotGenesis(sha, b);
    } else {
      var m, n := |a| - 1, |b| - 1;
      LastRecord(sha, a, b);
      PrefixVerifies(sha, a, m);
      PrefixVerifies(sha, b, n);
      AnchoredTexts(sha, a[..m], b[..n]);
      assert forall i :: 0 <= i < m ==> a[i] == a[..m][i] && b[i] == b[..n][i];
    }
  }

  /** Equal heads mean equal last texts, and so equal heads one record earlier. */
  lemma LastRecord(sha: Hash, a: seq<Record>, b: seq<Record>)
    requires CollisionFree(sha) && BarFreeOutput(sha)
    requires Verifies(sha, a) && Verifies(sha, b) && a != [] && b != []
    requires HeadOf(sha, a) == HeadOf(sha, b)
    ensures var x, y := a[|a| - 1], b[|b| - 1]; SameText(x, y) && x.seqNo == y.seqNo && x.at == y.at
    ensures HeadOf(sha, a[..|a| - 1]) == HeadOf(sha, b[..|b| - 1])
  {
    var m, n := |a| - 1, |b| - 1;
    assert Intact(sha, a, m) && Intact(sha, b, n);
    HeadBarFree(sha, a, m);
    HeadBarFree(sha, b, n);
    FrameInjective(a[m], b[n]);
  }

  /** With bar-free tenants, actors and actions they are the same chain. */
  lemma AnchoredHead(sha: Hash, a: seq<Record>, b: seq<Record>)
    requires CollisionFree(sha) && BarFreeOutput(sha)
    requires Verifies(sha, a) && Verifies(sha, b)
    requires AllDelimited(a) && AllDelimited(b)
    requires HeadOf(sha, a) == HeadOf(sha, b)
    ensures a == b
  {
    AnchoredTexts(sha, a, b);
    forall i | 0 <= i < |a|
      ensures a[i] == b[i]
    {
      PrevBarFree(sha, a, i);
      SerializeInjective(a[i], b[i]);
    }
  }

  predicate AllDelimited(records: seq<Record>) {
    forall i :: 0 <= i < |records| ==> Delimited(records[i])
  }

  lemma PrevBarFree(sha: Hash, records: seq<Record>, i: nat)
    requires BarFreeOutput(sha) && Verifies(sha, records) && i < |records|
    ensures Free(records[i].prevHash, BAR)
  {
    assert Intact(sha, records, i);
    HeadBarFree(sha, records, i);
  }

  /** No other chain that verifies ends in this one's head. */
  ghost predicate OnlyChain(sha: Hash, a: seq<Record>) {
    forall b :: Verifies(sha, b) && HeadOf(sha, b) == HeadOf(sha, a) ==> b == a
  }

  /**
    A head that is kept elsewhere pins down the whole chain, against any other chain
    whatsoever, exactly when no record of it has a bar in its four strings.
    */
  lemma OnlyChainIff(sha: Hash, a: seq<Record>)
    requires CollisionFree(sha) && BarFreeOutput(sha) && Verifies(sha, a)
    ensures OnlyChain(sha, a) <==> forall i :: 0 <= i < |a| ==> BarFree(a[i])
  {
    if forall i :: 0 <= i < |a| ==> BarFree(a[i]) {
      forall b | Verifies(sha, b) && HeadOf(sha, b) == HeadOf(sha, a)
        ensures b == a
      {
        BarFreeChain(sha, a, b);
      }
    } else {
      var k :| 0 <= k < |a| && !BarFree(a[k]);
      OtherChain(sha, a, k);
    }
  }

  lemma BarFreeChain(sha: Hash, a: seq<Record>, b: seq<Record>)
    requires CollisionFree(sha) && BarFreeOutput(sha)
    requires Verifies(sha, a) && Verifies(sha, b) && HeadOf(sha, a) == HeadOf(sha, b)
    requires forall i :: 0 <= i < |a| ==> BarFree(a[i])
    ensures a == b
  {
    AnchoredTexts(sha, a, b);
    forall i | 0 <= i < |a|
      ensures a[i] == b[i]
    {
      PrevBarFree(sha, a, i);
      PrevBarFree(sha, b, i);
      assert BarFree(a[i]);
      BarFreeReading(a[i], b[i]);
    }
  }

  lemma OtherChain(sha: Hash, a: seq<Record>, k: nat)
    requires BarFreeOutput(sha) && Verifies(sha, a)
    requires k < |a| && !BarFree(a[k])
    ensures !OnlyChain(sha, a)
  {
    PrevBarFree(sha, a, k);
    var r := SecondReading(a[k]);
    EditVerifies(sha, a, k, r);
    assert a[k := r] != a && HeadOf(sha, a[k := r]) == HeadOf(sha, a);
  }

  lemma HeadIsNotGenesis(sha: Hash, records: seq<Record>)
    requires CollisionFree(sha) && Verifies(sha, records)
    ensures HeadOf(sha, records) == Genesis(sha) <==> records == []
  {
    if records != [] {
      var n := |records| - 1;
      assert Intact(sha, records, n);
      assert IsDigit(Serialize(records[n])[0]) && !IsDigit(GENESIS_TEXT[0]);
    }
  }

  lemma HeadBarFree(sha: Hash, records: seq<Record>, n: nat)
    requires BarFreeOutput(sha) && Verifies(sha, records) && n <= |records|
    ensures Free(HeadOf(sha, records[..n]), BAR)
  {
    if n > 0 {
      assert Intact(sha, records, n - 1);
      assert records[..n][n - 1] == records[n - 1];
    }
  }

  /**
    Replacing a record that is not the last goes unnoticed exactly when the replacement has
    the same text and keeps both hashes.
    */
  lemma EditVerifiesIff(sha: Hash, records: seq<Record>, k: nat, r: Record)
    requires CollisionFree(sha) && Verifies(sha, records) && k + 1 < |records|
    ensures Verifies(sha, records[k := r])
       <==> && Serialize(r) == Serialize(records[k])
            && r.hash == records[k].hash && r.prevHash == records[k].prevHash
  {
    var was := records[k];
    var edited := records[k := r];
    assert Intact(sha, records, k) && Intact(sha, records, k + 1);
    assert edited[..k] == records[..k];
    assert edited[..k + 1][k] == r && records[..k + 1][k] == was;
    hide Serialize;
    if Verifies(sha, edited) {
      assert Intact(sha, edited, k) && Intact(sha, edited, k + 1);
    }
    if Serialize(r) == Serialize(was) && r.hash == was.hash && r.prevHash == was.prevHash {
      EditVerifies(sha, records, k, r);
    }
  }

  lemma EditVerifies(sha: Hash, records: seq<Record>, k: nat, r: Record)
    requires Verifies(sha, records) && k < |records|
    requires Serialize(r) == Serialize(records[k])
    requires r.hash == records[k].hash && r.prevHash == records[k].prevHash
    ensures Verifies(sha, records[k := r])
  {
    hide Serialize;
    var edited := records[k := r];
    forall i | 0 <= i < |edited|
      ensures Intact(sha, edited, i)
    {
      assert Intact(sha, records, i);
      if i > 0 {
        assert edited[..i][i - 1] == edited[i - 1] && records[..i][i - 1] == records[i - 1];
      }
    }
  }

  /** The chain still verifies after `r` has taken the place of record `k`. */
  ghost predicate Unnoticed(sha: Hash, records: seq<Record>, k: nat, r: Record)
    requires k < |records|
  {
    Verifies(sha, records[k := r])
  }

  /**
    Every alteration of a record that is not the last is noticed exactly when that record
    contains no bar in its four strings.
    */
  lemma TamperEvidentIff(sha: Hash, records: seq<Record>, k: nat)
    requires CollisionFree(sha) && BarFreeOutput(sha)
    requires Verifies(sha, records) && k + 1 < |records|
    ensures (forall r :: Unnoticed(sha, records, k, r) ==> r == records[k])
       <==> BarFree(records[k])
  {
    var was := records[k];
    assert Intact(sha, records, k);
    HeadBarFree(sha, records, k);
    OneReadingIff(was);
    forall r
      ensures Unnoticed(sha, records, k, r) <==> SameReading(was, r)
    {
      EditVerifiesIff(sha, records, k, r);
      if SameReading(was, r) {
        FrameInjective(was, r);
      }
    }
  }

  /** The heads after different numbers of records are different. */
  lemma HeadsDiffer(sha: Hash, records: seq<Record>, i: nat, j: nat)
    requires CollisionFree(sha) && BarFreeOutput(sha) && Verifies(sha, records) && i < j <= |records|
    ensures HeadOf(sha, records[..i]) != HeadOf(sha, records[..j])
  {
    PrefixVerifies(sha, records, i);
    PrefixVerifies(sha, records, j);
    if HeadOf(sha, records[..i]) == HeadOf(sha, records[..j]) {
      AnchoredTexts(sha, records[..i], records[..j]);
    }
  }

  /** Removing records from the middle is always noticed, whatever the strings in the chain. */
  lemma RemovalNoticed(sha: Hash, records: seq<Record>, i: nat, j: nat)
    requires CollisionFree(sha) && BarFreeOutput(sha) && Verifies(sha, records) && i < j < |records|
    ensures !Verifies(sha, records[..i] + records[j..])
  {
    var rest := records[..i] + records[j..];
    HeadsDiffer(sha, records, i, j);
    assert rest[..i] == records[..i] && rest[i] == records[j];
    assert Intact(sha, records, j);
    assert !Intact(sha, rest, i);
  }
}
