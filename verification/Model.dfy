/**
  The types shared by the whole pipeline.
  */
module Model {
  import opened Text

  /** Nanoseconds; `ZERO_TIME` is Go's zero time. */
  type Instant = int

  const ZERO_TIME: Instant := 0

  datatype AttrValue = Str(text: string) | Other(code: int)

  datatype LogEntry = LogEntry(
    tenant: string, timestamp: Instant, service: string, level: string,
    traceId: string, message: string, attrs: map<string, AttrValue>, redacted: bool)
  {
    /** The required client-supplied fields are there. */
    predicate Validates() {
      service != "" && message != ""
    }
  }

  datatype StoredEntry = StoredEntry(id: nat, entry: LogEntry)

  const NUL := '\0'

  /** What the content hash is taken over. */
  function HashInput(e: LogEntry): string {
    e.tenant + [NUL] + (e.service + [NUL] + e.message)
  }

  /** SHA-256 cut to eight bytes and written in hex: a parameter. */
  type Digest = string -> string

  function ContentHash(digest: Digest, e: LogEntry): string {
    digest(HashInput(e))
  }

  ghost predicate CollisionFree(digest: Digest) {
    forall x, y :: digest(x) == digest(y) ==> x == y
  }

  const LOG_PREFIX := "log:"

  function LogRef(id: nat): string {
    LOG_PREFIX + Dec(id)
  }

  /** Neither name is the other followed by NUL and more. */
  predicate NamesApart(t: string, u: string) {
    t == u || (!(t + [NUL] <= u) && !(u + [NUL] <= t))
  }

  lemma NulInside(t: string, u: string)
    ensures t + [NUL] <= u ==> !Free(u, NUL)
  {
    if t + [NUL] <= u {
      assert u[|t|] == (t + [NUL])[|t|];
    }
  }

  /** Names without NUL always are apart. */
  lemma PlainNamesApart(t: string, u: string)
    ensures Free(t, NUL) && Free(u, NUL) ==> NamesApart(t, u)
  {
    NulInside(t, u);
    NulInside(u, t);
  }

  /** Texts that begin with different names followed by NUL differ, if the names are apart. */
  lemma SplitApart(t: string, x: string, u: string, y: string)
    requires t + [NUL] + x == u + [NUL] + y
    ensures NamesApart(t, u) ==> t == u && x == y
  {
    var s, v, w := t + [NUL] + x, t + [NUL], u + [NUL];
    assert s[..|v|] == v && s[..|w|] == w;
    if |v| < |w| {
      assert u[..|v|] == w[..|v|] == v;
    } else if |w| < |v| {
      assert t[..|w|] == v[..|w|] == w;
    } else {
      assert t == v[..|t|] && u == w[..|t|];
      assert x == s[|v|..] && y == s[|w|..];
    }
  }

  /** Entries of tenants whose names are apart only hash alike within one tenant. */
  lemma EqualHashes(digest: Digest, d: LogEntry, e: LogEntry)
    requires CollisionFree(digest) && NamesApart(d.tenant, e.tenant)
    requires ContentHash(digest, d) == ContentHash(digest, e)
    ensures d.tenant == e.tenant
    ensures NamesApart(d.service, e.service) ==> d.service == e.service && d.message == e.message
  {
    assert d.tenant + [NUL] + (d.service + [NUL] + d.message) == e.tenant + [NUL] + (e.service + [NUL] + e.message);
    SplitApart(d.tenant, d.service + [NUL] + d.message, e.tenant, e.service + [NUL] + e.message);
    if NamesApart(d.service, e.service) {
      SplitApart(d.service, d.message, e.service, e.message);
    }
  }

  lemma LogRefInjective(i: nat, j: nat)
    requires LogRef(i) == LogRef(j)
    ensures i == j
  {
    assert LogRef(i)[4..] == Dec(i) && LogRef(j)[4..] == Dec(j);
    DecInjective(i, j);
  }

  lemma LogRefNulFree(id: nat)
    ensures Free(LogRef(id), NUL)
  {
    DecFree(id, NUL);
  }
}
