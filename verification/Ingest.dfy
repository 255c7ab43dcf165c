/**
  The bounded buffer between ingest and storage.
  */
module Buffers {
  import opened Model

  /** A bounded channel of entries, with the history of all it ever accepted. */
  class Buffer {
    const cap: nat
    var ch: seq<LogEntry>
    var closed: bool
    var accepted: nat
    var shed: nat
    ghost var history: seq<LogEntry>

    ghost predicate Valid()
      reads this
    {
      |ch| <= cap && accepted == |history| && |ch| <= |history| && ch == history[|history| - |ch|..]
    }

    constructor (size: nat)
      ensures Valid() && cap == size && ch == [] && history == [] && !closed && shed == 0
    {
      cap := size;
      ch, closed, accepted, shed := [], false, 0, 0;
      history := [];
    }

    /** Never blocks: a full buffer refuses. (Publishing on a closed channel panics in Go.) */
    method Publish(e: LogEntry) returns (ok: bool)
      requires Valid() && !closed
      modifies this
      ensures Valid() && !closed
      ensures ok == (|old(ch)| < cap)
      ensures ok ==> ch == old(ch) + [e] && history == old(history) + [e] && shed == old(shed)
      ensures !ok ==> ch == old(ch) && history == old(history) && shed == old(shed) + 1
    {
      ok := |ch| < cap;
      if ok {
        ch := ch + [e];
        history := history + [e];
        accepted := accepted + 1;
      } else {
        shed := shed + 1;
      }
    }

    method Receive() returns (e: LogEntry)
      requires Valid() && ch != []
      modifies this`ch
      ensures Valid() && old(ch) == [e] + ch
    {
      e := ch[0];
      ch := ch[1..];
    }

    method Close()
      requires Valid() && !closed
      modifies this`closed
      ensures Valid() && closed
    {
      closed := true;
    }
  }
}

/**
  The ingest hot path from validated, decoded entries to the buffer.
  */
module Ingest {
  import opened Buffers
  import opened Model
  import opened Redaction

  datatype Response = BadRequest | Overloaded | Accepted(accepted: nat, shed: nat)

  /** What is published for a valid entry: the caller's tenant, a time stamp, everything redacted. */
  function Prepared(rules: Rules, tenant: string, now: Instant, e: LogEntry): LogEntry {
    RedactedEntry(rules, e.(tenant := tenant, timestamp := if e.timestamp == ZERO_TIME then now else e.timestamp))
  }

  method Prepare(rules: Rules, tenant: string, now: Instant, entry: LogEntry) returns (e: LogEntry)
    ensures e == Prepared(rules, tenant, now, entry)
  {
    e := entry.(tenant := tenant);
    if e.timestamp == ZERO_TIME {
      e := e.(timestamp := now);
    }
    var redacted, _ := Redact(rules, e);
    e := redacted;
  }

  /** How many entries come before the first invalid one. */
  function ValidPrefix(entries: seq<LogEntry>): (n: nat)
    ensures n <= |entries| && forall i :: 0 <= i < n ==> entries[i].Validates()
    ensures n < |entries| ==> !entries[n].Validates()
  {
    if entries == [] || !entries[0].Validates() then 0 else 1 + ValidPrefix(entries[1..])
  }

  /** What the clock reads when an entry's turn has come. */
  type Clock = nat -> Instant

  /** Those entries, prepared. */
  function Offered(rules: Rules, tenant: string, clock: Clock, entries: seq<LogEntry>): (o: seq<LogEntry>)
    ensures |o| == ValidPrefix(entries)
    ensures forall i :: 0 <= i < |o| ==> o[i] == Prepared(rules, tenant, clock(i), entries[i])
  {
    seq(ValidPrefix(entries),
        i requires 0 <= i < ValidPrefix(entries) => Prepared(rules, tenant, clock(i), entries[i]))
  }

  /** How many of `n` entries fit. */
  function Fitting(n: nat, room: nat): nat {
    if n <= room then n else room
  }

  method Serve(rules: Rules, tenant: string, entries: seq<LogEntry>, clock: Clock, buf: Buffer)
    returns (r: Response)
    requires buf.Valid() && !buf.closed
    modifies buf
    ensures buf.Valid() && !buf.closed
    ensures var o := Offered(rules, tenant, clock, entries);
            var n := Fitting(|o|, buf.cap - |old(buf.ch)|);
            && buf.history == old(buf.history) + o[..n]
            && buf.ch == old(buf.ch) + o[..n]
            && buf.shed == old(buf.shed) + |o| - n
            && r == if |o| < |entries| then BadRequest
                    else if n == 0 && |o| > 0 then Overloaded else Accepted(n, |o| - n)
  {
    var accepted, shed := 0, 0;
    hide Prepared;
    hide Offered;
    hide ValidPrefix;
    ghost var o := Offered(rules, tenant, clock, entries);
    for i := 0 to |entries|
      invariant buf.Valid() && !buf.closed
      invariant accepted + shed == i <= |o| && accepted == Fitting(i, buf.cap - |old(buf.ch)|)
      invariant buf.history == old(buf.history) + o[..accepted]
      invariant buf.ch == old(buf.ch) + o[..accepted]
      invariant buf.shed == old(buf.shed) + shed
    {
      var e := entries[i];
      if !e.Validates() {
        return BadRequest;
      }
      e := Prepare(rules, tenant, clock(i), e);
      assert e == o[i];
      var ok := buf.Publish(e);
      if !ok {
        shed := shed + 1;
        continue;
      }
      accepted := accepted + 1;
      assert o[..accepted] == o[..accepted - 1] + [o[accepted - 1]];
    }
    if accepted == 0 && shed > 0 {
      return Overloaded;
    }
    return Accepted(accepted, shed);
  }

  /**
    Whatever is published is the caller's, redacted, free of secret fields, and not empty; what
    is neither redacted nor assigned is as the client sent it.
    */
  lemma PreparedSafe(rules: Rules, tenant: string, now: Instant, e: LogEntry)
    requires rules.Faithful() && e.Validates()
    ensures var p := Prepared(rules, tenant, now, e);
            && p.tenant == tenant && p.service == e.service != "" && p.redacted && p.message != ""
            && Clean(rules, p.message)
            && p.timestamp == (if e.timestamp == ZERO_TIME then now else e.timestamp)
            && p == e.(tenant := tenant, timestamp := p.timestamp, message := p.message, attrs := p.attrs,
                       redacted := true)
            && p.attrs.Keys == e.attrs.Keys
  {
    var stamped := e.(tenant := tenant, timestamp := if e.timestamp == ZERO_TIME then now else e.timestamp);
    RedactedEntryClean(rules, stamped);
  }
}
