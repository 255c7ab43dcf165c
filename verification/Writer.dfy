/**
  The batch writer: a select loop between the buffer and the store.

  What other goroutines do, and which case a select takes, is a sequence of turns. The loop is
  proved to compute `After`; what it achieves is proved about that function.
  */
module Writer {
  import opened Buffers
  import opened Filters
  import opened LogStore
  import opened Model

  /** Which ready case a select takes. */
  datatype Chosen = Cancelled | Incoming | Ticked

  /**
    One turn of the loop: what other goroutines publish before it, whether they then close
    the channel, the case that is taken, and what others still publish between a decision to
    leave and the last write. A draining loop looks at the channel only, whatever is chosen.
    */
  datatype Turn = Turn(arrivals: seq<LogEntry>, closing: bool, chosen: Chosen, late: seq<LogEntry>)

  datatype Phase = Looping | Draining | Gone

  /** Channel, everything it ever accepted, store, batch, and where the loop stands. */
  datatype Loop = Loop(
    ch: seq<LogEntry>, closed: bool, history: seq<LogEntry>, log: Log, batch: seq<LogEntry>, phase: Phase)

  function AtLeastOne(n: nat): nat {
    if n == 0 then 1 else n
  }

  /** How many of `n` entries are accepted by a channel that holds `held`. */
  function Accepted(cap: nat, held: nat, closed: bool, n: nat): (k: nat)
    ensures k <= n
  {
    if closed || held >= cap then 0 else if held + n <= cap then n else cap - held
  }

  function Arrived(cap: nat, s: Loop, arrivals: seq<LogEntry>, closing: bool): Loop {
    var more := arrivals[..Accepted(cap, |s.ch|, s.closed, |arrivals|)];
    s.(ch := s.ch + more, history := s.history + more, closed := s.closed || closing)
  }

  function Taken(size: nat, s: Loop): Loop
    requires s.ch != []
  {
    var batch := if s.ch[0].redacted then s.batch + [s.ch[0]] else s.batch;
    if |batch| >= size then s.(ch := s.ch[1..], log := Persist(s.log, batch), batch := [])
    else s.(ch := s.ch[1..], batch := batch)
  }

  function Written(s: Loop): Loop {
    s.(log := Persist(s.log, s.batch), batch := [])
  }

  function Left(cap: nat, s: Loop, late: seq<LogEntry>): Loop {
    Written(Arrived(cap, s, late, false)).(phase := Gone)
  }

  function Drained(cap: nat, size: nat, s: Loop, late: seq<LogEntry>): Loop {
    if s.ch == [] then Left(cap, s, late) else Taken(size, s).(phase := Draining)
  }

  function Acted(cap: nat, size: nat, s: Loop, turn: Turn): Loop {
    if s.phase == Draining || turn.chosen == Cancelled then Drained(cap, size, s, turn.late)
    else if turn.chosen == Ticked then Written(s)
    else if s.ch != [] then Taken(size, s)
    else if s.closed then Left(cap, s, turn.late)
    else s
  }

  function Step(cap: nat, size: nat, s: Loop, turn: Turn): Loop {
    if s.phase == Gone then s else Acted(cap, size, Arrived(cap, s, turn.arrivals, turn.closing), turn)
  }

  function After(cap: nat, size: nat, s: Loop, turns: seq<Turn>): Loop {
    if turns == [] then s
    else Step(cap, size, After(cap, size, s, turns[..|turns| - 1]), turns[|turns| - 1])
  }

  class BatchWriter {
    const store: MemStore
    const size: nat

    constructor (store: MemStore, size: nat)
      ensures this.store == store && this.size == size
    {
      this.store, this.size := store, size;
    }

    ghost function View(input: Buffer, batch: seq<LogEntry>, phase: Phase): Loop
      reads input, store
    {
      Loop(input.ch, input.closed, input.history, store.entries, batch, phase)
    }

    /** Keeps the batch equal to the redacted part of what was taken from the channel. */
    method AppendGuarded(batch: seq<LogEntry>, e: LogEntry) returns (r: seq<LogEntry>)
      ensures batch <= r && Redacted(r) == Redacted(batch + [e])
      ensures AllRedacted(batch) ==> AllRedacted(r) && r == Redacted(batch + [e])
    {
      RedactedNext(batch, e);
      if AllRedacted(batch) {
        NothingDropped(batch);
      }
      hide Redacted;
      if !e.redacted {
        return batch;
      }
      return batch + [e];
    }

    method Flush(batch: seq<LogEntry>) returns (rest: seq<LogEntry>)
      requires store.Valid()
      modifies store
      ensures store.Valid() && store.entries == Persist(old(store.entries), batch) && rest == []
    {
      if |batch| == 0 {
        return [];
      }
      store.WriteBatch(batch);
      return [];
    }

    /** Takes one entry from the channel into the batch, and flushes a batch that is full. */
    method Take(input: Buffer, batch: seq<LogEntry>, ghost phase: Phase) returns (rest: seq<LogEntry>)
      requires input.Valid() && store.Valid() && AllRedacted(batch) && input.ch != []
      modifies input`ch, store
      ensures input.Valid() && store.Valid() && AllRedacted(rest)
      ensures View(input, rest, phase) == Taken(size, old(View(input, batch, phase)))
    {
      hide Redacted;
      hide Persist;
      var e := input.Receive();
      assert input.ch == old(input.ch)[1..];
      rest := AppendGuarded(batch, e);
      RedactedNext(batch, e);
      NothingDropped(batch);
      assert rest == if e.redacted then batch + [e] else batch;
      if |rest| >= size {
        rest := Flush(rest);
      }
    }

    /** Runs until it leaves or the given turns are over. */
    method Run(input: Buffer, turns: seq<Turn>) returns (phase: Phase, batch: seq<LogEntry>)
      requires input.Valid() && store.Valid()
      modifies input, store
      ensures input.Valid() && store.Valid()
      ensures View(input, batch, phase) == After(input.cap, size, old(View(input, [], Looping)), turns)
      ensures old(Whole(size, View(input, [], Looping))) ==>
                && Whole(size, View(input, batch, phase))
                && (phase == Gone ==> exists n :: n >= |old(input.history)| && Settled(View(input, batch, phase), n))
    {
      batch := [];
      ghost var start := View(input, [], Looping);
      RunAchieves(input.cap, size, start, turns);
      hide Persist;
      hide Acted;
      hide Arrived;
      hide Taken;
      hide Left;
      hide Whole;
      hide Settled;
      var i := 0;
      assert After(input.cap, size, start, turns[..0]) == start && AllRedacted([]);
      hide After;
      hide Step;
      hide AllRedacted;
      while i < |turns|
        invariant 0 <= i <= |turns| && input.Valid() && store.Valid() && AllRedacted(batch)
        invariant View(input, batch, Looping) == After(input.cap, size, start, turns[..i])
      {
        var turn := turns[i];
        TurnBegins(input.cap, size, start, turns, i);
        Arrive(input, turn.arrivals, turn.closing, batch, Looping);
        i := i + 1;
        match turn.chosen {
          case Cancelled =>
            ActedDrains(input.cap, size, View(input, batch, Looping), turn);
            phase, batch := Drain(input, batch, turns, i, start);
            return phase, batch;
          case Incoming =>
            ActedOnIncoming(input.cap, size, View(input, batch, Looping), turn);
            if input.ch != [] {
              batch := Take(input, batch, Looping);
            } else if input.closed {
              batch := FlushLast(input, batch, turn.late, Looping);
              GoneStays(input.cap, size, start, turns, i);
              return Gone, batch;
            }
          case Ticked =>
            ActedOnTick(input.cap, size, View(input, batch, Looping), turn);
            batch := Flush(batch);
        }
      }
      assert turns[..i] == turns;
      return Looping, batch;
    }

    /** Takes what the channel still holds, until it is found empty or the given turns are over. */
    method Drain(input: Buffer, taken: seq<LogEntry>, turns: seq<Turn>, from: nat, ghost start: Loop)
      returns (phase: Phase, batch: seq<LogEntry>)
      requires input.Valid() && store.Valid() && AllRedacted(taken) && 0 < from <= |turns|
      requires After(input.cap, size, start, turns[..from])
            == Drained(input.cap, size, View(input, taken, Draining), turns[from - 1].late)
      modifies input, store
      ensures input.Valid() && store.Valid()
      ensures View(input, batch, phase) == After(input.cap, size, start, turns)
    {
      hide Persist;
      hide Acted;
      hide Arrived;
      hide Taken;
      hide Left;
      hide After;
      hide Step;
      hide AllRedacted;
      var i := from;
      batch := taken;
      while true
        invariant 0 < i <= |turns| && input.Valid() && store.Valid() && AllRedacted(batch)
        invariant After(input.cap, size, start, turns[..i])
               == Drained(input.cap, size, View(input, batch, Draining), turns[i - 1].late)
        decreases |turns| - i
      {
        if input.ch == [] {
          // closed, or only momentarily empty: the loop ends in both cases
          batch := FlushLast(input, batch, turns[i - 1].late, Draining);
          GoneStays(input.cap, size, start, turns, i);
          return Gone, batch;
        }
        batch := Take(input, batch, Draining);
        TakenPhase(size, After(input.cap, size, start, turns[..i]));
        assert View(input, batch, Draining) == After(input.cap, size, start, turns[..i]);
        if i == |turns| {
          assert turns[..i] == turns;
          return Draining, batch;
        }
        TurnBegins(input.cap, size, start, turns, i);
        Arrive(input, turns[i].arrivals, turns[i].closing, batch, Draining);
        ActedDrains(input.cap, size, View(input, batch, Draining), turns[i]);
        i := i + 1;
      }
    }

    /** The last write, after the channel was found empty; what arrives in between is left behind. */
    method FlushLast(input: Buffer, batch: seq<LogEntry>, late: seq<LogEntry>, ghost phase: Phase)
      returns (rest: seq<LogEntry>)
      requires input.Valid() && store.Valid()
      modifies input, store
      ensures input.Valid() && store.Valid()
      ensures View(input, rest, Gone) == Left(input.cap, old(View(input, batch, phase)), late)
    {
      hide Persist;
      Arrive(input, late, false, batch, phase);
      rest := Flush(batch);
    }

    /** What other goroutines do to the channel meanwhile. (Publishing on a closed channel panics in Go.) */
    method Arrive(input: Buffer, arrivals: seq<LogEntry>, closing: bool, ghost batch: seq<LogEntry>, ghost phase: Phase)
      requires input.Valid()
      modifies input
      ensures input.Valid()
      ensures View(input, batch, phase) == Arrived(input.cap, old(View(input, batch, phase)), arrivals, closing)
    {
      if input.closed {
        assert input.ch + [] == input.ch && input.history + [] == input.history;
        return;
      }
      var n := 0;
      for k := 0 to |arrivals|
        invariant input.Valid() && !input.closed
        invariant n == Accepted(input.cap, |old(input.ch)|, false, k)
        invariant input.ch == old(input.ch) + arrivals[..n] && input.history == old(input.history) + arrivals[..n]
      {
        var ok := input.Publish(arrivals[k]);
        if ok {
          assert arrivals[..n + 1] == arrivals[..n] + [arrivals[k]];
          n := n + 1;
        }
      }
      if closing {
        input.Close();
      }
    }
  }

  lemma TakenPhase(size: nat, s: Loop)
    ensures s.ch != [] ==> Taken(size, s).phase == s.phase
  {
    hide Persist;
  }

  lemma AfterNext(cap: nat, size: nat, s: Loop, turns: seq<Turn>, i: nat)
    requires i < |turns|
    ensures After(cap, size, s, turns[..i + 1]) == Step(cap, size, After(cap, size, s, turns[..i]), turns[i])
  {
    assert turns[..i + 1][..i] == turns[..i];
  }

  lemma TurnBegins(cap: nat, size: nat, s: Loop, turns: seq<Turn>, i: nat)
    requires i < |turns| && After(cap, size, s, turns[..i]).phase != Gone
    ensures After(cap, size, s, turns[..i + 1])
         == var t := Arrived(cap, After(cap, size, s, turns[..i]), turns[i].arrivals, turns[i].closing);
            Acted(cap, size, t, turns[i])
  {
    AfterNext(cap, size, s, turns, i);
    hide After;
    hide Acted;
    hide Arrived;
  }

  lemma ActedDrains(cap: nat, size: nat, s: Loop, turn: Turn)
    requires s.phase == Draining || turn.chosen == Cancelled
    ensures Acted(cap, size, s, turn) == Drained(cap, size, s.(phase := Draining), turn.late)
  {
    hide Persist;
  }

  lemma ActedOnIncoming(cap: nat, size: nat, s: Loop, turn: Turn)
    requires s.phase == Looping && turn.chosen == Incoming
    ensures Acted(cap, size, s, turn)
         == if s.ch != [] then Taken(size, s) else if s.closed then Left(cap, s, turn.late) else s
  {
  }

  lemma ActedOnTick(cap: nat, size: nat, s: Loop, turn: Turn)
    requires s.phase == Looping && turn.chosen == Ticked
    ensures Acted(cap, size, s, turn) == Written(s)
  {
  }

  /** After the exit nothing more happens. */
  lemma {:induction false} GoneStays(cap: nat, size: nat, s: Loop, turns: seq<Turn>, i: nat)
    requires i <= |turns| && After(cap, size, s, turns[..i]).phase == Gone
    ensures After(cap, size, s, turns) == After(cap, size, s, turns[..i])
    decreases |turns| - i
  {
    if i == |turns| {
      assert turns[..i] == turns;
    } else {
      AfterNext(cap, size, s, turns, i);
      GoneStays(cap, size, s, turns, i + 1);
    }
  }

  // ----- nothing is lost, doubled or reordered -----

  /** Stored, batched and buffered entries are together what was accepted, without what the guard drops. */
  predicate Whole(size: nat, s: Loop) {
    && AllRedacted(s.batch) && |s.batch| < AtLeastOne(size)
    && Contents(s.log) + s.batch + Redacted(s.ch) == Redacted(s.history)
    && (s.phase == Gone ==> s.batch == [])
  }

  lemma {:induction false} RedactedConcat(a: seq<LogEntry>, b: seq<LogEntry>)
    ensures Redacted(a + b) == Redacted(a) + Redacted(b)
  {
    FilterConcat(a, b, IsRedacted);
  }

  lemma ArrivedWhole(cap: nat, size: nat, s: Loop, arrivals: seq<LogEntry>, closing: bool)
    requires Whole(size, s)
    ensures Whole(size, Arrived(cap, s, arrivals, closing))
  {
    var more := arrivals[..Accepted(cap, |s.ch|, s.closed, |arrivals|)];
    RedactedConcat(s.ch, more);
    RedactedConcat(s.history, more);
    hide Redacted;
    hide Contents;
  }

  lemma WrittenWhole(size: nat, s: Loop)
    requires Whole(size, s)
    ensures Whole(size, Written(s)) && Contents(Written(s).log) == Contents(s.log) + s.batch
  {
    PersistContents(s.log, s.batch);
    hide Redacted;
    hide Contents;
    hide Persist;
    assert Contents(s.log) + s.batch + [] == Contents(s.log) + s.batch;
  }

  lemma OneRedacted(e: LogEntry)
    ensures Redacted([e]) == if e.redacted then [e] else []
  {
    RedactedNext([], e);
    NoneRedacted();
    assert [] + [e] == [e];
  }

  /** Taking moves one entry: what is stored and batched grows by it, if it is redacted. */
  lemma TakenContents(size: nat, s: Loop)
    requires AllRedacted(s.batch) && |s.batch| < AtLeastOne(size) && s.ch != []
    ensures var t := Taken(size, s);
            && AllRedacted(t.batch) && |t.batch| < AtLeastOne(size)
            && Contents(t.log) + t.batch == Contents(s.log) + s.batch + Redacted([s.ch[0]])
  {
    var e := s.ch[0];
    OneRedacted(e);
    var batch := s.batch + Redacted([e]);
    assert batch == if e.redacted then s.batch + [e] else s.batch;
    PersistContents(s.log, batch);
    hide Redacted;
    hide Contents;
    hide Persist;
    Regrouped(Contents(s.log), s.batch, Redacted([e]));
  }

  lemma Regrouped(x: seq<LogEntry>, y: seq<LogEntry>, z: seq<LogEntry>)
    ensures x + (y + z) == x + y + z && x + (y + z) + [] == x + y + z
  {
  }

  lemma TakenWhole(size: nat, s: Loop)
    requires Whole(size, s) && s.ch != [] && s.phase != Gone
    ensures Whole(size, Taken(size, s)) && Taken(size, s).ch == s.ch[1..]
    ensures Contents(Taken(size, s).log) + Taken(size, s).batch
         == Contents(s.log) + s.batch + Redacted([s.ch[0]])
  {
    TakenContents(size, s);
    RedactedConcat([s.ch[0]], s.ch[1..]);
    assert s.ch == [s.ch[0]] + s.ch[1..];
    TakenRest(size, s);
    hide *;
    TakenBalance(size, s, Taken(size, s));
  }

  lemma TakenRest(size: nat, s: Loop)
    requires s.ch != []
    ensures var t := Taken(size, s); t.ch == s.ch[1..] && t.history == s.history && t.phase == s.phase
  {
  }

  lemma TakenBalance(size: nat, s: Loop, t: Loop)
    requires Whole(size, s) && s.ch != [] && s.phase != Gone
    requires t.ch == s.ch[1..] && t.history == s.history && t.phase == s.phase
    requires AllRedacted(t.batch) && |t.batch| < AtLeastOne(size)
    requires Contents(t.log) + t.batch == Contents(s.log) + s.batch + Redacted([s.ch[0]])
    requires Redacted(s.ch) == Redacted([s.ch[0]]) + Redacted(s.ch[1..])
    ensures Whole(size, t)
  {
    hide Redacted;
    hide Contents;
    var x := Contents(s.log) + s.batch;
    assert x + (Redacted([s.ch[0]]) + Redacted(s.ch[1..])) == x + Redacted([s.ch[0]]) + Redacted(s.ch[1..]);
  }

  lemma LeftWhole(cap: nat, size: nat, s: Loop, late: seq<LogEntry>)
    requires Whole(size, s)
    ensures Whole(size, Left(cap, s, late))
  {
    ArrivedWhole(cap, size, s, late, false);
    WrittenWhole(size, Arrived(cap, s, late, false));
    hide Redacted;
    hide Contents;
    hide Persist;
    hide Arrived;
  }

  lemma DrainedWhole(cap: nat, size: nat, s: Loop, late: seq<LogEntry>)
    requires Whole(size, s) && s.phase != Gone
    ensures Whole(size, Drained(cap, size, s, late))
  {
    if s.ch == [] {
      LeftWhole(cap, size, s, late);
    } else {
      TakenWhole(size, s);
    }
    hide Left;
    hide Taken;
    hide AllRedacted;
    hide Contents;
    hide Redacted;
  }

  lemma ActedWhole(cap: nat, size: nat, s: Loop, turn: Turn)
    requires Whole(size, s) && s.phase != Gone
    ensures Whole(size, Acted(cap, size, s, turn))
  {
    DrainedWhole(cap, size, s, turn.late);
    LeftWhole(cap, size, s, turn.late);
    WrittenWhole(size, s);
    if s.ch != [] {
      TakenWhole(size, s);
    }
    hide Whole;
    hide Drained;
    hide Left;
    hide Taken;
    hide Written;
    hide Contents;
    hide Redacted;
  }

  lemma StepWhole(cap: nat, size: nat, s: Loop, turn: Turn)
    requires Whole(size, s)
    ensures Whole(size, Step(cap, size, s, turn))
  {
    if s.phase != Gone {
      ArrivedWhole(cap, size, s, turn.arrivals, turn.closing);
      SamePhase(cap, s, turn.arrivals, turn.closing);
      ActedWhole(cap, size, Arrived(cap, s, turn.arrivals, turn.closing), turn);
    }
    hide Whole;
    hide Arrived;
    hide Acted;
  }

  /** Whatever the turns are, nothing is lost, doubled or reordered. */
  lemma {:induction false} AfterWhole(cap: nat, size: nat, s: Loop, turns: seq<Turn>)
    requires Whole(size, s)
    ensures Whole(size, After(cap, size, s, turns))
  {
    hide Whole;
    hide Step;
    if turns != [] {
      AfterWhole(cap, size, s, turns[..|turns| - 1]);
      StepWhole(cap, size, After(cap, size, s, turns[..|turns| - 1]), turns[|turns| - 1]);
    }
  }

  // ----- what the loop achieves -----

  function AllArrivals(turns: seq<Turn>): seq<LogEntry> {
    if turns == [] then [] else AllArrivals(turns[..|turns| - 1]) + turns[|turns| - 1].arrivals
  }

  lemma StepAccepts(cap: nat, size: nat, s: Loop, turn: Turn)
    requires !s.closed && |s.ch| + |turn.arrivals| <= cap && !turn.closing
    ensures var t := Step(cap, size, s, turn);
            t.phase != Gone ==>
              t.history == s.history + turn.arrivals && !t.closed && |t.ch| <= |s.ch| + |turn.arrivals|
  {
    hide Persist;
    var more := turn.arrivals;
    assert more[..|more|] == more;
  }

  /** While the channel is open and has room for it, everything that arrives is accepted. */
  lemma {:induction false} ArrivalsAccepted(cap: nat, size: nat, s: Loop, turns: seq<Turn>)
    requires !s.closed && |s.ch| + |AllArrivals(turns)| <= cap
    requires forall i :: 0 <= i < |turns| ==> !turns[i].closing
    ensures var t := After(cap, size, s, turns);
            t.phase != Gone ==>
              && t.history == s.history + AllArrivals(turns) && !t.closed
              && |t.ch| <= |s.ch| + |AllArrivals(turns)|
  {
    if turns == [] {
      assert s.history + [] == s.history;
    } else {
      var n := |turns| - 1;
      ArrivalsAccepted(cap, size, s, turns[..n]);
      var t, more := After(cap, size, s, turns[..n]), turns[n].arrivals;
      assert s.history + AllArrivals(turns[..n]) + more == s.history + (AllArrivals(turns[..n]) + more);
      if t.phase != Gone {
        StepAccepts(cap, size, t, turns[n]);
      }
      hide Acted;
      hide Arrived;
    }
  }

  /** In the loop, a turn for a channel that has entries takes exactly the first one. */
  lemma IncomingTakes(cap: nat, size: nat, s: Loop, turn: Turn)
    requires Whole(size, s) && s.phase == Looping && turn.chosen == Incoming
    requires Arrived(cap, s, turn.arrivals, turn.closing).ch != []
    ensures var ch, r := Arrived(cap, s, turn.arrivals, turn.closing).ch, Step(cap, size, s, turn);
            && r.phase == Looping && r.ch == ch[1..]
            && Contents(r.log) + r.batch == Contents(s.log) + s.batch + Redacted([ch[0]])
  {
    ArrivedWhole(cap, size, s, turn.arrivals, turn.closing);
    TakenWhole(size, Arrived(cap, s, turn.arrivals, turn.closing));
    hide Redacted;
    hide Contents;
    hide Persist;
  }

  /** A tick writes the batch. */
  lemma TickWrites(cap: nat, size: nat, s: Loop, turn: Turn)
    requires Whole(size, s) && s.phase == Looping && turn.chosen == Ticked
    ensures var ch, r := Arrived(cap, s, turn.arrivals, turn.closing).ch, Step(cap, size, s, turn);
            && r.phase == Looping && r.ch == ch && r.batch == []
            && Contents(r.log) == Contents(s.log) + s.batch
  {
    ArrivedWhole(cap, size, s, turn.arrivals, turn.closing);
    WrittenWhole(size, Arrived(cap, s, turn.arrivals, turn.closing));
    hide Redacted;
    hide Contents;
    hide Persist;
  }

  function Quiet(chosen: Chosen): Turn {
    Turn([], false, chosen, [])
  }

  function Repeated(turn: Turn, n: nat): (t: seq<Turn>)
    ensures |t| == n && forall i :: 0 <= i < n ==> t[i] == turn
  {
    if n == 0 then [] else Repeated(turn, n - 1) + [turn]
  }

  lemma OneMoreTurn(cap: nat, size: nat, s: Loop, turns: seq<Turn>, turn: Turn)
    ensures After(cap, size, s, turns + [turn]) == Step(cap, size, After(cap, size, s, turns), turn)
  {
    assert (turns + [turn])[..|turns|] == turns;
  }

  lemma QuietArrives(cap: nat, s: Loop)
    ensures Arrived(cap, s, [], false) == s
  {
    assert s.ch + [] == s.ch && s.history + [] == s.history;
  }

  lemma QuietTakes(cap: nat, size: nat, s: Loop, chosen: Chosen)
    requires s.ch != []
    requires (s.phase == Looping && chosen == Incoming) || s.phase == Draining
    ensures var t := Step(cap, size, s, Quiet(chosen));
            t.phase == s.phase && t.ch == s.ch[1..] && t.history == s.history
  {
    QuietArrives(cap, s);
    hide Arrived;
    hide Persist;
  }

  lemma NoTurns(cap: nat, size: nat, s: Loop, turn: Turn)
    ensures After(cap, size, s, Repeated(turn, 0)) == s
  {
  }

  lemma RepeatedNext(turn: Turn, n: nat)
    ensures Repeated(turn, n + 1) == Repeated(turn, n) + [turn]
  {
  }

  lemma {:induction false} QuietTurnsTake(cap: nat, size: nat, s: Loop, chosen: Chosen, n: nat)
    requires (s.phase == Looping && chosen == Incoming) || s.phase == Draining
    requires n <= |s.ch|
    ensures var t := After(cap, size, s, Repeated(Quiet(chosen), n));
            t.phase == s.phase && t.ch == s.ch[n..] && t.history == s.history
  {
    hide *;
    if n == 0 {
      NoTurns(cap, size, s, Quiet(chosen));
    } else {
      QuietTurnsTake(cap, size, s, chosen, n - 1);
      var turns := Repeated(Quiet(chosen), n - 1);
      RepeatedNext(Quiet(chosen), n - 1);
      OneMoreTurn(cap, size, s, turns, Quiet(chosen));
      QuietTakes(cap, size, After(cap, size, s, turns), chosen);
      assert s.ch[n - 1..][1..] == s.ch[n..];
    }
  }

  /** A loop that is given its turns and then a tick has stored everything accepted. */
  lemma LoopCatchesUp(cap: nat, size: nat, s: Loop)
    requires Whole(size, s) && s.phase == Looping
    ensures var t := After(cap, size, s, Repeated(Quiet(Incoming), |s.ch|) + [Quiet(Ticked)]);
            && t.phase == Looping && t.ch == [] && t.history == s.history
            && Contents(t.log) == Redacted(t.history)
  {
    var turns := Repeated(Quiet(Incoming), |s.ch|);
    var u := After(cap, size, s, turns);
    QuietTurnsTake(cap, size, s, Incoming, |s.ch|);
    AfterWhole(cap, size, s, turns);
    OneMoreTurn(cap, size, s, turns, Quiet(Ticked));
    QuietArrives(cap, u);
    WrittenWhole(size, u);
    NoneRedacted();
    hide After;
    hide Persist;
    hide Arrived;
    hide Contents;
    hide Redacted;
    assert Contents(u.log) + u.batch + [] == Contents(u.log) + u.batch;
  }

  /** A draining loop that is left alone takes what there is, stores it, and exits. */
  lemma DrainEnds(cap: nat, size: nat, s: Loop)
    requires Whole(size, s) && s.phase == Draining
    ensures var t := After(cap, size, s, Repeated(Quiet(Ticked), |s.ch| + 1));
            && t.phase == Gone && t.ch == [] && t.history == s.history
            && Contents(t.log) == Redacted(t.history)
  {
    var turns := Repeated(Quiet(Ticked), |s.ch|);
    var u := After(cap, size, s, turns);
    QuietTurnsTake(cap, size, s, Ticked, |s.ch|);
    AfterWhole(cap, size, s, turns);
    OneMoreTurn(cap, size, s, turns, Quiet(Ticked));
    QuietArrives(cap, u);
    WrittenWhole(size, u);
    NoneRedacted();
    hide After;
    hide Persist;
    hide Arrived;
    hide Contents;
    hide Redacted;
    assert Contents(u.log) + u.batch + [] == Contents(u.log) + u.batch;
  }

  /** The turn finds the channel empty, and the loop is draining, cancelled, or the channel closed. */
  predicate Leaves(cap: nat, s: Loop, turn: Turn) {
    var t := Arrived(cap, s, turn.arrivals, turn.closing);
    && s.phase != Gone && t.ch == []
    && (s.phase == Draining || turn.chosen == Cancelled || (turn.chosen == Incoming && t.closed))
  }

  predicate LeavesAt(cap: nat, size: nat, s: Loop, turns: seq<Turn>, n: nat)
    requires n < |turns|
  {
    Leaves(cap, After(cap, size, s, turns[..n]), turns[n])
  }

  ghost predicate LeavesBefore(cap: nat, size: nat, s: Loop, turns: seq<Turn>, k: nat)
    requires k <= |turns|
  {
    exists n :: 0 <= n < k && LeavesAt(cap, size, s, turns, n)
  }

  /** The loop exits exactly at a turn of that kind. */
  lemma {:induction false} ExitsIff(cap: nat, size: nat, s: Loop, turns: seq<Turn>)
    requires s.phase == Looping
    ensures After(cap, size, s, turns).phase == Gone <==>
              exists n :: 0 <= n < |turns| && LeavesAt(cap, size, s, turns, n)
  {
    if turns != [] {
      var k := |turns| - 1;
      ExitsIff(cap, size, s, turns[..k]);
      TurnExits(cap, size, After(cap, size, s, turns[..k]), turns[k]);
      ExitsFromPrefix(cap, size, s, turns);
      assert LeavesBefore(cap, size, s, turns[..k], k) <==> After(cap, size, s, turns[..k]).phase == Gone;
      assert LeavesBefore(cap, size, s, turns, |turns|) <==>
               LeavesBefore(cap, size, s, turns, k) || LeavesAt(cap, size, s, turns, k) by {
        hide After;
        hide LeavesAt;
      }
      hide After;
      hide LeavesBefore;
      hide Step;
      hide Leaves;
      assert LeavesBefore(cap, size, s, turns, |turns|) <==> After(cap, size, s, turns).phase == Gone;
      ByDefinition(cap, size, s, turns);
    }
  }

  lemma ByDefinition(cap: nat, size: nat, s: Loop, turns: seq<Turn>)
    ensures LeavesBefore(cap, size, s, turns, |turns|) <==>
              exists n :: 0 <= n < |turns| && LeavesAt(cap, size, s, turns, n)
  {
  }

  predicate NoneCancelled(turns: seq<Turn>) {
    forall n :: 0 <= n < |turns| ==> turns[n].chosen != Cancelled
  }

  lemma NoneCancelledNext(turns: seq<Turn>)
    requires turns != []
    ensures var k := |turns| - 1; NoneCancelled(turns) <==> NoneCancelled(turns[..k]) && turns[k].chosen != Cancelled
  {
    var k := |turns| - 1;
    assert forall n :: 0 <= n < k ==> turns[..k][n] == turns[n];
  }

  /** It still loops exactly as long as it has not exited and no turn was a cancellation; so it drains from one on. */
  lemma {:induction false} DrainsIff(cap: nat, size: nat, s: Loop, turns: seq<Turn>)
    requires s.phase == Looping
    ensures var t := After(cap, size, s, turns); t.phase == Looping <==> t.phase != Gone && NoneCancelled(turns)
  {
    if turns != [] {
      var k := |turns| - 1;
      DrainsIff(cap, size, s, turns[..k]);
      TurnExits(cap, size, After(cap, size, s, turns[..k]), turns[k]);
      KeptLast(cap, size, s, turns);
      NoneCancelledNext(turns);
      hide *;
    }
  }

  lemma ExitsFromPrefix(cap: nat, size: nat, s: Loop, turns: seq<Turn>)
    requires turns != []
    ensures var k := |turns| - 1;
            && After(cap, size, s, turns) == Step(cap, size, After(cap, size, s, turns[..k]), turns[k])
            && (LeavesAt(cap, size, s, turns, k) <==> Leaves(cap, After(cap, size, s, turns[..k]), turns[k]))
            && (LeavesBefore(cap, size, s, turns[..k], k) <==> LeavesBefore(cap, size, s, turns, k))
  {
    var k := |turns| - 1;
    forall n | 0 <= n < k
      ensures LeavesAt(cap, size, s, turns[..k], n) == LeavesAt(cap, size, s, turns, n)
    {
      assert turns[..k][..n] == turns[..n] && turns[..k][n] == turns[n];
    }
    hide Leaves;
    hide Step;
    hide LeavesAt;
    assert LeavesBefore(cap, size, s, turns[..k], k) <==> LeavesBefore(cap, size, s, turns, k);
    KeptLast(cap, size, s, turns);
  }

  lemma KeptLast(cap: nat, size: nat, s: Loop, turns: seq<Turn>)
    requires turns != []
    ensures var k := |turns| - 1;
            && After(cap, size, s, turns) == Step(cap, size, After(cap, size, s, turns[..k]), turns[k])
            && (LeavesAt(cap, size, s, turns, k) <==> Leaves(cap, After(cap, size, s, turns[..k]), turns[k]))
  {
  }

  lemma TurnExits(cap: nat, size: nat, s: Loop, turn: Turn)
    ensures var t := Step(cap, size, s, turn);
            && (t.phase == Gone <==> s.phase == Gone || Leaves(cap, s, turn))
            && (t.phase == Looping <==> s.phase == Looping && turn.chosen != Cancelled && !Leaves(cap, s, turn))
  {
    hide Persist;
    hide Arrived;
    var t := Arrived(cap, s, turn.arrivals, turn.closing);
    SamePhase(cap, s, turn.arrivals, turn.closing);
  }

  lemma SamePhase(cap: nat, s: Loop, arrivals: seq<LogEntry>, closing: bool)
    ensures Arrived(cap, s, arrivals, closing).phase == s.phase
  {
  }

  // ----- what an exit leaves behind -----

  /** The channel holds the end of what was accepted. */
  predicate Buffered(s: Loop) {
    |s.ch| <= |s.history| && s.ch == s.history[|s.history| - |s.ch|..]
  }

  /** The first `n` entries ever accepted are stored, the others are in the channel. */
  predicate Settled(s: Loop, n: nat) {
    && n <= |s.history|
    && Contents(s.log) == Redacted(s.history[..n])
    && s.ch == s.history[n..]
  }

  /** The channel holds the end of what was accepted, and what was accepted stays so. */
  predicate Continues(s: Loop, t: Loop) {
    Buffered(t) && s.history <= t.history && (s.closed ==> t.closed && t.history == s.history)
  }

  lemma ArrivedContinues(cap: nat, s: Loop, arrivals: seq<LogEntry>, closing: bool)
    requires Buffered(s)
    ensures Continues(s, Arrived(cap, s, arrivals, closing))
  {
    var more := arrivals[..Accepted(cap, |s.ch|, s.closed, |arrivals|)];
    var h, n := s.history + more, |s.history| - |s.ch|;
    assert h[n..] == s.history[n..] + more;
    assert s.closed ==> more == [] && h == s.history;
  }

  lemma TakenContinues(size: nat, s: Loop)
    requires Buffered(s) && s.ch != []
    ensures Continues(s, Taken(size, s))
  {
    hide Persist;
  }

  lemma WrittenContinues(s: Loop)
    requires Buffered(s)
    ensures Continues(s, Written(s))
  {
    hide Persist;
  }

  lemma LeftContinues(cap: nat, s: Loop, late: seq<LogEntry>)
    requires Buffered(s)
    ensures Continues(s, Left(cap, s, late))
  {
    ArrivedContinues(cap, s, late, false);
    hide Persist;
    hide Arrived;
  }

  lemma DrainedContinues(cap: nat, size: nat, s: Loop, late: seq<LogEntry>)
    requires Buffered(s)
    ensures Continues(s, Drained(cap, size, s, late))
  {
    if s.ch == [] {
      LeftContinues(cap, s, late);
    } else {
      TakenContinues(size, s);
    }
    hide Left;
    hide Taken;
  }

  lemma ActedContinues(cap: nat, size: nat, s: Loop, turn: Turn)
    requires Buffered(s)
    ensures Continues(s, Acted(cap, size, s, turn))
  {
    DrainedContinues(cap, size, s, turn.late);
    WrittenContinues(s);
    LeftContinues(cap, s, turn.late);
    if s.ch != [] {
      TakenContinues(size, s);
    }
    hide Drained;
    hide Written;
    hide Left;
    hide Taken;
  }

  lemma StepContinues(cap: nat, size: nat, s: Loop, turn: Turn)
    requires Buffered(s)
    ensures Continues(s, Step(cap, size, s, turn))
  {
    ArrivedContinues(cap, s, turn.arrivals, turn.closing);
    ActedContinues(cap, size, Arrived(cap, s, turn.arrivals, turn.closing), turn);
    hide Arrived;
    hide Acted;
  }

  /** What is stored at the exit is what had been accepted when the loop found the channel empty. */
  lemma LeftSettled(cap: nat, size: nat, s: Loop, late: seq<LogEntry>)
    requires Whole(size, s) && s.ch == []
    ensures Settled(Left(cap, s, late), |s.history|)
  {
    WrittenWhole(size, s);
    NoneRedacted();
    var t := Left(cap, s, late);
    assert t.log == Written(s).log && t.history[..|s.history|] == s.history;
    assert Contents(s.log) + s.batch + [] == Contents(s.log) + s.batch;
    assert t.ch == t.history[|s.history|..];
    hide Contents;
    hide Redacted;
    hide Persist;
  }

  /**
    At an exit the first `n` entries ever accepted are stored, those there were when the loop
    decided to leave; the others are in the channel. With a closed channel there are no others.
    */
  lemma {:induction false} GoneSettled(cap: nat, size: nat, s: Loop, turns: seq<Turn>) returns (n: nat)
    requires Whole(size, s) && Buffered(s) && s.phase == Looping
    requires After(cap, size, s, turns).phase == Gone
    ensures var t := After(cap, size, s, turns);
            Settled(t, n) && |s.history| <= n && (s.closed ==> n == |t.history|)
  {
    var k := |turns| - 1;
    var u := After(cap, size, s, turns[..k]);
    if u.phase == Gone {
      n := GoneSettled(cap, size, s, turns[..k]);
    } else {
      AfterWhole(cap, size, s, turns[..k]);
      HistoryGrows(cap, size, s, turns[..k]);
      TurnExits(cap, size, u, turns[k]);
      var t := Arrived(cap, u, turns[k].arrivals, turns[k].closing);
      ArrivedWhole(cap, size, u, turns[k].arrivals, turns[k].closing);
      LeftSettled(cap, size, t, turns[k].late);
      LeavingStep(cap, size, u, turns[k]);
      n := |t.history|;
      hide Settled;
      hide Whole;
      hide Buffered;
      hide Persist;
    }
  }

  lemma RunAchieves(cap: nat, size: nat, s: Loop, turns: seq<Turn>)
    requires Buffered(s) && s.phase == Looping
    ensures Whole(size, s) ==>
              var t := After(cap, size, s, turns);
              && Whole(size, t)
              && (t.phase == Gone ==> exists n :: n >= |s.history| && Settled(t, n))
  {
    hide *;
    if Whole(size, s) {
      AfterWhole(cap, size, s, turns);
      if After(cap, size, s, turns).phase == Gone {
        var n := GoneSettled(cap, size, s, turns);
      }
    }
  }

  lemma LeavingStep(cap: nat, size: nat, s: Loop, turn: Turn)
    requires Leaves(cap, s, turn)
    ensures var t := Arrived(cap, s, turn.arrivals, turn.closing);
            && t.ch == [] && Step(cap, size, s, turn) == Left(cap, t, turn.late)
            && |s.history| <= |t.history|
            && (s.closed ==> Left(cap, t, turn.late).history == t.history == s.history)
  {
    hide Persist;
  }

  lemma {:induction false} HistoryGrows(cap: nat, size: nat, s: Loop, turns: seq<Turn>)
    requires Buffered(s)
    ensures var t := After(cap, size, s, turns);
            Buffered(t) && s.history <= t.history && (s.closed ==> t.closed && t.history == s.history)
  {
    hide Buffered;
    hide Step;
    if turns != [] {
      HistoryGrows(cap, size, s, turns[..|turns| - 1]);
      StepContinues(cap, size, After(cap, size, s, turns[..|turns| - 1]), turns[|turns| - 1]);
    }
  }
}
