/** What becomes of a recorded success: it is replayed for as long as pruning has not dropped it, past the last
    pin of its key as well, and what pruning drops is what was used longest ago. */
module Replays {
  import opened Options
  import opened Idempotency
  import opened KeyedCalls

  /** What an event records. */
  function Stored(s: Sys, e: Event): Option<Entry> {
    if e.Record? && Enabled(s, e) && !s.callers[e.who].phase.dryRun then
      var c := s.callers[e.who];
      Some(Entry(c.slot, c.fingerprint, c.phase.payload))
    else None
  }

  /** The event prunes the results, and the one under this key is overdue. */
  ghost predicate Drops(s: Sys, e: Event, slot: Slot) {
    && Enabled(s, e)
    && match e
       case Record(_) => Stored(s, e).Some? && Overdue(AtEnd(s.table.results, Stored(s, e).value), s.table.pins, slot)
       case Finish(who) => Overdue(s.table.results, Unpin(s.table, s.callers[who].slot).pins, slot)
       case _ => false
  }

  /** What is recorded under a key after one event: what the event records there, nothing if it drops the result,
      and otherwise what was recorded before. */
  lemma RecordedStep(s: Sys, e: Event, slot: Slot)
    requires Inv(s) && Enabled(s, e)
    ensures !e.Begin? ==> s.callers[e.who].slot in s.served
    ensures Recorded(Do(s, e).table.results, slot) ==
            if Drops(s, e, slot) then None
            else if Stored(s, e).Some? && Stored(s, e).value.slot == slot then Stored(s, e)
            else Recorded(s.table.results, slot)
  {
    hide Turns, Once, Counted, Recorded, AtEnd, Prune, Distinct, Overdue, Touch, HitOf, Unpin;
    assert !e.Begin? ==> s.callers[e.who].slot in s.served by { InvServes(s); }
    match e
    case Abandon(who) =>
      UnpinFrame(s.table, s.callers[who].slot);
    case Lookup(who) =>
      TouchKeeps(s.table, s.callers[who].slot);
    case Record(who) =>
      if Stored(s, e).Some? { StoreRecords(s.table, Stored(s, e).value, slot); }
    case Finish(who) =>
      var mine := s.callers[who].slot;
      UnpinFrame(s.table.(inflight := s.table.inflight - {mine}), mine);
      LeaveRecords(s.table, mine, slot);
    case _ =>
  }

  /** While a success is recorded under a key, nobody executes under that key or is about to record. */
  lemma NobodyRuns(s: Sys, who: CallerId)
    requires Inv(s) && who in s.callers && Recorded(s.table.results, s.callers[who].slot).Some?
    ensures !s.callers[who].phase.Running? && !s.callers[who].phase.Recording?
  {
    hide Turns, Counted, Cached, Recorded;
    assert Missed(s.table.results, s.callers[who], s.served[s.callers[who].slot]);
  }

  /** What a caller does that has its turn: it executes if nothing is recorded, and is answered otherwise. */
  lemma TurnDecides(s: Sys, who: CallerId)
    requires Inv(s) && who in s.callers && s.callers[who].phase.Checking?
    ensures s.callers[who].slot in s.served
    ensures var k := s.callers[who];
            Do(s, Lookup(who)).callers[who].phase ==
              match Recorded(s.table.results, k.slot)
              case None => Running
              case Some(e) => Leaving(if e.fingerprint == k.fingerprint then Replayed(e.payload) else Reused)
  {
    hide Turns, Counted, Cached, Recorded, Once;
    InvServes(s);
  }

  /** What holds of a recorded success while it is there. */
  ghost predicate Replaying(s: Sys, e: Entry) {
    && Recorded(s.table.results, e.slot) == Some(e)
    && forall c | c in s.callers && s.callers[c].slot == e.slot ::
         !s.callers[c].phase.Running? && !s.callers[c].phase.Recording?
  }

  lemma ReplayingNow(s: Sys, e: Entry)
    requires Inv(s) && Recorded(s.table.results, e.slot) == Some(e)
    ensures Replaying(s, e)
  {
    hide Inv, Recorded;
    forall c | c in s.callers && s.callers[c].slot == e.slot
      ensures !s.callers[c].phase.Running? && !s.callers[c].phase.Recording?
    {
      NobodyRuns(s, c);
    }
  }

  /** Recording puts the success in the cache, and it stays until a pruning drops it. */
  lemma {:induction false} StaysRecorded(states: seq<Sys>, events: seq<Event>, m: nat, n: nat)
    requires Traced(states, events) && m < n <= |events| && Stored(states[m], events[m]).Some?
    requires var slot := Stored(states[m], events[m]).value.slot;
             forall i | m < i < n :: !Drops(states[i], events[i], slot)
    ensures Replaying(states[n], Stored(states[m], events[m]).value)
  {
    hide Do, Inv, Recorded, Drops, Stored, Replaying;
    TracedIsRun(states, events);
    RunKeeps(states, n);
    RunKeeps(states, n - 1);
    var s, e := states[n - 1], events[n - 1];
    var kept := Stored(states[m], events[m]).value;
    assert Takes(s, e, states[n]);
    RecordedStep(s, e, kept.slot);
    if m == n - 1 {
      StoredIsPinned(s, e);
    } else {
      StaysRecorded(states, events, m, n - 1);
      assert Replaying(s, kept);
      NothingStored(s, e, kept);
    }
    ReplayingNow(states[n], kept);
  }

  lemma StoredIsPinned(s: Sys, e: Event)
    requires Inv(s) && Stored(s, e).Some?
    ensures !Drops(s, e, Stored(s, e).value.slot)
  {
    hide Turns, Once, Cached;
    PinHeld(s.table.pins, s.callers, e.who);
  }

  lemma NothingStored(s: Sys, e: Event, kept: Entry)
    requires Replaying(s, kept)
    ensures Recorded(s.table.results, kept.slot) == Some(kept)
    ensures Stored(s, e).Some? ==> Stored(s, e).value.slot != kept.slot
  {
    hide Recorded;
  }

  /** In every run, from the moment a success is recorded under a key and for as long as no pruning has dropped it,
      also when nobody has had the key pinned in between: it is what is recorded there, nobody executes under the
      key, every caller whose turn it is is answered by its replay, or by a refusal if the arguments differ; and
      the next event takes it away exactly if it drops it. */
  lemma SuccessIsReplayed(states: seq<Sys>, events: seq<Event>, m: nat, n: nat)
    requires Traced(states, events) && m < n < |events| && Stored(states[m], events[m]).Some?
    requires var slot := Stored(states[m], events[m]).value.slot;
             forall i | m < i < n :: !Drops(states[i], events[i], slot)
    ensures var kept, s, e, s' := Stored(states[m], events[m]).value, states[n], events[n], states[n + 1];
            && Replaying(s, kept)
            && (e.Lookup? && e.who in s.callers && s.callers[e.who].slot == kept.slot ==>
                  e.who in s'.callers
                  && s'.callers[e.who].phase ==
                       Leaving(if s.callers[e.who].fingerprint == kept.fingerprint then Replayed(kept.payload)
                               else Reused))
            && (Recorded(s'.table.results, kept.slot) == None <==> Drops(s, e, kept.slot))
  {
    hide Do, Inv, Recorded, Drops, Stored;
    StaysRecorded(states, events, m, n);
    TracedIsRun(states, events);
    RunKeeps(states, n);
    var kept, s, e := Stored(states[m], events[m]).value, states[n], events[n];
    assert Takes(s, e, states[n + 1]);
    RecordedStep(s, e, kept.slot);
    if e.Lookup? && s.callers[e.who].slot == kept.slot {
      TurnDecides(s, e.who);
      LookupStays(s, e.who);
    }
  }

  lemma LookupStays(s: Sys, who: CallerId)
    requires Inv(s) && Enabled(s, Lookup(who))
    ensures s.callers[who].slot in s.served && who in Do(s, Lookup(who)).callers
  {
    hide Turns, Counted, Cached, Recorded, Once;
    InvServes(s);
  }

  // What is recorded was earned.

  /** The event is the success of a real execution, not of a dry run, of this call. */
  predicate Earns(s: Sys, e: Event, slot: Slot, fingerprint: string, payload: string, dryRun: bool) {
    && e.Execute? && e.success && e.payload == payload && e.dryRun == dryRun
    && e.who in s.callers && s.callers[e.who].slot == slot && s.callers[e.who].fingerprint == fingerprint
  }

  /** A caller comes to record what it has just executed. */
  lemma RecordingStep(s: Sys, e: Event, who: CallerId)
    requires Enabled(s, e) && (!e.Begin? ==> s.callers[e.who].slot in s.served)
    requires who in Do(s, e).callers && Do(s, e).callers[who].phase.Recording?
    ensures var k := Do(s, e).callers[who];
            || (who in s.callers && s.callers[who] == k)
            || Earns(s, e, k.slot, k.fingerprint, k.phase.payload, k.phase.dryRun)
  {
    hide Enter, Pin, Unpin, Leave, Touch, Store, HitOf, Forget;
  }

  lemma {:induction false} RecordingIsEarned(states: seq<Sys>, events: seq<Event>, n: nat, who: CallerId)
    requires Traced(states, events) && n <= |events|
    requires who in states[n].callers && states[n].callers[who].phase.Recording?
    ensures var k := states[n].callers[who];
            exists i: nat ::
              i < n && Earns(states[i], events[i], k.slot, k.fingerprint, k.phase.payload, k.phase.dryRun)
  {
    hide Do, Earns;
    if n > 0 {
      var k := states[n].callers[who];
      assert Takes(states[n - 1], events[n - 1], states[n]);
      RecordingStep(states[n - 1], events[n - 1], who);
      if !Earns(states[n - 1], events[n - 1], k.slot, k.fingerprint, k.phase.payload, k.phase.dryRun) {
        RecordingIsEarned(states, events, n - 1, who);
      }
    }
  }

  /** In every run, whatever is recorded under a key, and so whatever is replayed, is what a real execution of this
      call with these arguments answered: never a failure, a dry run, or another request's success. */
  lemma {:induction false} RecordedIsEarned(states: seq<Sys>, events: seq<Event>, n: nat, slot: Slot)
    requires Traced(states, events) && n <= |events| && Recorded(states[n].table.results, slot).Some?
    ensures var e := Recorded(states[n].table.results, slot).value;
            exists i: nat :: i < n && Earns(states[i], events[i], slot, e.fingerprint, e.payload, false)
  {
    hide Do, Inv, Earns, Recorded, Drops, Stored;
    if n == 0 {
      NothingRecorded(slot);
    } else {
      TracedIsRun(states, events);
      RunKeeps(states, n - 1);
      var s, e := states[n - 1], events[n - 1];
      assert Takes(s, e, states[n]);
      RecordedStep(s, e, slot);
      if Stored(s, e).Some? && Stored(s, e).value.slot == slot {
        StoredIsRecording(s, e);
        RecordingIsEarned(states, events, n - 1, e.who);
      } else {
        RecordedIsEarned(states, events, n - 1, slot);
      }
    }
  }

  lemma NothingRecorded(slot: Slot)
    ensures Recorded(Start().table.results, slot) == None
  {
  }

  lemma StoredIsRecording(s: Sys, e: Event)
    requires Stored(s, e).Some?
    ensures e.who in s.callers && s.callers[e.who].phase.Recording?
    ensures var k := s.callers[e.who];
            Stored(s, e).value == Entry(k.slot, k.fingerprint, k.phase.payload) && !k.phase.dryRun
  {
  }

  // The order of use.

  /** The event finds the result of this key, or records one. */
  predicate Uses(s: Sys, e: Event, slot: Slot) {
    || (e.Lookup? && Enabled(s, e) && s.callers[e.who].slot == slot && Has(s.table.results, slot))
    || (Stored(s, e).Some? && Stored(s, e).value.slot == slot)
  }

  /** The last event before n that used the result of this key, and -1 if there was none. */
  function LastUse(states: seq<Sys>, events: seq<Event>, n: nat, slot: Slot): (k: int)
    requires n <= |events| <= |states|
    ensures -1 <= k < n
  {
    if n == 0 then -1
    else if Uses(states[n - 1], events[n - 1], slot) then n - 1
    else LastUse(states, events, n - 1, slot)
  }

  lemma UseOrder(s: Sys, e: Event, a: Slot, b: Slot)
    requires Inv(s) && Enabled(s, e)
    requires !e.Begin? ==> s.callers[e.who].slot in s.served
    requires Before(Do(s, e).table.results, a, b)
    ensures !Uses(s, e, a) && (Uses(s, e, b) || Before(s.table.results, a, b))
  {
    hide Turns, Once, Counted, AtEnd, Prune, Distinct, Before, Recorded, Unpin;
    match e
    case Abandon(who) =>
      UnpinFrame(s.table, s.callers[who].slot);
    case Lookup(who) =>
      var slot := s.callers[who].slot;
      if Recorded(s.table.results, slot).Some? {
        AtEndOrder(s.table.results, Recorded(s.table.results, slot).value, a, b);
      }
    case Record(who) =>
      if Stored(s, e).Some? {
        PruneOrder(AtEnd(s.table.results, Stored(s, e).value), s.table.pins, a, b);
        AtEndOrder(s.table.results, Stored(s, e).value, a, b);
      }
    case Finish(who) =>
      var mine := s.callers[who].slot;
      UnpinFrame(s.table.(inflight := s.table.inflight - {mine}), mine);
      PruneOrder(s.table.results, Leave(s.table, mine).pins, a, b);
    case _ =>
  }

  /** In every state of every run the results stand in the order of their last use. */
  lemma {:induction false} ResultsInOrder(states: seq<Sys>, events: seq<Event>, n: nat, a: Slot, b: Slot)
    requires Traced(states, events) && n <= |events| && Before(states[n].table.results, a, b)
    ensures LastUse(states, events, n, a) < LastUse(states, events, n, b)
  {
    hide Do, Inv, Before, Uses;
    if n == 0 {
      NothingBefore(a, b);
    } else {
      TracedIsRun(states, events);
      RunKeeps(states, n - 1);
      assert Takes(states[n - 1], events[n - 1], states[n]);
      UseOrder(states[n - 1], events[n - 1], a, b);
      if !Uses(states[n - 1], events[n - 1], b) { ResultsInOrder(states, events, n - 1, a, b); }
    }
  }

  lemma NothingBefore(a: Slot, b: Slot)
    ensures !Before(Start().table.results, a, b)
  {
  }
}
