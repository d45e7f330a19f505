/** Any number of callers racing through the idempotency table: each step of a caller is one section
    under the lock, or the handler running without it. */
module KeyedCalls {
  import opened Options
  import opened Idempotency

  type CallerId = nat

  datatype Answer = Replayed(payload: string) | Reused | Succeeded(payload: string, dryRun: bool) | Failed

  datatype Phase =
    | Asleep                                   // in the wait, until somebody notifies
    | Awake                                    // notified, not yet back under the lock
    | Checking                                 // has the turn, has not looked at the cache
    | Running                                  // missed the cache: the handler executes
    | Recording(payload: string, dryRun: bool) // the handler succeeded
    | Leaving(reply: Answer)                   // what the caller is about to be told

  datatype Caller = Caller(slot: Slot, fingerprint: string, phase: Phase)
  {
    predicate HasTurn() {
      !phase.Asleep? && !phase.Awake?
    }
  }

  /** An answer, in the order answers were decided, with the arguments it was given for. */
  datatype Served = Served(fingerprint: string, answer: Answer)

  /** The callers between begin and finish; the answers each key has given while it stayed pinned; and
      whether a wait was interrupted since the results were last pruned. */
  datatype Sys = Sys(table: Table, callers: map<CallerId, Caller>, served: map<Slot, seq<Served>>, interrupted: bool)

  datatype Event =
    | Begin(who: CallerId, slot: Slot, fingerprint: string)
    | Retry(who: CallerId)
    | Abandon(who: CallerId)
    | Lookup(who: CallerId)
    | Execute(who: CallerId, success: bool, payload: string, dryRun: bool)
    | Record(who: CallerId)
    | Derail(who: CallerId)
    | Finish(who: CallerId)

  predicate Enabled(s: Sys, e: Event) {
    if e.Begin? then e.who !in s.callers
    else
      e.who in s.callers &&
      var phase := s.callers[e.who].phase;
      match e
      case Begin(_, _, _) => false
      case Retry(_) => phase.Awake?
      case Abandon(_) => phase.Asleep? || phase.Awake?
      case Lookup(_) => phase.Checking?
      case Execute(_, _, _, _) => phase.Running?
      case Record(_) => phase.Recording?
      case Derail(_) => phase.Leaving?
      case Finish(_) => phase.Leaving?
  }

  function Move(s: Sys, who: CallerId, phase: Phase): map<CallerId, Caller>
    requires who in s.callers
  {
    s.callers[who := s.callers[who].(phase := phase)]
  }

  /** notify_all wakes every sleeper, whatever key it waits for. */
  function Notified(callers: map<CallerId, Caller>): map<CallerId, Caller> {
    map c | c in callers :: if callers[c].phase.Asleep? then callers[c].(phase := Awake) else callers[c]
  }

  function Serve(s: Sys, slot: Slot, one: Served): map<Slot, seq<Served>>
    requires slot in s.served
  {
    s.served[slot := s.served[slot] + [one]]
  }

  /** A key's answers are forgotten when its last pin goes. */
  function Forget(s: Sys, table: Table, slot: Slot): map<Slot, seq<Served>> {
    if slot in table.pins then s.served else s.served - {slot}
  }

  function DoBegin(s: Sys, who: CallerId, slot: Slot, fingerprint: string): Sys {
    var free := slot !in s.table.inflight;
    Sys(if free then Enter(Pin(s.table, slot), slot) else Pin(s.table, slot),
        s.callers[who := Caller(slot, fingerprint, if free then Checking else Asleep)],
        if slot in s.served then s.served else s.served[slot := []], s.interrupted)
  }

  function DoRetry(s: Sys, who: CallerId): Sys
    requires who in s.callers
  {
    var slot := s.callers[who].slot;
    var free := slot !in s.table.inflight;
    s.(table := if free then Enter(s.table, slot) else s.table,
       callers := Move(s, who, if free then Checking else Asleep))
  }

  function DoAbandon(s: Sys, who: CallerId): Sys
    requires who in s.callers
  {
    var slot := s.callers[who].slot;
    var table := Unpin(s.table, slot);
    Sys(table, s.callers - {who}, Forget(s, table, slot), true)
  }

  function AnswerOf(hit: Hit): Answer {
    match hit case Replay(payload) => Replayed(payload) case KeyReused => Reused
  }

  function DoLookup(s: Sys, who: CallerId): Sys
    requires who in s.callers && s.callers[who].slot in s.served
  {
    var c := s.callers[who];
    match HitOf(s.table, c.slot, c.fingerprint)
    case None => s.(callers := Move(s, who, Running))
    case Some(hit) =>
      s.(table := Touch(s.table, c.slot), callers := Move(s, who, Leaving(AnswerOf(hit))),
           served := Serve(s, c.slot, Served(c.fingerprint, AnswerOf(hit))))
  }

  function DoExecute(s: Sys, who: CallerId, success: bool, payload: string, dryRun: bool): Sys
    requires who in s.callers && s.callers[who].slot in s.served
  {
    var c := s.callers[who];
    s.(callers := Move(s, who, if success then Recording(payload, dryRun) else Leaving(Failed)),
       served := Serve(s, c.slot, Served(c.fingerprint, if success then Succeeded(payload, dryRun) else Failed)))
  }

  function DoRecord(s: Sys, who: CallerId): Sys
    requires who in s.callers && s.callers[who].phase.Recording?
  {
    var c := s.callers[who];
    var callers := Move(s, who, Leaving(Succeeded(c.phase.payload, c.phase.dryRun)));
    if c.phase.dryRun then s.(callers := callers)
    else Sys(Store(s.table, Entry(c.slot, c.fingerprint, c.phase.payload)), callers, s.served, false)
  }

  /** An exception once the answer is known, while it is traced or put into words: the caller is told of an
      internal error instead. What is recorded stays. */
  function DoDerail(s: Sys, who: CallerId): Sys
    requires who in s.callers
  {
    s.(callers := Move(s, who, Leaving(Failed)))
  }

  function DoFinish(s: Sys, who: CallerId): Sys
    requires who in s.callers
  {
    var slot := s.callers[who].slot;
    var table := Leave(s.table, slot);
    Sys(table, Notified(s.callers - {who}), Forget(s, table, slot), false)
  }

  function Do(s: Sys, e: Event): Sys
    requires Enabled(s, e) && (!e.Begin? ==> s.callers[e.who].slot in s.served)
  {
    match e
    case Begin(who, slot, fingerprint) => DoBegin(s, who, slot, fingerprint)
    case Retry(who) => DoRetry(s, who)
    case Abandon(who) => DoAbandon(s, who)
    case Lookup(who) => DoLookup(s, who)
    case Execute(who, success, payload, dryRun) => DoExecute(s, who, success, payload, dryRun)
    case Record(who) => DoRecord(s, who)
    case Derail(who) => DoDerail(s, who)
    case Finish(who) => DoFinish(s, who)
  }

  function Start(): Sys {
    Sys(Table({}, map[], []), map[], map[], false)
  }

  type Callers = map<CallerId, Caller>

  ghost function CallersOf(callers: Callers, slot: Slot): set<CallerId> {
    set c | c in callers && callers[c].slot == slot
  }

  ghost predicate Holds(callers: Callers, c: CallerId, slot: Slot) {
    c in callers && callers[c].slot == slot && callers[c].HasTurn()
  }

  /** At most one caller per key is past begin, and a sleeper always has somebody to wait for. */
  ghost predicate Turns(inflight: set<Slot>, callers: Callers) {
    && (forall c | c in callers && callers[c].HasTurn() :: callers[c].slot in inflight)
    && (forall slot | slot in inflight :: exists c :: Holds(callers, c, slot))
    && (forall c, d, slot | Holds(callers, c, slot) && Holds(callers, d, slot) :: c == d)
    && (forall c | c in callers && callers[c].phase.Asleep? :: callers[c].slot in inflight)
  }

  /** The pin count of a key is the number of callers waiting for it or running under it. */
  ghost predicate Counted(pins: map<Slot, nat>, callers: Callers) {
    && (forall slot :: slot in pins <==> CallersOf(callers, slot) != {})
    && (forall slot | slot in pins :: pins[slot] == |CallersOf(callers, slot)|)
  }

  ghost predicate Bounded(results: seq<Entry>, pins: map<Slot, nat>) {
    |results| <= CACHE_ENTRIES || forall e | e in results :: e.slot in pins
  }

  ghost predicate Cached(s: Sys) {
    Distinct(s.table.results) && (s.interrupted || Bounded(s.table.results, s.table.pins))
  }

  predicate Wins(one: Served) {
    one.answer.Succeeded? && !one.answer.dryRun
  }

  predicate Agrees(winner: Served, later: Served)
    requires Wins(winner)
  {
    later.answer == if later.fingerprint == winner.fingerprint then Replayed(winner.answer.payload) else Reused
  }

  /** At most one success that counts, and every answer after it repeats it or refuses the key. */
  ghost predicate OneWin(served: seq<Served>) {
    forall i, j | 0 <= i < j < |served| && Wins(served[i]) :: Agrees(served[i], served[j])
  }

  ghost predicate NoWin(served: seq<Served>) {
    forall one | one in served :: !Wins(one)
  }

  /** A success under a pinned key is in the cache, or is about to be put there by the caller whose turn it is. */
  ghost predicate Kept(results: seq<Entry>, callers: Callers, slot: Slot, one: Served)
    requires Wins(one)
  {
    || Recorded(results, slot) == Some(Entry(slot, one.fingerprint, one.answer.payload))
    || exists c :: c in callers && callers[c] == Caller(slot, one.fingerprint, Recording(one.answer.payload, false))
  }

  /** A caller is told the answer that was decided for it, or that the call failed. */
  predicate ToldTruly(k: Caller, served: seq<Served>)
    requires k.phase.Leaving?
  {
    k.phase.reply == Failed || Served(k.fingerprint, k.phase.reply) in served
  }

  /** A caller that missed the cache finds nothing there until it has recorded its own result. */
  ghost predicate Missed(results: seq<Entry>, k: Caller, served: seq<Served>) {
    && (k.phase.Running? ==> !Has(results, k.slot) && NoWin(served))
    && (k.phase.Recording? ==>
          && !Has(results, k.slot) && served != []
          && served[|served| - 1] == Served(k.fingerprint, Succeeded(k.phase.payload, k.phase.dryRun))
          && (k.phase.dryRun ==> NoWin(served)))
    && (k.phase.Leaving? ==> ToldTruly(k, served))
  }

  ghost predicate Once(s: Sys) {
    && (forall slot | slot in s.served ::
          && OneWin(s.served[slot])
          && forall one | one in s.served[slot] && Wins(one) :: Kept(s.table.results, s.callers, slot, one))
    && (forall c | c in s.callers ::
         s.callers[c].slot in s.served && Missed(s.table.results, s.callers[c], s.served[s.callers[c].slot]))
  }

  ghost predicate Inv(s: Sys) {
    && Turns(s.table.inflight, s.callers)
    && Counted(s.table.pins, s.callers)
    && s.served.Keys == s.table.pins.Keys
    && Cached(s)
    && Once(s)
  }

  lemma StartInv()
    ensures Inv(Start())
  {
  }

  // Turns.

  lemma TurnsMove(inflight: set<Slot>, callers: Callers, who: CallerId, phase: Phase)
    requires Turns(inflight, callers) && who in callers && callers[who].HasTurn()
    requires !phase.Asleep? && !phase.Awake?
    ensures Turns(inflight, callers[who := callers[who].(phase := phase)])
  {
    var callers' := callers[who := callers[who].(phase := phase)];
    forall c, slot ensures Holds(callers', c, slot) <==> Holds(callers, c, slot) {
    }
  }

  /** A caller that is new, or awake, takes a free turn or goes to sleep. */
  lemma TurnsTake(inflight: set<Slot>, callers: Callers, who: CallerId, slot: Slot, fingerprint: string)
    requires Turns(inflight, callers) && (who in callers ==> callers[who].phase.Awake?)
    ensures var free := slot !in inflight;
            Turns(if free then inflight + {slot} else inflight,
                  callers[who := Caller(slot, fingerprint, if free then Checking else Asleep)])
  {
    var free := slot !in inflight;
    var callers' := callers[who := Caller(slot, fingerprint, if free then Checking else Asleep)];
    assert free ==> Holds(callers', who, slot);
    forall c, k ensures Holds(callers', c, k) <==> Holds(callers, c, k) || (free && c == who && k == slot) {
    }
  }

  lemma TurnsDrop(inflight: set<Slot>, callers: Callers, who: CallerId)
    requires Turns(inflight, callers) && who in callers && !callers[who].HasTurn()
    ensures Turns(inflight, callers - {who})
  {
    forall c, k ensures Holds(callers - {who}, c, k) <==> Holds(callers, c, k) {
    }
  }

  lemma TurnsFinish(inflight: set<Slot>, callers: Callers, who: CallerId)
    requires Turns(inflight, callers) && who in callers && callers[who].HasTurn()
    ensures Turns(inflight - {callers[who].slot}, Notified(callers - {who}))
  {
    var slot := callers[who].slot;
    var callers' := Notified(callers - {who});
    assert Holds(callers, who, slot);
    forall c, k ensures Holds(callers', c, k) <==> Holds(callers, c, k) && c != who {
    }
    forall c | c in callers' && callers'[c].HasTurn() ensures callers'[c].slot != slot {
      assert Holds(callers', c, callers'[c].slot);
    }
    forall k | k in inflight - {slot} ensures exists c :: Holds(callers', c, k) {
      var c :| Holds(callers, c, k);
      assert Holds(callers', c, k);
    }
  }

  // Pin counts.

  lemma CountedMove(pins: map<Slot, nat>, callers: Callers, callers': Callers)
    requires Counted(pins, callers) && callers'.Keys == callers.Keys
             && forall c | c in callers :: callers'[c].slot == callers[c].slot
    ensures Counted(pins, callers')
  {
    forall slot ensures CallersOf(callers', slot) == CallersOf(callers, slot) {
    }
  }

  lemma CallersWith(callers: Callers, who: CallerId, k: Caller)
    requires who !in callers
    ensures CallersOf(callers[who := k], k.slot) == CallersOf(callers, k.slot) + {who}
    ensures |CallersOf(callers[who := k], k.slot)| == |CallersOf(callers, k.slot)| + 1
    ensures forall slot | slot != k.slot :: CallersOf(callers[who := k], slot) == CallersOf(callers, slot)
  {
    var callers' := callers[who := k];
    assert CallersOf(callers', k.slot) == CallersOf(callers, k.slot) + {who};
    forall slot | slot != k.slot ensures CallersOf(callers', slot) == CallersOf(callers, slot) {
      assert forall c :: c in CallersOf(callers', slot) <==> c in CallersOf(callers, slot);
    }
  }

  lemma CountedPin(t: Table, callers: Callers, who: CallerId, k: Caller)
    requires Counted(t.pins, callers) && who !in callers
    ensures Counted(Pin(t, k.slot).pins, callers[who := k])
  {
    hide CallersOf;
    CallersWith(callers, who, k);
    assert k.slot !in t.pins ==> |CallersOf(callers, k.slot)| == 0;
  }

  lemma CountedUnpin(t: Table, callers: Callers, who: CallerId)
    requires Counted(t.pins, callers) && who in callers
    ensures Counted(Unpin(t, callers[who].slot).pins, callers - {who})
    ensures callers[who].slot in t.pins
  {
    var mine := callers[who].slot;
    assert who in CallersOf(callers, mine);
    forall slot ensures CallersOf(callers - {who}, slot) ==
      CallersOf(callers, slot) - if slot == mine then {who} else {} {
    }
    assert |CallersOf(callers - {who}, mine)| == |CallersOf(callers, mine)| - 1;
    assert t.pins[mine] == 1 ==> CallersOf(callers - {who}, mine) == {};
  }

  // The cache.

  lemma {:induction false} WithoutLength(results: seq<Entry>, slot: Slot)
    requires Distinct(results)
    ensures |Without(results, slot)| == |results| - if Has(results, slot) then 1 else 0
  {
    if results != [] {
      var rest := results[1..];
      WithoutLength(rest, slot);
      assert forall e | e in rest :: e.slot != results[0].slot by {
        forall i | 0 <= i < |rest| ensures rest[i].slot != results[0].slot {
        }
      }
      assert results == [results[0]] + rest;
    }
  }

  lemma TouchKeeps(t: Table, slot: Slot)
    requires Distinct(t.results)
    ensures Distinct(Touch(t, slot).results) && |Touch(t, slot).results| == |t.results|
    ensures forall e :: e in Touch(t, slot).results <==> e in t.results
    ensures forall k :: Recorded(Touch(t, slot).results, k) == Recorded(t.results, k)
  {
    if Has(t.results, slot) {
      var e := Recorded(t.results, slot).value;
      AtEndDistinct(t.results, e);
      WithoutLength(t.results, slot);
      forall k ensures Recorded(AtEnd(t.results, e), k) == Recorded(t.results, k) {
        AtEndRecords(t.results, e, k);
      }
      forall x | x in t.results ensures x in AtEnd(t.results, e) {
        RecordedIs(t.results, x);
      }
    }
  }

  // Answers.

  lemma Appended(served: seq<Served>, one: Served)
    requires OneWin(served) && forall w | w in served && Wins(w) :: Agrees(w, one)
    ensures OneWin(served + [one])
  {
    var all := served + [one];
    forall i, j | 0 <= i < j < |all| && Wins(all[i]) ensures Agrees(all[i], all[j]) {
      assert all[i] in served;
    }
  }

  /** While a caller has the turn and is not recording, every success under its key is in the cache. */
  lemma WinIsCached(s: Sys, who: CallerId, one: Served)
    requires Inv(s) && who in s.callers && s.callers[who].HasTurn() && !s.callers[who].phase.Recording?
    requires one in s.served[s.callers[who].slot] && Wins(one)
    ensures Recorded(s.table.results, s.callers[who].slot) ==
              Some(Entry(s.callers[who].slot, one.fingerprint, one.answer.payload))
  {
    var slot := s.callers[who].slot;
    assert Kept(s.table.results, s.callers, slot, one);
    assert Holds(s.callers, who, slot);
    var recording := Caller(slot, one.fingerprint, Recording(one.answer.payload, false));
    assert forall c | c in s.callers && s.callers[c] == recording :: Holds(s.callers, c, slot);
  }

  // One event at a time.

  lemma BeginKeeps(s: Sys, who: CallerId, slot: Slot, fingerprint: string)
    requires Inv(s) && who !in s.callers
    ensures Inv(DoBegin(s, who, slot, fingerprint))
  {
    hide Turns, Counted, Holds, OneWin, NoWin, Distinct, Recorded;
    var s' := DoBegin(s, who, slot, fingerprint);
    TurnsTake(s.table.inflight, s.callers, who, slot, fingerprint);
    CountedPin(s.table, s.callers, who, s'.callers[who]);
    assert Once(s') by { BeginOnce(s, who, slot, fingerprint); }
  }

  lemma BeginOnce(s: Sys, who: CallerId, slot: Slot, fingerprint: string)
    requires Inv(s) && who !in s.callers
    ensures Once(DoBegin(s, who, slot, fingerprint))
  {
    hide Turns, Counted, Cached, NoWin, Recorded;
    var s' := DoBegin(s, who, slot, fingerprint);
    forall k, one | k in s'.served && one in s'.served[k] && Wins(one)
      ensures Kept(s'.table.results, s'.callers, k, one)
    {
      KeptMove(s.table.results, s.callers, s'.callers, k, one);
    }
  }

  /** A success stays kept while the caller recording it does not move. */
  lemma KeptMove(results: seq<Entry>, callers: Callers, callers': Callers, slot: Slot, one: Served)
    requires Wins(one) && Kept(results, callers, slot, one)
    requires forall c | c in callers && callers[c].phase.Recording? :: c in callers' && callers'[c] == callers[c]
    ensures Kept(results, callers', slot, one)
  {
    hide Recorded;
    if Recorded(results, slot) != Some(Entry(slot, one.fingerprint, one.answer.payload)) {
      var c :| c in callers && callers[c] == Caller(slot, one.fingerprint, Recording(one.answer.payload, false));
      assert c in callers';
    }
  }

  lemma RetryKeeps(s: Sys, who: CallerId)
    requires Inv(s) && who in s.callers && s.callers[who].phase.Awake?
    ensures Inv(DoRetry(s, who))
  {
    hide Turns, Counted, Holds, OneWin, NoWin, Distinct, Recorded, Wins, Kept;
    var s' := DoRetry(s, who);
    var k := s.callers[who];
    TurnsTake(s.table.inflight, s.callers, who, k.slot, k.fingerprint);
    CountedMove(s.table.pins, s.callers, s'.callers);
    forall slot, one | slot in s'.served && one in s'.served[slot] && Wins(one)
      ensures Kept(s'.table.results, s'.callers, slot, one)
    {
      KeptMove(s.table.results, s.callers, s'.callers, slot, one);
    }
  }

  lemma AbandonKeeps(s: Sys, who: CallerId)
    requires Inv(s) && who in s.callers && !s.callers[who].HasTurn()
    ensures Inv(DoAbandon(s, who))
  {
    hide Turns, Counted, Holds, OneWin, NoWin, Distinct, Recorded, Wins, Kept;
    var s' := DoAbandon(s, who);
    TurnsDrop(s.table.inflight, s.callers, who);
    CountedUnpin(s.table, s.callers, who);
    StillServed(s'.table.pins, s'.callers);
    forall slot, one | slot in s'.served && one in s'.served[slot] && Wins(one)
      ensures Kept(s'.table.results, s'.callers, slot, one)
    {
      KeptMove(s.table.results, s.callers, s'.callers, slot, one);
    }
  }

  lemma StillServed(pins: map<Slot, nat>, callers: Callers)
    requires Counted(pins, callers)
    ensures forall c | c in callers :: callers[c].slot in pins
  {
    forall c | c in callers ensures callers[c].slot in pins {
      assert c in CallersOf(callers, callers[c].slot);
    }
  }

  /** What an event of the caller whose turn it is leaves alone. */
  ghost predicate Frame(s: Sys, s': Sys, who: CallerId)
    requires who in s.callers
  {
    var mine := s.callers[who].slot;
    && (forall c | c in s'.callers && c != who ::
          c in s.callers && s'.callers[c].slot == s.callers[c].slot
          && (s'.callers[c] == s.callers[c] || !s'.callers[c].HasTurn()))
    && (forall c | c in s.callers && c != who && s.callers[c].phase.Recording? ::
         c in s'.callers && s'.callers[c] == s.callers[c])
    && (forall slot | slot in s'.served :: slot in s.served && (slot != mine ==> s'.served[slot] == s.served[slot]))
    && (forall c | c in s'.callers :: s'.callers[c].slot in s'.served)
    && (forall slot | slot in s'.served && slot != mine ::
         Recorded(s'.table.results, slot) == Recorded(s.table.results, slot))
  }

  lemma OthersMissed(s: Sys, s': Sys, who: CallerId)
    requires Inv(s) && who in s.callers && s.callers[who].HasTurn() && Frame(s, s', who)
    ensures forall c | c in s'.callers && c != who ::
              Missed(s'.table.results, s'.callers[c], s'.served[s'.callers[c].slot])
  {
    hide Counted, Cached, OneWin, NoWin, Distinct, Recorded, Wins, Kept, Has;
    var mine := s.callers[who].slot;
    assert Holds(s.callers, who, mine);
    forall c | c in s'.callers && c != who
      ensures Missed(s'.table.results, s'.callers[c], s'.served[s'.callers[c].slot])
    {
      var slot := s'.callers[c].slot;
      assert Missed(s.table.results, s.callers[c], s.served[slot]);
      assert s.callers[c].HasTurn() ==> Holds(s.callers, c, slot);
      SameHas(s.table.results, s'.table.results, slot);
    }
  }

  lemma SameHas(results: seq<Entry>, results': seq<Entry>, slot: Slot)
    ensures Recorded(results, slot) == Recorded(results', slot) ==> (Has(results, slot) <==> Has(results', slot))
  {
  }

  lemma OthersKept(s: Sys, s': Sys, who: CallerId, slot: Slot, one: Served)
    requires Inv(s) && who in s.callers && s.callers[who].HasTurn() && Frame(s, s', who)
    requires slot in s'.served && slot != s.callers[who].slot && one in s'.served[slot] && Wins(one)
    ensures Kept(s'.table.results, s'.callers, slot, one)
  {
    hide Turns, Counted, Cached, OneWin, NoWin, Distinct, Recorded, Has;
    assert Kept(s.table.results, s.callers, slot, one);
    if Recorded(s.table.results, slot) != Some(Entry(slot, one.fingerprint, one.answer.payload)) {
      var c :| c in s.callers && s.callers[c] == Caller(slot, one.fingerprint, Recording(one.answer.payload, false));
      assert c in s'.callers;
    }
  }

  /** The key whose turn it is, before and after: what has to be shown of it by itself. */
  ghost predicate MineOnce(s': Sys, slot: Slot) {
    slot in s'.served ==>
      OneWin(s'.served[slot]) && forall one | one in s'.served[slot] && Wins(one) ::
        Kept(s'.table.results, s'.callers, slot, one)
  }

  lemma OnceFramed(s: Sys, s': Sys, who: CallerId)
    requires Inv(s) && who in s.callers && s.callers[who].HasTurn() && Frame(s, s', who)
    requires MineOnce(s', s.callers[who].slot)
    requires who in s'.callers ==> Missed(s'.table.results, s'.callers[who], s'.served[s'.callers[who].slot])
    ensures Once(s')
  {
    hide Turns, Counted, Cached, OneWin, NoWin, Distinct, Recorded, Has, Kept, Wins, Missed;
    OthersMissed(s, s', who);
    forall slot, one | slot in s'.served && slot != s.callers[who].slot && one in s'.served[slot] && Wins(one)
      ensures Kept(s'.table.results, s'.callers, slot, one)
    {
      OthersKept(s, s', who, slot, one);
    }
  }

  lemma LookupKeeps(s: Sys, who: CallerId)
    requires Inv(s) && who in s.callers && s.callers[who].phase.Checking?
    ensures s.callers[who].slot in s.served && Inv(DoLookup(s, who))
  {
    hide Turns, Counted, OneWin, Distinct, Recorded, Has, Wins, Kept, Touch, NoWin, Missed, HitOf;
    var s' := DoLookup(s, who);
    var k := s.callers[who];
    TurnsMove(s.table.inflight, s.callers, who, s'.callers[who].phase);
    CountedMove(s.table.pins, s.callers, s'.callers);
    TouchKeeps(s.table, k.slot);
    TouchFrame(s.table, k.slot);
    LookupMine(s, who);
    OnceFramed(s, s', who);
  }

  lemma TouchFrame(t: Table, slot: Slot)
    ensures Touch(t, slot).pins == t.pins && Touch(t, slot).inflight == t.inflight
  {
  }

  lemma LookupMine(s: Sys, who: CallerId)
    requires Inv(s) && who in s.callers && s.callers[who].phase.Checking?
    ensures s.callers[who].slot in s.served
    ensures var s' := DoLookup(s, who);
            MineOnce(s', s.callers[who].slot)
            && Missed(s'.table.results, s'.callers[who], s'.served[s.callers[who].slot])
  {
    hide Turns, Counted, Cached, OneWin, Distinct, Recorded, Touch, AtEnd;
    var s' := DoLookup(s, who);
    var k := s.callers[who];
    var served := s.served[k.slot];
    TouchRecorded(s, k.slot);
    forall one | one in served && Wins(one)
      ensures Recorded(s.table.results, k.slot) == Some(Entry(k.slot, one.fingerprint, one.answer.payload))
    {
      WinIsCached(s, who, one);
    }
    if HitOf(s.table, k.slot, k.fingerprint).Some? {
      Appended(served, Served(k.fingerprint, AnswerOf(HitOf(s.table, k.slot, k.fingerprint).value)));
    }
  }

  lemma TouchRecorded(s: Sys, slot: Slot)
    requires Cached(s)
    ensures Recorded(Touch(s.table, slot).results, slot) == Recorded(s.table.results, slot)
  {
    TouchKeeps(s.table, slot);
  }

  lemma ExecuteKeeps(s: Sys, who: CallerId, success: bool, payload: string, dryRun: bool)
    requires Inv(s) && who in s.callers && s.callers[who].phase.Running?
    ensures s.callers[who].slot in s.served && Inv(DoExecute(s, who, success, payload, dryRun))
  {
    hide Turns, Counted, OneWin, Distinct, Recorded, Has, Wins, Kept, NoWin, Missed;
    var s' := DoExecute(s, who, success, payload, dryRun);
    TurnsMove(s.table.inflight, s.callers, who, s'.callers[who].phase);
    CountedMove(s.table.pins, s.callers, s'.callers);
    ExecuteMine(s, who, success, payload, dryRun);
    OnceFramed(s, s', who);
  }

  lemma ExecuteMine(s: Sys, who: CallerId, success: bool, payload: string, dryRun: bool)
    requires Inv(s) && who in s.callers && s.callers[who].phase.Running?
    ensures s.callers[who].slot in s.served
    ensures var s' := DoExecute(s, who, success, payload, dryRun);
            MineOnce(s', s.callers[who].slot)
            && Missed(s'.table.results, s'.callers[who], s'.served[s.callers[who].slot])
  {
    hide Turns, Counted, Cached, OneWin, Distinct, Recorded, Has;
    var s' := DoExecute(s, who, success, payload, dryRun);
    var k := s.callers[who];
    var served := s.served[k.slot];
    var one := Served(k.fingerprint, if success then Succeeded(payload, dryRun) else Failed);
    assert Missed(s.table.results, k, served);
    Appended(served, one);
    assert s'.served[k.slot] == served + [one];
    if Wins(one) {
      assert s'.callers[who] == Caller(k.slot, k.fingerprint, Recording(payload, false));
    }
  }

  lemma RecordFrame(s: Sys, who: CallerId)
    requires Inv(s) && who in s.callers && s.callers[who].phase.Recording?
    ensures Frame(s, DoRecord(s, who), who) && Cached(DoRecord(s, who))
  {
    hide Turns, Counted, OneWin, Recorded, Has, Wins, Kept, NoWin, Missed, Store, Distinct;
    var k := s.callers[who];
    StoreFrame(s.table, k);
    if !k.phase.dryRun {
      StoreKeeps(s.table, Entry(k.slot, k.fingerprint, k.phase.payload));
    }
  }

  lemma RecordKeeps(s: Sys, who: CallerId)
    requires Inv(s) && who in s.callers && s.callers[who].phase.Recording?
    ensures Inv(DoRecord(s, who))
  {
    hide Turns, Counted, OneWin, Recorded, Has, Wins, Kept, NoWin, Missed, Store, Distinct, Frame, MineOnce, Cached,
      Once;
    var s' := DoRecord(s, who);
    TurnsMove(s.table.inflight, s.callers, who, s'.callers[who].phase);
    CountedMove(s.table.pins, s.callers, s'.callers);
    StoreFrame(s.table, s.callers[who]);
    RecordFrame(s, who);
    RecordMine(s, who);
    OnceFramed(s, s', who);
  }

  lemma StoreFrame(t: Table, k: Caller)
    ensures forall e :: Store(t, e).pins == t.pins && Store(t, e).inflight == t.inflight
  {
  }

  lemma StoreKeeps(t: Table, e: Entry)
    requires Distinct(t.results)
    ensures Distinct(Store(t, e).results) && Bounded(Store(t, e).results, t.pins)
    ensures forall slot | slot in t.pins ::
              Recorded(Store(t, e).results, slot) == if slot == e.slot then Some(e) else Recorded(t.results, slot)
  {
    AtEndDistinct(t.results, e);
    PruneDistinct(AtEnd(t.results, e), t.pins);
    forall slot | slot in t.pins
      ensures Recorded(Store(t, e).results, slot) == if slot == e.slot then Some(e) else Recorded(t.results, slot)
    {
      PinnedStays(AtEnd(t.results, e), t.pins, slot);
      AtEndRecords(t.results, e, slot);
    }
  }

  lemma OnlyLastWins(served: seq<Served>)
    requires OneWin(served) && served != [] && Wins(served[|served| - 1])
    ensures forall one | one in served && Wins(one) :: one == served[|served| - 1]
  {
    forall i | 0 <= i < |served| && Wins(served[i]) ensures i == |served| - 1 {
    }
  }

  lemma RecordMine(s: Sys, who: CallerId)
    requires Inv(s) && who in s.callers && s.callers[who].phase.Recording?
    ensures var s' := DoRecord(s, who);
            && s.callers[who].slot in s'.served && MineOnce(s', s.callers[who].slot)
            && Missed(s'.table.results, s'.callers[who], s'.served[s.callers[who].slot])
  {
    hide Turns, Counted, Distinct, Recorded, Has, Store;
    var s' := DoRecord(s, who);
    var k := s.callers[who];
    var served := s.served[k.slot];
    assert Missed(s.table.results, k, served);
    if k.phase.dryRun {
      assert NoWin(served);
    } else {
      var e := Entry(k.slot, k.fingerprint, k.phase.payload);
      StoreKeeps(s.table, e);
      OnlyLastWins(served);
    }
  }

  lemma DerailKeeps(s: Sys, who: CallerId)
    requires Inv(s) && who in s.callers && s.callers[who].phase.Leaving?
    ensures Inv(DoDerail(s, who))
  {
    hide Turns, Counted, OneWin, Recorded, Has, Wins, Kept, NoWin, Distinct;
    var s' := DoDerail(s, who);
    TurnsMove(s.table.inflight, s.callers, who, Leaving(Failed));
    CountedMove(s.table.pins, s.callers, s'.callers);
    var slot := s.callers[who].slot;
    forall one | one in s.served[slot] && Wins(one) ensures Kept(s'.table.results, s'.callers, slot, one) {
      KeptMove(s.table.results, s.callers, s'.callers, slot, one);
    }
    OnceFramed(s, s', who);
  }

  lemma FinishKeeps(s: Sys, who: CallerId)
    requires Inv(s) && who in s.callers && s.callers[who].phase.Leaving?
    ensures Inv(DoFinish(s, who))
  {
    hide Turns, Counted, Once, Prune, Unpin, Bounded, Distinct, Recorded;
    var slot := s.callers[who].slot;
    FinishTurns(s, who);
    LeaveFrame(s, slot);
    FinishOnce(s, who);
  }

  /** Turns and pins after leaving. */
  lemma FinishTurns(s: Sys, who: CallerId)
    requires Inv(s) && who in s.callers && s.callers[who].phase.Leaving?
    ensures var s' := DoFinish(s, who);
            && Turns(s'.table.inflight, s'.callers) && Counted(s'.table.pins, s'.callers)
            && forall c | c in s'.callers :: s'.callers[c].slot in s'.table.pins
  {
    hide Turns, Counted, Once, Cached, Prune, Unpin;
    var slot := s.callers[who].slot;
    var s' := DoFinish(s, who);
    TurnsFinish(s.table.inflight, s.callers, who);
    var t := s.table.(inflight := s.table.inflight - {slot});
    UnpinFrame(t, slot);
    CountedUnpin(t, s.callers, who);
    CountedMove(Unpin(t, slot).pins, s.callers - {who}, s'.callers);
    StillServed(s'.table.pins, s'.callers);
  }

  /** The cache after leaving, and which keys are still served. */
  lemma LeaveFrame(s: Sys, slot: Slot)
    requires Cached(s) && s.served.Keys == s.table.pins.Keys
    ensures var t := Leave(s.table, slot);
            && Distinct(t.results) && Bounded(t.results, t.pins)
            && Forget(s, t, slot).Keys == t.pins.Keys && t.pins.Keys <= s.table.pins.Keys
            && forall k | k in t.pins :: Recorded(t.results, k) == Recorded(s.table.results, k)
  {
    hide Prune, Unpin, Bounded, Distinct, Recorded;
    UnpinFrame(s.table.(inflight := s.table.inflight - {slot}), slot);
    LeaveKeeps(s.table, slot);
    UnpinKeys(s.table.(inflight := s.table.inflight - {slot}), slot);
  }

  lemma UnpinKeys(t: Table, slot: Slot)
    ensures slot in Unpin(t, slot).pins ==> Unpin(t, slot).pins.Keys == t.pins.Keys
    ensures slot !in Unpin(t, slot).pins ==> Unpin(t, slot).pins.Keys == t.pins.Keys - {slot}
  {
  }

  lemma FinishOnce(s: Sys, who: CallerId)
    requires Inv(s) && who in s.callers && s.callers[who].phase.Leaving?
    ensures Once(DoFinish(s, who))
  {
    hide Turns, Counted, Cached, OneWin, Recorded, Has, Wins, Kept, NoWin, Missed, Leave, Distinct, Bounded;
    var s' := DoFinish(s, who);
    assert Cached(s) && s.served.Keys == s.table.pins.Keys;
    LeaveFrame(s, s.callers[who].slot);
    FinishTurns(s, who);
    FinishMine(s, who);
    OnceFramed(s, s', who);
  }

  lemma UnpinFrame(t: Table, slot: Slot)
    ensures Unpin(t, slot).inflight == t.inflight && Unpin(t, slot).results == t.results
    ensures Unpin(t, slot).pins.Keys == t.pins.Keys || Unpin(t, slot).pins.Keys == t.pins.Keys - {slot}
    ensures forall u: Table | u.pins == t.pins :: Unpin(u, slot).pins == Unpin(t, slot).pins
  {
  }

  lemma LeaveKeeps(t: Table, slot: Slot)
    requires Distinct(t.results)
    ensures var u := Leave(t, slot);
            && Distinct(u.results) && Bounded(u.results, u.pins)
            && forall k | k in u.pins :: Recorded(u.results, k) == Recorded(t.results, k)
  {
    var u := Leave(t, slot);
    PruneDistinct(t.results, u.pins);
    forall k | k in u.pins ensures Recorded(u.results, k) == Recorded(t.results, k) {
      PinnedStays(t.results, u.pins, k);
    }
  }

  lemma FinishMine(s: Sys, who: CallerId)
    requires Inv(s) && who in s.callers && s.callers[who].phase.Leaving?
    ensures MineOnce(DoFinish(s, who), s.callers[who].slot)
  {
    hide Turns, Counted, OneWin, Distinct, Recorded, Has, Unpin, Prune;
    var s' := DoFinish(s, who);
    var slot := s.callers[who].slot;
    LeaveKeeps(s.table, slot);
    if slot in s'.served {
      forall one | one in s.served[slot] && Wins(one) ensures Kept(s'.table.results, s'.callers, slot, one) {
        WinIsCached(s, who, one);
      }
    }
  }

  /** Every event keeps every invariant. */
  lemma EventKeeps(s: Sys, e: Event)
    requires Inv(s) && Enabled(s, e)
    ensures !e.Begin? ==> s.callers[e.who].slot in s.served
    ensures Inv(Do(s, e))
  {
    hide Inv, DoBegin, DoRetry, DoAbandon, DoLookup, DoExecute, DoRecord, DoDerail, DoFinish;
    assert !e.Begin? ==> s.callers[e.who].slot in s.served by { InvServes(s); }
    match e
    case Begin(who, slot, fingerprint) => BeginKeeps(s, who, slot, fingerprint);
    case Retry(who) => RetryKeeps(s, who);
    case Abandon(who) => AbandonKeeps(s, who);
    case Lookup(who) => LookupKeeps(s, who);
    case Execute(who, success, payload, dryRun) => ExecuteKeeps(s, who, success, payload, dryRun);
    case Record(who) => RecordKeeps(s, who);
    case Derail(who) => DerailKeeps(s, who);
    case Finish(who) => FinishKeeps(s, who);
  }

  lemma InvServes(s: Sys)
    requires Inv(s)
    ensures forall c | c in s.callers :: s.callers[c].slot in s.served
  {
  }

  ghost predicate Takes(s: Sys, e: Event, s': Sys) {
    Enabled(s, e) && (!e.Begin? ==> s.callers[e.who].slot in s.served) && s' == Do(s, e)
  }

  ghost predicate Step(s: Sys, s': Sys) {
    exists e: Event :: Takes(s, e, s')
  }

  ghost predicate Run(states: seq<Sys>) {
    states != [] && states[0] == Start() && forall i | 0 <= i < |states| - 1 :: Step(states[i], states[i + 1])
  }

  /** Every state of every run, however the callers interleave. */
  lemma {:induction false} RunKeeps(states: seq<Sys>, n: nat)
    requires Run(states) && n < |states|
    ensures Inv(states[n])
  {
    hide Inv, Do;
    if n == 0 {
      StartInv();
    } else {
      RunKeeps(states, n - 1);
      var s := states[n - 1];
      assert Step(s, states[n]);
      var e :| Takes(s, e, states[n]);
      EventKeeps(s, e);
    }
  }

  /** The promises, in any state of any run: at most one caller a key is between begin and finish; the
      pin count is the number of callers waiting or running; among the answers given while a key stays
      pinned at most one is a success that counts, and all later ones repeat it or refuse the key. */
  lemma AtMostOnce(states: seq<Sys>, n: nat, slot: Slot)
    requires Run(states) && n < |states|
    ensures var s := states[n];
            && (forall c, d | Holds(s.callers, c, slot) && Holds(s.callers, d, slot) :: c == d)
            && Pinned(s.table, slot) == |CallersOf(s.callers, slot)|
            && (slot in s.served <==> CallersOf(s.callers, slot) != {})
            && (slot in s.served ==> OneWin(s.served[slot]))
            && (forall c | c in s.callers && s.callers[c].slot == slot && s.callers[c].phase.Leaving? ::
                  slot in s.served && ToldTruly(s.callers[c], s.served[slot]))
  {
    hide OneWin, Cached, Kept, Recorded, Has;
    RunKeeps(states, n);
  }

  /** No state of a run is stuck: while anybody is active, somebody can take a step that is not an
      interruption. */
  lemma NeverAllAsleep(states: seq<Sys>, n: nat)
    requires Run(states) && n < |states| && states[n].callers != map[]
    ensures exists e: Event :: !e.Begin? && !e.Abandon? && Enabled(states[n], e)
  {
    hide Once, Counted, Cached;
    RunKeeps(states, n);
    var s := states[n];
    var c :| c in s.callers;
    var d := c;
    if s.callers[c].phase.Asleep? {
      d :| Holds(s.callers, d, s.callers[c].slot);
    }
    match s.callers[d].phase
    case Asleep => assert false;
    case Awake => assert Enabled(s, Retry(d));
    case Checking => assert Enabled(s, Lookup(d));
    case Running => assert Enabled(s, Execute(d, false, "", false));
    case Recording(_, _) => assert Enabled(s, Record(d));
    case Leaving(_) => assert Enabled(s, Finish(d));
  }

  // The cache bound.

  /** Interrupting this wait takes the last pin of a recorded key while there are too many results. */
  ghost predicate Spills(s: Sys, who: CallerId) {
    && Enabled(s, Abandon(who))
    && |s.table.results| > CACHE_ENTRIES
    && var slot := s.callers[who].slot; Pinned(s.table, slot) == 1 && Has(s.table.results, slot)
  }

  ghost predicate InBounds(s: Sys) {
    Bounded(s.table.results, s.table.pins)
  }

  /** From a state within the bound - at most 64 results, or all of them pinned - every event but one kind
      leads to such a state; an interrupted wait does exactly if there are not too many results, or the key
      has another pin, or no result. */
  lemma BoundKeptIff(s: Sys, e: Event)
    requires Inv(s) && InBounds(s) && Enabled(s, e)
    ensures !e.Begin? ==> s.callers[e.who].slot in s.served
    ensures InBounds(Do(s, e)) <==> !(e.Abandon? && Spills(s, e.who))
  {
    hide Turns, Once, Counted, Recorded, AtEnd, Prune, Distinct;
    assert !e.Begin? ==> s.callers[e.who].slot in s.served by { InvServes(s); }
    match e
    case Abandon(who) =>
      var slot := s.callers[who].slot;
      PinHeld(s.table.pins, s.callers, who);
      AbandonBound(s.table, slot);
    case Lookup(who) =>
      TouchKeeps(s.table, s.callers[who].slot);
    case Record(who) =>
      if !s.callers[who].phase.dryRun {
        StoreKeeps(s.table, Entry(s.callers[who].slot, s.callers[who].fingerprint, s.callers[who].phase.payload));
      }
    case Finish(who) =>
      LeaveKeeps(s.table, s.callers[who].slot);
    case _ =>
  }

  lemma PinHeld(pins: map<Slot, nat>, callers: Callers, who: CallerId)
    requires Counted(pins, callers) && who in callers
    ensures callers[who].slot in pins && pins[callers[who].slot] > 0
  {
    assert who in CallersOf(callers, callers[who].slot);
  }

  lemma AbandonBound(t: Table, slot: Slot)
    requires Bounded(t.results, t.pins) && slot in t.pins
    ensures Bounded(t.results, Unpin(t, slot).pins) <==>
              |t.results| <= CACHE_ENTRIES || t.pins[slot] > 1 || !Has(t.results, slot)
  {
  }

  ghost predicate SpillsInto(s: Sys, who: CallerId, s': Sys) {
    Spills(s, who) && s.callers[who].slot in s.served && s' == Do(s, Abandon(who))
  }

  ghost predicate SpillStep(s: Sys, s': Sys) {
    exists who :: SpillsInto(s, who, s')
  }

  /** In every run: a state within the bound is followed by one within it, unless the step is such an interruption. */
  lemma BoundInRun(states: seq<Sys>, n: nat)
    requires Run(states) && n + 1 < |states| && InBounds(states[n])
    ensures InBounds(states[n + 1]) <==> !SpillStep(states[n], states[n + 1])
  {
    hide Inv, InBounds, Do, Spills, SpillsInto;
    RunKeeps(states, n);
    var s := states[n];
    assert Step(s, states[n + 1]);
    var e :| Takes(s, e, states[n + 1]);
    BoundKeptIff(s, e);
    if SpillStep(s, states[n + 1]) {
      var who :| SpillsInto(s, who, states[n + 1]);
      SpillBreaks(s, who, states[n + 1]);
    }
    if !InBounds(states[n + 1]) {
      assert SpillsInto(s, e.who, states[n + 1]) by { BreakSpills(s, e, states[n + 1]); }
    }
  }

  lemma SpillBreaks(s: Sys, who: CallerId, s': Sys)
    requires Inv(s) && InBounds(s) && SpillsInto(s, who, s')
    ensures !InBounds(s')
  {
    hide Inv, InBounds, Do;
    BoundKeptIff(s, Abandon(who));
  }

  lemma BreakSpills(s: Sys, e: Event, s': Sys)
    requires Inv(s) && InBounds(s) && Enabled(s, e) && (!e.Begin? ==> s.callers[e.who].slot in s.served)
             && s' == Do(s, e)
    requires !InBounds(s')
    ensures SpillsInto(s, e.who, s')
  {
    hide Inv, InBounds, Do;
    BoundKeptIff(s, e);
  }

  /** A run together with the events that make it. */
  ghost predicate Traced(states: seq<Sys>, events: seq<Event>) {
    && |states| == |events| + 1 && states[0] == Start()
    && forall i | 0 <= i < |events| :: Takes(states[i], events[i], states[i + 1])
  }

  /** Every run has such events. */
  lemma {:induction false} RunIsTraced(states: seq<Sys>) returns (events: seq<Event>)
    requires Run(states)
    ensures Traced(states, events)
  {
    hide Do, Takes;
    var last := |states| - 1;
    if last == 0 {
      events := [];
    } else {
      var init := states[..last];
      forall i | 0 <= i < |init| - 1 ensures Step(init[i], init[i + 1]) {
        assert Step(states[i], states[i + 1]);
      }
      var earlier := RunIsTraced(init);
      assert Step(states[last - 1], states[last]);
      var e :| Takes(states[last - 1], e, states[last]);
      events := earlier + [e];
    }
  }

  lemma {:induction false} TracedIsRun(states: seq<Sys>, events: seq<Event>)
    requires Traced(states, events)
    ensures Run(states)
  {
    hide Takes;
    forall i | 0 <= i < |states| - 1 ensures Step(states[i], states[i + 1]) {
      assert Takes(states[i], events[i], states[i + 1]);
    }
  }

  /** There are too many results, and nobody has the one of this key pinned. */
  ghost predicate Stray(s: Sys, slot: Slot) {
    |s.table.results| > CACHE_ENTRIES && Has(s.table.results, slot) && slot !in s.table.pins
  }

  /** The event interrupts a wait for this key, which spills. */
  ghost predicate SpillsKey(s: Sys, e: Event, slot: Slot) {
    e.Abandon? && Spills(s, e.who) && s.callers[e.who].slot == slot
  }

  /** The event pins this key again, or prunes the results. */
  predicate Settles(s: Sys, e: Event, slot: Slot) {
    || (e.Begin? && e.slot == slot)
    || (e.Record? && e.who in s.callers && s.callers[e.who].phase.Recording? && !s.callers[e.who].phase.dryRun)
    || e.Finish?
  }

  /** A result becomes stray only when a wait for it spills, and stays so until an event settles it. */
  lemma StrayStep(s: Sys, e: Event, slot: Slot)
    requires Inv(s) && Enabled(s, e)
    ensures !e.Begin? ==> s.callers[e.who].slot in s.served
    ensures Stray(Do(s, e), slot) <==> SpillsKey(s, e, slot) || (Stray(s, slot) && !Settles(s, e, slot))
  {
    hide Turns, Once, Counted, Recorded, AtEnd, Prune, Distinct;
    assert !e.Begin? ==> s.callers[e.who].slot in s.served by { InvServes(s); }
    match e
    case Abandon(who) =>
      PinHeld(s.table.pins, s.callers, who);
    case Lookup(who) =>
      TouchKeeps(s.table, s.callers[who].slot);
    case Record(who) =>
      if !s.callers[who].phase.dryRun {
        StoreKeeps(s.table, Entry(s.callers[who].slot, s.callers[who].fingerprint, s.callers[who].phase.payload));
      }
    case Finish(who) =>
      LeaveKeeps(s.table, s.callers[who].slot);
    case _ =>
  }

  /** Event k spilled the key, and no later one before n has settled it. */
  ghost predicate SpiltSince(states: seq<Sys>, events: seq<Event>, k: nat, n: nat, slot: Slot)
    requires k < n <= |events| == |states| - 1
  {
    SpillsKey(states[k], events[k], slot) && forall j | k < j < n :: !Settles(states[j], events[j], slot)
  }

  lemma {:induction false} StrayIff(states: seq<Sys>, events: seq<Event>, n: nat, slot: Slot)
    requires Traced(states, events) && n <= |events|
    ensures Stray(states[n], slot) <==> exists k: nat :: k < n && SpiltSince(states, events, k, n, slot)
  {
    hide Do, Inv, SpillsKey, Settles, Stray;
    if n == 0 {
      assert !Stray(Start(), slot) by { NothingStray(slot); }
    } else {
      StrayIff(states, events, n - 1, slot);
      TracedIsRun(states, events);
      RunKeeps(states, n - 1);
      var s, e := states[n - 1], events[n - 1];
      assert Takes(s, e, states[n]);
      StrayStep(s, e, slot);
      if Stray(states[n], slot) {
        if SpillsKey(s, e, slot) {
          assert SpiltSince(states, events, n - 1, n, slot);
        } else {
          var k: nat :| k < n - 1 && SpiltSince(states, events, k, n - 1, slot);
          assert SpiltSince(states, events, k, n, slot);
        }
      }
      forall k: nat | k < n && SpiltSince(states, events, k, n, slot) ensures Stray(states[n], slot) {
        if k < n - 1 {
          assert SpiltSince(states, events, k, n - 1, slot) && !Settles(s, e, slot);
        }
      }
    }
  }

  lemma NothingStray(slot: Slot)
    ensures !Stray(Start(), slot)
  {
  }

  lemma NoneStray(s: Sys)
    ensures InBounds(s) <==> forall slot :: !Stray(s, slot)
  {
    if !InBounds(s) {
      var e :| e in s.table.results && e.slot !in s.table.pins;
      assert Stray(s, e.slot);
    }
  }

  /** The cache, in every state of every run: it holds at most 64 results or only pinned ones, exactly if no
      interrupted wait has taken the last pin of a recorded key with more than 64 results there, without the
      key being pinned again or the results pruned since. After a prune it is within the bound, and when
      nobody is active that means at most 64 results. */
  lemma CacheIsBounded(states: seq<Sys>, events: seq<Event>, n: nat)
    requires Traced(states, events) && n <= |events|
    ensures InBounds(states[n]) <==> !exists slot, k: nat :: k < n && SpiltSince(states, events, k, n, slot)
    ensures !states[n].interrupted ==> InBounds(states[n])
    ensures states[n].callers == map[] ==> (InBounds(states[n]) <==> |states[n].table.results| <= 64)
  {
    hide Do, Inv, Stray, SpiltSince, InBounds;
    forall slot ensures Stray(states[n], slot) <==> exists k: nat :: k < n && SpiltSince(states, events, k, n, slot) {
      StrayIff(states, events, n, slot);
    }
    NoneStray(states[n]);
    if !InBounds(states[n]) {
      var slot :| Stray(states[n], slot);
      var k: nat :| k < n && SpiltSince(states, events, k, n, slot);
    }
    forall slot, k: nat | k < n && SpiltSince(states, events, k, n, slot) ensures Stray(states[n], slot) {
    }
    TracedIsRun(states, events);
    RunKeeps(states, n);
    InBoundsWhen(states[n]);
  }

  lemma InBoundsWhen(s: Sys)
    requires Inv(s)
    ensures !s.interrupted ==> InBounds(s)
    ensures s.callers == map[] ==> (InBounds(s) <==> |s.table.results| <= CACHE_ENTRIES)
  {
    hide Once, Turns;
    if s.callers == map[] {
      assert forall slot :: CallersOf(s.callers, slot) == {};
      assert s.table.results != [] ==> s.table.results[0] in s.table.results;
    }
  }

  // A run that breaks the bound.

  function KeyOf(i: nat): Slot {
    Slot("tool", seq(i + 1, _ => 'k'))
  }

  lemma KeysApart(i: nat, j: nat)
    requires KeyOf(i) == KeyOf(j)
    ensures i == j
  {
    assert |KeyOf(i).key| == i + 1 && |KeyOf(j).key| == j + 1;
  }

  /** After n keys have each been through a call that succeeded while a second one slept, and none of the
      woken second callers has run yet. */
  function Crowded(n: nat): Sys {
    if n == 0 then Start()
    else
      var s, slot := Crowded(n - 1), KeyOf(n - 1);
      Sys(Table({}, s.table.pins[slot := 1], s.table.results + [Entry(slot, "", "")]),
          s.callers[2 * n - 1 := Caller(slot, "", Awake)],
          s.served[slot := [Served("", Succeeded("", false))]], false)
  }

  lemma {:induction false} CrowdedFacts(n: nat)
    ensures var s := Crowded(n);
            && s.table.inflight == {} && |s.table.results| == n && !s.interrupted
            && (forall e | e in s.table.results :: e.slot in s.table.pins)
            && (forall slot | slot in s.table.pins || slot in s.served :: exists i: nat :: i < n && slot == KeyOf(i))
            && (forall c | c in s.callers :: c < 2 * n && s.callers[c].phase == Awake)
  {
    hide KeyOf;
    if n > 0 {
      CrowdedFacts(n - 1);
      assert Crowded(n).table.results[n - 1].slot == KeyOf(n - 1);
    }
  }

  lemma NextKeyIsNew(n: nat)
    ensures var s, slot := Crowded(n), KeyOf(n);
            slot !in s.table.pins && slot !in s.served && !Has(s.table.results, slot)
  {
    hide KeyOf;
    CrowdedFacts(n);
    forall i: nat | i < n && KeyOf(i) == KeyOf(n) ensures false {
      KeysApart(i, n);
    }
  }

  lemma AllPinnedStay(results: seq<Entry>, pins: map<Slot, nat>)
    requires forall e | e in results :: e.slot in pins
    ensures Prune(results, pins) == results
  {
    assert FirstUnpinned(results, pins) == None;
  }

  /** What the call under the next key has brought about, its second caller asleep. */
  function Midway(n: nat, phase: Phase, recorded: seq<Entry>, told: seq<Served>): Sys {
    var s, slot := Crowded(n), KeyOf(n);
    Sys(Table({slot}, s.table.pins[slot := 2], s.table.results + recorded),
        s.callers[2 * n := Caller(slot, "", phase)][2 * n + 1 := Caller(slot, "", Asleep)],
        s.served[slot := told], false)
  }

  const WON := [Served("", Succeeded("", false))]

  lemma MidwayReady(n: nat, phase: Phase, recorded: seq<Entry>, told: seq<Served>)
    ensures var s := Midway(n, phase, recorded, told);
            2 * n in s.callers && s.callers[2 * n] == Caller(KeyOf(n), "", phase) && KeyOf(n) in s.served
  {
  }

  lemma NextCallersAreNew(n: nat)
    ensures var s := Crowded(n);
            2 * n !in s.callers && 2 * n + 1 !in s.callers && s.table.inflight == {} && !s.interrupted
  {
    CrowdedFacts(n);
  }

  lemma NextKeyEnters(n: nat)
    ensures var s1 := DoBegin(Crowded(n), 2 * n, KeyOf(n), "");
            2 * n + 1 !in s1.callers && DoBegin(s1, 2 * n + 1, KeyOf(n), "") == Midway(n, Checking, [], [])
  {
    hide KeyOf, Crowded, Has;
    NextCallersAreNew(n);
    NextKeyIsNew(n);
    var s, slot := Crowded(n), KeyOf(n);
    assert s.table.results + [] == s.table.results;
    assert s.table.pins[slot := 1][slot := 2] == s.table.pins[slot := 2];
  }

  lemma NextKeyMisses(n: nat)
    ensures 2 * n in Midway(n, Checking, [], []).callers && KeyOf(n) in Midway(n, Checking, [], []).served
    ensures DoLookup(Midway(n, Checking, [], []), 2 * n) == Midway(n, Running, [], [])
  {
    hide KeyOf, Crowded;
    NextKeyIsNew(n);
    var s, m := Crowded(n), Midway(n, Checking, [], []);
    assert m.table.results == s.table.results;
    assert Recorded(m.table.results, KeyOf(n)) == None;
    assert Move(m, 2 * n, Running) == Midway(n, Running, [], []).callers;
  }

  lemma NextKeySucceeds(n: nat)
    ensures 2 * n in Midway(n, Running, [], []).callers && KeyOf(n) in Midway(n, Running, [], []).served
    ensures DoExecute(Midway(n, Running, [], []), 2 * n, true, "", false) == Midway(n, Recording("", false), [], WON)
  {
    hide KeyOf, Crowded;
    var m := Midway(n, Running, [], []);
    assert Move(m, 2 * n, Recording("", false)) == Midway(n, Recording("", false), [], WON).callers;
    assert m.served[KeyOf(n)] + WON == WON;
  }

  lemma NextKeyStored(n: nat, t: Table)
    requires t == Table({KeyOf(n)}, Crowded(n).table.pins[KeyOf(n) := 2], Crowded(n).table.results)
    ensures Store(t, Entry(KeyOf(n), "", "")) == t.(results := t.results + [Entry(KeyOf(n), "", "")])
  {
    hide KeyOf, Crowded, Prune, Has;
    CrowdedFacts(n);
    NextKeyIsNew(n);
    assert forall i | 0 <= i < |t.results| :: t.results[i] in t.results && t.results[i].slot != KeyOf(n);
    NothingWithout(t.results, KeyOf(n));
    AllPinnedStay(t.results + [Entry(KeyOf(n), "", "")], t.pins);
  }

  lemma NextKeyRecords(n: nat)
    ensures 2 * n in Midway(n, Recording("", false), [], WON).callers
    ensures DoRecord(Midway(n, Recording("", false), [], WON), 2 * n)
         == Midway(n, Leaving(Succeeded("", false)), [Entry(KeyOf(n), "", "")], WON)
  {
    hide KeyOf, Crowded, Store;
    var m, e := Midway(n, Recording("", false), [], WON), Entry(KeyOf(n), "", "");
    assert m.table.results == Crowded(n).table.results;
    NextKeyStored(n, m.table);
    assert Move(m, 2 * n, Leaving(Succeeded("", false))) == Midway(n, Leaving(Succeeded("", false)), [e], WON).callers;
  }

  lemma NextKeyLeaves(n: nat)
    ensures 2 * n in Midway(n, Leaving(Succeeded("", false)), [Entry(KeyOf(n), "", "")], WON).callers
    ensures DoFinish(Midway(n, Leaving(Succeeded("", false)), [Entry(KeyOf(n), "", "")], WON), 2 * n) == Crowded(n + 1)
  {
    hide KeyOf, Crowded, Prune, Leave, Notified;
    var slot := KeyOf(n);
    var m := Midway(n, Leaving(Succeeded("", false)), [Entry(slot, "", "")], WON);
    LastPinLeft(n, m.table);
    LastCallersGone(n, m);
    CrowdedNext(n);
  }

  lemma CrowdedNext(n: nat)
    ensures var s, slot := Crowded(n), KeyOf(n);
            Crowded(n + 1) == Sys(Table({}, s.table.pins[slot := 1], s.table.results + [Entry(slot, "", "")]),
                                  s.callers[2 * n + 1 := Caller(slot, "", Awake)], s.served[slot := WON], false)
  {
    hide KeyOf;
  }

  lemma LastPinLeft(n: nat, t: Table)
    requires var s, slot := Crowded(n), KeyOf(n);
             t == Table({slot}, s.table.pins[slot := 2], s.table.results + [Entry(slot, "", "")])
    ensures var s, slot := Crowded(n), KeyOf(n);
            Leave(t, slot) == Table({}, s.table.pins[slot := 1], s.table.results + [Entry(slot, "", "")])
  {
    hide KeyOf, Crowded, Prune;
    CrowdedFacts(n);
    var s, slot := Crowded(n), KeyOf(n);
    assert t.pins[slot := 1] == s.table.pins[slot := 1];
    AllPinnedStay(t.results, s.table.pins[slot := 1]);
    assert {slot} - {slot} == {};
  }

  lemma LastCallersGone(n: nat, m: Sys)
    requires m == Midway(n, Leaving(Succeeded("", false)), [Entry(KeyOf(n), "", "")], WON)
    ensures Notified(m.callers - {2 * n}) == Crowded(n).callers[2 * n + 1 := Caller(KeyOf(n), "", Awake)]
  {
    hide KeyOf, Crowded;
    CrowdedFacts(n);
  }

  lemma Extend(states: seq<Sys>, e: Event) returns (longer: seq<Sys>)
    requires Run(states) && Enabled(states[|states| - 1], e)
    requires !e.Begin? ==> states[|states| - 1].callers[e.who].slot in states[|states| - 1].served
    ensures Run(longer) && |longer| == |states| + 1 && longer[..|states|] == states
            && longer[|states|] == Do(states[|states| - 1], e)
  {
    hide Do;
    longer := states + [Do(states[|states| - 1], e)];
    forall i | 0 <= i < |longer| - 1 ensures Step(longer[i], longer[i + 1]) {
      if i < |states| - 1 {
        assert Step(states[i], states[i + 1]);
      } else {
        assert Takes(longer[i], e, longer[i + 1]);
      }
    }
  }

  lemma OneMoreKey(states: seq<Sys>, n: nat) returns (longer: seq<Sys>)
    requires Run(states) && states[|states| - 1] == Crowded(n)
    ensures Run(longer) && longer[|longer| - 1] == Crowded(n + 1)
  {
    hide KeyOf, Crowded, Midway, Run, DoBegin, DoLookup, DoExecute, DoRecord, DoFinish;
    RunNotEmpty(states);
    CrowdedFacts(n);
    NextKeyEnters(n);
    longer := Extend(states, Begin(2 * n, KeyOf(n), ""));
    RunNotEmpty(longer);
    longer := Extend(longer, Begin(2 * n + 1, KeyOf(n), ""));
    MidwayReady(n, Checking, [], []);
    NextKeyMisses(n);
    longer := Extend(longer, Lookup(2 * n));
    MidwayReady(n, Running, [], []);
    NextKeySucceeds(n);
    longer := Extend(longer, Execute(2 * n, true, "", false));
    MidwayReady(n, Recording("", false), [], WON);
    NextKeyRecords(n);
    longer := Extend(longer, Record(2 * n));
    MidwayReady(n, Leaving(Succeeded("", false)), [Entry(KeyOf(n), "", "")], WON);
    NextKeyLeaves(n);
    longer := Extend(longer, Finish(2 * n));
  }

  lemma RunNotEmpty(states: seq<Sys>)
    requires Run(states)
    ensures states != []
  {
  }

  lemma {:induction false} CrowdedRun(n: nat) returns (states: seq<Sys>)
    ensures Run(states) && states[|states| - 1] == Crowded(n)
  {
    hide Run, Crowded;
    if n == 0 {
      states := [Start()];
      assert Run(states) by { FirstState(); }
      assert Crowded(0) == Start() by { NobodyYet(); }
    } else {
      var shorter := CrowdedRun(n - 1);
      states := OneMoreKey(shorter, n - 1);
    }
  }

  lemma FirstState()
    ensures Run([Start()])
  {
  }

  lemma NobodyYet()
    ensures Crowded(0) == Start()
  {
  }

  /** A run that breaks the bound: 65 keys, a call and a waiter each; when all the calls have finished, and
      before any of the waiters has come back, the first one's wait is interrupted. */
  lemma InterruptionOverflows() returns (states: seq<Sys>)
    ensures Run(states) && |states| >= 2
    ensures InBounds(states[|states| - 2]) && SpillStep(states[|states| - 2], states[|states| - 1])
            && !InBounds(states[|states| - 1])
  {
    hide Crowded, KeyOf, Do;
    var before := CrowdedRun(CACHE_ENTRIES + 1);
    var s := Crowded(CACHE_ENTRIES + 1);
    CrowdedFacts(CACHE_ENTRIES + 1);
    CrowdedFirst(CACHE_ENTRIES + 1);
    states := Extend(before, Abandon(1));
    assert Spills(s, 1);
    assert SpillsInto(s, 1, states[|states| - 1]);
    BoundInRun(states, |states| - 2);
  }

  lemma {:induction false} CrowdedFirst(n: nat)
    requires n > 0
    ensures var s := Crowded(n);
            && 1 in s.callers && s.callers[1] == Caller(KeyOf(0), "", Awake) && KeyOf(0) in s.served
            && Pinned(s.table, KeyOf(0)) == 1 && Has(s.table.results, KeyOf(0))
  {
    hide KeyOf;
    if n > 1 {
      CrowdedFirst(n - 1);
      if KeyOf(n - 1) == KeyOf(0) { KeysApart(n - 1, 0); }
      var e := Recorded(Crowded(n - 1).table.results, KeyOf(0)).value;
      assert e in Crowded(n).table.results;
    } else {
      assert Crowded(1).table.results == [Entry(KeyOf(0), "", "")] by { assert Crowded(0).table.results == []; }
      assert Entry(KeyOf(0), "", "") in Crowded(1).table.results;
    }
  }
}
