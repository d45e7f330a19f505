/** The start-slot and close protocol of exec_command: commands are started, fail half way, register,
    finish and are closed down concurrently. */
module CommandSlots {
  const MAX_ACTIVE_COMMANDS: nat := 16

  type Pid = nat
  type RuntimeId = nat
  type StarterId = nat

  /** What the manager's lock guards: the registered commands, the slots reserved for commands that are
      starting, and whether the manager is closed. */
  datatype Table = Table(commands: set<Pid>, starting: int, closed: bool)

  function Reserve(t: Table, refused: bool): (r: (Table, bool)) {
    if t.closed || refused || |t.commands| + t.starting >= MAX_ACTIVE_COMMANDS then (t, false)
    else (t.(starting := t.starting + 1), true)
  }

  function RegisterOne(t: Table, pid: Pid, refused: bool): (Table, bool) {
    var u := t.(starting := t.starting - 1);
    if t.closed || refused then (u, false) else (u.(commands := u.commands + {pid}), true)
  }

  function GiveBackOne(t: Table): Table {
    t.(starting := t.starting - 1)
  }

  function CloseAll(t: Table): (Table, set<Pid>) {
    if t.closed then (t, {}) else (Table({}, t.starting, true), t.commands)
  }

  class CommandManager {
    var commands: set<Pid>
    var starting: int
    var closed: bool

    ghost function Now(): Table
      reads this
    {
      Table(commands, starting, closed)
    }

    constructor ()
      ensures Now() == Table({}, 0, false)
    {
      commands, starting, closed := {}, 0, false;
    }

    /** The check and the reservation at the top of exec_command. */
    method ReserveSlot(runtimeClosed: bool) returns (ok: bool)
      modifies this`starting
      ensures (Now(), ok) == Reserve(old(Now()), runtimeClosed)
      ensures ok <==> !runtimeClosed && !closed && |commands| + old(starting) < MAX_ACTIVE_COMMANDS
    {
      if runtimeClosed || closed { return false; }
      if |commands| + starting >= MAX_ACTIVE_COMMANDS { return false; }
      starting := starting + 1;
      ok := true;
    }

    /** The section that trades the slot for a place among the commands. */
    method Register(pid: Pid, runtimeClosed: bool) returns (registered: bool)
      modifies this`starting, this`commands
      ensures (Now(), registered) == RegisterOne(old(Now()), pid, runtimeClosed)
      ensures registered <==> !runtimeClosed && !closed
      ensures commands == old(commands) + if registered then {pid} else {}
    {
      starting := starting - 1;
      registered := false;
      if !runtimeClosed && !closed {
        commands := commands + {pid};
        registered := true;
      }
    }

    /** The section of the failure path. */
    method GiveBack(registered: bool, slotReleased: bool)
      modifies this`starting
      ensures Now() == if !registered && !slotReleased then GiveBackOne(old(Now())) else old(Now())
    {
      if !registered && !slotReleased { starting := starting - 1; }
    }

    /** The locked part of WorkspaceCommandManager.close: what it has to terminate afterwards. */
    method Close() returns (running: set<Pid>)
      modifies this
      ensures (Now(), running) == CloseAll(old(Now()))
      ensures closed && commands == (if old(closed) then old(commands) else {})
      ensures running == if old(closed) then {} else old(commands)
    {
      if closed { return {}; }
      closed := true;
      running := commands;
      commands := {};
    }
  }

  /** Where one exec_command call is between reserving a slot and handing its process over. */
  datatype Starter =
    | Spawning(runtime: RuntimeId)
    | Spawned(runtime: RuntimeId, pid: Pid)
    | Failing(process: set<Pid>, released: bool)
    | Terminating(process: set<Pid>)
  {
    predicate HoldsSlot() {
      Spawning? || Spawned? || (Failing? && !released)
    }

    /** The processes this call still answers for. */
    function Answers(): set<Pid> {
      match this
      case Spawning(_) => {}
      case Spawned(_, pid) => {pid}
      case Failing(process, _) => process
      case Terminating(process) => process
    }
  }

  /** `givenBack` counts how often each call has returned its slot; `doomed` is what a close in progress
      has yet to terminate. */
  datatype Sys = Sys(table: Table, starters: map<StarterId, Starter>, closedRuntimes: set<RuntimeId>, alive: set<Pid>,
          spawned: set<Pid>, doomed: set<Pid>, givenBack: map<StarterId, nat>)

  datatype Event =
    | Start(who: StarterId, runtime: RuntimeId)
    | SpawnFails(who: StarterId)
    | Spawn(who: StarterId, pid: Pid)
    | CommandFails(who: StarterId)
    | Register(who: StarterId)
    | GiveBack(who: StarterId)
    | Terminate(who: StarterId)
    | Exit(pid: Pid)
    | Complete(pid: Pid)
    | CloseRuntime(runtime: RuntimeId)
    | Close
    | CloseOne(pid: Pid)

  ghost predicate Enabled(s: Sys, e: Event) {
    match e
    case Start(who, _) => who !in s.givenBack
    case SpawnFails(who) => who in s.starters && s.starters[who].Spawning?
    case Spawn(who, pid) => who in s.starters && s.starters[who].Spawning? && pid !in s.spawned
    case CommandFails(who) => who in s.starters && s.starters[who].Spawned?
    case Register(who) => who in s.starters && s.starters[who].Spawned?
    case GiveBack(who) => who in s.starters && s.starters[who].Failing?
    case Terminate(who) => who in s.starters && s.starters[who].Terminating?
    case Exit(pid) => true
    case Complete(pid) => pid in s.table.commands && pid !in s.alive
    case CloseRuntime(_) => true
    case Close => true
    case CloseOne(pid) => pid in s.doomed
  }

  function Returned(s: Sys, who: StarterId): map<StarterId, nat> {
    s.givenBack[who := (if who in s.givenBack then s.givenBack[who] else 0) + 1]
  }

  ghost function Do(s: Sys, e: Event): Sys
    requires Enabled(s, e)
  {
    match e
    case Start(who, runtime) =>
      var (table, ok) := Reserve(s.table, runtime in s.closedRuntimes);
      if ok then
        s.(table := table, starters := s.starters[who := Spawning(runtime)], givenBack := s.givenBack[who := 0])
      else s
    case SpawnFails(who) => s.(starters := s.starters[who := Failing({}, false)])
    case Spawn(who, pid) =>
      s.(starters := s.starters[who := Spawned(s.starters[who].runtime, pid)], alive := s.alive + {pid},
         spawned := s.spawned + {pid})
    case CommandFails(who) => s.(starters := s.starters[who := Failing({s.starters[who].pid}, false)])
    case Register(who) =>
      var pid := s.starters[who].pid;
      var (table, ok) := RegisterOne(s.table, pid, s.starters[who].runtime in s.closedRuntimes);
      s.(table := table,
         starters := if ok then s.starters - {who} else s.starters[who := Failing({pid}, true)],
         givenBack := Returned(s, who))
    case GiveBack(who) =>
      var f := s.starters[who];
      s.(table := if f.released then s.table else GiveBackOne(s.table),
         starters := s.starters[who := Terminating(f.process)],
         givenBack := if f.released then s.givenBack else Returned(s, who))
    case Terminate(who) => s.(alive := s.alive - s.starters[who].process, starters := s.starters - {who})
    case Exit(pid) => s.(alive := s.alive - {pid})
    case Complete(pid) => s.(table := s.table.(commands := s.table.commands - {pid}))
    case CloseRuntime(runtime) => s.(closedRuntimes := s.closedRuntimes + {runtime})
    case Close =>
      var (table, running) := CloseAll(s.table);
      s.(table := table, doomed := s.doomed + running)
    case CloseOne(pid) => s.(alive := s.alive - {pid}, doomed := s.doomed - {pid})
  }

  function Begin(): Sys {
    Sys(Table({}, 0, false), map[], {}, {}, {}, {}, map[])
  }

  ghost function Holders(starters: map<StarterId, Starter>): set<StarterId> {
    set c | c in starters && starters[c].HoldsSlot()
  }

  /** Every slot in use belongs to exactly one call that has not given it back, and a call that is done
      has given it back exactly once. */
  ghost predicate SlotsAgree(t: Table, under: set<StarterId>, holders: set<StarterId>, givenBack: map<StarterId, nat>) {
    && t.starting == |holders|
    && |t.commands| + t.starting <= MAX_ACTIVE_COMMANDS
    && holders <= under <= givenBack.Keys
    && forall c | c in givenBack :: givenBack[c] == if c in holders then 0 else 1
  }

  ghost predicate SlotsCounted(s: Sys) {
    SlotsAgree(s.table, s.starters.Keys, Holders(s.starters), s.givenBack)
  }

  /** Somebody answers for every live process: it is registered, or a close is about to terminate it, or
      the call that spawned it still has it. After a close nothing is registered. */
  ghost predicate AllAnsweredFor(s: Sys) {
    && s.alive <= s.spawned
    && (forall pid | pid in s.alive ::
         pid in s.table.commands || pid in s.doomed || exists c :: c in s.starters && pid in s.starters[c].Answers())
    && (s.table.closed ==> s.table.commands == {})
  }

  ghost predicate Inv(s: Sys) {
    SlotsCounted(s) && AllAnsweredFor(s)
  }

  lemma HoldersMove(starters: map<StarterId, Starter>, who: StarterId, next: Starter)
    ensures Holders(starters[who := next]) == Holders(starters) - {who} + if next.HoldsSlot() then {who} else {}
    ensures Holders(starters - {who}) == Holders(starters) - {who}
  {
  }

  /** A call moves on and keeps its slot. */
  lemma StillHolds(s: Sys, who: StarterId, next: Starter)
    requires SlotsCounted(s) && who in s.starters && s.starters[who].HoldsSlot() && next.HoldsSlot()
    ensures Holders(s.starters[who := next]) == Holders(s.starters) && who in s.givenBack
  {
    hide Holders;
    HoldersAre(s.starters, who);
    HoldersMove(s.starters, who, next);
    SetBack(Holders(s.starters), who);
  }

  /** A call gives its slot back on its way. */
  lemma ReleaseAgrees(s: Sys, who: StarterId, next: Starter)
    requires SlotsCounted(s) && who in s.starters && s.starters[who].HoldsSlot() && !next.HoldsSlot()
    ensures Holders(s.starters[who := next]) == Holders(s.starters - {who}) == Holders(s.starters) - {who}
    ensures SlotsAgree(GiveBackOne(s.table), s.starters.Keys, Holders(s.starters) - {who}, Returned(s, who))
    ensures SlotsAgree(GiveBackOne(s.table), s.starters.Keys - {who}, Holders(s.starters) - {who}, Returned(s, who))
  {
    hide Holders;
    HoldersAre(s.starters, who);
    HoldersMove(s.starters, who, next);
  }

  lemma StartKeepsSlots(s: Sys, who: StarterId, runtime: RuntimeId)
    requires SlotsCounted(s) && Enabled(s, Start(who, runtime))
    ensures SlotsCounted(Do(s, Start(who, runtime)))
  {
    hide Holders;
    HoldersAre(s.starters, who);
    HoldersMove(s.starters, who, Spawning(runtime));
  }

  lemma RegisterKeepsSlots(s: Sys, who: StarterId)
    requires SlotsCounted(s) && Enabled(s, Register(who))
    ensures SlotsCounted(Do(s, Register(who)))
  {
    hide Holders, Returned;
    var next := Failing({s.starters[who].pid}, true);
    ReleaseAgrees(s, who, next);
    CommandAdded(s.table.commands, s.starters[who].pid);
    assert s.starters[who := next].Keys == s.starters.Keys && (s.starters - {who}).Keys == s.starters.Keys - {who};
  }

  lemma GiveBackKeepsSlots(s: Sys, who: StarterId)
    requires SlotsCounted(s) && Enabled(s, GiveBack(who))
    ensures SlotsCounted(Do(s, GiveBack(who)))
  {
    hide Holders, Returned, SlotsAgree;
    var next := Terminating(s.starters[who].process);
    assert s.starters[who := next].Keys == s.starters.Keys;
    if s.starters[who].released {
      NeverHeld(s.starters, who, next);
    } else {
      ReleaseAgrees(s, who, next);
    }
  }

  lemma NeverHeld(starters: map<StarterId, Starter>, who: StarterId, next: Starter)
    requires who in starters && !starters[who].HoldsSlot() && !next.HoldsSlot()
    ensures Holders(starters[who := next]) == Holders(starters) == Holders(starters - {who})
  {
  }

  lemma MoveKeepsSlots(s: Sys, who: StarterId, next: Starter)
    requires SlotsCounted(s) && who in s.starters && s.starters[who].HoldsSlot() && next.HoldsSlot()
    ensures SlotsAgree(s.table, s.starters[who := next].Keys, Holders(s.starters[who := next]), s.givenBack)
  {
    hide Holders, SlotsAgree;
    StillHolds(s, who, next);
    assert s.starters[who := next].Keys == s.starters.Keys;
  }

  lemma TerminateKeepsSlots(s: Sys, who: StarterId)
    requires SlotsCounted(s) && Enabled(s, Terminate(who))
    ensures SlotsCounted(Do(s, Terminate(who)))
  {
    hide Holders;
    NeverHeld(s.starters, who, s.starters[who]);
    HoldersAre(s.starters, who);
    assert (s.starters - {who}).Keys == s.starters.Keys - {who};
  }

  lemma SlotsKept(s: Sys, e: Event)
    requires SlotsCounted(s) && Enabled(s, e)
    ensures SlotsCounted(Do(s, e))
  {
    hide Holders, Returned;
    match e
    case Start(who, runtime) => StartKeepsSlots(s, who, runtime);
    case SpawnFails(who) => MoveKeepsSlots(s, who, Failing({}, false));
    case Spawn(who, pid) => MoveKeepsSlots(s, who, Spawned(s.starters[who].runtime, pid));
    case CommandFails(who) => MoveKeepsSlots(s, who, Failing({s.starters[who].pid}, false));
    case Register(who) => RegisterKeepsSlots(s, who);
    case GiveBack(who) => GiveBackKeepsSlots(s, who);
    case Terminate(who) => TerminateKeepsSlots(s, who);
    case _ =>
  }

  lemma HoldersAre(starters: map<StarterId, Starter>, who: StarterId)
    ensures who in Holders(starters) <==> who in starters && starters[who].HoldsSlot()
  {
  }

  lemma SetBack(set0: set<StarterId>, who: StarterId)
    requires who in set0
    ensures set0 - {who} + {who} == set0
  {
  }

  lemma CommandAdded(commands: set<Pid>, pid: Pid)
    ensures |commands + {pid}| <= |commands| + 1
  {
    if pid in commands {
      assert commands + {pid} == commands;
    }
  }

  lemma AnswersKept(s: Sys, e: Event)
    requires Inv(s) && Enabled(s, e)
    ensures AllAnsweredFor(Do(s, e))
  {
    hide Holders, Returned;
    var s' := Do(s, e);
    forall pid | pid in s'.alive
      ensures pid in s'.table.commands || pid in s'.doomed
              || exists c :: c in s'.starters && pid in s'.starters[c].Answers()
    {
      if pid in s.alive && pid !in s.table.commands && pid !in s.doomed {
        var c :| c in s.starters && pid in s.starters[c].Answers();
        if c in s'.starters {
          assert pid in s'.starters[c].Answers() || pid in s'.table.commands;
        }
      } else if pid !in s.alive {
        assert pid in s'.starters[e.who].Answers();
      }
    }
  }

  /** In any state of any run a start is refused exactly if the manager or its runtime is closed, or 16 commands
      are registered or have a start under way that has not given its slot back. */
  lemma RefusedIff(states: seq<Sys>, n: nat, who: StarterId, runtime: RuntimeId)
    requires Run(states) && n < |states| && Enabled(states[n], Start(who, runtime))
    ensures var s := states[n];
            who !in Do(s, Start(who, runtime)).starters <==>
              || s.table.closed || runtime in s.closedRuntimes
              || |s.table.commands| + |Holders(s.starters)| >= MAX_ACTIVE_COMMANDS
  {
    hide AllAnsweredFor, Holders;
    RunKeeps(states, n);
  }

  /** A process that was spawned is registered exactly if nothing was closed, and otherwise its start fails with it. */
  lemma RegisteredIff(s: Sys, who: StarterId)
    requires Enabled(s, Register(who))
    ensures var s', pid := Do(s, Register(who)), s.starters[who].pid;
            && (who !in s'.starters <==> !s.table.closed && s.starters[who].runtime !in s.closedRuntimes)
            && (if who in s'.starters then
                  s'.starters[who] == Failing({pid}, true) && s'.table.commands == s.table.commands
                else s'.table.commands == s.table.commands + {pid})
  {
    hide Returned;
  }

  ghost predicate Step(s: Sys, s': Sys) {
    exists e :: Enabled(s, e) && s' == Do(s, e)
  }

  ghost predicate Run(states: seq<Sys>) {
    states != [] && states[0] == Begin() && forall i | 0 <= i < |states| - 1 :: Step(states[i], states[i + 1])
  }

  lemma {:induction false} RunKeeps(states: seq<Sys>, n: nat)
    requires Run(states) && n < |states|
    ensures Inv(states[n])
  {
    hide Do, Enabled, SlotsCounted, AllAnsweredFor;
    if n == 0 {
      BeginInv();
    } else {
      RunKeeps(states, n - 1);
      assert Step(states[n - 1], states[n]);
      StepKeeps(states[n - 1], states[n]);
    }
  }

  lemma BeginInv()
    ensures Inv(Begin())
  {
    assert Holders(Begin().starters) == {};
  }

  lemma StepKeeps(s: Sys, s': Sys)
    requires Inv(s) && Step(s, s')
    ensures Inv(s')
  {
    var e :| Enabled(s, e) && s' == Do(s, e);
    SlotsKept(s, e);
    AnswersKept(s, e);
  }

  /** In every run: never more than 16 commands active or starting, and every call that has left has
      given its slot back exactly once. */
  lemma NeverTooMany(states: seq<Sys>, n: nat)
    requires Run(states) && n < |states|
    ensures var s := states[n];
            && 0 <= s.table.starting && |s.table.commands| + s.table.starting <= MAX_ACTIVE_COMMANDS
            && s.table.starting == |Holders(s.starters)|
            && forall c | c in s.givenBack && c !in s.starters :: s.givenBack[c] == 1
  {
    RunKeeps(states, n);
  }

  /** Once the manager is closed, its close has run through and no start is under way, no process that
      was ever spawned is alive. */
  lemma NothingSurvivesClose(states: seq<Sys>, n: nat)
    requires Run(states) && n < |states|
    requires states[n].table.closed && states[n].doomed == {} && states[n].starters == map[]
    ensures states[n].alive == {}
  {
    hide SlotsCounted;
    RunKeeps(states, n);
  }
}
