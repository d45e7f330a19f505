/** The pass that bounds retained command output: the oldest finished commands are forgotten until
    few enough are left and what all of them hold is small enough. */
module OutputEviction {
  import opened CommandSlots
  import opened OutputStreams

  const MAX_RETAINED_OUTPUT_COMMANDS: nat := 32
  const MAX_RUNTIME_OUTPUT_BYTES: nat := 16 * 1024 * 1024

  type Id = nat

  /** What a command has written to its two streams. */
  datatype Output = Output(out: seq<Byte>, err: seq<Byte>)

  /** What each command had written when it was looked at: the streams go on while the pass runs. */
  type Readings = map<Id, Output>

  /** retained_bytes of a command. */
  function SizeOf(id: Id, at: Readings): (n: nat)
    ensures n <= 2 * COMMAND_BUFFER_BYTES
  {
    if id !in at then 0
    else RetainedOf(at[id].out, COMMAND_BUFFER_BYTES) + RetainedOf(at[id].err, COMMAND_BUFFER_BYTES)
  }

  /** The two buffers of a running command are what is measured. */
  lemma SizeIsRetained(id: Id, at: Readings, out: OutputStream, err: OutputStream)
    requires out.Valid() && err.Valid() && out.bufferLimit == err.bufferLimit == COMMAND_BUFFER_BYTES
    requires id in at && at[id] == Output(out.written, err.written)
    ensures SizeOf(id, at) == out.RetainedBytes() + err.RetainedBytes()
  {
  }

  function Total(ids: seq<Id>, at: Readings): nat {
    if ids == [] then 0 else SizeOf(ids[0], at) + Total(ids[1..], at)
  }

  /** Whether the pass goes on, with these commands left and this much thought to be retained. */
  predicate TooMuch(output: seq<Id>, retained: int) {
    output != [] && (|output| > MAX_RETAINED_OUTPUT_COMMANDS || retained > MAX_RUNTIME_OUTPUT_BYTES)
  }

  lemma {:induction false} TotalSplit(ids: seq<Id>, n: nat, at: Readings)
    requires n <= |ids|
    ensures Total(ids, at) == Total(ids[..n], at) + Total(ids[n..], at)
  {
    hide SizeOf;
    if n == 0 {
      assert ids[0..] == ids;
    } else {
      TotalSplit(ids[1..], n - 1, at);
      assert ids[..n][1..] == ids[1..][..n - 1] && ids[1..][n - 1..] == ids[n..];
    }
  }

  lemma {:induction false} TotalSnoc(ids: seq<Id>, id: Id, at: Readings)
    ensures Total(ids + [id], at) == Total(ids, at) + SizeOf(id, at)
  {
    hide SizeOf;
    TotalSplit(ids + [id], |ids|, at);
    assert (ids + [id])[..|ids|] == ids && (ids + [id])[|ids|..] == [id];
    assert Total([id], at) == SizeOf(id, at) by { assert [id][1..] == []; }
  }

  /** The readings of one pass: of the active commands and of the remembered ones when each was summed up,
      of the forgotten ones when each was forgotten, and of all when the pass is over. */
  datatype Pass = Pass(active: Readings, listed: Readings, forgotten: Readings, end: Readings)

  /** What the pass takes the total to be after forgetting the first n. */
  ghost function Thought(commands: seq<Id>, all: seq<Id>, n: nat, pass: Pass): int
    requires n <= |all|
  {
    Total(commands, pass.active) + Total(all, pass.listed) - Total(all[..n], pass.forgotten)
  }

  /** What is retained when the pass is over, counted as the pass counts: a command that is active and
      remembered counts twice. */
  ghost function Held(commands: seq<Id>, all: seq<Id>, n: nat, pass: Pass): int
    requires n <= |all|
  {
    Total(commands, pass.end) + Total(all[n..], pass.end)
  }

  lemma ForgetOne(commands: seq<Id>, all: seq<Id>, n: nat, pass: Pass)
    requires n < |all|
    ensures Thought(commands, all, n + 1, pass) == Thought(commands, all, n, pass) - SizeOf(all[n], pass.forgotten)
    ensures all[n..][0] == all[n] && all[n..][1..] == all[n + 1..]
  {
    hide SizeOf;
    TotalSnoc(all[..n], all[n], pass.forgotten);
    assert all[..n] + [all[n]] == all[..n + 1];
  }

  class RetainedOutput {
    var commands: seq<Id>
    var output: seq<Id>

    /** _evict_retained_locked: the first n, the oldest, are forgotten, and no more than needed. */
    method Evict(pass: Pass) returns (n: nat)
      modifies this`output
      ensures n <= |old(output)| && output == old(output)[n..]
      ensures !TooMuch(output, Thought(commands, old(output), n, pass))
      ensures output == [] || (|output| <= 32 && Thought(commands, old(output), n, pass) <= 16 * 1024 * 1024)
      ensures forall m: nat | m < n :: TooMuch(old(output)[m..], Thought(commands, old(output), m, pass))
      ensures forall m: nat | m < n ::
                |old(output)| - m > 32 || Thought(commands, old(output), m, pass) > 16 * 1024 * 1024
    {
      hide Total, Thought, SizeOf;
      ghost var all := output;
      var retained: int := Total(commands, pass.active) + Total(output, pass.listed);
      n := 0;
      NothingForgotten(commands, all, pass);
      while output != [] && (|output| > MAX_RETAINED_OUTPUT_COMMANDS || retained > MAX_RUNTIME_OUTPUT_BYTES)
        invariant n <= |all| && output == all[n..]
        invariant retained == Thought(commands, all, n, pass)
        invariant forall m: nat | m < n :: TooMuch(all[m..], Thought(commands, all, m, pass))
        decreases |output|
      {
        ForgetOne(commands, all, n, pass);
        var oldest := output[0];
        output := output[1..];
        retained := retained - SizeOf(oldest, pass.forgotten);
        n := n + 1;
      }
    }

    lemma NothingForgotten(commands: seq<Id>, all: seq<Id>, pass: Pass)
      ensures Thought(commands, all, 0, pass) == Total(commands, pass.active) + Total(all, pass.listed)
              && all[0..] == all
    {
    }

    /** _remember_output_command: the command becomes the most recent one. */
    method Remember(id: Id, pass: Pass) returns (n: nat)
      modifies this`output
      ensures var all := Without(old(output), id) + [id];
              && n <= |all| && output == all[n..] && !TooMuch(output, Thought(commands, all, n, pass))
              && forall m: nat | m < n :: |all| - m > 32 || Thought(commands, all, m, pass) > 16 * 1024 * 1024
    {
      output := Without(output, id) + [id];
      n := Evict(pass);
    }
  }

  function Without(ids: seq<Id>, id: Id): (r: seq<Id>)
    ensures forall x :: x in r <==> x in ids && x != id
  {
    if ids == [] then [] else (if ids[0] == id then [] else [ids[0]]) + Without(ids[1..], id)
  }

  lemma {:induction false} WithoutNone(ids: seq<Id>, id: Id)
    requires id !in ids
    ensures Without(ids, id) == ids
  {
    if ids != [] {
      WithoutNone(ids[1..], id);
    }
  }

  /** The others keep their order: remembering a command again moves it behind them. */
  lemma {:induction false} WithoutAt(before: seq<Id>, id: Id, after: seq<Id>)
    requires id !in before && id !in after
    ensures Without(before + [id] + after, id) == before + after
  {
    var all := before + [id] + after;
    if before == [] {
      WithoutNone(after, id);
      assert all[0] == id && all[1..] == after && before + after == after;
    } else {
      WithoutAt(before[1..], id, after);
      assert all[0] == before[0] && all[1..] == before[1..] + [id] + after;
      assert before + after == [before[0]] + (before[1..] + after);
    }
  }

  lemma {:induction false} ActiveFit(ids: seq<Id>, at: Readings)
    ensures Total(ids, at) <= |ids| * (2 * COMMAND_BUFFER_BYTES)
  {
    hide SizeOf;
    if ids != [] {
      ActiveFit(ids[1..], at);
    }
  }

  /** Bytes by which commands grew between two readings. */
  ghost function Growth(ids: seq<Id>, earlier: Readings, later: Readings): int {
    Total(ids, later) - Total(ids, earlier)
  }

  /** Everything that grew unseen: the forgotten commands until they were forgotten, the active ones and
      those still remembered until the end. */
  ghost function Unseen(commands: seq<Id>, all: seq<Id>, n: nat, pass: Pass): int
    requires n <= |all|
  {
    Growth(all[..n], pass.listed, pass.forgotten)
    + Growth(commands, pass.active, pass.end)
    + Growth(all[n..], pass.listed, pass.end)
  }

  /** What is held at the end is what the pass took it to be, and what grew unseen. */
  lemma HeldIsThoughtPlusUnseen(commands: seq<Id>, all: seq<Id>, n: nat, pass: Pass)
    requires n <= |all|
    ensures Held(commands, all, n, pass) == Thought(commands, all, n, pass) + Unseen(commands, all, n, pass)
  {
    TotalSplit(all, n, pass.listed);
  }

  /** After a pass at most 32 finished commands are left. Active and finished ones together hold at most
      16 MiB, with up to 16 commands active, exactly if what grew unseen fits into what the pass took to be
      free; so always if nothing grew, and also if nothing is left to forget. */
  lemma PassBounds(commands: seq<Id>, all: seq<Id>, n: nat, pass: Pass)
    requires n <= |all| && |commands| <= MAX_ACTIVE_COMMANDS
    requires !TooMuch(all[n..], Thought(commands, all, n, pass))
    ensures |all[n..]| <= MAX_RETAINED_OUTPUT_COMMANDS
    ensures var held, unseen := Held(commands, all, n, pass), Unseen(commands, all, n, pass);
            && held == Thought(commands, all, n, pass) + unseen
            && (held <= MAX_RUNTIME_OUTPUT_BYTES <==>
                 unseen <= MAX_RUNTIME_OUTPUT_BYTES - Thought(commands, all, n, pass))
            && (unseen <= 0 || n == |all| ==> held <= MAX_RUNTIME_OUTPUT_BYTES)
            && held <= MAX_RUNTIME_OUTPUT_BYTES + if unseen > 0 then unseen else 0
  {
    HeldIsThoughtPlusUnseen(commands, all, n, pass);
    ActiveFit(commands, pass.end);
    assert |commands| * (2 * COMMAND_BUFFER_BYTES) <= MAX_ACTIVE_COMMANDS * (2 * COMMAND_BUFFER_BYTES) ==
             MAX_RUNTIME_OUTPUT_BYTES;
    assert n == |all| ==> all[n..] == [];
  }

  // Passes that end above the bound.

  function Bytes(n: nat): seq<Byte> {
    seq(n, _ => 0)
  }

  function FullOutput(): Output {
    Output(Bytes(COMMAND_BUFFER_BYTES), Bytes(COMMAND_BUFFER_BYTES))
  }

  function FullCommands(n: nat): seq<Id> {
    seq(n, i => i)
  }

  /** Commands 0 to 14 have filled their buffers, 15 has written n bytes, 16 has filled its buffers and 17
      has written one byte. */
  function Crowd(n: nat): Readings {
    var full := map id | id in FullCommands(15) :: FullOutput();
    full[15 := Output(Bytes(n), [])][16 := FullOutput()][17 := Output(Bytes(1), [])]
  }

  lemma CrowdSizes(n: nat)
    requires n <= COMMAND_BUFFER_BYTES
    ensures forall id | id in FullCommands(15) :: SizeOf(id, Crowd(n)) == 2 * COMMAND_BUFFER_BYTES
    ensures SizeOf(15, Crowd(n)) == n && SizeOf(16, Crowd(n)) == 2 * COMMAND_BUFFER_BYTES && SizeOf(17, Crowd(n)) == 1
  {
    hide Keep, Gap;
  }

  lemma {:induction false} TotalFull(k: nat, n: nat)
    requires k <= 15 && n <= COMMAND_BUFFER_BYTES
    ensures Total(FullCommands(k), Crowd(n)) == k * (2 * COMMAND_BUFFER_BYTES)
  {
    hide Crowd, SizeOf;
    if k > 0 {
      TotalFull(k - 1, n);
      assert FullCommands(k) == FullCommands(k - 1) + [k - 1];
      assert FullCommands(15)[k - 1] == k - 1;
      CrowdSizes(n);
      TotalSnoc(FullCommands(k - 1), k - 1, Crowd(n));
    }
  }

  lemma TotalActive(n: nat)
    requires n <= COMMAND_BUFFER_BYTES
    ensures |FullCommands(15) + [15]| == MAX_ACTIVE_COMMANDS
    ensures Total(FullCommands(15) + [15], Crowd(n)) == 15 * (2 * COMMAND_BUFFER_BYTES) + n
  {
    hide Crowd, SizeOf, Total;
    TotalFull(15, n);
    CrowdSizes(n);
    TotalSnoc(FullCommands(15), 15, Crowd(n));
  }

  /** Command 15 is active and has not written anything; 16 is finished. Together they hold 16 MiB, nothing
      is forgotten, and command 15 writes one byte before the pass is over. */
  lemma ActiveOvershoots()
    ensures var commands, all, pass := FullCommands(15) + [15], [16], Pass(Crowd(0), Crowd(0), Crowd(0), Crowd(1));
            && |commands| == MAX_ACTIVE_COMMANDS && !TooMuch(all, Thought(commands, all, 0, pass))
            && Held(commands, all, 0, pass) == MAX_RUNTIME_OUTPUT_BYTES + 1
  {
    hide Total, FullCommands, Crowd, SizeOf;
    TotalActive(0);
    TotalActive(1);
    TotalOne(16, Crowd(0));
    TotalOne(16, Crowd(1));
    CrowdSizes(0);
    CrowdSizes(1);
    assert [16][..0] == [] && [16][0..] == [16];
  }

  /** Command 15 is active and is remembered as well. The pass sums up, command 15 fills one buffer, the
      pass forgets it for what it retains now, and ends with half a MiB and a byte above the bound. */
  lemma ForgottenOvershoots()
    ensures var commands, all := FullCommands(15) + [15], [15, 16, 17];
            var pass := Pass(Crowd(1), Crowd(1), Crowd(COMMAND_BUFFER_BYTES), Crowd(COMMAND_BUFFER_BYTES));
            && |commands| == MAX_ACTIVE_COMMANDS
            && TooMuch(all, Thought(commands, all, 0, pass)) && !TooMuch(all[1..], Thought(commands, all, 1, pass))
            && Held(commands, all, 1, pass) == MAX_RUNTIME_OUTPUT_BYTES + COMMAND_BUFFER_BYTES + 1
  {
    hide Total, FullCommands, Crowd, SizeOf;
    TotalActive(1);
    TotalActive(COMMAND_BUFFER_BYTES);
    TotalThree(15, 16, 17, Crowd(1));
    TotalThree(15, 16, 17, Crowd(COMMAND_BUFFER_BYTES));
    CrowdSizes(1);
    CrowdSizes(COMMAND_BUFFER_BYTES);
    var all := [15, 16, 17];
    assert all[..0] == [] && all[..1] == [15] && all[1..] == [16, 17];
  }

  lemma TotalOne(a: Id, at: Readings)
    ensures Total([], at) == 0 && Total([a], at) == SizeOf(a, at)
  {
    TotalSnoc([], a, at);
    assert [] + [a] == [a];
  }

  lemma TotalThree(a: Id, b: Id, c: Id, at: Readings)
    ensures Total([], at) == 0 && Total([a], at) == SizeOf(a, at)
    ensures Total([b, c], at) == SizeOf(b, at) + SizeOf(c, at)
    ensures Total([a, b, c], at) == SizeOf(a, at) + SizeOf(b, at) + SizeOf(c, at)
  {
    hide SizeOf;
    TotalOne(a, at);
    TotalOne(b, at);
    TotalSnoc([b], c, at);
    assert [a, b, c][1..] == [b, c] && [b] + [c] == [b, c];
  }
}
