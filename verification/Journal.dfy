/** The rotating event journal: a live file and a ring of backups. Every step that reaches the disk may
    raise, or be the last one before the process is killed; what the files hold then must still be
    the tail of everything that was ever written. */
module Journals {
  import opened Options

  type Byte = bv8

  const NEWLINE: Byte := 10
  const MAX_RECORD_BYTES: nat := 4096

  type FileData = Option<seq<Byte>>

  function DataOf(f: FileData): seq<Byte> {
    if f.Some? then f.value else []
  }

  /** Backups oldest first; backups[0] is the newest. */
  function Older(backups: seq<FileData>): seq<Byte> {
    if backups == [] then [] else Older(backups[1..]) + DataOf(backups[0])
  }

  ghost predicate IsSuffix(part: seq<Byte>, whole: seq<Byte>) {
    |part| <= |whole| && whole[|whole| - |part|..] == part
  }

  /** What follows the last newline. */
  function Open(data: seq<Byte>): seq<Byte> {
    if data == [] || data[|data| - 1] == NEWLINE then [] else Open(data[..|data| - 1]) + [data[|data| - 1]]
  }

  /** Between newlines there is never more than the beginning of one record. */
  ghost predicate Unjoined(data: seq<Byte>, records: set<seq<Byte>>) {
    data == [] ||
    (Unjoined(data[..|data| - 1], records)
      && (data[|data| - 1] == NEWLINE || exists r :: r in records && Open(data) <= r))
  }

  lemma NothingJoined(records: set<seq<Byte>>)
    ensures Unjoined([], records)
  {
  }

  lemma {:induction false} UnjoinedMore(data: seq<Byte>, records: set<seq<Byte>>, more: set<seq<Byte>>)
    requires Unjoined(data, records) && records <= more
    ensures Unjoined(data, more)
  {
    if data != [] {
      UnjoinedMore(data[..|data| - 1], records, more);
    }
  }

  lemma {:induction false} UnjoinedPrefix(data: seq<Byte>, records: set<seq<Byte>>, n: nat)
    requires Unjoined(data, records) && n <= |data|
    ensures Unjoined(data[..n], records)
    decreases |data|
  {
    if n == |data| {
      assert data[..n] == data;
    } else {
      UnjoinedPrefix(data[..|data| - 1], records, n);
      assert data[..|data| - 1][..n] == data[..n];
    }
  }

  /** The line between two newlines. */
  lemma {:induction false} OpenIsLine(data: seq<Byte>, i: nat)
    requires i <= |data| && (i == 0 || data[i - 1] == NEWLINE)
    requires forall k | i <= k < |data| :: data[k] != NEWLINE
    ensures Open(data) == data[i..]
    decreases |data|
  {
    if i < |data| {
      var init := data[..|data| - 1];
      OpenIsLine(init, i);
      assert data[i..] == init[i..] + [data[|data| - 1]];
    }
  }

  /** What a reader sees: every line is one whole record or the beginning of one, never two joined. */
  lemma LineIsOneRecord(data: seq<Byte>, records: set<seq<Byte>>, i: nat, j: nat)
    requires Unjoined(data, records) && i <= j <= |data|
    requires (i == 0 || data[i - 1] == NEWLINE) && (forall k | i <= k < j :: data[k] != NEWLINE)
    ensures i == j || exists r :: r in records && data[i..j] <= r
  {
    var part := data[..j];
    UnjoinedPrefix(data, records, j);
    OpenIsLine(part, i);
    assert part[i..] == data[i..j];
    if i < j {
      assert part[|part| - 1] == data[j - 1];
    }
  }

  lemma OneMoreByte(data: seq<Byte>, byte: Byte, records: set<seq<Byte>>)
    ensures Open(data + [byte]) == if byte == NEWLINE then [] else Open(data) + [byte]
    ensures Unjoined(data, records) && (byte == NEWLINE || exists r :: r in records && Open(data + [byte]) <= r)
            ==> Unjoined(data + [byte], records)
  {
    assert (data + [byte])[..|data|] == data;
  }

  lemma {:induction false} StartsRecord(data: seq<Byte>, records: set<seq<Byte>>, record: seq<Byte>, n: nat)
    requires Unjoined(data, records) && Open(data) == [] && record in records && NEWLINE !in record && n <= |record|
    ensures Unjoined(data + record[..n], records) && Open(data + record[..n]) == record[..n]
  {
    hide Unjoined, Open;
    if n == 0 {
      assert data + record[..0] == data;
    } else {
      StartsRecord(data, records, record, n - 1);
      assert record[n - 1] in record;
      OneMoreByte(data + record[..n - 1], record[n - 1], records);
      assert record[..n] == record[..n - 1] + [record[n - 1]];
      assert data + record[..n] == data + record[..n - 1] + [record[n - 1]];
    }
  }

  lemma EndsLine(data: seq<Byte>, records: set<seq<Byte>>)
    requires Unjoined(data, records)
    ensures Unjoined(data + [NEWLINE], records) && Open(data + [NEWLINE]) == []
  {
    assert (data + [NEWLINE])[..|data|] == data;
  }

  lemma RecordPartly(base: seq<Byte>, records: set<seq<Byte>>, record: seq<Byte>, m: nat)
    requires Unjoined(base, records) && Open(base) == [] && record in records && NEWLINE !in record && m <= |record| + 1
    ensures Unjoined(base + (record + [NEWLINE])[..m], records)
  {
    hide Unjoined, Open;
    if m <= |record| {
      StartsRecord(base, records, record, m);
      assert (record + [NEWLINE])[..m] == record[..m];
    } else {
      StartsRecord(base, records, record, |record|);
      EndsLine(base + record[..|record|], records);
      assert base + (record + [NEWLINE])[..m] == base + record[..|record|] + [NEWLINE];
    }
  }

  /** However much of a separator and a record gets written, nothing is joined. */
  lemma PartlyWritten(data: seq<Byte>, records: set<seq<Byte>>, separator: seq<Byte>, record: seq<Byte>, n: nat)
    requires Unjoined(data, records) && record in records && NEWLINE !in record
    requires separator == if Open(data) == [] then [] else [NEWLINE]
    requires n <= |separator + record + [NEWLINE]|
    ensures Unjoined(data + (separator + record + [NEWLINE])[..n], records)
  {
    hide Unjoined, Open;
    var all := separator + record + [NEWLINE];
    if n == 0 {
      assert data + all[..n] == data;
    } else if separator == [] {
      RecordPartly(data, records, record, n);
      assert all == record + [NEWLINE];
    } else {
      EndsLine(data, records);
      RecordPartly(data + [NEWLINE], records, record, n - 1);
      assert data + all[..n] == data + [NEWLINE] + (record + [NEWLINE])[..n - 1];
    }
  }

  /** The whole last line of a file, by itself on it. */
  ghost predicate LastLineIs(data: seq<Byte>, record: seq<Byte>) {
    && |data| > |record|
    && data[|data| - |record| - 1..] == record + [NEWLINE]
    && Open(data[..|data| - |record| - 1]) == []
  }

  lemma LastLine(data: seq<Byte>, separator: seq<Byte>, record: seq<Byte>)
    requires separator == if Open(data) == [] then [] else [NEWLINE]
    ensures LastLineIs(data + separator + record + [NEWLINE], record)
  {
    var base := data + separator;
    var all := base + record + [NEWLINE];
    assert all == base + (record + [NEWLINE]);
    assert all[..|base|] == base && all[|base|..] == record + [NEWLINE];
    if separator == [] {
      assert base == data;
    } else {
      assert base[|base| - 1] == NEWLINE;
    }
  }

  lemma {:induction false} OpenOfLast(data: seq<Byte>)
    ensures Open(data) == [] <==> data == [] || data[|data| - 1] == NEWLINE
  {
  }

  lemma SuffixGrows(part: seq<Byte>, whole: seq<Byte>, more: seq<Byte>)
    requires IsSuffix(part, whole)
    ensures IsSuffix(part + more, whole + more)
  {
    var k := |whole| - |part|;
    assert (whole + more)[k..] == whole[k..] + more;
  }

  lemma SuffixShrinks(front: seq<Byte>, part: seq<Byte>, whole: seq<Byte>)
    requires IsSuffix(front + part, whole)
    ensures IsSuffix(part, whole)
  {
    var k := |whole| - |front + part|;
    assert whole[k..][|front|..] == whole[k + |front|..];
    assert (front + part)[|front|..] == part;
  }

  /** Moving a backup up into a free place changes nothing a reader sees; moving it onto the oldest
      drops exactly that one. */
  lemma {:induction false} MoveUp(backups: seq<FileData>, k: nat)
    requires k + 1 < |backups| && backups[k].Some?
    ensures var moved := backups[k + 1 := backups[k]][k := None];
            && (backups[k + 1] == None ==> Older(moved) == Older(backups))
            && (k + 2 == |backups| ==> Older(backups) == DataOf(backups[k + 1]) + Older(moved))
  {
    if k == 0 {
      MoveFirst(backups);
    } else {
      MoveUp(backups[1..], k - 1);
      var moved := backups[k + 1 := backups[k]][k := None];
      assert moved[1..] == backups[1..][k := backups[1..][k - 1]][k - 1 := None];
    }
  }

  /** What a reader sees of the files around such a move. */
  lemma MovedTail(backups: seq<FileData>, k: nat, live: seq<Byte>, written: seq<Byte>)
    requires k + 1 < |backups| && backups[k].Some? && (k + 2 == |backups| || backups[k + 1] == None)
    requires IsSuffix(Older(backups) + live, written)
    ensures var moved := backups[k + 1 := backups[k]][k := None];
            && IsSuffix(Older(moved) + live, written)
            && Older(backups) + live ==
                 (if k + 2 == |backups| then DataOf(backups[k + 1]) else []) + (Older(moved) + live)
  {
    hide Older, IsSuffix;
    MoveUp(backups, k);
    var moved := backups[k + 1 := backups[k]][k := None];
    if k + 2 == |backups| {
      Reassociate(DataOf(backups[k + 1]), Older(moved), live);
      SuffixShrinks(DataOf(backups[k + 1]), Older(moved) + live, written);
    } else {
      Reassociate([], Older(moved), live);
    }
  }

  lemma Reassociate(a: seq<Byte>, b: seq<Byte>, c: seq<Byte>)
    ensures a + b + c == a + (b + c) && [] + b == b
  {
  }

  /** What a reader sees when the live file becomes the newest backup. */
  lemma RetiredTail(backups: seq<FileData>, live: FileData, written: seq<Byte>)
    requires backups != [] && (|backups| == 1 || backups[0] == None) && IsSuffix(Older(backups) + DataOf(live), written)
    ensures IsSuffix(Older(backups[0 := live]) + [], written)
    ensures Older(backups) + DataOf(live) == DataOf(backups[0]) + (Older(backups[0 := live]) + [])
  {
    hide IsSuffix;
    var front, rest := DataOf(backups[0]), Older(backups[1..]);
    assert |backups| == 1 ==> rest == [];
    assert (backups[0 := live])[1..] == backups[1..];
    assert Older(backups) == rest + front && Older(backups[0 := live]) == rest + DataOf(live);
    assert front == [] || rest == [];
    Reassociate(front, rest, DataOf(live));
    assert rest + front == front + rest && rest + DataOf(live) + [] == rest + DataOf(live);
    SuffixShrinks(front, rest + DataOf(live), written);
  }

  lemma OlderTwo(a: FileData, b: FileData, rest: seq<FileData>)
    ensures Older([a, b] + rest) == Older(rest) + DataOf(b) + DataOf(a)
  {
    assert ([a, b] + rest)[1..] == [b] + rest && ([b] + rest)[1..] == rest;
  }

  lemma MoveFirst(backups: seq<FileData>)
    requires 1 < |backups| && backups[0].Some?
    ensures var moved := backups[1 := backups[0]][0 := None];
            && (backups[1] == None ==> Older(moved) == Older(backups))
            && (|backups| == 2 ==> Older(backups) == DataOf(backups[1]) + Older(moved))
  {
    hide Older;
    var moved := backups[1 := backups[0]][0 := None];
    var rest := backups[2..];
    OlderTwo(backups[0], backups[1], rest);
    OlderTwo(None, backups[0], rest);
    assert backups == [backups[0], backups[1]] + rest && moved == [None, backups[0]] + rest;
    assert Older([]) == [] by { OlderNone(); }
    assert Older(moved) == Older(rest) + DataOf(backups[0]);
    if |backups| == 2 {
      assert rest == [];
    }
  }

  lemma OlderNone()
    ensures Older([]) == []
  {
  }

  /** The journal at one moment; `written` is every byte ever added, across all its processes, and `records`
      every record any of them began to write. */
  datatype Disk = Disk(live: FileData, backups: seq<FileData>, disabled: bool, written: seq<Byte>,
          records: set<seq<Byte>>)

  ghost predicate FitsIn(live: FileData, length: nat, maxBytes: nat) {
    |DataOf(live)| + (if Open(DataOf(live)) == [] then 0 else 1) + length <= maxBytes
  }

  ghost function SeparatorFor(live: FileData, length: nat, maxBytes: nat): seq<Byte> {
    if FitsIn(live, length, maxBytes) && Open(DataOf(live)) != [] then [NEWLINE] else []
  }

  ghost function DueAt(live: FileData, record: seq<Byte>, maxBytes: nat): seq<Byte> {
    SeparatorFor(live, |record| + 1, maxBytes) + record + [NEWLINE]
  }

  class EventJournal {
    const maxBytes: nat
    const backupCount: nat
    var live: FileData
    var backups: seq<FileData>
    var disabled: bool
    ghost var written: seq<Byte>
    ghost var records: set<seq<Byte>>
    ghost var faults: nat

    ghost predicate FileOk(f: FileData)
      reads this
    {
      |DataOf(f)| <= maxBytes && Unjoined(DataOf(f), records)
    }

    /** What holds of the files whenever the process may stop. */
    ghost predicate Valid()
      reads this
    {
      && |backups| == backupCount
      && IsSuffix(Contents(), written)
      && FileOk(live) && (forall k | 0 <= k < backupCount :: FileOk(backups[k]))
    }

    ghost function Now(): Disk
      reads this
    {
      Disk(live, backups, disabled, written, records)
    }

    /** Backups oldest first, then the live file. */
    ghost function Contents(): seq<Byte>
      reads this
    {
      Older(backups) + DataOf(live)
    }

    /** What a rotation overwrites: the oldest backup if another one moves onto it, or the live file if no backups
        are kept. */
    ghost function Oldest(): seq<Byte>
      requires |backups| == backupCount
      reads this
    {
      if backupCount == 0 then DataOf(live)
      else if backupCount == 1 || backups[backupCount - 2].Some? then DataOf(backups[backupCount - 1])
      else []
    }

    constructor (maxBytes: nat, backupCount: nat)
      requires maxBytes >= 2
      ensures Valid() && written == [] && !disabled && this.maxBytes == maxBytes && this.backupCount == backupCount
    {
      this.maxBytes, this.backupCount := maxBytes, backupCount;
      live, backups, disabled := None, seq(backupCount, _ => None), false;
      written, records, faults := [], {}, 0;
      new;
      NoBackups(backups);
    }

    lemma {:induction false} NoBackups(backups: seq<FileData>)
      requires forall k | 0 <= k < |backups| :: backups[k] == None
      ensures Older(backups) == []
    {
      if backups != [] {
        NoBackups(backups[1..]);
      }
    }

    /** A new process takes over the files: the size check never refuses what the journal itself left. */
    method Restart() returns (ok: bool)
      requires Valid()
      modifies this`disabled
      ensures Valid() && ok && Now() == old(Now()).(disabled := false)
    {
      ok := live.Some? ==> |live.value| <= maxBytes;
      var k := 0;
      while k < backupCount
        invariant 0 <= k <= backupCount && ok
      {
        if backups[k].Some? && |backups[k].value| > maxBytes { ok := false; }
        assert FileOk(backups[k]);
        k := k + 1;
      }
      disabled := !ok;
    }

    /** os.replace of one backup onto the next older place. */
    method MoveBackup(k: nat) returns (ok: bool)
      requires Valid() && k + 1 < backupCount && backups[k].Some?
      requires k + 2 == backupCount || backups[k + 1] == None
      modifies this`backups, this`faults
      ensures Valid() && faults == old(faults) + if ok then 0 else 1
      ensures backups == if ok then old(backups)[k + 1 := old(backups)[k]][k := None] else old(backups)
      ensures old(Contents()) ==
              (if ok && k + 2 == backupCount then old(DataOf(backups[k + 1])) else []) + Contents()
    {
      hide Older, IsSuffix, Unjoined;
      ok := *;
      if ok {
        MovedTail(backups, k, DataOf(live), written);
        NothingJoined(records);
        assert FileOk(backups[k]);
        assert [] + Contents() == Contents();
        backups := backups[k + 1 := backups[k]][k := None];
        assert [] + Contents() == Contents();
      } else {
        assert [] + Contents() == Contents();
        faults := faults + 1;
      }
    }

    /** os.replace of the live file onto the newest backup, or its unlink when none are kept. */
    method Retire() returns (ok: bool)
      requires Valid() && live.Some? && (backupCount <= 1 || backups[0] == None)
      modifies this`backups, this`live, this`faults
      ensures Valid() && (ok ==> live == None) && (!ok ==> live == old(live) && backups == old(backups))
      ensures faults == old(faults) + if ok then 0 else 1
      ensures old(Contents()) == (if ok && backupCount <= 1 then old(Oldest()) else []) + Contents()
    {
      hide IsSuffix, Unjoined, Older;
      ok := *;
      if !ok {
        faults := faults + 1;
        assert [] + Contents() == Contents();
      } else if backupCount == 0 {
        OlderNone();
        NothingJoined(records);
        assert DataOf(live) + [] == DataOf(live) == Contents();
        SuffixShrinks(DataOf(live), [], written);
        live := None;
        assert Contents() == [];
      } else {
        RetiredTail(backups, live, written);
        NothingJoined(records);
        backups, live := backups[0 := live], None;
      }
    }

    /** _rotate. It may stop after any of its moves; what it drops is what a rotation overwrites, or nothing. */
    method Rotate() returns (ok: bool, ghost dropped: seq<Byte>)
      requires Valid() && live.Some?
      modifies this`backups, this`live, this`faults
      ensures Valid() && (ok ==> live == None) && (if ok then faults == old(faults) else faults > old(faults))
      ensures old(Contents()) == dropped + Contents()
      ensures dropped == [] || dropped == old(Oldest())
      ensures ok ==> dropped == old(Oldest())
    {
      hide IsSuffix, Unjoined, Older;
      dropped := [];
      assert [] + Contents() == Contents();
      var index := backupCount;
      while index > 1
        invariant Valid() && live == old(live) && index <= backupCount && (backupCount >= 1 ==> index >= 1)
        invariant index < backupCount && index >= 1 ==> backups[index - 1] == None
        invariant index == backupCount ==> backups == old(backups) && dropped == []
        invariant index < backupCount ==> dropped == old(Oldest())
        invariant faults == old(faults) && old(Contents()) == dropped + Contents()
      {
        ghost var last := index == backupCount;
        if backups[index - 2].Some? {
          ghost var was, front := Contents(), DataOf(backups[index - 1]);
          var moved := MoveBackup(index - 2);
          if last && moved { dropped := front; }
          if !last || !moved { assert [] + Contents() == Contents(); }
          if !moved { return false, dropped; }
        }
        index := index - 1;
      }
      ghost var was := dropped;
      ok := Retire();
      if ok && backupCount <= 1 { dropped := old(Oldest()); }
      assert [] + Contents() == Contents();
    }

    /** os.write: some of the bytes, or none and a raise. */
    method WriteSome(data: seq<Byte>) returns (n: nat)
      requires live.Some? && data != []
      modifies this`live, this`written, this`faults
      ensures n <= |data| && live == Some(old(live).value + data[..n]) && written == old(written) + data[..n]
      ensures faults == old(faults) + if n == 0 then 1 else 0
    {
      n :| 0 <= n <= |data|;
      if n == 0 { faults := faults + 1; }
      live := Some(live.value + data[..n]);
      written := written + data[..n];
    }

    /** The write loop: whatever it got written, the files are as they should be. */
    method WriteAll(separator: seq<Byte>, record: seq<Byte>) returns (ok: bool, ghost added: seq<Byte>)
      requires Valid() && live.Some? && record in records && NEWLINE !in record
      requires separator == if Open(live.value) == [] then [] else [NEWLINE]
      requires |live.value| + |separator| + |record| + 1 <= maxBytes
      modifies this`live, this`written, this`faults
      ensures Valid() && live.Some? && (if ok then faults == old(faults) else faults > old(faults))
      ensures Contents() == old(Contents()) + added
      ensures live.value == old(live).value + added && written == old(written) + added
      ensures added <= separator + record + [NEWLINE] && (ok ==> added == separator + record + [NEWLINE])
    {
      hide Unjoined, IsSuffix, Open, Older;
      ghost var before, was := live.value, written;
      ghost var all := separator + record + [NEWLINE];
      var remaining := separator + record + [NEWLINE];
      ghost var n := 0;
      added := [];
      assert before + all[..0] == before && was + all[..0] == was;
      while remaining != []
        invariant n <= |all| && remaining == all[n..] && backups == old(backups)
        invariant live == Some(before + all[..n]) && written == was + all[..n] && Valid() && added == all[..n]
        invariant faults == old(faults)
        decreases |remaining|
      {
        var count := WriteSome(remaining);
        More(before, was, all, n, count);
        n := n + count;
        added := all[..n];
        PartlyWritten(before, records, separator, record, n);
        TailWritten(Older(backups), before, was, all[..n]);
        if count == 0 { return false, added; }
        remaining := remaining[count..];
      }
      assert all[..n] == all;
      ok := true;
    }

    lemma More(before: seq<Byte>, was: seq<Byte>, all: seq<Byte>, n: nat, count: nat)
      requires n + count <= |all|
      ensures before + all[..n] + all[n..][..count] == before + all[..n + count]
      ensures was + all[..n] + all[n..][..count] == was + all[..n + count]
      ensures all[n..][count..] == all[n + count..]
    {
      assert all[..n] + all[n..][..count] == all[..n + count];
    }

    lemma TailWritten(older: seq<Byte>, before: seq<Byte>, was: seq<Byte>, more: seq<Byte>)
      requires IsSuffix(older + before, was)
      ensures IsSuffix(older + (before + more), was + more)
    {
      SuffixGrows(older + before, was, more);
      assert older + before + more == older + (before + more);
    }

    /** Whether a record of this many bytes, with a separator if one is needed, still goes into the live file. */
    ghost predicate Fits(length: nat)
      reads this
    {
      FitsIn(live, length, maxBytes)
    }

    /** Opens the live file for a record of this many bytes with its newline: decides on a separator, and
        rotates when the file would grow too large. */
    method Prepare(length: nat) returns (ok: bool, separator: seq<Byte>, ghost dropped: seq<Byte>)
      requires Valid() && length <= maxBytes
      modifies this`live, this`backups, this`faults
      ensures Valid() && old(Contents()) == dropped + Contents()
      ensures dropped == [] || (!old(Fits(length)) && dropped == old(Oldest()))
      ensures ok && !old(Fits(length)) ==> dropped == old(Oldest())
      ensures if ok then faults == old(faults) else faults > old(faults)
      ensures ok ==> live == Some(if old(Fits(length)) then old(DataOf(live)) else [])
      ensures old(Fits(length)) ==> backups == old(backups)
      ensures ok ==>
                && live.Some? && separator == (if Open(live.value) == [] then [] else [NEWLINE])
                && |live.value| + |separator| + length <= maxBytes
      ensures ok ==> separator == SeparatorFor(old(live), length, maxBytes)
    {
      hide Unjoined, IsSuffix, Open, Older;
      separator, dropped := [], [];
      assert [] + Contents() == Contents();
      ok := *;
      if !ok {
        faults := faults + 1;
        return;
      }
      if live == None { live := Some([]); }
      var size := |live.value|;
      OpenOfLast(live.value);
      separator := if size > 0 && live.value[size - 1] != NEWLINE then [NEWLINE] else [];
      if size + |separator| + length > maxBytes {
        separator := [];
        ok, dropped := Rotate();
        if !ok { return; }
        ok := *;
        if !ok {
          faults := faults + 1;
          return;
        }
        live := Some([]);
        OpenOfLast(live.value);
      }
    }

    /** All that a record is to add: a separator after an unterminated line it goes behind, and the line. */
    ghost function Due(record: seq<Byte>): seq<Byte>
      reads this
    {
      DueAt(live, record, maxBytes)
    }

    /** The part of record that works on an open file: from opening it to the last byte. */
    method Append(record: seq<Byte>) returns (ok: bool, ghost added: seq<Byte>, ghost dropped: seq<Byte>)
      requires Valid() && NEWLINE !in record && record in records && |record| + 1 <= maxBytes
      modifies this`live, this`backups, this`written, this`faults
      ensures Valid() && (if ok then faults == old(faults) else faults > old(faults))
      ensures written == old(written) + added && added <= old(Due(record)) && (ok ==> added == old(Due(record)))
      ensures ok ==> live.Some? && LastLineIs(live.value, record)
      ensures ok ==> live == Some((if old(Fits(|record| + 1)) then old(DataOf(live)) else []) + added)
      ensures old(Contents()) + added == dropped + Contents()
      ensures dropped == [] || (!old(Fits(|record| + 1)) && dropped == old(Oldest()))
      ensures ok && !old(Fits(|record| + 1)) ==> dropped == old(Oldest())
    {
      hide Unjoined, IsSuffix, Open, Older, LastLineIs, SeparatorFor, FitsIn;
      var separator;
      added := [];
      assert written + [] == written;
      ok, separator, dropped := Prepare(|record| + 1);
      assert Contents() + [] == Contents();
      if ok {
        assert old(Due(record)) == separator + record + [NEWLINE];
        LastLine(live.value, separator, record);
        ghost var before, was := live.value, Contents();
        ok, added := WriteAll(separator, record);
        assert ok ==> live.value == before + separator + record + [NEWLINE] == before + added by {
          Reassociate(before, separator + record, [NEWLINE]);
          Reassociate(before, separator, record);
        }
        Reassociate(dropped, was, added);
      }
    }

    /** record: the event is one line of JSON without its newline. Whatever happens, what gets added is the
        beginning of what is due, behind everything written before, and what the files held and the added bytes
        are what they hold now behind what was dropped. That is nothing if the record fits, and otherwise what
        a rotation overwrites. The journal is turned off by a fault, and by a record that is too long, and by
        nothing else. */
    method Record(record: seq<Byte>) returns (ok: bool, ghost added: seq<Byte>, ghost dropped: seq<Byte>)
      requires Valid() && NEWLINE !in record
      modifies this
      ensures Valid()
      ensures written == old(written) + added && added <= old(Due(record)) && (ok ==> added == old(Due(record)))
      ensures records == old(records) || records == old(records) + {record}
      ensures added != [] ==> record in records
      ensures ok ==> live.Some? && LastLineIs(live.value, record)
      ensures ok ==>
                var longer := old(DataOf(live)) + (if Open(old(DataOf(live))) == [] then [] else [NEWLINE])
                                + record + [NEWLINE];
                live.value == if |longer| <= maxBytes then longer else record + [NEWLINE]
      ensures old(Contents()) + added == dropped + Contents()
      ensures dropped == [] || (!old(Fits(|record| + 1)) && dropped == old(Oldest()))
      ensures ok && !old(Fits(|record| + 1)) ==> dropped == old(Oldest())
      ensures !ok <==> disabled
      ensures faults == old(faults) ==>
                (ok <==> !old(disabled) && |record| + 1 <= maxBytes && |record| + 1 <= MAX_RECORD_BYTES)
      ensures ok ==> faults == old(faults)
      ensures old(disabled) ==> Now() == old(Now())
    {
      hide Unjoined, IsSuffix, Open, Older, LastLineIs, SeparatorFor, FitsIn, DueAt;
      ok, added, dropped := false, [], [];
      assert written + [] == written && Contents() + [] == Contents() == [] + Contents();
      ghost var was := live;
      if !disabled {
        disabled := true;
        if |record| + 1 <= maxBytes && |record| + 1 <= MAX_RECORD_BYTES {
          RecordsMore(record);
          records := records + {record};
          ok, added, dropped := Append(record);
          disabled := !ok;
          LiveLonger(was, record, maxBytes);
        }
      }
    }

    lemma LiveLonger(live: FileData, record: seq<Byte>, maxBytes: nat)
      ensures var longer := DataOf(live) + (if Open(DataOf(live)) == [] then [] else [NEWLINE]) + record + [NEWLINE];
              (if FitsIn(live, |record| + 1, maxBytes) then DataOf(live) else []) + DueAt(live, record, maxBytes) ==
                if |longer| <= maxBytes then longer else record + [NEWLINE]
    {
      hide Open;
      var separator := if Open(DataOf(live)) == [] then [] else [NEWLINE];
      Reassociate(DataOf(live), separator, record);
      Reassociate(DataOf(live), separator + record, [NEWLINE]);
      Reassociate([], record, [NEWLINE]);
      Reassociate([], record + [NEWLINE], []);
    }

    lemma RecordsMore(record: seq<Byte>)
      requires Valid()
      ensures forall f: FileData :: FileOk(f) ==> Unjoined(DataOf(f), records + {record})
    {
      forall f: FileData | FileOk(f) ensures Unjoined(DataOf(f), records + {record}) {
        UnjoinedMore(DataOf(f), records, records + {record});
      }
    }
  }

  // Whole runs.

  /** What holds of the files of one journal whenever its process may stop. */
  ghost predicate Good(d: Disk, maxBytes: nat, backupCount: nat) {
    && |d.backups| == backupCount
    && IsSuffix(Older(d.backups) + DataOf(d.live), d.written)
    && forall f | f == d.live || f in d.backups :: |DataOf(f)| <= maxBytes && Unjoined(DataOf(f), d.records)
  }

  lemma ValidIsGood(j: EventJournal)
    ensures j.Valid() <==> Good(j.Now(), j.maxBytes, j.backupCount)
  {
    hide Unjoined, IsSuffix, Older;
    assert forall k | 0 <= k < |j.backups| :: j.backups[k] in j.backups;
  }

  /** A call, or a new process taking over after the old one has ended or was killed anywhere in a call. */
  datatype Call = Recorded(record: seq<Byte>) | Restarted

  /** What a rotation overwrites. */
  ghost function Overwritten(d: Disk): seq<Byte> {
    var n := |d.backups|;
    if n == 0 then DataOf(d.live)
    else if n == 1 || d.backups[n - 2].Some? then DataOf(d.backups[n - 1])
    else []
  }

  /** The contract of Record, between two moments. */
  ghost predicate RecordStep(d: Disk, record: seq<Byte>, d': Disk, added: seq<Byte>, dropped: seq<Byte>,
          maxBytes: nat, backupCount: nat)
  {
    && Good(d', maxBytes, backupCount)
    && d'.written == d.written + added && added <= DueAt(d.live, record, maxBytes)
    && (d'.records == d.records || d'.records == d.records + {record})
    && (!d'.disabled ==> added == DueAt(d.live, record, maxBytes))
    && (d.disabled ==> d' == d)
    && Older(d.backups) + DataOf(d.live) + added == dropped + (Older(d'.backups) + DataOf(d'.live))
    && (dropped == [] || (!FitsIn(d.live, |record| + 1, maxBytes) && dropped == Overwritten(d)))
  }

  ghost predicate Step(d: Disk, call: Call, d': Disk, added: seq<Byte>, dropped: seq<Byte>, maxBytes: nat,
          backupCount: nat)
  {
    match call
    case Recorded(record) => NEWLINE !in record && RecordStep(d, record, d', added, dropped, maxBytes, backupCount)
    case Restarted => d' == d.(disabled := false) && added == [] && dropped == []
  }

  /** The method takes such a step, wherever it stops. */
  method TakeStep(j: EventJournal, call: Call) returns (ghost added: seq<Byte>, ghost dropped: seq<Byte>)
    requires j.Valid() && (call.Recorded? ==> NEWLINE !in call.record)
    modifies j
    ensures j.Valid() && Step(old(j.Now()), call, j.Now(), added, dropped, j.maxBytes, j.backupCount)
  {
    hide Unjoined, IsSuffix, Older, Open, LastLineIs, SeparatorFor, FitsIn, DueAt, EventJournal.Valid;
    ValidIsGood(j);
    match call {
      case Recorded(record) =>
        var ok;
        ok, added, dropped := j.Record(record);
        ValidIsGood(j);
      case Restarted =>
        var ok := j.Restart();
        added, dropped := [], [];
    }
  }

  /** What one call adds at the end, and what it drops at the front. */
  datatype Effect = Effect(added: seq<Byte>, dropped: seq<Byte>)

  /** Any number of calls, restarts and stops: calls[i] leads from disks[i] to disks[i + 1], with effects[i]. */
  ghost predicate Run(disks: seq<Disk>, calls: seq<Call>, effects: seq<Effect>, maxBytes: nat, backupCount: nat) {
    && |disks| == |calls| + 1 == |effects| + 1
    && Good(disks[0], maxBytes, backupCount) && disks[0].written == [] && disks[0].records == {}
    && forall i | 0 <= i < |calls| ::
         Step(disks[i], calls[i], disks[i + 1], effects[i].added, effects[i].dropped, maxBytes, backupCount)
  }

  function Added(effects: seq<Effect>): seq<Byte> {
    if effects == [] then [] else Added(effects[..|effects| - 1]) + effects[|effects| - 1].added
  }

  function Dropped(effects: seq<Effect>): seq<Byte> {
    if effects == [] then [] else Dropped(effects[..|effects| - 1]) + effects[|effects| - 1].dropped
  }

  ghost function Offered(calls: seq<Call>): set<seq<Byte>> {
    set c | c in calls && c.Recorded? :: c.record
  }

  function Held(d: Disk): seq<Byte> {
    Older(d.backups) + DataOf(d.live)
  }

  /** At every moment of every run: everything ever written is what the calls added, call by call, and nothing
      that was not offered was recorded. */
  lemma {:induction false} RunWrites(disks: seq<Disk>, calls: seq<Call>, effects: seq<Effect>, maxBytes: nat,
          backupCount: nat, n: nat)
    requires Run(disks, calls, effects, maxBytes, backupCount) && n <= |calls|
    ensures Good(disks[n], maxBytes, backupCount)
    ensures disks[n].written == Added(effects[..n]) && disks[n].records <= Offered(calls[..n])
  {
    hide Good, Offered, Step;
    if n == 0 {
      assert Offered(calls[..0]) >= {};
    } else {
      RunWrites(disks, calls, effects, maxBytes, backupCount, n - 1);
      var e := effects[n - 1];
      assert Step(disks[n - 1], calls[n - 1], disks[n], e.added, e.dropped, maxBytes, backupCount);
      StepWrites(disks[n - 1], calls[n - 1], disks[n], e, maxBytes, backupCount);
      assert effects[..n][..n - 1] == effects[..n - 1];
      OfferedMore(calls, n);
    }
  }

  lemma StepWrites(d: Disk, call: Call, d': Disk, e: Effect, maxBytes: nat, backupCount: nat)
    requires Good(d, maxBytes, backupCount) && Step(d, call, d', e.added, e.dropped, maxBytes, backupCount)
    ensures Good(d', maxBytes, backupCount) && d'.written == d.written + e.added
    ensures d'.records <= d.records + if call.Recorded? then {call.record} else {}
  {
    hide Older, IsSuffix, Unjoined, DueAt, FitsIn, Overwritten;
  }

  lemma OfferedMore(calls: seq<Call>, n: nat)
    requires 0 < n <= |calls|
    ensures Offered(calls[..n]) ==
            Offered(calls[..n - 1]) + if calls[n - 1].Recorded? then {calls[n - 1].record} else {}
  {
    assert calls[..n] == calls[..n - 1] + [calls[n - 1]];
    assert forall c :: c in calls[..n] <==> c in calls[..n - 1] || c == calls[n - 1];
  }

  /** Each call adds the beginning of what was due, and drops nothing or what a rotation overwrites. */
  lemma EachCall(disks: seq<Disk>, calls: seq<Call>, effects: seq<Effect>, maxBytes: nat, backupCount: nat, i: nat)
    requires Run(disks, calls, effects, maxBytes, backupCount) && i < |calls|
    ensures if calls[i].Recorded? then effects[i].added <= DueAt(disks[i].live, calls[i].record, maxBytes)
            else effects[i].added == []
    ensures effects[i].dropped == [] || effects[i].dropped == Overwritten(disks[i])
  {
    hide Good, DueAt, FitsIn, Overwritten, Older;
    assert Step(disks[i], calls[i], disks[i + 1], effects[i].added, effects[i].dropped, maxBytes, backupCount);
  }

  /** Nothing is lost but that: what the calls added is what they dropped and what the files hold. */
  lemma {:induction false} RunBalances(disks: seq<Disk>, calls: seq<Call>, effects: seq<Effect>, maxBytes: nat,
          backupCount: nat, n: nat)
    requires Run(disks, calls, effects, maxBytes, backupCount) && n <= |calls|
    ensures Added(effects[..n]) == Dropped(effects[..n]) + Held(disks[n])
  {
    hide Held, DueAt, FitsIn, Overwritten, Good;
    if n == 0 {
      NothingHeld(disks[0], maxBytes, backupCount);
    } else {
      RunBalances(disks, calls, effects, maxBytes, backupCount, n - 1);
      var e := effects[n - 1];
      assert Step(disks[n - 1], calls[n - 1], disks[n], e.added, e.dropped, maxBytes, backupCount);
      StepBalances(disks[n - 1], calls[n - 1], disks[n], e, maxBytes, backupCount);
      assert effects[..n][..n - 1] == effects[..n - 1];
      Balance(Dropped(effects[..n - 1]), Held(disks[n - 1]), e.added, e.dropped, Held(disks[n]));
    }
  }

  lemma StepBalances(d: Disk, call: Call, d': Disk, e: Effect, maxBytes: nat, backupCount: nat)
    requires Step(d, call, d', e.added, e.dropped, maxBytes, backupCount)
    ensures Held(d) + e.added == e.dropped + Held(d') || (Held(d) == Held(d') && e.added == [] && e.dropped == [])
  {
    hide Older, DueAt, FitsIn, Overwritten, Good;
  }

  lemma NothingHeld(d: Disk, maxBytes: nat, backupCount: nat)
    requires Good(d, maxBytes, backupCount) && d.written == []
    ensures Held(d) == [] && [] + Held(d) == []
  {
    hide Older, Unjoined;
  }

  lemma Balance(dropped: seq<Byte>, held: seq<Byte>, added: seq<Byte>, more: seq<Byte>, now: seq<Byte>)
    requires held + added == more + now || (held == now && added == [] && more == [])
    ensures dropped + held + added == dropped + more + now
  {
    assert dropped + held + added == dropped + (held + added);
    assert dropped + more + now == dropped + (more + now);
  }

  /** At every moment of every run, even in the middle of a rotation or a write that was cut off: backups
      oldest first and the live file are the tail of everything the calls added; every file is within its
      limit; and every line of every file is one record that was offered, or the beginning of one. */
  lemma JournalIsTail(disks: seq<Disk>, calls: seq<Call>, effects: seq<Effect>, maxBytes: nat, backupCount: nat,
          n: nat)
    requires Run(disks, calls, effects, maxBytes, backupCount) && n <= |calls|
    ensures IsSuffix(Held(disks[n]), Added(effects[..n]))
    ensures forall f | f == disks[n].live || f in disks[n].backups :: |DataOf(f)| <= maxBytes
    ensures forall f, i, j | (f == disks[n].live || f in disks[n].backups) && IsLine(DataOf(f), i, j) ::
              exists r :: r in Offered(calls[..n]) && DataOf(f)[i..j] <= r
  {
    hide Older, IsSuffix, Unjoined, DueAt, FitsIn, Step, Added, Dropped, Offered;
    RunWrites(disks, calls, effects, maxBytes, backupCount, n);
    forall f, i, j | (f == disks[n].live || f in disks[n].backups) && IsLine(DataOf(f), i, j)
      ensures exists r :: r in Offered(calls[..n]) && DataOf(f)[i..j] <= r
    {
      LineIsOneRecord(DataOf(f), disks[n].records, i, j);
    }
  }

  /** A stretch without newlines, from the beginning of a line on. */
  predicate IsLine(data: seq<Byte>, i: int, j: int) {
    0 <= i < j <= |data| && (i == 0 || data[i - 1] == NEWLINE) && forall k | i <= k < j :: data[k] != NEWLINE
  }

  /** A record that fits drops nothing, nor does one for which the rotation overwrites nothing: the files hold what
      they held and what was added. */
  lemma FittingKeepsAll(disks: seq<Disk>, calls: seq<Call>, effects: seq<Effect>, maxBytes: nat, backupCount: nat,
          n: nat)
    requires Run(disks, calls, effects, maxBytes, backupCount) && n < |calls| && calls[n].Recorded?
    requires FitsIn(disks[n].live, |calls[n].record| + 1, maxBytes) || Overwritten(disks[n]) == []
    ensures effects[n].dropped == [] && Held(disks[n + 1]) == Held(disks[n]) + effects[n].added
  {
    hide Older, Unjoined, DueAt, FitsIn, Offered, IsSuffix, Overwritten;
    assert Step(disks[n], calls[n], disks[n + 1], effects[n].added, effects[n].dropped, maxBytes, backupCount);
    assert [] + Held(disks[n + 1]) == Held(disks[n + 1]);
    assert disks[n + 1] == disks[n] ==> Held(disks[n]) + [] == Held(disks[n]);
  }
}
