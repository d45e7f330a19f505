/** Keyed at-most-once execution: the table of results, in-flight keys and pins, with one method for
    each section that runs under the lock. */
module Idempotency {
  import opened Options

  const CACHE_ENTRIES: nat := 64

  datatype Slot = Slot(tool: string, key: string)

  /** A recorded success: the arguments that earned it, and what the tool answered. */
  datatype Entry = Entry(slot: Slot, fingerprint: string, payload: string)

  datatype Hit = Replay(payload: string) | KeyReused

  /** Results are kept in order of last use, oldest first. */
  datatype Table = Table(inflight: set<Slot>, pins: map<Slot, nat>, results: seq<Entry>)

  predicate Has(results: seq<Entry>, slot: Slot) {
    exists e | e in results :: e.slot == slot
  }

  ghost predicate Distinct(results: seq<Entry>) {
    forall i, j | 0 <= i < j < |results| :: results[i].slot != results[j].slot
  }

  /** The result recorded under a slot. */
  function Recorded(results: seq<Entry>, slot: Slot): (r: Option<Entry>)
    ensures r.Some? <==> Has(results, slot)
    ensures r.Some? ==> r.value in results && r.value.slot == slot
  {
    if results == [] then None
    else if results[0].slot == slot then Some(results[0])
    else
      var r := Recorded(results[1..], slot);
      assert r.None? ==> forall e | e in results :: e == results[0] || e in results[1..];
      r
  }

  function Without(results: seq<Entry>, slot: Slot): (r: seq<Entry>)
    ensures forall e :: e in r <==> e in results && e.slot != slot
  {
    if results == [] then []
    else (if results[0].slot == slot then [] else [results[0]]) + Without(results[1..], slot)
  }

  function AtEnd(results: seq<Entry>, e: Entry): seq<Entry> {
    Without(results, e.slot) + [e]
  }

  function FirstUnpinned(results: seq<Entry>, pins: map<Slot, nat>): (r: Option<Slot>)
    ensures r.None? <==> forall e | e in results :: e.slot in pins
    ensures r.Some? ==> r.value !in pins && Has(results, r.value)
  {
    if results == [] then None
    else if results[0].slot !in pins then Some(results[0].slot)
    else
      var r := FirstUnpinned(results[1..], pins);
      assert forall e | e in results :: e == results[0] || e in results[1..];
      r
  }

  lemma {:induction false} WithoutShrinks(results: seq<Entry>, slot: Slot)
    ensures |Without(results, slot)| <= |results|
    ensures Has(results, slot) ==> |Without(results, slot)| < |results|
  {
    if results != [] {
      WithoutShrinks(results[1..], slot);
    }
  }

  /** Drops the least recently used results nobody has pinned until the rest fits, or is all pinned. */
  function Prune(results: seq<Entry>, pins: map<Slot, nat>): (r: seq<Entry>)
    ensures |r| <= CACHE_ENTRIES || forall e | e in r :: e.slot in pins
    ensures forall e | e in r :: e in results
    ensures forall e | e in results && e.slot in pins :: e in r
    decreases |results|
  {
    if |results| <= CACHE_ENTRIES then results
    else
      match FirstUnpinned(results, pins)
      case None => results
      case Some(victim) =>
        WithoutShrinks(results, victim);
        Prune(Without(results, victim), pins)
  }

  /** The pinned ones of some results. */
  function OnlyPinned(results: seq<Entry>, pins: map<Slot, nat>): seq<Entry> {
    if results == [] then []
    else (if results[0].slot in pins then [results[0]] else []) + OnlyPinned(results[1..], pins)
  }

  lemma Regroup(a: seq<Entry>, b: seq<Entry>, c: seq<Entry>)
    ensures a + (b + c) == (a + b) + c
  {
  }

  lemma {:induction false} OnlyPinnedPlus(a: seq<Entry>, b: seq<Entry>, pins: map<Slot, nat>)
    ensures OnlyPinned(a + b, pins) == OnlyPinned(a, pins) + OnlyPinned(b, pins)
  {
    if a == [] {
      assert a + b == b;
    } else {
      assert (a + b)[0] == a[0] && (a + b)[1..] == a[1..] + b;
      OnlyPinnedPlus(a[1..], b, pins);
      Regroup(if a[0].slot in pins then [a[0]] else [], OnlyPinned(a[1..], pins), OnlyPinned(b, pins));
    }
  }

  lemma {:induction false} WithoutPlus(a: seq<Entry>, b: seq<Entry>, slot: Slot)
    ensures Without(a + b, slot) == Without(a, slot) + Without(b, slot)
  {
    if a == [] {
      assert a + b == b;
    } else {
      assert (a + b)[0] == a[0] && (a + b)[1..] == a[1..] + b;
      WithoutPlus(a[1..], b, slot);
      Regroup(if a[0].slot == slot then [] else [a[0]], Without(a[1..], slot), Without(b, slot));
    }
  }

  /** The first unpinned result: all before it are pinned. */
  lemma {:induction false} VictimAt(results: seq<Entry>, pins: map<Slot, nat>) returns (v: nat)
    requires FirstUnpinned(results, pins).Some?
    ensures v < |results| && results[v].slot == FirstUnpinned(results, pins).value
    ensures OnlyPinned(results[..v], pins) == results[..v]
  {
    if results[0].slot !in pins {
      v := 0;
    } else {
      var w := VictimAt(results[1..], pins);
      v := w + 1;
      assert results[..v] == [results[0]] + results[1..][..w];
      assert results[..v][1..] == results[1..][..w];
    }
  }

  lemma WithoutAt(before: seq<Entry>, victim: Entry, after: seq<Entry>)
    requires Distinct(before + [victim] + after)
    ensures Without(before + [victim] + after, victim.slot) == before + after
  {
    var all := before + [victim] + after;
    assert all[|before|] == victim;
    forall i | 0 <= i < |before| ensures before[i].slot != victim.slot {
      assert all[i] == before[i];
    }
    forall i | 0 <= i < |after| ensures after[i].slot != victim.slot {
      assert all[|before| + 1 + i] == after[i];
    }
    hide Without, Distinct;
    WithoutPlus(before + [victim], after, victim.slot);
    WithoutPlus(before, [victim], victim.slot);
    NothingWithout(before, victim.slot);
    NothingWithout(after, victim.slot);
    OneWithout(victim);
    assert before + [] == before;
  }

  lemma OneWithout(e: Entry)
    ensures Without([e], e.slot) == []
  {
    assert [e][1..] == [];
  }

  lemma {:induction false} NothingWithout(results: seq<Entry>, slot: Slot)
    requires forall i | 0 <= i < |results| :: results[i].slot != slot
    ensures Without(results, slot) == results
  {
    if results != [] {
      NothingWithout(results[1..], slot);
    }
  }

  /** The results without the unpinned ones among the n least recently used. */
  function LessUnpinned(results: seq<Entry>, pins: map<Slot, nat>, n: nat): seq<Entry>
    requires n <= |results|
  {
    OnlyPinned(results[..n], pins) + results[n..]
  }

  /** Taking the first unpinned result out. */
  lemma DropOne(results: seq<Entry>, pins: map<Slot, nat>)
    returns (before: seq<Entry>, victim: Entry, after: seq<Entry>)
    requires Distinct(results) && |results| > CACHE_ENTRIES && FirstUnpinned(results, pins).Some?
    ensures results == before + [victim] + after && victim.slot !in pins && OnlyPinned(before, pins) == before
    ensures Distinct(before + after) && Prune(results, pins) == Prune(before + after, pins)
  {
    hide OnlyPinned, Distinct, Prune, FirstUnpinned, Without;
    PruneStep(results, pins);
    var v := VictimAt(results, pins);
    before, victim, after := results[..v], results[v], results[v + 1..];
    assert results == before + [victim] + after;
    WithoutAt(before, victim, after);
    WithoutDistinct(results, victim.slot);
  }

  lemma {:induction false} PruneLeaves(results: seq<Entry>, pins: map<Slot, nat>)
    requires Distinct(results) && |results| >= CACHE_ENTRIES
    ensures |Prune(results, pins)| >= CACHE_ENTRIES
    decreases |results|
  {
    hide OnlyPinned, Distinct, Prune, FirstUnpinned, Without;
    PruneStep(results, pins);
    if |results| > CACHE_ENTRIES && FirstUnpinned(results, pins).Some? {
      var before, victim, after := DropOne(results, pins);
      PruneLeaves(before + after, pins);
    }
  }

  /** What pruning drops are the unpinned ones among the n least recently used results, and no more than
      needed: the last one to go was unpinned, and 64 are left or more. The order stays. */
  lemma {:induction false} PruneDropsOldest(results: seq<Entry>, pins: map<Slot, nat>) returns (n: nat)
    requires Distinct(results)
    ensures n <= |results| && Prune(results, pins) == LessUnpinned(results, pins, n)
    ensures n > 0 ==> results[n - 1].slot !in pins && |Prune(results, pins)| >= CACHE_ENTRIES
    ensures n == 0 <==> |results| <= CACHE_ENTRIES || forall e | e in results :: e.slot in pins
    decreases |results|
  {
    hide OnlyPinned, Distinct, Prune, FirstUnpinned, Without, LessUnpinned;
    PruneStep(results, pins);
    if |results| <= CACHE_ENTRIES || FirstUnpinned(results, pins).None? {
      n := 0;
      NothingLess(results, pins);
    } else {
      PruneLeaves(results, pins);
      var before, victim, after := DropOne(results, pins);
      var m := PruneDropsOldest(before + after, pins);
      n := Cut(before, victim, after, pins, m);
    }
  }

  /** One round of the pruning loop. */
  lemma PruneStep(results: seq<Entry>, pins: map<Slot, nat>)
    ensures var victim := FirstUnpinned(results, pins);
            if |results| <= CACHE_ENTRIES || victim.None? then Prune(results, pins) == results
            else Prune(results, pins) == Prune(Without(results, victim.value), pins)
    ensures FirstUnpinned(results, pins).None? <==> forall e | e in results :: e.slot in pins
    ensures FirstUnpinned(results, pins).Some? ==> FirstUnpinned(results, pins).value !in pins
  {
  }

  lemma NothingLess(results: seq<Entry>, pins: map<Slot, nat>)
    ensures LessUnpinned(results, pins, 0) == results
  {
    assert results[..0] == [];
  }

  lemma NonePinned(pins: map<Slot, nat>)
    ensures OnlyPinned([], pins) == []
  {
  }

  /** Cutting the results without an unpinned one, at m, is cutting them with it one further, or right behind it. */
  lemma Cut(before: seq<Entry>, victim: Entry, after: seq<Entry>, pins: map<Slot, nat>, m: nat) returns (n: nat)
    requires victim.slot !in pins && OnlyPinned(before, pins) == before && m <= |before + after|
    requires m > 0 ==> (before + after)[m - 1].slot !in pins
    ensures var results := before + [victim] + after;
            && 0 < n <= |results| && results[n - 1].slot !in pins
            && LessUnpinned(results, pins, n) == LessUnpinned(before + after, pins, m)
  {
    hide OnlyPinned;
    if 0 < m <= |before| {
      assert (before + after)[m - 1] == before[m - 1];
      AllPinnedBefore(before, pins, m - 1);
      assert false;
    }
    var k := if m == 0 then 0 else m - |before|;
    n := |before| + 1 + k;
    CutBehind(before + [victim], after, k);
    CutBehind(before, after, k);
    OnlyPinnedPlus(before + [victim], after[..k], pins);
    OnlyPinnedPlus(before, after[..k], pins);
    OnlyPinnedPlus(before, [victim], pins);
    assert OnlyPinned([victim], pins) == [] by { OneUnpinned(victim, pins); }
    assert before + [] == before;
    if m == 0 {
      assert (before + after)[..0] == [] && (before + after)[0..] == before + after;
      assert after[..0] == [] && after[0..] == after;
      NonePinned(pins);
    }
  }

  lemma OneUnpinned(e: Entry, pins: map<Slot, nat>)
    requires e.slot !in pins
    ensures OnlyPinned([e], pins) == []
  {
    assert [e][1..] == [];
  }

  lemma CutBehind(a: seq<Entry>, b: seq<Entry>, k: nat)
    requires k <= |b|
    ensures (a + b)[..|a| + k] == a + b[..k] && (a + b)[|a| + k..] == b[k..]
  {
  }

  lemma AllPinnedBefore(results: seq<Entry>, pins: map<Slot, nat>, i: nat)
    requires OnlyPinned(results, pins) == results && i < |results|
    ensures results[i].slot in pins
  {
    OnlyPinnedIn(results, pins, results[i]);
  }

  lemma {:induction false} OnlyPinnedIn(results: seq<Entry>, pins: map<Slot, nat>, e: Entry)
    requires e in OnlyPinned(results, pins)
    ensures e.slot in pins
  {
    if results[0].slot !in pins || e != results[0] {
      OnlyPinnedIn(results[1..], pins, e);
    }
  }

  lemma {:induction false} WithoutDistinct(results: seq<Entry>, slot: Slot)
    requires Distinct(results)
    ensures Distinct(Without(results, slot))
  {
    if results != [] {
      var rest := results[1..];
      WithoutDistinct(rest, slot);
      var kept := Without(rest, slot);
      forall i | 0 <= i < |kept| ensures kept[i].slot != results[0].slot {
        assert kept[i] in rest;
      }
    }
  }

  lemma {:induction false} PruneDistinct(results: seq<Entry>, pins: map<Slot, nat>)
    requires Distinct(results)
    ensures Distinct(Prune(results, pins))
    decreases |results|
  {
    if |results| > CACHE_ENTRIES && FirstUnpinned(results, pins).Some? {
      var victim := FirstUnpinned(results, pins).value;
      WithoutDistinct(results, victim);
      WithoutShrinks(results, victim);
      PruneDistinct(Without(results, victim), pins);
    }
  }

  lemma AtEndDistinct(results: seq<Entry>, e: Entry)
    requires Distinct(results)
    ensures Distinct(AtEnd(results, e))
  {
    WithoutDistinct(results, e.slot);
    var kept := Without(results, e.slot);
    forall i | 0 <= i < |kept| ensures kept[i].slot != e.slot {
      assert kept[i] in kept;
    }
  }

  lemma RecordedIs(results: seq<Entry>, e: Entry)
    requires Distinct(results) && e in results
    ensures Recorded(results, e.slot) == Some(e)
  {
    var r := Recorded(results, e.slot).value;
    var i :| 0 <= i < |results| && results[i] == e;
    var j :| 0 <= j < |results| && results[j] == r;
  }

  /** Pruning never touches a pinned result. */
  lemma PinnedStays(results: seq<Entry>, pins: map<Slot, nat>, slot: Slot)
    requires Distinct(results) && slot in pins
    ensures Recorded(Prune(results, pins), slot) == Recorded(results, slot)
  {
    PruneDistinct(results, pins);
    var pruned := Prune(results, pins);
    if Has(results, slot) {
      RecordedIs(pruned, Recorded(results, slot).value);
    } else {
      assert forall e | e in pruned :: e in results;
    }
  }

  /** How many of some results nobody has pinned. */
  function Unpinned(results: seq<Entry>, pins: map<Slot, nat>): int {
    |results| - |OnlyPinned(results, pins)|
  }

  lemma UnpinnedGrows(results: seq<Entry>, pins: map<Slot, nat>, i: nat, j: nat)
    requires i <= j <= |results|
    ensures Unpinned(results[..i], pins) <= Unpinned(results[..j], pins)
    ensures i < j && results[i].slot !in pins ==> Unpinned(results[..i], pins) < Unpinned(results[..j], pins)
  {
    hide OnlyPinned;
    if i < j {
      assert results[..j] == results[..i] + ([results[i]] + results[i + 1..j]);
      OnlyPinnedPlus(results[..i], [results[i]] + results[i + 1..j], pins);
      OnlyPinnedPlus([results[i]], results[i + 1..j], pins);
      OnlyPinnedShrinks(results[i + 1..j], pins);
      OnlyPinnedShrinks([results[i]], pins);
      if results[i].slot !in pins { OneUnpinned(results[i], pins); }
    }
  }

  lemma {:induction false} OnlyPinnedShrinks(results: seq<Entry>, pins: map<Slot, nat>)
    ensures |OnlyPinned(results, pins)| <= |results|
  {
    if results != [] {
      OnlyPinnedShrinks(results[1..], pins);
    }
  }

  /** The result is unpinned and among as many of the least recently used unpinned ones as there are too many. */
  ghost predicate Overdue(results: seq<Entry>, pins: map<Slot, nat>, slot: Slot) {
    slot !in pins
    && exists i | 0 <= i < |results| ::
         results[i].slot == slot && Unpinned(results[..i], pins) < |results| - CACHE_ENTRIES
  }

  /** Exactly those go when the results are pruned; every other key keeps what is recorded under it. So nothing
      goes from 64 results or fewer. */
  lemma PruneRecords(results: seq<Entry>, pins: map<Slot, nat>, slot: Slot)
    requires Distinct(results)
    ensures Recorded(Prune(results, pins), slot) ==
            if Overdue(results, pins, slot) then None else Recorded(results, slot)
    ensures |results| <= 64 ==> Recorded(Prune(results, pins), slot) == Recorded(results, slot)
  {
    hide Prune, OnlyPinned, Unpinned, Distinct, Recorded;
    var kept := Prune(results, pins);
    PruneDistinct(results, pins);
    if slot in pins {
      PinnedStays(results, pins, slot);
    } else if Has(results, slot) {
      var i :| 0 <= i < |results| && results[i].slot == slot;
      RecordedIs(results, results[i]);
      OnlyAt(results, i);
      PruneKeepsAt(results, pins, i);
      if results[i] in kept {
        RecordedIs(kept, results[i]);
      } else {
        NotRecorded(results, kept, i);
      }
    } else {
      assert !Has(kept, slot);
      NoneRecorded(results, slot);
      NoneRecorded(kept, slot);
    }
    NoneTooMany(results, pins);
  }

  lemma NoneTooMany(results: seq<Entry>, pins: map<Slot, nat>)
    ensures |results| <= CACHE_ENTRIES ==> forall slot :: !Overdue(results, pins, slot)
  {
    forall i | 0 <= i <= |results| ensures Unpinned(results[..i], pins) >= 0 {
      OnlyPinnedShrinks(results[..i], pins);
    }
  }

  lemma NoneRecorded(results: seq<Entry>, slot: Slot)
    requires !Has(results, slot)
    ensures Recorded(results, slot) == None
  {
  }

  lemma NotRecorded(results: seq<Entry>, kept: seq<Entry>, i: nat)
    requires Distinct(results) && i < |results| && results[i] !in kept && forall e | e in kept :: e in results
    ensures Recorded(kept, results[i].slot) == None
  {
    OnlyAt(results, i);
    NoneRecorded(kept, results[i].slot);
  }

  lemma OnlyAt(results: seq<Entry>, i: nat)
    requires Distinct(results) && i < |results|
    ensures forall j | 0 <= j < |results| && results[j].slot == results[i].slot :: j == i
    ensures forall e | e in results && e.slot == results[i].slot :: e == results[i]
  {
  }

  /** An unpinned result stays exactly if enough unpinned ones were used before it. */
  lemma PruneKeepsAt(results: seq<Entry>, pins: map<Slot, nat>, i: nat)
    requires Distinct(results) && i < |results| && results[i].slot !in pins
    ensures results[i] in Prune(results, pins) <==> Unpinned(results[..i], pins) >= |results| - CACHE_ENTRIES
  {
    hide Prune, OnlyPinned, Distinct, Recorded;
    var n := PruneDropsOldest(results, pins);
    var kept := Prune(results, pins);
    assert |OnlyPinned(results[..n], pins)| == |kept| - (|results| - n);
    assert Unpinned(results[..n], pins) == |results| - |kept|;
    if i < n {
      UnpinnedGrows(results, pins, i, n);
      if results[i] in kept {
        OnlyAt(results, i);
        assert results[i] in OnlyPinned(results[..n], pins);
        OnlyPinnedIn(results[..n], pins, results[i]);
        assert false;
      }
    } else {
      UnpinnedGrows(results, pins, n, i);
      assert results[n..][i - n] == results[i];
      assert results[i] in kept;
    }
  }

  /** One result was used longer ago than another. */
  ghost predicate Before(results: seq<Entry>, a: Slot, b: Slot) {
    exists i, j :: 0 <= i < j < |results| && results[i].slot == a && results[j].slot == b
  }

  lemma BeforeIff(results: seq<Entry>, a: Slot, b: Slot)
    requires results != []
    ensures Before(results, a, b) <==>
              (results[0].slot == a && Has(results[1..], b)) || Before(results[1..], a, b)
  {
    hide Before, Has;
    if Before(results, a, b) { BeforeSplits(results, a, b); }
    if (results[0].slot == a && Has(results[1..], b)) || Before(results[1..], a, b) { BeforeJoins(results, a, b); }
  }

  lemma BeforeSplits(results: seq<Entry>, a: Slot, b: Slot)
    requires results != [] && Before(results, a, b)
    ensures (results[0].slot == a && Has(results[1..], b)) || Before(results[1..], a, b)
  {
    var rest := results[1..];
    var i, j :| 0 <= i < j < |results| && results[i].slot == a && results[j].slot == b;
    assert rest[j - 1] == results[j];
    if i > 0 { assert rest[i - 1].slot == a && rest[j - 1].slot == b; }
  }

  lemma BeforeJoins(results: seq<Entry>, a: Slot, b: Slot)
    requires results != []
    requires (results[0].slot == a && Has(results[1..], b)) || Before(results[1..], a, b)
    ensures Before(results, a, b)
  {
    var rest := results[1..];
    if Before(rest, a, b) {
      var i, j :| 0 <= i < j < |rest| && rest[i].slot == a && rest[j].slot == b;
      assert results[i + 1].slot == a && results[j + 1].slot == b;
    } else {
      var k :| 0 <= k < |rest| && rest[k].slot == b;
      assert results[0].slot == a && results[k + 1].slot == b;
    }
  }

  lemma {:induction false} WithoutOrder(results: seq<Entry>, slot: Slot, a: Slot, b: Slot)
    requires Before(Without(results, slot), a, b)
    ensures Before(results, a, b) && a != slot && b != slot
  {
    hide Before;
    if results == [] {
      NothingWithin(slot);
      NothingInOrder(a, b);
    } else {
      var kept := Without(results[1..], slot);
      BeforeIff(results, a, b);
      if results[0].slot == slot {
        assert Without(results, slot) == kept;
      } else {
        assert Without(results, slot)[1..] == kept;
        BeforeIff(Without(results, slot), a, b);
      }
      if Before(kept, a, b) { WithoutOrder(results[1..], slot, a, b); }
    }
  }

  lemma NothingWithin(slot: Slot)
    ensures Without([], slot) == []
  {
  }

  lemma NothingInOrder(a: Slot, b: Slot)
    ensures !Before([], a, b)
  {
  }

  /** Pruning keeps the order of use. */
  lemma {:induction false} PruneOrder(results: seq<Entry>, pins: map<Slot, nat>, a: Slot, b: Slot)
    requires Before(Prune(results, pins), a, b)
    ensures Before(results, a, b)
    decreases |results|
  {
    hide Before, Without;
    if |results| > CACHE_ENTRIES && FirstUnpinned(results, pins).Some? {
      var victim := FirstUnpinned(results, pins).value;
      WithoutShrinks(results, victim);
      PruneOrder(Without(results, victim), pins, a, b);
      WithoutOrder(results, victim, a, b);
    }
  }

  /** A result that is used or stored comes behind all others, whose order stays. */
  lemma AtEndOrder(results: seq<Entry>, e: Entry, a: Slot, b: Slot)
    requires Before(AtEnd(results, e), a, b) && Distinct(results)
    ensures a != e.slot && (b == e.slot || Before(results, a, b))
  {
    var all := AtEnd(results, e);
    var i, j :| 0 <= i < j < |all| && all[i].slot == a && all[j].slot == b;
    AtEndDistinct(results, e);
    assert all[|all| - 1] == e;
    if j < |all| - 1 {
      assert Before(Without(results, e.slot), a, b);
      WithoutOrder(results, e.slot, a, b);
    }
  }

  /** Using one result again does not change what is recorded under any slot. */
  lemma AtEndRecords(results: seq<Entry>, e: Entry, slot: Slot)
    requires Distinct(results)
    ensures Recorded(AtEnd(results, e), slot) == if slot == e.slot then Some(e) else Recorded(results, slot)
  {
    AtEndDistinct(results, e);
    var moved := AtEnd(results, e);
    assert e in moved;
    if slot == e.slot {
      RecordedIs(moved, e);
    } else if Has(results, slot) {
      RecordedIs(moved, Recorded(results, slot).value);
    } else {
      assert forall x | x in moved :: x == e || x in results;
    }
  }

  function Pinned(t: Table, slot: Slot): nat {
    if slot in t.pins then t.pins[slot] else 0
  }

  function Unpin(t: Table, slot: Slot): Table {
    if Pinned(t, slot) > 1 then t.(pins := t.pins[slot := t.pins[slot] - 1]) else t.(pins := t.pins - {slot})
  }

  function Pin(t: Table, slot: Slot): Table {
    t.(pins := t.pins[slot := Pinned(t, slot) + 1])
  }

  /** One try of the wait loop. */
  function Enter(t: Table, slot: Slot): Table {
    t.(inflight := t.inflight + {slot})
  }

  function Leave(t: Table, slot: Slot): Table {
    var u := Unpin(t.(inflight := t.inflight - {slot}), slot);
    u.(results := Prune(u.results, u.pins))
  }

  function Touch(t: Table, slot: Slot): Table {
    match Recorded(t.results, slot)
    case None => t
    case Some(e) => t.(results := AtEnd(t.results, e))
  }

  function HitOf(t: Table, slot: Slot, fingerprint: string): Option<Hit> {
    match Recorded(t.results, slot)
    case None => None
    case Some(e) => Some(if e.fingerprint == fingerprint then Replay(e.payload) else KeyReused)
  }

  function Store(t: Table, e: Entry): Table {
    t.(results := Prune(AtEnd(t.results, e), t.pins))
  }

  /** Finishing a call gives its turn and its pin back, and forgets exactly the overdue results. */
  lemma LeaveRecords(t: Table, slot: Slot, key: Slot)
    requires Distinct(t.results)
    ensures var u := Leave(t, slot);
            && u.inflight == t.inflight - {slot}
            && Pinned(u, key) == (if key == slot && Pinned(t, key) > 0 then Pinned(t, key) - 1 else Pinned(t, key))
            && Recorded(u.results, key) ==
                 (if Overdue(t.results, u.pins, key) then None else Recorded(t.results, key))
            && (|t.results| <= 64 ==> Recorded(u.results, key) == Recorded(t.results, key))
  {
    hide Prune, Overdue, Recorded;
    PruneRecords(t.results, Leave(t, slot).pins, key);
  }

  /** Storing a success records it under its key, unless nobody has that key pinned and the cache is full of
      pinned results, and forgets exactly the overdue ones. */
  lemma StoreRecords(t: Table, e: Entry, key: Slot)
    requires Distinct(t.results)
    ensures var u := Store(t, e);
            && u.inflight == t.inflight && u.pins == t.pins
            && Recorded(u.results, key) ==
                 if Overdue(AtEnd(t.results, e), t.pins, key) then None
                 else if key == e.slot then Some(e) else Recorded(t.results, key)
  {
    hide Prune, Overdue, Recorded, AtEnd;
    AtEndDistinct(t.results, e);
    AtEndRecords(t.results, e, key);
    PruneRecords(AtEnd(t.results, e), t.pins, key);
  }

  class IdempotencyTable {
    var inflight: set<Slot>
    var pins: map<Slot, nat>
    var results: seq<Entry>

    ghost function Now(): Table
      reads this
    {
      Table(inflight, pins, results)
    }

    constructor ()
      ensures Now() == Table({}, map[], [])
    {
      inflight, pins, results := {}, map[], [];
    }

    /** The section of _begin_idempotent_call before the first wait: pin, then enter if the key is free. */
    method Begin(slot: Slot) returns (entered: bool)
      modifies this
      ensures entered == (slot !in old(inflight))
      ensures Now() == if entered then Enter(Pin(old(Now()), slot), slot) else Pin(old(Now()), slot)
    {
      pins := pins[slot := (if slot in pins then pins[slot] else 0) + 1];
      entered := Retry(slot);
    }

    /** What a caller does when it comes back from a wait. */
    method Retry(slot: Slot) returns (entered: bool)
      modifies this`inflight
      ensures entered == (slot !in old(inflight))
      ensures Now() == if entered then Enter(old(Now()), slot) else old(Now())
    {
      entered := slot !in inflight;
      if entered { inflight := inflight + {slot}; }
    }

    /** A wait that is interrupted gives the pin back, and nothing else. */
    method Abandon(slot: Slot)
      modifies this`pins
      ensures Now() == Unpin(old(Now()), slot)
    {
      var held: int := if slot in pins then pins[slot] else 0;
      var remaining := held - 1;
      if remaining > 0 {
        pins := pins[slot := remaining];
      } else {
        pins := pins - {slot};
      }
    }

    method PruneResults()
      modifies this`results
      ensures results == Prune(old(results), pins)
    {
      while |results| > CACHE_ENTRIES
        invariant Prune(results, pins) == Prune(old(results), pins)
        decreases |results|
      {
        var victim := FirstUnpinned(results, pins);
        if victim == None { return; }
        WithoutShrinks(results, victim.value);
        results := Without(results, victim.value);
      }
    }

    /** _finish_idempotent_call. */
    method Finish(slot: Slot)
      modifies this
      ensures Now() == Leave(old(Now()), slot)
      ensures |old(results)| <= CACHE_ENTRIES ==> results == old(results)
    {
      inflight := inflight - {slot};
      Abandon(slot);
      PruneResults();
    }

    /** _recorded_result. */
    method Lookup(slot: Slot, fingerprint: string) returns (hit: Option<Hit>)
      modifies this`results
      ensures hit == HitOf(old(Now()), slot, fingerprint)
      ensures Now() == Touch(old(Now()), slot)
    {
      var recorded := Recorded(results, slot);
      if recorded == None { return None; }
      results := AtEnd(results, recorded.value);
      hit := Some(if recorded.value.fingerprint != fingerprint then KeyReused else Replay(recorded.value.payload));
    }

    /** _record_result, for a call that succeeded. */
    method Record(slot: Slot, fingerprint: string, payload: string, dryRun: bool)
      modifies this`results
      ensures Now() == if dryRun then old(Now()) else Store(old(Now()), Entry(slot, fingerprint, payload))
    {
      if dryRun { return; }
      results := AtEnd(results, Entry(slot, fingerprint, payload));
      PruneResults();
    }
  }
}
