/** The repeat-failure breaker: a bounded table of failure counts, checked against the log of
    everything that was ever reported to it. */
module Breakers {
  import opened Options

  const REPEAT_FAILURE_LIMIT: nat := 2
  const BREAKER_CAPACITY: nat := 256
  const EXCLUDED_CODES: set<string> := {"IDEMPOTENCY_KEY_REUSED"}
  const RETRY_MEANS_CHANGING_THE_CALL: set<string> :=
    {"PATCH_CONTEXT_NOT_FOUND", "PATCH_CONTEXT_AMBIGUOUS", "REVISION_MISMATCH", "REVISION_REQUIRED"}

  /** A tool and the fingerprint of its arguments. */
  datatype Key = Key(tool: string, fingerprint: string)

  datatype Count = Count(code: string, n: nat)

  /** The counts of one key, codes in the order they first failed. */
  datatype Entry = Entry(key: Key, counts: seq<Count>)

  /** What is reported: a call's outcome with the generation read when the call began, or a reset. */
  datatype Event =
    | Failure(key: Key, code: string, retryable: bool, generation: Option<nat>)
    | Success(key: Key, generation: Option<nat>)
    | Reset

  predicate Countable(code: string, retryable: bool) {
    code !in EXCLUDED_CODES && (retryable ==> code in RETRY_MEANS_CHANGING_THE_CALL)
  }

  /** Which failures count: all but the refusal of a used key, and of those that may be retried only the ones whose
      retry means changing the call. */
  lemma CountableIff(code: string, retryable: bool)
    ensures Countable(code, retryable) <==>
              && code != "IDEMPOTENCY_KEY_REUSED"
              && (!retryable || code == "PATCH_CONTEXT_NOT_FOUND" || code == "PATCH_CONTEXT_AMBIGUOUS"
                  || code == "REVISION_MISMATCH" || code == "REVISION_REQUIRED")
  {
  }

  predicate Current(generation: Option<nat>, now: nat) {
    generation.Some? ==> generation.value == now
  }

  // What the log says.

  function GenerationOf(log: seq<Event>): nat {
    if log == [] then 0
    else GenerationOf(log[..|log| - 1]) + if log[|log| - 1].Reset? then 1 else 0
  }

  predicate Counted(e: Event, key: Key, code: string, now: nat) {
    e.Failure? && e.key == key && e.code == code && Countable(e.code, e.retryable) && Current(e.generation, now)
  }

  predicate Clears(e: Event, key: Key, now: nat) {
    e.Success? && e.key == key && Current(e.generation, now)
  }

  /** Failures that count against a key and a code. */
  function Failures(log: seq<Event>, key: Key, code: string): nat {
    if log == [] then 0
    else
      var init, e := log[..|log| - 1], log[|log| - 1];
      var now := GenerationOf(init);
      if e.Reset? || Clears(e, key, now) then 0
      else Failures(init, key, code) + if Counted(e, key, code, now) then 1 else 0
  }

  /** Which entries of the log those are: reported in the present generation by a call that began in
      it, with no success of the same key in the present generation after it. */
  ghost predicate Stands(log: seq<Event>, key: Key, code: string, i: nat)
    requires i < |log|
  {
    && GenerationOf(log[..i]) == GenerationOf(log)
    && Counted(log[i], key, code, GenerationOf(log))
    && forall j | i < j < |log| :: !Clears(log[j], key, GenerationOf(log))
  }

  ghost function Evidence(log: seq<Event>, key: Key, code: string): set<nat> {
    set i: nat | i < |log| && Stands(log, key, code, i)
  }

  lemma {:induction false} GenerationGrows(log: seq<Event>, i: nat)
    requires i <= |log|
    ensures GenerationOf(log[..i]) <= GenerationOf(log)
    ensures GenerationOf(log[..i]) == GenerationOf(log) <==> forall j | i <= j < |log| :: !log[j].Reset?
    decreases |log| - i
  {
    if i == |log| {
      assert log[..i] == log;
    } else {
      GenerationGrows(log, i + 1);
      assert log[..i + 1][..i] == log[..i];
    }
  }

  /** Two failures of the same call in the same way are enough: with no reset and no success of the call since the
      first, they stand against it, and so many is the limit. */
  lemma SecondFailureCounts(log: seq<Event>, key: Key, code: string, i: nat, j: nat)
    requires i < j < |log| && forall k | i <= k < |log| :: !log[k].Reset? && !(log[k].Success? && log[k].key == key)
    requires forall k | k == i || k == j ::
               && log[k].Failure? && log[k].key == key && log[k].code == code && Countable(code, log[k].retryable)
               && (log[k].generation == None || log[k].generation == Some(GenerationOf(log[..k])))
    ensures |Evidence(log, key, code)| >= REPEAT_FAILURE_LIMIT
  {
    GenerationGrows(log, i);
    GenerationGrows(log, j);
    var both := {i, j};
    assert both <= Evidence(log, key, code) by {
      assert Stands(log, key, code, i) && Stands(log, key, code, j);
    }
    Within(both, Evidence(log, key, code));
  }

  lemma {:induction false} Within(part: set<nat>, whole: set<nat>)
    requires part <= whole
    ensures |part| <= |whole|
  {
    if part != {} {
      var x :| x in part;
      Within(part - {x}, whole - {x});
    }
  }

  lemma StandsInit(log: seq<Event>, key: Key, code: string, i: nat)
    requires i < |log| - 1 && !log[|log| - 1].Reset?
    ensures Stands(log, key, code, i) <==>
              Stands(log[..|log| - 1], key, code, i) && !Clears(log[|log| - 1], key, GenerationOf(log))
  {
    hide Counted, Clears;
    var init := log[..|log| - 1];
    assert GenerationOf(init) == GenerationOf(log);
    assert init[..i] == log[..i] && init[i] == log[i];
    assert forall j | i < j < |init| :: init[j] == log[j];
    if Stands(init, key, code, i) && !Clears(log[|log| - 1], key, GenerationOf(log)) {
      forall j | i < j < |log| ensures !Clears(log[j], key, GenerationOf(log)) {
        assert j < |init| ==> init[j] == log[j];
      }
    }
  }

  lemma EvidenceStep(log: seq<Event>, key: Key, code: string)
    requires log != [] && !log[|log| - 1].Reset?
    ensures var init, e, now := log[..|log| - 1], log[|log| - 1], GenerationOf(log);
            && GenerationOf(init) == now
            && Evidence(log, key, code) ==
                 (if Clears(e, key, now) then {} else Evidence(init, key, code))
                   + (if Counted(e, key, code, now) then {|log| - 1} else {})
            && |log| - 1 !in Evidence(init, key, code)
  {
    hide Counted, Clears;
    var init, e, now := log[..|log| - 1], log[|log| - 1], GenerationOf(log);
    assert Stands(log, key, code, |init|) <==> Counted(e, key, code, now);
    forall i: nat
      ensures i in Evidence(log, key, code) <==>
                (i in Evidence(init, key, code) && !Clears(e, key, now)) || (i == |init| && Counted(e, key, code, now))
    {
      if i < |init| { StandsInit(log, key, code, i); }
    }
    ClearsOrCounts(e, key, code, now);
  }

  /** The count is the number of standing failures in the log. */
  lemma {:induction false} FailuresAreEvidence(log: seq<Event>, key: Key, code: string)
    ensures |Evidence(log, key, code)| == Failures(log, key, code)
  {
    hide Counted, Clears, Evidence;
    if log == [] {
      assert Evidence(log, key, code) == {} by { NoEvidence(key, code); }
    } else {
      var e := log[|log| - 1];
      FailuresAreEvidence(log[..|log| - 1], key, code);
      ClearsOrCounts(e, key, code, GenerationOf(log));
      if e.Reset? {
        ResetStandsNothing(log, key, code);
      } else {
        EvidenceStep(log, key, code);
      }
    }
  }

  lemma NoEvidence(key: Key, code: string)
    ensures Evidence([], key, code) == {}
  {
  }

  lemma ClearsOrCounts(e: Event, key: Key, code: string, now: nat)
    ensures !(Clears(e, key, now) && Counted(e, key, code, now))
    ensures e.Reset? ==> !Counted(e, key, code, now)
  {
  }

  lemma ResetStandsNothing(log: seq<Event>, key: Key, code: string)
    requires log != [] && log[|log| - 1].Reset?
    ensures Evidence(log, key, code) == {}
  {
    forall i: nat | i < |log| ensures !Stands(log, key, code, i) {
      GenerationGrows(log, i);
      assert log[|log| - 1].Reset?;
    }
  }

  /** The keys with a counted failure in the present generation. */
  function Live(log: seq<Event>): set<Key> {
    if log == [] then {}
    else
      var init, e := log[..|log| - 1], log[|log| - 1];
      if e.Reset? then {}
      else if e.Failure? && Countable(e.code, e.retryable) && Current(e.generation, GenerationOf(init))
        then Live(init) + {e.key}
      else Live(init)
  }

  // What the table says.

  function CountIn(counts: seq<Count>, code: string): nat {
    if counts == [] then 0 else if counts[0].code == code then counts[0].n else CountIn(counts[1..], code)
  }

  function Bump(counts: seq<Count>, code: string): seq<Count> {
    if counts == [] then [Count(code, 1)]
    else if counts[0].code == code then [Count(code, counts[0].n + 1)] + counts[1..]
    else [counts[0]] + Bump(counts[1..], code)
  }

  lemma {:induction false} BumpCounts(counts: seq<Count>, code: string, other: string)
    ensures CountIn(Bump(counts, code), other) == CountIn(counts, other) + if other == code then 1 else 0
  {
    if counts != [] && counts[0].code != code {
      BumpCounts(counts[1..], code, other);
      assert Bump(counts, code)[1..] == Bump(counts[1..], code);
    }
  }

  function CountsOf(entries: seq<Entry>, key: Key): (r: seq<Count>) {
    if entries == [] then [] else if entries[0].key == key then entries[0].counts else CountsOf(entries[1..], key)
  }

  function Tally(entries: seq<Entry>, key: Key, code: string): nat {
    CountIn(CountsOf(entries, key), code)
  }

  function Without(entries: seq<Entry>, key: Key): (r: seq<Entry>)
    ensures forall e :: e in r <==> e in entries && e.key != key
  {
    if entries == [] then [] else (if entries[0].key == key then [] else [entries[0]]) + Without(entries[1..], key)
  }

  /** The entries once this key has been used: it is the last one, with these counts, unless it has none. */
  function Used(entries: seq<Entry>, key: Key, counts: seq<Count>): seq<Entry> {
    if counts == [] then entries else Without(entries, key) + [Entry(key, counts)]
  }

  lemma WithoutFirst(entries: seq<Entry>, key: Key)
    ensures Without([], key) == []
    ensures entries != [] ==>
              Without(entries, key) == if entries[0].key == key then Without(entries[1..], key)
                                       else [entries[0]] + Without(entries[1..], key)
  {
    assert entries != [] && entries[0].key == key ==> [] + Without(entries[1..], key) == Without(entries[1..], key);
  }

  /** Taking one key out leaves the others in their order. */
  lemma {:induction false} WithoutInOrder(entries: seq<Entry>, key: Key, i: nat, j: nat) returns (k: nat, l: nat)
    requires i < j < |Without(entries, key)|
    ensures k < l < |entries| && entries[k] == Without(entries, key)[i] && entries[l] == Without(entries, key)[j]
  {
    hide Without;
    WithoutFirst(entries, key);
    var rest, others := entries[1..], Without(entries[1..], key);
    if entries[0].key == key {
      k, l := WithoutInOrder(rest, key, i, j);
      assert entries[k + 1] == rest[k] && entries[l + 1] == rest[l];
      k, l := k + 1, l + 1;
    } else if i > 0 {
      k, l := WithoutInOrder(rest, key, i - 1, j - 1);
      assert entries[k + 1] == rest[k] && entries[l + 1] == rest[l];
      k, l := k + 1, l + 1;
    } else {
      assert others[j - 1] in others;
      l :| 0 <= l < |rest| && rest[l] == others[j - 1];
      assert entries[l + 1] == rest[l];
      k, l := 0, l + 1;
    }
  }

  /** Using a key puts it last and leaves the others in their order, so that what goes first when there are too many
      is what was used longest ago. */
  lemma UsedIsLast(entries: seq<Entry>, key: Key, counts: seq<Count>, i: nat, j: nat)
    requires counts != [] && i < j < |Used(entries, key, counts)|
    ensures var used := Used(entries, key, counts);
            && used[|used| - 1] == Entry(key, counts) && used[i].key != key
            && (j < |used| - 1 ==>
                  exists k, l :: 0 <= k < l < |entries| && entries[k] == used[i] && entries[l] == used[j])
  {
    var used, others := Used(entries, key, counts), Without(entries, key);
    assert used[i] in others;
    if j < |used| - 1 {
      var k, l := WithoutInOrder(entries, key, i, j);
    }
  }

  ghost function KeysOf(entries: seq<Entry>): set<Key> {
    set e | e in entries :: e.key
  }

  ghost predicate Distinct(entries: seq<Entry>) {
    forall i, j | 0 <= i < j < |entries| :: entries[i].key != entries[j].key
  }

  lemma {:induction false} WithoutDistinct(entries: seq<Entry>, key: Key)
    requires Distinct(entries)
    ensures Distinct(Without(entries, key))
  {
    if entries != [] {
      var rest := entries[1..];
      WithoutDistinct(rest, key);
      var kept := Without(rest, key);
      forall i | 0 <= i < |kept| ensures kept[i].key != entries[0].key {
        assert kept[i] in rest;
      }
    }
  }

  lemma FirstKey(entries: seq<Entry>)
    requires entries != [] && Distinct(entries)
    ensures KeysOf(entries) == {entries[0].key} + KeysOf(entries[1..]) && entries[0].key !in KeysOf(entries[1..])
  {
    assert entries == [entries[0]] + entries[1..];
    forall e | e in entries[1..] ensures e.key != entries[0].key {
      var i :| 0 <= i < |entries[1..]| && entries[1..][i] == e;
    }
  }

  lemma {:induction false} WithoutLength(entries: seq<Entry>, key: Key)
    requires Distinct(entries)
    ensures |Without(entries, key)| == |entries| - if key in KeysOf(entries) then 1 else 0
  {
    hide KeysOf;
    if entries == [] {
      assert KeysOf(entries) == {} by { NoKeys(entries); }
    } else {
      FirstKey(entries);
      WithoutLength(entries[1..], key);
    }
  }

  lemma NoKeys(entries: seq<Entry>)
    requires entries == []
    ensures KeysOf(entries) == {}
  {
  }

  lemma {:induction false} CountsFound(entries: seq<Entry>, e: Entry)
    requires Distinct(entries) && e in entries
    ensures CountsOf(entries, e.key) == e.counts
  {
    if entries[0] != e {
      assert e in entries[1..];
      var i :| 0 <= i < |entries| && entries[i] == e;
      CountsFound(entries[1..], e);
    }
  }

  lemma {:induction false} CountsMissing(entries: seq<Entry>, key: Key)
    requires key !in KeysOf(entries)
    ensures CountsOf(entries, key) == []
  {
    if entries != [] {
      assert entries[0] in entries;
      assert forall e | e in entries[1..] :: e in entries;
      CountsMissing(entries[1..], key);
    }
  }

  /** Moving an entry to the end, or giving it other counts on the way, concerns its own key only. */
  lemma CountsAtEnd(entries: seq<Entry>, e: Entry, key: Key)
    requires Distinct(entries)
    ensures var moved := Without(entries, e.key) + [e];
            && Distinct(moved) && KeysOf(moved) == KeysOf(entries) + {e.key}
            && CountsOf(moved, key) == if key == e.key then e.counts else CountsOf(entries, key)
  {
    var moved := Without(entries, e.key) + [e];
    WithoutDistinct(entries, e.key);
    KeysAtEnd(entries, e);
    assert Distinct(moved);
    if key == e.key {
      assert e in moved;
      CountsFound(moved, e);
    } else if key in KeysOf(entries) {
      var x :| x in entries && x.key == key;
      assert x in moved;
      CountsFound(entries, x);
      CountsFound(moved, x);
    } else {
      CountsMissing(entries, key);
      CountsMissing(moved, key);
    }
  }

  lemma KeysAtEnd(entries: seq<Entry>, e: Entry)
    ensures KeysOf(Without(entries, e.key) + [e]) == KeysOf(entries) + {e.key}
  {
    var moved := Without(entries, e.key) + [e];
    forall k ensures k in KeysOf(moved) <==> k in KeysOf(entries) || k == e.key {
      if k in KeysOf(entries) && k != e.key {
        var x :| x in entries && x.key == k;
        assert x in moved;
      }
      if k == e.key {
        assert e in moved;
      }
    }
  }

  lemma KeysWithout(entries: seq<Entry>, key: Key)
    ensures KeysOf(Without(entries, key)) == KeysOf(entries) - {key}
  {
    forall k | k in KeysOf(entries) && k != key ensures k in KeysOf(Without(entries, key)) {
      var x :| x in entries && x.key == k;
      assert x in Without(entries, key);
    }
  }

  lemma CountsWithout(entries: seq<Entry>, gone: Key, key: Key)
    requires Distinct(entries)
    ensures CountsOf(Without(entries, gone), key) == if key == gone then [] else CountsOf(entries, key)
  {
    WithoutDistinct(entries, gone);
    KeysWithout(entries, gone);
    if key != gone && key in KeysOf(entries) {
      var x :| x in entries && x.key == key;
      CountsFound(entries, x);
      CountsFound(Without(entries, gone), x);
    } else {
      CountsMissing(Without(entries, gone), key);
      if key != gone { CountsMissing(entries, key); }
    }
  }

  lemma {:induction false} FewEntries(entries: seq<Entry>, keys: set<Key>)
    requires Distinct(entries) && KeysOf(entries) <= keys
    ensures |entries| <= |keys|
  {
    if entries != [] {
      assert entries[0] in entries;
      forall e | e in entries[1..] ensures e in entries && e.key != entries[0].key {
        var i :| 0 <= i < |entries[1..]| && entries[1..][i] == e;
      }
      FewEntries(entries[1..], keys - {entries[0].key});
    }
  }

  predicate DistinctCodes(counts: seq<Count>) {
    forall i, j | 0 <= i < j < |counts| :: counts[i].code != counts[j].code
  }

  lemma {:induction false} CodesFound(counts: seq<Count>, i: nat)
    requires DistinctCodes(counts) && i < |counts|
    ensures CountIn(counts, counts[i].code) == counts[i].n
  {
    if i > 0 {
      CodesFound(counts[1..], i - 1);
    }
  }

  lemma {:induction false} CodeOfCount(counts: seq<Count>, code: string)
    ensures CountIn(counts, code) == 0
            || exists i :: 0 <= i < |counts| && counts[i].code == code && counts[i].n == CountIn(counts, code)
  {
    if counts != [] && counts[0].code != code {
      CodeOfCount(counts[1..], code);
      if CountIn(counts, code) != 0 {
        var i :| 0 <= i < |counts[1..]| && counts[1..][i].code == code && counts[1..][i].n == CountIn(counts, code);
        assert counts[i + 1].code == code;
      }
    }
  }

  lemma {:induction false} BumpCodes(counts: seq<Count>, code: string)
    requires DistinctCodes(counts)
    ensures DistinctCodes(Bump(counts, code))
    ensures forall c | c in Bump(counts, code) :: c.code == code || exists d :: d in counts && d.code == c.code
  {
    if counts != [] && counts[0].code != code {
      BumpCodes(counts[1..], code);
      var bumped := Bump(counts[1..], code);
      forall i | 0 <= i < |bumped| ensures bumped[i].code != counts[0].code {
        assert bumped[i] in bumped;
        if bumped[i].code != code {
          var d :| d in counts[1..] && d.code == bumped[i].code;
          var j :| 0 <= j < |counts[1..]| && counts[1..][j] == d;
        }
      }
      forall c | c in Bump(counts, code) ensures c.code == code || exists d :: d in counts && d.code == c.code {
        if c != counts[0] && c.code != code {
          var d :| d in counts[1..] && d.code == c.code;
          assert d in counts;
        }
      }
    }
  }

  /** What the table has to do with the log: it never counts more than there is; and while no more keys
      are live than it can hold, it counts everything. */
  ghost predicate Agrees(log: seq<Event>, entries: seq<Entry>, capacity: nat) {
    && Distinct(entries) && (forall e | e in entries :: DistinctCodes(e.counts) && e.counts != [])
    && |entries| <= capacity
    && KeysOf(entries) <= Live(log)
    && (forall key, code :: Tally(entries, key, code) <= Failures(log, key, code))
    && (|Live(log)| <= capacity ==> forall key, code :: Tally(entries, key, code) == Failures(log, key, code))
  }

  lemma CountsKnown(entries: seq<Entry>, key: Key)
    requires Distinct(entries) && forall e | e in entries :: DistinctCodes(e.counts) && e.counts != []
    ensures DistinctCodes(CountsOf(entries, key))
    ensures CountsOf(entries, key) != [] <==> key in KeysOf(entries)
  {
    if key in KeysOf(entries) {
      var x :| x in entries && x.key == key;
      CountsFound(entries, x);
    } else {
      CountsMissing(entries, key);
    }
  }

  /** Putting an entry at the end: all that it changes is its own key's counts. */
  lemma AtEndFacts(entries: seq<Entry>, e: Entry)
    requires Distinct(entries) && (forall x | x in entries :: DistinctCodes(x.counts) && x.counts != [])
    requires DistinctCodes(e.counts) && e.counts != []
    ensures var moved := Without(entries, e.key) + [e];
            && Distinct(moved) && (forall x | x in moved :: DistinctCodes(x.counts) && x.counts != [])
            && KeysOf(moved) == KeysOf(entries) + {e.key}
            && (forall key, code :: Tally(moved, key, code) ==
                 if key == e.key then CountIn(e.counts, code) else Tally(entries, key, code))
            && |moved| == |entries| + if e.key in KeysOf(entries) then 0 else 1
  {
    hide DistinctCodes, CountIn, CountsOf, KeysOf;
    CountsAtEnd(entries, e, e.key);
    WithoutLength(entries, e.key);
    forall key, code
      ensures Tally(Without(entries, e.key) + [e], key, code) ==
                if key == e.key then CountIn(e.counts, code) else Tally(entries, key, code)
    {
      CountsAtEnd(entries, e, key);
    }
  }

  lemma TouchAgrees(log: seq<Event>, entries: seq<Entry>, capacity: nat, key: Key)
    requires Agrees(log, entries, capacity) && CountsOf(entries, key) != []
    ensures Agrees(log, Without(entries, key) + [Entry(key, CountsOf(entries, key))], capacity)
  {
    hide Failures, Live, CountsOf, CountIn, DistinctCodes, KeysOf, Distinct;
    CountsKnown(entries, key);
    AtEndFacts(entries, Entry(key, CountsOf(entries, key)));
  }

  /** Drops the least recently used entries beyond the capacity, and no more: the newest ones stay. */
  function Evict(entries: seq<Entry>, capacity: nat): (r: seq<Entry>)
    ensures r == entries[if |entries| <= capacity then 0 else |entries| - capacity..]
  {
    if |entries| <= capacity then entries else Evict(entries[1..], capacity)
  }

  lemma TailFacts(entries: seq<Entry>)
    requires entries != [] && Distinct(entries) && forall e | e in entries :: DistinctCodes(e.counts) && e.counts != []
    ensures Distinct(entries[1..]) && forall e | e in entries[1..] :: DistinctCodes(e.counts) && e.counts != []
    ensures KeysOf(entries[1..]) <= KeysOf(entries)
    ensures forall key, code :: Tally(entries[1..], key, code) <= Tally(entries, key, code)
  {
    hide DistinctCodes, CountIn;
    var rest := entries[1..];
    assert forall e | e in rest :: e in entries;
    assert entries[0].key !in KeysOf(rest) by {
      forall e | e in rest ensures e.key != entries[0].key {
        var i :| 0 <= i < |rest| && rest[i] == e;
      }
    }
    CountsMissing(rest, entries[0].key);
    assert forall code :: CountIn([], code) == 0 by { EmptyCounts(); }
  }

  lemma EmptyCounts()
    ensures forall code :: CountIn([], code) == 0
  {
  }

  lemma {:induction false} EvictFacts(entries: seq<Entry>, capacity: nat)
    requires Distinct(entries) && forall e | e in entries :: DistinctCodes(e.counts) && e.counts != []
    ensures var kept := Evict(entries, capacity);
            && Distinct(kept) && (forall e | e in kept :: DistinctCodes(e.counts) && e.counts != [])
            && KeysOf(kept) <= KeysOf(entries)
            && forall key, code :: Tally(kept, key, code) <= Tally(entries, key, code)
  {
    hide Distinct, DistinctCodes, Tally, KeysOf;
    if |entries| > capacity {
      TailFacts(entries);
      EvictFacts(entries[1..], capacity);
      var kept := Evict(entries, capacity);
      forall key, code ensures Tally(kept, key, code) <= Tally(entries, key, code) {
        assert Tally(kept, key, code) <= Tally(entries[1..], key, code) <= Tally(entries, key, code);
      }
    }
  }

  lemma LogFacts(log: seq<Event>, e: Event)
    ensures var now := GenerationOf(log);
            && GenerationOf(log + [e]) == now + (if e.Reset? then 1 else 0)
            && (e.Reset? ==> Live(log + [e]) == {})
            && (e.Failure? ==> Live(log + [e]) == Live(log) + if Counted(e, e.key, e.code, now) then {e.key} else {})
            && (e.Success? ==> Live(log + [e]) == Live(log))
    ensures forall key, code :: Failures(log + [e], key, code) ==
              if e.Reset? || Clears(e, key, GenerationOf(log)) then 0
              else Failures(log, key, code) + if Counted(e, key, code, GenerationOf(log)) then 1 else 0
  {
    assert (log + [e])[..|log + [e]| - 1] == log;
  }

  lemma FailureAgrees(log: seq<Event>, entries: seq<Entry>, capacity: nat, e: Event)
    requires Agrees(log, entries, capacity) && e.Failure? && Counted(e, e.key, e.code, GenerationOf(log))
    ensures var bumped := Without(entries, e.key) + [Entry(e.key, Bump(CountsOf(entries, e.key), e.code))];
            && Agrees(log + [e], Evict(bumped, capacity), capacity)
            && CountIn(Bump(CountsOf(entries, e.key), e.code), e.code) <= Failures(log + [e], e.key, e.code)
            && (|Live(log + [e])| <= capacity ==>
                 CountIn(Bump(CountsOf(entries, e.key), e.code), e.code) == Failures(log + [e], e.key, e.code))
  {
    hide Failures, Live, GenerationOf, CountsOf, CountIn, DistinctCodes, KeysOf, Distinct, Countable;
    var counts := CountsOf(entries, e.key);
    CountsKnown(entries, e.key);
    BumpCodes(counts, e.code);
    BumpNotEmpty(counts, e.code);
    AtEndFacts(entries, Entry(e.key, Bump(counts, e.code)));
    var bumped := Without(entries, e.key) + [Entry(e.key, Bump(counts, e.code))];
    LogFacts(log, e);
    assert Live(log) <= Live(log + [e]);
    SubsetSize(Live(log), Live(log + [e]));
    forall key, code
      ensures Tally(bumped, key, code) == Tally(entries, key, code) + if key == e.key && code == e.code then 1 else 0
    {
      BumpCounts(counts, e.code, code);
    }
    EvictFacts(bumped, capacity);
    if |Live(log + [e])| <= capacity {
      FewEntries(bumped, Live(log + [e]));
    }
    EvictedAgrees(log, entries, capacity, e, bumped);
  }

  lemma EvictedAgrees(log: seq<Event>, entries: seq<Entry>, capacity: nat, e: Event, bumped: seq<Entry>)
    requires Agrees(log, entries, capacity) && e.Failure? && Counted(e, e.key, e.code, GenerationOf(log))
    requires forall key, code ::
               Tally(bumped, key, code) == Tally(entries, key, code) + if key == e.key && code == e.code then 1 else 0
    requires Distinct(bumped) && (forall x | x in bumped :: DistinctCodes(x.counts) && x.counts != [])
             && KeysOf(bumped) <= Live(log + [e])
    requires |Live(log + [e])| <= capacity ==> |bumped| <= capacity
    ensures Agrees(log + [e], Evict(bumped, capacity), capacity)
  {
    hide Failures, Live, GenerationOf, Tally, DistinctCodes, KeysOf, Distinct, Countable;
    EvictFacts(bumped, capacity);
    LogFacts(log, e);
    SubsetSize(Live(log), Live(log + [e]));
    var kept := Evict(bumped, capacity);
    forall key, code
      ensures Tally(kept, key, code) <= Failures(log + [e], key, code)
      ensures |Live(log + [e])| <= capacity ==> Tally(kept, key, code) == Failures(log + [e], key, code)
    {
      assert Tally(kept, key, code) <= Tally(bumped, key, code);
      assert Counted(e, key, code, GenerationOf(log)) <==> key == e.key && code == e.code;
    }
  }

  lemma BumpNotEmpty(counts: seq<Count>, code: string)
    ensures Bump(counts, code) != []
  {
  }

  lemma SubsetSize(a: set<Key>, b: set<Key>)
    ensures a <= b ==> |a| <= |b|
  {
    if a <= b {
      assert b == a + (b - a);
    }
  }

  /** An event that neither counts, nor clears, nor resets. */
  lemma IdleAgrees(log: seq<Event>, entries: seq<Entry>, capacity: nat, e: Event)
    requires Agrees(log, entries, capacity)
    requires match e
             case Failure(key, code, _, _) => !Counted(e, key, code, GenerationOf(log))
             case Success(key, _) => !Clears(e, key, GenerationOf(log))
             case Reset => false
    ensures Agrees(log + [e], entries, capacity)
  {
    hide Failures, Live, GenerationOf, Tally, DistinctCodes, KeysOf, Distinct, Countable;
    LogFacts(log, e);
    forall key, code ensures Failures(log + [e], key, code) == Failures(log, key, code) {
      assert !Counted(e, key, code, GenerationOf(log)) && !Clears(e, key, GenerationOf(log));
    }
  }

  lemma SuccessAgrees(log: seq<Event>, entries: seq<Entry>, capacity: nat, e: Event)
    requires Agrees(log, entries, capacity) && e.Success? && Clears(e, e.key, GenerationOf(log))
    ensures Agrees(log + [e], Without(entries, e.key), capacity)
  {
    hide Failures, Live, GenerationOf, CountsOf, CountIn, DistinctCodes, KeysOf, Distinct;
    LogFacts(log, e);
    WithoutDistinct(entries, e.key);
    WithoutLength(entries, e.key);
    KeysWithout(entries, e.key);
    EmptyCounts();
    forall key, code
      ensures Tally(Without(entries, e.key), key, code) == if key == e.key then 0 else Tally(entries, key, code)
      ensures Failures(log + [e], key, code) == if key == e.key then 0 else Failures(log, key, code)
    {
      CountsWithout(entries, e.key, key);
    }
  }

  lemma ResetAgrees(log: seq<Event>, capacity: nat)
    ensures Agrees(log + [Reset], [], capacity)
  {
    hide Failures, Live, GenerationOf;
    LogFacts(log, Reset);
  }

  lemma SuccessEvidence(log: seq<Event>, e: Event, key: Key, code: string)
    requires e.Success?
    ensures Evidence(log + [e], key, code) ==
            if e.key == key && Current(e.generation, GenerationOf(log)) then {} else Evidence(log, key, code)
  {
    hide Evidence;
    var more := log + [e];
    assert more[..|more| - 1] == log && more[|more| - 1] == e;
    EvidenceStep(more, key, code);
  }

  class RepeatFailureBreaker {
    const limit: nat
    const capacity: nat
    var entries: seq<Entry>
    var generation: nat
    ghost var log: seq<Event>

    ghost predicate Valid()
      reads this
    {
      generation == GenerationOf(log) && Agrees(log, entries, capacity)
    }

    constructor (limit: nat := REPEAT_FAILURE_LIMIT, capacity: nat := BREAKER_CAPACITY)
      ensures Valid() && log == [] && this.limit == limit && this.capacity == capacity
    {
      this.limit, this.capacity := limit, capacity;
      entries, generation, log := [], 0, [];
    }

    method FirstExhausted(counts: seq<Count>) returns (r: Option<string>)
      requires DistinctCodes(counts)
      ensures r.Some? ==> CountIn(counts, r.value) >= limit
      ensures r.None? && limit > 0 ==> forall code :: CountIn(counts, code) < limit
    {
      var i := 0;
      while i < |counts|
        invariant 0 <= i <= |counts|
        invariant forall k | 0 <= k < i :: counts[k].n < limit
      {
        if counts[i].n >= limit {
          CodesFound(counts, i);
          return Some(counts[i].code);
        }
        i := i + 1;
      }
      forall code ensures limit > 0 ==> CountIn(counts, code) < limit {
        CodeOfCount(counts, code);
      }
      r := None;
    }

    /** A code is returned only if so many failures with it really stand against this key; and if no more
        keys are live than the table holds, none is returned only if no code has that many. */
    method BlockedErrorCode(key: Key) returns (r: Option<string>)
      requires Valid()
      modifies this`entries
      ensures Valid() && entries == Used(old(entries), key, CountsOf(old(entries), key))
      ensures r.Some? ==> |Evidence(log, key, r.value)| >= limit
      ensures r.None? && limit > 0 && |Live(log)| <= capacity ==> forall code :: |Evidence(log, key, code)| < limit
    {
      hide Evidence, Failures, Live, GenerationOf, CountsOf, Without, CountIn, Distinct, KeysOf, DistinctCodes;
      forall code ensures |Evidence(log, key, code)| == Failures(log, key, code) {
        FailuresAreEvidence(log, key, code);
      }
      var counts := CountsOf(entries, key);
      CountsKnown(entries, key);
      EmptyCounts();
      assert forall code :: Tally(entries, key, code) == CountIn(counts, code);
      if counts == [] { return None; }
      TouchAgrees(log, entries, capacity, key);
      r := FirstExhausted(counts);
      entries := Without(entries, key) + [Entry(key, counts)];
    }

    /** Returns the number of standing failures, itself included; zero if it does not count. */
    method RecordFailure(key: Key, code: string, retryable: bool, began: Option<nat>) returns (n: nat)
      requires Valid()
      modifies this`entries, this`log
      ensures Valid() && log == old(log) + [Failure(key, code, retryable, began)]
      ensures n <= |Evidence(log, key, code)|
      ensures entries == if n == 0 then old(entries)
                         else Evict(Used(old(entries), key, Bump(CountsOf(old(entries), key), code)), capacity)
      ensures n == 0 <==> !(Countable(code, retryable) && Current(began, generation))
      ensures n > 0 && |Live(log)| <= capacity ==> n == |Evidence(log, key, code)|
    {
      hide Evidence, Failures, Live, GenerationOf, Agrees, CountsOf, Without, CountIn, Bump, EXCLUDED_CODES,
        RETRY_MEANS_CHANGING_THE_CALL;
      ghost var e := Failure(key, code, retryable, began);
      FailuresAreEvidence(log + [e], key, code);
      LogFacts(log, e);
      if !Countable(code, retryable) || (began.Some? && began.value != generation) {
        IdleAgrees(log, entries, capacity, e);
        log := log + [e];
        return 0;
      }
      FailureAgrees(log, entries, capacity, e);
      var counts := Bump(CountsOf(entries, key), code);
      BumpNotEmpty(CountsOf(entries, key), code);
      BumpCounts(CountsOf(entries, key), code, code);
      entries := Without(entries, key) + [Entry(key, counts)];
      ghost var full := entries;
      while |entries| > capacity
        invariant Evict(entries, capacity) == Evict(full, capacity)
        invariant log == old(log) && generation == old(generation)
        decreases |entries|
      {
        entries := entries[1..];
      }
      log := log + [e];
      n := CountIn(counts, code);
    }

    method RecordSuccess(key: Key, began: Option<nat>)
      requires Valid()
      modifies this`entries, this`log
      ensures Valid() && log == old(log) + [Success(key, began)]
      ensures entries == if Current(began, generation) then Without(old(entries), key) else old(entries)
      ensures forall other, code :: Evidence(log, other, code) ==
                if other == key && Current(began, generation) then {} else Evidence(old(log), other, code)
      ensures forall other, code | other != key || !Current(began, generation) ::
                Tally(entries, other, code) == Tally(old(entries), other, code)
    {
      hide Evidence, Failures, Live, GenerationOf, Without, CountsOf, CountIn, KeysOf, DistinctCodes;
      ghost var e := Success(key, began);
      LogFacts(log, e);
      forall other, code
        ensures Evidence(log + [e], other, code) ==
                  if other == key && Current(began, generation) then {} else Evidence(log, other, code)
      {
        SuccessEvidence(log, e, other, code);
      }
      forall other, code | other != key
        ensures Tally(Without(entries, key), other, code) == Tally(entries, other, code)
      {
        CountsWithout(entries, key, other);
      }
      if began.Some? && began.value != generation {
        IdleAgrees(log, entries, capacity, e);
      } else {
        SuccessAgrees(log, entries, capacity, e);
        entries := Without(entries, key);
      }
      log := log + [e];
    }

    method Reset()
      requires Valid()
      modifies this
      ensures Valid() && log == old(log) + [Event.Reset] && generation == old(generation) + 1 && entries == []
      ensures forall key, code :: Evidence(log, key, code) == {}
    {
      hide Evidence, Failures, Live, GenerationOf, Agrees;
      ResetAgrees(log, capacity);
      LogFacts(log, Event.Reset);
      log := log + [Event.Reset];
      forall key, code ensures Evidence(log, key, code) == {} {
        ResetStandsNothing(log, key, code);
      }
      entries, generation := [], generation + 1;
    }
  }

  /** A standing failure was reported by a call that began after the last reset: the generation it read
      when it began is the generation of the log then, and no reset came in between. */
  lemma StandingBeganSinceReset(log: seq<Event>, key: Key, code: string, i: nat, began: nat)
    requires began <= i < |log| && i in Evidence(log, key, code)
    requires log[i].generation == Some(GenerationOf(log[..began]))
    ensures forall j | began <= j < |log| :: !log[j].Reset?
  {
    assert log[i].Failure?;
    GenerationGrows(log, began);
  }
}
