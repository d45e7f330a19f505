/** Line-addressed edits: every edit names lines of the file as it was read. */
module LineEdits {
  import opened Options
  import opened Texts
  import opened Spans
  import opened Ordering
  import opened Permutations

  datatype Op = Replace | Delete | InsertAfter | InsertBefore

  /** One entry of the edits array; a field is None when it is absent. */
  datatype Request = Request(op: Op, startLine: Option<int>, endLine: Option<int>, line: Option<int>,
          content: Option<string>)

  /** The same as a half-open span of 0-based line indices; an insertion is an empty span. */
  datatype LineEdit = LineEdit(start: nat, end: nat, lines: seq<string>)

  datatype EditError = InvalidArgument | PastTheEnd(edit: nat) | EditsOverlap(first: nat, second: nat)

  /** _parse_edit. */
  function ParseEdit(e: Request): Result<LineEdit, EditError> {
    if e.op.Delete? != e.content.None? then Err(InvalidArgument)
    else
      var lines := if e.content.Some? then ContentLines(e.content.value) else [];
      if e.op.Replace? || e.op.Delete? then
        if e.startLine == None || e.startLine.value < 1 || e.line.Some? then Err(InvalidArgument)
        else
          var last := if e.endLine.None? then e.startLine.value else e.endLine.value;
          if last < e.startLine.value then Err(InvalidArgument)
          else Ok(LineEdit(e.startLine.value - 1, last, lines))
      else if e.line == None || e.startLine.Some? || e.endLine.Some? then Err(InvalidArgument)
      else if e.op.InsertAfter? then
        if e.line.value < 0 then Err(InvalidArgument) else Ok(LineEdit(e.line.value, e.line.value, lines))
      else if e.line.value < 1 then Err(InvalidArgument)
      else Ok(LineEdit(e.line.value - 1, e.line.value - 1, lines))
  }

  /** What the operations mean to each other: a deletion is a replacement by nothing, inserting after
      line n is inserting before line n + 1, and only insertions have empty spans. */
  lemma OperationsAgree(first: int, last: int, n: int, content: string)
    ensures ParseEdit(Request(Delete, Some(first), Some(last), None, None)) ==
              ParseEdit(Request(Replace, Some(first), Some(last), None, Some("")))
    ensures ParseEdit(Request(Delete, Some(first), None, None, None)) ==
              ParseEdit(Request(Delete, Some(first), Some(first), None, None))
    ensures ParseEdit(Request(InsertAfter, None, None, Some(n), Some(content))) ==
              ParseEdit(Request(InsertBefore, None, None, Some(n + 1), Some(content)))
  {
  }

  /** A parsed edit covers line n (counted from 1) exactly if the request names it, and an insertion lands behind
      exactly the lines up to the one named, or the ones before it. */
  lemma SpansSayWhatTheyAddress(e: Request, n: int)
    requires ParseEdit(e).Ok?
    ensures var edit := ParseEdit(e).value;
            && edit.start <= edit.end
            && (edit.start == edit.end <==> e.op.InsertAfter? || e.op.InsertBefore?)
            && (edit.start <= n - 1 < edit.end <==>
                  e.startLine.Some? && e.startLine.value <= n <=
                    if e.endLine.Some? then e.endLine.value else e.startLine.value)
            && (e.op.InsertAfter? ==> (n - 1 < edit.start <==> n <= e.line.value))
            && (e.op.InsertBefore? ==> (n - 1 < edit.start <==> n < e.line.value))
            && Join(edit.lines) == NormalizeToLf(if e.content.Some? then e.content.value else "") && Clean(edit.lines)
  {
    if e.content.Some? {
      ContentLinesAreWhole(e.content.value);
    }
  }

  /** Which requests are taken: a deletion has no content and everything else has some; what covers lines names a
      first one, and a last one not before it if it names one; what inserts names one line, from 0 on to insert
      after it, from 1 on to insert before it; and neither has a field of the other kind. */
  lemma RequestIsValidIff(e: Request)
    ensures ParseEdit(e).Ok? <==>
              && (e.content.Some? <==> !e.op.Delete?)
              && if e.op.InsertAfter? || e.op.InsertBefore?
                 then e.startLine.None? && e.endLine.None? && e.line.Some?
                      && (if e.op.InsertAfter? then 0 else 1) <= e.line.value
                 else e.line.None? && e.startLine.Some? && 1 <= e.startLine.value
                      && (e.endLine.Some? ==> e.startLine.value <= e.endLine.value)
  {
  }

  /** _placement, for the edit at this position. */
  function PlacementOf(edit: LineEdit, index: nat, lines: seq<string>): Placement
    requires edit.start <= edit.end <= |lines|
  {
    Placement(index, edit.start, edit.end, edit.lines, Exact, lines[edit.start..edit.end])
  }

  predicate WellFormed(edits: seq<LineEdit>) {
    forall e | e in edits :: e.start <= e.end
  }

  predicate AllInside(edits: seq<LineEdit>, lines: seq<string>) {
    forall e | e in edits :: e.end <= |lines|
  }

  /** The first edit that addresses a line that is not there. */
  predicate FirstOutside(edits: seq<LineEdit>, lines: seq<string>, i: nat) {
    i < |edits| && edits[i].end > |lines| && AllInside(edits[..i], lines)
  }

  function PlacementsOf(edits: seq<LineEdit>, lines: seq<string>): (r: seq<Placement>)
    requires WellFormed(edits) && AllInside(edits, lines)
    ensures |r| == |edits| && forall i | 0 <= i < |edits| :: r[i] == PlacementOf(edits[i], i, lines)
  {
    seq(|edits|, i requires 0 <= i < |edits| => PlacementOf(edits[i], i, lines))
  }

  method Place(edits: seq<LineEdit>, lines: seq<string>) returns (r: Result<seq<Placement>, EditError>)
    requires WellFormed(edits)
    ensures r.Ok? <==> AllInside(edits, lines)
    ensures r.Ok? ==> r.value == PlacementsOf(edits, lines)
    ensures r.Ok? ==> forall i | 0 <= i < |edits| ::
                        && r.value[i].index == i && r.value[i].added == edits[i].lines
                        && r.value[i].start == edits[i].start && r.value[i].end == edits[i].end
    ensures r.Err? ==> r.error.PastTheEnd? && FirstOutside(edits, lines, r.error.edit)
  {
    var placements := [];
    var i := 0;
    while i < |edits|
      invariant 0 <= i <= |edits| && AllInside(edits[..i], lines) && |placements| == i
      invariant forall k | 0 <= k < i :: edits[k].end <= |lines| && placements[k] == PlacementOf(edits[k], k, lines)
    {
      if edits[i].end > |lines| || edits[i].start > |lines| { return Err(PastTheEnd(i)); }
      placements := placements + [PlacementOf(edits[i], i, lines)];
      i := i + 1;
    }
    r := Ok(placements);
  }

  predicate IsInsertion(p: Placement) {
    p.start == p.end
  }

  /** The check on two neighbours of the sorted list. */
  predicate Collide(previous: Placement, current: Placement) {
    current.start < previous.end || (IsInsertion(previous) && IsInsertion(current) && current.start == previous.start)
  }

  function FirstCollision(s: seq<Placement>, i: nat): Option<(nat, nat)>
    requires i < |s| || s == []
    decreases |s| - i
  {
    if |s| <= i + 1 then None
    else if Collide(s[i], s[i + 1]) then Some((s[i].index, s[i + 1].index))
    else FirstCollision(s, i + 1)
  }

  /** _reject_overlaps. */
  method RejectOverlaps(placements: seq<Placement>) returns (r: Option<(nat, nat)>)
    ensures Sorted(BySpan, placements) != [] || placements == []
    ensures r == FirstCollision(Sorted(BySpan, placements), 0)
  {
    hide Sorted;
    SameMembers(BySpan, placements);
    var s := Sorted(BySpan, placements);
    var i := 0;
    while i + 1 < |s|
      invariant 0 <= i && (i < |s| || (s == [] && i == 0)) && FirstCollision(s, 0) == FirstCollision(s, i)
    {
      if Collide(s[i], s[i + 1]) { return Some((s[i].index, s[i + 1].index)); }
      i := i + 1;
    }
    r := None;
  }

  /** Two edits that may stand in one request: their spans are disjoint, and they are not two
      insertions at one point. */
  predicate Compatible(a: Placement, b: Placement) {
    (a.end <= b.start || b.end <= a.start) && !(IsInsertion(a) && IsInsertion(b) && a.start == b.start)
  }

  ghost predicate AllCompatible(ps: seq<Placement>) {
    forall i, j | 0 <= i < j < |ps| :: Compatible(ps[i], ps[j])
  }

  predicate Sane(ps: seq<Placement>) {
    forall p | p in ps :: p.start <= p.end
  }

  predicate NeighboursClear(s: seq<Placement>) {
    forall k | 0 <= k < |s| - 1 :: !Collide(s[k], s[k + 1])
  }

  lemma {:induction false} FirstCollisionIff(s: seq<Placement>, i: nat)
    requires i < |s| || s == []
    ensures FirstCollision(s, i) == None <==> forall k | i <= k < |s| - 1 :: !Collide(s[k], s[k + 1])
    decreases |s| - i
  {
    hide Collide;
    if i + 1 < |s| && !Collide(s[i], s[i + 1]) {
      FirstCollisionIff(s, i + 1);
    }
  }

  /** In a sorted list, clear neighbours keep everything behind them clear. */
  lemma {:induction false} ClearAcross(s: seq<Placement>, i: nat, j: nat)
    requires i < j < |s| && Sane(s) && InOrder(BySpan, s) && NeighboursClear(s)
    ensures s[i].end <= s[j].start && (s[i].start == s[j].start ==> IsInsertion(s[i]) && !IsInsertion(s[j]))
    decreases j - i
  {
    assert !Collide(s[j - 1], s[j]);
    assert s[j - 1] in s && s[j] in s && s[i] in s;
    assert AtOrBefore(BySpan, s[j - 1], s[j]);
    if i < j - 1 {
      ClearAcross(s, i, j - 1);
    }
  }

  lemma ClearIffCompatible(s: seq<Placement>)
    requires Sane(s) && InOrder(BySpan, s)
    ensures NeighboursClear(s) <==> AllCompatible(s)
  {
    if NeighboursClear(s) {
      forall i, j | 0 <= i < j < |s| ensures Compatible(s[i], s[j]) {
        ClearAcross(s, i, j);
      }
    }
    if AllCompatible(s) {
      forall k | 0 <= k < |s| - 1 ensures !Collide(s[k], s[k + 1]) {
        assert Compatible(s[k], s[k + 1]) && AtOrBefore(BySpan, s[k], s[k + 1]);
        assert s[k] in s && s[k + 1] in s;
      }
    }
  }

  /** Compatibility is a matter of which edits there are, not of their order. */
  lemma CompatibleEitherWay(ps: seq<Placement>, qs: seq<Placement>)
    requires multiset(ps) == multiset(qs) && AllCompatible(ps)
    ensures AllCompatible(qs)
  {
    forall i, j | 0 <= i < j < |qs| ensures Compatible(qs[i], qs[j]) {
      PairInOther(ps, qs, i, j);
    }
  }

  lemma PairInOther(ps: seq<Placement>, qs: seq<Placement>, i: nat, j: nat)
    requires multiset(ps) == multiset(qs) && i < j < |qs|
    ensures exists k, l | 0 <= k < |ps| && 0 <= l < |ps| && k != l :: ps[k] == qs[i] && ps[l] == qs[j]
  {
    assert qs[i] in multiset(qs) && qs[j] in multiset(qs);
    assert qs[i] in multiset(ps) && qs[j] in multiset(ps);
    var k :| 0 <= k < |ps| && ps[k] == qs[i];
    if qs[i] != qs[j] {
      var l :| 0 <= l < |ps| && ps[l] == qs[j];
    } else {
      CountedTwice(qs, i, j);
      var l := SecondOne(ps, k);
    }
  }

  lemma CountedTwice(qs: seq<Placement>, i: nat, j: nat)
    requires i < j < |qs| && qs[i] == qs[j]
    ensures multiset(qs)[qs[i]] >= 2
  {
    assert qs == qs[..j] + [qs[j]] + qs[j + 1..];
    assert qs[i] in qs[..j];
  }

  lemma SecondOne(ps: seq<Placement>, k: nat) returns (l: nat)
    requires k < |ps| && multiset(ps)[ps[k]] >= 2
    ensures l < |ps| && l != k && ps[l] == ps[k]
  {
    var rest := ps[..k] + ps[k + 1..];
    Around(ps[..k], ps[k], ps[k + 1..]);
    assert ps == ps[..k] + [ps[k]] + ps[k + 1..];
    assert ps[k] in multiset(rest);
    var m :| 0 <= m < |rest| && rest[m] == ps[k];
    l := if m < k then m else m + 1;
  }

  /** Checking neighbours of the sorted list accepts a set of edits exactly when all spans are pairwise
      disjoint and no two insertions share a point. */
  lemma AcceptedIffCompatible(ps: seq<Placement>)
    requires Sane(ps)
    ensures Sorted(BySpan, ps) != [] || ps == []
    ensures FirstCollision(Sorted(BySpan, ps), 0) == None <==> AllCompatible(ps)
  {
    hide Sorted, AllCompatible, NeighboursClear, Collide, AtOrBefore;
    var s := Sorted(BySpan, ps);
    SameMembers(BySpan, ps);
    SortSorts(BySpan, ps);
    FirstCollisionIff(s, 0);
    assert FirstCollision(s, 0) == None <==> NeighboursClear(s) by { ClearMeans(s); }
    ClearIffCompatible(s);
    if AllCompatible(s) { CompatibleEitherWay(s, ps); }
    if AllCompatible(ps) { CompatibleEitherWay(ps, s); }
  }

  lemma ClearMeans(s: seq<Placement>)
    ensures NeighboursClear(s) <==> forall k | 0 <= k < |s| - 1 :: !Collide(s[k], s[k + 1])
  {
  }

  lemma ClearIsOrdered(s: seq<Placement>, lines: seq<string>)
    requires InOrder(BySpan, s) && NeighboursClear(s) && forall p | p in s :: Lies(p, lines)
    ensures Ordered(s, 0, lines)
  {
    NeighboursSuffice(s, lines);
    forall k | 0 <= k < |s| - 1 ensures s[k].end <= s[k + 1].start {
      assert !Collide(s[k], s[k + 1]);
    }
  }

  /** A placement without the position of its edit in the array. */
  function Anonymous(ps: seq<Placement>): (r: seq<Placement>)
    ensures |r| == |ps| && forall i | 0 <= i < |ps| :: r[i] == ps[i].(index := 0)
  {
    seq(|ps|, i requires 0 <= i < |ps| => ps[i].(index := 0))
  }

  lemma {:induction false} InsertAnonymous(s: seq<Placement>, p: Placement)
    ensures Anonymous(InsertLast(BySpan, s, p)) == InsertLast(BySpan, Anonymous(s), p.(index := 0))
  {
    if s != [] && !AtOrBefore(BySpan, s[|s| - 1], p) {
      var init := s[..|s| - 1];
      InsertAnonymous(init, p);
      assert Anonymous(s)[..|s| - 1] == Anonymous(init);
      assert Anonymous(InsertLast(BySpan, init, p) + [s[|s| - 1]]) ==
               Anonymous(InsertLast(BySpan, init, p)) + [s[|s| - 1].(index := 0)];
    } else {
      assert Anonymous(s + [p]) == Anonymous(s) + [p.(index := 0)];
    }
  }

  lemma {:induction false} SortAnonymous(ps: seq<Placement>)
    ensures Anonymous(Sorted(BySpan, ps)) == Sorted(BySpan, Anonymous(ps))
  {
    if ps != [] {
      var init := ps[..|ps| - 1];
      SortAnonymous(init);
      InsertAnonymous(Sorted(BySpan, init), ps[|ps| - 1]);
      assert Anonymous(ps)[..|ps| - 1] == Anonymous(init);
    }
  }

  /** Sorted with no two keys alike. */
  predicate Strict(s: seq<Placement>) {
    forall i, j | 0 <= i < j < |s| :: AtOrBefore(BySpan, s[i], s[j]) && !AtOrBefore(BySpan, s[j], s[i])
  }

  lemma SameHead(s: seq<Placement>, t: seq<Placement>)
    requires Strict(s) && InOrder(BySpan, t) && multiset(s) == multiset(t) && s != []
    ensures t != [] && s[0] == t[0]
  {
    assert s[0] in multiset(s) && s[0] in multiset(t);
    assert t[0] in multiset(t) && t[0] in multiset(s);
    var i :| 0 <= i < |s| && s[i] == t[0];
    var j :| 0 <= j < |t| && t[j] == s[0];
    assert j > 0 ==> AtOrBefore(BySpan, t[0], t[j]);
  }

  lemma SameTail(s: seq<Placement>, t: seq<Placement>)
    requires multiset(s) == multiset(t) && s != [] && t != [] && s[0] == t[0]
    ensures multiset(s[1..]) == multiset(t[1..])
  {
    assert s == [s[0]] + s[1..] && t == [t[0]] + t[1..];
    assert multiset(s[1..]) == multiset(s) - multiset{s[0]};
    assert multiset(t[1..]) == multiset(t) - multiset{t[0]};
  }

  /** Strictly sorted lists with the same members are the same list. */
  lemma {:induction false} SortedOnce(s: seq<Placement>, t: seq<Placement>)
    requires Strict(s) && InOrder(BySpan, t) && multiset(s) == multiset(t)
    ensures s == t
  {
    hide AtOrBefore;
    if s == [] {
      assert |multiset(t)| == 0;
    } else {
      SameHead(s, t);
      SameTail(s, t);
      SortedOnce(s[1..], t[1..]);
      assert s == [s[0]] + s[1..] && t == [t[0]] + t[1..];
    }
  }

  /** The same edits, in any order of the array, come out in one file order if they are accepted. */
  lemma OneFileOrder(ps: seq<Placement>, qs: seq<Placement>)
    requires Sane(ps) && AllCompatible(ps) && multiset(Anonymous(ps)) == multiset(Anonymous(qs))
    ensures AllCompatible(qs)
    ensures Anonymous(Sorted(BySpan, ps)) == Anonymous(Sorted(BySpan, qs))
  {
    hide Sorted, Compatible;
    var s, t := Sorted(BySpan, Anonymous(ps)), Sorted(BySpan, Anonymous(qs));
    SortSorts(BySpan, Anonymous(ps));
    SortSorts(BySpan, Anonymous(qs));
    AnonymousCompatible(ps);
    AnonymousCompatible(qs);
    CompatibleEitherWay(Anonymous(ps), Anonymous(qs));
    CompatibleEitherWay(Anonymous(ps), s);
    SaneSorted(ps);
    StrictlySorted(s);
    SortedOnce(s, t);
    SortAnonymous(ps);
    SortAnonymous(qs);
  }

  lemma AnonymousCompatible(ps: seq<Placement>)
    ensures AllCompatible(Anonymous(ps)) <==> AllCompatible(ps)
  {
    if AllCompatible(Anonymous(ps)) {
      forall i, j | 0 <= i < j < |ps| ensures Compatible(ps[i], ps[j]) {
        assert Compatible(Anonymous(ps)[i], Anonymous(ps)[j]);
      }
    }
  }

  lemma SaneSorted(ps: seq<Placement>)
    requires Sane(ps)
    ensures Sane(Sorted(BySpan, Anonymous(ps)))
  {
    hide Sorted;
    SameMembers(BySpan, Anonymous(ps));
    forall p | p in Sorted(BySpan, Anonymous(ps)) ensures p.start <= p.end {
      var i :| 0 <= i < |ps| && Anonymous(ps)[i] == p;
      assert ps[i] in ps;
    }
  }

  lemma StrictlySorted(s: seq<Placement>)
    requires Sane(s) && InOrder(BySpan, s) && AllCompatible(s)
    ensures Strict(s)
  {
    forall i, j | 0 <= i < j < |s| ensures !AtOrBefore(BySpan, s[j], s[i]) {
      assert Compatible(s[i], s[j]) && AtOrBefore(BySpan, s[i], s[j]);
      assert s[i] in s && s[j] in s;
    }
  }

  lemma {:induction false} SameWeave(lines: seq<string>, s: seq<Placement>, t: seq<Placement>, from: nat)
    requires Ordered(s, from, lines) && Anonymous(s) == Anonymous(t)
    ensures Ordered(t, from, lines) && Weave(lines, s, from) == Weave(lines, t, from)
  {
    if s != [] {
      assert s[0].(index := 0) == Anonymous(s)[0] == Anonymous(t)[0] == t[0].(index := 0);
      assert Anonymous(s[1..]) == Anonymous(s)[1..] == Anonymous(t)[1..] == Anonymous(t[1..]);
      SameWeave(lines, s[1..], t[1..], s[0].end);
    }
  }

  function Reverse(ps: seq<Placement>): (r: seq<Placement>)
    ensures |r| == |ps|
  {
    if ps == [] then [] else Reverse(ps[1..]) + [ps[0]]
  }

  lemma {:induction false} ReverseMembers(ps: seq<Placement>)
    ensures multiset(Reverse(ps)) == multiset(ps)
  {
    if ps != [] {
      ReverseMembers(ps[1..]);
      assert ps == [ps[0]] + ps[1..];
    }
  }

  /** sorted(..., reverse=True) keeps ties in array order, so read backwards it is the sort of the
      reversed array; without ties that is simply the sort. */
  lemma ReverseSortAgrees(ps: seq<Placement>)
    requires Sane(ps) && AllCompatible(ps)
    ensures Sorted(BySpan, Reverse(ps)) == Sorted(BySpan, ps)
  {
    hide Sorted, Compatible, AtOrBefore;
    var s := Sorted(BySpan, ps);
    ReverseMembers(ps);
    SortSorts(BySpan, ps);
    SortSorts(BySpan, Reverse(ps));
    CompatibleEitherWay(ps, s);
    SameMembers(BySpan, ps);
    StrictlySorted(s);
    SortedOnce(s, Sorted(BySpan, Reverse(ps)));
  }

  /** The placements that change something. */
  function Changing(s: seq<Placement>): (r: seq<Placement>)
    ensures forall p | p in r :: p in s && p.was != p.added
  {
    if s == [] then [] else (if s[0].was != s[0].added then [s[0]] else []) + Changing(s[1..])
  }

  /** The edits whose text was there already, in array order. */
  function Idle(ps: seq<Placement>): seq<nat> {
    if ps == [] then []
    else Idle(ps[..|ps| - 1]) + if ps[|ps| - 1].was == ps[|ps| - 1].added then [ps[|ps| - 1].index] else []
  }

  /** The edits reported as applied already are exactly those that change nothing. */
  lemma {:induction false} IdleAreUnchanged(ps: seq<Placement>, index: nat)
    ensures index in Idle(ps) <==> exists p | p in ps :: p.index == index && p.was == p.added
  {
    if ps != [] {
      var init, last := ps[..|ps| - 1], ps[|ps| - 1];
      IdleAreUnchanged(init, index);
      assert ps == init + [last];
      assert forall p :: p in ps <==> p in init || p == last;
    }
  }

  /** Leaving out placements that change nothing does not change the result. */
  lemma {:induction false} OnlyChangingMatter(lines: seq<string>, s: seq<Placement>, from: nat)
    requires Ordered(s, from, lines)
    ensures Ordered(Changing(s), from, lines) && Weave(lines, Changing(s), from) == Weave(lines, s, from)
  {
    if s != [] {
      OnlyChangingMatter(lines, s[1..], s[0].end);
      var rest := Changing(s[1..]);
      if s[0].was == s[0].added {
        assert Changing(s) == rest;
        KeptPiece(lines, rest, from, s[0]);
      } else {
        assert Changing(s) == [s[0]] + rest;
        WeaveCons(lines, s[0], rest, from);
      }
    }
  }

  lemma WeaveCons(lines: seq<string>, p: Placement, rest: seq<Placement>, from: nat)
    requires from <= p.start <= p.end <= |lines| && p.was == lines[p.start..p.end] && Ordered(rest, p.end, lines)
    ensures Ordered([p] + rest, from, lines)
            && Weave(lines, [p] + rest, from) == lines[from..p.start] + p.added + Weave(lines, rest, p.end)
  {
    assert ([p] + rest)[1..] == rest;
  }

  lemma KeptPiece(lines: seq<string>, rest: seq<Placement>, from: nat, p: Placement)
    requires from <= p.start <= p.end <= |lines| && p.added == lines[p.start..p.end] && Ordered(rest, p.end, lines)
    ensures Ordered(rest, from, lines)
            && Weave(lines, rest, from) == lines[from..p.start] + p.added + Weave(lines, rest, p.end)
  {
    SliceJoin(lines, from, p.start, p.end);
    if rest == [] {
      SliceJoin(lines, from, p.end, |lines|);
    } else {
      SliceJoin(lines, from, p.end, rest[0].start);
      Regroup(lines[from..p.end], lines[p.end..rest[0].start], rest[0].added, Weave(lines, rest[1..], rest[0].end));
    }
  }

  lemma Regroup(a: seq<string>, b: seq<string>, c: seq<string>, d: seq<string>)
    ensures a + b + c + d == a + (b + c + d)
  {
  }

  datatype Outcome = Outcome(content: string, changedRanges: seq<Range>, already: seq<nat>, applied: nat)

  /** A file's text with other lines: byte order mark, line ending and final newline stay; a file that
      had no lines ends with a newline if it now has some. */
  function Rewritten(content: string, updated: seq<string>): string {
    var (bom, text) := StripBom(content);
    var (lines, trailing) := SplitLines(NormalizeToLf(text));
    bom + RestoreLineEndings(JoinLines(updated, if lines != [] then trailing else updated != []),
      DetectLineEnding(text))
  }

  function LinesOf(content: string): seq<string> {
    SplitLines(NormalizeToLf(StripBom(content).1)).0
  }

  ghost predicate Edited(content: string, edits: seq<LineEdit>, r: Result<Outcome, EditError>)
    requires WellFormed(edits)
  {
    var lines := LinesOf(content);
    if !AllInside(edits, lines) then r.Err? && r.error.PastTheEnd? && FirstOutside(edits, lines, r.error.edit)
    else
      var ps := PlacementsOf(edits, lines);
      var s := Sorted(BySpan, ps);
      && (s != [] || ps == [])
      && match FirstCollision(s, 0)
         case Some(pair) => r == Err(EditsOverlap(pair.0, pair.1))
         case None =>
           && Ordered(s, 0, lines)
           && r == Ok(Outcome(Rewritten(content, Weave(lines, s, 0)), Ranges(Changing(s), 0), Idle(ps), |Changing(s)|))
  }

  lemma PlacementsLie(edits: seq<LineEdit>, lines: seq<string>)
    requires WellFormed(edits) && AllInside(edits, lines)
    ensures var ps := PlacementsOf(edits, lines); Sane(ps) && forall p | p in ps :: Lies(p, lines)
  {
  }

  lemma SortedLies(ps: seq<Placement>, lines: seq<string>)
    requires Sane(ps) && (forall p | p in ps :: Lies(p, lines)) && AllCompatible(ps)
    ensures Ordered(Sorted(BySpan, ps), 0, lines)
  {
    hide Sorted, Compatible, AtOrBefore, Ordered, Lies;
    var s := Sorted(BySpan, ps);
    SameMembers(BySpan, ps);
    SortSorts(BySpan, ps);
    CompatibleEitherWay(ps, s);
    ClearIffCompatible(s);
    ClearIsOrdered(s, lines);
  }

  method FindIdle(ps: seq<Placement>) returns (idle: seq<nat>)
    ensures idle == Idle(ps)
  {
    idle := [];
    var i := 0;
    while i < |ps|
      invariant 0 <= i <= |ps| && idle == Idle(ps[..i])
    {
      assert ps[..i + 1][..i] == ps[..i];
      if ps[i].was == ps[i].added { idle := idle + [ps[i].index]; }
      i := i + 1;
    }
    assert ps[..i] == ps;
  }

  /** apply_line_edits. */
  method ApplyLineEdits(content: string, edits: seq<LineEdit>) returns (r: Result<Outcome, EditError>)
    requires WellFormed(edits)
    ensures Edited(content, edits, r)
  {
    hide Sorted, FirstCollision, AllCompatible, Lies, Ordered, Weave, Ranges, Rewritten, LinesOf, Changing, Idle;
    var lines := LinesOf(content);
    var placed := Place(edits, lines);
    if placed.Err? { return Err(placed.error); }
    var ps := placed.value;
    PlacementsLie(edits, lines);
    var collision := RejectOverlaps(ps);
    if collision.Some? { return Err(EditsOverlap(collision.value.0, collision.value.1)); }
    AcceptedIffCompatible(ps);
    ReverseSortAgrees(ps);
    SortedLies(ps, lines);
    var order := Sorted(BySpan, Reverse(ps));
    var updated := SpliceAll(lines, order);
    var changed := Changing(order);
    var ranges := ChangedRanges(changed);
    var idle := FindIdle(ps);
    r := Ok(Outcome(Rewritten(content, updated), ranges, idle, |changed|));
  }

  /** A request is accepted exactly if every edit lies inside the file and all are compatible. */
  lemma EditedIff(content: string, edits: seq<LineEdit>, r: Result<Outcome, EditError>)
    requires WellFormed(edits) && Edited(content, edits, r)
    ensures r.Ok? <==> AllInside(edits, LinesOf(content)) && AllCompatible(PlacementsOf(edits, LinesOf(content)))
  {
    hide Sorted, FirstCollision, AllCompatible, Lies, Ordered, Weave, Ranges, Rewritten, LinesOf, Changing, Idle;
    if AllInside(edits, LinesOf(content)) {
      PlacementsLie(edits, LinesOf(content));
      AcceptedIffCompatible(PlacementsOf(edits, LinesOf(content)));
    }
  }

  /** The order of the edits array does not matter: what is accepted and the resulting file are the same. */
  lemma ArrayOrderIsFree(content: string, edits: seq<LineEdit>, others: seq<LineEdit>, r: Result<Outcome, EditError>,
          q: Result<Outcome, EditError>)
    requires WellFormed(edits) && WellFormed(others) && multiset(edits) == multiset(others)
    requires Edited(content, edits, r) && Edited(content, others, q)
    ensures r.Ok? <==> q.Ok?
    ensures r.Ok? ==> r.value.content == q.value.content
  {
    hide Sorted, FirstCollision, AllCompatible, Lies, Ordered, Weave, Ranges, Rewritten, LinesOf, Changing, Idle,
      Edited;
    var lines := LinesOf(content);
    EditedIff(content, edits, r);
    EditedIff(content, others, q);
    InsideEitherWay(edits, others, lines);
    if AllInside(edits, lines) {
      SameAnonymous(edits, others, lines);
      PlacementsLie(edits, lines);
      PlacementsLie(others, lines);
      var ps, qs := PlacementsOf(edits, lines), PlacementsOf(others, lines);
      if AllCompatible(ps) { OneFileOrder(ps, qs); }
      if AllCompatible(qs) { OneFileOrder(qs, ps); }
      if r.Ok? {
        EditedContent(content, edits, r);
        EditedContent(content, others, q);
        SortedLies(ps, lines);
        SameWeave(lines, Sorted(BySpan, ps), Sorted(BySpan, qs), 0);
      }
    }
  }

  lemma InsideEitherWay(edits: seq<LineEdit>, others: seq<LineEdit>, lines: seq<string>)
    requires multiset(edits) == multiset(others)
    ensures AllInside(edits, lines) <==> AllInside(others, lines)
  {
    forall e ensures e in edits <==> e in others {
      assert e in edits <==> e in multiset(edits);
      assert e in others <==> e in multiset(others);
    }
  }

  /** An edit's placement as if it stood alone in its array. */
  function Bare(e: LineEdit, lines: seq<string>): Placement {
    if e.start <= e.end <= |lines| then PlacementOf(e, 0, lines) else Placement(0, e.start, e.end, e.lines, Exact, [])
  }

  lemma SameAnonymous(edits: seq<LineEdit>, others: seq<LineEdit>, lines: seq<string>)
    requires WellFormed(edits) && AllInside(edits, lines) && WellFormed(others) && AllInside(others, lines)
    requires multiset(edits) == multiset(others)
    ensures multiset(Anonymous(PlacementsOf(edits, lines))) == multiset(Anonymous(PlacementsOf(others, lines)))
  {
    var f := (e: LineEdit) => Bare(e, lines);
    MappedPermutation(f, edits, others);
    assert Mapped(f, edits) == Anonymous(PlacementsOf(edits, lines));
    assert Mapped(f, others) == Anonymous(PlacementsOf(others, lines));
  }

  /** The accepted result: the weave of the original lines with the replacements, in file order. */
  lemma EditedContent(content: string, edits: seq<LineEdit>, r: Result<Outcome, EditError>)
    requires WellFormed(edits) && Edited(content, edits, r) && r.Ok?
    ensures var lines := LinesOf(content);
            && AllInside(edits, lines)
            && var s := Sorted(BySpan, PlacementsOf(edits, lines));
            && Ordered(s, 0, lines) && r.value.content == Rewritten(content, Weave(lines, s, 0))
  {
  }

  /** The file ends with a newline, or has no lines and gets one with the first. */
  predicate KeepsNewline(content: string) {
    var (lines, trailing) := SplitLines(NormalizeToLf(StripBom(content).1));
    lines == [] || trailing
  }

  /** Lines that a file can be rewritten to and will still read as. */
  predicate Rereads(content: string, updated: seq<string>) {
    && Clean(updated)
    && (updated == [] || KeepsNewline(content) || updated[|updated| - 1] != "")
    && (StripBom(content).0 != "" || !BomFirst(updated))
  }

  /** What the rewritten file reads as: without an empty last line if no newline follows it, and without
      a byte order mark that has come to stand first. */
  lemma RewrittenReads(content: string, updated: seq<string>)
    requires Clean(updated)
    ensures LinesOf(Rewritten(content, updated)) ==
            AsRead(if StripBom(content).0 == "" then Headless(updated) else updated, KeepsNewline(content))
  {
    hide Join, Split, NormalizeToLf, RestoreLineEndings, DetectLineEnding, SplitLines, Clean, BomFirst;
    var (bom, text) := StripBom(content);
    var (lines, trailing) := SplitLines(NormalizeToLf(text));
    var newline := if lines != [] then trailing else updated != [];
    HeadlessJoin(updated);
    JoinedHasNoCr(updated, newline);
    ReadBack(bom, JoinLines(updated, newline), DetectLineEnding(text));
    var v := if bom == "" then Headless(updated) else updated;
    HeadlessLines(updated, newline);
    SplitLinesReads(v, newline);
  }

  lemma JoinedHasNoCr(lines: seq<string>, newline: bool)
    requires Clean(lines)
    ensures '\r' !in JoinLines(lines, newline)
  {
    JoinHasNo(lines, '\r');
  }

  lemma HeadlessLines(lines: seq<string>, newline: bool)
    requires Clean(lines)
    ensures BomFirst(lines) <==> JoinLines(lines, newline) != "" && JoinLines(lines, newline)[0] == BOM
    ensures BomFirst(lines) ==> JoinLines(lines, newline)[1..] == JoinLines(Headless(lines), newline)
  {
    hide Join;
    HeadlessJoin(lines);
    if lines != [] {
      var end := if newline then "\n" else "";
      assert BomFirst(lines) ==> (Join(lines) + end)[1..] == Join(lines)[1..] + end;
    }
  }

  /** Exactly such lines come back when the rewritten file is read. */
  lemma RereadsIff(content: string, updated: seq<string>)
    ensures LinesOf(Rewritten(content, updated)) == updated <==> Rereads(content, updated)
  {
    hide Rewritten, KeepsNewline, LinesOf, Clean;
    LinesAreClean(Rewritten(content, updated));
    if Clean(updated) {
      RewrittenReads(content, updated);
      HeadlessJoin(updated);
    }
  }

  lemma LinesAreClean(content: string)
    ensures Clean(LinesOf(content))
  {
    SplitIsClean(StripBom(content).1);
  }

  lemma {:induction false} WeaveIsClean(lines: seq<string>, s: seq<Placement>, from: nat)
    requires Ordered(s, from, lines) && Clean(lines) && forall p | p in s :: Clean(p.added)
    ensures Clean(Weave(lines, s, from))
  {
    if s != [] {
      WeaveIsClean(lines, s[1..], s[0].end);
      assert forall line | line in Weave(lines, s, from) ::
          line in lines || line in s[0].added || line in Weave(lines, s[1..], s[0].end);
    }
  }

  lemma SortedAreClean(edits: seq<LineEdit>, lines: seq<string>)
    requires WellFormed(edits) && AllInside(edits, lines) && forall e | e in edits :: Clean(e.lines)
    ensures forall p | p in Sorted(BySpan, PlacementsOf(edits, lines)) :: Clean(p.added)
  {
    hide Sorted, Clean;
    var ps := PlacementsOf(edits, lines);
    SameMembers(BySpan, ps);
    forall p | p in ps ensures Clean(p.added) {
      var i :| 0 <= i < |ps| && ps[i] == p;
      assert edits[i] in edits;
    }
  }

  /** The report of an accepted request is true of the file as it will be read, though it leaves out
      edits that change nothing, exactly if the file reads as the lines that were put together. */
  lemma ReportTruthful(content: string, edits: seq<LineEdit>, r: Result<Outcome, EditError>)
    requires WellFormed(edits) && Edited(content, edits, r) && r.Ok?
    ensures var lines := LinesOf(content);
            && AllInside(edits, lines)
            && var s := Sorted(BySpan, PlacementsOf(edits, lines));
            && Ordered(s, 0, lines)
            && Describes(Weave(lines, s, 0), r.value.changedRanges, lines, Changing(s))
            && (Describes(LinesOf(r.value.content), r.value.changedRanges, lines, Changing(s)) <==>
                 Rereads(content, Weave(lines, s, 0)))
            && ((forall e | e in edits :: Clean(e.lines)) ==> Clean(Weave(lines, s, 0)))
  {
    hide Sorted, FirstCollision, AllCompatible, Lies, Ordered, Weave, Ranges, Rewritten, LinesOf, Changing, Idle,
      Describes, Rereads, Clean;
    var lines := LinesOf(content);
    var s := Sorted(BySpan, PlacementsOf(edits, lines));
    OnlyChangingMatter(lines, s, 0);
    ReportDescribesIff(lines, Changing(s), Weave(lines, s, 0));
    ReportDescribesIff(lines, Changing(s), LinesOf(r.value.content));
    RereadsIff(content, Weave(lines, s, 0));
    if forall e | e in edits :: Clean(e.lines) {
      LinesAreClean(content);
      SortedAreClean(edits, lines);
      WeaveIsClean(lines, s, 0);
    }
  }

  /** The reported number of lines is what the rewritten file reads as; a byte order mark alone counts as one. */
  lemma TotalOfRewritten(content: string, updated: seq<string>)
    requires Clean(updated)
    ensures var read := AsRead(updated, KeepsNewline(content));
            TotalLines(Rewritten(content, updated)) == if StripBom(content).0 != "" && read == [] then 1 else |read|
  {
    hide Join, Split, NormalizeToLf, RestoreLineEndings, DetectLineEnding, SplitLines, Clean, TotalLines;
    var (bom, text) := StripBom(content);
    var (lines, trailing) := SplitLines(NormalizeToLf(text));
    var newline := if lines != [] then trailing else updated != [];
    var joined := JoinLines(updated, newline);
    var restored := RestoreLineEndings(joined, DetectLineEnding(text));
    JoinedHasNoCr(updated, newline);
    NormalizeRestored(joined, DetectLineEnding(text));
    SplitLinesReads(updated, newline);
    NoText(joined);
    TotalIsLines(restored);
    TotalBehindBom(restored);
    assert bom == "" ==> bom + restored == restored;
  }

  lemma NoText(text: string)
    ensures SplitLines(text).0 == [] <==> text == ""
  {
    PiecesCounted(text);
    assert text != "" && |Split(text)| == 1 ==> Split(text)[0] != "" by {
      if text != "" && Split(text) == [""] { JoinSplit(text); }
    }
  }

  lemma LastPieceThere(content: string)
    requires !KeepsNewline(content)
    ensures LinesOf(content) != [] && LinesOf(content)[|LinesOf(content)| - 1] != ""
  {
  }

  /** Every range ends within the reported number of lines exactly if the file ends with a newline, or the last of
      the lines put together is not empty (or there are none, or the result is a byte order mark alone). */
  lemma RangesWithinTotal(content: string, edits: seq<LineEdit>, r: Result<Outcome, EditError>)
    requires WellFormed(edits) && Edited(content, edits, r) && r.Ok?
    ensures var lines := LinesOf(content);
            && AllInside(edits, lines)
            && var s := Sorted(BySpan, PlacementsOf(edits, lines));
            && Ordered(s, 0, lines)
            && var w := Weave(lines, s, 0);
            Clean(w) ==>
              ((forall range | range in r.value.changedRanges :: range.endLine <= TotalLines(r.value.content)) <==>
                 || w == [] || KeepsNewline(content) || w[|w| - 1] != "" || (StripBom(content).0 != "" && w == [""]))
  {
    hide Sorted, FirstCollision, AllCompatible, Lies, Ordered, Weave, Ranges, Rewritten, LinesOf, Changing, Idle,
      ReachesEnd, TotalLines, KeepsNewline, Clean;
    var lines := LinesOf(content);
    var s := Sorted(BySpan, PlacementsOf(edits, lines));
    var w, c := Weave(lines, s, 0), Changing(s);
    OnlyChangingMatter(lines, s, 0);
    RangesEndInside(lines, c);
    if Clean(w) { TotalOfRewritten(content, w); }
    if !KeepsNewline(content) {
      LastPieceThere(content);
      if !ReachesEnd(c, lines) { LastLineStays(lines, c, 0); }
    }
  }

  const LINE_ADDED := LineEdit(1, 1, ["x", ""])

  /** Inserting "x\n" after the one line of a file that ends without a newline: the report names the lines
      2 to 3, and the file has two. */
  lemma ReportPastTheEnd()
    ensures ParseEdit(Request(InsertAfter, None, None, Some(1), Some("x\n"))) == Ok(LINE_ADDED)
    ensures Edited("a", [LINE_ADDED], Ok(Outcome("a\nx\n", [Range(2, 3, 2, 0)], [], 1)))
    ensures |LinesOf("a\nx\n")| == TotalLines("a\nx\n") == 2
  {
    hide Sorted, Weave, Changing, Idle, Ranges, LinesOf, Rewritten, Ordered, FirstCollision, ContentLines, TotalLines;
    TwoLines();
    LineAsked();
    OneLine();
    LinePlaced();
    LineWritten();
  }

  lemma LineAsked()
    ensures ContentLines("x\n") == ["x", ""]
  {
    assert NormalizeToLf("x\n") == "x\n";
    SplitAfterLine("x", "");
    assert "x" + "\n" + "" == "x\n";
  }

  lemma LinePlaced()
    ensures AllInside([LINE_ADDED], ["a"])
    ensures var ps := PlacementsOf([LINE_ADDED], ["a"]);
            && Sorted(BySpan, ps) == ps && FirstCollision(ps, 0) == None && Ordered(ps, 0, ["a"])
            && Weave(["a"], ps, 0) == ["a", "x", ""] && Changing(ps) == ps && Idle(ps) == []
            && Ranges(ps, 0) == [Range(2, 3, 2, 0)]
  {
    var p := PlacementOf(LINE_ADDED, 0, ["a"]);
    var ps := PlacementsOf([LINE_ADDED], ["a"]);
    assert ps == [p] && [p][..0] == [] && [p][1..] == [];
  }

  lemma LineWritten()
    ensures Rewritten("a", ["a", "x", ""]) == "a\nx\n"
  {
    hide Split, Join, DetectLineEnding, NormalizeToLf;
    OneLine();
    LinesJoined();
    assert "" + "a\nx\n" == "a\nx\n";
  }

  lemma LinesJoined()
    ensures Join(["a", "x", ""]) + "" == "a\nx\n" && DetectLineEnding("a") == Lf
  {
    assert ["a", "x", ""][1..] == ["x", ""] && ["x", ""][1..] == [""];
    assert "x" + "\n" + "" == "x\n" && "a" + "\n" + "x\n" == "a\nx\n" && "a\nx\n" + "" == "a\nx\n";
  }

  lemma OneLine()
    ensures LinesOf("a") == ["a"] && SplitLines(NormalizeToLf(StripBom("a").1)) == (["a"], false)
    ensures LinesOf("a\nx\n") == ["a", "x"]
  {
    assert StripBom("a").1 == "a" && NormalizeToLf("a") == "a";
    SplitOneLine("a");
    assert StripBom("a\nx\n").1 == "a\nx\n" && NormalizeToLf("a\nx\n") == "a\nx\n";
    SplitAfterLine("a", "x\n");
    SplitAfterLine("x", "");
    assert "a" + "\n" + "x\n" == "a\nx\n" && "x" + "\n" + "" == "x\n";
  }

  lemma {:induction false} IdleWeave(lines: seq<string>, s: seq<Placement>, from: nat)
    requires Ordered(s, from, lines) && Changing(s) == []
    ensures Weave(lines, s, from) == lines[from..]
  {
    OnlyChangingMatter(lines, s, from);
  }

  /** Edits that change no line return the file as it was exactly if its line endings are uniform. */
  lemma IdleEditsAreIdentityIffUniform(content: string, edits: seq<LineEdit>, r: Result<Outcome, EditError>)
    requires WellFormed(edits) && Edited(content, edits, r) && r.Ok? && r.value.applied == 0
    ensures r.value.content == content <==> Uniform(StripBom(content).1)
  {
    hide Sorted, FirstCollision, AllCompatible, Lies, Ordered, Weave, Ranges, Rewritten, LinesOf, Changing, Idle,
      Uniform;
    var lines := LinesOf(content);
    IdleWeave(lines, Sorted(BySpan, PlacementsOf(edits, lines)), 0);
    assert lines[0..] == lines;
    RewrittenAsItWas(content);
  }

  /** Such an edit of a text whose lines end differently: replacing line 1 by itself rewrites line 2. */
  lemma IdleEditRewrites()
    ensures ParseEdit(Request(Replace, Some(1), None, None, Some("a"))) == Ok(LineEdit(0, 1, ["a"]))
    ensures Edited(MIXED, [LineEdit(0, 1, ["a"])], Ok(Outcome("a\r\nb\r\n", [], [0], 0)))
  {
    hide Sorted, Weave, Changing, Idle, Ranges, LinesOf, Rewritten, Ordered, FirstCollision, ContentLines;
    assert ContentLines("a") == ["a"] by { LetterLine(); }
    MixedFile();
    IdlePlaced();
  }

  lemma LetterLine()
    ensures ContentLines("a") == ["a"]
  {
    assert NormalizeToLf("a") == "a";
    SplitOneLine("a");
  }

  lemma MixedFile()
    ensures LinesOf(MIXED) == ["a", "b"] && Rewritten(MIXED, ["a", "b"]) == "a\r\nb\r\n"
  {
    hide Split, Join, DetectLineEnding, NormalizeToLf, RestoreLineEndings, SplitLines, JoinLines, StripBom;
    MixedPlain();
    MixedEnding();
    MixedLines();
    assert "" + "a\r\nb\r\n" == "a\r\nb\r\n";
  }

  lemma IdlePlaced()
    ensures AllInside([LineEdit(0, 1, ["a"])], ["a", "b"])
    ensures var ps := PlacementsOf([LineEdit(0, 1, ["a"])], ["a", "b"]);
            && Sorted(BySpan, ps) == ps && FirstCollision(ps, 0) == None && Ordered(ps, 0, ["a", "b"])
            && Weave(["a", "b"], ps, 0) == ["a", "b"] && Changing(ps) == [] && Idle(ps) == [0] && Ranges([], 0) == []
  {
    var p := PlacementOf(LineEdit(0, 1, ["a"]), 0, ["a", "b"]);
    var ps := PlacementsOf([LineEdit(0, 1, ["a"])], ["a", "b"]);
    assert ps == [p] && [p][..0] == [] && [p][1..] == [];
  }

  lemma RewrittenAsItWas(content: string)
    ensures Rewritten(content, LinesOf(content)) == content <==> Uniform(StripBom(content).1)
  {
    hide Split, Uniform, NormalizeToLf, RestoreLineEndings, DetectLineEnding, Join, SplitLines, JoinLines;
    var (bom, text) := StripBom(content);
    JoinLinesSplitLines(NormalizeToLf(text));
    NoLinesNoText(NormalizeToLf(text));
    RestoreIffUniform(text);
    var restored := RestoreLineEndings(NormalizeToLf(text), DetectLineEnding(text));
    assert bom + restored == bom + text ==> (bom + restored)[|bom|..] == (bom + text)[|bom|..];
    assert (bom + restored)[|bom|..] == restored && (bom + text)[|bom|..] == text;
  }

  lemma NoLinesNoText(text: string)
    ensures var (lines, trailing) := SplitLines(text);
            lines == [] ==> JoinLines(lines, trailing) == JoinLines(lines, false)
  {
  }
}
