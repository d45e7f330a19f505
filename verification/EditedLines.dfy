/** What a request of line edits means: go through the file line by line, and at each place put what the request
    says belongs there. */
module EditedLines {
  import opened Options
  import opened Texts
  import opened Spans
  import opened Ordering
  import opened LineEdits

  /** An insertion in front of line k, counted from 0, or a replacement that begins with it. */
  predicate StartsAt(e: LineEdit, k: nat, insertion: bool) {
    e.start == k && (e.end == k <==> insertion)
  }

  function TextAt(edits: seq<LineEdit>, k: nat, insertion: bool): seq<string> {
    if edits == [] then []
    else (if StartsAt(edits[0], k, insertion) then edits[0].lines else []) + TextAt(edits[1..], k, insertion)
  }

  predicate Covered(edits: seq<LineEdit>, k: nat) {
    exists e | e in edits :: e.start <= k < e.end
  }

  /** The lines from number k on, edited: what is inserted in front of the line, what replaces the span that begins
      with it, and the line itself unless some edit covers it. */
  function LineByLine(lines: seq<string>, edits: seq<LineEdit>, k: nat): seq<string>
    requires k <= |lines|
    decreases |lines| - k
  {
    TextAt(edits, k, true) + TextAt(edits, k, false)
    + if k == |lines| then []
      else (if Covered(edits, k) then [] else [lines[k]]) + LineByLine(lines, edits, k + 1)
  }

  /** Two edits that may stand in one request. */
  predicate MayStand(a: LineEdit, b: LineEdit) {
    (a.end <= b.start || b.end <= a.start) && !(a.start == a.end == b.start == b.end)
  }

  ghost predicate AllMayStand(edits: seq<LineEdit>) {
    forall i, j | 0 <= i < j < |edits| :: MayStand(edits[i], edits[j])
  }

  // One text at a place.

  lemma {:induction false} NoText(edits: seq<LineEdit>, k: nat, insertion: bool)
    requires forall e | e in edits :: !StartsAt(e, k, insertion)
    ensures TextAt(edits, k, insertion) == []
  {
    if edits != [] {
      assert edits[0] in edits;
      NoText(edits[1..], k, insertion);
    }
  }

  lemma {:induction false} OneText(edits: seq<LineEdit>, k: nat, insertion: bool, i: nat)
    requires i < |edits| && StartsAt(edits[i], k, insertion)
    requires forall j | 0 <= j < |edits| && j != i :: !StartsAt(edits[j], k, insertion)
    ensures TextAt(edits, k, insertion) == edits[i].lines
  {
    hide StartsAt;
    if i == 0 {
      forall e | e in edits[1..] ensures !StartsAt(e, k, insertion) {
        var j :| 0 <= j < |edits[1..]| && edits[1..][j] == e;
        assert edits[j + 1] == e;
      }
      NoText(edits[1..], k, insertion);
    } else {
      assert forall j | 0 <= j < |edits[1..]| :: edits[1..][j] == edits[j + 1];
      OneText(edits[1..], k, insertion, i - 1);
    }
  }

  lemma AtMostOne(edits: seq<LineEdit>, k: nat, insertion: bool, i: nat, j: nat)
    requires WellFormed(edits) && AllMayStand(edits)
    requires i < |edits| && j < |edits| && StartsAt(edits[i], k, insertion) && StartsAt(edits[j], k, insertion)
    ensures i == j
  {
    assert edits[i] in edits && edits[j] in edits;
  }

  /** The order of the edits is no matter. */
  lemma SameText(edits: seq<LineEdit>, others: seq<LineEdit>, k: nat, insertion: bool)
    requires WellFormed(edits) && AllMayStand(edits) && AllMayStand(others)
    requires forall e :: e in edits <==> e in others
    ensures TextAt(edits, k, insertion) == TextAt(others, k, insertion)
  {
    hide StartsAt, AllMayStand;
    if e :| e in edits && StartsAt(e, k, insertion) {
      var i :| 0 <= i < |edits| && edits[i] == e;
      var j :| 0 <= j < |others| && others[j] == e;
      forall l | 0 <= l < |edits| && StartsAt(edits[l], k, insertion) ensures l == i {
        AtMostOne(edits, k, insertion, i, l);
      }
      forall l | 0 <= l < |others| && StartsAt(others[l], k, insertion) ensures l == j {
        AtMostOne(others, k, insertion, j, l);
      }
      OneText(edits, k, insertion, i);
      OneText(others, k, insertion, j);
    } else {
      NoText(edits, k, insertion);
      NoText(others, k, insertion);
    }
  }

  lemma {:induction false} SameLines(lines: seq<string>, edits: seq<LineEdit>, others: seq<LineEdit>, k: nat)
    requires WellFormed(edits) && AllMayStand(edits) && AllMayStand(others) && k <= |lines|
    requires forall e :: e in edits <==> e in others
    ensures LineByLine(lines, edits, k) == LineByLine(lines, others, k)
    decreases |lines| - k
  {
    hide AllMayStand, TextAt;
    SameText(edits, others, k, true);
    SameText(edits, others, k, false);
    if k < |lines| {
      assert Covered(edits, k) <==> Covered(others, k);
      SameLines(lines, edits, others, k + 1);
    }
  }

  // The weave, line by line.

  function EditOf(p: Placement): LineEdit {
    LineEdit(p.start, p.end, p.added)
  }

  function EditsOf(s: seq<Placement>): (r: seq<LineEdit>)
    ensures |r| == |s|
  {
    if s == [] then [] else [EditOf(s[0])] + EditsOf(s[1..])
  }

  lemma {:induction false} EditsAt(s: seq<Placement>)
    ensures forall i | 0 <= i < |s| :: EditsOf(s)[i] == EditOf(s[i])
  {
    if s != [] {
      EditsAt(s[1..]);
    }
  }

  lemma EditsOfRest(s: seq<Placement>)
    requires s != []
    ensures EditsOf(s)[0] == EditOf(s[0]) && EditsOf(s)[1..] == EditsOf(s[1..])
  {
  }

  /** In file order, with at most an insertion and a replacement at one place. */
  ghost predicate Apart(s: seq<Placement>) {
    && (forall i | 0 <= i < |s| :: s[i].start <= s[i].end)
    && (forall i, j | 0 <= i < j < |s| ::
         s[i].end <= s[j].start && (s[i].start == s[j].start ==> s[i].start == s[i].end && s[j].start < s[j].end))
  }

  /** An edit that ends in front of a place, and does not insert there, makes no difference behind it. */
  lemma {:induction false} DropFirst(lines: seq<string>, edits: seq<LineEdit>, k: nat)
    requires edits != [] && edits[0].start < k && edits[0].end <= k <= |lines|
    ensures LineByLine(lines, edits, k) == LineByLine(lines, edits[1..], k)
    decreases |lines| - k
  {
    hide TextAt, Covered;
    NotThere(edits, k);
    if k < |lines| {
      DropFirst(lines, edits, k + 1);
    }
  }

  lemma {:induction false} NotThere(edits: seq<LineEdit>, k: nat)
    requires edits != [] && edits[0].start < k && edits[0].end <= k
    ensures TextAt(edits, k, true) == TextAt(edits[1..], k, true)
    ensures TextAt(edits, k, false) == TextAt(edits[1..], k, false)
    ensures Covered(edits, k) <==> Covered(edits[1..], k)
  {
    assert forall e :: e in edits <==> e == edits[0] || e in edits[1..];
  }

  lemma {:induction false} NothingEdited(lines: seq<string>, k: nat)
    requires k <= |lines|
    ensures LineByLine(lines, [], k) == lines[k..]
    decreases |lines| - k
  {
    if k < |lines| {
      NothingEdited(lines, k + 1);
      assert lines[k..] == [lines[k]] + lines[k + 1..];
    }
  }

  /** Nothing is put in front of the first placement. */
  lemma {:induction false} BeforeFirst(s: seq<Placement>, k: nat)
    requires s != [] && Apart(s) && k < s[0].start
    ensures TextAt(EditsOf(s), k, true) == [] && TextAt(EditsOf(s), k, false) == [] && !Covered(EditsOf(s), k)
  {
    hide TextAt, EditsOf;
    EditsAt(s);
    forall e | e in EditsOf(s) ensures e.start > k {
      var i :| 0 <= i < |s| && EditOf(s[i]) == e;
    }
    NoText(EditsOf(s), k, true);
    NoText(EditsOf(s), k, false);
  }

  /** Inside the first placement nothing is put, and no line stays. */
  lemma {:induction false} InsideFirst(lines: seq<string>, s: seq<Placement>, k: nat)
    requires s != [] && Apart(s) && s[0].start < k <= s[0].end <= |lines|
    ensures LineByLine(lines, EditsOf(s), k) == LineByLine(lines, EditsOf(s), s[0].end)
    decreases s[0].end - k
  {
    hide TextAt, EditsOf;
    if k < s[0].end {
      var edits := EditsOf(s);
      EditsAt(s);
      forall e | e in edits ensures e.start != k {
        var i :| 0 <= i < |s| && EditOf(s[i]) == e;
        assert i == 0 || s[0].end <= s[i].start;
      }
      NoText(edits, k, true);
      NoText(edits, k, false);
      assert edits[0] in edits && Covered(edits, k);
      InsideFirst(lines, s, k + 1);
    }
  }

  lemma {:induction false} WeaveLineByLine(lines: seq<string>, s: seq<Placement>, from: nat)
    requires Ordered(s, from, lines) && Apart(s)
    ensures Weave(lines, s, from) == LineByLine(lines, EditsOf(s), from)
    decreases |s|, |lines| - from
  {
    hide LineByLine, TextAt, Covered, EditsOf, Apart;
    if s == [] {
      NothingEdited(lines, from);
      NoEdits();
    } else if from < s[0].start {
      BeforeFirst(s, from);
      WeaveLineByLine(lines, s, from + 1);
      WeaveOneLine(lines, s, from);
      OneLine(lines, EditsOf(s), from);
    } else {
      ApartRest(s);
      WeaveLineByLine(lines, s[1..], s[0].end);
      FirstPut(lines, s);
      assert lines[from..from] == [] && [] + s[0].added == s[0].added;
    }
  }

  lemma NoEdits()
    ensures EditsOf([]) == []
  {
  }

  lemma {:induction false} WeaveOneLine(lines: seq<string>, s: seq<Placement>, from: nat)
    requires s != [] && Ordered(s, from, lines) && from < s[0].start
    ensures Ordered(s, from + 1, lines) && Weave(lines, s, from) == [lines[from]] + Weave(lines, s, from + 1)
  {
    var gap, rest := lines[from + 1..s[0].start], Weave(lines, s[1..], s[0].end);
    assert lines[from..s[0].start] == [lines[from]] + gap;
    assert [lines[from]] + gap + s[0].added + rest == [lines[from]] + (gap + s[0].added + rest);
  }

  lemma {:induction false} ApartRest(s: seq<Placement>)
    requires s != [] && Apart(s)
    ensures Apart(s[1..])
  {
  }

  lemma OneLine(lines: seq<string>, edits: seq<LineEdit>, k: nat)
    requires k < |lines| && TextAt(edits, k, true) == [] && TextAt(edits, k, false) == [] && !Covered(edits, k)
    ensures LineByLine(lines, edits, k) == [lines[k]] + LineByLine(lines, edits, k + 1)
  {
    hide TextAt, Covered;
  }

  /** The first placement's text, and then the rest. */
  lemma {:induction false} FirstPut(lines: seq<string>, s: seq<Placement>)
    requires s != [] && Apart(s) && s[0].end <= |lines|
    ensures LineByLine(lines, EditsOf(s), s[0].start) == s[0].added + LineByLine(lines, EditsOf(s[1..]), s[0].end)
  {
    hide LineByLine, TextAt, Covered, Apart, EditsOf;
    var edits, k := EditsOf(s), s[0].start;
    EditsOfRest(s);
    FirstTexts(s);
    FirstSpan(s);
    if k == s[0].end {
      FirstInserted(lines, edits, k);
    } else {
      InsideFirst(lines, s, k + 1);
      DropFirst(lines, edits, s[0].end);
      FirstReplaced(lines, edits, k);
    }
  }

  lemma {:induction false} FirstSpan(s: seq<Placement>)
    requires s != [] && Apart(s)
    ensures s[0].start <= s[0].end && (s[0].start < s[0].end ==> Covered(EditsOf(s), s[0].start))
  {
    EditsAt(s);
    assert EditsOf(s)[0] in EditsOf(s);
  }

  lemma {:induction false} FirstTexts(s: seq<Placement>)
    requires s != [] && Apart(s)
    ensures var edits, k := EditsOf(s), s[0].start;
            && TextAt(edits, k, k == s[0].end) == s[0].added
            && (k == s[0].end ==> TextAt(edits[1..], k, true) == [])
            && (k < s[0].end ==> TextAt(edits, k, true) == [])
  {
    hide TextAt, EditsOf;
    var edits, k := EditsOf(s), s[0].start;
    EditsAt(s);
    EditsAt(s[1..]);
    EditsOfRest(s);
    forall j | 0 < j < |edits| ensures !StartsAt(edits[j], k, k == s[0].end) {
      assert edits[j] == EditOf(s[j]);
    }
    OneText(edits, k, k == s[0].end, 0);
    if k == s[0].end {
      forall e | e in edits[1..] ensures !StartsAt(e, k, true) {
        var i :| 0 <= i < |s[1..]| && EditOf(s[1..][i]) == e;
        assert s[i + 1] == s[1..][i];
      }
      NoText(edits[1..], k, true);
    } else {
      forall e | e in edits ensures !StartsAt(e, k, true) {
        var i :| 0 <= i < |s| && EditOf(s[i]) == e;
      }
      NoText(edits, k, true);
    }
  }

  lemma {:induction false} FirstInserted(lines: seq<string>, edits: seq<LineEdit>, k: nat)
    requires edits != [] && edits[0].start == edits[0].end == k <= |lines|
    requires TextAt(edits, k, true) == edits[0].lines && TextAt(edits[1..], k, true) == []
    ensures LineByLine(lines, edits, k) == edits[0].lines + LineByLine(lines, edits[1..], k)
  {
    hide TextAt;
    assert TextAt(edits, k, false) == TextAt(edits[1..], k, false) by { NotFirst(edits, k); }
    var later := TextAt(edits[1..], k, false);
    if k < |lines| {
      DropFirst(lines, edits, k + 1);
      assert forall e :: e in edits <==> e == edits[0] || e in edits[1..];
      assert Covered(edits, k) <==> Covered(edits[1..], k);
    }
  }

  lemma {:induction false} NotFirst(edits: seq<LineEdit>, k: nat)
    requires edits != [] && edits[0].start == edits[0].end == k
    ensures TextAt(edits, k, false) == TextAt(edits[1..], k, false)
  {
  }

  lemma {:induction false} FirstReplaced(lines: seq<string>, edits: seq<LineEdit>, k: nat)
    requires edits != [] && edits[0].start == k < edits[0].end <= |lines| && Covered(edits, k)
    requires TextAt(edits, k, true) == [] && TextAt(edits, k, false) == edits[0].lines
    ensures LineByLine(lines, edits, k) == edits[0].lines + LineByLine(lines, edits, k + 1)
  {
    hide TextAt, Covered;
  }

  // Requests.

  lemma PlacedEdits(edits: seq<LineEdit>, lines: seq<string>)
    requires WellFormed(edits) && AllInside(edits, lines)
    ensures EditsOf(PlacementsOf(edits, lines)) == edits
    ensures AllCompatible(PlacementsOf(edits, lines)) <==> AllMayStand(edits)
    ensures forall i | 0 <= i < |edits| :: PlacementsOf(edits, lines)[i].index == i
    ensures forall i | 0 <= i < |edits| :: PlacementsOf(edits, lines)[i].was == lines[edits[i].start..edits[i].end]
  {
    hide EditsOf;
    var ps := PlacementsOf(edits, lines);
    EditsAt(ps);
    assert forall i | 0 <= i < |edits| :: EditsOf(ps)[i] == edits[i];
    assert forall i, j | 0 <= i < j < |edits| :: Compatible(ps[i], ps[j]) <==> MayStand(edits[i], edits[j]);
  }

  lemma {:induction false} SortedEdits(ps: seq<Placement>)
    requires Sane(ps) && AllCompatible(ps)
    ensures var s := Sorted(BySpan, ps);
            Apart(s) && AllMayStand(EditsOf(s)) && forall e :: e in EditsOf(ps) <==> e in EditsOf(s)
  {
    hide Sorted, AllCompatible;
    var s := Sorted(BySpan, ps);
    SameMembers(BySpan, ps);
    SortSorts(BySpan, ps);
    CompatibleEitherWay(ps, s);
    assert Apart(s) && AllMayStand(EditsOf(s)) by { ApartIf(s); }
    forall e ensures e in EditsOf(ps) <==> e in EditsOf(s) {
      SameEdits(ps, s, e);
      SameEdits(s, ps, e);
    }
  }

  lemma {:induction false} ApartIf(s: seq<Placement>)
    requires Sane(s) && InOrder(BySpan, s) && AllCompatible(s)
    ensures Apart(s) && AllMayStand(EditsOf(s))
  {
    EditsAt(s);
    ClearIffCompatible(s);
    forall i, j | 0 <= i < j < |s|
      ensures s[i].end <= s[j].start && (s[i].start == s[j].start ==> s[i].start == s[i].end && s[j].start < s[j].end)
      ensures MayStand(EditsOf(s)[i], EditsOf(s)[j])
    {
      ClearAcross(s, i, j);
      assert s[j] in s;
    }
    assert forall i | 0 <= i < |s| :: s[i] in s;
  }

  lemma SameEdits(ps: seq<Placement>, qs: seq<Placement>, e: LineEdit)
    requires forall p | p in ps :: p in qs
    ensures e in EditsOf(ps) ==> e in EditsOf(qs)
  {
    EditsAt(ps);
    EditsAt(qs);
    if e in EditsOf(ps) {
      var i :| 0 <= i < |ps| && EditOf(ps[i]) == e;
      assert ps[i] in qs;
      var j :| 0 <= j < |qs| && qs[j] == ps[i];
      assert EditsOf(qs)[j] == e;
    }
  }

  /** Sorting neither adds nor drops edits that change something. */
  lemma {:induction false} ChangingInserted(s: seq<Placement>, p: Placement)
    ensures |Changing(InsertLast(BySpan, s, p))| == |Changing(s)| + if p.was != p.added then 1 else 0
  {
    hide AtOrBefore, Changing;
    if s != [] && !AtOrBefore(BySpan, s[|s| - 1], p) {
      var init := s[..|s| - 1];
      ChangingInserted(init, p);
      ChangingPlus(InsertLast(BySpan, init, p), s[|s| - 1]);
      ChangingPlus(init, s[|s| - 1]);
      assert s == init + [s[|s| - 1]];
    } else {
      ChangingPlus(s, p);
    }
  }

  lemma {:induction false} ChangingPlus(s: seq<Placement>, p: Placement)
    ensures |Changing(s + [p])| == |Changing(s)| + if p.was != p.added then 1 else 0
  {
    if s == [] {
      assert s + [p] == [p] && [p][1..] == [];
    } else {
      assert (s + [p])[0] == s[0] && (s + [p])[1..] == s[1..] + [p];
      ChangingPlus(s[1..], p);
    }
  }

  /** Every edit changes something or is reported as applied already. */
  lemma {:induction false} IdleAndChanging(ps: seq<Placement>)
    ensures |Idle(ps)| + |Changing(Sorted(BySpan, ps))| == |ps|
  {
    hide Changing, AtOrBefore, InsertLast;
    if ps == [] {
      NothingChanging();
    } else {
      IdleAndChanging(ps[..|ps| - 1]);
      ChangingInserted(Sorted(BySpan, ps[..|ps| - 1]), ps[|ps| - 1]);
    }
  }

  lemma NothingChanging()
    ensures Changing([]) == []
  {
  }

  lemma {:induction false} CollisionAt(s: seq<Placement>, i: nat) returns (k: nat)
    requires (i < |s| || s == []) && FirstCollision(s, i).Some?
    ensures i <= k < |s| - 1 && Collide(s[k], s[k + 1]) && FirstCollision(s, i) == Some((s[k].index, s[k + 1].index))
    decreases |s| - i
  {
    if Collide(s[i], s[i + 1]) {
      k := i;
    } else {
      k := CollisionAt(s, i + 1);
    }
  }

  lemma CollideMeans(p: Placement, q: Placement)
    requires p.start <= p.end && q.start <= q.end && AtOrBefore(BySpan, p, q) && Collide(p, q)
    ensures !MayStand(EditOf(p), EditOf(q))
  {
  }

  /** The two edits an overlap names do collide. */
  lemma PairCollides(edits: seq<LineEdit>, lines: seq<string>, first: nat, second: nat)
    requires WellFormed(edits) && AllInside(edits, lines)
    requires FirstCollision(Sorted(BySpan, PlacementsOf(edits, lines)), 0) == Some((first, second))
    ensures first < |edits| && second < |edits| && first != second && !MayStand(edits[first], edits[second])
  {
    hide Sorted, Collide, AtOrBefore, FirstCollision;
    var ps := PlacementsOf(edits, lines);
    var s := Sorted(BySpan, ps);
    SameMembers(BySpan, ps);
    SortSorts(BySpan, ps);
    SortKeepsTies(BySpan, ps);
    var k := CollisionAt(s, 0);
    assert s[k] in s && s[k + 1] in s;
    var i :| 0 <= i < |ps| && ps[i] == s[k];
    var j :| 0 <= j < |ps| && ps[j] == s[k + 1];
    assert edits[i] in edits && edits[j] in edits;
    CollideMeans(s[k], s[k + 1]);
    AtOrBeforeItself(s[k]);
  }

  lemma AtOrBeforeItself(p: Placement)
    ensures AtOrBefore(BySpan, p, p)
  {
  }

  /** The file and the report of an accepted request. */
  lemma AcceptedMeans(content: string, edits: seq<LineEdit>, r: Result<LineEdits.Outcome, EditError>)
    requires WellFormed(edits) && Edited(content, edits, r) && r.Ok?
    ensures var lines := LinesOf(content);
            && AllInside(edits, lines) && AllMayStand(edits)
            && r.value.content == Rewritten(content, LineByLine(lines, edits, 0))
            && |r.value.already| + r.value.applied == |edits|
            && forall i: nat :: i in r.value.already <==>
                 i < |edits| && edits[i].lines == lines[edits[i].start..edits[i].end]
  {
    hide Sorted, FirstCollision, AllCompatible, Lies, Ordered, Weave, Ranges, Rewritten, LinesOf, Changing, Idle,
      LineByLine, AllMayStand;
    var lines := LinesOf(content);
    EditedIff(content, edits, r);
    var ps := PlacementsOf(edits, lines);
    PlacedEdits(edits, lines);
    PlacementsLie(edits, lines);
    var s := Sorted(BySpan, ps);
    SortedEdits(ps);
    SortedLies(ps, lines);
    WeaveLineByLine(lines, s, 0);
    IdleAndChanging(ps);
    SameLines(lines, edits, EditsOf(s), 0);
    forall i: nat ensures i in Idle(ps) <==> i < |edits| && edits[i].lines == lines[edits[i].start..edits[i].end] {
      IdleAreUnchanged(ps, i);
      if i < |edits| { assert ps[i] in ps; }
    }
  }

  lemma RefusedMeans(content: string, edits: seq<LineEdit>, r: Result<LineEdits.Outcome, EditError>)
    requires WellFormed(edits) && Edited(content, edits, r) && r.Err?
    ensures var lines := LinesOf(content);
            if AllInside(edits, lines) then
              && !AllMayStand(edits)
              && r.error.EditsOverlap? && r.error.first < |edits| && r.error.second < |edits|
              && r.error.first != r.error.second && !MayStand(edits[r.error.first], edits[r.error.second])
            else r.error.PastTheEnd? && FirstOutside(edits, lines, r.error.edit)
  {
    hide Sorted, FirstCollision, AllCompatible, Lies, Ordered, Weave, Ranges, Rewritten, LinesOf, Changing, Idle,
      AllMayStand, MayStand;
    var lines := LinesOf(content);
    EditedIff(content, edits, r);
    if AllInside(edits, lines) {
      PlacedEdits(edits, lines);
      PairCollides(edits, lines, r.error.first, r.error.second);
    }
  }

  /** A request is accepted exactly if every edit lies inside the file and no two share a line or a point of
      insertion. Then the file is rewritten line by line, and the edits reported as applied already are those whose
      text was there; otherwise the error names the first edit that does not lie inside, or two that collide. */
  lemma RequestMeans(content: string, edits: seq<LineEdit>, r: Result<LineEdits.Outcome, EditError>)
    requires WellFormed(edits) && Edited(content, edits, r)
    ensures var lines := LinesOf(content);
            && (r.Ok? <==> AllInside(edits, lines) && AllMayStand(edits))
            && (r.Ok? ==>
                  && r.value.content == Rewritten(content, LineByLine(lines, edits, 0))
                  && |r.value.already| + r.value.applied == |edits|
                  && forall i: nat :: i in r.value.already <==>
                       i < |edits| && edits[i].lines == lines[edits[i].start..edits[i].end])
            && (r.Err? && !AllInside(edits, lines) ==> r.error.PastTheEnd? && FirstOutside(edits, lines, r.error.edit))
            && (r.Err? && AllInside(edits, lines) ==>
                  && r.error.EditsOverlap? && r.error.first < |edits| && r.error.second < |edits|
                  && r.error.first != r.error.second && !MayStand(edits[r.error.first], edits[r.error.second]))
  {
    hide Rewritten, LinesOf, LineByLine, AllMayStand, MayStand, FirstOutside, Edited;
    if r.Ok? {
      AcceptedMeans(content, edits, r);
    } else {
      RefusedMeans(content, edits, r);
    }
  }

  /** One edit by itself. */
  lemma OneEditMeans(content: string, e: LineEdit, r: Result<LineEdits.Outcome, EditError>)
    requires e.start <= e.end && Edited(content, [e], r)
    ensures r.Ok? <==> e.end <= |LinesOf(content)|
    ensures r.Ok? ==>
              var lines := LinesOf(content);
              r.value.content == Rewritten(content, lines[..e.start] + e.lines + lines[e.end..])
  {
    hide Rewritten, LinesOf, LineByLine, Edited;
    RequestMeans(content, [e], r);
    if r.Ok? {
      var lines := LinesOf(content);
      var p := PlacementOf(e, 0, lines);
      assert AllInside([e], lines);
      assert EditsOf([p]) == [e] by { PlacedEdits([e], lines); }
      assert Ordered([p], 0, lines) && Weave(lines, [p], 0) == lines[0..e.start] + e.lines + lines[e.end..] by {
        assert [p][1..] == [];
      }
      WeaveLineByLine(lines, [p], 0);
      assert lines[0..e.start] == lines[..e.start];
    }
  }
}
