/** What the search for one hunk comes to, whatever it comes to: said of the file's lines and the hunk's, without
    the functions that search. */
module Searches {
  import opened Options
  import opened Spans
  import opened Matching
  import opened Indents
  import opened Locating
  import opened Aligning

  /** The lines from c on are these, up to the whitespace the grade tolerates. */
  ghost predicate StandsAt(lines: seq<string>, needle: seq<string>, grade: Grade, c: nat) {
    c + |needle| <= |lines| && forall k | 0 <= k < |needle| :: SameButSpace(grade, lines[c + k], needle[k])
  }

  ghost predicate Nowhere(lines: seq<string>, needle: seq<string>, grade: Grade, start: nat) {
    forall c: nat | start <= c :: !StandsAt(lines, needle, grade, c)
  }

  /** The search begins at the cursor, or right behind the anchor: the first line from the cursor on that is the
      anchor at the strictest grade at which any line is. */
  ghost predicate Begins(lines: seq<string>, h: ParsedHunk, cursor: nat, start: nat) {
    match h.scope
    case None => start == cursor
    case Some(scope) => cursor < start <= |lines| && Anchored(lines, scope, cursor, start - 1)
  }

  ghost predicate Anchored(lines: seq<string>, scope: string, cursor: nat, a: nat) {
    exists g | 0 <= g < 3 :: AnchorAt(lines, scope, cursor, a, g)
  }

  ghost predicate AnchorAt(lines: seq<string>, scope: string, cursor: nat, a: nat, g: nat)
    requires g < 3
  {
    && StandsAt(lines, [scope], GRADES[g], a)
    && (forall c: nat | cursor <= c < a :: !StandsAt(lines, [scope], GRADES[g], c))
    && forall k | 0 <= k < g :: Nowhere(lines, [scope], GRADES[k], cursor)
  }

  /** The context stands there and nowhere else; under an end-of-file mark, nowhere else that reaches the end. */
  ghost predicate OnlyAt(lines: seq<string>, h: ParsedHunk, grade: Grade, start: nat, at: nat) {
    && start <= at && StandsAt(lines, h.before, grade, at)
    && forall c: nat | start <= c && c != at && StandsAt(lines, h.before, grade, c) ::
         h.eofAnchor && at + |h.before| >= EofIndex(lines) && c + |h.before| < EofIndex(lines)
  }

  /** All lines of context that are not blank differ from the file's by the same indent. */
  ghost predicate IndentsAgree(lines: seq<string>, h: ParsedHunk, at: nat) {
    at + |h.before| <= |lines| && AgreeOnOne(lines[at..at + |h.before|], h.before)
  }

  ghost predicate AgreeOnOne(actual: seq<string>, expected: seq<string>)
    requires |actual| == |expected|
  {
    exists d :: Agreed(actual, expected, |actual|, d)
  }

  ghost predicate AcceptedAt(lines: seq<string>, h: ParsedHunk, start: nat, g: nat, at: nat)
    requires g < 3
  {
    && OnlyAt(lines, h, GRADES[g], start, at)
    && (forall k | 0 <= k < g :: Nowhere(lines, h.before, GRADES[k], start))
    && (g == 2 ==> IndentsAgree(lines, h, at))
  }

  /** The context stands somewhere, at the strictest grade it does, and not in one place only. */
  ghost predicate Several(lines: seq<string>, h: ParsedHunk, start: nat, g: nat)
    requires g < 3
  {
    && !Nowhere(lines, h.before, GRADES[g], start)
    && (forall at: nat :: !OnlyAt(lines, h, GRADES[g], start, at))
    && forall k | 0 <= k < g :: Nowhere(lines, h.before, GRADES[k], start)
  }

  /** The context is nowhere, or in one place only but with indents that disagree. */
  ghost predicate Missing(lines: seq<string>, h: ParsedHunk, start: nat) {
    && Nowhere(lines, h.before, Exact, start) && Nowhere(lines, h.before, TrailingWs, start)
    && (Nowhere(lines, h.before, Indent, start)
        || exists at: nat :: OnlyAt(lines, h, Indent, start, at) && !IndentsAgree(lines, h, at))
  }

  /** The hunk's result stands there, and under an end-of-file mark reaches the end. */
  ghost predicate ResultAt(lines: seq<string>, h: ParsedHunk, grade: Grade, start: nat, c: nat) {
    start <= c && StandsAt(lines, h.after, grade, c) && (h.eofAnchor ==> c + |h.after| >= EofIndex(lines))
  }

  ghost predicate ResultOnlyAt(lines: seq<string>, h: ParsedHunk, grade: Grade, start: nat, at: nat) {
    ResultAt(lines, h, grade, start, at) && forall c: nat | ResultAt(lines, h, grade, start, c) :: c == at
  }

  /** The hunk was applied already: it changes something and leaves something, not all of it blank, of more than one
      line or with a line of context; and that stands in one place only, at the strictest grade at which it does. */
  ghost predicate AppliedAt(lines: seq<string>, h: ParsedHunk, start: nat, at: nat) {
    && h.before != h.after && h.after != [] && !AllBlank(h.after)
    && (|h.after| >= 2 || exists j | 0 <= j < |h.sources| :: h.sources[j].Some?)
    && (ResultOnlyAt(lines, h, Exact, start, at)
        || ((forall c: nat :: !ResultAt(lines, h, Exact, start, c)) && ResultOnlyAt(lines, h, TrailingWs, start, at)))
  }

  /** What the search from one point on comes to. */
  ghost predicate Found(lines: seq<string>, h: ParsedHunk, index: nat, start: nat, r: Result<Located, Failure>) {
    match r
    case Ok(Located(Some(p), next)) =>
      next == p.end && exists g | 0 <= g < 3 :: p.quality == GRADES[g] && AcceptedAt(lines, h, start, g, p.start)
    case Ok(Located(None, next)) =>
      Missing(lines, h, start) && next >= |h.after| && AppliedAt(lines, h, start, next - |h.after|)
    case Err(ContextAmbiguous(i)) => i == index && exists g | 0 <= g < 3 :: Several(lines, h, start, g)
    case Err(ContextNotFound(i)) =>
      i == index && Missing(lines, h, start) && forall at: nat :: !AppliedAt(lines, h, start, at)
    case _ => false
  }

  /** What the search for a hunk comes to. */
  ghost predicate Outcome(lines: seq<string>, h: ParsedHunk, index: nat, cursor: nat, r: Result<Located, Failure>) {
    if r == Err(AnchorNotFound(index)) then
      h.scope.Some? && forall g | 0 <= g < 3 :: Nowhere(lines, [h.scope.value], GRADES[g], cursor)
    else
      exists start: nat ::
        && Begins(lines, h, cursor, start)
        && if h.before == [] then r == Ok(Located(Some(Appended(lines, h, index)), start))
           else Found(lines, h, index, start, r)
  }

  // In terms of the functions that search.

  lemma MatchesIff(lines: seq<string>, needle: seq<string>, grade: Grade, c: nat)
    ensures MatchesAt(lines, needle, grade, c) <==> StandsAt(lines, needle, grade, c)
  {
    hide Key, SameButSpace;
    if c + |needle| <= |lines| {
      forall k | 0 <= k < |needle|
        ensures Key(grade, lines[c + k]) == Key(grade, needle[k]) <==> SameButSpace(grade, lines[c + k], needle[k])
      {
        KeysMeet(grade, lines[c + k], needle[k]);
      }
    }
  }

  lemma NoneIff(lines: seq<string>, needle: seq<string>, grade: Grade, start: nat)
    ensures NoneAt(lines, needle, grade, start) <==> Nowhere(lines, needle, grade, start)
  {
    hide MatchesAt, StandsAt;
    forall c: nat ensures MatchesAt(lines, needle, grade, c) <==> StandsAt(lines, needle, grade, c) {
      MatchesIff(lines, needle, grade, c);
    }
  }

  lemma SoleIff(lines: seq<string>, h: ParsedHunk, grade: Grade, start: nat, at: nat)
    ensures Sole(lines, h, grade, start, at) <==> OnlyAt(lines, h, grade, start, at)
  {
    hide MatchesAt, StandsAt, EofIndex;
    forall c: nat ensures MatchesAt(lines, h.before, grade, c) <==> StandsAt(lines, h.before, grade, c) {
      MatchesIff(lines, h.before, grade, c);
    }
  }

  lemma ShiftIff(lines: seq<string>, h: ParsedHunk, grade: Grade, at: nat)
    requires at + |h.before| <= |lines|
    ensures ShiftFor(lines, at, h, grade).Some? <==> (grade == Indent ==> IndentsAgree(lines, h, at))
  {
    hide Agreed, IndentDelta;
    var actual, n := lines[at..at + |h.before|], |h.before|;
    if IndentDelta(actual, h.before, n).Some? {
      IndentDeltaIffAgreed(actual, h.before, n, IndentDelta(actual, h.before, n).value);
    }
    forall d | Agreed(actual, h.before, n, d) ensures IndentDelta(actual, h.before, n) == Some(d) {
      IndentDeltaIffAgreed(actual, h.before, n, d);
    }
  }

  lemma StandsIff(lines: seq<string>, h: ParsedHunk, grade: Grade, start: nat, at: nat)
    ensures Stands(lines, h, grade, start, at) <==> ResultAt(lines, h, grade, start, at)
    ensures StandsOnlyAt(lines, h, grade, start, at) <==> ResultOnlyAt(lines, h, grade, start, at)
    ensures (forall c: nat :: !Stands(lines, h, grade, start, c)) <==>
              forall c: nat :: !ResultAt(lines, h, grade, start, c)
  {
    hide MatchesAt, StandsAt, EofIndex;
    forall c: nat ensures Stands(lines, h, grade, start, c) <==> ResultAt(lines, h, grade, start, c) {
      MatchesIff(lines, h.after, grade, c);
    }
  }

  lemma EvidenceIff(h: ParsedHunk)
    ensures CanBeEvidence(h) <==>
              && h.before != h.after && h.after != [] && !AllBlank(h.after)
              && (|h.after| >= 2 || exists j | 0 <= j < |h.sources| :: h.sources[j].Some?)
  {
    hide Strip;
    if !AllBlank(h.after) {
      var k :| 0 <= k < |h.after| && Strip(h.after[k]) != "";
      assert h.after[k] in h.after;
    }
    if j :| 0 <= j < |h.sources| && h.sources[j].Some? {
      assert h.sources[j] in h.sources;
    }
  }

  lemma AppliedIff(lines: seq<string>, h: ParsedHunk, start: nat, at: nat)
    ensures AppliedAt(lines, h, start, at) <==> CanBeEvidence(h) && AlreadyFrom(lines, h, start, 0) == Some(at)
  {
    hide Stands, StandsOnlyAt, ResultAt, ResultOnlyAt, AlreadyFrom, CanBeEvidence;
    EvidenceIff(h);
    StandsIff(lines, h, Exact, start, at);
    StandsIff(lines, h, TrailingWs, start, at);
    if h.after != [] { AlreadyIff(lines, h, start, at); }
  }

  /** What the candidates of one grade say. */
  lemma CandidatesMean(lines: seq<string>, h: ParsedHunk, grade: Grade, start: nat)
    requires h.before != []
    ensures var selected := Selected(lines, h, grade, start);
            && (selected == [] <==> Nowhere(lines, h.before, grade, start))
            && (|selected| == 1 ==>
                  OnlyAt(lines, h, grade, start, selected[0]) && selected[0] + |h.before| <= |lines|)
            && (|selected| > 1 ==> forall at: nat :: !OnlyAt(lines, h, grade, start, at))
  {
    hide MatchesAt, FindAll, Sole, NoneAt, Nowhere, OnlyAt, Selected;
    var selected := Selected(lines, h, grade, start);
    SelectedNone(lines, h, grade, start);
    NoneIff(lines, h.before, grade, start);
    SelectedIffSole(lines, h, grade, start, 0);
    if |selected| == 1 {
      assert selected == [selected[0]];
      SelectedIffSole(lines, h, grade, start, selected[0]);
      SoleIff(lines, h, grade, start, selected[0]);
      SelectedFits(lines, h, grade, start, selected[0]);
      MatchFits(lines, h.before, grade, selected[0]);
    }
    forall at: nat | |selected| > 1 ensures !OnlyAt(lines, h, grade, start, at) {
      SelectedIffSole(lines, h, grade, start, at);
      SoleIff(lines, h, grade, start, at);
    }
  }

  /** At the end of the grades. */
  lemma NotPlaced(lines: seq<string>, h: ParsedHunk, index: nat, start: nat)
    requires h.WellFormed() && h.before != [] && Missing(lines, h, start)
    ensures Found(lines, h, index, start, LocateFrom(lines, h, index, start, 3))
  {
    hide Missing, AppliedAt, CanBeEvidence, AlreadyFrom, ParsedHunk.WellFormed;
    var already := AlreadyFrom(lines, h, start, 0);
    if CanBeEvidence(h) && already.Some? {
      AppliedIff(lines, h, start, already.value);
    } else {
      forall at: nat ensures !AppliedAt(lines, h, start, at) {
        AppliedIff(lines, h, start, at);
      }
    }
  }

  /** From grade number g on, if no stricter one has a match. */
  lemma {:induction false} GradesMean(lines: seq<string>, h: ParsedHunk, index: nat, start: nat, g: nat)
    requires h.WellFormed() && h.before != [] && g < 3
    requires forall k | 0 <= k < g :: Nowhere(lines, h.before, GRADES[k], start)
    ensures Found(lines, h, index, start, LocateFrom(lines, h, index, start, g))
    decreases 3 - g
  {
    hide Selected, ShiftFor, Rebuilt, Nowhere, OnlyAt, IndentsAgree, AppliedAt, AlreadyFrom, CanBeEvidence,
      ParsedHunk.WellFormed, EofIndex;
    var selected := Selected(lines, h, GRADES[g], start);
    CandidatesMean(lines, h, GRADES[g], start);
    if |selected| == 0 {
      if g < 2 {
        GradesMean(lines, h, index, start, g + 1);
      } else {
        assert GRADES[0] == Exact && GRADES[1] == TrailingWs && GRADES[2] == Indent;
        NotPlaced(lines, h, index, start);
      }
    } else if |selected| > 1 {
      assert Several(lines, h, start, g);
    } else {
      var at := selected[0];
      ShiftIff(lines, h, GRADES[g], at);
      if ShiftFor(lines, at, h, GRADES[g]).Some? {
        assert AcceptedAt(lines, h, start, g, at);
      } else {
        assert g == 2 && GRADES[0] == Exact && GRADES[1] == TrailingWs && GRADES[2] == Indent;
        NotPlaced(lines, h, index, start);
      }
    }
  }

  lemma AnchorMeans(lines: seq<string>, h: ParsedHunk, cursor: nat)
    ensures match SearchStart(lines, h, cursor)
            case Some(start) => Begins(lines, h, cursor, start)
            case None =>
              h.scope.Some? && forall g | 0 <= g < 3 :: Nowhere(lines, [h.scope.value], GRADES[g], cursor)
  {
    hide MatchesAt, StandsAt, NoneAt, Nowhere, AnchorFrom;
    if h.scope.Some? {
      var scope := h.scope.value;
      AnchorIsFirst(lines, scope, cursor, 0);
      forall g | 0 <= g < 3 ensures NoneAt(lines, [scope], GRADES[g], cursor) <==>
        Nowhere(lines, [scope], GRADES[g], cursor)
      {
        NoneIff(lines, [scope], GRADES[g], cursor);
      }
      var anchor := AnchorFrom(lines, scope, cursor, 0);
      if anchor.Some? {
        var a := anchor.value;
        var k :| 0 <= k < 3 && FirstMatch(lines, scope, cursor, a, 0, k);
        forall c: nat ensures MatchesAt(lines, [scope], GRADES[k], c) <==> StandsAt(lines, [scope], GRADES[k], c) {
          MatchesIff(lines, [scope], GRADES[k], c);
        }
        assert AnchorAt(lines, scope, cursor, a, k);
        assert Anchored(lines, scope, cursor, a);
      }
    }
  }

  /** The search for any hunk in any file comes to exactly one of these outcomes, and is right in saying which: the
      anchor is nowhere; the hunk has no context and is appended; its context is accepted, with the place and the
      grade; it is in several places; it is missing and the hunk was applied already; it is missing. */
  lemma LocateMeans(lines: seq<string>, h: ParsedHunk, index: nat, cursor: nat)
    requires h.WellFormed()
    ensures Outcome(lines, h, index, cursor, Locate(lines, h, index, cursor))
  {
    hide SearchStart, Begins, LocateFrom, Nowhere, Found, ParsedHunk.WellFormed;
    AnchorMeans(lines, h, cursor);
    var start := SearchStart(lines, h, cursor);
    if start.Some? {
      assert Begins(lines, h, cursor, start.value);
      if h.before != [] {
        GradesMean(lines, h, index, start.value, 0);
        NoAnchorError(lines, h, index, start.value, LocateFrom(lines, h, index, start.value, 0));
      }
    }
  }

  lemma NoAnchorError(lines: seq<string>, h: ParsedHunk, index: nat, start: nat, r: Result<Located, Failure>)
    requires Found(lines, h, index, start, r)
    ensures r != Err(AnchorNotFound(index))
  {
  }

  /** Where the search begins is settled. */
  lemma BeginsOnce(lines: seq<string>, h: ParsedHunk, cursor: nat, start: nat, other: nat)
    requires Begins(lines, h, cursor, start) && Begins(lines, h, cursor, other)
    ensures start == other
  {
    hide StandsAt;
    if h.scope.Some? {
      var a, b := start - 1, other - 1;
      var g :| 0 <= g < 3 && AnchorAt(lines, h.scope.value, cursor, a, g);
      var k :| 0 <= k < 3 && AnchorAt(lines, h.scope.value, cursor, b, k);
    }
  }

  lemma AcceptedOnce(lines: seq<string>, h: ParsedHunk, start: nat, g: nat, at: nat, k: nat, other: nat)
    requires g < 3 && k < 3 && AcceptedAt(lines, h, start, g, at) && AcceptedAt(lines, h, start, k, other)
    ensures g == k && at == other
  {
    hide StandsAt, EofIndex, IndentsAgree;
  }

  lemma AcceptedExcludes(lines: seq<string>, h: ParsedHunk, start: nat, g: nat, at: nat)
    requires g < 3 && AcceptedAt(lines, h, start, g, at)
    ensures !Missing(lines, h, start) && forall k | 0 <= k < 3 :: !Several(lines, h, start, k)
  {
    hide StandsAt, EofIndex, IndentsAgree;
    assert !Nowhere(lines, h.before, GRADES[g], start);
  }

  lemma SeveralExcludes(lines: seq<string>, h: ParsedHunk, start: nat, g: nat)
    requires g < 3 && Several(lines, h, start, g)
    ensures !Missing(lines, h, start)
  {
    hide StandsAt, EofIndex, IndentsAgree, Nowhere, OnlyAt;
    assert GRADES[0] == Exact && GRADES[1] == TrailingWs && GRADES[2] == Indent;
  }

  lemma AppliedOnce(lines: seq<string>, h: ParsedHunk, start: nat, at: nat, other: nat)
    requires AppliedAt(lines, h, start, at) && AppliedAt(lines, h, start, other)
    ensures at == other
  {
    hide ResultAt;
  }

  /** And so is what is found from there: the outcomes exclude one another, and each has one place. */
  lemma FoundOnce(lines: seq<string>, h: ParsedHunk, index: nat, start: nat, r: Result<Located, Failure>,
          q: Result<Located, Failure>)
    requires Found(lines, h, index, start, r) && Found(lines, h, index, start, q)
    ensures match (r, q)
            case (Ok(a), Ok(b)) =>
              && (a.placement.Some? <==> b.placement.Some?)
              && (a.placement.Some? ==>
                    a.placement.value.start == b.placement.value.start
                    && a.placement.value.quality == b.placement.value.quality)
              && (a.placement.None? ==> a == b)
            case (Err(e), Err(f)) => e == f
            case _ => false
  {
    hide AcceptedAt, Several, Missing, AppliedAt;
    forall g, at: nat | 0 <= g < 3 && AcceptedAt(lines, h, start, g, at)
      ensures !Missing(lines, h, start) && forall k | 0 <= k < 3 :: !Several(lines, h, start, k)
    {
      AcceptedExcludes(lines, h, start, g, at);
    }
    forall g | 0 <= g < 3 && Several(lines, h, start, g) ensures !Missing(lines, h, start) {
      SeveralExcludes(lines, h, start, g);
    }
    forall at: nat, other: nat | AppliedAt(lines, h, start, at) && AppliedAt(lines, h, start, other)
      ensures at == other
    {
      AppliedOnce(lines, h, start, at, other);
    }
    forall g, k, at: nat, other: nat |
      0 <= g < 3 && 0 <= k < 3 && AcceptedAt(lines, h, start, g, at) && AcceptedAt(lines, h, start, k, other)
      ensures g == k && at == other
    {
      AcceptedOnce(lines, h, start, g, at, k, other);
    }
  }
}
