/** Placing one hunk: the forward search for its context, the text it is given there, and the
    evidence that it was applied before. */
module Locating {
  import opened Options
  import opened Spans
  import opened Matching

  /** What one hunk comes to: a placement, or nothing because it is there already; and where the
      search for the next hunk begins. */
  datatype Located = Located(placement: Option<Placement>, cursor: nat)

  /** Whether finding the whole result in the file is evidence that the hunk was applied. */
  predicate CanBeEvidence(h: ParsedHunk) {
    && h.before != h.after && h.after != []
    && (exists line | line in h.after :: Strip(line) != "")
    && ((exists s | s in h.sources :: s.Some?) || |h.after| >= 2)
  }

  function Standing(lines: seq<string>, h: ParsedHunk, grade: Grade, start: nat): seq<nat> {
    var candidates := FindAll(lines, h.after, grade, start);
    if h.eofAnchor then AtEof(lines, candidates, |h.after|) else candidates
  }

  /** The loop of _already_applied over the two strict grades, from number `g` on. */
  function AlreadyFrom(lines: seq<string>, h: ParsedHunk, start: nat, g: nat): Option<nat>
    requires g <= 2
    decreases 2 - g
  {
    if g == 2 then None
    else
      var selected := Standing(lines, h, GRADES[g], start);
      if |selected| == 1 then Some(selected[0])
      else if selected != [] then None
      else AlreadyFrom(lines, h, start, g + 1)
  }

  method AlreadyApplied(lines: seq<string>, h: ParsedHunk, start: nat) returns (r: Option<nat>)
    ensures r == if CanBeEvidence(h) then AlreadyFrom(lines, h, start, 0) else None
  {
    hide Standing;
    if !CanBeEvidence(h) { return None; }
    var g := 0;
    while g < 2
      invariant g <= 2 && AlreadyFrom(lines, h, start, 0) == AlreadyFrom(lines, h, start, g)
    {
      var selected := Standing(lines, h, GRADES[g], start);
      if |selected| == 1 { return Some(selected[0]); }
      if selected != [] { return None; }
      g := g + 1;
    }
    r := None;
  }

  /** The hunk's result stands at `c`, reaching the end of the file if the hunk says it does. */
  ghost predicate Stands(lines: seq<string>, h: ParsedHunk, grade: Grade, start: nat, c: nat) {
    start <= c && MatchesAt(lines, h.after, grade, c) && (h.eofAnchor ==> c + |h.after| >= EofIndex(lines))
  }

  ghost predicate StandsOnlyAt(lines: seq<string>, h: ParsedHunk, grade: Grade, start: nat, at: nat) {
    Stands(lines, h, grade, start, at) && forall c: nat | Stands(lines, h, grade, start, c) :: c == at
  }

  lemma StandingIff(lines: seq<string>, h: ParsedHunk, grade: Grade, start: nat, at: nat)
    requires h.after != []
    ensures Standing(lines, h, grade, start) == [at] <==> StandsOnlyAt(lines, h, grade, start, at)
    ensures Standing(lines, h, grade, start) == [] <==> forall c: nat :: !Stands(lines, h, grade, start, c)
  {
    hide FindAll, MatchesAt, EofIndex;
    var candidates := FindAll(lines, h.after, grade, start);
    FindsAll(lines, h.after, grade, start);
    AtEofAscending(lines, candidates, |h.after|);
    var standing := Standing(lines, h, grade, start);
    Singleton(standing, at);
    assert forall c: nat :: c in standing <==> Stands(lines, h, grade, start, c);
    assert standing != [] ==> standing[0] in standing;
  }

  /** A miss counts as "already applied" exactly when the whole result, indentation included,
      stands in one place only from the search point on. */
  lemma AlreadyIff(lines: seq<string>, h: ParsedHunk, start: nat, at: nat)
    requires h.after != []
    ensures AlreadyFrom(lines, h, start, 0) == Some(at) <==>
            || StandsOnlyAt(lines, h, Exact, start, at)
            || ((forall c: nat :: !Stands(lines, h, Exact, start, c)) && StandsOnlyAt(lines, h, TrailingWs, start, at))
  {
    hide Standing, Stands, StandsOnlyAt;
    StandingIff(lines, h, Exact, start, at);
    StandingIff(lines, h, TrailingWs, start, at);
    var first, second := Standing(lines, h, GRADES[0], start), Standing(lines, h, GRADES[1], start);
    assert |first| == 1 ==> first == [first[0]];
    assert |second| == 1 ==> second == [second[0]];
    assert AlreadyFrom(lines, h, start, 2) == None;
    if StandsOnlyAt(lines, h, Exact, start, at) {
      assert first == [at];
    }
  }

  /** The grade loop of _locate_hunk, from grade number `g` on. */
  function LocateFrom(lines: seq<string>, h: ParsedHunk, index: nat, start: nat, g: nat): Result<Located, Failure>
    requires g <= 3 && h.WellFormed()
    decreases 3 - g
  {
    if g == 3 then
      match if CanBeEvidence(h) then AlreadyFrom(lines, h, start, 0) else None
      case Some(at) => Ok(Located(None, at + |h.after|))
      case None => Err(ContextNotFound(index))
    else
      var selected := Selected(lines, h, GRADES[g], start);
      if |selected| == 0 then LocateFrom(lines, h, index, start, g + 1)
      else if |selected| > 1 then Err(ContextAmbiguous(index))
      else
        match PlaceAt(lines, h, index, GRADES[g], selected[0])
        case None => LocateFrom(lines, h, index, start, g + 1)
        case Some(p) => Ok(Located(Some(p), p.end))
  }

  function PlaceAt(lines: seq<string>, h: ParsedHunk, index: nat, grade: Grade, at: nat): Option<Placement>
    requires h.WellFormed()
  {
    if at + |h.before| > |lines| then None
    else
      match ShiftFor(lines, at, h, grade)
      case None => None
      case Some(shift) =>
        Some(Placement(index, at, at + |h.before|, Rebuilt(lines, at, h, shift, |h.after|), grade,
          lines[at..at + |h.before|]))
  }

  function SearchStart(lines: seq<string>, h: ParsedHunk, cursor: nat): Option<nat> {
    if h.scope == None then Some(cursor)
    else
      match AnchorFrom(lines, h.scope.value, cursor, 0)
      case None => None
      case Some(a) => Some(a + 1)
  }

  function Appended(lines: seq<string>, h: ParsedHunk, index: nat): Placement {
    Placement(index, EofIndex(lines), EofIndex(lines), h.after, Exact, [])
  }

  function Locate(lines: seq<string>, h: ParsedHunk, index: nat, cursor: nat): Result<Located, Failure>
    requires h.WellFormed()
  {
    match SearchStart(lines, h, cursor)
    case None => Err(AnchorNotFound(index))
    case Some(start) =>
      if h.before == [] then Ok(Located(Some(Appended(lines, h, index)), start))
      else LocateFrom(lines, h, index, start, 0)
  }

  lemma SelectedFits(lines: seq<string>, h: ParsedHunk, grade: Grade, start: nat, at: nat)
    requires h.before != [] && at in Selected(lines, h, grade, start)
    ensures start <= at && MatchesAt(lines, h.before, grade, at)
    ensures FindAll(lines, h.before, grade, start) != []
  {
    hide FindAll, MatchesAt, EofIndex;
    FindsAll(lines, h.before, grade, start);
  }

  lemma SelectedNone(lines: seq<string>, h: ParsedHunk, grade: Grade, start: nat)
    requires h.before != []
    ensures Selected(lines, h, grade, start) == [] <==> FindAll(lines, h.before, grade, start) == []
  {
    hide FindAll, MatchesAt, EofIndex;
    assert AtEof(lines, [], |h.before|) == [];
  }

  /** _locate_hunk. */
  method LocateHunk(lines: seq<string>, h: ParsedHunk, index: nat, cursor: nat) returns (r: Result<Located, Failure>)
    requires h.WellFormed()
    ensures r == Locate(lines, h, index, cursor)
  {
    hide ShiftFor, Selected, AlreadyFrom, CanBeEvidence, AnchorFrom, MatchesAt, FindAll, Rebuilt;
    var start := cursor;
    if h.scope.Some? {
      var anchor := FindAnchor(lines, h.scope.value, cursor);
      if anchor == None { return Err(AnchorNotFound(index)); }
      start := anchor.value + 1;
    }
    if h.before == [] {
      return Ok(Located(Some(Placement(index, EofIndex(lines), EofIndex(lines), h.after, Exact, [])), start));
    }
    r := SearchGrades(lines, h, index, start);
  }

  method SearchGrades(lines: seq<string>, h: ParsedHunk, index: nat, start: nat) returns (r: Result<Located, Failure>)
    requires h.WellFormed() && h.before != []
    ensures r == LocateFrom(lines, h, index, start, 0)
  {
    hide ShiftFor, Selected, AlreadyFrom, CanBeEvidence, MatchesAt, FindAll, Rebuilt, ParsedHunk.WellFormed;
    var g := 0;
    while g < 3
      invariant g <= 3 && LocateFrom(lines, h, index, start, 0) == LocateFrom(lines, h, index, start, g)
    {
      var grade := GRADES[g];
      var candidates := FindAll(lines, h.before, grade, start);
      SelectedNone(lines, h, grade, start);
      if candidates != [] {
        var selected := Selected(lines, h, grade, start);
        if |selected| == 1 {
          SelectedFits(lines, h, grade, start, selected[0]);
          MatchFits(lines, h.before, grade, selected[0]);
          var at := selected[0];
          var rebuilt := RebuildNewLines(lines, at, h, grade);
          if rebuilt.Some? {
            var end := at + |h.before|;
            return Ok(Located(Some(Placement(index, at, end, rebuilt.value, grade, lines[at..end])), end));
          }
        } else {
          return Err(ContextAmbiguous(index));
        }
      }
      g := g + 1;
    }
    var at := AlreadyApplied(lines, h, start);
    r := if at.Some? then Ok(Located(None, at.value + |h.after|)) else Err(ContextNotFound(index));
  }

  lemma MatchFits(lines: seq<string>, needle: seq<string>, grade: Grade, at: nat)
    requires MatchesAt(lines, needle, grade, at)
    ensures at + |needle| <= |lines|
  {
  }

  /** Grade number `g` accepts `at`: it is the sole match there, no stricter grade has any match,
      and its indents agree. */
  ghost predicate Accepts(lines: seq<string>, h: ParsedHunk, start: nat, from: nat, g: nat, at: nat)
    requires g < 3 && h.before != []
  {
    && Sole(lines, h, GRADES[g], start, at)
    && (forall k | from <= k < g :: NoneAt(lines, h.before, GRADES[k], start))
    && at + |h.before| <= |lines| && ShiftFor(lines, at, h, GRADES[g]).Some?
  }

  /** The search accepts a placement exactly when it is the sole one of its grade, with no match at
      any stricter grade. Only an indent that differs from line to line is passed over. */
  lemma {:induction false} AcceptedIff(lines: seq<string>, h: ParsedHunk, index: nat, start: nat, from: nat,
          p: Placement, next: nat)
    requires h.WellFormed() && h.before != [] && from <= 3
    ensures LocateFrom(lines, h, index, start, from) == Ok(Located(Some(p), next)) <==>
            && next == p.end
            && exists g | from <= g < 3 ::
                 Accepts(lines, h, start, from, g, p.start) && PlaceAt(lines, h, index, GRADES[g], p.start) == Some(p)
    decreases 3 - from
  {
    hide ShiftFor, Selected, MatchesAt, FindAll, Rebuilt, ParsedHunk.WellFormed, Sole, NoneAt, AlreadyFrom,
      CanBeEvidence;
    if from < 3 {
      AcceptedIff(lines, h, index, start, from + 1, p, next);
      AcceptedHere(lines, h, index, start, from, p, next);
    }
  }

  lemma AcceptedHere(lines: seq<string>, h: ParsedHunk, index: nat, start: nat, from: nat, p: Placement, next: nat)
    requires h.WellFormed() && h.before != [] && from < 3
    requires LocateFrom(lines, h, index, start, from + 1) == Ok(Located(Some(p), next)) <==>
             && next == p.end
             && exists g | from + 1 <= g < 3 ::
                  Accepts(lines, h, start, from + 1, g, p.start)
                  && PlaceAt(lines, h, index, GRADES[g], p.start) == Some(p)
    ensures LocateFrom(lines, h, index, start, from) == Ok(Located(Some(p), next)) <==>
            && next == p.end
            && exists g | from <= g < 3 ::
                 Accepts(lines, h, start, from, g, p.start) && PlaceAt(lines, h, index, GRADES[g], p.start) == Some(p)
  {
    hide ShiftFor, Selected, MatchesAt, FindAll, Rebuilt, ParsedHunk.WellFormed, Sole, NoneAt, AlreadyFrom,
      CanBeEvidence;
    var grade := GRADES[from];
    var selected := Selected(lines, h, grade, start);
    SelectedIffSole(lines, h, grade, start, p.start);
    SelectedNone(lines, h, grade, start);
    if |selected| == 1 {
      assert selected == [selected[0]];
      SelectedIffSole(lines, h, grade, start, selected[0]);
      SelectedFits(lines, h, grade, start, selected[0]);
      MatchFits(lines, h.before, grade, selected[0]);
      StrictAlwaysPlaces(lines, h, index, grade, selected[0]);
    }
    forall g | from + 1 <= g < 3
      ensures Accepts(lines, h, start, from, g, p.start) <==>
                NoneAt(lines, h.before, grade, start) && Accepts(lines, h, start, from + 1, g, p.start)
    {
    }
  }

  lemma StrictAlwaysPlaces(lines: seq<string>, h: ParsedHunk, index: nat, grade: Grade, at: nat)
    requires h.WellFormed() && at + |h.before| <= |lines|
    ensures PlaceAt(lines, h, index, grade, at) == None <==> ShiftFor(lines, at, h, grade) == None
    ensures PlaceAt(lines, h, index, grade, at) == None ==> grade == Indent
    ensures PlaceAt(lines, h, index, grade, at).Some? ==> PlaceAt(lines, h, index, grade, at).value.start == at
  {
  }

  /** What the replacement keeps of the file: every context line as the file has it; at exact grade
      it is the patch's own text; a hunk that changes nothing replaces text by itself. */
  lemma RebuiltKeepsContext(lines: seq<string>, h: ParsedHunk, index: nat, grade: Grade, at: nat)
    requires h.WellFormed() && MatchesAt(lines, h.before, grade, at) && PlaceAt(lines, h, index, grade, at).Some?
    ensures var p := PlaceAt(lines, h, index, grade, at).value;
            && |p.added| == |h.after|
            && (forall j | 0 <= j < |h.after| && h.sources[j].Some? :: p.added[j] == lines[at + h.sources[j].value])
            && (grade == Exact ==> p.added == h.after)
            && (h.PureContext() ==> p.added == p.was)
  {
    hide DeltaOf, Key, ShiftIndent, MatchesAt;
    if grade == Exact {
      ExactRebuilds(lines, h, at);
    }
  }

  lemma ExactRebuilds(lines: seq<string>, h: ParsedHunk, at: nat)
    requires h.WellFormed() && MatchesAt(lines, h.before, Exact, at)
    ensures Rebuilt(lines, at, h, Shift("", 0), |h.after|) == h.after
  {
    hide Strip, IndentOf, LStrip, RStrip;
    var rebuilt := Rebuilt(lines, at, h, Shift("", 0), |h.after|);
    forall j | 0 <= j < |h.after| ensures rebuilt[j] == h.after[j] {
      if h.sources[j].Some? {
        var k := h.sources[j].value;
        assert Key(Exact, lines[at + k]) == Key(Exact, h.before[k]);
      } else {
        assert ShiftIndent(h.after[j], Shift("", 0)) == h.after[j];
      }
    }
  }

  /** Where the search can leave the cursor, and what any placement looks like. */
  ghost predicate Fits(lines: seq<string>, h: ParsedHunk, index: nat, cursor: nat, r: Located) {
    && cursor <= r.cursor
    && match r.placement
       case None => true
       case Some(p) =>
         && p.index == index && p.end <= |lines|
         && if h.before == [] then p == Appended(lines, h, index)
            else cursor <= p.start < p.end == r.cursor && p.was == lines[p.start..p.end]
  }

  lemma LocatedFits(lines: seq<string>, h: ParsedHunk, index: nat, cursor: nat)
    requires h.WellFormed() && Locate(lines, h, index, cursor).Ok?
    ensures Fits(lines, h, index, cursor, Locate(lines, h, index, cursor).value)
  {
    hide ShiftFor, Selected, MatchesAt, FindAll, Rebuilt, ParsedHunk.WellFormed, AlreadyFrom, CanBeEvidence;
    var r := Locate(lines, h, index, cursor).value;
    if h.scope.Some? {
      AnchorIsFirst(lines, h.scope.value, cursor, 0);
    }
    var start := SearchStart(lines, h, cursor).value;
    if h.before != [] {
      LocateFromFits(lines, h, index, start, 0);
    }
  }

  lemma {:induction false} LocateFromFits(lines: seq<string>, h: ParsedHunk, index: nat, start: nat, g: nat)
    requires h.WellFormed() && h.before != [] && g <= 3 && LocateFrom(lines, h, index, start, g).Ok?
    ensures Fits(lines, h, index, start, LocateFrom(lines, h, index, start, g).value)
    decreases 3 - g
  {
    hide ShiftFor, Selected, MatchesAt, FindAll, Rebuilt, ParsedHunk.WellFormed, AlreadyFrom;
    if g == 3 {
      AlreadyAfter(lines, h, start, 0);
    } else {
      var selected := Selected(lines, h, GRADES[g], start);
      if |selected| == 1 {
        SelectedFits(lines, h, GRADES[g], start, selected[0]);
      }
      if LocateFrom(lines, h, index, start, g) == LocateFrom(lines, h, index, start, g + 1) {
        LocateFromFits(lines, h, index, start, g + 1);
      }
    }
  }

  lemma {:induction false} AlreadyAfter(lines: seq<string>, h: ParsedHunk, start: nat, g: nat)
    requires g <= 2
    ensures h.after != [] && AlreadyFrom(lines, h, start, g).Some? ==> start <= AlreadyFrom(lines, h, start, g).value
    decreases 2 - g
  {
    hide MatchesAt, FindAll, EofIndex;
    if g < 2 && h.after != [] {
      FindsAll(lines, h.after, GRADES[g], start);
      var standing := Standing(lines, h, GRADES[g], start);
      assert standing != [] ==> standing[0] in standing;
      AlreadyAfter(lines, h, start, g + 1);
    }
  }
}
