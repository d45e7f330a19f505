/** What one hunk makes of a file, and when making it of the result changes nothing more. */
module Reapplying {
  import opened Options
  import opened Texts
  import opened Spans
  import opened Ordering
  import opened Matching
  import opened Locating
  import opened Hunks

  /** The lines after one hunk, searched for from the top. */
  function Alone(lines: seq<string>, h: ParsedHunk): seq<string>
    requires h.WellFormed() && Locate(lines, h, 0, 0).Ok?
  {
    match Locate(lines, h, 0, 0).value.placement
    case None => lines
    case Some(p) =>
      LocatedFits(lines, h, 0, 0);
      lines[..p.start] + p.added + lines[p.end..]
  }

  /** The engine, given a patch of one hunk. */
  lemma AloneIsTheEngine(content: string, hunk: PatchHunk)
    requires !HasMalformed(hunk.lines)
    ensures var lines, h, r := LinesOf(content), Parsed(hunk), Edit(content, [hunk]);
            && h.WellFormed()
            && (r.Ok? <==> Locate(lines, h, 0, 0).Ok?)
            && (r.Ok? ==> r.value.content == Rewritten(content, Alone(lines, h)))
            && (r.Ok? ==> r.value.changedRanges == Ranges(OneMatched(Locate(lines, h, 0, 0).value).placed, 0))
  {
    hide LinesOf, Rewritten, Locate, ParsedHunk.WellFormed, HasMalformed, Ranges, Loosest, ToleranceWarnings;
    var lines, h := LinesOf(content), Parsed(hunk);
    ParsedAllWellFormed([hunk]);
    OneParsed(hunk);
    OneLocated(lines, h);
    if Locate(lines, h, 0, 0).Ok? { OneWoven(lines, h); }
  }

  lemma OneParsed(hunk: PatchHunk)
    ensures ParsedAll([hunk]) == [Parsed(hunk)]
    ensures SomeMalformed([hunk]) <==> HasMalformed(hunk.lines)
  {
    assert [hunk][0] == hunk;
  }

  function OneMatched(r: Located): Matched {
    match r.placement
    case None => Matched([], [0])
    case Some(p) => Matched([p], [])
  }

  lemma OneLocated(lines: seq<string>, h: ParsedHunk)
    requires h.WellFormed()
    ensures AllWellFormed([h])
    ensures LocateAll(lines, [h], 0, 0) ==
              match Locate(lines, h, 0, 0) case Err(e) => Err(e) case Ok(r) => Ok(OneMatched(r))
  {
    hide Locate, ParsedHunk.WellFormed;
    if Locate(lines, h, 0, 0).Ok? {
      var r := Locate(lines, h, 0, 0).value;
      assert [h][0] == h && LocateAll(lines, [h], 1, r.cursor) == Ok(Matched([], []));
      assert r.placement.Some? ==> [r.placement.value] + [] == [r.placement.value];
      var none: seq<nat> := [];
      assert [0] + none == [0];
    }
  }

  lemma OneWoven(lines: seq<string>, h: ParsedHunk)
    requires h.WellFormed() && Locate(lines, h, 0, 0).Ok?
    ensures var ps := OneMatched(Locate(lines, h, 0, 0).value).placed;
            && Sorted(ByStart, ps) == ps && FirstOverlap(ps, 0) == None && Ordered(ps, 0, lines)
            && Weave(lines, ps, 0) == Alone(lines, h)
  {
    hide Locate, ParsedHunk.WellFormed;
    LocatedFits(lines, h, 0, 0);
    var ps := OneMatched(Locate(lines, h, 0, 0).value).placed;
    if ps == [] {
      assert lines[0..] == lines;
    } else {
      assert ps == [ps[0]] && ps[..0] == [] && ps[1..] == [];
      assert lines[0..ps[0].start] == lines[..ps[0].start];
    }
  }

  /** The search is at grade number `g` and goes on: nothing matches, or the one match cannot be indented. */
  ghost predicate Passes(lines: seq<string>, h: ParsedHunk, start: nat, g: nat)
    requires g < 3
  {
    || NoneAt(lines, h.before, GRADES[g], start)
    || exists c: nat :: Sole(lines, h, GRADES[g], start, c) && c + |h.before| <= |lines|
         && ShiftFor(lines, c, h, GRADES[g]).None?
  }

  /** The hunk is found to be applied already: its context is nowhere, and its result in one place. */
  ghost predicate Skips(lines: seq<string>, h: ParsedHunk, start: nat) {
    && (forall g | 0 <= g < 3 :: Passes(lines, h, start, g))
    && CanBeEvidence(h)
    && exists at: nat ::
         || StandsOnlyAt(lines, h, Exact, start, at)
         || ((forall c: nat :: !Stands(lines, h, Exact, start, c)) && StandsOnlyAt(lines, h, TrailingWs, start, at))
  }

  /** The hunk is placed, and what it puts there is what is there. */
  ghost predicate PutsBack(lines: seq<string>, h: ParsedHunk, start: nat)
    requires h.WellFormed() && h.before != []
  {
    exists g: nat, at: nat :: g < 3 && PutsBackAt(lines, h, start, g, at)
  }

  ghost predicate PutsBackAt(lines: seq<string>, h: ParsedHunk, start: nat, g: nat, at: nat)
    requires h.WellFormed() && h.before != [] && g < 3
  {
    && Accepts(lines, h, start, 0, g, at)
    && Rebuilt(lines, at, h, ShiftFor(lines, at, h, GRADES[g]).value, |h.after|) == lines[at..at + |h.before|]
  }

  lemma PassesOn(lines: seq<string>, h: ParsedHunk, index: nat, start: nat, g: nat)
    requires h.WellFormed() && h.before != [] && g < 3
    ensures Passes(lines, h, start, g) ==>
              LocateFrom(lines, h, index, start, g) == LocateFrom(lines, h, index, start, g + 1)
    ensures !Passes(lines, h, start, g) ==>
              var r := LocateFrom(lines, h, index, start, g); r.Ok? ==> r.value.placement.Some?
  {
    hide ShiftFor, Selected, MatchesAt, FindAll, Rebuilt, ParsedHunk.WellFormed, Sole, NoneAt, AlreadyFrom,
      CanBeEvidence;
    var grade := GRADES[g];
    var selected := Selected(lines, h, grade, start);
    SelectedNone(lines, h, grade, start);
    SelectedIffSole(lines, h, grade, start, 0);
    if |selected| == 1 {
      assert selected == [selected[0]];
      SelectedIffSole(lines, h, grade, start, selected[0]);
      SelectedFits(lines, h, grade, start, selected[0]);
      MatchFits(lines, h.before, grade, selected[0]);
      StrictAlwaysPlaces(lines, h, index, grade, selected[0]);
    }
    forall c: nat | Sole(lines, h, grade, start, c) ensures selected == [c] {
      SelectedIffSole(lines, h, grade, start, c);
    }
  }

  /** A hunk is skipped exactly if no grade places it and its result stands in one place. */
  lemma SkippedIff(lines: seq<string>, h: ParsedHunk, index: nat, start: nat)
    requires h.WellFormed() && h.before != []
    ensures var r := LocateFrom(lines, h, index, start, 0);
            r.Ok? && r.value.placement == None <==> Skips(lines, h, start)
  {
    hide ShiftFor, Selected, MatchesAt, FindAll, Rebuilt, ParsedHunk.WellFormed, Sole, NoneAt, Passes, AlreadyFrom,
      CanBeEvidence, StandsOnlyAt, Stands;
    PassesOn(lines, h, index, start, 0);
    PassesOn(lines, h, index, start, 1);
    PassesOn(lines, h, index, start, 2);
    var found := AlreadyFrom(lines, h, start, 0);
    if CanBeEvidence(h) {
      NotNothing(h);
      if found.Some? { AlreadyIff(lines, h, start, found.value); }
      if Skips(lines, h, start) {
        var at: nat :|
          || StandsOnlyAt(lines, h, Exact, start, at)
          || ((forall c: nat :: !Stands(lines, h, Exact, start, c)) && StandsOnlyAt(lines, h, TrailingWs, start, at));
        AlreadyIff(lines, h, start, at);
      }
    }
  }

  lemma NotNothing(h: ParsedHunk)
    requires CanBeEvidence(h)
    ensures h.after != []
  {
  }

  lemma PutsBackIff(lines: seq<string>, h: ParsedHunk, start: nat)
    requires h.WellFormed() && h.before != []
    ensures var r := LocateFrom(lines, h, 0, start, 0);
            r.Ok? && r.value.placement.Some? && r.value.placement.value.added == r.value.placement.value.was <==>
              PutsBack(lines, h, start)
  {
    hide ShiftFor, Selected, MatchesAt, FindAll, Rebuilt, ParsedHunk.WellFormed, Sole, NoneAt, AlreadyFrom,
      CanBeEvidence, LocateFrom;
    var r := LocateFrom(lines, h, 0, start, 0);
    if r.Ok? && r.value.placement.Some? {
      var p := r.value.placement.value;
      AcceptedIff(lines, h, 0, start, 0, p, r.value.cursor);
      var g :| 0 <= g < 3 && Accepts(lines, h, start, 0, g, p.start)
               && PlaceAt(lines, h, 0, GRADES[g], p.start) == Some(p);
      assert p.added == p.was ==> PutsBackAt(lines, h, start, g, p.start);
    }
    if PutsBack(lines, h, start) {
      var g: nat, at: nat :| g < 3 && PutsBackAt(lines, h, start, g, at);
      StrictAlwaysPlaces(lines, h, 0, GRADES[g], at);
      var p := PlaceAt(lines, h, 0, GRADES[g], at).value;
      AcceptedIff(lines, h, 0, start, 0, p, p.end);
    }
  }

  /** One hunk leaves the lines as they are exactly if it is skipped, or puts back what is there, or has
      nothing to find and nothing to add. */
  lemma KeepsIff(lines: seq<string>, h: ParsedHunk)
    requires h.WellFormed()
    ensures Locate(lines, h, 0, 0).Ok? && Alone(lines, h) == lines <==>
            && SearchStart(lines, h, 0).Some?
            && var start := SearchStart(lines, h, 0).value;
               if h.before == [] then h.after == [] else Skips(lines, h, start) || PutsBack(lines, h, start)
  {
    hide LocateFrom, ParsedHunk.WellFormed, Skips, PutsBack;
    if Locate(lines, h, 0, 0).Ok? {
      LocatedFits(lines, h, 0, 0);
      var r := Locate(lines, h, 0, 0).value;
      if r.placement.Some? { SameWhenPutBack(lines, r.placement.value); }
    }
    if h.before != [] && SearchStart(lines, h, 0).Some? {
      SkippedIff(lines, h, 0, SearchStart(lines, h, 0).value);
      PutsBackIff(lines, h, SearchStart(lines, h, 0).value);
    }
  }

  lemma SameWhenPutBack(lines: seq<string>, p: Placement)
    requires p.start <= p.end <= |lines| && p.was == lines[p.start..p.end]
    ensures lines[..p.start] + p.added + lines[p.end..] == lines <==> p.added == p.was
  {
    var woven := lines[..p.start] + p.added + lines[p.end..];
    assert lines == lines[..p.start] + p.was + lines[p.end..];
    if woven == lines {
      assert |p.added| == |p.was|;
      assert woven[p.start..p.end] == p.added;
    }
  }

  /** Applying a hunk to its own result changes nothing more exactly if the search in the result skips
      the hunk, or puts back what is there. */
  lemma IdempotentIff(lines: seq<string>, h: ParsedHunk)
    requires h.WellFormed() && Locate(lines, h, 0, 0).Ok?
    ensures var once := Alone(lines, h);
            Locate(once, h, 0, 0).Ok? && Alone(once, h) == once <==>
            && SearchStart(once, h, 0).Some?
            && var start := SearchStart(once, h, 0).value;
               if h.before == [] then h.after == [] else Skips(once, h, start) || PutsBack(once, h, start)
  {
    hide Locate, ParsedHunk.WellFormed, Skips, PutsBack, SearchStart;
    KeepsIff(Alone(lines, h), h);
  }

  /** A hunk with nothing to find appends every time. */
  lemma AppendsAgain(lines: seq<string>, h: ParsedHunk)
    requires h.WellFormed() && h.before == [] && h.scope == None
    ensures Locate(lines, h, 0, 0).Ok?
            && Alone(lines, h) == lines[..EofIndex(lines)] + h.after + lines[EofIndex(lines)..]
    ensures Alone(Alone(lines, h), h) == Alone(lines, h) <==> h.after == []
  {
    hide LocateFrom, ParsedHunk.WellFormed;
    IdempotentIff(lines, h);
  }

  /** A line of context and an added line after it: the context is still there in the result, so the
      line is added once more. */
  lemma ContextAddsAgain()
    ensures var h, lines := Parsed(PatchHunk([" b", "+c"], None)), ["a", "b", ""];
            && h.WellFormed() && Locate(lines, h, 0, 0).Ok? && Alone(lines, h) == ["a", "b", "c", ""]
            && Locate(Alone(lines, h), h, 0, 0).Ok? && Alone(Alone(lines, h), h) == ["a", "b", "c", "c", ""]
  {
    hide Locate, ParsedHunk.WellFormed, Parsed;
    var h := Parsed(PatchHunk([" b", "+c"], None));
    ParsedWellFormed([" b", "+c"], None);
    AddsAfter(["a", "b", ""], h, 1);
    AddsAfter(["a", "b", "c", ""], h, 1);
  }

  lemma ContextThenAdded()
    ensures Parsed(PatchHunk([" b", "+c"], None)) == ParsedHunk(["b"], ["b", "c"], [Some(0), None], None, false)
  {
    var raw := [" b", "+c"];
    assert raw[..1] == [" b"] && [" b"][..0] == [];
    assert MarkOf(" b") == Context("b") by { assert " b"[1..] == "b"; }
    assert MarkOf("+c") == Added("c") by { assert "+c"[1..] == "c"; }
    assert [] + ["b"] == ["b"] && BeforeOf([" b"]) == ["b"] && AfterOf([" b"]) == ["b"]
           && SourcesOf([" b"]) == [Some(0)];
    assert END_OF_FILE_MARKER[0] == '*';
  }

  lemma AddsAfter(lines: seq<string>, h: ParsedHunk, at: nat)
    requires h == Parsed(PatchHunk([" b", "+c"], None)) && h.WellFormed()
    requires at < |lines| && lines[at] == "b" && forall c | 0 <= c < |lines| && c != at :: lines[c] != "b"
    ensures Locate(lines, h, 0, 0).Ok? && Alone(lines, h) == lines[..at] + ["b", "c"] + lines[at + 1..]
  {
    hide LocateFrom, ParsedHunk.WellFormed, Rebuilt, Parsed, EofIndex;
    ContextThenAdded();
    assert MatchesAt(lines, ["b"], Exact, at);
    forall c: nat | MatchesAt(lines, h.before, Exact, c) ensures c == at {
      assert Key(Exact, lines[c + 0]) == Key(Exact, h.before[0]);
    }
    assert Accepts(lines, h, 0, 0, 0, at);
    var p := PlaceAt(lines, h, 0, Exact, at).value;
    RebuiltKeepsContext(lines, h, 0, Exact, at);
    AcceptedIff(lines, h, 0, 0, 0, p, p.end);
  }

  /** Removing the one piece an empty file consists of: the report has a line removed, but the file, joined
      from no lines, reads as that piece again. */
  lemma RemovalNotSeen()
    ensures var r := Edit("", [PatchHunk(["-"], None)]);
            r.Ok? && r.value.content == "" && r.value.changedRanges == [Range(1, 0, 0, 1)]
  {
    hide Locate, Parsed, Ranges, ParsedHunk.WellFormed, Edit;
    var hunk := PatchHunk(["-"], None);
    var h := Parsed(hunk);
    NothingRemoved();
    EmptyFile();
    AloneIsTheEngine("", hunk);
    RemovesAll(h);
  }

  lemma NothingRemoved()
    ensures Parsed(PatchHunk(["-"], None)) == ParsedHunk([""], [], [], None, false) && !HasMalformed(["-"])
  {
    assert ["-"][..0] == [] && [] + [""] == [""];
    assert MarkOf("-") == Removed("") by { assert "-"[1..] == ""; }
    assert END_OF_FILE_MARKER[0] == '*';
  }

  lemma EmptyFile()
    ensures LinesOf("") == [""] && Rewritten("", []) == ""
  {
  }

  lemma RemovesAll(h: ParsedHunk)
    requires h == ParsedHunk([""], [], [], None, false) && h.WellFormed()
    ensures Locate([""], h, 0, 0).Ok? && Alone([""], h) == []
    ensures Ranges(OneMatched(Locate([""], h, 0, 0).value).placed, 0) == [Range(1, 0, 0, 1)]
  {
    hide LocateFrom, ParsedHunk.WellFormed;
    assert MatchesAt([""], [""], Exact, 0);
    assert Accepts([""], h, 0, 0, 0, 0);
    var p := PlaceAt([""], h, 0, Exact, 0).value;
    AcceptedIff([""], h, 0, 0, 0, p, p.end);
    assert p == Placement(0, 0, 1, [], Exact, [""]);
    assert [p][1..] == [];
  }

  /** Adding a line and an empty one to a file without a final newline: the range ends at line 3, and two
      lines are reported in all. */
  lemma AddedPastTheEnd()
    ensures var r := Edit("a", [PatchHunk(["+x", "+"], None)]);
            && r.Ok? && r.value.content == "a\nx\n" && r.value.changedRanges == [Range(2, 3, 2, 0)]
            && TotalLines(r.value.content) == 2
  {
    hide Locate, Parsed, Ranges, ParsedHunk.WellFormed, Edit, TotalLines, LinesOf, Rewritten, HasMalformed;
    var hunk := PatchHunk(["+x", "+"], None);
    TwoAdded();
    OneLineFile();
    AloneIsTheEngine("a", hunk);
    AppendsTwo(Parsed(hunk));
  }

  lemma TwoAdded()
    ensures Parsed(PatchHunk(["+x", "+"], None)) == ParsedHunk([], ["x", ""], [None, None], None, false)
    ensures !HasMalformed(["+x", "+"])
  {
    var raw := ["+x", "+"];
    assert raw[..1] == ["+x"] && ["+x"][..0] == [];
    assert MarkOf("+x") == Added("x") by { assert "+x"[1..] == "x"; }
    assert MarkOf("+") == Added("") by { assert "+"[1..] == ""; }
    assert BeforeOf(["+x"]) == [] && AfterOf(["+x"]) == ["x"] && SourcesOf(["+x"]) == [None];
    assert END_OF_FILE_MARKER[0] == '*';
  }

  lemma OneLineFile()
    ensures LinesOf("a") == ["a"] && Rewritten("a", ["a", "x", ""]) == "a\nx\n" && TotalLines("a\nx\n") == 2
  {
    assert StripBom("a").1 == "a" && NormalizeToLf("a") == "a";
    SplitOneLine("a");
    assert ["a", "x", ""][1..] == ["x", ""] && ["x", ""][1..] == [""];
    assert "x" + "\n" + "" == "x\n" && "a" + "\n" + "x\n" == "a\nx\n" && "" + "a\nx\n" == "a\nx\n";
    TwoLines();
  }

  lemma AppendsTwo(h: ParsedHunk)
    requires h == ParsedHunk([], ["x", ""], [None, None], None, false) && h.WellFormed()
    ensures Locate(["a"], h, 0, 0).Ok? && Alone(["a"], h) == ["a", "x", ""]
    ensures Ranges(OneMatched(Locate(["a"], h, 0, 0).value).placed, 0) == [Range(2, 3, 2, 0)]
  {
    hide ParsedHunk.WellFormed;
    var p := Appended(["a"], h, 0);
    assert p == Placement(0, 1, 1, ["x", ""], Exact, []);
    assert [p][1..] == [];
  }

  /** A patch of one line of context, for a text whose lines end differently: nothing is added or removed, and
      the second line is rewritten. */
  lemma ContextRewrites()
    ensures var r := Edit(MIXED, [PatchHunk([" a"], None)]);
            r.Ok? && r.value.content == "a\r\nb\r\n"
  {
    hide Locate, Parsed, ParsedHunk.WellFormed, Edit, LinesOf, Rewritten, HasMalformed, Ranges;
    var hunk := PatchHunk([" a"], None);
    ContextAlone();
    MixedPieces();
    AloneIsTheEngine(MIXED, hunk);
    ContextFound(Parsed(hunk));
  }

  lemma ContextAlone()
    ensures Parsed(PatchHunk([" a"], None)) == ParsedHunk(["a"], ["a"], [Some(0)], None, false) && !HasMalformed([" a"])
  {
    assert [" a"][..0] == [];
    assert MarkOf(" a") == Context("a") by { assert " a"[1..] == "a"; }
    assert [] + ["a"] == ["a"];
    assert END_OF_FILE_MARKER[0] == '*';
  }

  lemma MixedPieces()
    ensures LinesOf(MIXED) == ["a", "b", ""] && Rewritten(MIXED, ["a", "b", ""]) == "a\r\nb\r\n"
  {
    hide Split, Join, DetectLineEnding, NormalizeToLf, RestoreLineEndings, StripBom;
    MixedPlain();
    MixedEnding();
    MixedLines();
    assert "" + "a\r\nb\r\n" == "a\r\nb\r\n";
  }

  lemma ContextFound(h: ParsedHunk)
    requires h == ParsedHunk(["a"], ["a"], [Some(0)], None, false) && h.WellFormed()
    ensures Locate(["a", "b", ""], h, 0, 0).Ok? && Alone(["a", "b", ""], h) == ["a", "b", ""]
  {
    hide LocateFrom, ParsedHunk.WellFormed, Rebuilt, EofIndex;
    var lines := ["a", "b", ""];
    assert MatchesAt(lines, ["a"], Exact, 0);
    forall c: nat | MatchesAt(lines, h.before, Exact, c) ensures c == 0 {
      assert Key(Exact, lines[c + 0]) == Key(Exact, h.before[0]);
    }
    assert Accepts(lines, h, 0, 0, 0, 0);
    var p := PlaceAt(lines, h, 0, Exact, 0).value;
    RebuiltKeepsContext(lines, h, 0, Exact, 0);
    AcceptedIff(lines, h, 0, 0, 0, p, p.end);
  }
}
