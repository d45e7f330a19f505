/** What a caller of the hunk engine can rely on. */
module HunkProperties {
  import opened Options
  import opened Texts
  import opened Spans
  import opened Ordering
  import opened Matching
  import opened Locating
  import opened Hunks

  /** Once every hunk is placed, the patch is refused exactly if appended text collides with a span
      that takes in the empty piece after the final newline; the error names such a pair. */
  lemma RefusedIffCollision(content: string, hunks: seq<PatchHunk>)
    ensures var m := Placed(content, hunks);
            m.Some? ==>
              && (Edit(content, hunks).Err? <==> exists k, a | k in m.value.placed && a in m.value.placed ::
                    Collides(LinesOf(content), k, a))
              && (Edit(content, hunks).Err? ==> exists k, a | k in m.value.placed && a in m.value.placed ::
                    Collides(LinesOf(content), k, a) && Edit(content, hunks).error == HunksOverlap(k.index, a.index))
  {
    hide SomeMalformed, AllWellFormed, LocateAll, Collides, Forward, Sorted, FirstOverlap, LinesOf, Weave, Ordered,
      Ranges;
    ParsedAllWellFormed(hunks);
    if Placed(content, hunks).Some? {
      PlacedForward(LinesOf(content), ParsedAll(hunks), 0, 0);
      OverlapIff(LinesOf(content), Placed(content, hunks).value.placed);
      if Edit(content, hunks).Err? { OverlapNames(LinesOf(content), Placed(content, hunks).value.placed); }
    }
  }

  /** The placements the result is woven from are the ones the search found, in file order; text
      appended at the end of the file stays in hunk order. */
  lemma AppendedInHunkOrder(lines: seq<string>, ps: seq<Placement>)
    requires Forward(lines, ps, 0, 0)
    ensures var s := Sorted(ByStart, ps);
            && |s| == |ps| && (forall p :: p in s <==> p in ps)
            && forall i, j | 0 <= i < j < |s| && PureAddition(s[i]) && PureAddition(s[j]) :: s[i].index < s[j].index
  {
    hide Sorted, Forward, Lies, EofIndex;
    ForwardFacts(lines, ps);
    SameMembers(ByStart, ps);
    SortKeepsTies(ByStart, ps);
    var s := Sorted(ByStart, ps);
    forall i | 0 <= i < |s| ensures PlacedFrom(lines, s[i], 0, 0) {
      EachPlaced(lines, ps, s[i]);
    }
  }

  /** Lines that a file can be rewritten to and will still read as. */
  predicate Rereads(content: string, lines: seq<string>) {
    lines != [] && Clean(lines) && (StripBom(content).0 != "" || !BomFirst(lines))
  }

  /** Exactly such lines come back when the rewritten file is read. */
  lemma RereadsIff(content: string, lines: seq<string>)
    ensures LinesOf(Rewritten(content, lines)) == lines <==> Rereads(content, lines)
  {
    hide Join, Split, NormalizeToLf, RestoreLineEndings, DetectLineEnding, Clean, BomFirst;
    SplitIsClean(StripBom(Rewritten(content, lines)).1);
    if lines != [] && Clean(lines) {
      var (bom, text) := StripBom(content);
      HeadlessJoin(lines);
      NoCrJoined(lines);
      ReadBack(bom, Join(lines), DetectLineEnding(text));
      CleanSplitJoin(if bom == "" then Headless(lines) else lines);
    }
  }

  lemma NoCrJoined(lines: seq<string>)
    requires Clean(lines)
    ensures '\r' !in Join(lines)
  {
    JoinHasNo(lines, '\r');
  }

  lemma CleanSplitJoin(lines: seq<string>)
    requires lines != [] && Clean(lines)
    ensures Split(Join(lines)) == lines
  {
    SplitJoin(lines);
  }

  /** Every successful result is the left-to-right weave of the file's lines with the placements. Its
      report describes the weave, and describes the file as it will be read exactly if that is the weave. */
  lemma ReportTruthful(content: string, hunks: seq<PatchHunk>)
    ensures var m, r := Placed(content, hunks), Edit(content, hunks);
            m.Some? && r.Ok? ==>
              var lines, s := LinesOf(content), Sorted(ByStart, m.value.placed);
              && Ordered(s, 0, lines) && r.value.content == Rewritten(content, Weave(lines, s, 0))
              && Describes(Weave(lines, s, 0), r.value.changedRanges, lines, s)
              && (Describes(LinesOf(r.value.content), r.value.changedRanges, lines, s) <==>
                   Rereads(content, Weave(lines, s, 0)))
  {
    hide SomeMalformed, AllWellFormed, LocateAll, Sorted, FirstOverlap, LinesOf, Weave, Ordered, Describes, Rewritten,
      Ranges, Rereads;
    ParsedAllWellFormed(hunks);
    if Placed(content, hunks).Some? && Edit(content, hunks).Ok? {
      var lines, s := LinesOf(content), Sorted(ByStart, Placed(content, hunks).value.placed);
      ReportDescribesIff(lines, s, Weave(lines, s, 0));
      ReportDescribesIff(lines, s, LinesOf(Edit(content, hunks).value.content));
      RereadsIff(content, Weave(lines, s, 0));
    }
  }

  /** The reported number of lines leaves out the empty piece after a final newline. */
  lemma TotalOfRewritten(content: string, lines: seq<string>)
    requires Clean(lines)
    ensures TotalLines(Rewritten(content, lines)) ==
            if StripBom(content).0 != "" && (lines == [] || lines == [""]) then 1 else EofIndex(lines)
  {
    hide Join, Split, NormalizeToLf, RestoreLineEndings, DetectLineEnding, Clean, TotalLines;
    var (bom, text) := StripBom(content);
    var restored := RestoreLineEndings(Join(lines), DetectLineEnding(text));
    NoCrJoined(lines);
    NormalizeRestored(Join(lines), DetectLineEnding(text));
    if lines != [] { CleanSplitJoin(lines); }
    EmptyText();
    TotalIsLines(restored);
    TotalBehindBom(restored);
    assert bom == "" ==> bom + restored == restored;
  }

  lemma EmptyText()
    ensures Split("") == [""] && Join([""]) == "" && Join([]) == ""
  {
  }

  /** A range of the report can end behind the reported number of lines: exactly if the last replacement
      takes in the last piece of the file and does not leave it alone, and the result ends with an empty piece
      (and is more than a byte order mark). */
  lemma RangesWithinTotal(content: string, hunks: seq<PatchHunk>)
    ensures var m, r := Placed(content, hunks), Edit(content, hunks);
            m.Some? && r.Ok? ==>
              var lines, s := LinesOf(content), Sorted(ByStart, m.value.placed);
              && Ordered(s, 0, lines)
              && var w := Weave(lines, s, 0);
              Clean(w) ==>
                ((forall range | range in r.value.changedRanges :: range.endLine <= TotalLines(r.value.content)) <==>
                   || w == [] || w[|w| - 1] != "" || (StripBom(content).0 != "" && w == [""])
                   || !ReachesEnd(s, lines))
  {
    hide SomeMalformed, AllWellFormed, LocateAll, Sorted, FirstOverlap, LinesOf, Weave, Ordered, Rewritten, Ranges,
      ReachesEnd, TotalLines, Clean;
    ReportTruthful(content, hunks);
    if Placed(content, hunks).Some? && Edit(content, hunks).Ok? {
      var lines, s := LinesOf(content), Sorted(ByStart, Placed(content, hunks).value.placed);
      var w := Weave(lines, s, 0);
      assert Edit(content, hunks).value.changedRanges == Ranges(s, 0);
      RangesEndInside(lines, s);
      if Clean(w) { TotalOfRewritten(content, w); }
    }
  }

  predicate ContextHunk(h: PatchHunk) {
    forall line | line in h.lines :: MarkOf(line).Context? || MarkOf(line).EofMark?
  }

  lemma PureContextKeeps(lines: seq<string>, h: ParsedHunk, index: nat, cursor: nat)
    requires h.WellFormed() && h.PureContext() && Locate(lines, h, index, cursor).Ok?
    ensures var op := Locate(lines, h, index, cursor).value.placement; op.Some? ==> op.value.added == op.value.was
  {
    hide LocateFrom, ShiftFor, MatchesAt, NoneAt, Rebuilt, AnchorFrom, EofIndex, ParsedHunk.WellFormed;
    var r := Locate(lines, h, index, cursor).value;
    if h.before != [] && r.placement.Some? {
      var start := SearchStart(lines, h, cursor).value;
      AcceptedIff(lines, h, index, start, 0, r.placement.value, r.cursor);
      var p := r.placement.value;
      var g :| 0 <= g < 3 && Accepts(lines, h, start, 0, g, p.start)
               && PlaceAt(lines, h, index, GRADES[g], p.start) == Some(p);
      RebuiltKeepsContext(lines, h, index, GRADES[g], p.start);
    }
  }

  lemma {:induction false} ContextKeepsAll(lines: seq<string>, hs: seq<ParsedHunk>, i: nat, cursor: nat)
    requires i <= |hs| && AllWellFormed(hs) && forall h | h in hs :: h.PureContext()
    ensures var m := LocateAll(lines, hs, i, cursor); m.Ok? ==> forall p | p in m.value.placed :: p.added == p.was
    decreases |hs| - i
  {
    hide Locate, ParsedHunk.WellFormed, ParsedHunk.PureContext;
    if i < |hs| && LocateAll(lines, hs, i, cursor).Ok? {
      PureContextKeeps(lines, hs[i], i, cursor);
      ContextKeepsAll(lines, hs, i + 1, Locate(lines, hs[i], i, cursor).value.cursor);
    }
  }

  lemma {:induction false} WeaveKeeps(lines: seq<string>, ps: seq<Placement>, from: nat)
    requires Ordered(ps, from, lines) && forall p | p in ps :: p.added == p.was
    ensures Weave(lines, ps, from) == lines[from..]
  {
    if ps != [] {
      WeaveKeeps(lines, ps[1..], ps[0].end);
      assert lines[from..] == lines[from..ps[0].start] + lines[ps[0].start..ps[0].end] + lines[ps[0].end..];
    }
  }

  /** A patch that removes and adds nothing returns the file as it was exactly if the file's line
      endings are uniform; otherwise every line takes the ending of the first. */
  lemma ContextPatchIsIdentityIffUniform(content: string, hunks: seq<PatchHunk>)
    requires hunks != [] && forall h | h in hunks :: ContextHunk(h)
    ensures var r := Edit(content, hunks); r.Ok? ==> (r.value.content == content <==> Uniform(StripBom(content).1))
  {
    hide LocateAll, FirstOverlap, LinesOf, Ordered, Weave, Ranges, ParsedHunk.WellFormed, Uniform, ContextHunk,
      SomeMalformed, Rewritten, Sorted;
    if Edit(content, hunks).Ok? {
      var hs := ParsedAll(hunks);
      forall i | 0 <= i < |hunks| ensures hs[i].PureContext() {
        ContextHunkIsPure(hunks[i]);
      }
      assert !SomeMalformed(hunks);
      var lines := LinesOf(content);
      ContextKeepsAll(lines, hs, 0, 0);
      NoChangeIsIdentityIffUniform(content, hunks);
    }
  }

  /** Even a patch found to be applied already gives the file back as it was only if its line endings
      are uniform. */
  lemma AlreadyAppliedIsIdentityIffUniform(content: string, hunks: seq<PatchHunk>)
    ensures var r := Edit(content, hunks);
            hunks != [] && r.Ok? && r.value.applied == 0 ==>
              (r.value.content == content <==> Uniform(StripBom(content).1))
  {
    hide LocateAll, FirstOverlap, LinesOf, Ordered, Weave, Ranges, ParsedHunk.WellFormed, Uniform, SomeMalformed,
      Rewritten, Sorted;
    if hunks != [] && Edit(content, hunks).Ok? && Edit(content, hunks).value.applied == 0 {
      NoChangeIsIdentityIffUniform(content, hunks);
    }
  }

  lemma NoChangeIsIdentityIffUniform(content: string, hunks: seq<PatchHunk>)
    requires hunks != [] && Edit(content, hunks).Ok? && !SomeMalformed(hunks) && AllWellFormed(ParsedAll(hunks))
    requires var m := LocateAll(LinesOf(content), ParsedAll(hunks), 0, 0); m.Ok? ==>
               forall p | p in m.value.placed :: p.added == p.was
    ensures Edit(content, hunks).value.content == content <==> Uniform(StripBom(content).1)
  {
    hide LocateAll, FirstOverlap, LinesOf, Ordered, Weave, Ranges, ParsedHunk.WellFormed, Uniform, SomeMalformed,
      Rewritten, Sorted;
    var lines := LinesOf(content);
    var m := LocateAll(lines, ParsedAll(hunks), 0, 0).value;
    SameMembers(ByStart, m.placed);
    WeaveKeeps(lines, Sorted(ByStart, m.placed), 0);
    assert lines[0..] == lines;
    RewrittenAsItWas(content);
  }

  lemma ContextHunkIsPure(h: PatchHunk)
    requires ContextHunk(h)
    ensures Parsed(h).PureContext()
  {
    ContextOnly(h.lines, h.scope);
  }

  lemma RewrittenAsItWas(content: string)
    ensures Rewritten(content, LinesOf(content)) == content <==> Uniform(StripBom(content).1)
  {
    hide Split, Uniform, NormalizeToLf, RestoreLineEndings, DetectLineEnding, Join;
    var (bom, text) := StripBom(content);
    JoinSplit(NormalizeToLf(text));
    RestoreIffUniform(text);
    var restored := RestoreLineEndings(NormalizeToLf(text), DetectLineEnding(text));
    assert bom + restored == bom + text ==> (bom + restored)[|bom|..] == (bom + text)[|bom|..];
    assert (bom + restored)[|bom|..] == restored && (bom + text)[|bom|..] == text;
  }

  /** A hunk is skipped only on evidence: its own context is not where it should be, and its whole
      result stands in exactly one place from the search point on. */
  lemma SkippedOnEvidence(lines: seq<string>, h: ParsedHunk, index: nat, cursor: nat)
    requires h.WellFormed()
    ensures var r := Locate(lines, h, index, cursor);
            r.Ok? && r.value.placement == None ==>
              var next := r.value.cursor;
              && h.before != [] && CanBeEvidence(h) && next >= |h.after|
              && exists start :: start >= cursor
                   && NoneAt(lines, h.before, Exact, start) && NoneAt(lines, h.before, TrailingWs, start)
                   && (StandsOnlyAt(lines, h, Exact, start, next - |h.after|)
                       || StandsOnlyAt(lines, h, TrailingWs, start, next - |h.after|))
  {
    hide LocateFrom, ParsedHunk.WellFormed, MatchesAt, NoneAt, StandsOnlyAt, AlreadyFrom, AnchorFrom, CanBeEvidence;
    if Locate(lines, h, index, cursor).Ok? && Locate(lines, h, index, cursor).value.placement == None {
      if h.scope.Some? {
        AnchorIsFirst(lines, h.scope.value, cursor, 0);
      }
      var start := SearchStart(lines, h, cursor).value;
      var next := Locate(lines, h, index, cursor).value.cursor;
      assert h.before != [];
      SkippedFrom(lines, h, index, start, 0);
      EvidenceNotEmpty(h);
      AlreadyIff(lines, h, start, next - |h.after|);
      assert GRADES[0] == Exact && GRADES[1] == TrailingWs;
      assert start >= cursor;
    }
  }

  lemma EvidenceNotEmpty(h: ParsedHunk)
    requires CanBeEvidence(h)
    ensures h.after != []
  {
  }

  lemma {:induction false} SkippedFrom(lines: seq<string>, h: ParsedHunk, index: nat, start: nat, g: nat)
    requires h.WellFormed() && h.before != [] && g <= 3
    ensures var r := LocateFrom(lines, h, index, start, g);
            r.Ok? && r.value.placement == None ==>
              && (forall k | g <= k < 2 :: NoneAt(lines, h.before, GRADES[k], start))
              && CanBeEvidence(h) && r.value.cursor >= |h.after|
              && AlreadyFrom(lines, h, start, 0) == Some(r.value.cursor - |h.after|)
    decreases 3 - g
  {
    hide ParsedHunk.WellFormed, MatchesAt, NoneAt, AlreadyFrom, CanBeEvidence, Selected, FindAll, ShiftFor, Rebuilt;
    if g < 3 {
      var selected := Selected(lines, h, GRADES[g], start);
      SelectedIffSole(lines, h, GRADES[g], start, 0);
      SelectedNone(lines, h, GRADES[g], start);
      if |selected| == 1 {
        SelectedFits(lines, h, GRADES[g], start, selected[0]);
        MatchFits(lines, h.before, GRADES[g], selected[0]);
        StrictAlwaysPlaces(lines, h, index, GRADES[g], selected[0]);
      }
      SkippedFrom(lines, h, index, start, g + 1);
    }
  }
}
