/** What tolerant matching means, character by character, and how the lines a hunk adds are indented. */
module Aligning {
  import opened Options
  import opened Spans
  import opened Matching
  import opened Indents
  import opened Locating
  import H = Hunks

  // Lines that match.

  /** A text between whitespace. */
  ghost predicate Padded(s: string, left: string, text: string, right: string) {
    s == left + text + right && AllSpace(left) && AllSpace(right)
  }

  /** Two lines are the same, or differ in whitespace at the end, or in whitespace at both ends. */
  ghost predicate SameButSpace(grade: Grade, a: string, b: string) {
    match grade
    case Exact => a == b
    case TrailingWs => exists t, x, y :: Padded(a, "", t, x) && Padded(b, "", t, y)
    case Indent => exists t, u, v, x, y :: Padded(a, u, t, x) && Padded(b, v, t, y)
  }

  lemma {:induction false} RStripSpace(s: string, x: string)
    requires AllSpace(x)
    ensures RStrip(s + x) == RStrip(s)
  {
    hide IsSpace;
    if x == "" {
      assert s + x == s;
    } else {
      var shorter := x[..|x| - 1];
      assert AllSpace(shorter);
      assert (s + x)[..|s + x| - 1] == s + shorter && (s + x)[|s + x| - 1] == x[|x| - 1];
      RStripSpace(s, shorter);
    }
  }

  lemma {:induction false} RStripRest(s: string) returns (x: string)
    ensures s == RStrip(s) + x && AllSpace(x)
  {
    hide IsSpace;
    if s != "" && IsSpace(s[|s| - 1]) {
      var y := RStripRest(s[..|s| - 1]);
      x := y + [s[|s| - 1]];
    } else {
      x := "";
    }
  }

  lemma {:induction false} LStripSpace(u: string, s: string)
    requires AllSpace(u)
    ensures LStrip(u + s) == LStrip(s)
  {
    hide IsSpace;
    if u == "" {
      assert u + s == s;
    } else {
      assert AllSpace(u[1..]);
      assert (u + s)[1..] == u[1..] + s;
      LStripSpace(u[1..], s);
    }
  }

  /** Stripping a padded text is stripping the text. */
  lemma StripPadded(s: string, left: string, text: string, right: string)
    requires Padded(s, left, text, right)
    ensures Strip(s) == Strip(text)
    ensures left == "" ==> RStrip(s) == RStrip(text)
  {
    hide IsSpace, RStrip, LStrip;
    RStripSpace(left + text, right);
    if left == "" { assert left + text == text; }
    StripLeft(left, text);
  }

  lemma StripLeft(left: string, text: string)
    requires AllSpace(left)
    ensures Strip(left + text) == Strip(text)
  {
    hide IsSpace, RStrip, LStrip;
    var x := RStripRest(text);
    var core := RStrip(text);
    RStripSpace(left + core, x);
    assert left + text == left + core + x;
    RStripTwice(text);
    if core == "" {
      RStripBlank(left);
      assert left + core == left;
    } else {
      RStripEnds(left, core);
      LStripSpace(left, core);
    }
  }

  lemma {:induction false} RStripTwice(s: string)
    ensures RStrip(RStrip(s)) == RStrip(s)
    ensures RStrip(s) != "" ==> !IsSpace(RStrip(s)[|RStrip(s)| - 1])
  {
    hide IsSpace;
    if s != "" && IsSpace(s[|s| - 1]) {
      RStripTwice(s[..|s| - 1]);
    }
  }

  lemma RStripEnds(left: string, core: string)
    requires core != "" && !IsSpace(core[|core| - 1])
    ensures RStrip(left + core) == left + core
  {
    hide IsSpace;
    assert (left + core)[|left + core| - 1] == core[|core| - 1];
  }

  lemma StripRest(s: string) returns (left: string, right: string)
    ensures Padded(s, left, Strip(s), right)
  {
    hide IsSpace;
    right := RStripRest(s);
    var core := RStrip(s);
    left := core[..|core| - |LStrip(core)|];
    assert core == left + LStrip(core);
  }

  /** What two lines are compared by is the same exactly if they are the same up to the whitespace that the grade
      tolerates. */
  lemma KeysMeet(grade: Grade, a: string, b: string)
    ensures Key(grade, a) == Key(grade, b) <==> SameButSpace(grade, a, b)
  {
    hide IsSpace, RStrip, LStrip, Strip, AllSpace;
    match grade
    case Exact =>
    case TrailingWs =>
      if RStrip(a) == RStrip(b) {
        var x := RStripRest(a);
        var y := RStripRest(b);
        assert Padded(a, "", RStrip(a), x) by { NoSpace(); assert "" + RStrip(a) == RStrip(a); }
        assert Padded(b, "", RStrip(a), y) by { NoSpace(); assert "" + RStrip(a) == RStrip(a); }
      }
      if SameButSpace(TrailingWs, a, b) {
        var t, x, y :| Padded(a, "", t, x) && Padded(b, "", t, y);
        StripPadded(a, "", t, x);
        StripPadded(b, "", t, y);
      }
    case Indent =>
      if Strip(a) == Strip(b) {
        var u, x := StripRest(a);
        var v, y := StripRest(b);
        assert Padded(a, u, Strip(a), x) && Padded(b, v, Strip(a), y);
      }
      if SameButSpace(Indent, a, b) {
        var t, u, v, x, y :| Padded(a, u, t, x) && Padded(b, v, t, y);
        StripPadded(a, u, t, x);
        StripPadded(b, v, t, y);
      }
  }

  lemma NoSpace()
    ensures AllSpace("")
  {
  }

  // Lines that are added.

  /** How a line added as `value` comes out as `r`, next to a line of context that reads `expected` in the patch
      and `actual` in the file: it is shifted by as much as that line, and if it has that line's indent in the
      patch, it has the width of that line's indent in the file, and its characters exactly if they commute. */
  ghost predicate Aligned(actual: string, expected: string, value: string, r: string) {
    var a, e, i := |IndentOf(actual)|, |IndentOf(expected)|, |IndentOf(value)|;
    && |IndentOf(r)| == (if i + a >= e then i + a - e else 0)
    && (IndentOf(value) == IndentOf(expected) && LineShiftOf(actual, expected).By? ==>
          var d := LineShiftOf(actual, expected).shift;
          && d.drop <= e
          && (IndentOf(r) == IndentOf(actual) <==> Commutes(IndentOf(expected), d)))
  }

  /** Shifting one line. */
  lemma ShiftedLine(value: string, d: Shift)
    requires AllSpace(d.prefix) && Strip(value) != ""
    ensures var r, i := ShiftIndent(value, d), |IndentOf(value)|;
            && LStrip(r) == LStrip(value) && Strip(r) == Strip(value)
            && |IndentOf(r)| == |d.prefix| + (if i >= d.drop then i - d.drop else 0)
  {
    hide IsSpace, LStrip, RStrip, IndentOf, Strip;
    NonBlankParts(value);
    var indent, l := IndentOf(value), LStrip(value);
    var kept := if |indent| >= d.drop then indent[d.drop..] else "";
    var i := d.prefix + kept;
    assert AllSpace(i);
    assert indent[0..] == indent && "" + l == l;
    assert ShiftIndent(value, d) == i + l by { ShiftedParts(value, d); }
    Parts(i, l);
    Parts(indent, l);
  }

  lemma ShiftedParts(value: string, d: Shift)
    requires Strip(value) != ""
    ensures var indent, l := IndentOf(value), LStrip(value);
            ShiftIndent(value, d) == d.prefix + (if |indent| >= d.drop then indent[d.drop..] else "") + l
  {
    hide IsSpace, RStrip, LStrip, Strip, IndentOf;
    var indent, l := IndentOf(value), LStrip(value);
    IndentAndRest(value);
    if d.drop == 0 {
      assert indent[0..] == indent;
      Regrouped(d.prefix, indent, l);
    } else if |indent| >= d.drop {
      Regrouped(d.prefix, indent[d.drop..], l);
    } else {
      assert d.prefix + "" == d.prefix;
    }
  }

  lemma IndentAndRest(value: string)
    ensures value == IndentOf(value) + LStrip(value)
  {
    hide IsSpace;
  }

  lemma Regrouped(a: string, b: string, c: string)
    ensures a + (b + c) == (a + b) + c
  {
  }

  /** A shift measured on one line of context aligns every added line with it. */
  lemma ShiftAligns(actual: string, expected: string, value: string, d: Shift)
    requires LineShiftOf(actual, expected) == By(d) && Strip(value) != ""
    ensures Aligned(actual, expected, value, ShiftIndent(value, d))
    ensures LStrip(ShiftIndent(value, d)) == LStrip(value)
  {
    hide IsSpace, LStrip, RStrip, IndentOf, Strip, Commutes, ShiftIndent;
    PrefixIsSpace(actual, expected, d);
    ShiftedLine(value, d);
    if IndentOf(value) == IndentOf(expected) { AddedLineAligns(actual, expected, value, d); }
  }

  lemma PrefixIsSpace(actual: string, expected: string, d: Shift)
    requires LineShiftOf(actual, expected) == By(d)
    ensures AllSpace(d.prefix)
    ensures |IndentOf(actual)| == |IndentOf(expected)| + |d.prefix| - d.drop && (d.prefix == "" || d.drop == 0)
  {
    hide IsSpace, LStrip, RStrip, IndentOf, Strip;
    NonBlankParts(actual);
  }

  predicate AllBlank(lines: seq<string>) {
    forall k | 0 <= k < |lines| :: Strip(lines[k]) == ""
  }

  /** How every added line of a placement comes out: as the patch has it, unless the match was tolerant of
      indents; then it keeps its visible text and is aligned with every line of context that is not blank. */
  ghost predicate AddedAligned(lines: seq<string>, h: ParsedHunk, p: Placement)
    requires h.WellFormed() && p.start + |h.before| <= |lines|
  {
    && |p.added| == |h.after|
    && forall j | 0 <= j < |h.after| && h.sources[j].None? ::
         && (!p.quality.Indent? || Strip(h.after[j]) == "" || AllBlank(h.before) ==> p.added[j] == h.after[j])
         && (p.quality.Indent? && Strip(h.after[j]) != "" ==>
               && LStrip(p.added[j]) == LStrip(h.after[j])
               && forall k | 0 <= k < |h.before| && Strip(h.before[k]) != "" ::
                    Aligned(lines[p.start + k], h.before[k], h.after[j], p.added[j]))
  }

  /** The lines added by an accepted placement. */
  lemma PlacedAligned(lines: seq<string>, h: ParsedHunk, index: nat, grade: Grade, at: nat)
    requires h.WellFormed() && MatchesAt(lines, h.before, grade, at) && PlaceAt(lines, h, index, grade, at).Some?
    ensures AddedAligned(lines, h, PlaceAt(lines, h, index, grade, at).value)
  {
    hide IsSpace, LStrip, RStrip, IndentOf, Strip, ShiftIndent, LineShiftOf, DeltaOf, Aligned;
    var p := PlaceAt(lines, h, index, grade, at).value;
    var shift := ShiftFor(lines, at, h, grade).value;
    var actual := lines[at..at + |h.before|];
    forall j | 0 <= j < |h.after| && h.sources[j].None?
      ensures !p.quality.Indent? || Strip(h.after[j]) == "" || AllBlank(h.before) ==> p.added[j] == h.after[j]
      ensures p.quality.Indent? && Strip(h.after[j]) != "" ==> LStrip(p.added[j]) == LStrip(h.after[j])
      ensures p.quality.Indent? && Strip(h.after[j]) != "" ==>
                forall k | 0 <= k < |h.before| && Strip(h.before[k]) != "" ::
                  Aligned(lines[at + k], h.before[k], h.after[j], p.added[j])
    {
      assert p.added[j] == ShiftIndent(h.after[j], shift);
      NoShift(h.after[j], shift);
      if grade.Indent? { DeltaAligns(actual, h.before, shift, h.after[j]); }
    }
  }

  lemma NoShift(value: string, d: Shift)
    ensures Strip(value) == "" || d == Shift("", 0) ==> ShiftIndent(value, d) == value
  {
    hide Strip, LStrip, IndentOf;
  }

  /** The shift of a whole match. */
  lemma DeltaAligns(actual: seq<string>, expected: seq<string>, d: Shift, value: string)
    requires |actual| == |expected| && DeltaOf(actual, expected) == Some(d)
    requires forall k | 0 <= k < |actual| :: Strip(actual[k]) == Strip(expected[k])
    ensures AllBlank(expected) ==> ShiftIndent(value, d) == value
    ensures Strip(value) != "" ==> LStrip(ShiftIndent(value, d)) == LStrip(value)
    ensures Strip(value) != "" ==>
              forall k | 0 <= k < |expected| && Strip(expected[k]) != "" ::
                Aligned(actual[k], expected[k], value, ShiftIndent(value, d))
  {
    hide IsSpace, LStrip, RStrip, IndentOf, Strip, ShiftIndent, Aligned;
    var n := |actual|;
    var delta := IndentDelta(actual, expected, n).value;
    IndentDeltaIffAgreed(actual, expected, n, delta);
    NoShift(value, d);
    forall k | 0 <= k < n && Strip(expected[k]) != "" && Strip(value) != ""
      ensures LStrip(ShiftIndent(value, d)) == LStrip(value)
              && Aligned(actual[k], expected[k], value, ShiftIndent(value, d))
    {
      assert !LineShiftOf(actual[k], expected[k]).Blank?;
      ShiftAligns(actual[k], expected[k], value, d);
    }
    if delta.Some? {
      var k :| 0 <= k < n && LineShiftOf(actual[k], expected[k]) == By(delta.value);
      assert Strip(expected[k]) != "";
    }
  }

  /** Of every placement the search accepts: its span holds the context at its grade, every line of context is
      kept as the file has it, and the added lines are aligned. */
  lemma LocatedAligned(lines: seq<string>, h: ParsedHunk, index: nat, cursor: nat)
    requires h.WellFormed() && h.before != [] && Locate(lines, h, index, cursor).Ok?
    ensures match Locate(lines, h, index, cursor).value.placement
            case None => true
            case Some(p) =>
              && p.end == p.start + |h.before| <= |lines|
              && (forall k | 0 <= k < |h.before| :: SameButSpace(p.quality, lines[p.start + k], h.before[k]))
              && AddedAligned(lines, h, p)
              && forall j | 0 <= j < |h.after| && h.sources[j].Some? ::
                   p.added[j] == lines[p.start + h.sources[j].value]
  {
    hide ShiftFor, Key, Rebuilt, NoneAt, LocateFrom, AnchorFrom, AddedAligned, SameButSpace, EofIndex,
      ParsedHunk.WellFormed;
    var r := Locate(lines, h, index, cursor).value;
    if r.placement.Some? {
      var p := r.placement.value;
      var start := SearchStart(lines, h, cursor).value;
      AcceptedIff(lines, h, index, start, 0, p, r.cursor);
      var g :| 0 <= g < 3 && Accepts(lines, h, start, 0, g, p.start)
               && PlaceAt(lines, h, index, GRADES[g], p.start) == Some(p);
      PlacedAligned(lines, h, index, GRADES[g], p.start);
      RebuiltKeepsContext(lines, h, index, GRADES[g], p.start);
      forall k | 0 <= k < |h.before| ensures SameButSpace(p.quality, lines[p.start + k], h.before[k]) {
        assert Key(GRADES[g], lines[p.start + k]) == Key(GRADES[g], h.before[k]);
        KeysMeet(p.quality, lines[p.start + k], h.before[k]);
      }
    }
  }

  /** What a placement of one hunk is: it replaces lines that match the context by the context as the file has it
      and the added lines, aligned; or it appends to the end of the file what a hunk without context adds. */
  ghost predicate PlacedRight(lines: seq<string>, h: ParsedHunk, p: Placement)
    requires h.WellFormed()
  {
    if h.before == [] then
      p.start == p.end == EofIndex(lines) && p.added == h.after && p.was == []
    else
      && p.end == p.start + |h.before| <= |lines| && p.was == lines[p.start..p.end]
      && (forall k | 0 <= k < |h.before| :: SameButSpace(p.quality, lines[p.start + k], h.before[k]))
      && AddedAligned(lines, h, p)
      && forall j | 0 <= j < |h.after| && h.sources[j].Some? :: p.added[j] == lines[p.start + h.sources[j].value]
  }

  /** Every hunk from number i on is skipped or placed once, in order. */
  ghost predicate EachOnce(n: nat, i: nat, m: H.Matched) {
    && (forall p | p in m.placed :: i <= p.index < n)
    && (forall k | k in m.skipped :: i <= k < n)
    && (forall k | i <= k < n :: k in m.skipped <==> forall p | p in m.placed :: p.index != k)
    && (forall a, b | 0 <= a < b < |m.placed| :: m.placed[a].index < m.placed[b].index)
  }

  lemma {:induction false} AllPlacedRight(lines: seq<string>, hs: seq<ParsedHunk>, i: nat, cursor: nat)
    requires i <= |hs| && H.AllWellFormed(hs) && H.LocateAll(lines, hs, i, cursor).Ok?
    ensures var m := H.LocateAll(lines, hs, i, cursor).value;
            EachOnce(|hs|, i, m) && forall p | p in m.placed :: p.index < |hs| && PlacedRight(lines, hs[p.index], p)
    decreases |hs| - i
  {
    hide Locate, ParsedHunk.WellFormed, PlacedRight;
    if i < |hs| {
      var here := Locate(lines, hs[i], i, cursor).value;
      AllPlacedRight(lines, hs, i + 1, here.cursor);
      OnePlacedRight(lines, hs[i], i, cursor);
      var later := H.LocateAll(lines, hs, i + 1, here.cursor).value;
      OneMore(|hs|, i, here.placement, later);
    }
  }

  lemma OnePlacedRight(lines: seq<string>, h: ParsedHunk, index: nat, cursor: nat)
    requires h.WellFormed() && Locate(lines, h, index, cursor).Ok?
    ensures match Locate(lines, h, index, cursor).value.placement
            case None => true
            case Some(p) => p.index == index && PlacedRight(lines, h, p)
  {
    hide Locate, ParsedHunk.WellFormed, AddedAligned, SameButSpace;
    LocatedFits(lines, h, index, cursor);
    if h.before != [] { LocatedAligned(lines, h, index, cursor); }
  }

  lemma OneMore(n: nat, i: nat, here: Option<Placement>, later: H.Matched)
    requires i < n && EachOnce(n, i + 1, later) && (here.Some? ==> here.value.index == i)
    ensures EachOnce(n, i, if here.Some? then H.Matched([here.value] + later.placed, later.skipped)
                           else H.Matched(later.placed, [i] + later.skipped))
  {
    if here.Some? {
      var placed := [here.value] + later.placed;
      assert forall p :: p in placed <==> p == here.value || p in later.placed;
    } else {
      assert forall k :: k in [i] + later.skipped <==> k == i || k in later.skipped;
    }
  }

  /** What the engine places, over a whole patch: every hunk once or not at all, and each as it has to be. */
  lemma PatchPlacedRight(content: string, hunks: seq<H.PatchHunk>)
    requires H.Placed(content, hunks).Some?
    ensures H.AllWellFormed(H.ParsedAll(hunks)) && |H.ParsedAll(hunks)| == |hunks|
    ensures var m := H.Placed(content, hunks).value;
            && EachOnce(|hunks|, 0, m)
            && forall p | p in m.placed ::
                 p.index < |hunks| && PlacedRight(H.LinesOf(content), H.ParsedAll(hunks)[p.index], p)
  {
    hide PlacedRight, H.LocateAll, EachOnce;
    H.ParsedAllWellFormed(hunks);
    AllPlacedRight(H.LinesOf(content), H.ParsedAll(hunks), 0, 0);
  }
}
