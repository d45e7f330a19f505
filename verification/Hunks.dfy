/** Applying the hunks of one file: parsing, placing them one after another with a cursor that only
    moves forward, the overlap check, the splice and the report. */
module Hunks {
  import opened Options
  import opened Texts
  import opened Spans
  import opened Ordering
  import opened Matching
  import opened Locating

  const END_OF_FILE_MARKER := "*** End of File"

  datatype PatchHunk = PatchHunk(lines: seq<string>, scope: Option<string>)

  /** What the first character of a hunk line makes of it. */
  datatype Mark = EofMark | Context(value: string) | Removed(value: string) | Added(value: string) | Malformed

  function MarkOf(raw: string): Mark {
    if raw == END_OF_FILE_MARKER then EofMark
    else if raw == "" then Context("")
    else if raw[0] == ' ' then Context(raw[1..])
    else if raw[0] == '-' then Removed(raw[1..])
    else if raw[0] == '+' then Added(raw[1..])
    else Malformed
  }

  /** The file lines the hunk expects: its context and removed lines. */
  function BeforeOf(raw: seq<string>): seq<string> {
    if raw == [] then []
    else
      var mark := MarkOf(raw[|raw| - 1]);
      BeforeOf(raw[..|raw| - 1]) + if mark.Context? || mark.Removed? then [mark.value] else []
  }

  /** The file lines the hunk leaves: its context and added lines. */
  function AfterOf(raw: seq<string>): seq<string> {
    if raw == [] then []
    else
      var mark := MarkOf(raw[|raw| - 1]);
      AfterOf(raw[..|raw| - 1]) + if mark.Context? || mark.Added? then [mark.value] else []
  }

  function SourcesOf(raw: seq<string>): seq<Option<nat>> {
    if raw == [] then []
    else
      var init := raw[..|raw| - 1];
      SourcesOf(init) + match MarkOf(raw[|raw| - 1])
                        case Context(_) => [Some(|BeforeOf(init)|)]
                        case Added(_) => [None]
                        case _ => []
  }

  predicate HasMalformed(raw: seq<string>) {
    exists line | line in raw :: MarkOf(line).Malformed?
  }

  function Parsed(h: PatchHunk): ParsedHunk {
    ParsedHunk(BeforeOf(h.lines), AfterOf(h.lines), SourcesOf(h.lines), h.scope, END_OF_FILE_MARKER in h.lines)
  }

  /** What one more line adds. */
  lemma OneMoreLine(raw: seq<string>, i: nat)
    requires i < |raw|
    ensures var mark, init, more := MarkOf(raw[i]), raw[..i], raw[..i + 1];
            && BeforeOf(more) == BeforeOf(init) + (if mark.Context? || mark.Removed? then [mark.value] else [])
            && AfterOf(more) == AfterOf(init) + (if mark.Context? || mark.Added? then [mark.value] else [])
            && SourcesOf(more) == SourcesOf(init)
                 + (match mark case Context(_) => [Some(|BeforeOf(init)|)] case Added(_) => [None] case _ => [])
            && (HasMalformed(more) <==> HasMalformed(init) || mark.Malformed?)
            && (END_OF_FILE_MARKER in more <==> END_OF_FILE_MARKER in init || mark.EofMark?)
  {
    assert raw[..i + 1][..i] == raw[..i];
    assert raw[..i + 1] == raw[..i] + [raw[i]];
    assert forall line :: line in raw[..i + 1] <==> line in raw[..i] || line == raw[i];
  }

  /** What the marks stand for, and that there are no others. */
  lemma MarksMean(value: string, raw: string)
    ensures MarkOf(" " + value) == Context(value) && MarkOf("") == Context("")
    ensures MarkOf("-" + value) == Removed(value) && MarkOf("+" + value) == Added(value)
    ensures MarkOf(raw).EofMark? <==> raw == "*** End of File"
    ensures MarkOf(raw).Malformed? <==> raw != "" && raw[0] !in {' ', '-', '+'} && raw != "*** End of File"
  {
    assert (" " + value)[1..] == value && ("-" + value)[1..] == value && ("+" + value)[1..] == value;
    assert END_OF_FILE_MARKER[0] == '*';
  }

  lemma {:induction false} SidesGrow(raw: seq<string>, i: nat)
    requires i <= |raw|
    ensures BeforeOf(raw[..i]) <= BeforeOf(raw) && AfterOf(raw[..i]) <= AfterOf(raw)
            && SourcesOf(raw[..i]) <= SourcesOf(raw)
    decreases |raw| - i
  {
    if i == |raw| {
      assert raw[..i] == raw;
    } else {
      SidesGrow(raw, i + 1);
      OneMoreLine(raw, i);
    }
  }

  /** Line i of a hunk is on the sides its mark says, behind what the lines before it put there, and on no other: a
      line of context is traced to itself. */
  lemma SideAt(raw: seq<string>, i: nat)
    requires i < |raw|
    ensures var mark, b, a := MarkOf(raw[i]), |BeforeOf(raw[..i])|, |AfterOf(raw[..i])|;
            && (mark.Context? || mark.Removed? ==> b < |BeforeOf(raw)| && BeforeOf(raw)[b] == mark.value)
            && (mark.Context? || mark.Added? ==>
                  && a < |AfterOf(raw)| && AfterOf(raw)[a] == mark.value
                  && |SourcesOf(raw[..i])| == a < |SourcesOf(raw)|
                  && SourcesOf(raw)[a] == if mark.Context? then Some(b) else None)
            && |BeforeOf(raw[..i + 1])| == b + (if mark.Context? || mark.Removed? then 1 else 0)
            && |AfterOf(raw[..i + 1])| == a + (if mark.Context? || mark.Added? then 1 else 0)
  {
    hide MarkOf, BeforeOf, AfterOf, SourcesOf;
    OneMoreLine(raw, i);
    SidesGrow(raw, i + 1);
    ParsedWellFormed(raw[..i], None);
  }

  /** The end-of-file mark counts wherever it stands in a hunk, puts nothing on either side, and the anchor is the
      hunk's own. */
  lemma MarkedAtEof(h: PatchHunk)
    ensures Parsed(h).scope == h.scope
    ensures Parsed(h).eofAnchor <==> exists i | 0 <= i < |h.lines| :: MarkOf(h.lines[i]).EofMark?
  {
    if Parsed(h).eofAnchor {
      var i :| 0 <= i < |h.lines| && h.lines[i] == END_OF_FILE_MARKER;
      assert MarkOf(h.lines[i]).EofMark?;
    }
    if i :| 0 <= i < |h.lines| && MarkOf(h.lines[i]).EofMark? {
      assert h.lines[i] in h.lines;
    }
  }

  lemma MalformedStays(raw: seq<string>, i: nat)
    requires i <= |raw| && HasMalformed(raw[..i])
    ensures HasMalformed(raw)
  {
    assert forall line | line in raw[..i] :: line in raw;
  }

  /** parse_update_hunk. */
  method ParseUpdateHunk(h: PatchHunk) returns (r: Option<ParsedHunk>)
    ensures r == if HasMalformed(h.lines) then None else Some(Parsed(h))
  {
    hide BeforeOf, AfterOf, SourcesOf, HasMalformed, MarkOf, END_OF_FILE_MARKER;
    NoLines();
    var before: seq<string>, after: seq<string>, sources: seq<Option<nat>>, eof := [], [], [], false;
    var i := 0;
    while i < |h.lines|
      invariant 0 <= i <= |h.lines| && !HasMalformed(h.lines[..i])
      invariant before == BeforeOf(h.lines[..i]) && after == AfterOf(h.lines[..i]) && sources == SourcesOf(h.lines[..i])
      invariant eof == (END_OF_FILE_MARKER in h.lines[..i])
    {
      OneMoreLine(h.lines, i);
      match MarkOf(h.lines[i]) {
        case EofMark => eof := true;
        case Context(value) => before, after, sources := before + [value], after + [value], sources + [Some(|before|)];
        case Removed(value) => before := before + [value];
        case Added(value) => after, sources := after + [value], sources + [None];
        case Malformed =>
          MalformedStays(h.lines, i + 1);
          return None;
      }
      i := i + 1;
    }
    assert h.lines[..i] == h.lines;
    r := Some(ParsedHunk(before, after, sources, h.scope, eof));
  }

  lemma NoLines()
    ensures BeforeOf([]) == [] && AfterOf([]) == [] && SourcesOf([]) == [] && !HasMalformed([])
  {
  }

  /** Parsing gives each replacement line its place of origin: context lines in order, each of
      them a line of `before`. */
  lemma {:induction false} ParsedWellFormed(raw: seq<string>, scope: Option<string>)
    ensures Parsed(PatchHunk(raw, scope)).WellFormed()
  {
    if raw != [] {
      ParsedWellFormed(raw[..|raw| - 1], scope);
    }
  }

  /** A hunk of context lines only has the same text on both sides. */
  lemma {:induction false} ContextOnly(raw: seq<string>, scope: Option<string>)
    requires forall line | line in raw :: MarkOf(line).Context? || MarkOf(line).EofMark?
    ensures Parsed(PatchHunk(raw, scope)).PureContext()
  {
    if raw != [] {
      ContextOnly(raw[..|raw| - 1], scope);
    }
  }

  function ParsedAll(hunks: seq<PatchHunk>): (r: seq<ParsedHunk>)
    ensures |r| == |hunks| && forall i | 0 <= i < |hunks| :: r[i] == Parsed(hunks[i])
  {
    seq(|hunks|, i requires 0 <= i < |hunks| => Parsed(hunks[i]))
  }

  ghost predicate AllWellFormed(hs: seq<ParsedHunk>) {
    forall h | h in hs :: h.WellFormed()
  }

  lemma ParsedAllWellFormed(hunks: seq<PatchHunk>)
    ensures AllWellFormed(ParsedAll(hunks))
  {
    forall i | 0 <= i < |hunks| ensures Parsed(hunks[i]).WellFormed() {
      ParsedWellFormed(hunks[i].lines, hunks[i].scope);
    }
  }

  predicate SomeMalformed(hunks: seq<PatchHunk>) {
    exists h | h in hunks :: HasMalformed(h.lines)
  }

  method ParseHunks(hunks: seq<PatchHunk>) returns (r: Option<seq<ParsedHunk>>)
    ensures r == if SomeMalformed(hunks) then None else Some(ParsedAll(hunks))
  {
    hide Parsed, HasMalformed;
    var parsed := [];
    var i := 0;
    while i < |hunks|
      invariant 0 <= i <= |hunks| && parsed == ParsedAll(hunks[..i]) && !SomeMalformed(hunks[..i])
    {
      var one := ParseUpdateHunk(hunks[i]);
      if one == None { return None; }
      assert hunks[..i + 1] == hunks[..i] + [hunks[i]];
      parsed := parsed + [one.value];
      i := i + 1;
    }
    assert hunks[..i] == hunks;
    r := Some(parsed);
  }

  /** The placements of all hunks in hunk order, and the hunks skipped as already applied. */
  datatype Matched = Matched(placed: seq<Placement>, skipped: seq<nat>)

  /** Placing hunks one after another: what hunk number i and its successors add. */
  function LocateAll(lines: seq<string>, hs: seq<ParsedHunk>, i: nat, cursor: nat): Result<Matched, Failure>
    requires i <= |hs| && AllWellFormed(hs)
    decreases |hs| - i
  {
    if i == |hs| then Ok(Matched([], []))
    else
      match Locate(lines, hs[i], i, cursor)
      case Err(e) => Err(e)
      case Ok(here) =>
        match LocateAll(lines, hs, i + 1, here.cursor)
        case Err(e) => Err(e)
        case Ok(later) =>
          if here.placement.Some? then Ok(Matched([here.placement.value] + later.placed, later.skipped))
          else Ok(Matched(later.placed, [i] + later.skipped))
  }

  function Prepend(m: Matched, later: Result<Matched, Failure>): Result<Matched, Failure> {
    match later
    case Err(e) => Err(e)
    case Ok(l) => Ok(Matched(m.placed + l.placed, m.skipped + l.skipped))
  }

  lemma PrependNothing(m: Matched, later: Result<Matched, Failure>)
    ensures Prepend(Matched([], []), later) == later
    ensures Prepend(m, Ok(Matched([], []))) == Ok(m)
  {
    assert m.placed + [] == m.placed && m.skipped + [] == m.skipped;
    if later.Ok? {
      assert [] + later.value.placed == later.value.placed && [] + later.value.skipped == later.value.skipped;
    }
  }

  method LocateHunks(lines: seq<string>, hs: seq<ParsedHunk>) returns (r: Result<Matched, Failure>)
    requires AllWellFormed(hs)
    ensures r == LocateAll(lines, hs, 0, 0)
  {
    hide Locate, ParsedHunk.WellFormed;
    var matched: seq<Placement>, skipped: seq<nat> := [], [];
    var cursor: nat, i: nat := 0, 0;
    PrependNothing(Matched([], []), LocateAll(lines, hs, 0, 0));
    while i < |hs|
      invariant i <= |hs|
      invariant LocateAll(lines, hs, 0, 0) == Prepend(Matched(matched, skipped), LocateAll(lines, hs, i, cursor))
    {
      var one := LocateHunk(lines, hs[i], i, cursor);
      if one.Err? { return Err(one.error); }
      PrependOne(lines, hs, i, cursor, Matched(matched, skipped));
      if one.value.placement.Some? {
        matched := matched + [one.value.placement.value];
      } else {
        skipped := skipped + [i];
      }
      cursor := one.value.cursor;
      i := i + 1;
    }
    PrependNothing(Matched(matched, skipped), LocateAll(lines, hs, i, cursor));
    r := Ok(Matched(matched, skipped));
  }

  lemma PrependOne(lines: seq<string>, hs: seq<ParsedHunk>, i: nat, cursor: nat, m: Matched)
    requires AllWellFormed(hs) && i < |hs| && Locate(lines, hs[i], i, cursor).Ok?
    ensures var here := Locate(lines, hs[i], i, cursor).value;
            Prepend(m, LocateAll(lines, hs, i, cursor)) ==
            Prepend(if here.placement.Some? then Matched(m.placed + [here.placement.value], m.skipped)
              else Matched(m.placed, m.skipped + [i]),
                    LocateAll(lines, hs, i + 1, here.cursor))
  {
    hide Locate, ParsedHunk.WellFormed;
    var here := Locate(lines, hs[i], i, cursor).value;
    var later := LocateAll(lines, hs, i + 1, here.cursor);
    if later.Ok? {
      if here.placement.Some? {
        assert m.placed + ([here.placement.value] + later.value.placed) ==
                 m.placed + [here.placement.value] + later.value.placed;
      } else {
        assert m.skipped + ([i] + later.value.skipped) == m.skipped + [i] + later.value.skipped;
      }
    }
  }

  /** A placement of a hunk with nothing to find: appended at the end of the file. */
  predicate PureAddition(p: Placement) {
    p.start == p.end
  }

  /** One placement of a hunk numbered `first` or later, searched for from `cursor` on. */
  ghost predicate PlacedFrom(lines: seq<string>, p: Placement, first: nat, cursor: nat) {
    Lies(p, lines) && first <= p.index && if PureAddition(p) then p.start == EofIndex(lines) else cursor <= p.start
  }

  /** Two placements, the first of an earlier hunk. */
  predicate Follows(a: Placement, b: Placement) {
    a.index < b.index && (PureAddition(a) || PureAddition(b) || a.end <= b.start)
  }

  /** What the placements of one file look like, in hunk order. */
  ghost predicate Forward(lines: seq<string>, ps: seq<Placement>, first: nat, cursor: nat) {
    && (forall p | p in ps :: PlacedFrom(lines, p, first, cursor))
    && forall i, j | 0 <= i < j < |ps| :: Follows(ps[i], ps[j])
  }

  /** Because the cursor only moves forward, placements that replace text come out disjoint and in
      hunk order by themselves; only appended text can be out of line. */
  lemma {:induction false} PlacedForward(lines: seq<string>, hs: seq<ParsedHunk>, i: nat, cursor: nat)
    requires i <= |hs| && AllWellFormed(hs)
    ensures LocateAll(lines, hs, i, cursor).Ok? ==>
              Forward(lines, LocateAll(lines, hs, i, cursor).value.placed, i, cursor)
    decreases |hs| - i
  {
    hide Locate, ParsedHunk.WellFormed, Forward;
    if LocateAll(lines, hs, i, cursor).Err? {
    } else if i < |hs| {
      var here := Locate(lines, hs[i], i, cursor).value;
      LocatedFits(lines, hs[i], i, cursor);
      PlacedForward(lines, hs, i + 1, here.cursor);
      ForwardStep(lines, hs[i], i, cursor, here, LocateAll(lines, hs, i + 1, here.cursor).value.placed);
    } else {
      ForwardNothing(lines, i, cursor);
    }
  }

  lemma ForwardNothing(lines: seq<string>, first: nat, cursor: nat)
    ensures Forward(lines, [], first, cursor)
  {
  }

  lemma ForwardStep(lines: seq<string>, h: ParsedHunk, i: nat, cursor: nat, here: Located, later: seq<Placement>)
    requires Fits(lines, h, i, cursor, here) && Forward(lines, later, i + 1, here.cursor)
    ensures Forward(lines, if here.placement.Some? then [here.placement.value] + later else later, i, cursor)
  {
    hide EofIndex, Fits, Lies;
    FitsLies(lines, h, i, cursor, here);
    if here.placement.Some? {
      var p := here.placement.value;
      var all := [p] + later;
      forall k | 1 <= k < |all| ensures all[k] in later && PlacedFrom(lines, all[k], i, cursor) && Follows(p, all[k]) {
        assert all[k] == later[k - 1];
        assert PlacedFrom(lines, later[k - 1], i + 1, here.cursor);
      }
    }
  }

  lemma FitsLies(lines: seq<string>, h: ParsedHunk, i: nat, cursor: nat, here: Located)
    requires Fits(lines, h, i, cursor, here)
    ensures cursor <= here.cursor
    ensures here.placement.Some? ==>
              var p := here.placement.value;
              && Lies(p, lines) && p.index == i
              && if PureAddition(p) then p.start == EofIndex(lines) else cursor <= p.start && p.end == here.cursor
  {
    if here.placement.Some? {
      var p := here.placement.value;
      assert lines[p.start..p.start] == [];
    }
  }

  /** The first neighbours that overlap, as the check reports them. */
  function FirstOverlap(s: seq<Placement>, i: nat): Option<(nat, nat)>
    requires i < |s| || s == []
    decreases |s| - i
  {
    if |s| <= i + 1 then None
    else if s[i].end > s[i + 1].start then Some((s[i].index, s[i + 1].index))
    else FirstOverlap(s, i + 1)
  }

  method CheckOverlap(s: seq<Placement>) returns (r: Option<(nat, nat)>)
    ensures r == FirstOverlap(s, 0)
  {
    var i := 0;
    while i + 1 < |s|
      invariant 0 <= i && (i < |s| || (s == [] && i == 0)) && FirstOverlap(s, 0) == FirstOverlap(s, i)
    {
      if s[i].end > s[i + 1].start { return Some((s[i].index, s[i + 1].index)); }
      i := i + 1;
    }
    r := None;
  }

  lemma {:induction false} FirstOverlapIff(s: seq<Placement>, i: nat)
    requires i < |s| || s == []
    ensures FirstOverlap(s, i) == None <==> forall k | i <= k < |s| - 1 :: s[k].end <= s[k + 1].start
    decreases |s| - i
  {
    if i + 1 < |s| && s[i].end <= s[i + 1].start {
      FirstOverlapIff(s, i + 1);
    }
  }

  /** The overlap check passes exactly when the sorted placements can be spliced. */
  lemma NoOverlapIffOrdered(lines: seq<string>, ps: seq<Placement>)
    requires forall p | p in ps :: Lies(p, lines)
    ensures FirstOverlap(Sorted(ByStart, ps), 0) == None <==> Ordered(Sorted(ByStart, ps), 0, lines)
  {
    hide Lies, Ordered, FirstOverlap, Sorted;
    SameMembers(ByStart, ps);
    NeighboursSuffice(Sorted(ByStart, ps), lines);
    if ps != [] || Sorted(ByStart, ps) == [] {
      FirstOverlapIff(Sorted(ByStart, ps), 0);
    }
  }

  /** Appended text `a` collides with replaced text `k`: the span takes in the empty piece after the
      final newline, and it starts before that piece or its hunk comes first. */
  predicate Collides(lines: seq<string>, k: Placement, a: Placement) {
    && PureAddition(a) && k.end > EofIndex(lines)
    && (k.start < EofIndex(lines) || k.index < a.index)
  }

  lemma {:induction false} OverlapAt(s: seq<Placement>, i: nat) returns (k: nat)
    requires (i < |s| || s == []) && FirstOverlap(s, i).Some?
    ensures i <= k < |s| - 1 && s[k].end > s[k + 1].start && FirstOverlap(s, i) == Some((s[k].index, s[k + 1].index))
    decreases |s| - i
  {
    if s[i].end > s[i + 1].start {
      k := i;
    } else {
      k := OverlapAt(s, i + 1);
    }
  }

  /** The two hunks an overlap names do collide. */
  lemma OverlapNames(lines: seq<string>, ps: seq<Placement>)
    requires Forward(lines, ps, 0, 0) && FirstOverlap(Sorted(ByStart, ps), 0).Some?
    ensures var pair := FirstOverlap(Sorted(ByStart, ps), 0).value;
            exists k, a | k in ps && a in ps :: Collides(lines, k, a) && pair == (k.index, a.index)
  {
    hide Ordered, Sorted, Forward, Lies, Collides, AtOrBefore, IndexAscending, FirstOverlap;
    var s := Sorted(ByStart, ps);
    var i := OverlapAt(s, 0);
    ForwardFacts(lines, ps);
    SortedNeighbours(ps, i);
    NeighboursCollide(lines, ps, s[i], s[i + 1]);
  }

  /** The only way to be refused for overlap. */
  lemma OverlapIff(lines: seq<string>, ps: seq<Placement>)
    requires Forward(lines, ps, 0, 0)
    ensures FirstOverlap(Sorted(ByStart, ps), 0) != None <==> exists k, a | k in ps && a in ps :: Collides(lines, k, a)
  {
    hide Forward, Ordered, FirstOverlap, Sorted, Collides, Lies, EofIndex;
    var s := Sorted(ByStart, ps);
    assert forall p | p in ps :: Lies(p, lines) by { ForwardFacts(lines, ps); }
    NoOverlapIffOrdered(lines, ps);
    SameMembers(ByStart, ps);
    if Ordered(s, 0, lines) {
      forall k, a | k in ps && a in ps ensures !Collides(lines, k, a) {
        OrderedDoNotCollide(lines, ps, k, a);
      }
    } else {
      DisorderCollides(lines, ps);
    }
  }

  lemma ForwardFacts(lines: seq<string>, ps: seq<Placement>)
    requires Forward(lines, ps, 0, 0)
    ensures IndexAscending(ps) && forall p | p in ps :: Lies(p, lines)
  {
  }

  lemma EachPlaced(lines: seq<string>, ps: seq<Placement>, p: Placement)
    requires Forward(lines, ps, 0, 0) && p in ps
    ensures PlacedFrom(lines, p, 0, 0)
  {
  }

  lemma OrderedDoNotCollide(lines: seq<string>, ps: seq<Placement>, k: Placement, a: Placement)
    requires Forward(lines, ps, 0, 0) && k in ps && a in ps
    requires Ordered(Sorted(ByStart, ps), 0, lines)
    ensures !Collides(lines, k, a)
  {
    hide Ordered, Sorted, Forward;
    var s := Sorted(ByStart, ps);
    ForwardFacts(lines, ps);
    EachPlaced(lines, ps, a);
    EachPlaced(lines, ps, k);
    SameMembers(ByStart, ps);
    SortSorts(ByStart, ps);
    SortKeepsTies(ByStart, ps);
    OrderedBounds(s, 0, lines);
    var i :| 0 <= i < |s| && s[i] == k;
    var j :| 0 <= j < |s| && s[j] == a;
    assert i < j ==> s[i].end <= s[j].start;
    assert j < i ==> AtOrBefore(ByStart, s[j], s[i]);
    assert j < i && AtOrBefore(ByStart, s[i], s[j]) ==> s[j].index < s[i].index;
  }

  lemma SortedNeighbours(ps: seq<Placement>, i: nat)
    requires IndexAscending(ps) && i + 1 < |Sorted(ByStart, ps)|
    ensures var s := Sorted(ByStart, ps);
            && s[i] in ps && s[i + 1] in ps && AtOrBefore(ByStart, s[i], s[i + 1])
            && (AtOrBefore(ByStart, s[i + 1], s[i]) ==> s[i].index < s[i + 1].index)
  {
    hide Sorted, AtOrBefore, IndexAscending;
    SameMembers(ByStart, ps);
    SortSorts(ByStart, ps);
    SortKeepsTies(ByStart, ps);
  }

  lemma DisorderCollides(lines: seq<string>, ps: seq<Placement>)
    requires Forward(lines, ps, 0, 0)
    requires !Ordered(Sorted(ByStart, ps), 0, lines)
    ensures exists k, a | k in ps && a in ps :: Collides(lines, k, a)
  {
    hide Ordered, Sorted, Forward, Lies, Collides, AtOrBefore, IndexAscending;
    var s := Sorted(ByStart, ps);
    ForwardFacts(lines, ps);
    SameMembers(ByStart, ps);
    NeighboursSuffice(s, lines);
    var i :| 0 <= i < |s| - 1 && s[i].end > s[i + 1].start;
    SortedNeighbours(ps, i);
    NeighboursCollide(lines, ps, s[i], s[i + 1]);
  }

  /** Neighbours after sorting that overlap: text that is replaced, then text that is appended. */
  lemma NeighboursCollide(lines: seq<string>, ps: seq<Placement>, k: Placement, a: Placement)
    requires Forward(lines, ps, 0, 0) && k in ps && a in ps
    requires AtOrBefore(ByStart, k, a) && (AtOrBefore(ByStart, a, k) ==> k.index < a.index) && k.end > a.start
    ensures Collides(lines, k, a)
  {
    hide EofIndex;
    assert PlacedFrom(lines, a, 0, 0) && PlacedFrom(lines, k, 0, 0);
    var i :| 0 <= i < |ps| && ps[i] == k;
    var j :| 0 <= j < |ps| && ps[j] == a;
  }

  /** Text matched despite a whitespace difference, or not touched because it was there already. */
  datatype Warning = Tolerated(hunk: nat, grade: Grade) | AlreadyPresent(hunks: seq<nat>)

  datatype Outcome = Outcome(content: string, changedRanges: seq<Range>, quality: Grade, warnings: seq<Warning>,
          already: seq<nat>, applied: nat)

  function Loosest(ps: seq<Placement>): Grade {
    if ps == [] then Exact
    else
      var init := Loosest(ps[..|ps| - 1]);
      if Stricter(init, ps[|ps| - 1].quality) then ps[|ps| - 1].quality else init
  }

  function ToleranceWarnings(ps: seq<Placement>): seq<Warning> {
    if ps == [] then []
    else
      var last := ps[|ps| - 1];
      ToleranceWarnings(ps[..|ps| - 1]) + if last.quality.Exact? then [] else [Tolerated(last.index, last.quality)]
  }

  /** The grade reported for the file is reached by some hunk and by none exceeded. */
  lemma {:induction false} LoosestIsMaximum(ps: seq<Placement>)
    ensures forall p | p in ps :: !Stricter(Loosest(ps), p.quality)
    ensures Loosest(ps) == Exact || exists p | p in ps :: p.quality == Loosest(ps)
  {
    if ps != [] {
      LoosestIsMaximum(ps[..|ps| - 1]);
      assert ps == ps[..|ps| - 1] + [ps[|ps| - 1]];
    }
  }

  /** Every hunk placed despite a whitespace difference is warned about, with its grade, and no other. */
  lemma {:induction false} WarnedIffTolerated(ps: seq<Placement>, w: Warning)
    ensures w in ToleranceWarnings(ps) <==>
              exists p | p in ps :: !p.quality.Exact? && w == Tolerated(p.index, p.quality)
  {
    if ps != [] {
      var init, last := ps[..|ps| - 1], ps[|ps| - 1];
      WarnedIffTolerated(init, w);
      assert ps == init + [last];
      assert forall p :: p in ps <==> p in init || p == last;
    }
  }

  method Grading(ps: seq<Placement>) returns (quality: Grade, warnings: seq<Warning>)
    ensures quality == Loosest(ps) && warnings == ToleranceWarnings(ps)
  {
    quality, warnings := Exact, [];
    var i := 0;
    while i < |ps|
      invariant 0 <= i <= |ps| && quality == Loosest(ps[..i]) && warnings == ToleranceWarnings(ps[..i])
    {
      assert ps[..i + 1][..i] == ps[..i];
      if !ps[i].quality.Exact? { warnings := warnings + [Tolerated(ps[i].index, ps[i].quality)]; }
      if Stricter(quality, ps[i].quality) { quality := ps[i].quality; }
      i := i + 1;
    }
    assert ps[..i] == ps;
  }

  /** The lines a file is matched by. */
  function LinesOf(content: string): seq<string> {
    Split(NormalizeToLf(StripBom(content).1))
  }

  /** A file's text with other lines: the byte order mark and the line ending stay. */
  function Rewritten(content: string, lines: seq<string>): string {
    var (bom, text) := StripBom(content);
    bom + RestoreLineEndings(Join(lines), DetectLineEnding(text))
  }

  /** What applying hunks to a file comes to, with `s` the placements in file order. */
  ghost predicate AppliedAs(content: string, m: Matched, r: Result<Outcome, Failure>) {
    var lines, s := LinesOf(content), Sorted(ByStart, m.placed);
    match FirstOverlap(s, 0)
    case Some(pair) => r == Err(HunksOverlap(pair.0, pair.1))
    case None =>
      && Ordered(s, 0, lines)
      && r == Ok(Outcome(Rewritten(content, Weave(lines, s, 0)), Ranges(s, 0), Loosest(m.placed),
                         ToleranceWarnings(m.placed) + if m.skipped == [] then [] else [AlreadyPresent(m.skipped)],
                         m.skipped, |m.placed|))
  }

  ghost predicate Applied(content: string, hunks: seq<PatchHunk>, r: Result<Outcome, Failure>) {
    if hunks == [] then r == Ok(Outcome(content, [], Exact, [], [], 0))
    else if SomeMalformed(hunks) then r == Err(MalformedHunk)
    else
      && AllWellFormed(ParsedAll(hunks))
      && match LocateAll(LinesOf(content), ParsedAll(hunks), 0, 0)
         case Err(e) => r == Err(e)
         case Ok(m) => AppliedAs(content, m, r)
  }

  /** apply_update_hunks_detailed. */
  method ApplyUpdateHunks(content: string, hunks: seq<PatchHunk>) returns (r: Result<Outcome, Failure>)
    ensures Applied(content, hunks, r)
  {
    hide LocateAll, AppliedAs, AllWellFormed, SomeMalformed;
    if hunks == [] { return Ok(Outcome(content, [], Exact, [], [], 0)); }
    var parsed := ParseHunks(hunks);
    if parsed == None { return Err(MalformedHunk); }
    ParsedAllWellFormed(hunks);
    var lines := LinesOf(content);
    var located := LocateHunks(lines, parsed.value);
    if located.Err? { return Err(located.error); }
    r := Assemble(content, parsed.value, located.value);
  }

  method Assemble(content: string, ghost hs: seq<ParsedHunk>, m: Matched) returns (r: Result<Outcome, Failure>)
    requires AllWellFormed(hs) && LocateAll(LinesOf(content), hs, 0, 0) == Ok(m)
    ensures AppliedAs(content, m, r)
  {
    hide LocateAll, AllWellFormed, Sorted, FirstOverlap, Loosest, ToleranceWarnings, Weave, Ordered, Ranges, LinesOf,
      Rewritten, Forward;
    var lines := LinesOf(content);
    var s := Sorted(ByStart, m.placed);
    PlacedForward(lines, hs, 0, 0);
    ForwardFacts(lines, m.placed);
    NoOverlapIffOrdered(lines, m.placed);
    var overlap := CheckOverlap(s);
    if overlap.Some? { return Err(HunksOverlap(overlap.value.0, overlap.value.1)); }
    var updated := SpliceAll(lines, s);
    var quality, warnings := Grading(m.placed);
    assert warnings + [] == warnings;
    if m.skipped != [] { warnings := warnings + [AlreadyPresent(m.skipped)]; }
    var ranges := ChangedRanges(s);
    r := Ok(Outcome(Rewritten(content, updated), ranges, quality, warnings, m.skipped, |m.placed|));
  }

  /** The contract leaves one result. */
  lemma AppliedOnce(content: string, hunks: seq<PatchHunk>, r: Result<Outcome, Failure>, q: Result<Outcome, Failure>)
    requires Applied(content, hunks, r) && Applied(content, hunks, q)
    ensures r == q
  {
    hide LocateAll, Sorted, FirstOverlap, Loosest, ToleranceWarnings, Weave, Ordered, Ranges, LinesOf, Rewritten,
      AllWellFormed, SomeMalformed;
  }

  lemma SomeResult(content: string, hunks: seq<PatchHunk>) returns (r: Result<Outcome, Failure>)
    ensures Applied(content, hunks, r)
  {
    hide LocateAll, AppliedAs, AllWellFormed, SomeMalformed;
    if hunks == [] {
      r := Ok(Outcome(content, [], Exact, [], [], 0));
    } else if SomeMalformed(hunks) {
      r := Err(MalformedHunk);
    } else {
      ParsedAllWellFormed(hunks);
      var located := LocateAll(LinesOf(content), ParsedAll(hunks), 0, 0);
      match located
      case Err(e) => r := Err(e);
      case Ok(m) => r := Assembled(content, ParsedAll(hunks), m);
    }
  }

  lemma Assembled(content: string, hs: seq<ParsedHunk>, m: Matched) returns (r: Result<Outcome, Failure>)
    requires AllWellFormed(hs) && LocateAll(LinesOf(content), hs, 0, 0) == Ok(m)
    ensures AppliedAs(content, m, r)
  {
    hide LocateAll, AllWellFormed, Sorted, FirstOverlap, Loosest, ToleranceWarnings, Weave, Ordered, Ranges, LinesOf,
      Rewritten, Forward;
    var lines := LinesOf(content);
    var s := Sorted(ByStart, m.placed);
    PlacedForward(lines, hs, 0, 0);
    ForwardFacts(lines, m.placed);
    NoOverlapIffOrdered(lines, m.placed);
    match FirstOverlap(s, 0)
    case Some(pair) => r := Err(HunksOverlap(pair.0, pair.1));
    case None =>
      r := Ok(Outcome(Rewritten(content, Weave(lines, s, 0)), Ranges(s, 0), Loosest(m.placed),
                      ToleranceWarnings(m.placed) + if m.skipped == [] then [] else [AlreadyPresent(m.skipped)],
                      m.skipped, |m.placed|));
  }

  /** The placements of a patch that is well formed and whose hunks are all found. */
  ghost function Placed(content: string, hunks: seq<PatchHunk>): Option<Matched> {
    ParsedAllWellFormed(hunks);
    if hunks == [] || SomeMalformed(hunks) then None
    else
      match LocateAll(LinesOf(content), ParsedAll(hunks), 0, 0)
      case Err(_) => None
      case Ok(m) => Some(m)
  }

  /** What a patch of one file means, as a function for specifications. */
  ghost function Edit(content: string, hunks: seq<PatchHunk>): (r: Result<Outcome, Failure>)
    ensures Applied(content, hunks, r)
  {
    ResultExists(content, hunks);
    var r :| Applied(content, hunks, r);
    r
  }

  lemma ResultExists(content: string, hunks: seq<PatchHunk>)
    ensures exists r :: Applied(content, hunks, r)
  {
    var r := SomeResult(content, hunks);
  }
}
