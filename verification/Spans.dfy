/** Replacing spans of a list of lines: the back-to-front splice the two edit engines use, the
    left-to-right weave it must equal, and the changed ranges both engines report. */
module Spans {
  /** How closely the file text agrees with the text a hunk was written against. */
  datatype Grade = Exact | TrailingWs | Indent

  /** Replace lines[start..end] by `added`; `was` is what is there. */
  datatype Placement = Placement(index: nat, start: nat, end: nat, added: seq<string>, quality: Grade, was: seq<string>)

  /** One reported range, 1-based, in the numbering of the new file. */
  datatype Range = Range(startLine: int, endLine: int, addedLines: int, removedLines: int)

  /** Spans of `lines` in order, none starting before the previous one ends. */
  predicate Ordered(ps: seq<Placement>, from: nat, lines: seq<string>) {
    if ps == [] then from <= |lines|
    else
      && from <= ps[0].start <= ps[0].end <= |lines| && ps[0].was == lines[ps[0].start..ps[0].end]
      && Ordered(ps[1..], ps[0].end, lines)
  }

  /** The meaning: go through the lines once, keeping the gaps and substituting the spans. */
  function Weave(lines: seq<string>, ps: seq<Placement>, from: nat): seq<string>
    requires Ordered(ps, from, lines)
  {
    if ps == [] then lines[from..]
    else lines[from..ps[0].start] + ps[0].added + Weave(lines, ps[1..], ps[0].end)
  }

  lemma {:induction false} OrderedBounds(ps: seq<Placement>, from: nat, lines: seq<string>)
    requires Ordered(ps, from, lines)
    ensures from <= |lines|
    ensures forall i | 0 <= i < |ps| ::
              from <= ps[i].start <= ps[i].end <= |lines| && ps[i].was == lines[ps[i].start..ps[i].end]
    ensures forall i, j | 0 <= i < j < |ps| :: ps[i].end <= ps[j].start
  {
    if ps != [] {
      OrderedBounds(ps[1..], ps[0].end, lines);
      assert forall i | 1 <= i < |ps| :: ps[i] == ps[1..][i - 1];
    }
  }

  lemma {:induction false} OrderedFromBounds(ps: seq<Placement>, from: nat, lines: seq<string>)
    requires from <= |lines|
    requires forall i | 0 <= i < |ps| ::
               from <= ps[i].start <= ps[i].end <= |lines| && ps[i].was == lines[ps[i].start..ps[i].end]
    requires forall i | 0 <= i < |ps| - 1 :: ps[i].end <= ps[i + 1].start
    ensures Ordered(ps, from, lines)
  {
    if ps != [] {
      var rest := ps[1..];
      forall i | 0 <= i < |rest| ensures ps[0].end <= rest[i].start {
        StartsIncrease(ps, i + 1);
      }
      OrderedFromBounds(rest, ps[0].end, lines);
    }
  }

  lemma {:induction false} StartsIncrease(ps: seq<Placement>, i: nat)
    requires 0 < i < |ps|
    requires forall k | 0 <= k < |ps| :: ps[k].start <= ps[k].end
    requires forall k | 0 <= k < |ps| - 1 :: ps[k].end <= ps[k + 1].start
    ensures ps[0].end <= ps[i].start
  {
    if i > 1 {
      StartsIncrease(ps, i - 1);
    }
  }

  /** Splicing the placements in from the last to the first, as the engines do. */
  function SpliceBack(lines: seq<string>, ps: seq<Placement>, from: nat): (r: seq<string>)
    requires Ordered(ps, from, lines)
    ensures |r| >= from && r[..from] == lines[..from]
  {
    if ps == [] then lines
    else
      var rest := SpliceBack(lines, ps[1..], ps[0].end);
      rest[..ps[0].start] + ps[0].added + rest[ps[0].end..]
  }

  /** Later spans do not move earlier ones: the back-to-front splice is the weave. */
  lemma {:induction false} SpliceBackIsWeave(lines: seq<string>, ps: seq<Placement>, from: nat)
    requires Ordered(ps, from, lines)
    ensures SpliceBack(lines, ps, from) == lines[..from] + Weave(lines, ps, from)
  {
    if ps != [] {
      var p := ps[0];
      SpliceBackIsWeave(lines, ps[1..], p.end);
      var rest := SpliceBack(lines, ps[1..], p.end);
      assert rest[..p.start] == lines[..p.end][..p.start] == lines[..from] + lines[from..p.start];
      assert rest[p.end..] == Weave(lines, ps[1..], p.end);
    }
  }

  function Min(a: nat, b: nat): nat {
    if a < b then a else b
  }

  /** The first position from `n` on where two texts differ, counted from the front, or one ends. */
  function PrefixFrom(a: seq<string>, b: seq<string>, n: nat): (r: nat)
    requires n <= Min(|a|, |b|)
    ensures n <= r <= Min(|a|, |b|)
    decreases |a| - n
  {
    if n == Min(|a|, |b|) || a[n] != b[n] then n else PrefixFrom(a, b, n + 1)
  }

  /** The first position from `n` on where two texts differ, counted from the back, or `limit`. */
  function SuffixFrom(a: seq<string>, b: seq<string>, limit: nat, n: nat): (r: nat)
    requires n <= limit <= Min(|a|, |b|)
    ensures n <= r <= limit
    decreases limit - n
  {
    if n == limit || a[|a| - 1 - n] != b[|b| - 1 - n] then n else SuffixFrom(a, b, limit, n + 1)
  }

  /** The lines a placement leaves alone at its two ends. */
  function Prefix(p: Placement): (n: nat)
    ensures n <= Min(|p.was|, |p.added|)
  {
    PrefixFrom(p.was, p.added, 0)
  }

  function Suffix(p: Placement): (n: nat)
    ensures n + Prefix(p) <= Min(|p.was|, |p.added|)
  {
    SuffixFrom(p.was, p.added, Min(|p.was|, |p.added|) - Prefix(p), 0)
  }

  lemma {:induction false} PrefixShared(a: seq<string>, b: seq<string>, n: nat)
    requires n <= Min(|a|, |b|)
    ensures var r := PrefixFrom(a, b, n); a[n..r] == b[n..r] && (r < Min(|a|, |b|) ==> a[r] != b[r])
    decreases |a| - n
  {
    var r := PrefixFrom(a, b, n);
    if r != n {
      PrefixShared(a, b, n + 1);
      assert a[n..r] == [a[n]] + a[n + 1..r] && b[n..r] == [b[n]] + b[n + 1..r];
    }
  }

  lemma {:induction false} SuffixShared(a: seq<string>, b: seq<string>, limit: nat, n: nat)
    requires n <= limit <= Min(|a|, |b|)
    ensures var r := SuffixFrom(a, b, limit, n);
            a[|a| - r..|a| - n] == b[|b| - r..|b| - n] && (r < limit ==> a[|a| - 1 - r] != b[|b| - 1 - r])
    decreases limit - n
  {
    var r := SuffixFrom(a, b, limit, n);
    if r != n {
      SuffixShared(a, b, limit, n + 1);
      assert a[|a| - r..|a| - n] == a[|a| - r..|a| - n - 1] + [a[|a| - 1 - n]];
      assert b[|b| - r..|b| - n] == b[|b| - r..|b| - n - 1] + [b[|b| - 1 - n]];
    }
  }

  /** The margins are shared, and as wide as they can be. */
  ghost predicate MarginsExact(a: seq<string>, b: seq<string>, n: nat, m: nat) {
    && n + m <= Min(|a|, |b|)
    && a[..n] == b[..n] && a[|a| - m..] == b[|b| - m..]
    && (n < Min(|a|, |b|) ==> a[n] != b[n])
    && (n + m < Min(|a|, |b|) ==> a[|a| - 1 - m] != b[|b| - 1 - m])
  }

  lemma MarginsMaximal(p: Placement)
    ensures MarginsExact(p.was, p.added, Prefix(p), Suffix(p))
  {
    hide PrefixFrom, SuffixFrom, Prefix, Suffix, Min;
    PrefixMaximal(p);
    SuffixMaximal(p);
  }

  lemma {:induction false} PrefixMaximal(p: Placement)
    ensures p.was[..Prefix(p)] == p.added[..Prefix(p)]
    ensures Prefix(p) < Min(|p.was|, |p.added|) ==> p.was[Prefix(p)] != p.added[Prefix(p)]
  {
    hide PrefixFrom;
    PrefixShared(p.was, p.added, 0);
    WholeFront(p.was, Prefix(p));
    WholeFront(p.added, Prefix(p));
  }

  lemma {:induction false} SuffixMaximal(p: Placement)
    ensures p.was[|p.was| - Suffix(p)..] == p.added[|p.added| - Suffix(p)..]
    ensures Prefix(p) + Suffix(p) < Min(|p.was|, |p.added|) ==>
              p.was[|p.was| - 1 - Suffix(p)] != p.added[|p.added| - 1 - Suffix(p)]
  {
    hide SuffixFrom, Prefix, Min;
    BackShared(p.was, p.added, Min(|p.was|, |p.added|) - Prefix(p));
  }

  lemma {:induction false} BackShared(a: seq<string>, b: seq<string>, limit: nat)
    requires limit <= Min(|a|, |b|)
    ensures var m := SuffixFrom(a, b, limit, 0);
            a[|a| - m..] == b[|b| - m..] && (m < limit ==> a[|a| - 1 - m] != b[|b| - 1 - m])
  {
    hide SuffixFrom;
    var m := SuffixFrom(a, b, limit, 0);
    SuffixShared(a, b, limit, 0);
    WholeBack(a, m);
    WholeBack(b, m);
  }

  lemma WholeBack(a: seq<string>, m: nat)
    requires m <= |a|
    ensures a[|a| - m..|a| - 0] == a[|a| - m..]
  {
  }

  lemma WholeFront(a: seq<string>, n: nat)
    requires n <= |a|
    ensures a[0..n] == a[..n]
  {
  }

  /** `_unchanged_margins`: the longest common prefix, then the longest common suffix of the rest. */
  method UnchangedMargins(p: Placement) returns (prefix: nat, suffix: nat)
    ensures prefix == Prefix(p) && suffix == Suffix(p)
  {
    var limit := Min(|p.was|, |p.added|);
    prefix := 0;
    while prefix < limit && p.was[prefix] == p.added[prefix]
      invariant prefix <= limit && PrefixFrom(p.was, p.added, prefix) == Prefix(p)
    {
      prefix := prefix + 1;
    }
    suffix := 0;
    while suffix < limit - prefix && p.was[|p.was| - 1 - suffix] == p.added[|p.added| - 1 - suffix]
      invariant suffix <= limit - prefix && SuffixFrom(p.was, p.added, limit - prefix, suffix) == Suffix(p)
    {
      suffix := suffix + 1;
    }
  }

  /** The placement without the lines it leaves alone at either end. */
  function Trimmed(p: Placement): Placement
    requires p.end == p.start + |p.was|
  {
    p.(start := p.start + Prefix(p), end := p.end - Suffix(p),
       added := p.added[Prefix(p)..|p.added| - Suffix(p)], was := p.was[Prefix(p)..|p.was| - Suffix(p)])
  }

  function TrimmedAll(ps: seq<Placement>): (r: seq<Placement>)
    requires forall p | p in ps :: p.end == p.start + |p.was|
    ensures |r| == |ps| && forall i | 0 <= i < |ps| :: r[i] == Trimmed(ps[i])
  {
    seq(|ps|, i requires 0 <= i < |ps| => Trimmed(ps[i]))
  }

  /** The range of one placement in text that has grown by `delta` lines before it. */
  function RangeOf(p: Placement, delta: int): Range {
    var margin := Prefix(p) + Suffix(p);
    var start := p.start + Prefix(p) + delta;
    Range(start + 1, start + |p.added| - margin, |p.added| - margin, p.end - p.start - margin)
  }

  function Growth(p: Placement): int {
    |p.added| - (p.end - p.start)
  }

  function Ranges(ps: seq<Placement>, delta: int): (r: seq<Range>)
    ensures |r| == |ps|
  {
    if ps == [] then [] else [RangeOf(ps[0], delta)] + Ranges(ps[1..], delta + Growth(ps[0]))
  }

  /** `changed_ranges`. */
  method ChangedRanges(ps: seq<Placement>) returns (ranges: seq<Range>)
    ensures ranges == Ranges(ps, 0)
  {
    ranges := [];
    var delta := 0;
    var i := 0;
    while i < |ps|
      invariant 0 <= i <= |ps|
      invariant ranges + Ranges(ps[i..], delta) == Ranges(ps, 0)
    {
      var item := ps[i];
      var removed := item.end - item.start;
      var added := |item.added|;
      var prefix, suffix := UnchangedMargins(item);
      var start := item.start + prefix + delta;
      var range := Range(start + 1, start + added - prefix - suffix, added - prefix - suffix,
                     removed - prefix - suffix);
      assert range == RangeOf(item, delta);
      assert ps[i..][1..] == ps[i + 1..];
      assert ranges + ([range] + Ranges(ps[i + 1..], delta + Growth(item))) ==
               ranges + [range] + Ranges(ps[i + 1..], delta + Growth(item));
      ranges := ranges + [range];
      delta := delta + added - removed;
      i := i + 1;
    }
  }

  /** The lines of a text outside the given 1-based inclusive ranges, from line `from` (0-based) on. */
  function Outside(text: seq<string>, rs: seq<Range>, from: nat): seq<string>
    requires RangesIn(text, rs, from)
  {
    if rs == [] then text[from..]
    else text[from..rs[0].startLine - 1] + Outside(text, rs[1..], rs[0].endLine)
  }

  predicate RangesIn(text: seq<string>, rs: seq<Range>, from: nat) {
    if rs == [] then from <= |text|
    else from <= rs[0].startLine - 1 <= rs[0].endLine <= |text| && RangesIn(text, rs[1..], rs[0].endLine)
  }

  /** The old-file counterpart: the lines outside the trimmed spans. */
  function Unchanged(lines: seq<string>, ps: seq<Placement>, from: nat): seq<string>
    requires Ordered(ps, from, lines)
  {
    if ps == [] then lines[from..]
    else lines[from..ps[0].start] + Unchanged(lines, ps[1..], ps[0].end)
  }

  lemma TrimmedIsSlice(p: Placement, lines: seq<string>)
    requires p.start <= p.end <= |lines| && p.was == lines[p.start..p.end]
    ensures var t := Trimmed(p);
            p.start <= t.start <= t.end <= p.end && t.was == lines[t.start..t.end]
  {
    hide Prefix, Suffix;
    var n, m := Prefix(p), Suffix(p);
    assert n + m <= |p.was|;
    assert lines[p.start..p.end][n..|p.was| - m] == lines[p.start + n..p.end - m];
  }

  lemma {:induction false} TrimmedOrdered(ps: seq<Placement>, from: nat, lines: seq<string>)
    requires Ordered(ps, from, lines)
    ensures (forall p | p in ps :: p.end == p.start + |p.was|) && Ordered(TrimmedAll(ps), from, lines)
  {
    hide Ordered, Trimmed;
    OrderedBounds(ps, from, lines);
    var ts := TrimmedAll(ps);
    forall i | 0 <= i < |ts|
      ensures ps[i].start <= ts[i].start <= ts[i].end <= ps[i].end && ts[i].was == lines[ts[i].start..ts[i].end]
    {
      TrimmedIsSlice(ps[i], lines);
    }
    OrderedFromBounds(ts, from, lines);
  }

  lemma OrderedWeaken(ps: seq<Placement>, from: nat, earlier: nat, lines: seq<string>)
    requires Ordered(ps, from, lines) && earlier <= from
    ensures Ordered(ps, earlier, lines)
  {
  }

  /** What a range of one placement must be in the text that holds it. */
  predicate Truthful(text: seq<string>, p: Placement, r: Range)
    requires p.end == p.start + |p.was|
  {
    var t := Trimmed(p);
    && 0 <= r.startLine - 1 <= r.endLine <= |text|
    && text[r.startLine - 1..r.endLine] == t.added
    && r.addedLines == |t.added| && r.removedLines == |t.was|
  }

  /** The part of `b` between two cuts, found again in a text that holds `b` after `n` lines. */
  lemma Inside(lead: seq<string>, b: seq<string>, rest: seq<string>, i: nat, j: nat)
    requires i <= j <= |b|
    ensures (lead + b + rest)[|lead| + i..|lead| + j] == b[i..j]
  {
  }

  /** One placement, put after `lead`: its range, and the lines between it and its neighbours. */
  lemma OneTruthful(lead: seq<string>, p: Placement, rest: seq<string>)
    requires p.end == p.start + |p.was|
    ensures var text := lead + p.added + rest;
            var r := RangeOf(p, |lead| - p.start);
            && Truthful(text, p, r)
            && r.startLine - 1 == |lead| + Prefix(p) && r.endLine + Suffix(p) == |lead + p.added|
            && text[|lead|..r.startLine - 1] == p.was[..Prefix(p)]
            && text[r.endLine..r.endLine + Suffix(p)] == p.was[|p.was| - Suffix(p)..]
  {
    hide Prefix, Suffix;
    var n, m := Prefix(p), Suffix(p);
    MarginsMaximal(p);
    assert n + m <= |p.added| && n + m <= |p.was|;
    Inside(lead, p.added, rest, 0, n);
    Inside(lead, p.added, rest, n, |p.added| - m);
    Inside(lead, p.added, rest, |p.added| - m, |p.added|);
  }

  /** Moving the point where counting starts forward over kept lines. */
  lemma {:induction false} OutsideFrom(text: seq<string>, rs: seq<Range>, from: nat, later: nat)
    requires from <= later <= |text| && RangesIn(text, rs, later)
    ensures RangesIn(text, rs, from) && Outside(text, rs, from) == text[from..later] + Outside(text, rs, later)
  {
    if rs == [] {
      assert text[from..] == text[from..later] + text[later..];
    } else {
      Gap(text, from, later, rs[0].startLine - 1, Outside(text, rs[1..], rs[0].endLine));
    }
  }

  lemma UnchangedFrom(lines: seq<string>, ps: seq<Placement>, from: nat, later: nat)
    requires from <= later && Ordered(ps, later, lines)
    ensures Ordered(ps, from, lines) && Unchanged(lines, ps, from) == lines[from..later] + Unchanged(lines, ps, later)
  {
    OrderedWeaken(ps, later, from, lines);
    if ps == [] {
      assert lines[from..] == lines[from..later] + lines[later..];
    } else {
      Gap(lines, from, later, ps[0].start, Unchanged(lines, ps[1..], ps[0].end));
    }
  }

  lemma Gap(lines: seq<string>, from: nat, later: nat, until: nat, tail: seq<string>)
    requires from <= later <= until <= |lines|
    ensures lines[from..until] + tail == lines[from..later] + (lines[later..until] + tail)
  {
    assert lines[from..until] == lines[from..later] + lines[later..until];
  }

  /** Nothing but the trimmed spans changes: outside the reported ranges the new text, which begins
      with `lead` lines of its own, is what the old text is outside the trimmed spans. */
  ghost predicate OnlySpansChange(text: seq<string>, rs: seq<Range>, at: nat, lines: seq<string>, ts: seq<Placement>,
          from: nat)
  {
    && RangesIn(text, rs, at) && Ordered(ts, from, lines)
    && Outside(text, rs, at) == Unchanged(lines, ts, from)
  }

  lemma {:induction false} OutsideIsUnchanged(lines: seq<string>, ps: seq<Placement>, from: nat, lead: seq<string>)
    requires Ordered(ps, from, lines)
    ensures forall p | p in ps :: p.end == p.start + |p.was|
    ensures OnlySpansChange(lead + Weave(lines, ps, from), Ranges(ps, |lead| - from), |lead|, lines, TrimmedAll(ps),
              from)
    decreases |ps|, 1
  {
    hide RangeOf, Trimmed, Prefix, Suffix;
    TrimmedOrdered(ps, from, lines);
    if ps == [] {
      assert (lead + lines[from..])[|lead|..] == lines[from..];
    } else {
      OutsideStep(lines, ps, from, lead);
    }
  }

  /** Counting the first placement among the lines already written. */
  lemma {:induction false} WeaveAfter(lines: seq<string>, ps: seq<Placement>, from: nat, lead: seq<string>)
    requires ps != [] && Ordered(ps, from, lines)
    ensures var p := ps[0];
            var lead' := lead + lines[from..p.start] + p.added;
            && lead + Weave(lines, ps, from) == lead' + Weave(lines, ps[1..], p.end)
            && |lead'| - p.end == |lead| - from + Growth(p)
  {
    Ahead(lead, lines[from..ps[0].start], ps[0].added, Weave(lines, ps[1..], ps[0].end));
  }

  lemma Ahead(a: seq<string>, b: seq<string>, c: seq<string>, d: seq<string>)
    ensures a + (b + c + d) == a + b + c + d
  {
  }

  lemma {:induction false} OutsideStep(lines: seq<string>, ps: seq<Placement>, from: nat, lead: seq<string>)
    requires ps != [] && Ordered(ps, from, lines)
    ensures forall p | p in ps :: p.end == p.start + |p.was|
    ensures OnlySpansChange(lead + Weave(lines, ps, from), Ranges(ps, |lead| - from), |lead|, lines, TrimmedAll(ps),
              from)
    decreases |ps|, 0
  {
    hide Weave, RangeOf, Trimmed, Prefix, Suffix, OnlySpansChange;
    var p := ps[0];
    var lead' := lead + lines[from..p.start] + p.added;
    var rest := Weave(lines, ps[1..], p.end);
    WeaveAfter(lines, ps, from, lead);
    OutsideIsUnchanged(lines, ps[1..], p.end, lead');
    TrimmedOrdered(ps, from, lines);
    var ts := TrimmedAll(ps);
    assert ts[1..] == TrimmedAll(ps[1..]);
    PutBefore(lines, p, from, lead, rest, Ranges(ps[1..], |lead'| - p.end), ts[1..]);
    assert Ranges(ps, |lead| - from) == [RangeOf(p, |lead| - from)] + Ranges(ps[1..], |lead'| - p.end);
    assert ts == [Trimmed(p)] + ts[1..];
  }

  lemma PutBefore(lines: seq<string>, p: Placement, from: nat, lead: seq<string>, rest: seq<string>, rs: seq<Range>,
          ts: seq<Placement>)
    requires from <= p.start <= p.end <= |lines| && p.was == lines[p.start..p.end]
    requires var lead' := lead + lines[from..p.start] + p.added;
             OnlySpansChange(lead' + rest, rs, |lead'|, lines, ts, p.end)
    ensures var text := lead + lines[from..p.start] + p.added + rest;
            OnlySpansChange(text, [RangeOf(p, |lead| - from)] + rs, |lead|, lines, [Trimmed(p)] + ts, from)
  {
    hide Prefix, Suffix, Outside, RangesIn, Unchanged, Ordered, RangeOf, Truthful, Trimmed;
    var lead' := lead + lines[from..p.start] + p.added;
    var text := lead' + rest;
    var r := RangeOf(p, |lead| - from);
    var t := Trimmed(p);
    Edges(lines, p, from, lead, rest);
    OutsideFrom(text, rs, r.endLine, |lead'|);
    UnchangedFrom(lines, ts, t.end, p.end);
    Consed(text, r, rs, |lead|, lines, t, ts, from);
  }

  lemma SliceJoin(text: seq<string>, i: nat, j: nat, k: nat)
    requires i <= j <= k <= |text|
    ensures text[i..k] == text[i..j] + text[j..k]
  {
  }

  /** The kept lines on both sides of one placement, in the old text. */
  lemma OldEdges(lines: seq<string>, p: Placement, from: nat)
    requires from <= p.start <= p.end <= |lines| && p.was == lines[p.start..p.end]
    ensures var t := Trimmed(p);
            && from <= t.start <= t.end <= p.end && t.was == lines[t.start..t.end]
            && lines[from..t.start] == lines[from..p.start] + p.was[..Prefix(p)]
            && lines[t.end..p.end] == p.was[|p.was| - Suffix(p)..]
  {
    hide Prefix, Suffix;
    var n, m := Prefix(p), Suffix(p);
    TrimmedIsSlice(p, lines);
    SliceJoin(lines, from, p.start, p.start + n);
    SliceOfSlice(lines, p.start, p.end, 0, n);
    SliceOfSlice(lines, p.start, p.end, |p.was| - m, |p.was|);
    assert p.was[0..n] == p.was[..n] && p.was[|p.was| - m..|p.was|] == p.was[|p.was| - m..];
  }

  lemma SliceOfSlice(lines: seq<string>, a: nat, b: nat, i: nat, j: nat)
    requires a <= b <= |lines| && i <= j <= b - a
    ensures lines[a..b][i..j] == lines[a + i..a + j]
  {
    forall k | 0 <= k < j - i ensures lines[a..b][i..j][k] == lines[a + i..a + j][k] {
    }
  }

  lemma GapStands(lead: seq<string>, gap: seq<string>, added: seq<string>, rest: seq<string>)
    ensures (lead + gap + added + rest)[|lead|..|lead| + |gap|] == gap
  {
  }

  /** The same kept lines in the new text. */
  lemma Edges(lines: seq<string>, p: Placement, from: nat, lead: seq<string>, rest: seq<string>)
    requires from <= p.start <= p.end <= |lines| && p.was == lines[p.start..p.end]
    ensures var lead' := lead + lines[from..p.start] + p.added;
            var text := lead' + rest;
            var r := RangeOf(p, |lead| - from);
            var t := Trimmed(p);
            && |lead| <= r.startLine - 1 <= r.endLine <= |lead'| <= |text| && from <= t.start <= t.end <= p.end
            && t.was == lines[t.start..t.end]
            && text[|lead|..r.startLine - 1] == lines[from..t.start]
            && text[r.endLine..|lead'|] == lines[t.end..p.end]
  {
    hide Prefix, Suffix, Truthful, Trimmed;
    var gap := lines[from..p.start];
    var text := lead + gap + p.added + rest;
    OneTruthful(lead + gap, p, rest);
    OldEdges(lines, p, from);
    GapStands(lead, gap, p.added, rest);
    SliceJoin(text, |lead|, |lead| + |gap|, RangeOf(p, |lead| - from).startLine - 1);
  }

  lemma Consed(text: seq<string>, r: Range, rs: seq<Range>, at: nat, lines: seq<string>, t: Placement,
          ts: seq<Placement>, from: nat)
    requires at <= r.startLine - 1 <= r.endLine <= |text| && RangesIn(text, rs, r.endLine)
    requires from <= t.start <= t.end <= |lines| && t.was == lines[t.start..t.end] && Ordered(ts, t.end, lines)
    requires text[at..r.startLine - 1] == lines[from..t.start]
    requires Outside(text, rs, r.endLine) == Unchanged(lines, ts, t.end)
    ensures OnlySpansChange(text, [r] + rs, at, lines, [t] + ts, from)
  {
    hide Outside, Unchanged, RangesIn, Ordered;
    OutsideCons(text, r, rs, at);
    UnchangedCons(lines, t, ts, from);
  }

  lemma OutsideCons(text: seq<string>, r: Range, rs: seq<Range>, at: nat)
    requires at <= r.startLine - 1 <= r.endLine <= |text| && RangesIn(text, rs, r.endLine)
    ensures RangesIn(text, [r] + rs, at)
            && Outside(text, [r] + rs, at) == text[at..r.startLine - 1] + Outside(text, rs, r.endLine)
  {
    assert ([r] + rs)[1..] == rs;
  }

  lemma UnchangedCons(lines: seq<string>, t: Placement, ts: seq<Placement>, from: nat)
    requires from <= t.start <= t.end <= |lines| && t.was == lines[t.start..t.end] && Ordered(ts, t.end, lines)
    ensures Ordered([t] + ts, from, lines)
            && Unchanged(lines, [t] + ts, from) == lines[from..t.start] + Unchanged(lines, ts, t.end)
  {
    assert ([t] + ts)[1..] == ts;
  }

  /** Each reported range holds exactly the trimmed replacement lines. */
  lemma {:induction false} RangesHold(lines: seq<string>, ps: seq<Placement>, from: nat, lead: seq<string>, i: nat)
    requires Ordered(ps, from, lines) && i < |ps|
    ensures ps[i].end == ps[i].start + |ps[i].was|
    ensures Truthful(lead + Weave(lines, ps, from), ps[i], Ranges(ps, |lead| - from)[i])
  {
    hide Weave, Truthful, RangeOf, Trimmed;
    var p := ps[0];
    WeaveAfter(lines, ps, from, lead);
    if i == 0 {
      OneTruthful(lead + lines[from..p.start], p, Weave(lines, ps[1..], p.end));
    } else {
      RangesHold(lines, ps[1..], p.end, lead + lines[from..p.start] + p.added, i - 1);
    }
  }

  /** The report of a whole edit: every range is truthful and nothing else changed. */
  lemma ReportIsTruthful(lines: seq<string>, ps: seq<Placement>)
    requires Ordered(ps, 0, lines)
    ensures forall p | p in ps :: p.end == p.start + |p.was|
    ensures forall i | 0 <= i < |ps| :: Truthful(Weave(lines, ps, 0), ps[i], Ranges(ps, 0)[i])
    ensures OnlySpansChange(Weave(lines, ps, 0), Ranges(ps, 0), 0, lines, TrimmedAll(ps), 0)
  {
    hide Weave, Truthful, OnlySpansChange, Ordered, TrimmedAll, Ranges;
    assert [] + Weave(lines, ps, 0) == Weave(lines, ps, 0);
    OutsideIsUnchanged(lines, ps, 0, []);
    forall i | 0 <= i < |ps| ensures Truthful(Weave(lines, ps, 0), ps[i], Ranges(ps, 0)[i]) {
      RangesHold(lines, ps, 0, [], i);
    }
  }

  /** A report describes a text: the ranges hold the replacement lines, and nothing else changed. */
  ghost predicate Describes(text: seq<string>, rs: seq<Range>, lines: seq<string>, ps: seq<Placement>) {
    && |rs| == |ps| && (forall p | p in ps :: p.end == p.start + |p.was|)
    && (forall i | 0 <= i < |ps| :: Truthful(text, ps[i], rs[i]))
    && OnlySpansChange(text, rs, 0, lines, TrimmedAll(ps), 0)
  }

  /** What a text holds inside and outside of its ranges is the whole text. */
  lemma {:induction false} RangesDetermine(text: seq<string>, other: seq<string>, rs: seq<Range>, from: nat)
    requires RangesIn(text, rs, from) && RangesIn(other, rs, from)
             && Outside(text, rs, from) == Outside(other, rs, from)
    requires forall r | r in rs && 0 <= r.startLine - 1 <= r.endLine <= |text| && r.endLine <= |other| ::
               text[r.startLine - 1..r.endLine] == other[r.startLine - 1..r.endLine]
    ensures text[from..] == other[from..]
  {
    if rs != [] {
      var a, b := rs[0].startLine - 1, rs[0].endLine;
      assert rs[0] in rs;
      assert Outside(text, rs, from)[..a - from] == text[from..a]
             && Outside(text, rs, from)[a - from..] == Outside(text, rs[1..], b);
      assert Outside(other, rs, from)[..a - from] == other[from..a]
             && Outside(other, rs, from)[a - from..] == Outside(other, rs[1..], b);
      RangesDetermine(text, other, rs[1..], b);
      assert text[from..] == text[from..a] + text[a..b] + text[b..];
      assert other[from..] == other[from..a] + other[a..b] + other[b..];
    }
  }

  /** The report of an edit describes its result and no other text. */
  lemma ReportDescribesIff(lines: seq<string>, ps: seq<Placement>, text: seq<string>)
    requires Ordered(ps, 0, lines)
    ensures Describes(text, Ranges(ps, 0), lines, ps) <==> text == Weave(lines, ps, 0)
  {
    hide Weave, Ordered, TrimmedAll, Ranges, Outside, RangesIn, Unchanged, Trimmed;
    ReportIsTruthful(lines, ps);
    var result, rs := Weave(lines, ps, 0), Ranges(ps, 0);
    if Describes(text, rs, lines, ps) {
      forall r | r in rs ensures 0 <= r.startLine - 1 <= r.endLine <= |text| && r.endLine <= |result|
        ensures text[r.startLine - 1..r.endLine] == result[r.startLine - 1..r.endLine]
      {
        var i :| 0 <= i < |rs| && rs[i] == r;
        assert Truthful(text, ps[i], rs[i]) && Truthful(result, ps[i], rs[i]);
      }
      RangesDetermine(text, result, rs, 0);
      assert text[0..] == text && result[0..] == result;
    }
  }

  /** Where the last range ends: that far before the end of the new text as the last replacement, without the
      lines it leaves alone, ends before the end of the old text. */
  lemma {:induction false} LastRangeEnds(lines: seq<string>, ps: seq<Placement>, from: nat, lead: seq<string>)
    requires ps != [] && Ordered(ps, from, lines)
    ensures var last := ps[|ps| - 1];
            |lead + Weave(lines, ps, from)| - Ranges(ps, |lead| - from)[|ps| - 1].endLine ==
              |lines| - last.end + Suffix(last)
  {
    hide Weave, Ranges, Suffix;
    var p := ps[0];
    WeaveAfter(lines, ps, from, lead);
    RangesFirst(ps, |lead| - from);
    if |ps| == 1 {
      OneRangeEnds(lines, p, from, |lead|);
      assert Weave(lines, ps[1..], p.end) == lines[p.end..] by { WeaveRest(lines, ps[1..], p.end); }
    } else {
      LastRangeEnds(lines, ps[1..], p.end, lead + lines[from..p.start] + p.added);
    }
  }

  lemma RangesFirst(ps: seq<Placement>, delta: int)
    requires ps != []
    ensures Ranges(ps, delta) == [RangeOf(ps[0], delta)] + Ranges(ps[1..], delta + Growth(ps[0]))
    ensures |ps| > 1 ==> Ranges(ps, delta)[|ps| - 1] == Ranges(ps[1..], delta + Growth(ps[0]))[|ps| - 2]
  {
  }

  lemma OneRangeEnds(lines: seq<string>, p: Placement, from: nat, n: nat)
    requires from <= p.start <= p.end <= |lines|
    ensures RangeOf(p, n - from).endLine == n + (p.start - from) + |p.added| - Suffix(p)
  {
  }

  lemma WeaveRest(lines: seq<string>, ps: seq<Placement>, from: nat)
    requires ps == [] && from <= |lines|
    ensures Ordered(ps, from, lines) && Weave(lines, ps, from) == lines[from..]
  {
  }

  /** The last replacement takes in the last line of the old text and does not leave it alone. */
  predicate ReachesEnd(ps: seq<Placement>, lines: seq<string>) {
    ps != [] && ps[|ps| - 1].end == |lines| && Suffix(ps[|ps| - 1]) == 0
  }

  lemma NoRanges(ps: seq<Placement>)
    requires ps == []
    ensures Ranges(ps, 0) == []
  {
  }

  lemma LastEndsWithin(lines: seq<string>, ps: seq<Placement>)
    requires ps != [] && Ordered(ps, 0, lines)
    ensures ps[|ps| - 1].end <= |lines|
  {
    OrderedBounds(ps, 0, lines);
  }

  lemma {:induction false} RangesAscend(text: seq<string>, rs: seq<Range>, from: nat)
    requires RangesIn(text, rs, from)
    ensures forall r | r in rs :: from <= r.endLine <= rs[|rs| - 1].endLine
  {
    if |rs| > 1 {
      RangesAscend(text, rs[1..], rs[0].endLine);
      assert forall r | r in rs :: r == rs[0] || r in rs[1..];
    }
  }

  /** All ranges end before the last line of the new text exactly if there is no replacement, or the last one
      ends before the end of the old text, or leaves its last line alone. */
  lemma RangesEndInside(lines: seq<string>, ps: seq<Placement>)
    requires Ordered(ps, 0, lines)
    ensures var w := Weave(lines, ps, 0);
            && (forall r | r in Ranges(ps, 0) :: r.endLine <= |w|)
            && ((forall r | r in Ranges(ps, 0) :: r.endLine < |w|) <==> !ReachesEnd(ps, lines))
  {
    hide Weave, Ordered, TrimmedAll, Outside, Unchanged, Trimmed, Prefix, Suffix, Truthful, Ranges;
    if ps == [] {
      NoRanges(ps);
    } else {
      var w, rs := Weave(lines, ps, 0), Ranges(ps, 0);
      ReportIsTruthful(lines, ps);
      RangesAscend(w, rs, 0);
      LastRangeEnds(lines, ps, 0, []);
      assert [] + w == w;
      LastEndsWithin(lines, ps);
      assert rs[|rs| - 1] in rs;
    }
  }

  /** Unless a replacement reaches the end, the last line stays. */
  lemma {:induction false} LastLineStays(lines: seq<string>, ps: seq<Placement>, from: nat)
    requires Ordered(ps, from, lines) && !ReachesEnd(ps, lines) && (from < |lines| || ps != [])
    ensures lines != [] && Weave(lines, ps, from) != []
    ensures Weave(lines, ps, from)[|Weave(lines, ps, from)| - 1] == lines[|lines| - 1]
  {
    hide Suffix;
    if ps != [] {
      var p, rest := ps[0], Weave(lines, ps[1..], ps[0].end);
      if |ps| > 1 || p.end < |lines| {
        LastLineStays(lines, ps[1..], p.end);
        assert rest[|rest| - 1] == lines[|lines| - 1];
      } else {
        assert rest == [] && ps[|ps| - 1] == p;
        LastLineShared(p);
      }
    }
  }

  lemma LastLineShared(p: Placement)
    requires Suffix(p) > 0
    ensures p.was != [] && p.added != [] && p.was[|p.was| - 1] == p.added[|p.added| - 1]
  {
    hide Suffix, Prefix;
    MarginsMaximal(p);
    var m := Suffix(p);
    assert p.was[|p.was| - m..][m - 1] == p.was[|p.was| - 1]
           && p.added[|p.added| - m..][m - 1] == p.added[|p.added| - 1];
  }
}
