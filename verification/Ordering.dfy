/** Putting placements in file order and splicing them in, as both edit engines do. */
module Ordering {
  import opened Spans

  /** What placements are sorted by: where they start, or where they start and then where they end. */
  datatype Order = ByStart | BySpan

  predicate AtOrBefore(o: Order, a: Placement, b: Placement) {
    a.start < b.start || (a.start == b.start && (o.ByStart? || a.end <= b.end))
  }

  function InsertLast(o: Order, s: seq<Placement>, p: Placement): seq<Placement> {
    if s == [] || AtOrBefore(o, s[|s| - 1], p) then s + [p]
    else InsertLast(o, s[..|s| - 1], p) + [s[|s| - 1]]
  }

  /** A stable sort. */
  function Sorted(o: Order, ps: seq<Placement>): seq<Placement> {
    if ps == [] then [] else InsertLast(o, Sorted(o, ps[..|ps| - 1]), ps[|ps| - 1])
  }

  predicate InOrder(o: Order, s: seq<Placement>) {
    forall i, j | 0 <= i < j < |s| :: AtOrBefore(o, s[i], s[j])
  }

  predicate IndexAscending(s: seq<Placement>) {
    forall i, j | 0 <= i < j < |s| :: s[i].index < s[j].index
  }

  /** Among placements with the same key, the one that came first stays first. */
  predicate TiesKeepIndex(o: Order, s: seq<Placement>) {
    forall i, j | 0 <= i < j < |s| && AtOrBefore(o, s[j], s[i]) :: s[i].index < s[j].index
  }

  lemma {:induction false} InsertMembers(o: Order, s: seq<Placement>, p: Placement)
    ensures multiset(InsertLast(o, s, p)) == multiset(s) + multiset{p}
    ensures forall q | q in InsertLast(o, s, p) :: q == p || q in s
  {
    if s != [] {
      assert s == s[..|s| - 1] + [s[|s| - 1]];
      if !AtOrBefore(o, s[|s| - 1], p) {
        InsertMembers(o, s[..|s| - 1], p);
      }
    }
  }

  lemma {:induction false} InsertSorts(o: Order, s: seq<Placement>, p: Placement)
    requires InOrder(o, s)
    ensures InOrder(o, InsertLast(o, s, p))
  {
    if s != [] && !AtOrBefore(o, s[|s| - 1], p) {
      var init := s[..|s| - 1];
      InsertSorts(o, init, p);
      InsertMembers(o, init, p);
      var r := InsertLast(o, init, p);
      forall i | 0 <= i < |r| ensures AtOrBefore(o, r[i], s[|s| - 1]) {
        assert r[i] == p || r[i] in init;
      }
    }
  }

  lemma {:induction false} InsertKeepsTies(o: Order, s: seq<Placement>, p: Placement)
    requires InOrder(o, s) && TiesKeepIndex(o, s) && forall q | q in s :: q.index < p.index
    ensures TiesKeepIndex(o, InsertLast(o, s, p))
  {
    if s != [] && !AtOrBefore(o, s[|s| - 1], p) {
      var last := s[|s| - 1];
      InsertKeepsTies(o, s[..|s| - 1], p);
      InsertMembers(o, s[..|s| - 1], p);
      var r := InsertLast(o, s[..|s| - 1], p);
      forall i | 0 <= i < |r| && AtOrBefore(o, last, r[i]) ensures r[i].index < last.index {
        assert r[i] == p || r[i] in s[..|s| - 1];
      }
    }
  }

  lemma {:induction false} SortSorts(o: Order, ps: seq<Placement>)
    ensures multiset(Sorted(o, ps)) == multiset(ps) && InOrder(o, Sorted(o, ps))
  {
    if ps != [] {
      SortSorts(o, ps[..|ps| - 1]);
      InsertSorts(o, Sorted(o, ps[..|ps| - 1]), ps[|ps| - 1]);
      InsertMembers(o, Sorted(o, ps[..|ps| - 1]), ps[|ps| - 1]);
      assert ps == ps[..|ps| - 1] + [ps[|ps| - 1]];
    }
  }

  lemma {:induction false} SortKeepsTies(o: Order, ps: seq<Placement>)
    requires IndexAscending(ps)
    ensures TiesKeepIndex(o, Sorted(o, ps))
  {
    if ps != [] {
      var init := ps[..|ps| - 1];
      SortKeepsTies(o, init);
      SortSorts(o, init);
      forall q | q in Sorted(o, init) ensures q.index < ps[|ps| - 1].index {
        assert q in multiset(init);
      }
      InsertKeepsTies(o, Sorted(o, init), ps[|ps| - 1]);
    }
  }

  lemma SameMembers(o: Order, ps: seq<Placement>)
    ensures |Sorted(o, ps)| == |ps| && forall p :: p in Sorted(o, ps) <==> p in ps
  {
    SortSorts(o, ps);
    var sorted := Sorted(o, ps);
    assert |multiset(sorted)| == |multiset(ps)|;
    forall p ensures p in sorted <==> p in ps {
      assert p in ps <==> p in multiset(ps);
      assert p in sorted <==> p in multiset(sorted);
    }
  }

  /** Each placement by itself lies inside the text and knows what is there. */
  predicate Lies(p: Placement, lines: seq<string>) {
    p.start <= p.end <= |lines| && p.was == lines[p.start..p.end]
  }

  /** Checking neighbours is enough: then the whole list is in order. */
  lemma NeighboursSuffice(s: seq<Placement>, lines: seq<string>)
    requires forall p | p in s :: Lies(p, lines)
    ensures Ordered(s, 0, lines) <==> forall i | 0 <= i < |s| - 1 :: s[i].end <= s[i + 1].start
  {
    hide Ordered;
    assert forall i | 0 <= i < |s| :: Lies(s[i], lines);
    if Ordered(s, 0, lines) {
      OrderedBounds(s, 0, lines);
    }
    if forall i | 0 <= i < |s| - 1 :: s[i].end <= s[i + 1].start {
      OrderedFromBounds(s, 0, lines);
    }
  }

  /** The splice loop: from the last placement to the first, so that earlier indices stay valid. */
  method SpliceAll(lines: seq<string>, s: seq<Placement>) returns (updated: seq<string>)
    requires Ordered(s, 0, lines)
    ensures updated == Weave(lines, s, 0)
  {
    hide Weave, Ordered;
    updated := lines;
    var i: nat := |s|;
    OrderedTail(lines, s, i);
    while i > 0
      invariant i <= |s| && Edge(s, i) <= |lines| && Ordered(s[i..], Edge(s, i), lines)
      invariant updated == SpliceBack(lines, s[i..], Edge(s, i))
    {
      i := i - 1;
      OrderedTail(lines, s, i);
      assert s[i..][1..] == s[i + 1..];
      updated := updated[..s[i].start] + s[i].added + updated[s[i].end..];
    }
    assert s[0..] == s;
    SpliceBackIsWeave(lines, s, 0);
    assert lines[..0] + Weave(lines, s, 0) == Weave(lines, s, 0);
  }

  /** The end of the placement before number i. */
  function Edge(s: seq<Placement>, i: nat): nat
    requires i <= |s|
  {
    if i == 0 then 0 else s[i - 1].end
  }

  lemma {:induction false} OrderedTail(lines: seq<string>, s: seq<Placement>, i: nat)
    requires i <= |s| && Ordered(s, 0, lines)
    ensures Edge(s, i) <= |lines| && Ordered(s[i..], Edge(s, i), lines)
    ensures i < |s| ==> Edge(s, i) <= s[i].start <= s[i].end <= |lines|
  {
    if i == 0 {
      assert s[0..] == s;
    } else {
      OrderedTail(lines, s, i - 1);
      assert s[i - 1..][1..] == s[i..];
    }
  }
}
