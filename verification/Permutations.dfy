/** Rearranging a list and mapping a function over it commute. */
module Permutations {
  function Mapped<A, B>(f: A -> B, s: seq<A>): (r: seq<B>)
    ensures |r| == |s| && forall i | 0 <= i < |s| :: r[i] == f(s[i])
  {
    seq(|s|, i requires 0 <= i < |s| => f(s[i]))
  }

  lemma MappedConcat<A, B>(f: A -> B, s: seq<A>, t: seq<A>)
    ensures Mapped(f, s + t) == Mapped(f, s) + Mapped(f, t)
  {
  }

  lemma MappedAround<A, B>(f: A -> B, before: seq<A>, x: A, after: seq<A>)
    ensures multiset(Mapped(f, before + [x] + after)) == multiset(Mapped(f, before + after)) + multiset{f(x)}
  {
    MappedConcat(f, before + [x], after);
    MappedConcat(f, before, [x]);
    MappedConcat(f, before, after);
    assert Mapped(f, [x]) == [f(x)];
  }

  lemma Around<A>(before: seq<A>, x: A, after: seq<A>)
    ensures multiset(before + [x] + after) == multiset(before + after) + multiset{x}
  {
  }

  lemma FindSame<A>(x: A, rest: seq<A>, t: seq<A>) returns (before: seq<A>, after: seq<A>)
    requires multiset([x] + rest) == multiset(t)
    ensures t == before + [x] + after && multiset(rest) == multiset(before + after)
  {
    assert x in multiset([x] + rest) && x in multiset(t);
    var k :| 0 <= k < |t| && t[k] == x;
    before, after := t[..k], t[k + 1..];
    assert t == before + [x] + after;
    Around(before, x, after);
    assert multiset(rest) == multiset([x] + rest) - multiset{x};
  }

  lemma {:induction false} MappedPermutation<A, B>(f: A -> B, s: seq<A>, t: seq<A>)
    requires multiset(s) == multiset(t)
    ensures multiset(Mapped(f, s)) == multiset(Mapped(f, t))
    decreases |s|
  {
    hide Mapped;
    if s == [] {
      assert |multiset(t)| == 0;
    } else {
      var x, rest := s[0], s[1..];
      assert s == [x] + rest;
      var before, after := FindSame(x, rest, t);
      MappedPermutation(f, rest, before + after);
      MappedAround(f, before, x, after);
      MappedAround(f, [], x, rest);
      assert [] + [x] + rest == s && [] + rest == rest;
    }
  }
}
