/** What shifting a line's indent achieves: the width is always right; the characters are right when
    the indents are made of one character, and can be wrong when tabs and spaces are mixed. */
module Indents {
  import opened Matching

  predicate AllSpace(s: string) {
    forall i | 0 <= i < |s| :: IsSpace(s[i])
  }

  lemma LStripIndent(i: string, l: string)
    requires AllSpace(i) && (l == "" || !IsSpace(l[0]))
    ensures LStrip(i + l) == l
  {
    hide IsSpace, LStrip;
    var s := i + l;
    assert forall k | 0 <= k < |i| :: IsSpace(s[k]) by {
      assert forall k | 0 <= k < |i| :: s[k] == i[k];
    }
    assert l != "" ==> s[|i|] == l[0];
    assert s[|i|..] == l;
    StripsTo(s, |i|);
  }

  lemma {:induction false} StripsTo(s: string, n: nat)
    requires n <= |s| && (forall k | 0 <= k < n :: IsSpace(s[k])) && (n < |s| ==> !IsSpace(s[n]))
    ensures LStrip(s) == s[n..]
  {
    hide IsSpace;
    if n > 0 {
      var rest := s[1..];
      assert forall k | 0 <= k < |rest| :: rest[k] == s[k + 1];
      StripsTo(rest, n - 1);
      assert rest[n - 1..] == s[n..];
    }
  }

  lemma {:induction false} RStripIndent(i: string, l: string)
    requires l != "" && !IsSpace(l[0])
    ensures RStrip(i + l) == i + RStrip(l) && RStrip(l) != "" && RStrip(l)[0] == l[0]
  {
    hide IsSpace;
    if IsSpace(l[|l| - 1]) {
      RStripIndent(i, l[..|l| - 1]);
      assert (i + l)[..|i + l| - 1] == i + l[..|l| - 1];
    }
  }

  lemma {:induction false} RStripBlank(s: string)
    requires AllSpace(s)
    ensures RStrip(s) == ""
  {
    hide IsSpace;
    if s != "" {
      RStripBlank(s[..|s| - 1]);
    }
  }

  /** A line as an indent and a rest that starts with a visible character. */
  lemma Parts(i: string, l: string)
    requires AllSpace(i) && l != "" && !IsSpace(l[0])
    ensures LStrip(i + l) == l && IndentOf(i + l) == i && RStrip(i + l) == i + RStrip(l) && Strip(i + l) == RStrip(l)
            && Strip(i + l) != ""
  {
    hide IsSpace;
    LStripIndent(i, l);
    RStripIndent(i, l);
    LStripIndent(i, RStrip(l));
  }

  lemma NonBlankParts(s: string)
    requires Strip(s) != ""
    ensures var l := LStrip(s); l != "" && !IsSpace(l[0]) && AllSpace(IndentOf(s)) && s == IndentOf(s) + l
  {
    hide IsSpace, RStrip;
    var l := LStrip(s);
    Halves(s, |s| - |l|);
    if l == "" {
      RStripBlank(s);
    }
  }

  lemma Halves(s: string, n: nat)
    requires n <= |s|
    ensures s == s[..n] + s[n..]
  {
  }

  function ShiftedIndent(indent: string, d: Shift): string
    requires d.drop <= |indent|
  {
    d.prefix + indent[d.drop..]
  }

  /** What is measured on one line: two lines with the same visible text differ by what one indent has behind the
      other, and by nothing that could be measured if neither begins with the other. */
  lemma ShiftMeasures(actual: string, expected: string, d: Shift)
    ensures LineShiftOf(actual, expected) == Blank <==> Strip(actual) == "" && Strip(expected) == ""
    ensures LineShiftOf(actual, expected) == By(d) <==>
              && Strip(actual) == Strip(expected) != ""
              && if d.drop == 0 then IndentOf(actual) == IndentOf(expected) + d.prefix
                 else d.prefix == "" && d.drop <= |IndentOf(expected)|
                      && IndentOf(actual) == IndentOf(expected)[..|IndentOf(expected)| - d.drop]
  {
    hide Strip, IndentOf;
    var a, e := IndentOf(actual), IndentOf(expected);
    assert e <= a ==> a == e + a[|e|..];
    assert a == e + d.prefix ==> a[|e|..] == d.prefix;
  }

  /** An indent to which a shift does in front what it was measured to do behind: what is added can as
      well stand before it, what is dropped can as well be taken from its front. */
  predicate Commutes(indent: string, d: Shift)
    requires d.drop <= |indent|
  {
    if d.drop == 0 then indent + d.prefix == d.prefix + indent else indent[..|indent| - d.drop] == indent[d.drop..]
  }

  /** A shifted line has the file line's visible text behind an indent of the file line's width; it is
      the file line, up to trailing whitespace, exactly when its own indent commutes with the shift. */
  lemma ShiftKeepsWidth(actual: string, expected: string, d: Shift)
    requires LineShiftOf(actual, expected) == By(d)
    ensures d.drop <= |IndentOf(expected)|
    ensures var r := ShiftIndent(expected, d);
            && IndentOf(r) == ShiftedIndent(IndentOf(expected), d)
            && |IndentOf(r)| == |IndentOf(actual)| && Strip(r) == Strip(actual)
            && (RStrip(r) == RStrip(actual) <==> Commutes(IndentOf(expected), d))
            && (IndentOf(r) == IndentOf(actual) <==> Commutes(IndentOf(expected), d))
  {
    hide IsSpace, LStrip, RStrip, IndentOf, Strip;
    var a, e := IndentOf(actual), IndentOf(expected);
    var la, le := LStrip(actual), LStrip(expected);
    NonBlankParts(actual);
    NonBlankParts(expected);
    var i := ShiftedIndent(e, d);
    assert AllSpace(i);
    assert ShiftIndent(expected, d) == i + le;
    Parts(i, le);
    Parts(e, le);
    Parts(a, la);
    assert i + RStrip(le) == a + RStrip(la) ==> (i + RStrip(le))[..|i|] == (a + RStrip(la))[..|a|];
    assert i == a <==> Commutes(e, d) by { CommutesIff(a, e, d); }
  }

  lemma CommutesIff(a: string, e: string, d: Shift)
    requires if e <= a then d == Shift(a[|e|..], 0) else a <= e && d == Shift("", |e| - |a|)
    ensures d.drop <= |e| && (ShiftedIndent(e, d) == a <==> Commutes(e, d))
  {
    if e <= a {
      assert a == e + d.prefix && e[0..] == e;
    } else {
      assert a == e[..|a|] && "" + e[d.drop..] == e[d.drop..];
    }
  }

  /** An added line with the indent of a context line of the patch gets the indent that context line has
      in the file exactly under the same condition; its visible text and trailing whitespace stay. */
  lemma AddedLineAligns(actual: string, expected: string, value: string, d: Shift)
    requires LineShiftOf(actual, expected) == By(d) && Strip(value) != "" && IndentOf(value) == IndentOf(expected)
    ensures d.drop <= |IndentOf(expected)|
    ensures var r := ShiftIndent(value, d);
            && LStrip(r) == LStrip(value) && |IndentOf(r)| == |IndentOf(actual)|
            && (IndentOf(r) == IndentOf(actual) <==> Commutes(IndentOf(expected), d))
  {
    hide IsSpace, LStrip, RStrip, IndentOf, Strip, Commutes, LineShiftOf, ShiftIndent, ShiftedIndent;
    ShiftKeepsWidth(actual, expected, d);
    NonBlankParts(value);
    ShiftedIsSpace(actual, expected, d);
    ShiftedAs(value, d);
    Parts(ShiftedIndent(IndentOf(value), d), LStrip(value));
  }

  lemma ShiftedAs(value: string, d: Shift)
    requires Strip(value) != "" && d.drop <= |IndentOf(value)|
    ensures ShiftIndent(value, d) == ShiftedIndent(IndentOf(value), d) + LStrip(value)
  {
    hide IsSpace, RStrip, Strip;
    var indent, l := IndentOf(value), LStrip(value);
    assert value == indent + l && indent[0..] == indent;
    assert d.prefix + (indent[d.drop..] + l) == d.prefix + indent[d.drop..] + l;
  }

  lemma ShiftedIsSpace(actual: string, expected: string, d: Shift)
    requires LineShiftOf(actual, expected) == By(d)
    ensures d.drop <= |IndentOf(expected)| && AllSpace(ShiftedIndent(IndentOf(expected), d))
  {
    hide IsSpace, LStrip, RStrip, IndentOf, Strip;
    NonBlankParts(actual);
    NonBlankParts(expected);
  }

  /** With one indent character throughout, the shifted line is the file line up to trailing whitespace. */
  lemma ShiftExactWhenUniform(actual: string, expected: string, d: Shift, c: char)
    requires LineShiftOf(actual, expected) == By(d)
    requires forall k | 0 <= k < |IndentOf(actual)| :: IndentOf(actual)[k] == c
    requires forall k | 0 <= k < |IndentOf(expected)| :: IndentOf(expected)[k] == c
    ensures RStrip(ShiftIndent(expected, d)) == RStrip(actual)
  {
    hide IsSpace, LStrip, RStrip, IndentOf, Strip, ShiftIndent;
    ShiftKeepsWidth(actual, expected, d);
    var e := IndentOf(expected);
    assert forall k | 0 <= k < |d.prefix| :: d.prefix[k] == c;
    assert Commutes(e, d);
  }

  /** With tabs and spaces mixed it need not be: the extra indent goes in front of the indent it
      was measured behind. */
  lemma ShiftMisplacesMixedIndent()
    ensures LineShiftOf("\t  x", "\tx") == By(Shift("  ", 0))
    ensures ShiftIndent("\tx", Shift("  ", 0)) == "  \tx"
    ensures RStrip(ShiftIndent("\tx", Shift("  ", 0))) != RStrip("\t  x")
  {
    hide IsSpace, LStrip, RStrip, IndentOf, Strip;
    MixedFacts();
    Parts("\t  ", "x");
    Parts("\t", "x");
    Parts("  \t", "x");
    ShiftKeepsWidth("\t  x", "\tx", Shift("  ", 0));
    assert "  \t"[0] == ' ' && "\t  "[0] == '\t';
  }

  lemma MixedFacts()
    ensures AllSpace("\t  ") && AllSpace("\t") && AllSpace("  \t") && !IsSpace('x')
    ensures "\t  x" == "\t  " + "x" && "\tx" == "\t" + "x" && "  \tx" == "  \t" + "x" && "  " + "\tx" == "  \tx"
    ensures "\t  "[1..] == "  " && "\t" <= "\t  "
  {
  }
}
