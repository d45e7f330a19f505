/** Finding where a hunk goes: whitespace-tolerant comparison in three grades, anchors, the
    forward-only search, and the replacement lines a tolerant match is given. */
module Matching {
  import opened Options
  import opened Spans

  const GRADES: seq<Grade> := [Exact, TrailingWs, Indent]

  /** Why a hunk, or a whole patch of one file, is refused. */
  datatype Failure =
    | MalformedHunk
    | AnchorNotFound(hunk: nat)
    | ContextNotFound(hunk: nat)
    | ContextAmbiguous(hunk: nat)
    | HunksOverlap(first: nat, second: nat)

  /** A hunk after parsing: what must be there, what replaces it, and for each replacement line the
      line of `before` it repeats, if it is context. */
  datatype ParsedHunk = ParsedHunk(before: seq<string>, after: seq<string>, sources: seq<Option<nat>>,
          scope: Option<string>, eofAnchor: bool)
  {
    ghost predicate WellFormed() {
      && |sources| == |after|
      && (forall j | 0 <= j < |after| && sources[j].Some? ::
           sources[j].value < |before| && after[j] == before[sources[j].value])
      && (forall i, j | 0 <= i < j < |after| && sources[i].Some? && sources[j].Some? ::
           sources[i].value < sources[j].value)
    }

    /** No line removed and none added. */
    ghost predicate PureContext() {
      before == after && |sources| == |after| && forall j | 0 <= j < |sources| :: sources[j] == Some(j)
    }
  }

  /** The characters str.strip removes. */
  predicate IsSpace(c: char) {
    || c == ' ' || '\t' <= c <= '\r' || '\U{1C}' <= c <= '\U{1F}' || c == '\U{85}' || c == '\U{A0}'
    || c == '\U{1680}' || '\U{2000}' <= c <= '\U{200A}' || c == '\U{2028}' || c == '\U{2029}'
    || c == '\U{202F}' || c == '\U{205F}' || c == '\U{3000}'
  }

  function RStrip(s: string): (r: string)
    ensures r <= s
  {
    if s != "" && IsSpace(s[|s| - 1]) then RStrip(s[..|s| - 1]) else s
  }

  function LStrip(s: string): (r: string)
    ensures |r| <= |s| && s[|s| - |r|..] == r
    ensures r != "" ==> !IsSpace(r[0])
    ensures forall i | 0 <= i < |s| - |r| :: IsSpace(s[i])
  {
    if s != "" && IsSpace(s[0]) then LStrip(s[1..]) else s
  }

  function Strip(s: string): string {
    LStrip(RStrip(s))
  }

  function IndentOf(s: string): string {
    s[..|s| - |LStrip(s)|]
  }

  /** What a line is compared by at each grade. */
  function Key(grade: Grade, line: string): string {
    match grade
    case Exact => line
    case TrailingWs => RStrip(line)
    case Indent => Strip(line)
  }

  predicate MatchesAt(lines: seq<string>, needle: seq<string>, grade: Grade, i: nat) {
    && i + |needle| <= |lines|
    && forall k | 0 <= k < |needle| :: Key(grade, lines[i + k]) == Key(grade, needle[k])
  }

  function FindFrom(lines: seq<string>, needle: seq<string>, grade: Grade, start: nat): seq<nat>
    decreases |lines| - start
  {
    if start + |needle| > |lines| || start == |lines| then []
    else (if MatchesAt(lines, needle, grade, start) then [start] else []) + FindFrom(lines, needle, grade, start + 1)
  }

  /** find_subsequence_all. */
  function FindAll(lines: seq<string>, needle: seq<string>, grade: Grade, start: nat): seq<nat> {
    if needle == [] then if start <= |lines| then [start] else []
    else FindFrom(lines, needle, grade, start)
  }

  predicate Ascending(s: seq<nat>) {
    forall i, j | 0 <= i < j < |s| :: s[i] < s[j]
  }

  lemma {:induction false} FindFromFinds(lines: seq<string>, needle: seq<string>, grade: Grade, start: nat)
    requires needle != []
    ensures Ascending(FindFrom(lines, needle, grade, start))
    ensures forall i: nat :: i in FindFrom(lines, needle, grade, start) <==>
              start <= i && MatchesAt(lines, needle, grade, i)
    decreases |lines| - start
  {
    hide MatchesAt;
    if start + |needle| <= |lines| && start != |lines| {
      FindFromFinds(lines, needle, grade, start + 1);
      var tail := FindFrom(lines, needle, grade, start + 1);
      InFront(if MatchesAt(lines, needle, grade, start) then [start] else [], tail, start);
    } else {
      NoRoom(lines, needle, grade, start);
    }
  }

  lemma InFront(head: seq<nat>, tail: seq<nat>, start: nat)
    requires Ascending(tail) && (head == [] || head == [start]) && forall i | i in tail :: start < i
    ensures Ascending(head + tail) && forall i :: i in head + tail <==> i in head || i in tail
  {
    assert forall k | 0 <= k < |tail| :: tail[k] in tail;
  }

  lemma NoRoom(lines: seq<string>, needle: seq<string>, grade: Grade, start: nat)
    requires start + |needle| > |lines|
    ensures forall i: nat | start <= i :: !MatchesAt(lines, needle, grade, i)
  {
    hide Key;
  }

  /** The search finds every match from `start` on, in order, and nothing else. */
  lemma FindsAll(lines: seq<string>, needle: seq<string>, grade: Grade, start: nat)
    requires needle != []
    ensures Ascending(FindAll(lines, needle, grade, start))
    ensures forall i: nat :: i in FindAll(lines, needle, grade, start) <==>
              start <= i && MatchesAt(lines, needle, grade, i)
  {
    FindFromFinds(lines, needle, grade, start);
  }

  predicate Stricter(a: Grade, b: Grade) {
    (a.Exact? && !b.Exact?) || (a.TrailingWs? && b.Indent?)
  }

  /** A looser grade matches wherever a stricter one does, so candidates only grow. */
  lemma CandidatesGrow(lines: seq<string>, needle: seq<string>, strict: Grade, loose: Grade, i: nat)
    requires Stricter(strict, loose) && MatchesAt(lines, needle, strict, i)
    ensures MatchesAt(lines, needle, loose, i)
  {
    forall k | 0 <= k < |needle| ensures Key(loose, lines[i + k]) == Key(loose, needle[k]) {
      assert Key(strict, lines[i + k]) == Key(strict, needle[k]);
    }
  }

  /** _eof_insert_index: where the last line ends, before the empty piece after a final newline. */
  function EofIndex(lines: seq<string>): nat {
    if lines != [] && lines[|lines| - 1] == "" then |lines| - 1 else |lines|
  }

  function AtEof(lines: seq<string>, candidates: seq<nat>, n: nat): (r: seq<nat>)
    ensures forall c :: c in r <==> c in candidates && c + n >= EofIndex(lines)
  {
    if candidates == [] then []
    else (if candidates[0] + n >= EofIndex(lines) then [candidates[0]] else []) + AtEof(lines, candidates[1..], n)
  }

  lemma {:induction false} AtEofAscending(lines: seq<string>, candidates: seq<nat>, n: nat)
    requires Ascending(candidates)
    ensures Ascending(AtEof(lines, candidates, n))
  {
    if candidates != [] {
      AtEofAscending(lines, candidates[1..], n);
      var tail := AtEof(lines, candidates[1..], n);
      forall i | 0 <= i < |tail| ensures candidates[0] < tail[i] {
        assert tail[i] in candidates[1..];
      }
    }
  }

  /** _filter_by_eof: the candidates that reach the end of the file, or all if none does. */
  function FilterByEof(lines: seq<string>, candidates: seq<nat>, n: nat): seq<nat> {
    var reaching := AtEof(lines, candidates, n);
    if reaching != [] then reaching else candidates
  }

  /** The match at `at` is the one and only at this grade from `start` on; under an end-of-file mark it
      may instead be the only one that reaches the end. */
  ghost predicate Sole(lines: seq<string>, h: ParsedHunk, grade: Grade, start: nat, at: nat) {
    && start <= at && MatchesAt(lines, h.before, grade, at)
    && forall c: nat | start <= c && c != at && MatchesAt(lines, h.before, grade, c) ::
         h.eofAnchor && at + |h.before| >= EofIndex(lines) && c + |h.before| < EofIndex(lines)
  }

  ghost predicate NoneAt(lines: seq<string>, needle: seq<string>, grade: Grade, start: nat) {
    forall c: nat | start <= c :: !MatchesAt(lines, needle, grade, c)
  }

  function Selected(lines: seq<string>, h: ParsedHunk, grade: Grade, start: nat): seq<nat> {
    var candidates := FindAll(lines, h.before, grade, start);
    if h.eofAnchor then FilterByEof(lines, candidates, |h.before|) else candidates
  }

  lemma Singleton(s: seq<nat>, x: nat)
    requires Ascending(s)
    ensures s == [x] <==> x in s && forall y | y in s :: y == x
  {
    assert forall k | 0 <= k < |s| :: s[k] in s;
    assert |s| > 1 ==> s[0] < s[1];
  }

  /** What the choice among the candidates comes to, as a property of the one chosen. */
  lemma ChosenIff(lines: seq<string>, candidates: seq<nat>, n: nat, eof: bool, at: nat)
    requires Ascending(candidates)
    ensures (if eof then FilterByEof(lines, candidates, n) else candidates) == [at] <==>
            && at in candidates
            && forall c | c in candidates && c != at :: eof && at + n >= EofIndex(lines) && c + n < EofIndex(lines)
  {
    hide EofIndex;
    AtEofAscending(lines, candidates, n);
    var reaching := AtEof(lines, candidates, n);
    assert reaching != [] ==> reaching[0] in reaching;
    assert forall c | c in candidates && c !in reaching :: c + n < EofIndex(lines);
    Singleton(candidates, at);
    Singleton(reaching, at);
  }

  lemma SelectedIffSole(lines: seq<string>, h: ParsedHunk, grade: Grade, start: nat, at: nat)
    requires h.before != []
    ensures Selected(lines, h, grade, start) == [at] <==> Sole(lines, h, grade, start, at)
    ensures FindAll(lines, h.before, grade, start) == [] <==> NoneAt(lines, h.before, grade, start)
  {
    hide MatchesAt, FindAll, EofIndex, FilterByEof;
    var candidates := FindAll(lines, h.before, grade, start);
    FindsAll(lines, h.before, grade, start);
    ChosenIff(lines, candidates, |h.before|, h.eofAnchor, at);
    assert candidates != [] ==> candidates[0] in candidates;
  }

  /** _find_anchor, from grade number `g` on. */
  function AnchorFrom(lines: seq<string>, scope: string, start: nat, g: nat): Option<nat>
    requires g <= 3
    decreases 3 - g
  {
    if g == 3 then None
    else
      var candidates := FindAll(lines, [scope], GRADES[g], start);
      if candidates != [] then Some(candidates[0]) else AnchorFrom(lines, scope, start, g + 1)
  }

  method FindAnchor(lines: seq<string>, scope: string, start: nat) returns (r: Option<nat>)
    ensures r == AnchorFrom(lines, scope, start, 0)
  {
    var g := 0;
    while g < 3
      invariant g <= 3 && AnchorFrom(lines, scope, start, 0) == AnchorFrom(lines, scope, start, g)
    {
      var candidates := FindAll(lines, [scope], GRADES[g], start);
      if candidates != [] { return Some(candidates[0]); }
      g := g + 1;
    }
    r := None;
  }

  /** `a` is the first match at this grade, and no stricter grade tried has one. */
  ghost predicate FirstMatch(lines: seq<string>, scope: string, start: nat, a: nat, g: nat, k: nat)
    requires k < 3
  {
    && start <= a < |lines| && MatchesAt(lines, [scope], GRADES[k], a)
    && (forall c: nat | start <= c < a :: !MatchesAt(lines, [scope], GRADES[k], c))
    && forall j | g <= j < k :: NoneAt(lines, [scope], GRADES[j], start)
  }

  lemma FirstCandidate(lines: seq<string>, scope: string, start: nat, g: nat)
    requires g < 3
    ensures var candidates := FindAll(lines, [scope], GRADES[g], start);
            if candidates == [] then NoneAt(lines, [scope], GRADES[g], start)
            else FirstMatch(lines, scope, start, candidates[0], g, g)
  {
    hide FindAll, Key;
    FindsAll(lines, [scope], GRADES[g], start);
    var candidates := FindAll(lines, [scope], GRADES[g], start);
    if candidates != [] {
      assert candidates[0] in candidates;
      assert forall k | 0 <= k < |candidates| :: candidates[0] <= candidates[k];
      assert forall c | c in candidates :: candidates[0] <= c;
    }
  }

  /** The anchor is the first line, at the strictest grade any line from `start` on reaches. */
  lemma {:induction false} AnchorIsFirst(lines: seq<string>, scope: string, start: nat, g: nat)
    requires g <= 3
    ensures match AnchorFrom(lines, scope, start, g)
            case None => forall k | g <= k < 3 :: NoneAt(lines, [scope], GRADES[k], start)
            case Some(a) => exists k | g <= k < 3 :: FirstMatch(lines, scope, start, a, g, k)
    decreases 3 - g
  {
    hide FindAll, MatchesAt, NoneAt;
    if g < 3 {
      FirstCandidate(lines, scope, start, g);
      AnchorIsFirst(lines, scope, start, g + 1);
      var later := AnchorFrom(lines, scope, start, g + 1);
      var candidates := FindAll(lines, [scope], GRADES[g], start);
      if candidates == [] {
        assert AnchorFrom(lines, scope, start, g) == later;
        if later.Some? {
          var k :| g + 1 <= k < 3 && FirstMatch(lines, scope, start, later.value, g + 1, k);
          assert FirstMatch(lines, scope, start, later.value, g, k);
        } else {
          forall k | g <= k < 3 ensures NoneAt(lines, [scope], GRADES[k], start) {
            assert k == g || NoneAt(lines, [scope], GRADES[k], start);
          }
        }
      } else {
        assert AnchorFrom(lines, scope, start, g) == Some(candidates[0]);
        assert FirstMatch(lines, scope, start, candidates[0], g, g);
      }
    }
  }

  /** Indent to put in front, and how much of the present indent to drop. */
  datatype Shift = Shift(prefix: string, drop: nat)

  /** How one file line's indent differs from one hunk line's. */
  datatype LineShift = Blank | Incompatible | By(shift: Shift)

  function LineShiftOf(actual: string, expected: string): LineShift {
    if Strip(actual) == "" && Strip(expected) == "" then Blank
    else if Strip(actual) != Strip(expected) then Incompatible
    else
      var a, e := IndentOf(actual), IndentOf(expected);
      if e <= a then By(Shift(a[|e|..], 0))
      else if a <= e then By(Shift("", |e| - |a|))
      else Incompatible
  }

  /** The shift that every line which is not blank on both sides agrees on. */
  ghost predicate Agreed(actual: seq<string>, expected: seq<string>, n: nat, shift: Option<Shift>)
    requires n <= |actual| == |expected|
  {
    match shift
    case Some(d) => (forall k | 0 <= k < n :: LineShiftOf(actual[k], expected[k]) in {Blank, By(d)})
                    && exists k | 0 <= k < n :: LineShiftOf(actual[k], expected[k]) == By(d)
    case None => forall k | 0 <= k < n :: LineShiftOf(actual[k], expected[k]) == Blank
  }

  /** _indent_delta: the shift all lines agree on, no shift if all are blank, else nothing. */
  function IndentDelta(actual: seq<string>, expected: seq<string>, n: nat): Option<Option<Shift>>
    requires n <= |actual| == |expected|
  {
    if n == 0 then Some(None)
    else
      match IndentDelta(actual, expected, n - 1)
      case None => None
      case Some(delta) =>
        match LineShiftOf(actual[n - 1], expected[n - 1])
        case Blank => Some(delta)
        case Incompatible => None
        case By(candidate) => if delta == None || delta == Some(candidate) then Some(Some(candidate)) else None
  }

  lemma {:induction false} IndentDeltaStays(actual: seq<string>, expected: seq<string>, m: nat, n: nat)
    requires m <= n <= |actual| == |expected| && IndentDelta(actual, expected, m) == None
    ensures IndentDelta(actual, expected, n) == None
  {
    hide LineShiftOf;
    if m < n {
      IndentDeltaStays(actual, expected, m, n - 1);
    }
  }

  lemma {:induction false} IndentDeltaIffAgreed(actual: seq<string>, expected: seq<string>, n: nat,
          shift: Option<Shift>)
    requires n <= |actual| == |expected|
    ensures IndentDelta(actual, expected, n) == Some(shift) <==> Agreed(actual, expected, n, shift)
  {
    hide LineShiftOf;
    if n > 0 {
      var line := LineShiftOf(actual[n - 1], expected[n - 1]);
      IndentDeltaIffAgreed(actual, expected, n - 1, shift);
      IndentDeltaIffAgreed(actual, expected, n - 1, None);
    }
  }

  function DeltaOf(actual: seq<string>, expected: seq<string>): Option<Shift>
    requires |actual| == |expected|
  {
    match IndentDelta(actual, expected, |actual|)
    case None => None
    case Some(None) => Some(Shift("", 0))
    case Some(Some(d)) => Some(d)
  }

  method ComputeIndentDelta(actual: seq<string>, expected: seq<string>) returns (r: Option<Shift>)
    requires |actual| == |expected|
    ensures r == DeltaOf(actual, expected)
  {
    hide LineShiftOf;
    var delta: Option<Shift> := None;
    var k := 0;
    while k < |actual|
      invariant k <= |actual| && IndentDelta(actual, expected, k) == Some(delta)
    {
      var one := LineShiftOf(actual[k], expected[k]);
      if one.Incompatible? || (one.By? && delta.Some? && delta.value != one.shift) {
        assert IndentDelta(actual, expected, k + 1) == None;
        IndentDeltaStays(actual, expected, k + 1, |actual|);
        return None;
      }
      if one.By? { delta := Some(one.shift); }
      k := k + 1;
    }
    r := if delta.Some? then delta else Some(Shift("", 0));
  }

  function ShiftIndent(value: string, shift: Shift): string {
    if Strip(value) == "" then value
    else
      var dropped :=
        if shift.drop == 0 then value
        else if |IndentOf(value)| >= shift.drop then IndentOf(value)[shift.drop..] + LStrip(value)
        else LStrip(value);
      shift.prefix + dropped
  }

  function ShiftFor(lines: seq<string>, start: nat, h: ParsedHunk, grade: Grade): Option<Shift>
    requires start + |h.before| <= |lines|
  {
    if !grade.Indent? then Some(Shift("", 0))
    else DeltaOf(lines[start..start + |h.before|], h.before)
  }

  function Rebuilt(lines: seq<string>, start: nat, h: ParsedHunk, shift: Shift, n: nat): (r: seq<string>)
    requires start + |h.before| <= |lines| && n <= |h.after| == |h.sources|
    requires forall j | 0 <= j < |h.sources| && h.sources[j].Some? :: h.sources[j].value < |h.before|
    ensures |r| == n
  {
    seq(n, j requires 0 <= j < n =>
      if h.sources[j].Some? then lines[start + h.sources[j].value] else ShiftIndent(h.after[j], shift))
  }

  /** _rebuild_new_lines. */
  method RebuildNewLines(lines: seq<string>, start: nat, h: ParsedHunk, grade: Grade) returns (r: Option<seq<string>>)
    requires start + |h.before| <= |lines| && h.WellFormed()
    ensures r == match ShiftFor(lines, start, h, grade)
                 case None => None
                 case Some(shift) => Some(Rebuilt(lines, start, h, shift, |h.after|))
  {
    hide DeltaOf, ShiftIndent;
    var shift := Shift("", 0);
    if grade.Indent? {
      var delta := ComputeIndentDelta(lines[start..start + |h.before|], h.before);
      if delta == None { return None; }
      shift := delta.value;
    }
    var rebuilt := [];
    var j := 0;
    while j < |h.after|
      invariant j <= |h.after| && rebuilt == Rebuilt(lines, start, h, shift, j)
    {
      rebuilt := rebuilt +
        [match h.sources[j] case Some(k) => lines[start + k] case None => ShiftIndent(h.after[j], shift)];
      j := j + 1;
    }
    r := Some(rebuilt);
  }
}
