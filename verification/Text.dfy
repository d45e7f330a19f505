/** Lines and line endings: splitting, joining, and the round trip through "\n" that both text-edit
    engines put a file through. */
module Texts {
  datatype LineEnding = Lf | CrLf

  predicate NoLf(line: string) {
    '\n' !in line
  }

  /** text.split("\n"). */
  function Split(text: string): (lines: seq<string>)
    ensures lines != []
  {
    if text == "" then [""]
    else if text[0] == '\n' then [""] + Split(text[1..])
    else
      var rest := Split(text[1..]);
      [[text[0]] + rest[0]] + rest[1..]
  }

  /** "\n".join(lines). */
  function Join(lines: seq<string>): string {
    if lines == [] then ""
    else if |lines| == 1 then lines[0]
    else lines[0] + "\n" + Join(lines[1..])
  }

  lemma JoinHead(c: char, lines: seq<string>)
    requires lines != []
    ensures Join([[c] + lines[0]] + lines[1..]) == [c] + Join(lines)
  {
    var headed := [[c] + lines[0]] + lines[1..];
    assert headed[1..] == lines[1..];
    assert |lines| > 1 ==> [c] + lines[0] + "\n" + Join(lines[1..]) == [c] + (lines[0] + "\n" + Join(lines[1..]));
  }

  lemma {:induction false} JoinSplit(text: string)
    ensures Join(Split(text)) == text
  {
    if text != "" {
      JoinSplit(text[1..]);
      var rest := Split(text[1..]);
      if text[0] == '\n' {
        assert Split(text)[1..] == rest;
      } else {
        JoinHead(text[0], rest);
      }
    }
  }

  lemma {:induction false} SplitHasNoLf(text: string, line: string)
    requires line in Split(text)
    ensures NoLf(line) && forall c | c in line :: c in text
  {
    if text != "" {
      var rest := Split(text[1..]);
      if text[0] == '\n' {
        if line in rest { SplitHasNoLf(text[1..], line); }
      } else if line in rest[1..] {
        SplitHasNoLf(text[1..], line);
      } else {
        SplitHasNoLf(text[1..], rest[0]);
      }
    }
  }

  lemma NoLfTail(line: string)
    requires line != "" && NoLf(line)
    ensures line[0] != '\n' && NoLf(line[1..])
  {
    assert line[0] in line && forall c | c in line[1..] :: c in line;
  }

  lemma {:induction false} SplitOneLine(line: string)
    requires NoLf(line)
    ensures Split(line) == [line]
  {
    if line != "" {
      NoLfTail(line);
      SplitOneLine(line[1..]);
      assert [line[0]] + line[1..] == line;
    }
  }

  lemma {:induction false} SplitAfterLine(line: string, rest: string)
    requires NoLf(line)
    ensures Split(line + "\n" + rest) == [line] + Split(rest)
  {
    var text := line + "\n" + rest;
    if line == "" {
      assert text[1..] == rest;
    } else {
      NoLfTail(line);
      SplitAfterLine(line[1..], rest);
      assert text[1..] == line[1..] + "\n" + rest;
      assert ([line[1..]] + Split(rest))[1..] == Split(rest);
      assert [line[0]] + line[1..] == line;
    }
  }

  lemma {:induction false} SplitJoin(lines: seq<string>)
    requires lines != [] && forall line | line in lines :: NoLf(line)
    ensures Split(Join(lines)) == lines
  {
    if |lines| == 1 {
      SplitOneLine(lines[0]);
    } else {
      SplitJoin(lines[1..]);
      SplitAfterLine(lines[0], Join(lines[1..]));
    }
  }

  /** text.replace("\r\n", "\n"). */
  function ReplaceCrLf(text: string): string {
    if text == "" then ""
    else if text[0] == '\r' && |text| > 1 && text[1] == '\n' then "\n" + ReplaceCrLf(text[2..])
    else [text[0]] + ReplaceCrLf(text[1..])
  }

  /** text.replace("\r", "\n"). */
  function ReplaceCr(text: string): string {
    if text == "" then ""
    else [if text[0] == '\r' then '\n' else text[0]] + ReplaceCr(text[1..])
  }

  /** text.replace("\n", "\r\n"). */
  function ReplaceLf(text: string): string {
    if text == "" then ""
    else (if text[0] == '\n' then "\r\n" else [text[0]]) + ReplaceLf(text[1..])
  }

  function NormalizeToLf(text: string): string {
    ReplaceCr(ReplaceCrLf(text))
  }

  function RestoreLineEndings(text: string, ending: LineEnding): string {
    if ending.CrLf? then ReplaceLf(text) else text
  }

  predicate At(text: string, word: string, i: int) {
    0 <= i <= |text| - |word| && text[i..i + |word|] == word
  }

  /** text.find(word, from): the first place at or after `from` where `word` stands, or -1. */
  function Find(text: string, word: string, from: nat): (r: int)
    requires word != "" && from <= |text|
    ensures r == -1 || (from <= r && At(text, word, r))
    ensures forall i | from <= i && (r == -1 || i < r) :: !At(text, word, i)
    decreases |text| - from
  {
    if from + |word| > |text| then -1
    else if At(text, word, from) then from
    else Find(text, word, from + 1)
  }

  function DetectLineEnding(text: string): LineEnding {
    var crlf := Find(text, "\r\n", 0);
    var lf := Find(text, "\n", 0);
    if lf < 0 || crlf < 0 then Lf
    else if crlf <= lf then CrLf
    else Lf
  }

  /** Position i ends a line with "\r\n". */
  predicate CrBefore(text: string, i: nat)
    requires i < |text|
  {
    i > 0 && text[i - 1] == '\r'
  }

  /** The first line ends with "\r\n". */
  predicate FirstIsCrLf(text: string) {
    exists i | 0 <= i < |text| :: text[i] == '\n' && CrBefore(text, i) && NoLf(text[..i])
  }

  predicate EveryCrPaired(text: string) {
    forall i | 0 <= i < |text| && text[i] == '\r' :: i + 1 < |text| && text[i + 1] == '\n'
  }

  predicate EveryLfPaired(text: string) {
    forall i | 0 <= i < |text| && text[i] == '\n' :: CrBefore(text, i)
  }

  predicate NoLfPaired(text: string) {
    forall i | 0 <= i < |text| && text[i] == '\n' :: !CrBefore(text, i)
  }

  /** One line ending throughout: no bare CR, and CRs before all LFs or before none. */
  predicate Uniform(text: string) {
    EveryCrPaired(text) && (EveryLfPaired(text) || NoLfPaired(text))
  }

  lemma LfAt(text: string, i: nat)
    requires i < |text|
    ensures At(text, "\n", i) <==> text[i] == '\n'
    ensures i > 0 ==> (At(text, "\r\n", i - 1) <==> text[i] == '\n' && CrBefore(text, i))
  {
    assert text[i..i + 1] == [text[i]];
    assert i > 0 ==> text[i - 1..i + 1] == [text[i - 1], text[i]];
    assert At(text, "\n", i) ==> text[i..i + 1][0] == "\n"[0];
    assert i > 0 && At(text, "\r\n", i - 1) ==> text[i - 1..i + 1][0] == '\r' && text[i - 1..i + 1][1] == '\n';
  }

  /** The two searches pick CRLF exactly when the first line ends with it. */
  lemma DetectsFirst(text: string)
    ensures DetectLineEnding(text).CrLf? <==> FirstIsCrLf(text)
  {
    hide At;
    var crlf := Find(text, "\r\n", 0);
    var lf := Find(text, "\n", 0);
    forall i | 0 <= i < |text|
      ensures At(text, "\n", i) <==> text[i] == '\n'
      ensures i > 0 ==> (At(text, "\r\n", i - 1) <==> text[i] == '\n' && CrBefore(text, i))
    {
      LfAt(text, i);
    }
    FindsInside(text, "\r\n");
    FindsInside(text, "\n");
    if DetectLineEnding(text).CrLf? {
      assert At(text, "\r\n", crlf + 1 - 1);
      assert At(text, "\n", crlf + 1);
      assert NoLf(text[..lf]) by {
        assert forall k | 0 <= k < lf :: !At(text, "\n", k);
      }
    }
    if FirstIsCrLf(text) {
      var i :| 0 <= i < |text| && text[i] == '\n' && CrBefore(text, i) && NoLf(text[..i]);
      assert At(text, "\r\n", i - 1) && At(text, "\n", i);
      assert forall k | 0 <= k < i :: text[k] == text[..i][k];
    }
  }

  lemma FindsInside(text: string, word: string)
    requires word != ""
    ensures var r := Find(text, word, 0); r >= 0 ==> r + |word| <= |text|
  {
  }

  lemma {:induction false} NormalLeavesNoCr(text: string)
    ensures '\r' !in NormalizeToLf(text)
  {
    ReplaceCrLeavesNone(ReplaceCrLf(text));
  }

  lemma {:induction false} ReplaceCrLeavesNone(text: string)
    ensures '\r' !in ReplaceCr(text)
  {
    if text != "" {
      ReplaceCrLeavesNone(text[1..]);
    }
  }

  lemma {:induction false} NothingToReplace(text: string)
    requires '\r' !in text
    ensures ReplaceCrLf(text) == text && ReplaceCr(text) == text
  {
    if text != "" {
      NothingToReplace(text[1..]);
    }
  }

  lemma NormalizeIdempotent(text: string)
    ensures NormalizeToLf(NormalizeToLf(text)) == NormalizeToLf(text)
  {
    NormalLeavesNoCr(text);
    NothingToReplace(NormalizeToLf(text));
  }

  /** Text whose LFs were all turned into CRLFs has no other CR and no other LF. */
  lemma {:induction false} ReplaceLfPairs(text: string)
    requires '\r' !in text
    ensures EveryCrPaired(ReplaceLf(text)) && EveryLfPaired(ReplaceLf(text))
  {
    if text != "" {
      ReplaceLfPairs(text[1..]);
      var head := if text[0] == '\n' then "\r\n" else [text[0]];
      var tail := ReplaceLf(text[1..]);
      var all := head + tail;
      forall i | 0 <= i < |all|
        ensures all[i] == '\r' ==> i + 1 < |all| && all[i + 1] == '\n'
        ensures all[i] == '\n' ==> CrBefore(all, i)
      {
        if i >= |head| {
          assert all[i] == tail[i - |head|];
          assert all[i] == '\r' ==> tail[i - |head| + 1] == all[i + 1];
          assert all[i] == '\n' ==> tail[i - |head| - 1] == all[i - 1];
        }
      }
    }
  }

  /** Undoing and redoing the replacement is the identity where every CR and LF is half of a pair. */
  lemma {:induction false} PairsRestored(text: string)
    requires EveryCrPaired(text) && EveryLfPaired(text)
    ensures ReplaceLf(NormalizeToLf(text)) == text
  {
    if text != "" {
      assert text[0] != '\n';
      var n := if text[0] == '\r' then 2 else 1;
      var rest := text[n..];
      assert forall i | 0 <= i < |rest| :: rest[i] == text[i + n];
      assert rest != "" ==> (rest[0] == '\n' ==> CrBefore(text, n));
      forall i | 0 <= i < |rest| && rest[i] == '\n' ensures CrBefore(rest, i) {
        assert CrBefore(text, i + n);
      }
      assert EveryCrPaired(rest);
      PairsRestored(rest);
      if n == 2 {
        assert NormalizeToLf(text) == "\n" + NormalizeToLf(rest);
        assert text == "\r\n" + rest;
      } else {
        assert NormalizeToLf(text) == [text[0]] + NormalizeToLf(rest);
        assert text == [text[0]] + rest;
      }
    }
  }

  /** What a file may look like for an edit to leave its line endings alone: putting the detected
      ending back over the normalised text is the identity exactly for uniform text. */
  lemma RestoreIffUniform(text: string)
    ensures RestoreLineEndings(NormalizeToLf(text), DetectLineEnding(text)) == text <==> Uniform(text)
  {
    var plain := NormalizeToLf(text);
    DetectsFirst(text);
    NormalLeavesNoCr(text);
    if RestoreLineEndings(plain, DetectLineEnding(text)) == text {
      if DetectLineEnding(text).CrLf? {
        ReplaceLfPairs(plain);
      }
    }
    if Uniform(text) {
      if '\r' in text {
        var i :| 0 <= i < |text| && text[i] == '\r';
        assert text[i + 1] == '\n' && CrBefore(text, i + 1);
        assert EveryLfPaired(text);
        FirstLfIsPaired(text, i + 1);
        PairsRestored(text);
      } else {
        NothingToReplace(text);
      }
    }
  }

  /** Normalising undoes the restoring of a line ending. */
  lemma {:induction false} NormalizeRestored(text: string, ending: LineEnding)
    requires '\r' !in text
    ensures NormalizeToLf(RestoreLineEndings(text, ending)) == text
  {
    if ending.Lf? {
      NothingToReplace(text);
    } else if text != "" {
      NormalizeRestored(text[1..], ending);
      var tail := ReplaceLf(text[1..]);
      if text[0] == '\n' {
        assert ("\r\n" + tail)[2..] == tail;
        assert ReplaceCrLf("\r\n" + tail) == "\n" + ReplaceCrLf(tail);
      } else {
        assert ([text[0]] + tail)[1..] == tail;
        assert ReplaceCrLf([text[0]] + tail) == [text[0]] + ReplaceCrLf(tail);
      }
    }
  }

  lemma {:induction false} JoinHasNo(lines: seq<string>, c: char)
    requires c != '\n' && forall line | line in lines :: c !in line
    ensures c !in Join(lines)
  {
    if |lines| > 1 {
      JoinHasNo(lines[1..], c);
    }
  }

  lemma {:induction false} FirstLfIsPaired(text: string, i: nat)
    requires i < |text| && text[i] == '\n' && EveryLfPaired(text)
    ensures FirstIsCrLf(text)
  {
    if j :| 0 <= j < i && text[j] == '\n' {
      FirstLfIsPaired(text, j);
    } else {
      assert NoLf(text[..i]);
    }
  }

  /** split_lines: the lines, and whether the last one ends with a newline. */
  function SplitLines(text: string): (seq<string>, bool) {
    if text == "" then ([], false)
    else
      var parts := Split(text);
      if parts[|parts| - 1] == "" then (parts[..|parts| - 1], true) else (parts, false)
  }

  function JoinLines(lines: seq<string>, trailing: bool): string {
    if lines == [] then "" else Join(lines) + if trailing then "\n" else ""
  }

  lemma {:induction false} JoinSnoc(lines: seq<string>, last: string)
    requires lines != []
    ensures Join(lines + [last]) == Join(lines) + "\n" + last
  {
    if |lines| > 1 {
      JoinSnoc(lines[1..], last);
      assert (lines + [last])[1..] == lines[1..] + [last];
    }
  }

  lemma JoinLinesSplitLines(text: string)
    ensures var (lines, trailing) := SplitLines(text); JoinLines(lines, trailing) == text
  {
    JoinSplit(text);
    var parts := Split(text);
    if text != "" && parts[|parts| - 1] == "" {
      var lines := parts[..|parts| - 1];
      assert parts == lines + [""];
      if lines != [] {
        JoinSnoc(lines, "");
      }
    }
  }

  /** The other round trip fails for a last line that is empty and unterminated, and for a newline
      after no lines at all; nowhere else. */
  lemma SplitLinesJoinLines(lines: seq<string>, trailing: bool)
    requires forall line | line in lines :: NoLf(line)
    ensures SplitLines(JoinLines(lines, trailing)) == (lines, trailing)
            <==> if lines == [] then !trailing else trailing || lines[|lines| - 1] != ""
  {
    if lines != [] {
      if trailing {
        JoinSnoc(lines, "");
        assert Join(lines) + "\n" + "" == JoinLines(lines, true);
        SplitJoin(lines + [""]);
        assert (lines + [""])[..|lines|] == lines;
      } else {
        SplitJoin(lines);
        assert Join(lines) + "" == Join(lines);
        assert Join(lines) == "" ==> Split("") == lines;
      }
    }
  }

  /** content_lines: what a request's replacement text means in lines. */
  function ContentLines(content: string): seq<string> {
    if content == "" then [] else Split(NormalizeToLf(content))
  }

  lemma ContentLinesAreWhole(content: string)
    ensures ContentLines(content) == [] <==> content == ""
    ensures Join(ContentLines(content)) == NormalizeToLf(content)
    ensures forall line | line in ContentLines(content) :: NoLf(line) && '\r' !in line
  {
    JoinSplit(NormalizeToLf(content));
    NormalLeavesNoCr(content);
    forall line | line in ContentLines(content) ensures NoLf(line) && '\r' !in line {
      SplitHasNoLf(NormalizeToLf(content), line);
    }
  }

  const BOM: char := '\U{FEFF}'

  /** strip_bom: a leading byte order mark, and the rest. */
  function StripBom(text: string): (r: (string, string))
    ensures r.0 + r.1 == text && r.0 == if text != "" && text[0] == BOM then [BOM] else ""
  {
    if text != "" && text[0] == BOM then ([BOM], text[1..]) else ("", text)
  }

  /** Lines that hold no line ending of their own. */
  predicate Clean(lines: seq<string>) {
    forall line | line in lines :: NoLf(line) && '\r' !in line
  }

  /** The first line begins with what reads as a byte order mark at the start of a file. */
  predicate BomFirst(lines: seq<string>) {
    lines != [] && lines[0] != "" && lines[0][0] == BOM
  }

  /** The lines without that character. */
  function Headless(lines: seq<string>): seq<string> {
    if BomFirst(lines) then [lines[0][1..]] + lines[1..] else lines
  }

  lemma SplitIsClean(text: string)
    ensures Clean(Split(NormalizeToLf(text)))
  {
    NormalLeavesNoCr(text);
    forall line | line in Split(NormalizeToLf(text)) ensures NoLf(line) && '\r' !in line {
      SplitHasNoLf(NormalizeToLf(text), line);
    }
  }

  /** Writing a text behind a file's byte order mark, in any line ending, and reading it again: it comes
      back, but without a byte order mark of its own if the file had none. */
  lemma ReadBack(bom: string, joined: string, ending: LineEnding)
    requires '\r' !in joined && (bom == "" || bom == [BOM])
    ensures NormalizeToLf(StripBom(bom + RestoreLineEndings(joined, ending)).1) ==
            if bom == "" && joined != "" && joined[0] == BOM then joined[1..] else joined
  {
    var restored := RestoreLineEndings(joined, ending);
    NormalizeRestored(joined, ending);
    if bom == "" {
      assert bom + restored == restored;
      if joined != "" && joined[0] == BOM {
        assert restored[1..] == RestoreLineEndings(joined[1..], ending);
        NormalizeRestored(joined[1..], ending);
      }
    } else {
      assert (bom + restored)[1..] == restored;
    }
  }

  lemma HeadlessJoin(lines: seq<string>)
    requires Clean(lines)
    ensures BomFirst(lines) <==> Join(lines) != "" && Join(lines)[0] == BOM
    ensures BomFirst(lines) ==> Join(lines)[1..] == Join(Headless(lines))
    ensures Clean(Headless(lines)) && |Headless(lines)| == |lines|
    ensures Headless(lines) == lines <==> !BomFirst(lines)
  {
    if BomFirst(lines) {
      var head := Headless(lines);
      assert head[1..] == lines[1..];
      assert [BOM] + head[0] == lines[0];
      assert [[BOM] + head[0]] + head[1..] == lines;
      JoinHead(BOM, head);
      assert lines[0] in lines && forall c | c in head[0] :: c in lines[0];
      forall line | line in head ensures NoLf(line) && '\r' !in line {
        assert line == head[0] || line in lines[1..];
      }
    }
  }

  /** Lines as they read when joined: an empty last line without a newline behind it is not there. */
  function AsRead(lines: seq<string>, newline: bool): seq<string> {
    if lines == [] || newline || lines[|lines| - 1] != "" then lines else lines[..|lines| - 1]
  }

  lemma SplitLinesReads(lines: seq<string>, newline: bool)
    requires Clean(lines)
    ensures SplitLines(JoinLines(lines, newline)).0 == AsRead(lines, newline)
  {
    SplitLinesJoinLines(lines, newline);
    if lines != [] && !newline && lines[|lines| - 1] == "" {
      var init := lines[..|lines| - 1];
      assert lines == init + [""];
      if init != [] {
        JoinSnoc(init, "");
        assert JoinLines(lines, false) == JoinLines(init, true);
        SplitLinesJoinLines(init, true);
      }
    }
  }

  function CountLf(text: string): nat {
    if text == "" then 0 else (if text[0] == '\n' then 1 else 0) + CountLf(text[1..])
  }

  /** _count_lines: what is reported as total_lines. */
  function TotalLines(content: string): nat {
    var text := NormalizeToLf(content);
    CountLf(text) + if text != "" && text[|text| - 1] != '\n' then 1 else 0
  }

  lemma {:induction false} PiecesCounted(text: string)
    ensures |Split(text)| == CountLf(text) + 1
    ensures Split(text)[|Split(text)| - 1] == "" <==> text == "" || text[|text| - 1] == '\n'
  {
    if text != "" {
      PiecesCounted(text[1..]);
    }
  }

  /** That count is the number of lines. */
  lemma TotalIsLines(content: string)
    ensures TotalLines(content) == |SplitLines(NormalizeToLf(content)).0|
  {
    PiecesCounted(NormalizeToLf(content));
  }

  /** A byte order mark with nothing behind it is counted as a line. */
  lemma TotalBehindBom(text: string)
    ensures NormalizeToLf([BOM] + text) == [BOM] + NormalizeToLf(text)
    ensures TotalLines([BOM] + text) == if NormalizeToLf(text) == "" then 1 else TotalLines(text)
  {
    hide ReplaceCr, ReplaceCrLf;
    BomStays(text);
    var plain := NormalizeToLf(text);
    assert ([BOM] + plain)[1..] == plain;
    assert plain != "" ==> ([BOM] + plain)[|plain|] == plain[|plain| - 1];
  }

  lemma BomStays(text: string)
    ensures NormalizeToLf([BOM] + text) == [BOM] + NormalizeToLf(text)
  {
    assert ([BOM] + text)[1..] == text;
    var plain := ReplaceCrLf(text);
    assert ([BOM] + plain)[1..] == plain;
  }

  lemma TwoLines()
    ensures TotalLines("a\nx\n") == 2
  {
    assert NormalizeToLf("a\nx\n") == "a\nx\n";
    assert "a\nx\n"[1..] == "\nx\n" && "\nx\n"[1..] == "x\n" && "x\n"[1..] == "\n" && "\n"[1..] == "";
    assert CountLf("\n") == 1 && CountLf("x\n") == 1 && CountLf("\nx\n") == 2;
  }

  /** A text whose lines end differently. */
  const MIXED := "a\r\nb\n"

  lemma MixedPlain()
    ensures StripBom(MIXED) == ("", MIXED) && NormalizeToLf(MIXED) == "a\nb\n"
    ensures RestoreLineEndings("a\nb\n", CrLf) == "a\r\nb\r\n"
  {
    hide ReplaceCr, ReplaceCrLf, ReplaceLf;
    MixedToLf();
    NothingToReplace("a\nb\n");
    MixedToCrLf();
  }

  lemma MixedToLf()
    ensures ReplaceCrLf(MIXED) == "a\nb\n"
  {
    assert "b\n"[1..] == "\n" && "\n"[1..] == "";
    assert ReplaceCrLf("\n") == "\n" && ReplaceCrLf("b\n") == "b\n";
    assert MIXED[1..] == "\r\nb\n" && "\r\nb\n"[2..] == "b\n";
  }

  lemma MixedToCrLf()
    ensures ReplaceLf("a\nb\n") == "a\r\nb\r\n"
  {
    assert "b\n"[1..] == "\n" && "\n"[1..] == "";
    assert ReplaceLf("\n") == "\r\n" && ReplaceLf("b\n") == "b\r\n";
    assert "a\nb\n"[1..] == "\nb\n" && "\nb\n"[1..] == "b\n";
    assert ReplaceLf("\nb\n") == "\r\nb\r\n";
  }

  lemma MixedEnding()
    ensures DetectLineEnding(MIXED) == CrLf
  {
    DetectsFirst(MIXED);
    assert MIXED[2] == '\n' && CrBefore(MIXED, 2) && NoLf(MIXED[..2]);
  }

  lemma MixedLines()
    ensures Split("a\nb\n") == ["a", "b", ""] && SplitLines("a\nb\n") == (["a", "b"], true)
    ensures Join(["a", "b", ""]) == "a\nb\n" && JoinLines(["a", "b"], true) == "a\nb\n"
  {
    SplitAfterLine("a", "b\n");
    SplitAfterLine("b", "");
    assert "b" + "\n" + "" == "b\n" && "a" + "\n" + "b\n" == "a\nb\n";
    assert ["a", "b", ""][..2] == ["a", "b"] && ["a", "b", ""][1..] == ["b", ""] && ["b", ""][1..] == [""]
           && ["a", "b"][1..] == ["b"];
    assert "a" + "\n" + "b" + "\n" == "a\nb\n";
  }
}
