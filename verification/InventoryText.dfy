/** The lines two readers see in one text: S23 and S10 iterate over the file, S07
    splits the text at more characters than the file iteration does. */
module InventoryText {
  import opened Sequences
  import opened InventoryReaders

  /** The pieces of a text between separators; what follows the last separator
      is a piece unless it is empty. */
  function Pieces(text: string, separators: set<char>, current: string): seq<string>
    decreases |text|
  {
    if text == "" then (if current == "" then [] else [current])
    else if text[0] in separators then [current] + Pieces(text[1..], separators, "")
    else Pieces(text[1..], separators, current + [text[0]])
  }

  /** Newlines are already translated when a text is read. Iteration over a file
      ends a line at these; splitlines ends one at more. */
  const FileBreaks: set<char> := {'\n'}
  const ExtraBreaks: set<char> := {
    '\U{0B}', '\U{0C}', '\U{1C}', '\U{1D}', '\U{1E}', '\U{85}', '\U{2028}', '\U{2029}'}
  const AllBreaks: set<char> := FileBreaks + ExtraBreaks

  function FileLines(parse: string -> Line, text: string): seq<Line> { Map(parse, Pieces(text, FileBreaks, "")) }

  function SplitLines(parse: string -> Line, text: string): seq<Line> { Map(parse, Pieces(text, AllBreaks, "")) }

  // ----- Cutting a text

  /** Where the first separator stands. */
  function BreakAt(text: string, separators: set<char>): (n: nat)
    ensures n <= |text| && (n < |text| ==> text[n] in separators)
    ensures forall k | 0 <= k < n :: text[k] !in separators
  {
    if text == "" || text[0] in separators then 0 else 1 + BreakAt(text[1..], separators)
  }

  lemma {:induction false} PiecesCut(text: string, separators: set<char>, current: string)
    ensures var n := BreakAt(text, separators);
            Pieces(text, separators, current)
            == if n < |text| then [current + text[..n]] + Pieces(text[n + 1..], separators, "")
               else if current + text == "" then [] else [current + text]
    decreases |text|
  {
    if text == "" {
      assert current + text == current;
    } else if text[0] in separators {
      assert current + text[..0] == current;
    } else {
      var n := BreakAt(text, separators);
      PiecesCut(text[1..], separators, current + [text[0]]);
      assert current + [text[0]] + text[1..] == current + text;
      if n < |text| {
        assert current + [text[0]] + text[1..][..n - 1] == current + text[..n];
        assert text[1..][n..] == text[n + 1..];
      }
    }
  }

  lemma CutAtBreak(text: string, separators: set<char>)
    ensures var n := BreakAt(text, separators);
            Pieces(text, separators, "")
            == if n < |text| then [text[..n]] + Pieces(text[n + 1..], separators, "")
               else if text == "" then [] else [text]
  {
    PiecesCut(text, separators, "");
    assert "" + text == text && "" + text[..BreakAt(text, separators)] == text[..BreakAt(text, separators)];
  }

  /** A text may be read up to a separator first. */
  lemma {:induction false} PiecesThrough(text: string, n: nat, separators: set<char>, current: string)
    requires n < |text| && text[n] in separators
    ensures Pieces(text, separators, current)
            == Pieces(text[..n + 1], separators, current) + Pieces(text[n + 1..], separators, "")
    decreases n
  {
    var head := text[..n + 1];
    assert head[0] == text[0];
    if n == 0 {
      assert head[1..] == "";
    } else {
      assert head[1..] == text[1..][..n] && text[1..][n..] == text[n + 1..];
      PiecesThrough(text[1..], n - 1, separators, if text[0] in separators then "" else current + [text[0]]);
    }
  }

  // ----- What the JSON library does with cut lines

  /** A slice of a blank line is blank. */
  predicate SliceIsBlank(parse: string -> Line, line: string, i: int, j: int) {
    0 <= i <= j <= |line| && parse(line).Blank? ==> parse(line[i..j]) == Blank
  }

  /** A record holds an extra break only inside a string, so up to there it is not JSON. */
  predicate CutIsBroken(parse: string -> Line, line: string, i: int) {
    0 <= i < |line| && parse(line).Record? && line[i] in ExtraBreaks ==> parse(line[..i]) == NotJson
  }

  ghost predicate ReadsJson(parse: string -> Line) {
    && parse("") == Blank
    && (forall line, i, j :: SliceIsBlank(parse, line, i, j))
    && (forall line, i :: CutIsBroken(parse, line, i))
  }

  predicate Whole(piece: string) { forall c | c in piece :: c !in ExtraBreaks }

  /** No record of the file holds a break that only splitlines knows. */
  predicate RecordsAreWhole(parse: string -> Line, text: string) {
    forall piece | piece in Pieces(text, FileBreaks, "") && parse(piece).Record? :: Whole(piece)
  }

  // ----- Lines without the blank ones

  function Compact(lines: seq<Line>): seq<Line> {
    if lines == [] then []
    else Compact(lines[..|lines| - 1]) + if lines[|lines| - 1].Blank? then [] else [lines[|lines| - 1]]
  }

  lemma {:induction false} CompactConcat(s: seq<Line>, t: seq<Line>)
    ensures Compact(s + t) == Compact(s) + Compact(t)
  {
    if t == [] {
      PlusEmpty(s);
      PlusEmpty(Compact(s));
    } else {
      assert (s + t)[..|s + t| - 1] == s + t[..|t| - 1];
      CompactConcat(s, t[..|t| - 1]);
    }
  }

  lemma {:induction false} CompactMembers(lines: seq<Line>)
    ensures |Compact(lines)| == RecordCount(lines)
    ensures forall l :: l in Compact(lines) <==> l in lines && !l.Blank?
  {
    if lines != [] {
      CompactMembers(lines[..|lines| - 1]);
      LastSplit(lines);
      assert forall l :: l in lines <==> l in lines[..|lines| - 1] || l == lines[|lines| - 1] by {
        assert lines == lines[..|lines| - 1] + [lines[|lines| - 1]];
      }
    }
  }

  /** Readers see nothing of blank lines. */
  lemma {:induction false} CompactReadsTheSame(accepts: Value -> bool, lines: seq<Line>)
    ensures First(accepts, Compact(lines)) == First(accepts, lines)
  {
    if lines != [] {
      var front, last := lines[..|lines| - 1], lines[|lines| - 1];
      CompactReadsTheSame(accepts, front);
      if last.Blank? {
        PlusEmpty(Compact(front));
      } else {
        assert Compact(lines)[..|Compact(lines)| - 1] == Compact(front);
      }
    }
  }

  lemma {:induction false} CompactNothing(lines: seq<Line>)
    requires forall l | l in lines :: l.Blank?
    ensures Compact(lines) == []
  {
    if lines != [] {
      LastSplit(lines);
      assert lines[|lines| - 1] in lines;
      forall l | l in lines[..|lines| - 1] ensures l.Blank? { assert l in lines; }
      CompactNothing(lines[..|lines| - 1]);
    }
  }

  // ----- One line of the file, split

  lemma CompactOne(l: Line)
    ensures Compact([l]) == if l.Blank? then [] else [l]
  {
    assert [l][..0] == [];
  }

  /** The end of a line is a break like any other. */
  lemma BreakInLine(line: string, end: string)
    requires end in ["", "\n"]
    ensures BreakAt(line + end, AllBreaks) == BreakAt(line, AllBreaks)
  {
    var body, n := line + end, BreakAt(line, AllBreaks);
    forall k | 0 <= k < n ensures body[k] !in AllBreaks { assert body[k] == line[k]; }
    assert n < |body| ==> body[n] in AllBreaks;
  }

  /** A line is cut at its first break, whether a newline ends it or not. */
  lemma LinePieces(line: string, end: string)
    requires end in ["", "\n"]
    ensures var n := BreakAt(line, AllBreaks);
            Pieces(line + end, AllBreaks, "")
            == if n < |line| then [line[..n]] + Pieces(line[n + 1..] + end, AllBreaks, "")
               else if line + end == "" then [] else [line]
  {
    var body, n := line + end, BreakAt(line, AllBreaks);
    BreakInLine(line, end);
    CutAtBreak(body, AllBreaks);
    if n < |line| {
      assert body[..n] == line[..n] && body[n + 1..] == line[n + 1..] + end;
    } else if end == "" {
      assert body == line;
    } else {
      assert body[n + 1..] == "" && body[..n] == line;
    }
  }

  /** The pieces of a blank line are blank. */
  lemma {:induction false} BlankPieces(parse: string -> Line, line: string, end: string)
    requires ReadsJson(parse) && parse(line).Blank? && end in ["", "\n"]
    ensures forall piece | piece in Pieces(line + end, AllBreaks, "") :: parse(piece) == Blank
    decreases |line|
  {
    LinePieces(line, end);
    var n := BreakAt(line, AllBreaks);
    if n < |line| {
      assert SliceIsBlank(parse, line, 0, n) && SliceIsBlank(parse, line, n + 1, |line|);
      assert line[0..n] == line[..n] && line[n + 1..|line|] == line[n + 1..];
      BlankPieces(parse, line[n + 1..], end);
    }
  }

  /** A line without breaks is one piece, unless it is empty. */
  lemma WholePiece(line: string, end: string)
    requires Whole(line) && '\n' !in line && end in ["", "\n"]
    ensures Pieces(line + end, AllBreaks, "") == if line + end == "" then [] else [line]
  {
    LinePieces(line, end);
    var n := BreakAt(line, AllBreaks);
    assert forall k | 0 <= k < |line| :: line[k] in line;
  }

  /** A text is cut at its first break of either kind. */
  lemma FirstPiece(parse: string -> Line, line: string, end: string, i: nat)
    requires i < |line| && line[i] in ExtraBreaks && '\n' !in line[..i] && Whole(line[..i]) && end in ["", "\n"]
    ensures parse(line[..i]) in Map(parse, Pieces(line + end, AllBreaks, ""))
  {
    forall k | 0 <= k < i ensures line[k] !in AllBreaks { assert line[k] == line[..i][k] && line[k] in line[..i]; }
    assert BreakAt(line, AllBreaks) == i;
    LinePieces(line, end);
    var pieces := Pieces(line + end, AllBreaks, "");
    assert pieces[0] == line[..i] && Map(parse, pieces)[0] == parse(line[..i]);
  }

  /** What splitting does to one acceptable line. */
  lemma SplitLine(parse: string -> Line, line: string, body: string)
    requires ReadsJson(parse) && '\n' !in line && (body == line || body == line + "\n") && (parse(line).Blank? || parse(line).Record?)
    ensures parse(line).Blank? || Whole(line) ==>
              Compact(Map(parse, Pieces(body, AllBreaks, ""))) == Compact([parse(line)])
    ensures !(parse(line).Blank? || Whole(line)) ==> NotJson in Map(parse, Pieces(body, AllBreaks, ""))
  {
    var end := if body == line then "" else "\n";
    assert body == line + end;
    if parse(line).Blank? {
      BlankPieces(parse, line, end);
      CompactNothing(Map(parse, Pieces(body, AllBreaks, "")));
      CompactOne(parse(line));
    } else if Whole(line) {
      WholePiece(line, end);
      CompactOne(parse(line));
      assert Map(parse, [line]) == [parse(line)];
    } else {
      var i := BreakAt(line, ExtraBreaks);
      assert i < |line| by {
        var c :| c in line && c in ExtraBreaks;
        var k :| 0 <= k < |line| && line[k] == c;
      }
      forall c | c in line[..i] ensures c in line && c !in ExtraBreaks {
        var k :| 0 <= k < i && line[..i][k] == c;
        assert line[k] == c;
      }
      assert CutIsBroken(parse, line, i);
      FirstPiece(parse, line, end, i);
    }
  }

  // ----- The whole text

  predicate AllReadable(parse: string -> Line, text: string) {
    forall piece | piece in Pieces(text, FileBreaks, "") :: parse(piece).Blank? || parse(piece).Record?
  }

  /** The first of several lines, as splitlines sees it. */
  lemma SplitCut(text: string, n: nat)
    requires n < |text| && text[n] == '\n'
    ensures Pieces(text, AllBreaks, "") == Pieces(text[..n] + "\n", AllBreaks, "") + Pieces(text[n + 1..], AllBreaks, "")
  {
    PiecesThrough(text, n, AllBreaks, "");
    assert text[..n + 1] == text[..n] + "\n";
  }

  /** The lines of a text from those of its first line and of the rest. */
  lemma TextCut(parse: string -> Line, text: string, line: string, rest: string)
    requires BreakAt(text, FileBreaks) < |text|
    requires line == text[..BreakAt(text, FileBreaks)] && rest == text[BreakAt(text, FileBreaks) + 1..]
    ensures Pieces(text, FileBreaks, "") == [line] + Pieces(rest, FileBreaks, "")
    ensures FileLines(parse, text) == [parse(line)] + FileLines(parse, rest)
    ensures SplitLines(parse, text) == Map(parse, Pieces(line + "\n", AllBreaks, "")) + SplitLines(parse, rest)
  {
    CutAtBreak(text, FileBreaks);
    SplitCut(text, |line|);
    MapConcat(parse, [line], Pieces(rest, FileBreaks, ""));
    assert Map(parse, [line]) == [parse(line)];
    MapConcat(parse, Pieces(line + "\n", AllBreaks, ""), Pieces(rest, AllBreaks, ""));
  }

  lemma LineOrRest(line: string, rest: seq<string>)
    ensures forall piece :: piece in [line] + rest <==> piece == line || piece in rest
  {
  }

  /** Splitting leaves the lines of a readable text alone, blank lines apart, when its
      records are whole; otherwise it makes a line that is not JSON. */
  lemma {:induction false} SplitText(parse: string -> Line, text: string)
    requires ReadsJson(parse) && AllReadable(parse, text)
    ensures RecordsAreWhole(parse, text) ==> Compact(SplitLines(parse, text)) == Compact(FileLines(parse, text))
    ensures !RecordsAreWhole(parse, text) ==> NotJson in SplitLines(parse, text)
    decreases |text|
  {
    var n := BreakAt(text, FileBreaks);
    if n < |text| {
      var line, rest := text[..n], text[n + 1..];
      TextCut(parse, text, line, rest);
      LineOrRest(line, Pieces(rest, FileBreaks, ""));
      SplitLine(parse, line, line + "\n");
      SplitText(parse, rest);
      CompactConcat([parse(line)], FileLines(parse, rest));
      CompactConcat(Map(parse, Pieces(line + "\n", AllBreaks, "")), SplitLines(parse, rest));
    } else {
      OneLine(text);
      if text != "" { SplitOnlyLine(parse, text); }
    }
  }

  lemma OneLine(text: string)
    requires BreakAt(text, FileBreaks) == |text|
    ensures Pieces(text, FileBreaks, "") == (if text == "" then [] else [text]) && '\n' !in text
  {
    CutAtBreak(text, FileBreaks);
  }

  lemma SplitOnlyLine(parse: string -> Line, text: string)
    requires ReadsJson(parse) && AllReadable(parse, text)
    requires Pieces(text, FileBreaks, "") == [text] && '\n' !in text
    ensures RecordsAreWhole(parse, text) ==> Compact(SplitLines(parse, text)) == Compact(FileLines(parse, text))
    ensures !RecordsAreWhole(parse, text) ==> NotJson in SplitLines(parse, text)
  {
    assert text in Pieces(text, FileBreaks, "");
    SplitLine(parse, text, text);
    assert FileLines(parse, text) == [parse(text)];
  }

  /** S23 accepts a file and S07 accepts its text exactly when no record holds a break
      that only splitlines knows; both then report the same digest and count. */
  lemma S07AcceptsS23TextIff(parse: string -> Line, text: string)
    requires ReadsJson(parse) && S23Accepts(FileLines(parse, text))
    ensures S07Accepts(SplitLines(parse, text)) <==> RecordsAreWhole(parse, text)
    ensures RecordsAreWhole(parse, text) ==>
              && First(TruthyValue(), SplitLines(parse, text)) == First(SolidText(), FileLines(parse, text))
              && RecordCount(SplitLines(parse, text)) == RecordCount(FileLines(parse, text))
  {
    var files, splits := FileLines(parse, text), SplitLines(parse, text);
    var pieces := Pieces(text, FileBreaks, "");
    forall piece | piece in pieces ensures parse(piece).Blank? || parse(piece).Record? {
      var i :| 0 <= i < |pieces| && pieces[i] == piece;
      assert files[i] == parse(piece) && S23Line(files[i], First(SolidText(), files));
    }
    SplitText(parse, text);
    S23ImpliesS07(files);
    CompactReadsTheSame(TruthyValue(), files);
    CompactReadsTheSame(TruthyValue(), splits);
    CompactMembers(files);
    CompactMembers(splits);
    if RecordsAreWhole(parse, text) {
      forall l | l in splits ensures ReadableLine(l) {
        assert !l.Blank? ==> l in Compact(files);
      }
    }
  }

  /** One record with a break inside it, accepted by S23 and rejected by S07. */
  lemma SplitRecordIsRejected(parse: string -> Line, text: string, i: nat, digest: string)
    requires i < |text| && text[i] in ExtraBreaks && Whole(text[..i]) && '\n' !in text
    requires parse(text) == Record(Some(Text(digest))) && digest != "" && parse(text[..i]) == NotJson
    ensures S23Accepts(FileLines(parse, text)) && !S07Accepts(SplitLines(parse, text))
  {
    CutAtBreak(text, FileBreaks);
    assert BreakAt(text, FileBreaks) == |text|;
    var record := parse(text);
    assert FileLines(parse, text) == [record];
    assert [record][..0] == [] && Carries(record) && SolidText()(record.digest.value);
    assert text + "" == text;
    forall c | c in text[..i] ensures c in text { }
    FirstPiece(parse, text, "", i);
  }

  const RecordHead := "{\"inventory_digest\":\"d\","
  const RecordMore := "\"t\":\"a"
  const RecordTail := "b\"}"

  /** Such a record: the title holds U+2028, which JSON allows inside a string. */
  const SplitRecord := RecordHead + RecordMore + "\U{2028}" + RecordTail

  lemma SplitRecordExample(parse: string -> Line)
    requires parse(SplitRecord) == Record(Some(Text("d"))) && parse(RecordHead + RecordMore) == NotJson
    ensures S23Accepts(FileLines(parse, SplitRecord)) && !S07Accepts(SplitLines(parse, SplitRecord))
  {
    var head := RecordHead + RecordMore;
    HeadIsPlain();
    assert '\n' !in RecordTail && '\n' !in "\U{2028}";
    assert SplitRecord[..|head|] == head && SplitRecord[|head|] == '\U{2028}';
    SplitRecordIsRejected(parse, SplitRecord, |head|, "d");
  }

  predicate Printable(s: string) { forall i | 0 <= i < |s| :: ' ' <= s[i] <= '~' }

  lemma HeadIsPrintable() ensures Printable(RecordHead) {}
  lemma MoreIsPrintable() ensures Printable(RecordMore) {}

  lemma PrintableIsPlain(s: string)
    requires Printable(s)
    ensures Whole(s) && '\n' !in s
  {
  }

  lemma HeadIsPlain()
    ensures Whole(RecordHead + RecordMore) && '\n' !in RecordHead + RecordMore
  {
    HeadIsPrintable();
    MoreIsPrintable();
    PrintableIsPlain(RecordHead);
    PrintableIsPlain(RecordMore);
  }
}
