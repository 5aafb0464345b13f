/** What the glue and the emitted series say about the texts of the blocks. */
module EditionTexts {
  import opened Sequences
  import opened Utf8
  import opened EditionSeries

  // ----- Texts without the white space at their end

  /** s is the text up to its last scalar that is no white space. */
  ghost predicate Trims(lex: Lexicon, text: Text, s: Text) {
    && s <= text
    && (forall k | |s| <= k < |text| :: lex.isSpace(text[k]))
    && (s != [] ==> !lex.isSpace(s[|s| - 1]))
  }

  lemma {:induction false} StrippedIsTrimmed(lex: Lexicon, text: Text)
    ensures Trims(lex, text, StripRight(lex, text))
  {
    if text != [] && lex.isSpace(text[|text| - 1]) { StrippedIsTrimmed(lex, text[..|text| - 1]); }
  }

  lemma TrimmedIs(lex: Lexicon, text: Text, s: Text)
    requires Trims(lex, text, s)
    ensures s == StripRight(lex, text)
  {
    var r := StripRight(lex, text);
    StrippedIsTrimmed(lex, text);
    if |s| < |r| { assert text[|r| - 1] == r[|r| - 1]; }
  }

  predicate LastIs(s: Text, c: Scalar) { s != [] && s[|s| - 1] == c }

  /** The text of a list that goes on: it stops at a comma, inside parentheses, or inside an
      edition note. */
  predicate GoesOn(lex: Lexicon, s: Text) {
    || LastIs(s, COMMA)
    || CountOf(s, OPEN_PAREN) > CountOf(s, CLOSE_PAREN)
    || (lex.startsEdNote(s) && !LastIs(s, CLOSE_PAREN))
  }

  lemma OneSuffix(s: Text, c: Scalar)
    ensures EndsWith(s, [c]) <==> LastIs(s, c)
  {
    if s != [] { assert s[|s| - 1..] == [s[|s| - 1]]; }
  }

  lemma ThreeSuffix(s: Text, c: Scalar)
    ensures EndsWith(s, [c, c, c]) <==> |s| >= 3 && s[|s| - 3] == s[|s| - 2] == s[|s| - 1] == c
  {
    if |s| >= 3 { assert s[|s| - 3..] == [s[|s| - 3], s[|s| - 2], s[|s| - 1]]; }
  }

  lemma OneMoreFlag(flags: seq<Flag>, c: bool, f: Flag)
    ensures forall x :: x in flags + (if c then [f] else []) <==> x in flags || (c && x == f)
  {
  }

  lemma FiveFlags(a: bool, b: bool, c: bool, d: bool, e: bool, flags: seq<Flag>)
    requires flags ==
             (if a then [EndsComma] else []) + (if b then [Ellipsis] else []) + (if c then [UnclosedParen] else [])
             + (if d then [StartsOtDate] else []) + (if e then [EdNoteOpen] else [])
    ensures (EndsComma in flags <==> a) && (Ellipsis in flags <==> b) && (UnclosedParen in flags <==> c)
    ensures (StartsOtDate in flags <==> d) && (EdNoteOpen in flags <==> e)
  {
    var one := if a then [EndsComma] else [];
    var two := one + if b then [Ellipsis] else [];
    var three := two + if c then [UnclosedParen] else [];
    var four := three + if d then [StartsOtDate] else [];
    OneMoreFlag(one, b, Ellipsis);
    OneMoreFlag(two, c, UnclosedParen);
    OneMoreFlag(three, d, StartsOtDate);
    OneMoreFlag(four, e, EdNoteOpen);
  }

  /** Each flag of a text says one thing about the text without the white space at its end. */
  lemma FlagsMean(lex: Lexicon, text: Text, s: Text)
    requires Trims(lex, text, s)
    ensures var flags := TruncFlags(lex, text);
            && (EndsComma in flags <==> LastIs(s, COMMA))
            && (Ellipsis in flags <==> |s| >= 3 && s[|s| - 3] == s[|s| - 2] == s[|s| - 1] == DOT)
            && (UnclosedParen in flags <==> CountOf(s, OPEN_PAREN) > CountOf(s, CLOSE_PAREN))
            && (StartsOtDate in flags <==> lex.startsOtDate(s))
            && (EdNoteOpen in flags <==> lex.startsEdNote(s) && !LastIs(s, CLOSE_PAREN))
  {
    TrimmedIs(lex, text, s);
    OneSuffix(s, COMMA);
    ThreeSuffix(s, DOT);
    OneSuffix(s, CLOSE_PAREN);
    FiveFlags(
      EndsWith(s, [COMMA]), EndsWith(s, [DOT, DOT, DOT]), CountOf(s, OPEN_PAREN) > CountOf(s, CLOSE_PAREN),
      lex.startsOtDate(s), lex.startsEdNote(s) && !EndsWith(s, [CLOSE_PAREN]), TruncFlags(lex, text));
  }

  // ----- The glue

  /** Two texts glue exactly when they are close, the first goes on and the second starts with
      a date. */
  lemma GlueMeans(lex: Lexicon, a: Text, b: Text, gap: int, s: Text, u: Text)
    requires Trims(lex, a, s) && Trims(lex, b, u)
    ensures GlueCandidate(lex, a, b, gap) <==> gap <= 2 && GoesOn(lex, s) && lex.startsOtDate(u)
  {
    FlagsMean(lex, a, s);
    FlagsMean(lex, b, u);
  }

  /** Whatever the first text says, a comma at its end makes it glue to a near text that starts
      with a date, */
  lemma CommaGlues(lex: Lexicon, a: Text, b: Text, gap: int, u: Text)
    requires Trims(lex, b, u) && lex.startsOtDate(u) && gap <= 2 && !lex.isSpace(COMMA)
    ensures GlueCandidate(lex, a + [COMMA], b, gap)
  {
    GlueMeans(lex, a + [COMMA], b, gap, a + [COMMA], u);
  }

  /** and so do opening parentheses, as soon as they outnumber the closing ones, */
  lemma ParensGlue(lex: Lexicon, a: Text, parens: Text, b: Text, gap: int, u: Text)
    requires Trims(lex, b, u) && lex.startsOtDate(u) && gap <= 2 && !lex.isSpace(OPEN_PAREN)
    requires parens != [] && forall c | c in parens :: c == OPEN_PAREN
    requires CountOf(a, OPEN_PAREN) + |parens| > CountOf(a, CLOSE_PAREN)
    ensures GlueCandidate(lex, a + parens, b, gap)
  {
    var t := a + parens;
    assert parens[|parens| - 1] in parens;
    assert t[|t| - 1] == OPEN_PAREN;
    forall i | 0 <= i < |parens| ensures parens[i] == OPEN_PAREN { assert parens[i] in parens; }
    AllTheSame(parens, OPEN_PAREN);
    assert CLOSE_PAREN !in parens && CLOSE_PAREN !in multiset(parens);
    assert multiset(t) == multiset(a) + multiset(parens);
    GlueMeans(lex, t, b, gap, t, u);
  }

  lemma {:induction false} AllTheSame<T>(s: seq<T>, c: T)
    requires forall i | 0 <= i < |s| :: s[i] == c
    ensures multiset(s)[c] == |s|
  {
    if s != [] {
      LastSplit(s);
      AllTheSame(s[..|s| - 1], c);
    }
  }

  /** while a first text that is closed, or a second that starts with no date, never glues. */
  lemma ClosedNeverGlues(lex: Lexicon, a: Text, b: Text, gap: int, s: Text, u: Text)
    requires Trims(lex, a, s) && Trims(lex, b, u)
    requires !lex.startsOtDate(u) ||
             (!LastIs(s, COMMA) && CountOf(s, OPEN_PAREN) <= CountOf(s, CLOSE_PAREN) && !lex.startsEdNote(s))
    ensures !GlueCandidate(lex, a, b, gap)
  {
    GlueMeans(lex, a, b, gap, s, u);
  }

  // ----- The members of a series

  /** The block's text goes on. */
  ghost predicate Open(lex: Lexicon, b: Block) { exists s :: Trims(lex, b.text, s) && GoesOn(lex, s) }

  ghost predicate Dated(lex: Lexicon, b: Block) { exists s :: Trims(lex, b.text, s) && lex.startsOtDate(s) }

  lemma GluedBlocks(lex: Lexicon, a: Block, b: Block)
    ensures GlueOf(lex)(a, b) <==> b.index - a.index <= 2 && Open(lex, a) && Dated(lex, b)
  {
    var s, u := StripRight(lex, a.text), StripRight(lex, b.text);
    StrippedIsTrimmed(lex, a.text);
    StrippedIsTrimmed(lex, b.text);
    GlueMeans(lex, a.text, b.text, b.index - a.index, s, u);
    if t :| Trims(lex, a.text, t) && GoesOn(lex, t) { TrimmedIs(lex, a.text, t); }
    if t :| Trims(lex, b.text, t) && lex.startsOtDate(t) { TrimmedIs(lex, b.text, t); }
  }

  /** The second block comes after the first, at most two apart; the first goes on and the second
      starts with a date. */
  ghost predicate Continues(lex: Lexicon, a: Block, b: Block) {
    a.index <= b.index <= a.index + 2 && Open(lex, a) && Dated(lex, b)
  }

  /** The series lists these blocks: two or more of one document, each continuing the one before. */
  ghost predicate ListsBlocks(lex: Lexicon, s: Series, run: seq<Block>) {
    && s.memberCount == |run| == |s.fragmentIds| == |s.blockIndices| && |run| >= 2
    && (forall k | 0 <= k < |run| ::
          run[k].docId == s.docId && s.fragmentIds[k] == run[k].fragmentId && s.blockIndices[k] == run[k].index)
    && (forall k, l | 0 <= k && l == k + 1 && l < |run| ::
          Continues(lex, run[k], run[l]))
    && (s.inPilot <==> exists b :: b in run && b.inPilot)
  }

  lemma OfDocumentMember(rows: seq<Block>, docId: string, b: Block)
    ensures b in OfDocument(rows, docId) <==> b in rows && b.docId == docId
  {
    OfDocumentCount(rows, docId, b);
  }

  lemma SortedMember(rows: seq<Block>, docId: string, b: Block)
    requires b in Sorted(rows, docId)
    ensures b in rows && b.docId == docId
  {
    SortByIndexMultiset(OfDocument(rows, docId));
    assert b in multiset(OfDocument(rows, docId));
    OfDocumentMember(rows, docId, b);
  }

  /** Every emitted series lists such blocks of the manifest: all its members but the last go on,
      and all but the first start with a date. */
  lemma SeriesBlocks(lex: Lexicon, rows: seq<Block>, s: Series) returns (run: seq<Block>)
    requires s in AllSeries(lex, rows, DocumentIds(rows))
    ensures ListsBlocks(lex, s, run) && forall b | b in run :: b in rows
  {
    DiagnosedSeriesIff(lex, rows, s);
    var d :| FromRun(lex, rows, d, s);
    var items := Sorted(rows, d);
    var i: nat, j: nat :| IsRun(GlueOf(lex), items, i, j) && j - i >= 2 && s == SeriesOf(d, items[i..j]);
    run := items[i..j];
    SortByIndexSorts(OfDocument(rows, d));
    forall b | b in run ensures b in rows && b.docId == d { SortedMember(rows, d, b); }
    Neighbours(lex, items, i, j);
    RunIsListed(lex, d, run);
  }

  lemma Neighbours(lex: Lexicon, items: seq<Block>, i: nat, j: nat)
    requires IsRun(GlueOf(lex), items, i, j) && Ascending(items)
    ensures forall k, l | 0 <= k && l == k + 1 && l < j - i :: Continues(lex, items[i..j][k], items[i..j][l])
  {
    var run := items[i..j];
    forall k, l | 0 <= k && l == k + 1 && l < |run| ensures Continues(lex, run[k], run[l]) {
      assert run[k] == items[i + k] && run[l] == items[i + l];
      GluedBlocks(lex, run[k], run[l]);
    }
  }

  lemma RunIsListed(lex: Lexicon, docId: string, run: seq<Block>)
    requires |run| >= 2 && forall b | b in run :: b.docId == docId
    requires forall k, l | 0 <= k && l == k + 1 && l < |run| :: Continues(lex, run[k], run[l])
    ensures ListsBlocks(lex, SeriesOf(docId, run), run)
  {
  }

  // ----- The order of the series

  /** Where the first block of a document stands in the manifest; past its end if there is none. */
  function FirstRow(rows: seq<Block>, docId: string): nat {
    if rows == [] then 0
    else
      var n := FirstRow(rows[..|rows| - 1], docId);
      if n < |rows| - 1 || rows[|rows| - 1].docId == docId then n else |rows|
  }

  lemma {:induction false} FirstRowIs(rows: seq<Block>, docId: string)
    ensures var n := FirstRow(rows, docId);
            n <= |rows| && (n < |rows| ==> rows[n].docId == docId) && forall k | 0 <= k < n :: rows[k].docId != docId
  {
    if rows != [] {
      var front := rows[..|rows| - 1];
      FirstRowIs(front, docId);
      assert forall k | 0 <= k < |front| :: front[k] == rows[k];
    }
  }

  lemma {:induction false} DocumentsByFirstRow(rows: seq<Block>)
    ensures var ids := DocumentIds(rows);
            && (forall d :: d in ids <==> FirstRow(rows, d) < |rows|)
            && (forall i, j | 0 <= i < j < |ids| :: FirstRow(rows, ids[i]) < FirstRow(rows, ids[j]))
  {
    if rows != [] {
      var front := rows[..|rows| - 1];
      DocumentsByFirstRow(front);
      forall d ensures FirstRow(front, d) <= |front| { FirstRowIs(front, d); }
      var before, ids := DocumentIds(front), DocumentIds(rows);
      forall i, j | 0 <= i < j < |ids| ensures FirstRow(rows, ids[i]) < FirstRow(rows, ids[j]) {
        assert ids[i] == before[i] && ids[i] in before;
        assert j < |before| ==> ids[j] == before[j] && ids[j] in before;
      }
    }
  }

  /** The first series is about an earlier document, or about earlier blocks of the same one. */
  predicate Before(rows: seq<Block>, s: Series, t: Series) {
    if s.docId == t.docId then EarlierBlocks(s, t) else FirstRow(rows, s.docId) < FirstRow(rows, t.docId)
  }

  predicate EarlierBlocks(s: Series, t: Series) {
    forall k, l | 0 <= k < |s.blockIndices| && 0 <= l < |t.blockIndices| :: s.blockIndices[k] <= t.blockIndices[l]
  }

  predicate InDocumentOrder(series: seq<Series>) {
    forall i, j | 0 <= i < j < |series| :: EarlierBlocks(series[i], series[j])
  }

  lemma {:induction false} InFlattened<T>(parts: seq<seq<T>>, part: seq<T>, x: T)
    requires part in parts && x in part
    ensures x in Flatten(parts)
  {
    if part != parts[0] {
      assert part in parts[1..];
      InFlattened(parts[1..], part, x);
    }
  }

  lemma AscendingParts(s: seq<Block>, t: seq<Block>, a: Block, b: Block)
    requires Ascending(s + t) && a in s && b in t
    ensures a.index <= b.index
  {
    var i :| 0 <= i < |s| && s[i] == a;
    var j :| 0 <= j < |t| && t[j] == b;
    assert (s + t)[i] == a && (s + t)[|s| + j] == b;
  }

  lemma {:induction false} ChainsInOrder(docId: string, parts: seq<seq<Block>>)
    requires Ascending(Flatten(parts))
    ensures InDocumentOrder(SeriesOfChains(docId, parts))
  {
    if parts != [] {
      var rest, later := parts[1..], SeriesOfChains(docId, parts[1..]);
      assert Ascending(Flatten(rest)) by {
        assert forall k | 0 <= k < |Flatten(rest)| :: Flatten(rest)[k] == Flatten(parts)[|parts[0]| + k];
      }
      ChainsInOrder(docId, rest);
      forall t | t in later ensures EarlierBlocks(SeriesOf(docId, parts[0]), t) { HeadIsEarlier(docId, parts, t); }
    }
  }

  lemma HeadIsEarlier(docId: string, parts: seq<seq<Block>>, t: Series)
    requires parts != [] && Ascending(Flatten(parts)) && t in SeriesOfChains(docId, parts[1..])
    ensures EarlierBlocks(SeriesOf(docId, parts[0]), t)
  {
    var s, rest := SeriesOf(docId, parts[0]), parts[1..];
    var run := LongChain(docId, rest, t);
    forall k, l | 0 <= k < |s.blockIndices| && 0 <= l < |t.blockIndices|
      ensures s.blockIndices[k] <= t.blockIndices[l]
    {
      InFlattened(rest, run, run[l]);
      AscendingParts(parts[0], Flatten(rest), parts[0][k], run[l]);
    }
  }

  lemma DocumentInOrder(lex: Lexicon, rows: seq<Block>, docId: string)
    ensures InDocumentOrder(DocumentSeries(lex, rows, docId))
    ensures forall s | s in DocumentSeries(lex, rows, docId) :: s.docId == docId
  {
    var items := Sorted(rows, docId);
    SortByIndexSorts(OfDocument(rows, docId));
    ChainsAreMaximalRuns(GlueOf(lex), items);
    ChainsInOrder(docId, Chains(GlueOf(lex), items));
    forall s | s in DocumentSeries(lex, rows, docId) ensures s.docId == docId {
      var i, j := SeriesIsRun(GlueOf(lex), docId, items, s);
    }
  }

  predicate InOrder(rows: seq<Block>, series: seq<Series>) {
    forall i, j | 0 <= i < j < |series| :: Before(rows, series[i], series[j])
  }

  /** All the series are about documents before this one. */
  predicate AllEarlier(rows: seq<Block>, series: seq<Series>, docId: string) {
    forall s | s in series :: FirstRow(rows, s.docId) < FirstRow(rows, docId)
  }

  lemma {:induction false} SeriesOfDocuments(lex: Lexicon, rows: seq<Block>, docIds: seq<string>)
    requires forall i, j | 0 <= i < j < |docIds| :: FirstRow(rows, docIds[i]) < FirstRow(rows, docIds[j])
    ensures var all := AllSeries(lex, rows, docIds);
            (forall s | s in all :: s.docId in docIds) && InOrder(rows, all)
  {
    if docIds != [] {
      var front, last := docIds[..|docIds| - 1], docIds[|docIds| - 1];
      SeriesOfDocuments(lex, rows, front);
      DocumentInOrder(lex, rows, last);
      var before, more := AllSeries(lex, rows, front), DocumentSeries(lex, rows, last);
      forall s | s in before ensures s.docId in docIds && FirstRow(rows, s.docId) < FirstRow(rows, last) {
        var k :| 0 <= k < |front| && front[k] == s.docId;
        assert docIds[k] == s.docId;
      }
      assert AllEarlier(rows, before, last);
      AppendInOrder(rows, before, more, last);
    }
  }

  lemma AppendInOrder(rows: seq<Block>, before: seq<Series>, more: seq<Series>, docId: string)
    requires InOrder(rows, before) && AllEarlier(rows, before, docId)
    requires InDocumentOrder(more) && forall s | s in more :: s.docId == docId
    ensures InOrder(rows, before + more)
  {
    var all := before + more;
    forall i, j | 0 <= i < j < |all| ensures Before(rows, all[i], all[j]) {
      if i < |before| { assert all[i] in before; } else { assert all[i] in more; }
      if j >= |before| { assert all[j] in more; }
    }
  }

  /** The series come by document, in the order of the first block of each in the manifest,
      and within a document from its beginning to its end. */
  lemma SeriesInOrder(lex: Lexicon, rows: seq<Block>)
    ensures InOrder(rows, AllSeries(lex, rows, DocumentIds(rows)))
  {
    DocumentsByFirstRow(rows);
    SeriesOfDocuments(lex, rows, DocumentIds(rows));
  }
}
