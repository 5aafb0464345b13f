/** From blocks to inventory: where the seed and the fixtures are what the diagnosis read,
    the inventory can be built, and what it shows is said of the blocks. */
module InventoryHarvest {
  import opened Sequences
  import opened Utf8
  import opened EditionSeries
  import opened EditionTexts
  import opened ContextInventory

  /** The seed row and the fixture of a block are the block. */
  predicate Harvested(w: World, b: Block) {
    && b.fragmentId in w.seed && w.seed[b.fragmentId].file in w.files
    && Fixture(w, b.fragmentId) == b.raw && Decoded(b)
    && w.seed[b.fragmentId].docId == b.docId && w.seed[b.fragmentId].byteLen == |b.raw|
    && w.seed[b.fragmentId].index == b.index
  }

  function Fixture(w: World, id: string): seq<Byte>
    requires id in w.seed && w.seed[id].file in w.files
  {
    w.files[w.seed[id].file]
  }

  /** The diagnosis of these blocks was loaded next to their seed and fixtures. */
  ghost predicate Diagnosed(lex: Lexicon, rows: seq<Block>, w: World) {
    && rows != [] && Distinct(Map(FragmentId(), rows))
    && (forall b | b in rows :: b.fragmentId != "" && Harvested(w, b))
    && Indexes(w.diagnosis, Map(RowOf(lex, w.sha), rows), AllSeries(lex, rows, DocumentIds(rows)))
  }

  lemma BlockIsPresent(lex: Lexicon, rows: seq<Block>, w: World, b: Block)
    requires Diagnosed(lex, rows, w) && b in rows
    ensures Present(w, b.fragmentId) && Raw(w, b.fragmentId) == b.raw && Consistent(w, b.fragmentId, b.docId)
    ensures w.diagnosis.fragments[b.fragmentId] == RowOf(lex, w.sha)(b)
    ensures Decode(Raw(w, b.fragmentId)) == Some(b.text)
  {
    var fragments := Map(RowOf(lex, w.sha), rows);
    var i :| 0 <= i < |rows| && rows[i] == b;
    assert fragments[i] == RowOf(lex, w.sha)(b) && fragments[i] in fragments;
    assert Harvested(w, b);
  }

  /** Every series of the diagnosis can be shown, next to any of its members. */
  lemma SeriesCanBeShown(lex: Lexicon, rows: seq<Block>, w: World, id: string)
    requires Diagnosed(lex, rows, w) && id in w.diagnosis.seriesOf
    ensures SeriesOk(w, w.diagnosis.seriesOf[id], id)
  {
    var series := AllSeries(lex, rows, DocumentIds(rows));
    var s := OwnerOf(w.diagnosis, Map(RowOf(lex, w.sha), rows), series, id);
    var run := SeriesBlocks(lex, rows, s);
    forall i | 0 <= i < |s.fragmentIds|
      ensures Showable(w, s, s.fragmentIds[i], id) && s.blockIndices[i] == w.seed[s.fragmentIds[i]].index
    {
      assert run[i] in run;
      BlockIsPresent(lex, rows, w, run[i]);
    }
  }

  /** What is left to ask of a case: that it copies the row of its block and the hash of the
      source, and that its span is the whole block or a text span that is not empty. */
  predicate CopiesBlock(w: World, c: Case, b: Block) {
    && c.fragmentId == b.fragmentId && c.docId == b.docId != "" && c.index == b.index && c.byteLen == |b.raw|
    && c.docId in w.documents && c.sourceSha == w.documents[c.docId]
    && SpanOk(b.raw, c.start, c.end) && ((c.start == 0 && c.end == |b.raw|) || c.start < c.end)
  }

  lemma CopiesAreGood(lex: Lexicon, rows: seq<Block>, w: World, c: Case, b: Block)
    requires Diagnosed(lex, rows, w) && b in rows && c.fragmentId == b.fragmentId
    ensures CaseOk(w, c) <==> CopiesBlock(w, c, b)
    ensures Buildable(w, c) <==> CopiesBlock(w, c, b)
  {
    BlockIsPresent(lex, rows, w, b);
    if c.fragmentId in w.diagnosis.seriesOf { SeriesCanBeShown(lex, rows, w, c.fragmentId); }
  }

  /** The inventory of cases about such blocks can be built if and only if every case copies its
      block: no check of a series, of a hash or of a length can fail then. */
  lemma HarvestBuilds(lex: Lexicon, rows: seq<Block>, w: World, cases: seq<Case>)
    requires Diagnosed(lex, rows, w)
    requires forall c | c in cases :: exists b :: b in rows && c.fragmentId == b.fragmentId
    ensures (forall c | c in cases :: Buildable(w, c)) <==>
            (forall c | c in cases :: exists b :: b in rows && CopiesBlock(w, c, b))
  {
    forall c | c in cases
      ensures Buildable(w, c) <==> exists b :: b in rows && CopiesBlock(w, c, b)
    {
      var b :| b in rows && c.fragmentId == b.fragmentId;
      CopiesAreGood(lex, rows, w, c, b);
      if d :| d in rows && CopiesBlock(w, c, d) { CopiesAreGood(lex, rows, w, c, d); }
    }
  }

  /** In such an inventory a case is unavailable for coding exactly when its block starts with a
      date and is in no series, and an inventory-only block bears no mark of truncation at all. */
  lemma OrphansAreDated(lex: Lexicon, rows: seq<Block>, w: World, cases: seq<Case>, out: seq<PublicCase>, i: nat, b: Block)
    requires Diagnosed(lex, rows, w) && Inventory(w, cases, out) && i < |cases|
    requires b in rows && cases[i].fragmentId == b.fragmentId
    ensures out[i].eligibility == UnavailableForCoding <==> Dated(lex, b) && b.fragmentId !in w.diagnosis.seriesOf
    ensures out[i].eligibility == InventoryOnly ==> !Dated(lex, b) && !Open(lex, b)
    ensures out[i].flags == TruncFlags(lex, b.text)
  {
    BlockIsPresent(lex, rows, w, b);
    EligibilityMeans(w, cases, out, i);
    assert Describes(w, cases, cases[i], out[i]);
    var s := StripRight(lex, b.text);
    StrippedIsTrimmed(lex, b.text);
    FlagsMean(lex, b.text, s);
    forall u | Trims(lex, b.text, u) ensures u == s { TrimmedIs(lex, b.text, u); }
  }
}
