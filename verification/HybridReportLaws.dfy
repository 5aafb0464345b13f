/** What every report over two accepted files satisfies. */
module HybridReportLaws {
  import opened Sequences
  import opened HybridRecords
  import opened HybridAlign
  import opened HybridScore
  import opened HybridExact
  import opened HybridReport

  // ----- Conservation

  lemma {:induction false} GroupSize(rows: seq<Occurrence>, k: Key)
    ensures |Group(rows, k)| == multiset(Keys(rows))[k]
  {
    if rows != [] {
      var front := rows[..|rows| - 1];
      GroupSize(front, k);
      assert Keys(rows) == Keys(front) + [KeyOf(rows[|rows| - 1])];
    }
  }

  lemma GroupsSingle(rows: seq<Occurrence>, k: Key)
    requires Distinct(Keys(rows))
    ensures |Group(rows, k)| <= 1
  {
    GroupSize(rows, k);
    DistinctCounts(Keys(rows));
    assert k in Keys(rows) <==> k in multiset(Keys(rows));
  }

  lemma {:induction false} NothingAmbiguous(keys: seq<Key>, e: seq<Occurrence>, p: seq<Occurrence>)
    requires Distinct(Keys(e)) && Distinct(Keys(p))
    ensures AmbiguousOver(keys, e, p) == []
  {
    if keys != [] {
      NothingAmbiguous(keys[..|keys| - 1], e, p);
      GroupsSingle(e, keys[|keys| - 1]);
      GroupsSingle(p, keys[|keys| - 1]);
    }
  }

  /** Without duplicate keys nothing is ambiguous and detection adds up on both sides. */
  lemma DetectionConserves(e: seq<Occurrence>, p: seq<Occurrence>)
    requires Distinct(Keys(e)) && Distinct(Keys(p))
    ensures var a := AlignOf(e, p);
            && a.ambiguous == []
            && DetectionOf(a).tp + DetectionOf(a).fn == |e|
            && DetectionOf(a).tp + DetectionOf(a).fp == |p|
  {
    var a := AlignOf(e, p);
    NothingAmbiguous(UnionKeys(e, p), e, p);
    AlignIsPartition(e, p);
    assert |multiset(Ids(e))| == |e| && |multiset(Ids(p))| == |p|;
  }

  function ExpectedCount(): ((Bundle, Bundle)) -> nat { (x: (Bundle, Bundle)) => |x.0.occurrences| }

  function PredictedCount(): ((Bundle, Bundle)) -> nat { (x: (Bundle, Bundle)) => |x.1.occurrences| }

  function ExpectedRelations(): ((Bundle, Bundle)) -> nat { (x: (Bundle, Bundle)) => |x.0.relations| }

  function PredictedRelations(): ((Bundle, Bundle)) -> nat { (x: (Bundle, Bundle)) => |x.1.relations| }

  predicate Accepted(x: (Bundle, Bundle)) {
    && ValidBundle(x.0) && ValidBundle(x.1)
    && Distinct(Keys(x.0.occurrences)) && Distinct(Keys(x.1.occurrences))
  }

  /** Pairs of bundles that passed the validator. */
  predicate AllAccepted(pairs: seq<(Bundle, Bundle)>) {
    AllValid(pairs) && forall x | x in pairs :: Accepted(x)
  }

  lemma FrontAccepted(pairs: seq<(Bundle, Bundle)>)
    requires pairs != [] && AllAccepted(pairs)
    ensures AllAccepted(pairs[..|pairs| - 1]) && Accepted(pairs[|pairs| - 1])
  {
    LastSplit(pairs);
    forall x | x in pairs[..|pairs| - 1] ensures Accepted(x) { assert x in pairs; }
    assert pairs[|pairs| - 1] in pairs;
  }

  /** A row accounts for e expected and p predicted occurrences, er and pr relations. */
  predicate RowAdds(row: Row, e: nat, p: nat, er: nat, pr: nat) {
    && row.hybrid.ambiguity.groups == 0
    && DetectionAdds(row.hybrid.detection, e, p)
    && FieldsAdd(row.hybrid.fieldValue, e)
    && BlockAdds(row.hybrid.relationEndToEnd, er, pr)
  }

  /** The counters of a plane account for e expected and p predicted items. */
  predicate DetectionAdds(d: Detection, e: nat, p: nat) { d.tp + d.fn == e && d.tp + d.fp == p }

  predicate FieldsAdd(r: Ratio, e: nat) { r.denominator == 3 * e && (r.measured <==> e != 0) }

  predicate BlockAdds(b: EndToEnd, e: nat, p: nat) {
    b.tp + b.fn == b.expectedN == e && b.tp + b.fp == b.predictedN == p
  }

  predicate RelationsAdd(r: RelationSum, e: nat, p: nat) {
    r.tp + r.fn == r.expected == e && r.tp + r.fp == r.predicted == p
  }

  lemma FieldsConserve(e: Bundle, u: seq<Pair>)
    ensures FieldsAdd(FieldRatio(e, u, SlotMatch(), SLOTS), |e.occurrences|)
  {
    assert |SLOTS| == 3;
  }

  lemma RelationsConserve(e: Bundle, p: Bundle, u: seq<Pair>)
    ensures BlockAdds(RelationBlock(e, p, u), |e.relations|, |p.relations|)
  {
    EligibleSize(IdMap(u), e.relations);
  }

  lemma RowConserves(pairs: seq<(Bundle, Bundle)>, i: nat)
    requires AllAccepted(pairs) && i < |pairs|
    ensures var x := pairs[i];
            RowAdds(RowsOf(pairs)[i], |x.0.occurrences|, |x.1.occurrences|, |x.0.relations|, |x.1.relations|)
  {
    var x := pairs[i];
    assert x in pairs;
    var u := AlignOf(x.0.occurrences, x.1.occurrences).unique;
    DetectionConserves(x.0.occurrences, x.1.occurrences);
    FieldsConserve(x.0, u);
    RelationsConserve(x.0, x.1, u);
  }

  lemma RowsPrefix(pairs: seq<(Bundle, Bundle)>)
    requires pairs != [] && AllAccepted(pairs) && AllAccepted(pairs[..|pairs| - 1])
    ensures TotalsOf(RowsOf(pairs)) == AddRow(TotalsOf(RowsOf(pairs[..|pairs| - 1])), RowsOf(pairs)[|pairs| - 1])
  {
    var rows, front := RowsOf(pairs), RowsOf(pairs[..|pairs| - 1]);
    forall i | 0 <= i < |front| ensures rows[i] == front[i] { SameRow(pairs, pairs[..|pairs| - 1], i); }
    SameRowsButLast(rows, front, rows[|pairs| - 1]);
    TotalsAppend(front, rows[|pairs| - 1]);
  }

  lemma SameRow(pairs: seq<(Bundle, Bundle)>, others: seq<(Bundle, Bundle)>, i: nat)
    requires AllValid(pairs) && AllValid(others) && i < |pairs| && i < |others| && pairs[i] == others[i]
    ensures RowsOf(pairs)[i] == RowsOf(others)[i]
  {
  }

  lemma SameRowsButLast(rows: seq<Row>, front: seq<Row>, last: Row)
    requires |rows| == |front| + 1 && rows[|front|] == last && forall i | 0 <= i < |front| :: rows[i] == front[i]
    ensures rows == front + [last]
  {
  }

  lemma TotalsAppend(front: seq<Row>, last: Row)
    ensures TotalsOf(front + [last]) == AddRow(TotalsOf(front), last)
  {
    assert (front + [last])[..|front|] == front;
  }

  lemma DetectionStep(t: Totals, row: Row, e: nat, p: nat, e': nat, p': nat)
    requires DetectionAdds(t.detection, e, p) && DetectionAdds(row.hybrid.detection, e', p')
    ensures DetectionAdds(AddRow(t, row).detection, e + e', p + p')
  {
  }

  lemma FieldsStep(t: Totals, row: Row, e: nat, e': nat)
    requires t.fields.denominator == 3 * e && FieldsAdd(row.hybrid.fieldValue, e')
    ensures AddRow(t, row).fields.denominator == 3 * (e + e')
  {
  }

  lemma RelationsStep(t: Totals, row: Row, e: nat, p: nat, e': nat, p': nat)
    requires RelationsAdd(t.relations, e, p) && BlockAdds(row.hybrid.relationEndToEnd, e', p')
    ensures RelationsAdd(AddRow(t, row).relations, e + e', p + p')
  {
  }

  lemma AmbiguityStep(t: Totals, row: Row)
    requires t.ambiguityGroups == 0 && row.hybrid.ambiguity.groups == 0
    ensures AddRow(t, row).ambiguityGroups == 0
  {
  }

  /** The totals of a list of accepted pairs. */
  function PairTotals(pairs: seq<(Bundle, Bundle)>): Totals
    requires AllAccepted(pairs)
  {
    TotalsOf(RowsOf(pairs))
  }

  predicate Adds(t: Totals, e: nat, p: nat, er: nat, pr: nat) {
    && t.ambiguityGroups == 0
    && DetectionAdds(t.detection, e, p)
    && t.fields.denominator == 3 * e
    && RelationsAdd(t.relations, er, pr)
  }

  lemma AddsStep(t: Totals, row: Row, e: nat, p: nat, er: nat, pr: nat, e': nat, p': nat, er': nat, pr': nat)
    requires Adds(t, e, p, er, pr) && RowAdds(row, e', p', er', pr')
    ensures Adds(AddRow(t, row), e + e', p + p', er + er', pr + pr')
  {
    AmbiguityStep(t, row);
    DetectionStep(t, row, e, p, e', p');
    FieldsStep(t, row, e, e');
    RelationsStep(t, row, er, pr, er', pr');
  }

  /** The totals account for the pairs. */
  predicate Conserved(t: Totals, pairs: seq<(Bundle, Bundle)>) {
    Adds(t, Sum(ExpectedCount(), pairs), Sum(PredictedCount(), pairs),
         Sum(ExpectedRelations(), pairs), Sum(PredictedRelations(), pairs))
  }

  lemma ConservedStep(t: Totals, row: Row, pairs: seq<(Bundle, Bundle)>)
    requires pairs != [] && Conserved(t, pairs[..|pairs| - 1])
    requires var x := pairs[|pairs| - 1];
             RowAdds(row, |x.0.occurrences|, |x.1.occurrences|, |x.0.relations|, |x.1.relations|)
    ensures Conserved(AddRow(t, row), pairs)
  {
    var front, x := pairs[..|pairs| - 1], pairs[|pairs| - 1];
    AddsStep(
      t, row, Sum(ExpectedCount(), front), Sum(PredictedCount(), front),
      Sum(ExpectedRelations(), front), Sum(PredictedRelations(), front),
      |x.0.occurrences|, |x.1.occurrences|, |x.0.relations|, |x.1.relations|);
  }

  lemma {:induction false} TotalsConserve(pairs: seq<(Bundle, Bundle)>)
    requires AllAccepted(pairs)
    ensures Conserved(PairTotals(pairs), pairs)
  {
    if pairs != [] {
      var front := pairs[..|pairs| - 1];
      FrontAccepted(pairs);
      TotalsConserve(front);
      RowConserves(pairs, |pairs| - 1);
      ConservedStep(PairTotals(front), RowsOf(pairs)[|pairs| - 1], pairs);
      RowsPrefix(pairs);
    }
  }

  /** The planes show what the totals account for; dividing by the slots recovers the count. */
  lemma PlanesConserve(t: Totals, n: nat, e: nat, p: nat, er: nat, pr: nat)
    requires Adds(t, e, p, er, pr)
    ensures var h := PlanesOf(t, n).hybrid;
            && h.ambiguityGroups == 0 && h.bundles == n
            && h.detection.tp + h.detection.fn == h.occurrenceExpected == e
            && h.detection.tp + h.detection.fp == p
            && h.relationEndToEnd.tp + h.relationEndToEnd.fn == er
            && h.relationEndToEnd.tp + h.relationEndToEnd.fp == pr
  {
    assert |SLOTS| == 3;
  }

  lemma MatchedAccepted(ids: seq<string>, e: Records, p: Records)
    requires Evaluable(e, p)
    requires Lists(ids, BundleMap(e.bundles).Keys * BundleMap(p.bundles).Keys)
    ensures AllAccepted(MatchedPairs(ids, e.bundles, p.bundles))
  {
    MatchedValid(ids, e, p);
  }

  /** In every report over two accepted files no group is ambiguous, and the true
      positives plus the misses are the expected occurrences of the matched bundles,
      which is what the division by the number of slots recovers. */
  lemma ReportConserves(planes: Planes, ids: seq<string>, e: Records, p: Records)
    requires Evaluable(e, p)
    requires Lists(ids, BundleMap(e.bundles).Keys * BundleMap(p.bundles).Keys)
    requires HasPlanes(planes, ids, e, p)
    ensures var h, pairs := planes.hybrid, MatchedPairs(ids, e.bundles, p.bundles);
            && h.ambiguityGroups == 0
            && h.detection.tp + h.detection.fn == h.occurrenceExpected == Sum(ExpectedCount(), pairs)
            && h.detection.tp + h.detection.fp == Sum(PredictedCount(), pairs)
            && h.relationEndToEnd.tp + h.relationEndToEnd.fn == Sum(ExpectedRelations(), pairs)
            && h.relationEndToEnd.tp + h.relationEndToEnd.fp == Sum(PredictedRelations(), pairs)
            && h.bundles == |pairs|
  {
    var pairs := MatchedPairs(ids, e.bundles, p.bundles);
    MatchedAccepted(ids, e, p);
    TotalsConserve(pairs);
    PlanesConserve(
      PairTotals(pairs), |pairs|, Sum(ExpectedCount(), pairs), Sum(PredictedCount(), pairs),
      Sum(ExpectedRelations(), pairs), Sum(PredictedRelations(), pairs));
  }

  // ----- Local focus is a coarsening

  /** When the whole bundles are the same up to ids, so are their focus views. */
  lemma LocalFocusCoarser(e: Bundle, p: Bundle)
    requires ValidBundle(e) && ValidBundle(p)
    requires TallyOf(e, p).exact
    ensures LocalTally(e, p).exact <==> e.occurrences != []
  {
    if e.occurrences != [] {
      var b := ExactPartner(e, p, FocusOf(e));
      ViewsExact(e, p, b);
    }
  }

  lemma ViewsExact(e: Bundle, p: Bundle, b: Occurrence)
    requires ValidBundle(e) && ValidBundle(p) && e.occurrences != []
    requires Group(p.occurrences, KeyOf(FocusOf(e))) == [b]
    requires multiset(FocusOf(e).anchors) == multiset(b.anchors) && Agree(FocusOf(e), b)
    ensures TallyOf(ExpectedView(e), PredictedView(p, KeyOf(FocusOf(e)))).exact
  {
    var v, w := ExpectedView(e), PredictedView(p, KeyOf(FocusOf(e)));
    ViewsAreValid(e, p);
    SingleIsomorphism(v, w, FocusOf(e), b);
    ExactIffIsomorphic(v, w);
  }

  lemma ExactPartner(e: Bundle, p: Bundle, a: Occurrence) returns (b: Occurrence)
    requires ValidBundle(e) && ValidBundle(p) && TallyOf(e, p).exact && a in e.occurrences
    ensures Group(p.occurrences, KeyOf(a)) == [b]
    ensures multiset(a.anchors) == multiset(b.anchors) && Agree(a, b)
  {
    ExactIffIsomorphic(e, p);
    var f :| Isomorphism(e, p, f);
    IsomorphismPairs(e, p, f);
    b :| Paired(e.occurrences, p.occurrences, a, b);
    PairedFacts(e.occurrences, p.occurrences, a, b);
    KeyIsAnchorMultiset(a, b);
  }

  lemma SingleIsomorphism(v: Bundle, w: Bundle, a: Occurrence, b: Occurrence)
    requires v.occurrences == [a] && w.occurrences == [b] && v.relations == [] && w.relations == []
    requires multiset(a.anchors) == multiset(b.anchors) && Agree(a, b)
    ensures Isomorphism(v, w, map[a.id := b.id])
  {
    var f := map[a.id := b.id];
    assert Ids(v.occurrences) == [a.id] && Ids(w.occurrences) == [b.id];
    assert f.Keys == {a.id} && a.id in f && f[a.id] in f.Values && f.Values == {b.id};
    assert Map(Carry(f), v.relations) == Triples(w.relations);
  }

  function EmptyFlag(): ((Bundle, Bundle)) -> nat { (x: (Bundle, Bundle)) => if x.0.occurrences == [] then 1 else 0 }

  /** Over any rows the hybrid exact count exceeds the local one by no more than
      the number of empty expected bundles: with none of those it is never larger. */
  lemma {:induction false} LocalCountGap(pairs: seq<(Bundle, Bundle)>)
    requires AllAccepted(pairs)
    ensures var t := TotalsOf(RowsOf(pairs));
            t.exact <= t.localExact + Sum(EmptyFlag(), pairs)
  {
    if pairs != [] {
      var front, last := pairs[..|pairs| - 1], pairs[|pairs| - 1];
      FrontAccepted(pairs);
      assert last in pairs && forall x | x in front :: x in pairs;
      LocalCountGap(front);
      RowsPrefix(pairs);
      LocalFocusGap(pairs, |pairs| - 1);
      ExactStep(TotalsOf(RowsOf(front)), RowsOf(pairs)[|pairs| - 1]);
    }
  }

  function Flag(b: bool): nat { if b then 1 else 0 }

  lemma LocalFocusGap(pairs: seq<(Bundle, Bundle)>, i: nat)
    requires AllAccepted(pairs) && i < |pairs|
    ensures Flag(RowsOf(pairs)[i].hybrid.exact) <= Flag(RowsOf(pairs)[i].local.exact) + EmptyFlag()(pairs[i])
  {
    var x := pairs[i];
    assert x in pairs;
    if TallyOf(x.0, x.1).exact { LocalFocusCoarser(x.0, x.1); }
  }

  lemma ExactStep(t: Totals, row: Row)
    ensures AddRow(t, row).exact == t.exact + Flag(row.hybrid.exact)
    ensures AddRow(t, row).localExact == t.localExact + Flag(row.local.exact)
  {
  }

  /** Over rows with non-empty expected bundles the local exact count is never below the hybrid one. */
  lemma LocalCountNotBelow(pairs: seq<(Bundle, Bundle)>)
    requires AllAccepted(pairs) && forall x | x in pairs :: x.0.occurrences != []
    ensures TotalsOf(RowsOf(pairs)).exact <= TotalsOf(RowsOf(pairs)).localExact
  {
    LocalCountGap(pairs);
    SumOfZeros(EmptyFlag(), pairs);
  }

  /** Two empty bundles count as an exact bundle although no ratio of the pair is
      measured; nothing else does. */
  lemma UnmeasuredExactIffEmpty(e: Bundle, p: Bundle)
    requires ValidBundle(e) && ValidBundle(p)
    ensures var t := TallyOf(e, p);
            (t.exact && !t.fieldValue.measured && !t.provenance.measured && !t.unresolved.measured
             && !t.relationEndToEnd.measured) <==>
            e.occurrences == [] && p.occurrences == []
  {
    var u := AlignOf(e.occurrences, p.occurrences).unique;
    if e.occurrences == [] && p.occurrences == [] {
      assert e.relations == [] by { NoRelations(e); }
      assert p.relations == [] by { NoRelations(p); }
      DetectionConserves(e.occurrences, p.occurrences);
      EmptyIsomorphism(e, p);
      ExactIffIsomorphic(e, p);
    } else if e.occurrences == [] && TallyOf(e, p).exact {
      ExactIffIsomorphic(e, p);
      var f :| Isomorphism(e, p, f);
      IdListed(p.occurrences, p.occurrences[0]);
      assert p.occurrences[0].id in f.Values;
    }
  }

  /** The validator accepts files with an empty bundle, so this happens. */
  const EmptyBundle := Bundle("b", "c", "x", "s", [], [], [], [])
  const EmptyFile := Records(
    RECORDS_SCHEMA, RECORDS_SCHEMA_VERSION, "synthetic", [Document("d", [Fragment("f", 0, None)])], [EmptyBundle], None)

  lemma EmptyFileIsWellFormed()
    ensures WellFormed(EmptyFile)
  {
    var d, f := EmptyFile.documents[0], Fragment("f", 0, None);
    assert FragmentOk(f) && d in EmptyFile.documents;
    assert EmptyFile.documents[..0] == [];
    assert "synthetic" in RECORDS_ORIGINS by { assert RECORDS_ORIGINS[0] == "synthetic"; }
    assert FragmentIds(EmptyFile.documents) == ["f"];
    assert CitedFragments(EmptyBundle) == [];
    assert InDocument(d, CitedFragments(EmptyBundle));
    assert BundleOk(EmptyFile.documents, EmptyBundle);
  }

  /** An accepted file that evaluates against itself to an exact bundle with nothing measured. */
  lemma EmptyFileIsExact()
    ensures Evaluable(EmptyFile, EmptyFile) && EmptyBundle in EmptyFile.bundles
    ensures var t := TallyOf(EmptyBundle, EmptyBundle);
            t.exact && !t.fieldValue.measured && !t.provenance.measured && !t.unresolved.measured && !t.relationEndToEnd.measured
  {
    EmptyFileIsWellFormed();
    assert BundleOk(EmptyFile.documents, EmptyBundle);
    UnmeasuredExactIffEmpty(EmptyBundle, EmptyBundle);
  }

  lemma NoRelations(b: Bundle)
    requires ValidBundle(b) && b.occurrences == []
    ensures b.relations == []
  {
    assert b.relations != [] ==> EndpointsPresent(b, b.relations[0]);
  }

  lemma EmptyIsomorphism(e: Bundle, p: Bundle)
    requires e.occurrences == [] && p.occurrences == [] && e.relations == [] && p.relations == []
    ensures Isomorphism(e, p, map[])
  {
    assert Map(Carry(map[]), e.relations) == Triples(p.relations);
  }
}
