/** Exchanging the expected and the predicted file does to a whole report what
    exchanging two bundles does to their score. */
module HybridReportDuality {
  import opened Sequences
  import opened HybridRecords
  import opened HybridScore
  import opened HybridDuality
  import opened HybridReport

  function Exchange(): ((Bundle, Bundle)) -> (Bundle, Bundle) { (x: (Bundle, Bundle)) => (x.1, x.0) }

  /** The second totals are the first seen from the other side. */
  predicate DualTotals(t: Totals, s: Totals) {
    && s.detection == Detection(t.detection.tp, t.detection.fn, t.detection.fp)
    && s.relations == RelationSum(t.relations.tp, t.relations.fn, t.relations.fp, t.relations.predicted, t.relations.expected)
    && s.fields.correct == t.fields.correct && s.provenance.correct == t.provenance.correct
    && s.unresolved == t.unresolved && s.ambiguityGroups == t.ambiguityGroups && s.exact == t.exact
  }

  /** A ratio that is not measured counts nothing as correct. */
  predicate HonestRatios(t: Tally) {
    (!t.fieldValue.measured ==> t.fieldValue.correct == 0) && (!t.provenance.measured ==> t.provenance.correct == 0)
  }

  lemma TalliesAreHonest(e: Bundle, p: Bundle)
    ensures HonestRatios(TallyOf(e, p))
  {
  }

  lemma DualStep(t: Totals, s: Totals, row: Row, other: Row)
    requires DualTotals(t, s) && Dual(row.hybrid, other.hybrid)
    requires HonestRatios(row.hybrid) && HonestRatios(other.hybrid)
    ensures DualTotals(AddRow(t, row), AddRow(s, other))
  {
  }

  lemma {:induction false} TotalsAreDual(rows: seq<Row>, others: seq<Row>)
    requires |rows| == |others|
    requires forall i | 0 <= i < |rows| ::
               Dual(rows[i].hybrid, others[i].hybrid) && HonestRatios(rows[i].hybrid) && HonestRatios(others[i].hybrid)
    ensures DualTotals(TotalsOf(rows), TotalsOf(others))
  {
    if rows != [] {
      var n := |rows| - 1;
      TotalsAreDual(rows[..n], others[..n]);
      DualStep(TotalsOf(rows[..n]), TotalsOf(others[..n]), rows[n], others[n]);
    }
  }

  lemma RowIsDual(pairs: seq<(Bundle, Bundle)>, others: seq<(Bundle, Bundle)>, i: nat)
    requires AllValid(pairs) && AllValid(others) && i < |pairs| && i < |others| && others[i] == Exchange()(pairs[i])
    ensures Dual(RowsOf(pairs)[i].hybrid, RowsOf(others)[i].hybrid)
    ensures HonestRatios(RowsOf(pairs)[i].hybrid) && HonestRatios(RowsOf(others)[i].hybrid)
  {
    var x := pairs[i];
    assert x in pairs && others[i] in others;
    ScoreIsDual(x.0, x.1);
    TalliesAreHonest(x.0, x.1);
    TalliesAreHonest(x.1, x.0);
  }

  /** The second planes are the first seen from the other side, as far as they are not
      about the expected side alone. */
  predicate DualPlanes(h: HybridPlane, k: HybridPlane) {
    && k.detection == Detection(h.detection.tp, h.detection.fn, h.detection.fp)
    && k.relationEndToEnd == EndToEnd(
         h.relationEndToEnd.tp, h.relationEndToEnd.fn, h.relationEndToEnd.fp,
         h.relationEndToEnd.predictedN, h.relationEndToEnd.expectedN, h.relationEndToEnd.measured)
    && k.unresolved == h.unresolved && k.ambiguityGroups == h.ambiguityGroups
    && k.bundleExact == h.bundleExact && k.bundles == h.bundles
  }

  lemma PlanesAreDual(t: Totals, s: Totals, n: nat)
    requires DualTotals(t, s)
    ensures DualPlanes(PlanesOf(t, n).hybrid, PlanesOf(s, n).hybrid)
  {
  }

  lemma SummaryIsDual(pairs: seq<(Bundle, Bundle)>, others: seq<(Bundle, Bundle)>)
    requires AllValid(pairs) && AllValid(others) && others == Map(Exchange(), pairs)
    ensures DualPlanes(SummaryOf(RowsOf(pairs)).hybrid, SummaryOf(RowsOf(others)).hybrid)
  {
    var rows, back := RowsOf(pairs), RowsOf(others);
    forall i | 0 <= i < |rows|
      ensures Dual(rows[i].hybrid, back[i].hybrid) && HonestRatios(rows[i].hybrid) && HonestRatios(back[i].hybrid)
    {
      RowIsDual(pairs, others, i);
    }
    TotalsAreDual(rows, back);
    PlanesAreDual(TotalsOf(rows), TotalsOf(back), |rows|);
  }

  lemma ExchangedPairs(ids: seq<string>, e: seq<Bundle>, p: seq<Bundle>)
    requires forall id | id in ids :: id in BundleMap(e) && id in BundleMap(p)
    ensures MatchedPairs(ids, p, e) == Map(Exchange(), MatchedPairs(ids, e, p))
  {
  }

  /** Exchanging two files that can be evaluated keeps the matched bundles, every true
      positive, the unresolved plane, the ambiguous groups and the exact count of the
      report, and exchanges false positives with false negatives. */
  lemma ReportIsDual(planes: Planes, back: Planes, ids: seq<string>, e: Records, p: Records)
    requires Evaluable(e, p) && Lists(ids, BundleMap(e.bundles).Keys * BundleMap(p.bundles).Keys)
    requires HasPlanes(planes, ids, e, p)
    ensures Evaluable(p, e) && Lists(ids, BundleMap(p.bundles).Keys * BundleMap(e.bundles).Keys)
    ensures HasPlanes(back, ids, p, e) ==> DualPlanes(planes.hybrid, back.hybrid)
  {
    MatchedValid(ids, e, p);
    MatchedValid(ids, p, e);
    ExchangedPairs(ids, e.bundles, p.bundles);
    SummaryIsDual(MatchedPairs(ids, e.bundles, p.bundles), MatchedPairs(ids, p.bundles, e.bundles));
  }
}
