/** What the numbers of a report count, over the matched pairs of bundles. */
module HybridReportCounts {
  import opened Sequences
  import opened HybridRecords
  import opened HybridAlign
  import opened HybridAnchors
  import opened HybridScore
  import opened HybridExact
  import opened HybridCounts
  import opened HybridLinks
  import opened HybridReport
  import opened HybridReportLaws

  type BundlePair = (Bundle, Bundle)

  // ----- The focus alone

  /** The predicted occurrences on the anchors of the expected focus. */
  function OnFocus(e: Bundle, p: Bundle): seq<Occurrence>
    requires ValidBundle(e) && e.occurrences != []
  {
    Carriers(p.occurrences, multiset(FocusOf(e).anchors))
  }

  function Tick(b: bool): nat { if b then 1 else 0 }

  function ValuesShared(a: Occurrence, b: Occurrence): nat {
    Tick(SameKind()((a, b))) + Tick(SameDate()((a, b))) + Tick(SameNumber()((a, b)))
  }

  function SourcesShared(a: Occurrence, b: Occurrence): nat {
    Tick(SameDateSource()((a, b))) + Tick(SameNumberSource()((a, b)))
  }

  /** The block of a focus that nobody, one or several predicted occurrences share anchors with. */
  predicate FocusBlock(t: Tally, a: Occurrence, theirs: seq<Occurrence>) {
    if |theirs| == 1 then
      var b := theirs[0];
      && t.detection == Detection(1, 0, 0) && t.ambiguity == AmbiguityCounts(0, 0, 0)
      && t.fieldValue == Ratio(ValuesShared(a, b), 3, true) && t.provenance == Ratio(SourcesShared(a, b), 2, true)
      && t.unresolved == Ratio(Tick(a.unresolved == b.unresolved), 1, true)
      && (t.exact <==> ValuesShared(a, b) == 3 && SourcesShared(a, b) == 2 && a.unresolved == b.unresolved)
    else
      && t.detection == Detection(0, 0, Tick(theirs == []))
      && t.ambiguity == (if theirs == [] then AmbiguityCounts(0, 0, 0) else AmbiguityCounts(1, 1, |theirs|))
      && t.fieldValue == Ratio(0, 3, true) && t.provenance == Ratio(0, 2, true) && !t.unresolved.measured && !t.exact
  }

  lemma {:induction false} AllPass<T>(test: T -> bool, s: seq<T>)
    requires forall x | x in s :: test(x)
    ensures Filter(test, s) == s
  {
    if s != [] {
      LastSplit(s);
      assert forall x | x in s[..|s| - 1] :: x in s;
      AllPass(test, s[..|s| - 1]);
      assert s[|s| - 1] in s;
    }
  }

  lemma CarriersOfCarriers(rows: seq<Occurrence>, a: multiset<Anchor>)
    ensures Carriers(Carriers(rows, a), a) == Carriers(rows, a)
  {
    forall x | x in Carriers(rows, a) ensures Carries(a)(x) { CarrierIff(rows, a, x); }
    AllPass(Carries(a), Carriers(rows, a));
  }

  lemma OneCarrier(a: Occurrence, c: multiset<Anchor>)
    requires multiset(a.anchors) == c
    ensures Carriers([a], c) == [a]
  {
    AllPass(Carries(c), [a]);
  }

  lemma OnePair(a: Occurrence, b: Occurrence, test: Pair -> bool)
    requires SameAnchors(a, b)
    ensures Partnered([a], [b]) == {(a, b)} && |PartneredWith([a], [b], test)| == Tick(test((a, b)))
  {
    OneCarrier(a, multiset(a.anchors));
    OneCarrier(b, multiset(a.anchors));
    assert Partners([a], [b], a, b);
    assert Partnered([a], [b]) == {(a, b)};
    assert PartneredWith([a], [b], test) == if test((a, b)) then {(a, b)} else {};
  }

  lemma NoPair(a: Occurrence, theirs: seq<Occurrence>, test: Pair -> bool)
    requires |theirs| != 1 && Carriers(theirs, multiset(a.anchors)) == theirs
    ensures Partnered([a], theirs) == {} && PartneredWith([a], theirs, test) == {}
  {
    forall b ensures !Partners([a], theirs, a, b) { }
    forall x ensures x !in Partnered([a], theirs) { assert x.0 in [a] ==> x.0 == a; }
  }

  lemma ViewRows(e: Bundle, p: Bundle)
    requires ValidBundle(e) && e.occurrences != []
    ensures var a := FocusOf(e);
            && ExpectedView(e).occurrences == [a]
            && PredictedView(p, KeyOf(a)).occurrences == OnFocus(e, p)
            && Carriers(OnFocus(e, p), multiset(a.anchors)) == OnFocus(e, p)
  {
    GroupIsCarriers(p.occurrences, FocusOf(e));
    CarriersOfCarriers(p.occurrences, multiset(FocusOf(e).anchors));
  }

  lemma PairedLabels(t: Tally, a: Occurrence, b: Occurrence)
    requires CountsValues(t.fieldValue, [a], [b]) && CountsSources(t.provenance, [a], [b]) && SameAnchors(a, b)
    requires CountsMarks(t.unresolved, t.resolvedWhenUnresolved, [a], [b])
    ensures t.fieldValue == Ratio(ValuesShared(a, b), 3, true) && t.provenance == Ratio(SourcesShared(a, b), 2, true)
    ensures t.unresolved == Ratio(Tick(a.unresolved == b.unresolved), 1, true)
  {
    OnePair(a, b, SameKind());
    OnePair(a, b, SameDate());
    OnePair(a, b, SameNumber());
    OnePair(a, b, SameDateSource());
    OnePair(a, b, SameNumberSource());
    OnePair(a, b, SameMark());
  }

  lemma PairedDetection(t: Tally, a: Occurrence, b: Occurrence)
    requires CountsDetection(t.detection, [a], [b]) && CountsAmbiguity(t.ambiguity, [a], [b]) && SameAnchors(a, b)
    ensures t.detection == Detection(1, 0, 0) && t.ambiguity == AmbiguityCounts(0, 0, 0)
  {
    OnePair(a, b, SameMark());
    NobodyLeft([a], [b]);
    NobodyLeft([b], [a]);
    NothingContested(a, [b]);
  }

  lemma LoneLabels(t: Tally, a: Occurrence, theirs: seq<Occurrence>)
    requires CountsValues(t.fieldValue, [a], theirs) && CountsSources(t.provenance, [a], theirs)
    requires CountsMarks(t.unresolved, t.resolvedWhenUnresolved, [a], theirs)
    requires |theirs| != 1 && Carriers(theirs, multiset(a.anchors)) == theirs
    ensures t.fieldValue == Ratio(0, 3, true) && t.provenance == Ratio(0, 2, true) && !t.unresolved.measured
  {
    NoPair(a, theirs, SameKind());
    NoPair(a, theirs, SameDate());
    NoPair(a, theirs, SameNumber());
    NoPair(a, theirs, SameDateSource());
    NoPair(a, theirs, SameNumberSource());
  }

  lemma LoneDetection(t: Tally, a: Occurrence, theirs: seq<Occurrence>)
    requires CountsDetection(t.detection, [a], theirs) && CountsAmbiguity(t.ambiguity, [a], theirs) && Distinct(theirs)
    requires |theirs| != 1 && Carriers(theirs, multiset(a.anchors)) == theirs
    ensures t.detection == Detection(0, 0, Tick(theirs == []))
    ensures t.ambiguity == if theirs == [] then AmbiguityCounts(0, 0, 0) else AmbiguityCounts(1, 1, |theirs|)
  {
    NoPair(a, theirs, SameMark());
    FocusAlone(a, theirs);
    SizeOfElements(theirs, Elements(theirs));
  }

  lemma FocusIs(v: Bundle, w: Bundle, a: Occurrence, theirs: seq<Occurrence>)
    requires ValidBundle(v) && ValidBundle(w) && v.relations == [] && w.relations == []
    requires v.occurrences == [a] && w.occurrences == theirs && Carriers(theirs, multiset(a.anchors)) == theirs
    ensures FocusBlock(TallyOf(v, w), a, theirs)
  {
    var t := TallyOf(v, w);
    ValuesCounted(v, w);
    SourcesCounted(v, w);
    MarksCounted(v, w);
    DetectionCounted(v, w);
    AmbiguityCounted(v, w);
    RowsDistinct(theirs);
    NoRelationsNoBlock(v, w);
    ExactIs(v, w);
    FocusFollows(t, a, theirs);
  }

  lemma FocusFollows(t: Tally, a: Occurrence, theirs: seq<Occurrence>)
    requires CountsValues(t.fieldValue, [a], theirs) && CountsSources(t.provenance, [a], theirs)
    requires CountsMarks(t.unresolved, t.resolvedWhenUnresolved, [a], theirs)
    requires CountsDetection(t.detection, [a], theirs) && CountsAmbiguity(t.ambiguity, [a], theirs) && Distinct(theirs)
    requires Carriers(theirs, multiset(a.anchors)) == theirs && !t.relationEndToEnd.measured
    requires t.exact == BundleExact(t.detection, t.fieldValue, t.provenance, t.unresolved, t.relationEndToEnd, t.ambiguity.groups)
    ensures FocusBlock(t, a, theirs)
  {
    if |theirs| == 1 {
      assert theirs == [theirs[0]];
      CarrierIff(theirs, multiset(a.anchors), theirs[0]);
      PairedLabels(t, a, theirs[0]);
      PairedDetection(t, a, theirs[0]);
    } else {
      LoneLabels(t, a, theirs);
      LoneDetection(t, a, theirs);
    }
  }

  lemma NobodyLeft(rows: seq<Occurrence>, others: seq<Occurrence>)
    requires others != [] && forall a, b | a in rows && b in others :: SameAnchors(a, b)
    ensures Passing(Elements(rows), Unanswered(others)) == {}
  {
    assert others[0] in others;
  }

  lemma NothingContested(a: Occurrence, theirs: seq<Occurrence>)
    requires |theirs| == 1 && SameAnchors(a, theirs[0])
    ensures ContestedAnchors([a], theirs) == {} && Passing(Elements([a]), ContestedOver([a], theirs)) == {}
    ensures Passing(Elements(theirs), ContestedOver(theirs, [a])) == {}
  {
    var c := multiset(a.anchors);
    OneCarrier(a, c);
    OneCarrier(theirs[0], c);
    assert theirs == [theirs[0]];
    forall o | o in [a] || o in theirs
      ensures !Contested([a], theirs, multiset(o.anchors)) && !Contested(theirs, [a], multiset(o.anchors))
    {
      assert multiset(o.anchors) == c;
    }
  }

  lemma FocusAlone(a: Occurrence, theirs: seq<Occurrence>)
    requires |theirs| != 1 && Carriers(theirs, multiset(a.anchors)) == theirs
    ensures Passing(Elements([a]), Unanswered(theirs)) == if theirs == [] then {a} else {}
    ensures Passing(Elements(theirs), Unanswered([a])) == {}
    ensures ContestedAnchors([a], theirs) == if theirs == [] then {} else {multiset(a.anchors)}
    ensures Passing(Elements([a]), ContestedOver([a], theirs)) == if theirs == [] then {} else {a}
    ensures Passing(Elements(theirs), ContestedOver(theirs, [a])) == Elements(theirs)
  {
    var c := multiset(a.anchors);
    OneCarrier(a, c);
    forall x | x in theirs ensures SameAnchors(a, x) && SameAnchors(x, a) { CarrierIff(theirs, c, x); }
    if theirs != [] { NobodyLeft([a], theirs); }
    NobodyLeft(theirs, [a]);
    forall x | x in theirs ensures multiset(x.anchors) == c && Contested(theirs, [a], c) { }
  }

  lemma NoRelationsNoBlock(v: Bundle, w: Bundle)
    requires v.relations == [] && w.relations == []
    ensures !TallyOf(v, w).relationEndToEnd.measured
  {
  }

  lemma ExactIs(v: Bundle, w: Bundle)
    ensures var t := TallyOf(v, w);
            t.exact == BundleExact(t.detection, t.fieldValue, t.provenance, t.unresolved, t.relationEndToEnd, t.ambiguity.groups)
  {
  }

  /** The local block of a bundle with occurrences is settled by the focus and the predicted
      occurrences on its anchors; nothing else in either bundle matters. */
  lemma FocusCounted(e: Bundle, p: Bundle)
    requires ValidBundle(e) && ValidBundle(p) && e.occurrences != []
    ensures FocusBlock(LocalTally(e, p), FocusOf(e), OnFocus(e, p))
  {
    var a, theirs := FocusOf(e), OnFocus(e, p);
    var v, w := ExpectedView(e), PredictedView(p, KeyOf(a));
    ViewsAreValid(e, p);
    ViewRows(e, p);
    FocusIs(v, w, a, theirs);
  }

  // ----- What one pair adds to each number

  function PairsIn(): BundlePair -> nat { (x: BundlePair) => |Partnered(x.0.occurrences, x.1.occurrences)| }

  function SurplusIn(): BundlePair -> nat {
    (x: BundlePair) => |Passing(Elements(x.1.occurrences), Unanswered(x.0.occurrences))|
  }

  function MissesIn(): BundlePair -> nat {
    (x: BundlePair) => |Passing(Elements(x.0.occurrences), Unanswered(x.1.occurrences))|
  }

  function With(x: BundlePair, test: Pair -> bool): nat { |PartneredWith(x.0.occurrences, x.1.occurrences, test)| }

  function RightValuesIn(): BundlePair -> nat {
    (x: BundlePair) => With(x, SameKind()) + With(x, SameDate()) + With(x, SameNumber())
  }

  function RightSourcesIn(): BundlePair -> nat { (x: BundlePair) => With(x, SameDateSource()) + With(x, SameNumberSource()) }

  function SameMarksIn(): BundlePair -> nat { (x: BundlePair) => With(x, SameMark()) }

  function ContestedIn(): BundlePair -> nat { (x: BundlePair) => |ContestedAnchors(x.0.occurrences, x.1.occurrences)| }

  function SlotsIn(n: nat): BundlePair -> nat { (x: BundlePair) => n * |x.0.occurrences| }

  function MatchedRelationsIn(): BundlePair -> nat { (x: BundlePair) => TallyOf(x.0, x.1).relationEndToEnd.tp }

  function LinkedRelationsIn(): BundlePair -> nat {
    (x: BundlePair) => |Passing(Elements(x.0.relations), Between(FirstIds(x.0.occurrences, x.1.occurrences)))|
  }

  function ExactIn(): BundlePair -> nat { (x: BundlePair) => Tick(TallyOf(x.0, x.1).exact) }

  /** The focus is there, and its only counterpart. */
  predicate FocusMet(x: BundlePair) {
    ValidBundle(x.0) && x.0.occurrences != [] && |OnFocus(x.0, x.1)| == 1
  }

  predicate FocusMissing(x: BundlePair) {
    ValidBundle(x.0) && x.0.occurrences != [] && OnFocus(x.0, x.1) == []
  }

  function FocusMetIn(): BundlePair -> nat { (x: BundlePair) => Tick(FocusMet(x)) }

  function FocusMissingIn(): BundlePair -> nat { (x: BundlePair) => Tick(FocusMissing(x)) }

  function FocusSlotsIn(n: nat): BundlePair -> nat { (x: BundlePair) => if x.0.occurrences == [] then 0 else n }

  function FocusValuesIn(): BundlePair -> nat {
    (x: BundlePair) => if FocusMet(x) then ValuesShared(FocusOf(x.0), OnFocus(x.0, x.1)[0]) else 0
  }

  function FocusSourcesIn(): BundlePair -> nat {
    (x: BundlePair) => if FocusMet(x) then SourcesShared(FocusOf(x.0), OnFocus(x.0, x.1)[0]) else 0
  }

  function FocusExactIn(): BundlePair -> nat {
    (x: BundlePair) =>
      Tick(FocusMet(x) && ValuesShared(FocusOf(x.0), OnFocus(x.0, x.1)[0]) == 3
           && SourcesShared(FocusOf(x.0), OnFocus(x.0, x.1)[0]) == 2
           && FocusOf(x.0).unresolved == OnFocus(x.0, x.1)[0].unresolved)
  }

  /** What the planes of a row are about, for a valid pair. */
  predicate RowCounts(r: Row, x: BundlePair) {
    && CountsValues(r.hybrid.fieldValue, x.0.occurrences, x.1.occurrences)
    && CountsSources(r.hybrid.provenance, x.0.occurrences, x.1.occurrences)
    && CountsMarks(r.hybrid.unresolved, r.hybrid.resolvedWhenUnresolved, x.0.occurrences, x.1.occurrences)
    && CountsDetection(r.hybrid.detection, x.0.occurrences, x.1.occurrences)
    && CountsAmbiguity(r.hybrid.ambiguity, x.0.occurrences, x.1.occurrences)
  }

  lemma RowIsCounted(x: BundlePair)
    requires ValidBundle(x.0) && ValidBundle(x.1)
    ensures RowCounts(RowOf(x), x)
  {
    ValuesCounted(x.0, x.1);
    SourcesCounted(x.0, x.1);
    MarksCounted(x.0, x.1);
    DetectionCounted(x.0, x.1);
    AmbiguityCounted(x.0, x.1);
  }

  /** The row adds these numbers to the counters of the occurrence planes. */
  predicate RowAddsUp(r: Row, x: BundlePair) {
    && r.hybrid.detection == Detection(PairsIn()(x), SurplusIn()(x), MissesIn()(x))
    && Part(FieldsOf())(r) == RightValuesIn()(x) && Whole(FieldsOf())(r) == SlotsIn(3)(x)
    && Part(ProvenanceOf())(r) == RightSourcesIn()(x) && Whole(ProvenanceOf())(r) == SlotsIn(2)(x)
    && Part(UnresolvedOf())(r) == SameMarksIn()(x) && Whole(UnresolvedOf())(r) == PairsIn()(x)
    && GroupsOf()(r) == ContestedIn()(x)
  }

  lemma CountsAddUp(r: Row, x: BundlePair)
    requires RowCounts(r, x)
    ensures RowAddsUp(r, x)
  {
    var E, P := x.0.occurrences, x.1.occurrences;
    if E == [] { assert Partnered(E, P) == {}; }
    if Partnered(E, P) == {} {
      assert forall test :: PartneredWith(E, P, test) == {};
    }
  }

  /** The row adds these numbers to the counters of the relation and exact planes. */
  predicate RowLinksUp(r: Row, x: BundlePair) {
    && RelationTp()(r) == Part(ConditionalOf())(r) == MatchedRelationsIn()(x)
    && Whole(ConditionalOf())(r) == LinkedRelationsIn()(x)
    && RelationFp()(r) + RelationTp()(r) == RelationPredicted()(r) == PredictedRelations()(x)
    && RelationFn()(r) + RelationTp()(r) == RelationExpected()(r) == ExpectedRelations()(x)
    && ExactOf()(r) == ExactIn()(x)
  }

  lemma LinksAddUp(x: BundlePair)
    requires ValidBundle(x.0) && ValidBundle(x.1)
    ensures RowLinksUp(RowOf(x), x)
  {
    RelationsCounted(x.0, x.1);
    LinksFollow(RowOf(x), x);
  }

  lemma LinksFollow(r: Row, x: BundlePair)
    requires r.hybrid == TallyOf(x.0, x.1) && CountsRelations(r.hybrid.relationEndToEnd, x.0, x.1)
    requires CountsLinked(r.hybrid.relationConditional, r.hybrid.extraAmongAligned, r.hybrid.relationEndToEnd.tp, x.0, x.1)
    ensures RowLinksUp(r, x)
  {
  }

  /** The row adds these numbers to the counters of the local plane. */
  predicate RowFocuses(r: Row, x: BundlePair) {
    && r.local.detection == Detection(FocusMetIn()(x), 0, FocusMissingIn()(x))
    && Part(LocalFieldsOf())(r) == FocusValuesIn()(x) && Whole(LocalFieldsOf())(r) == FocusSlotsIn(3)(x)
    && Part(LocalProvenanceOf())(r) == FocusSourcesIn()(x) && Whole(LocalProvenanceOf())(r) == FocusSlotsIn(2)(x)
    && LocalExactOf()(r) == FocusExactIn()(x)
  }

  lemma FocusAddsUp(x: BundlePair)
    requires ValidBundle(x.0) && ValidBundle(x.1)
    ensures RowFocuses(RowOf(x), x)
  {
    if x.0.occurrences != [] {
      FocusCounted(x.0, x.1);
      FocusFollowsUp(RowOf(x), x);
    } else {
      assert RowOf(x).local == EMPTY_TALLY;
    }
  }

  lemma FocusFollowsUp(r: Row, x: BundlePair)
    requires ValidBundle(x.0) && x.0.occurrences != [] && FocusBlock(r.local, FocusOf(x.0), OnFocus(x.0, x.1))
    ensures RowFocuses(r, x)
  {
  }

  // ----- Over all pairs

  lemma {:induction false} SumOfSurplus(f: Row -> nat, g: Row -> nat, h: Row -> nat, rows: seq<Row>)
    requires forall i | 0 <= i < |rows| :: f(rows[i]) + g(rows[i]) == h(rows[i])
    ensures Sum(f, rows) + Sum(g, rows) == Sum(h, rows)
  {
    if rows != [] { SumOfSurplus(f, g, h, rows[..|rows| - 1]); }
  }

  /** A ratio with this numerator and denominator, or none if there is nothing to measure. */
  predicate Shows(r: Ratio, correct: nat, denominator: nat) {
    if denominator != 0 then r == Ratio(correct, denominator, true) else !r.measured && r.correct == r.denominator == 0
  }

  ghost predicate OccurrencePlanes(h: HybridPlane, pairs: seq<BundlePair>) {
    && h.detection == Detection(Sum(PairsIn(), pairs), Sum(SurplusIn(), pairs), Sum(MissesIn(), pairs))
    && Shows(h.fieldValue, Sum(RightValuesIn(), pairs), Sum(SlotsIn(3), pairs))
    && Shows(h.provenance, Sum(RightSourcesIn(), pairs), Sum(SlotsIn(2), pairs))
    && Shows(h.unresolved, Sum(SameMarksIn(), pairs), Sum(PairsIn(), pairs))
    && h.ambiguityGroups == Sum(ContestedIn(), pairs)
  }

  ghost predicate RelationPlanes(h: HybridPlane, pairs: seq<BundlePair>) {
    && h.relationEndToEnd.tp == Sum(MatchedRelationsIn(), pairs)
    && h.relationEndToEnd.tp + h.relationEndToEnd.fp == h.relationEndToEnd.predictedN == Sum(PredictedRelations(), pairs)
    && h.relationEndToEnd.tp + h.relationEndToEnd.fn == h.relationEndToEnd.expectedN == Sum(ExpectedRelations(), pairs)
    && Shows(h.relationConditional, Sum(MatchedRelationsIn(), pairs), Sum(LinkedRelationsIn(), pairs))
    && Shows(h.bundleExact, Sum(ExactIn(), pairs), |pairs|) && h.bundles == |pairs|
  }

  ghost predicate FocusPlanes(l: LocalPlane, pairs: seq<BundlePair>) {
    && l.detection == Detection(Sum(FocusMetIn(), pairs), 0, Sum(FocusMissingIn(), pairs))
    && Shows(l.fieldValue, Sum(FocusValuesIn(), pairs), Sum(FocusSlotsIn(3), pairs))
    && Shows(l.provenance, Sum(FocusSourcesIn(), pairs), Sum(FocusSlotsIn(2), pairs))
    && Shows(l.bundleExact, Sum(FocusExactIn(), pairs), |pairs|) && l.bundles == |pairs|
  }

  lemma OccurrenceSums(rows: seq<Row>, pairs: seq<BundlePair>)
    requires |rows| == |pairs| && forall i | 0 <= i < |rows| :: RowAddsUp(rows[i], pairs[i])
    ensures Sum(Tp(DetectionIn()), rows) == Sum(PairsIn(), pairs)
    ensures Sum(Fp(DetectionIn()), rows) == Sum(SurplusIn(), pairs)
    ensures Sum(Fn(DetectionIn()), rows) == Sum(MissesIn(), pairs)
    ensures Sum(GroupsOf(), rows) == Sum(ContestedIn(), pairs)
  {
    SumPointwise(Tp(DetectionIn()), rows, PairsIn(), pairs);
    SumPointwise(Fp(DetectionIn()), rows, SurplusIn(), pairs);
    SumPointwise(Fn(DetectionIn()), rows, MissesIn(), pairs);
    SumPointwise(GroupsOf(), rows, ContestedIn(), pairs);
  }

  lemma LabelSums(rows: seq<Row>, pairs: seq<BundlePair>)
    requires |rows| == |pairs| && forall i | 0 <= i < |rows| :: RowAddsUp(rows[i], pairs[i])
    ensures Sum(Part(FieldsOf()), rows) == Sum(RightValuesIn(), pairs) && Sum(Whole(FieldsOf()), rows) == Sum(SlotsIn(3), pairs)
    ensures Sum(Part(ProvenanceOf()), rows) == Sum(RightSourcesIn(), pairs)
    ensures Sum(Whole(ProvenanceOf()), rows) == Sum(SlotsIn(2), pairs)
    ensures Sum(Part(UnresolvedOf()), rows) == Sum(SameMarksIn(), pairs) && Sum(Whole(UnresolvedOf()), rows) == Sum(PairsIn(), pairs)
  {
    SumPointwise(Part(FieldsOf()), rows, RightValuesIn(), pairs);
    SumPointwise(Whole(FieldsOf()), rows, SlotsIn(3), pairs);
    SumPointwise(Part(ProvenanceOf()), rows, RightSourcesIn(), pairs);
    SumPointwise(Whole(ProvenanceOf()), rows, SlotsIn(2), pairs);
    SumPointwise(Part(UnresolvedOf()), rows, SameMarksIn(), pairs);
    SumPointwise(Whole(UnresolvedOf()), rows, PairsIn(), pairs);
  }

  lemma RelationSums(rows: seq<Row>, pairs: seq<BundlePair>)
    requires |rows| == |pairs| && forall i | 0 <= i < |rows| :: RowLinksUp(rows[i], pairs[i])
    ensures Sum(RelationTp(), rows) == Sum(Part(ConditionalOf()), rows) == Sum(MatchedRelationsIn(), pairs)
    ensures Sum(Whole(ConditionalOf()), rows) == Sum(LinkedRelationsIn(), pairs)
    ensures Sum(RelationFp(), rows) + Sum(RelationTp(), rows) == Sum(RelationPredicted(), rows) == Sum(PredictedRelations(), pairs)
    ensures Sum(RelationFn(), rows) + Sum(RelationTp(), rows) == Sum(RelationExpected(), rows) == Sum(ExpectedRelations(), pairs)
    ensures Sum(ExactOf(), rows) == Sum(ExactIn(), pairs)
  {
    SumPointwise(RelationTp(), rows, MatchedRelationsIn(), pairs);
    SumPointwise(RelationExpected(), rows, ExpectedRelations(), pairs);
    SumPointwise(RelationPredicted(), rows, PredictedRelations(), pairs);
    SumOfSurplus(RelationFp(), RelationTp(), RelationPredicted(), rows);
    SumOfSurplus(RelationFn(), RelationTp(), RelationExpected(), rows);
    SumPointwise(Part(ConditionalOf()), rows, MatchedRelationsIn(), pairs);
    SumPointwise(Whole(ConditionalOf()), rows, LinkedRelationsIn(), pairs);
    SumPointwise(ExactOf(), rows, ExactIn(), pairs);
  }

  function NoFp(): Row -> nat { (r: Row) => 0 }

  lemma FocusSums(rows: seq<Row>, pairs: seq<BundlePair>)
    requires |rows| == |pairs| && forall i | 0 <= i < |rows| :: RowFocuses(rows[i], pairs[i])
    ensures Sum(Tp(LocalDetectionIn()), rows) == Sum(FocusMetIn(), pairs)
    ensures Sum(Fp(LocalDetectionIn()), rows) == 0
    ensures Sum(Fn(LocalDetectionIn()), rows) == Sum(FocusMissingIn(), pairs)
    ensures Sum(Part(LocalFieldsOf()), rows) == Sum(FocusValuesIn(), pairs)
    ensures Sum(Whole(LocalFieldsOf()), rows) == Sum(FocusSlotsIn(3), pairs)
    ensures Sum(Part(LocalProvenanceOf()), rows) == Sum(FocusSourcesIn(), pairs)
    ensures Sum(Whole(LocalProvenanceOf()), rows) == Sum(FocusSlotsIn(2), pairs)
    ensures Sum(LocalExactOf(), rows) == Sum(FocusExactIn(), pairs)
  {
    SumPointwise(Tp(LocalDetectionIn()), rows, FocusMetIn(), pairs);
    SumPointwise(Fp(LocalDetectionIn()), rows, NoFp(), rows);
    SumOfZeros(NoFp(), rows);
    SumPointwise(Fn(LocalDetectionIn()), rows, FocusMissingIn(), pairs);
    SumPointwise(Part(LocalFieldsOf()), rows, FocusValuesIn(), pairs);
    SumPointwise(Whole(LocalFieldsOf()), rows, FocusSlotsIn(3), pairs);
    SumPointwise(Part(LocalProvenanceOf()), rows, FocusSourcesIn(), pairs);
    SumPointwise(Whole(LocalProvenanceOf()), rows, FocusSlotsIn(2), pairs);
    SumPointwise(LocalExactOf(), rows, FocusExactIn(), pairs);
  }

  lemma OccurrenceTotals(pairs: seq<BundlePair>)
    requires AllValid(pairs)
    ensures OccurrencePlanes(SummaryOf(RowsOf(pairs)).hybrid, pairs)
  {
    var rows := RowsOf(pairs);
    forall i | 0 <= i < |pairs| ensures RowAddsUp(rows[i], pairs[i]) {
      assert pairs[i] in pairs;
      RowIsCounted(pairs[i]);
      CountsAddUp(rows[i], pairs[i]);
    }
    OccurrencesShown(rows, pairs);
  }

  lemma OccurrencesShown(rows: seq<Row>, pairs: seq<BundlePair>)
    requires |rows| == |pairs| && forall i | 0 <= i < |rows| :: RowAddsUp(rows[i], pairs[i])
    ensures OccurrencePlanes(SummaryOf(rows).hybrid, pairs)
  {
    TotalsAreSums(rows);
    OccurrenceSums(rows, pairs);
    LabelSums(rows, pairs);
  }

  lemma RelationTotals(pairs: seq<BundlePair>)
    requires AllValid(pairs)
    ensures RelationPlanes(SummaryOf(RowsOf(pairs)).hybrid, pairs)
  {
    var rows := RowsOf(pairs);
    forall i | 0 <= i < |pairs| ensures RowLinksUp(rows[i], pairs[i]) {
      assert pairs[i] in pairs;
      LinksAddUp(pairs[i]);
    }
    RelationsShown(rows, pairs);
  }

  lemma RelationsShown(rows: seq<Row>, pairs: seq<BundlePair>)
    requires |rows| == |pairs| && forall i | 0 <= i < |rows| :: RowLinksUp(rows[i], pairs[i])
    ensures RelationPlanes(SummaryOf(rows).hybrid, pairs)
  {
    TotalsAreSums(rows);
    RelationSums(rows, pairs);
  }

  lemma FocusTotals(pairs: seq<BundlePair>)
    requires AllValid(pairs)
    ensures FocusPlanes(SummaryOf(RowsOf(pairs)).local, pairs)
  {
    var rows := RowsOf(pairs);
    forall i | 0 <= i < |pairs| ensures RowFocuses(rows[i], pairs[i]) {
      assert pairs[i] in pairs;
      FocusAddsUp(pairs[i]);
    }
    FociShown(rows, pairs);
  }

  lemma FociShown(rows: seq<Row>, pairs: seq<BundlePair>)
    requires |rows| == |pairs| && forall i | 0 <= i < |rows| :: RowFocuses(rows[i], pairs[i])
    ensures FocusPlanes(SummaryOf(rows).local, pairs)
  {
    TotalsAreSums(rows);
    FocusSums(rows, pairs);
  }

  /** Every number of a report over two files that can be evaluated is a sum over the
      matched bundles of pairs of partners, occurrences, relations or foci. */
  lemma ReportCounts(planes: Planes, ids: seq<string>, e: Records, p: Records)
    requires Evaluable(e, p) && Lists(ids, BundleMap(e.bundles).Keys * BundleMap(p.bundles).Keys)
    requires HasPlanes(planes, ids, e, p)
    ensures var pairs := MatchedPairs(ids, e.bundles, p.bundles);
            OccurrencePlanes(planes.hybrid, pairs) && RelationPlanes(planes.hybrid, pairs) && FocusPlanes(planes.local, pairs)
  {
    var pairs := MatchedPairs(ids, e.bundles, p.bundles);
    MatchedValid(ids, e, p);
    OccurrenceTotals(pairs);
    RelationTotals(pairs);
    FocusTotals(pairs);
  }

  // ----- Which bundles are matched

  /** The matched pairs are the pairs of bundles of the two files that have the same id, each
      once, in the order of the ids. */
  lemma MatchedMeans(ids: seq<string>, e: Records, p: Records)
    requires Evaluable(e, p) && Lists(ids, BundleMap(e.bundles).Keys * BundleMap(p.bundles).Keys)
    ensures var pairs := MatchedPairs(ids, e.bundles, p.bundles);
            && |pairs| == |ids|
            && (forall i | 0 <= i < |pairs| :: pairs[i].0.bundleId == ids[i] == pairs[i].1.bundleId)
            && (forall b, c :: (b, c) in pairs <==> b in e.bundles && c in p.bundles && b.bundleId == c.bundleId)
            && Distinct(pairs)
  {
    var pairs := MatchedPairs(ids, e.bundles, p.bundles);
    forall i | 0 <= i < |pairs|
      ensures pairs[i].0.bundleId == ids[i] == pairs[i].1.bundleId && pairs[i].0 in e.bundles && pairs[i].1 in p.bundles
    {
      assert ids[i] in ids;
      MapValueListed(e.bundles, ids[i]);
      MapValueListed(p.bundles, ids[i]);
    }
    forall b, c | b in e.bundles && c in p.bundles && b.bundleId == c.bundleId ensures (b, c) in pairs {
      SameIdIsMatched(ids, e.bundles, p.bundles, b, c);
    }
  }

  lemma SameIdIsMatched(ids: seq<string>, e: seq<Bundle>, p: seq<Bundle>, b: Bundle, c: Bundle)
    requires Distinct(BundleIds(e)) && Distinct(BundleIds(p)) && Lists(ids, BundleMap(e).Keys * BundleMap(p).Keys)
    requires b in e && c in p && b.bundleId == c.bundleId
    ensures (b, c) in MatchedPairs(ids, e, p)
  {
    BundleMapValues(e, b);
    BundleMapValues(p, c);
    assert b.bundleId in BundleMap(e).Keys * BundleMap(p).Keys;
    var i :| 0 <= i < |ids| && ids[i] == b.bundleId;
    assert MatchedPairs(ids, e, p)[i] == (b, c);
  }
}
