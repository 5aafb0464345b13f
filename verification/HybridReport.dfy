/** The evaluation of two records files: local-focus views, summed planes,
    bundle pairing, the metamorphic checks, and the report. */
module HybridReport {
  import opened Sequences
  import opened Orders
  import opened HybridRecords
  import opened HybridTwin
  import opened HybridAlign
  import opened HybridScore

  // ----- The local-focus plane

  /** The first occurrence whose id is the focus. */
  function FirstWithId(rows: seq<Occurrence>, id: string): (o: Occurrence)
    requires id in Ids(rows)
    ensures o in rows && o.id == id
  {
    assert rows != [];
    if rows[0].id == id then rows[0]
    else
      assert forall i | 0 <= i < |rows| - 1 :: Ids(rows[1..])[i] == Ids(rows)[i + 1];
      FirstWithId(rows[1..], id)
  }

  function FocusOf(e: Bundle): Occurrence
    requires ValidBundle(e) && e.occurrences != []
  {
    FirstWithId(e.occurrences, e.focusId)
  }

  /** The expected bundle cut down to its focus. */
  function ExpectedView(e: Bundle): Bundle
    requires ValidBundle(e) && e.occurrences != []
  {
    e.(occurrences := [FocusOf(e)], relations := [])
  }

  /** The predicted bundle cut down to what sits on the focus's anchors. */
  function PredictedView(p: Bundle, k: Key): Bundle {
    var rows := Group(p.occurrences, k);
    var focusId := if rows != [] && p.focusId !in Ids(rows) then rows[0].id else p.focusId;
    p.(occurrences := rows, relations := [], focusId := focusId)
  }

  const EMPTY_TALLY := Tally(
    Detection(0, 0, 0), MeasuredRatio(0, 0), MeasuredRatio(0, 0), EndToEndBlock(0, 0, 0, 0, 0),
    MeasuredRatio(0, 0), 0, MeasuredRatio(0, 0), 0, AmbiguityCounts(0, 0, 0), false)

  function LocalTally(e: Bundle, p: Bundle): Tally
    requires ValidBundle(e)
  {
    if e.occurrences == [] then EMPTY_TALLY
    else TallyOf(ExpectedView(e), PredictedView(p, KeyOf(FocusOf(e))))
  }

  lemma {:induction false} GroupIdsDistinct(rows: seq<Occurrence>, k: Key)
    requires Distinct(Ids(rows))
    ensures Distinct(Ids(Group(rows, k)))
  {
    if rows != [] {
      var front, last := rows[..|rows| - 1], rows[|rows| - 1];
      assert Ids(front) == Ids(rows)[..|rows| - 1];
      GroupIdsDistinct(front, k);
      var g := Group(front, k);
      forall i | 0 <= i < |g| ensures g[i].id != last.id {
        GroupMembers(front, k, g[i]);
        var j :| 0 <= j < |front| && front[j] == g[i];
        assert Ids(rows)[j] != Ids(rows)[|rows| - 1];
      }
    }
  }

  /** The views of two valid bundles are valid, so scoring them never raises. */
  lemma ViewsAreValid(e: Bundle, p: Bundle)
    requires ValidBundle(e) && ValidBundle(p) && e.occurrences != []
    ensures ValidBundle(ExpectedView(e))
    ensures ValidBundle(PredictedView(p, KeyOf(FocusOf(e))))
  {
    var k := KeyOf(FocusOf(e));
    var v := PredictedView(p, k);
    assert Ids(ExpectedView(e).occurrences)[0] == e.focusId;
    GroupIdsDistinct(p.occurrences, k);
    forall o | o in v.occurrences ensures OccurrenceOk(o) { GroupMembers(p.occurrences, k, o); }
    if v.occurrences != [] {
      assert Ids(v.occurrences)[0] == v.occurrences[0].id;
      assert v.occurrences[0] in v.occurrences;
    }
  }

  method LocalFocusBlock(e: Bundle, p: Bundle) returns (r: Tally)
    requires ValidBundle(e) && ValidBundle(p)
    ensures r == LocalTally(e, p)
  {
    if e.occurrences == [] { return EMPTY_TALLY; }
    ViewsAreValid(e, p);
    var pair := ScorePair(ExpectedView(e), PredictedView(p, KeyOf(FocusOf(e))));
    r := pair.value.tally;
  }

  // ----- Summing planes

  datatype Row = Row(hybrid: Tally, local: Tally)

  datatype Counter = Counter(correct: nat, denominator: nat)

  datatype RelationSum = RelationSum(tp: nat, fp: nat, fn: nat, expected: nat, predicted: nat)

  datatype Totals = Totals(
    detection: Detection, fields: Counter, provenance: Counter, unresolved: Counter,
    relations: RelationSum, conditional: Counter, ambiguityGroups: nat, exact: nat,
    localDetection: Detection, localFields: Counter, localProvenance: Counter, localExact: nat)

  const NO_TOTALS := Totals(
    Detection(0, 0, 0), Counter(0, 0), Counter(0, 0), Counter(0, 0),
    RelationSum(0, 0, 0, 0, 0), Counter(0, 0), 0, 0,
    Detection(0, 0, 0), Counter(0, 0), Counter(0, 0), 0)

  function AddDetection(t: Detection, d: Detection): Detection {
    Detection(t.tp + d.tp, t.fp + d.fp, t.fn + d.fn)
  }

  /** A block that was not measured contributes nothing. */
  function AddRatio(t: Counter, r: Ratio): Counter {
    if r.measured then Counter(t.correct + r.correct, t.denominator + r.denominator) else t
  }

  function AddRelations(t: RelationSum, b: EndToEnd): RelationSum {
    RelationSum(t.tp + b.tp, t.fp + b.fp, t.fn + b.fn, t.expected + b.expectedN, t.predicted + b.predictedN)
  }

  function AddRow(t: Totals, row: Row): Totals {
    var h, l := row.hybrid, row.local;
    Totals(
      AddDetection(t.detection, h.detection), AddRatio(t.fields, h.fieldValue), AddRatio(t.provenance, h.provenance),
      AddRatio(t.unresolved, h.unresolved), AddRelations(t.relations, h.relationEndToEnd),
      AddRatio(t.conditional, h.relationConditional), t.ambiguityGroups + h.ambiguity.groups,
      t.exact + (if h.exact then 1 else 0),
      AddDetection(t.localDetection, l.detection), AddRatio(t.localFields, l.fieldValue),
      AddRatio(t.localProvenance, l.provenance), t.localExact + (if l.exact then 1 else 0))
  }

  function TotalsOf(rows: seq<Row>): Totals {
    if rows == [] then NO_TOTALS else AddRow(TotalsOf(rows[..|rows| - 1]), rows[|rows| - 1])
  }

  datatype HybridPlane = HybridPlane(
    detection: Detection, fieldValue: Ratio, provenance: Ratio, relationEndToEnd: EndToEnd,
    relationConditional: Ratio, unresolved: Ratio, ambiguityGroups: nat, bundleExact: Ratio,
    occurrenceExpected: nat, bundles: nat)

  datatype LocalPlane = LocalPlane(
    detection: Detection, fieldValue: Ratio, provenance: Ratio, bundleExact: Ratio, bundles: nat)

  datatype Planes = Planes(hybrid: HybridPlane, local: LocalPlane)

  function RatioOf(c: Counter): Ratio { MeasuredRatio(c.correct, c.denominator) }

  function PlanesOf(t: Totals, bundles: nat): Planes {
    var r := t.relations;
    Planes(
      HybridPlane(
        t.detection, RatioOf(t.fields), RatioOf(t.provenance),
        EndToEndBlock(r.tp, r.fp, r.fn, r.expected, r.predicted),
        RatioOf(t.conditional), RatioOf(t.unresolved), t.ambiguityGroups, MeasuredRatio(t.exact, bundles),
        t.fields.denominator / |SLOTS|, bundles),
      LocalPlane(
        t.localDetection, RatioOf(t.localFields), RatioOf(t.localProvenance),
        MeasuredRatio(t.localExact, bundles), bundles))
  }

  function SummaryOf(rows: seq<Row>): Planes { PlanesOf(TotalsOf(rows), |rows|) }

  method Summarize(rows: seq<Row>) returns (r: Planes)
    ensures r == SummaryOf(rows)
  {
    var t := NO_TOTALS;
    for i := 0 to |rows|
      invariant t == TotalsOf(rows[..i])
    {
      PrefixStep(rows, i);
      t := AddRow(t, rows[i]);
    }
    assert rows[..|rows|] == rows;
    r := PlanesOf(t, |rows|);
  }

  function Part(f: Row -> Ratio): Row -> nat { (r: Row) => if f(r).measured then f(r).correct else 0 }
  function Whole(f: Row -> Ratio): Row -> nat { (r: Row) => if f(r).measured then f(r).denominator else 0 }

  /** A counter holds the sums of one ratio over the rows that measure it. */
  predicate SumsUp(c: Counter, f: Row -> Ratio, rows: seq<Row>) {
    c.correct == Sum(Part(f), rows) && c.denominator == Sum(Whole(f), rows)
  }

  function Tp(f: Row -> Detection): Row -> nat { (r: Row) => f(r).tp }
  function Fp(f: Row -> Detection): Row -> nat { (r: Row) => f(r).fp }
  function Fn(f: Row -> Detection): Row -> nat { (r: Row) => f(r).fn }

  /** Each number of a detection block is summed for itself. */
  predicate DetectionSumsUp(d: Detection, f: Row -> Detection, rows: seq<Row>) {
    d.tp == Sum(Tp(f), rows) && d.fp == Sum(Fp(f), rows) && d.fn == Sum(Fn(f), rows)
  }

  function DetectionIn(): Row -> Detection { (r: Row) => r.hybrid.detection }
  function LocalDetectionIn(): Row -> Detection { (r: Row) => r.local.detection }
  function RelationTp(): Row -> nat { (r: Row) => r.hybrid.relationEndToEnd.tp }
  function RelationFp(): Row -> nat { (r: Row) => r.hybrid.relationEndToEnd.fp }
  function RelationFn(): Row -> nat { (r: Row) => r.hybrid.relationEndToEnd.fn }
  function RelationExpected(): Row -> nat { (r: Row) => r.hybrid.relationEndToEnd.expectedN }
  function RelationPredicted(): Row -> nat { (r: Row) => r.hybrid.relationEndToEnd.predictedN }
  function GroupsOf(): Row -> nat { (r: Row) => r.hybrid.ambiguity.groups }

  predicate RelationsSumUp(t: RelationSum, rows: seq<Row>) {
    && t.tp == Sum(RelationTp(), rows) && t.fp == Sum(RelationFp(), rows) && t.fn == Sum(RelationFn(), rows)
    && t.expected == Sum(RelationExpected(), rows) && t.predicted == Sum(RelationPredicted(), rows)
  }

  function FieldsOf(): Row -> Ratio { (r: Row) => r.hybrid.fieldValue }
  function ProvenanceOf(): Row -> Ratio { (r: Row) => r.hybrid.provenance }
  function UnresolvedOf(): Row -> Ratio { (r: Row) => r.hybrid.unresolved }
  function ConditionalOf(): Row -> Ratio { (r: Row) => r.hybrid.relationConditional }
  function LocalFieldsOf(): Row -> Ratio { (r: Row) => r.local.fieldValue }
  function LocalProvenanceOf(): Row -> Ratio { (r: Row) => r.local.provenance }
  function ExactOf(): Row -> nat { (r: Row) => if r.hybrid.exact then 1 else 0 }
  function LocalExactOf(): Row -> nat { (r: Row) => if r.local.exact then 1 else 0 }

  /** Every counter sums its own number over the rows, and the exact counters count rows. */
  predicate TotalsSumUp(t: Totals, rows: seq<Row>) {
    && DetectionSumsUp(t.detection, DetectionIn(), rows) && DetectionSumsUp(t.localDetection, LocalDetectionIn(), rows)
    && RelationsSumUp(t.relations, rows) && t.ambiguityGroups == Sum(GroupsOf(), rows)
    && SumsUp(t.fields, FieldsOf(), rows) && SumsUp(t.provenance, ProvenanceOf(), rows)
    && SumsUp(t.unresolved, UnresolvedOf(), rows) && SumsUp(t.conditional, ConditionalOf(), rows)
    && SumsUp(t.localFields, LocalFieldsOf(), rows) && SumsUp(t.localProvenance, LocalProvenanceOf(), rows)
    && t.exact == Sum(ExactOf(), rows) && t.localExact == Sum(LocalExactOf(), rows)
  }

  lemma {:induction false} TotalsAreSums(rows: seq<Row>)
    ensures TotalsSumUp(TotalsOf(rows), rows)
  {
    if rows != [] { TotalsAreSums(rows[..|rows| - 1]); }
  }

  // ----- Pairing bundles

  function BundleId(): Bundle -> string { (b: Bundle) => b.bundleId }

  function BundleIds(bundles: seq<Bundle>): seq<string> { Map(BundleId(), bundles) }

  /** The bundle of each id; meaningful when ids are unique. */
  function BundleMap(bundles: seq<Bundle>): map<string, Bundle> {
    if bundles == [] then map[]
    else
      var last := bundles[|bundles| - 1];
      BundleMap(bundles[..|bundles| - 1])[last.bundleId := last]
  }

  lemma {:induction false} BundleMapKeys(bundles: seq<Bundle>)
    ensures forall id :: id in BundleMap(bundles) <==> id in BundleIds(bundles)
  {
    if bundles != [] {
      var front := bundles[..|bundles| - 1];
      BundleMapKeys(front);
      assert BundleIds(bundles) == BundleIds(front) + [bundles[|bundles| - 1].bundleId];
    }
  }

  lemma {:induction false} BundleMapValues(bundles: seq<Bundle>, b: Bundle)
    requires Distinct(BundleIds(bundles))
    ensures b in bundles <==> b.bundleId in BundleMap(bundles) && BundleMap(bundles)[b.bundleId] == b
  {
    if bundles != [] {
      var front, last := bundles[..|bundles| - 1], bundles[|bundles| - 1];
      assert BundleIds(bundles) == BundleIds(front) + [last.bundleId];
      BundleMapValues(front, b);
      assert bundles == front + [last];
      if b in front {
        var i :| 0 <= i < |front| && front[i] == b;
        assert BundleIds(bundles)[i] == b.bundleId;
      }
    }
  }

  method BundlesById(bundles: seq<Bundle>) returns (r: Result<map<string, Bundle>, Diagnostic>)
    ensures r.Ok? <==> Distinct(BundleIds(bundles))
    ensures r.Ok? ==> r.value == BundleMap(bundles)
    ensures r.Err? ==> r.error == DuplicateBundleId
  {
    var byId: map<string, Bundle> := map[];
    for i := 0 to |bundles|
      invariant byId == BundleMap(bundles[..i])
      invariant Distinct(BundleIds(bundles)[..i])
    {
      PrefixStep(bundles, i);
      BundleMapKeys(bundles[..i]);
      assert BundleIds(bundles[..i]) == BundleIds(bundles)[..i];
      var b := bundles[i];
      assert BundleIds(bundles)[i] == b.bundleId;
      if b.bundleId in byId {
        assert exists k :: 0 <= k < i && BundleIds(bundles)[k] == b.bundleId;
        return Err(DuplicateBundleId);
      }
      byId := byId[b.bundleId := b];
      assert BundleIds(bundles)[..i + 1] == BundleIds(bundles)[..i] + [b.bundleId];
    }
    assert bundles[..|bundles|] == bundles && BundleIds(bundles)[..|bundles|] == BundleIds(bundles);
    return Ok(byId);
  }

  datatype BundleAlignment = BundleAlignment(
    matched: seq<string>, expectedOnly: seq<string>, predictedOnly: seq<string>,
    expectedBundles: nat, predictedBundles: nat)

  /** A list is the sorted list of a set. */
  ghost predicate Lists(s: seq<string>, ids: set<string>) {
    StrictlySorted(StringLe(), s) && forall id :: id in s <==> id in ids
  }

  ghost predicate PairsUp(a: BundleAlignment, e: seq<Bundle>, p: seq<Bundle>) {
    var E, P := BundleMap(e).Keys, BundleMap(p).Keys;
    && Lists(a.matched, E * P) && Lists(a.expectedOnly, E - P) && Lists(a.predictedOnly, P - E)
    && a.expectedBundles == |e| && a.predictedBundles == |p|
  }

  lemma MapSize(bundles: seq<Bundle>)
    requires Distinct(BundleIds(bundles))
    ensures |BundleMap(bundles)| == |bundles|
  {
    DistinctCardinality(BundleIds(bundles));
    BundleMapKeys(bundles);
    assert BundleMap(bundles).Keys == set id | id in BundleIds(bundles);
  }

  method PairBundles(e: seq<Bundle>, p: seq<Bundle>)
    returns (r: Result<(seq<(Bundle, Bundle)>, BundleAlignment), Diagnostic>)
    ensures r.Ok? <==> Distinct(BundleIds(e)) && Distinct(BundleIds(p))
    ensures r.Ok? ==>
              && PairsUp(r.value.1, e, p)
              && r.value.0 == MatchedPairs(r.value.1.matched, e, p)
    ensures r.Err? ==> r.error == DuplicateBundleId
  {
    var eBy := BundlesById(e);
    if eBy.Err? { return Err(eBy.error); }
    var pBy := BundlesById(p);
    if pBy.Err? { return Err(pBy.error); }
    var E, P := eBy.value, pBy.value;
    StringOrder();
    MapSize(e);
    MapSize(p);
    var matched := SortSet(StringLe(), E.Keys * P.Keys);
    var expectedOnly := SortSet(StringLe(), E.Keys - P.Keys);
    var predictedOnly := SortSet(StringLe(), P.Keys - E.Keys);
    return Ok((MatchedPairs(matched, e, p), BundleAlignment(matched, expectedOnly, predictedOnly, |E|, |P|)));
  }

  /** The bundle pairs of the matched ids, in their order. */
  function MatchedPairs(ids: seq<string>, e: seq<Bundle>, p: seq<Bundle>): seq<(Bundle, Bundle)>
    requires forall id | id in ids :: id in BundleMap(e) && id in BundleMap(p)
  {
    seq(|ids|, i requires 0 <= i < |ids| => (BundleMap(e)[ids[i]], BundleMap(p)[ids[i]]))
  }

  // ----- The metamorphic checks

  datatype PropertyStatus = Passed | Failed | NotMeasured

  datatype PropertyRow = PropertyRow(status: PropertyStatus, correct: nat, denominator: nat)

  function PropertyRowOf(correct: nat, denominator: nat): PropertyRow {
    var r := MeasuredRatio(correct, denominator);
    var status := if !r.measured then NotMeasured else if correct == denominator then Passed else Failed;
    PropertyRow(status, r.correct, r.denominator)
  }

  /** A pair with occurrences on both sides; only these are checked. */
  predicate Checkable(x: (Bundle, Bundle)) { x.0.occurrences != [] && x.1.occurrences != [] }

  function CheckableFlag(): ((Bundle, Bundle)) -> nat { (x: (Bundle, Bundle)) => if Checkable(x) then 1 else 0 }

  /** What a property row says when the property holds on every checked pair. */
  function AllCorrect(matched: seq<(Bundle, Bundle)>): PropertyRow {
    PropertyRowOf(Sum(CheckableFlag(), matched), Sum(CheckableFlag(), matched))
  }

  function Reverse<T>(s: seq<T>): seq<T> {
    if s == [] then [] else Reverse(s[1..]) + [s[0]]
  }

  lemma {:induction false} ReverseMultiset<T>(s: seq<T>)
    ensures multiset(Reverse(s)) == multiset(s)
  {
    if s != [] {
      ReverseMultiset(s[1..]);
      assert s == [s[0]] + s[1..];
    }
  }

  /** Reverses the predicted records and compares alignment signatures: always passes. */
  method OrderProperty(matched: seq<(Bundle, Bundle)>) returns (row: PropertyRow)
    ensures row == AllCorrect(matched)
  {
    var measured, correct := 0, 0;
    for i := 0 to |matched|
      invariant measured == correct == Sum(CheckableFlag(), matched[..i])
    {
      SumStep(CheckableFlag(), matched, i);
      if Checkable(matched[i]) {
        measured := measured + 1;
        var e, p := matched[i].0.occurrences, matched[i].1.occurrences;
        var before := Align(e, p);
        var after := Align(e, Reverse(p));
        ReverseMultiset(p);
        SignatureIgnoresOrder(e, p, e, Reverse(p));
        if SignatureOf(before) == SignatureOf(after) { correct := correct + 1; }
      }
    }
    assert matched[..|matched|] == matched;
    row := PropertyRowOf(correct, measured);
  }

  function Relabel(value: Json): Occurrence -> Occurrence {
    (o: Occurrence) => o.(fields := Fields(
      o.fields.kind.(value := value), o.fields.date.(value := value), o.fields.number.(value := value)))
  }

  /** Replaces every predicted label by a sentinel and compares signatures: always passes. */
  method LabelProperty(matched: seq<(Bundle, Bundle)>) returns (row: PropertyRow)
    ensures row == AllCorrect(matched)
  {
    var sentinel := Str("m207-metamorphic-sentinel");
    var measured, correct := 0, 0;
    for i := 0 to |matched|
      invariant measured == correct == Sum(CheckableFlag(), matched[..i])
    {
      SumStep(CheckableFlag(), matched, i);
      if Checkable(matched[i]) {
        measured := measured + 1;
        var e, p := matched[i].0.occurrences, matched[i].1.occurrences;
        var mutated := Map(Relabel(sentinel), p);
        var before := Align(e, p);
        var after := Align(e, mutated);
        LabelsDoNotDriveMatching(e, p, e, mutated);
        if SignatureOf(before) == SignatureOf(after) { correct := correct + 1; }
      }
    }
    assert matched[..|matched|] == matched;
    row := PropertyRowOf(correct, measured);
  }

  /** Scores an emptied bundle against itself: it is not measured and not exact. */
  method EmptyProperty(template: Bundle) returns (row: PropertyRow)
    requires ValidBundle(template)
    ensures row == PropertyRow(Passed, 1, 1)
  {
    var ratio := MeasuredRatio(0, 0);
    var empty := template.(occurrences := [], relations := []);
    assert Ids(empty.occurrences) == [] && Map(RelationId(), empty.relations) == [];
    var block := LocalFocusBlock(empty, empty);
    var correct := 0;
    if !ratio.measured && !block.exact && !block.fieldValue.measured { correct := 1; }
    row := PropertyRowOf(correct, 1);
  }

  const TWIN_SUFFIX := "-metamorphic-duplicate"

  /** An accepted file whose first bundle has an occurrence to copy. */
  predicate Copyable(example: Records) {
    && WellFormed(example)
    && example.bundles != [] && example.bundles[0].occurrences != []
    && example.bundles[0].occurrences[0].id + TWIN_SUFFIX !in Ids(example.bundles[0].occurrences)
  }

  /** Copies an occurrence under a new id and validates: the validator reports the
      duplicate key and nothing else. */
  method DuplicateProperty(example: Records) returns (row: PropertyRow)
    requires Copyable(example)
    ensures row == PropertyRow(Passed, 1, 1)
  {
    var id := example.bundles[0].occurrences[0].id + TWIN_SUFFIX;
    DuplicateKeyIsCaught(example, 0, 0, id);
    var report := ValidateRecords(WithTwin(example, 0, 0, id));
    var correct := 0;
    if report.Err? && report.error == AmbiguousDuplicate { correct := 1; }
    row := PropertyRowOf(correct, 1);
  }

  // ----- The report

  datatype ReportStatus = StatusOk | StatusUnstable

  datatype Report = Report(
    planes: Planes, alignment: BundleAlignment, properties: seq<PropertyRow>, status: ReportStatus)

  /** A failed property makes the report unstable. */
  function EvalStatus(properties: seq<PropertyRow>): ReportStatus {
    if exists row | row in properties :: row.status == Failed then StatusUnstable else StatusOk
  }

  predicate AllValid(pairs: seq<(Bundle, Bundle)>) {
    forall x | x in pairs :: ValidBundle(x.0) && ValidBundle(x.1)
  }

  function RowOf(x: (Bundle, Bundle)): Row
    requires ValidBundle(x.0)
  {
    Row(TallyOf(x.0, x.1), LocalTally(x.0, x.1))
  }

  function RowsOf(pairs: seq<(Bundle, Bundle)>): seq<Row>
    requires AllValid(pairs)
  {
    seq(|pairs|, i requires 0 <= i < |pairs| => RowOf(pairs[i]))
  }

  /** Both files can be evaluated. */
  predicate Evaluable(e: Records, p: Records) {
    && WellFormed(e) && WellFormed(p)
    && Distinct(BundleIds(e.bundles)) && Distinct(BundleIds(p.bundles))
  }

  /** The planes that two files call for. */
  ghost predicate HasPlanes(planes: Planes, ids: seq<string>, e: Records, p: Records)
    requires WellFormed(e) && WellFormed(p) && Distinct(BundleIds(e.bundles)) && Distinct(BundleIds(p.bundles))
    requires Lists(ids, BundleMap(e.bundles).Keys * BundleMap(p.bundles).Keys)
  {
    MatchedValid(ids, e, p);
    planes == SummaryOf(RowsOf(MatchedPairs(ids, e.bundles, p.bundles)))
  }

  lemma MatchedValid(ids: seq<string>, e: Records, p: Records)
    requires WellFormed(e) && WellFormed(p) && Distinct(BundleIds(e.bundles)) && Distinct(BundleIds(p.bundles))
    requires forall id | id in ids :: id in BundleMap(e.bundles) && id in BundleMap(p.bundles)
    ensures AllValid(MatchedPairs(ids, e.bundles, p.bundles))
    ensures forall x | x in MatchedPairs(ids, e.bundles, p.bundles) ::
              && x.0 in e.bundles && x.1 in p.bundles
              && BundleOk(e.documents, x.0) && BundleOk(p.documents, x.1)
  {
    var pairs := MatchedPairs(ids, e.bundles, p.bundles);
    forall i | 0 <= i < |pairs|
      ensures pairs[i].0 in e.bundles && pairs[i].1 in p.bundles
    {
      assert ids[i] in ids;
      MapValueListed(e.bundles, ids[i]);
      MapValueListed(p.bundles, ids[i]);
    }
  }

  lemma {:induction false} MapValueListed(bundles: seq<Bundle>, id: string)
    requires id in BundleMap(bundles)
    ensures BundleMap(bundles)[id] in bundles && BundleMap(bundles)[id].bundleId == id
  {
    var front, last := bundles[..|bundles| - 1], bundles[|bundles| - 1];
    assert bundles == front + [last];
    if id != last.bundleId { MapValueListed(front, id); }
  }

  method ScoreRow(pairs: seq<(Bundle, Bundle)>, i: nat) returns (row: Row)
    requires AllValid(pairs) && i < |pairs|
    ensures row == RowsOf(pairs)[i]
  {
    var x := pairs[i];
    assert x in pairs;
    var hybrid := ScorePair(x.0, x.1);
    var local := LocalFocusBlock(x.0, x.1);
    row := Row(hybrid.value.tally, local);
  }

  method ScoreRows(pairs: seq<(Bundle, Bundle)>) returns (rows: seq<Row>)
    requires AllValid(pairs)
    ensures rows == RowsOf(pairs)
  {
    rows := [];
    ghost var all := RowsOf(pairs);
    for i := 0 to |pairs|
      invariant rows == all[..i]
    {
      var row := ScoreRow(pairs, i);
      PrefixStep(all, i);
      rows := rows + [row];
    }
    assert all[..|all|] == all;
  }

  /** What the four metamorphic rows say: order and labels over the pairs that have
      occurrences on both sides, the empty bundle and the duplicate once each. */
  predicate HasProperties(rows: seq<PropertyRow>, pairs: seq<(Bundle, Bundle)>) {
    rows == [AllCorrect(pairs), AllCorrect(pairs), PropertyRow(Passed, 1, 1), PropertyRow(Passed, 1, 1)]
  }

  /** A property over pairs is passed, on all of them, unless there is no pair to check. */
  lemma CheckedPairs(pairs: seq<(Bundle, Bundle)>)
    ensures var row, n := AllCorrect(pairs), Sum(CheckableFlag(), pairs);
            && row.correct == row.denominator == n
            && row.status == (if exists x :: x in pairs && Checkable(x) then Passed else NotMeasured)
  {
    if x :| x in pairs && Checkable(x) {
      SumReached(CheckableFlag(), pairs, x);
    } else {
      SumOfZeros(CheckableFlag(), pairs);
    }
  }

  method RunProperties(pairs: seq<(Bundle, Bundle)>, example: Records) returns (rows: seq<PropertyRow>)
    requires AllValid(pairs) && Copyable(example)
    ensures HasProperties(rows, pairs)
    ensures EvalStatus(rows) == StatusOk
  {
    var order := OrderProperty(pairs);
    var labels := LabelProperty(pairs);
    assert example.bundles[0] in example.bundles && BundleOk(example.documents, example.bundles[0]);
    var template := example.bundles[0];
    var i := 0;
    while i < |pairs| && pairs[i].0.occurrences == []
      invariant 0 <= i <= |pairs|
    {
      i := i + 1;
    }
    if i < |pairs| {
      assert pairs[i] in pairs;
      template := pairs[i].0;
    }
    var empty := EmptyProperty(template);
    var duplicate := DuplicateProperty(example);
    rows := [order, labels, empty, duplicate];
  }

  /** Evaluates two files. Scoring never fails on accepted files, and no
      metamorphic property ever does: the status is never unstable. */
  method EvaluateRecords(e: Records, p: Records, example: Records) returns (r: Result<Report, Diagnostic>)
    requires Copyable(example)
    ensures r.Ok? <==> Evaluable(e, p)
    ensures r.Ok? ==>
              && PairsUp(r.value.alignment, e.bundles, p.bundles)
              && HasPlanes(r.value.planes, r.value.alignment.matched, e, p)
              && HasProperties(r.value.properties, MatchedPairs(r.value.alignment.matched, e.bundles, p.bundles))
              && r.value.status == StatusOk
    ensures r.Err? && r.error != DuplicateBundleId ==> Defect(e, r.error) || (WellFormed(e) && Defect(p, r.error))
    ensures r.Err? && r.error == DuplicateBundleId ==> WellFormed(e) && WellFormed(p)
  {
    var validE := ValidateRecords(e);
    if validE.Err? { return Err(validE.error); }
    var validP := ValidateRecords(p);
    if validP.Err? { return Err(validP.error); }
    var paired := PairBundles(e.bundles, p.bundles);
    if paired.Err? { return Err(paired.error); }
    var (pairs, alignment) := paired.value;
    MatchedValid(alignment.matched, e, p);
    var rows := ScoreRows(pairs);
    var properties := RunProperties(pairs, example);
    var planes := Summarize(rows);
    return Ok(Report(planes, alignment, properties, EvalStatus(properties)));
  }
}
