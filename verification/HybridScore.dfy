/** The score of one bundle pair: detection, field, provenance, relation,
    unresolved and ambiguity counts, and the exact-bundle verdict. */
module HybridScore {
  import opened Sequences
  import opened HybridRecords
  import opened HybridAlign

  // ----- Blocks

  datatype Detection = Detection(tp: nat, fp: nat, fn: nat)

  /** A ratio; with a zero denominator it is not measured. */
  datatype Ratio = Ratio(correct: nat, denominator: nat, measured: bool)

  function MeasuredRatio(correct: nat, denominator: nat): Ratio {
    if denominator == 0 then Ratio(0, 0, false) else Ratio(correct, denominator, true)
  }

  datatype EndToEnd = EndToEnd(tp: nat, fp: nat, fn: nat, expectedN: nat, predictedN: nat, measured: bool)

  function EndToEndBlock(tp: nat, fp: nat, fn: nat, expectedN: nat, predictedN: nat): EndToEnd {
    if expectedN == 0 && predictedN == 0 then EndToEnd(0, 0, 0, 0, 0, false)
    else EndToEnd(tp, fp, fn, expectedN, predictedN, true)
  }

  datatype AmbiguityCounts = AmbiguityCounts(groups: nat, expectedOccurrences: nat, predictedOccurrences: nat)

  datatype Tally = Tally(
    detection: Detection, fieldValue: Ratio, provenance: Ratio,
    relationEndToEnd: EndToEnd, relationConditional: Ratio, extraAmongAligned: nat,
    unresolved: Ratio, resolvedWhenUnresolved: nat,
    ambiguity: AmbiguityCounts, exact: bool)

  datatype PairScore = PairScore(tally: Tally, alignment: Alignment)

  // ----- Fields and sources

  datatype SlotName = Kind | Date | Number

  const SLOTS := [Kind, Date, Number]
  const SOURCE_SLOTS := [Date, Number]

  function SlotOf(o: Occurrence, s: SlotName): Slot {
    match s
    case Kind => o.fields.kind
    case Date => o.fields.date
    case Number => o.fields.number
  }

  type Comparer = (Occurrence, Occurrence, SlotName) -> bool

  function SlotMatch(): Comparer { (e: Occurrence, p: Occurrence, s: SlotName) => SlotOf(e, s).value == SlotOf(p, s).value }

  function SourceMatch(): Comparer { (e: Occurrence, p: Occurrence, s: SlotName) => SlotOf(e, s).source == SlotOf(p, s).source }

  /** The predicted partner of an expected id; a later pair overrides an earlier one. */
  function ById(unique: seq<Pair>): map<string, Occurrence> {
    if unique == [] then map[]
    else
      var last := unique[|unique| - 1];
      ById(unique[..|unique| - 1])[last.0.id := last.1]
  }

  function SlotsRight(same: Comparer, e: Occurrence, p: Occurrence): SlotName -> nat {
    (s: SlotName) => if same(e, p, s) then 1 else 0
  }

  /** How many of the slots of an expected occurrence its partner gets right. */
  function CorrectSlots(same: Comparer, slots: seq<SlotName>, byId: map<string, Occurrence>): Occurrence -> nat {
    (e: Occurrence) => if e.id in byId then Sum(SlotsRight(same, e, byId[e.id]), slots) else 0
  }

  method ScoreFields(expected: seq<Occurrence>, unique: seq<Pair>, same: Comparer, slots: seq<SlotName>)
    returns (r: Ratio)
    ensures r == MeasuredRatio(Sum(CorrectSlots(same, slots, ById(unique)), expected), |expected| * |slots|)
  {
    var byId := ById(unique);
    ghost var f := CorrectSlots(same, slots, byId);
    var correct: nat := 0;
    for i := 0 to |expected|
      invariant correct == Sum(f, expected[..i])
    {
      var item := expected[i];
      SumStep(f, expected, i);
      var before := correct;
      for j := 0 to |slots|
        invariant correct == before + if item.id in byId then Sum(SlotsRight(same, item, byId[item.id]), slots[..j]) else 0
      {
        if item.id in byId {
          SumStep(SlotsRight(same, item, byId[item.id]), slots, j);
          if same(item, byId[item.id], slots[j]) { correct := correct + 1; }
        }
      }
      assert slots[..|slots|] == slots;
    }
    assert expected[..|expected|] == expected;
    r := MeasuredRatio(correct, |expected| * |slots|);
  }

  // ----- Relations

  type Triple = (string, string, string)

  function TripleOf(): Relation -> Triple { (r: Relation) => (r.rel, r.source, r.target) }

  function Triples(rels: seq<Relation>): seq<Triple> { Map(TripleOf(), rels) }

  function IdMap(unique: seq<Pair>): map<string, string> {
    var byId := ById(unique);
    map id | id in byId :: byId[id].id
  }

  predicate Mapped(m: map<string, string>, r: Relation) {
    r.source in m && r.target in m
  }

  /** The expected relations whose two endpoints are aligned. */
  function Eligible(m: map<string, string>, rels: seq<Relation>): seq<Relation> {
    if rels == [] then []
    else Eligible(m, rels[..|rels| - 1]) + if Mapped(m, rels[|rels| - 1]) then [rels[|rels| - 1]] else []
  }

  function Rename(m: map<string, string>, id: string): string { if id in m then m[id] else id }

  function Carry(m: map<string, string>): Relation -> Triple {
    (r: Relation) => (r.rel, Rename(m, r.source), Rename(m, r.target))
  }

  /** The eligible relations as triples over predicted ids. */
  function Carried(m: map<string, string>, rels: seq<Relation>): seq<Triple> {
    Map(Carry(m), Eligible(m, rels))
  }

  lemma IntersectionBound<T>(a: multiset<T>, b: multiset<T>)
    ensures |a * b| <= |a| && |a * b| <= |b|
    ensures |a * b| == |b * a|
    ensures |b - a| == |b| - |a * b|
  {
    assert a == (a * b) + (a - b);
    assert b == (a * b) + (b - a);
    assert a * b == b * a;
  }

  /** The number of relation matches: the multiset intersection counts every
      triple min(carried, predicted) times. */
  function Matches(m: map<string, string>, expected: seq<Relation>, predicted: seq<Relation>): (n: nat)
    ensures n <= |Eligible(m, expected)| && n <= |predicted|
  {
    var a, b := multiset(Carried(m, expected)), multiset(Triples(predicted));
    IntersectionBound(a, b);
    assert |a| == |Eligible(m, expected)| && |b| == |predicted|;
    |a * b|
  }

  predicate Aligned(ids: set<string>, t: Triple) {
    t.1 in ids && t.2 in ids
  }

  /** The predicted triples whose two endpoints are aligned. */
  function AlignedTriples(ids: set<string>, rels: seq<Relation>): seq<Triple> {
    if rels == [] then []
    else
      var t := TripleOf()(rels[|rels| - 1]);
      AlignedTriples(ids, rels[..|rels| - 1]) + if Aligned(ids, t) then [t] else []
  }

  lemma {:induction false} EligibleSize(m: map<string, string>, rels: seq<Relation>)
    ensures |Eligible(m, rels)| <= |rels|
  {
    if rels != [] { EligibleSize(m, rels[..|rels| - 1]); }
  }

  lemma {:induction false} EligibleMember(m: map<string, string>, rels: seq<Relation>, r: Relation)
    ensures multiset(Eligible(m, rels))[r] == if Mapped(m, r) then multiset(rels)[r] else 0
  {
    if rels != [] {
      LastSplit(rels);
      EligibleMember(m, rels[..|rels| - 1], r);
    }
  }

  lemma CarriedAligned(m: map<string, string>, rels: seq<Relation>, t: Triple)
    requires t in multiset(Carried(m, rels))
    ensures Aligned(m.Values, t)
  {
    var i :| 0 <= i < |Carried(m, rels)| && Carried(m, rels)[i] == t;
    var r := Eligible(m, rels)[i];
    EligibleMember(m, rels, r);
    assert r in multiset(Eligible(m, rels));
    assert m[r.source] in m.Values && m[r.target] in m.Values;
  }

  lemma {:induction false} AlignedTriplesCount(ids: set<string>, rels: seq<Relation>, t: Triple)
    ensures multiset(AlignedTriples(ids, rels))[t] == if Aligned(ids, t) then multiset(Triples(rels))[t] else 0
  {
    if rels != [] {
      LastSplit(rels);
      AlignedTriplesCount(ids, rels[..|rels| - 1], t);
      assert Triples(rels) == Triples(rels[..|rels| - 1]) + [TripleOf()(rels[|rels| - 1])];
    }
  }

  /** What matches is aligned, so the surplus among aligned endpoints is a difference. */
  lemma AlignedSurplus(m: map<string, string>, expected: seq<Relation>, predicted: seq<Relation>)
    ensures var a := multiset(Carried(m, expected));
            var b := multiset(AlignedTriples(m.Values, predicted));
            a * multiset(Triples(predicted)) == a * b && |b - a| == |b| - Matches(m, expected, predicted)
  {
    var a, b := multiset(Carried(m, expected)), multiset(AlignedTriples(m.Values, predicted));
    var all := multiset(Triples(predicted));
    forall t ensures (a * all)[t] == (a * b)[t] {
      AlignedTriplesCount(m.Values, predicted, t);
      if t in a { CarriedAligned(m, expected, t); }
    }
    IntersectionBound(a, b);
  }

  function Surplus(m: map<string, string>, expected: seq<Relation>, predicted: seq<Relation>): nat {
    AlignedSurplus(m, expected, predicted);
    |AlignedTriples(m.Values, predicted)| - Matches(m, expected, predicted)
  }

  ghost predicate Represents(counts: map<Triple, nat>, s: multiset<Triple>) {
    forall t :: s[t] == if t in counts then counts[t] else 0
  }

  method CountTriples(rels: seq<Relation>) returns (counts: map<Triple, nat>)
    ensures Represents(counts, multiset(Triples(rels)))
  {
    counts := map[];
    for i := 0 to |rels|
      invariant Represents(counts, multiset(Triples(rels)[..i]))
    {
      var key := TripleOf()(rels[i]);
      assert Triples(rels)[i] == key;
      PrefixStep(Triples(rels), i);
      counts := counts[key := (if key in counts then counts[key] else 0) + 1];
    }
    assert Triples(rels)[..|rels|] == Triples(rels);
  }

  /** sum(counts.values()). */
  method Total(counts: map<Triple, nat>, ghost s: multiset<Triple>) returns (n: nat)
    requires Represents(counts, s)
    ensures n == |s|
  {
    n := 0;
    var todo := counts.Keys;
    ghost var left := s;
    while todo != {}
      invariant todo <= counts.Keys
      invariant forall t :: left[t] == if t in todo then counts[t] else 0
      invariant n + |left| == |s|
    {
      var t :| t in todo;
      n := n + counts[t];
      todo := todo - {t};
      left := left[t := 0];
    }
    assert left == multiset{};
  }

  lemma TakeOne(counts: map<Triple, nat>, a: multiset<Triple>, b: multiset<Triple>, key: Triple)
    requires Represents(counts, b - a)
    ensures a[key] < b[key] <==> key in counts && counts[key] > 0
    ensures a[key] < b[key] ==> Represents(counts[key := counts[key] - 1], b - (a + multiset{key}))
    ensures a[key] >= b[key] ==> Represents(counts, b - (a + multiset{key}))
  {
    assert (b - a)[key] == if key in counts then counts[key] else 0;
  }

  /** The greedy count-down: each mapped expected triple uses up one predicted triple if any is left. */
  method CountDown(expected: seq<Relation>, m: map<string, string>, counts0: map<Triple, nat>, ghost b: multiset<Triple>)
    returns (counts: map<Triple, nat>, tp: nat, fn: nat, eligible: nat)
    requires Represents(counts0, b)
    ensures Represents(counts, b - multiset(Carried(m, expected)))
    ensures tp == |multiset(Carried(m, expected)) * b|
    ensures tp + fn == |expected|
    ensures eligible == |Eligible(m, expected)|
  {
    counts := counts0;
    tp, fn, eligible := 0, 0, 0;
    assert b - multiset{} == b;
    for i := 0 to |expected|
      invariant Represents(counts, b - multiset(Carried(m, expected[..i])))
      invariant tp == |multiset(Carried(m, expected[..i])) * b|
      invariant tp + fn == i
      invariant eligible == |Eligible(m, expected[..i])|
    {
      var row := expected[i];
      ghost var a := multiset(Carried(m, expected[..i]));
      CarriedStep(m, expected, i);
      if Mapped(m, row) {
        eligible := eligible + 1;
        var key := (row.rel, m[row.source], m[row.target]);
        IntersectionStep(a, b, key);
        TakeOne(counts, a, b, key);
        if key in counts && counts[key] > 0 {
          counts := counts[key := counts[key] - 1];
          tp := tp + 1;
        } else {
          fn := fn + 1;
        }
      } else {
        fn := fn + 1;
      }
    }
    assert expected[..|expected|] == expected;
  }

  /** What is left of the predicted triples between aligned occurrences. */
  method CountAligned(counts: map<Triple, nat>, ids: set<string>, predicted: seq<Relation>, ghost a: multiset<Triple>)
    returns (n: nat)
    requires Represents(counts, multiset(Triples(predicted)) - a)
    ensures n == |multiset(AlignedTriples(ids, predicted)) - a|
  {
    var aligned := map t | t in counts && Aligned(ids, t) :: counts[t];
    ghost var surplus := multiset(AlignedTriples(ids, predicted)) - a;
    forall t ensures surplus[t] == if t in aligned then aligned[t] else 0 {
      AlignedTriplesCount(ids, predicted, t);
      assert (multiset(Triples(predicted)) - a)[t] == if t in counts then counts[t] else 0;
    }
    n := Total(aligned, surplus);
  }

  method ScoreRelations(expected: seq<Relation>, predicted: seq<Relation>, unique: seq<Pair>)
    returns (endToEnd: EndToEnd, conditional: Ratio, extraAligned: nat)
    ensures var m := IdMap(unique);
            var tp := Matches(m, expected, predicted);
            && tp <= |expected|
            && endToEnd == EndToEndBlock(tp, |predicted| - tp, |expected| - tp, |expected|, |predicted|)
            && conditional == MeasuredRatio(tp, |Eligible(m, expected)|)
            && extraAligned == Surplus(m, expected, predicted)
  {
    var m := IdMap(unique);
    var counts0 := CountTriples(predicted);
    ghost var a, b := multiset(Carried(m, expected)), multiset(Triples(predicted));
    var counts, tp, fn, eligible := CountDown(expected, m, counts0, b);
    IntersectionBound(a, b);
    AlignedSurplus(m, expected, predicted);
    var fp := Total(counts, b - a);
    extraAligned := CountAligned(counts, m.Values, predicted, a);
    conditional := MeasuredRatio(tp, eligible);
    endToEnd := EndToEndBlock(tp, fp, fn, |expected|, |predicted|);
  }

  lemma CarriedStep(m: map<string, string>, rels: seq<Relation>, i: nat)
    requires i < |rels|
    ensures Mapped(m, rels[i]) ==>
              && multiset(Carried(m, rels[..i + 1])) == multiset(Carried(m, rels[..i])) + multiset{Carry(m)(rels[i])}
              && |Eligible(m, rels[..i + 1])| == |Eligible(m, rels[..i])| + 1
    ensures !Mapped(m, rels[i]) ==> Eligible(m, rels[..i + 1]) == Eligible(m, rels[..i])
  {
    PrefixStep(rels, i);
    if Mapped(m, rels[i]) {
      MapConcat(Carry(m), Eligible(m, rels[..i]), [rels[i]]);
    }
  }

  // ----- The pair

  function SameFlag(): Pair -> nat { (x: Pair) => if x.0.unresolved == x.1.unresolved then 1 else 0 }

  function WronglyResolved(): Pair -> nat { (x: Pair) => if x.0.unresolved && !x.1.unresolved then 1 else 0 }

  /** The verdict: no unmatched occurrence, no ambiguity, and every measured plane full. */
  predicate BundleExact(
    detection: Detection, fields: Ratio, provenance: Ratio, unresolved: Ratio, endToEnd: EndToEnd, groups: nat)
  {
    if detection.fp != 0 || detection.fn != 0 then false
    else if groups != 0 then false
    else if fields.measured && fields.correct != fields.denominator then false
    else if provenance.measured && provenance.correct != provenance.denominator then false
    else if unresolved.measured && unresolved.correct != unresolved.denominator then false
    else if endToEnd.measured && (endToEnd.fp != 0 || endToEnd.fn != 0) then false
    else true
  }

  function FieldRatio(e: Bundle, unique: seq<Pair>, same: Comparer, slots: seq<SlotName>): Ratio {
    MeasuredRatio(Sum(CorrectSlots(same, slots, ById(unique)), e.occurrences), |e.occurrences| * |slots|)
  }

  function RelationBlock(e: Bundle, p: Bundle, unique: seq<Pair>): EndToEnd {
    var tp := Matches(IdMap(unique), e.relations, p.relations);
    EligibleSize(IdMap(unique), e.relations);
    EndToEndBlock(tp, |p.relations| - tp, |e.relations| - tp, |e.relations|, |p.relations|)
  }

  function DetectionOf(a: Alignment): Detection {
    Detection(|a.unique|, |a.unmatchedPredicted|, |a.unmatchedExpected|)
  }

  function ConditionalRatio(e: Bundle, p: Bundle, unique: seq<Pair>): Ratio {
    var m := IdMap(unique);
    MeasuredRatio(Matches(m, e.relations, p.relations), |Eligible(m, e.relations)|)
  }

  function ExtraAligned(e: Bundle, p: Bundle, unique: seq<Pair>): nat {
    Surplus(IdMap(unique), e.relations, p.relations)
  }

  function UnresolvedRatio(unique: seq<Pair>): Ratio {
    MeasuredRatio(Sum(SameFlag(), unique), |unique|)
  }

  function AmbiguityOf(a: Alignment): AmbiguityCounts {
    AmbiguityCounts(|a.ambiguous|, |ExpectedIds(a.ambiguous)|, |PredictedIds(a.ambiguous)|)
  }

  function TallyOf(e: Bundle, p: Bundle): Tally {
    var a := AlignOf(e.occurrences, p.occurrences);
    var detection := DetectionOf(a);
    var fields := FieldRatio(e, a.unique, SlotMatch(), SLOTS);
    var provenance := FieldRatio(e, a.unique, SourceMatch(), SOURCE_SLOTS);
    var endToEnd := RelationBlock(e, p, a.unique);
    var unresolved := UnresolvedRatio(a.unique);
    var ambiguity := AmbiguityOf(a);
    Tally(
      detection, fields, provenance, endToEnd, ConditionalRatio(e, p, a.unique), ExtraAligned(e, p, a.unique),
      unresolved, Sum(WronglyResolved(), a.unique), ambiguity,
      BundleExact(detection, fields, provenance, unresolved, endToEnd, ambiguity.groups))
  }

  /** Counts equal flags, and expected-unresolved pairs that were resolved. */
  method CountFlags(unique: seq<Pair>) returns (same: nat, wrong: nat)
    ensures same == Sum(SameFlag(), unique) && wrong == Sum(WronglyResolved(), unique)
  {
    same, wrong := 0, 0;
    for i := 0 to |unique|
      invariant same == Sum(SameFlag(), unique[..i])
      invariant wrong == Sum(WronglyResolved(), unique[..i])
    {
      SumStep(SameFlag(), unique, i);
      SumStep(WronglyResolved(), unique, i);
      var (exp, pred) := unique[i];
      if exp.unresolved == pred.unresolved { same := same + 1; }
      if exp.unresolved && !pred.unresolved { wrong := wrong + 1; }
    }
    assert unique[..|unique|] == unique;
  }

  method ScorePair(e: Bundle, p: Bundle) returns (r: Result<PairScore, Diagnostic>)
    ensures r.Ok? <==> ValidBundle(e) && ValidBundle(p)
    ensures r.Ok? ==> r.value == PairScore(TallyOf(e, p), AlignOf(e.occurrences, p.occurrences))
    ensures r.Err? ==> r.error == MalformedRef || r.error == DanglingEdge
  {
    var validE := ValidateBundle(e);
    if validE.Err? { return Err(validE.error); }
    var validP := ValidateBundle(p);
    if validP.Err? { return Err(validP.error); }
    var a := Align(e.occurrences, p.occurrences);
    var tally := ScoreAligned(e, p, a);
    return Ok(PairScore(tally, a));
  }

  method ScoreLinks(e: Bundle, p: Bundle, unique: seq<Pair>)
    returns (endToEnd: EndToEnd, conditional: Ratio, extra: nat)
    ensures endToEnd == RelationBlock(e, p, unique)
    ensures conditional == ConditionalRatio(e, p, unique)
    ensures extra == ExtraAligned(e, p, unique)
  {
    endToEnd, conditional, extra := ScoreRelations(e.relations, p.relations, unique);
  }

  method ScoreAligned(e: Bundle, p: Bundle, a: Alignment) returns (tally: Tally)
    requires a == AlignOf(e.occurrences, p.occurrences)
    ensures tally == TallyOf(e, p)
  {
    var detection := Detection(|a.unique|, |a.unmatchedPredicted|, |a.unmatchedExpected|);
    var fields := ScoreFields(e.occurrences, a.unique, SlotMatch(), SLOTS);
    assert fields == FieldRatio(e, a.unique, SlotMatch(), SLOTS);
    var provenance := ScoreFields(e.occurrences, a.unique, SourceMatch(), SOURCE_SLOTS);
    assert provenance == FieldRatio(e, a.unique, SourceMatch(), SOURCE_SLOTS);
    var endToEnd, conditional, extra := ScoreLinks(e, p, a.unique);
    var same, wrong := CountFlags(a.unique);
    var unresolved := MeasuredRatio(same, |a.unique|);
    var ambiguity := AmbiguityCounts(|a.ambiguous|, |ExpectedIds(a.ambiguous)|, |PredictedIds(a.ambiguous)|);
    var exact := BundleExact(detection, fields, provenance, unresolved, endToEnd, ambiguity.groups);
    tally := Tally(
      detection, fields, provenance, endToEnd, conditional, extra, unresolved, wrong, ambiguity, exact);
  }
}
