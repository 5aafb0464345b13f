/** What the numbers of a score count: pairs of partners, occurrences and relations of
    the two bundles. */
module HybridCounts {
  import opened Sequences
  import opened HybridRecords
  import opened HybridAlign
  import opened HybridAnchors
  import opened HybridScore
  import opened HybridExact
  import opened HybridDuality

  // ----- Pairs of partners

  function Partnered(e: seq<Occurrence>, p: seq<Occurrence>): set<Pair> {
    set a, b | a in e && b in p && Partners(e, p, a, b) :: (a, b)
  }

  function PartneredWith(e: seq<Occurrence>, p: seq<Occurrence>, test: Pair -> bool): set<Pair> {
    Passing(Partnered(e, p), test)
  }

  function SameKind(): Pair -> bool { (x: Pair) => x.0.fields.kind.value == x.1.fields.kind.value }
  function SameDate(): Pair -> bool { (x: Pair) => x.0.fields.date.value == x.1.fields.date.value }
  function SameNumber(): Pair -> bool { (x: Pair) => x.0.fields.number.value == x.1.fields.number.value }
  function SameDateSource(): Pair -> bool { (x: Pair) => x.0.fields.date.source == x.1.fields.date.source }
  function SameNumberSource(): Pair -> bool { (x: Pair) => x.0.fields.number.source == x.1.fields.number.source }
  function SameMark(): Pair -> bool { (x: Pair) => x.0.unresolved == x.1.unresolved }
  function ResolvedTooFar(): Pair -> bool { (x: Pair) => x.0.unresolved && !x.1.unresolved }

  lemma PartneredAreUnique(e: seq<Occurrence>, p: seq<Occurrence>)
    ensures Distinct(AlignOf(e, p).unique)
    ensures forall x :: x in AlignOf(e, p).unique <==> x in Partnered(e, p)
    ensures |AlignOf(e, p).unique| == |Partnered(e, p)|
  {
    UniqueIffPartners(e, p);
    UniqueIsMatching(e, p);
    var u := AlignOf(e, p).unique;
    forall x ensures x in u <==> x in Partnered(e, p) {
      assert x == (x.0, x.1);
      assert (x.0, x.1) in u <==> Partners(e, p, x.0, x.1);
    }
    DistinctCardinality(u);
    assert (set x | x in u) == Partnered(e, p);
  }

  lemma FlagsOverPairs(e: seq<Occurrence>, p: seq<Occurrence>, f: Pair -> nat, test: Pair -> bool)
    requires forall x :: f(x) == if test(x) then 1 else 0
    ensures Sum(f, AlignOf(e, p).unique) == |PartneredWith(e, p, test)|
  {
    PartneredAreUnique(e, p);
    SumOfFlags(f, test, AlignOf(e, p).unique);
    assert Elements(AlignOf(e, p).unique) == Partnered(e, p);
  }

  // ----- Fields, sources and marks

  function Count(test: Pair -> bool): Pair -> nat { (x: Pair) => if test(x) then 1 else 0 }

  function Count2(test: Pair -> bool, other: Pair -> bool): Pair -> nat {
    (x: Pair) => (if test(x) then 1 else 0) + (if other(x) then 1 else 0)
  }

  lemma SumOfTwo(f: SlotName -> nat, a: SlotName, b: SlotName)
    ensures Sum(f, [a, b]) == f(a) + f(b)
  {
    assert [a, b][..1] == [a] && [a][..0] == [];
    assert Sum(f, [a]) == f(a);
  }

  lemma ValueSlots(x: Pair)
    ensures PairSlots(SlotMatch(), SLOTS)(x) == Count2(SameKind(), SameDate())(x) + Count(SameNumber())(x)
  {
    var right := SlotsRight(SlotMatch(), x.0, x.1);
    SumOfTwo(right, Kind, Date);
    assert SLOTS[..2] == [Kind, Date];
  }

  lemma SourceSlots(x: Pair)
    ensures PairSlots(SourceMatch(), SOURCE_SLOTS)(x) == Count2(SameDateSource(), SameNumberSource())(x)
  {
    SumOfTwo(SlotsRight(SourceMatch(), x.0, x.1), Date, Number);
  }

  lemma TwoCounts(e: seq<Occurrence>, p: seq<Occurrence>, test: Pair -> bool, other: Pair -> bool)
    ensures Sum(Count2(test, other), AlignOf(e, p).unique) == |PartneredWith(e, p, test)| + |PartneredWith(e, p, other)|
  {
    SumAdds(Count2(test, other), Count(test), Count(other), AlignOf(e, p).unique);
    FlagsOverPairs(e, p, Count(test), test);
    FlagsOverPairs(e, p, Count(other), other);
  }

  /** A value slot is right when the occurrence has a partner with the same value there,
      each slot for itself; and there are three slots to each expected occurrence. */
  predicate CountsValues(r: Ratio, E: seq<Occurrence>, P: seq<Occurrence>) {
    && r.correct == |PartneredWith(E, P, SameKind())| + |PartneredWith(E, P, SameDate())|
                    + |PartneredWith(E, P, SameNumber())|
    && r.denominator == 3 * |E| && (r.measured <==> E != [])
  }

  lemma ValuesCounted(e: Bundle, p: Bundle)
    requires ValidBundle(e) && ValidBundle(p)
    ensures CountsValues(TallyOf(e, p).fieldValue, e.occurrences, p.occurrences)
  {
    var E, P := e.occurrences, p.occurrences;
    var u := AlignOf(E, P).unique;
    SlotsOverPairs(E, P, SlotMatch(), SLOTS);
    NoSlots(E, P, SlotMatch(), SLOTS);
    forall x ensures PairSlots(SlotMatch(), SLOTS)(x) == Count2(SameKind(), SameDate())(x) + Count(SameNumber())(x) {
      ValueSlots(x);
    }
    SumAdds(PairSlots(SlotMatch(), SLOTS), Count2(SameKind(), SameDate()), Count(SameNumber()), u);
    TwoCounts(E, P, SameKind(), SameDate());
    FlagsOverPairs(E, P, Count(SameNumber()), SameNumber());
    assert |SLOTS| == 3;
  }

  /** The same for the sources of date and number. */
  predicate CountsSources(r: Ratio, E: seq<Occurrence>, P: seq<Occurrence>) {
    && r.correct == |PartneredWith(E, P, SameDateSource())| + |PartneredWith(E, P, SameNumberSource())|
    && r.denominator == 2 * |E| && (r.measured <==> E != [])
  }

  lemma SourcesCounted(e: Bundle, p: Bundle)
    requires ValidBundle(e) && ValidBundle(p)
    ensures CountsSources(TallyOf(e, p).provenance, e.occurrences, p.occurrences)
  {
    var E, P := e.occurrences, p.occurrences;
    var u := AlignOf(E, P).unique;
    SlotsOverPairs(E, P, SourceMatch(), SOURCE_SLOTS);
    NoSlots(E, P, SourceMatch(), SOURCE_SLOTS);
    forall x ensures PairSlots(SourceMatch(), SOURCE_SLOTS)(x) == Count2(SameDateSource(), SameNumberSource())(x) {
      SourceSlots(x);
    }
    SumCongruence(PairSlots(SourceMatch(), SOURCE_SLOTS), Count2(SameDateSource(), SameNumberSource()), u);
    TwoCounts(E, P, SameDateSource(), SameNumberSource());
    assert |SOURCE_SLOTS| == 2;
  }

  /** Marks are compared over the pairs of partners, whatever the bundles. */
  predicate CountsMarks(r: Ratio, tooFar: nat, E: seq<Occurrence>, P: seq<Occurrence>) {
    && r.correct == |PartneredWith(E, P, SameMark())|
    && r.denominator == |Partnered(E, P)| && (r.measured <==> Partnered(E, P) != {})
    && tooFar == |PartneredWith(E, P, ResolvedTooFar())|
  }

  lemma MarksCounted(e: Bundle, p: Bundle)
    ensures var t := TallyOf(e, p); CountsMarks(t.unresolved, t.resolvedWhenUnresolved, e.occurrences, p.occurrences)
  {
    var E, P := e.occurrences, p.occurrences;
    PartneredAreUnique(E, P);
    FlagsOverPairs(E, P, SameFlag(), SameMark());
    FlagsOverPairs(E, P, WronglyResolved(), ResolvedTooFar());
    if Partnered(E, P) == {} { assert PartneredWith(E, P, SameMark()) == {}; }
  }

  // ----- Occurrences

  function ContestedOver(e: seq<Occurrence>, p: seq<Occurrence>): Occurrence -> bool {
    (o: Occurrence) => Contested(e, p, multiset(o.anchors))
  }

  /** The collections of anchors that both sides have and that are not alone on both. */
  function ContestedAnchors(e: seq<Occurrence>, p: seq<Occurrence>): set<multiset<Anchor>> {
    set o | o in e && Contested(e, p, multiset(o.anchors)) :: multiset(o.anchors)
  }

  lemma UnansweredCounted(rows: seq<Occurrence>, others: seq<Occurrence>, ids: seq<string>)
    requires Distinct(Ids(rows)) && multiset(ids) == multiset(Ids(Filter(Unanswered(others), rows)))
    ensures |ids| == |Passing(Elements(rows), Unanswered(others))|
  {
    RowsDistinct(rows);
    FilterSize(Unanswered(others), rows);
    PermutationLength(ids, Ids(Filter(Unanswered(others), rows)));
  }

  /** True positives are pairs of partners; misses and surplus are occurrences whose
      anchors nobody on the other side has. */
  predicate CountsDetection(d: Detection, E: seq<Occurrence>, P: seq<Occurrence>) {
    && d.tp == |Partnered(E, P)|
    && d.fp == |Passing(Elements(P), Unanswered(E))| && d.fn == |Passing(Elements(E), Unanswered(P))|
  }

  lemma DetectionCounted(e: Bundle, p: Bundle)
    requires ValidBundle(e) && ValidBundle(p)
    ensures CountsDetection(TallyOf(e, p).detection, e.occurrences, p.occurrences)
  {
    var E, P := e.occurrences, p.occurrences;
    PartneredAreUnique(E, P);
    UnmatchedIffUnanswered(E, P);
    UnansweredCounted(E, P, AlignOf(E, P).unmatchedExpected);
    UnansweredCounted(P, E, AlignOf(E, P).unmatchedPredicted);
  }

  function Firsts(pairs: set<Pair>): set<Occurrence> { set x | x in pairs :: x.0 }

  lemma FirstsSize(pairs: set<Pair>)
    requires forall x, y | x in pairs && y in pairs && x.0 == y.0 :: x == y
    ensures |Firsts(pairs)| == |pairs|
  {
    if pairs != {} {
      var x :| x in pairs;
      var rest := pairs - {x};
      FirstsSize(rest);
      assert Firsts(pairs) == Firsts(rest) + {x.0};
    }
  }

  lemma CarrierIff(rows: seq<Occurrence>, a: multiset<Anchor>, o: Occurrence)
    ensures o in Carriers(rows, a) <==> o in rows && multiset(o.anchors) == a
  {
    FilterMembers(Carries(a), rows, o);
  }

  /** An occurrence has a partner, or no counterpart, or is contested. */
  lemma ThreeWays(e: seq<Occurrence>, p: seq<Occurrence>, o: Occurrence)
    requires o in e
    ensures var paired, alone, contested := o in Firsts(Partnered(e, p)), Unanswered(p)(o), ContestedOver(e, p)(o);
            (paired || alone || contested) && !(paired && alone) && !(paired && contested) && !(alone && contested)
  {
    var a := multiset(o.anchors);
    var mine, theirs := Carriers(e, a), Carriers(p, a);
    CarrierIff(e, a, o);
    if theirs == [] {
      forall x | x in p ensures !SameAnchors(o, x) { CarrierIff(p, a, x); }
    } else {
      CarrierIff(p, a, theirs[0]);
      assert SameAnchors(o, theirs[0]);
    }
    if |mine| == 1 && |theirs| == 1 {
      assert mine == [o] && theirs == [theirs[0]];
      assert Partners(e, p, o, theirs[0]);
      assert (o, theirs[0]) in Partnered(e, p);
    } else {
      forall x | x in Partnered(e, p) ensures x.0 != o { assert Partners(e, p, x.0, x.1); }
    }
  }

  lemma ThreeParts<T>(all: set<T>, a: set<T>, b: set<T>, c: set<T>)
    requires a <= all && b <= all && c <= all
    requires forall x | x in all :: (x in a || x in b || x in c) && !(x in a && x in b) && !(x in a && x in c) && !(x in b && x in c)
    ensures |all| == |a| + |b| + |c|
  {
    assert all == (a + b) + c;
    assert a * b == {} && (a + b) * c == {};
  }

  lemma SideCounted(e: seq<Occurrence>, p: seq<Occurrence>)
    requires Distinct(Ids(e))
    ensures |e| == |Partnered(e, p)| + |Passing(Elements(e), Unanswered(p))| + |Passing(Elements(e), ContestedOver(e, p))|
  {
    var paired := Firsts(Partnered(e, p));
    forall x, y | x in Partnered(e, p) && y in Partnered(e, p) && x.0 == y.0 ensures x == y {
      assert Partners(e, p, x.0, x.1) && Partners(e, p, y.0, y.1);
    }
    FirstsSize(Partnered(e, p));
    forall o | o in e
      ensures var a, b, c := o in paired, o in Passing(Elements(e), Unanswered(p)), o in Passing(Elements(e), ContestedOver(e, p));
              (a || b || c) && !(a && b) && !(a && c) && !(b && c)
    {
      ThreeWays(e, p, o);
    }
    ThreeParts(Elements(e), paired, Passing(Elements(e), Unanswered(p)), Passing(Elements(e), ContestedOver(e, p)));
    RowsDistinct(e);
    DistinctCardinality(e);
  }

  function AnchorsOf(): AmbiguousGroup -> multiset<Anchor> { (g: AmbiguousGroup) => multiset(g.key) }

  lemma ContestedCarrier(e: seq<Occurrence>, p: seq<Occurrence>, a: multiset<Anchor>)
    ensures Contested(e, p, a) <==> a in ContestedAnchors(e, p)
  {
    if Contested(e, p, a) { var o := CarrierAnchors(e, a); }
  }

  lemma GroupAnchors(e: seq<Occurrence>, p: seq<Occurrence>, a: multiset<Anchor>)
    ensures a in Map(AnchorsOf(), AlignOf(e, p).ambiguous) <==> Contested(e, p, a)
  {
    AmbiguousIffContested(e, p);
    var groups := AlignOf(e, p).ambiguous;
    var anchors := Map(AnchorsOf(), groups);
    if a in anchors {
      var i :| 0 <= i < |anchors| && anchors[i] == a;
      assert GroupShows(e, p, groups[i]);
    }
    if Contested(e, p, a) {
      var g :| g in groups && multiset(g.key) == a;
      var i :| 0 <= i < |groups| && groups[i] == g;
      assert anchors[i] == a;
    }
  }

  lemma GroupsCounted(e: seq<Occurrence>, p: seq<Occurrence>)
    ensures |AlignOf(e, p).ambiguous| == |ContestedAnchors(e, p)|
  {
    AmbiguousIffContested(e, p);
    var anchors := Map(AnchorsOf(), AlignOf(e, p).ambiguous);
    forall a ensures a in anchors <==> a in ContestedAnchors(e, p) {
      GroupAnchors(e, p, a);
      ContestedCarrier(e, p, a);
    }
    SizeOfElements(anchors, ContestedAnchors(e, p));
  }

  lemma SizeOfElements<T>(s: seq<T>, all: set<T>)
    requires Distinct(s) && forall x :: x in s <==> x in all
    ensures |s| == |all|
  {
    DistinctCardinality(s);
    assert (set x | x in s) == all;
  }

  /** Ambiguous groups are contested collections of anchors, and ambiguous occurrences
      those that have them. */
  predicate CountsAmbiguity(c: AmbiguityCounts, E: seq<Occurrence>, P: seq<Occurrence>) {
    && c.groups == |ContestedAnchors(E, P)|
    && c.expectedOccurrences == |Passing(Elements(E), ContestedOver(E, P))|
    && c.predictedOccurrences == |Passing(Elements(P), ContestedOver(P, E))|
  }

  lemma AmbiguityCounted(e: Bundle, p: Bundle)
    requires ValidBundle(e) && ValidBundle(p)
    ensures CountsAmbiguity(TallyOf(e, p).ambiguity, e.occurrences, p.occurrences)
  {
    var E, P := e.occurrences, p.occurrences;
    GroupsCounted(E, P);
    DetectionCounted(e, p);
    DetectionCounted(p, e);
    AlignIsPartition(E, P);
    AlignSwapped(E, P);
    SideCounted(E, P);
    SideCounted(P, E);
    var a := AlignOf(E, P);
    SideSizes(Ids(E), Map(FirstId(), a.unique), a.unmatchedExpected, ExpectedIds(a.ambiguous));
    SideSizes(Ids(P), Map(SecondId(), a.unique), a.unmatchedPredicted, PredictedIds(a.ambiguous));
    PermutationLength(AlignOf(P, E).unique, Map(Swap(), a.unique));
  }

  lemma SideSizes<T>(all: seq<T>, a: seq<T>, b: seq<T>, c: seq<T>)
    requires multiset(all) == multiset(a) + multiset(b) + multiset(c)
    ensures |all| == |a| + |b| + |c|
  {
    assert |multiset(all)| == |all|;
  }
}
