/** What a score does not depend on: the order of records, the choice of
    predicted ids, and, up to exchanging false positives with false negatives,
    which side is called expected. */
module HybridSymmetry {
  import opened Sequences
  import opened Orders
  import opened HybridRecords
  import opened HybridAlign
  import opened HybridScore
  import opened HybridExact

  // ----- Order

  /** The same occurrences and relations, in any order. */
  predicate SameContents(b: Bundle, b': Bundle) {
    && multiset(b.occurrences) == multiset(b'.occurrences)
    && multiset(b.relations) == multiset(b'.relations)
  }

  /** The same bundle with its occurrences and relations in another order. */
  predicate Reordered(b: Bundle, b': Bundle) {
    && b' == b.(occurrences := b'.occurrences, relations := b'.relations)
    && SameContents(b, b')
  }

  lemma EligiblePermutation(m: map<string, string>, r: seq<Relation>, r': seq<Relation>)
    requires multiset(r) == multiset(r')
    ensures |Eligible(m, r)| == |Eligible(m, r')|
    ensures multiset(Carried(m, r)) == multiset(Carried(m, r'))
  {
    forall x ensures multiset(Eligible(m, r))[x] == multiset(Eligible(m, r'))[x] {
      EligibleMember(m, r, x);
      EligibleMember(m, r', x);
    }
    PermutationLength(Eligible(m, r), Eligible(m, r'));
    MapMultiset(Carry(m), Eligible(m, r), Eligible(m, r'));
  }

  lemma AlignedPermutation(ids: set<string>, r: seq<Relation>, r': seq<Relation>)
    requires multiset(r) == multiset(r')
    ensures |AlignedTriples(ids, r)| == |AlignedTriples(ids, r')|
  {
    MapMultiset(TripleOf(), r, r');
    forall t ensures multiset(AlignedTriples(ids, r))[t] == multiset(AlignedTriples(ids, r'))[t] {
      AlignedTriplesCount(ids, r, t);
      AlignedTriplesCount(ids, r', t);
    }
    PermutationLength(AlignedTriples(ids, r), AlignedTriples(ids, r'));
  }

  lemma {:induction false} GroupSizes(a: seq<AmbiguousGroup>, b: seq<AmbiguousGroup>)
    requires SameGroups(a, b)
    ensures |ExpectedIds(a)| == |ExpectedIds(b)| && |PredictedIds(a)| == |PredictedIds(b)|
  {
    if a != [] {
      var x, y := a[|a| - 1], b[|b| - 1];
      GroupSizes(a[..|a| - 1], b[..|b| - 1]);
      assert SameGroup(x, y);
      PermutationLength(x.expectedIds, y.expectedIds);
      PermutationLength(x.predictedIds, y.predictedIds);
    }
  }

  lemma FieldsPermuted(e: Bundle, e': Bundle, u: seq<Pair>, same: Comparer, slots: seq<SlotName>)
    requires SameContents(e, e')
    ensures FieldRatio(e, u, same, slots) == FieldRatio(e', u, same, slots)
  {
    SumPermutation(CorrectSlots(same, slots, ById(u)), e.occurrences, e'.occurrences);
    PermutationLength(e.occurrences, e'.occurrences);
  }

  lemma RelationsPermuted(e: Bundle, p: Bundle, e': Bundle, p': Bundle, u: seq<Pair>)
    requires SameContents(e, e') && SameContents(p, p')
    ensures RelationBlock(e, p, u) == RelationBlock(e', p', u)
    ensures ConditionalRatio(e, p, u) == ConditionalRatio(e', p', u)
    ensures ExtraAligned(e, p, u) == ExtraAligned(e', p', u)
  {
    var m := IdMap(u);
    PermutationLength(e.relations, e'.relations);
    PermutationLength(p.relations, p'.relations);
    EligiblePermutation(m, e.relations, e'.relations);
    MapMultiset(TripleOf(), p.relations, p'.relations);
    AlignedPermutation(m.Values, p.relations, p'.relations);
    assert Matches(m, e.relations, p.relations) == Matches(m, e'.relations, p'.relations);
  }

  lemma CountsPermuted(a: Alignment, a': Alignment)
    requires SameUpToOrder(a, a')
    ensures DetectionOf(a) == DetectionOf(a') && AmbiguityOf(a) == AmbiguityOf(a')
  {
    PermutationLength(a.unmatchedExpected, a'.unmatchedExpected);
    PermutationLength(a.unmatchedPredicted, a'.unmatchedPredicted);
    GroupSizes(a.ambiguous, a'.ambiguous);
  }

  /** No plane depends on the order of occurrences or relations, on either side. */
  lemma TallyIgnoresOrder(e: Bundle, p: Bundle, e': Bundle, p': Bundle)
    requires SameContents(e, e') && SameContents(p, p')
    ensures TallyOf(e, p) == TallyOf(e', p')
  {
    var a, a' := AlignOf(e.occurrences, p.occurrences), AlignOf(e'.occurrences, p'.occurrences);
    AlignIgnoresOrder(e.occurrences, p.occurrences, e'.occurrences, p'.occurrences);
    CountsPermuted(a, a');
    FieldsPermuted(e, e', a.unique, SlotMatch(), SLOTS);
    FieldsPermuted(e, e', a.unique, SourceMatch(), SOURCE_SLOTS);
    RelationsPermuted(e, p, e', p', a.unique);
  }

  lemma ValidityIgnoresOrder(b: Bundle, b': Bundle)
    requires Reordered(b, b') && ValidBundle(b)
    ensures ValidBundle(b')
  {
    MapMultiset(Id(), b.occurrences, b'.occurrences);
    DistinctPermutation(Ids(b.occurrences), Ids(b'.occurrences));
    MapMultiset(RelationId(), b.relations, b'.relations);
    DistinctPermutation(Map(RelationId(), b.relations), Map(RelationId(), b'.relations));
    assert forall id :: id in Ids(b.occurrences) <==> id in multiset(Ids(b'.occurrences));
    assert forall o :: o in b'.occurrences <==> o in multiset(b.occurrences);
    assert forall r :: r in b'.relations <==> r in multiset(b.relations);
    forall r | r in b'.relations ensures EndpointsPresent(b', r) {
      assert r in b.relations && EndpointsPresent(b, r);
    }
  }

  // ----- Predicted ids

  function RenameOccurrence(f: string -> string): Occurrence -> Occurrence {
    (o: Occurrence) => o.(id := f(o.id))
  }

  function RenameRelation(f: string -> string): Relation -> Relation {
    (r: Relation) => r.(source := f(r.source), target := f(r.target))
  }

  /** The bundle with other occurrence ids, carried through focus and relations. */
  function RenameBundle(f: string -> string, b: Bundle): Bundle {
    b.(focusId := f(b.focusId),
       occurrences := Map(RenameOccurrence(f), b.occurrences),
       relations := Map(RenameRelation(f), b.relations))
  }

  predicate InjectiveOn(f: string -> string, ids: seq<string>) {
    forall x, y | x in ids && y in ids && f(x) == f(y) :: x == y
  }

  function Same(): Occurrence -> Occurrence { (o: Occurrence) => o }

  function RenamePair(f: string -> string): Pair -> Pair { Both(Same(), RenameOccurrence(f)) }

  function RenameTriple(f: string -> string): Triple -> Triple { (t: Triple) => (t.0, f(t.1), f(t.2)) }

  lemma {:induction false} InsertMap(f: Pair -> Pair, x: Pair, s: seq<Pair>)
    requires forall y: Pair :: f(y).0.id == y.0.id
    ensures Insert(PairLe(), f(x), Map(f, s)) == Map(f, Insert(PairLe(), x, s))
  {
    if s == [] {
      assert Map(f, [x]) == [f(x)];
    } else {
      assert PairLe()(f(x), f(s[0])) == PairLe()(x, s[0]);
      assert Map(f, s)[0] == f(s[0]) && Map(f, s)[1..] == Map(f, s[1..]);
      if !PairLe()(x, s[0]) { InsertMap(f, x, s[1..]); }
    }
  }

  lemma {:induction false} SortMap(f: Pair -> Pair, s: seq<Pair>)
    requires forall y: Pair :: f(y).0.id == y.0.id
    ensures Sort(PairLe(), Map(f, s)) == Map(f, Sort(PairLe(), s))
  {
    if s != [] {
      assert Map(f, s)[0] == f(s[0]) && Map(f, s)[1..] == Map(f, s[1..]);
      SortMap(f, s[1..]);
      InsertMap(f, s[0], Sort(PairLe(), s[1..]));
    }
  }

  lemma {:induction false} AmbiguousSizes(keys: seq<Key>, f: string -> string, e: seq<Occurrence>, p: seq<Occurrence>)
    ensures var a := AmbiguousOver(keys, e, p);
            var a' := AmbiguousOver(keys, e, Map(RenameOccurrence(f), p));
            |a| == |a'| && |ExpectedIds(a)| == |ExpectedIds(a')| && |PredictedIds(a)| == |PredictedIds(a')|
  {
    if keys != [] {
      var front, k := keys[..|keys| - 1], keys[|keys| - 1];
      AmbiguousSizes(front, f, e, p);
      GroupMap(RenameOccurrence(f), p, k);
      AppendSizes(AmbiguousOver(front, e, p), k, Group(e, k), Group(p, k));
      AppendSizes(AmbiguousOver(front, e, Map(RenameOccurrence(f), p)), k, Group(e, k), Map(RenameOccurrence(f), Group(p, k)));
    }
  }

  lemma AppendSizes(before: seq<AmbiguousGroup>, k: Key, g: seq<Occurrence>, h: seq<Occurrence>)
    ensures var a := AmbiguousAt(k, g, h);
            && |ExpectedIds(before + a)| == |ExpectedIds(before)| + (if a == [] then 0 else |g|)
            && |PredictedIds(before + a)| == |PredictedIds(before)| + (if a == [] then 0 else |h|)
  {
    var a := AmbiguousAt(k, g, h);
    if a == [] { PlusEmpty(before); } else { assert (before + a)[..|before|] == before; }
  }

  lemma AlignRenamed(f: string -> string, e: seq<Occurrence>, p: seq<Occurrence>)
    ensures var a, a' := AlignOf(e, p), AlignOf(e, Map(RenameOccurrence(f), p));
            && a'.unique == Map(RenamePair(f), a.unique)
            && |a'.unmatchedExpected| == |a.unmatchedExpected|
            && |a'.unmatchedPredicted| == |a.unmatchedPredicted|
            && |a'.ambiguous| == |a.ambiguous|
            && |ExpectedIds(a'.ambiguous)| == |ExpectedIds(a.ambiguous)|
            && |PredictedIds(a'.ambiguous)| == |PredictedIds(a.ambiguous)|
  {
    var h := RenameOccurrence(f);
    assert Map(Same(), e) == e;
    UnionKeysMap(Same(), h, e, p);
    var keys := UnionKeys(e, p);
    MappedOver(keys, Same(), h, e, p);
    MappedOver(keys, h, Same(), p, e);
    SortMap(RenamePair(f), UniqueOver(keys, e, p));
    AmbiguousSizes(keys, f, e, p);
  }

  lemma {:induction false} ByIdRenamed(f: string -> string, u: seq<Pair>)
    ensures ById(Map(RenamePair(f), u)).Keys == ById(u).Keys
    ensures forall id | id in ById(u) :: ById(Map(RenamePair(f), u))[id] == RenameOccurrence(f)(ById(u)[id])
  {
    if u != [] {
      ByIdRenamed(f, u[..|u| - 1]);
      assert Map(RenamePair(f), u)[..|u| - 1] == Map(RenamePair(f), u[..|u| - 1]);
    }
  }

  lemma FieldsRenamed(f: string -> string, e: Bundle, u: seq<Pair>, same: Comparer, slots: seq<SlotName>)
    requires forall a, b, s :: same(a, RenameOccurrence(f)(b), s) == same(a, b, s)
    ensures FieldRatio(e, Map(RenamePair(f), u), same, slots) == FieldRatio(e, u, same, slots)
  {
    ByIdRenamed(f, u);
    var before, after := CorrectSlots(same, slots, ById(u)), CorrectSlots(same, slots, ById(Map(RenamePair(f), u)));
    forall a ensures after(a) == before(a) {
      if a.id in ById(u) {
        SumCongruence(SlotsRight(same, a, RenameOccurrence(f)(ById(u)[a.id])), SlotsRight(same, a, ById(u)[a.id]), slots);
      }
    }
    SumCongruence(after, before, e.occurrences);
  }

  /** The endpoints of every triple are among the ids. */
  predicate Within(ids: seq<string>, triples: seq<Triple>) {
    forall t | t in triples :: t.1 in ids && t.2 in ids
  }

  lemma MatchesRenamed(f: string -> string, m: map<string, string>, m': map<string, string>,
                       expected: seq<Relation>, predicted: seq<Relation>, ids: seq<string>)
    requires m'.Keys == m.Keys && forall id | id in m :: m'[id] == f(m[id]) && m[id] in ids
    requires InjectiveOn(f, ids) && Within(ids, Triples(predicted))
    ensures Eligible(m', expected) == Eligible(m, expected)
    ensures Matches(m', expected, Map(RenameRelation(f), predicted)) == Matches(m, expected, predicted)
  {
    EligibleKeys(m, m', expected);
    var s, t := Carried(m, expected), Triples(predicted);
    forall i | 0 <= i < |s| ensures Carried(m', expected)[i] == RenameTriple(f)(s[i]) && s[i].1 in ids && s[i].2 in ids {
      var r := Eligible(m, expected)[i];
      EligibleMember(m, expected, r);
      assert r in multiset(Eligible(m, expected));
    }
    assert Carried(m', expected) == Map(RenameTriple(f), s);
    assert Triples(Map(RenameRelation(f), predicted)) == Map(RenameTriple(f), t);
    IntersectionMap(RenameTriple(f), s, t);
  }

  lemma {:induction false} EligibleKeys(m: map<string, string>, m': map<string, string>, rels: seq<Relation>)
    requires m.Keys == m'.Keys
    ensures Eligible(m, rels) == Eligible(m', rels)
  {
    if rels != [] {
      EligibleKeys(m, m', rels[..|rels| - 1]);
      assert forall id :: id in m <==> id in m';
    }
  }

  lemma {:induction false} AlignedRenamed(f: string -> string, values: set<string>, values': set<string>,
                       rels: seq<Relation>, ids: seq<string>)
    requires values' == (set v | v in values :: f(v)) && forall v | v in values :: v in ids
    requires InjectiveOn(f, ids) && Within(ids, Triples(rels))
    ensures |AlignedTriples(values', Map(RenameRelation(f), rels))| == |AlignedTriples(values, rels)|
  {
    if rels != [] {
      var front, last := rels[..|rels| - 1], rels[|rels| - 1];
      var renamed := Map(RenameRelation(f), rels);
      assert renamed[..|rels| - 1] == Map(RenameRelation(f), front);
      assert Triples(rels) == Triples(front) + [TripleOf()(last)];
      assert TripleOf()(last) in Triples(rels);
      forall t | t in Triples(front) ensures t.1 in ids && t.2 in ids { assert t in Triples(rels); }
      AlignedRenamed(f, values, values', front, ids);
    }
  }

  lemma EndpointsWithin(b: Bundle)
    requires Connected(b)
    ensures Within(Ids(b.occurrences), Triples(b.relations))
  {
    forall t | t in Triples(b.relations) ensures t.1 in Ids(b.occurrences) && t.2 in Ids(b.occurrences) {
      var i :| 0 <= i < |b.relations| && Triples(b.relations)[i] == t;
      assert EndpointsPresent(b, b.relations[i]);
    }
  }

  lemma IdMapRenamed(f: string -> string, e: seq<Occurrence>, p: seq<Occurrence>)
    ensures var u := AlignOf(e, p).unique;
            var m, m' := IdMap(u), IdMap(Map(RenamePair(f), u));
            && m'.Keys == m.Keys
            && (forall id | id in m :: m'[id] == f(m[id]) && m[id] in Ids(p))
            && m'.Values == (set v | v in m.Values :: f(v))
            && (forall v | v in m.Values :: v in Ids(p))
  {
    var u := AlignOf(e, p).unique;
    var m, m' := IdMap(u), IdMap(Map(RenamePair(f), u));
    ByIdRenamed(f, u);
    UniqueIsMatching(e, p);
    forall id | id in m ensures m'[id] == f(m[id]) && m[id] in Ids(p) {
      var i := ByIdOrigin(u, id);
      assert (u[i].0, u[i].1) in u;
      IdListed(p, u[i].1);
    }
    ValuesRenamed(f, m, m');
  }

  lemma ValuesRenamed(f: string -> string, m: map<string, string>, m': map<string, string>)
    requires m'.Keys == m.Keys && forall id | id in m :: m'[id] == f(m[id])
    ensures m'.Values == (set v | v in m.Values :: f(v))
  {
    forall v | v in m'.Values ensures v in (set w | w in m.Values :: f(w)) {
      var id :| id in m' && m'[id] == v;
      assert m[id] in m.Values;
    }
    forall v | v in (set w | w in m.Values :: f(w)) ensures v in m'.Values {
      var w :| w in m.Values && f(w) == v;
      var id :| id in m && m[id] == w;
      assert m'[id] == v;
    }
  }

  lemma RelationsRenamed(f: string -> string, e: Bundle, p: Bundle)
    requires ValidBundle(p) && InjectiveOn(f, Ids(p.occurrences))
    ensures var u := AlignOf(e.occurrences, p.occurrences).unique;
            var u', p' := Map(RenamePair(f), u), RenameBundle(f, p);
            && RelationBlock(e, p', u') == RelationBlock(e, p, u)
            && ConditionalRatio(e, p', u') == ConditionalRatio(e, p, u)
            && ExtraAligned(e, p', u') == ExtraAligned(e, p, u)
  {
    var u := AlignOf(e.occurrences, p.occurrences).unique;
    var m, m' := IdMap(u), IdMap(Map(RenamePair(f), u));
    IdMapRenamed(f, e.occurrences, p.occurrences);
    EndpointsWithin(p);
    MatchesRenamed(f, m, m', e.relations, p.relations, Ids(p.occurrences));
    AlignedRenamed(f, m.Values, m'.Values, p.relations, Ids(p.occurrences));
    SameBlock(e, p, RenameBundle(f, p), u, Map(RenamePair(f), u));
  }

  lemma SameBlock(e: Bundle, p: Bundle, p': Bundle, u: seq<Pair>, u': seq<Pair>)
    requires |p'.relations| == |p.relations|
    requires Matches(IdMap(u'), e.relations, p'.relations) == Matches(IdMap(u), e.relations, p.relations)
    ensures RelationBlock(e, p', u') == RelationBlock(e, p, u)
  {
  }

  lemma FlagsRenamed(f: string -> string, u: seq<Pair>)
    ensures UnresolvedRatio(Map(RenamePair(f), u)) == UnresolvedRatio(u)
    ensures Sum(WronglyResolved(), Map(RenamePair(f), u)) == Sum(WronglyResolved(), u)
  {
    SumMap(SameFlag(), RenamePair(f), SameFlag(), u);
    SumMap(WronglyResolved(), RenamePair(f), WronglyResolved(), u);
  }

  /** No plane depends on which ids the predicted bundle uses. */
  lemma TallyIgnoresIds(f: string -> string, e: Bundle, p: Bundle)
    requires ValidBundle(p) && InjectiveOn(f, Ids(p.occurrences))
    ensures TallyOf(e, RenameBundle(f, p)) == TallyOf(e, p)
  {
    AlignRenamed(f, e.occurrences, p.occurrences);
    var u := AlignOf(e.occurrences, p.occurrences).unique;
    FieldsRenamed(f, e, u, SlotMatch(), SLOTS);
    FieldsRenamed(f, e, u, SourceMatch(), SOURCE_SLOTS);
    FlagsRenamed(f, u);
    RelationsRenamed(f, e, p);
  }
}
