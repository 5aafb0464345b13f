/** Exchanging the expected and the predicted bundle exchanges false positives
    with false negatives and leaves every count of agreement alone. */
module HybridDuality {
  import opened Sequences
  import opened Orders
  import opened HybridRecords
  import opened HybridAlign
  import opened HybridScore
  import opened HybridExact

  function Swap(): Pair -> Pair { (x: Pair) => (x.1, x.0) }

  // ----- The alignment of the exchanged sides

  lemma UnionKeysSwap(e: seq<Occurrence>, p: seq<Occurrence>)
    ensures UnionKeys(p, e) == UnionKeys(e, p)
  {
    KeyOrder();
    SortedSetIsCanonical(KeyLe(), Keys(p) + Keys(e), Keys(e) + Keys(p));
  }

  lemma {:induction false} UniqueOverSwap(keys: seq<Key>, e: seq<Occurrence>, p: seq<Occurrence>)
    ensures UniqueOver(keys, p, e) == Map(Swap(), UniqueOver(keys, e, p))
  {
    if keys != [] {
      var front, k := keys[..|keys| - 1], keys[|keys| - 1];
      UniqueOverSwap(front, e, p);
      MapConcat(Swap(), UniqueOver(front, e, p), UniqueAt(Group(e, k), Group(p, k)));
      assert UniqueAt(Group(p, k), Group(e, k)) == Map(Swap(), UniqueAt(Group(e, k), Group(p, k)));
    }
  }

  lemma {:induction false} AmbiguousOverSwap(keys: seq<Key>, e: seq<Occurrence>, p: seq<Occurrence>)
    ensures |AmbiguousOver(keys, p, e)| == |AmbiguousOver(keys, e, p)|
    ensures ExpectedIds(AmbiguousOver(keys, p, e)) == PredictedIds(AmbiguousOver(keys, e, p))
    ensures PredictedIds(AmbiguousOver(keys, p, e)) == ExpectedIds(AmbiguousOver(keys, e, p))
  {
    if keys != [] {
      var front, k := keys[..|keys| - 1], keys[|keys| - 1];
      AmbiguousOverSwap(front, e, p);
      AppendIds(AmbiguousOver(front, e, p), k, Group(e, k), Group(p, k));
      AppendIds(AmbiguousOver(front, p, e), k, Group(p, k), Group(e, k));
    }
  }

  lemma AppendIds(before: seq<AmbiguousGroup>, k: Key, g: seq<Occurrence>, h: seq<Occurrence>)
    ensures var a := AmbiguousAt(k, g, h);
            && ExpectedIds(before + a) == ExpectedIds(before) + (if a == [] then [] else Ids(g))
            && PredictedIds(before + a) == PredictedIds(before) + (if a == [] then [] else Ids(h))
  {
    var a := AmbiguousAt(k, g, h);
    if a == [] {
      PlusEmpty(before);
      PlusEmpty(ExpectedIds(before));
      PlusEmpty(PredictedIds(before));
    } else {
      assert (before + a)[..|before|] == before;
    }
  }

  lemma AlignSwapped(e: seq<Occurrence>, p: seq<Occurrence>)
    ensures var a, a' := AlignOf(e, p), AlignOf(p, e);
            && multiset(a'.unique) == multiset(Map(Swap(), a.unique))
            && a'.unmatchedExpected == a.unmatchedPredicted && a'.unmatchedPredicted == a.unmatchedExpected
            && |a'.ambiguous| == |a.ambiguous|
            && ExpectedIds(a'.ambiguous) == PredictedIds(a.ambiguous)
            && PredictedIds(a'.ambiguous) == ExpectedIds(a.ambiguous)
  {
    var keys := UnionKeys(e, p);
    UnionKeysSwap(e, p);
    UniqueOverSwap(keys, e, p);
    AmbiguousOverSwap(keys, e, p);
    SortMultiset(PairLe(), UniqueOver(keys, e, p));
    SortMultiset(PairLe(), UniqueOver(keys, p, e));
    MapMultiset(Swap(), UniqueOver(keys, e, p), Sort(PairLe(), UniqueOver(keys, e, p)));
  }

  // ----- Correct slots are counted over pairs

  function PairSlots(same: Comparer, slots: seq<SlotName>): Pair -> nat {
    (x: Pair) => Sum(SlotsRight(same, x.0, x.1), slots)
  }

  lemma GroupSum(e: seq<Occurrence>, p: seq<Occurrence>, k: Key, same: Comparer, slots: seq<SlotName>)
    requires Distinct(Ids(e)) && Distinct(Ids(p))
    ensures Sum(CorrectSlots(same, slots, ById(AlignOf(e, p).unique)), Group(e, k)) ==
            Sum(PairSlots(same, slots), UniqueAt(Group(e, k), Group(p, k)))
  {
    var g, h := Group(e, k), Group(p, k);
    var f := CorrectSlots(same, slots, ById(AlignOf(e, p).unique));
    if |g| == 1 && |h| == 1 {
      GroupMembers(e, k, g[0]);
      assert Paired(e, p, g[0], h[0]);
      ByIdIsPartner(e, p, g[0]);
      assert Sum(f, g) == f(g[0]);
      assert Sum(PairSlots(same, slots), [(g[0], h[0])]) == PairSlots(same, slots)((g[0], h[0]));
    } else {
      forall a | a in g ensures f(a) == 0 {
        GroupMembers(e, k, a);
        ByIdIsPartner(e, p, a);
      }
      SumOfZeros(f, g);
    }
  }

  lemma {:induction false} GroupsSum(keys: seq<Key>, e: seq<Occurrence>, p: seq<Occurrence>, same: Comparer, slots: seq<SlotName>)
    requires Distinct(Ids(e)) && Distinct(Ids(p))
    ensures Sum(CorrectSlots(same, slots, ById(AlignOf(e, p).unique)), GroupsOver(keys, e)) ==
            Sum(PairSlots(same, slots), UniqueOver(keys, e, p))
  {
    if keys != [] {
      var front, k := keys[..|keys| - 1], keys[|keys| - 1];
      GroupsSum(front, e, p, same, slots);
      GroupSum(e, p, k, same, slots);
      SumConcat(CorrectSlots(same, slots, ById(AlignOf(e, p).unique)), GroupsOver(front, e), Group(e, k));
      SumConcat(PairSlots(same, slots), UniqueOver(front, e, p), UniqueAt(Group(e, k), Group(p, k)));
    }
  }

  lemma SlotsOverPairs(e: seq<Occurrence>, p: seq<Occurrence>, same: Comparer, slots: seq<SlotName>)
    requires Distinct(Ids(e)) && Distinct(Ids(p))
    ensures Sum(CorrectSlots(same, slots, ById(AlignOf(e, p).unique)), e) ==
            Sum(PairSlots(same, slots), AlignOf(e, p).unique)
  {
    var keys := UnionKeys(e, p);
    UnionKeysElements(e, p);
    KeysCover(e, p);
    GroupsOverAll(keys, e);
    GroupsSum(keys, e, p, same, slots);
    SumPermutation(CorrectSlots(same, slots, ById(AlignOf(e, p).unique)), GroupsOver(keys, e), e);
    SortMultiset(PairLe(), UniqueOver(keys, e, p));
    SumPermutation(PairSlots(same, slots), UniqueOver(keys, e, p), AlignOf(e, p).unique);
  }

  /** The slot comparison treats both sides alike. */
  ghost predicate Symmetric(same: Comparer) {
    forall a, b, s :: same(a, b, s) == same(b, a, s)
  }

  lemma SlotsSwapped(e: seq<Occurrence>, p: seq<Occurrence>, same: Comparer, slots: seq<SlotName>)
    requires Distinct(Ids(e)) && Distinct(Ids(p)) && Symmetric(same)
    ensures Sum(CorrectSlots(same, slots, ById(AlignOf(e, p).unique)), e) ==
            Sum(CorrectSlots(same, slots, ById(AlignOf(p, e).unique)), p)
  {
    SlotsOverPairs(e, p, same, slots);
    SlotsOverPairs(p, e, same, slots);
    AlignSwapped(e, p);
    var u := AlignOf(e, p).unique;
    SumPermutation(PairSlots(same, slots), AlignOf(p, e).unique, Map(Swap(), u));
    forall x ensures PairSlots(same, slots)(Swap()(x)) == PairSlots(same, slots)(x) {
      SumCongruence(SlotsRight(same, x.1, x.0), SlotsRight(same, x.0, x.1), slots);
    }
    SumMap(PairSlots(same, slots), Swap(), PairSlots(same, slots), u);
  }

  lemma CorrectSwapped(e: Bundle, p: Bundle, same: Comparer, slots: seq<SlotName>)
    requires ValidBundle(e) && ValidBundle(p) && Symmetric(same)
    ensures FieldRatio(e, AlignOf(e.occurrences, p.occurrences).unique, same, slots).correct ==
            FieldRatio(p, AlignOf(p.occurrences, e.occurrences).unique, same, slots).correct
  {
    var E, P := e.occurrences, p.occurrences;
    SlotsSwapped(E, P, same, slots);
    NoSlots(E, P, same, slots);
    NoSlots(P, E, same, slots);
  }

  /** With nothing to count on, nothing is counted. */
  lemma NoSlots(e: seq<Occurrence>, p: seq<Occurrence>, same: Comparer, slots: seq<SlotName>)
    ensures |e| * |slots| == 0 ==> Sum(CorrectSlots(same, slots, ById(AlignOf(e, p).unique)), e) == 0
  {
    if |e| * |slots| == 0 {
      if slots == [] {
        SumOfZeros(CorrectSlots(same, slots, ById(AlignOf(e, p).unique)), e);
      } else {
        assert |e| == 0;
      }
    }
  }

  // ----- Relations

  /** The two maps undo each other. */
  predicate Inverse(m: map<string, string>, w: map<string, string>) {
    && (forall x | x in m :: m[x] in w && w[m[x]] == x)
    && (forall y | y in w :: w[y] in m && m[w[y]] == y)
  }

  lemma IdMapsInverse(e: seq<Occurrence>, p: seq<Occurrence>)
    requires Distinct(Ids(e)) && Distinct(Ids(p))
    ensures Inverse(IdMap(AlignOf(e, p).unique), IdMap(AlignOf(p, e).unique))
  {
    HalfInverse(e, p);
    HalfInverse(p, e);
  }

  lemma HalfInverse(e: seq<Occurrence>, p: seq<Occurrence>)
    requires Distinct(Ids(e)) && Distinct(Ids(p))
    ensures var m, w := IdMap(AlignOf(e, p).unique), IdMap(AlignOf(p, e).unique);
            forall x | x in m :: m[x] in w && w[m[x]] == x
  {
    var u := AlignOf(e, p).unique;
    UniqueIsMatching(e, p);
    forall x | x in IdMap(u)
      ensures IdMap(u)[x] in IdMap(AlignOf(p, e).unique) && IdMap(AlignOf(p, e).unique)[IdMap(u)[x]] == x
    {
      var i := ByIdOrigin(u, x);
      var (a, b) := u[i];
      assert (a, b) in u;
      assert Paired(p, e, b, a);
      ByIdIsPartner(p, e, b);
    }
  }

  function CarryTriple(m: map<string, string>): Triple -> Triple {
    (t: Triple) => (t.0, Rename(m, t.1), Rename(m, t.2))
  }

  lemma {:induction false} CarriedIsMap(m: map<string, string>, rels: seq<Relation>)
    ensures Carried(m, rels) == Map(CarryTriple(m), AlignedTriples(m.Keys, rels))
  {
    if rels != [] {
      var front, last := rels[..|rels| - 1], rels[|rels| - 1];
      CarriedIsMap(m, front);
      if Mapped(m, last) {
        MapConcat(Carry(m), Eligible(m, front), [last]);
        MapConcat(CarryTriple(m), AlignedTriples(m.Keys, front), [TripleOf()(last)]);
      }
    }
  }

  lemma {:induction false} AlignedMembers(ids: set<string>, rels: seq<Relation>)
    ensures forall t | t in AlignedTriples(ids, rels) :: Aligned(ids, t)
  {
    if rels != [] { AlignedMembers(ids, rels[..|rels| - 1]); }
  }

  lemma CarryInjective(m: map<string, string>, w: map<string, string>, s: seq<Triple>)
    requires Inverse(m, w) && forall t | t in s :: Aligned(m.Keys, t)
    ensures forall x, y | x in s && y in s && CarryTriple(m)(x) == CarryTriple(m)(y) :: x == y
  {
    forall x, y | x in s && y in s && CarryTriple(m)(x) == CarryTriple(m)(y) ensures x == y {
      assert w[m[x.1]] == x.1 && w[m[y.1]] == y.1 && w[m[x.2]] == x.2 && w[m[y.2]] == y.2;
    }
  }

  lemma CarryBackAndForth(m: map<string, string>, w: map<string, string>, b: seq<Triple>)
    requires Inverse(m, w) && forall t | t in b :: Aligned(w.Keys, t)
    ensures Map(CarryTriple(m), Map(CarryTriple(w), b)) == b
    ensures forall t | t in Map(CarryTriple(w), b) :: Aligned(m.Keys, t)
  {
    forall i | 0 <= i < |b|
      ensures CarryTriple(m)(CarryTriple(w)(b[i])) == b[i] && Aligned(m.Keys, CarryTriple(w)(b[i]))
    {
      assert b[i] in b;
    }
  }

  /** Matches counted on expected ids or on predicted ids are the same number. */
  lemma MatchesSwapped(m: map<string, string>, w: map<string, string>, e: seq<Relation>, p: seq<Relation>)
    requires Inverse(m, w)
    ensures Matches(m, e, p) == Matches(w, p, e)
  {
    ValuesAreKeys(m, w);
    ValuesAreKeys(w, m);
    var a, b := AlignedTriples(m.Keys, e), AlignedTriples(w.Keys, p);
    var back := Map(CarryTriple(w), b);
    CarriedIsMap(m, e);
    CarriedIsMap(w, p);
    AlignedSurplus(m, e, p);
    AlignedSurplus(w, p, e);
    AlignedMembers(m.Keys, e);
    AlignedMembers(w.Keys, p);
    CarryBackAndForth(m, w, b);
    CarryInjective(m, w, a + back);
    IntersectionMap(CarryTriple(m), a, back);
    IntersectionBound(multiset(a), multiset(back));
  }

  lemma ValuesAreKeys(m: map<string, string>, w: map<string, string>)
    requires Inverse(m, w)
    ensures m.Keys == w.Values
  {
    forall x | x in m ensures x in w.Values { assert w[m[x]] == x; }
    forall x | x in w.Values ensures x in m { var y :| y in w && w[y] == x; }
  }

  // ----- The verdict

  function Inverted(f: map<string, string>): map<string, string>
    requires forall x, y | x in f && y in f && f[x] == f[y] :: x == y
  {
    map y | y in f.Values :: var x :| x in f && f[x] == y; x
  }

  lemma InvertedFacts(f: map<string, string>)
    requires forall x, y | x in f && y in f && f[x] == f[y] :: x == y
    ensures var g := Inverted(f);
            && g.Keys == f.Values && g.Values == f.Keys
            && (forall x | x in f :: f[x] in g && g[f[x]] == x)
            && (forall y | y in g :: g[y] in f && f[g[y]] == y)
  {
    var g := Inverted(f);
    forall x | x in f ensures f[x] in g && g[f[x]] == x { assert f[x] in f.Values; }
    forall x ensures x in g.Values <==> x in f.Keys {
      if x in f { assert g[f[x]] == x; }
    }
  }

  lemma IsomorphismInverts(e: Bundle, p: Bundle, f: map<string, string>)
    requires ValidBundle(e) && ValidBundle(p) && Isomorphism(e, p, f)
    ensures Isomorphism(p, e, Inverted(f))
  {
    var g := Inverted(f);
    InvertedFacts(f);
    forall a, b | a in p.occurrences && b in e.occurrences
      ensures multiset(a.anchors) == multiset(b.anchors) <==> a.id in g && g[a.id] == b.id
      ensures multiset(a.anchors) == multiset(b.anchors) ==> Agree(a, b)
    {
      IdListed(e.occurrences, b);
      if multiset(a.anchors) == multiset(b.anchors) { assert Agree(b, a); }
    }
    CarriedBack(e, p, f, g);
  }

  lemma CarriedBack(e: Bundle, p: Bundle, f: map<string, string>, g: map<string, string>)
    requires ValidBundle(e) && Isomorphism(e, p, f)
    requires forall x | x in f :: f[x] in g && g[f[x]] == x
    ensures multiset(Map(Carry(g), p.relations)) == multiset(Triples(e.relations))
  {
    var carried := Map(Carry(f), e.relations);
    MapMultiset(CarryTriple(g), carried, Triples(p.relations));
    assert Map(CarryTriple(g), Triples(p.relations)) == Map(Carry(g), p.relations);
    forall i | 0 <= i < |e.relations| ensures CarryTriple(g)(carried[i]) == Triples(e.relations)[i] {
      assert EndpointsPresent(e, e.relations[i]);
    }
    assert Map(CarryTriple(g), carried) == Triples(e.relations);
  }

  lemma ExactSymmetric(e: Bundle, p: Bundle)
    requires ValidBundle(e) && ValidBundle(p)
    ensures TallyOf(e, p).exact == TallyOf(p, e).exact
  {
    ExactIffIsomorphic(e, p);
    ExactIffIsomorphic(p, e);
    if f :| Isomorphism(e, p, f) { IsomorphismInverts(e, p, f); }
    if f :| Isomorphism(p, e, f) { IsomorphismInverts(p, e, f); }
  }

  // ----- Duality

  /** The second tally is the first seen from the other side. */
  predicate Dual(t: Tally, s: Tally) {
    && s.detection == Detection(t.detection.tp, t.detection.fn, t.detection.fp)
    && s.fieldValue.correct == t.fieldValue.correct
    && s.provenance.correct == t.provenance.correct
    && s.relationEndToEnd == EndToEnd(
         t.relationEndToEnd.tp, t.relationEndToEnd.fn, t.relationEndToEnd.fp,
         t.relationEndToEnd.predictedN, t.relationEndToEnd.expectedN, t.relationEndToEnd.measured)
    && s.unresolved == t.unresolved
    && s.ambiguity == AmbiguityCounts(
         t.ambiguity.groups, t.ambiguity.predictedOccurrences, t.ambiguity.expectedOccurrences)
    && s.exact == t.exact
  }

  lemma FlagsSwapped(u: seq<Pair>, u': seq<Pair>)
    requires multiset(u') == multiset(Map(Swap(), u))
    ensures UnresolvedRatio(u') == UnresolvedRatio(u)
  {
    PermutationLength(u', Map(Swap(), u));
    SumPermutation(SameFlag(), u', Map(Swap(), u));
    SumMap(SameFlag(), Swap(), SameFlag(), u);
  }

  lemma RelationsSwapped(e: Bundle, p: Bundle)
    requires ValidBundle(e) && ValidBundle(p)
    ensures var t := RelationBlock(e, p, AlignOf(e.occurrences, p.occurrences).unique);
            RelationBlock(p, e, AlignOf(p.occurrences, e.occurrences).unique) ==
            EndToEnd(t.tp, t.fn, t.fp, t.predictedN, t.expectedN, t.measured)
  {
    IdMapsInverse(e.occurrences, p.occurrences);
    MatchesSwapped(
      IdMap(AlignOf(e.occurrences, p.occurrences).unique), IdMap(AlignOf(p.occurrences, e.occurrences).unique),
      e.relations, p.relations);
  }

  /** Exchanging the sides keeps every count of agreement and the verdict, and
      exchanges false positives with false negatives. */
  lemma ScoreIsDual(e: Bundle, p: Bundle)
    requires ValidBundle(e) && ValidBundle(p)
    ensures Dual(TallyOf(e, p), TallyOf(p, e))
  {
    var a, a' := AlignOf(e.occurrences, p.occurrences), AlignOf(p.occurrences, e.occurrences);
    AlignSwapped(e.occurrences, p.occurrences);
    PermutationLength(a'.unique, Map(Swap(), a.unique));
    CorrectSwapped(e, p, SlotMatch(), SLOTS);
    CorrectSwapped(e, p, SourceMatch(), SOURCE_SLOTS);
    FlagsSwapped(a.unique, a'.unique);
    RelationsSwapped(e, p);
    ExactSymmetric(e, p);
  }
}
