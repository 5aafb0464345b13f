/** The exact-bundle verdict says that the two bundles are the same up to the
    choice of occurrence ids. */
module HybridExact {
  import opened Sequences
  import opened HybridRecords
  import opened HybridAlign
  import opened HybridScore

  // ----- What the verdict should mean

  /** The labels the two occurrences must share: the three values, the sources of
      date and number, and the unresolved flag. */
  predicate Agree(e: Occurrence, p: Occurrence) {
    && (forall s | s in SLOTS :: SlotOf(e, s).value == SlotOf(p, s).value)
    && (forall s | s in SOURCE_SLOTS :: SlotOf(e, s).source == SlotOf(p, s).source)
    && e.unresolved == p.unresolved
  }

  /** f renames the ids of e one to one onto those of p so that the same anchors,
      the same labels and the same relations result. */
  ghost predicate Isomorphism(e: Bundle, p: Bundle, f: map<string, string>) {
    && f.Keys == (set id | id in Ids(e.occurrences))
    && f.Values == (set id | id in Ids(p.occurrences))
    && (forall x, y | x in f && y in f && f[x] == f[y] :: x == y)
    && (forall a, b | a in e.occurrences && b in p.occurrences ::
          (multiset(a.anchors) == multiset(b.anchors) <==> a.id in f && f[a.id] == b.id))
    && (forall a, b | a in e.occurrences && b in p.occurrences && multiset(a.anchors) == multiset(b.anchors) ::
          Agree(a, b))
    && multiset(Map(Carry(f), e.relations)) == multiset(Triples(p.relations))
  }

  // ----- Looking up pairs by id

  predicate DistinctFirsts(u: seq<Pair>) {
    forall i, j | 0 <= i < j < |u| :: u[i].0.id != u[j].0.id
  }

  lemma {:induction false} ByIdLookup(u: seq<Pair>, i: nat)
    requires DistinctFirsts(u) && i < |u|
    ensures u[i].0.id in ById(u) && ById(u)[u[i].0.id] == u[i].1
  {
    if i < |u| - 1 { ByIdLookup(u[..|u| - 1], i); }
  }

  lemma {:induction false} ByIdOrigin(u: seq<Pair>, id: string) returns (i: nat)
    requires id in ById(u)
    ensures i < |u| && u[i].0.id == id && u[i].1 == ById(u)[id]
  {
    if u[|u| - 1].0.id == id {
      i := |u| - 1;
    } else {
      i := ByIdOrigin(u[..|u| - 1], id);
    }
  }

  lemma SameIdSameRow(rows: seq<Occurrence>, a: Occurrence, b: Occurrence)
    requires Distinct(Ids(rows)) && a in rows && b in rows && a.id == b.id
    ensures a == b
  {
    var i :| 0 <= i < |rows| && rows[i] == a;
    var j :| 0 <= j < |rows| && rows[j] == b;
    assert Ids(rows)[i] == Ids(rows)[j];
  }

  lemma RowOfId(rows: seq<Occurrence>, id: string) returns (o: Occurrence)
    requires id in Ids(rows)
    ensures o in rows && o.id == id
  {
    var i :| 0 <= i < |rows| && Ids(rows)[i] == id;
    o := rows[i];
  }

  lemma IdListed(rows: seq<Occurrence>, o: Occurrence)
    requires o in rows
    ensures o.id in Ids(rows)
  {
    var i :| 0 <= i < |rows| && rows[i] == o;
    assert Ids(rows)[i] == o.id;
  }

  lemma RowsDistinct(rows: seq<Occurrence>)
    requires Distinct(Ids(rows))
    ensures Distinct(rows)
  {
    forall i, j | 0 <= i < j < |rows| ensures rows[i] != rows[j] {
      assert Ids(rows)[i] != Ids(rows)[j];
    }
  }

  lemma PairIdsDistinct(e: seq<Occurrence>, p: seq<Occurrence>)
    requires Distinct(Ids(e)) && Distinct(Ids(p))
    ensures DistinctFirsts(AlignOf(e, p).unique)
    ensures forall x, y | x in AlignOf(e, p).unique && y in AlignOf(e, p).unique ::
              x.0.id == y.0.id || x.1.id == y.1.id ==> x == y
  {
    UniqueIsMatching(e, p);
    var u := AlignOf(e, p).unique;
    forall x, y | x in u && y in u && (x.0.id == y.0.id || x.1.id == y.1.id) ensures x == y {
      assert (x.0, x.1) in u && (y.0, y.1) in u;
      if x.0.id == y.0.id { SameIdSameRow(e, x.0, y.0); } else { SameIdSameRow(p, x.1, y.1); }
      var i :| 0 <= i < |u| && u[i] == x;
      var j :| 0 <= j < |u| && u[j] == y;
    }
    forall i, j | 0 <= i < j < |u| ensures u[i].0.id != u[j].0.id {
      assert u[i] in u && u[j] in u && u[i].0 != u[j].0;
    }
  }

  /** With unique ids, an id is in the map exactly when its occurrence is paired. */
  lemma ByIdIsPartner(e: seq<Occurrence>, p: seq<Occurrence>, a: Occurrence)
    requires Distinct(Ids(e)) && Distinct(Ids(p)) && a in e
    ensures var byId := ById(AlignOf(e, p).unique);
            && (forall b :: Paired(e, p, a, b) <==> a.id in byId && byId[a.id] == b)
            && (a.id in byId ==> Paired(e, p, a, byId[a.id]))
  {
    UniqueIsMatching(e, p);
    PairIdsDistinct(e, p);
    var u := AlignOf(e, p).unique;
    forall b ensures Paired(e, p, a, b) <==> a.id in ById(u) && ById(u)[a.id] == b {
      if Paired(e, p, a, b) {
        assert (a, b) in u;
        var i :| 0 <= i < |u| && u[i] == (a, b);
        ByIdLookup(u, i);
      }
      if a.id in ById(u) && ById(u)[a.id] == b {
        var i := ByIdOrigin(u, a.id);
        assert (u[i].0, u[i].1) in u;
        SameIdSameRow(e, u[i].0, a);
      }
    }
  }

  // ----- Clean detection

  ghost predicate FullyPaired(e: seq<Occurrence>, p: seq<Occurrence>) {
    && (forall a | a in e :: exists b :: Paired(e, p, a, b))
    && (forall b | b in p :: exists a :: Paired(e, p, a, b))
  }

  predicate Clean(a: Alignment) {
    a.unmatchedExpected == [] && a.unmatchedPredicted == [] && a.ambiguous == []
  }

  lemma {:induction false} AmbiguousNonEmpty(keys: seq<Key>, e: seq<Occurrence>, p: seq<Occurrence>)
    ensures ExpectedIds(AmbiguousOver(keys, e, p)) == [] ==> AmbiguousOver(keys, e, p) == []
  {
    var groups := AmbiguousOver(keys, e, p);
    if keys != [] {
      var front := keys[..|keys| - 1];
      AmbiguousNonEmpty(front, e, p);
      var last := AmbiguousAt(keys[|keys| - 1], Group(e, keys[|keys| - 1]), Group(p, keys[|keys| - 1]));
      if last == [] {
        assert groups == AmbiguousOver(front, e, p);
      } else {
        assert groups[|groups| - 1] == last[0] && |last[0].expectedIds| > 0;
      }
    }
  }

  lemma NothingElse<T>(all: seq<T>, u: seq<T>, n: seq<T>, a: seq<T>, x: T)
    requires multiset(all) == multiset(u) + multiset(n) + multiset(a)
    requires n == [] && a == [] && x in all
    ensures x in u
  {
    assert x in multiset(all);
    assert multiset(all)[x] == multiset(u)[x] + multiset(n)[x] + multiset(a)[x];
  }

  lemma CleanExpected(e: seq<Occurrence>, p: seq<Occurrence>, a: Occurrence) returns (b: Occurrence)
    requires Distinct(Ids(e)) && a in e && Clean(AlignOf(e, p))
    ensures Paired(e, p, a, b)
  {
    var r := AlignOf(e, p);
    AlignIsPartition(e, p);
    UniqueIsMatching(e, p);
    IdListed(e, a);
    NothingElse(Ids(e), Map(FirstId(), r.unique), r.unmatchedExpected, ExpectedIds(r.ambiguous), a.id);
    var i :| 0 <= i < |r.unique| && Map(FirstId(), r.unique)[i] == a.id;
    b := r.unique[i].1;
    assert (r.unique[i].0, b) in r.unique;
    SameIdSameRow(e, r.unique[i].0, a);
  }

  lemma CleanPredicted(e: seq<Occurrence>, p: seq<Occurrence>, b: Occurrence) returns (a: Occurrence)
    requires Distinct(Ids(p)) && b in p && Clean(AlignOf(e, p))
    ensures Paired(e, p, a, b)
  {
    var r := AlignOf(e, p);
    AlignIsPartition(e, p);
    UniqueIsMatching(e, p);
    IdListed(p, b);
    NothingElse(Ids(p), Map(SecondId(), r.unique), r.unmatchedPredicted, PredictedIds(r.ambiguous), b.id);
    var i :| 0 <= i < |r.unique| && Map(SecondId(), r.unique)[i] == b.id;
    a := r.unique[i].0;
    assert (a, r.unique[i].1) in r.unique;
    SameIdSameRow(p, r.unique[i].1, b);
  }

  lemma CleanImpliesPaired(e: seq<Occurrence>, p: seq<Occurrence>)
    requires Distinct(Ids(e)) && Distinct(Ids(p))
    requires Clean(AlignOf(e, p))
    ensures FullyPaired(e, p)
  {
    forall a | a in e ensures exists b :: Paired(e, p, a, b) {
      var b := CleanExpected(e, p, a);
    }
    forall b | b in p ensures exists a :: Paired(e, p, a, b) {
      var a := CleanPredicted(e, p, b);
    }
  }

  lemma NothingLeft<T>(all: seq<T>, u: seq<T>, n: seq<T>, a: seq<T>)
    requires multiset(all) == multiset(u) + multiset(n) + multiset(a)
    requires Distinct(all) && forall x | x in all :: x in u
    ensures n == [] && a == []
  {
    DistinctCounts(all);
    forall x ensures multiset(n)[x] == 0 && multiset(a)[x] == 0 {
      assert multiset(all)[x] == multiset(u)[x] + multiset(n)[x] + multiset(a)[x];
      assert x in all <==> x in multiset(all);
      assert x in u <==> x in multiset(u);
    }
    assert multiset(n) == multiset{} && multiset(a) == multiset{};
    assert |multiset(n)| == |n| && |multiset(a)| == |a|;
  }

  lemma PairedImpliesClean(e: seq<Occurrence>, p: seq<Occurrence>)
    requires Distinct(Ids(e)) && Distinct(Ids(p))
    requires FullyPaired(e, p)
    ensures Clean(AlignOf(e, p))
  {
    var r := AlignOf(e, p);
    var u := r.unique;
    AlignIsPartition(e, p);
    UniqueIsMatching(e, p);
    forall id | id in Ids(e) ensures id in Map(FirstId(), u) {
      var a := RowOfId(e, id);
      var b :| Paired(e, p, a, b);
      assert (a, b) in u;
      var i :| 0 <= i < |u| && u[i] == (a, b);
      assert Map(FirstId(), u)[i] == id;
    }
    forall id | id in Ids(p) ensures id in Map(SecondId(), u) {
      var b := RowOfId(p, id);
      var a :| Paired(e, p, a, b);
      assert (a, b) in u;
      var i :| 0 <= i < |u| && u[i] == (a, b);
      assert Map(SecondId(), u)[i] == id;
    }
    NothingLeft(Ids(e), Map(FirstId(), u), r.unmatchedExpected, ExpectedIds(r.ambiguous));
    NothingLeft(Ids(p), Map(SecondId(), u), r.unmatchedPredicted, PredictedIds(r.ambiguous));
    AmbiguousNonEmpty(UnionKeys(e, p), e, p);
  }

  // ----- Full planes

  lemma SlotsAllRight(same: Comparer, e: Occurrence, p: Occurrence, slots: seq<SlotName>)
    ensures Sum(SlotsRight(same, e, p), slots) <= |slots|
    ensures Sum(SlotsRight(same, e, p), slots) == |slots| <==> forall s | s in slots :: same(e, p, s)
  {
    SumBound(SlotsRight(same, e, p), slots, 1);
    SumReachesBound(SlotsRight(same, e, p), slots, 1);
  }

  /** A field plane is full, or not measured, exactly when every pair gets every slot right. */
  lemma FieldPlaneFull(e: Bundle, p: Bundle, same: Comparer, slots: seq<SlotName>)
    requires ValidBundle(e) && ValidBundle(p) && FullyPaired(e.occurrences, p.occurrences)
    ensures var u := AlignOf(e.occurrences, p.occurrences).unique;
            var r := FieldRatio(e, u, same, slots);
            (r.measured ==> r.correct == r.denominator) <==>
            (forall a, b, s | (a, b) in u && s in slots :: same(a, b, s))
  {
    var E, P := e.occurrences, p.occurrences;
    var u := AlignOf(E, P).unique;
    var f := CorrectSlots(same, slots, ById(u));
    UniqueIsMatching(E, P);
    forall a | a in E
      ensures f(a) <= |slots|
      ensures f(a) == |slots| <==> forall b, s | (a, b) in u && s in slots :: same(a, b, s)
    {
      ByIdIsPartner(E, P, a);
      var b :| Paired(E, P, a, b);
      assert ById(u)[a.id] == b;
      SlotsAllRight(same, a, b, slots);
      assert (a, b) in u && forall b' | (a, b') in u :: b' == b;
    }
    SumBound(f, E, |slots|);
    SumReachesBound(f, E, |slots|);
    if E == [] { assert forall a, b | (a, b) in u :: a in E; }
    var r := FieldRatio(e, u, same, slots);
    if slots == [] {
      assert |E| * |slots| == 0;
    } else if E != [] {
      assert |E| * |slots| > 0;
    }
  }

  lemma UnresolvedPlaneFull(u: seq<Pair>)
    ensures var r := UnresolvedRatio(u);
            (r.measured ==> r.correct == r.denominator) <==>
            (forall a, b | (a, b) in u :: a.unresolved == b.unresolved)
  {
    SumBound(SameFlag(), u, 1);
    SumReachesBound(SameFlag(), u, 1);
    assert forall x | x in u :: SameFlag()(x) == 1 <==> x.0.unresolved == x.1.unresolved;
    if forall a, b | (a, b) in u :: a.unresolved == b.unresolved {
      forall x | x in u ensures SameFlag()(x) == 1 { assert (x.0, x.1) in u; }
    }
  }

  lemma {:induction false} AllEligible(m: map<string, string>, rels: seq<Relation>)
    requires forall r | r in rels :: Mapped(m, r)
    ensures Eligible(m, rels) == rels
  {
    if rels != [] {
      LastSplit(rels);
      var front := rels[..|rels| - 1];
      forall r | r in front ensures Mapped(m, r) { assert r in rels; }
      AllEligible(m, front);
    }
  }

  lemma FullIntersection<T>(a: multiset<T>, b: multiset<T>)
    ensures |a * b| == |a| == |b| <==> a == b
  {
    IntersectionBound(a, b);
    IntersectionBound(b, a);
    if |a * b| == |a| == |b| {
      assert |a - b| == 0 && |b - a| == 0;
      assert a == (a * b) + (a - b) && b == (a * b) + (b - a);
      assert a - b == multiset{} && b - a == multiset{};
      assert a * b == b * a;
    }
    if a == b { assert a * b == a; }
  }

  /** The relation plane is full exactly when the carried relations are the predicted ones. */
  lemma RelationPlaneFull(e: Bundle, p: Bundle, u: seq<Pair>)
    requires forall r | r in e.relations :: Mapped(IdMap(u), r)
    ensures var r := RelationBlock(e, p, u);
            (r.measured ==> r.fp == 0 && r.fn == 0) <==>
            multiset(Map(Carry(IdMap(u)), e.relations)) == multiset(Triples(p.relations))
  {
    var m := IdMap(u);
    AllEligible(m, e.relations);
    var a, b := multiset(Carried(m, e.relations)), multiset(Triples(p.relations));
    assert |a| == |e.relations| && |b| == |p.relations|;
    FullIntersection(a, b);
    IntersectionBound(a, b);
  }

  // ----- The verdict, and what it means

  /** The verdict on a clean alignment, plane by plane. */
  lemma ExactUnfolded(e: Bundle, p: Bundle)
    requires Clean(AlignOf(e.occurrences, p.occurrences))
    ensures var u := AlignOf(e.occurrences, p.occurrences).unique;
            var fields := FieldRatio(e, u, SlotMatch(), SLOTS);
            var provenance := FieldRatio(e, u, SourceMatch(), SOURCE_SLOTS);
            var unresolved := UnresolvedRatio(u);
            var relations := RelationBlock(e, p, u);
            TallyOf(e, p).exact <==>
            && (fields.measured ==> fields.correct == fields.denominator)
            && (provenance.measured ==> provenance.correct == provenance.denominator)
            && (unresolved.measured ==> unresolved.correct == unresolved.denominator)
            && (relations.measured ==> relations.fp == 0 && relations.fn == 0)
  {
  }

  lemma AgreeInPlanes(u: seq<Pair>)
    ensures (forall a, b | (a, b) in u :: Agree(a, b)) <==>
            && (forall a, b, s | (a, b) in u && s in SLOTS :: SlotMatch()(a, b, s))
            && (forall a, b, s | (a, b) in u && s in SOURCE_SLOTS :: SourceMatch()(a, b, s))
            && (forall a, b | (a, b) in u :: a.unresolved == b.unresolved)
  {
    forall a, b | (a, b) in u
      ensures Agree(a, b) <==>
              && (forall s | s in SLOTS :: SlotMatch()(a, b, s))
              && (forall s | s in SOURCE_SLOTS :: SourceMatch()(a, b, s))
              && a.unresolved == b.unresolved
    {}
  }

  lemma ExactInPlanes(e: Bundle, p: Bundle)
    requires ValidBundle(e) && ValidBundle(p) && FullyPaired(e.occurrences, p.occurrences)
    ensures var u := AlignOf(e.occurrences, p.occurrences).unique;
            TallyOf(e, p).exact <==>
            && (forall a, b | (a, b) in u :: Agree(a, b))
            && multiset(Map(Carry(IdMap(u)), e.relations)) == multiset(Triples(p.relations))
  {
    var u := AlignOf(e.occurrences, p.occurrences).unique;
    PairedImpliesClean(e.occurrences, p.occurrences);
    ExactUnfolded(e, p);
    FieldPlaneFull(e, p, SlotMatch(), SLOTS);
    FieldPlaneFull(e, p, SourceMatch(), SOURCE_SLOTS);
    UnresolvedPlaneFull(u);
    AgreeInPlanes(u);
    forall r | r in e.relations ensures Mapped(IdMap(u), r) {
      assert EndpointsPresent(e, r);
      EveryIdMapped(e, p, r.source);
      EveryIdMapped(e, p, r.target);
    }
    RelationPlaneFull(e, p, u);
  }

  lemma EveryIdMapped(e: Bundle, p: Bundle, id: string)
    requires ValidBundle(e) && ValidBundle(p) && FullyPaired(e.occurrences, p.occurrences)
    requires id in Ids(e.occurrences)
    ensures id in IdMap(AlignOf(e.occurrences, p.occurrences).unique)
  {
    var a := RowOfId(e.occurrences, id);
    ByIdIsPartner(e.occurrences, p.occurrences, a);
    var b :| Paired(e.occurrences, p.occurrences, a, b);
  }

  /** When everything is paired, the id map is the one-to-one correspondence of anchors. */
  lemma IdMapIsBijection(e: Bundle, p: Bundle)
    requires ValidBundle(e) && ValidBundle(p) && FullyPaired(e.occurrences, p.occurrences)
    ensures var f := IdMap(AlignOf(e.occurrences, p.occurrences).unique);
            && f.Keys == (set id | id in Ids(e.occurrences))
            && f.Values == (set id | id in Ids(p.occurrences))
            && (forall x, y | x in f && y in f && f[x] == f[y] :: x == y)
            && (forall a, b | a in e.occurrences && b in p.occurrences ::
                  (multiset(a.anchors) == multiset(b.anchors) <==> a.id in f && f[a.id] == b.id))
  {
    var E, P := e.occurrences, p.occurrences;
    var u := AlignOf(E, P).unique;
    var f := IdMap(u);
    UniqueIsMatching(E, P);
    PairIdsDistinct(E, P);
    forall id ensures id in f <==> id in Ids(E) {
      if id in Ids(E) { EveryIdMapped(e, p, id); }
      if id in f {
        var i := ByIdOrigin(u, id);
        assert (u[i].0, u[i].1) in u;
        IdListed(E, u[i].0);
      }
    }
    forall x, y | x in f && y in f && f[x] == f[y] ensures x == y {
      var i := ByIdOrigin(u, x);
      var j := ByIdOrigin(u, y);
      assert u[i] in u && u[j] in u && u[i].1.id == u[j].1.id;
    }
    forall v ensures v in f.Values <==> v in Ids(P) {
      if v in Ids(P) {
        var b := RowOfId(P, v);
        var a :| Paired(E, P, a, b);
        PairedFacts(E, P, a, b);
        ByIdIsPartner(E, P, a);
        assert f[a.id] == v;
      }
      if v in f.Values {
        var id :| id in f && f[id] == v;
        var i := ByIdOrigin(u, id);
        assert (u[i].0, u[i].1) in u;
        IdListed(P, u[i].1);
      }
    }
    forall a, b | a in E && b in P
      ensures multiset(a.anchors) == multiset(b.anchors) <==> a.id in f && f[a.id] == b.id
    {
      AnchorsIffMapped(e, p, a, b);
    }
  }

  lemma AnchorsIffMapped(e: Bundle, p: Bundle, a: Occurrence, b: Occurrence)
    requires ValidBundle(e) && ValidBundle(p) && FullyPaired(e.occurrences, p.occurrences)
    requires a in e.occurrences && b in p.occurrences
    ensures var f := IdMap(AlignOf(e.occurrences, p.occurrences).unique);
            multiset(a.anchors) == multiset(b.anchors) <==> a.id in f && f[a.id] == b.id
  {
    var E, P := e.occurrences, p.occurrences;
    KeyIsAnchorMultiset(a, b);
    ByIdIsPartner(E, P, a);
    var c :| Paired(E, P, a, c);
    PairedFacts(E, P, a, c);
    GroupMembers(P, KeyOf(a), b);
    if c.id == b.id { SameIdSameRow(P, b, c); }
  }

  /** An isomorphism pairs everything, and it is the id map. */
  lemma IsomorphismPairs(e: Bundle, p: Bundle, f: map<string, string>)
    requires ValidBundle(e) && ValidBundle(p) && Isomorphism(e, p, f)
    ensures FullyPaired(e.occurrences, p.occurrences)
  {
    var E, P := e.occurrences, p.occurrences;
    forall a | a in E ensures exists b :: Paired(E, P, a, b) {
      IdListed(E, a);
      assert f[a.id] in f.Values;
      var b := RowOfId(P, f[a.id]);
      IsomorphicPair(e, p, f, a, b);
    }
    forall b | b in P ensures exists a :: Paired(E, P, a, b) {
      IdListed(P, b);
      assert b.id in f.Values;
      var id :| id in f && f[id] == b.id;
      var a := RowOfId(E, id);
      IsomorphicPair(e, p, f, a, b);
    }
  }

  lemma IsomorphicPair(e: Bundle, p: Bundle, f: map<string, string>, a: Occurrence, b: Occurrence)
    requires ValidBundle(e) && ValidBundle(p) && Isomorphism(e, p, f)
    requires a in e.occurrences && b in p.occurrences && a.id in f && f[a.id] == b.id
    ensures Paired(e.occurrences, p.occurrences, a, b)
  {
    var E, P := e.occurrences, p.occurrences;
    var k := KeyOf(a);
    KeyIsAnchorMultiset(a, b);
    forall c | c in E && KeyOf(c) == k ensures c == a {
      KeyIsAnchorMultiset(c, a);
      assert multiset(c.anchors) == multiset(b.anchors);
      SameIdSameRow(E, a, c);
    }
    forall c | c in P && KeyOf(c) == k ensures c == b {
      KeyIsAnchorMultiset(a, c);
      SameIdSameRow(P, b, c);
    }
    OnlyOne(E, k, a);
    OnlyOne(P, k, b);
  }

  lemma OnlyOne(rows: seq<Occurrence>, k: Key, o: Occurrence)
    requires Distinct(Ids(rows)) && o in rows && KeyOf(o) == k
    requires forall c | c in rows && KeyOf(c) == k :: c == o
    ensures Group(rows, k) == [o]
  {
    RowsDistinct(rows);
    DistinctCounts(rows);
    forall c ensures multiset(Group(rows, k))[c] == multiset{o}[c] {
      GroupMembers(rows, k, c);
    }
    assert multiset(Group(rows, k)) == multiset([o]);
    PermutationLength(Group(rows, k), [o]);
    assert Group(rows, k)[0] in multiset([o]);
  }

  /** bundle_exact is sound and complete: it is true exactly when some one-to-one
      renaming of ids carries the expected bundle onto the predicted one. */
  lemma ExactIffIsomorphic(e: Bundle, p: Bundle)
    requires ValidBundle(e) && ValidBundle(p)
    ensures TallyOf(e, p).exact <==> exists f :: Isomorphism(e, p, f)
  {
    var E, P := e.occurrences, p.occurrences;
    var u := AlignOf(E, P).unique;
    UniqueIsMatching(E, P);
    if TallyOf(e, p).exact {
      CleanImpliesPaired(E, P);
      IdMapIsBijection(e, p);
      ExactInPlanes(e, p);
      forall a, b | a in E && b in P && multiset(a.anchors) == multiset(b.anchors) ensures Agree(a, b) {
        AnchorsPaired(e, p, a, b);
      }
      assert Isomorphism(e, p, IdMap(u));
    }
    if f :| Isomorphism(e, p, f) {
      IsomorphismPairs(e, p, f);
      IdMapIsBijection(e, p);
      IsomorphismIsIdMap(e, p, f);
      forall a, b | (a, b) in u ensures Agree(a, b) { KeyIsAnchorMultiset(a, b); }
      ExactInPlanes(e, p);
    }
  }

  lemma AnchorsPaired(e: Bundle, p: Bundle, a: Occurrence, b: Occurrence)
    requires ValidBundle(e) && ValidBundle(p) && FullyPaired(e.occurrences, p.occurrences)
    requires a in e.occurrences && b in p.occurrences && multiset(a.anchors) == multiset(b.anchors)
    ensures (a, b) in AlignOf(e.occurrences, p.occurrences).unique
  {
    var E, P := e.occurrences, p.occurrences;
    UniqueIsMatching(E, P);
    KeyIsAnchorMultiset(a, b);
    var c :| Paired(E, P, a, c);
    GroupMembers(P, KeyOf(a), b);
  }

  lemma IsomorphismIsIdMap(e: Bundle, p: Bundle, f: map<string, string>)
    requires ValidBundle(e) && ValidBundle(p) && Isomorphism(e, p, f)
    requires FullyPaired(e.occurrences, p.occurrences)
    ensures f == IdMap(AlignOf(e.occurrences, p.occurrences).unique)
  {
    var E, P := e.occurrences, p.occurrences;
    var m := IdMap(AlignOf(E, P).unique);
    IdMapIsBijection(e, p);
    forall id | id in f ensures id in m && m[id] == f[id] {
      var a := RowOfId(E, id);
      assert f[id] in f.Values;
      var b := RowOfId(P, f[id]);
      assert multiset(a.anchors) == multiset(b.anchors);
    }
    SameMap(f, m);
  }

  lemma SameMap(f: map<string, string>, m: map<string, string>)
    requires f.Keys == m.Keys && forall id | id in f :: m[id] == f[id]
    ensures f == m
  {
  }
}
