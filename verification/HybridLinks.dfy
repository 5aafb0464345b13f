/** What the relation numbers of a score count, said with relations and occurrences
    instead of id maps, triples and multisets. */
module HybridLinks {
  import opened Sequences
  import opened HybridRecords
  import opened HybridAlign
  import opened HybridScore
  import opened HybridMatching
  import opened HybridExact
  import opened HybridCounts

  // ----- Relations that say the same

  /** The two ids are those of partners. */
  ghost predicate Linked(e: seq<Occurrence>, p: seq<Occurrence>, x: string, y: string) {
    exists a, b :: (a, b) in Partnered(e, p) && a.id == x && b.id == y
  }

  /** The same relation between partners. */
  ghost predicate Corresponds(e: seq<Occurrence>, p: seq<Occurrence>, r: Relation, q: Relation) {
    r.rel == q.rel && Linked(e, p, r.source, q.source) && Linked(e, p, r.target, q.target)
  }

  /** Gives some expected relations a predicted one each that says the same, never the same one twice. */
  ghost predicate RelationMatching(e: Bundle, p: Bundle, f: map<Relation, Relation>) {
    && (forall r | r in f ::
          r in e.relations && f[r] in p.relations && Corresponds(e.occurrences, p.occurrences, r, f[r]))
    && (forall r, q | r in f && q in f && f[r] == f[q] :: r == q)
  }

  function FirstIds(e: seq<Occurrence>, p: seq<Occurrence>): set<string> { set x | x in Partnered(e, p) :: x.0.id }

  function SecondIds(e: seq<Occurrence>, p: seq<Occurrence>): set<string> { set x | x in Partnered(e, p) :: x.1.id }

  function Between(ids: set<string>): Relation -> bool { (r: Relation) => r.source in ids && r.target in ids }

  // ----- The id map

  lemma LinkedIsMapped(e: seq<Occurrence>, p: seq<Occurrence>, x: string, y: string)
    requires Distinct(Ids(e)) && Distinct(Ids(p))
    ensures var m := IdMap(AlignOf(e, p).unique); Linked(e, p, x, y) <==> x in m && m[x] == y
  {
    var u := AlignOf(e, p).unique;
    PartneredAreUnique(e, p);
    PairIdsDistinct(e, p);
    if a, b :| (a, b) in Partnered(e, p) && a.id == x && b.id == y {
      assert (a, b) in u;
      var i :| 0 <= i < |u| && u[i] == (a, b);
      ByIdLookup(u, i);
    }
    if x in IdMap(u) && IdMap(u)[x] == y {
      var i := ByIdOrigin(u, x);
      assert u[i] in u;
      assert (u[i].0, u[i].1) in Partnered(e, p);
    }
  }

  lemma IdMapEnds(e: seq<Occurrence>, p: seq<Occurrence>)
    requires Distinct(Ids(e)) && Distinct(Ids(p))
    ensures IdMap(AlignOf(e, p).unique).Keys == FirstIds(e, p)
    ensures IdMap(AlignOf(e, p).unique).Values == SecondIds(e, p)
  {
    var m := IdMap(AlignOf(e, p).unique);
    forall x | x in Partnered(e, p) ensures x.0.id in m && m[x.0.id] == x.1.id {
      assert (x.0, x.1) in Partnered(e, p);
      LinkedIsMapped(e, p, x.0.id, x.1.id);
    }
    forall x | x in m ensures x in FirstIds(e, p) && m[x] in SecondIds(e, p) {
      LinkedIsMapped(e, p, x, m[x]);
    }
  }

  lemma {:induction false} EligibleIsFilter(m: map<string, string>, rels: seq<Relation>)
    ensures Eligible(m, rels) == Filter(Between(m.Keys), rels)
  {
    if rels != [] { EligibleIsFilter(m, rels[..|rels| - 1]); }
  }

  lemma {:induction false} AlignedIsFilter(ids: set<string>, rels: seq<Relation>)
    ensures |AlignedTriples(ids, rels)| == |Filter(Between(ids), rels)|
  {
    if rels != [] { AlignedIsFilter(ids, rels[..|rels| - 1]); }
  }

  lemma RelationsDistinct(b: Bundle)
    requires ValidBundle(b)
    ensures Distinct(b.relations)
  {
    forall i, j | 0 <= i < j < |b.relations| ensures b.relations[i] != b.relations[j] {
      assert Map(RelationId(), b.relations)[i] != Map(RelationId(), b.relations)[j];
    }
  }

  // ----- Matchings of relations are matchings of positions

  function Position<T(==)>(s: seq<T>, x: T): (i: nat)
    requires x in s
    ensures i < |s| && s[i] == x
  {
    if s[0] == x then 0
    else
      assert s == [s[0]] + s[1..];
      1 + Position(s[1..], x)
  }

  function Positions<T(==)>(s: seq<T>, some: set<T>): set<nat> { set i: nat | i < |s| && s[i] in some }

  /** A set of members takes as many positions as it has members. */
  lemma {:induction false} PositionsSize<T>(s: seq<T>, some: set<T>)
    requires Distinct(s) && forall x | x in some :: x in s
    ensures |Positions(s, some)| == |some|
    decreases some
  {
    if some == {} {
      assert Positions(s, some) == {};
    } else {
      var x :| x in some;
      PositionsSize(s, some - {x});
      var i := Position(s, x);
      assert i !in Positions(s, some - {x});
      assert Positions(s, some) == Positions(s, some - {x}) + {i};
    }
  }

  lemma DistinctPosition<T>(s: seq<T>, i: nat)
    requires Distinct(s) && i < |s|
    ensures Position(s, s[i]) == i
  {
  }

  lemma FilterDistinct<T>(test: T -> bool, s: seq<T>)
    requires Distinct(s)
    ensures Distinct(Filter(test, s))
  {
    DistinctCounts(s);
    var part := Filter(test, s);
    forall x | x in part ensures multiset(part)[x] == 1 { FilterMembers(test, s, x); }
    DistinctCounts(part);
  }

  /** With the id map, an expected relation corresponds to a predicted one exactly when it
      is eligible and its carried triple is the predicted one's. */
  lemma CorrespondsIff(e: Bundle, p: Bundle, r: Relation, q: Relation)
    requires ValidBundle(e) && ValidBundle(p)
    ensures var m := IdMap(AlignOf(e.occurrences, p.occurrences).unique);
            Corresponds(e.occurrences, p.occurrences, r, q) <==> Between(m.Keys)(r) && Carry(m)(r) == TripleOf()(q)
  {
    LinkedIsMapped(e.occurrences, p.occurrences, r.source, q.source);
    LinkedIsMapped(e.occurrences, p.occurrences, r.target, q.target);
  }

  ghost predicate Respects<A, B, T>(rows: seq<A>, others: seq<B>, s: A -> T, t: B -> T, f: map<A, B>) {
    && (forall a | a in f :: a in rows && f[a] in others && s(a) == t(f[a]))
    && (forall a, b | a in f && b in f && f[a] == f[b] :: a == b)
  }

  lemma ToPositions<A, B, T>(rows: seq<A>, others: seq<B>, s: A -> T, t: B -> T, f: map<A, B>) returns (g: map<nat, nat>)
    requires Distinct(rows) && Respects(rows, others, s, t, f)
    ensures Matching(Map(s, rows), Map(t, others), g) && |g| == |f|
  {
    var at := Positions(rows, f.Keys);
    PositionsSize(rows, f.Keys);
    g := map i | i in at :: Position(others, f[rows[i]]);
    assert g.Keys == at;
    forall i, j | i in g && j in g && g[i] == g[j] ensures i == j {
      assert f[rows[i]] == others[g[i]] == f[rows[j]];
    }
  }

  lemma FromPositions<A, B, T>(rows: seq<A>, others: seq<B>, s: A -> T, t: B -> T, g: map<nat, nat>) returns (f: map<A, B>)
    requires Distinct(rows) && Distinct(others) && Matching(Map(s, rows), Map(t, others), g)
    ensures Respects(rows, others, s, t, f) && |f| == |g|
  {
    var some := set a | a in rows && Position(rows, a) in g;
    f := map a | a in some :: others[g[Position(rows, a)]];
    assert f.Keys == some;
    forall a | a in f ensures a in rows && f[a] in others && s(a) == t(f[a]) {
      var i := Position(rows, a);
      assert Map(s, rows)[i] == Map(t, others)[g[i]];
    }
    forall a, b | a in f && b in f && f[a] == f[b] ensures a == b {
      DistinctPosition(others, g[Position(rows, a)]);
      DistinctPosition(others, g[Position(rows, b)]);
    }
    PositionsOfMembers(rows, g.Keys, some);
  }

  lemma PositionsOfMembers<T>(s: seq<T>, at: set<nat>, some: set<T>)
    requires Distinct(s) && (forall i | i in at :: i < |s|) && forall x :: x in some <==> x in s && Position(s, x) in at
    ensures |at| == |some|
  {
    forall i ensures i in at <==> i in Positions(s, some) {
      if 0 <= i < |s| { DistinctPosition(s, i); }
    }
    assert at == Positions(s, some);
    PositionsSize(s, some);
  }

  lemma RespectsIsMatching(e: Bundle, p: Bundle, m: map<string, string>, f: map<Relation, Relation>)
    requires ValidBundle(e) && ValidBundle(p) && m == IdMap(AlignOf(e.occurrences, p.occurrences).unique)
    ensures RelationMatching(e, p, f) <==> Respects(Eligible(m, e.relations), p.relations, Carry(m), TripleOf(), f)
  {
    forall r | r in f ensures FitsBoth(e, p, m, r, f[r]) { SaysTheSame(e, p, m, r, f[r]); }
    EachFits(e, p, m, f);
  }

  /** Saying the same, and being carried onto, come to the same. */
  ghost predicate FitsBoth(e: Bundle, p: Bundle, m: map<string, string>, r: Relation, q: Relation) {
    r in e.relations && Corresponds(e.occurrences, p.occurrences, r, q) <==>
    r in Eligible(m, e.relations) && Carry(m)(r) == TripleOf()(q)
  }

  lemma EachFits(e: Bundle, p: Bundle, m: map<string, string>, f: map<Relation, Relation>)
    requires forall r | r in f :: FitsBoth(e, p, m, r, f[r])
    ensures RelationMatching(e, p, f) <==> Respects(Eligible(m, e.relations), p.relations, Carry(m), TripleOf(), f)
  {
  }

  lemma SaysTheSame(e: Bundle, p: Bundle, m: map<string, string>, r: Relation, q: Relation)
    requires ValidBundle(e) && ValidBundle(p) && m == IdMap(AlignOf(e.occurrences, p.occurrences).unique)
    ensures FitsBoth(e, p, m, r, q)
  {
    CorrespondsIff(e, p, r, q);
    EligibleIsFilter(m, e.relations);
    FilterMembers(Between(m.Keys), e.relations, r);
  }

  // ----- The theorem

  /** The relation true positives are the size of a largest matching of expected relations
      with predicted ones that say the same between partners; the rest of each side are
      misses and surplus. */
  ghost predicate CountsRelations(b: EndToEnd, e: Bundle, p: Bundle) {
    && (forall f | RelationMatching(e, p, f) :: |f| <= b.tp)
    && (exists f :: RelationMatching(e, p, f) && |f| == b.tp)
    && b.tp + b.fn == b.expectedN == |e.relations| && b.tp + b.fp == b.predictedN == |p.relations|
    && (b.measured <==> e.relations != [] || p.relations != [])
  }

  /** The conditional ratio is over the expected relations between partnered occurrences, and
      the extra ones are those predicted between partnered occurrences that are no true positives. */
  predicate CountsLinked(r: Ratio, extra: nat, tp: nat, e: Bundle, p: Bundle) {
    && r.correct == tp
    && r.denominator == |Passing(Elements(e.relations), Between(FirstIds(e.occurrences, p.occurrences)))|
    && (r.measured <==> r.denominator != 0) && (!r.measured ==> tp == 0)
    && extra + tp == |Passing(Elements(p.relations), Between(SecondIds(e.occurrences, p.occurrences)))|
  }

  lemma RelationsCounted(e: Bundle, p: Bundle)
    requires ValidBundle(e) && ValidBundle(p)
    ensures var t := TallyOf(e, p);
            && CountsRelations(t.relationEndToEnd, e, p)
            && CountsLinked(t.relationConditional, t.extraAmongAligned, t.relationEndToEnd.tp, e, p)
  {
    var u := AlignOf(e.occurrences, p.occurrences).unique;
    BlockCounted(e, p, u);
    LinkedCounted(e, p, u);
    TallyParts(e, p, u);
  }

  lemma TallyParts(e: Bundle, p: Bundle, u: seq<Pair>)
    requires u == AlignOf(e.occurrences, p.occurrences).unique
    ensures var t := TallyOf(e, p);
            && t.relationEndToEnd == RelationBlock(e, p, u) && t.relationConditional == ConditionalRatio(e, p, u)
            && t.extraAmongAligned == ExtraAligned(e, p, u)
  {
  }

  lemma BlockCounted(e: Bundle, p: Bundle, u: seq<Pair>)
    requires ValidBundle(e) && ValidBundle(p) && u == AlignOf(e.occurrences, p.occurrences).unique
    ensures CountsRelations(RelationBlock(e, p, u), e, p)
    ensures RelationBlock(e, p, u).tp == Matches(IdMap(u), e.relations, p.relations)
  {
    EligibleSize(IdMap(u), e.relations);
    MatchingsCounted(e, p, IdMap(u));
  }

  lemma LinkedCounted(e: Bundle, p: Bundle, u: seq<Pair>)
    requires ValidBundle(e) && ValidBundle(p) && u == AlignOf(e.occurrences, p.occurrences).unique
    ensures CountsLinked(ConditionalRatio(e, p, u), ExtraAligned(e, p, u), Matches(IdMap(u), e.relations, p.relations), e, p)
  {
    var m := IdMap(u);
    IdMapEnds(e.occurrences, p.occurrences);
    RelationsDistinct(e);
    RelationsDistinct(p);
    EligibleIsFilter(m, e.relations);
    AlignedIsFilter(m.Values, p.relations);
    FilterSize(Between(m.Keys), e.relations);
    FilterSize(Between(m.Values), p.relations);
    AlignedSurplus(m, e.relations, p.relations);
  }

  lemma MatchingsCounted(e: Bundle, p: Bundle, m: map<string, string>)
    requires ValidBundle(e) && ValidBundle(p) && m == IdMap(AlignOf(e.occurrences, p.occurrences).unique)
    ensures forall f | RelationMatching(e, p, f) :: |f| <= Matches(m, e.relations, p.relations)
    ensures exists f :: RelationMatching(e, p, f) && |f| == Matches(m, e.relations, p.relations)
  {
    var rows := Eligible(m, e.relations);
    GreedyIsOptimal(m, e.relations, p.relations);
    EligibleIsFilter(m, e.relations);
    RelationsDistinct(e);
    RelationsDistinct(p);
    FilterDistinct(Between(m.Keys), e.relations);
    forall f | RelationMatching(e, p, f) ensures |f| <= Matches(m, e.relations, p.relations) {
      RespectsIsMatching(e, p, m, f);
      var g := ToPositions(rows, p.relations, Carry(m), TripleOf(), f);
    }
    var g: map<nat, nat> :|
      Matching(Carried(m, e.relations), Triples(p.relations), g) && |g| == Matches(m, e.relations, p.relations);
    var f := FromPositions(rows, p.relations, Carry(m), TripleOf(), g);
    RespectsIsMatching(e, p, m, f);
  }
}
