/** A report does not depend on the order of anything in either file, nor on the
    predicted occurrence ids. */
module HybridInvariance {
  import opened Sequences
  import opened HybridRecords
  import opened HybridTwin
  import opened HybridAlign
  import opened HybridSymmetry
  import opened HybridReport

  // ----- Reordered files

  lemma ReorderedSymmetric(b: Bundle, b': Bundle)
    requires Reordered(b, b')
    ensures Reordered(b', b)
  {
  }

  lemma ReorderedCitations(b: Bundle, b': Bundle)
    requires Reordered(b, b')
    ensures SameCitations(b, b')
  {
    forall a ensures a in CitedAnchors(b.occurrences) <==> a in CitedAnchors(b'.occurrences) {
      CitedBy(b.occurrences, a);
      CitedBy(b'.occurrences, a);
      assert forall o :: o in b.occurrences <==> o in multiset(b'.occurrences);
    }
    FragmentsFollow(b, b');
    FragmentsFollow(b', b);
  }

  lemma BundleOkReordered(documents: seq<Document>, b: Bundle, b': Bundle)
    requires Reordered(b, b') && BundleOk(documents, b)
    ensures BundleOk(documents, b')
  {
    ValidityIgnoresOrder(b, b');
    ReorderedCitations(b, b');
    MapMultiset(KeyFn(), b.occurrences, b'.occurrences);
    DistinctPermutation(Keys(b.occurrences), Keys(b'.occurrences));
    BundleFitsFollows(documents, b, b');
  }

  /** Each bundle of r is, reordered, a bundle of r'. */
  predicate Covers(r: seq<Bundle>, r': seq<Bundle>) {
    forall b | b in r :: exists b' :: b' in r' && Reordered(b, b')
  }

  /** The same file with bundles, and occurrences and relations inside them, in
      another order. */
  predicate ReorderedFile(r: Records, r': Records) {
    && r' == r.(bundles := r'.bundles)
    && Covers(r.bundles, r'.bundles) && Covers(r'.bundles, r.bundles)
    && multiset(BundleIds(r.bundles)) == multiset(BundleIds(r'.bundles))
  }

  /** Reordering inside each bundle and then permuting the bundles is such a change. */
  lemma PermutedFile(r: Records, inside: seq<Bundle>, r': Records)
    requires r' == r.(bundles := r'.bundles)
    requires |inside| == |r.bundles| && forall i | 0 <= i < |inside| :: Reordered(r.bundles[i], inside[i])
    requires multiset(inside) == multiset(r'.bundles)
    ensures ReorderedFile(r, r')
  {
    forall b | b in r.bundles ensures exists b' :: b' in r'.bundles && Reordered(b, b') {
      var i :| 0 <= i < |r.bundles| && r.bundles[i] == b;
      assert inside[i] in multiset(r'.bundles);
    }
    forall b' | b' in r'.bundles ensures exists b :: b in r.bundles && Reordered(b', b) {
      assert b' in multiset(inside);
      var i :| 0 <= i < |inside| && inside[i] == b';
      ReorderedSymmetric(r.bundles[i], inside[i]);
      assert r.bundles[i] in r.bundles;
    }
    forall i | 0 <= i < |inside| ensures BundleIds(inside)[i] == BundleIds(r.bundles)[i] {
      assert Reordered(r.bundles[i], inside[i]);
    }
    assert BundleIds(inside) == BundleIds(r.bundles);
    MapMultiset(BundleId(), inside, r'.bundles);
  }

  lemma ReferencedFollows(r: seq<Bundle>, r': seq<Bundle>)
    requires Covers(r, r')
    ensures Referenced(r) <= Referenced(r')
  {
    forall id | id in Referenced(r) ensures id in Referenced(r') {
      var b :| b in r && id in CitedFragments(b);
      var b' :| b' in r' && Reordered(b, b');
      ReorderedCitations(b, b');
    }
  }

  lemma BundlesReordered(r: Records, r': Records, b': Bundle)
    requires ReorderedFile(r, r') && b' in r'.bundles
    requires forall b | b in r.bundles :: BundleOk(r.documents, b)
    ensures BundleOk(r.documents, b')
  {
    var b :| b in r.bundles && Reordered(b', b);
    ReorderedSymmetric(b', b);
    BundleOkReordered(r.documents, b, b');
  }

  lemma WellFormedFrom(r: Records, r': Records)
    requires WellFormed(r) && r' == r.(bundles := r'.bundles)
    requires forall b' | b' in r'.bundles :: BundleOk(r.documents, b')
    requires Referenced(r.bundles) == Referenced(r'.bundles)
    ensures WellFormed(r')
  {
    SameLabel(r, r');
  }

  /** Acceptance does not depend on order. */
  lemma WellFormedReordered(r: Records, r': Records)
    requires ReorderedFile(r, r') && WellFormed(r)
    ensures WellFormed(r')
  {
    forall b' | b' in r'.bundles ensures BundleOk(r.documents, b') { BundlesReordered(r, r', b'); }
    ReferencedFollows(r.bundles, r'.bundles);
    ReferencedFollows(r'.bundles, r.bundles);
    WellFormedFrom(r, r');
  }

  lemma ReorderedIds(r: Records, r': Records)
    requires ReorderedFile(r, r') && Distinct(BundleIds(r.bundles))
    ensures Distinct(BundleIds(r'.bundles))
    ensures BundleMap(r.bundles).Keys == BundleMap(r'.bundles).Keys
  {
    DistinctPermutation(BundleIds(r.bundles), BundleIds(r'.bundles));
    BundleMapKeys(r.bundles);
    BundleMapKeys(r'.bundles);
    assert forall id :: id in BundleIds(r.bundles) <==> id in multiset(BundleIds(r'.bundles));
  }

  lemma ReorderedValue(r: Records, r': Records, id: string)
    requires Covers(r.bundles, r'.bundles) && Distinct(BundleIds(r'.bundles)) && id in BundleMap(r.bundles)
    ensures id in BundleMap(r'.bundles) && Reordered(BundleMap(r.bundles)[id], BundleMap(r'.bundles)[id])
  {
    var b := BundleMap(r.bundles)[id];
    MapValueListed(r.bundles, id);
    var b' :| b' in r'.bundles && Reordered(b, b');
    BundleMapValues(r'.bundles, b');
  }

  lemma ReorderedKeys(r: Records, r': Records)
    requires ReorderedFile(r, r') && Distinct(BundleIds(r.bundles))
    ensures Distinct(BundleIds(r'.bundles))
    ensures BundleMap(r.bundles).Keys == BundleMap(r'.bundles).Keys
    ensures forall id | id in BundleMap(r.bundles) :: Reordered(BundleMap(r.bundles)[id], BundleMap(r'.bundles)[id])
  {
    ReorderedIds(r, r');
    forall id | id in BundleMap(r.bundles)
      ensures Reordered(BundleMap(r.bundles)[id], BundleMap(r'.bundles)[id])
    {
      ReorderedValue(r, r', id);
    }
  }

  lemma FocusReordered(e: Bundle, e': Bundle)
    requires ValidBundle(e) && ValidBundle(e') && Reordered(e, e') && e.occurrences != []
    ensures e'.occurrences != []
    ensures FocusOf(e') == FocusOf(e)
  {
    PermutationLength(e.occurrences, e'.occurrences);
    assert FocusOf(e') in multiset(e.occurrences);
    HybridExact.SameIdSameRow(e.occurrences, FocusOf(e), FocusOf(e'));
  }

  lemma LocalReordered(e: Bundle, p: Bundle, e': Bundle, p': Bundle)
    requires ValidBundle(e) && ValidBundle(e') && Reordered(e, e') && Reordered(p, p')
    ensures LocalTally(e, p) == LocalTally(e', p')
  {
    PermutationLength(e.occurrences, e'.occurrences);
    if e.occurrences != [] {
      FocusReordered(e, e');
      var k := KeyOf(FocusOf(e));
      GroupPermutation(p.occurrences, p'.occurrences, k);
      TallyIgnoresOrder(ExpectedView(e), PredictedView(p, k), ExpectedView(e'), PredictedView(p', k));
    }
  }

  lemma SameRows(pairs: seq<(Bundle, Bundle)>, pairs': seq<(Bundle, Bundle)>)
    requires AllValid(pairs) && AllValid(pairs') && |pairs| == |pairs'|
    requires forall i | 0 <= i < |pairs| :: Reordered(pairs[i].0, pairs'[i].0) && Reordered(pairs[i].1, pairs'[i].1)
    ensures RowsOf(pairs) == RowsOf(pairs')
  {
    forall i | 0 <= i < |pairs| ensures RowOf(pairs[i]) == RowOf(pairs'[i]) {
      assert pairs[i] in pairs && pairs'[i] in pairs';
      TallyIgnoresOrder(pairs[i].0, pairs[i].1, pairs'[i].0, pairs'[i].1);
      LocalReordered(pairs[i].0, pairs[i].1, pairs'[i].0, pairs'[i].1);
    }
  }

  /** Reordering bundles, occurrences or relations, in one file or in both, changes
      neither whether the files can be evaluated nor any plane of the report. */
  lemma ReportIgnoresOrder(planes: Planes, ids: seq<string>, e: Records, p: Records, e': Records, p': Records)
    requires ReorderedFile(e, e') && ReorderedFile(p, p') && Evaluable(e, p)
    requires Lists(ids, BundleMap(e.bundles).Keys * BundleMap(p.bundles).Keys)
    ensures Evaluable(e', p')
    ensures Lists(ids, BundleMap(e'.bundles).Keys * BundleMap(p'.bundles).Keys)
    ensures HasPlanes(planes, ids, e, p) <==> HasPlanes(planes, ids, e', p')
  {
    WellFormedReordered(e, e');
    WellFormedReordered(p, p');
    ReorderedKeys(e, e');
    ReorderedKeys(p, p');
    MatchedValid(ids, e, p);
    MatchedValid(ids, e', p');
    var pairs, pairs' := MatchedPairs(ids, e.bundles, p.bundles), MatchedPairs(ids, e'.bundles, p'.bundles);
    forall i | 0 <= i < |ids| ensures Reordered(pairs[i].0, pairs'[i].0) && Reordered(pairs[i].1, pairs'[i].1) {
      assert ids[i] in ids;
    }
    SameRows(pairs, pairs');
  }

  // ----- Renamed predicted ids

  /** A renaming per bundle. */
  type Renaming = string -> string -> string

  function Renamed(f: Renaming): Bundle -> Bundle {
    (b: Bundle) => RenameBundle(f(b.bundleId), b)
  }

  function RenameFile(f: Renaming, r: Records): Records {
    r.(bundles := Map(Renamed(f), r.bundles))
  }

  /** The renaming is one to one inside each bundle and gives no empty id. */
  predicate Proper(f: Renaming, b: Bundle) {
    var g := f(b.bundleId);
    && InjectiveOn(g, Ids(b.occurrences))
    && g(b.focusId) != "" && forall id | id in Ids(b.occurrences) :: g(id) != ""
  }

  lemma RenamedIds(g: string -> string, b: Bundle)
    requires Distinct(Ids(b.occurrences)) && InjectiveOn(g, Ids(b.occurrences))
    ensures Ids(RenameBundle(g, b).occurrences) == Map(g, Ids(b.occurrences))
    ensures Distinct(Ids(RenameBundle(g, b).occurrences))
    ensures forall id | id in Ids(b.occurrences) :: g(id) in Ids(RenameBundle(g, b).occurrences)
  {
    var ids := Ids(b.occurrences);
    assert Ids(RenameBundle(g, b).occurrences) == Map(g, ids);
    forall i, j | 0 <= i < j < |ids| ensures Map(g, ids)[i] != Map(g, ids)[j] {
      assert ids[i] in ids && ids[j] in ids && ids[i] != ids[j];
    }
    forall id | id in ids ensures g(id) in Map(g, ids) {
      var i :| 0 <= i < |ids| && ids[i] == id;
      assert Map(g, ids)[i] == g(id);
    }
  }

  lemma RenamedValid(f: Renaming, b: Bundle)
    requires ValidBundle(b) && Proper(f, b)
    ensures ValidBundle(Renamed(f)(b))
  {
    var g := f(b.bundleId);
    var c := RenameBundle(g, b);
    RenamedIds(g, b);
    forall o | o in c.occurrences ensures OccurrenceOk(o) {
      var i :| 0 <= i < |b.occurrences| && c.occurrences[i] == o;
      assert Ids(b.occurrences)[i] == b.occurrences[i].id;
      assert OccurrenceOk(b.occurrences[i]);
    }
    assert Map(RelationId(), c.relations) == Map(RelationId(), b.relations);
    forall r | r in c.relations ensures RelationOk(r) && EndpointsPresent(c, r) {
      var i :| 0 <= i < |b.relations| && c.relations[i] == r;
      assert EndpointsPresent(b, b.relations[i]) && RelationOk(b.relations[i]);
    }
  }

  lemma {:induction false} CitedRenamed(g: string -> string, rows: seq<Occurrence>)
    ensures CitedAnchors(Map(RenameOccurrence(g), rows)) == CitedAnchors(rows)
  {
    if rows != [] {
      assert Map(RenameOccurrence(g), rows)[..|rows| - 1] == Map(RenameOccurrence(g), rows[..|rows| - 1]);
      CitedRenamed(g, rows[..|rows| - 1]);
    }
  }

  lemma BundleOkRenamed(f: Renaming, documents: seq<Document>, b: Bundle)
    requires BundleOk(documents, b) && Proper(f, b)
    ensures BundleOk(documents, Renamed(f)(b))
    ensures SameCitations(b, Renamed(f)(b))
  {
    var g := f(b.bundleId);
    RenamedValid(f, b);
    CitedRenamed(g, b.occurrences);
    KeysMap(RenameOccurrence(g), b.occurrences);
    BundleFitsFollows(documents, b, Renamed(f)(b));
  }

  lemma WellFormedRenamed(f: Renaming, r: Records)
    requires WellFormed(r) && forall b | b in r.bundles :: Proper(f, b)
    ensures WellFormed(RenameFile(f, r))
  {
    var r' := RenameFile(f, r);
    forall i | 0 <= i < |r.bundles|
      ensures BundleOk(r.documents, r'.bundles[i]) && SameCitations(r.bundles[i], r'.bundles[i])
    {
      assert r.bundles[i] in r.bundles;
      BundleOkRenamed(f, r.documents, r.bundles[i]);
    }
    ReferencedSame(r.bundles, r'.bundles);
    WellFormedFrom(r, r');
  }

  lemma {:induction false} BundleMapRenamed(f: Renaming, bundles: seq<Bundle>)
    ensures BundleMap(Map(Renamed(f), bundles)).Keys == BundleMap(bundles).Keys
    ensures forall id | id in BundleMap(bundles) :: BundleMap(Map(Renamed(f), bundles))[id] == Renamed(f)(BundleMap(bundles)[id])
  {
    if bundles != [] {
      var front := bundles[..|bundles| - 1];
      BundleMapRenamed(f, front);
      var renamed, last := Map(Renamed(f), bundles), bundles[|bundles| - 1];
      assert renamed[..|bundles| - 1] == Map(Renamed(f), front);
      assert renamed[|bundles| - 1] == Renamed(f)(last) == RenameBundle(f(last.bundleId), last);
    }
  }

  lemma LocalRenamed(g: string -> string, e: Bundle, p: Bundle)
    requires ValidBundle(e) && ValidBundle(p) && InjectiveOn(g, Ids(p.occurrences))
    ensures LocalTally(e, RenameBundle(g, p)) == LocalTally(e, p)
  {
    if e.occurrences != [] {
      var k := KeyOf(FocusOf(e));
      var v, w, w' := ExpectedView(e), PredictedView(p, k), PredictedView(RenameBundle(g, p), k);
      ViewsAreValid(e, p);
      GroupMap(RenameOccurrence(g), p.occurrences, k);
      forall id | id in Ids(w.occurrences) ensures id in Ids(p.occurrences) {
        var i :| 0 <= i < |w.occurrences| && Ids(w.occurrences)[i] == id;
        GroupMembers(p.occurrences, k, w.occurrences[i]);
        HybridExact.IdListed(p.occurrences, w.occurrences[i]);
      }
      TallyIgnoresIds(g, v, w);
      assert RenameBundle(g, w).relations == w'.relations == [];
      TallyIgnoresOrder(v, RenameBundle(g, w), v, w');
    }
  }

  lemma RenamedRows(f: Renaming, pairs: seq<(Bundle, Bundle)>, pairs': seq<(Bundle, Bundle)>)
    requires AllValid(pairs) && AllValid(pairs') && |pairs| == |pairs'|
    requires forall i | 0 <= i < |pairs| :: pairs'[i] == (pairs[i].0, Renamed(f)(pairs[i].1)) && Proper(f, pairs[i].1)
    ensures RowsOf(pairs) == RowsOf(pairs')
  {
    forall i | 0 <= i < |pairs| ensures RowOf(pairs[i]) == RowOf(pairs'[i]) {
      assert pairs[i] in pairs;
      var g := f(pairs[i].1.bundleId);
      TallyIgnoresIds(g, pairs[i].0, pairs[i].1);
      LocalRenamed(g, pairs[i].0, pairs[i].1);
    }
  }

  /** Renaming the predicted occurrences one to one, through focus and relations,
      changes no plane of the report. */
  lemma ReportIgnoresIds(planes: Planes, ids: seq<string>, e: Records, p: Records, f: Renaming)
    requires Evaluable(e, p) && forall b | b in p.bundles :: Proper(f, b)
    requires Lists(ids, BundleMap(e.bundles).Keys * BundleMap(p.bundles).Keys)
    ensures Evaluable(e, RenameFile(f, p))
    ensures Lists(ids, BundleMap(e.bundles).Keys * BundleMap(RenameFile(f, p).bundles).Keys)
    ensures HasPlanes(planes, ids, e, p) <==> HasPlanes(planes, ids, e, RenameFile(f, p))
  {
    var p' := RenameFile(f, p);
    WellFormedRenamed(f, p);
    BundleMapRenamed(f, p.bundles);
    assert BundleIds(p'.bundles) == BundleIds(p.bundles);
    MatchedValid(ids, e, p);
    MatchedValid(ids, e, p');
    var pairs, pairs' := MatchedPairs(ids, e.bundles, p.bundles), MatchedPairs(ids, e.bundles, p'.bundles);
    forall i | 0 <= i < |ids| ensures pairs'[i] == (pairs[i].0, Renamed(f)(pairs[i].1)) && Proper(f, pairs[i].1) {
      assert ids[i] in ids && pairs[i] in pairs;
    }
    RenamedRows(f, pairs, pairs');
  }
}
