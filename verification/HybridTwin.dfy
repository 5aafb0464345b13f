/** What the acceptance of a file depends on: the anchors its bundles cite, and
    that no key is duplicated. */
module HybridTwin {
  import opened Sequences
  import opened HybridRecords

  // ----- What a bundle cites

  lemma {:induction false} CitedBy(rows: seq<Occurrence>, a: Anchor)
    ensures a in CitedAnchors(rows) <==> exists o :: o in rows && a in OccurrenceAnchors(o)
  {
    if rows != [] {
      var front, last := rows[..|rows| - 1], rows[|rows| - 1];
      CitedBy(front, a);
      assert rows == front + [last];
      if o :| o in rows && a in OccurrenceAnchors(o) { assert o in front || o == last; }
      if o :| o in front && a in OccurrenceAnchors(o) { assert o in rows; }
      assert last in rows;
    }
  }

  /** The same anchors are cited, in whatever order. */
  ghost predicate SameCitations(b: Bundle, b': Bundle) {
    && (forall a :: a in CitedAnchors(b.occurrences) <==> a in CitedAnchors(b'.occurrences))
    && (forall id :: id in CitedFragments(b) <==> id in CitedFragments(b'))
  }

  lemma FragmentsFollow(b: Bundle, b': Bundle)
    requires b.declaredRegion == b'.declaredRegion && b.contextOnly == b'.contextOnly
    requires forall a | a in CitedAnchors(b.occurrences) :: a in CitedAnchors(b'.occurrences)
    ensures forall id | id in CitedFragments(b) :: id in CitedFragments(b')
  {
    var s, t := CitedAnchors(b.occurrences), CitedAnchors(b'.occurrences);
    forall id | id in Map(FragmentOf(), s) ensures id in Map(FragmentOf(), t) {
      var i :| 0 <= i < |s| && Map(FragmentOf(), s)[i] == id;
      assert s[i] in s;
      var j :| 0 <= j < |t| && t[j] == s[i];
      assert Map(FragmentOf(), t)[j] == id;
    }
  }

  lemma BundleFitsFollows(documents: seq<Document>, b: Bundle, b': Bundle)
    requires BundleFits(documents, b) && SameCitations(b, b') && Distinct(Keys(b'.occurrences))
    ensures BundleFits(documents, b')
  {
    var d :| d in documents && InDocument(d, CitedFragments(b));
    assert InDocument(d, CitedFragments(b'));
  }

  lemma SameLabel(r: Records, r': Records)
    requires r.documents == r'.documents && Referenced(r.bundles) == Referenced(r'.bundles)
    ensures DerivedValidation(r) == DerivedValidation(r')
  {
  }

  lemma ReferencedSame(r: seq<Bundle>, r': seq<Bundle>)
    requires |r| == |r'| && forall i | 0 <= i < |r| :: SameCitations(r[i], r'[i])
    ensures Referenced(r') == Referenced(r)
  {
    forall id ensures id in Referenced(r') <==> id in Referenced(r) {
      if b :| b in r && id in CitedFragments(b) {
        var i :| 0 <= i < |r| && r[i] == b;
        assert SameCitations(r[i], r'[i]) && r'[i] in r';
      }
      if b :| b in r' && id in CitedFragments(b) {
        var i :| 0 <= i < |r'| && r'[i] == b;
        assert SameCitations(r[i], r'[i]) && r[i] in r;
      }
    }
  }

  // ----- A duplicated anchor key

  /** The file with a copy of one occurrence, under a new id, added to its bundle. */
  function WithTwin(r: Records, i: nat, j: nat, id: string): Records
    requires i < |r.bundles| && j < |r.bundles[i].occurrences|
  {
    var b := r.bundles[i];
    r.(bundles := r.bundles[i := b.(occurrences := b.occurrences + [b.occurrences[j].(id := id)])])
  }

  lemma TwinBundle(documents: seq<Document>, b: Bundle, j: nat, id: string)
    requires BundleOk(documents, b) && j < |b.occurrences| && id != "" && id !in Ids(b.occurrences)
    ensures var c := b.(occurrences := b.occurrences + [b.occurrences[j].(id := id)]);
            && ValidBundle(c) && SameCitations(b, c) && !Distinct(Keys(c.occurrences))
  {
    var twin := b.occurrences[j].(id := id);
    var c := b.(occurrences := b.occurrences + [twin]);
    assert Ids(c.occurrences) == Ids(b.occurrences) + [id];
    assert OccurrenceOk(b.occurrences[j]);
    forall r | r in c.relations ensures EndpointsPresent(c, r) { assert EndpointsPresent(b, r); }
    assert Keys(c.occurrences)[j] == Keys(c.occurrences)[|b.occurrences|];
    assert c.occurrences[..|c.occurrences| - 1] == b.occurrences;
    assert OccurrenceAnchors(twin) == OccurrenceAnchors(b.occurrences[j]);
    forall a ensures a in CitedAnchors(c.occurrences) <==> a in CitedAnchors(b.occurrences) {
      CitedBy(b.occurrences, a);
    }
    FragmentsFollow(b, c);
    FragmentsFollow(c, b);
  }

  lemma OnlyKeysDiffer(documents: seq<Document>, b: Bundle, c: Bundle)
    requires BundleOk(documents, b) && SameCitations(b, c)
    ensures forall code | code != AmbiguousDuplicate :: !BundleDefect(documents, c, code)
  {
    var d :| d in documents && InDocument(d, CitedFragments(b));
    assert InDocument(d, CitedFragments(c));
    forall f | f in CitedFragments(c) ensures f in FragmentIds(documents) { IdLocation(documents, f); }
  }

  lemma TwinFile(r: Records, i: nat, j: nat, id: string)
    requires WellFormed(r) && i < |r.bundles| && j < |r.bundles[i].occurrences|
    requires id != "" && id !in Ids(r.bundles[i].occurrences)
    ensures var r' := WithTwin(r, i, j, id);
            && DerivedValidation(r') == DerivedValidation(r)
            && (exists b :: b in r'.bundles && BundleDefect(r.documents, b, AmbiguousDuplicate))
            && (forall b | b in r'.bundles :: WellShaped(b) && Connected(b))
            && (forall b, code | b in r'.bundles && code != AmbiguousDuplicate :: !BundleDefect(r.documents, b, code))
  {
    var r' := WithTwin(r, i, j, id);
    TwinBundles(r, i, j, id);
    assert BundleDefect(r.documents, r'.bundles[i], AmbiguousDuplicate) && r'.bundles[i] in r'.bundles;
    ReferencedSame(r.bundles, r'.bundles);
    SameLabel(r, r');
  }

  lemma TwinBundles(r: Records, i: nat, j: nat, id: string)
    requires WellFormed(r) && i < |r.bundles| && j < |r.bundles[i].occurrences|
    requires id != "" && id !in Ids(r.bundles[i].occurrences)
    ensures var r' := WithTwin(r, i, j, id);
            && !Distinct(Keys(r'.bundles[i].occurrences))
            && (forall k | 0 <= k < |r.bundles| ::
                  SameCitations(r.bundles[k], r'.bundles[k]) && ValidBundle(r'.bundles[k])
                  && forall code | code != AmbiguousDuplicate :: !BundleDefect(r.documents, r'.bundles[k], code))
  {
    var r' := WithTwin(r, i, j, id);
    assert r.bundles[i] in r.bundles;
    TwinBundle(r.documents, r.bundles[i], j, id);
    forall k | 0 <= k < |r.bundles|
      ensures SameCitations(r.bundles[k], r'.bundles[k]) && ValidBundle(r'.bundles[k])
      ensures forall code | code != AmbiguousDuplicate :: !BundleDefect(r.documents, r'.bundles[k], code)
    {
      assert BundleOk(r.documents, r.bundles[k]);
      OnlyKeysDiffer(r.documents, r.bundles[k], r'.bundles[k]);
    }
  }

  /** Adding such a copy to any accepted file makes it unacceptable, and the
      duplicate key is the only defect the validator can name. */
  lemma DuplicateKeyIsCaught(r: Records, i: nat, j: nat, id: string)
    requires WellFormed(r) && i < |r.bundles| && j < |r.bundles[i].occurrences|
    requires id != "" && id !in Ids(r.bundles[i].occurrences)
    ensures !WellFormed(WithTwin(r, i, j, id))
    ensures forall code :: Defect(WithTwin(r, i, j, id), code) <==> code == AmbiguousDuplicate
  {
    TwinFile(r, i, j, id);
    var r' := WithTwin(r, i, j, id);
    var b :| b in r'.bundles && BundleDefect(r.documents, b, AmbiguousDuplicate);
    forall code ensures Defect(r', code) <==> code == AmbiguousDuplicate {
      if code == AmbiguousDuplicate { assert Defect(r', code); }
    }
  }
}
