/** What a bundle that fits its documents cites: every anchor and every field source
    is a piece of text of one document. */
module HybridCitations {
  import opened Sequences
  import opened Utf8
  import opened HybridRecords

  /** The occurrence carries the anchor or names it as the source of a field. */
  predicate Cites(o: Occurrence, a: Anchor) {
    || a in o.anchors
    || o.fields.kind.source == Some(a) || o.fields.date.source == Some(a) || o.fields.number.source == Some(a)
  }

  lemma {:induction false} CitedIff(rows: seq<Occurrence>, a: Anchor)
    ensures a in CitedAnchors(rows) <==> exists o :: o in rows && Cites(o, a)
  {
    if rows != [] {
      var front, last := rows[..|rows| - 1], rows[|rows| - 1];
      CitedIff(front, a);
      LastSplit(rows);
      assert forall o :: o in rows <==> o in front || o == last;
      assert a in OccurrenceAnchors(last) <==> Cites(last, a);
    }
  }

  lemma FragmentCited(b: Bundle, id: string)
    ensures id in CitedFragments(b) <==>
            || id in b.declaredRegion || id in b.contextOnly
            || exists o, a :: o in b.occurrences && Cites(o, a) && a.fragment == id
  {
    var cited := CitedAnchors(b.occurrences);
    var ids := Map(FragmentOf(), cited);
    if id in ids {
      var i :| 0 <= i < |ids| && ids[i] == id;
      CitedIff(b.occurrences, cited[i]);
    }
    if o, a :| o in b.occurrences && Cites(o, a) && a.fragment == id {
      CitedIff(b.occurrences, a);
      var i :| 0 <= i < |cited| && cited[i] == a;
      assert ids[i] == id;
    }
  }

  // ----- One fragment to an id

  lemma DistinctParts<T>(s: seq<T>, t: seq<T>)
    requires Distinct(s + t)
    ensures Distinct(s) && Distinct(t) && forall x | x in s :: x !in t
  {
    assert forall i | 0 <= i < |s| :: (s + t)[i] == s[i];
    assert forall i | 0 <= i < |t| :: (s + t)[|s| + i] == t[i];
  }

  lemma IdIn(d: Document, f: Fragment)
    requires f in d.fragments
    ensures Declares(d, f.id)
  {
    var i :| 0 <= i < |d.fragments| && d.fragments[i] == f;
    assert Map(FragmentId(), d.fragments)[i] == f.id;
  }

  lemma OneInDocument(d: Document, f: Fragment, g: Fragment)
    requires Distinct(Map(FragmentId(), d.fragments)) && f in d.fragments && g in d.fragments && f.id == g.id
    ensures f == g
  {
    var i :| 0 <= i < |d.fragments| && d.fragments[i] == f;
    var j :| 0 <= j < |d.fragments| && d.fragments[j] == g;
    assert Map(FragmentId(), d.fragments)[i] == Map(FragmentId(), d.fragments)[j];
  }

  lemma {:induction false} OneFragment(documents: seq<Document>, d: Document, f: Fragment, e: Document, g: Fragment)
    requires Distinct(FragmentIds(documents))
    requires d in documents && f in d.fragments && e in documents && g in e.fragments && f.id == g.id
    ensures f == g
  {
    var front, last := documents[..|documents| - 1], documents[|documents| - 1];
    LastSplit(documents);
    DistinctParts(FragmentIds(front), Map(FragmentId(), last.fragments));
    IdIn(d, f);
    IdIn(e, g);
    IdLocation(front, f.id);
    assert Declares(last, f.id) ==> f.id !in FragmentIds(front);
    if Declares(last, f.id) {
      OneInDocument(last, f, g);
    } else {
      OneFragment(front, d, f, e, g);
    }
  }

  // ----- Spans of text

  /** The text of a fragment; in an accepted file it has no lone surrogates. */
  function TextOf(f: Fragment): seq<Scalar>
    requires FragmentOk(f) && f.text.Some?
  {
    var text := f.text.value;
    seq(|text|, i requires 0 <= i < |text| => text[i] as Scalar)
  }

  lemma TextOfIs(f: Fragment)
    requires FragmentOk(f) && f.text.Some?
    ensures TextOf(f) == f.text.value && TextBytes(f) == Some(Encode(TextOf(f))) && |Encode(TextOf(f))| == f.byteLength
  {
  }

  /** The anchor ends inside the fragment and, if the text is there, runs from one character
      boundary to another. */
  ghost predicate Within(f: Fragment, a: Anchor)
    requires FragmentOk(f)
  {
    && a.end <= f.byteLength
    && (f.text.Some? ==> exists i, j :: i <= j && Boundary(TextOf(f), i, a.start) && Boundary(TextOf(f), j, a.end))
  }

  ghost predicate SpanIn(d: Document, a: Anchor)
    requires DocumentOk(d)
  {
    exists f :: f in d.fragments && f.id == a.fragment && Within(f, a)
  }

  lemma WithinIffInside(f: Fragment, a: Anchor)
    requires FragmentOk(f)
    ensures Within(f, a) <==> Inside(f, a)
  {
    if f.text.Some? {
      TextOfIs(f);
      SpanIffBoundaries(TextOf(f), a.start, a.end);
    }
  }

  lemma SpanIffBounds(documents: seq<Document>, d: Document, a: Anchor)
    requires CatalogOk(documents) && d in documents
    ensures DocumentOk(d) && (SpanIn(d, a) <==> Declares(d, a.fragment) && InBounds(documents, a))
  {
    assert DocumentOk(d);
    if f :| f in d.fragments && f.id == a.fragment && Within(f, a) {
      IdIn(d, f);
      WithinIffInside(f, a);
      forall e, g | e in documents && g in e.fragments && g.id == a.fragment ensures Inside(g, a) {
        OneFragment(documents, d, f, e, g);
      }
    }
    if Declares(d, a.fragment) && InBounds(documents, a) {
      var f := DeclaredFragment(d, a.fragment);
      assert FragmentOk(f);
      WithinIffInside(f, a);
    }
  }

  /** All that the bundle names is in the document: its region, its context, and every anchor
      and field source of every occurrence, as a span between character boundaries. */
  ghost predicate LivesIn(b: Bundle, d: Document)
    requires DocumentOk(d)
  {
    && (forall id | id in b.declaredRegion || id in b.contextOnly :: Declares(d, id))
    && (forall o, a | o in b.occurrences && Cites(o, a) :: SpanIn(d, a))
  }

  predicate AnchorsApart(rows: seq<Occurrence>) {
    forall i, j | 0 <= i < j < |rows| :: multiset(rows[i].anchors) != multiset(rows[j].anchors)
  }

  lemma KeysApart(rows: seq<Occurrence>)
    ensures Distinct(Keys(rows)) <==> AnchorsApart(rows)
  {
    forall i, j | 0 <= i < j < |rows|
      ensures Keys(rows)[i] == Keys(rows)[j] <==> multiset(rows[i].anchors) == multiset(rows[j].anchors)
    {
      KeyIsAnchorMultiset(rows[i], rows[j]);
    }
  }

  lemma LivesInIff(documents: seq<Document>, d: Document, b: Bundle)
    requires CatalogOk(documents) && d in documents
    ensures DocumentOk(d)
    ensures LivesIn(b, d) <==>
            InDocument(d, CitedFragments(b)) && forall a | a in CitedAnchors(b.occurrences) :: InBounds(documents, a)
  {
    forall a ensures DocumentOk(d) && (SpanIn(d, a) <==> Declares(d, a.fragment) && InBounds(documents, a)) {
      SpanIffBounds(documents, d, a);
    }
    forall a ensures a in CitedAnchors(b.occurrences) <==> exists o :: o in b.occurrences && Cites(o, a) {
      CitedIff(b.occurrences, a);
    }
    forall id ensures id in CitedFragments(b) <==>
                      || id in b.declaredRegion || id in b.contextOnly
                      || exists o, a :: o in b.occurrences && Cites(o, a) && a.fragment == id
    {
      FragmentCited(b, id);
    }
  }

  /** A bundle fits the documents exactly when it lives in one of them and no two of its
      occurrences have the same anchors. */
  lemma FitsIffLives(documents: seq<Document>, b: Bundle)
    requires CatalogOk(documents)
    ensures forall d | d in documents :: DocumentOk(d)
    ensures BundleFits(documents, b) <==>
            (exists d :: d in documents && LivesIn(b, d)) && AnchorsApart(b.occurrences)
  {
    KeysApart(b.occurrences);
    forall d | d in documents
      ensures DocumentOk(d)
      ensures LivesIn(b, d) <==>
              InDocument(d, CitedFragments(b)) && forall a | a in CitedAnchors(b.occurrences) :: InBounds(documents, a)
    {
      LivesInIff(documents, d, b);
    }
  }

  /** In an accepted file every anchor and every field source of a fragment with text cuts a
      piece of one character or more out of it, and its bytes decode to that piece. */
  lemma CitedTextDecodes(r: Records, b: Bundle, o: Occurrence, a: Anchor) returns (f: Fragment, i: nat, j: nat)
    requires WellFormed(r) && b in r.bundles && o in b.occurrences && Cites(o, a)
    ensures (exists d :: d in r.documents && f in d.fragments) && f.id == a.fragment && FragmentOk(f)
    ensures 0 <= a.start < a.end <= f.byteLength
    ensures f.text.Some? ==> i < j <= |f.text.value| && a.end <= |Encode(TextOf(f))|
    ensures f.text.Some? ==> Decode(Encode(TextOf(f))[a.start..a.end]) == Some(TextOf(f)[i..j])
  {
    assert BundleOk(r.documents, b) && OccurrenceOk(o);
    FitsIffLives(r.documents, b);
    var d :| d in r.documents && LivesIn(b, d);
    assert SpanIn(d, a);
    f :| f in d.fragments && f.id == a.fragment && Within(f, a);
    assert AnchorOk(a);
    i, j := 0, 0;
    if f.text.Some? {
      TextOfIs(f);
      i, j :| i <= j && Boundary(TextOf(f), i, a.start) && Boundary(TextOf(f), j, a.end);
      SliceEncodes(TextOf(f), i, j);
      DecodeInvertsEncode(TextOf(f)[i..j]);
    }
  }

  // ----- The source label

  /** Some bundle of the file names the fragment, in its region, its context, an anchor or a source. */
  ghost predicate Named(r: Records, id: string) {
    exists b :: b in r.bundles && NamedIn(b, id)
  }

  ghost predicate NamedIn(b: Bundle, id: string) {
    || id in b.declaredRegion || id in b.contextOnly
    || exists o, a :: o in b.occurrences && Cites(o, a) && a.fragment == id
  }

  lemma ReferencedIff(r: Records, id: string)
    ensures id in Referenced(r.bundles) <==> Named(r, id)
  {
    forall b ensures id in CitedFragments(b) <==> NamedIn(b, id) { FragmentCited(b, id); }
    if b :| b in r.bundles && NamedIn(b, id) { assert id in CitedFragments(b); }
  }

  /** The label says whether the fragments that the bundles name carry their text: all and at
      least one, some but not all, or none. */
  lemma LabelMeans(r: Records)
    ensures DerivedValidation(r) == "bytes-present" <==>
            (exists id :: Named(r, id)) && forall id | Named(r, id) :: HasText(r.documents, id)
    ensures DerivedValidation(r) == "mixed" <==>
            (exists id :: Named(r, id) && HasText(r.documents, id)) && (exists id :: Named(r, id) && !HasText(r.documents, id))
    ensures DerivedValidation(r) == "metadata-only" <==> forall id | Named(r, id) :: !HasText(r.documents, id)
  {
    forall id ensures id in Referenced(r.bundles) <==> Named(r, id) { ReferencedIff(r, id); }
    assert "bytes-present"[0] != "mixed"[0] && "mixed"[1] != "metadata-only"[1] && "bytes-present"[0] != "metadata-only"[0];
  }

  // ----- Names

  /** Nothing in an accepted file goes without a name, no name is given twice where it identifies,
      no document is without fragments and no occurrence without anchors. */
  lemma AcceptedNames(r: Records, d: Document, f: Fragment, b: Bundle, o: Occurrence, l: Relation)
    requires WellFormed(r)
    ensures r.schema == "m207-hybrid-records/v1" && r.version == 1 && r.origin in ["synthetic", "rust-runtime"]
    ensures r.documents != []
    ensures d in r.documents ==> d.id != "" && d.fragments != [] && (f in d.fragments ==> f.id != "" && f.byteLength >= 0)
    ensures b in r.bundles ==>
              && b.bundleId != "" && b.construction != "" && b.contextStatus != "" && b.focusId != ""
              && "" !in b.declaredRegion + b.contextOnly
              && (o in b.occurrences ==> o.id != "" && o.anchors != [])
              && (l in b.relations ==> l.id != "" && l.rel != "" && l.source != "" && l.target != "")
              && (b.occurrences == [] ==> b.relations == [])
              && Distinct(Ids(b.occurrences)) && Distinct(Map(RelationId(), b.relations))
    ensures Distinct(Map(DocumentId(), r.documents)) && Distinct(FragmentIds(r.documents))
  {
    assert d in r.documents ==> DocumentOk(d) && (f in d.fragments ==> FragmentOk(f));
    if b in r.bundles {
      assert BundleOk(r.documents, b);
      if b.relations != [] { assert EndpointsPresent(b, b.relations[0]); }
    }
  }
}
