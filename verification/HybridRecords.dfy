/** The records format of the hybrid evaluator: its values, anchor keys, and the
    fail-closed validator. */
module HybridRecords {
  import opened Sequences
  import opened Orders
  import opened Utf8

  // ----- Values

  /** A JSON value as Python compares it: Num covers integers, floats and
      booleans, which Python's == compares by number. */
  datatype Json =
    | Null
    | Num(number: real)
    | Str(text: string)
    | Arr(items: seq<Json>)
    | Obj(members: map<string, Json>)

  /** A half-open byte span local to one fragment. */
  datatype Anchor = Anchor(fragment: string, start: int, end: int)

  datatype Slot = Slot(value: Json, source: Option<Anchor>)

  datatype Fields = Fields(kind: Slot, date: Slot, number: Slot)

  datatype Occurrence = Occurrence(
    id: string, anchors: seq<Anchor>, unresolved: bool, unresolvedReason: Option<string>, fields: Fields)

  datatype Relation = Relation(id: string, rel: string, source: string, target: string)

  datatype Bundle = Bundle(
    bundleId: string, construction: string, focusId: string, contextStatus: string,
    declaredRegion: seq<string>, contextOnly: seq<string>,
    occurrences: seq<Occurrence>, relations: seq<Relation>)

  datatype Fragment = Fragment(id: string, byteLength: int, text: Option<seq<CodePoint>>)

  datatype Document = Document(id: string, fragments: seq<Fragment>)

  datatype Records = Records(
    schema: string, version: int, origin: string,
    documents: seq<Document>, bundles: seq<Bundle>, sourceValidation: Option<string>)

  datatype Diagnostic =
    | UnsupportedVersion
    | MalformedRef
    | InvalidBounds
    | CrossDocRef
    | DanglingEdge
    | AmbiguousDuplicate
    | ProvenanceForbidden
    | SourceClaimWithoutBytes
    | DuplicateBundleId

  const RECORDS_SCHEMA := "m207-hybrid-records/v1"
  const RECORDS_SCHEMA_VERSION := 1
  const RECORDS_ORIGINS := ["synthetic", "rust-runtime"]

  function Id(): Occurrence -> string { (o: Occurrence) => o.id }

  function Ids(rows: seq<Occurrence>): seq<string> { Map(Id(), rows) }

  function RelationId(): Relation -> string { (r: Relation) => r.id }

  // ----- Anchor keys

  predicate AnchorLeq(a: Anchor, b: Anchor) {
    if a.fragment != b.fragment then LexLe(CharLe(), a.fragment, b.fragment)
    else if a.start != b.start then a.start <= b.start
    else a.end <= b.end
  }

  function AnchorLe(): (Anchor, Anchor) -> bool { (a, b) => AnchorLeq(a, b) }

  lemma AnchorOrder()
    ensures TotalOrder(AnchorLe())
  {
    StringOrder();
    var le := AnchorLe();
    var sle := StringLe();
    forall a, b ensures le(a, b) || le(b, a) {
      assert sle(a.fragment, b.fragment) || sle(b.fragment, a.fragment);
    }
    forall a, b | le(a, b) && le(b, a) ensures a == b {
      assert sle(a.fragment, b.fragment) && sle(b.fragment, a.fragment) ==> a.fragment == b.fragment;
    }
    forall a, b, c | le(a, b) && le(b, c) ensures le(a, c) {
      assert sle(a.fragment, b.fragment) && sle(b.fragment, c.fragment) ==> sle(a.fragment, c.fragment);
      assert sle(a.fragment, b.fragment) && sle(b.fragment, a.fragment) ==> a.fragment == b.fragment;
    }
  }

  type Key = seq<Anchor>

  function KeyLe(): (Key, Key) -> bool { Lex(AnchorLe()) }

  lemma KeyOrder()
    ensures TotalOrder(KeyLe())
  {
    AnchorOrder();
    LexIsTotalOrder(AnchorLe());
  }

  /** The sorted tuple of an occurrence's anchors. */
  function KeyOf(o: Occurrence): Key {
    Sort(AnchorLe(), o.anchors)
  }

  function KeyFn(): Occurrence -> Key { (o: Occurrence) => KeyOf(o) }

  function Keys(rows: seq<Occurrence>): seq<Key> { Map(KeyFn(), rows) }

  /** Two occurrences have the same key exactly when they carry the same anchors,
      counted with multiplicity, in any order. */
  lemma KeyIsAnchorMultiset(a: Occurrence, b: Occurrence)
    ensures KeyOf(a) == KeyOf(b) <==> multiset(a.anchors) == multiset(b.anchors)
    ensures multiset(KeyOf(a)) == multiset(a.anchors)
  {
    AnchorOrder();
    SortIsCanonical(AnchorLe(), a.anchors, b.anchors);
    SortMultiset(AnchorLe(), a.anchors);
  }

  // ----- One bundle

  predicate AnchorOk(a: Anchor) {
    a.fragment != "" && 0 <= a.start < a.end
  }

  predicate SourceOk(s: Slot) {
    s.source.Some? ==> AnchorOk(s.source.value)
  }

  predicate OccurrenceOk(o: Occurrence) {
    && o.id != ""
    && o.anchors != []
    && (forall a | a in o.anchors :: AnchorOk(a))
    && SourceOk(o.fields.kind) && SourceOk(o.fields.date) && SourceOk(o.fields.number)
  }

  predicate RelationOk(r: Relation) {
    r.id != "" && r.rel != "" && r.source != "" && r.target != ""
  }

  /** Nothing in the bundle is malformed on its own. */
  predicate WellShaped(b: Bundle) {
    && b.bundleId != "" && b.construction != "" && b.contextStatus != "" && b.focusId != ""
    && "" !in b.declaredRegion && "" !in b.contextOnly
    && (forall o | o in b.occurrences :: OccurrenceOk(o))
    && Distinct(Ids(b.occurrences))
    && (forall r | r in b.relations :: RelationOk(r))
    && Distinct(Map(RelationId(), b.relations))
  }

  predicate EndpointsPresent(b: Bundle, r: Relation) {
    r.source in Ids(b.occurrences) && r.target in Ids(b.occurrences)
  }

  /** The focus and every relation endpoint name occurrences of the bundle. */
  predicate Connected(b: Bundle) {
    && (b.occurrences != [] ==> b.focusId in Ids(b.occurrences))
    && (forall r | r in b.relations :: EndpointsPresent(b, r))
  }

  predicate ValidBundle(b: Bundle) {
    WellShaped(b) && Connected(b)
  }

  method ValidateBundle(b: Bundle) returns (r: Result<Bundle, Diagnostic>)
    ensures r.Ok? <==> ValidBundle(b)
    ensures r.Ok? ==> r.value == b
    ensures r.Err? ==> r.error == MalformedRef || r.error == DanglingEdge
    ensures r.Err? && r.error == MalformedRef ==> !WellShaped(b)
    ensures r.Err? && r.error == DanglingEdge ==> !Connected(b)
  {
    if b.bundleId == "" || b.construction == "" || b.contextStatus == "" ||
       "" in b.declaredRegion || "" in b.contextOnly {
      return Err(MalformedRef);
    }
    var ids: seq<string> := [];
    for i := 0 to |b.occurrences|
      invariant ids == Ids(b.occurrences)[..i]
      invariant Distinct(ids)
      invariant forall k | 0 <= k < i :: OccurrenceOk(b.occurrences[k])
    {
      var item := b.occurrences[i];
      assert Ids(b.occurrences)[i] == item.id;
      if item.id in ids {
        assert exists k :: 0 <= k < i && Ids(b.occurrences)[k] == item.id;
        return Err(MalformedRef);
      }
      if !OccurrenceOk(item) {
        assert item in b.occurrences;
        return Err(MalformedRef);
      }
      ids := ids + [item.id];
    }
    if b.focusId == "" { return Err(MalformedRef); }
    if ids != [] && b.focusId !in ids { return Err(DanglingEdge); }
    var relIds: seq<string> := [];
    for i := 0 to |b.relations|
      invariant relIds == Map(RelationId(), b.relations)[..i]
      invariant Distinct(relIds)
      invariant forall k | 0 <= k < i :: RelationOk(b.relations[k]) && EndpointsPresent(b, b.relations[k])
    {
      var item := b.relations[i];
      assert item in b.relations;
      assert Map(RelationId(), b.relations)[i] == item.id;
      if item.id in relIds {
        assert exists k :: 0 <= k < i && Map(RelationId(), b.relations)[k] == item.id;
        return Err(MalformedRef);
      }
      relIds := relIds + [item.id];
      if !RelationOk(item) { return Err(MalformedRef); }
      if !EndpointsPresent(b, item) { return Err(DanglingEdge); }
    }
    return Ok(b);
  }

  // ----- The document catalog

  function TextBytes(f: Fragment): Option<seq<Byte>> {
    if f.text.Some? then EncodeText(f.text.value) else None
  }

  predicate FragmentOk(f: Fragment) {
    && f.id != "" && f.byteLength >= 0
    && (f.text.Some? ==> TextBytes(f).Some? && |TextBytes(f).value| == f.byteLength)
  }

  function FragmentId(): Fragment -> string { (f: Fragment) => f.id }

  function DocumentId(): Document -> string { (d: Document) => d.id }

  /** The identifiers of all fragments, document by document. */
  function FragmentIds(documents: seq<Document>): seq<string> {
    if documents == [] then []
    else FragmentIds(documents[..|documents| - 1]) + Map(FragmentId(), documents[|documents| - 1].fragments)
  }

  predicate DocumentOk(d: Document) {
    d.id != "" && d.fragments != [] && FragmentsOk(d.fragments)
  }

  predicate FragmentsOk(fragments: seq<Fragment>) { forall f | f in fragments :: FragmentOk(f) }

  predicate CatalogOk(documents: seq<Document>) {
    && documents != []
    && (forall d | d in documents :: DocumentOk(d))
    && Distinct(Map(DocumentId(), documents))
    && Distinct(FragmentIds(documents))
  }

  datatype Meta = Meta(byteLength: int, bytes: Option<seq<Byte>>)

  function MetaOf(f: Fragment): Meta { Meta(f.byteLength, TextBytes(f)) }

  /** What the validator remembers of the documents: the two dictionaries keyed
      by fragment id. */
  datatype Catalog = Catalog(documentOf: map<string, string>, meta: map<string, Meta>)

  predicate Declares(d: Document, id: string) {
    id in Map(FragmentId(), d.fragments)
  }

  predicate Describes(c: Catalog, ids: seq<string>) {
    c.documentOf.Keys == c.meta.Keys == set id | id in ids
  }

  predicate Catalogued(c: Catalog, d: Document, f: Fragment) {
    f.id in c.documentOf && f.id in c.meta && c.documentOf[f.id] == d.id && c.meta[f.id] == MetaOf(f)
  }

  /** The catalog holds exactly the fragments of the documents. */
  ghost predicate CatalogOf(c: Catalog, documents: seq<Document>) {
    && Describes(c, FragmentIds(documents))
    && (forall d, f | d in documents && f in d.fragments :: Catalogued(c, d, f))
  }

  /** The catalog after the first fragments of one more document. */
  ghost predicate CataloguedUpTo(c: Catalog, before: seq<Document>, d: Document, i: nat)
    requires i <= |d.fragments|
  {
    && Describes(c, FragmentIds(before) + Map(FragmentId(), d.fragments)[..i])
    && (forall e, f | e in before && f in e.fragments :: Catalogued(c, e, f))
    && (forall k | 0 <= k < i :: Catalogued(c, d, d.fragments[k]))
  }

  lemma DescribesOne(c: Catalog, ids: seq<string>, id: string, document: string, meta: Meta)
    requires Describes(c, ids)
    ensures Describes(Catalog(c.documentOf[id := document], c.meta[id := meta]), ids + [id])
  {
  }

  lemma CatalogueOne(c: Catalog, before: seq<Document>, d: Document, i: nat)
    requires i < |d.fragments| && CataloguedUpTo(c, before, d, i) && d.fragments[i].id !in c.meta
    ensures var f := d.fragments[i];
            CataloguedUpTo(Catalog(c.documentOf[f.id := d.id], c.meta[f.id := MetaOf(f)]), before, d, i + 1)
  {
    var own, frag := Map(FragmentId(), d.fragments), d.fragments[i];
    assert own[i] == frag.id;
    assert FragmentIds(before) + own[..i + 1] == (FragmentIds(before) + own[..i]) + [frag.id];
    DescribesOne(c, FragmentIds(before) + own[..i], frag.id, d.id, MetaOf(frag));
    forall e, f | e in before && f in e.fragments ensures f.id != frag.id { assert Catalogued(c, e, f); }
  }

  method ReadDocument(d: Document, c0: Catalog, ghost before: seq<Document>) returns (r: Result<Catalog, Diagnostic>)
    requires CatalogOf(c0, before)
    requires Distinct(FragmentIds(before))
    ensures r.Ok? <==> DocumentOk(d) && Distinct(FragmentIds(before + [d]))
    ensures r.Ok? ==> CatalogOf(r.value, before + [d])
    ensures r.Err? ==> r.error == MalformedRef
  {
    assert (before + [d])[..|before|] == before;
    assert FragmentIds(before + [d]) == FragmentIds(before) + Map(FragmentId(), d.fragments);
    if d.id == "" || d.fragments == [] { return Err(MalformedRef); }
    r := ReadFragments(d, c0, before);
  }

  method ReadFragments(d: Document, c0: Catalog, ghost before: seq<Document>) returns (r: Result<Catalog, Diagnostic>)
    requires CatalogOf(c0, before)
    requires Distinct(FragmentIds(before))
    ensures r.Ok? <==> FragmentsOk(d.fragments) && Distinct(FragmentIds(before) + Map(FragmentId(), d.fragments))
    ensures r.Ok? ==> CataloguedUpTo(r.value, before, d, |d.fragments|)
    ensures r.Err? ==> r.error == MalformedRef
  {
    ghost var own := Map(FragmentId(), d.fragments);
    var c := c0;
    for i := 0 to |d.fragments|
      invariant CataloguedUpTo(c, before, d, i)
      invariant FragmentsOk(d.fragments[..i])
      invariant Distinct(FragmentIds(before) + own[..i])
    {
      var frag := d.fragments[i];
      ghost var seen := FragmentIds(before) + own[..i];
      assert own[i] == frag.id;
      PrefixStep(d.fragments, i);
      if frag.id in c.meta {
        assert frag.id in seen;
        assert exists k :: 0 <= k < |seen| && seen[k] == frag.id;
        RepeatedId(FragmentIds(before), own, i);
        return Err(MalformedRef);
      }
      if !FragmentOk(frag) {
        assert frag in d.fragments;
        return Err(MalformedRef);
      }
      assert FragmentIds(before) + own[..i + 1] == seen + [frag.id];
      DistinctAppend(seen, frag.id);
      CatalogueOne(c, before, d, i);
      c := Catalog(c.documentOf[frag.id := d.id], c.meta[frag.id := MetaOf(frag)]);
    }
    assert own[..|d.fragments|] == own && d.fragments[..|d.fragments|] == d.fragments;
    return Ok(c);
  }

  lemma RepeatedId(before: seq<string>, own: seq<string>, i: nat)
    requires i < |own| && own[i] in before + own[..i]
    ensures !Distinct(before + own)
  {
    assert (before + own)[..|before| + i] == before + own[..i];
    RepeatedAt(before + own, |before| + i);
  }

  lemma {:induction false} FragmentIdsPrefix(documents: seq<Document>, n: nat)
    requires n <= |documents|
    ensures FragmentIds(documents[..n]) <= FragmentIds(documents)
  {
    if n < |documents| {
      var front := documents[..|documents| - 1];
      FragmentIdsPrefix(front, n);
      assert front[..n] == documents[..n];
    } else {
      assert documents[..n] == documents;
    }
  }

  method ReadCatalog(documents: seq<Document>) returns (r: Result<Catalog, Diagnostic>)
    ensures r.Ok? <==> CatalogOk(documents)
    ensures r.Ok? ==> CatalogOf(r.value, documents)
    ensures r.Err? ==> r.error == MalformedRef
  {
    if documents == [] { return Err(MalformedRef); }
    var ids: seq<string> := [];
    var c := Catalog(map[], map[]);
    for i := 0 to |documents|
      invariant ids == Map(DocumentId(), documents)[..i]
      invariant Distinct(ids)
      invariant forall d | d in documents[..i] :: DocumentOk(d)
      invariant Distinct(FragmentIds(documents[..i]))
      invariant CatalogOf(c, documents[..i])
    {
      var doc := documents[i];
      assert doc in documents;
      assert Map(DocumentId(), documents)[i] == doc.id;
      if doc.id in ids {
        RepeatedAt(Map(DocumentId(), documents), i);
        return Err(MalformedRef);
      }
      DistinctAppend(ids, doc.id);
      PrefixStep(Map(DocumentId(), documents), i);
      ids := ids + [doc.id];
      PrefixStep(documents, i);
      var step := ReadDocument(doc, c, documents[..i]);
      if step.Err? {
        FragmentIdsPrefix(documents, i + 1);
        return Err(step.error);
      }
      c := step.value;
    }
    assert documents[..|documents|] == documents;
    return Ok(c);
  }

  // ----- A bundle against the catalog

  function SourceAnchor(s: Slot): seq<Anchor> {
    if s.source.Some? then [s.source.value] else []
  }

  function OccurrenceAnchors(o: Occurrence): seq<Anchor> {
    o.anchors + SourceAnchor(o.fields.kind) + SourceAnchor(o.fields.date) + SourceAnchor(o.fields.number)
  }

  /** Every anchor a list of occurrences cites, field sources included. */
  function CitedAnchors(rows: seq<Occurrence>): seq<Anchor> {
    if rows == [] then []
    else CitedAnchors(rows[..|rows| - 1]) + OccurrenceAnchors(rows[|rows| - 1])
  }

  function FragmentOf(): Anchor -> string { (a: Anchor) => a.fragment }

  function CitedFragments(b: Bundle): seq<string> {
    b.declaredRegion + b.contextOnly + Map(FragmentOf(), CitedAnchors(b.occurrences))
  }

  predicate InDocument(d: Document, cited: seq<string>) {
    forall id | id in cited :: Declares(d, id)
  }

  predicate KnownFragments(documents: seq<Document>, cited: seq<string>) {
    forall id | id in cited :: id in FragmentIds(documents)
  }

  /** Every cited fragment belongs to one and the same document. */
  predicate InOneDocument(documents: seq<Document>, cited: seq<string>) {
    exists d | d in documents :: InDocument(d, cited)
  }

  /** The anchor ends inside the fragment and, where the fragment carries its
      text, cuts it at character boundaries. */
  predicate Inside(f: Fragment, a: Anchor) {
    a.end <= f.byteLength && (TextBytes(f).Some? ==> SpanOk(TextBytes(f).value, a.start, a.end))
  }

  predicate InBounds(documents: seq<Document>, a: Anchor) {
    forall d, f | d in documents && f in d.fragments && f.id == a.fragment :: Inside(f, a)
  }

  predicate BundleFits(documents: seq<Document>, b: Bundle) {
    && InOneDocument(documents, CitedFragments(b))
    && (forall a | a in CitedAnchors(b.occurrences) :: InBounds(documents, a))
    && Distinct(Keys(b.occurrences))
  }

  lemma {:induction false} IdLocation(documents: seq<Document>, id: string)
    ensures id in FragmentIds(documents) <==> exists d :: d in documents && Declares(d, id)
  {
    if documents != [] {
      var front, last := documents[..|documents| - 1], documents[|documents| - 1];
      LastSplit(documents);
      IdLocation(front, id);
      assert id in FragmentIds(documents) <==> id in FragmentIds(front) || Declares(last, id);
      assert documents == front + [last];
      if d :| d in documents && Declares(d, id) {
        assert d in front || d == last;
      }
      if d :| d in front && Declares(d, id) {
        assert d in documents;
      }
      assert last in documents;
    }
  }

  lemma DeclaredFragment(d: Document, id: string) returns (f: Fragment)
    requires Declares(d, id)
    ensures f in d.fragments && f.id == id
  {
    var i :| 0 <= i < |d.fragments| && Map(FragmentId(), d.fragments)[i] == id;
    f := d.fragments[i];
  }

  /** With unique document ids, the catalog's document of a fragment decides where it is declared. */
  lemma DocumentOfFragment(c: Catalog, documents: seq<Document>, d: Document, id: string)
    requires CatalogOk(documents) && CatalogOf(c, documents)
    requires d in documents && id in c.documentOf
    ensures Declares(d, id) <==> c.documentOf[id] == d.id
  {
    IdLocation(documents, id);
    var e :| e in documents && Declares(e, id);
    var f := DeclaredFragment(e, id);
    assert Catalogued(c, e, f);
    if Declares(d, id) {
      var g := DeclaredFragment(d, id);
      assert Catalogued(c, d, g);
    }
    if e.id == d.id {
      var i :| 0 <= i < |documents| && documents[i] == d;
      var j :| 0 <= j < |documents| && documents[j] == e;
      assert Map(DocumentId(), documents)[i] == Map(DocumentId(), documents)[j];
      assert i == j;
    }
  }

  predicate SpanFits(c: Catalog, a: Anchor)
    requires a.fragment in c.meta
  {
    var m := c.meta[a.fragment];
    a.end <= m.byteLength && (m.bytes.Some? ==> SpanOk(m.bytes.value, a.start, a.end))
  }

  lemma SpanFitsIffInBounds(c: Catalog, documents: seq<Document>, a: Anchor)
    requires CatalogOf(c, documents) && a.fragment in c.meta
    ensures SpanFits(c, a) <==> InBounds(documents, a)
  {
    IdLocation(documents, a.fragment);
    var d :| d in documents && Declares(d, a.fragment);
    var f := DeclaredFragment(d, a.fragment);
    assert Catalogued(c, d, f);
    forall e, g | e in documents && g in e.fragments && g.id == a.fragment ensures MetaOf(g) == c.meta[a.fragment] {
      assert Catalogued(c, e, g);
    }
  }

  /** Why a bundle is refused once its own shape is fine. */
  predicate BundleDefect(documents: seq<Document>, b: Bundle, code: Diagnostic) {
    match code
    case DanglingEdge => !KnownFragments(documents, CitedFragments(b))
    case CrossDocRef => !InOneDocument(documents, CitedFragments(b))
    case InvalidBounds => exists a | a in CitedAnchors(b.occurrences) :: !InBounds(documents, a)
    case AmbiguousDuplicate => !Distinct(Keys(b.occurrences))
    case _ => false
  }

  /** Checks that the cited fragments are known and share a document; collects them. */
  method FindHome(documents: seq<Document>, c: Catalog, ids: seq<string>, referenced0: set<string>)
    returns (r: Result<set<string>, Diagnostic>)
    requires CatalogOk(documents) && CatalogOf(c, documents)
    ensures r.Ok? <==> InOneDocument(documents, ids)
    ensures r.Ok? ==> r.value == referenced0 + (set id | id in ids)
    ensures r.Ok? ==> forall id | id in ids :: id in c.meta
    ensures r.Err? ==>
              || (r.error == DanglingEdge && !KnownFragments(documents, ids))
              || (r.error == CrossDocRef && !InOneDocument(documents, ids))
  {
    var home: Option<string> := None;
    var referenced := referenced0;
    for i := 0 to |ids|
      invariant forall k | 0 <= k < i :: ids[k] in c.documentOf && home == Some(c.documentOf[ids[k]])
      invariant i == 0 ==> home == None
      invariant referenced == referenced0 + (set id | id in ids[..i])
    {
      if ids[i] !in c.meta {
        NoHome(c, documents, ids, i);
        return Err(DanglingEdge);
      }
      var doc := c.documentOf[ids[i]];
      if home == None {
        home := Some(doc);
      } else if home.value != doc {
        TwoHomes(c, documents, ids, ids[0], ids[i]);
        return Err(CrossDocRef);
      }
      assert ids[..i + 1] == ids[..i] + [ids[i]];
      referenced := referenced + {ids[i]};
    }
    assert ids[..|ids|] == ids;
    OneHome(c, documents, ids);
    return Ok(referenced);
  }

  method FitBundle(documents: seq<Document>, c: Catalog, b: Bundle, referenced0: set<string>)
    returns (r: Result<set<string>, Diagnostic>)
    requires CatalogOk(documents) && CatalogOf(c, documents)
    ensures r.Ok? <==> BundleFits(documents, b)
    ensures r.Ok? ==> r.value == referenced0 + (set id | id in CitedFragments(b))
    ensures r.Err? ==> BundleDefect(documents, b, r.error)
  {
    var ids := CitedFragments(b);
    var home := FindHome(documents, c, ids, referenced0);
    if home.Err? { return home; }
    var cited := CitedAnchors(b.occurrences);
    for i := 0 to |cited|
      invariant forall k | 0 <= k < i :: InBounds(documents, cited[k])
    {
      var a := cited[i];
      assert Map(FragmentOf(), cited)[i] in ids;
      SpanFitsIffInBounds(c, documents, a);
      if !SpanFits(c, a) { return Err(InvalidBounds); }
    }
    var groups := GroupIds(b.occurrences);
    if exists k | k in groups :: |groups[k]| > 1 { return Err(AmbiguousDuplicate); }
    return home;
  }

  lemma NoHome(c: Catalog, documents: seq<Document>, ids: seq<string>, i: nat)
    requires CatalogOf(c, documents) && i < |ids| && ids[i] !in c.meta
    ensures !KnownFragments(documents, ids) && !InOneDocument(documents, ids)
  {
    assert ids[i] in ids && ids[i] !in FragmentIds(documents);
    IdLocation(documents, ids[i]);
  }

  lemma TwoHomes(c: Catalog, documents: seq<Document>, ids: seq<string>, x: string, y: string)
    requires CatalogOk(documents) && CatalogOf(c, documents)
    requires x in ids && y in ids && x in c.documentOf && y in c.documentOf && c.documentOf[x] != c.documentOf[y]
    ensures !InOneDocument(documents, ids)
  {
    forall d | d in documents ensures !InDocument(d, ids) {
      DocumentOfFragment(c, documents, d, x);
      DocumentOfFragment(c, documents, d, y);
    }
  }

  lemma OneHome(c: Catalog, documents: seq<Document>, ids: seq<string>)
    requires CatalogOk(documents) && CatalogOf(c, documents)
    requires forall id | id in ids :: id in c.documentOf
    requires forall x, y | x in ids && y in ids :: c.documentOf[x] == c.documentOf[y]
    ensures InOneDocument(documents, ids)
  {
    if ids == [] {
      assert documents[0] in documents && InDocument(documents[0], ids);
    } else {
      assert ids[0] in ids && ids[0] in FragmentIds(documents);
      IdLocation(documents, ids[0]);
      var d :| d in documents && Declares(d, ids[0]);
      forall id | id in ids ensures Declares(d, id) {
        DocumentOfFragment(c, documents, d, ids[0]);
        DocumentOfFragment(c, documents, d, id);
      }
      assert InDocument(d, ids);
    }
  }

  /** The occurrence ids under each anchor key. */
  method GroupIds(rows: seq<Occurrence>) returns (groups: map<Key, seq<string>>)
    ensures (exists k | k in groups :: |groups[k]| > 1) <==> !Distinct(Keys(rows))
  {
    groups := map[];
    for i := 0 to |rows|
      invariant forall k :: |if k in groups then groups[k] else []| == multiset(Keys(rows)[..i])[k]
    {
      var k := KeyOf(rows[i]);
      assert Keys(rows)[i] == k;
      PrefixStep(Keys(rows), i);
      var present := if k in groups then groups[k] else [];
      groups := groups[k := present + [rows[i].id]];
    }
    assert Keys(rows)[..|rows|] == Keys(rows);
    LongGroups(groups, Keys(rows));
  }

  /** Where groups are as large as their keys are frequent, a group of two is a repeated key. */
  lemma LongGroups(groups: map<Key, seq<string>>, keys: seq<Key>)
    requires forall k :: |if k in groups then groups[k] else []| == multiset(keys)[k]
    ensures (exists k | k in groups :: |groups[k]| > 1) <==> !Distinct(keys)
  {
    DistinctCounts(keys);
    assert forall k :: k in keys <==> k in multiset(keys);
  }

  // ----- The whole file

  predicate HasText(documents: seq<Document>, id: string) {
    exists d, f :: d in documents && f in d.fragments && f.id == id && f.text.Some?
  }

  function Referenced(bundles: seq<Bundle>): set<string> {
    set b, id | b in bundles && id in CitedFragments(b) :: id
  }

  /** The honest source_validation label of a file. */
  function DerivedValidation(r: Records): string {
    var cited := Referenced(r.bundles);
    if forall id | id in cited :: !HasText(r.documents, id) then "metadata-only"
    else if forall id | id in cited :: HasText(r.documents, id) then "bytes-present"
    else "mixed"
  }

  predicate HeaderOk(r: Records) {
    r.schema == RECORDS_SCHEMA && r.version == RECORDS_SCHEMA_VERSION && r.origin in RECORDS_ORIGINS
  }

  predicate BundleOk(documents: seq<Document>, b: Bundle) {
    ValidBundle(b) && BundleFits(documents, b)
  }

  /** What an acceptable records file is, with no reference to how it is checked. */
  predicate WellFormed(r: Records) {
    && HeaderOk(r)
    && CatalogOk(r.documents)
    && (forall b | b in r.bundles :: BundleOk(r.documents, b))
    && (r.sourceValidation.Some? ==> r.sourceValidation.value == DerivedValidation(r))
  }

  /** A reported diagnostic names a defect the file really has. */
  predicate Defect(r: Records, code: Diagnostic) {
    match code
    case UnsupportedVersion => r.schema != RECORDS_SCHEMA || r.version != RECORDS_SCHEMA_VERSION
    case ProvenanceForbidden => r.origin !in RECORDS_ORIGINS
    case MalformedRef =>
      || r.schema == "" || r.origin == "" || !CatalogOk(r.documents)
      || (exists b | b in r.bundles :: !WellShaped(b))
      || (r.sourceValidation.Some? && r.sourceValidation.value != DerivedValidation(r))
    case DanglingEdge =>
      exists b | b in r.bundles :: !Connected(b) || BundleDefect(r.documents, b, DanglingEdge)
    case SourceClaimWithoutBytes =>
      r.sourceValidation == Some("bytes-present") && DerivedValidation(r) != "bytes-present"
    case _ => exists b | b in r.bundles :: BundleDefect(r.documents, b, code)
  }

  datatype RecordsReport = RecordsReport(
    origin: string, sourceValidation: string, documents: nat, fragments: nat, bundles: nat)

  /** Validates every bundle and collects the fragments they cite. */
  method ReadBundles(documents: seq<Document>, c: Catalog, bundles: seq<Bundle>) returns (r: Result<set<string>, Diagnostic>)
    requires CatalogOk(documents) && CatalogOf(c, documents)
    ensures r.Ok? <==> forall b | b in bundles :: BundleOk(documents, b)
    ensures r.Ok? ==> r.value == Referenced(bundles) && forall id | id in r.value :: id in c.meta
    ensures r.Err? ==> r.error in {MalformedRef, DanglingEdge} || exists b | b in bundles :: BundleDefect(documents, b, r.error)
    ensures r.Err? && r.error == MalformedRef ==> exists b | b in bundles :: !WellShaped(b)
    ensures r.Err? && r.error == DanglingEdge ==>
              exists b | b in bundles :: !Connected(b) || BundleDefect(documents, b, DanglingEdge)
  {
    var referenced: set<string> := {};
    for i := 0 to |bundles|
      invariant forall k | 0 <= k < i :: BundleOk(documents, bundles[k])
      invariant referenced == Referenced(bundles[..i])
    {
      var b := bundles[i];
      assert b in bundles;
      var valid := ValidateBundle(b);
      if valid.Err? { return Err(valid.error); }
      var fit := FitBundle(documents, c, b, referenced);
      if fit.Err? { return Err(fit.error); }
      referenced := fit.value;
      assert bundles[..i + 1] == bundles[..i] + [b];
    }
    assert bundles[..|bundles|] == bundles;
    forall id | id in referenced ensures id in c.meta {
      var b :| b in bundles && id in CitedFragments(b);
      CitedIsKnown(documents, b, id);
    }
    return Ok(referenced);
  }

  /** The declared label, if any, is the derived one. */
  method CheckLabel(declared: Option<string>, derived: string) returns (r: Option<Diagnostic>)
    requires derived != ""
    ensures r.None? <==> declared == None || declared == Some(derived)
    ensures r.Some? ==> r.value ==
                        if declared == Some("bytes-present") then SourceClaimWithoutBytes else MalformedRef
  {
    if declared.Some? {
      if declared.value == "" { return Some(MalformedRef); }
      if declared.value != derived {
        if declared.value == "bytes-present" && derived != "bytes-present" { return Some(SourceClaimWithoutBytes); }
        return Some(MalformedRef);
      }
    }
    return None;
  }

  method ValidateRecords(r: Records) returns (report: Result<RecordsReport, Diagnostic>)
    ensures report.Ok? <==> WellFormed(r)
    ensures report.Ok? ==> report.value == RecordsReport(
              r.origin, DerivedValidation(r), |r.documents|, |FragmentIds(r.documents)|, |r.bundles|)
    ensures report.Err? ==> Defect(r, report.error)
  {
    if r.schema == "" { return Err(MalformedRef); }
    if r.schema != RECORDS_SCHEMA || r.version != RECORDS_SCHEMA_VERSION { return Err(UnsupportedVersion); }
    if r.origin == "" { return Err(MalformedRef); }
    if r.origin !in RECORDS_ORIGINS { return Err(ProvenanceForbidden); }
    var catalog := ReadCatalog(r.documents);
    if catalog.Err? { return Err(catalog.error); }
    var c := catalog.value;
    var read := ReadBundles(r.documents, c, r.bundles);
    if read.Err? { return Err(read.error); }
    var derived := DeriveValidation(r, c, read.value);
    var refused := CheckLabel(r.sourceValidation, derived);
    if refused.Some? { return Err(refused.value); }
    DistinctCardinality(FragmentIds(r.documents));
    return Ok(RecordsReport(r.origin, derived, |r.documents|, |c.meta|, |r.bundles|));
  }

  lemma CitedIsKnown(documents: seq<Document>, b: Bundle, id: string)
    requires InOneDocument(documents, CitedFragments(b)) && id in CitedFragments(b)
    ensures id in FragmentIds(documents)
  {
    var d :| d in documents && InDocument(d, CitedFragments(b));
    IdLocation(documents, id);
  }

  lemma TextInCatalog(c: Catalog, documents: seq<Document>, id: string)
    requires CatalogOk(documents) && CatalogOf(c, documents) && id in c.meta
    ensures c.meta[id].bytes.Some? <==> HasText(documents, id)
  {
    IdLocation(documents, id);
    var d :| d in documents && Declares(d, id);
    var f := DeclaredFragment(d, id);
    assert DocumentOk(d) && FragmentOk(f) && Catalogued(c, d, f);
    if e, g :| e in documents && g in e.fragments && g.id == id && g.text.Some? {
      assert DocumentOk(e) && FragmentOk(g) && Catalogued(c, e, g);
    }
  }

  lemma NothingOrAll(all: set<string>, some: set<string>, test: string -> bool)
    requires some <= all && forall id | id in all :: id in some <==> test(id)
    ensures some == {} <==> forall id | id in all :: !test(id)
    ensures all <= some <==> forall id | id in all :: test(id)
  {
  }

  lemma LabelFromText(r: Records, withText: set<string>)
    requires withText <= Referenced(r.bundles)
    requires forall id | id in Referenced(r.bundles) :: id in withText <==> HasText(r.documents, id)
    ensures DerivedValidation(r) ==
            if withText == {} then "metadata-only"
            else if Referenced(r.bundles) <= withText then "bytes-present" else "mixed"
  {
    NothingOrAll(Referenced(r.bundles), withText, (id: string) => HasText(r.documents, id));
  }

  function WithText(c: Catalog, referenced: set<string>): set<string>
    requires forall id | id in referenced :: id in c.meta
  {
    set id | id in referenced && c.meta[id].bytes.Some?
  }

  /** Counts the referenced fragments with and without bytes. */
  method CountText(c: Catalog, referenced: set<string>) returns (bytesN: nat, metaN: nat)
    requires forall id | id in referenced :: id in c.meta
    ensures bytesN == |WithText(c, referenced)|
    ensures metaN == |referenced - WithText(c, referenced)|
  {
    ghost var withText := WithText(c, referenced);
    ghost var without := referenced - withText;
    bytesN, metaN := 0, 0;
    var todo := referenced;
    while todo != {}
      invariant todo <= referenced
      invariant bytesN == |withText - todo| && metaN == |without - todo|
    {
      var id :| id in todo;
      CountOneMore(withText, todo, id);
      CountOneMore(without, todo, id);
      if c.meta[id].bytes == None { metaN := metaN + 1; } else { bytesN := bytesN + 1; }
      todo := todo - {id};
    }
    assert withText - todo == withText && without - todo == without;
  }

  lemma CountOneMore<T>(s: set<T>, todo: set<T>, x: T)
    requires x in todo
    ensures |s - (todo - {x})| == |s - todo| + if x in s then 1 else 0
  {
    if x in s {
      assert s - (todo - {x}) == (s - todo) + {x};
    } else {
      assert s - (todo - {x}) == s - todo;
    }
  }

  method DeriveValidation(r: Records, c: Catalog, referenced: set<string>) returns (derived: string)
    requires CatalogOk(r.documents) && CatalogOf(c, r.documents)
    requires referenced == Referenced(r.bundles) && forall id | id in referenced :: id in c.meta
    ensures derived == DerivedValidation(r)
  {
    var bytesN, metaN := CountText(c, referenced);
    ghost var withText := WithText(c, referenced);
    forall id | id in referenced ensures id in withText <==> HasText(r.documents, id) {
      TextInCatalog(c, r.documents, id);
    }
    LabelFromText(r, withText);
    assert bytesN == 0 <==> withText == {};
    assert metaN == 0 <==> referenced - withText == {};
    assert referenced <= withText <==> referenced - withText == {};
    if referenced == {} {
      derived := "metadata-only";
    } else if metaN == 0 {
      derived := "bytes-present";
    } else if bytesN == 0 {
      derived := "metadata-only";
    } else {
      derived := "mixed";
    }
  }
}
