/** The operator inventory built from the pilot cases and the diagnosed series. */
module ContextInventory {
  import opened Sequences
  import opened Utf8
  import opened EditionSeries

  datatype Diagnostic =
    | SourceShape | DuplicateCase | MissingFragment | DocMismatch | WrongHash
    | ByteLenMismatch | SpanInvalid | CrossDocumentSeries | CrossBlockTextAnchor

  datatype SeedFragment = SeedFragment(file: string, docId: string, byteLen: int, index: int)

  datatype DiagFragment = DiagFragment(
    id: string, docId: string, byteLen: int, textSha: string, flags: seq<Flag>, index: int)

  datatype Case = Case(
    id: string, fragmentId: string, docId: string, start: int, end: int,
    byteLen: int, sourceSha: string, index: int)

  // ----- Loading the diagnosis

  function DiagId(): DiagFragment -> string { (f: DiagFragment) => f.id }

  /** One series row as the loader wants it. */
  predicate LoadableSeries(s: Series) {
    && !s.crossBlockTextAnchor
    && |s.fragmentIds| >= 2 && "" !in s.fragmentIds
    && |s.blockIndices| == |s.fragmentIds|
  }

  predicate Loadable(fragments: seq<DiagFragment>, series: seq<Series>) {
    && fragments != [] && (forall f | f in fragments :: f.id != "")
    && Distinct(Map(DiagId(), fragments))
    && (forall s | s in series :: LoadableSeries(s))
    && Distinct(Members(series))
  }

  datatype Diagnosis = Diagnosis(fragments: map<string, DiagFragment>, seriesOf: map<string, Series>)

  /** The dictionaries index exactly the loaded rows. */
  ghost predicate Indexes(d: Diagnosis, fragments: seq<DiagFragment>, series: seq<Series>) {
    && d.fragments.Keys == (set f | f in fragments :: f.id)
    && (forall f | f in fragments :: f.id in d.fragments && d.fragments[f.id] == f)
    && d.seriesOf.Keys == (set id | id in Members(series))
    && (forall s, id | s in series && id in s.fragmentIds :: id in d.seriesOf && d.seriesOf[id] == s)
  }

  ghost predicate IndexesFragments(byId: map<string, DiagFragment>, fragments: seq<DiagFragment>) {
    && byId.Keys == (set f | f in fragments :: f.id)
    && (forall f | f in fragments :: f.id in byId && byId[f.id] == f)
  }

  lemma IndexOneMore(byId: map<string, DiagFragment>, fragments: seq<DiagFragment>, f: DiagFragment)
    requires IndexesFragments(byId, fragments) && f.id !in byId
    ensures IndexesFragments(byId[f.id := f], fragments + [f])
  {
    assert forall g :: g in fragments + [f] <==> g in fragments || g == f;
  }

  lemma IndexedIds(byId: map<string, DiagFragment>, fragments: seq<DiagFragment>, id: string)
    requires IndexesFragments(byId, fragments)
    ensures id in byId <==> id in Map(DiagId(), fragments)
  {
    var ids := Map(DiagId(), fragments);
    if id in ids {
      var i :| 0 <= i < |ids| && ids[i] == id;
      assert fragments[i] in fragments && fragments[i].id == id;
    }
    if f :| f in fragments && f.id == id {
      var i :| 0 <= i < |fragments| && fragments[i] == f;
      assert ids[i] == id;
    }
  }

  method LoadFragments(fragments: seq<DiagFragment>) returns (r: Result<map<string, DiagFragment>, Diagnostic>)
    ensures r.Ok? <==> (forall f | f in fragments :: f.id != "") && Distinct(Map(DiagId(), fragments))
    ensures r.Ok? ==> IndexesFragments(r.value, fragments)
    ensures r.Err? ==> r.error == SourceShape
  {
    var byId: map<string, DiagFragment> := map[];
    ghost var ids := Map(DiagId(), fragments);
    for i := 0 to |fragments|
      invariant IndexesFragments(byId, fragments[..i])
      invariant forall f | f in fragments[..i] :: f.id != ""
      invariant Distinct(ids[..i])
    {
      var f := fragments[i];
      assert ids[i] == f.id && f in fragments && Map(DiagId(), fragments[..i]) == ids[..i];
      PrefixStep(ids, i);
      PrefixStep(fragments, i);
      IndexedIds(byId, fragments[..i], f.id);
      if f.id == "" { return Err(SourceShape); }
      if f.id in byId {
        RepeatedAt(ids, i);
        return Err(SourceShape);
      }
      DistinctAppend(ids[..i], f.id);
      IndexOneMore(byId, fragments[..i], f);
      byId := byId[f.id := f];
    }
    assert ids[..|fragments|] == ids && fragments[..|fragments|] == fragments;
    return Ok(byId);
  }

  /** The members of one more series. */
  lemma MembersStep(series: seq<Series>, i: nat)
    requires i < |series|
    ensures Members(series[..i + 1]) == Members(series[..i]) + series[i].fragmentIds
    ensures Members(series) == Members(series[..i + 1]) + Members(series[i + 1..])
  {
    PrefixStep(series, i);
    MembersConcat(series[..i], [series[i]]);
    MembersOfOne(series[i]);
    assert series == series[..i + 1] + series[i + 1..];
    MembersConcat(series[..i + 1], series[i + 1..]);
  }

  lemma MembersOfOne(s: Series)
    ensures Members([s]) == s.fragmentIds
  {
    assert [s][1..] == [];
    PlusEmpty(s.fragmentIds);
  }

  method LoadSeries(series: seq<Series>) returns (r: Result<map<string, Series>, Diagnostic>)
    ensures r.Ok? <==> (forall s | s in series :: LoadableSeries(s)) && Distinct(Members(series))
    ensures r.Ok? ==> r.value.Keys == (set id | id in Members(series))
    ensures r.Ok? ==> forall id | id in r.value :: r.value[id] in series && id in r.value[id].fragmentIds
    ensures r.Err? ==> r.error == SourceShape || r.error == CrossBlockTextAnchor
  {
    var byFrag: map<string, Series> := map[];
    for i := 0 to |series|
      invariant forall id :: id in byFrag <==> id in Members(series[..i])
      invariant forall id | id in byFrag :: byFrag[id] in series && id in byFrag[id].fragmentIds
      invariant Distinct(Members(series[..i]))
      invariant forall k | 0 <= k < i :: LoadableSeries(series[k])
    {
      var s := series[i];
      assert s in series;
      MembersStep(series, i);
      if s.crossBlockTextAnchor { return Err(CrossBlockTextAnchor); }
      if !LoadableSeries(s) { return Err(SourceShape); }
      ghost var before := Members(series[..i]);
      var more := ClaimMembers(s, byFrag, before);
      if more.None? {
        StillRepeats(before + s.fragmentIds, Members(series[i + 1..]));
        return Err(SourceShape);
      }
      byFrag := more.value;
    }
    assert series[..|series|] == series;
    return Ok(byFrag);
  }

  /** Gives the members to their series, unless one has an owner already. */
  method ClaimMembers(s: Series, byFrag: map<string, Series>, ghost before: seq<string>)
    returns (r: Option<map<string, Series>>)
    requires (forall id :: id in byFrag <==> id in before) && Distinct(before)
    ensures r.Some? <==> Distinct(before + s.fragmentIds)
    ensures r.Some? ==> forall id :: id in r.value <==> id in before + s.fragmentIds
    ensures r.Some? ==> forall id | id in r.value ::
              if id in s.fragmentIds then r.value[id] == s else id in byFrag && r.value[id] == byFrag[id]
  {
    var owners := byFrag;
    for j := 0 to |s.fragmentIds|
      invariant forall id :: id in owners <==> id in before + s.fragmentIds[..j]
      invariant forall id | id in owners ::
                  if id in s.fragmentIds[..j] then owners[id] == s else id in byFrag && owners[id] == byFrag[id]
      invariant Distinct(before + s.fragmentIds[..j])
    {
      var id := s.fragmentIds[j];
      PrefixStep(s.fragmentIds, j);
      ghost var seen := before + s.fragmentIds[..j];
      assert before + s.fragmentIds[..j + 1] == seen + [id];
      if id in owners {
        assert (before + s.fragmentIds)[..|before| + j] == seen;
        RepeatedAt(before + s.fragmentIds, |before| + j);
        return None;
      }
      DistinctAppend(seen, id);
      owners := owners[id := s];
    }
    assert s.fragmentIds[..|s.fragmentIds|] == s.fragmentIds;
    return Some(owners);
  }

  lemma StillRepeats(s: seq<string>, more: seq<string>)
    requires !Distinct(s)
    ensures !Distinct(s + more)
  {
    var i, j :| 0 <= i < j < |s| && s[i] == s[j];
    assert (s + more)[i] == (s + more)[j];
  }

  lemma {:induction false} MemberOf(series: seq<Series>, s: Series, id: string)
    requires s in series && id in s.fragmentIds
    ensures id in Members(series)
  {
    if s != series[0] { MemberOf(series[1..], s, id); }
  }

  lemma {:induction false} OneOwner(series: seq<Series>, s: Series, t: Series, id: string)
    requires Distinct(Members(series)) && s in series && t in series
    requires id in s.fragmentIds && id in t.fragmentIds
    ensures s == t
  {
    var rest := series[1..];
    var all := Members(series);
    assert all == series[0].fragmentIds + Members(rest);
    forall i, j | 0 <= i < j < |Members(rest)| ensures Members(rest)[i] != Members(rest)[j] {
      assert all[|series[0].fragmentIds| + i] == Members(rest)[i] && all[|series[0].fragmentIds| + j] == Members(rest)[j];
    }
    if s != series[0] { MemberOf(rest, s, id); }
    if t != series[0] { MemberOf(rest, t, id); }
    NotInBoth(series[0].fragmentIds, Members(rest), id);
    if s != series[0] && t != series[0] { OneOwner(rest, s, t, id); }
  }

  lemma NotInBoth(head: seq<string>, rest: seq<string>, id: string)
    requires Distinct(head + rest)
    ensures id in head ==> id !in rest
  {
    forall j | 0 <= j < |rest| ensures id in head ==> rest[j] != id {
      if id in head {
        var i :| 0 <= i < |head| && head[i] == id;
        assert (head + rest)[i] != (head + rest)[|head| + j];
      }
    }
  }

  method LoadDiagnosis(fragments: seq<DiagFragment>, series: seq<Series>) returns (r: Result<Diagnosis, Diagnostic>)
    ensures r.Ok? <==> Loadable(fragments, series)
    ensures r.Ok? ==> Indexes(r.value, fragments, series)
    ensures r.Err? ==> r.error == SourceShape || r.error == CrossBlockTextAnchor
  {
    if fragments == [] { return Err(SourceShape); }
    var byId := LoadFragments(fragments);
    if byId.Err? { return Err(byId.error); }
    var byFrag := LoadSeries(series);
    if byFrag.Err? { return Err(byFrag.error); }
    forall s, id | s in series && id in s.fragmentIds
      ensures id in byFrag.value && byFrag.value[id] == s
    {
      MemberOf(series, s, id);
      OneOwner(series, s, byFrag.value[id], id);
    }
    return Ok(Diagnosis(byId.value, byFrag.value));
  }

  // ----- What the diagnosis emits, the loader accepts

  /** The fragment rows the diagnosis writes for its blocks. */
  function RowOf(lex: Lexicon, sha: seq<Byte> -> string): Block -> DiagFragment {
    (b: Block) => DiagFragment(b.fragmentId, b.docId, |b.raw|, sha(b.raw), TruncFlags(lex, b.text), b.index)
  }

  /** Series found in blocks with unique non-empty ids always pass the loader:
      no fragment belongs to more than one series. */
  lemma DiagnosisLoads(lex: Lexicon, sha: seq<Byte> -> string, rows: seq<Block>)
    requires rows != [] && (forall b | b in rows :: b.fragmentId != "")
    requires Distinct(Map(FragmentId(), rows))
    ensures Loadable(Map(RowOf(lex, sha), rows), AllSeries(lex, rows, DocumentIds(rows)))
  {
    var fragments, series := Map(RowOf(lex, sha), rows), AllSeries(lex, rows, DocumentIds(rows));
    assert Map(DiagId(), fragments) == Map(FragmentId(), rows);
    forall f | f in fragments ensures f.id != "" {
      var i :| 0 <= i < |fragments| && fragments[i] == f;
      assert rows[i] in rows;
    }
    SeriesAreDisjoint(lex, rows);
    AllSeriesWellMade(lex, rows, DocumentIds(rows));
    forall s | s in series ensures LoadableSeries(s) {
      assert WellMadeSeries(s);
      forall id | id in s.fragmentIds ensures id != "" {
        MemberOf(series, s, id);
        MemberIsRow(lex, rows, id);
      }
    }
  }

  lemma MemberIsRow(lex: Lexicon, rows: seq<Block>, id: string)
    requires id in Members(AllSeries(lex, rows, DocumentIds(rows)))
    ensures exists b :: b in rows && b.fragmentId == id
  {
    var docIds := DocumentIds(rows);
    AllSeriesMembers(lex, rows, docIds);
    var blocks := OfDocuments(rows, docIds);
    assert id in multiset(Map(FragmentId(), blocks));
    var i :| 0 <= i < |blocks| && Map(FragmentId(), blocks)[i] == id;
    DocumentIdsDistinct(rows);
    OfDocumentsCount(rows, docIds, blocks[i]);
    assert blocks[i] in multiset(blocks);
  }

  // ----- Pilot cases

  function CaseId(): Case -> string { (c: Case) => c.id }

  /** The case list and the declared count the loader wants. */
  predicate LoadablePilot(cases: seq<Case>, declared: Option<int>) {
    && cases != [] && (forall c | c in cases :: c.id != "")
    && Distinct(Map(CaseId(), cases))
    && (declared.Some? ==> declared.value == |cases|)
  }

  method LoadPilot(cases: seq<Case>, declared: Option<int>) returns (ok: bool)
    ensures ok <==> LoadablePilot(cases, declared)
  {
    if cases == [] { return false; }
    var seen: set<string> := {};
    ghost var ids := Map(CaseId(), cases);
    for i := 0 to |cases|
      invariant seen == set id | id in ids[..i]
      invariant Distinct(ids[..i]) && forall k | 0 <= k < i :: cases[k].id != ""
    {
      PrefixStep(ids, i);
      assert ids[i] == cases[i].id && cases[i] in cases;
      if cases[i].id == "" || cases[i].id in seen {
        assert cases[i].id in seen ==> exists k :: 0 <= k < i && ids[k] == cases[i].id;
        return false;
      }
      seen := seen + {cases[i].id};
    }
    assert ids[..|cases|] == ids;
    return declared.Some? ==> declared.value == |cases|;
  }

  // ----- Building the inventory

  /** Everything the inventory is built from; seed documents by id give the hash of
      the source they were harvested from. */
  datatype World = World(
    documents: map<string, string>, seed: map<string, SeedFragment>, diagnosis: Diagnosis,
    files: map<string, seq<Byte>>, sha: seq<Byte> -> string)

  datatype Eligibility = SeriesContextOnly | UnavailableForCoding | RequiresReview | InventoryOnly

  function Classify(series: Option<Series>, flags: seq<Flag>): (Eligibility, bool) {
    if series.Some? then (SeriesContextOnly, false)
    else if StartsOtDate in flags then (UnavailableForCoding, true)
    else if flags != [] then (RequiresReview, false)
    else (InventoryOnly, false)
  }

  datatype LocalRef = LocalRef(fragmentId: string, docId: string, textSha: string, byteLen: nat, start: int, end: int)

  predicate Present(w: World, id: string) {
    id in w.seed && id in w.diagnosis.fragments && w.seed[id].file in w.files
  }

  function Raw(w: World, id: string): seq<Byte>
    requires Present(w, id)
  {
    w.files[w.seed[id].file]
  }

  /** The fixture agrees with the seed and with the diagnosis. */
  predicate Consistent(w: World, id: string, docId: string)
    requires Present(w, id)
  {
    var s, d := w.seed[id], w.diagnosis.fragments[id];
    && docId == s.docId == d.docId
    && w.sha(Raw(w, id)) == d.textSha
    && |Raw(w, id)| == s.byteLen == d.byteLen
    && s.index == d.index
  }

  predicate CaseOk(w: World, c: Case) {
    && c.fragmentId != "" && c.docId != ""
    && Present(w, c.fragmentId) && Consistent(w, c.fragmentId, c.docId)
    && c.docId in w.documents && c.sourceSha == w.documents[c.docId]
    && c.index == w.seed[c.fragmentId].index && c.byteLen == |Raw(w, c.fragmentId)|
    && SpanOk(Raw(w, c.fragmentId), c.start, c.end)
    && (c.start != 0 || c.end != |Raw(w, c.fragmentId)| ==> c.start < c.end)
  }

  predicate Listed(w: World, id: string) { id in w.seed && id in w.diagnosis.fragments }

  /** A reported diagnostic names a defect the case has. */
  predicate CaseDefect(w: World, c: Case, code: Diagnostic) {
    var id := c.fragmentId;
    match code
    case MissingFragment => !Present(w, id)
    case DocMismatch => Listed(w, id) && !(c.docId == w.seed[id].docId == w.diagnosis.fragments[id].docId)
    case WrongHash =>
      || (c.docId in w.documents && c.sourceSha != w.documents[c.docId])
      || (Present(w, id) && w.sha(Raw(w, id)) != w.diagnosis.fragments[id].textSha)
    case ByteLenMismatch =>
      Present(w, id) && !(|Raw(w, id)| == c.byteLen == w.seed[id].byteLen == w.diagnosis.fragments[id].byteLen)
    case SpanInvalid =>
      && Present(w, id)
      && !(SpanOk(Raw(w, id), c.start, c.end) && (c.start != 0 || c.end != |Raw(w, id)| ==> c.start < c.end))
    case SourceShape =>
      || id == "" || c.docId == "" || c.docId !in w.documents
      || (Listed(w, id) && !(c.index == w.seed[id].index == w.diagnosis.fragments[id].index))
    case _ => false
  }

  method CheckCase(w: World, c: Case) returns (r: Result<LocalRef, Diagnostic>)
    ensures r.Ok? <==> CaseOk(w, c)
    ensures r.Ok? ==> r.value == FocusOf(w, c)
    ensures r.Err? ==> CaseDefect(w, c, r.error)
  {
    if c.fragmentId == "" { return Err(SourceShape); }
    if c.fragmentId !in w.seed || c.fragmentId !in w.diagnosis.fragments { return Err(MissingFragment); }
    var s, d := w.seed[c.fragmentId], w.diagnosis.fragments[c.fragmentId];
    if c.docId == "" { return Err(SourceShape); }
    if c.docId != s.docId || c.docId != d.docId { return Err(DocMismatch); }
    if c.docId !in w.documents { return Err(SourceShape); }
    if c.sourceSha != w.documents[c.docId] { return Err(WrongHash); }
    if c.index != s.index || s.index != d.index { return Err(SourceShape); }
    if s.file !in w.files { return Err(MissingFragment); }
    var raw := w.files[s.file];
    if w.sha(raw) != d.textSha { return Err(WrongHash); }
    if |raw| != c.byteLen || |raw| != s.byteLen || |raw| != d.byteLen { return Err(ByteLenMismatch); }
    if c.start != 0 || c.end != |raw| {
      if c.start < 0 || c.end > |raw| || c.start >= c.end { return Err(SpanInvalid); }
    }
    if !SpanOk(raw, c.start, c.end) { return Err(SpanInvalid); }
    return Ok(LocalRef(c.fragmentId, c.docId, w.sha(raw), |raw|, c.start, c.end));
  }

  function FocusOf(w: World, c: Case): LocalRef
    requires CaseOk(w, c)
  {
    LocalRef(c.fragmentId, c.docId, w.sha(Raw(w, c.fragmentId)), |Raw(w, c.fragmentId)|, c.start, c.end)
  }

  /** A series member can be shown next to the focus. */
  predicate MemberOk(w: World, s: Series, id: string) {
    Present(w, id) && Consistent(w, id, s.docId)
  }

  /** The focus itself is not shown, so only the others need to be text. */
  predicate Showable(w: World, s: Series, id: string, focus: string) {
    MemberOk(w, s, id) && (id != focus ==> Decode(Raw(w, id)).Some?)
  }

  predicate SeriesOk(w: World, s: Series, focus: string) {
    && |s.blockIndices| == |s.fragmentIds|
    && (forall i | 0 <= i < |s.fragmentIds| ::
          Showable(w, s, s.fragmentIds[i], focus) && s.blockIndices[i] == w.seed[s.fragmentIds[i]].index)
  }

  function RefOf(w: World, s: Series, id: string): LocalRef
    requires MemberOk(w, s, id)
  {
    LocalRef(id, s.docId, w.sha(Raw(w, id)), |Raw(w, id)|, 0, |Raw(w, id)|)
  }

  /** The members other than the focus, in series order. */
  function OtherMembers(ids: seq<string>, focus: string): seq<string> {
    if ids == [] then []
    else OtherMembers(ids[..|ids| - 1], focus) + if ids[|ids| - 1] == focus then [] else [ids[|ids| - 1]]
  }

  lemma WholeSpan(raw: seq<Byte>)
    ensures SpanOk(raw, 0, |raw|) <==> Decode(raw).Some?
  {
    assert raw[0..|raw|] == raw;
  }

  /** The refs are the whole fragments of the listed members. */
  predicate AreRefs(w: World, s: Series, refs: seq<LocalRef>, ids: seq<string>) {
    && |refs| == |ids|
    && (forall i | 0 <= i < |refs| :: MemberOk(w, s, ids[i]) && refs[i] == RefOf(w, s, ids[i]))
  }

  lemma OneMoreRef(w: World, s: Series, refs: seq<LocalRef>, ids: seq<string>, ref: LocalRef, id: string)
    requires AreRefs(w, s, refs, ids) && MemberOk(w, s, id) && ref == RefOf(w, s, id)
    ensures AreRefs(w, s, refs + [ref], ids + [id])
  {
  }

  /** A reported diagnostic names a defect the member has. */
  predicate MemberDefect(w: World, s: Series, id: string, code: Diagnostic) {
    match code
    case MissingFragment => !Present(w, id)
    case CrossDocumentSeries => Listed(w, id) && !(s.docId == w.seed[id].docId == w.diagnosis.fragments[id].docId)
    case WrongHash => Present(w, id) && w.sha(Raw(w, id)) != w.diagnosis.fragments[id].textSha
    case ByteLenMismatch =>
      Present(w, id) && !(|Raw(w, id)| == w.seed[id].byteLen == w.diagnosis.fragments[id].byteLen)
    case SourceShape => Listed(w, id) && w.seed[id].index != w.diagnosis.fragments[id].index
    case _ => false
  }

  method CheckMember(w: World, s: Series, id: string) returns (r: Option<Diagnostic>)
    ensures r.None? <==> MemberOk(w, s, id)
    ensures r.Some? ==> MemberDefect(w, s, id, r.value)
  {
    if id !in w.seed || id !in w.diagnosis.fragments { return Some(MissingFragment); }
    var seed, diag := w.seed[id], w.diagnosis.fragments[id];
    if seed.docId != s.docId || seed.docId != diag.docId { return Some(CrossDocumentSeries); }
    if seed.file !in w.files { return Some(MissingFragment); }
    var raw := w.files[seed.file];
    if w.sha(raw) != diag.textSha { return Some(WrongHash); }
    if |raw| != seed.byteLen || |raw| != diag.byteLen { return Some(ByteLenMismatch); }
    if seed.index != diag.index { return Some(SourceShape); }
    return None;
  }

  /** A reported diagnostic names a defect of some member, one that cannot be shown, or
      one that is not at its place. */
  ghost predicate SeriesDefect(w: World, s: Series, focus: string, code: Diagnostic)
    requires |s.blockIndices| == |s.fragmentIds|
  {
    exists k | 0 <= k < |s.fragmentIds| ::
      var id := s.fragmentIds[k];
      || MemberDefect(w, s, id, code)
      || (code == SpanInvalid && Present(w, id) && id != focus && Decode(Raw(w, id)).None?)
      || (code == SourceShape && id in w.seed && w.seed[id].index != s.blockIndices[k])
  }

  method ContextRefs(w: World, s: Series, focus: string) returns (r: Result<seq<LocalRef>, Diagnostic>)
    requires |s.blockIndices| == |s.fragmentIds|
    ensures r.Ok? <==> SeriesOk(w, s, focus)
    ensures r.Err? ==> SeriesDefect(w, s, focus, r.error)
    ensures r.Ok? ==> AreRefs(w, s, r.value, OtherMembers(s.fragmentIds, focus))
  {
    var refs: seq<LocalRef> := [];
    var ordered: seq<int> := [];
    for i := 0 to |s.fragmentIds|
      invariant forall k | 0 <= k < i :: Showable(w, s, s.fragmentIds[k], focus)
      invariant |ordered| == i && forall k | 0 <= k < i :: ordered[k] == w.seed[s.fragmentIds[k]].index
      invariant AreRefs(w, s, refs, OtherMembers(s.fragmentIds[..i], focus))
    {
      var id := s.fragmentIds[i];
      PrefixStep(s.fragmentIds, i);
      var refused := CheckMember(w, s, id);
      if refused.Some? { return Err(refused.value); }
      ordered := ordered + [w.seed[id].index];
      if id != focus {
        var raw := w.files[w.seed[id].file];
        WholeSpan(raw);
        if !SpanOk(raw, 0, |raw|) { return Err(SpanInvalid); }
        var ref := LocalRef(id, w.seed[id].docId, w.sha(raw), |raw|, 0, |raw|);
        OneMoreRef(w, s, refs, OtherMembers(s.fragmentIds[..i], focus), ref, id);
        refs := refs + [ref];
      }
    }
    assert s.fragmentIds[..|s.fragmentIds|] == s.fragmentIds;
    if ordered != s.blockIndices {
      assert exists k :: 0 <= k < |ordered| && ordered[k] != s.blockIndices[k];
      return Err(SourceShape);
    }
    return Ok(refs);
  }

  datatype PublicCase = PublicCase(
    id: string, contextRefs: seq<LocalRef>, duplicates: seq<string>, eligibility: Eligibility,
    focus: LocalRef, series: Option<Series>, flags: seq<Flag>, unresolvedHead: bool)

  function SeriesAt(w: World, c: Case): Option<Series> {
    if c.fragmentId in w.diagnosis.seriesOf then Some(w.diagnosis.seriesOf[c.fragmentId]) else None
  }

  predicate Buildable(w: World, c: Case) {
    CaseOk(w, c) && (SeriesAt(w, c).Some? ==> SeriesOk(w, SeriesAt(w, c).value, c.fragmentId))
  }

  function DigestOf(w: World, c: Case): string
    requires CaseOk(w, c)
  {
    w.sha(Raw(w, c.fragmentId))
  }

  function FlagsOf(w: World, c: Case): seq<Flag>
    requires CaseOk(w, c)
  {
    w.diagnosis.fragments[c.fragmentId].flags
  }

  /** The ids of the cases with a digest, in case order. */
  function SameText(w: World, cases: seq<Case>, digest: string): seq<string>
  {
    if cases == [] then []
    else
      var last := cases[|cases| - 1];
      SameText(w, cases[..|cases| - 1], digest)
      + if CaseOk(w, last) && DigestOf(w, last) == digest then [last.id] else []
  }

  function GroupOf(groups: map<string, seq<string>>, digest: string): seq<string> {
    if digest in groups then groups[digest] else []
  }

  /** What the inventory says of one case, given the ids of the cases with its text. */
  predicate Publishes(w: World, c: Case, same: seq<string>, p: PublicCase)
    requires CaseOk(w, c)
  {
    var series := SeriesAt(w, c);
    var flags := FlagsOf(w, c);
    && p.id == c.id && p.focus == FocusOf(w, c) && p.series == series && p.flags == flags
    && (p.eligibility, p.unresolvedHead) == Classify(series, flags)
    && p.duplicates == OtherMembers(same, c.id)
    && (series.None? ==> p.contextRefs == [])
    && (series.Some? ==> AreRefs(w, series.value, p.contextRefs, OtherMembers(series.value.fragmentIds, c.fragmentId)))
  }

  ghost predicate Describes(w: World, cases: seq<Case>, c: Case, p: PublicCase)
    requires (forall d | d in cases :: CaseOk(w, d)) && CaseOk(w, c)
  {
    Publishes(w, c, SameText(w, cases, DigestOf(w, c)), p)
  }

  ghost predicate Inventory(w: World, cases: seq<Case>, out: seq<PublicCase>) {
    && (forall c | c in cases :: CaseOk(w, c))
    && |out| == |cases|
    && (forall i | 0 <= i < |cases| :: cases[i] in cases && Describes(w, cases, cases[i], out[i]))
  }

  /** The focus ref of a good case. */
  function Checked(w: World, c: Case): Option<LocalRef> {
    if CaseOk(w, c) then Some(FocusOf(w, c)) else None
  }

  predicate AllChecked(w: World, cases: seq<Case>, focus: seq<LocalRef>) {
    |focus| == |cases| && forall i | 0 <= i < |cases| :: Checked(w, cases[i]) == Some(focus[i])
  }

  lemma OneMoreChecked(w: World, cases: seq<Case>, focus: seq<LocalRef>, c: Case, ref: LocalRef)
    requires AllChecked(w, cases, focus) && Checked(w, c) == Some(ref)
    ensures AllChecked(w, cases + [c], focus + [ref])
  {
  }

  lemma CheckedAreOk(w: World, cases: seq<Case>, focus: seq<LocalRef>)
    requires AllChecked(w, cases, focus)
    ensures forall c | c in cases :: CaseOk(w, c)
  {
    forall c | c in cases ensures CaseOk(w, c) {
      var i :| 0 <= i < |cases| && cases[i] == c;
      assert Checked(w, cases[i]) == Some(focus[i]);
    }
  }

  /** First pass: check every case and group the case ids by text digest. */
  method CheckCases(w: World, cases: seq<Case>)
    returns (r: Result<(seq<LocalRef>, map<string, seq<string>>), Diagnostic>)
    ensures r.Ok? <==> forall c | c in cases :: CaseOk(w, c)
    ensures r.Err? ==> exists c :: c in cases && CaseDefect(w, c, r.error)
    ensures r.Ok? ==> AllChecked(w, cases, r.value.0)
    ensures r.Ok? ==> forall d :: GroupOf(r.value.1, d) == SameText(w, cases, d)
  {
    var focus: seq<LocalRef> := [];
    var groups: map<string, seq<string>> := map[];
    for i := 0 to |cases|
      invariant AllChecked(w, cases[..i], focus)
      invariant forall d :: GroupOf(groups, d) == SameText(w, cases[..i], d)
    {
      var c := cases[i];
      assert c in cases;
      PrefixStep(cases, i);
      var ref := CheckCase(w, c);
      if ref.Err? { return Err(ref.error); }
      OneMoreChecked(w, cases[..i], focus, c, ref.value);
      focus := focus + [ref.value];
      var d := ref.value.textSha;
      groups := groups[d := GroupOf(groups, d) + [c.id]];
    }
    assert cases[..|cases|] == cases;
    CheckedAreOk(w, cases, focus);
    return Ok((focus, groups));
  }

  lemma {:induction false} NoOthers(ids: seq<string>, focus: string)
    requires |ids| == 1 && ids[0] == focus
    ensures OtherMembers(ids, focus) == []
  {
    assert ids[..0] == [];
  }

  lemma {:induction false} CaseListed(w: World, cases: seq<Case>, c: Case)
    requires (forall d | d in cases :: CaseOk(w, d)) && c in cases
    ensures c.id in SameText(w, cases, DigestOf(w, c))
  {
    var front, last := cases[..|cases| - 1], cases[|cases| - 1];
    assert cases == front + [last];
    if c != last { CaseListed(w, front, c); }
  }

  /** The diagnostic names a defect of the case or of its series. */
  ghost predicate BuildDefect(w: World, c: Case, code: Diagnostic) {
    || CaseDefect(w, c, code)
    || (var s := SeriesAt(w, c);
        s.Some? && |s.value.blockIndices| == |s.value.fragmentIds| && SeriesDefect(w, s.value, c.fragmentId, code))
  }

  /** Second pass, one case: same is the group of its digest. */
  method PublishCase(w: World, c: Case, focus: LocalRef, same: seq<string>) returns (r: Result<PublicCase, Diagnostic>)
    requires CaseOk(w, c) && focus == FocusOf(w, c) && c.id in same
    requires SeriesAt(w, c).Some? ==> |SeriesAt(w, c).value.blockIndices| == |SeriesAt(w, c).value.fragmentIds|
    ensures r.Ok? <==> Buildable(w, c)
    ensures r.Err? ==> BuildDefect(w, c, r.error)
    ensures r.Ok? ==> Publishes(w, c, same, r.value)
  {
    var series := SeriesAt(w, c);
    var flags := w.diagnosis.fragments[c.fragmentId].flags;
    var (eligibility, unresolved) := Classify(series, flags);
    var refs: seq<LocalRef> := [];
    if series.Some? {
      var context := ContextRefs(w, series.value, c.fragmentId);
      if context.Err? { return Err(context.error); }
      refs := context.value;
    }
    var duplicates := if |same| > 1 then OtherMembers(same, c.id) else [];
    if |same| == 1 { NoOthers(same, c.id); }
    return Ok(PublicCase(c.id, refs, duplicates, eligibility, focus, series, flags, unresolved));
  }

  predicate AllPublished(w: World, cases: seq<Case>, part: seq<Case>, out: seq<PublicCase>) {
    && |out| == |part|
    && (forall i | 0 <= i < |part| ::
          CaseOk(w, part[i]) && Publishes(w, part[i], SameText(w, cases, DigestOf(w, part[i])), out[i]))
  }

  lemma OneMorePublished(w: World, cases: seq<Case>, part: seq<Case>, out: seq<PublicCase>, c: Case, p: PublicCase)
    requires AllPublished(w, cases, part, out)
    requires CaseOk(w, c) && Publishes(w, c, SameText(w, cases, DigestOf(w, c)), p)
    ensures AllPublished(w, cases, part + [c], out + [p])
  {
  }

  lemma PublishedIsInventory(w: World, cases: seq<Case>, out: seq<PublicCase>)
    requires (forall c | c in cases :: CaseOk(w, c)) && AllPublished(w, cases, cases, out)
    ensures Inventory(w, cases, out)
  {
    assert forall i | 0 <= i < |cases| :: cases[i] in cases;
  }

  /** Second pass, for cases whose digest groups and focus refs are known. */
  method Build(w: World, cases: seq<Case>) returns (r: Result<seq<PublicCase>, Diagnostic>)
    requires forall id | id in w.diagnosis.seriesOf :: LoadableSeries(w.diagnosis.seriesOf[id])
    ensures r.Ok? <==> forall c | c in cases :: Buildable(w, c)
    ensures r.Err? ==> exists c :: c in cases && BuildDefect(w, c, r.error)
    ensures r.Ok? ==> Inventory(w, cases, r.value)
  {
    var checked := CheckCases(w, cases);
    if checked.Err? { return Err(checked.error); }
    var (focus, groups) := checked.value;
    var out: seq<PublicCase> := [];
    for i := 0 to |cases|
      invariant forall c | c in cases[..i] :: Buildable(w, c)
      invariant AllPublished(w, cases, cases[..i], out)
    {
      var c := cases[i];
      assert c in cases && Checked(w, cases[i]) == Some(focus[i]);
      PrefixStep(cases, i);
      CaseListed(w, cases, c);
      var next := PublishCase(w, c, focus[i], GroupOf(groups, focus[i].textSha));
      if next.Err? { return Err(next.error); }
      OneMorePublished(w, cases, cases[..i], out, c, next.value);
      out := out + [next.value];
    }
    assert cases[..|cases|] == cases;
    PublishedIsInventory(w, cases, out);
    return Ok(out);
  }

  // ----- Accounting

  function IsEligible(e: Eligibility): PublicCase -> nat { (p: PublicCase) => if p.eligibility == e then 1 else 0 }

  function RefCount(): PublicCase -> nat { (p: PublicCase) => |p.contextRefs| }

  function OtherMemberCount(): PublicCase -> nat {
    (p: PublicCase) =>
      if p.eligibility == SeriesContextOnly && p.series.Some? && p.series.value.fragmentIds != []
      then |p.series.value.fragmentIds| - 1 else 0
  }

  function CountIf(test: Case -> bool): Case -> nat { (c: Case) => if test(c) then 1 else 0 }

  predicate InSeries(w: World, c: Case) { c.fragmentId in w.diagnosis.seriesOf }

  /** The flags the diagnosis gave the fragment of a case. */
  function FlagsIn(w: World, c: Case): seq<Flag> {
    if c.fragmentId in w.diagnosis.fragments then w.diagnosis.fragments[c.fragmentId].flags else []
  }

  function InSeriesTest(w: World): Case -> bool { (c: Case) => InSeries(w, c) }
  function OrphanTest(w: World): Case -> bool { (c: Case) => !InSeries(w, c) && StartsOtDate in FlagsIn(w, c) }
  function TruncatedTest(w: World): Case -> bool {
    (c: Case) => !InSeries(w, c) && FlagsIn(w, c) != [] && StartsOtDate !in FlagsIn(w, c)
  }
  function PlainTest(w: World): Case -> bool { (c: Case) => !InSeries(w, c) && FlagsIn(w, c) == [] }

  lemma {:induction false} SumPairwise(f: PublicCase -> nat, g: Case -> nat, out: seq<PublicCase>, cases: seq<Case>)
    requires |out| == |cases| && forall i | 0 <= i < |cases| :: f(out[i]) == g(cases[i])
    ensures Sum(f, out) == Sum(g, cases)
  {
    if out != [] { SumPairwise(f, g, out[..|out| - 1], cases[..|cases| - 1]); }
  }

  lemma {:induction false} OneTestEach(w: World, cases: seq<Case>)
    ensures Sum(CountIf(InSeriesTest(w)), cases) + Sum(CountIf(OrphanTest(w)), cases)
            + Sum(CountIf(TruncatedTest(w)), cases) + Sum(CountIf(PlainTest(w)), cases) == |cases|
  {
    if cases != [] { OneTestEach(w, cases[..|cases| - 1]); }
  }

  /** What the eligibility of a published case says about its fragment. */
  lemma EligibilityMeans(w: World, cases: seq<Case>, out: seq<PublicCase>, i: nat)
    requires Inventory(w, cases, out) && i < |cases|
    ensures out[i].eligibility == SeriesContextOnly <==> InSeriesTest(w)(cases[i])
    ensures out[i].eligibility == UnavailableForCoding <==> OrphanTest(w)(cases[i])
    ensures out[i].eligibility == RequiresReview <==> TruncatedTest(w)(cases[i])
    ensures out[i].eligibility == InventoryOnly <==> PlainTest(w)(cases[i])
    ensures out[i].unresolvedHead <==> out[i].eligibility == UnavailableForCoding
  {
    assert Describes(w, cases, cases[i], out[i]);
  }

  /** The four counts of an inventory are the numbers of cases in a series, with an orphan
      tail, otherwise truncated, and plain; and they add up to the number of cases. */
  lemma EligibilityPartitions(w: World, cases: seq<Case>, out: seq<PublicCase>)
    requires Inventory(w, cases, out)
    ensures Sum(IsEligible(SeriesContextOnly), out) == Sum(CountIf(InSeriesTest(w)), cases)
    ensures Sum(IsEligible(UnavailableForCoding), out) == Sum(CountIf(OrphanTest(w)), cases)
    ensures Sum(IsEligible(RequiresReview), out) == Sum(CountIf(TruncatedTest(w)), cases)
    ensures Sum(IsEligible(InventoryOnly), out) == Sum(CountIf(PlainTest(w)), cases)
    ensures Sum(IsEligible(SeriesContextOnly), out) + Sum(IsEligible(UnavailableForCoding), out)
            + Sum(IsEligible(RequiresReview), out) + Sum(IsEligible(InventoryOnly), out) == |cases|
  {
    forall i | 0 <= i < |cases|
      ensures IsEligible(SeriesContextOnly)(out[i]) == CountIf(InSeriesTest(w))(cases[i])
      ensures IsEligible(UnavailableForCoding)(out[i]) == CountIf(OrphanTest(w))(cases[i])
      ensures IsEligible(RequiresReview)(out[i]) == CountIf(TruncatedTest(w))(cases[i])
      ensures IsEligible(InventoryOnly)(out[i]) == CountIf(PlainTest(w))(cases[i])
    {
      EligibilityMeans(w, cases, out, i);
    }
    SumPairwise(IsEligible(SeriesContextOnly), CountIf(InSeriesTest(w)), out, cases);
    SumPairwise(IsEligible(UnavailableForCoding), CountIf(OrphanTest(w)), out, cases);
    SumPairwise(IsEligible(RequiresReview), CountIf(TruncatedTest(w)), out, cases);
    SumPairwise(IsEligible(InventoryOnly), CountIf(PlainTest(w)), out, cases);
    OneTestEach(w, cases);
  }

  lemma {:induction false} OtherMembersAbsent(ids: seq<string>, focus: string)
    requires focus !in ids
    ensures OtherMembers(ids, focus) == ids
  {
    if ids != [] {
      LastSplit(ids);
      OtherMembersAbsent(ids[..|ids| - 1], focus);
    }
  }

  lemma {:induction false} OneMemberLess(ids: seq<string>, focus: string)
    requires Distinct(ids) && focus in ids
    ensures |OtherMembers(ids, focus)| == |ids| - 1
  {
    var front, last := ids[..|ids| - 1], ids[|ids| - 1];
    LastSplit(ids);
    if last == focus {
      OtherMembersAbsent(front, focus);
    } else {
      assert focus in front by { assert ids == front + [last]; }
      OneMemberLess(front, focus);
    }
  }

  lemma {:induction false} MembersDistinct(series: seq<Series>, s: Series)
    requires Distinct(Members(series)) && s in series
    ensures Distinct(s.fragmentIds)
  {
    var all := Members(series);
    if s == series[0] {
      forall i, j | 0 <= i < j < |s.fragmentIds| ensures s.fragmentIds[i] != s.fragmentIds[j] {
        assert all[i] == s.fragmentIds[i] && all[j] == s.fragmentIds[j];
      }
    } else {
      var n := |series[0].fragmentIds|;
      forall i, j | 0 <= i < j < |Members(series[1..])| ensures Members(series[1..])[i] != Members(series[1..])[j] {
        assert all[n + i] == Members(series[1..])[i] && all[n + j] == Members(series[1..])[j];
      }
      MembersDistinct(series[1..], s);
    }
  }

  /** The context refs of the whole inventory are the other members of the series
      of its series cases: member count minus one each. */
  lemma ContextRefsConserve(w: World, fragments: seq<DiagFragment>, series: seq<Series>, cases: seq<Case>, out: seq<PublicCase>)
    requires Loadable(fragments, series) && Indexes(w.diagnosis, fragments, series)
    requires Inventory(w, cases, out)
    ensures Sum(RefCount(), out) == Sum(OtherMemberCount(), out)
  {
    forall p | p in out ensures RefCount()(p) == OtherMemberCount()(p) {
      var i :| 0 <= i < |out| && out[i] == p;
      var c := cases[i];
      assert Describes(w, cases, c, p);
      if SeriesAt(w, c).Some? {
        assert c.fragmentId in Members(series);
        var s := OwnerOf(w.diagnosis, fragments, series, c.fragmentId);
        MembersDistinct(series, s);
        OneMemberLess(s.fragmentIds, c.fragmentId);
      }
    }
    SumCongruence(RefCount(), OtherMemberCount(), out);
  }

  /** From blocks to inventory: whatever the diagnosis found, the context refs
      account for the other members of the series, case by case. */
  lemma DiagnosedInventoryConserves(
    lex: Lexicon, sha: seq<Byte> -> string, rows: seq<Block>, w: World, cases: seq<Case>, out: seq<PublicCase>)
    requires rows != [] && (forall b | b in rows :: b.fragmentId != "") && Distinct(Map(FragmentId(), rows))
    requires Indexes(w.diagnosis, Map(RowOf(lex, sha), rows), AllSeries(lex, rows, DocumentIds(rows)))
    requires Inventory(w, cases, out)
    ensures Sum(RefCount(), out) == Sum(OtherMemberCount(), out)
  {
    DiagnosisLoads(lex, sha, rows);
    ContextRefsConserve(w, Map(RowOf(lex, sha), rows), AllSeries(lex, rows, DocumentIds(rows)), cases, out);
  }

  lemma OwnerOf(d: Diagnosis, fragments: seq<DiagFragment>, series: seq<Series>, id: string) returns (s: Series)
    requires Indexes(d, fragments, series) && id in d.seriesOf
    ensures s in series && id in s.fragmentIds && d.seriesOf[id] == s
  {
    s := Owner(series, id);
  }

  lemma {:induction false} Owner(series: seq<Series>, id: string) returns (s: Series)
    requires id in Members(series)
    ensures s in series && id in s.fragmentIds
  {
    if id in series[0].fragmentIds {
      s := series[0];
    } else {
      s := Owner(series[1..], id);
    }
  }

  lemma {:induction false} OtherMembersIn(ids: seq<string>, focus: string, id: string)
    ensures id in OtherMembers(ids, focus) <==> id in ids && id != focus
  {
    if ids != [] {
      LastSplit(ids);
      OtherMembersIn(ids[..|ids| - 1], focus, id);
      assert ids == ids[..|ids| - 1] + [ids[|ids| - 1]];
    }
  }

  lemma {:induction false} SameTextIn(w: World, cases: seq<Case>, digest: string, c: Case)
    requires (forall d | d in cases :: CaseOk(w, d)) && c in cases && Distinct(Map(CaseId(), cases))
    ensures c.id in SameText(w, cases, digest) <==> DigestOf(w, c) == digest
  {
    var front, last := cases[..|cases| - 1], cases[|cases| - 1];
    assert cases == front + [last];
    var ids := Map(CaseId(), cases);
    forall i | 0 <= i < |front| ensures front[i].id != last.id {
      assert ids[i] == front[i].id && ids[|front|] == last.id;
    }
    assert Distinct(Map(CaseId(), front)) by { assert Map(CaseId(), front) == ids[..|front|]; }
    SameTextIds(w, front, digest);
    if c != last { SameTextIn(w, front, digest, c); }
  }

  lemma {:induction false} SameTextIds(w: World, cases: seq<Case>, digest: string)
    requires forall d | d in cases :: CaseOk(w, d)
    ensures forall id | id in SameText(w, cases, digest) :: exists i :: 0 <= i < |cases| && cases[i].id == id
  {
    if cases != [] {
      var front, last := cases[..|cases| - 1], cases[|cases| - 1];
      assert forall d | d in front :: d in cases;
      SameTextIds(w, front, digest);
      forall id | id in SameText(w, cases, digest) ensures exists i :: 0 <= i < |cases| && cases[i].id == id {
        if id in SameText(w, front, digest) {
          var i :| 0 <= i < |front| && front[i].id == id;
          assert cases[i].id == id;
        } else {
          assert cases[|cases| - 1].id == id;
        }
      }
    }
  }

  /** A case lists another as a duplicate exactly when their texts have the same
      digest; so the relation is symmetric and never names the case itself. */
  lemma DuplicatesAreDigestClasses(w: World, cases: seq<Case>, out: seq<PublicCase>, i: nat, j: nat)
    requires Inventory(w, cases, out) && Distinct(Map(CaseId(), cases))
    requires i < |cases| && j < |cases|
    ensures cases[j].id in out[i].duplicates <==> i != j && DigestOf(w, cases[i]) == DigestOf(w, cases[j])
    ensures cases[j].id in out[i].duplicates <==> cases[i].id in out[j].duplicates
  {
    DuplicateIff(w, cases, out, i, j);
    DuplicateIff(w, cases, out, j, i);
  }

  lemma DuplicateIff(w: World, cases: seq<Case>, out: seq<PublicCase>, i: nat, j: nat)
    requires Inventory(w, cases, out) && Distinct(Map(CaseId(), cases))
    requires i < |cases| && j < |cases|
    ensures cases[j].id in out[i].duplicates <==> i != j && DigestOf(w, cases[i]) == DigestOf(w, cases[j])
  {
    var c, d := cases[i], cases[j];
    assert c in cases && d in cases && Describes(w, cases, c, out[i]);
    OtherMembersIn(SameText(w, cases, DigestOf(w, c)), c.id, d.id);
    SameTextIn(w, cases, DigestOf(w, c), d);
    assert Map(CaseId(), cases)[i] == c.id && Map(CaseId(), cases)[j] == d.id;
  }
}
