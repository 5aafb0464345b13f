/** What an inventory shows of a case, read against the diagnosis and the seed. */
module InventoryRefs {
  import opened Sequences
  import opened Utf8
  import opened ContextInventory

  function RefId(): LocalRef -> string { (r: LocalRef) => r.fragmentId }

  function NotId(id: string): string -> bool { (other: string) => other != id }

  function TextShaOf(w: World, c: Case): string {
    if c.fragmentId in w.diagnosis.fragments then w.diagnosis.fragments[c.fragmentId].textSha else ""
  }

  /** The other cases whose text the diagnosis gave the same digest. */
  function SameTextAs(w: World, c: Case): Case -> bool {
    (d: Case) => TextShaOf(w, d) == TextShaOf(w, c) && d.id != c.id
  }

  /** The ref is a fragment as the seed and the diagnosis have it. */
  predicate IsFragment(w: World, r: LocalRef) {
    && r.fragmentId in w.seed && r.fragmentId in w.diagnosis.fragments
    && r.docId == w.seed[r.fragmentId].docId == w.diagnosis.fragments[r.fragmentId].docId
    && r.byteLen == w.seed[r.fragmentId].byteLen == w.diagnosis.fragments[r.fragmentId].byteLen
    && r.textSha == w.diagnosis.fragments[r.fragmentId].textSha
  }

  /** The bytes a ref points at are text. */
  predicate PointsAtText(w: World, r: LocalRef) {
    && Present(w, r.fragmentId) && 0 <= r.start <= r.end <= |Raw(w, r.fragmentId)| == r.byteLen
    && Decode(Raw(w, r.fragmentId)[r.start..r.end]).Some?
  }

  /** The focus of a published case is its own span of its own fragment, as the seed and the
      diagnosis have it, and is text; its flags and its series are those of the diagnosis. */
  lemma FocusShown(w: World, cases: seq<Case>, out: seq<PublicCase>, i: nat)
    requires Inventory(w, cases, out) && i < |cases|
    ensures var c, p := cases[i], out[i];
            && p.id == c.id && p.focus.fragmentId == c.fragmentId && p.focus.docId == c.docId
            && p.focus.start == c.start && p.focus.end == c.end && p.focus.byteLen == c.byteLen
            && (p.focus.start == p.focus.end ==> p.focus.byteLen == 0)
            && IsFragment(w, p.focus) && PointsAtText(w, p.focus)
            && p.flags == w.diagnosis.fragments[c.fragmentId].flags
            && (p.series.Some? <==> c.fragmentId in w.diagnosis.seriesOf)
            && (p.series.Some? ==> p.series.value == w.diagnosis.seriesOf[c.fragmentId])
  {
    assert Describes(w, cases, cases[i], out[i]);
  }

  lemma {:induction false} OthersAreFilter(ids: seq<string>, id: string)
    ensures OtherMembers(ids, id) == Filter(NotId(id), ids)
  {
    if ids != [] { OthersAreFilter(ids[..|ids| - 1], id); }
  }

  /** The context of a case is empty without a series; with one it is all its other members, in
      the order of the series, each the whole of a fragment of the document of the series. */
  lemma RefsShown(w: World, cases: seq<Case>, out: seq<PublicCase>, i: nat)
    requires Inventory(w, cases, out) && i < |cases|
    ensures out[i].series.None? ==> out[i].contextRefs == []
    ensures out[i].series.Some? ==>
              && Map(RefId(), out[i].contextRefs) == Filter(NotId(cases[i].fragmentId), out[i].series.value.fragmentIds)
              && forall r | r in out[i].contextRefs ::
                   IsFragment(w, r) && r.docId == out[i].series.value.docId && r.start == 0 && r.end == r.byteLen
  {
    var c, p := cases[i], out[i];
    assert Describes(w, cases, c, p);
    if p.series.Some? {
      var s := p.series.value;
      var ids := OtherMembers(s.fragmentIds, c.fragmentId);
      OthersAreFilter(s.fragmentIds, c.fragmentId);
      assert AreRefs(w, s, p.contextRefs, ids);
      assert Map(RefId(), p.contextRefs) == ids;
    }
  }

  ghost predicate AllOk(w: World, cases: seq<Case>) { forall d | d in cases :: CaseOk(w, d) }

  lemma {:induction false} SameTextIsFilter(w: World, cases: seq<Case>, c: Case)
    requires AllOk(w, cases) && CaseOk(w, c)
    ensures OtherMembers(SameText(w, cases, DigestOf(w, c)), c.id) == Map(CaseId(), Filter(SameTextAs(w, c), cases))
  {
    if cases != [] {
      var front, last := cases[..|cases| - 1], cases[|cases| - 1];
      assert AllOk(w, front) && CaseOk(w, last) by {
        forall d | d in front ensures CaseOk(w, d) { assert d in cases; }
      }
      SameTextIsFilter(w, front, c);
      var before := SameText(w, front, DigestOf(w, c));
      SameDigest(w, last, c);
      if DigestOf(w, last) == DigestOf(w, c) {
        OtherAppended(before, last.id, c.id);
        if last.id != c.id { MapConcat(CaseId(), Filter(SameTextAs(w, c), front), [last]); }
      } else {
        PlusEmpty(before);
      }
    }
  }

  lemma SameDigest(w: World, c: Case, d: Case)
    requires CaseOk(w, c) && CaseOk(w, d)
    ensures DigestOf(w, c) == DigestOf(w, d) <==> TextShaOf(w, c) == TextShaOf(w, d)
  {
  }

  lemma OtherAppended(ids: seq<string>, last: string, id: string)
    ensures OtherMembers(ids + [last], id) == OtherMembers(ids, id) + if last == id then [] else [last]
  {
    assert (ids + [last])[..|ids|] == ids;
  }

  /** The duplicates of a case are the other cases with the same text digest, in case order. */
  lemma DuplicatesShown(w: World, cases: seq<Case>, out: seq<PublicCase>, i: nat)
    requires Inventory(w, cases, out) && i < |cases|
    ensures out[i].duplicates == Map(CaseId(), Filter(SameTextAs(w, cases[i]), cases))
  {
    assert Describes(w, cases, cases[i], out[i]);
    SameTextIsFilter(w, cases, cases[i]);
  }
}
