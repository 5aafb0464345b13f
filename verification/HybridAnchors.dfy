/** What the alignment says about anchors: no keys, no grouping. */
module HybridAnchors {
  import opened Sequences
  import opened Orders
  import opened HybridRecords
  import opened HybridAlign

  // ----- Who sits on which anchors

  function Carries(a: multiset<Anchor>): Occurrence -> bool { (o: Occurrence) => multiset(o.anchors) == a }

  /** The rows with exactly these anchors, in file order. */
  function Carriers(rows: seq<Occurrence>, a: multiset<Anchor>): seq<Occurrence> { Filter(Carries(a), rows) }

  predicate SameAnchors(a: Occurrence, b: Occurrence) { multiset(a.anchors) == multiset(b.anchors) }

  /** Nobody on the other side has the same anchors. */
  function Unanswered(others: seq<Occurrence>): Occurrence -> bool {
    (o: Occurrence) => forall x | x in others :: !SameAnchors(o, x)
  }

  /** Both sides have the anchors, and not just one occurrence each. */
  predicate Contested(expected: seq<Occurrence>, predicted: seq<Occurrence>, a: multiset<Anchor>) {
    && Carriers(expected, a) != [] && Carriers(predicted, a) != []
    && !(|Carriers(expected, a)| == 1 && |Carriers(predicted, a)| == 1)
  }

  /** Each is the only one of its side with their common anchors. */
  predicate Partners(expected: seq<Occurrence>, predicted: seq<Occurrence>, e: Occurrence, p: Occurrence) {
    Carriers(expected, multiset(e.anchors)) == [e] && Carriers(predicted, multiset(e.anchors)) == [p]
  }

  lemma {:induction false} GroupIsCarriers(rows: seq<Occurrence>, o: Occurrence)
    ensures Group(rows, KeyOf(o)) == Carriers(rows, multiset(o.anchors))
  {
    if rows != [] {
      GroupIsCarriers(rows[..|rows| - 1], o);
      KeyIsAnchorMultiset(rows[|rows| - 1], o);
    }
  }

  lemma PartnersArePaired(expected: seq<Occurrence>, predicted: seq<Occurrence>, e: Occurrence, p: Occurrence)
    ensures Partners(expected, predicted, e, p) <==> Paired(expected, predicted, e, p)
  {
    GroupIsCarriers(expected, e);
    GroupIsCarriers(predicted, e);
  }

  /** A key of either side is the key of some occurrence. */
  lemma KeyHolder(expected: seq<Occurrence>, predicted: seq<Occurrence>, k: Key) returns (o: Occurrence)
    requires k in UnionKeys(expected, predicted)
    ensures (o in expected || o in predicted) && KeyOf(o) == k && multiset(k) == multiset(o.anchors)
  {
    UnionKeysElements(expected, predicted);
    if k in Keys(expected) {
      var i :| 0 <= i < |expected| && Keys(expected)[i] == k;
      o := expected[i];
    } else {
      var i :| 0 <= i < |predicted| && Keys(predicted)[i] == k;
      o := predicted[i];
    }
    KeyIsAnchorMultiset(o, o);
  }

  lemma UnansweredIff(rows: seq<Occurrence>, others: seq<Occurrence>, o: Occurrence)
    ensures Unanswered(others)(o) <==> Group(others, KeyOf(o)) == []
  {
    if x :| x in others && SameAnchors(o, x) {
      KeyIsAnchorMultiset(o, x);
      GroupMembers(others, KeyOf(o), x);
    }
    if Group(others, KeyOf(o)) != [] {
      var x := Group(others, KeyOf(o))[0];
      GroupMembers(others, KeyOf(o), x);
      KeyIsAnchorMultiset(o, x);
      assert SameAnchors(o, x);
    }
  }

  // ----- Unmatched

  /** The rows whose ids the walk over the keys puts into an unmatched list. */
  function UnmatchedRows(keys: seq<Key>, rows: seq<Occurrence>, others: seq<Occurrence>): seq<Occurrence> {
    if keys == [] then []
    else
      var k := keys[|keys| - 1];
      UnmatchedRows(keys[..|keys| - 1], rows, others) + if Group(others, k) == [] then Group(rows, k) else []
  }

  lemma {:induction false} UnmatchedRowIds(keys: seq<Key>, rows: seq<Occurrence>, others: seq<Occurrence>)
    ensures UnmatchedOver(keys, rows, others) == Ids(UnmatchedRows(keys, rows, others))
  {
    if keys != [] {
      var front, k := keys[..|keys| - 1], keys[|keys| - 1];
      UnmatchedRowIds(front, rows, others);
      MapConcat(Id(), UnmatchedRows(front, rows, others), if Group(others, k) == [] then Group(rows, k) else []);
    }
  }

  lemma {:induction false} GroupConcat(s: seq<Occurrence>, t: seq<Occurrence>, k: Key)
    ensures Group(s + t, k) == Group(s, k) + Group(t, k)
  {
    if t == [] {
      PlusEmpty(s);
    } else {
      GroupConcat(s, t[..|t| - 1], k);
      assert (s + t)[..|s + t| - 1] == s + t[..|t| - 1];
    }
  }

  lemma GroupAppend(s: seq<Occurrence>, o: Occurrence, k: Key)
    ensures Group(s + [o], k) == Group(s, k) + if KeyOf(o) == k then [o] else []
  {
    assert (s + [o])[..|s|] == s;
  }

  lemma {:induction false} GroupOfGroup(rows: seq<Occurrence>, k: Key, l: Key)
    ensures Group(Group(rows, k), l) == if k == l then Group(rows, k) else []
  {
    if rows != [] {
      var front, last := rows[..|rows| - 1], rows[|rows| - 1];
      GroupOfGroup(front, k, l);
      PlusEmpty(Group(front, k));
      if KeyOf(last) == k {
        GroupAppend(Group(front, k), last, l);
        assert Group(rows, k) == Group(front, k) + [last];
      }
    }
  }

  lemma {:induction false} UnmatchedGroup(keys: seq<Key>, rows: seq<Occurrence>, others: seq<Occurrence>, k: Key)
    requires Distinct(keys)
    ensures Group(UnmatchedRows(keys, rows, others), k) ==
            if k in keys && Group(others, k) == [] then Group(rows, k) else []
  {
    if keys != [] {
      var front, last := keys[..|keys| - 1], keys[|keys| - 1];
      UnmatchedGroup(front, rows, others, k);
      var more := if Group(others, last) == [] then Group(rows, last) else [];
      assert k in keys <==> k in front || k == last by { LastSplit(keys); }
      assert k == last ==> k !in front;
      GroupConcat(UnmatchedRows(front, rows, others), more, k);
      assert Group(more, k) == if k == last then more else [] by { GroupOfGroup(rows, last, k); }
    }
  }

  lemma {:induction false} UnansweredGroup(rows: seq<Occurrence>, others: seq<Occurrence>, k: Key)
    ensures Group(Filter(Unanswered(others), rows), k) == if Group(others, k) == [] then Group(rows, k) else []
  {
    if rows != [] {
      var front, last := rows[..|rows| - 1], rows[|rows| - 1];
      UnansweredGroup(front, others, k);
      UnansweredIff(rows, others, last);
      PlusEmpty(Group(front, k));
      PlusEmpty(Filter(Unanswered(others), front));
      if Unanswered(others)(last) {
        GroupAppend(Filter(Unanswered(others), front), last, k);
        assert Filter(Unanswered(others), rows) == Filter(Unanswered(others), front) + [last];
      }
    }
  }

  predicate ByKey(s: seq<Occurrence>) { forall i, j | 0 <= i < j < |s| :: KeyLe()(KeyOf(s[i]), KeyOf(s[j])) }

  /** Rows by key, those of one key in the order they have in the file. */
  ghost predicate InKeyOrder(s: seq<Occurrence>, file: seq<Occurrence>) {
    ByKey(s) && forall k :: Group(s, k) == Group(file, k)
  }

  lemma SameGroupsSameRows(s: seq<Occurrence>, t: seq<Occurrence>)
    requires forall k :: Group(s, k) == Group(t, k)
    ensures multiset(s) == multiset(t)
  {
    forall o ensures multiset(s)[o] == multiset(t)[o] {
      GroupMembers(s, KeyOf(o), o);
      GroupMembers(t, KeyOf(o), o);
    }
  }

  lemma UnmatchedMember(keys: seq<Key>, rows: seq<Occurrence>, others: seq<Occurrence>, o: Occurrence)
    requires Distinct(keys) && o in UnmatchedRows(keys, rows, others)
    ensures KeyOf(o) in keys
  {
    UnmatchedGroup(keys, rows, others, KeyOf(o));
    GroupMembers(UnmatchedRows(keys, rows, others), KeyOf(o), o);
  }

  lemma {:induction false} UnmatchedSorted(keys: seq<Key>, rows: seq<Occurrence>, others: seq<Occurrence>)
    requires StrictlySorted(KeyLe(), keys) && Distinct(keys)
    ensures ByKey(UnmatchedRows(keys, rows, others))
  {
    if keys != [] {
      var front, k := keys[..|keys| - 1], keys[|keys| - 1];
      UnmatchedSorted(front, rows, others);
      var before := UnmatchedRows(front, rows, others);
      var more := if Group(others, k) == [] then Group(rows, k) else [];
      forall o | o in before ensures KeyLe()(KeyOf(o), k) {
        UnmatchedMember(front, rows, others, o);
        var m :| 0 <= m < |front| && front[m] == KeyOf(o);
        assert KeyLe()(keys[m], keys[|keys| - 1]);
      }
      forall o | o in more ensures KeyOf(o) == k { GroupMembers(rows, k, o); }
      KeyOrder();
      SortedThenSame(before, more, k);
    }
  }

  lemma SortedThenSame(s: seq<Occurrence>, more: seq<Occurrence>, k: Key)
    requires ByKey(s)
    requires forall o | o in s :: KeyLe()(KeyOf(o), k)
    requires (forall o | o in more :: KeyOf(o) == k) && KeyLe()(k, k)
    ensures ByKey(s + more)
  {
    var all := s + more;
    forall i, j | 0 <= i < j < |all| ensures KeyLe()(KeyOf(all[i]), KeyOf(all[j])) {
      if j >= |s| {
        assert all[j] in more;
        assert i < |s| ==> all[i] in s;
        assert i >= |s| ==> all[i] in more;
      }
    }
  }

  lemma UnmatchedSide(keys: seq<Key>, rows: seq<Occurrence>, others: seq<Occurrence>)
    requires StrictlySorted(KeyLe(), keys) && Distinct(keys) && forall o | o in rows :: KeyOf(o) in keys
    ensures var s := UnmatchedRows(keys, rows, others);
            && UnmatchedOver(keys, rows, others) == Ids(s)
            && InKeyOrder(s, Filter(Unanswered(others), rows))
            && multiset(s) == multiset(Filter(Unanswered(others), rows))
  {
    var s, file := UnmatchedRows(keys, rows, others), Filter(Unanswered(others), rows);
    UnmatchedRowIds(keys, rows, others);
    UnmatchedSorted(keys, rows, others);
    forall k ensures Group(s, k) == Group(file, k) {
      UnmatchedGroup(keys, rows, others, k);
      UnansweredGroup(rows, others, k);
      if k !in keys && Group(rows, k) != [] {
        GroupMembers(rows, k, Group(rows, k)[0]);
      }
    }
    SameGroupsSameRows(s, file);
  }

  /** The ids left over on a side are those of the occurrences whose anchors nobody on the
      other side has, as often as they occur, listed by key and then in file order. */
  lemma UnmatchedIffUnanswered(expected: seq<Occurrence>, predicted: seq<Occurrence>)
    ensures var a := AlignOf(expected, predicted);
            && multiset(a.unmatchedExpected) == multiset(Ids(Filter(Unanswered(predicted), expected)))
            && multiset(a.unmatchedPredicted) == multiset(Ids(Filter(Unanswered(expected), predicted)))
            && (exists s :: Ids(s) == a.unmatchedExpected && InKeyOrder(s, Filter(Unanswered(predicted), expected)))
            && (exists s :: Ids(s) == a.unmatchedPredicted && InKeyOrder(s, Filter(Unanswered(expected), predicted)))
  {
    var keys := UnionKeys(expected, predicted);
    UnionKeysElements(expected, predicted);
    KeysCover(expected, predicted);
    UnmatchedSide(keys, expected, predicted);
    UnmatchedSide(keys, predicted, expected);
    MapMultiset(Id(), UnmatchedRows(keys, expected, predicted), Filter(Unanswered(predicted), expected));
    MapMultiset(Id(), UnmatchedRows(keys, predicted, expected), Filter(Unanswered(expected), predicted));
  }

  // ----- Ambiguous

  lemma {:induction false} AmbiguousMembers(
    keys: seq<Key>, expected: seq<Occurrence>, predicted: seq<Occurrence>, g: AmbiguousGroup)
    ensures g in AmbiguousOver(keys, expected, predicted) <==>
            g.key in keys && g in AmbiguousAt(g.key, Group(expected, g.key), Group(predicted, g.key))
  {
    if keys != [] {
      var front, k := keys[..|keys| - 1], keys[|keys| - 1];
      LastSplit(keys);
      AmbiguousMembers(front, expected, predicted, g);
      assert g in AmbiguousAt(k, Group(expected, k), Group(predicted, k)) ==> g.key == k;
    }
  }

  lemma {:induction false} AmbiguousSorted(keys: seq<Key>, expected: seq<Occurrence>, predicted: seq<Occurrence>)
    requires StrictlySorted(KeyLe(), keys)
    ensures StrictlySorted(KeyLe(), Map(GroupKey(), AmbiguousOver(keys, expected, predicted)))
  {
    if keys != [] {
      var front, k := keys[..|keys| - 1], keys[|keys| - 1];
      AmbiguousSorted(front, expected, predicted);
      var before, s := AmbiguousOver(front, expected, predicted), AmbiguousOver(keys, expected, predicted);
      forall i, j | 0 <= i < j < |s| ensures KeyLe()(s[i].key, s[j].key) && s[i].key != s[j].key {
        if j < |before| {
          assert Map(GroupKey(), before)[i] == s[i].key && Map(GroupKey(), before)[j] == s[j].key;
        } else {
          AmbiguousMembers(front, expected, predicted, s[i]);
        }
      }
    }
  }

  /** A group names the anchors it is about and lists everyone who has them, in file order. */
  predicate GroupShows(expected: seq<Occurrence>, predicted: seq<Occurrence>, g: AmbiguousGroup) {
    var a := multiset(g.key);
    && Contested(expected, predicted, a)
    && g.expectedIds == Ids(Carriers(expected, a)) && g.predictedIds == Ids(Carriers(predicted, a))
  }

  lemma CarrierAnchors(rows: seq<Occurrence>, a: multiset<Anchor>) returns (o: Occurrence)
    requires Carriers(rows, a) != []
    ensures o in rows && multiset(o.anchors) == a
  {
    o := Carriers(rows, a)[0];
    FilterMembers(Carries(a), rows, o);
  }

  /** There is one ambiguous group for each collection of anchors that both sides have and
      that is not alone on both, and no other; the groups come in the order of their keys. */
  lemma AmbiguousIffContested(expected: seq<Occurrence>, predicted: seq<Occurrence>)
    ensures var groups := AlignOf(expected, predicted).ambiguous;
            && (forall g | g in groups :: GroupShows(expected, predicted, g))
            && (forall a | Contested(expected, predicted, a) :: exists g :: g in groups && multiset(g.key) == a)
            && (forall i, j | 0 <= i < j < |groups| :: multiset(groups[i].key) != multiset(groups[j].key))
            && StrictlySorted(KeyLe(), Map(GroupKey(), groups))
  {
    var keys, groups := UnionKeys(expected, predicted), AlignOf(expected, predicted).ambiguous;
    UnionKeysElements(expected, predicted);
    forall g | g in groups ensures GroupShows(expected, predicted, g) {
      AmbiguousMembers(keys, expected, predicted, g);
      var o := KeyHolder(expected, predicted, g.key);
      GroupIsCarriers(expected, o);
      GroupIsCarriers(predicted, o);
    }
    forall a | Contested(expected, predicted, a) ensures exists g :: g in groups && multiset(g.key) == a {
      var o := CarrierAnchors(expected, a);
      KeysCover(expected, predicted);
      KeyIsAnchorMultiset(o, o);
      GroupIsCarriers(expected, o);
      GroupIsCarriers(predicted, o);
      var g := AmbiguousGroup(KeyOf(o), Ids(Carriers(expected, a)), Ids(Carriers(predicted, a)));
      AmbiguousMembers(keys, expected, predicted, g);
      assert g in groups;
    }
    AmbiguousSorted(keys, expected, predicted);
    forall i, j | 0 <= i < j < |groups| ensures multiset(groups[i].key) != multiset(groups[j].key) {
      assert Map(GroupKey(), groups)[i] != Map(GroupKey(), groups)[j];
      AmbiguousMembers(keys, expected, predicted, groups[i]);
      AmbiguousMembers(keys, expected, predicted, groups[j]);
      var x := KeyHolder(expected, predicted, groups[i].key);
      var y := KeyHolder(expected, predicted, groups[j].key);
      KeyIsAnchorMultiset(x, y);
    }
  }

  // ----- Pairs

  /** The pairs are the partners, listed by expected id. */
  lemma UniqueIffPartners(expected: seq<Occurrence>, predicted: seq<Occurrence>)
    ensures var u := AlignOf(expected, predicted).unique;
            && (forall e, p :: (e, p) in u <==> Partners(expected, predicted, e, p))
            && Distinct(u)
            && Sorted(StringLe(), Map(FirstId(), u))
  {
    UniqueIsMatching(expected, predicted);
    var u := AlignOf(expected, predicted).unique;
    forall e, p ensures (e, p) in u <==> Partners(expected, predicted, e, p) {
      PartnersArePaired(expected, predicted, e, p);
    }
    var pairs := UniqueOver(UnionKeys(expected, predicted), expected, predicted);
    SortMaps(PairLe(), StringLe(), FirstId(), pairs);
    StringOrder();
    SortSorted(StringLe(), Map(FirstId(), pairs));
  }
}
