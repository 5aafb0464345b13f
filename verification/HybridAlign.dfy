/** Alignment of two occurrence lists by local anchor identity. */
module HybridAlign {
  import opened Sequences
  import opened Orders
  import opened HybridRecords

  type Pair = (Occurrence, Occurrence)

  datatype AmbiguousGroup = AmbiguousGroup(key: Key, expectedIds: seq<string>, predictedIds: seq<string>)

  datatype Alignment = Alignment(
    unique: seq<Pair>, unmatchedExpected: seq<string>, unmatchedPredicted: seq<string>,
    ambiguous: seq<AmbiguousGroup>)

  // ----- Specification, key by key

  /** The rows under one key, in file order. */
  function Group(rows: seq<Occurrence>, k: Key): seq<Occurrence> {
    if rows == [] then []
    else Group(rows[..|rows| - 1], k) + if KeyOf(rows[|rows| - 1]) == k then [rows[|rows| - 1]] else []
  }

  /** The keys of either side, each once, in sorted order. */
  function UnionKeys(expected: seq<Occurrence>, predicted: seq<Occurrence>): seq<Key> {
    SortedSet(KeyLe(), Keys(expected) + Keys(predicted))
  }

  function UniqueAt(g: seq<Occurrence>, h: seq<Occurrence>): seq<Pair> {
    if |g| == 1 && |h| == 1 then [(g[0], h[0])] else []
  }

  function UnmatchedAt(g: seq<Occurrence>, h: seq<Occurrence>): seq<string> {
    if h == [] then Ids(g) else []
  }

  function AmbiguousAt(k: Key, g: seq<Occurrence>, h: seq<Occurrence>): seq<AmbiguousGroup> {
    if g == [] || h == [] || (|g| == 1 && |h| == 1) then []
    else [AmbiguousGroup(k, Ids(g), Ids(h))]
  }

  function UniqueOver(keys: seq<Key>, expected: seq<Occurrence>, predicted: seq<Occurrence>): seq<Pair> {
    if keys == [] then []
    else
      var k := keys[|keys| - 1];
      UniqueOver(keys[..|keys| - 1], expected, predicted) + UniqueAt(Group(expected, k), Group(predicted, k))
  }

  function UnmatchedOver(keys: seq<Key>, rows: seq<Occurrence>, others: seq<Occurrence>): seq<string> {
    if keys == [] then []
    else
      var k := keys[|keys| - 1];
      UnmatchedOver(keys[..|keys| - 1], rows, others) + UnmatchedAt(Group(rows, k), Group(others, k))
  }

  function AmbiguousOver(keys: seq<Key>, expected: seq<Occurrence>, predicted: seq<Occurrence>): seq<AmbiguousGroup> {
    if keys == [] then []
    else
      var k := keys[|keys| - 1];
      AmbiguousOver(keys[..|keys| - 1], expected, predicted) + AmbiguousAt(k, Group(expected, k), Group(predicted, k))
  }

  function PairLe(): (Pair, Pair) -> bool { (x: Pair, y: Pair) => LexLe(CharLe(), x.0.id, y.0.id) }

  function AlignOf(expected: seq<Occurrence>, predicted: seq<Occurrence>): Alignment {
    var keys := UnionKeys(expected, predicted);
    Alignment(
      Sort(PairLe(), UniqueOver(keys, expected, predicted)),
      UnmatchedOver(keys, expected, predicted),
      UnmatchedOver(keys, predicted, expected),
      AmbiguousOver(keys, expected, predicted))
  }

  // ----- The algorithm

  /** groups.get(k, []) */
  function Lookup(groups: map<Key, seq<Occurrence>>, k: Key): seq<Occurrence> {
    if k in groups then groups[k] else []
  }

  method GroupByKey(rows: seq<Occurrence>) returns (groups: map<Key, seq<Occurrence>>)
    ensures forall k :: k in groups <==> k in Keys(rows)
    ensures forall k :: Lookup(groups, k) == Group(rows, k)
  {
    groups := map[];
    for i := 0 to |rows|
      invariant forall k :: k in groups <==> k in Keys(rows)[..i]
      invariant forall k | k in groups :: groups[k] == Group(rows[..i], k)
    {
      var k := KeyOf(rows[i]);
      assert Keys(rows)[i] == k;
      PrefixStep(rows, i);
      PrefixStep(Keys(rows), i);
      if k !in groups { GroupAbsent(rows[..i], k); }
      assert Keys(rows)[..i] == Keys(rows[..i]);
      var present := if k in groups then groups[k] else [];
      groups := groups[k := present + [rows[i]]];
    }
    assert rows[..|rows|] == rows && Keys(rows)[..|rows|] == Keys(rows);
    forall k ensures Lookup(groups, k) == Group(rows, k) {
      if k !in groups { GroupAbsent(rows, k); }
    }
  }

  /** The sorted union of the keys of the two dictionaries. */
  method SortedKeys(
    expBy: map<Key, seq<Occurrence>>, predBy: map<Key, seq<Occurrence>>,
    ghost expected: seq<Occurrence>, ghost predicted: seq<Occurrence>) returns (keys: seq<Key>)
    requires forall k :: k in expBy <==> k in Keys(expected)
    requires forall k :: k in predBy <==> k in Keys(predicted)
    ensures keys == UnionKeys(expected, predicted)
  {
    KeyOrder();
    keys := SortSet(KeyLe(), expBy.Keys + predBy.Keys);
    SortedKeysAreUnion(keys, expected, predicted);
  }

  method Align(expected: seq<Occurrence>, predicted: seq<Occurrence>) returns (a: Alignment)
    ensures a == AlignOf(expected, predicted)
  {
    var expBy := GroupByKey(expected);
    var predBy := GroupByKey(predicted);
    var keys := SortedKeys(expBy, predBy, expected, predicted);
    var unique, unmatchedExpected, unmatchedPredicted, ambiguous := Walk(keys, expBy, predBy, expected, predicted);
    a := Alignment(Sort(PairLe(), unique), unmatchedExpected, unmatchedPredicted, ambiguous);
  }

  /** Goes through the keys. */
  method Walk(
    keys: seq<Key>, expBy: map<Key, seq<Occurrence>>, predBy: map<Key, seq<Occurrence>>,
    ghost expected: seq<Occurrence>, ghost predicted: seq<Occurrence>)
    returns (
      unique: seq<Pair>, unmatchedExpected: seq<string>, unmatchedPredicted: seq<string>, ambiguous: seq<AmbiguousGroup>)
    requires forall k :: Lookup(expBy, k) == Group(expected, k)
    requires forall k :: Lookup(predBy, k) == Group(predicted, k)
    ensures unique == UniqueOver(keys, expected, predicted)
    ensures unmatchedExpected == UnmatchedOver(keys, expected, predicted)
    ensures unmatchedPredicted == UnmatchedOver(keys, predicted, expected)
    ensures ambiguous == AmbiguousOver(keys, expected, predicted)
  {
    unique, unmatchedExpected, unmatchedPredicted, ambiguous := [], [], [], [];
    for i := 0 to |keys|
      invariant unique == UniqueOver(keys[..i], expected, predicted)
      invariant unmatchedExpected == UnmatchedOver(keys[..i], expected, predicted)
      invariant unmatchedPredicted == UnmatchedOver(keys[..i], predicted, expected)
      invariant ambiguous == AmbiguousOver(keys[..i], expected, predicted)
    {
      var k := keys[i];
      OverStep(keys, i, expected, predicted);
      unique, unmatchedExpected, unmatchedPredicted, ambiguous :=
        Place(k, Lookup(expBy, k), Lookup(predBy, k), unique, unmatchedExpected, unmatchedPredicted, ambiguous);
    }
    assert keys[..|keys|] == keys;
  }

  /** Adds what one key holds on the two sides to the lists. */
  method Place(
    k: Key, expRows: seq<Occurrence>, predRows: seq<Occurrence>, unique0: seq<Pair>,
    unmatchedExpected0: seq<string>, unmatchedPredicted0: seq<string>, ambiguous0: seq<AmbiguousGroup>)
    returns (
      unique: seq<Pair>, unmatchedExpected: seq<string>, unmatchedPredicted: seq<string>, ambiguous: seq<AmbiguousGroup>)
    ensures unique == Extended(unique0, UniqueAt(expRows, predRows))
    ensures unmatchedExpected == Extended(unmatchedExpected0, UnmatchedAt(expRows, predRows))
    ensures unmatchedPredicted == Extended(unmatchedPredicted0, UnmatchedAt(predRows, expRows))
    ensures ambiguous == Extended(ambiguous0, AmbiguousAt(k, expRows, predRows))
  {
    unique, unmatchedExpected, unmatchedPredicted, ambiguous :=
      unique0, unmatchedExpected0, unmatchedPredicted0, ambiguous0;
    if |expRows| == 1 && |predRows| == 1 {
      unique := unique + [(expRows[0], predRows[0])];
    } else if expRows == [] {
      unmatchedPredicted := unmatchedPredicted + Ids(predRows);
    } else if predRows == [] {
      unmatchedExpected := unmatchedExpected + Ids(expRows);
    } else {
      ambiguous := ambiguous + [AmbiguousGroup(k, Ids(expRows), Ids(predRows))];
    }
  }

  lemma OverStep(keys: seq<Key>, i: nat, expected: seq<Occurrence>, predicted: seq<Occurrence>)
    requires i < |keys|
    ensures var g, h := Group(expected, keys[i]), Group(predicted, keys[i]);
            && UniqueOver(keys[..i + 1], expected, predicted)
               == Extended(UniqueOver(keys[..i], expected, predicted), UniqueAt(g, h))
            && UnmatchedOver(keys[..i + 1], expected, predicted)
               == Extended(UnmatchedOver(keys[..i], expected, predicted), UnmatchedAt(g, h))
            && UnmatchedOver(keys[..i + 1], predicted, expected)
               == Extended(UnmatchedOver(keys[..i], predicted, expected), UnmatchedAt(h, g))
            && AmbiguousOver(keys[..i + 1], expected, predicted)
               == Extended(AmbiguousOver(keys[..i], expected, predicted), AmbiguousAt(keys[i], g, h))
  {
    PrefixStep(keys, i);
    PlusEmpty(UniqueOver(keys[..i], expected, predicted));
    PlusEmpty(UnmatchedOver(keys[..i], expected, predicted));
    PlusEmpty(UnmatchedOver(keys[..i], predicted, expected));
    PlusEmpty(AmbiguousOver(keys[..i], expected, predicted));
  }

  function Extended<T>(s: seq<T>, more: seq<T>): seq<T> { if more == [] then s else s + more }

  lemma SortedKeysAreUnion(keys: seq<Key>, expected: seq<Occurrence>, predicted: seq<Occurrence>)
    requires StrictlySorted(KeyLe(), keys)
    requires forall k :: k in keys <==> k in Keys(expected) || k in Keys(predicted)
    ensures keys == UnionKeys(expected, predicted)
  {
    KeyOrder();
    UnionKeysElements(expected, predicted);
    StrictlySortedUnique(KeyLe(), keys, UnionKeys(expected, predicted));
  }

  lemma UnionKeysElements(expected: seq<Occurrence>, predicted: seq<Occurrence>)
    ensures StrictlySorted(KeyLe(), UnionKeys(expected, predicted))
    ensures Distinct(UnionKeys(expected, predicted))
    ensures forall k :: k in UnionKeys(expected, predicted) <==> k in Keys(expected) || k in Keys(predicted)
  {
    KeyOrder();
    var all := Keys(expected) + Keys(predicted);
    SortedSetSorted(KeyLe(), all);
    forall k ensures k in SortedSet(KeyLe(), all) <==> k in Keys(expected) || k in Keys(predicted) {
      SortedSetElements(KeyLe(), all, k);
    }
  }

  // ----- Groups

  lemma {:induction false} GroupMembers(rows: seq<Occurrence>, k: Key, o: Occurrence)
    ensures o in Group(rows, k) <==> o in rows && KeyOf(o) == k
    ensures multiset(Group(rows, k))[o] == if KeyOf(o) == k then multiset(rows)[o] else 0
  {
    if rows != [] {
      LastSplit(rows);
      GroupMembers(rows[..|rows| - 1], k, o);
      assert rows == rows[..|rows| - 1] + [rows[|rows| - 1]];
    }
  }

  lemma GroupAbsent(rows: seq<Occurrence>, k: Key)
    requires k !in Keys(rows)
    ensures Group(rows, k) == []
  {
    if Group(rows, k) != [] {
      var o := Group(rows, k)[0];
      GroupMembers(rows, k, o);
      KeyListed(rows, o);
    }
  }

  lemma KeyListed(rows: seq<Occurrence>, o: Occurrence)
    ensures o in rows ==> KeyOf(o) in Keys(rows)
  {
    if o in rows {
      var i :| 0 <= i < |rows| && rows[i] == o;
      assert Keys(rows)[i] == KeyOf(o);
    }
  }

  lemma GroupMultiset(rows: seq<Occurrence>, rows': seq<Occurrence>, k: Key)
    requires multiset(rows) == multiset(rows')
    ensures multiset(Group(rows, k)) == multiset(Group(rows', k))
  {
    forall o ensures multiset(Group(rows, k))[o] == multiset(Group(rows', k))[o] {
      GroupMembers(rows, k, o);
      GroupMembers(rows', k, o);
    }
  }

  lemma GroupPermutation(rows: seq<Occurrence>, rows': seq<Occurrence>, k: Key)
    requires multiset(rows) == multiset(rows')
    ensures multiset(Group(rows, k)) == multiset(Group(rows', k))
    ensures |Group(rows, k)| == |Group(rows', k)|
    ensures |Group(rows, k)| <= 1 ==> Group(rows, k) == Group(rows', k)
    ensures multiset(Ids(Group(rows, k))) == multiset(Ids(Group(rows', k)))
  {
    GroupMultiset(rows, rows', k);
    PermutationLength(Group(rows, k), Group(rows', k));
    MapMultiset(Id(), Group(rows, k), Group(rows', k));
    if |Group(rows, k)| == 1 {
      assert Group(rows, k)[0] in multiset(Group(rows', k));
    }
  }

  /** h leaves the anchors of every occurrence alone. */
  ghost predicate KeepsAnchors(h: Occurrence -> Occurrence) {
    forall o :: h(o).anchors == o.anchors
  }

  lemma {:induction false} GroupMap(h: Occurrence -> Occurrence, rows: seq<Occurrence>, k: Key)
    requires KeepsAnchors(h)
    ensures Group(Map(h, rows), k) == Map(h, Group(rows, k))
  {
    if rows != [] {
      var front := rows[..|rows| - 1];
      GroupMap(h, front, k);
      assert Map(h, rows)[..|rows| - 1] == Map(h, front);
      assert h(rows[|rows| - 1]).anchors == rows[|rows| - 1].anchors;
    }
  }

  lemma KeysMap(h: Occurrence -> Occurrence, rows: seq<Occurrence>)
    requires KeepsAnchors(h)
    ensures Keys(Map(h, rows)) == Keys(rows)
  {
    forall i | 0 <= i < |rows| ensures Keys(Map(h, rows))[i] == Keys(rows)[i] {
      assert h(rows[i]).anchors == rows[i].anchors;
    }
  }

  // ----- What is paired

  /** The two occurrences are alone under their common key on both sides. */
  predicate Paired(expected: seq<Occurrence>, predicted: seq<Occurrence>, e: Occurrence, p: Occurrence) {
    Group(expected, KeyOf(e)) == [e] && Group(predicted, KeyOf(e)) == [p]
  }

  lemma PairedFacts(expected: seq<Occurrence>, predicted: seq<Occurrence>, e: Occurrence, p: Occurrence)
    requires Paired(expected, predicted, e, p)
    ensures e in expected && p in predicted && KeyOf(p) == KeyOf(e)
  {
    GroupMembers(expected, KeyOf(e), e);
    GroupMembers(predicted, KeyOf(e), p);
  }

  lemma {:induction false} UniqueOverMembers(
    keys: seq<Key>, expected: seq<Occurrence>, predicted: seq<Occurrence>, e: Occurrence, p: Occurrence)
    ensures (e, p) in UniqueOver(keys, expected, predicted) <==>
            KeyOf(e) in keys && Paired(expected, predicted, e, p)
  {
    if keys != [] {
      var front, k := keys[..|keys| - 1], keys[|keys| - 1];
      UniqueOverMembers(front, expected, predicted, e, p);
      assert KeyOf(e) in keys <==> KeyOf(e) in front || KeyOf(e) == k by { assert keys == front + [k]; }
      UniqueAtMembers(expected, predicted, k, e, p);
    }
  }

  lemma UniqueAtMembers(expected: seq<Occurrence>, predicted: seq<Occurrence>, k: Key, e: Occurrence, p: Occurrence)
    ensures (e, p) in UniqueAt(Group(expected, k), Group(predicted, k)) <==>
            KeyOf(e) == k && Paired(expected, predicted, e, p)
  {
    UniqueAtIs(Group(expected, k), Group(predicted, k), e, p);
    if Group(expected, k) == [e] { GroupMembers(expected, k, e); }
  }

  lemma UniqueAtIs(g: seq<Occurrence>, h: seq<Occurrence>, e: Occurrence, p: Occurrence)
    ensures (e, p) in UniqueAt(g, h) <==> g == [e] && h == [p]
  {
  }

  predicate Injective(pairs: seq<Pair>) {
    forall i, j | 0 <= i < j < |pairs| :: pairs[i].0 != pairs[j].0 && pairs[i].1 != pairs[j].1
  }

  lemma {:induction false} UniqueOverInjective(keys: seq<Key>, expected: seq<Occurrence>, predicted: seq<Occurrence>)
    requires Distinct(keys)
    ensures Injective(UniqueOver(keys, expected, predicted))
  {
    if keys != [] {
      var front, k := keys[..|keys| - 1], keys[|keys| - 1];
      UniqueOverInjective(front, expected, predicted);
      var before := UniqueOver(front, expected, predicted);
      forall i | 0 <= i < |before| ensures KeyOf(before[i].0) != k && KeyOf(before[i].1) != k {
        UniqueOverMembers(front, expected, predicted, before[i].0, before[i].1);
        PairedFacts(expected, predicted, before[i].0, before[i].1);
      }
      if |Group(expected, k)| == 1 && |Group(predicted, k)| == 1 {
        GroupMembers(expected, k, Group(expected, k)[0]);
        GroupMembers(predicted, k, Group(predicted, k)[0]);
      }
    }
  }

  lemma InjectivePermutation(pairs: seq<Pair>, pairs': seq<Pair>)
    requires multiset(pairs) == multiset(pairs') && Injective(pairs)
    ensures Injective(pairs')
  {
    DistinctPermutation(pairs, pairs');
    forall i, j | 0 <= i < j < |pairs'| ensures pairs'[i].0 != pairs'[j].0 && pairs'[i].1 != pairs'[j].1 {
      assert pairs'[i] in multiset(pairs) && pairs'[j] in multiset(pairs);
      assert pairs'[i] != pairs'[j];
    }
  }

  /** unique is an injective matching: it holds exactly the pairs that are alone
      under a common key, and no occurrence occurs in it twice. */
  lemma UniqueIsMatching(expected: seq<Occurrence>, predicted: seq<Occurrence>)
    ensures forall e, p :: (e, p) in AlignOf(expected, predicted).unique <==> Paired(expected, predicted, e, p)
    ensures forall e, p | (e, p) in AlignOf(expected, predicted).unique ::
              e in expected && p in predicted && KeyOf(e) == KeyOf(p)
    ensures Injective(AlignOf(expected, predicted).unique)
  {
    var keys := UnionKeys(expected, predicted);
    var pairs := UniqueOver(keys, expected, predicted);
    UnionKeysElements(expected, predicted);
    UniqueOverInjective(keys, expected, predicted);
    SortMultiset(PairLe(), pairs);
    InjectivePermutation(pairs, Sort(PairLe(), pairs));
    forall e, p ensures (e, p) in Sort(PairLe(), pairs) <==> Paired(expected, predicted, e, p) {
      UniqueOverMembers(keys, expected, predicted, e, p);
      assert (e, p) in Sort(PairLe(), pairs) <==> (e, p) in multiset(pairs);
      if Paired(expected, predicted, e, p) { KeyPresent(expected, predicted, e, p); }
    }
    forall e, p | Paired(expected, predicted, e, p)
      ensures e in expected && p in predicted && KeyOf(e) == KeyOf(p)
    {
      PairedFacts(expected, predicted, e, p);
    }
  }

  lemma KeyPresent(expected: seq<Occurrence>, predicted: seq<Occurrence>, e: Occurrence, p: Occurrence)
    requires Paired(expected, predicted, e, p)
    ensures KeyOf(e) in Keys(expected)
  {
    PairedFacts(expected, predicted, e, p);
    KeyListed(expected, e);
  }

  // ----- Alignment is a partition of both sides

  function FirstId(): Pair -> string { (x: Pair) => x.0.id }

  function SecondId(): Pair -> string { (x: Pair) => x.1.id }

  function ExpectedIds(groups: seq<AmbiguousGroup>): seq<string> {
    if groups == [] then [] else ExpectedIds(groups[..|groups| - 1]) + groups[|groups| - 1].expectedIds
  }

  function PredictedIds(groups: seq<AmbiguousGroup>): seq<string> {
    if groups == [] then [] else PredictedIds(groups[..|groups| - 1]) + groups[|groups| - 1].predictedIds
  }

  function GroupsOver(keys: seq<Key>, rows: seq<Occurrence>): seq<Occurrence> {
    if keys == [] then [] else GroupsOver(keys[..|keys| - 1], rows) + Group(rows, keys[|keys| - 1])
  }

  lemma {:induction false} GroupsOverCount(keys: seq<Key>, rows: seq<Occurrence>, o: Occurrence)
    requires Distinct(keys)
    ensures multiset(GroupsOver(keys, rows))[o] == if KeyOf(o) in keys then multiset(rows)[o] else 0
  {
    if keys != [] {
      var front, k := keys[..|keys| - 1], keys[|keys| - 1];
      GroupsOverCount(front, rows, o);
      GroupMembers(rows, k, o);
      assert keys == front + [k];
    }
  }

  lemma GroupsOverAll(keys: seq<Key>, rows: seq<Occurrence>)
    requires Distinct(keys) && forall o | o in rows :: KeyOf(o) in keys
    ensures multiset(GroupsOver(keys, rows)) == multiset(rows)
  {
    forall o ensures multiset(GroupsOver(keys, rows))[o] == multiset(rows)[o] {
      GroupsOverCount(keys, rows, o);
    }
  }

  lemma {:induction false} PartitionExpected(keys: seq<Key>, expected: seq<Occurrence>, predicted: seq<Occurrence>)
    ensures multiset(Map(FirstId(), UniqueOver(keys, expected, predicted)))
            + multiset(UnmatchedOver(keys, expected, predicted))
            + multiset(ExpectedIds(AmbiguousOver(keys, expected, predicted)))
            == multiset(Ids(GroupsOver(keys, expected)))
  {
    if keys != [] {
      var front, k := keys[..|keys| - 1], keys[|keys| - 1];
      PartitionExpected(front, expected, predicted);
      var g, h := Group(expected, k), Group(predicted, k);
      MapConcatMultiset(Id(), GroupsOver(front, expected), g);
      MapConcatMultiset(FirstId(), UniqueOver(front, expected, predicted), UniqueAt(g, h));
      var groups := AmbiguousOver(front, expected, predicted);
      ExpectedAt(k, g, h, groups);
      Regroup(
        multiset(Map(FirstId(), UniqueOver(front, expected, predicted))),
        multiset(UnmatchedOver(front, expected, predicted)), multiset(ExpectedIds(groups)),
        multiset(Ids(GroupsOver(front, expected))),
        multiset(Map(FirstId(), UniqueAt(g, h))), multiset(UnmatchedAt(g, h)),
        multiset(ExpectedIds(groups + AmbiguousAt(k, g, h))), multiset(Ids(g)));
    }
  }

  lemma Regroup<T>(
    u: multiset<T>, n: multiset<T>, a: multiset<T>, all: multiset<T>,
    u1: multiset<T>, n1: multiset<T>, a1: multiset<T>, more: multiset<T>)
    requires u + n + a == all && u1 + n1 + a1 == a + more
    ensures (u + u1) + (n + n1) + a1 == all + more
  {
    forall x ensures ((u + u1) + (n + n1) + a1)[x] == (all + more)[x] {
      assert (u + n + a)[x] == all[x] && (u1 + n1 + a1)[x] == (a + more)[x];
    }
  }

  lemma ExpectedAt(k: Key, g: seq<Occurrence>, h: seq<Occurrence>, before: seq<AmbiguousGroup>)
    ensures multiset(Map(FirstId(), UniqueAt(g, h))) + multiset(UnmatchedAt(g, h))
            + multiset(ExpectedIds(before + AmbiguousAt(k, g, h)))
            == multiset(ExpectedIds(before)) + multiset(Ids(g))
  {
    var a := AmbiguousAt(k, g, h);
    if a == [] {
      assert before + a == before;
      if |g| == 1 && |h| == 1 { assert Map(FirstId(), UniqueAt(g, h)) == Ids(g); }
    } else {
      assert (before + a)[..|before|] == before;
    }
  }

  lemma {:induction false} PartitionPredicted(keys: seq<Key>, expected: seq<Occurrence>, predicted: seq<Occurrence>)
    ensures multiset(Map(SecondId(), UniqueOver(keys, expected, predicted)))
            + multiset(UnmatchedOver(keys, predicted, expected))
            + multiset(PredictedIds(AmbiguousOver(keys, expected, predicted)))
            == multiset(Ids(GroupsOver(keys, predicted)))
  {
    if keys != [] {
      var front, k := keys[..|keys| - 1], keys[|keys| - 1];
      PartitionPredicted(front, expected, predicted);
      var g, h := Group(expected, k), Group(predicted, k);
      MapConcatMultiset(Id(), GroupsOver(front, predicted), h);
      MapConcatMultiset(SecondId(), UniqueOver(front, expected, predicted), UniqueAt(g, h));
      var groups := AmbiguousOver(front, expected, predicted);
      PredictedAt(k, g, h, groups);
      Regroup(
        multiset(Map(SecondId(), UniqueOver(front, expected, predicted))),
        multiset(UnmatchedOver(front, predicted, expected)), multiset(PredictedIds(groups)),
        multiset(Ids(GroupsOver(front, predicted))),
        multiset(Map(SecondId(), UniqueAt(g, h))), multiset(UnmatchedAt(h, g)),
        multiset(PredictedIds(groups + AmbiguousAt(k, g, h))), multiset(Ids(h)));
    }
  }

  lemma PredictedAt(k: Key, g: seq<Occurrence>, h: seq<Occurrence>, before: seq<AmbiguousGroup>)
    ensures multiset(Map(SecondId(), UniqueAt(g, h))) + multiset(UnmatchedAt(h, g))
            + multiset(PredictedIds(before + AmbiguousAt(k, g, h)))
            == multiset(PredictedIds(before)) + multiset(Ids(h))
  {
    var a := AmbiguousAt(k, g, h);
    if a == [] {
      assert before + a == before;
      if |g| == 1 && |h| == 1 { assert Map(SecondId(), UniqueAt(g, h)) == Ids(h); }
    } else {
      assert (before + a)[..|before|] == before;
    }
  }

  lemma KeysCover(expected: seq<Occurrence>, predicted: seq<Occurrence>)
    ensures forall o | o in expected || o in predicted :: KeyOf(o) in UnionKeys(expected, predicted)
  {
    UnionKeysElements(expected, predicted);
    forall o | o in expected || o in predicted ensures KeyOf(o) in UnionKeys(expected, predicted) {
      KeyListed(expected, o);
      KeyListed(predicted, o);
    }
  }

  /** For any two lists, repeated keys and repeated ids included, every occurrence
      of either side lands in exactly one of unique, unmatched and ambiguous. */
  lemma AlignIsPartition(expected: seq<Occurrence>, predicted: seq<Occurrence>)
    ensures var a := AlignOf(expected, predicted);
            && multiset(Ids(expected)) ==
               multiset(Map(FirstId(), a.unique)) + multiset(a.unmatchedExpected) + multiset(ExpectedIds(a.ambiguous))
            && multiset(Ids(predicted)) ==
               multiset(Map(SecondId(), a.unique)) + multiset(a.unmatchedPredicted) + multiset(PredictedIds(a.ambiguous))
  {
    var keys := UnionKeys(expected, predicted);
    UnionKeysElements(expected, predicted);
    KeysCover(expected, predicted);
    PartitionExpected(keys, expected, predicted);
    PartitionPredicted(keys, expected, predicted);
    GroupsOverAll(keys, expected);
    GroupsOverAll(keys, predicted);
    MapMultiset(Id(), GroupsOver(keys, expected), expected);
    MapMultiset(Id(), GroupsOver(keys, predicted), predicted);
    var pairs := UniqueOver(keys, expected, predicted);
    SortMultiset(PairLe(), pairs);
    MapMultiset(FirstId(), pairs, Sort(PairLe(), pairs));
    MapMultiset(SecondId(), pairs, Sort(PairLe(), pairs));
  }

  // ----- Order never matters

  /** Two groups that differ only in the order of their ids. */
  predicate SameGroup(a: AmbiguousGroup, b: AmbiguousGroup) {
    a.key == b.key && multiset(a.expectedIds) == multiset(b.expectedIds)
    && multiset(a.predictedIds) == multiset(b.predictedIds)
  }

  predicate SameGroups(a: seq<AmbiguousGroup>, b: seq<AmbiguousGroup>) {
    |a| == |b| && forall i | 0 <= i < |a| :: SameGroup(a[i], b[i])
  }

  predicate SameUpToOrder(a: Alignment, b: Alignment) {
    && a.unique == b.unique
    && multiset(a.unmatchedExpected) == multiset(b.unmatchedExpected)
    && multiset(a.unmatchedPredicted) == multiset(b.unmatchedPredicted)
    && SameGroups(a.ambiguous, b.ambiguous)
  }

  /** One group is a reordering of the other. */
  predicate Shuffled(g: seq<Occurrence>, g': seq<Occurrence>) {
    |g| == |g'| && (|g| <= 1 ==> g == g') && multiset(Ids(g)) == multiset(Ids(g'))
  }

  lemma ShuffledAt(k: Key, g: seq<Occurrence>, h: seq<Occurrence>, g': seq<Occurrence>, h': seq<Occurrence>)
    requires Shuffled(g, g') && Shuffled(h, h')
    ensures UniqueAt(g, h) == UniqueAt(g', h')
    ensures multiset(UnmatchedAt(g, h)) == multiset(UnmatchedAt(g', h'))
    ensures SameGroups(AmbiguousAt(k, g, h), AmbiguousAt(k, g', h'))
  {
    if AmbiguousAt(k, g, h) != [] {
      assert SameGroup(AmbiguousGroup(k, Ids(g), Ids(h)), AmbiguousGroup(k, Ids(g'), Ids(h')));
    }
  }

  lemma PermutedAt(k: Key, e: seq<Occurrence>, p: seq<Occurrence>, e': seq<Occurrence>, p': seq<Occurrence>)
    requires multiset(e) == multiset(e') && multiset(p) == multiset(p')
    ensures UniqueAt(Group(e, k), Group(p, k)) == UniqueAt(Group(e', k), Group(p', k))
    ensures multiset(UnmatchedAt(Group(e, k), Group(p, k))) == multiset(UnmatchedAt(Group(e', k), Group(p', k)))
    ensures SameGroups(AmbiguousAt(k, Group(e, k), Group(p, k)), AmbiguousAt(k, Group(e', k), Group(p', k)))
  {
    GroupPermutation(e, e', k);
    GroupPermutation(p, p', k);
    ShuffledAt(k, Group(e, k), Group(p, k), Group(e', k), Group(p', k));
  }

  lemma SameGroupsConcat(
    a: seq<AmbiguousGroup>, b: seq<AmbiguousGroup>, c: seq<AmbiguousGroup>, d: seq<AmbiguousGroup>)
    requires SameGroups(a, b) && SameGroups(c, d)
    ensures SameGroups(a + c, b + d)
  {
  }

  lemma {:induction false} PermutedOver(
    keys: seq<Key>, e: seq<Occurrence>, p: seq<Occurrence>, e': seq<Occurrence>, p': seq<Occurrence>)
    requires multiset(e) == multiset(e') && multiset(p) == multiset(p')
    ensures UniqueOver(keys, e, p) == UniqueOver(keys, e', p')
    ensures multiset(UnmatchedOver(keys, e, p)) == multiset(UnmatchedOver(keys, e', p'))
    ensures multiset(UnmatchedOver(keys, p, e)) == multiset(UnmatchedOver(keys, p', e'))
    ensures SameGroups(AmbiguousOver(keys, e, p), AmbiguousOver(keys, e', p'))
  {
    if keys != [] {
      var front, k := keys[..|keys| - 1], keys[|keys| - 1];
      PermutedOver(front, e, p, e', p');
      PermutedAt(k, e, p, e', p');
      PermutedAt(k, p, e, p', e');
      SameGroupsConcat(AmbiguousOver(front, e, p), AmbiguousOver(front, e', p'),
        AmbiguousAt(k, Group(e, k), Group(p, k)), AmbiguousAt(k, Group(e', k), Group(p', k)));
    }
  }

  lemma UnionKeysPermutation(e: seq<Occurrence>, p: seq<Occurrence>, e': seq<Occurrence>, p': seq<Occurrence>)
    requires multiset(e) == multiset(e') && multiset(p) == multiset(p')
    ensures UnionKeys(e, p) == UnionKeys(e', p')
  {
    KeyOrder();
    MapMultiset(KeyFn(), e, e');
    MapMultiset(KeyFn(), p, p');
    forall k ensures k in Keys(e) + Keys(p) <==> k in Keys(e') + Keys(p') {
      assert k in Keys(e) <==> k in multiset(Keys(e'));
      assert k in Keys(p) <==> k in multiset(Keys(p'));
    }
    SortedSetIsCanonical(KeyLe(), Keys(e) + Keys(p), Keys(e') + Keys(p'));
  }

  /** Reordering either side changes nothing but the order inside the id lists. */
  lemma AlignIgnoresOrder(e: seq<Occurrence>, p: seq<Occurrence>, e': seq<Occurrence>, p': seq<Occurrence>)
    requires multiset(e) == multiset(e') && multiset(p) == multiset(p')
    ensures SameUpToOrder(AlignOf(e, p), AlignOf(e', p'))
  {
    UnionKeysPermutation(e, p, e', p');
    PermutedOver(UnionKeys(e, p), e, p, e', p');
  }

  // ----- Labels never drive matching

  function Both(g: Occurrence -> Occurrence, h: Occurrence -> Occurrence): Pair -> Pair {
    (x: Pair) => (g(x.0), h(x.1))
  }

  lemma {:induction false} MappedOver(
    keys: seq<Key>, g: Occurrence -> Occurrence, h: Occurrence -> Occurrence, e: seq<Occurrence>, p: seq<Occurrence>)
    requires KeepsAnchors(g) && KeepsAnchors(h)
    ensures UniqueOver(keys, Map(g, e), Map(h, p)) == Map(Both(g, h), UniqueOver(keys, e, p))
    ensures |UnmatchedOver(keys, Map(g, e), Map(h, p))| == |UnmatchedOver(keys, e, p)|
    ensures |AmbiguousOver(keys, Map(g, e), Map(h, p))| == |AmbiguousOver(keys, e, p)|
    ensures (forall o :: g(o).id == o.id) ==> UnmatchedOver(keys, Map(g, e), Map(h, p)) == UnmatchedOver(keys, e, p)
    ensures (forall o :: g(o).id == o.id && h(o).id == o.id) ==>
              AmbiguousOver(keys, Map(g, e), Map(h, p)) == AmbiguousOver(keys, e, p)
  {
    if keys != [] {
      var front, k := keys[..|keys| - 1], keys[|keys| - 1];
      MappedOver(front, g, h, e, p);
      GroupMap(g, e, k);
      GroupMap(h, p, k);
      MapConcat(Both(g, h), UniqueOver(front, e, p), UniqueAt(Group(e, k), Group(p, k)));
      assert UniqueAt(Map(g, Group(e, k)), Map(h, Group(p, k)))
          == Map(Both(g, h), UniqueAt(Group(e, k), Group(p, k)));
      if forall o :: g(o).id == o.id { assert Ids(Map(g, Group(e, k))) == Ids(Group(e, k)); }
      if forall o :: h(o).id == o.id { assert Ids(Map(h, Group(p, k))) == Ids(Group(p, k)); }
    }
  }

  lemma UnionKeysMap(g: Occurrence -> Occurrence, h: Occurrence -> Occurrence, e: seq<Occurrence>, p: seq<Occurrence>)
    requires KeepsAnchors(g) && KeepsAnchors(h)
    ensures UnionKeys(Map(g, e), Map(h, p)) == UnionKeys(e, p)
  {
    KeysMap(g, e);
    KeysMap(h, p);
  }

  /** Only ids and anchors are left of an occurrence. */
  function Bare(): Occurrence -> Occurrence {
    (o: Occurrence) =>
      var blank := Slot(Null, None);
      Occurrence(o.id, o.anchors, false, None, Fields(blank, blank, blank))
  }

  /** The same ids and anchors, whatever the labels, sources and flags. */
  predicate SameSkeleton(s: seq<Occurrence>, t: seq<Occurrence>) {
    |s| == |t| && forall i | 0 <= i < |s| :: s[i].id == t[i].id && s[i].anchors == t[i].anchors
  }

  /** What the evaluator compares: id pairs, unmatched ids and ambiguous keys,
      each without regard to order. */
  datatype Signature = Signature(
    pairs: multiset<(string, string)>, unmatchedExpected: multiset<string>,
    unmatchedPredicted: multiset<string>, ambiguous: multiset<Key>)

  function IdPair(): Pair -> (string, string) { (x: Pair) => (x.0.id, x.1.id) }

  function GroupKey(): AmbiguousGroup -> Key { (g: AmbiguousGroup) => g.key }

  function SignatureOf(a: Alignment): Signature {
    Signature(multiset(Map(IdPair(), a.unique)), multiset(a.unmatchedExpected),
              multiset(a.unmatchedPredicted), multiset(Map(GroupKey(), a.ambiguous)))
  }

  lemma SignatureOfBare(e: seq<Occurrence>, p: seq<Occurrence>)
    ensures SignatureOf(AlignOf(Map(Bare(), e), Map(Bare(), p))) == SignatureOf(AlignOf(e, p))
  {
    var keys := UnionKeys(e, p);
    UnionKeysMap(Bare(), Bare(), e, p);
    MappedOver(keys, Bare(), Bare(), e, p);
    MappedOver(keys, Bare(), Bare(), p, e);
    var pairs, bare := UniqueOver(keys, e, p), UniqueOver(keys, Map(Bare(), e), Map(Bare(), p));
    SortMultiset(PairLe(), pairs);
    SortMultiset(PairLe(), bare);
    MapMultiset(IdPair(), pairs, Sort(PairLe(), pairs));
    MapMultiset(IdPair(), bare, Sort(PairLe(), bare));
    assert Map(IdPair(), bare) == Map(IdPair(), pairs);
  }

  /** Values, sources and unresolved flags can be changed at will on both sides:
      the alignment pairs the same ids. */
  lemma LabelsDoNotDriveMatching(e: seq<Occurrence>, p: seq<Occurrence>, e': seq<Occurrence>, p': seq<Occurrence>)
    requires SameSkeleton(e, e') && SameSkeleton(p, p')
    ensures SignatureOf(AlignOf(e, p)) == SignatureOf(AlignOf(e', p'))
  {
    SignatureOfBare(e, p);
    SignatureOfBare(e', p');
    assert Map(Bare(), e) == Map(Bare(), e') && Map(Bare(), p) == Map(Bare(), p');
  }

  /** Reordering leaves the signature alone: the evaluator tries one reversal. */
  lemma SignatureIgnoresOrder(e: seq<Occurrence>, p: seq<Occurrence>, e': seq<Occurrence>, p': seq<Occurrence>)
    requires multiset(e) == multiset(e') && multiset(p) == multiset(p')
    ensures SignatureOf(AlignOf(e, p)) == SignatureOf(AlignOf(e', p'))
  {
    AlignIgnoresOrder(e, p, e', p');
    var a, b := AlignOf(e, p).ambiguous, AlignOf(e', p').ambiguous;
    forall i | 0 <= i < |a| ensures Map(GroupKey(), a)[i] == Map(GroupKey(), b)[i] {
      assert SameGroup(a[i], b[i]);
    }
    assert Map(GroupKey(), a) == Map(GroupKey(), b);
  }
}
