/** The greedy relation count is the size of a maximum matching, whatever order
    the relations come in. */
module HybridMatching {
  import opened Sequences
  import opened HybridRecords
  import opened HybridScore

  /** A partial injective assignment of positions of s to positions of t that hold
      the same value. */
  ghost predicate Matching<T>(s: seq<T>, t: seq<T>, f: map<nat, nat>) {
    && (forall i | i in f :: i < |s| && f[i] < |t| && s[i] == t[f[i]])
    && (forall i, j | i in f && j in f && f[i] == f[j] :: i == j)
  }

  /** The elements of s at the positions in the set. */
  function Pick<T>(s: seq<T>, at: set<nat>): seq<T> {
    if s == [] then []
    else Pick(s[..|s| - 1], at) + if |s| - 1 in at then [s[|s| - 1]] else []
  }

  lemma {:induction false} PickIsPart<T>(s: seq<T>, at: set<nat>)
    ensures multiset(Pick(s, at)) <= multiset(s)
  {
    if s != [] {
      LastSplit(s);
      PickIsPart(s[..|s| - 1], at);
    }
  }

  lemma {:induction false} PickNone<T>(s: seq<T>)
    ensures Pick(s, {}) == []
  {
    if s != [] { PickNone(s[..|s| - 1]); }
  }

  lemma {:induction false} PickOutside<T>(s: seq<T>, at: set<nat>, i: nat)
    requires i >= |s|
    ensures Pick(s, at) == Pick(s, at - {i})
  {
    if s != [] { PickOutside(s[..|s| - 1], at, i); }
  }

  lemma {:induction false} PickOneMore<T>(s: seq<T>, at: set<nat>, i: nat)
    requires i in at && i < |s|
    ensures multiset(Pick(s, at)) == multiset(Pick(s, at - {i})) + multiset{s[i]}
  {
    var front := s[..|s| - 1];
    if i == |s| - 1 {
      PickOutside(front, at, i);
    } else {
      PickOneMore(front, at, i);
    }
  }

  lemma OnePairLess(f: map<nat, nat>, i: nat)
    requires i in f && forall k, l | k in f && l in f && f[k] == f[l] :: k == l
    ensures (f - {i}).Keys == f.Keys - {i} && (f - {i}).Values == f.Values - {f[i]}
    ensures |f| == |f - {i}| + 1
  {
    var g := f - {i};
    assert f.Keys == g.Keys + {i};
    forall v | v in f.Values && v != f[i] ensures v in g.Values {
      var k :| k in f && f[k] == v;
      assert k in g && g[k] == v;
    }
  }

  /** The matched positions hold the same values on both sides. */
  lemma {:induction false} MatchedValues<T>(s: seq<T>, t: seq<T>, f: map<nat, nat>)
    requires Matching(s, t, f)
    ensures multiset(Pick(s, f.Keys)) == multiset(Pick(t, f.Values))
    ensures |Pick(s, f.Keys)| == |f|
    decreases |f|
  {
    if f == map[] {
      PickNone(s);
      PickNone(t);
      assert f.Keys == {} && f.Values == {};
    } else {
      var i :| i in f;
      var g := f - {i};
      OnePairLess(f, i);
      MatchedValues(s, t, g);
      PickOneMore(s, f.Keys, i);
      PickOneMore(t, f.Values, f[i]);
      assert |multiset(Pick(s, f.Keys))| == |multiset(Pick(s, g.Keys))| + 1;
    }
  }

  lemma MatchingBound<T>(s: seq<T>, t: seq<T>, f: map<nat, nat>)
    requires Matching(s, t, f)
    ensures |f| <= |multiset(s) * multiset(t)|
  {
    MatchedValues(s, t, f);
    PickIsPart(s, f.Keys);
    PickIsPart(t, f.Values);
    var picked := multiset(Pick(s, f.Keys));
    assert picked <= multiset(s) * multiset(t);
    assert multiset(s) * multiset(t) == picked + (multiset(s) * multiset(t) - picked);
  }

  lemma {:induction false} AllPicked<T>(t: seq<T>, at: set<nat>, x: T)
    requires forall j: nat | j < |t| && t[j] == x :: j in at
    ensures multiset(Pick(t, at))[x] == multiset(t)[x]
  {
    if t != [] {
      LastSplit(t);
      AllPicked(t[..|t| - 1], at, x);
    }
  }

  /** A matching of that size exists. */
  lemma {:induction false} MatchingExists<T>(s: seq<T>, t: seq<T>) returns (f: map<nat, nat>)
    ensures Matching(s, t, f)
    ensures |f| == |multiset(s) * multiset(t)|
  {
    if s == [] {
      f := map[];
      assert multiset(s) * multiset(t) == multiset{};
    } else {
      var front, x := s[..|s| - 1], s[|s| - 1];
      LastSplit(s);
      f := MatchingExists(front, t);
      IntersectionStep(multiset(front), multiset(t), x);
      if multiset(front)[x] < multiset(t)[x] {
        if forall j: nat | j < |t| && t[j] == x :: j in f.Values {
          AllPicked(t, f.Values, x);
          MatchedValues(front, t, f);
          PickIsPart(front, f.Keys);
        }
        var j: nat :| j < |t| && t[j] == x && j !in f.Values;
        assert |s| - 1 !in f;
        f := f[|s| - 1 := j];
      }
    }
  }

  /** The greedy count is the size of a largest matching between the eligible
      expected relations, carried over the id map, and the predicted ones. */
  lemma GreedyIsOptimal(m: map<string, string>, expected: seq<Relation>, predicted: seq<Relation>)
    ensures forall f: map<nat, nat> | Matching(Carried(m, expected), Triples(predicted), f) ::
              |f| <= Matches(m, expected, predicted)
    ensures exists f: map<nat, nat> ::
              Matching(Carried(m, expected), Triples(predicted), f) && |f| == Matches(m, expected, predicted)
  {
    forall f: map<nat, nat> | Matching(Carried(m, expected), Triples(predicted), f)
      ensures |f| <= Matches(m, expected, predicted)
    {
      MatchingBound(Carried(m, expected), Triples(predicted), f);
    }
    var f := MatchingExists(Carried(m, expected), Triples(predicted));
  }
}
