/** Options, results, and the facts about sequences, multisets and sums that
    the models of the evidence scripts share. */
module Sequences {

  datatype Option<+T> = None | Some(value: T)

  datatype Result<+T, +E> = Ok(value: T) | Err(error: E)

  predicate Distinct<T(==)>(s: seq<T>) {
    forall i, j | 0 <= i < j < |s| :: s[i] != s[j]
  }

  lemma DistinctAppend<T>(s: seq<T>, x: T)
    requires Distinct(s) && x !in s
    ensures Distinct(s + [x])
  {
  }

  lemma RepeatedAt<T>(s: seq<T>, i: nat)
    requires i < |s| && s[i] in s[..i]
    ensures !Distinct(s)
  {
    var k :| 0 <= k < i && s[..i][k] == s[i];
    assert s[k] == s[i];
  }

  function Map<A, B>(f: A -> B, s: seq<A>): (r: seq<B>)
    ensures |r| == |s|
    ensures forall i | 0 <= i < |s| :: r[i] == f(s[i])
  {
    seq(|s|, i requires 0 <= i < |s| => f(s[i]))
  }

  /** Sum of f over the elements; the recursion drops the last element, as a
      loop that adds them from the front does. */
  function Sum<A>(f: A -> nat, s: seq<A>): nat {
    if s == [] then 0 else Sum(f, s[..|s| - 1]) + f(s[|s| - 1])
  }

  lemma LastSplit<T>(s: seq<T>)
    requires s != []
    ensures s == s[..|s| - 1] + [s[|s| - 1]]
    ensures multiset(s) == multiset(s[..|s| - 1]) + multiset{s[|s| - 1]}
  {
    assert s == s[..|s| - 1] + [s[|s| - 1]];
  }

  lemma PrefixStep<T>(s: seq<T>, i: nat)
    requires i < |s|
    ensures s[..i + 1] == s[..i] + [s[i]]
    ensures s[..i + 1] != []
    ensures s[..i + 1][..|s[..i + 1]| - 1] == s[..i]
    ensures s[..i + 1][|s[..i + 1]| - 1] == s[i]
  {
  }

  /** The sum after one more loop iteration. */
  lemma SumStep<A>(f: A -> nat, s: seq<A>, i: nat)
    requires i < |s|
    ensures Sum(f, s[..i + 1]) == Sum(f, s[..i]) + f(s[i])
  {
    PrefixStep(s, i);
  }

  lemma {:induction false} SumConcat<A>(f: A -> nat, s: seq<A>, t: seq<A>)
    ensures Sum(f, s + t) == Sum(f, s) + Sum(f, t)
  {
    if t == [] {
      assert s + t == s;
    } else {
      assert (s + t)[..|s + t| - 1] == s + t[..|t| - 1];
      SumConcat(f, s, t[..|t| - 1]);
    }
  }

  lemma {:induction false} SumCongruence<A>(f: A -> nat, g: A -> nat, s: seq<A>)
    requires forall x | x in s :: f(x) == g(x)
    ensures Sum(f, s) == Sum(g, s)
  {
    if s != [] {
      LastSplit(s);
      forall x | x in s[..|s| - 1] ensures f(x) == g(x) { assert x in s; }
      SumCongruence(f, g, s[..|s| - 1]);
    }
  }

  /** A sum only depends on the multiset of the elements. */
  lemma {:induction false} SumPermutation<A>(f: A -> nat, s: seq<A>, t: seq<A>)
    requires multiset(s) == multiset(t)
    ensures Sum(f, s) == Sum(f, t)
    decreases |s|
  {
    PermutationLength(s, t);
    if s != [] {
      var x := s[|s| - 1];
      assert x in multiset(t);
      var i :| 0 <= i < |t| && t[i] == x;
      var rest := t[..i] + t[i + 1..];
      assert t == t[..i] + ([x] + t[i + 1..]);
      LastSplit(s);
      assert multiset(rest) == multiset(t) - multiset{x};
      SumPermutation(f, s[..|s| - 1], rest);
      SumConcat(f, t[..i], [x] + t[i + 1..]);
      SumConcat(f, [x], t[i + 1..]);
      SumConcat(f, t[..i], t[i + 1..]);
    }
  }

  lemma PermutationLength<T>(s: seq<T>, t: seq<T>)
    requires multiset(s) == multiset(t)
    ensures |s| == |t|
  {
    assert |multiset(s)| == |s| && |multiset(t)| == |t|;
  }

  lemma {:induction false} SumOfZeros<A>(f: A -> nat, s: seq<A>)
    requires forall x | x in s :: f(x) == 0
    ensures Sum(f, s) == 0
  {
    if s != [] {
      LastSplit(s);
      forall x | x in s[..|s| - 1] ensures f(x) == 0 { assert x in s; }
      SumOfZeros(f, s[..|s| - 1]);
    }
  }

  lemma {:induction false} SumReached<A>(f: A -> nat, s: seq<A>, x: A)
    requires x in s
    ensures Sum(f, s) >= f(x)
  {
    LastSplit(s);
    if x != s[|s| - 1] { SumReached(f, s[..|s| - 1], x); }
  }

  lemma {:induction false} SumPointwise<A, B>(f: A -> nat, s: seq<A>, g: B -> nat, t: seq<B>)
    requires |s| == |t| && forall i | 0 <= i < |s| :: f(s[i]) == g(t[i])
    ensures Sum(f, s) == Sum(g, t)
  {
    if s != [] { SumPointwise(f, s[..|s| - 1], g, t[..|t| - 1]); }
  }

  lemma OneMore(n: nat, c: nat)
    ensures (n + 1) * c == n * c + c
  {
  }

  lemma {:induction false} SumBound<A>(f: A -> nat, s: seq<A>, c: nat)
    requires forall x | x in s :: f(x) <= c
    ensures Sum(f, s) <= |s| * c
  {
    if s != [] {
      var rest := s[..|s| - 1];
      forall x | x in rest ensures f(x) <= c { LastSplit(s); assert x in s; }
      SumBound(f, rest, c);
      OneMore(|rest|, c);
    }
  }

  /** A property of all elements is one of the last and of those before it. */
  ghost predicate AllAre<A>(f: A -> nat, s: seq<A>, c: nat) { forall x | x in s :: f(x) == c }

  lemma AllAreSplit<A>(f: A -> nat, s: seq<A>, c: nat)
    requires s != []
    ensures AllAre(f, s, c) <==> AllAre(f, s[..|s| - 1], c) && f(s[|s| - 1]) == c
  {
    var rest, last := s[..|s| - 1], s[|s| - 1];
    assert last in s;
    forall x ensures x in s <==> x in rest || x == last {
      assert s == rest + [last];
    }
  }

  /** A sum of terms bounded by c reaches its bound exactly when every term does. */
  lemma {:induction false} SumReachesBound<A>(f: A -> nat, s: seq<A>, c: nat)
    requires forall x | x in s :: f(x) <= c
    ensures Sum(f, s) == |s| * c <==> AllAre(f, s, c)
  {
    if s != [] {
      var rest, last := s[..|s| - 1], s[|s| - 1];
      assert last in s && forall x | x in rest :: x in s;
      SumBound(f, rest, c);
      SumReachesBound(f, rest, c);
      AllAreSplit(f, s, c);
      OneMore(|rest|, c);
    }
  }

  function Without<T>(s: seq<T>, i: nat): seq<T>
    requires i < |s|
  {
    s[..i] + s[i + 1..]
  }

  lemma WithoutMultiset<T>(s: seq<T>, i: nat)
    requires i < |s|
    ensures multiset(s) == multiset(Without(s, i)) + multiset{s[i]}
  {
    assert s == s[..i] + [s[i]] + s[i + 1..];
  }

  lemma MapWithout<A, B>(f: A -> B, s: seq<A>, i: nat)
    requires i < |s|
    ensures Map(f, Without(s, i)) == Without(Map(f, s), i)
  {
  }

  lemma {:induction false} MapMultiset<A, B>(f: A -> B, s: seq<A>, t: seq<A>)
    requires multiset(s) == multiset(t)
    ensures multiset(Map(f, s)) == multiset(Map(f, t))
    decreases |s|
  {
    PermutationLength(s, t);
    if s != [] {
      assert s[0] in multiset(t);
      var i :| 0 <= i < |t| && t[i] == s[0];
      WithoutMultiset(s, 0);
      WithoutMultiset(t, i);
      assert multiset(Without(s, 0)) == multiset(s) - multiset{s[0]};
      assert multiset(Without(t, i)) == multiset(t) - multiset{s[0]};
      MapMultiset(f, Without(s, 0), Without(t, i));
      MapWithout(f, s, 0);
      MapWithout(f, t, i);
      WithoutMultiset(Map(f, s), 0);
      WithoutMultiset(Map(f, t), i);
    }
  }

  lemma MapConcat<A, B>(f: A -> B, s: seq<A>, t: seq<A>)
    ensures Map(f, s + t) == Map(f, s) + Map(f, t)
  {
  }

  lemma MapConcatMultiset<A, B>(f: A -> B, s: seq<A>, t: seq<A>)
    ensures multiset(Map(f, s + t)) == multiset(Map(f, s)) + multiset(Map(f, t))
  {
    MapConcat(f, s, t);
  }

  /** The elements that pass the test, in order. */
  function Filter<A>(test: A -> bool, s: seq<A>): seq<A> {
    if s == [] then []
    else Filter(test, s[..|s| - 1]) + if test(s[|s| - 1]) then [s[|s| - 1]] else []
  }

  lemma {:induction false} FilterMembers<A>(test: A -> bool, s: seq<A>, x: A)
    ensures multiset(Filter(test, s))[x] == if test(x) then multiset(s)[x] else 0
    ensures x in Filter(test, s) <==> x in s && test(x)
  {
    if s != [] {
      LastSplit(s);
      FilterMembers(test, s[..|s| - 1], x);
    }
  }

  function Elements<T>(s: seq<T>): set<T> { set x | x in s }

  function Passing<T>(all: set<T>, test: T -> bool): set<T> { set x | x in all && test(x) }

  lemma PassingLast<T>(s: seq<T>, test: T -> bool)
    requires s != [] && Distinct(s)
    ensures var before, last := Passing(Elements(s[..|s| - 1]), test), s[|s| - 1];
            Passing(Elements(s), test) == (if test(last) then before + {last} else before) && last !in before
  {
    LastSplit(s);
    assert s[|s| - 1] !in s[..|s| - 1];
  }

  /** Over distinct elements a sum of flags is the number of flagged elements. */
  lemma {:induction false} SumOfFlags<A>(f: A -> nat, test: A -> bool, s: seq<A>)
    requires Distinct(s) && forall x | x in s :: f(x) == if test(x) then 1 else 0
    ensures Sum(f, s) == |Passing(Elements(s), test)|
  {
    if s != [] {
      var front, last := s[..|s| - 1], s[|s| - 1];
      LastSplit(s);
      forall x | x in front ensures f(x) == if test(x) then 1 else 0 { assert x in s; }
      SumOfFlags(f, test, front);
      assert last in s;
      PassingLast(s, test);
    }
  }

  lemma {:induction false} SumAdds<A>(f: A -> nat, g: A -> nat, h: A -> nat, s: seq<A>)
    requires forall x | x in s :: f(x) == g(x) + h(x)
    ensures Sum(f, s) == Sum(g, s) + Sum(h, s)
  {
    if s != [] {
      LastSplit(s);
      forall x | x in s[..|s| - 1] ensures f(x) == g(x) + h(x) { assert x in s; }
      SumAdds(f, g, h, s[..|s| - 1]);
      assert s[|s| - 1] in s;
    }
  }

  lemma {:induction false} FilterSize<A>(test: A -> bool, s: seq<A>)
    requires Distinct(s)
    ensures |Filter(test, s)| == |Passing(Elements(s), test)|
  {
    if s != [] {
      FilterSize(test, s[..|s| - 1]);
      PassingLast(s, test);
    }
  }

  lemma PlusEmpty<T>(s: seq<T>)
    ensures s + [] == s
  {
  }

  lemma {:induction false} SumMap<A, B>(f: B -> nat, g: A -> B, h: A -> nat, s: seq<A>)
    requires forall x | x in s :: f(g(x)) == h(x)
    ensures Sum(f, Map(g, s)) == Sum(h, s)
  {
    if s != [] {
      var front := s[..|s| - 1];
      LastSplit(s);
      forall x | x in front ensures f(g(x)) == h(x) { assert x in s; }
      SumMap(f, g, h, front);
      assert Map(g, s)[..|s| - 1] == Map(g, front);
    }
  }

  /** In a duplicate-free sequence every element occurs once. */
  lemma {:induction false} DistinctCounts<T>(s: seq<T>)
    ensures Distinct(s) <==> forall x | x in s :: multiset(s)[x] == 1
  {
    if s != [] {
      var rest, last := s[..|s| - 1], s[|s| - 1];
      LastSplit(s);
      DistinctCounts(rest);
      if Distinct(s) {
        assert last !in rest;
        forall x | x in s ensures multiset(s)[x] == 1 {
          assert x == last || x in rest;
        }
      }
      if forall x | x in s :: multiset(s)[x] == 1 {
        assert multiset(s)[last] == 1;
        assert last !in multiset(rest);
        forall x | x in rest ensures multiset(rest)[x] == 1 {
          assert x in s;
          assert x != last;
        }
        forall i, j | 0 <= i < j < |s| ensures s[i] != s[j] {
          assert s[i] == rest[i];
          if j < |rest| { assert s[j] == rest[j]; }
        }
      }
    }
  }

  lemma DistinctPermutation<T>(s: seq<T>, t: seq<T>)
    requires multiset(s) == multiset(t)
    ensures Distinct(s) <==> Distinct(t)
  {
    DistinctCounts(s);
    DistinctCounts(t);
    assert forall x :: x in s <==> x in multiset(s);
    assert forall x :: x in t <==> x in multiset(t);
  }

  /** A duplicate-free sequence is as long as its set of elements. */
  lemma {:induction false} DistinctCardinality<T>(s: seq<T>)
    requires Distinct(s)
    ensures |set x | x in s| == |s|
  {
    if s != [] {
      var rest, last := s[..|s| - 1], s[|s| - 1];
      LastSplit(s);
      DistinctCardinality(rest);
      assert (set x | x in s) == (set x | x in rest) + {last};
      assert last !in rest;
    }
  }

  /** |a * b| when one element is put in front of the left operand: the step of
      a greedy count-down. */
  lemma IntersectionStep<T>(a: multiset<T>, b: multiset<T>, x: T)
    ensures |(a + multiset{x}) * b| == |a * b| + if a[x] < b[x] then 1 else 0
  {
    if a[x] < b[x] {
      assert (a + multiset{x}) * b == a * b + multiset{x};
    } else {
      assert (a + multiset{x}) * b == a * b;
    }
  }

  lemma {:induction false} MapCount<A, B>(g: A -> B, s: seq<A>, x: A)
    requires forall y | y in s && g(y) == g(x) :: y == x
    ensures multiset(Map(g, s))[g(x)] == multiset(s)[x]
  {
    if s != [] {
      var front, last := s[..|s| - 1], s[|s| - 1];
      LastSplit(s);
      forall y | y in front && g(y) == g(x) ensures y == x { assert y in s; }
      MapCount(g, front, x);
      assert last in s;
      assert Map(g, s) == Map(g, front) + [g(last)];
    }
  }

  /** A one-to-one renaming does not change how much two sequences have in common. */
  lemma {:induction false} IntersectionMap<A, B>(g: A -> B, s: seq<A>, t: seq<A>)
    requires forall x, y | x in s + t && y in s + t && g(x) == g(y) :: x == y
    ensures |multiset(Map(g, s)) * multiset(Map(g, t))| == |multiset(s) * multiset(t)|
  {
    if s == [] {
      assert multiset(Map(g, s)) * multiset(Map(g, t)) == multiset{};
      assert multiset(s) * multiset(t) == multiset{};
    } else {
      var front, x := s[..|s| - 1], s[|s| - 1];
      LastSplit(s);
      assert forall y | y in front :: y in s;
      IntersectionMap(g, front, t);
      assert x in s;
      MapCount(g, front, x);
      MapCount(g, t, x);
      assert Map(g, s) == Map(g, front) + [g(x)];
      IntersectionStep(multiset(front), multiset(t), x);
      IntersectionStep(multiset(Map(g, front)), multiset(Map(g, t)), g(x));
    }
  }
}
