/** Total orders, the lexicographic order Python gives to strings and tuples,
    and sorting. */
module Orders {
  import opened Sequences

  ghost predicate TotalOrder<T(!new)>(le: (T, T) -> bool) {
    && (forall x :: le(x, x))
    && (forall x, y :: le(x, y) || le(y, x))
    && (forall x, y :: le(x, y) && le(y, x) ==> x == y)
    && (forall x, y, z :: le(x, y) && le(y, z) ==> le(x, z))
  }

  predicate StrictlySorted<T(==)>(le: (T, T) -> bool, s: seq<T>) {
    forall i, j | 0 <= i < j < |s| :: le(s[i], s[j]) && s[i] != s[j]
  }

  /** Python's order on sequences: the first difference decides, and a proper
      prefix comes first. */
  predicate LexLe<T(==)>(le: (T, T) -> bool, s: seq<T>, t: seq<T>) {
    if s == [] then true
    else if t == [] then false
    else if s[0] == t[0] then LexLe(le, s[1..], t[1..])
    else le(s[0], t[0])
  }

  lemma {:induction false} LexReflexive<T(!new)>(le: (T, T) -> bool, s: seq<T>)
    ensures LexLe(le, s, s)
  {
    if s != [] { LexReflexive(le, s[1..]); }
  }

  lemma {:induction false} LexTotal<T(!new)>(le: (T, T) -> bool, s: seq<T>, t: seq<T>)
    requires TotalOrder(le)
    ensures LexLe(le, s, t) || LexLe(le, t, s)
    ensures LexLe(le, s, t) && LexLe(le, t, s) ==> s == t
  {
    if s != [] && t != [] && s[0] == t[0] {
      LexTotal(le, s[1..], t[1..]);
      assert s == [s[0]] + s[1..] && t == [t[0]] + t[1..];
    }
  }

  lemma {:induction false} LexTransitive<T(!new)>(le: (T, T) -> bool, s: seq<T>, t: seq<T>, u: seq<T>)
    requires TotalOrder(le)
    requires LexLe(le, s, t) && LexLe(le, t, u)
    ensures LexLe(le, s, u)
  {
    if s != [] && s[0] == t[0] == u[0] {
      LexTransitive(le, s[1..], t[1..], u[1..]);
    }
  }

  function Lex<T(==)>(le: (T, T) -> bool): (seq<T>, seq<T>) -> bool {
    (s, t) => LexLe(le, s, t)
  }

  /** The lexicographic extension of a total order is a total order. */
  lemma LexIsTotalOrder<T(!new)>(le: (T, T) -> bool)
    requires TotalOrder(le)
    ensures TotalOrder(Lex(le))
  {
    var lex := Lex(le);
    forall s ensures lex(s, s) { LexReflexive(le, s); }
    forall s, t ensures lex(s, t) || lex(t, s) { LexTotal(le, s, t); }
    forall s, t | lex(s, t) && lex(t, s) ensures s == t { LexTotal(le, s, t); }
    forall s, t, u | lex(s, t) && lex(t, u) ensures lex(s, u) { LexTransitive(le, s, t, u); }
  }

  // ----- Sorting

  predicate Sorted<T>(le: (T, T) -> bool, s: seq<T>) {
    forall i, j | 0 <= i < j < |s| :: le(s[i], s[j])
  }

  /** Insertion before the first element that is not smaller: the sort below is
      stable, as Python's is. */
  function Insert<T>(le: (T, T) -> bool, x: T, s: seq<T>): seq<T> {
    if s == [] || le(x, s[0]) then [x] + s else [s[0]] + Insert(le, x, s[1..])
  }

  function Sort<T>(le: (T, T) -> bool, s: seq<T>): seq<T> {
    if s == [] then [] else Insert(le, s[0], Sort(le, s[1..]))
  }

  lemma {:induction false} InsertMultiset<T>(le: (T, T) -> bool, x: T, s: seq<T>)
    ensures multiset(Insert(le, x, s)) == multiset(s) + multiset{x}
  {
    if s != [] && !le(x, s[0]) {
      InsertMultiset(le, x, s[1..]);
      assert s == [s[0]] + s[1..];
    }
  }

  lemma {:induction false} SortMultiset<T>(le: (T, T) -> bool, s: seq<T>)
    ensures multiset(Sort(le, s)) == multiset(s)
  {
    if s != [] {
      SortMultiset(le, s[1..]);
      InsertMultiset(le, s[0], Sort(le, s[1..]));
      assert s == [s[0]] + s[1..];
    }
  }

  lemma {:induction false} InsertSorted<T(!new)>(le: (T, T) -> bool, x: T, s: seq<T>)
    requires TotalOrder(le) && Sorted(le, s)
    ensures Sorted(le, Insert(le, x, s))
  {
    if s != [] && !le(x, s[0]) {
      InsertSorted(le, x, s[1..]);
      InsertMultiset(le, x, s[1..]);
      var rest := Insert(le, x, s[1..]);
      forall j | 0 <= j < |rest| ensures le(s[0], rest[j]) {
        assert rest[j] in multiset(rest);
        assert rest[j] == x || rest[j] in s[1..];
      }
    }
  }

  lemma {:induction false} SortSorted<T(!new)>(le: (T, T) -> bool, s: seq<T>)
    requires TotalOrder(le)
    ensures Sorted(le, Sort(le, s))
  {
    if s != [] {
      SortSorted(le, s[1..]);
      InsertSorted(le, s[0], Sort(le, s[1..]));
    }
  }

  /** Sorting by an attribute sorts the attributes. */
  lemma {:induction false} InsertMaps<A, B>(le: (A, A) -> bool, under: (B, B) -> bool, f: A -> B, x: A, s: seq<A>)
    requires forall y, z :: le(y, z) == under(f(y), f(z))
    ensures Map(f, Insert(le, x, s)) == Insert(under, f(x), Map(f, s))
  {
    if s != [] {
      assert Map(f, s)[1..] == Map(f, s[1..]);
      if !le(x, s[0]) { InsertMaps(le, under, f, x, s[1..]); }
    }
  }

  lemma {:induction false} SortMaps<A, B>(le: (A, A) -> bool, under: (B, B) -> bool, f: A -> B, s: seq<A>)
    requires forall y, z :: le(y, z) == under(f(y), f(z))
    ensures Map(f, Sort(le, s)) == Sort(under, Map(f, s))
  {
    if s != [] {
      assert Map(f, s)[1..] == Map(f, s[1..]);
      SortMaps(le, under, f, s[1..]);
      InsertMaps(le, under, f, s[0], Sort(le, s[1..]));
    }
  }

  lemma {:induction false} SortedUnique<T(!new)>(le: (T, T) -> bool, s: seq<T>, t: seq<T>)
    requires TotalOrder(le) && Sorted(le, s) && Sorted(le, t)
    requires multiset(s) == multiset(t)
    ensures s == t
  {
    PermutationLength(s, t);
    if s != [] {
      assert s[0] in multiset(t) && t[0] in multiset(s);
      assert le(s[0], t[0]) && le(t[0], s[0]);
      assert s == [s[0]] + s[1..] && t == [t[0]] + t[1..];
      assert multiset(s[1..]) == multiset(s) - multiset{s[0]};
      assert multiset(t[1..]) == multiset(t) - multiset{t[0]};
      SortedUnique(le, s[1..], t[1..]);
    }
  }

  /** Sorted tuples are equal exactly when the multisets they were sorted from are. */
  lemma SortIsCanonical<T(!new)>(le: (T, T) -> bool, s: seq<T>, t: seq<T>)
    requires TotalOrder(le)
    ensures Sort(le, s) == Sort(le, t) <==> multiset(s) == multiset(t)
  {
    SortMultiset(le, s);
    SortMultiset(le, t);
    SortSorted(le, s);
    SortSorted(le, t);
    if multiset(s) == multiset(t) {
      SortedUnique(le, Sort(le, s), Sort(le, t));
    }
  }

  // ----- The sorted list of a set

  /** Insertion into a strictly sorted list; a present element is not repeated. */
  function InsertNew<T(==)>(le: (T, T) -> bool, x: T, s: seq<T>): seq<T> {
    if s == [] then [x]
    else if x == s[0] then s
    else if le(x, s[0]) then [x] + s
    else [s[0]] + InsertNew(le, x, s[1..])
  }

  /** Python's sorted(set(s)). */
  function SortedSet<T(==)>(le: (T, T) -> bool, s: seq<T>): seq<T> {
    if s == [] then [] else InsertNew(le, s[0], SortedSet(le, s[1..]))
  }

  lemma {:induction false} InsertNewElements<T>(le: (T, T) -> bool, x: T, s: seq<T>, y: T)
    ensures y in InsertNew(le, x, s) <==> y == x || y in s
  {
    if s != [] && x != s[0] && !le(x, s[0]) {
      InsertNewElements(le, x, s[1..], y);
      assert s == [s[0]] + s[1..];
    }
  }

  lemma {:induction false} InsertNewSorted<T(!new)>(le: (T, T) -> bool, x: T, s: seq<T>)
    requires TotalOrder(le) && StrictlySorted(le, s)
    ensures StrictlySorted(le, InsertNew(le, x, s))
  {
    if s == [] || x == s[0] {
    } else if le(x, s[0]) {
      forall j | 0 <= j < |s| ensures le(x, s[j]) && x != s[j] {}
    } else {
      InsertNewSorted(le, x, s[1..]);
      var rest := InsertNew(le, x, s[1..]);
      forall j | 0 <= j < |rest| ensures le(s[0], rest[j]) && s[0] != rest[j] {
        InsertNewElements(le, x, s[1..], rest[j]);
      }
    }
  }

  lemma {:induction false} SortedSetElements<T>(le: (T, T) -> bool, s: seq<T>, y: T)
    ensures y in SortedSet(le, s) <==> y in s
  {
    if s != [] {
      SortedSetElements(le, s[1..], y);
      InsertNewElements(le, s[0], SortedSet(le, s[1..]), y);
      assert s == [s[0]] + s[1..];
    }
  }

  lemma {:induction false} SortedSetSorted<T(!new)>(le: (T, T) -> bool, s: seq<T>)
    requires TotalOrder(le)
    ensures StrictlySorted(le, SortedSet(le, s))
  {
    if s != [] {
      SortedSetSorted(le, s[1..]);
      InsertNewSorted(le, s[0], SortedSet(le, s[1..]));
    }
  }

  /** Two strictly sorted lists with the same elements are the same list. */
  lemma {:induction false} StrictlySortedUnique<T(!new)>(le: (T, T) -> bool, s: seq<T>, t: seq<T>)
    requires TotalOrder(le) && StrictlySorted(le, s) && StrictlySorted(le, t)
    requires forall x :: x in s <==> x in t
    ensures s == t
  {
    assert t != [] ==> t[0] in s;
    if s != [] {
      assert s[0] in t;
      assert s[0] == t[0];
      forall x ensures x in s[1..] <==> x in t[1..] {
        assert s == [s[0]] + s[1..] && t == [t[0]] + t[1..];
        assert s[0] !in s[1..] && t[0] !in t[1..];
        assert x in s <==> x in t;
      }
      StrictlySortedUnique(le, s[1..], t[1..]);
    }
  }

  /** sorted(set(s)) only depends on which elements occur. */
  lemma SortedSetIsCanonical<T(!new)>(le: (T, T) -> bool, s: seq<T>, t: seq<T>)
    requires TotalOrder(le)
    requires forall x :: x in s <==> x in t
    ensures SortedSet(le, s) == SortedSet(le, t)
  {
    SortedSetSorted(le, s);
    SortedSetSorted(le, t);
    forall x ensures x in SortedSet(le, s) <==> x in SortedSet(le, t) {
      SortedSetElements(le, s, x);
      SortedSetElements(le, t, x);
    }
    StrictlySortedUnique(le, SortedSet(le, s), SortedSet(le, t));
  }

  /** sorted(s) for a set. */
  method SortSet<T(==,!new)>(le: (T, T) -> bool, s: set<T>) returns (r: seq<T>)
    requires TotalOrder(le)
    ensures StrictlySorted(le, r)
    ensures forall x :: x in r <==> x in s
  {
    r := [];
    var todo := s;
    while todo != {}
      invariant todo <= s
      invariant StrictlySorted(le, r)
      invariant forall x :: x in r <==> x in s - todo
    {
      var x :| x in todo;
      InsertNewSorted(le, x, r);
      forall y ensures y in InsertNew(le, x, r) <==> y == x || y in r {
        InsertNewElements(le, x, r, y);
      }
      r := InsertNew(le, x, r);
      todo := todo - {x};
    }
  }

  // ----- The order of strings

  function CharLe(): (char, char) -> bool { (a, b) => a <= b }

  function StringLe(): (string, string) -> bool { Lex(CharLe()) }

  lemma StringOrder()
    ensures TotalOrder(StringLe())
  {
    LexIsTotalOrder(CharLe());
  }
}
