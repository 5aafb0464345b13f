/** Unit diagnosis: truncation flags of text blocks, and the loop that cuts the
    blocks of a document into edition-list series. */
module EditionSeries {
  import opened Sequences
  import opened Utf8

  type Text = seq<Scalar>

  /** What the diagnosis reads off a text but this model does not spell out: which
      scalars are white space, and the two regular expressions "starts with от DATE"
      and "starts with (в ред.". */
  datatype Lexicon = Lexicon(isSpace: Scalar -> bool, startsOtDate: Text -> bool, startsEdNote: Text -> bool)

  datatype Flag = EndsComma | Ellipsis | UnclosedParen | StartsOtDate | EdNoteOpen

  const COMMA: Scalar := 0x2C
  const DOT: Scalar := 0x2E
  const OPEN_PAREN: Scalar := 0x28
  const CLOSE_PAREN: Scalar := 0x29

  function StripRight(lex: Lexicon, t: Text): Text {
    if t != [] && lex.isSpace(t[|t| - 1]) then StripRight(lex, t[..|t| - 1]) else t
  }

  predicate EndsWith(t: Text, suffix: Text) {
    |suffix| <= |t| && t[|t| - |suffix|..] == suffix
  }

  function CountOf(t: Text, c: Scalar): nat { multiset(t)[c] }

  function TruncFlags(lex: Lexicon, text: Text): seq<Flag> {
    var s := StripRight(lex, text);
    (if EndsWith(s, [COMMA]) then [EndsComma] else [])
    + (if EndsWith(s, [DOT, DOT, DOT]) then [Ellipsis] else [])
    + (if CountOf(s, OPEN_PAREN) > CountOf(s, CLOSE_PAREN) then [UnclosedParen] else [])
    + (if lex.startsOtDate(s) then [StartsOtDate] else [])
    + (if lex.startsEdNote(s) && !EndsWith(s, [CLOSE_PAREN]) then [EdNoteOpen] else [])
  }

  /** The second block may continue the list the first one leaves open. */
  predicate GlueCandidate(lex: Lexicon, a: Text, b: Text, gap: int) {
    if gap > 2 then false
    else
      var af, bf := TruncFlags(lex, a), TruncFlags(lex, b);
      (EndsComma in af || UnclosedParen in af || EdNoteOpen in af) && StartsOtDate in bf
  }

  /** White space at the end of a text changes none of its flags. */
  lemma TrailingSpaceIgnored(lex: Lexicon, t: Text, c: Scalar)
    requires lex.isSpace(c)
    ensures TruncFlags(lex, t + [c]) == TruncFlags(lex, t)
  {
    assert (t + [c])[..|t|] == t;
  }

  lemma {:induction false} SpacesIgnored(lex: Lexicon, t: Text, spaces: Text)
    requires forall c | c in spaces :: lex.isSpace(c)
    ensures TruncFlags(lex, t + spaces) == TruncFlags(lex, t)
  {
    if spaces == [] {
      PlusEmpty(t);
    } else {
      var front, last := spaces[..|spaces| - 1], spaces[|spaces| - 1];
      assert last in spaces && forall c | c in front :: c in spaces;
      SpacesIgnored(lex, t, front);
      TrailingSpaceIgnored(lex, t + front, last);
      assert t + front + [last] == t + spaces;
    }
  }

  /** Whether two texts glue does not depend on white space at their ends, nor on the gap
      unless it exceeds two. */
  lemma GlueIsRobust(lex: Lexicon, a: Text, b: Text, after: Text, end: Text, gap: int, other: int)
    requires forall c | c in after + end :: lex.isSpace(c)
    ensures GlueCandidate(lex, a + after, b + end, gap) <==> GlueCandidate(lex, a, b, gap)
    ensures gap <= 2 && other <= 2 ==> (GlueCandidate(lex, a, b, gap) <==> GlueCandidate(lex, a, b, other))
    ensures gap > 2 ==> !GlueCandidate(lex, a, b, gap)
  {
    forall c | c in after ensures lex.isSpace(c) { assert c in after + end; }
    forall c | c in end ensures lex.isSpace(c) { assert c in after + end; }
    SpacesIgnored(lex, a, after);
    SpacesIgnored(lex, b, end);
  }

  // ----- Blocks and series

  /** A text block of a document; raw is the fixture file the text was decoded from. */
  datatype Block = Block(fragmentId: string, docId: string, index: int, text: Text, raw: seq<Byte>, inPilot: bool)

  predicate Decoded(b: Block) { Decode(b.raw) == Some(b.text) }

  datatype Series = Series(
    docId: string, fragmentIds: seq<string>, blockIndices: seq<int>, memberCount: nat,
    joinedByteLen: nat, inPilot: bool, crossBlockTextAnchor: bool)

  /** Whether two neighbours belong to one list. */
  type Glue = (Block, Block) -> bool

  function GlueOf(lex: Lexicon): Glue {
    (a: Block, b: Block) => GlueCandidate(lex, a.text, b.text, b.index - a.index)
  }

  function FragmentId(): Block -> string { (b: Block) => b.fragmentId }

  function BlockIndex(): Block -> int { (b: Block) => b.index }

  function ByteLen(): Block -> nat { (b: Block) => |b.raw| }

  function Join(chain: seq<Block>): Text {
    if chain == [] then [] else Join(chain[..|chain| - 1]) + chain[|chain| - 1].text
  }

  function SeriesOf(docId: string, chain: seq<Block>): Series {
    Series(docId, Map(FragmentId(), chain), Map(BlockIndex(), chain), |chain|,
           |Encode(Join(chain))|, exists b | b in chain :: b.inPilot, false)
  }

  /** The byte length of the joined text is the sum of the members' byte lengths. */
  lemma {:induction false} JoinedByteLength(chain: seq<Block>)
    requires forall b | b in chain :: Decoded(b)
    ensures |Encode(Join(chain))| == Sum(ByteLen(), chain)
  {
    if chain != [] {
      var front, last := chain[..|chain| - 1], chain[|chain| - 1];
      LastSplit(chain);
      forall b | b in front ensures Decoded(b) { assert b in chain; }
      assert last in chain && Decoded(last);
      JoinedByteLength(front);
      EncodeConcat(Join(front), last.text);
      EncodeInvertsDecode(last.raw);
    }
  }

  // ----- Maximal runs

  /** Every neighbour pair is glued. */
  ghost predicate IsChain(glue: Glue, chain: seq<Block>) {
    chain != [] && forall i, j | 0 <= i && j == i + 1 && j < |chain| :: glue(chain[i], chain[j])
  }

  /** The second chain does not continue the first. */
  predicate Separated(glue: Glue, a: seq<Block>, b: seq<Block>) {
    a != [] && b != [] && !glue(a[|a| - 1], b[0])
  }

  function Flatten<T>(parts: seq<seq<T>>): seq<T> {
    if parts == [] then [] else parts[0] + Flatten(parts[1..])
  }

  /** The parts are the maximal glued runs of the items: put together they are the
      list, each is a chain, and none continues into its neighbour. */
  ghost predicate MaximalRuns(glue: Glue, parts: seq<seq<Block>>, items: seq<Block>) {
    && Flatten(parts) == items
    && (forall i | 0 <= i < |parts| :: IsChain(glue, parts[i]))
    && (forall i, j | 0 <= i && j == i + 1 && j < |parts| :: Separated(glue, parts[i], parts[j]))
  }

  function RunLength(glue: Glue, items: seq<Block>): (n: nat)
    requires items != []
    ensures 1 <= n <= |items|
  {
    if |items| >= 2 && glue(items[0], items[1]) then 1 + RunLength(glue, items[1..]) else 1
  }

  function Chains(glue: Glue, items: seq<Block>): seq<seq<Block>>
    decreases |items|
  {
    if items == [] then []
    else
      var n := RunLength(glue, items);
      [items[..n]] + Chains(glue, items[n..])
  }

  lemma {:induction false} RunIsChain(glue: Glue, items: seq<Block>)
    requires items != []
    ensures var n := RunLength(glue, items);
            && IsChain(glue, items[..n])
            && (n < |items| ==> !glue(items[n - 1], items[n]))
  {
    if |items| >= 2 && glue(items[0], items[1]) {
      var rest, n := items[1..], RunLength(glue, items);
      RunIsChain(glue, rest);
      forall i, j | 0 <= i && j == i + 1 && j < n ensures glue(items[i], items[j]) {
        if i > 0 { assert rest[..n - 1][i - 1] == items[i] && rest[..n - 1][j - 1] == items[j]; }
      }
      if n < |items| { assert rest[n - 2] == items[n - 1] && rest[n - 1] == items[n]; }
    }
  }

  lemma PrependRun(glue: Glue, first: seq<Block>, rest: seq<seq<Block>>, items: seq<Block>)
    requires MaximalRuns(glue, rest, items) && IsChain(glue, first)
    requires items != [] ==> Separated(glue, first, items)
    ensures MaximalRuns(glue, [first] + rest, first + items)
  {
    var parts := [first] + rest;
    assert parts[1..] == rest;
    forall i | 0 <= i < |parts| ensures IsChain(glue, parts[i]) {
      if i > 0 { assert parts[i] == rest[i - 1]; }
    }
    forall i, j | 0 <= i && j == i + 1 && j < |parts| ensures Separated(glue, parts[i], parts[j]) {
      if i > 0 {
        assert parts[i] == rest[i - 1] && parts[j] == rest[j - 1];
      } else {
        assert IsChain(glue, rest[0]);
        assert items == rest[0] + Flatten(rest[1..]);
      }
    }
  }

  /** The chains the loop builds, singletons included, are the maximal runs. */
  lemma {:induction false} ChainsAreMaximalRuns(glue: Glue, items: seq<Block>)
    ensures MaximalRuns(glue, Chains(glue, items), items)
    decreases |items|
  {
    if items != [] {
      var n := RunLength(glue, items);
      RunIsChain(glue, items);
      ChainsAreMaximalRuns(glue, items[n..]);
      PrependRun(glue, items[..n], Chains(glue, items[n..]), items[n..]);
      assert items == items[..n] + items[n..];
    }
  }

  lemma DropRun(glue: Glue, parts: seq<seq<Block>>, items: seq<Block>)
    requires MaximalRuns(glue, parts, items) && parts != []
    ensures IsChain(glue, parts[0]) && items == parts[0] + Flatten(parts[1..])
    ensures MaximalRuns(glue, parts[1..], Flatten(parts[1..]))
    ensures Flatten(parts[1..]) != [] ==> Separated(glue, parts[0], Flatten(parts[1..]))
  {
    var rest := parts[1..];
    forall i | 0 <= i < |rest| ensures IsChain(glue, rest[i]) { assert rest[i] == parts[i + 1]; }
    forall i, j | 0 <= i && j == i + 1 && j < |rest| ensures Separated(glue, rest[i], rest[j]) {
      assert rest[i] == parts[i + 1] && rest[j] == parts[j + 1];
    }
    if rest != [] { assert rest[0] == parts[1] && Separated(glue, parts[0], parts[1]); }
  }

  /** A chain that the following items do not continue is the first run. */
  lemma {:induction false} RunLengthIs(glue: Glue, first: seq<Block>, items: seq<Block>)
    requires IsChain(glue, first)
    requires items != [] ==> Separated(glue, first, items)
    ensures RunLength(glue, first + items) == |first|
  {
    var all := first + items;
    if |first| == 1 {
      assert |all| >= 2 ==> all[1] == items[0];
    } else {
      assert all[1..] == first[1..] + items;
      assert glue(first[0], first[1]);
      forall i, j | 0 <= i && j == i + 1 && j < |first[1..]| ensures glue(first[1..][i], first[1..][j]) {
        assert first[1..][i] == first[i + 1] && first[1..][j] == first[j + 1];
      }
      RunLengthIs(glue, first[1..], items);
    }
  }

  /** There is only one way to cut a list into maximal runs. */
  lemma {:induction false} MaximalRunsAreUnique(glue: Glue, parts: seq<seq<Block>>, items: seq<Block>)
    requires MaximalRuns(glue, parts, items)
    ensures parts == Chains(glue, items)
  {
    if parts != [] {
      DropRun(glue, parts, items);
      var rest := Flatten(parts[1..]);
      RunLengthIs(glue, parts[0], rest);
      MaximalRunsAreUnique(glue, parts[1..], rest);
      assert items[..|parts[0]|] == parts[0] && items[|parts[0]|..] == rest;
      assert parts == [parts[0]] + parts[1..];
    }
  }

  /** The slice from i to j is glued inside and continues on neither side. */
  ghost predicate IsRun(glue: Glue, items: seq<Block>, i: nat, j: nat) {
    && i < j <= |items| && IsChain(glue, items[i..j])
    && (i > 0 ==> !glue(items[i - 1], items[i]))
    && (j < |items| ==> !glue(items[j - 1], items[j]))
  }

  ghost predicate IsRunOf(glue: Glue, items: seq<Block>, run: seq<Block>) {
    exists i: nat, j: nat :: IsRun(glue, items, i, j) && run == items[i..j]
  }

  /** A run of the list after the first one is a run of the list. */
  lemma RunOfRest(glue: Glue, items: seq<Block>, n: nat, i: nat, j: nat)
    requires 0 < n < |items| && !glue(items[n - 1], items[n])
    ensures IsRun(glue, items[n..], i, j) <==> IsRun(glue, items, n + i, n + j)
    ensures i <= j <= |items| - n ==> items[n..][i..j] == items[n + i..n + j]
  {
    var rest := items[n..];
    if i <= j <= |rest| { assert rest[i..j] == items[n + i..n + j]; }
  }

  /** A run cannot begin inside the first one. */
  lemma FirstRun(glue: Glue, items: seq<Block>, i: nat, j: nat)
    requires items != [] && IsRun(glue, items, i, j)
    ensures var n := RunLength(glue, items); (i == 0 && j == n) || (n <= i && n < |items|)
  {
    if i == 0 {
      LeadingRun(glue, items, j);
    } else {
      FirstRunIsGlued(glue, items, i);
    }
  }

  lemma LeadingRun(glue: Glue, items: seq<Block>, j: nat)
    requires items != [] && IsRun(glue, items, 0, j)
    ensures RunLength(glue, items) == j
  {
    assert items[0..j] == items[..j] && items == items[..j] + items[j..];
    RunLengthIs(glue, items[..j], items[j..]);
  }

  lemma FirstRunIsGlued(glue: Glue, items: seq<Block>, k: nat)
    requires items != []
    ensures 0 < k < RunLength(glue, items) ==> glue(items[k - 1], items[k])
  {
    var n := RunLength(glue, items);
    RunIsChain(glue, items);
    if 0 < k < n { assert items[..n][k - 1] == items[k - 1] && items[..n][k] == items[k]; }
  }

  lemma InChains(glue: Glue, items: seq<Block>, run: seq<Block>)
    requires items != []
    ensures var n := RunLength(glue, items);
            run in Chains(glue, items) <==> run == items[..n] || run in Chains(glue, items[n..])
  {
    var n := RunLength(glue, items);
    InConcat([items[..n]], Chains(glue, items[n..]), run);
  }

  lemma InConcat<T>(s: seq<T>, t: seq<T>, x: T)
    ensures x in s + t <==> x in s || x in t
  {
  }

  lemma FirstIsRun(glue: Glue, items: seq<Block>)
    requires items != []
    ensures var n := RunLength(glue, items); IsRun(glue, items, 0, n) && items[0..n] == items[..n]
  {
    RunIsChain(glue, items);
    assert items[0..RunLength(glue, items)] == items[..RunLength(glue, items)];
  }

  lemma EarlierRun(glue: Glue, items: seq<Block>, n: nat, i: nat, j: nat)
    requires 0 < n <= |items| && (n < |items| ==> !glue(items[n - 1], items[n])) && IsRun(glue, items[n..], i, j)
    ensures IsRun(glue, items, n + i, n + j) && items[n..][i..j] == items[n + i..n + j]
  {
    RunOfRest(glue, items, n, i, j);
  }

  lemma {:induction false} ChainIsRun(glue: Glue, items: seq<Block>, run: seq<Block>)
    requires run in Chains(glue, items)
    ensures IsRunOf(glue, items, run)
    decreases |items|
  {
    var n := RunLength(glue, items);
    InChains(glue, items, run);
    if run == items[..n] {
      FirstIsRun(glue, items);
    } else {
      FirstRunStops(glue, items);
      ChainIsRun(glue, items[n..], run);
      RunsOfRest(glue, items, n, run);
    }
  }

  lemma RunsOfRest(glue: Glue, items: seq<Block>, n: nat, run: seq<Block>)
    requires 0 < n <= |items| && (n < |items| ==> !glue(items[n - 1], items[n])) && IsRunOf(glue, items[n..], run)
    ensures IsRunOf(glue, items, run)
  {
    var i: nat, j: nat :| IsRun(glue, items[n..], i, j) && run == items[n..][i..j];
    EarlierRun(glue, items, n, i, j);
  }

  lemma FirstRunStops(glue: Glue, items: seq<Block>)
    requires items != []
    ensures var n := RunLength(glue, items); n < |items| ==> !glue(items[n - 1], items[n])
  {
    RunIsChain(glue, items);
  }

  lemma {:induction false} RunIsListed(glue: Glue, items: seq<Block>, i: nat, j: nat)
    requires IsRun(glue, items, i, j)
    ensures items[i..j] in Chains(glue, items)
    decreases |items|
  {
    FirstRun(glue, items, i, j);
    InChains(glue, items, items[i..j]);
    if i > 0 {
      var n := RunLength(glue, items);
      FirstRunStops(glue, items);
      LaterRun(glue, items, n, i, j);
      RunIsListed(glue, items[n..], i - n, j - n);
    }
  }

  lemma LaterRun(glue: Glue, items: seq<Block>, n: nat, i: nat, j: nat)
    requires 0 < n < |items| && !glue(items[n - 1], items[n]) && n <= i && IsRun(glue, items, i, j)
    ensures IsRun(glue, items[n..], i - n, j - n) && items[n..][i - n..j - n] == items[i..j]
  {
    RunOfRest(glue, items, n, i - n, j - n);
  }

  /** The chains are exactly the slices that are glued inside and continue on neither side. */
  lemma ChainsAreRuns(glue: Glue, items: seq<Block>, run: seq<Block>)
    ensures run in Chains(glue, items) <==> IsRunOf(glue, items, run)
  {
    if run in Chains(glue, items) { ChainIsRun(glue, items, run); }
    if i: nat, j: nat :| IsRun(glue, items, i, j) && run == items[i..j] {
      RunIsListed(glue, items, i, j);
    }
  }

  // ----- The loop

  /** The series of a list of chains: those with two or more members. */
  function SeriesOfChains(docId: string, chains: seq<seq<Block>>): seq<Series> {
    if chains == [] then []
    else Keep(docId, chains[0]) + SeriesOfChains(docId, chains[1..])
  }

  /** Extends the chain that starts at i as far as the glue carries. */
  method GrowChain(glue: Glue, items: seq<Block>, i: nat) returns (chain: seq<Block>, j: nat)
    requires i < |items|
    ensures i <= j < |items| && |chain| == j + 1 - i && chain == items[i..j + 1]
    ensures RunLength(glue, items[i..]) == |chain|
  {
    chain, j := [items[i]], i;
    while j + 1 < |items| && glue(items[j], items[j + 1])
      invariant i <= j < |items|
      invariant chain == items[i..j + 1]
      invariant RunLength(glue, items[i..]) == j - i + RunLength(glue, items[j..])
    {
      RunStep(glue, items, j);
      chain := chain + [items[j + 1]];
      j := j + 1;
    }
    RunStops(glue, items, j);
  }

  /** The series of the blocks from position i on. */
  function SeriesFrom(glue: Glue, docId: string, items: seq<Block>, i: nat): seq<Series>
    requires i <= |items|
  {
    SeriesOfChains(docId, Chains(glue, items[i..]))
  }

  function Keep(docId: string, chain: seq<Block>): seq<Series> {
    if |chain| >= 2 then [SeriesOf(docId, chain)] else []
  }

  /** Adds the series of a chain of two or more; a singleton is dropped. */
  method Emit(docId: string, chain: seq<Block>, series0: seq<Series>) returns (series: seq<Series>)
    ensures series == series0 + Keep(docId, chain)
  {
    series := series0;
    if |chain| >= 2 { series := series + [SeriesOf(docId, chain)]; } else { PlusEmpty(series); }
  }

  /** Walks the blocks: grow a chain, emit it, go on behind it (behind the block
      itself when the chain is a singleton). */
  method FindSeries(glue: Glue, docId: string, items: seq<Block>) returns (series: seq<Series>)
    ensures series == SeriesOfChains(docId, Chains(glue, items))
  {
    series := [];
    var i := 0;
    ghost var all := SeriesFrom(glue, docId, items, 0);
    assert items[0..] == items;
    while i < |items|
      invariant 0 <= i <= |items|
      invariant series + SeriesFrom(glue, docId, items, i) == all
    {
      var chain, j := GrowChain(glue, items, i);
      AddRun(glue, docId, items, i, j + 1, chain, series);
      series := Emit(docId, chain, series);
      i := j + 1;
    }
    assert items[i..] == [];
    PlusEmpty(series);
  }

  lemma AddRun(
    glue: Glue, docId: string, items: seq<Block>, i: nat, k: nat, chain: seq<Block>, series: seq<Series>)
    requires i < k <= |items| && RunLength(glue, items[i..]) == k - i && chain == items[i..k]
    ensures series + SeriesFrom(glue, docId, items, i) ==
            (series + Keep(docId, chain)) + SeriesFrom(glue, docId, items, k)
  {
    ChainsStep(glue, docId, items, i, k);
    ConcatAssociative(series, Keep(docId, chain), SeriesFrom(glue, docId, items, k));
  }

  lemma ConcatAssociative<T>(a: seq<T>, b: seq<T>, c: seq<T>)
    ensures a + (b + c) == (a + b) + c
  {
  }

  lemma RunStep(glue: Glue, items: seq<Block>, j: nat)
    requires j + 1 < |items| && glue(items[j], items[j + 1])
    ensures RunLength(glue, items[j..]) == 1 + RunLength(glue, items[j + 1..])
  {
    assert items[j..][1..] == items[j + 1..];
  }

  lemma RunStops(glue: Glue, items: seq<Block>, j: nat)
    requires j < |items| && (j + 1 < |items| ==> !glue(items[j], items[j + 1]))
    ensures RunLength(glue, items[j..]) == 1
  {
  }

  lemma ChainsStep(glue: Glue, docId: string, items: seq<Block>, i: nat, k: nat)
    requires i < k <= |items| && RunLength(glue, items[i..]) == k - i
    ensures SeriesFrom(glue, docId, items, i) == Keep(docId, items[i..k]) + SeriesFrom(glue, docId, items, k)
  {
    assert items[i..][..k - i] == items[i..k] && items[i..][k - i..] == items[k..];
    var rest := Chains(glue, items[k..]);
    assert ([items[i..k]] + rest)[1..] == rest;
  }

  /** Whatever way a list is cut into maximal runs, the emitted series are exactly
      those of the runs with two or more members, each with the summed byte length. */
  lemma {:induction false} SeriesAreLongRuns(docId: string, parts: seq<seq<Block>>, s: Series)
    ensures s in SeriesOfChains(docId, parts) <==>
            exists part :: part in parts && |part| >= 2 && s == SeriesOf(docId, part)
  {
    if parts != [] {
      var rest := parts[1..];
      assert parts == [parts[0]] + rest;
      SeriesAreLongRuns(docId, rest, s);
      if part :| part in parts && |part| >= 2 && s == SeriesOf(docId, part) {
        assert part == parts[0] || part in rest;
      }
    }
  }

  /** Of decoded blocks every series is as long as its run. */
  lemma SeriesLengthsAdd(docId: string, parts: seq<seq<Block>>, s: Series)
    requires s in SeriesOfChains(docId, parts) && forall part, b | part in parts && b in part :: Decoded(b)
    ensures exists part :: part in parts && |part| >= 2 && s == SeriesOf(docId, part) && s.joinedByteLen == Sum(ByteLen(), part)
  {
    SeriesAreLongRuns(docId, parts, s);
    var part :| part in parts && |part| >= 2 && s == SeriesOf(docId, part);
    JoinedByteLength(part);
  }

  // ----- All documents

  /** The blocks of one document, in manifest order. */
  function OfDocument(rows: seq<Block>, docId: string): seq<Block> {
    if rows == [] then []
    else OfDocument(rows[..|rows| - 1], docId) + if rows[|rows| - 1].docId == docId then [rows[|rows| - 1]] else []
  }

  /** Document ids in the order of their first block. */
  function DocumentIds(rows: seq<Block>): seq<string> {
    if rows == [] then []
    else
      var ids := DocumentIds(rows[..|rows| - 1]);
      if rows[|rows| - 1].docId in ids then ids else ids + [rows[|rows| - 1].docId]
  }

  /** Insertion by block index; equal indices keep their order. */
  function InsertByIndex(b: Block, s: seq<Block>): seq<Block> {
    if s == [] || b.index <= s[0].index then [b] + s else [s[0]] + InsertByIndex(b, s[1..])
  }

  function SortByIndex(s: seq<Block>): seq<Block> {
    if s == [] then [] else InsertByIndex(s[0], SortByIndex(s[1..]))
  }

  lemma {:induction false} InsertByIndexMultiset(b: Block, s: seq<Block>)
    ensures multiset(InsertByIndex(b, s)) == multiset(s) + multiset{b}
  {
    if s != [] && b.index > s[0].index {
      InsertByIndexMultiset(b, s[1..]);
      assert s == [s[0]] + s[1..];
    }
  }

  lemma {:induction false} SortByIndexMultiset(s: seq<Block>)
    ensures multiset(SortByIndex(s)) == multiset(s)
  {
    if s != [] {
      SortByIndexMultiset(s[1..]);
      InsertByIndexMultiset(s[0], SortByIndex(s[1..]));
      assert s == [s[0]] + s[1..];
    }
  }

  predicate Ascending(s: seq<Block>) { forall i, j | 0 <= i < j < |s| :: s[i].index <= s[j].index }

  /** The blocks with one index, in their order. */
  function WithIndex(s: seq<Block>, k: int): seq<Block> {
    if s == [] then [] else (if s[0].index == k then [s[0]] else []) + WithIndex(s[1..], k)
  }

  lemma InsertedMember(b: Block, s: seq<Block>, x: Block)
    requires x in InsertByIndex(b, s)
    ensures x == b || x in s
  {
    InsertByIndexMultiset(b, s);
    assert x in multiset(InsertByIndex(b, s));
  }

  lemma {:induction false} InsertByIndexAscends(b: Block, s: seq<Block>)
    requires Ascending(s)
    ensures Ascending(InsertByIndex(b, s))
  {
    if s != [] && b.index > s[0].index {
      var rest := InsertByIndex(b, s[1..]);
      InsertByIndexAscends(b, s[1..]);
      forall x | x in rest ensures s[0].index <= x.index { InsertedMember(b, s[1..], x); }
    }
  }

  lemma {:induction false} InsertByIndexIsStable(b: Block, s: seq<Block>, k: int)
    ensures WithIndex(InsertByIndex(b, s), k) == WithIndex([b] + s, k)
  {
    assert ([b] + s)[1..] == s;
    if s != [] && b.index > s[0].index {
      InsertByIndexIsStable(b, s[1..], k);
      assert ([b] + s[1..])[1..] == s[1..];
      assert ([s[0]] + InsertByIndex(b, s[1..]))[1..] == InsertByIndex(b, s[1..]);
    }
  }

  /** Sorting gives the blocks in ascending order, equal indices in their old order. */
  lemma {:induction false} SortByIndexSorts(s: seq<Block>)
    ensures Ascending(SortByIndex(s))
    ensures forall k :: WithIndex(SortByIndex(s), k) == WithIndex(s, k)
  {
    if s != [] {
      var rest := SortByIndex(s[1..]);
      SortByIndexSorts(s[1..]);
      InsertByIndexAscends(s[0], rest);
      forall k ensures WithIndex(SortByIndex(s), k) == WithIndex(s, k) {
        InsertByIndexIsStable(s[0], rest, k);
        assert ([s[0]] + rest)[1..] == rest;
      }
    }
  }

  lemma {:induction false} WithIndexMembers(s: seq<Block>, b: Block)
    ensures b in s <==> b in WithIndex(s, b.index)
    ensures forall k | k != b.index :: b !in WithIndex(s, k)
  {
    if s != [] {
      WithIndexMembers(s[1..], b);
      assert b in s <==> b == s[0] || b in s[1..];
    }
  }

  lemma SmallestFirst(s: seq<Block>, t: seq<Block>)
    requires Ascending(s) && Ascending(t) && s != [] && forall k :: WithIndex(s, k) == WithIndex(t, k)
    ensures t != [] && s[0] == t[0]
  {
    WithIndexMembers(s, s[0]);
    WithIndexMembers(t, s[0]);
    assert s[0] in t;
    WithIndexMembers(s, t[0]);
    WithIndexMembers(t, t[0]);
    assert t[0] in s;
    assert s[0].index == t[0].index;
    assert WithIndex(s, s[0].index)[0] == s[0] && WithIndex(t, s[0].index)[0] == t[0];
  }

  /** There is only one such arrangement. */
  lemma {:induction false} StableOrderIsUnique(s: seq<Block>, t: seq<Block>)
    requires Ascending(s) && Ascending(t) && forall k :: WithIndex(s, k) == WithIndex(t, k)
    ensures s == t
  {
    if s != [] {
      SmallestFirst(s, t);
      forall k ensures WithIndex(s[1..], k) == WithIndex(t[1..], k) {
        assert WithIndex(s, k) == WithIndex(t, k);
        if s[0].index == k {
          assert WithIndex(s, k)[1..] == WithIndex(s[1..], k) && WithIndex(t, k)[1..] == WithIndex(t[1..], k);
        } else {
          assert WithIndex(s, k) == WithIndex(s[1..], k) && WithIndex(t, k) == WithIndex(t[1..], k);
        }
      }
      StableOrderIsUnique(s[1..], t[1..]);
      assert s == [s[0]] + s[1..] && t == [t[0]] + t[1..];
    } else if t != [] {
      SmallestFirst(t, s);
    }
  }

  function DocumentSeries(lex: Lexicon, rows: seq<Block>, docId: string): seq<Series> {
    SeriesOfChains(docId, Chains(GlueOf(lex), SortByIndex(OfDocument(rows, docId))))
  }

  function AllSeries(lex: Lexicon, rows: seq<Block>, docIds: seq<string>): seq<Series> {
    if docIds == [] then []
    else AllSeries(lex, rows, docIds[..|docIds| - 1]) + DocumentSeries(lex, rows, docIds[|docIds| - 1])
  }

  /** The blocks under each document id, and the ids in order of appearance. */
  method GroupByDocument(rows: seq<Block>) returns (docIds: seq<string>, byDoc: map<string, seq<Block>>)
    ensures docIds == DocumentIds(rows)
    ensures forall d | d in docIds :: d in byDoc && byDoc[d] == OfDocument(rows, d)
  {
    docIds, byDoc := [], map[];
    for i := 0 to |rows|
      invariant docIds == DocumentIds(rows[..i])
      invariant byDoc.Keys == set d | d in docIds
      invariant forall d | d in docIds :: byDoc[d] == OfDocument(rows[..i], d)
      invariant forall d | d !in docIds :: OfDocument(rows[..i], d) == []
    {
      PrefixStep(rows, i);
      var d := rows[i].docId;
      if d in byDoc {
        byDoc := byDoc[d := byDoc[d] + [rows[i]]];
      } else {
        docIds := docIds + [d];
        byDoc := byDoc[d := [rows[i]]];
      }
    }
    assert rows[..|rows|] == rows;
  }

  // ----- What the diagnosis finds

  /** The blocks of a document by index. */
  function Sorted(rows: seq<Block>, docId: string): seq<Block> { SortByIndex(OfDocument(rows, docId)) }

  /** The series is a run of two or more among the blocks of a document by index. */
  ghost predicate FromRun(lex: Lexicon, rows: seq<Block>, docId: string, s: Series) {
    exists i: nat, j: nat ::
      IsRun(GlueOf(lex), Sorted(rows, docId), i, j) && j - i >= 2 && s == SeriesOf(docId, Sorted(rows, docId)[i..j])
  }

  lemma SeriesIsRun(glue: Glue, docId: string, items: seq<Block>, s: Series) returns (i: nat, j: nat)
    requires s in SeriesOfChains(docId, Chains(glue, items))
    ensures IsRun(glue, items, i, j) && j - i >= 2 && s == SeriesOf(docId, items[i..j])
  {
    var run := LongChain(docId, Chains(glue, items), s);
    ChainIsRun(glue, items, run);
    i, j := RunBounds(glue, items, run);
  }

  lemma LongChain(docId: string, chains: seq<seq<Block>>, s: Series) returns (run: seq<Block>)
    requires s in SeriesOfChains(docId, chains)
    ensures run in chains && |run| >= 2 && s == SeriesOf(docId, run)
  {
    SeriesAreLongRuns(docId, chains, s);
    run :| run in chains && |run| >= 2 && s == SeriesOf(docId, run);
  }

  lemma RunBounds(glue: Glue, items: seq<Block>, run: seq<Block>) returns (i: nat, j: nat)
    requires IsRunOf(glue, items, run)
    ensures IsRun(glue, items, i, j) && run == items[i..j] && |run| == j - i
  {
    i, j :| IsRun(glue, items, i, j) && run == items[i..j];
  }

  lemma RunIsSeries(glue: Glue, docId: string, items: seq<Block>, i: nat, j: nat)
    requires IsRun(glue, items, i, j) && j - i >= 2
    ensures SeriesOf(docId, items[i..j]) in SeriesOfChains(docId, Chains(glue, items))
  {
    RunIsListed(glue, items, i, j);
    SeriesAreLongRuns(docId, Chains(glue, items), SeriesOf(docId, items[i..j]));
  }

  lemma DocumentSeriesIff(lex: Lexicon, rows: seq<Block>, docId: string, s: Series)
    ensures s in DocumentSeries(lex, rows, docId) <==> FromRun(lex, rows, docId, s)
  {
    if s in DocumentSeries(lex, rows, docId) {
      var i, j := SeriesIsRun(GlueOf(lex), docId, Sorted(rows, docId), s);
    }
    if i: nat, j: nat :|
      IsRun(GlueOf(lex), Sorted(rows, docId), i, j) && j - i >= 2 && s == SeriesOf(docId, Sorted(rows, docId)[i..j])
    {
      RunIsSeries(GlueOf(lex), docId, Sorted(rows, docId), i, j);
    }
  }

  lemma {:induction false} AllSeriesIff(lex: Lexicon, rows: seq<Block>, docIds: seq<string>, s: Series)
    ensures s in AllSeries(lex, rows, docIds) <==> exists d :: d in docIds && s in DocumentSeries(lex, rows, d)
  {
    if docIds != [] {
      var front, last := docIds[..|docIds| - 1], docIds[|docIds| - 1];
      AllSeriesIff(lex, rows, front, s);
      InConcat(AllSeries(lex, rows, front), DocumentSeries(lex, rows, last), s);
      LastSplit(docIds);
      assert forall d :: d in docIds <==> d in front || d == last by { assert docIds == front + [last]; }
    }
  }

  lemma {:induction false} DocumentListed(rows: seq<Block>, docId: string)
    ensures docId !in DocumentIds(rows) ==> OfDocument(rows, docId) == []
  {
    if rows != [] { DocumentListed(rows[..|rows| - 1], docId); }
  }

  /** The diagnosis emits a series if and only if some document has, among its blocks
      in ascending order, a run of two or more that is glued inside and continues on
      neither side, and the series describes that run. */
  lemma DiagnosedSeriesIff(lex: Lexicon, rows: seq<Block>, s: Series)
    ensures s in AllSeries(lex, rows, DocumentIds(rows)) <==> exists d :: FromRun(lex, rows, d, s)
  {
    AllSeriesIff(lex, rows, DocumentIds(rows), s);
    if d :| d in DocumentIds(rows) && s in DocumentSeries(lex, rows, d) {
      DocumentSeriesIff(lex, rows, d, s);
    }
    if d :| FromRun(lex, rows, d, s) {
      DocumentSeriesIff(lex, rows, d, s);
      DocumentListed(rows, d);
    }
  }

  method Diagnose(lex: Lexicon, rows: seq<Block>) returns (series: seq<Series>)
    ensures series == AllSeries(lex, rows, DocumentIds(rows))
    ensures forall s :: s in series <==> exists d :: FromRun(lex, rows, d, s)
  {
    var docIds, byDoc := GroupByDocument(rows);
    series := [];
    for i := 0 to |docIds|
      invariant series == AllSeries(lex, rows, docIds[..i])
    {
      PrefixStep(docIds, i);
      assert docIds[i] in docIds;
      var found := FindSeries(GlueOf(lex), docIds[i], SortByIndex(byDoc[docIds[i]]));
      series := series + found;
    }
    assert docIds[..|docIds|] == docIds;
    forall s ensures s in series <==> exists d :: FromRun(lex, rows, d, s) { DiagnosedSeriesIff(lex, rows, s); }
  }

  // ----- Series are disjoint

  /** All fragment ids named by a list of series. */
  function Members(series: seq<Series>): seq<string> {
    if series == [] then [] else series[0].fragmentIds + Members(series[1..])
  }

  lemma {:induction false} MembersConcat(s: seq<Series>, t: seq<Series>)
    ensures Members(s + t) == Members(s) + Members(t)
  {
    if s == [] {
      assert s + t == t;
    } else {
      assert (s + t)[1..] == s[1..] + t;
      MembersConcat(s[1..], t);
    }
  }

  lemma {:induction false} SeriesMembers(docId: string, chains: seq<seq<Block>>)
    ensures multiset(Members(SeriesOfChains(docId, chains))) <= multiset(Map(FragmentId(), Flatten(chains)))
  {
    if chains != [] {
      SeriesMembers(docId, chains[1..]);
      MapConcat(FragmentId(), chains[0], Flatten(chains[1..]));
      var head := Keep(docId, chains[0]);
      MembersConcat(head, SeriesOfChains(docId, chains[1..]));
      if head != [] { assert head[1..] == [] && Members(head) == Map(FragmentId(), chains[0]); }
    }
  }

  lemma {:induction false} OfDocumentCount(rows: seq<Block>, docId: string, b: Block)
    ensures multiset(OfDocument(rows, docId))[b] == if b.docId == docId then multiset(rows)[b] else 0
  {
    if rows != [] {
      LastSplit(rows);
      OfDocumentCount(rows[..|rows| - 1], docId, b);
    }
  }

  /** The blocks of the given documents. */
  function OfDocuments(rows: seq<Block>, docIds: seq<string>): seq<Block> {
    if docIds == [] then []
    else OfDocuments(rows, docIds[..|docIds| - 1]) + OfDocument(rows, docIds[|docIds| - 1])
  }

  lemma {:induction false} OfDocumentsCount(rows: seq<Block>, docIds: seq<string>, b: Block)
    requires Distinct(docIds)
    ensures multiset(OfDocuments(rows, docIds))[b] == if b.docId in docIds then multiset(rows)[b] else 0
  {
    if docIds != [] {
      var front, last := docIds[..|docIds| - 1], docIds[|docIds| - 1];
      LastIsNew(docIds, b.docId);
      OfDocumentsCount(rows, front, b);
      OfDocumentCount(rows, last, b);
      ConcatCount(OfDocuments(rows, front), OfDocument(rows, last), b);
    }
  }

  lemma LastIsNew(ids: seq<string>, id: string)
    requires Distinct(ids) && ids != []
    ensures Distinct(ids[..|ids| - 1]) && ids[|ids| - 1] !in ids[..|ids| - 1]
    ensures id in ids <==> id in ids[..|ids| - 1] || id == ids[|ids| - 1]
  {
    LastSplit(ids);
    assert id in ids <==> id in ids[..|ids| - 1] + [ids[|ids| - 1]];
  }

  lemma ConcatCount<T>(s: seq<T>, t: seq<T>, x: T)
    ensures multiset(s + t)[x] == multiset(s)[x] + multiset(t)[x]
  {
  }

  lemma {:induction false} DocumentIdsDistinct(rows: seq<Block>)
    ensures Distinct(DocumentIds(rows))
  {
    if rows != [] { DocumentIdsDistinct(rows[..|rows| - 1]); }
  }

  lemma {:induction false} AllSeriesMembers(lex: Lexicon, rows: seq<Block>, docIds: seq<string>)
    ensures multiset(Members(AllSeries(lex, rows, docIds))) <= multiset(Map(FragmentId(), OfDocuments(rows, docIds)))
  {
    if docIds != [] {
      var front, last := docIds[..|docIds| - 1], docIds[|docIds| - 1];
      AllSeriesMembers(lex, rows, front);
      MembersConcat(AllSeries(lex, rows, front), DocumentSeries(lex, rows, last));
      var items := SortByIndex(OfDocument(rows, last));
      SeriesMembers(last, Chains(GlueOf(lex), items));
      ChainsAreMaximalRuns(GlueOf(lex), items);
      SortByIndexMultiset(OfDocument(rows, last));
      MapMultiset(FragmentId(), items, OfDocument(rows, last));
      MapConcat(FragmentId(), OfDocuments(rows, front), OfDocument(rows, last));
    }
  }

  lemma SubMapDistinct<A, B>(f: A -> B, part: seq<A>, all: seq<A>)
    requires multiset(part) <= multiset(all) && Distinct(Map(f, all))
    ensures Distinct(Map(f, part))
  {
    assert Distinct(all) by {
      forall i, j | 0 <= i < j < |all| ensures all[i] != all[j] { assert Map(f, all)[i] != Map(f, all)[j]; }
    }
    DistinctCounts(all);
    DistinctCounts(part);
    forall x | x in part ensures multiset(part)[x] == 1 {
      assert x in multiset(part) && x in multiset(all) && x in all;
    }
    forall i, j | 0 <= i < j < |part| ensures Map(f, part)[i] != Map(f, part)[j] {
      assert part[i] in multiset(all) && part[j] in multiset(all) && part[i] != part[j];
      var a :| 0 <= a < |all| && all[a] == part[i];
      var b :| 0 <= b < |all| && all[b] == part[j];
      assert Map(f, all)[a] != Map(f, all)[b];
    }
  }

  lemma SubDistinct<T>(part: seq<T>, all: seq<T>)
    requires multiset(part) <= multiset(all) && Distinct(all)
    ensures Distinct(part)
  {
    DistinctCounts(all);
    DistinctCounts(part);
    forall x | x in part ensures multiset(part)[x] == 1 {
      assert x in multiset(part) && x in multiset(all) && x in all;
    }
  }

  /** With unique fragment ids, no fragment is named twice by the diagnosed series:
      neither in two of them nor twice in one. */
  lemma SeriesAreDisjoint(lex: Lexicon, rows: seq<Block>)
    requires Distinct(Map(FragmentId(), rows))
    ensures Distinct(Members(AllSeries(lex, rows, DocumentIds(rows))))
  {
    var docIds := DocumentIds(rows);
    DocumentIdsDistinct(rows);
    forall b ensures multiset(OfDocuments(rows, docIds))[b] <= multiset(rows)[b] { OfDocumentsCount(rows, docIds, b); }
    SubMapDistinct(FragmentId(), OfDocuments(rows, docIds), rows);
    AllSeriesMembers(lex, rows, docIds);
    SubDistinct(Members(AllSeries(lex, rows, docIds)), Map(FragmentId(), OfDocuments(rows, docIds)));
  }

  /** What every diagnosed series looks like. */
  predicate WellMadeSeries(s: Series) {
    && |s.fragmentIds| == |s.blockIndices| == s.memberCount >= 2
    && !s.crossBlockTextAnchor
  }

  lemma {:induction false} SeriesWellMade(docId: string, chains: seq<seq<Block>>)
    ensures forall s | s in SeriesOfChains(docId, chains) :: WellMadeSeries(s)
  {
    if chains != [] { SeriesWellMade(docId, chains[1..]); }
  }

  lemma {:induction false} AllSeriesWellMade(lex: Lexicon, rows: seq<Block>, docIds: seq<string>)
    ensures forall s | s in AllSeries(lex, rows, docIds) :: WellMadeSeries(s)
  {
    if docIds != [] {
      var front, last := docIds[..|docIds| - 1], docIds[|docIds| - 1];
      AllSeriesWellMade(lex, rows, front);
      SeriesWellMade(last, Chains(GlueOf(lex), SortByIndex(OfDocument(rows, last))));
    }
  }
}
