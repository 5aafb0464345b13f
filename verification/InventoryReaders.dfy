/** The three readers of the diagnostics JSONL, one per evidence slice, and what
    acceptance by one says about acceptance by another. */
module InventoryReaders {
  import opened Sequences

  /** The value under "inventory_digest". Only null, text and truthiness are told apart. */
  datatype Value = Null | Text(text: string) | Other(truthy: bool)

  /** One line as the readers see it: whitespace only, not JSON, JSON but not an
      object, or an object with or without an inventory digest. */
  datatype Line = Blank | NotJson | NotObject | Record(digest: Option<Value>)

  function NonBlank(): Line -> nat { (l: Line) => if l.Blank? then 0 else 1 }

  /** The number of records a reader reports. */
  function RecordCount(lines: seq<Line>): nat { Sum(NonBlank(), lines) }

  predicate Carries(l: Line) { l.Record? && l.digest.Some? }

  function CarriesOne(): Line -> nat { (l: Line) => if Carries(l) then 1 else 0 }

  predicate Truthy(v: Value) {
    match v case Null => false case Text(t) => t != "" case Other(b) => b
  }

  predicate ReadableLine(l: Line) { l.Blank? || l.Record? }

  /** The first value some test accepts, in reading order. */
  function First(accepts: Value -> bool, lines: seq<Line>): Option<Value> {
    if lines == [] then None
    else
      var earlier := First(accepts, lines[..|lines| - 1]);
      var last := lines[|lines| - 1];
      if earlier.Some? then earlier
      else if Carries(last) && accepts(last.digest.value) then last.digest
      else None
  }

  function SolidText(): Value -> bool { (v: Value) => v.Text? && v.text != "" }
  function AnyText(): Value -> bool { (v: Value) => v.Text? }
  function TruthyValue(): Value -> bool { (v: Value) => Truthy(v) }

  lemma {:induction false} FirstIsCarried(accepts: Value -> bool, lines: seq<Line>)
    ensures First(accepts, lines).Some? <==> exists l :: l in lines && Carries(l) && accepts(l.digest.value)
    ensures First(accepts, lines).Some? ==> accepts(First(accepts, lines).value)
                                            && Record(First(accepts, lines)) in lines
  {
    if lines != [] {
      LastSplit(lines);
      FirstIsCarried(accepts, lines[..|lines| - 1]);
      assert forall l :: l in lines <==> l in lines[..|lines| - 1] || l == lines[|lines| - 1] by {
        assert lines == lines[..|lines| - 1] + [lines[|lines| - 1]];
      }
      if Carries(lines[|lines| - 1]) { assert lines[|lines| - 1] == Record(lines[|lines| - 1].digest); }
    }
  }

  /** The reported value is the first in the file that the test accepts. */
  lemma {:induction false} FirstIsFirst(accepts: Value -> bool, lines: seq<Line>, k: nat)
    requires k < |lines| && Carries(lines[k]) && accepts(lines[k].digest.value)
    requires forall j | 0 <= j < k :: !(Carries(lines[j]) && accepts(lines[j].digest.value))
    ensures First(accepts, lines) == lines[k].digest
  {
    var front := lines[..|lines| - 1];
    if k < |front| {
      FirstIsFirst(accepts, front, k);
    } else {
      FirstIsCarried(accepts, front);
      forall l | l in front ensures !(Carries(l) && accepts(l.digest.value)) {
        var j :| 0 <= j < |front| && front[j] == l;
        assert lines[j] == l;
      }
    }
  }

  /** The reported count is the number of lines that are not blank, JSON or not. */
  lemma {:induction false} CountMeans(lines: seq<Line>)
    ensures RecordCount(lines) == |set i | 0 <= i < |lines| && !lines[i].Blank?|
  {
    if lines != [] {
      var n := |lines| - 1;
      CountMeans(lines[..n]);
      var now, before := set i | 0 <= i < |lines| && !lines[i].Blank?, set i | 0 <= i < |lines[..n]| && !lines[..n][i].Blank?;
      assert now == if lines[n].Blank? then before else before + {n};
    }
  }

  // ----- S23: digests may be missing, those present agree

  predicate S23Line(l: Line, digest: Option<Value>) {
    ReadableLine(l) && (Carries(l) ==> SolidText()(l.digest.value) && digest == l.digest)
  }

  predicate AllFit(lines: seq<Line>, digest: Option<Value>) {
    forall l | l in lines :: S23Line(l, digest)
  }

  predicate S23Accepts(lines: seq<Line>) {
    First(SolidText(), lines).Some? && AllFit(lines, First(SolidText(), lines))
  }

  lemma S23Step(lines: seq<Line>, i: nat)
    requires i < |lines|
    ensures AllFit(lines[..i + 1], First(SolidText(), lines[..i + 1]))
            <==> AllFit(lines[..i], First(SolidText(), lines[..i])) && S23Line(lines[i], First(SolidText(), lines[..i + 1]))
  {
    var before, after := First(SolidText(), lines[..i]), First(SolidText(), lines[..i + 1]);
    PrefixStep(lines, i);
    assert forall l :: l in lines[..i + 1] <==> l in lines[..i] || l == lines[i];
    FirstIsCarried(SolidText(), lines[..i]);
    if before.None? {
      forall l | l in lines[..i] ensures S23Line(l, before) <==> S23Line(l, after) {
        assert Carries(l) ==> !SolidText()(l.digest.value);
      }
    }
  }

  method ReadS23(file: Option<seq<Line>>) returns (digest: Option<string>, valid: bool, count: nat)
    ensures file.None? ==> digest == None && !valid && count == 0
    ensures file.Some? ==> count == RecordCount(file.value)
    ensures file.Some? ==> valid == S23Accepts(file.value)
    ensures file.Some? ==> First(SolidText(), file.value)
                           == if digest.Some? then Some(Text(digest.value)) else None
  {
    if file.None? { return None, false, 0; }
    var lines := file.value;
    digest, valid, count := None, true, 0;
    for i := 0 to |lines|
      invariant count == RecordCount(lines[..i])
      invariant First(SolidText(), lines[..i]) == if digest.Some? then Some(Text(digest.value)) else None
      invariant valid <==> AllFit(lines[..i], First(SolidText(), lines[..i]))
      invariant count == 0 ==> digest.None?
    {
      PrefixStep(lines, i);
      SumStep(NonBlank(), lines, i);
      S23Step(lines, i);
      match lines[i]
      case Blank =>
      case NotJson => count, valid := count + 1, false;
      case NotObject => count, valid := count + 1, false;
      case Record(found) =>
        count := count + 1;
        if found.Some? {
          var candidate := found.value;
          if !candidate.Text? || candidate.text == "" {
            valid := false;
          } else if digest.None? {
            digest := Some(candidate.text);
          } else if candidate.text != digest.value {
            valid := false;
          }
        }
    }
    assert lines[..|lines|] == lines;
    valid := valid && count > 0 && digest.Some?;
  }

  /** Acceptance without the reading order: some digest is carried, and every
      line is blank or a record that carries it or none. */
  lemma S23AcceptsIff(lines: seq<Line>)
    ensures S23Accepts(lines) <==>
            exists d :: d != "" && Record(Some(Text(d))) in lines && AllFit(lines, Some(Text(d)))
    ensures forall d | d != "" && Record(Some(Text(d))) in lines && AllFit(lines, Some(Text(d))) ::
              First(SolidText(), lines) == Some(Text(d))
  {
    FirstIsCarried(SolidText(), lines);
    var first := First(SolidText(), lines);
    if S23Accepts(lines) { assert first.value == Text(first.value.text); }
    forall d | d != "" && Record(Some(Text(d))) in lines && AllFit(lines, Some(Text(d)))
      ensures first == Some(Text(d))
    {
      assert Carries(Record(Some(Text(d)))) && SolidText()(Text(d));
      assert S23Line(Record(first), Some(Text(d)));
    }
  }

  /** The order of the lines does not matter to S23: not to the verdict, not to
      the count and, for an accepted file, not to the digest. */
  lemma S23IgnoresOrder(lines: seq<Line>, other: seq<Line>)
    requires multiset(lines) == multiset(other)
    ensures RecordCount(lines) == RecordCount(other)
    ensures S23Accepts(lines) <==> S23Accepts(other)
    ensures S23Accepts(lines) ==> First(SolidText(), lines) == First(SolidText(), other)
  {
    SumPermutation(NonBlank(), lines, other);
    assert forall l :: l in lines <==> l in multiset(lines);
    assert forall l :: l in other <==> l in multiset(other);
    S23AcceptsIff(lines);
    S23AcceptsIff(other);
  }

  // ----- S10: a second digest is rejected

  predicate Present(l: Line) { Carries(l) && l.digest.value != Null }

  /** Once a text digest was read, no later record may carry anything but null. */
  predicate S10Accepts(lines: seq<Line>) {
    && RecordCount(lines) > 0 && (forall l | l in lines :: ReadableLine(l))
    && (forall i, j | 0 <= i < j < |lines| :: Carries(lines[i]) && lines[i].digest.value.Text? ==> !Present(lines[j]))
  }

  method ReadS10(file: Option<seq<Line>>) returns (digest: Option<string>, valid: bool, count: nat)
    ensures file.None? ==> digest == None && !valid && count == 0
    ensures file.Some? ==> count == RecordCount(file.value)
    ensures file.Some? ==> valid == S10Accepts(file.value)
    ensures file.Some? ==> First(AnyText(), file.value)
                           == if digest.Some? then Some(Text(digest.value)) else None
  {
    if file.None? { return None, false, 0; }
    var lines := file.value;
    digest, valid, count := None, true, 0;
    for i := 0 to |lines|
      invariant count == RecordCount(lines[..i])
      invariant First(AnyText(), lines[..i]) == if digest.Some? then Some(Text(digest.value)) else None
      invariant digest.Some? <==> exists k :: 0 <= k < i && Carries(lines[k]) && lines[k].digest.value.Text?
      invariant valid <==>
                && (forall k | 0 <= k < i :: ReadableLine(lines[k]))
                && (forall k, j | 0 <= k < j < i :: Carries(lines[k]) && lines[k].digest.value.Text? ==> !Present(lines[j]))
    {
      PrefixStep(lines, i);
      SumStep(NonBlank(), lines, i);
      match lines[i]
      case Blank =>
      case NotJson => count, valid := count + 1, false;
      case NotObject => count, valid := count + 1, false;
      case Record(found) =>
        count := count + 1;
        if found.Some? && found.value != Null {
          if !found.value.Text? || digest.Some? {
            if digest.Some? { valid := false; }
          } else {
            digest := Some(found.value.text);
          }
        }
    }
    assert lines[..|lines|] == lines;
    valid := valid && count > 0;
  }

  // ----- S07: the first truthy digest, of any type

  predicate S07Accepts(lines: seq<Line>) {
    RecordCount(lines) > 0 && forall l | l in lines :: ReadableLine(l)
  }

  method ReadS07(file: Option<seq<Line>>) returns (digest: Option<Value>, valid: bool, count: nat)
    ensures file.None? ==> digest == None && !valid && count == 0
    ensures file.Some? ==> count == RecordCount(file.value)
    ensures file.Some? ==> valid == S07Accepts(file.value)
    ensures file.Some? ==> digest == First(TruthyValue(), file.value)
  {
    if file.None? { return None, false, 0; }
    var lines := file.value;
    digest, valid, count := None, true, 0;
    for i := 0 to |lines|
      invariant count == RecordCount(lines[..i])
      invariant digest == First(TruthyValue(), lines[..i])
      invariant valid <==> forall k | 0 <= k < i :: ReadableLine(lines[k])
    {
      PrefixStep(lines, i);
      SumStep(NonBlank(), lines, i);
      match lines[i]
      case Blank =>
      case NotJson => count, valid := count + 1, false;
      case NotObject => count, valid := count + 1, false;
      case Record(found) =>
        count := count + 1;
        if found.Some? && Truthy(found.value) && digest.None? { digest := found; }
    }
    assert lines[..|lines|] == lines;
    valid := valid && count > 0;
  }

  // ----- The readers compared

  lemma {:induction false} CarriedIsCounted(lines: seq<Line>, l: Line)
    requires l in lines && !l.Blank?
    ensures RecordCount(lines) > 0
  {
    LastSplit(lines);
    if l != lines[|lines| - 1] {
      assert l in lines[..|lines| - 1] by { assert lines == lines[..|lines| - 1] + [lines[|lines| - 1]]; }
      CarriedIsCounted(lines[..|lines| - 1], l);
    }
  }

  /** What S23 accepts, S07 accepts with the same digest. */
  lemma S23ImpliesS07(lines: seq<Line>)
    requires S23Accepts(lines)
    ensures S07Accepts(lines) && First(TruthyValue(), lines) == First(SolidText(), lines)
  {
    FirstIsCarried(SolidText(), lines);
    FirstIsCarried(TruthyValue(), lines);
    var first := Record(First(SolidText(), lines));
    CarriedIsCounted(lines, first);
    assert Carries(first) && TruthyValue()(first.digest.value);
    assert S23Line(Record(First(TruthyValue(), lines)), First(SolidText(), lines));
  }

  predicate NoneFlagged(f: Line -> nat, lines: seq<Line>) { forall l | l in lines :: f(l) == 0 }

  predicate AtMostOneFlagged(f: Line -> nat, lines: seq<Line>) {
    forall i, j | 0 <= i < j < |lines| :: f(lines[i]) + f(lines[j]) <= 1
  }

  lemma AtMostOneStep(f: Line -> nat, front: seq<Line>, last: Line)
    requires forall l :: f(l) <= 1
    ensures AtMostOneFlagged(f, front + [last]) <==>
            AtMostOneFlagged(f, front) && (f(last) == 1 ==> NoneFlagged(f, front))
  {
    var lines := front + [last];
    assert forall i | 0 <= i < |front| :: lines[i] == front[i] && front[i] in front;
    if AtMostOneFlagged(f, lines) {
      assert forall i, j | 0 <= i < j < |front| :: lines[i] == front[i] && lines[j] == front[j];
      assert forall i | 0 <= i < |front| :: f(lines[i]) + f(lines[|front|]) <= 1;
    }
  }

  /** A count of flagged lines, as seen one pair of lines at a time. */
  lemma {:induction false} FlaggedCount(f: Line -> nat, lines: seq<Line>)
    requires forall l :: f(l) <= 1
    ensures Sum(f, lines) == 0 <==> NoneFlagged(f, lines)
    ensures Sum(f, lines) <= 1 <==> AtMostOneFlagged(f, lines)
  {
    if lines != [] {
      var front, last := lines[..|lines| - 1], lines[|lines| - 1];
      LastSplit(lines);
      FlaggedCount(f, front);
      AtMostOneStep(f, front, last);
      assert forall l :: l in lines <==> l in front || l == last by { assert lines == front + [last]; }
    }
  }

  /** Every digest present is a non-empty string. */
  predicate DigestsAreText(lines: seq<Line>) {
    forall l | l in lines && Carries(l) :: SolidText()(l.digest.value)
  }

  /** Where digests are non-empty strings, S10 accepts with a digest exactly when
      S23 accepts and one record alone carries it; both then report that digest. */
  lemma S10IffS23WithOneCarrier(lines: seq<Line>)
    requires DigestsAreText(lines)
    ensures S10Accepts(lines) && First(AnyText(), lines).Some?
            <==> S23Accepts(lines) && Sum(CarriesOne(), lines) == 1
    ensures First(AnyText(), lines) == First(SolidText(), lines)
  {
    SameFirst(lines);
    FlaggedCount(CarriesOne(), lines);
    FirstIsCarried(AnyText(), lines);
    var first := First(AnyText(), lines);
    forall i | 0 <= i < |lines|
      ensures Carries(lines[i]) <==> CarriesOne()(lines[i]) == 1
      ensures Carries(lines[i]) ==> lines[i].digest.value.Text? && Present(lines[i])
    {
      assert lines[i] in lines;
    }
    if first.Some? {
      CarriedIsCounted(lines, Record(first));
      var k :| 0 <= k < |lines| && lines[k] == Record(first);
      if Sum(CarriesOne(), lines) == 1 {
        forall l | l in lines && Carries(l) ensures l.digest == first {
          var i :| 0 <= i < |lines| && lines[i] == l;
          assert i < k || k < i || i == k;
        }
      }
    }
  }

  lemma {:induction false} SameFirst(lines: seq<Line>)
    requires DigestsAreText(lines)
    ensures First(AnyText(), lines) == First(SolidText(), lines)
  {
    if lines != [] {
      LastSplit(lines);
      var front := lines[..|lines| - 1];
      assert lines == front + [lines[|lines| - 1]];
      SameFirst(front);
      assert lines[|lines| - 1] in lines;
    }
  }

  // ----- The order of the lines and S10

  predicate TextAt(l: Line) { Carries(l) && l.digest.value.Text? }

  /** A digest that is neither null nor text: S10 passes over it until it has read text. */
  predicate OddAt(l: Line) { Carries(l) && l.digest.value.Other? }

  function TextFlag(): Line -> nat { (l: Line) => if TextAt(l) then 1 else 0 }

  /** The verdict is the same whatever the order of the lines. */
  ghost predicate OrderFree(lines: seq<Line>) {
    forall other | multiset(other) == multiset(lines) :: S10Accepts(other) <==> S10Accepts(lines)
  }

  lemma PermutedMembers(lines: seq<Line>, other: seq<Line>)
    requires multiset(other) == multiset(lines)
    ensures forall l :: l in other <==> l in lines
    ensures RecordCount(other) == RecordCount(lines) && Sum(TextFlag(), other) == Sum(TextFlag(), lines)
  {
    assert forall l :: l in other <==> l in multiset(other);
    assert forall l :: l in lines <==> l in multiset(lines);
    SumPermutation(NonBlank(), other, lines);
    SumPermutation(TextFlag(), other, lines);
  }

  /** With no odd digest, or no text digest, or two of them, the order cannot matter:
      the verdict is a matter of counts. */
  lemma {:induction false} S10ByCounts(lines: seq<Line>)
    requires (forall l | l in lines :: !OddAt(l)) || Sum(TextFlag(), lines) != 1
    ensures S10Accepts(lines) <==>
            RecordCount(lines) > 0 && (forall l | l in lines :: ReadableLine(l)) && Sum(TextFlag(), lines) <= 1
  {
    FlaggedCount(TextFlag(), lines);
    forall i | 0 <= i < |lines| ensures lines[i] in lines && (TextAt(lines[i]) <==> TextFlag()(lines[i]) == 1) {
    }
    if Sum(TextFlag(), lines) > 1 {
      var i, j :| 0 <= i < j < |lines| && TextFlag()(lines[i]) + TextFlag()(lines[j]) == 2;
      assert TextAt(lines[i]) && Present(lines[j]);
    }
  }

  /** One text digest and an odd one: read in one order they pass, in the other they do not. */
  lemma OddAndText(lines: seq<Line>, k: nat, o: Line)
    requires k < |lines| && TextAt(lines[k]) && Sum(TextFlag(), lines) == 1
    requires o in lines && OddAt(o) && forall l | l in lines :: ReadableLine(l)
    ensures var rest := Without(lines, k);
            && multiset(rest + [lines[k]]) == multiset(lines) && S10Accepts(rest + [lines[k]])
            && multiset([lines[k]] + rest) == multiset(lines) && !S10Accepts([lines[k]] + rest)
  {
    var rest, text := Without(lines, k), lines[k];
    WithoutMultiset(lines, k);
    var last, first := rest + [text], [text] + rest;
    PermutedMembers(lines, last);
    PermutedMembers(lines, first);
    SumConcat(TextFlag(), rest, [text]);
    assert [text][..0] == [];
    FlaggedCount(TextFlag(), rest);
    CarriedIsCounted(last, text);
    forall i | 0 <= i < |rest| ensures last[i] == rest[i] && !TextAt(last[i]) {
      assert TextFlag()(rest[i]) == 0 by { assert rest[i] in rest; }
    }
    var i :| 0 <= i < |first| && first[i] == o;
    assert i > 0 && TextAt(first[0]) && Present(first[i]);
  }

  /** All lines are readable, one record alone carries text and another carries an odd digest. */
  predicate OrderBound(lines: seq<Line>) {
    (forall l | l in lines :: ReadableLine(l)) && Sum(TextFlag(), lines) == 1 && exists l :: l in lines && OddAt(l)
  }

  lemma BoundLinesDisagree(lines: seq<Line>)
    requires OrderBound(lines)
    ensures !OrderFree(lines)
  {
    var o :| o in lines && OddAt(o);
    FlaggedCount(TextFlag(), lines);
    var l :| l in lines && TextFlag()(l) != 0;
    var k :| 0 <= k < |lines| && lines[k] == l;
    OddAndText(lines, k, o);
    var last, first := Without(lines, k) + [lines[k]], [lines[k]] + Without(lines, k);
    assert OrderFree(lines) ==> (S10Accepts(last) <==> S10Accepts(lines)) && (S10Accepts(first) <==> S10Accepts(lines));
  }

  lemma OtherLinesAgree(lines: seq<Line>, other: seq<Line>)
    requires !OrderBound(lines) && multiset(other) == multiset(lines)
    ensures S10Accepts(other) <==> S10Accepts(lines)
  {
    PermutedMembers(lines, other);
    if exists l :: l in lines && !ReadableLine(l) {
      UnreadableRejected(lines);
      UnreadableRejected(other);
    } else {
      S10ByCounts(lines);
      S10ByCounts(other);
    }
  }

  /** S10, unlike S23, can depend on the order of the lines: on exactly these. */
  lemma S10OrderFreeIff(lines: seq<Line>)
    ensures OrderFree(lines) <==> !OrderBound(lines)
  {
    if OrderBound(lines) {
      BoundLinesDisagree(lines);
    } else {
      forall other | multiset(other) == multiset(lines) ensures S10Accepts(other) <==> S10Accepts(lines) {
        OtherLinesAgree(lines, other);
      }
    }
  }

  lemma UnreadableRejected(lines: seq<Line>)
    requires exists l :: l in lines && !ReadableLine(l)
    ensures !S10Accepts(lines)
  {
  }
}
