/** UTF-8 as sections 3 and 4 of RFC 3629 define it, and the byte-span test the
    records validator and the context inventory share. */
module Utf8 {
  import opened Sequences

  type Byte = b: int | 0 <= b < 256

  type CodePoint = c: int | 0 <= c <= 0x10FFFF

  predicate IsSurrogate(c: CodePoint) {
    0xD800 <= c <= 0xDFFF
  }

  /** A Unicode scalar value: what UTF-8 can encode. */
  type Scalar = c: CodePoint | !IsSurrogate(c)

  /** (b & 0xC0) == 0x80: the two top bits are 10. */
  predicate IsContinuation(b: Byte) {
    b / 64 == 2
  }

  function EncodeOne(c: Scalar): seq<Byte> {
    if c < 0x80 then [c]
    else if c < 0x800 then [0xC0 + c / 64, 0x80 + c % 64]
    else if c < 0x10000 then [0xE0 + c / 4096, 0x80 + c / 64 % 64, 0x80 + c % 64]
    else [0xF0 + c / 262144, 0x80 + c / 4096 % 64, 0x80 + c / 64 % 64, 0x80 + c % 64]
  }

  function Encode(s: seq<Scalar>): seq<Byte> {
    if s == [] then [] else EncodeOne(s[0]) + Encode(s[1..])
  }

  /** str.encode("utf-8"): a string with a lone surrogate cannot be encoded. */
  function EncodeText(text: seq<CodePoint>): Option<seq<Byte>> {
    if exists i | 0 <= i < |text| :: IsSurrogate(text[i]) then None
    else Some(Encode(seq(|text|, i requires 0 <= i < |text| => text[i] as Scalar)))
  }

  predicate Tail(b: seq<Byte>, n: nat) {
    |b| >= n && forall i | 1 <= i < n :: IsContinuation(b[i])
  }

  /** The number whose base-64 digits are the payloads of b[..n], the lead byte
      counting from lead. */
  function Payload(b: seq<Byte>, n: nat, lead: int): int
    requires 1 <= n <= |b|
  {
    var first: int := b[0];
    if n == 1 then first - lead
    else
      var last: int := b[n - 1];
      Payload(b, n - 1, lead) * 64 + (last - 0x80)
  }

  /** The first well-formed sequence of b: its scalar and its length. Overlong
      forms, surrogates and values above 0x10FFFF are refused by the ranges of
      the second byte. */
  function DecodeOne(b: seq<Byte>): (r: Option<(Scalar, nat)>)
    ensures r.Some? ==> 1 <= r.value.1 <= |b|
  {
    if b == [] then None
    else if b[0] < 0x80 then Some((Payload(b, 1, 0), 1))
    else if 0xC2 <= b[0] < 0xE0 && Tail(b, 2) then
      PayloadRange(b, 2, 0xC0);
      Some((Payload(b, 2, 0xC0), 2))
    else if 0xE0 <= b[0] < 0xF0 && Tail(b, 3)
            && (b[0] == 0xE0 ==> b[1] >= 0xA0) && (b[0] == 0xED ==> b[1] < 0xA0) then
      PayloadRange(b, 3, 0xE0);
      Some((Payload(b, 3, 0xE0), 3))
    else if 0xF0 <= b[0] < 0xF5 && Tail(b, 4)
            && (b[0] == 0xF0 ==> b[1] >= 0x90) && (b[0] == 0xF4 ==> b[1] < 0x90) then
      PayloadRange(b, 4, 0xF0);
      Some((Payload(b, 4, 0xF0), 4))
    else None
  }

  /** A payload in terms of its two leading bytes. */
  lemma PayloadRange(b: seq<Byte>, n: nat, lead: int)
    requires 2 <= n <= 4 && Tail(b, n)
    ensures var first: int := b[0]; var second: int := b[1];
            var scale := if n == 2 then 1 else if n == 3 then 64 else 4096;
            var top := (first - lead) * 64 + (second - 0x80);
            top * scale <= Payload(b, n, lead) < (top + 1) * scale
  {
    assert IsContinuation(b[1]);
    assert Payload(b, 2, lead) == Payload(b, 1, lead) * 64 + (b[1] as int - 0x80);
    if n >= 3 {
      assert IsContinuation(b[2]);
      assert Payload(b, 3, lead) == Payload(b, 2, lead) * 64 + (b[2] as int - 0x80);
    }
    if n == 4 {
      assert IsContinuation(b[3]);
      assert Payload(b, 4, lead) == Payload(b, 3, lead) * 64 + (b[3] as int - 0x80);
    }
  }

  /** bytes.decode("utf-8") with the strict error handler. */
  function Decode(b: seq<Byte>): Option<seq<Scalar>>
    decreases |b|
  {
    if b == [] then Some([])
    else
      match DecodeOne(b)
      case None => None
      case Some((c, n)) =>
        match Decode(b[n..])
        case None => None
        case Some(rest) => Some([c] + rest)
  }

  /** The span test: bounds, no endpoint on a continuation byte, and the slice decodes. */
  predicate SpanOk(raw: seq<Byte>, start: int, end: int) {
    if start < 0 || end < start || end > |raw| then false
    else if start != 0 && start < |raw| && IsContinuation(raw[start]) then false
    else if end != |raw| && end < |raw| && IsContinuation(raw[end]) then false
    else Decode(raw[start..end]).Some?
  }

  /** The part of the span test that comes before the decode step. */
  predicate EndpointsOk(raw: seq<Byte>, start: int, end: int) {
    && 0 <= start <= end <= |raw|
    && (0 < start < |raw| ==> !IsContinuation(raw[start]))
    && (end < |raw| ==> !IsContinuation(raw[end]))
  }

  // ----- The decoder inverts the encoder, and accepts nothing else

  lemma DecodeOneInverts(c: Scalar, rest: seq<Byte>)
    ensures DecodeOne(EncodeOne(c) + rest) == Some((c, |EncodeOne(c)|))
  {
    var e, b := EncodeOne(c), EncodeOne(c) + rest;
    assert forall i | 0 <= i < |e| :: b[i] == e[i];
    if |e| == 2 {
      Payload2(c, b);
    } else if |e| == 3 {
      Payload3(c, b);
    } else if |e| == 4 {
      Payload4(c, b);
    }
  }

  lemma Payload2(c: Scalar, b: seq<Byte>)
    requires |b| >= 2 && |EncodeOne(c)| == 2 && b[0] == EncodeOne(c)[0] && b[1] == EncodeOne(c)[1]
    ensures Payload(b, 2, 0xC0) == c && 0xC2 <= b[0] < 0xE0 && Tail(b, 2)
  {
    var first: int, second: int := b[0], b[1];
    assert Payload(b, 2, 0xC0) == (first - 0xC0) * 64 + (second - 0x80);
  }

  lemma Payload3(c: Scalar, b: seq<Byte>)
    requires |b| >= 3 && |EncodeOne(c)| == 3 && forall i | 0 <= i < 3 :: b[i] == EncodeOne(c)[i]
    ensures Payload(b, 3, 0xE0) == c && 0xE0 <= b[0] < 0xF0 && Tail(b, 3)
    ensures (b[0] == 0xE0 ==> b[1] >= 0xA0) && (b[0] == 0xED ==> b[1] < 0xA0)
  {
    var first: int, second: int, third: int := b[0], b[1], b[2];
    assert first == 0xE0 + c / 4096 && second == 0x80 + c / 64 % 64 && third == 0x80 + c % 64;
    assert c / 64 / 64 == c / 4096;
    assert Payload(b, 2, 0xE0) == (first - 0xE0) * 64 + (second - 0x80) == c / 64;
    if first == 0xED {
      assert !IsSurrogate(c) && c / 4096 == 13;
      assert c < 0xD800;
    }
  }

  lemma Payload4(c: Scalar, b: seq<Byte>)
    requires |b| >= 4 && |EncodeOne(c)| == 4 && forall i | 0 <= i < 4 :: b[i] == EncodeOne(c)[i]
    ensures Payload(b, 4, 0xF0) == c && 0xF0 <= b[0] < 0xF5 && Tail(b, 4)
    ensures (b[0] == 0xF0 ==> b[1] >= 0x90) && (b[0] == 0xF4 ==> b[1] < 0x90)
  {
    var first: int, second: int, third: int, fourth: int := b[0], b[1], b[2], b[3];
    assert first == 0xF0 + c / 262144 && second == 0x80 + c / 4096 % 64;
    assert third == 0x80 + c / 64 % 64 && fourth == 0x80 + c % 64;
    assert c / 4096 / 64 == c / 262144 && c / 64 / 64 == c / 4096;
    assert Payload(b, 2, 0xF0) == (first - 0xF0) * 64 + (second - 0x80) == c / 4096;
    assert Payload(b, 3, 0xF0) == c / 4096 * 64 + (third - 0x80) == c / 64;
  }

  lemma EncodeOneInverts(b: seq<Byte>)
    requires DecodeOne(b).Some?
    ensures EncodeOne(DecodeOne(b).value.0) == b[..DecodeOne(b).value.1]
  {
    var (c, n) := DecodeOne(b).value;
    if n == 1 {
      assert b[..1] == [b[0]];
    } else if n == 2 {
      Invert2(b, c);
    } else if n == 3 {
      PayloadRange(b, 3, 0xE0);
      Invert3(b, c);
    } else {
      PayloadRange(b, 4, 0xF0);
      Invert4(b, c);
    }
  }

  lemma Invert2(b: seq<Byte>, c: Scalar)
    requires Tail(b, 2) && 0xC2 <= b[0] < 0xE0 && c == Payload(b, 2, 0xC0)
    ensures EncodeOne(c) == b[..2]
  {
    assert IsContinuation(b[1]);
    var x: int, y: int := b[0] - 0xC0, b[1] - 0x80;
    assert c == x * 64 + y;
    assert b[..2] == [b[0], b[1]];
  }

  lemma Invert3(b: seq<Byte>, c: Scalar)
    requires Tail(b, 3) && 0xE0 <= b[0] < 0xF0 && c == Payload(b, 3, 0xE0) && 0x800 <= c
    ensures EncodeOne(c) == b[..3]
  {
    assert IsContinuation(b[1]) && IsContinuation(b[2]);
    var x: int, y: int, z: int := b[0] - 0xE0, b[1] - 0x80, b[2] - 0x80;
    assert Payload(b, 2, 0xE0) == x * 64 + y;
    assert c == (x * 64 + y) * 64 + z;
    assert c / 64 == x * 64 + y && c % 64 == z;
    assert c / 4096 == x;
    assert b[..3] == [b[0], b[1], b[2]];
  }

  lemma Invert4(b: seq<Byte>, c: Scalar)
    requires Tail(b, 4) && 0xF0 <= b[0] < 0xF5 && c == Payload(b, 4, 0xF0) && 0x10000 <= c
    ensures EncodeOne(c) == b[..4]
  {
    assert IsContinuation(b[1]) && IsContinuation(b[2]) && IsContinuation(b[3]);
    var x: int, y: int, z: int, w: int := b[0] - 0xF0, b[1] - 0x80, b[2] - 0x80, b[3] - 0x80;
    assert Payload(b, 2, 0xF0) == x * 64 + y;
    assert Payload(b, 3, 0xF0) == (x * 64 + y) * 64 + z;
    assert c == ((x * 64 + y) * 64 + z) * 64 + w;
    assert c / 64 == (x * 64 + y) * 64 + z && c % 64 == w;
    assert c / 4096 == x * 64 + y && c / 262144 == x;
    assert b[..4] == [b[0], b[1], b[2], b[3]];
  }

  lemma {:induction false} DecodeInvertsEncode(s: seq<Scalar>)
    ensures Decode(Encode(s)) == Some(s)
  {
    if s != [] {
      DecodeOneInverts(s[0], Encode(s[1..]));
      DecodeInvertsEncode(s[1..]);
      assert Encode(s)[|EncodeOne(s[0])|..] == Encode(s[1..]);
      assert s == [s[0]] + s[1..];
    }
  }

  /** Decoding succeeds exactly on the encodings, so it is the inverse of encoding. */
  lemma {:induction false} EncodeInvertsDecode(b: seq<Byte>)
    requires Decode(b).Some?
    ensures Encode(Decode(b).value) == b
    decreases |b|
  {
    if b != [] {
      EncodeOneInverts(b);
      match DecodeOne(b)
      case Some((c, n)) =>
        EncodeInvertsDecode(b[n..]);
        EncodeStep(c, Decode(b[n..]).value, b, n);
    }
  }

  lemma EncodeStep(c: Scalar, rest: seq<Scalar>, b: seq<Byte>, n: nat)
    requires n <= |b| && EncodeOne(c) == b[..n] && Encode(rest) == b[n..]
    ensures Encode([c] + rest) == b
  {
    assert ([c] + rest)[1..] == rest;
    assert b == b[..n] + b[n..];
  }

  // ----- Character boundaries

  lemma {:induction false} EncodeConcat(s: seq<Scalar>, t: seq<Scalar>)
    ensures Encode(s + t) == Encode(s) + Encode(t)
  {
    if s == [] {
      assert s + t == t;
    } else {
      assert (s + t)[1..] == s[1..] + t;
      EncodeConcat(s[1..], t);
    }
  }

  lemma EncodeOneBytes(c: Scalar)
    ensures 1 <= |EncodeOne(c)| <= 4
    ensures !IsContinuation(EncodeOne(c)[0])
    ensures forall i | 0 < i < |EncodeOne(c)| :: IsContinuation(EncodeOne(c)[i])
  {
  }

  /** a is the encoded length of the first i scalars of s. */
  predicate Boundary(s: seq<Scalar>, i: int, a: int) {
    0 <= i <= |s| && a == |Encode(s[..i])|
  }

  /** A position of an encoding that is its end or does not hold a continuation
      byte is a character boundary. */
  lemma {:induction false} BoundaryAt(s: seq<Scalar>, a: nat) returns (i: nat)
    requires a <= |Encode(s)|
    requires a < |Encode(s)| ==> !IsContinuation(Encode(s)[a])
    ensures Boundary(s, i, a)
  {
    if a == 0 {
      i := 0;
    } else {
      EncodeOneBytes(s[0]);
      var n := |EncodeOne(s[0])|;
      assert forall k | 0 <= k < n :: Encode(s)[k] == EncodeOne(s[0])[k];
      i := BoundaryAt(s[1..], a - n);
      assert s[..i + 1][0] == s[0] && s[..i + 1][1..] == s[1..][..i];
      i := i + 1;
    }
  }

  /** The converse: no boundary holds a continuation byte. */
  lemma BoundaryByte(s: seq<Scalar>, i: nat)
    requires i <= |s|
    ensures |Encode(s[..i])| <= |Encode(s)|
    ensures i == |s| ==> |Encode(s[..i])| == |Encode(s)|
    ensures i < |s| ==> |Encode(s[..i])| < |Encode(s)| && !IsContinuation(Encode(s)[|Encode(s[..i])|])
  {
    assert s == s[..i] + s[i..];
    EncodeConcat(s[..i], s[i..]);
    if i < |s| {
      EncodeOneBytes(s[i]);
      assert Encode(s[i..])[0] == EncodeOne(s[i])[0];
    } else {
      assert s[..i] == s;
    }
  }

  /** The slice between two boundaries encodes the scalars between them. */
  lemma SliceEncodes(s: seq<Scalar>, i: nat, j: nat)
    requires i <= j <= |s|
    ensures |Encode(s[..i])| <= |Encode(s[..j])| <= |Encode(s)|
    ensures Encode(s)[|Encode(s[..i])|..|Encode(s[..j])|] == Encode(s[i..j])
  {
    assert s == s[..j] + s[j..];
    EncodeConcat(s[..j], s[j..]);
    assert s[..j] == s[..i] + s[i..j];
    EncodeConcat(s[..i], s[i..j]);
  }

  lemma EncodedLengthsIncrease(s: seq<Scalar>, i: nat, j: nat)
    requires i < j <= |s|
    ensures |Encode(s[..i])| < |Encode(s[..j])|
  {
    assert s[..j][..i] == s[..i];
    BoundaryByte(s[..j], i);
  }

  /** On encoded text the span test holds exactly between character boundaries. */
  lemma SpanIffBoundaries(s: seq<Scalar>, start: int, end: int)
    ensures SpanOk(Encode(s), start, end) <==>
            exists i, j :: i <= j && Boundary(s, i, start) && Boundary(s, j, end)
  {
    var raw := Encode(s);
    if EndpointsOk(raw, start, end) {
      EndpointsDecode(s, start, end);
    }
    if i, j :| i <= j && Boundary(s, i, start) && Boundary(s, j, end) {
      SliceEncodes(s, i, j);
      BoundaryByte(s, i);
      BoundaryByte(s, j);
      DecodeInvertsEncode(s[i..j]);
    }
  }

  /** The decode step never rejects what the continuation-byte tests passed, and
      the slice is exactly the text between the two boundaries. */
  lemma EndpointsDecode(s: seq<Scalar>, start: int, end: int)
    requires EndpointsOk(Encode(s), start, end)
    ensures exists i, j ::
              && i <= j && Boundary(s, i, start) && Boundary(s, j, end)
              && Decode(Encode(s)[start..end]) == Some(s[i..j])
    ensures SpanOk(Encode(s), start, end)
  {
    if s != [] { EncodeOneBytes(s[0]); }
    var i := BoundaryAt(s, start);
    var j := BoundaryAt(s, end);
    if j < i { EncodedLengthsIncrease(s, j, i); }
    SliceEncodes(s, i, j);
    DecodeInvertsEncode(s[i..j]);
  }

  /** Two examples of RFC 3629, section 7: "A", "not identical to", "Alpha", "." and a scalar of four bytes. */
  lemma KnownEncodings()
    ensures Encode([0x41, 0x2262, 0x391, 0x2E]) == [0x41, 0xE2, 0x89, 0xA2, 0xCE, 0x91, 0x2E]
    ensures Encode([0x233B4]) == [0xF0, 0xA3, 0x8E, 0xB4]
  {
    assert Encode([0x2E]) == [0x2E];
    assert [0x391, 0x2E][1..] == [0x2E] && [0x2262, 0x391, 0x2E][1..] == [0x391, 0x2E];
    assert Encode([0x391, 0x2E]) == [0xCE, 0x91, 0x2E];
    assert Encode([0x2262, 0x391, 0x2E]) == [0xE2, 0x89, 0xA2, 0xCE, 0x91, 0x2E];
    assert [0x41, 0x2262, 0x391, 0x2E][1..] == [0x2262, 0x391, 0x2E];
  }
}
