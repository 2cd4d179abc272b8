/**
 * UTF-8 as `TextEncoder` writes it (section 3 of RFC 3629) and as `TextDecoder` reads it (the UTF-8
 * decoder, section 8.1.1 of the WHATWG Encoding Standard), lost and cut-off bytes included.
 */
module Utf8 {
  import opened Text

  /** An element of a JavaScript string read by code points; a surrogate here is a lone one. */
  type CodePoint = c: int | 0 <= c < 0x11_0000

  const REPLACEMENT: CodePoint := 0xFFFD
  const BYTE_ORDER_MARK: CodePoint := 0xFEFF

  predicate Surrogate(c: CodePoint) {
    0xD800 <= c < 0xE000
  }

  /** A lone surrogate is written as the replacement character. */
  function Scalar(c: CodePoint): CodePoint {
    if Surrogate(c) then REPLACEMENT else c
  }

  function Scalars(text: seq<CodePoint>): seq<CodePoint> {
    seq(|text|, i requires 0 <= i < |text| => Scalar(text[i]))
  }

  function EncodeOne(point: CodePoint): (bytes: Bytes)
    ensures 1 <= |bytes| <= 4
  {
    var c := Scalar(point);
    if c < 0x80 then [c]
    else if c < 0x800 then [0xC0 + c / 0x40, 0x80 + c % 0x40]
    else if c < 0x1_0000 then [0xE0 + c / 0x1000, 0x80 + c / 0x40 % 0x40, 0x80 + c % 0x40]
    else [0xF0 + c / 0x4_0000, 0x80 + c / 0x1000 % 0x40, 0x80 + c / 0x40 % 0x40, 0x80 + c % 0x40]
  }

  function Encode(text: seq<CodePoint>): Bytes {
    if text == [] then [] else Encode(text[..|text| - 1]) + EncodeOne(text[|text| - 1])
  }

  // ---------------------------------------------------------------- the decoder

  /** Bits so far, continuation bytes still needed, and the bounds on the next byte. */
  datatype State = State(bits: int, needed: nat, lower: int, upper: int)

  const START := State(0, 0, 0x80, 0xBF)

  datatype Progress = Progress(state: State, out: seq<CodePoint>)

  /** A byte that starts a sequence. */
  function Lead(b: Byte): Progress {
    if b <= 0x7F then Progress(START, [b])
    else if 0xC2 <= b <= 0xDF then Progress(State(b % 0x20, 1, 0x80, 0xBF), [])
    else if 0xE0 <= b <= 0xEF then
      Progress(State(b % 0x10, 2, if b == 0xE0 then 0xA0 else 0x80, if b == 0xED then 0x9F else 0xBF), [])
    else if 0xF0 <= b <= 0xF4 then
      Progress(State(b % 0x08, 3, if b == 0xF0 then 0x90 else 0x80, if b == 0xF4 then 0x8F else 0xBF), [])
    else Progress(START, [REPLACEMENT])
  }

  function Feed(s: State, b: Byte): Progress {
    if s.needed == 0 then Lead(b)
    else if b < s.lower || b > s.upper then
      var again := Lead(b);
      Progress(again.state, [REPLACEMENT] + again.out)
    else
      var bits := s.bits * 0x40 + b % 0x40;
      if s.needed > 1 then Progress(State(bits, s.needed - 1, 0x80, 0xBF), [])
      else Progress(START, [if 0 <= bits < 0x11_0000 then bits else REPLACEMENT])
  }

  function FeedAll(s: State, bytes: Bytes): Progress {
    if bytes == [] then Progress(s, [])
    else
      var before := FeedAll(s, bytes[..|bytes| - 1]);
      var last := Feed(before.state, bytes[|bytes| - 1]);
      Progress(last.state, before.out + last.out)
  }

  /** At the end of the input an unfinished sequence gives one replacement character. */
  function Finished(p: Progress): seq<CodePoint> {
    p.out + if p.state.needed > 0 then [REPLACEMENT] else []
  }

  /** `new TextDecoder().decode(bytes)`: a byte order mark in front is dropped. */
  function WithoutMark(text: seq<CodePoint>): seq<CodePoint> {
    if text != [] && text[0] == BYTE_ORDER_MARK then text[1..] else text
  }

  function Decode(bytes: Bytes): seq<CodePoint> {
    WithoutMark(Finished(FeedAll(START, bytes)))
  }

  // ---------------------------------------------------------------- reading what was written

  lemma {:induction false} EncodeAppend(a: seq<CodePoint>, b: seq<CodePoint>)
    ensures Encode(a + b) == Encode(a) + Encode(b)
  {
    if b == [] {
      EmptyIsUnit(a);
      EmptyIsUnit(Encode(a));
    } else {
      hide EncodeOne;
      EncodeAppend(a, b[..|b| - 1]);
      assert (a + b)[..|a + b| - 1] == a + b[..|b| - 1];
      Assoc(Encode(a), Encode(b[..|b| - 1]), EncodeOne(b[|b| - 1]));
    }
  }

  lemma EncodeSingle(c: CodePoint)
    ensures Encode([c]) == EncodeOne(c)
  {
    assert Encode([c]) == Encode([]) + EncodeOne(c);
    EmptyIsUnit(EncodeOne(c));
  }

  lemma FeedOne(s: State, bytes: Bytes, b: Byte)
    ensures var before := FeedAll(s, bytes);
            var last := Feed(before.state, b);
            FeedAll(s, bytes + [b]) == Progress(last.state, before.out + last.out)
  {
    assert (bytes + [b])[..|bytes|] == bytes;
  }

  lemma {:induction false} FeedAppend(s: State, a: Bytes, b: Bytes)
    ensures var before := FeedAll(s, a);
            var after := FeedAll(before.state, b);
            FeedAll(s, a + b) == Progress(after.state, before.out + after.out)
  {
    if b == [] {
      EmptyIsUnit(a);
      EmptyIsUnit(FeedAll(s, a).out);
    } else {
      hide FeedAll, Feed;
      var c, last := b[..|b| - 1], b[|b| - 1];
      FeedAppend(s, a, c);
      LastApart(b);
      Assoc(a, c, [last]);
      FeedOne(s, a + c, last);
      var before := FeedAll(s, a);
      FeedOne(before.state, c, last);
      var middle := FeedAll(before.state, c);
      Assoc(before.out, middle.out, Feed(middle.state, last).out);
    }
  }

  lemma FeedNone(s: State)
    ensures FeedAll(s, []) == Progress(s, [])
  {
  }

  lemma Sixes(c: nat)
    ensures c == c / 0x40 * 0x40 + c % 0x40
    ensures c / 0x40 == c / 0x1000 * 0x40 + c / 0x40 % 0x40
    ensures c / 0x1000 == c / 0x4_0000 * 0x40 + c / 0x1000 % 0x40
  {
    assert c / 0x40 / 0x40 == c / 0x1000;
    assert c / 0x1000 / 0x40 == c / 0x4_0000;
  }

  /** What the decoder holds after the first `k` bytes of a character. */
  function Partial(c: CodePoint, k: nat): State
    requires 0 < k < |EncodeOne(c)|
  {
    var s, n := Scalar(c), |EncodeOne(c)|;
    if k == 1 then Lead(EncodeOne(c)[0]).state
    else State(if n - k == 1 then s / 0x40 else s / 0x1000, n - k, 0x80, 0xBF)
  }

  lemma LeadOfTwo(s: nat)
    requires 0x80 <= s < 0x800
    ensures var p := Lead(0xC0 + s / 0x40);
            p.out == [] && p.state.needed == 1 && p.state.bits == s / 0x40
  {
  }

  lemma LeadOfThree(s: nat)
    requires 0x800 <= s < 0x1_0000
    ensures var p := Lead(0xE0 + s / 0x1000);
            p.out == [] && p.state.needed == 2 && p.state.bits == s / 0x1000
  {
  }

  lemma LeadOfFour(s: nat)
    requires 0x1_0000 <= s < 0x11_0000
    ensures var p := Lead(0xF0 + s / 0x4_0000);
            p.out == [] && p.state.needed == 3 && p.state.bits == s / 0x4_0000
  {
  }

  lemma FirstByte(c: CodePoint)
    ensures var bytes, s := EncodeOne(c), Scalar(c);
            var p := Feed(START, bytes[0]);
            if |bytes| == 1 then p == Progress(START, [s])
            else
              && p == Progress(Partial(c, 1), []) && p.state.needed == |bytes| - 1
              && p.state.bits == (if |bytes| == 2 then s / 0x40 else if |bytes| == 3 then s / 0x1000 else s / 0x4_0000)
  {
    var s := Scalar(c);
    if s < 0x80 {
    } else if s < 0x800 {
      hide Lead;
      LeadOfTwo(s);
    } else if s < 0x1_0000 {
      hide Lead;
      LeadOfThree(s);
    } else {
      hide Lead;
      LeadOfFour(s);
    }
  }

  /** The bounds a lead byte sets admit the byte that follows it. */
  lemma SecondByte(c: CodePoint)
    requires |EncodeOne(c)| > 1
    ensures var s := Feed(START, EncodeOne(c)[0]).state;
            s.lower <= EncodeOne(c)[1] <= s.upper
  {
    Sixes(Scalar(c));
  }

  lemma SixBits(x: nat)
    requires x < 0x40
    ensures (0x80 + x) % 0x40 == x
  {
  }

  lemma LaterByte(c: CodePoint, k: nat)
    requires 0 < k < |EncodeOne(c)|
    ensures Feed(Partial(c, k), EncodeOne(c)[k]) ==
            if k + 1 < |EncodeOne(c)| then Progress(Partial(c, k + 1), []) else Progress(START, [Scalar(c)])
  {
    var s, n := Scalar(c), |EncodeOne(c)|;
    FirstByte(c);
    SecondByte(c);
    Sixes(s);
    SixBits(s % 0x40);
    SixBits(s / 0x40 % 0x40);
    SixBits(s / 0x1000 % 0x40);
    hide Lead, Scalar;
  }

  lemma {:induction false} FeedPart(c: CodePoint, k: nat)
    requires 0 < k < |EncodeOne(c)|
    ensures FeedAll(START, EncodeOne(c)[..k]) == Progress(Partial(c, k), [])
  {
    hide EncodeOne, Partial, Feed;
    var bytes := EncodeOne(c);
    var none: Bytes := [];
    FeedNone(START);
    if k == 1 {
      FirstByte(c);
      FeedOne(START, none, bytes[0]);
      assert bytes[..1] == none + [bytes[0]];
    } else {
      FeedPart(c, k - 1);
      LaterByte(c, k - 1);
      FeedOne(START, bytes[..k - 1], bytes[k - 1]);
      assert bytes[..k] == bytes[..k - 1] + [bytes[k - 1]];
    }
  }

  lemma FeedWhole(c: CodePoint)
    ensures FeedAll(START, EncodeOne(c)) == Progress(START, [Scalar(c)])
  {
    hide EncodeOne, Partial, Feed;
    var bytes := EncodeOne(c);
    var n := |bytes|;
    var none: Bytes := [];
    LastApart(bytes);
    if n == 1 {
      FirstByte(c);
      FeedNone(START);
      FeedOne(START, none, bytes[0]);
      assert bytes == none + [bytes[0]];
    } else {
      FeedPart(c, n - 1);
      LaterByte(c, n - 1);
      FeedOne(START, bytes[..n - 1], bytes[n - 1]);
    }
  }

  // ---------------------------------------------------------------- and only what could be written

  lemma SameDigits(q: nat, r: nat, x: nat, y: nat)
    requires r < 0x40 && y < 0x40 && q * 0x40 + r == x * 0x40 + y
    ensures q == x && r == y
  {
  }

  lemma BaseSixtyFour(u: nat, v: nat, w: nat, t: nat)
    requires v < 0x40 && w < 0x40 && t < 0x40
    ensures var s := ((u * 0x40 + v) * 0x40 + w) * 0x40 + t;
            s / 0x4_0000 == u && s / 0x1000 % 0x40 == v && s / 0x40 % 0x40 == w && s % 0x40 == t
  {
    var x := u * 0x40 + v;
    var y := x * 0x40 + w;
    var s := y * 0x40 + t;
    Sixes(s);
    SameDigits(s / 0x40, s % 0x40, y, t);
    SameDigits(s / 0x1000, s / 0x40 % 0x40, x, w);
    SameDigits(s / 0x4_0000, s / 0x1000 % 0x40, u, v);
  }

  lemma EncodedTwo(u: nat, v: nat)
    requires 2 <= u < 0x20 && v < 0x40
    ensures EncodeOne(u * 0x40 + v) == [0xC0 + u, 0x80 + v]
  {
    Sixes(u * 0x40 + v);
    SameDigits((u * 0x40 + v) / 0x40, (u * 0x40 + v) % 0x40, u, v);
  }

  lemma EncodedThree(u: nat, v: nat, w: nat)
    requires u < 0x10 && v < 0x40 && w < 0x40
    requires (u == 0 ==> v >= 0x20) && (u == 0xD ==> v < 0x20)
    ensures var s := (u * 0x40 + v) * 0x40 + w;
            !Surrogate(s) && EncodeOne(s) == [0xE0 + u, 0x80 + v, 0x80 + w]
  {
    var s := (u * 0x40 + v) * 0x40 + w;
    Sixes(s);
    SameDigits(s / 0x40, s % 0x40, u * 0x40 + v, w);
    SameDigits(s / 0x1000, s / 0x40 % 0x40, u, v);
  }

  lemma EncodedFour(u: nat, v: nat, w: nat, t: nat)
    requires u < 5 && v < 0x40 && w < 0x40 && t < 0x40
    requires (u == 0 ==> v >= 0x10) && (u == 4 ==> v < 0x10)
    ensures var s := ((u * 0x40 + v) * 0x40 + w) * 0x40 + t;
            0x1_0000 <= s < 0x11_0000 && EncodeOne(s) == [0xF0 + u, 0x80 + v, 0x80 + w, 0x80 + t]
  {
    BaseSixtyFour(u, v, w, t);
  }

  lemma LowSix(b: Byte)
    requires 0x80 <= b <= 0xBF
    ensures b % 0x40 == b - 0x80
  {
  }

  lemma Continued(s: State, b: Byte)
    requires s.needed > 0 && 0x80 <= s.lower <= b <= s.upper <= 0xBF
    ensures var bits := s.bits * 0x40 + (b - 0x80);
            Feed(s, b) == if s.needed > 1 then Progress(State(bits, s.needed - 1, 0x80, 0xBF), [])
                          else Progress(START, [if 0 <= bits < 0x11_0000 then bits else REPLACEMENT])
  {
    LowSix(b);
  }

  lemma Leads(a: Byte)
    ensures var s := Lead(a).state;
            && (s.needed == 1 ==> s == State(a - 0xC0, 1, 0x80, 0xBF) && 2 <= a - 0xC0 < 0x20)
            && (s.needed == 2 ==>
                && s.bits == a - 0xE0 && 0 <= a - 0xE0 < 0x10
                && s.lower == (if a == 0xE0 then 0xA0 else 0x80) && s.upper == if a == 0xED then 0x9F else 0xBF)
            && (s.needed == 3 ==>
                && s.bits == a - 0xF0 && 0 <= a - 0xF0 < 5
                && s.lower == (if a == 0xF0 then 0x90 else 0x80) && s.upper == if a == 0xF4 then 0x8F else 0xBF)
            && s.needed <= 3
  {
  }

  /**
   * Whatever the decoder takes for a character of several bytes is that character's own encoding:
   * no overlong form, no surrogate, nothing past the last code point.
   */
  lemma SequenceIsEncoding(a: Byte, rest: Bytes)
    requires var s := Lead(a).state;
             && s.needed == |rest| > 0 && s.lower <= rest[0] <= s.upper
             && forall i | 1 <= i < |rest| :: 0x80 <= rest[i] <= 0xBF
    ensures var p := FeedAll(Lead(a).state, rest);
            && p.state == START && |p.out| == 1 && !Surrogate(p.out[0]) && EncodeOne(p.out[0]) == [a] + rest
  {
    hide Lead, Feed, EncodeOne, FeedAll;
    Leads(a);
    var s0, none: Bytes := Lead(a).state, [];
    FeedNone(s0);
    var n := |rest|;
    FeedOne(s0, none, rest[0]);
    Continued(s0, rest[0]);
    assert none + [rest[0]] == rest[..1];
    var s1 := FeedAll(s0, rest[..1]).state;
    if n == 1 {
      EncodedTwo(a - 0xC0, rest[0] - 0x80);
      assert rest[..1] == rest && [a] + rest == [a, rest[0]];
    } else {
      FeedOne(s0, rest[..1], rest[1]);
      Continued(s1, rest[1]);
      assert rest[..1] + [rest[1]] == rest[..2];
      var s2 := FeedAll(s0, rest[..2]).state;
      if n == 2 {
        EncodedThree(a - 0xE0, rest[0] - 0x80, rest[1] - 0x80);
        assert rest[..2] == rest && [a] + rest == [a, rest[0], rest[1]];
      } else {
        FeedOne(s0, rest[..2], rest[2]);
        Continued(s2, rest[2]);
        assert rest[..2] + [rest[2]] == rest[..3] == rest;
        EncodedFour(a - 0xF0, rest[0] - 0x80, rest[1] - 0x80, rest[2] - 0x80);
        assert [a] + rest == [a, rest[0], rest[1], rest[2]];
      }
    }
  }

  /** A byte that cannot go on a sequence ends it with U+FFFD and is read afresh; one that starts none is U+FFFD. */
  lemma BrokenSequences(s: State, b: Byte)
    ensures s.needed > 0 && !(s.lower <= b <= s.upper) ==>
              Feed(s, b) == Progress(Feed(START, b).state, [0xFFFD] + Feed(START, b).out)
    ensures 0x80 <= b < 0xC2 || b > 0xF4 ==> Feed(START, b) == Progress(START, [0xFFFD])
    ensures b < 0x80 ==> Feed(START, b) == Progress(START, [b])
  {
  }

  lemma ScalarsOne(text: seq<CodePoint>, c: CodePoint)
    ensures Scalars(text + [c]) == Scalars(text) + [Scalar(c)]
  {
  }

  lemma ScalarTwice(c: CodePoint)
    ensures EncodeOne(Scalar(c)) == EncodeOne(c)
  {
    assert Scalar(Scalar(c)) == Scalar(c);
  }

  lemma {:induction false} EncodeScalars(text: seq<CodePoint>)
    ensures Encode(Scalars(text)) == Encode(text)
  {
    if text != [] {
      hide EncodeOne;
      var n := |text| - 1;
      EncodeScalars(text[..n]);
      assert Scalars(text)[..n] == Scalars(text[..n]);
      ScalarTwice(text[n]);
    } else {
      assert Scalars(text) == [];
    }
  }

  lemma {:induction false} FeedText(text: seq<CodePoint>)
    ensures FeedAll(START, Encode(text)) == Progress(START, Scalars(text))
  {
    if text == [] {
      FeedNone(START);
      assert Scalars(text) == [];
    } else {
      hide FeedAll, EncodeOne, Encode, Scalars, Scalar;
      var before, c := text[..|text| - 1], text[|text| - 1];
      FeedText(before);
      FeedAppend(START, Encode(before), EncodeOne(c));
      FeedWhole(c);
      LastApart(text);
      EncodeAppend(before, [c]);
      EncodeSingle(c);
      ScalarsOne(before, c);
    }
  }

  /**
   * A text cut after any number of bytes reads back as its whole characters, with one replacement
   * character if another one was cut into; and a text not cut reads back whole.
   */
  lemma DecodeCut(text: seq<CodePoint>, c: CodePoint, k: nat)
    requires k < |EncodeOne(c)|
    ensures Decode(Encode(text) + EncodeOne(c)[..k]) ==
            WithoutMark(Scalars(text) + if k > 0 then [REPLACEMENT] else [])
  {
    hide FeedAll, EncodeOne, Encode, Partial, Scalars;
    FeedText(text);
    FeedAppend(START, Encode(text), EncodeOne(c)[..k]);
    EmptyIsUnit(Scalars(text));
    if k > 0 {
      FeedPart(c, k);
      PartialNeeds(c, k);
    } else {
      FeedNone(START);
      assert EncodeOne(c)[..0] == [];
    }
  }

  lemma PartialNeeds(c: CodePoint, k: nat)
    requires 0 < k < |EncodeOne(c)|
    ensures Partial(c, k).needed > 0
  {
    FirstByte(c);
  }

  lemma DecodeEncode(text: seq<CodePoint>)
    ensures Decode(Encode(text)) == WithoutMark(Scalars(text))
  {
    FeedText(text);
    EmptyIsUnit(Scalars(text));
  }
}
