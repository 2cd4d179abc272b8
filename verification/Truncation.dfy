/** Bounding a captured body: `truncateUtf8` of guest-js/instrumentation.ts, lines 1468-1478. */
module Truncation {
  import opened Text
  import opened Utf8

  const MAX_DETAIL_BYTES := 0x1_0000

  /** "…[truncated]" */
  const SUFFIX: seq<CodePoint> := [0x2026, 0x5B, 0x74, 0x72, 0x75, 0x6E, 0x63, 0x61, 0x74, 0x65, 0x64, 0x5D]

  const SUFFIX_BYTES := 14

  const BUDGET := MAX_DETAIL_BYTES - SUFFIX_BYTES

  lemma {:induction false} SuffixFits()
    ensures |Encode(SUFFIX)| == SUFFIX_BYTES
  {
    var a, b, c := SUFFIX[..3], SUFFIX[3..6], SUFFIX[6..9];
    var d := SUFFIX[9..];
    assert SUFFIX == a + b + c + d;
    EncodeAppend(a + b + c, d);
    EncodeAppend(a + b, c);
    EncodeAppend(a, b);
    EncodeThree(a);
    EncodeThree(b);
    EncodeThree(c);
    EncodeThree(d);
  }

  lemma EncodeThree(s: seq<CodePoint>)
    requires |s| == 3
    ensures |Encode(s)| == |EncodeOne(s[0])| + |EncodeOne(s[1])| + |EncodeOne(s[2])|
  {
    hide Encode, EncodeOne;
    EncodeSingle(s[0]);
    EncodeSingle(s[1]);
    EncodeSingle(s[2]);
    EncodeAppend([s[0]], [s[1]]);
    EncodeAppend([s[0]] + [s[1]], [s[2]]);
    assert s == [s[0]] + [s[1]] + [s[2]];
  }

  /** As many whole characters from the front as fit the budget. */
  function Fitting(text: seq<CodePoint>, budget: nat): (k: nat)
    ensures k <= |text|
  {
    if text == [] || |EncodeOne(text[0])| > budget then 0
    else 1 + Fitting(text[1..], budget - |EncodeOne(text[0])|)
  }

  lemma {:induction false} FittingIsLongest(text: seq<CodePoint>, budget: nat)
    ensures |Encode(text[..Fitting(text, budget)])| <= budget
    ensures forall k | Fitting(text, budget) < k <= |text| :: |Encode(text[..k])| > budget
  {
    if text != [] {
      forall k | 0 < k <= |text| ensures |Encode(text[..k])| == |EncodeOne(text[0])| + |Encode(text[1..][..k - 1])| {
        EncodeFront(text, k);
      }
      hide EncodeOne, Encode;
      if |EncodeOne(text[0])| <= budget {
        FittingIsLongest(text[1..], budget - |EncodeOne(text[0])|);
      }
      assert Encode(text[..0]) == [] by {
        EncodeNone();
        assert text[..0] == [];
      }
    } else {
      EncodeNone();
    }
  }

  lemma EncodeNone()
    ensures Encode([]) == []
  {
  }

  lemma EncodeFront(text: seq<CodePoint>, k: nat)
    requires 0 < k <= |text|
    ensures Encode(text[..k]) == EncodeOne(text[0]) + Encode(text[1..][..k - 1])
  {
    hide Encode, EncodeOne;
    EncodeSingle(text[0]);
    EncodeAppend([text[0]], text[1..][..k - 1]);
    assert text[..k] == [text[0]] + text[1..][..k - 1];
  }

  predicate Oversized(text: seq<CodePoint>) {
    |Encode(text)| > MAX_DETAIL_BYTES
  }

  predicate Marked(text: seq<CodePoint>) {
    text != [] && text[0] == BYTE_ORDER_MARK
  }

  /** The whole characters kept of an oversized text. */
  function Kept(text: seq<CodePoint>): seq<CodePoint> {
    text[..Fitting(text, BUDGET)]
  }

  /** How many bytes of the next character the cut leaves behind. */
  function Torn(text: seq<CodePoint>): int {
    BUDGET - |Encode(Kept(text))|
  }

  /**
   * What truncation means: an oversized text becomes its longest prefix of whole characters that
   * fits beside the suffix, and the suffix. Between them stands a replacement character if the cut
   * left three bytes of the next one, where it just fits; after a dropped byte order mark, any cut
   * leaves room for it.
   */
  function Truncated(text: seq<CodePoint>): seq<CodePoint> {
    if !Oversized(text) then text
    else
      WithoutMark(Scalars(Kept(text)))
      + (if Torn(text) == 3 || (Torn(text) > 0 && Marked(text)) then [REPLACEMENT] else [])
      + SUFFIX
  }

  lemma CutMiddle<T>(a: seq<T>, b: seq<T>, c: seq<T>, n: nat)
    requires |a| <= n <= |a| + |b|
    ensures (a + b + c)[..n] == a + b[..n - |a|]
  {
  }

  /** The next character is the one the cut tears, and it is longer than what is left of it. */
  lemma TornCharacter(text: seq<CodePoint>)
    requires Oversized(text)
    ensures var k := Fitting(text, BUDGET);
            && k < |text| && 0 <= Torn(text) < |EncodeOne(text[k])|
            && Encode(text)[..BUDGET] == Encode(Kept(text)) + EncodeOne(text[k])[..Torn(text)]
  {
    hide Encode, EncodeOne, Fitting;
    var k := Fitting(text, BUDGET);
    FittingIsLongest(text, BUDGET);
    assert text[..|text|] == text;
    EncodeAppend(text[..k], [text[k]]);
    EncodeSingle(text[k]);
    assert text[..k + 1] == text[..k] + [text[k]];
    EncodeAppend(text[..k + 1], text[k + 1..]);
    assert text == text[..k + 1] + text[k + 1..];
    CutMiddle(Encode(text[..k]), EncodeOne(text[k]), Encode(text[k + 1..]), BUDGET);
  }

  /** `prefix.slice(0, -1)`: one UTF-16 code unit less. */
  function DropUnit(text: seq<CodePoint>): seq<CodePoint> {
    if text == [] then []
    else
      var n := |text| - 1;
      if text[n] >= 0x1_0000 then text[..n] + [0xD800 + (text[n] - 0x1_0000) / 0x400] else text[..n]
  }

  /** The kept part starts as the text does. */
  lemma KeptStart(text: seq<CodePoint>)
    requires Oversized(text)
    ensures var scalars := Scalars(Kept(text));
            Marked(text) <==> scalars != [] && scalars[0] == BYTE_ORDER_MARK
  {
    TornCharacter(text);
    assert Fitting(text, BUDGET) > 0;
    assert Scalars(Kept(text))[0] == Scalar(text[0]);
    hide Encode, Fitting;
  }

  /** What the decoded cut takes to write again. */
  lemma CutSize(text: seq<CodePoint>)
    requires Oversized(text)
    ensures var shown := WithoutMark(Scalars(Kept(text)));
            && WithoutMark(Scalars(Kept(text)) + [REPLACEMENT]) == shown + [REPLACEMENT]
            && |Encode(shown)| == |Encode(Kept(text))| - (if Marked(text) then 3 else 0)
            && |Encode(shown + [REPLACEMENT])| == |Encode(shown)| + 3
  {
    hide Encode, Fitting, Scalars, Kept;
    var scalars := Scalars(Kept(text));
    var shown := WithoutMark(scalars);
    KeptStart(text);
    EncodeScalars(Kept(text));
    EncodeAppend(shown, [REPLACEMENT]);
    EncodeSingle(REPLACEMENT);
    if Marked(text) {
      FirstApart(scalars);
      EncodeAppend([BYTE_ORDER_MARK], shown);
      EncodeSingle(BYTE_ORDER_MARK);
      assert (scalars + [REPLACEMENT])[1..] == shown + [REPLACEMENT];
    }
  }

  method TruncateUtf8(text: seq<CodePoint>) returns (result: seq<CodePoint>, ghost trims: nat)
    ensures result == Truncated(text)
    ensures |Encode(text)| <= 65536 ==> result == text
    ensures trims <= 1
  {
    hide Encode, EncodeOne, Scalars;
    trims := 0;
    var bytes := Encode(text);
    if |bytes| <= MAX_DETAIL_BYTES {
      return text, 0;
    }
    var suffixBytes := |Encode(SUFFIX)|;
    SuffixFits();
    TornCharacter(text);
    CutSize(text);
    ghost var shown := WithoutMark(Scalars(Kept(text)));
    DecodeCut(Kept(text), text[Fitting(text, BUDGET)], Torn(text));
    EmptyIsUnit(Scalars(Kept(text)));
    var prefix := Decode(bytes[..MAX_DETAIL_BYTES - suffixBytes]);
    assert prefix == if Torn(text) > 0 then shown + [REPLACEMENT] else shown;
    while |Encode(prefix)| + suffixBytes > MAX_DETAIL_BYTES
      invariant trims <= 1
      invariant prefix == (if Torn(text) > 0 && trims == 0 then shown + [REPLACEMENT] else shown)
      invariant trims == 1 ==> 0 < Torn(text) < 3 && !Marked(text)
      decreases |prefix|
    {
      assert Torn(text) > 0 && trims == 0;
      prefix := DropUnit(prefix);
      trims := trims + 1;
    }
    result := prefix + SUFFIX;
    EmptyIsUnit(shown);
  }

  /** The bound holds for every text. */
  lemma TruncatedIsBounded(text: seq<CodePoint>)
    ensures |Encode(Truncated(text))| <= 65536
  {
    if Oversized(text) {
      SuffixFits();
      TornCharacter(text);
      CutSize(text);
      var shown := WithoutMark(Scalars(Kept(text)));
      EmptyIsUnit(shown);
      EncodeAppend(shown, SUFFIX);
      EncodeAppend(shown + [REPLACEMENT], SUFFIX);
      hide Encode, EncodeOne, Scalars;
    }
  }

  /** Exactly the texts that fit are left as they are. */
  lemma UnchangedIffItFits(text: seq<CodePoint>)
    ensures Truncated(text) == text <==> |Encode(text)| <= 65536
  {
    hide Encode, Scalars, Fitting;
    TruncatedIsBounded(text);
  }

  /**
   * What becomes of any other text: its first `k` characters, as many as fit beside the suffix,
   * without a byte order mark in front, lone surrogates replaced; U+FFFD if `left`, what is left
   * of the budget, is three bytes, or any for a text with a mark; and the suffix.
   */
  lemma TruncatedIsThis(text: seq<CodePoint>) returns (k: nat, left: nat)
    requires |Encode(text)| > 65536
    ensures k < |text| && |Encode(text[..k])| + left == 65522 && left < |EncodeOne(text[k])|
    ensures var marked := text[0] == 0xFEFF;
            && (marked ==> k > 0)
            && Truncated(text) == Scalars(if marked then text[1..k] else text[..k])
                 + (if left == 3 || (left > 0 && marked) then [0xFFFD] else [])
                 + [0x2026, 0x5B, 0x74, 0x72, 0x75, 0x6E, 0x63, 0x61, 0x74, 0x65, 0x64, 0x5D]
  {
    hide Encode, EncodeOne, Fitting;
    TornCharacter(text);
    KeptStart(text);
    k, left := Fitting(text, BUDGET), Torn(text);
    assert Kept(text) == text[..k];
    if text[0] == 0xFEFF {
      assert k > 0 by { FittingTakesOne(text, BUDGET); }
      assert Scalars(text[..k])[1..] == Scalars(text[1..k]);
    }
  }

  lemma FittingTakesOne(text: seq<CodePoint>, budget: nat)
    requires text != [] && budget >= 4
    ensures Fitting(text, budget) > 0
  {
    hide EncodeOne;
  }

  /** Without a byte order mark in front, what is kept is the longest prefix there is room for. */
  lemma TruncatedIsLongestPrefix(text: seq<CodePoint>)
    requires Oversized(text)
    ensures var k := Fitting(text, BUDGET);
            && k < |text| && |Encode(text[..k] + SUFFIX)| <= MAX_DETAIL_BYTES < |Encode(text[..k + 1] + SUFFIX)|
            && (Torn(text) == 3 ==> |EncodeOne(text[k])| == 4)
            && (Truncated(text) == Scalars(text[..k]) + (if Torn(text) == 3 then [REPLACEMENT] else []) + SUFFIX
                <==> !Marked(text))
  {
    hide Encode, EncodeOne, Scalars, Fitting;
    var k := Fitting(text, BUDGET);
    SuffixFits();
    FittingIsLongest(text, BUDGET);
    TornCharacter(text);
    EncodeAppend(text[..k], SUFFIX);
    EncodeAppend(text[..k + 1], SUFFIX);
    KeptStart(text);
    if Marked(text) {
      DropsMark(text);
    }
  }

  /** There is such a text: a mark and 65536 letters. */
  lemma MarkedTextCanBeOversized()
    ensures var text := [BYTE_ORDER_MARK] + seq(MAX_DETAIL_BYTES, _ => 0x61);
            Oversized(text) && Marked(text)
  {
    hide Encode, EncodeOne;
    var letters := seq(MAX_DETAIL_BYTES, _ => 0x61 as CodePoint);
    EncodeAppend([BYTE_ORDER_MARK], letters);
    EncodeSingle(BYTE_ORDER_MARK);
    NoShorterEncoded(letters);
  }

  lemma {:induction false} NoShorterEncoded(text: seq<CodePoint>)
    ensures |Encode(text)| >= |text|
  {
    if text != [] {
      NoShorterEncoded(text[..|text| - 1]);
    }
  }

  /** Dropping the mark always shows, even where the replacement character makes up for the length. */
  lemma DropsMark(text: seq<CodePoint>)
    requires Oversized(text) && Marked(text) && Scalars(Kept(text)) != [] && Scalars(Kept(text))[0] == BYTE_ORDER_MARK
    ensures Truncated(text) != Scalars(Kept(text)) + (if Torn(text) == 3 then [REPLACEMENT] else []) + SUFFIX
  {
    hide Scalars, Kept, Encode;
    var kept := Scalars(Kept(text));
    if 0 < Torn(text) && Torn(text) != 3 {
      EmptyIsUnit(kept);
      if kept[1..] + [REPLACEMENT] + SUFFIX == kept + SUFFIX {
        assert kept == (kept + SUFFIX)[..|kept|] == kept[1..] + [REPLACEMENT];
        Shifted(kept);
      }
    }
  }

  lemma {:induction false} Shifted(s: seq<CodePoint>)
    requires s != [] && s == s[1..] + [REPLACEMENT]
    ensures s[0] == REPLACEMENT
  {
    var i := |s| - 1;
    while i > 0
      invariant 0 <= i < |s| && s[i] == REPLACEMENT
    {
      assert s[i - 1] == s[1..][i - 1];
      i := i - 1;
    }
  }
}
