/** The app-id path escape, written twice: daemon/endpoint.ts, lines 191-206, and src/endpoint.rs, lines 332-352. */
module AppId {
  import opened Text
  import opened Utf8

  const DOT: Byte := 0x2e

  predicate Alphanumeric(b: Byte) {
    0x41 <= b <= 0x5a || 0x61 <= b <= 0x7a || 0x30 <= b <= 0x39
  }

  predicate Plain(b: Byte, encodeDots: bool) {
    Alphanumeric(b) || b == 0x5f || b == 0x2d || (b == DOT && !encodeDots)
  }

  predicate AllDots(bytes: Bytes) {
    forall i | 0 <= i < |bytes| :: bytes[i] == DOT
  }

  const HEX := "0123456789ABCDEF"

  function EscapeByte(b: Byte, encodeDots: bool): string {
    if Plain(b, encodeDots) then [b as char] else ['~', HEX[b / 16], HEX[b % 16]]
  }

  function EscapeAll(bytes: Bytes, encodeDots: bool): string {
    if bytes == [] then "" else EscapeByte(bytes[0], encodeDots) + EscapeAll(bytes[1..], encodeDots)
  }

  function SafeAppId(bytes: Bytes): string {
    if bytes == [] then "~" else EscapeAll(bytes, AllDots(bytes))
  }

  // ---------------------------------------------------------------- reading it back

  function HexValue(c: char): int {
    if '0' <= c <= '9' then c as int - '0' as int
    else if 'A' <= c <= 'F' then c as int - 'A' as int + 10
    else 0
  }

  function ByteOf(c: char): Byte {
    if c as int < 256 then c as int else 0
  }

  function Unescape(s: string): Bytes
    decreases |s|
  {
    if s == "" then []
    else if s[0] == '~' && |s| >= 3 then [HexValue(s[1]) * 16 + HexValue(s[2])] + Unescape(s[3..])
    else [ByteOf(s[0])] + Unescape(s[1..])
  }

  function AppIdOf(s: string): Bytes {
    if s == "~" then [] else Unescape(s)
  }

  lemma HexRoundTrip(d: nat)
    requires d < 16
    ensures HexValue(HEX[d]) == d
  {
  }

  lemma UnescapeByte(b: Byte, encodeDots: bool, rest: string)
    ensures Unescape(EscapeByte(b, encodeDots) + rest) == [b] + Unescape(rest)
  {
    var s := EscapeByte(b, encodeDots) + rest;
    if Plain(b, encodeDots) {
      assert s[0] == b as char && s[1..] == rest;
    } else {
      HexRoundTrip(b / 16);
      HexRoundTrip(b % 16);
      assert s[0] == '~' && s[1] == HEX[b / 16] && s[2] == HEX[b % 16] && s[3..] == rest;
    }
  }

  lemma {:induction false} UnescapeAll(bytes: Bytes, encodeDots: bool)
    ensures Unescape(EscapeAll(bytes, encodeDots)) == bytes
  {
    if bytes != [] {
      hide EscapeByte, Unescape;
      UnescapeAll(bytes[1..], encodeDots);
      UnescapeByte(bytes[0], encodeDots, EscapeAll(bytes[1..], encodeDots));
    }
  }

  /** Every app id can be read back from its path component. */
  lemma AppIdRoundTrip(bytes: Bytes)
    ensures AppIdOf(SafeAppId(bytes)) == bytes
  {
    if bytes != [] {
      UnescapeAll(bytes, AllDots(bytes));
      LoneTilde(bytes, AllDots(bytes));
    }
  }

  lemma LoneTilde(bytes: Bytes, encodeDots: bool)
    requires bytes != []
    ensures EscapeAll(bytes, encodeDots) != "~"
  {
    var first := EscapeByte(bytes[0], encodeDots);
    if |first| == 1 {
      assert (first + EscapeAll(bytes[1..], encodeDots))[0] == bytes[0] as char;
    }
  }

  /** So different app ids never share a runtime directory. */
  lemma SafeAppIdInjective(a: Bytes, b: Bytes)
    ensures SafeAppId(a) == SafeAppId(b) <==> a == b
  {
    hide SafeAppId, AppIdOf;
    AppIdRoundTrip(a);
    AppIdRoundTrip(b);
  }

  /**
   * For ids that are JavaScript strings: only texts that differ by lone surrogates, which
   * `TextEncoder` replaces, share a component.
   */
  lemma TextIdsShareIffSameScalars(a: seq<CodePoint>, b: seq<CodePoint>)
    ensures SafeAppId(Encode(a)) == SafeAppId(Encode(b)) <==> Scalars(a) == Scalars(b)
  {
    hide SafeAppId, Encode, FeedAll, Scalars;
    SafeAppIdInjective(Encode(a), Encode(b));
    FeedText(a);
    FeedText(b);
    EncodeScalars(a);
    EncodeScalars(b);
  }

  // ---------------------------------------------------------------- safety as a path component

  predicate PathChar(c: char) {
    'A' <= c <= 'Z' || 'a' <= c <= 'z' || '0' <= c <= '9' || c == '.' || c == '_' || c == '~' || c == '-'
  }

  lemma HexIsPathChar(d: nat)
    requires d < 16
    ensures PathChar(HEX[d])
  {
  }

  lemma EscapeByteSafe(b: Byte, encodeDots: bool)
    ensures EscapeByte(b, encodeDots) != []
    ensures forall i | 0 <= i < |EscapeByte(b, encodeDots)| :: PathChar(EscapeByte(b, encodeDots)[i])
  {
    HexIsPathChar(b / 16);
    HexIsPathChar(b % 16);
    hide HEX;
  }

  lemma {:induction false} EscapeAllSafe(bytes: Bytes, encodeDots: bool)
    ensures forall i | 0 <= i < |EscapeAll(bytes, encodeDots)| :: PathChar(EscapeAll(bytes, encodeDots)[i])
    ensures |EscapeAll(bytes, encodeDots)| >= |bytes|
  {
    if bytes != [] {
      EscapeAllSafe(bytes[1..], encodeDots);
      EscapeByteSafe(bytes[0], encodeDots);
      hide EscapeByte, PathChar;
    }
  }

  lemma DotsInFront(bytes: Bytes)
    requires bytes != []
    ensures bytes[0] == DOT && AllDots(bytes[1..]) ==> AllDots(bytes)
  {
    assert forall i | 0 < i < |bytes| :: bytes[i] == bytes[1..][i - 1];
  }

  lemma {:induction false} NotAllDots(bytes: Bytes, encodeDots: bool)
    requires bytes != [] && (AllDots(bytes) ==> encodeDots)
    ensures exists i :: 0 <= i < |EscapeAll(bytes, encodeDots)| && EscapeAll(bytes, encodeDots)[i] != '.'
  {
    var first, rest := EscapeByte(bytes[0], encodeDots), EscapeAll(bytes[1..], encodeDots);
    if first == "." {
      assert bytes[0] == DOT;
      DotsInFront(bytes);
      NotAllDots(bytes[1..], encodeDots);
      var i :| 0 <= i < |rest| && rest[i] != '.';
      assert EscapeAll(bytes, encodeDots)[i + 1] == rest[i];
    } else {
      assert first[0] != '.';
      assert EscapeAll(bytes, encodeDots)[0] == first[0];
    }
  }

  /** The component is never empty, never `.` or `..`, and holds no separator or other special character. */
  lemma SafeAppIdIsPathSafe(bytes: Bytes)
    ensures SafeAppId(bytes) != ""
    ensures forall i | 0 <= i < |SafeAppId(bytes)| :: PathChar(SafeAppId(bytes)[i])
    ensures exists i :: 0 <= i < |SafeAppId(bytes)| && SafeAppId(bytes)[i] != '.'
  {
    if bytes == [] {
      assert SafeAppId(bytes)[0] == '~';
    } else {
      EscapeAllSafe(bytes, AllDots(bytes));
      NotAllDots(bytes, AllDots(bytes));
    }
  }

  /** A plain name stands for itself: letters, digits, `_`, `-` and dots, but not dots alone. */
  lemma PlainIdIsItsOwnComponent(bytes: Bytes)
    requires forall i | 0 <= i < |bytes| :: PathChar(bytes[i] as char) && bytes[i] != 0x7e
    requires exists i :: 0 <= i < |bytes| && bytes[i] != 0x2e
    ensures SafeAppId(bytes) == seq(|bytes|, i requires 0 <= i < |bytes| => bytes[i] as char)
  {
    PlainEscape(bytes);
  }

  lemma {:induction false} PlainEscape(bytes: Bytes)
    requires forall i | 0 <= i < |bytes| :: PathChar(bytes[i] as char) && bytes[i] != 0x7e
    ensures EscapeAll(bytes, false) == seq(|bytes|, i requires 0 <= i < |bytes| => bytes[i] as char)
  {
    if bytes != [] {
      PlainEscape(bytes[1..]);
      assert PathChar(bytes[0] as char);
    }
  }

  /** Any other byte is escaped, wherever it stands. */
  lemma OtherBytesAreEscaped(a: Bytes, b: Byte, c: Bytes)
    requires !PathChar(b as char) || b == 0x7e
    ensures SafeAppId(a + [b] + c)
         == EscapeAll(a, false) + ['~', "0123456789ABCDEF"[b / 16], "0123456789ABCDEF"[b % 16]] + EscapeAll(c, false)
  {
    hide EscapeAll;
    EscapeAppend(a + [b], c, false);
    EscapeAppend(a, [b], false);
    OneEscaped(b, false);
    assert (a + [b] + c)[|a|] == b && b != DOT;
    assert HEX == "0123456789ABCDEF";
    assert EscapeByte(b, false) == ['~', "0123456789ABCDEF"[b / 16], "0123456789ABCDEF"[b % 16]];
    hide EscapeByte, HEX;
  }

  /** Dots are escaped if there is nothing else, and the empty id is a tilde. */
  lemma DotsAreEscaped()
    ensures SafeAppId([0x2e]) == "~2E" && SafeAppId([0x2e, 0x2e]) == "~2E~2E" && SafeAppId([]) == "~"
  {
    OneEscaped(DOT, true);
    EscapeAppend([DOT], [DOT], true);
    assert [DOT] + [DOT] == [DOT, DOT];
    hide EscapeAll;
  }

  lemma OneEscaped(b: Byte, encodeDots: bool)
    ensures EscapeAll([b], encodeDots) == EscapeByte(b, encodeDots)
  {
    EmptyIsUnit(EscapeByte(b, encodeDots));
    assert [b][1..] == [];
  }

  lemma {:induction false} EscapeAppend(a: Bytes, b: Bytes, encodeDots: bool)
    ensures EscapeAll(a + b, encodeDots) == EscapeAll(a, encodeDots) + EscapeAll(b, encodeDots)
  {
    if a == [] {
      EmptyIsUnit(b);
      EmptyIsUnit(EscapeAll(b, encodeDots));
    } else {
      hide EscapeByte;
      EscapeAppend(a[1..], b, encodeDots);
      assert (a + b)[1..] == a[1..] + b;
      Assoc(EscapeByte(a[0], encodeDots), EscapeAll(a[1..], encodeDots), EscapeAll(b, encodeDots));
    }
  }

  // ---------------------------------------------------------------- the two loops

  /** `byte.toString(16)`. */
  function LowerHex(n: nat): string {
    if n < 16 then ["0123456789abcdef"[n]] else LowerHex(n / 16) + ["0123456789abcdef"[n % 16]]
  }

  function Upper(s: string): string {
    seq(|s|, i requires 0 <= i < |s| => if 'a' <= s[i] <= 'z' then (s[i] as int - 32) as char else s[i])
  }

  /** `padStart(2, '0')`. */
  function PadStart(s: string): string {
    if |s| >= 2 then s else seq(2 - |s|, _ => '0') + s
  }

  lemma UpperDigit(d: nat)
    requires d < 16
    ensures var c := "0123456789abcdef"[d];
            (if 'a' <= c <= 'z' then (c as int - 32) as char else c) == HEX[d]
  {
  }

  lemma PaddedHex(b: Byte)
    ensures PadStart(Upper(LowerHex(b))) == [HEX[b / 16], HEX[b % 16]]
  {
    UpperDigit(b / 16);
    UpperDigit(b % 16);
    if b >= 16 {
      assert LowerHex(b) == ["0123456789abcdef"[b / 16]] + ["0123456789abcdef"[b % 16]];
    }
  }

  lemma EscapeStep(bytes: Bytes, i: nat, encoded: string, encodeDots: bool)
    requires i < |bytes| && encoded + EscapeAll(bytes[i..], encodeDots) == EscapeAll(bytes, encodeDots)
    ensures encoded + EscapeByte(bytes[i], encodeDots) + EscapeAll(bytes[i + 1..], encodeDots)
         == EscapeAll(bytes, encodeDots)
  {
    assert bytes[i..][0] == bytes[i] && bytes[i..][1..] == bytes[i + 1..];
    hide EscapeByte;
    assert EscapeAll(bytes[i..], encodeDots)
        == EscapeByte(bytes[i], encodeDots) + EscapeAll(bytes[i + 1..], encodeDots);
    hide EscapeAll;
    Assoc(encoded, EscapeByte(bytes[i], encodeDots), EscapeAll(bytes[i + 1..], encodeDots));
  }

  lemma EscapeEnds(bytes: Bytes, encoded: string, encodeDots: bool)
    requires encoded + EscapeAll(bytes[|bytes|..], encodeDots) == EscapeAll(bytes, encodeDots)
    ensures encoded == EscapeAll(bytes, encodeDots)
  {
    EmptyIsUnit(encoded);
  }

  method SafeAppIdInTypeScript(bytes: Bytes) returns (encoded: string)
    ensures encoded == SafeAppId(bytes)
  {
    hide HEX, EscapeAll, LowerHex, Upper, PadStart;
    if |bytes| == 0 {
      return "~";
    }
    var encodeDots := AllDots(bytes);
    encoded := "";
    for i := 0 to |bytes|
      invariant encoded + EscapeAll(bytes[i..], encodeDots) == EscapeAll(bytes, encodeDots)
    {
      var byte := bytes[i];
      var safe := (0x41 <= byte <= 0x5a)
                  || (0x61 <= byte <= 0x7a)
                  || (0x30 <= byte <= 0x39)
                  || byte == 0x5f
                  || byte == 0x2d
                  || (byte == 0x2e && !encodeDots);
      PaddedHex(byte);
      var piece := if safe then [byte as char] else ['~'] + PadStart(Upper(LowerHex(byte)));
      assert piece == EscapeByte(byte, encodeDots);
      EscapeStep(bytes, i, encoded, encodeDots);
      encoded := encoded + piece;
    }
    EscapeEnds(bytes, encoded, encodeDots);
  }

  method SafeAppIdInRust(bytes: Bytes) returns (encoded: string)
    ensures encoded == SafeAppId(bytes)
  {
    hide EscapeAll;
    if |bytes| == 0 {
      return "~";
    }
    var encodeDots := AllDots(bytes);
    encoded := "";
    for i := 0 to |bytes|
      invariant encoded + EscapeAll(bytes[i..], encodeDots) == EscapeAll(bytes, encodeDots)
    {
      var byte := bytes[i];
      var safe := Alphanumeric(byte) || byte == 0x5f || byte == 0x2d || (byte == DOT && !encodeDots);
      ghost var before := encoded;
      EscapeStep(bytes, i, encoded, encodeDots);
      if safe {
        encoded := encoded + [byte as char];
      } else {
        encoded := encoded + ['~'];
        encoded := encoded + [HEX[byte / 16]];
        encoded := encoded + [HEX[byte % 16]];
      }
      assert encoded == before + EscapeByte(byte, encodeDots);
    }
    EscapeEnds(bytes, encoded, encodeDots);
  }
}
