/** Base64 with the two alphabets of sections 4 and 5 of RFC 4648, padded, and decimal numerals. Three bytes become
    four symbols; a symbol is a value below 64 or the padding, and is written as one character. */
module Base64 {
  import opened Wrappers
  import opened Bytes

  datatype Alphabet = Standard | UrlSafe

  type symbol = v: int | 0 <= v <= 64

  const PADDING: symbol := 64

  // ---------------------------------------------------------------- symbols and characters

  function CharOf(a: Alphabet, v: symbol): char {
    if v < 26 then 'A' + v as char
    else if v < 52 then 'a' + (v - 26) as char
    else if v < 62 then '0' + (v - 52) as char
    else if v == 62 then (if a == Standard then '+' else '-')
    else if v == 63 then (if a == Standard then '/' else '_')
    else '='
  }

  function SymbolOf(a: Alphabet, c: char): Option<symbol> {
    if 'A' <= c <= 'Z' then Some(c as int - 'A' as int)
    else if 'a' <= c <= 'z' then Some(c as int - 'a' as int + 26)
    else if '0' <= c <= '9' then Some(c as int - '0' as int + 52)
    else if c == (if a == Standard then '+' else '-') then Some(62)
    else if c == (if a == Standard then '/' else '_') then Some(63)
    else if c == '=' then Some(PADDING)
    else None
  }

  lemma SymbolOfChar(a: Alphabet, v: symbol)
    ensures SymbolOf(a, CharOf(a, v)) == Some(v)
    ensures CharOf(a, v) == '=' <==> v == PADDING
  {
  }

  function Write(a: Alphabet, symbols: seq<symbol>): (text: string)
    ensures |text| == |symbols|
    ensures forall i | 0 <= i < |text| :: text[i] == CharOf(a, symbols[i])
  {
    seq(|symbols|, i requires 0 <= i < |symbols| => CharOf(a, symbols[i]))
  }

  function Read(a: Alphabet, text: string): Option<seq<symbol>> {
    if text == "" then Some([])
    else
      match (SymbolOf(a, text[0]), Read(a, text[1..]))
      case (Some(v), Some(rest)) => Some([v] + rest)
      case _ => None
  }

  lemma {:induction false} ReadWrite(a: Alphabet, symbols: seq<symbol>)
    ensures Read(a, Write(a, symbols)) == Some(symbols)
    decreases |symbols|
  {
    if symbols != [] {
      SymbolOfChar(a, symbols[0]);
      ReadWrite(a, symbols[1..]);
      assert Write(a, symbols)[1..] == Write(a, symbols[1..]);
      assert symbols == [symbols[0]] + symbols[1..];
    }
  }

  // ---------------------------------------------------------------- bytes and symbols

  function Group(b0: byte, b1: byte, b2: byte): seq<symbol> {
    [b0 / 4, b0 % 4 * 16 + b1 / 16, b1 % 16 * 4 + b2 / 64, b2 % 64]
  }

  function Symbols(s: seq<byte>): seq<symbol>
    decreases |s|
  {
    if |s| == 0 then []
    else if |s| == 1 then Group(s[0], 0, 0)[..2] + [PADDING, PADDING]
    else if |s| == 2 then Group(s[0], s[1], 0)[..3] + [PADDING]
    else Group(s[0], s[1], s[2]) + Symbols(s[3..])
  }

  /** Whether the value of a group is made of symbols proper. */
  predicate Proper(symbols: seq<symbol>) {
    forall i | 0 <= i < |symbols| :: symbols[i] != PADDING
  }

  /** The bytes of a group of four symbols; the spare low bits of the last symbol in use are dropped. */
  function Byte0(v0: symbol, v1: symbol): byte
    requires v0 < 64 && v1 < 64
  {
    v0 * 4 + v1 / 16
  }

  function Byte1(v1: symbol, v2: symbol): byte
    requires v1 < 64 && v2 < 64
  {
    v1 % 16 * 16 + v2 / 4
  }

  function Byte2(v2: symbol, v3: symbol): byte
    requires v2 < 64 && v3 < 64
  {
    v2 % 4 * 64 + v3
  }

  /** Full groups of four symbols, the last of which may end in one or two paddings. */
  function FromSymbols(v: seq<symbol>): Option<seq<byte>>
    decreases |v|
  {
    if |v| == 0 then Some([])
    else if |v| < 4 || !Proper(v[..2]) then None
    else if |v| == 4 && v[2] == PADDING && v[3] == PADDING then Some([Byte0(v[0], v[1])])
    else if v[2] == PADDING then None
    else if |v| == 4 && v[3] == PADDING then Some([Byte0(v[0], v[1]), Byte1(v[1], v[2])])
    else if v[3] == PADDING then None
    else
      match FromSymbols(v[4..])
      case None => None
      case Some(rest) => Some([Byte0(v[0], v[1]), Byte1(v[1], v[2]), Byte2(v[2], v[3])] + rest)
  }

  lemma RoundTrip0(b0: byte, b1: byte)
    ensures Byte0(b0 / 4, b0 % 4 * 16 + b1 / 16) == b0
  {
  }

  lemma RoundTrip1(b0: byte, b1: byte, b2: byte)
    ensures Byte1(b0 % 4 * 16 + b1 / 16, b1 % 16 * 4 + b2 / 64) == b1
  {
    var low, high, head, tail := b1 % 16, b1 / 16, b0 % 4, b2 / 64;
    assert (head * 16 + high) % 16 == high;
    assert (low * 4 + tail) / 4 == low;
  }

  lemma RoundTrip2(b1: byte, b2: byte)
    ensures Byte2(b1 % 16 * 4 + b2 / 64, b2 % 64) == b2
  {
  }

  lemma LastGroup(v: seq<symbol>)
    requires |v| == 4 && v[0] < 64 && v[1] < 64 && v[3] == PADDING
    ensures FromSymbols(v) == Some(if v[2] == PADDING then [Byte0(v[0], v[1])]
                                   else [Byte0(v[0], v[1]), Byte1(v[1], v[2])])
  {
  }

  lemma FullGroup(v: seq<symbol>, rest: seq<symbol>)
    requires |v| == 4 && Proper(v) && FromSymbols(rest).Some?
    ensures FromSymbols(v + rest)
            == Some([Byte0(v[0], v[1]), Byte1(v[1], v[2]), Byte2(v[2], v[3])] + FromSymbols(rest).value)
  {
    assert (v + rest)[4..] == rest;
  }

  lemma OneByte(b0: byte)
    ensures FromSymbols(Symbols([b0])) == Some([b0])
  {
    LastGroup(Symbols([b0]));
    RoundTrip0(b0, 0);
  }

  lemma TwoBytes(b0: byte, b1: byte)
    ensures FromSymbols(Symbols([b0, b1])) == Some([b0, b1])
  {
    LastGroup(Symbols([b0, b1]));
    RoundTrip0(b0, b1);
    RoundTrip1(b0, b1, 0);
  }

  lemma ThreeBytes(b0: byte, b1: byte, b2: byte, rest: seq<symbol>)
    requires FromSymbols(rest).Some?
    ensures FromSymbols(Group(b0, b1, b2) + rest) == Some([b0, b1, b2] + FromSymbols(rest).value)
  {
    FullGroup(Group(b0, b1, b2), rest);
    RoundTrip0(b0, b1);
    RoundTrip1(b0, b1, b2);
    RoundTrip2(b1, b2);
  }

  lemma {:induction false} FromToSymbols(s: seq<byte>)
    ensures FromSymbols(Symbols(s)) == Some(s)
    decreases |s|
  {
    if |s| == 1 {
      OneByte(s[0]);
      assert s == [s[0]];
    } else if |s| == 2 {
      TwoBytes(s[0], s[1]);
      assert s == [s[0], s[1]];
    } else if |s| > 2 {
      FromToSymbols(s[3..]);
      ThreeBytes(s[0], s[1], s[2], Symbols(s[3..]));
      assert s == [s[0], s[1], s[2]] + s[3..];
    }
  }

  // ---------------------------------------------------------------- the codec

  function Encode(a: Alphabet, s: seq<byte>): string {
    Write(a, Symbols(s))
  }

  function Decode(a: Alphabet, text: string): Option<seq<byte>> {
    match Read(a, text)
    case None => None
    case Some(symbols) => FromSymbols(symbols)
  }

  lemma DecodeEncode(a: Alphabet, s: seq<byte>)
    ensures Decode(a, Encode(a, s)) == Some(s)
  {
    ReadWrite(a, Symbols(s));
    FromToSymbols(s);
  }

  /** Full groups, of which the last `n` symbols, two at most, are padding. */
  predicate PaddedBy(v: seq<symbol>, n: nat) {
    && |v| % 4 == 0 && n <= 2 && n <= |v|
    && forall i | 0 <= i < |v| :: v[i] == PADDING <==> |v| - n <= i
  }

  lemma PaddedRest(v: seq<symbol>, n: nat)
    requires |v| > 4
    ensures PaddedBy(v, n) <==> Proper(v[..4]) && PaddedBy(v[4..], n)
  {
    if Proper(v[..4]) && PaddedBy(v[4..], n) {
      forall i | 0 <= i < |v| ensures v[i] == PADDING <==> |v| - n <= i {
        assert v[i] == if i < 4 then v[..4][i] else v[4..][i - 4];
      }
    }
    if PaddedBy(v, n) {
      assert forall i | 0 <= i < |v| - 4 :: v[4..][i] == v[i + 4];
    }
  }

  lemma {:induction false} FromSymbolsIsExact(v: seq<symbol>)
    ensures FromSymbols(v).Some? <==> PaddedBy(v, 0) || PaddedBy(v, 1) || PaddedBy(v, 2)
    ensures forall n | 0 <= n <= 2 && PaddedBy(v, n) :: |FromSymbols(v).value| == |v| / 4 * 3 - n
    decreases |v|
  {
    if |v| > 4 {
      FromSymbolsIsExact(v[4..]);
      forall n: nat ensures PaddedBy(v, n) <==> Proper(v[..4]) && PaddedBy(v[4..], n) {
        PaddedRest(v, n);
      }
    } else if |v| == 4 {
      assert v[..2] == [v[0], v[1]];
    }
  }

  lemma {:induction false} ReadIsExact(a: Alphabet, text: string)
    ensures Read(a, text).Some? <==> forall i | 0 <= i < |text| :: SymbolOf(a, text[i]).Some?
    ensures Read(a, text).Some? ==>
              && |Read(a, text).value| == |text|
              && forall i | 0 <= i < |text| :: SymbolOf(a, text[i]) == Some(Read(a, text).value[i])
    decreases |text|
  {
    if text != "" {
      ReadIsExact(a, text[1..]);
      assert forall i | 1 <= i < |text| :: text[i] == text[1..][i - 1];
    }
  }

  /** A character of the alphabet, the padding aside. */
  predicate InAlphabet(a: Alphabet, c: char) {
    || 'A' <= c <= 'Z' || 'a' <= c <= 'z' || '0' <= c <= '9'
    || (a == Standard && c in "+/") || (a == UrlSafe && c in "-_")
  }

  /** Characters of the alphabet, filled up to full groups with at most two paddings at the end. */
  predicate WellFormed(a: Alphabet, text: string, n: nat) {
    && |text| % 4 == 0 && n <= 2 && n <= |text|
    && (forall i | 0 <= i < |text| - n :: InAlphabet(a, text[i]))
    && (forall i | |text| - n <= i < |text| :: text[i] == '=')
  }

  lemma SymbolIsExact(a: Alphabet, c: char)
    ensures SymbolOf(a, c).Some? <==> InAlphabet(a, c) || c == '='
    ensures SymbolOf(a, c) == Some(PADDING) <==> c == '='
    ensures c == '=' ==> !InAlphabet(a, c)
  {
  }

  /** A text is decoded exactly when it is well formed, into three bytes a group less one for each padding. */
  lemma DecodeIsExact(a: Alphabet, text: string)
    ensures Decode(a, text).Some? <==> WellFormed(a, text, 0) || WellFormed(a, text, 1) || WellFormed(a, text, 2)
    ensures forall n | 0 <= n <= 2 && WellFormed(a, text, n) :: |Decode(a, text).value| == |text| / 4 * 3 - n
  {
    ReadIsExact(a, text);
    forall c ensures SymbolOf(a, c).Some? <==> InAlphabet(a, c) || c == '='
             ensures SymbolOf(a, c) == Some(PADDING) <==> c == '='
             ensures c == '=' ==> !InAlphabet(a, c)
    {
      SymbolIsExact(a, c);
    }
    if Read(a, text).Some? {
      FromSymbolsIsExact(Read(a, text).value);
      forall n: nat ensures WellFormed(a, text, n) <==> PaddedBy(Read(a, text).value, n) {
        WellFormedIsPadded(a, text, Read(a, text).value, n);
      }
    }
  }

  lemma WellFormedIsPadded(a: Alphabet, text: string, v: seq<symbol>, n: nat)
    requires |v| == |text| && forall i | 0 <= i < |text| :: SymbolOf(a, text[i]) == Some(v[i])
    ensures WellFormed(a, text, n) <==> PaddedBy(v, n)
  {
    forall i | 0 <= i < |text| ensures v[i] == PADDING <==> text[i] == '='
                              ensures text[i] != '=' ==> InAlphabet(a, text[i])
                              ensures text[i] == '=' ==> !InAlphabet(a, text[i])
    {
      SymbolIsExact(a, text[i]);
    }
  }

  lemma {:induction false} SymbolCount(s: seq<byte>)
    ensures |Symbols(s)| == 4 * ((|s| + 2) / 3)
    decreases |s|
  {
    if |s| > 2 { SymbolCount(s[3..]); }
  }

  // ---------------------------------------------------------------- padding

  /** Removes every padding character at the end. */
  function Strip(text: string): string {
    if text != "" && text[|text| - 1] == '=' then Strip(text[..|text| - 1]) else text
  }

  function PaddingFor(length: nat): string {
    if length % 4 == 0 then "" else if length % 4 == 1 then "===" else if length % 4 == 2 then "==" else "="
  }

  /** Fills the last group of four up again. */
  function Pad(text: string): string {
    text + PaddingFor(|text|)
  }

  lemma StripPadding(head: string, text: string)
    requires head == "" || head[|head| - 1] != '='
    requires text == head || text == head + "=" || text == head + "=="
    ensures Strip(text) == head
  {
    assert Strip(head) == head;
    assert (head + "=")[..|head| + 1 - 1] == head;
    assert Strip(head + "=") == head;
    assert (head + "==")[..|head| + 2 - 1] == head + "=";
  }

  /** How many paddings the encoding of `s` ends in. */
  function Paddings(s: seq<byte>): (n: nat)
    ensures n <= 2
  {
    if |s| == 0 then 0 else if |s| == 1 then 2 else if |s| == 2 then 1 else Paddings(s[3..])
  }

  /** The paddings fill the last group of four, and nothing else does. */
  lemma {:induction false} PaddingIsLast(s: seq<byte>)
    ensures var v := Symbols(s);
            && |v| % 4 == 0 && Paddings(s) <= |v|
            && (forall i | 0 <= i < |v| :: v[i] == PADDING <==> |v| - Paddings(s) <= i)
    decreases |s|
  {
    if |s| > 2 {
      PaddingIsLast(s[3..]);
      var v, group, rest := Symbols(s), Group(s[0], s[1], s[2]), Symbols(s[3..]);
      assert v == group + rest && Paddings(s) == Paddings(s[3..]);
      forall i | 0 <= i < |v| ensures v[i] == PADDING <==> |v| - Paddings(s) <= i {
        if i >= 4 { assert v[i] == rest[i - 4]; } else { assert v[i] == group[i]; }
      }
    }
  }

  lemma EncodedShape(a: Alphabet, s: seq<byte>)
    ensures var text := Encode(a, s);
            && |text| % 4 == 0 && Paddings(s) <= |text|
            && (forall i | 0 <= i < |text| :: text[i] == '=' <==> |text| - Paddings(s) <= i)
  {
    PaddingIsLast(s);
    forall i | 0 <= i < |Symbols(s)| ensures Encode(a, s)[i] == '=' <==> Symbols(s)[i] == PADDING {
      SymbolOfChar(a, Symbols(s)[i]);
    }
  }

  /** What stripping the padding loses, `Pad` restores. */
  lemma PadStripEncode(a: Alphabet, s: seq<byte>)
    ensures Pad(Strip(Encode(a, s))) == Encode(a, s)
  {
    var text := Encode(a, s);
    EncodedShape(a, s);
    var n := |text| - Paddings(s);
    assert text == text[..n] + PaddingFor(n);
    StripPadding(text[..n], text);
  }

  // ---------------------------------------------------------------- decimal numerals

  function Digit(n: nat): byte
    requires n < 10
  {
    48 + n
  }

  function ToDecimal(n: nat): (s: seq<byte>)
    ensures |s| > 0
  {
    if n < 10 then [Digit(n)] else ToDecimal(n / 10) + [Digit(n % 10)]
  }

  function FromDecimal(s: seq<byte>): Option<nat> {
    if s == [] || !(48 <= s[|s| - 1] < 58) then None
    else if |s| == 1 then Some(s[0] - 48)
    else
      match FromDecimal(s[..|s| - 1])
      case None => None
      case Some(high) => Some(high * 10 + (s[|s| - 1] - 48))
  }

  lemma {:induction false} FromToDecimal(n: nat)
    ensures FromDecimal(ToDecimal(n)) == Some(n)
  {
    if n >= 10 {
      FromToDecimal(n / 10);
      var s := ToDecimal(n);
      assert s[..|s| - 1] == ToDecimal(n / 10);
    }
  }
}
