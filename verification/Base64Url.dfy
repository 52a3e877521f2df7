/** Bytes, and the URL-safe base64 alphabet of section 5 of RFC 4648. */
module Base64Url {
  import opened Text

  type Byte = b: int | 0 <= b < 256

  const ByteRank: Byte -> int := (b: Byte) => b

  function Symbol(v: nat): (c: char)
    requires v < 64
    ensures IsSymbol(c) && SymbolValue(c) == v
  {
    if v < 26 then 'A' + v as char
    else if v < 52 then 'a' + (v - 26) as char
    else if v < 62 then '0' + (v - 52) as char
    else if v == 62 then '-'
    else '_'
  }

  predicate IsSymbol(c: char) {
    IsLetter(c) || IsDigit(c) || c == '-' || c == '_'
  }

  function SymbolValue(c: char): (v: nat)
    requires IsSymbol(c)
    ensures v < 64
  {
    if IsUpper(c) then (c - 'A') as nat
    else if IsLower(c) then 26 + (c - 'a') as nat
    else if IsDigit(c) then 52 + (c - '0') as nat
    else if c == '-' then 62
    else 63
  }

  function Group1(a: Byte): string {
    [Symbol(a / 4), Symbol(a % 4 * 16)]
  }

  function Group2(a: Byte, b: Byte): string {
    [Symbol(a / 4), Symbol(a % 4 * 16 + b / 16), Symbol(b % 16 * 4)]
  }

  function Group3(a: Byte, b: Byte, c: Byte): string {
    [Symbol(a / 4), Symbol(a % 4 * 16 + b / 16), Symbol(b % 16 * 4 + c / 64), Symbol(c % 64)]
  }

  /** `base64.urlsafe_b64encode`, with its padding. */
  function Encode(data: seq<Byte>): string {
    if |data| == 0 then ""
    else if |data| == 1 then Group1(data[0]) + "=="
    else if |data| == 2 then Group2(data[0], data[1]) + "="
    else Group3(data[0], data[1], data[2]) + Encode(data[3..])
  }

  /** The encoding as RECORD stores it: padding stripped from the right. */
  function Unpadded(data: seq<Byte>): string {
    RStripChar(Encode(data), '=')
  }

  /** The symbols that carry data, without going through the padding. */
  function Symbols(data: seq<Byte>): string {
    if |data| == 0 then ""
    else if |data| == 1 then Group1(data[0])
    else if |data| == 2 then Group2(data[0], data[1])
    else Group3(data[0], data[1], data[2]) + Symbols(data[3..])
  }

  function Pad(data: seq<Byte>): nat {
    (3 - |data| % 3) % 3
  }

  lemma {:induction false} SymbolsOnly(data: seq<Byte>)
    ensures AllChars(Symbols(data), IsSymbol)
    decreases |data|
  {
    if |data| > 2 {
      SymbolsOnly(data[3..]);
      var head, tail := Group3(data[0], data[1], data[2]), Symbols(data[3..]);
      assert AllChars(head, IsSymbol);
      assert Symbols(data) == head + tail;
    }
  }

  lemma PadSkipsGroup(data: seq<Byte>)
    requires |data| > 2
    ensures Pad(data) == Pad(data[3..])
  {
  }

  lemma {:induction false} EncodePads(data: seq<Byte>)
    ensures Encode(data) == Symbols(data) + Repeat('=', Pad(data))
    decreases |data|
  {
    if |data| == 0 {
    } else if |data| == 1 {
      assert Repeat('=', 2) == "==";
    } else if |data| == 2 {
      assert Repeat('=', 1) == "=";
    } else {
      EncodePads(data[3..]);
      PadSkipsGroup(data);
      Regrouped(Group3(data[0], data[1], data[2]), Symbols(data[3..]), Repeat('=', Pad(data)));
    }
  }

  /** Stripping removes the padding and nothing else. */
  lemma UnpaddedIsSymbols(data: seq<Byte>)
    ensures Unpadded(data) == Symbols(data)
  {
    SymbolsOnly(data);
    EncodePads(data);
    var s := Symbols(data);
    if s != "" {
      assert IsSymbol(s[|s| - 1]);
    }
    RStripCharOf(s, '=', Pad(data));
  }

  function FirstByte(w: nat, x: nat): Byte
    requires w < 64 && x < 64
  {
    w * 4 + x / 16
  }

  function SecondByte(x: nat, y: nat): Byte
    requires x < 64 && y < 64
  {
    x % 16 * 16 + y / 4
  }

  function ThirdByte(y: nat, z: nat): Byte
    requires y < 64 && z < 64
  {
    y % 4 * 64 + z
  }

  /** Reads symbols back four at a time. */
  function Decode(s: string): seq<Byte>
    requires AllChars(s, IsSymbol)
    decreases |s|
  {
    if |s| < 2 then []
    else
      var w, x := SymbolValue(s[0]), SymbolValue(s[1]);
      if |s| == 2 then [FirstByte(w, x)]
      else
        var y := SymbolValue(s[2]);
        if |s| == 3 then [FirstByte(w, x), SecondByte(x, y)]
        else [FirstByte(w, x), SecondByte(x, y), ThirdByte(y, SymbolValue(s[3]))] + Decode(s[4..])
  }

  lemma Regroup(a: Byte, b: Byte, c: Byte)
    ensures FirstByte(a / 4, a % 4 * 16) == a
    ensures FirstByte(a / 4, a % 4 * 16 + b / 16) == a
    ensures SecondByte(a % 4 * 16 + b / 16, b % 16 * 4) == b
    ensures SecondByte(a % 4 * 16 + b / 16, b % 16 * 4 + c / 64) == b
    ensures ThirdByte(b % 16 * 4 + c / 64, c % 64) == c
  {
  }

  /** The text consists of symbols and stands for the data. */
  predicate Encodes(text: string, data: seq<Byte>) {
    AllChars(text, IsSymbol) && Decode(text) == data
  }

  lemma EncodesOne(a: Byte)
    ensures Encodes(Group1(a), [a])
  {
    Regroup(a, 0, 0);
    var w, x := a / 4, a % 4 * 16;
    assert Decode([Symbol(w), Symbol(x)]) == [FirstByte(w, x)];
  }

  lemma EncodesTwo(a: Byte, b: Byte)
    ensures Encodes(Group2(a, b), [a, b])
  {
    Regroup(a, b, 0);
    var w, x, y := a / 4, a % 4 * 16 + b / 16, b % 16 * 4;
    assert Decode([Symbol(w), Symbol(x), Symbol(y)]) == [FirstByte(w, x), SecondByte(x, y)];
  }

  lemma EncodesThree(a: Byte, b: Byte, c: Byte, text: string, data: seq<Byte>)
    requires Encodes(text, data)
    ensures Encodes(Group3(a, b, c) + text, [a, b, c] + data)
  {
    Regroup(a, b, c);
    assert AllChars(Group3(a, b, c), IsSymbol);
    assert (Group3(a, b, c) + text)[4..] == text;
  }

  lemma ShortSymbols(data: seq<Byte>)
    requires |data| < 3
    ensures Encodes(Symbols(data), data)
  {
    if |data| == 1 {
      EncodesOne(data[0]);
      assert data == [data[0]];
    } else if |data| == 2 {
      EncodesTwo(data[0], data[1]);
      assert data == [data[0], data[1]];
    }
  }

  lemma {:induction false} SymbolsEncode(data: seq<Byte>)
    ensures Encodes(Symbols(data), data)
    decreases |data|
  {
    if |data| < 3 {
      ShortSymbols(data);
    } else {
      SymbolsEncode(data[3..]);
      EncodesThree(data[0], data[1], data[2], Symbols(data[3..]), data[3..]);
      assert data == [data[0], data[1], data[2]] + data[3..];
    }
  }

  /** Decoding what RECORD stores gives the digest back. */
  lemma RoundTrip(data: seq<Byte>)
    ensures AllChars(Unpadded(data), IsSymbol)
    ensures Decode(Unpadded(data)) == data
  {
    UnpaddedIsSymbols(data);
    SymbolsEncode(data);
  }

  lemma UnpaddedInjective(a: seq<Byte>, b: seq<Byte>)
    requires Unpadded(a) == Unpadded(b)
    ensures a == b
  {
    RoundTrip(a);
    RoundTrip(b);
  }

  // ---------------------------------------------------------------- the alphabet and the bits

  const ALPHABET := "ABCDEFGHIJKLMNOPQRSTUVWXYZ" + "abcdefghijklmnopqrstuvwxyz" + "0123456789-_"

  lemma UpperCase(v: nat)
    requires v < 26
    ensures "ABCDEFGHIJKLMNOPQRSTUVWXYZ"[v] == 'A' + v as char
  {
  }

  lemma LowerCase(v: nat)
    requires v < 26
    ensures "abcdefghijklmnopqrstuvwxyz"[v] == 'a' + v as char
  {
  }

  lemma DigitsAndMarks(v: nat)
    requires v < 12
    ensures "0123456789-_"[v] == if v < 10 then '0' + v as char else if v == 10 then '-' else '_'
  {
  }

  /** Table 2 of RFC 4648. */
  lemma SymbolIsListed(v: nat)
    requires v < 64
    ensures Symbol(v) == ALPHABET[v]
  {
    if v < 26 {
      UpperCase(v);
    } else if v < 52 {
      LowerCase(v - 26);
    } else {
      DigitsAndMarks(v - 52);
    }
  }

  /** The number a text of symbols is in base 64, the first symbol the most significant. */
  function Number64(s: string): nat
    requires AllChars(s, IsSymbol)
  {
    if s == "" then 0 else 64 * Number64(s[..|s| - 1]) + SymbolValue(s[|s| - 1])
  }

  /** The number some bytes are in base 256, the first byte the most significant. */
  function Number256(data: seq<Byte>): nat {
    if data == [] then 0 else 256 * Number256(data[..|data| - 1]) + data[|data| - 1]
  }

  lemma Number64Append(s: string, c: char)
    requires AllChars(s, IsSymbol) && IsSymbol(c)
    ensures AllChars(s + [c], IsSymbol) && Number64(s + [c]) == 64 * Number64(s) + SymbolValue(c)
  {
    assert (s + [c])[..|s|] == s;
  }

  lemma Number256Append(data: seq<Byte>, b: Byte)
    ensures Number256(data + [b]) == 256 * Number256(data) + b
  {
    assert (data + [b])[..|data|] == data;
  }

  /** Three bytes and their four symbols are one number; what is missing at the end counts as zero bits. */
  lemma GroupsAreNumbers(a: Byte, b: Byte, c: Byte)
    ensures AllChars(Group3(a, b, c), IsSymbol) && Number64(Group3(a, b, c)) == Number256([a, b, c])
    ensures AllChars(Group2(a, b), IsSymbol) && Number64(Group2(a, b)) == 4 * Number256([a, b])
    ensures AllChars(Group1(a), IsSymbol) && Number64(Group1(a)) == 16 * Number256([a])
  {
    var w, x, y, z := Symbol(a / 4), Symbol(a % 4 * 16 + b / 16), Symbol(b % 16 * 4 + c / 64), Symbol(c % 64);
    var x', y' := Symbol(a % 4 * 16), Symbol(b % 16 * 4);
    Number64Append("", w);
    Number64Append([w], x);
    Number64Append([w, x], y);
    Number64Append([w, x, y], z);
    Number64Append([w], x');
    Number64Append([w, x], y');
    assert [w] + [x] == [w, x] && [w, x] + [y] == [w, x, y] && [w, x, y] + [z] == Group3(a, b, c);
    assert "" + [w] == [w] && [w] + [x'] == Group1(a) && [w, x] + [y'] == Group2(a, b);
    Number256Append([], a);
    Number256Append([a], b);
    Number256Append([a, b], c);
    assert [] + [a] == [a] && [a] + [b] == [a, b] && [a, b] + [c] == [a, b, c];
  }
}
