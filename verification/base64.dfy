/** Standard Base64 (section 4 of RFC 4648): the alphabet A-Z a-z 0-9 + /,
    padding with '=', no line wrapping. Encoding is total. Decoding takes
    groups of four alphabet characters, with '=' only in the last group;
    the unused trailing bits of that group are ignored, and anything else
    (a character outside the alphabet, a stray '=', text after the padding)
    is rejected. */
module Base64 {
  import opened Outcomes
  import Text

  type Byte = b: int | 0 <= b < 256
  type Bytes = seq<Byte>

  /** The character for a 6-bit value. */
  function Symbol(v: int): (ch: char)
    requires 0 <= v < 64
  {
    if v < 26 then ('A' as int + v) as char
    else if v < 52 then ('a' as int + v - 26) as char
    else if v < 62 then ('0' as int + v - 52) as char
    else if v == 62 then '+' else '/'
  }

  /** The 6-bit value of an alphabet character; None outside the alphabet. */
  function SymbolValue(ch: char): (r: Option<int>)
    ensures r.Some? ==> 0 <= r.value < 64
  {
    if 'A' <= ch <= 'Z' then Some(ch as int - 'A' as int)
    else if 'a' <= ch <= 'z' then Some(ch as int - 'a' as int + 26)
    else if '0' <= ch <= '9' then Some(ch as int - '0' as int + 52)
    else if ch == '+' then Some(62)
    else if ch == '/' then Some(63)
    else None
  }

  lemma SymbolValueOfSymbol(v: int)
    requires 0 <= v < 64
    ensures SymbolValue(Symbol(v)) == Some(v)
  {
  }

  /** A character that Encode may produce. */
  predicate IsEncodingChar(ch: char) {
    SymbolValue(ch).Some? || ch == '='
  }

  /** '$', ':' and the line boundaries are not Base64 characters, so an
      encoded field can sit between those delimiters. */
  lemma DelimitersAreNotEncodingChars(ch: char)
    requires ch == '$' || ch == ':' || Text.IsLineBreak(ch)
    ensures !IsEncodingChar(ch)
  {
  }

  function Encode(b: Bytes): (s: string)
    decreases |b|
  {
    if |b| == 0 then ""
    else if |b| == 1 then
      [Symbol(b[0] / 4), Symbol((b[0] % 4) * 16), '=', '=']
    else if |b| == 2 then
      [Symbol(b[0] / 4), Symbol((b[0] % 4) * 16 + b[1] / 16), Symbol((b[1] % 16) * 4), '=']
    else EncodeGroup(b[0], b[1], b[2]) + Encode(b[3..])
  }

  /** Three bytes as four characters. */
  function EncodeGroup(x: Byte, y: Byte, z: Byte): string {
    [Symbol(x / 4), Symbol((x % 4) * 16 + y / 16), Symbol((y % 16) * 4 + z / 64), Symbol(z % 64)]
  }

  predicate IsSymbol(ch: char) {
    SymbolValue(ch).Some?
  }

  /** The 6-bit value of a character already known to be in the alphabet. */
  function Value(ch: char): (v: int)
    requires IsSymbol(ch)
    ensures 0 <= v < 64
  {
    SymbolValue(ch).value
  }

  // The three bytes of a group, each from the two characters that carry its bits.

  function FirstByte(c0: char, c1: char): int
    requires IsSymbol(c0) && IsSymbol(c1)
  {
    Value(c0) * 4 + Value(c1) / 16
  }

  function SecondByte(c1: char, c2: char): int
    requires IsSymbol(c1) && IsSymbol(c2)
  {
    (Value(c1) % 16) * 16 + Value(c2) / 4
  }

  function ThirdByte(c2: char, c3: char): int
    requires IsSymbol(c2) && IsSymbol(c3)
  {
    (Value(c2) % 4) * 64 + Value(c3)
  }

  /** Decoding: groups of four alphabet characters, with one or two '='
      allowed only in the last group. The bits of a last group that no
      byte uses are ignored. */
  function Decode(s: string): (r: Option<Bytes>)
    decreases |s|
  {
    if |s| == 0 then Some([])
    else if |s| < 4 || !IsSymbol(s[0]) || !IsSymbol(s[1]) then None
    else if |s| == 4 && s[2] == '=' && s[3] == '=' then
      Some([FirstByte(s[0], s[1]) as Byte])
    else if !IsSymbol(s[2]) then None
    else if |s| == 4 && s[3] == '=' then
      Some([FirstByte(s[0], s[1]) as Byte, SecondByte(s[1], s[2]) as Byte])
    else if !IsSymbol(s[3]) then None
    else
      var rest := Decode(s[4..]);
      if rest.None? then None
      else Some([FirstByte(s[0], s[1]) as Byte, SecondByte(s[1], s[2]) as Byte,
                 ThirdByte(s[2], s[3]) as Byte] + rest.value)
  }

  /** Every character of an encoding is an alphabet character or '='; the
      encoding is empty exactly when the input is, and it never ends with
      anything but an encoding character. */
  lemma {:induction false} EncodeChars(b: Bytes)
    ensures forall k :: 0 <= k < |Encode(b)| ==> IsEncodingChar(Encode(b)[k])
    ensures |Encode(b)| == 0 <==> |b| == 0
    decreases |b|
  {
    if |b| >= 3 {
      EncodeChars(b[3..]);
      var s := Encode(b);
      forall k | 0 <= k < |s| ensures IsEncodingChar(s[k]) {
        if k >= 4 { assert s[k] == Encode(b[3..])[k - 4]; }
      }
    }
  }

  // The decoder's shifts recover the encoder's bytes: `hi` and `lo` are the
  // bits a character shares with the neighbouring byte.

  lemma FirstByteOf(x: Byte, hi: int)
    requires 0 <= hi < 16
    ensures FirstByte(Symbol(x / 4), Symbol((x % 4) * 16 + hi)) == x
  {
    var v0, v1 := x / 4, (x % 4) * 16 + hi;
    SymbolValueOfSymbol(v0);
    SymbolValueOfSymbol(v1);
    assert v1 / 16 == x % 4;
  }

  lemma SecondByteOf(lo: int, y: Byte, hi: int)
    requires 0 <= lo < 4 && 0 <= hi < 4
    ensures SecondByte(Symbol(lo * 16 + y / 16), Symbol((y % 16) * 4 + hi)) == y
  {
    var v1, v2 := lo * 16 + y / 16, (y % 16) * 4 + hi;
    SymbolValueOfSymbol(v1);
    SymbolValueOfSymbol(v2);
    assert v1 % 16 == y / 16;
    assert v2 / 4 == y % 16;
  }

  lemma ThirdByteOf(lo: int, z: Byte)
    requires 0 <= lo < 16
    ensures ThirdByte(Symbol(lo * 4 + z / 64), Symbol(z % 64)) == z
  {
    var v2, v3 := lo * 4 + z / 64, z % 64;
    SymbolValueOfSymbol(v2);
    SymbolValueOfSymbol(v3);
    assert v2 % 4 == z / 64;
  }

  lemma DecodeEncodeOne(b: Bytes)
    requires |b| == 1
    ensures Decode(Encode(b)) == Some(b)
  {
    var s := Encode(b);
    SymbolValueOfSymbol(b[0] / 4);
    SymbolValueOfSymbol((b[0] % 4) * 16);
    FirstByteOf(b[0], 0);
    assert s[1] == Symbol((b[0] % 4) * 16 + 0);
    assert Decode(s) == Some([FirstByte(s[0], s[1]) as Byte]);
    assert b == [b[0]];
  }

  lemma DecodeEncodeTwo(b: Bytes)
    requires |b| == 2
    ensures Decode(Encode(b)) == Some(b)
  {
    var x, y := b[0], b[1];
    var c0, c1, c2 := Symbol(x / 4), Symbol((x % 4) * 16 + y / 16), Symbol((y % 16) * 4);
    assert b == [x, y];
    EncodeOfTwo(x, y);
    SymbolValueOfSymbol(x / 4);
    SymbolValueOfSymbol((x % 4) * 16 + y / 16);
    SymbolValueOfSymbol((y % 16) * 4);
    DecodeTwoPadded(c0, c1, c2);
    FirstByteOf(x, y / 16);
    SecondByteOf(x % 4, y, 0);
  }

  lemma EncodeOfTwo(x: Byte, y: Byte)
    ensures Encode([x, y]) == [Symbol(x / 4), Symbol((x % 4) * 16 + y / 16), Symbol((y % 16) * 4), '=']
  {
  }

  /** Decoding a last group of three alphabet characters and one '='. */
  lemma DecodeTwoPadded(c0: char, c1: char, c2: char)
    requires IsSymbol(c0) && IsSymbol(c1) && IsSymbol(c2)
    ensures Decode([c0, c1, c2, '=']) == Some([FirstByte(c0, c1) as Byte, SecondByte(c1, c2) as Byte])
  {
  }

  /** Decoding a full group of four alphabet characters. */
  lemma DecodeFullGroup(c0: char, c1: char, c2: char, c3: char, rest: string)
    requires IsSymbol(c0) && IsSymbol(c1) && IsSymbol(c2) && IsSymbol(c3)
    requires Decode(rest).Some?
    ensures Decode([c0, c1, c2, c3] + rest)
         == Some([FirstByte(c0, c1) as Byte, SecondByte(c1, c2) as Byte, ThirdByte(c2, c3) as Byte]
                 + Decode(rest).value)
  {
    var s := [c0, c1, c2, c3] + rest;
    assert s[0] == c0 && s[1] == c1 && s[2] == c2 && s[3] == c3 && s[4..] == rest;
  }

  /** A full group followed by any decodable text decodes group by group. */
  lemma DecodeEncodeGroup(x: Byte, y: Byte, z: Byte, tail: string, rest: Bytes)
    requires Decode(tail) == Some(rest)
    ensures Decode(EncodeGroup(x, y, z) + tail) == Some([x, y, z] + rest)
  {
    var c0, c1 := Symbol(x / 4), Symbol((x % 4) * 16 + y / 16);
    var c2, c3 := Symbol((y % 16) * 4 + z / 64), Symbol(z % 64);
    assert EncodeGroup(x, y, z) == [c0, c1, c2, c3];
    SymbolValueOfSymbol(x / 4);
    SymbolValueOfSymbol((x % 4) * 16 + y / 16);
    SymbolValueOfSymbol((y % 16) * 4 + z / 64);
    SymbolValueOfSymbol(z % 64);
    FirstByteOf(x, y / 16);
    SecondByteOf(x % 4, y, z / 64);
    ThirdByteOf(y % 16, z);
    DecodeFullGroup(c0, c1, c2, c3, tail);
  }

  /** Decoding undoes encoding. */
  lemma {:induction false} DecodeEncode(b: Bytes)
    ensures Decode(Encode(b)) == Some(b)
    decreases |b|
  {
    if |b| == 1 {
      DecodeEncodeOne(b);
    } else if |b| == 2 {
      DecodeEncodeTwo(b);
    } else if |b| >= 3 {
      DecodeEncode(b[3..]);
      DecodeEncodeGroup(b[0], b[1], b[2], Encode(b[3..]), b[3..]);
      assert b == [b[0], b[1], b[2]] + b[3..];
    }
  }

  /** Text that is not canonical base64 is refused: a stray '=' inside a
      group, a '=' before the last group's padding, and a group after a
      complete padding. Python's non-strict decoder accepts all three. */
  lemma RejectsNonCanonical()
    ensures Decode("Q=Q==") == None
    ensures Decode("QUJD=") == None
    ensures Decode("QQ==QQ==") == None
  {
    assert !IsSymbol('=');
  }
}
