/** Convert.ToBase64String and Convert.FromBase64String: the standard base-64
    encoding of section 4 of RFC 4648, with '=' padding and no line breaks. */
module Base64 {
  import opened Common

  const Pad: char := '='

  /** A character of the 64-character alphabet (A-Z, a-z, 0-9, '+', '/'). */
  predicate IsAlphabetChar(c: char) {
    'A' <= c <= 'Z' || 'a' <= c <= 'z' || '0' <= c <= '9' || c == '+' || c == '/'
  }

  /** The 6-bit value an alphabet character stands for. */
  function ValueOf(c: char): (v: int)
    requires IsAlphabetChar(c)
    ensures 0 <= v < 64
  {
    if 'A' <= c <= 'Z' then c as int - 'A' as int
    else if 'a' <= c <= 'z' then c as int - 'a' as int + 26
    else if '0' <= c <= '9' then c as int - '0' as int + 52
    else if c == '+' then 62
    else 63
  }

  /** The alphabet character that stands for a 6-bit value. */
  function CharOf(v: int): (c: char)
    requires 0 <= v < 64
    ensures IsAlphabetChar(c) && ValueOf(c) == v
  {
    if v < 26 then ('A' as int + v) as char
    else if v < 52 then ('a' as int + v - 26) as char
    else if v < 62 then ('0' as int + v - 52) as char
    else if v == 62 then '+'
    else '/'
  }

  /** Every character of s is an alphabet character or the pad. */
  predicate IsBase64Text(s: string) {
    forall i :: 0 <= i < |s| ==> IsAlphabetChar(s[i]) || s[i] == Pad
  }

  /** Convert.ToBase64String: every three bytes become four characters; a
      final group of one or two bytes becomes two or three characters and
      is padded with '=' to four. */
  function Encode(b: seq<Byte>): string
    decreases |b|
  {
    if |b| == 0 then ""
    else if |b| == 1 then
      [CharOf(b[0] / 4), CharOf(b[0] % 4 * 16), Pad, Pad]
    else if |b| == 2 then
      [CharOf(b[0] / 4), CharOf(b[0] % 4 * 16 + b[1] / 16), CharOf(b[1] % 16 * 4), Pad]
    else
      [CharOf(b[0] / 4), CharOf(b[0] % 4 * 16 + b[1] / 16),
       CharOf(b[1] % 16 * 4 + b[2] / 64), CharOf(b[2] % 64)] + Encode(b[3..])
  }

  /** The characters Convert.FromBase64String skips wherever they occur. */
  predicate IsWhitespace(c: char) {
    c == ' ' || c == '\t' || c == '\r' || c == '\n'
  }

  function StripWhitespace(s: string): string {
    if |s| == 0 then ""
    else if IsWhitespace(s[0]) then StripWhitespace(s[1..])
    else [s[0]] + StripWhitespace(s[1..])
  }

  /** Convert.FromBase64String: None where .NET throws FormatException. */
  function Decode(s: string): Option<seq<Byte>> {
    DecodeGroups(StripWhitespace(s))
  }

  /** Decodes whitespace-free text group by group: only the last group of
      four characters may carry one or two pad characters. */
  function DecodeGroups(s: string): Option<seq<Byte>>
    decreases |s|
  {
    if |s| == 0 then Some([])
    else if |s| < 4 then None
    else if |s| == 4 then DecodeFinal(s[0], s[1], s[2], s[3])
    else if IsAlphabetChar(s[0]) && IsAlphabetChar(s[1]) && IsAlphabetChar(s[2]) && IsAlphabetChar(s[3]) then
      match DecodeGroups(s[4..])
      case None => None
      case Some(rest) => Some(Triple(ValueOf(s[0]), ValueOf(s[1]), ValueOf(s[2]), ValueOf(s[3])) + rest)
    else None
  }

  /** The three bytes carried by four 6-bit values. */
  function Triple(v0: int, v1: int, v2: int, v3: int): seq<Byte>
    requires 0 <= v0 < 64 && 0 <= v1 < 64 && 0 <= v2 < 64 && 0 <= v3 < 64
  {
    [v0 * 4 + v1 / 16, v1 % 16 * 16 + v2 / 4, v2 % 4 * 64 + v3]
  }

  /** The last group: "xx==" carries one byte, "xxx=" two, "xxxx" three.
      Bits left over below the last byte are ignored. */
  function DecodeFinal(c0: char, c1: char, c2: char, c3: char): Option<seq<Byte>> {
    if !(IsAlphabetChar(c0) && IsAlphabetChar(c1)) then None
    else if c2 == Pad && c3 == Pad then
      Some([ValueOf(c0) * 4 + ValueOf(c1) / 16])
    else if IsAlphabetChar(c2) && c3 == Pad then
      Some([ValueOf(c0) * 4 + ValueOf(c1) / 16, ValueOf(c1) % 16 * 16 + ValueOf(c2) / 4])
    else if IsAlphabetChar(c2) && IsAlphabetChar(c3) then
      Some(Triple(ValueOf(c0), ValueOf(c1), ValueOf(c2), ValueOf(c3)))
    else None
  }

  /** Four characters for every started group of three bytes: 16 bytes take
      24 characters and 32 bytes take 44. */
  lemma {:induction false} EncodeLength(b: seq<Byte>)
    ensures |Encode(b)| == 4 * ((|b| + 2) / 3)
    decreases |b|
  {
    if |b| > 2 {
      EncodeLength(b[3..]);
    }
  }

  /** The encoding uses only the alphabet and the pad, so it never contains
      any other character (such as '.'). */
  lemma {:induction false} EncodeIsBase64Text(b: seq<Byte>)
    ensures IsBase64Text(Encode(b))
    decreases |b|
  {
    if |b| > 2 {
      EncodeIsBase64Text(b[3..]);
      var head := [CharOf(b[0] / 4), CharOf(b[0] % 4 * 16 + b[1] / 16),
                   CharOf(b[1] % 16 * 4 + b[2] / 64), CharOf(b[2] % 64)];
      assert Encode(b) == head + Encode(b[3..]);
    }
  }

  lemma {:induction false} StripWhitespaceNoop(s: string)
    requires forall i :: 0 <= i < |s| ==> !IsWhitespace(s[i])
    ensures StripWhitespace(s) == s
    decreases |s|
  {
    if |s| > 0 {
      StripWhitespaceNoop(s[1..]);
      assert s == [s[0]] + s[1..];
    }
  }

  /** Decoding undoes encoding: FromBase64String(ToBase64String(b)) == b. */
  lemma EncodeDecode(b: seq<Byte>)
    ensures Decode(Encode(b)) == Some(b)
  {
    EncodeIsBase64Text(b);
    StripWhitespaceNoop(Encode(b));
    DecodeGroupsEncode(b);
  }

  /** The 6-bit values that Encode takes from three bytes carry those bytes back. */
  lemma TripleOfGroup(b0: Byte, b1: Byte, b2: Byte)
    ensures Triple(b0 / 4, b0 % 4 * 16 + b1 / 16, b1 % 16 * 4 + b2 / 64, b2 % 64) == [b0, b1, b2]
  {
  }

  lemma DecodeFinalOne(b0: Byte)
    ensures DecodeFinal(CharOf(b0 / 4), CharOf(b0 % 4 * 16), Pad, Pad) == Some([b0])
  {
  }

  lemma DecodeFinalTwo(b0: Byte, b1: Byte)
    ensures DecodeFinal(CharOf(b0 / 4), CharOf(b0 % 4 * 16 + b1 / 16), CharOf(b1 % 16 * 4), Pad) == Some([b0, b1])
  {
  }

  lemma DecodeFinalThree(b0: Byte, b1: Byte, b2: Byte)
    ensures DecodeFinal(CharOf(b0 / 4), CharOf(b0 % 4 * 16 + b1 / 16),
                        CharOf(b1 % 16 * 4 + b2 / 64), CharOf(b2 % 64)) == Some([b0, b1, b2])
  {
  }

  /** A full group in front of further groups contributes its three bytes. */
  lemma DecodeGroupsCons(c0: char, c1: char, c2: char, c3: char, t: string, rest: seq<Byte>)
    requires IsAlphabetChar(c0) && IsAlphabetChar(c1) && IsAlphabetChar(c2) && IsAlphabetChar(c3)
    requires |t| > 0 && DecodeGroups(t) == Some(rest)
    ensures DecodeGroups([c0, c1, c2, c3] + t) == Some(Triple(ValueOf(c0), ValueOf(c1), ValueOf(c2), ValueOf(c3)) + rest)
  {
  }

  lemma {:induction false} DecodeGroupsEncode(b: seq<Byte>)
    ensures DecodeGroups(Encode(b)) == Some(b)
    decreases |b|
  {
    if |b| == 0 {
    } else if |b| == 1 {
      DecodeFinalOne(b[0]);
      assert [b[0]] == b;
    } else if |b| == 2 {
      DecodeFinalTwo(b[0], b[1]);
      assert [b[0], b[1]] == b;
    } else {
      var rest := b[3..];
      var c0, c1 := CharOf(b[0] / 4), CharOf(b[0] % 4 * 16 + b[1] / 16);
      var c2, c3 := CharOf(b[1] % 16 * 4 + b[2] / 64), CharOf(b[2] % 64);
      assert Encode(b) == [c0, c1, c2, c3] + Encode(rest);
      assert b == [b[0], b[1], b[2]] + rest;
      if |b| == 3 {
        assert rest == [];
        assert Encode(b) == [c0, c1, c2, c3];
        DecodeFinalThree(b[0], b[1], b[2]);
        assert DecodeGroups([c0, c1, c2, c3]) == DecodeFinal(c0, c1, c2, c3);
        assert b == [b[0], b[1], b[2]];
      } else {
        DecodeGroupsEncode(rest);
        EncodeLength(rest);
        TripleOfGroup(b[0], b[1], b[2]);
        DecodeGroupsCons(c0, c1, c2, c3, Encode(rest), rest);
      }
    }
  }
}
