/**
 * Base64 as defined in section 4 of RFC 4648: the standard 64-character
 * alphabet, each 24-bit group of input written as four characters, and a
 * final partial group padded with `=` to a full four characters. No line
 * breaks are inserted.
 */
module Base64 {
  import opened Wrappers

  type byte = b: int | 0 <= b < 256

  /** A 6-bit value: what one Base64 character stands for. */
  type sextet = v: int | 0 <= v < 64

  const Pad: char := '='

  /** The alphabet of section 4 of RFC 4648 (Table 1), value by value. */
  function CharOf(v: sextet): (c: char)
    ensures IsAlphabetChar(c)
  {
    if v < 26 then ('A' as int + v) as char
    else if v < 52 then ('a' as int + (v - 26)) as char
    else if v < 62 then ('0' as int + (v - 52)) as char
    else if v == 62 then '+'
    else '/'
  }

  predicate IsAlphabetChar(c: char)
  {
    ('A' <= c <= 'Z') || ('a' <= c <= 'z') || ('0' <= c <= '9') || c == '+' || c == '/'
  }

  /** The inverse of CharOf on the alphabet. */
  function ValueOf(c: char): (v: sextet)
    requires IsAlphabetChar(c)
    ensures CharOf(v) == c
  {
    if 'A' <= c <= 'Z' then c as int - 'A' as int
    else if 'a' <= c <= 'z' then c as int - 'a' as int + 26
    else if '0' <= c <= '9' then c as int - '0' as int + 52
    else if c == '+' then 62
    else 63
  }

  lemma CharOfInAlphabet(v: sextet)
    ensures IsAlphabetChar(CharOf(v)) && ValueOf(CharOf(v)) == v
  {
  }

  /** Number of `=` characters that end the encoding of `n` bytes. */
  function PadCount(n: nat): nat
  {
    (3 - n % 3) % 3
  }

  /** The four characters for the 24-bit group a, b, c. */
  function EncodeGroup(a: byte, b: byte, c: byte): string
  {
    [CharOf(a / 4), CharOf((a % 4) * 16 + b / 16), CharOf((b % 16) * 4 + c / 64), CharOf(c % 64)]
  }

  /** The standard Base64 encoding of `data`. */
  function Encode(data: seq<byte>): (s: string)
    ensures |s| == 4 * ((|data| + 2) / 3)
    decreases |data|
  {
    if |data| == 0 then ""
    else if |data| == 1 then
      [CharOf(data[0] / 4), CharOf((data[0] % 4) * 16), Pad, Pad]
    else if |data| == 2 then
      [CharOf(data[0] / 4), CharOf((data[0] % 4) * 16 + data[1] / 16), CharOf((data[1] % 16) * 4), Pad]
    else
      assert (|data| + 2) / 3 == (|data[3..]| + 2) / 3 + 1;
      EncodeGroup(data[0], data[1], data[2]) + Encode(data[3..])
  }

  /** Every character of an encoding is from the alphabet except the
      padding, which is exactly the last PadCount characters. */
  lemma {:induction false} EncodeShape(data: seq<byte>)
    ensures forall i :: 0 <= i < |Encode(data)| ==> IsAlphabetChar(Encode(data)[i]) || Encode(data)[i] == Pad
    ensures forall i :: 0 <= i < |Encode(data)| ==>
              (Encode(data)[i] == Pad <==> i >= |Encode(data)| - PadCount(|data|))
    decreases |data|
  {
    if |data| >= 3 {
      EncodeShape(data[3..]);
      var s, g, rest := Encode(data), EncodeGroup(data[0], data[1], data[2]), Encode(data[3..]);
      assert s == g + rest;
      assert PadCount(|data|) == PadCount(|data| - 3);
      forall i | 0 <= i < |s|
        ensures IsAlphabetChar(s[i]) || s[i] == Pad
        ensures s[i] == Pad <==> i >= |s| - PadCount(|data|)
      {
        if i < 4 {
          assert s[i] == g[i];
        } else {
          assert s[i] == rest[i - 4];
        }
      }
    }
  }

  /** Decodes one group of four characters: three bytes, or one or two
      bytes when the group ends in padding. Trailing bits must be zero. */
  function DecodeQuad(c0: char, c1: char, c2: char, c3: char): Option<seq<byte>>
  {
    if !IsAlphabetChar(c0) || !IsAlphabetChar(c1) then None
    else if c2 == Pad && c3 == Pad then
      if ValueOf(c1) % 16 == 0 then Some([ValueOf(c0) * 4 + ValueOf(c1) / 16]) else None
    else if !IsAlphabetChar(c2) then None
    else if c3 == Pad then
      if ValueOf(c2) % 4 == 0
      then Some([ValueOf(c0) * 4 + ValueOf(c1) / 16, (ValueOf(c1) % 16) * 16 + ValueOf(c2) / 4])
      else None
    else if !IsAlphabetChar(c3) then None
    else Some([ValueOf(c0) * 4 + ValueOf(c1) / 16,
               (ValueOf(c1) % 16) * 16 + ValueOf(c2) / 4,
               (ValueOf(c2) % 4) * 64 + ValueOf(c3)])
  }

  /** Strict decoding: only canonical encodings (length a multiple of four,
      padding only in the last group, zero trailing bits) decode. */
  function Decode(s: string): Option<seq<byte>>
    decreases |s|
  {
    if |s| == 0 then Some([])
    else if |s| < 4 then None
    else
      match DecodeQuad(s[0], s[1], s[2], s[3])
      case None => None
      case Some(group) =>
        if |s| == 4 then Some(group)
        else if |group| < 3 then None
        else
          match Decode(s[4..])
          case None => None
          case Some(rest) => Some(group + rest)
  }

  /** Splitting a group into sextets and joining them again is the identity. */
  lemma GroupArithmetic(a: byte, b: byte, c: byte)
    ensures (a / 4) * 4 + ((a % 4) * 16 + b / 16) / 16 == a
    ensures (((a % 4) * 16 + b / 16) % 16) * 16 + ((b % 16) * 4 + c / 64) / 4 == b
    ensures (((b % 16) * 4 + c / 64) % 4) * 64 + c % 64 == c
  {
  }

  lemma DecodeQuadOne(v0: sextet, v1: sextet)
    requires v1 % 16 == 0
    ensures DecodeQuad(CharOf(v0), CharOf(v1), Pad, Pad) == Some([v0 * 4 + v1 / 16])
  {
    CharOfInAlphabet(v0);
    CharOfInAlphabet(v1);
  }

  lemma DecodeQuadTwo(v0: sextet, v1: sextet, v2: sextet)
    requires v2 % 4 == 0
    ensures DecodeQuad(CharOf(v0), CharOf(v1), CharOf(v2), Pad)
         == Some([v0 * 4 + v1 / 16, (v1 % 16) * 16 + v2 / 4])
  {
    CharOfInAlphabet(v0);
    CharOfInAlphabet(v1);
    CharOfInAlphabet(v2);
  }

  lemma DecodeQuadThree(v0: sextet, v1: sextet, v2: sextet, v3: sextet)
    ensures DecodeQuad(CharOf(v0), CharOf(v1), CharOf(v2), CharOf(v3))
         == Some([v0 * 4 + v1 / 16, (v1 % 16) * 16 + v2 / 4, (v2 % 4) * 64 + v3])
  {
    CharOfInAlphabet(v0);
    CharOfInAlphabet(v1);
    CharOfInAlphabet(v2);
    CharOfInAlphabet(v3);
  }

  lemma DecodeOneByte(a: byte)
    ensures Decode(Encode([a])) == Some([a])
  {
    var v0, v1 := a / 4, (a % 4) * 16;
    GroupArithmetic(a, 0, 0);
    assert v0 * 4 + v1 / 16 == a;
    DecodeQuadOne(v0, v1);
    assert Encode([a]) == [CharOf(v0), CharOf(v1), Pad, Pad];
  }

  lemma DecodeTwoBytes(a: byte, b: byte)
    ensures Decode(Encode([a, b])) == Some([a, b])
  {
    var v0, v1, v2 := a / 4, (a % 4) * 16 + b / 16, (b % 16) * 4;
    assert [v0 * 4 + v1 / 16, (v1 % 16) * 16 + v2 / 4] == [a, b] by {
      GroupArithmetic(a, b, 0);
    }
    DecodeQuadTwo(v0, v1, v2);
    var s := Encode([a, b]);
    assert s == [CharOf(v0), CharOf(v1), CharOf(v2), Pad];
    assert s[0] == CharOf(v0) && s[1] == CharOf(v1) && s[2] == CharOf(v2) && s[3] == Pad;
  }

  /** The four characters of a full group decode to its three bytes. */
  lemma DecodeQuadGroup(a: byte, b: byte, c: byte)
    ensures var g := EncodeGroup(a, b, c); DecodeQuad(g[0], g[1], g[2], g[3]) == Some([a, b, c])
  {
    var v0, v1, v2, v3 := a / 4, (a % 4) * 16 + b / 16, (b % 16) * 4 + c / 64, c % 64;
    var g := EncodeGroup(a, b, c);
    assert g[0] == CharOf(v0) && g[1] == CharOf(v1) && g[2] == CharOf(v2) && g[3] == CharOf(v3);
    assert [v0 * 4 + v1 / 16, (v1 % 16) * 16 + v2 / 4, (v2 % 4) * 64 + v3] == [a, b, c] by {
      GroupArithmetic(a, b, c);
    }
    DecodeQuadThree(v0, v1, v2, v3);
  }

  /** A full group in front of a decodable tail decodes group by group. */
  lemma DecodeGroup(a: byte, b: byte, c: byte, tail: string, rest: seq<byte>)
    requires Decode(tail) == Some(rest)
    ensures Decode(EncodeGroup(a, b, c) + tail) == Some([a, b, c] + rest)
  {
    var g := EncodeGroup(a, b, c);
    DecodeQuadGroup(a, b, c);
    var s := g + tail;
    assert s[0] == g[0] && s[1] == g[1] && s[2] == g[2] && s[3] == g[3];
    assert s[4..] == tail;
    if tail == [] {
      assert [a, b, c] + rest == [a, b, c];
    }
  }

  /** Decoding an encoding gives back the bytes. */
  lemma {:induction false} DecodeEncode(data: seq<byte>)
    ensures Decode(Encode(data)) == Some(data)
    decreases |data|
  {
    if |data| == 1 {
      assert data == [data[0]];
      DecodeOneByte(data[0]);
    } else if |data| == 2 {
      assert data == [data[0], data[1]];
      DecodeTwoBytes(data[0], data[1]);
    } else if |data| >= 3 {
      var tail := data[3..];
      assert data == [data[0], data[1], data[2]] + tail;
      assert Encode(data) == EncodeGroup(data[0], data[1], data[2]) + Encode(tail);
      DecodeEncode(tail);
      DecodeGroup(data[0], data[1], data[2], Encode(tail), tail);
    }
  }

  /** The encoding never contains `&`, so a body that joins two encodings
      with `&password=` splits back at that `&`. It may contain `+`, which a
      form decoder reads as a space. */
  lemma EncodeHasNoAmpersand(data: seq<byte>)
    ensures '&' !in Encode(data)
  {
    var s := Encode(data);
    EncodeShape(data);
    forall i | 0 <= i < |s| ensures s[i] != '&' {
      assert IsAlphabetChar(s[i]) || s[i] == Pad;
    }
  }

  /** Test vectors: "alice" and "pw" as ASCII bytes, and "foobar" from
      section 10 of RFC 4648. */
  lemma EncodeAlice()
    ensures Encode([0x61, 0x6c, 0x69, 0x63, 0x65]) == "YWxpY2U="
  {
    var d: seq<byte> := [0x61, 0x6c, 0x69, 0x63, 0x65];
    assert d[3..] == [0x63, 0x65];
    assert Encode(d[3..]) == "Y2U=";
    assert EncodeGroup(0x61, 0x6c, 0x69) == "YWxp";
  }

  lemma EncodePw()
    ensures Encode([0x70, 0x77]) == "cHc="
  {
  }

  /** Three `~` bytes encode as `fn5+`: the encoding can hold `+`. */
  lemma EncodeTildes()
    ensures Encode([0x7e, 0x7e, 0x7e]) == "fn5+"
  {
    var d: seq<byte> := [0x7e, 0x7e, 0x7e];
    assert d[3..] == [];
    assert Encode(d) == EncodeGroup(0x7e, 0x7e, 0x7e) + Encode([]);
    assert 0x7e / 4 == 31 && (0x7e % 4) * 16 + 0x7e / 16 == 39;
    assert (0x7e % 16) * 4 + 0x7e / 64 == 57 && 0x7e % 64 == 62;
    assert CharOf(31) == 'f' && CharOf(39) == 'n' && CharOf(57) == '5' && CharOf(62) == '+';
  }

  lemma EncodeFoobar()
    ensures Encode([0x66, 0x6f, 0x6f, 0x62, 0x61, 0x72]) == "Zm9vYmFy"
  {
    var d: seq<byte> := [0x66, 0x6f, 0x6f, 0x62, 0x61, 0x72];
    assert d[3..] == [0x62, 0x61, 0x72];
    assert Encode([0x62, 0x61, 0x72]) == "YmFy" by {
      var e: seq<byte> := [0x62, 0x61, 0x72];
      assert e[3..] == [];
      assert EncodeGroup(0x62, 0x61, 0x72) == "YmFy";
    }
    assert EncodeGroup(0x66, 0x6f, 0x6f) == "Zm9v";
  }
}
