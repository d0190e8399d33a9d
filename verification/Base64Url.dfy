/** Unpadded base64url (section 5 of RFC 4648): the verifier's 32-byte encoder, the general one, and a decoder. */
module Base64Url {
  import opened Bytes
  import opened Words

  type Sextet = x: int | 0 <= x < 64

  /** The encoders' 64-byte table: "A".."Z", "a".."z", "0".."9", "-", "_". */
  function Symbol(v: Sextet): Byte {
    if v < 26 then 0x41 + v
    else if v < 52 then 0x61 + (v - 26)
    else if v < 62 then 0x30 + (v - 52)
    else if v == 62 then 0x2d
    else 0x5f
  }

  // The four 6-bit groups of a 24-bit value, `(value >> 18) & 63` down to `value & 63`.
  function Sextet1(value: nat): Sextet {
    value / 0x4_0000 % 64
  }

  function Sextet2(value: nat): Sextet {
    value / 0x1000 % 64
  }

  function Sextet3(value: nat): Sextet {
    value / 64 % 64
  }

  function Sextet4(value: nat): Sextet {
    value % 64
  }

  /** The 24-bit value of a chunk; a missing byte counts as zero. */
  function Value24(chunk: Bytes): nat
    requires 1 <= |chunk| <= 3
  {
    var b: Byte, c: Byte := if |chunk| > 1 then chunk[1] else 0, if |chunk| > 2 then chunk[2] else 0;
    0x1_0000 * chunk[0] + 0x100 * b + c
  }

  function EncodeChunk(chunk: Bytes): Bytes
    requires 1 <= |chunk| <= 3
  {
    var value := Value24(chunk);
    [Symbol(Sextet1(value)), Symbol(Sextet2(value))]
    + (if |chunk| > 1 then [Symbol(Sextet3(value))] else [])
    + (if |chunk| > 2 then [Symbol(Sextet4(value))] else [])
  }

  function Encoded(input: Bytes): Bytes {
    if input == [] then []
    else if |input| <= 3 then EncodeChunk(input)
    else EncodeChunk(input[..3]) + Encoded(input[3..])
  }

  // ----- Decoding -----

  /** The value of a symbol of the alphabet. */
  function SextetOf(symbol: Byte): Option<Sextet> {
    if 0x41 <= symbol <= 0x5a then Some(symbol - 0x41)
    else if 0x61 <= symbol <= 0x7a then Some(symbol - 0x61 + 26)
    else if 0x30 <= symbol <= 0x39 then Some(symbol - 0x30 + 52)
    else if symbol == 0x2d then Some(62)
    else if symbol == 0x5f then Some(63)
    else None
  }

  lemma SymbolIsInverse(symbol: Byte, v: Sextet)
    ensures SextetOf(symbol) == Some(v) <==> Symbol(v) == symbol
  {
  }

  /** A group of two to four symbols; the bits beyond the last whole byte must be zero. */
  function DecodeGroup(group: Bytes): Option<Bytes>
    requires 2 <= |group| <= 4
  {
    var s1 :- SextetOf(group[0]);
    var s2 :- SextetOf(group[1]);
    var b1 := s1 * 4 + s2 / 16;
    if |group| == 2 then
      if s2 % 16 == 0 then Some([b1]) else None
    else
      var s3 :- SextetOf(group[2]);
      var b2 := s2 % 16 * 16 + s3 / 4;
      if |group| == 3 then
        if s3 % 4 == 0 then Some([b1, b2]) else None
      else
        var s4 :- SextetOf(group[3]);
        Some([b1, b2, s3 % 4 * 64 + s4])
  }

  function Decoded(text: Bytes): Option<Bytes> {
    if text == [] then Some([])
    else if |text| == 1 then None
    else if |text| <= 4 then DecodeGroup(text)
    else
      var head :- DecodeGroup(text[..4]);
      var tail :- Decoded(text[4..]);
      Some(head + tail)
  }

  // ----- Encoder and decoder undo each other -----

  lemma HighGroups(s1: Sextet, s2: Sextet, low: nat, value: nat)
    requires low < 0x1000 && value == 0x1000 * (64 * s1 + s2) + low
    ensures Sextet1(value) == s1 && Sextet2(value) == s2
  {
    assert value / 0x1000 == 64 * s1 + s2;
    assert value == 0x4_0000 * s1 + (0x1000 * s2 + low);
    assert value / 0x4_0000 == s1;
  }

  lemma LowGroups(high: nat, s3: Sextet, s4: Sextet, value: nat)
    requires value == 64 * (64 * high + s3) + s4
    ensures Sextet3(value) == s3 && Sextet4(value) == s4
  {
    assert value / 64 == 64 * high + s3;
  }

  /** The four groups in terms of the three bytes. */
  lemma Regroup(a: Byte, b: Byte, c: Byte)
    ensures var value := 0x1_0000 * a + 0x100 * b + c;
            && Sextet1(value) == a / 4
            && Sextet2(value) == a % 4 * 16 + b / 16
            && Sextet3(value) == b % 16 * 4 + c / 64
            && Sextet4(value) == c % 64
  {
    hide Sextet1;
    hide Sextet2;
    hide Sextet3;
    hide Sextet4;
    var value: nat := 0x1_0000 * a + 0x100 * b + c;
    HighGroups(a / 4, a % 4 * 16 + b / 16, 0x100 * (b % 16) + c, value);
    LowGroups(a * 16 + b / 16, b % 16 * 4 + c / 64, c % 64, value);
  }

  lemma Regrouped(a: Byte, b: Byte, c: Byte)
    ensures var s1, s2, s3, s4 := a / 4, a % 4 * 16 + b / 16, b % 16 * 4 + c / 64, c % 64;
            && s1 * 4 + s2 / 16 == a
            && s2 % 16 * 16 + s3 / 4 == b
            && s3 % 4 * 64 + s4 == c
            && (b == 0 ==> s2 % 16 == 0) && (c == 0 ==> s3 % 4 == 0)
  {
    var s2, s3 := a % 4 * 16 + b / 16, b % 16 * 4 + c / 64;
    assert s2 / 16 == a % 4 && s2 % 16 == b / 16 && s3 / 4 == b % 16 && s3 % 4 == c / 64;
  }

  /** And the three bytes in terms of the four groups. */
  lemma Ungroup(s1: Sextet, s2: Sextet, s3: Sextet, s4: Sextet)
    ensures var a, b, c := s1 * 4 + s2 / 16, s2 % 16 * 16 + s3 / 4, s3 % 4 * 64 + s4;
            && a / 4 == s1 && a % 4 * 16 + b / 16 == s2 && b % 16 * 4 + c / 64 == s3 && c % 64 == s4
  {
    var a, b, c := s1 * 4 + s2 / 16, s2 % 16 * 16 + s3 / 4, s3 % 4 * 64 + s4;
    assert a / 4 == s1 && a % 4 == s2 / 16 && b / 16 == s2 % 16 && b % 16 == s3 / 4 && c / 64 == s3 % 4 && c % 64 == s4;
  }

  lemma ChunkIsDecoded(chunk: Bytes)
    requires 1 <= |chunk| <= 3
    ensures |EncodeChunk(chunk)| == |chunk| + 1 && DecodeGroup(EncodeChunk(chunk)) == Some(chunk)
  {
    hide Symbol;
    hide SextetOf;
    hide Sextet1;
    hide Sextet2;
    hide Sextet3;
    hide Sextet4;
    var value := Value24(chunk);
    var b: Byte, c: Byte := if |chunk| > 1 then chunk[1] else 0, if |chunk| > 2 then chunk[2] else 0;
    Regroup(chunk[0], b, c);
    Regrouped(chunk[0], b, c);
    SymbolIsInverse(Symbol(Sextet1(value)), Sextet1(value));
    SymbolIsInverse(Symbol(Sextet2(value)), Sextet2(value));
    SymbolIsInverse(Symbol(Sextet3(value)), Sextet3(value));
    SymbolIsInverse(Symbol(Sextet4(value)), Sextet4(value));
    if |chunk| == 1 {
      assert chunk == [chunk[0]];
    } else if |chunk| == 2 {
      assert chunk == [chunk[0], b];
    } else {
      assert chunk == [chunk[0], b, c];
    }
  }

  lemma GroupIsEncoded(group: Bytes)
    requires 2 <= |group| <= 4 && DecodeGroup(group).Some?
    ensures |DecodeGroup(group).value| == |group| - 1 && EncodeChunk(DecodeGroup(group).value) == group
  {
    hide Symbol;
    hide SextetOf;
    hide Sextet1;
    hide Sextet2;
    hide Sextet3;
    hide Sextet4;
    var chunk := DecodeGroup(group).value;
    var value := Value24(chunk);
    var s1, s2 := SextetOf(group[0]).value, SextetOf(group[1]).value;
    var s3: Sextet := if |group| > 2 then SextetOf(group[2]).value else 0;
    var s4: Sextet := if |group| > 3 then SextetOf(group[3]).value else 0;
    Ungroup(s1, s2, s3, s4);
    Regroup(chunk[0], if |chunk| > 1 then chunk[1] else 0, if |chunk| > 2 then chunk[2] else 0);
    SymbolIsInverse(group[0], s1);
    SymbolIsInverse(group[1], s2);
    if |group| > 2 {
      SymbolIsInverse(group[2], s3);
    }
    if |group| > 3 {
      SymbolIsInverse(group[3], s4);
    }
    assert Symbol(s1) == group[0] && Symbol(s2) == group[1];
    assert |group| > 2 ==> Symbol(s3) == group[2];
    assert |group| > 3 ==> Symbol(s4) == group[3];
    if |group| == 2 {
      assert EncodeChunk(chunk) == [group[0], group[1]] + [] + [] == group;
    } else if |group| == 3 {
      assert EncodeChunk(chunk) == [group[0], group[1]] + [group[2]] + [] == group;
    } else {
      assert EncodeChunk(chunk) == [group[0], group[1]] + [group[2]] + [group[3]] == group;
    }
  }

  lemma {:induction false} EncodedIsDecoded(input: Bytes)
    ensures Decoded(Encoded(input)) == Some(input)
  {
    hide EncodeChunk;
    hide DecodeGroup;
    if input != [] {
      if |input| <= 3 {
        ChunkIsDecoded(input);
      } else {
        var text := Encoded(input);
        ChunkIsDecoded(input[..3]);
        EncodedIsDecoded(input[3..]);
        assert text[..4] == EncodeChunk(input[..3]) && text[4..] == Encoded(input[3..]);
        EncodedIsNotEmpty(input[3..]);
        assert input == input[..3] + input[3..];
      }
    }
  }

  lemma EncodedIsNotEmpty(input: Bytes)
    requires input != []
    ensures Encoded(input) != []
  {
  }

  lemma {:induction false} DecodedIsEncoded(text: Bytes)
    requires Decoded(text).Some?
    ensures Encoded(Decoded(text).value) == text
  {
    hide EncodeChunk;
    hide DecodeGroup;
    if text != [] {
      if |text| <= 4 {
        GroupIsEncoded(text);
      } else {
        GroupIsEncoded(text[..4]);
        DecodedIsEncoded(text[4..]);
        var head, tail := DecodeGroup(text[..4]).value, Decoded(text[4..]).value;
        assert (head + tail)[..3] == head && (head + tail)[3..] == tail;
        assert tail != [];
        assert text == text[..4] + text[4..];
      }
    }
  }

  /** The encoding is the one text the decoder reads as this input; so an encoding determines its input. */
  lemma EncodingIsBijective(input: Bytes, text: Bytes)
    ensures Encoded(input) == text <==> Decoded(text) == Some(input)
  {
    hide Encoded;
    hide Decoded;
    EncodedIsDecoded(input);
    if Decoded(text).Some? {
      DecodedIsEncoded(text);
    }
  }

  // ----- The two encoders -----

  lemma EncodedStep(rest: Bytes)
    requires |rest| >= 3
    ensures Encoded(rest) == EncodeChunk(rest[..3]) + Encoded(rest[3..])
  {
    hide EncodeChunk;
    if |rest| == 3 {
      assert rest[..3] == rest;
    }
  }

  lemma EncodedLast(rest: Bytes)
    requires |rest| < 3
    ensures Encoded(rest) == if rest == [] then [] else EncodeChunk(rest)
    ensures Encoded([]) == []
  {
    hide EncodeChunk;
  }

  /** The reference encoder: chunks of three bytes, symbols pushed one by one. */
  method Base64Url(input: Bytes) returns (output: Bytes)
    ensures output == Encoded(input)
  {
    hide Encoded;
    hide Value24;
    hide Symbol;
    output := [];
    var at := 0;
    assert input[0..] == input;
    while at < |input|
      invariant at <= |input|
      invariant Encoded(input) == output + Encoded(input[at..])
    {
      var end := if at + 3 <= |input| then at + 3 else |input|;
      var chunk := input[at..end];
      ghost var before, rest := output, input[at..];
      var value := Value24(chunk);
      output := output + [Symbol(Sextet1(value))];
      output := output + [Symbol(Sextet2(value))];
      if |chunk| > 1 {
        output := output + [Symbol(Sextet3(value))];
      }
      if |chunk| > 2 {
        output := output + [Symbol(Sextet4(value))];
      }
      assert output == before + EncodeChunk(chunk);
      if |rest| >= 3 {
        EncodedStep(rest);
        assert rest[..3] == chunk && rest[3..] == input[end..];
      } else {
        EncodedLast(rest);
        assert rest == chunk && input[end..] == [];
      }
      at := end;
    }
    EncodedLast(input[at..]);
  }

  lemma FourSymbols(chunk: Bytes)
    requires |chunk| == 3
    ensures var value := Value24(chunk);
            EncodeChunk(chunk) ==
            [Symbol(Sextet1(value)), Symbol(Sextet2(value)), Symbol(Sextet3(value)), Symbol(Sextet4(value))]
  {
  }

  lemma ThreeSymbols(chunk: Bytes)
    requires |chunk| == 2
    ensures var value := Value24(chunk);
            EncodeChunk(chunk) == [Symbol(Sextet1(value)), Symbol(Sextet2(value)), Symbol(Sextet3(value))]
  {
  }

  /** One turn of the loop's four writes. */
  method WriteFour(output: array<Byte>, target: nat, value: nat)
    requires target + 4 <= output.Length
    modifies output
    ensures output[..target + 4] ==
            old(output[..target]) + [Symbol(Sextet1(value)), Symbol(Sextet2(value)), Symbol(Sextet3(value)),
                                     Symbol(Sextet4(value))]
  {
    output[target] := Symbol(Sextet1(value));
    output[target + 1] := Symbol(Sextet2(value));
    output[target + 2] := Symbol(Sextet3(value));
    output[target + 3] := Symbol(Sextet4(value));
  }

  /** The verifier's encoder of a 32-byte digest, filling a 43-byte array in place. */
  method Base64UrlDigest(input: Digest) returns (r: Bytes)
    ensures r == Encoded(input) && |r| == 43
  {
    hide Encoded;
    hide EncodeChunk;
    hide Value24;
    hide Symbol;
    hide Sextet1;
    hide Sextet2;
    hide Sextet3;
    hide Sextet4;
    var output := new Byte[43](_ => 0);
    var source, target := 0, 0;
    assert input[0..] == input && output[..0] == [];
    while source + 3 <= |input|
      invariant source % 3 == 0 && source <= 30 && target == source / 3 * 4
      invariant Encoded(input) == output[..target] + Encoded(input[source..])
    {
      ghost var rest := input[source..];
      EncodedStep(rest);
      FourSymbols(rest[..3]);
      assert rest[..3] == input[source..source + 3] && rest[3..] == input[source + 3..];
      WriteFour(output, target, Value24(input[source..source + 3]));
      source, target := source + 3, target + 4;
    }
    EncodedLast(input[30..]);
    ThreeSymbols(input[30..]);
    var value := Value24(input[30..]);
    ghost var before := output[..40];
    output[40] := Symbol(Sextet1(value));
    output[41] := Symbol(Sextet2(value));
    output[42] := Symbol(Sextet3(value));
    assert output[..] == before + [Symbol(Sextet1(value)), Symbol(Sextet2(value)), Symbol(Sextet3(value))];
    return output[..];
  }

  // ----- The alphabet and the order of the bits -----

  // Table 2 of RFC 4648 is these four, one after the other.
  const UPPER: string := "ABCDEFGHIJKLMNOPQRSTUVWXYZ"
  const LOWER: string := "abcdefghijklmnopqrstuvwxyz"
  const DIGITS: string := "0123456789"
  const LAST: string := "-_"

  lemma AlphabetIs(v: Sextet)
    ensures |UPPER| == 26 && |LOWER| == 26 && |DIGITS| == 10 && |LAST| == 2
    ensures Symbol(v) == if v < 26 then UPPER[v] as int
                         else if v < 52 then LOWER[v - 26] as int
                         else if v < 62 then DIGITS[v - 52] as int
                         else LAST[v - 62] as int
  {
    if v < 26 {
      UpperIs(v);
    } else if v < 52 {
      LowerIs(v - 26);
    } else if v < 62 {
      DigitIs(v - 52);
    }
  }

  lemma UpperIs(v: nat)
    requires v < 26
    ensures UPPER[v] as int == 'A' as int + v
  {
    if v < 13 {
    } else {
    }
  }

  lemma LowerIs(v: nat)
    requires v < 26
    ensures LOWER[v] as int == 'a' as int + v
  {
    if v < 13 {
    } else {
    }
  }

  lemma DigitIs(v: nat)
    requires v < 10
    ensures DIGITS[v] as int == '0' as int + v
  {
  }

  /** The four values of a whole chunk are the digits to base 64 of its three bytes as one number. */
  lemma ChunkIsNumber(a: Byte, b: Byte, c: Byte)
    ensures var e := EncodeChunk([a, b, c]);
            && |e| == 4 && (forall k | 0 <= k < 4 :: SextetOf(e[k]).Some?)
            && 0x4_0000 * SextetOf(e[0]).value + 0x1000 * SextetOf(e[1]).value + 64 * SextetOf(e[2]).value
               + SextetOf(e[3]).value == 0x1_0000 * a + 0x100 * b + c
  {
    hide Symbol;
    hide SextetOf;
    hide Sextet1;
    hide Sextet2;
    hide Sextet3;
    hide Sextet4;
    var value := Value24([a, b, c]);
    SymbolIsInverse(Symbol(Sextet1(value)), Sextet1(value));
    SymbolIsInverse(Symbol(Sextet2(value)), Sextet2(value));
    SymbolIsInverse(Symbol(Sextet3(value)), Sextet3(value));
    SymbolIsInverse(Symbol(Sextet4(value)), Sextet4(value));
    DigitsAre(value);
  }

  lemma DigitsAre(value: nat)
    requires value < 0x100_0000
    ensures 0x4_0000 * Sextet1(value) + 0x1000 * Sextet2(value) + 64 * Sextet3(value) + Sextet4(value) == value
  {
    var q1, q2, q3 := value / 64, value / 0x1000, value / 0x4_0000;
    assert q2 == q1 / 64 && q3 == q2 / 64;
  }

  /** The last of the digits to base 64, and the number without it. */
  lemma LastDigit(x: nat, rest: nat, d: Sextet)
    requires x == 64 * rest + d
    ensures x / 64 == rest && x % 64 == d
  {
  }

  lemma Shifts(x: nat)
    ensures x / 0x1000 == x / 64 / 64 && x / 0x4_0000 == x / 0x1000 / 64
  {
  }

  /** The encoding of a chunk from the four digits of its value. */
  lemma ChunkFromDigits(chunk: Bytes, a: Sextet, b: Sextet, c: Sextet, d: Sextet)
    requires 1 <= |chunk| <= 3 && Value24(chunk) == 0x4_0000 * a + 0x1000 * b + 64 * c + d
    ensures EncodeChunk(chunk) == [Symbol(a), Symbol(b), Symbol(c), Symbol(d)][..|chunk| + 1]
  {
    hide Symbol;
    var value := Value24(chunk);
    hide Value24;
    assert Sextet1(value) == a && Sextet2(value) == b && Sextet3(value) == c && Sextet4(value) == d by {
      hide EncodeChunk;
      Shifts(value);
      LastDigit(value, 0x1000 * a + 64 * b + c, d);
      LastDigit(0x1000 * a + 64 * b + c, 64 * a + b, c);
      LastDigit(64 * a + b, a, b);
      LastDigit(a, 0, a);
    }
    hide Sextet1;
    hide Sextet2;
    hide Sextet3;
    hide Sextet4;
    assert EncodeChunk(chunk) == [Symbol(a), Symbol(b), Symbol(c), Symbol(d)][..|chunk| + 1];
  }

  lemma FooExamples()
    ensures EncodeChunk([0x66]) == [0x5a, 0x67]
    ensures EncodeChunk([0x66, 0x6f]) == [0x5a, 0x6d, 0x38]
    ensures EncodeChunk([0x66, 0x6f, 0x6f]) == [0x5a, 0x6d, 0x39, 0x76]
  {
    hide EncodeChunk;
    ChunkFromDigits([0x66], 25, 32, 0, 0);
    ChunkFromDigits([0x66, 0x6f], 25, 38, 60, 0);
    ChunkFromDigits([0x66, 0x6f, 0x6f], 25, 38, 61, 47);
  }

  lemma BarExamples()
    ensures EncodeChunk([0x62]) == [0x59, 0x67]
    ensures EncodeChunk([0x62, 0x61]) == [0x59, 0x6d, 0x45]
    ensures EncodeChunk([0x62, 0x61, 0x72]) == [0x59, 0x6d, 0x46, 0x79]
  {
    hide EncodeChunk;
    ChunkFromDigits([0x62], 24, 32, 0, 0);
    ChunkFromDigits([0x62, 0x61], 24, 38, 4, 0);
    ChunkFromDigits([0x62, 0x61, 0x72], 24, 38, 5, 50);
  }

  lemma ExampleTexts()
    ensures Ascii("f") == [0x66]
    ensures Ascii("Zg") == [0x5a, 0x67]
    ensures Ascii("fo") == [0x66, 0x6f]
    ensures Ascii("Zm8") == [0x5a, 0x6d, 0x38]
    ensures Ascii("foo") == [0x66, 0x6f, 0x6f]
    ensures Ascii("Zm9v") == [0x5a, 0x6d, 0x39, 0x76]
    ensures Ascii("b") == [0x62]
    ensures Ascii("Yg") == [0x59, 0x67]
    ensures Ascii("ba") == [0x62, 0x61]
    ensures Ascii("YmE") == [0x59, 0x6d, 0x45]
    ensures Ascii("bar") == [0x62, 0x61, 0x72]
    ensures Ascii("YmFy") == [0x59, 0x6d, 0x46, 0x79]
  {
  }

  /** The examples of section 10 of RFC 4648, without padding. */
  lemma RfcExamples()
    ensures Encoded([]) == [] && Encoded(Ascii("f")) == Ascii("Zg") && Encoded(Ascii("fo")) == Ascii("Zm8")
    ensures Encoded(Ascii("foo")) == Ascii("Zm9v")
    ensures Encoded(Ascii("foo") + Ascii("b")) == Ascii("Zm9v") + Ascii("Yg")
    ensures Encoded(Ascii("foo") + Ascii("ba")) == Ascii("Zm9v") + Ascii("YmE")
    ensures Encoded(Ascii("foo") + Ascii("bar")) == Ascii("Zm9v") + Ascii("YmFy")
  {
    hide EncodeChunk;
    hide Ascii;
    FooExamples();
    BarExamples();
    ExampleTexts();
    Behind(Ascii("foo"), Ascii("b"));
    Behind(Ascii("foo"), Ascii("ba"));
    Behind(Ascii("foo"), Ascii("bar"));
  }

  lemma Behind(chunk: Bytes, rest: Bytes)
    requires |chunk| == 3 && 1 <= |rest| <= 3
    ensures Encoded(chunk + rest) == EncodeChunk(chunk) + EncodeChunk(rest)
  {
    assert (chunk + rest)[..3] == chunk && (chunk + rest)[3..] == rest;
  }
}
