/** The frontend's byte helpers: concatenation into one buffer, bounded integers and canonical hex. */
module JsBytes {
  import opened Bytes

  /** A JavaScript number, as far as the range checks can tell. */
  datatype Number = Finite(value: real) | NotFinite

  const MAX_SAFE_INTEGER: nat := 0x1f_ffff_ffff_ffff

  /** `Number.isInteger(n) && 0 <= n && n <= max`, with the integer it stands for. */
  function AsNat(n: Number, max: nat): (r: Option<nat>)
    ensures r.Some? ==> r.value <= max && n == Finite(r.value as real)
  {
    if n.Finite? && n.value.Floor as real == n.value && 0 <= n.value.Floor <= max then Some(n.value.Floor) else None
  }

  lemma NumbersAre(n: Number, max: nat, value: nat)
    ensures AsNat(n, max) == Some(value) <==> value <= max && n == Finite(value as real)
  {
    assert (value as real).Floor == value;
  }

  function AsU64(n: int): Option<U64> {
    if 0 <= n <= U64_MAX then Some(n) else None
  }

  /** All parts, one after the other. */
  function Flat(parts: seq<Bytes>): Bytes {
    if parts == [] then [] else parts[0] + Flat(parts[1..])
  }

  lemma {:induction false} FlatAppend(parts: seq<Bytes>, part: Bytes)
    ensures Flat(parts + [part]) == Flat(parts) + part
  {
    if parts == [] {
      assert parts + [part] == [part];
    } else {
      assert (parts + [part])[1..] == parts[1..] + [part];
      FlatAppend(parts[1..], part);
    }
  }

  lemma {:induction false} FlatSplit(parts: seq<Bytes>, n: nat)
    requires n <= |parts|
    ensures Flat(parts) == Flat(parts[..n]) + Flat(parts[n..])
  {
    if n == 0 {
      assert parts[0..] == parts && parts[..0] == [];
    } else {
      FlatSplit(parts[1..], n - 1);
      assert parts[..n][1..] == parts[1..][..n - 1];
      assert parts[n..] == parts[1..][n - 1..];
    }
  }

  /** `bytesConcat`: measures first, with a safe-integer check after every addition, then fills one buffer. */
  method BytesConcat(parts: seq<Bytes>) returns (r: Option<Bytes>)
    ensures r == if |Flat(parts)| <= MAX_SAFE_INTEGER then Some(Flat(parts)) else None
  {
    var length := 0;
    for i := 0 to |parts|
      invariant length == |Flat(parts[..i])| <= MAX_SAFE_INTEGER
    {
      assert parts[..i + 1] == parts[..i] + [parts[i]];
      FlatAppend(parts[..i], parts[i]);
      FlatSplit(parts, i + 1);
      length := length + |parts[i]|;
      if length > MAX_SAFE_INTEGER {
        return None;
      }
    }
    assert parts[..|parts|] == parts;
    var out := new Byte[length];
    var offset := 0;
    for i := 0 to |parts|
      invariant offset == |Flat(parts[..i])| <= out.Length
      invariant out[..offset] == Flat(parts[..i])
    {
      var part := parts[i];
      assert parts[..i + 1] == parts[..i] + [part];
      FlatAppend(parts[..i], part);
      FlatSplit(parts, i + 1);
      ghost var before := out[..offset];
      forall k | 0 <= k < |part| {
        out[offset + k] := part[k];
      }
      assert out[..offset + |part|] == before + part;
      offset := offset + |part|;
    }
    assert out[..] == out[..offset];
    return Some(out[..]);
  }

  // ----- Hex -----

  function HexChar(n: nat): char
    requires n < 16
  {
    if n < 10 then '0' + n as char else 'a' + (n - 10) as char
  }

  function HexValue(c: char): Option<nat> {
    if '0' <= c <= '9' then Some(c as int - '0' as int)
    else if 'a' <= c <= 'f' then Some(c as int - 'a' as int + 10)
    else None
  }

  lemma HexDigitsCorrespond(c: char, n: nat)
    ensures HexValue(c) == Some(n) <==> n < 16 && c == HexChar(n)
  {
  }

  const DIGITS: string := "0123456789abcdef"

  lemma HexCharIs(n: nat)
    requires n < 16
    ensures |DIGITS| == 16 && HexChar(n) == DIGITS[n]
  {
  }

  /** Two lowercase digits a byte. */
  function HexDigits(b: Bytes): (s: string)
    ensures |s| == 2 * |b|
  {
    if b == [] then "" else [HexChar(b[0] / 16), HexChar(b[0] % 16)] + HexDigits(b[1..])
  }

  function Hex(b: Bytes): string {
    "0x" + HexDigits(b)
  }

  predicate AllHex(s: string) {
    forall c | c in s :: HexValue(c).Some?
  }

  /** The pattern `^0x(?:[0-9a-f]{2})+$`. */
  predicate IsCanonicalHex(s: string) {
    |s| >= 4 && |s| % 2 == 0 && s[..2] == "0x" && AllHex(s[2..])
  }

  method HexFromBytes(bytes: Bytes) returns (value: string)
    ensures value == Hex(bytes)
  {
    value := "0x";
    for i := 0 to |bytes|
      invariant value == "0x" + HexDigits(bytes[..i])
    {
      HexDigitsAppend(bytes[..i], bytes[i]);
      assert bytes[..i + 1] == bytes[..i] + [bytes[i]];
      value := value + [HexChar(bytes[i] / 16), HexChar(bytes[i] % 16)];
    }
    assert bytes[..|bytes|] == bytes;
  }

  lemma {:induction false} HexDigitsAppend(b: Bytes, x: Byte)
    ensures HexDigits(b + [x]) == HexDigits(b) + [HexChar(x / 16), HexChar(x % 16)]
  {
    if b == [] {
      assert b + [x] == [x];
    } else {
      assert (b + [x])[1..] == b[1..] + [x];
      HexDigitsAppend(b[1..], x);
    }
  }

  /** `Number.parseInt` on two digits of the pattern. */
  function PairValue(s: string, i: nat): Byte
    requires AllHex(s) && 2 * i + 1 < |s|
  {
    assert s[2 * i] in s && s[2 * i + 1] in s;
    HexDigitsCorrespond(s[2 * i], HexValue(s[2 * i]).value);
    HexDigitsCorrespond(s[2 * i + 1], HexValue(s[2 * i + 1]).value);
    16 * HexValue(s[2 * i]).value + HexValue(s[2 * i + 1]).value
  }

  lemma {:induction false} HexDigitsAt(b: Bytes, i: nat)
    requires i < |b|
    ensures HexDigits(b)[2 * i] == HexChar(b[i] / 16) && HexDigits(b)[2 * i + 1] == HexChar(b[i] % 16)
  {
    if i > 0 {
      HexDigitsAt(b[1..], i - 1);
      assert HexDigits(b)[2 * i] == HexDigits(b[1..])[2 * (i - 1)];
      assert HexDigits(b)[2 * i + 1] == HexDigits(b[1..])[2 * (i - 1) + 1];
    }
  }

  lemma PairPrintsBack(s: string, i: nat)
    requires AllHex(s) && 2 * i + 1 < |s|
    ensures HexChar(PairValue(s, i) / 16) == s[2 * i] && HexChar(PairValue(s, i) % 16) == s[2 * i + 1]
  {
    assert s[2 * i] in s && s[2 * i + 1] in s;
    HexDigitsCorrespond(s[2 * i], HexValue(s[2 * i]).value);
    HexDigitsCorrespond(s[2 * i + 1], HexValue(s[2 * i + 1]).value);
  }

  /** After 0x, the high digit of each byte and then its low one. */
  lemma HexIsPrinted(b: Bytes, i: nat)
    requires i < |b|
    ensures |Hex(b)| == 2 + 2 * |b| && Hex(b)[..2] == "0x" && |DIGITS| == 16
    ensures Hex(b)[2 + 2 * i] == DIGITS[b[i] / 16] && Hex(b)[3 + 2 * i] == DIGITS[b[i] % 16]
  {
    hide HexDigits;
    HexDigitsAt(b, i);
    HexCharIs(b[i] / 16);
    HexCharIs(b[i] % 16);
  }

  /** The bytes read pair by pair print as the digits they were read from. */
  lemma PairsPrintBack(s: string, b: Bytes)
    requires AllHex(s) && |s| == 2 * |b| && forall i | 0 <= i < |b| :: b[i] == PairValue(s, i)
    ensures HexDigits(b) == s
  {
    hide HexChar;
    hide HexValue;
    hide PairValue;
    hide AllHex;
    forall k | 0 <= k < |s| ensures HexDigits(b)[k] == s[k] {
      var i := k / 2;
      assert k == 2 * i || k == 2 * i + 1;
      HexDigitsAt(b, i);
      PairPrintsBack(s, i);
    }
  }

  lemma DigitsAreHex(b: Bytes)
    ensures AllHex(HexDigits(b))
  {
    forall k | 0 <= k < |HexDigits(b)| ensures HexValue(HexDigits(b)[k]).Some? {
      HexDigitsAt(b, k / 2);
    }
  }

  lemma WrittenIsCanonical(b: Bytes)
    requires b != []
    ensures IsCanonicalHex(Hex(b))
  {
    DigitsAreHex(b);
    assert Hex(b)[2..] == HexDigits(b);
  }

  lemma HexIsInjective(b: Bytes, c: Bytes)
    requires HexDigits(b) == HexDigits(c)
    ensures b == c
  {
    forall i | 0 <= i < |b| ensures b[i] == c[i] {
      HexDigitsAt(b, i);
      HexDigitsAt(c, i);
      HexDigitsCorrespond(HexChar(b[i] / 16), b[i] / 16);
      HexDigitsCorrespond(HexChar(b[i] % 16), b[i] % 16);
      HexDigitsCorrespond(HexChar(c[i] / 16), c[i] / 16);
      HexDigitsCorrespond(HexChar(c[i] % 16), c[i] % 16);
    }
  }

  /**
   * `bytesFromHex` accepts exactly what `hexFromBytes` writes for a non-empty byte string, and gives
   * that string back.
   */
  method BytesFromHex(hex: string) returns (r: Option<Bytes>)
    ensures forall b: Bytes :: r == Some(b) <==> b != [] && hex == Hex(b)
  {
    if !IsCanonicalHex(hex) {
      forall b: Bytes | b != [] ensures hex != Hex(b) {
        WrittenIsCanonical(b);
      }
      return None;
    }
    ghost var digits := hex[2..];
    var out := new Byte[(|hex| - 2) / 2];
    for index := 0 to out.Length
      invariant forall i | 0 <= i < index :: out[i] == PairValue(digits, i)
    {
      assert digits[2 * index] == hex[2 + 2 * index] && digits[2 * index + 1] == hex[3 + 2 * index];
      out[index] := PairValue(hex[2..], index);
    }
    PairsPrintBack(digits, out[..]);
    assert hex == Hex(out[..]);
    forall b: Bytes | hex == Hex(b) ensures b == out[..] {
      assert Hex(b)[2..] == HexDigits(b);
      HexIsInjective(b, out[..]);
    }
    return Some(out[..]);
  }
}
