/** What the bit tests and the little-endian fields mean, in arithmetic of their own. */
module Words {
  import opened Bytes

  // ----- Bits -----

  /** 2 to the power `k`. */
  function Pow2(k: nat): (p: nat)
    ensures p > 0
  {
    if k == 0 then 1 else 2 * Pow2(k - 1)
  }

  lemma AtLeast(divisor: int, times: int)
    requires divisor >= 0 && times >= 1
    ensures divisor * times >= divisor && divisor * -times <= -divisor
  {
  }

  lemma QuotientIs(x: nat, divisor: nat, quotient: nat, remainder: nat)
    requires remainder < divisor && x == divisor * quotient + remainder
    ensures x / divisor == quotient
  {
    var difference := x / divisor - quotient;
    assert divisor * difference == remainder - x % divisor;
    if difference > 0 {
      AtLeast(divisor, difference);
    } else if difference < 0 {
      AtLeast(divisor, -difference);
    }
  }

  lemma HalfOf(word: nat, m: nat, r: nat)
    requires word == 2 * m + r
    ensures word / 2 == m + r / 2
  {
  }

  lemma Division(x: nat, n: nat) returns (q: nat, r: nat)
    requires n > 0
    ensures x == n * q + r && r < n
  {
    q, r := x / n, x % n;
  }

  lemma HalfQuotient(word: nat, p: nat, q: nat, r: nat)
    requires p > 0 && r < 2 * p && word == 2 * (p * q) + r
    ensures word / 2 / p == q
  {
    HalfOf(word, p * q, r);
    QuotientIs(word / 2, p, q, r / 2);
  }

  lemma WholeQuotient(word: nat, p: nat, q: nat, r: nat)
    requires p > 0 && r < 2 * p && word == 2 * (p * q) + r
    ensures word / (2 * p) == q
  {
    Regroup(p, q);
    QuotientIs(word, 2 * p, q, r);
  }

  lemma Regroup(p: nat, q: nat)
    ensures (2 * p) * q == 2 * (p * q)
  {
  }

  lemma HalveFirst(word: nat, p: nat)
    requires p > 0
    ensures word / 2 / p == word / (2 * p)
  {
    var q, r := Division(word, 2 * p);
    Regroup(p, q);
    HalfQuotient(word, p, q, r);
    WholeQuotient(word, p, q, r);
  }

  /** Bit `k` is the last binary digit of the word divided by 2 to the power `k`. */
  lemma {:induction false} BitIsDigit(word: nat, k: nat)
    ensures Bit(word, k) <==> word / Pow2(k) % 2 == 1
  {
    if k > 0 {
      BitIsDigit(word / 2, k - 1);
      HalveFirst(word, Pow2(k - 1));
    }
  }

  lemma {:induction false} ZeroHasNoBit(k: nat)
    ensures !Bit(0, k)
  {
    if k > 0 {
      ZeroHasNoBit(k - 1);
    }
  }

  /** A power of two has one bit. */
  lemma {:induction false} PowerHasOneBit(k: nat, j: nat)
    ensures Bit(Pow2(k), j) <==> j == k
  {
    if k == 0 && j > 0 {
      ZeroHasNoBit(j - 1);
    } else if k > 0 {
      assert Pow2(k) / 2 == Pow2(k - 1) && Pow2(k) % 2 == 0;
      if j > 0 {
        PowerHasOneBit(k - 1, j - 1);
      }
    }
  }

  /** `word & mask != 0` for a mask of one bit. */
  predicate HasMask(word: nat, mask: nat)
    requires mask > 0
  {
    word / mask % 2 == 1
  }

  /** The three masks the protocol tests: 1, 2 and 4. */
  lemma BitsAreMasks(word: nat)
    ensures Bit(word, 0) <==> HasMask(word, 1)
    ensures Bit(word, 1) <==> HasMask(word, 2)
    ensures Bit(word, 2) <==> HasMask(word, 4)
  {
    BitIsDigit(word, 0);
    BitIsDigit(word, 1);
    BitIsDigit(word, 2);
    assert Pow2(1) == 2 && Pow2(2) == 4;
  }

  // ----- Little-endian fields -----

  function W16(b: Bytes, at: nat): nat
    requires at + 2 <= |b|
  {
    b[at] as nat + 0x100 * b[at + 1] as nat
  }

  function W32(b: Bytes, at: nat): nat
    requires at + 4 <= |b|
  {
    W16(b, at) + 0x1_0000 * W16(b, at + 2)
  }

  function W64(b: Bytes, at: nat): nat
    requires at + 8 <= |b|
  {
    W32(b, at) + 0x1_0000_0000 * W32(b, at + 4)
  }

  lemma TwoBytes(b: Bytes)
    requires |b| >= 2
    ensures FromLe(b) == W16(b, 0) + 0x1_0000 * FromLe(b[2..])
  {
    assert b[1..][1..] == b[2..];
  }

  lemma FourBytes(b: Bytes)
    requires |b| >= 4
    ensures FromLe(b) == W32(b, 0) + 0x1_0000_0000 * FromLe(b[4..])
  {
    TwoBytes(b);
    TwoBytes(b[2..]);
    assert b[2..][2..] == b[4..];
  }

  lemma U16AtIs(b: Bytes, at: nat)
    requires at + 2 <= |b|
    ensures U16At(b, at) == W16(b, at)
  {
    TwoBytes(b[at..at + 2]);
    assert b[at..at + 2][2..] == [];
  }

  lemma U32AtIs(b: Bytes, at: nat)
    requires at + 4 <= |b|
    ensures U32At(b, at) == W32(b, at)
  {
    FourBytes(b[at..at + 4]);
    assert b[at..at + 4][4..] == [];
  }

  lemma U64AtIs(b: Bytes, at: nat)
    requires at + 8 <= |b|
    ensures U64At(b, at) == W64(b, at)
  {
    var d := b[at..at + 8];
    FourBytes(d);
    FourBytes(d[4..]);
    assert d[4..][4..] == [];
  }

  // ----- Text -----

  /** The bytes of an ASCII text. */
  function Ascii(s: string): Bytes
    requires forall c | c in s :: c < 0x80 as char
  {
    seq(|s|, i requires 0 <= i < |s| => s[i] as int % 0x100)
  }
}
