/** Bytes, bounded integers and the little-endian encodings every format is built from. */
module Bytes {

  datatype Option<+T> = None | Some(value: T) {
    predicate IsFailure() {
      None?
    }

    function PropagateFailure<U>(): Option<U>
      requires None?
    {
      None
    }

    function Extract(): T
      requires Some?
    {
      value
    }
  }

  type Byte = x: int | 0 <= x < 0x100
  type Bytes = seq<Byte>
  type Digest = b: Bytes | |b| == 32 witness seq(32, _ => 0)

  type U16 = x: int | 0 <= x < 0x1_0000
  type U32 = x: int | 0 <= x < 0x1_0000_0000
  type U64 = x: int | 0 <= x < 0x1_0000_0000_0000_0000

  const U16_MAX: nat := 0xffff
  const U32_MAX: nat := 0xffff_ffff
  const U64_MAX: nat := 0xffff_ffff_ffff_ffff

  /** Rust's `checked_add` on `u32`. */
  function CheckedAdd32(a: U32, b: U32): Option<U32> {
    if a + b <= U32_MAX then Some(a + b) else None
  }

  /** Bit `k` of a word, which is what `word & (1 << k) != 0` tests. */
  predicate Bit(word: nat, k: nat) {
    if k == 0 then word % 2 == 1 else Bit(word / 2, k - 1)
  }

  /** The `width` low-order bytes of a number, least significant first. */
  function Le(value: nat, width: nat): (b: Bytes)
    ensures |b| == width
  {
    if width == 0 then [] else [value % 0x100] + Le(value / 0x100, width - 1)
  }

  function FromLe(b: Bytes): nat {
    if b == [] then 0 else b[0] + 0x100 * FromLe(b[1..])
  }

  /** 256 to the power `width`. */
  function Pow256(width: nat): nat {
    if width == 0 then 1 else 0x100 * Pow256(width - 1)
  }

  lemma {:induction false} LeOfFromLe(b: Bytes)
    ensures Le(FromLe(b), |b|) == b
    ensures FromLe(b) < Pow256(|b|)
  {
    if b != [] {
      LeOfFromLe(b[1..]);
    }
  }

  lemma {:induction false} FromLeOfLe(value: nat, width: nat)
    requires value < Pow256(width)
    ensures FromLe(Le(value, width)) == value
  {
    if width != 0 {
      FromLeOfLe(value / 0x100, width - 1);
      assert Le(value, width)[1..] == Le(value / 0x100, width - 1);
    }
  }

  function U16Le(value: U16): (b: Bytes)
    ensures |b| == 2 && FromLe(b) == value
  {
    assert Pow256(2) == 0x1_0000;
    FromLeOfLe(value, 2);
    Le(value, 2)
  }

  function U32Le(value: U32): (b: Bytes)
    ensures |b| == 4 && FromLe(b) == value
  {
    assert Pow256(3) == 0x100 * Pow256(2);
    FromLeOfLe(value, 4);
    Le(value, 4)
  }

  function U64Le(value: U64): (b: Bytes)
    ensures |b| == 8 && FromLe(b) == value
  {
    assert Pow256(8) == 0x1_0000_0000_0000_0000 by { Pow256Of8(); }
    FromLeOfLe(value, 8);
    Le(value, 8)
  }

  lemma Pow256Of8()
    ensures Pow256(2) == 0x1_0000
    ensures Pow256(4) == 0x1_0000_0000
    ensures Pow256(8) == 0x1_0000_0000_0000_0000
  {
    assert Pow256(4) == 0x100 * Pow256(3);
    assert Pow256(5) == 0x100 * Pow256(4);
    assert Pow256(6) == 0x100 * Pow256(5);
    assert Pow256(7) == 0x100 * Pow256(6);
  }

  /** The `u16` at offset `at`; encoding it again gives the bytes read. */
  function U16At(data: Bytes, at: nat): (value: U16)
    requires at + 2 <= |data|
    ensures U16Le(value) == data[at..at + 2]
  {
    LeOfFromLe(data[at..at + 2]);
    Pow256Of8();
    FromLe(data[at..at + 2])
  }

  function U32At(data: Bytes, at: nat): (value: U32)
    requires at + 4 <= |data|
    ensures U32Le(value) == data[at..at + 4]
  {
    LeOfFromLe(data[at..at + 4]);
    Pow256Of8();
    FromLe(data[at..at + 4])
  }

  function U64At(data: Bytes, at: nat): (value: U64)
    requires at + 8 <= |data|
    ensures U64Le(value) == data[at..at + 8]
  {
    LeOfFromLe(data[at..at + 8]);
    Pow256Of8();
    FromLe(data[at..at + 8])
  }

  lemma SliceOfSlice<T>(s: seq<T>, from: nat, to: nat, a: nat, b: nat)
    requires from <= to <= |s| && a <= b <= to - from
    ensures s[from..to][a..b] == s[from + a..from + b]
  {
    forall i | 0 <= i < b - a ensures s[from..to][a..b][i] == s[from + a..from + b][i] {
      assert s[from..to][a + i] == s[from + a + i];
    }
  }
}
