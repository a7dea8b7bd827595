/**
 Bytes, their bits, native (little-endian) integers, and stores into a buffer.
 */
module Bytes {

  type byte = b: int | 0 <= b < 256

  // ----- little-endian integers -----

  function Pow256(n: nat): (p: nat)
    ensures p >= 1
  {
    if n == 0 then 1 else 256 * Pow256(n - 1)
  }

  lemma {:induction false} Pow256Values()
    ensures Pow256(1) == 0x100 && Pow256(2) == 0x1_0000 && Pow256(3) == 0x100_0000
    ensures Pow256(4) == 0x1_0000_0000 && Pow256(8) == 0x1_0000_0000_0000_0000
  {
    assert Pow256(3) == 256 * Pow256(2);
    assert Pow256(5) == 256 * Pow256(4);
    assert Pow256(7) == 256 * Pow256(6);
  }

  lemma {:induction false} Pow256Sum(a: nat, b: nat)
    ensures Pow256(a + b) == Pow256(a) * Pow256(b)
  {
    if a > 0 {
      Pow256Sum(a - 1, b);
      assert 256 * (Pow256(a - 1) * Pow256(b)) == (256 * Pow256(a - 1)) * Pow256(b);
    }
  }

  /** The `n` low-order bytes of `v`, least significant first. */
  function ToLE(v: nat, n: nat): (s: seq<byte>)
    ensures |s| == n
  {
    if n == 0 then [] else [v % 256] + ToLE(v / 256, n - 1)
  }

  function FromLE(s: seq<byte>): nat {
    if s == [] then 0 else s[0] + 256 * FromLE(s[1..])
  }

  /** The byte in place `k` has the weight 256^k. */
  lemma {:induction false} ByteWeight(s: seq<byte>, b: byte)
    ensures FromLE(s + [b]) == FromLE(s) + b * Pow256(|s|)
  {
    if s == [] {
      assert s + [b] == [b] && [b][1..] == [];
    } else {
      assert (s + [b])[1..] == s[1..] + [b];
      ByteWeight(s[1..], b);
      assert 256 * (b * Pow256(|s| - 1)) == b * (256 * Pow256(|s| - 1));
    }
  }

  lemma {:induction false} LERoundTrip(v: nat, n: nat)
    requires v < Pow256(n)
    ensures FromLE(ToLE(v, n)) == v
  {
    if n > 0 {
      LERoundTrip(v / 256, n - 1);
      assert ToLE(v, n)[1..] == ToLE(v / 256, n - 1);
    }
  }

  lemma {:induction false} FromLEBound(s: seq<byte>)
    ensures FromLE(s) < Pow256(|s|)
  {
    if s != [] { FromLEBound(s[1..]); }
  }

  /** Two's complement modulo `m`, and back. */
  function Unsigned(v: int, m: nat): nat
    requires 0 <= v + m
  {
    if v < 0 then v + m else v
  }

  function Signed(u: nat, m: nat): int {
    if 2 * u >= m then u - m else u
  }

  // ----- bits -----

  function Pow2(n: nat): (p: nat) {
    if n == 0 then 1 else 2 * Pow2(n - 1)
  }

  /** `b & (1 << k)`, as a truth value. */
  predicate Bit(b: nat, k: nat) {
    if k == 0 then b % 2 == 1 else Bit(b / 2, k - 1)
  }

  lemma {:induction false} Halves(b: nat, p: nat)
    requires b < 2 * p
    ensures b / 2 < p && b / 2 * 2 + 1 < 2 * p
  {
  }

  /** `b | (1 << k)` if `on`, otherwise `b & ~(1 << k)`, on `width` bits. */
  function WithBit(b: nat, k: nat, on: bool, width: nat): (c: nat)
    requires k < width && b < Pow2(width)
    ensures c < Pow2(width)
  {
    Halves(b, Pow2(width - 1));
    if k == 0 then b / 2 * 2 + (if on then 1 else 0)
    else WithBit(b / 2, k - 1, on, width - 1) * 2 + b % 2
  }

  /** Setting or clearing a bit changes that bit and no other. */
  lemma {:induction false} WithBitReads(b: nat, k: nat, on: bool, width: nat, j: nat)
    requires k < width && b < Pow2(width)
    ensures Bit(WithBit(b, k, on, width), j) == if j == k then on else Bit(b, j)
  {
    var c := WithBit(b, k, on, width);
    if k == 0 {
      assert c / 2 == b / 2;
    } else {
      assert c / 2 == WithBit(b / 2, k - 1, on, width - 1) && c % 2 == b % 2;
      if j > 0 {
        WithBitReads(b / 2, k - 1, on, width - 1, j - 1);
      }
    }
  }

  /** Bit `k` has the weight 2^k. */
  lemma {:induction false} BitWeight(b: nat, k: nat, width: nat)
    requires k < width && b < Pow2(width)
    ensures WithBit(b, k, true, width) == WithBit(b, k, false, width) + Pow2(k)
    ensures WithBit(b, k, Bit(b, k), width) == b
  {
    if k > 0 {
      Halves(b, Pow2(width - 1));
      BitWeight(b / 2, k - 1, width - 1);
    }
  }

  function MarkBit(b: byte, k: nat, on: bool): byte
    requires k < 8
  {
    assert Pow2(8) == 256 by { assert Pow2(3) == 8; assert Pow2(5) == 32; assert Pow2(7) == 128; }
    WithBit(b, k, on, 8)
  }

  lemma {:induction false} MarkBitReads(b: byte, k: nat, on: bool, j: nat)
    requires k < 8
    ensures Bit(MarkBit(b, k, on), j) == if j == k then on else Bit(b, j)
  {
    assert Pow2(8) == 256 by { assert Pow2(3) == 8; assert Pow2(5) == 32; assert Pow2(7) == 128; }
    WithBitReads(b, k, on, 8, j);
  }

  lemma {:induction false} ZeroHasNoBits(j: nat)
    ensures !Bit(0, j)
  {
    if j > 0 { ZeroHasNoBits(j - 1); }
  }

  // ----- stores -----

  function WriteAt(b: seq<byte>, off: nat, data: seq<byte>): (c: seq<byte>)
    requires off + |data| <= |b|
    ensures |c| == |b|
  {
    b[..off] + data + b[off + |data|..]
  }

  lemma {:induction false} WriteReads(b: seq<byte>, off: nat, data: seq<byte>)
    requires off + |data| <= |b|
    ensures WriteAt(b, off, data)[off..off + |data|] == data
  {
  }

  /** A typed store or a `memcpy` through a pointer into the buffer. */
  method Store(buf: array<byte>, off: nat, data: seq<byte>)
    requires off + |data| <= buf.Length
    modifies buf
    ensures buf[..] == WriteAt(old(buf[..]), off, data)
  {
    for i := 0 to |data|
      invariant forall k :: 0 <= k < buf.Length ==>
                  buf[k] == if off <= k < off + i then data[k - off] else old(buf[k])
    {
      buf[off + i] := data[i];
    }
  }
}
