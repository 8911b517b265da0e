/**
 * Bytes as eight bits counted from the most significant one, the order in
 * which every e-Paper driver here packs pixels: pixel `k` of a group of
 * eight sits under the mask `0x80 >> k`.
 */
module Bits {

  /** `0x80 >> k`, the mask of bit `k` counted from the most significant. */
  function Mask(k: nat): (m: bv8)
    requires k < 8
    ensures m == 0x80 >> k
  {
    if k == 0 then 0x80 else if k == 1 then 0x40 else if k == 2 then 0x20 else if k == 3 then 0x10
    else if k == 4 then 0x08 else if k == 5 then 0x04 else if k == 6 then 0x02 else 0x01
  }

  /** Bit `k` of `b`, counted from the most significant, is set. */
  predicate Bit(b: bv8, k: nat)
    requires k < 8
  {
    b & Mask(k) != 0
  }

  /**
   * The byte an accumulator builds by, for each bit in turn, shifting left
   * and or-ing the bit in: the first bit ends up most significant.
   */
  function Acc(bits: seq<bool>): bv8
    decreases |bits|
  {
    if |bits| == 0 then 0
    else (Acc(bits[..|bits| - 1]) << 1) | One(bits[|bits| - 1])
  }

  /** Eight bits as one byte, the first in the most significant position. */
  function ByteOf(bits: seq<bool>): (b: bv8)
    requires |bits| == 8
    ensures forall k :: 0 <= k < 8 ==> (Bit(b, k) <==> bits[k])
  {
    AccUnrolled(bits);
    Acc(bits)
  }

  /** The byte whose bits, most significant first, are `b0` to `b7`. */
  function Spread(b0: bool, b1: bool, b2: bool, b3: bool, b4: bool, b5: bool, b6: bool, b7: bool): bv8
  {
    (if b0 then 0x80 else 0) | (if b1 then 0x40 else 0) | (if b2 then 0x20 else 0) | (if b3 then 0x10 else 0) |
    (if b4 then 0x08 else 0) | (if b5 then 0x04 else 0) | (if b6 then 0x02 else 0) | (if b7 then 0x01 else 0)
  }

  /** The accumulator over eight bits unrolled: each bit lands under its mask. */
  lemma AccUnrolled(bits: seq<bool>)
    requires |bits| == 8
    ensures forall k :: 0 <= k < 8 ==> (Bit(Acc(bits), k) <==> bits[k])
  {
    AccIsSpread(bits);
    SpreadBits(bits[0], bits[1], bits[2], bits[3], bits[4], bits[5], bits[6], bits[7]);
  }

  /** The accumulator over eight bits is the or of their masks. */
  lemma AccIsSpread(b: seq<bool>)
    requires |b| == 8
    ensures Acc(b) == Spread(b[0], b[1], b[2], b[3], b[4], b[5], b[6], b[7])
  {
    assert b[..0] == [];
    var a1 := AccPrefix(b, 1);
    var a2 := AccPrefix(b, 2);
    var a3 := AccPrefix(b, 3);
    var a4 := AccPrefix(b, 4);
    var a5 := AccPrefix(b, 5);
    var a6 := AccPrefix(b, 6);
    var a7 := AccPrefix(b, 7);
    var a8 := AccPrefix(b, 8);
    assert b[..8] == b;
    ChainIsSpread(b[0], b[1], b[2], b[3], b[4], b[5], b[6], b[7]);
  }

  /** One step of the accumulator on a prefix of `b`. */
  lemma AccPrefix(b: seq<bool>, n: nat) returns (a: bv8)
    requires 0 < n <= |b|
    ensures a == Acc(b[..n])
    ensures a == (Acc(b[..n - 1]) << 1) | One(b[n - 1])
  {
    assert b[..n][..n - 1] == b[..n - 1];
    a := Acc(b[..n]);
  }

  /** A bit as the number 0 or 1. */
  function One(x: bool): bv8
  {
    if x then 1 else 0
  }

  lemma ChainIsSpread(b0: bool, b1: bool, b2: bool, b3: bool, b4: bool, b5: bool, b6: bool, b7: bool)
    ensures var c1 := (0 << 1) | One(b0);
            var c2 := (c1 << 1) | One(b1);
            var c3 := (c2 << 1) | One(b2);
            var c4 := (c3 << 1) | One(b3);
            var c5 := (c4 << 1) | One(b4);
            var c6 := (c5 << 1) | One(b5);
            var c7 := (c6 << 1) | One(b6);
            (c7 << 1) | One(b7) == Spread(b0, b1, b2, b3, b4, b5, b6, b7)
  {
  }

  lemma SpreadBits(b0: bool, b1: bool, b2: bool, b3: bool, b4: bool, b5: bool, b6: bool, b7: bool)
    ensures var s := Spread(b0, b1, b2, b3, b4, b5, b6, b7);
            (Bit(s, 0) <==> b0) && (Bit(s, 1) <==> b1) && (Bit(s, 2) <==> b2) && (Bit(s, 3) <==> b3) &&
            (Bit(s, 4) <==> b4) && (Bit(s, 5) <==> b5) && (Bit(s, 6) <==> b6) && (Bit(s, 7) <==> b7)
  {
  }

  /** Two bytes are equal when all their bits are. */
  lemma BitsDetermineByte(a: bv8, b: bv8)
    requires forall k :: 0 <= k < 8 ==> (Bit(a, k) <==> Bit(b, k))
    ensures a == b
  {
    assert Bit(a, 0) == Bit(b, 0) && Bit(a, 1) == Bit(b, 1) && Bit(a, 2) == Bit(b, 2) && Bit(a, 3) == Bit(b, 3);
    assert Bit(a, 4) == Bit(b, 4) && Bit(a, 5) == Bit(b, 5) && Bit(a, 6) == Bit(b, 6) && Bit(a, 7) == Bit(b, 7);
  }

  /** Negating every bit before packing gives the bitwise complement of the packed byte. */
  lemma ByteOfNegated(bits: seq<bool>, neg: seq<bool>)
    requires |bits| == 8 && |neg| == 8
    requires forall k :: 0 <= k < 8 ==> neg[k] == !bits[k]
    ensures ByteOf(neg) == !ByteOf(bits)
  {
    var a := ByteOf(neg);
    var b := !ByteOf(bits);
    forall k | 0 <= k < 8
      ensures Bit(a, k) <==> Bit(b, k)
    {
      ComplementBit(ByteOf(bits), k);
    }
    BitsDetermineByte(a, b);
  }

  /** Bit `k` of the complement is the negation of bit `k`. */
  lemma ComplementBit(b: bv8, k: nat)
    requires k < 8
    ensures Bit(!b, k) <==> !Bit(b, k)
  {
  }

  /**
   * `b &= ~(0x80 >> k)`: bit `k` becomes clear and every other bit keeps
   * its value.
   */
  lemma ClearBit(b: bv8, k: nat, j: nat)
    requires k < 8 && j < 8
    ensures Bit(b & !Mask(k), j) <==> Bit(b, j) && j != k
  {
  }
}
