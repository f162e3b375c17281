/** Unsigned integers of a fixed width as the sequence of their bits, most significant first. */
module Bits {

  type byte = n: int | 0 <= n < 256

  type Bits = seq<bool>

  function Zeros(n: nat): (z: Bits)
    ensures |z| == n
  {
    seq(n, _ => false)
  }

  function Ones(n: nat): (z: Bits)
    ensures |z| == n
  {
    seq(n, _ => true)
  }

  function Xor(a: Bits, b: Bits): (c: Bits)
    requires |a| == |b|
    ensures |c| == |a|
  {
    seq(|a|, i requires 0 <= i < |a| == |b| => a[i] != b[i])
  }

  /** The bits of n % 2^w. */
  function BitsOf(n: nat, w: nat): (b: Bits)
    ensures |b| == w
    ensures w > 0 ==> b[w - 1] == (n % 2 == 1)
  {
    if w == 0 then [] else BitsOf(n / 2, w - 1) + [n % 2 == 1]
  }

  /** The number a sequence of bits denotes. */
  function Value(b: Bits): nat
  {
    if b == [] then 0 else 2 * Value(b[..|b| - 1]) + if b[|b| - 1] then 1 else 0
  }

  function Pow2(w: nat): nat
  {
    if w == 0 then 1 else 2 * Pow2(w - 1)
  }

  lemma {:induction false} ValueBitsOf(n: nat, w: nat)
    requires n < Pow2(w)
    ensures Value(BitsOf(n, w)) == n
  {
    if w > 0 {
      ValueBitsOf(n / 2, w - 1);
      assert BitsOf(n, w)[..w - 1] == BitsOf(n / 2, w - 1);
    }
  }

  lemma {:induction false} BitsOfValue(b: Bits)
    ensures Value(b) < Pow2(|b|)
    ensures BitsOf(Value(b), |b|) == b
  {
    if b != [] {
      var c := b[..|b| - 1];
      BitsOfValue(c);
      assert Value(b) / 2 == Value(c);
      assert b == c + [b[|b| - 1]];
    }
  }

  // ---- Bytes ----

  function ByteBits(b: byte): (s: Bits)
    ensures |s| == 8
  {
    BitsOf(b, 8)
  }

  function ByteOf(s: Bits): (b: byte)
    requires |s| == 8
    ensures ByteBits(b) == s
  {
    BitsOfValue(s);
    Pow2Of8();
    Value(s)
  }

  lemma Pow2Of8()
    ensures Pow2(8) == 256
  {
    assert Pow2(4) == 16;
  }

  lemma ByteBitsInjective(a: byte, b: byte)
    requires ByteBits(a) == ByteBits(b)
    ensures a == b
  {
    Pow2Of8();
    ValueBitsOf(a, 8);
    ValueBitsOf(b, 8);
  }

  /** A word of n bytes as bytes, the most significant first, and back. */
  function ToBytes(w: Bits, n: nat): (s: seq<byte>)
    requires |w| == 8 * n
    ensures |s| == n
  {
    if n == 0 then [] else [ByteOf(w[..8])] + ToBytes(w[8..], n - 1)
  }

  function FromBytes(s: seq<byte>): (w: Bits)
    ensures |w| == 8 * |s|
  {
    if s == [] then [] else ByteBits(s[0]) + FromBytes(s[1..])
  }

  lemma {:induction false} FromToBytes(w: Bits, n: nat)
    requires |w| == 8 * n
    ensures FromBytes(ToBytes(w, n)) == w
  {
    if n > 0 {
      FromToBytes(w[8..], n - 1);
      assert ToBytes(w, n)[1..] == ToBytes(w[8..], n - 1);
      assert w == w[..8] + w[8..];
    }
  }

  lemma {:induction false} ToFromBytes(s: seq<byte>)
    ensures ToBytes(FromBytes(s), |s|) == s
  {
    if s != [] {
      ToFromBytes(s[1..]);
      var w := FromBytes(s);
      assert w[..8] == ByteBits(s[0]) && w[8..] == FromBytes(s[1..]);
      ByteBitsInjective(ByteOf(w[..8]), s[0]);
    }
  }

  // ---- Exclusive or ----

  lemma XorZeros(a: Bits)
    ensures Xor(a, Zeros(|a|)) == a
    ensures Xor(a, a) == Zeros(|a|)
  {
  }

  lemma XorCancel(a: Bits, b: Bits)
    requires |a| == |b| && Xor(a, b) == Zeros(|a|)
    ensures a == b
  {
    forall i | 0 <= i < |a| ensures a[i] == b[i] {
      assert Xor(a, b)[i] == Zeros(|a|)[i];
    }
  }

  lemma XorTwice(a: Bits, b: Bits)
    requires |a| == |b|
    ensures Xor(Xor(a, b), b) == a
  {
  }

  // ---- Reflection ----

  /** Bit k comes from bit w - 1 - k. */
  function Reverse(a: Bits): (r: Bits)
    ensures |r| == |a|
    ensures forall i :: 0 <= i < |a| ==> r[i] == a[|a| - 1 - i]
  {
    seq(|a|, i requires 0 <= i < |a| => a[|a| - 1 - i])
  }

  lemma ReverseInvolution(a: Bits)
    ensures Reverse(Reverse(a)) == a
  {
  }

  lemma ReverseXor(a: Bits, b: Bits)
    requires |a| == |b|
    ensures Reverse(Xor(a, b)) == Xor(Reverse(a), Reverse(b))
  {
  }
}
