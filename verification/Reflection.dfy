/** The reflections of crc.cpp, which swap neighbouring groups of 1, 2, 4, 8 and 16 bits under
masks. They mirror a word just like the loops of Crc.c. */
module Reflection {
  import opened Bits

  function And(a: Bits, b: Bits): (c: Bits)
    requires |a| == |b|
    ensures |c| == |a|
  {
    seq(|a|, i requires 0 <= i < |a| == |b| => a[i] && b[i])
  }

  function Or(a: Bits, b: Bits): (c: Bits)
    requires |a| == |b|
    ensures |c| == |a|
  {
    seq(|a|, i requires 0 <= i < |a| == |b| => a[i] || b[i])
  }

  function Left(a: Bits, k: nat): (c: Bits)
    requires k <= |a|
    ensures |c| == |a|
  {
    a[k..] + Zeros(k)
  }

  function Right(a: Bits, k: nat): (c: Bits)
    requires k <= |a|
    ensures |c| == |a|
  {
    Zeros(k) + a[..|a| - k]
  }

  /** Move the bits of one mask up and those of the other down. */
  function Swap(a: Bits, k: nat, up: Bits, down: Bits): (c: Bits)
    requires |a| == |up| == |down| && k <= |a|
    ensures |c| == |a|
  {
    Or(Left(And(a, up), k), Right(And(a, down), k))
  }

  /** A mask of 32 bits, byte by byte. */
  function Mask(a: byte, b: byte, c: byte, d: byte): (m: Bits)
    ensures |m| == 32
  {
    ByteBits(a) + ByteBits(b) + ByteBits(c) + ByteBits(d)
  }

  function Reflect32(crc: Bits): (r: Bits)
    requires |crc| == 32
    ensures |r| == 32
  {
    var r1 := Swap(crc, 1, Mask(0x55, 0x55, 0x55, 0x55), Mask(0xAA, 0xAA, 0xAA, 0xAA));
    var r2 := Swap(r1, 2, Mask(0x33, 0x33, 0x33, 0x33), Mask(0xCC, 0xCC, 0xCC, 0xCC));
    var r4 := Swap(r2, 4, Mask(0x0F, 0x0F, 0x0F, 0x0F), Mask(0xF0, 0xF0, 0xF0, 0xF0));
    var r8 := Swap(r4, 8, Mask(0x00, 0xFF, 0x00, 0xFF), Mask(0xFF, 0x00, 0xFF, 0x00));
    Swap(r8, 16, Mask(0x00, 0x00, 0xFF, 0xFF), Mask(0xFF, 0xFF, 0x00, 0x00))
  }

  /** Each half is reflected and takes the place of the other. */
  function Reflect64(crc: Bits): (r: Bits)
    requires |crc| == 64
    ensures |r| == 64
  {
    Reflect32(crc[32..]) + Reflect32(crc[..32])
  }

  // ---- Swapping groups ----

  /** Pairs of k bits off and k bits on, and the other way round. */
  function OffOn(k: nat, length: nat): (m: Bits)
    requires k > 0
    ensures |m| == length
  {
    if length < 2 * k then Zeros(length) else Zeros(k) + Ones(k) + OffOn(k, length - 2 * k)
  }

  function OnOff(k: nat, length: nat): (m: Bits)
    requires k > 0
    ensures |m| == length
  {
    if length < 2 * k then Ones(length) else Ones(k) + Zeros(k) + OnOff(k, length - 2 * k)
  }

  /** A length that consists of such pairs. */
  predicate Whole(length: nat, k: nat)
    requires k > 0
  {
    length == 0 || (length >= 2 * k && Whole(length - 2 * k, k))
  }

  /** a with its neighbouring groups of k bits exchanged. */
  function Exchanged(a: Bits, k: nat): (c: Bits)
    requires k > 0
    ensures |c| == |a|
    decreases |a|
  {
    if |a| < 2 * k then a else a[k..2 * k] + a[..k] + Exchanged(a[2 * k..], k)
  }

  /** a with each of its groups of k bits mirrored. */
  function Mirrored(a: Bits, k: nat): (c: Bits)
    requires k > 0
    ensures |c| == |a|
    decreases |a|
  {
    if |a| < k then a else Reverse(a[..k]) + Mirrored(a[k..], k)
  }

  lemma AndConcat(x: Bits, y: Bits, a: Bits, b: Bits)
    requires |x| == |a| && |y| == |b|
    ensures And(x + y, a + b) == And(x, a) + And(y, b)
  {
  }

  lemma OrConcat(x: Bits, y: Bits, a: Bits, b: Bits)
    requires |x| == |a| && |y| == |b|
    ensures Or(x + y, a + b) == Or(x, a) + Or(y, b)
  {
  }

  lemma AndOnes(x: Bits)
    ensures And(x, Ones(|x|)) == x && And(x, Zeros(|x|)) == Zeros(|x|)
  {
  }

  lemma OrZeros(x: Bits)
    ensures Or(x, Zeros(|x|)) == x && Or(Zeros(|x|), x) == x
  {
  }

  /** Moving up a word of which every other group is empty. */
  lemma LeftOnPairs(y: Bits, t: Bits, k: nat)
    requires |y| == k <= |t| && t[..k] == Zeros(k)
    ensures Left(Zeros(k) + y + t, k) == y + Zeros(k) + Left(t, k)
  {
    assert (Zeros(k) + y + t)[k..] == y + t;
    assert t == Zeros(k) + t[k..];
  }

  lemma RightOnPairs(x: Bits, t: Bits, k: nat)
    requires |x| == k <= |t|
    ensures Right(x + Zeros(k) + t, k) == Zeros(k) + x + Right(t, k)
  {
  }

  lemma MaskPairs(x: Bits, y: Bits, t: Bits, m: Bits)
    requires |x| == |y| && |t| == |m|
    ensures And(x + y + t, Zeros(|x|) + Ones(|x|) + m) == Zeros(|x|) + y + And(t, m)
    ensures And(x + y + t, Ones(|x|) + Zeros(|x|) + m) == x + Zeros(|x|) + And(t, m)
  {
    var k := |x|;
    AndConcat(x + y, t, Zeros(k) + Ones(k), m);
    AndConcat(x + y, t, Ones(k) + Zeros(k), m);
    AndConcat(x, y, Zeros(k), Ones(k));
    AndConcat(x, y, Ones(k), Zeros(k));
    AndOnes(x);
    AndOnes(y);
  }

  lemma OrPairs(x: Bits, y: Bits, u: Bits, v: Bits)
    requires |x| == |y| && |u| == |v|
    ensures Or(y + Zeros(|x|) + u, Zeros(|x|) + x + v) == y + x + Or(u, v)
  {
    var k := |x|;
    OrConcat(y + Zeros(k), u, Zeros(k) + x, v);
    OrConcat(y, Zeros(k), Zeros(k), x);
    OrZeros(x);
    OrZeros(y);
  }

  lemma SwapPair(x: Bits, y: Bits)
    requires |x| == |y|
    ensures var k := |x|; Swap(x + y, k, Zeros(k) + Ones(k), Ones(k) + Zeros(k)) == y + x
  {
    var k := |x|;
    assert x + y + [] == x + y;
    assert Zeros(k) + Ones(k) + [] == Zeros(k) + Ones(k) && Ones(k) + Zeros(k) + [] == Ones(k) + Zeros(k);
    MaskPairs(x, y, [], []);
    assert And([], []) == [];
    assert Left(Zeros(k) + y, k) == y + Zeros(k) + [];
    assert Right(x + Zeros(k), k) == Zeros(k) + x + [];
    OrPairs(x, y, [], []);
    assert Or([], []) == [];
  }

  lemma SwapPairs(x: Bits, y: Bits, t: Bits, up: Bits, down: Bits)
    requires |x| == |y| <= |t| == |up| == |down| && up[..|x|] == Zeros(|x|)
    ensures var k := |x|;
            Swap(x + y + t, k, Zeros(k) + Ones(k) + up, Ones(k) + Zeros(k) + down) == y + x + Swap(t, k, up, down)
  {
    var k := |x|;
    MaskPairs(x, y, t, up);
    MaskPairs(x, y, t, down);
    assert And(t, up)[..k] == Zeros(k);
    LeftOnPairs(y, And(t, up), k);
    RightOnPairs(x, And(t, down), k);
    OrPairs(x, y, Left(And(t, up), k), Right(And(t, down), k));
  }

  /** Swapping under the alternating masks exchanges the groups. */
  lemma {:induction false} SwapExchanges(a: Bits, k: nat)
    requires k > 0 && Whole(|a|, k) && a != []
    ensures Swap(a, k, OffOn(k, |a|), OnOff(k, |a|)) == Exchanged(a, k)
    decreases |a|
  {
    var x, y, t := a[..k], a[k..2 * k], a[2 * k..];
    if t == [] {
      assert a == x + y && OffOn(k, 0) == [] == OnOff(k, 0);
      assert OffOn(k, |a|) == Zeros(k) + Ones(k) && OnOff(k, |a|) == Ones(k) + Zeros(k);
      SwapPair(x, y);
    } else {
      SwapExchanges(t, k);
      assert a == x + y + t;
      assert OffOn(k, |a|) == Zeros(k) + Ones(k) + OffOn(k, |t|);
      assert OnOff(k, |a|) == Ones(k) + Zeros(k) + OnOff(k, |t|);
      SwapPairs(x, y, t, OffOn(k, |t|), OnOff(k, |t|));
    }
  }

  lemma ReverseConcat(x: Bits, y: Bits)
    ensures Reverse(x + y) == Reverse(y) + Reverse(x)
  {
  }

  /** Exchanging mirrored groups mirrors groups of twice the size. */
  lemma {:induction false} ExchangeMirrors(a: Bits, k: nat)
    requires k > 0 && Whole(|a|, k)
    ensures Exchanged(Mirrored(a, k), k) == Mirrored(a, 2 * k)
    decreases |a|
  {
    if a != [] {
      var x, y, t := a[..k], a[k..2 * k], a[2 * k..];
      ExchangeMirrors(t, k);
      ReverseConcat(x, y);
      assert a[..2 * k] == x + y;
      assert a[k..][..k] == y && a[k..][k..] == t;
      var m := Mirrored(a, k);
      assert Mirrored(a[k..], k) == Reverse(y) + Mirrored(t, k);
      assert m[..k] == Reverse(x) && m[k..2 * k] == Reverse(y) && m[2 * k..] == Mirrored(t, k);
    }
  }

  lemma SwapMirrors(a: Bits, k: nat)
    requires k > 0 && Whole(|a|, k) && a != []
    ensures Swap(Mirrored(a, k), k, OffOn(k, |a|), OnOff(k, |a|)) == Mirrored(a, 2 * k)
  {
    SwapExchanges(Mirrored(a, k), k);
    ExchangeMirrors(a, k);
  }

  lemma {:induction false} MirroredAlone(a: Bits)
    ensures Mirrored(a, 1) == a
    decreases |a|
  {
    if a != [] {
      MirroredAlone(a[1..]);
      assert Reverse(a[..1]) == a[..1];
    }
  }

  lemma MirroredWhole(a: Bits)
    requires a != []
    ensures Mirrored(a, |a|) == Reverse(a)
  {
    assert a[..|a|] == a && a[|a|..] == [];
  }

  // ---- The masks ----

  lemma {:induction false} OffOnConcat(k: nat, n: nat, m: nat)
    requires k > 0 && Whole(n, k)
    ensures OffOn(k, n + m) == OffOn(k, n) + OffOn(k, m) && OnOff(k, n + m) == OnOff(k, n) + OnOff(k, m)
    decreases n
  {
    if n > 0 {
      OffOnConcat(k, n - 2 * k, m);
    }
  }

  lemma Four(b: Bits, c: Bits, d: Bits, e: Bits)
    ensures b + c + d + e == b + (c + (d + e))
  {
  }

  /** A mask of four equal bytes, for a word a. */
  lemma ByteMasks(a: Bits, k: nat, up: byte, down: byte)
    requires |a| == 32 && k > 0 && Whole(8, k) && ByteBits(up) == OffOn(k, 8) && ByteBits(down) == OnOff(k, 8)
    ensures Mask(up, up, up, up) == OffOn(k, |a|) && Mask(down, down, down, down) == OnOff(k, |a|)
  {
    var n := |ByteBits(up)|;
    OffOnConcat(k, n, n);
    OffOnConcat(k, n, n + n);
    OffOnConcat(k, n, n + (n + n));
    assert |a| == n + (n + (n + n));
    Four(ByteBits(up), ByteBits(up), ByteBits(up), ByteBits(up));
    Four(ByteBits(down), ByteBits(down), ByteBits(down), ByteBits(down));
  }

  lemma Bits55()
    ensures ByteBits(0x55) == [false, true, false, true, false, true, false, true]
  {
  }

  lemma BitsAA()
    ensures ByteBits(0xAA) == [true, false, true, false, true, false, true, false]
  {
  }

  lemma Bits33()
    ensures ByteBits(0x33) == [false, false, true, true, false, false, true, true]
  {
  }

  lemma BitsCC()
    ensures ByteBits(0xCC) == [true, true, false, false, true, true, false, false]
  {
  }

  lemma Bits0F()
    ensures ByteBits(0x0F) == [false, false, false, false, true, true, true, true]
  {
  }

  lemma BitsF0()
    ensures ByteBits(0xF0) == [true, true, true, true, false, false, false, false]
  {
  }

  lemma Bits00()
    ensures ByteBits(0x00) == [false, false, false, false, false, false, false, false]
  {
  }

  lemma BitsFF()
    ensures ByteBits(0xFF) == [true, true, true, true, true, true, true, true]
  {
  }

  lemma Pairs1()
    ensures OffOn(1, 8) == [false, true, false, true, false, true, false, true]
    ensures OnOff(1, 8) == [true, false, true, false, true, false, true, false]
  {
  }

  lemma Pairs2()
    ensures OffOn(2, 8) == [false, false, true, true, false, false, true, true]
    ensures OnOff(2, 8) == [true, true, false, false, true, true, false, false]
  {
  }

  lemma Pairs4()
    ensures OffOn(4, 8) == [false, false, false, false, true, true, true, true]
    ensures OnOff(4, 8) == [true, true, true, true, false, false, false, false]
  {
  }

  lemma Wholes()
    ensures Whole(8, 1) && Whole(8, 2) && Whole(8, 4)
    ensures Whole(32, 1) && Whole(32, 2) && Whole(32, 4) && Whole(32, 8) && Whole(32, 16)
  {
  }

  lemma Masks1(a: Bits)
    requires |a| == 32
    ensures Mask(0x55, 0x55, 0x55, 0x55) == OffOn(1, |a|) && Mask(0xAA, 0xAA, 0xAA, 0xAA) == OnOff(1, |a|)
  {
    Bits55();
    BitsAA();
    Pairs1();
    Wholes();
    ByteMasks(a, 1, 0x55, 0xAA);
  }

  lemma Masks2(a: Bits)
    requires |a| == 32
    ensures Mask(0x33, 0x33, 0x33, 0x33) == OffOn(2, |a|) && Mask(0xCC, 0xCC, 0xCC, 0xCC) == OnOff(2, |a|)
  {
    Bits33();
    BitsCC();
    Pairs2();
    Wholes();
    ByteMasks(a, 2, 0x33, 0xCC);
  }

  lemma Masks4(a: Bits)
    requires |a| == 32
    ensures Mask(0x0F, 0x0F, 0x0F, 0x0F) == OffOn(4, |a|) && Mask(0xF0, 0xF0, 0xF0, 0xF0) == OnOff(4, |a|)
  {
    Bits0F();
    BitsF0();
    Pairs4();
    Wholes();
    ByteMasks(a, 4, 0x0F, 0xF0);
  }

  lemma Masks8(a: Bits)
    requires |a| == 32
    ensures Mask(0x00, 0xFF, 0x00, 0xFF) == OffOn(8, |a|) && Mask(0xFF, 0x00, 0xFF, 0x00) == OnOff(8, |a|)
  {
    Bits00();
    BitsFF();
    var z, o := Zeros(8), Ones(8);
    var n := |a| - 16;
    assert OffOn(8, n - 16) == [] && OnOff(8, n - 16) == [];
    assert OffOn(8, n) == z + o && OnOff(8, n) == o + z;
    Four(z, o, z, o);
    Four(o, z, o, z);
  }

  lemma Masks16(a: Bits)
    requires |a| == 32
    ensures Mask(0x00, 0x00, 0xFF, 0xFF) == OffOn(16, |a|) && Mask(0xFF, 0xFF, 0x00, 0x00) == OnOff(16, |a|)
  {
    Bits00();
    BitsFF();
    var n := |a| - 32;
    assert OffOn(16, n) == [] && OnOff(16, n) == [];
    assert Zeros(8) + Zeros(8) == Zeros(16) && Ones(8) + Ones(8) == Ones(16);
    Four(Zeros(8), Zeros(8), Ones(8), Ones(8));
    Four(Ones(8), Ones(8), Zeros(8), Zeros(8));
  }

  // ---- Reflection ----

  lemma FiveSwaps(crc: Bits)
    requires |crc| == 32
    ensures Reflect32(crc) == Mirrored(crc, 32)
  {
    Wholes();
    MirroredAlone(crc);
    Masks1(crc);
    SwapMirrors(crc, 1);
    Masks2(crc);
    SwapMirrors(crc, 2);
    Masks4(crc);
    SwapMirrors(crc, 4);
    Masks8(crc);
    SwapMirrors(crc, 8);
    Masks16(crc);
    SwapMirrors(crc, 16);
  }

  /** Both reflections mirror their word. */
  lemma Reflect32IsReverse(crc: Bits)
    requires |crc| == 32
    ensures Reflect32(crc) == Reverse(crc)
  {
    FiveSwaps(crc);
    MirroredWhole(crc);
  }

  lemma Reflect64IsReverse(crc: Bits)
    requires |crc| == 64
    ensures Reflect64(crc) == Reverse(crc)
  {
    Reflect32IsReverse(crc[32..]);
    Reflect32IsReverse(crc[..32]);
    ReverseConcat(crc[..32], crc[32..]);
    assert crc == crc[..32] + crc[32..];
  }
}
