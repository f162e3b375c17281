/** The six CRCs in numbers: the table entries of the powers of two, which determine the tables, and
returned values. */
module CrcValues {
  import opened Bits
  import opened Hexadecimal
  import opened Crc
  import opened CrcTheory
  import opened CrcTable

  // ---- Entries from entries ----

  /** One shift of a mirrored register. */
  function StepDown(poly: Bits, r: Bits): (s: Bits)
    requires |r| == |poly| > 0
    ensures |s| == |r|
  {
    if r[|r| - 1] then Xor(Lowered(r, false), poly) else Lowered(r, false)
  }

  lemma StepReversed(poly: Bits, r: Bits)
    requires |r| == |poly| > 0
    ensures Reverse(Step(poly, r)) == StepDown(Reverse(poly), Reverse(r))
  {
    assert Reverse(ShiftLeft(r)) == Lowered(Reverse(r), false);
    ReverseXor(ShiftLeft(r), poly);
  }

  lemma {:induction false} LeadingZero(n: nat, w: nat)
    requires n < Pow2(w)
    ensures BitsOf(n, w + 1) == [false] + BitsOf(n, w)
  {
    if w > 0 {
      LeadingZero(n / 2, w - 1);
    }
  }

  lemma DoubledBits(n: nat, w: nat)
    requires n < Pow2(w)
    ensures BitsOf(n, w + 1) == [false] + BitsOf(n, w) && BitsOf(2 * n, w + 1) == BitsOf(n, w) + [false]
  {
    LeadingZero(n, w);
  }

  lemma {:induction false} ZeroBits(w: nat)
    ensures BitsOf(0, w) == Zeros(w)
  {
    if w > 0 {
      ZeroBits(w - 1);
    }
  }

  lemma {:induction false} PowerBits(w: nat)
    ensures BitsOf(1, w + 1) == Zeros(w) + [true] && BitsOf(Pow2(w), w + 1) == [true] + Zeros(w)
  {
    ZeroBits(w);
    if w > 0 {
      PowerBits(w - 1);
      assert [true] + Zeros(w - 1) + [false] == [true] + Zeros(w);
    }
  }

  lemma LoadDoubled(p: Params, i: byte, w: nat)
    requires i < 128 && w == 7
    ensures !p.reflected ==> Step(p.poly, Load(p, i)) == Load(p, 2 * i)
    ensures p.reflected ==> Step(p.poly, Load(p, 2 * i)) == Load(p, i)
  {
    Pow2Of8();
    DoubledBits(i, w);
    var b, z := BitsOf(i, w), Zeros(p.Width() - 8);
    if p.reflected {
      ReverseEnds(b);
      ShiftPast(Reverse(b), z);
    } else {
      ShiftPast(b, z);
    }
  }

  lemma ShiftPast(b: Bits, z: Bits)
    requires z == Zeros(|z|)
    ensures ShiftLeft([false] + b + z) == b + [false] + z
  {
  }

  lemma ReverseEnds(b: Bits)
    ensures Reverse(b + [false]) == [false] + Reverse(b) && Reverse([false] + b) == Reverse(b) + [false]
  {
  }

  /** A shift before the others is a shift after them. */
  lemma StepFirst(poly: Bits, r: Bits, n: nat)
    requires |r| == |poly| > 0
    ensures Steps(poly, Step(poly, r), n) == Step(poly, Steps(poly, r, n))
  {
    var one := 1;
    StepsAdd(poly, r, one, n, n + one);
    assert Steps(poly, r, one - 1) == r;
  }

  /** An entry determines that of the next power of two, or of the one before. */
  lemma EntryDoubled(p: Params, i: byte)
    requires i < 128
    ensures !p.reflected ==> Entry(p, 2 * i) == Step(p.poly, Entry(p, i))
    ensures p.reflected ==> Entry(p, i) == StepDown(Reverse(p.poly), Entry(p, 2 * i))
  {
    LoadDoubled(p, i, 7);
    if p.reflected {
      StepFirst(p.poly, Load(p, 2 * i), 8);
      StepReversed(p.poly, Steps(p.poly, Load(p, 2 * i), 8));
    } else {
      StepFirst(p.poly, Load(p, i), 8);
    }
  }

  lemma LoneBit(p: Params, w: nat, i: byte)
    requires w == 7 && i == if p.reflected then 128 else 1
    ensures Load(p, i) == Zeros(w) + [true] + Zeros(p.Width() - 8)
  {
    Pow2Of8();
    PowerBits(w);
    assert Reverse([true] + Zeros(w)) == Zeros(w) + [true];
  }

  lemma LoneShifted(poly: Bits, w: nat, k: nat)
    requires |poly| == w + k + 1
    ensures Steps(poly, Zeros(w) + [true] + Zeros(k), w + 1) == poly
  {
    var r := Zeros(w) + [true] + Zeros(k);
    StepsQuiet(poly, r, w);
    QuietPart(w, k);
    OutShifted(poly, k + w);
  }

  lemma QuietPart(w: nat, k: nat)
    ensures (Zeros(w) + [true] + Zeros(k))[w..] + Zeros(w) == [true] + Zeros(k + w)
  {
  }

  lemma OutShifted(poly: Bits, n: nat)
    requires |poly| == n + 1
    ensures Step(poly, [true] + Zeros(n)) == poly
  {
    assert ShiftLeft([true] + Zeros(n)) == Zeros(n + 1);
  }

  /** The first entry is the polynomial, mirrored for reflected CRCs. */
  lemma EntryOfLoneBit(p: Params, w: nat, i: byte)
    requires w == 7 && i == if p.reflected then 128 else 1
    ensures Entry(p, i) == p.Mirror(p.poly)
  {
    LoneBit(p, w, i);
    LoneShifted(p.poly, w, p.Width() - 8);
  }

  // ---- From one entry to the next ----

  lemma {:induction false} PlusAlike(w: Word, v: Word, poly: Word)
    requires Alike(w, poly) && Alike(v, poly)
    ensures Alike(w.Plus(v), poly)
  {
    match (w, v)
    case (Quad(r, _, _, _, _), Quad(s, _, _, _, _)) => PlusAlike(r, s, poly.rest);
    case _ =>
  }

  lemma {:induction false} AlikeItself(w: Word)
    ensures Alike(w, w)
  {
    if w.Quad? {
      AlikeItself(w.rest);
    }
  }

  lemma ShiftBits(poly: Word, w: Word)
    requires Alike(w, poly) && !w.Empty?
    ensures Alike(Shift(poly, w), poly) && |InBits(w)| == |InBits(poly)| > 0
    ensures InBits(Shift(poly, w)) == Step(InBits(poly), InBits(w))
  {
    UpBits(w, false);
    PlusBits(w, poly);
    ShiftedAlike(w, poly, false);
    PlusBits(w.Up(false), poly);
    assert Raised(InBits(w), false) == ShiftLeft(InBits(w));
    AlikeItself(poly);
    PlusAlike(w.Up(false), poly, poly);
  }

  lemma ShiftDownBits(poly: Word, w: Word)
    requires Alike(w, poly) && !w.Empty?
    ensures Alike(ShiftDown(poly, w), poly) && |InBits(w)| == |InBits(poly)| > 0
    ensures InBits(ShiftDown(poly, w)) == StepDown(InBits(poly), InBits(w))
  {
    DownBits(w);
    PlusBits(w, poly);
    ShiftedAlike(w, poly, false);
    PlusBits(w.Down(), poly);
    AlikeItself(poly);
    PlusAlike(w.Down(), poly, poly);
  }

  /** Bit k of a byte, alone. */
  function Lone(k: nat): byte
    requires k < 8
  {
    match k
    case 0 => 1
    case 1 => 2
    case 2 => 4
    case 3 => 8
    case 4 => 16
    case 5 => 32
    case 6 => 64
    case 7 => 128
  }

  lemma LoneDoubled(k: nat)
    requires k < 7
    ensures Lone(k) < 128 && Lone(k + 1) == 2 * Lone(k)
  {
  }

  lemma Base(p: Params, poly: Word, i: byte)
    requires p.Mirror(p.poly) == InBits(poly) && i == if p.reflected then 128 else 1
    ensures Alike(poly, poly) && Entry(p, i) == InBits(poly)
  {
    AlikeItself(poly);
    EntryOfLoneBit(p, 7, i);
  }

  lemma Next(p: Params, k: nat, poly: Word, x: Word)
    requires !p.reflected && k < 7 && p.poly == InBits(poly) && Alike(x, poly) && Entry(p, Lone(k)) == InBits(x)
    ensures Alike(Shift(poly, x), poly) && Entry(p, Lone(k + 1)) == InBits(Shift(poly, x))
  {
    LoneDoubled(k);
    EntryDoubled(p, Lone(k));
    ShiftBits(poly, x);
  }

  lemma Previous(p: Params, k: nat, poly: Word, x: Word)
    requires p.reflected && k < 7 && Reverse(p.poly) == InBits(poly)
    requires Alike(x, poly) && Entry(p, Lone(k + 1)) == InBits(x)
    ensures Alike(ShiftDown(poly, x), poly) && Entry(p, Lone(k)) == InBits(ShiftDown(poly, x))
  {
    LoneDoubled(k);
    EntryDoubled(p, Lone(k));
    ShiftDownBits(poly, x);
  }

  /** Rows that follow from each other by shifting are the entries of the powers of two. */
  lemma {:induction false} Ascending(p: Params, row: nat -> Word, k: nat)
    requires !p.reflected && p.poly == InBits(row(0)) && k < 8
    requires forall j: nat :: j < 7 ==> row(j + 1) == Shift(row(0), row(j))
    ensures Alike(row(k), row(0)) && Entry(p, Lone(k)) == InBits(row(k))
  {
    if k == 0 {
      Base(p, row(0), Lone(k));
    } else {
      Ascending(p, row, k - 1);
      Next(p, k - 1, row(0), row(k - 1));
    }
  }

  lemma {:induction false} Descending(p: Params, row: nat -> Word, k: nat)
    requires p.reflected && Reverse(p.poly) == InBits(row(0)) && k < 8
    requires forall j: nat :: j < 7 ==> row(j + 1) == ShiftDown(row(0), row(j))
    ensures Alike(row(k), row(0)) && Entry(p, Lone(7 - k)) == InBits(row(k))
  {
    if k == 0 {
      Base(p, row(0), Lone(7 - k));
    } else {
      Descending(p, row, k - 1);
      Previous(p, 7 - k, row(0), row(k - 1));
    }
  }

  lemma PolyBits(p: Params, size: nat, n: nat, xorOut: Bits, reflected: bool, w: Word)
    requires 1 <= size && n % 2 == 1 && |xorOut| == 8 * size && p == Standard(size, n, xorOut, reflected)
    requires Number(w) == n && Length(w) == 8 * size
    ensures p.poly == InBits(w)
  {
    NumberBits(w, 8 * size);
  }

  lemma MirrorBits(w: Word, v: Word)
    requires InQuads(w) && w.Flipped(Empty) == v
    ensures Reverse(InBits(w)) == InBits(v)
  {
    FlippedBits(w, Empty);
    assert [] + Reverse(InBits(w)) == Reverse(InBits(w));
  }

  // ---- Returned values ----

  /** As many bytes of ones as the CRC has. */
  function Full(n: nat): (s: seq<byte>)
    ensures |s| == n
  {
    seq(n, _ => 0xFF)
  }

  lemma {:induction false} OneBits(v: nat, w: nat)
    requires v + 1 == Pow2(w)
    ensures BitsOf(v, w) == Ones(w)
  {
    if w > 0 {
      OneBits(v / 2, w - 1);
    }
  }

  lemma LoadOnes(p: Params, w: nat)
    requires w == 8
    ensures Load(p, 0xFF) == Ones(w) + Zeros(p.Width() - w)
  {
    Pow2Of8();
    OneBits(0xFF, w);
    assert Reverse(Ones(w)) == Ones(w);
  }

  /** A byte of ones takes away as many ones from the register. */
  lemma FeedOnes(p: Params, a: nat, k: nat, m: nat, c: nat, w: nat)
    requires w == 8 && a == w + m && c == k + w && a + k == p.Width()
    ensures Feed(p, Ones(a) + Zeros(k), 0xFF) == Ones(m) + Zeros(c)
  {
    LoadOnes(p, w);
    OnesCancel(m, k, w);
    OnesMoved(m, k, w);
    StepsQuiet(p.poly, Zeros(w) + Ones(m) + Zeros(k), w);
  }

  lemma OnesMoved(m: nat, k: nat, w: nat)
    ensures (Zeros(w) + Ones(m) + Zeros(k))[w..] + Zeros(w) == Ones(m) + Zeros(k + w)
  {
  }

  lemma OnesCancel(m: nat, k: nat, w: nat)
    ensures Xor(Ones(w + m) + Zeros(k), Ones(w) + Zeros(m + k)) == Zeros(w) + Ones(m) + Zeros(k)
  {
  }

  lemma FullSnoc(n: nat)
    ensures Full(n + 1) == Full(n) + [0xFF]
  {
  }

  lemma {:induction false} RunOnes(p: Params, r: Bits, n: nat, m: nat, k: nat)
    requires k == 8 * n && m + k == p.Width() && r == Ones(p.Width())
    ensures Run(p, r, Full(n)) == Ones(m) + Zeros(k)
  {
    if n == 0 {
      assert Ones(m) + Zeros(0) == Ones(m);
    } else {
      var a, b := m + 8, k - 8;
      RunOnes(p, r, n - 1, a, b);
      FullSnoc(n - 1);
      RunSnoc(p, r, Full(n - 1), 0xFF);
      FeedOnes(p, a, b, m, k, 8);
    }
  }

  /** The CRC of a byte behind as many bytes of ones as the CRC has is its table entry, but for the
      final exclusive or. */
  lemma CheckValue(p: Params, b: byte, start: Bits)
    requires p.init == Ones(p.Width()) && |start| == p.Width()
    ensures Calculate(p, Full(p.size) + [b], start, true) == Xor(Entry(p, b), p.xorOut)
  {
    RunOnes(p, p.init, p.size, 0, p.Width());
    RunSnoc(p, p.init, Full(p.size), b);
    assert Ones(0) + Zeros(p.Width()) == Zeros(p.Width());
    assert Xor(Zeros(p.Width()), Load(p, b)) == Load(p, b);
  }

  // ---- CRC8 ----

  /** The entries of the powers of two, in the order in which shifting yields them. */
  function Row8(k: nat): Word
  {
    match k
    case 0 => Pair(H1, HD)
    case 1 => Pair(H3, HA)
    case 2 => Pair(H7, H4)
    case 3 => Pair(HE, H8)
    case 4 => Pair(HC, HD)
    case 5 => Pair(H8, H7)
    case 6 => Pair(H1, H3)
    case _ => Pair(H2, H6)
  }

  lemma Rows8()
    ensures Row8(1) == Shift(Row8(0), Row8(0))
    ensures Row8(2) == Shift(Row8(0), Row8(1))
    ensures Row8(3) == Shift(Row8(0), Row8(2))
    ensures Row8(4) == Shift(Row8(0), Row8(3))
    ensures Row8(5) == Shift(Row8(0), Row8(4))
    ensures Row8(6) == Shift(Row8(0), Row8(5))
    ensures Row8(7) == Shift(Row8(0), Row8(6))
  {
  }

  lemma Row8Next(j: nat)
    requires j < 7
    ensures Row8(j + 1) == Shift(Row8(0), Row8(j))
  {
    Rows8();
  }

  lemma Start8()
    ensures Number(Row8(0)) == 0x1D && Length(Row8(0)) == 8
  {
  }

  lemma Polynomial8(p: Params)
    requires p == CRC8()
    ensures !p.reflected && p.poly == InBits(Row8(0))
  {
    Start8();
    PolyBits(p, 1, 0x1D, Ones(8), false, Row8(0));
  }

  /** The table of CRC8 has these entries, and the CRC of a power of two behind one byte of ones
      is its entry, inverted. */
  lemma Values8(p: Params, k: nat, start: Bits)
    requires p == CRC8() && k < 8 && |start| == 8
    ensures var b, entry := Lone(k), InBits(Row8(k));
            && |entry| == 8 && Entry(p, b) == entry
            && Calculate(p, Full(1) + [b], start, true) == Xor(entry, Ones(8))
  {
    CheckValue(p, Lone(k), start);
    Polynomial8(p);
    forall j: nat | j < 7
      ensures Row8(j + 1) == Shift(Row8(0), Row8(j))
    {
      Row8Next(j);
    }
    Ascending(p, Row8, k);
  }

  // ---- CRC8H2F ----

  /** The entries of the powers of two, in the order in which shifting yields them. */
  function Row8H2F(k: nat): Word
  {
    match k
    case 0 => Pair(H2, HF)
    case 1 => Pair(H5, HE)
    case 2 => Pair(HB, HC)
    case 3 => Pair(H5, H7)
    case 4 => Pair(HA, HE)
    case 5 => Pair(H7, H3)
    case 6 => Pair(HE, H6)
    case _ => Pair(HE, H3)
  }

  lemma Rows8H2F()
    ensures Row8H2F(1) == Shift(Row8H2F(0), Row8H2F(0))
    ensures Row8H2F(2) == Shift(Row8H2F(0), Row8H2F(1))
    ensures Row8H2F(3) == Shift(Row8H2F(0), Row8H2F(2))
    ensures Row8H2F(4) == Shift(Row8H2F(0), Row8H2F(3))
    ensures Row8H2F(5) == Shift(Row8H2F(0), Row8H2F(4))
    ensures Row8H2F(6) == Shift(Row8H2F(0), Row8H2F(5))
    ensures Row8H2F(7) == Shift(Row8H2F(0), Row8H2F(6))
  {
  }

  lemma Row8H2FNext(j: nat)
    requires j < 7
    ensures Row8H2F(j + 1) == Shift(Row8H2F(0), Row8H2F(j))
  {
    Rows8H2F();
  }

  lemma Start8H2F()
    ensures Number(Row8H2F(0)) == 0x2F && Length(Row8H2F(0)) == 8
  {
  }

  lemma Polynomial8H2F(p: Params)
    requires p == CRC8H2F()
    ensures !p.reflected && p.poly == InBits(Row8H2F(0))
  {
    Start8H2F();
    PolyBits(p, 1, 0x2F, Ones(8), false, Row8H2F(0));
  }

  /** The table of CRC8H2F has these entries, and the CRC of a power of two behind one byte of ones
      is its entry, inverted. */
  lemma Values8H2F(p: Params, k: nat, start: Bits)
    requires p == CRC8H2F() && k < 8 && |start| == 8
    ensures var b, entry := Lone(k), InBits(Row8H2F(k));
            && |entry| == 8 && Entry(p, b) == entry
            && Calculate(p, Full(1) + [b], start, true) == Xor(entry, Ones(8))
  {
    CheckValue(p, Lone(k), start);
    Polynomial8H2F(p);
    forall j: nat | j < 7
      ensures Row8H2F(j + 1) == Shift(Row8H2F(0), Row8H2F(j))
    {
      Row8H2FNext(j);
    }
    Ascending(p, Row8H2F, k);
  }

  // ---- CRC16 ----

  /** The entries of the powers of two, in the order in which shifting yields them. */
  function Row16(k: nat): Word
  {
    match k
    case 0 => Quad(Empty, H1, H0, H2, H1)
    case 1 => Quad(Empty, H2, H0, H4, H2)
    case 2 => Quad(Empty, H4, H0, H8, H4)
    case 3 => Quad(Empty, H8, H1, H0, H8)
    case 4 => Quad(Empty, H1, H2, H3, H1)
    case 5 => Quad(Empty, H2, H4, H6, H2)
    case 6 => Quad(Empty, H4, H8, HC, H4)
    case _ => Quad(Empty, H9, H1, H8, H8)
  }

  lemma Rows16()
    ensures Row16(1) == Shift(Row16(0), Row16(0))
    ensures Row16(2) == Shift(Row16(0), Row16(1))
    ensures Row16(3) == Shift(Row16(0), Row16(2))
    ensures Row16(4) == Shift(Row16(0), Row16(3))
    ensures Row16(5) == Shift(Row16(0), Row16(4))
    ensures Row16(6) == Shift(Row16(0), Row16(5))
    ensures Row16(7) == Shift(Row16(0), Row16(6))
  {
  }

  lemma Row16Next(j: nat)
    requires j < 7
    ensures Row16(j + 1) == Shift(Row16(0), Row16(j))
  {
    Rows16();
  }

  lemma Start16()
    ensures Number(Row16(0)) == 0x1021 && Length(Row16(0)) == 16
  {
  }

  lemma Polynomial16(p: Params)
    requires p == CRC16()
    ensures !p.reflected && p.poly == InBits(Row16(0))
  {
    Start16();
    PolyBits(p, 2, 0x1021, Zeros(16), false, Row16(0));
  }

  /** The table of CRC16 has these entries, and the CRC of a power of two behind 2 bytes of ones
      is its entry. */
  lemma Values16(p: Params, k: nat, start: Bits)
    requires p == CRC16() && k < 8 && |start| == 16
    ensures var b, entry := Lone(k), InBits(Row16(k));
            && |entry| == 16 && Entry(p, b) == entry
            && Calculate(p, Full(2) + [b], start, true) == entry
  {
    CheckValue(p, Lone(k), start);
    Polynomial16(p);
    forall j: nat | j < 7
      ensures Row16(j + 1) == Shift(Row16(0), Row16(j))
    {
      Row16Next(j);
    }
    Ascending(p, Row16, k);
    XorZeros(InBits(Row16(k)));
  }

  // ---- CRC32 ----

  /** The entries of the powers of two, in the order in which shifting yields them. */
  function Row32(k: nat): Word
  {
    match k
    case 0 => Quad(Quad(Empty, HE, HD, HB, H8), H8, H3, H2, H0)
    case 1 => Quad(Quad(Empty, H7, H6, HD, HC), H4, H1, H9, H0)
    case 2 => Quad(Quad(Empty, H3, HB, H6, HE), H2, H0, HC, H8)
    case 3 => Quad(Quad(Empty, H1, HD, HB, H7), H1, H0, H6, H4)
    case 4 => Quad(Quad(Empty, H0, HE, HD, HB), H8, H8, H3, H2)
    case 5 => Quad(Quad(Empty, H0, H7, H6, HD), HC, H4, H1, H9)
    case 6 => Quad(Quad(Empty, HE, HE, H0, HE), H6, H1, H2, HC)
    case _ => Quad(Quad(Empty, H7, H7, H0, H7), H3, H0, H9, H6)
  }

  lemma Rows32()
    ensures Row32(1) == ShiftDown(Row32(0), Row32(0))
    ensures Row32(2) == ShiftDown(Row32(0), Row32(1))
    ensures Row32(3) == ShiftDown(Row32(0), Row32(2))
    ensures Row32(4) == ShiftDown(Row32(0), Row32(3))
    ensures Row32(5) == ShiftDown(Row32(0), Row32(4))
    ensures Row32(6) == ShiftDown(Row32(0), Row32(5))
    ensures Row32(7) == ShiftDown(Row32(0), Row32(6))
  {
  }

  lemma Row32Next(j: nat)
    requires j < 7
    ensures Row32(j + 1) == ShiftDown(Row32(0), Row32(j))
  {
    Rows32();
  }

  function Poly32(): Word
  {
    Quad(Quad(Empty, H0, H4, HC, H1), H1, HD, HB, H7)
  }

  lemma Start32()
    ensures Number(Poly32()) == 0x04C1_1DB7 && Length(Poly32()) == 32
  {
  }

  lemma Mirrored32()
    ensures InQuads(Poly32()) && Poly32().Flipped(Empty) == Row32(0)
  {
  }

  lemma Polynomial32(p: Params)
    requires p == CRC32()
    ensures p.reflected && Reverse(p.poly) == InBits(Row32(0))
  {
    Start32();
    PolyBits(p, 4, 0x04C1_1DB7, Ones(32), true, Poly32());
    Mirrored32();
    MirrorBits(Poly32(), Row32(0));
  }

  /** The table of CRC32 has these entries, and the CRC of a power of two behind 4 bytes of ones
      is its entry, inverted. */
  lemma Values32(p: Params, k: nat, start: Bits)
    requires p == CRC32() && k < 8 && |start| == 32
    ensures var b, entry := Lone(7 - k), InBits(Row32(k));
            && |entry| == 32 && Entry(p, b) == entry
            && Calculate(p, Full(4) + [b], start, true) == Xor(entry, Ones(32))
  {
    CheckValue(p, Lone(7 - k), start);
    Polynomial32(p);
    forall j: nat | j < 7
      ensures Row32(j + 1) == ShiftDown(Row32(0), Row32(j))
    {
      Row32Next(j);
    }
    Descending(p, Row32, k);
  }

  // ---- CRC32P4 ----

  /** The entries of the powers of two, in the order in which shifting yields them. */
  function Row32P4(k: nat): Word
  {
    match k
    case 0 => Quad(Quad(Empty, HC, H8, HD, HF), H3, H5, H2, HF)
    case 1 => Quad(Quad(Empty, HA, HC, HB, H0), HA, HF, HB, H8)
    case 2 => Quad(Quad(Empty, H5, H6, H5, H8), H5, H7, HD, HC)
    case 3 => Quad(Quad(Empty, H2, HB, H2, HC), H2, HB, HE, HE)
    case 4 => Quad(Quad(Empty, H1, H5, H9, H6), H1, H5, HF, H7)
    case 5 => Quad(Quad(Empty, HC, H2, H1, H4), H3, HF, HD, H4)
    case 6 => Quad(Quad(Empty, H6, H1, H0, HA), H1, HF, HE, HA)
    case _ => Quad(Quad(Empty, H3, H0, H8, H5), H0, HF, HF, H5)
  }

  lemma Rows32P4()
    ensures Row32P4(1) == ShiftDown(Row32P4(0), Row32P4(0))
    ensures Row32P4(2) == ShiftDown(Row32P4(0), Row32P4(1))
    ensures Row32P4(3) == ShiftDown(Row32P4(0), Row32P4(2))
    ensures Row32P4(4) == ShiftDown(Row32P4(0), Row32P4(3))
    ensures Row32P4(5) == ShiftDown(Row32P4(0), Row32P4(4))
    ensures Row32P4(6) == ShiftDown(Row32P4(0), Row32P4(5))
    ensures Row32P4(7) == ShiftDown(Row32P4(0), Row32P4(6))
  {
  }

  lemma Row32P4Next(j: nat)
    requires j < 7
    ensures Row32P4(j + 1) == ShiftDown(Row32P4(0), Row32P4(j))
  {
    Rows32P4();
  }

  function Poly32P4(): Word
  {
    Quad(Quad(Empty, HF, H4, HA, HC), HF, HB, H1, H3)
  }

  lemma Start32P4()
    ensures Number(Poly32P4()) == 0xF4AC_FB13 && Length(Poly32P4()) == 32
  {
  }

  lemma Mirrored32P4()
    ensures InQuads(Poly32P4()) && Poly32P4().Flipped(Empty) == Row32P4(0)
  {
  }

  lemma Polynomial32P4(p: Params)
    requires p == CRC32P4()
    ensures p.reflected && Reverse(p.poly) == InBits(Row32P4(0))
  {
    Start32P4();
    PolyBits(p, 4, 0xF4AC_FB13, Ones(32), true, Poly32P4());
    Mirrored32P4();
    MirrorBits(Poly32P4(), Row32P4(0));
  }

  /** The table of CRC32P4 has these entries, and the CRC of a power of two behind 4 bytes of ones
      is its entry, inverted. */
  lemma Values32P4(p: Params, k: nat, start: Bits)
    requires p == CRC32P4() && k < 8 && |start| == 32
    ensures var b, entry := Lone(7 - k), InBits(Row32P4(k));
            && |entry| == 32 && Entry(p, b) == entry
            && Calculate(p, Full(4) + [b], start, true) == Xor(entry, Ones(32))
  {
    CheckValue(p, Lone(7 - k), start);
    Polynomial32P4(p);
    forall j: nat | j < 7
      ensures Row32P4(j + 1) == ShiftDown(Row32P4(0), Row32P4(j))
    {
      Row32P4Next(j);
    }
    Descending(p, Row32P4, k);
  }

  // ---- CRC64 ----

  /** The entries of the powers of two, in the order in which shifting yields them. */
  function Row64(k: nat): Word
  {
    match k
    case 0 => Quad(Quad(Quad(Quad(Empty, HC, H9, H6, HC), H5, H7, H9, H5), HD, H7, H8, H7), H0, HF, H4, H2)
    case 1 => Quad(Quad(Quad(Quad(Empty, H6, H4, HB, H6), H2, HB, HC, HA), HE, HB, HC, H3), H8, H7, HA, H1)
    case 2 => Quad(Quad(Quad(Quad(Empty, HF, HB, H3, H7), H4, H2, H7, H0), HA, H2, H6, H6), HC, HC, H9, H2)
    case 3 => Quad(Quad(Quad(Quad(Empty, H7, HD, H9, HB), HA, H1, H3, H8), H5, H1, H3, H3), H6, H6, H4, H9)
    case 4 => Quad(Quad(Quad(Quad(Empty, HF, H7, HA, H1), H8, H7, H0, H9), HF, HF, H1, HE), HB, HC, H6, H6)
    case 5 => Quad(Quad(Quad(Quad(Empty, H7, HB, HD, H0), HC, H3, H8, H4), HF, HF, H8, HF), H5, HE, H3, H3)
    case 6 => Quad(Quad(Quad(Quad(Empty, HF, H4, H8, H4), H3, H6, H5, H7), HA, H8, H4, H0), HA, H0, H5, HB)
    case _ => Quad(Quad(Quad(Quad(Empty, HB, H3, H2, HE), H4, HC, HB, HE), H0, H3, HA, H7), H5, HF, H6, HF)
  }

  lemma Rows64()
    ensures Row64(1) == ShiftDown(Row64(0), Row64(0))
    ensures Row64(2) == ShiftDown(Row64(0), Row64(1))
    ensures Row64(3) == ShiftDown(Row64(0), Row64(2))
    ensures Row64(4) == ShiftDown(Row64(0), Row64(3))
  {
  }

  lemma MoreRows64()
    ensures Row64(5) == ShiftDown(Row64(0), Row64(4))
    ensures Row64(6) == ShiftDown(Row64(0), Row64(5))
    ensures Row64(7) == ShiftDown(Row64(0), Row64(6))
  {
  }

  lemma Row64Next(j: nat)
    requires j < 7
    ensures Row64(j + 1) == ShiftDown(Row64(0), Row64(j))
  {
    if j < 4 {
      Rows64();
    } else {
      MoreRows64();
    }
  }

  function Poly64(): Word
  {
    Quad(Quad(Quad(Quad(Empty, H4, H2, HF, H0), HE, H1, HE, HB), HA, H9, HE, HA), H3, H6, H9, H3)
  }

  lemma Start64()
    ensures Number(Poly64()) == 0x42F0_E1EB_A9EA_3693 && Length(Poly64()) == 64
  {
  }

  lemma Mirrored64()
    ensures InQuads(Poly64()) && Poly64().Flipped(Empty) == Row64(0)
  {
  }

  lemma Polynomial64(p: Params)
    requires p == CRC64()
    ensures p.reflected && Reverse(p.poly) == InBits(Row64(0))
  {
    Start64();
    PolyBits(p, 8, 0x42F0_E1EB_A9EA_3693, Ones(64), true, Poly64());
    Mirrored64();
    MirrorBits(Poly64(), Row64(0));
  }

  /** The table of CRC64 has these entries, and the CRC of a power of two behind 8 bytes of ones
      is its entry, inverted. */
  lemma Values64(p: Params, k: nat, start: Bits)
    requires p == CRC64() && k < 8 && |start| == 64
    ensures var b, entry := Lone(7 - k), InBits(Row64(k));
            && |entry| == 64 && Entry(p, b) == entry
            && Calculate(p, Full(8) + [b], start, true) == Xor(entry, Ones(64))
  {
    CheckValue(p, Lone(7 - k), start);
    Polynomial64(p);
    forall j: nat | j < 7
      ensures Row64(j + 1) == ShiftDown(Row64(0), Row64(j))
    {
      Row64Next(j);
    }
    Descending(p, Row64, k);
  }
}
