/** The table-driven routines: CRC_TABLE mode of Crc.c and the class CRC of crc.cpp. */
module CrcTable {
  import opened Bits
  import opened Crc
  import opened CrcTheory

  /** Entry i holds what eight shifts make of byte i alone, mirrored for reflected CRCs. */
  ghost predicate IsTable(p: Params, table: seq<Bits>)
  {
    |table| == 256 && forall i: byte :: table[i] == Entry(p, i)
  }

  function Entry(p: Params, i: byte): (e: Bits)
    ensures |e| == p.Width()
  {
    p.Mirror(Steps(p.poly, Load(p, i), 8))
  }

  /** The table that CRC p needs. */
  function Table(p: Params): (table: seq<Bits>)
    ensures IsTable(p, table)
  {
    seq(256, i requires 0 <= i < 256 => Entry(p, i))
  }

  /** Tables are linear: the entry for two bytes added bit by bit is the sum of their entries, so
      eight entries determine all. */
  lemma EntryLinear(p: Params, i: byte, j: byte, k: byte)
    requires ByteBits(k) == Xor(ByteBits(i), ByteBits(j))
    ensures Entry(p, k) == Xor(Entry(p, i), Entry(p, j))
  {
    LoadLinear(p, i, j, k);
    StepsXor(p.poly, Load(p, i), Load(p, j), 8);
    ReverseXor(Steps(p.poly, Load(p, i), 8), Steps(p.poly, Load(p, j), 8));
  }

  lemma LoadLinear(p: Params, i: byte, j: byte, k: byte)
    requires ByteBits(k) == Xor(ByteBits(i), ByteBits(j))
    ensures Load(p, k) == Xor(Load(p, i), Load(p, j))
  {
    ReverseXor(ByteBits(i), ByteBits(j));
  }

  /** The six CRCs start from ones, as the table loop asks, and each has its table. */
  lemma SixTables(p: Params)
    requires p in {CRC8(), CRC8H2F(), CRC16(), CRC32(), CRC32P4(), CRC64()}
    ensures p.init == Ones(p.Width()) && IsTable(p, Table(p))
  {
  }

  /** One byte of the table loop, on the mirrored register that the loop holds. */
  function Lookup(p: Params, table: seq<Bits>, crc: Bits, b: byte): (r: Bits)
    requires |crc| == p.Width() && IsTable(p, table)
    ensures |r| == |crc|
  {
    var w := |crc|;
    if p.reflected then
      Xor(table[ByteOf(Xor(crc[w - 8..], ByteBits(b)))], Zeros(8) + crc[..w - 8])
    else
      Xor(table[ByteOf(Xor(crc[..8], ByteBits(b)))], crc[8..] + Zeros(8))
  }

  /** Eight shifts act on the top byte through the table and move the rest. */
  lemma StepsSplit(p: Params, x: Bits, i: byte)
    requires |x| == p.Width() && Load(p, i)[..8] == x[..8]
    ensures Steps(p.poly, x, 8) == Xor(Steps(p.poly, Load(p, i), 8), x[8..] + Zeros(8))
  {
    var rest := Zeros(8) + x[8..];
    assert Xor(Load(p, i), rest) == x;
    StepsXor(p.poly, Load(p, i), rest, 8);
    StepsQuiet(p.poly, rest, 8);
    assert rest[8..] == x[8..];
  }

  lemma TopByte(p: Params, r: Bits, b: byte, i: byte)
    requires |r| == p.Width()
    requires ByteBits(i) == Xor(p.Mirror(r[..8]), ByteBits(b))
    ensures Load(p, i)[..8] == Xor(r, Load(p, b))[..8]
  {
    ReverseXor(Reverse(r[..8]), ByteBits(b));
    ReverseInvolution(r[..8]);
  }

  /** The bytes that are not looked up. */
  lemma RestOf(p: Params, r: Bits, b: byte)
    requires |r| == p.Width()
    ensures Xor(r, Load(p, b))[8..] == r[8..]
  {
  }

  lemma LookupPlain(p: Params, table: seq<Bits>, r: Bits, b: byte)
    requires |r| == p.Width() && IsTable(p, table) && !p.reflected
    ensures Lookup(p, table, r, b) == Feed(p, r, b)
  {
    var i := ByteOf(Xor(r[..8], ByteBits(b)));
    TopByte(p, r, b, i);
    RestOf(p, r, b);
    StepsSplit(p, Xor(r, Load(p, b)), i);
  }

  /** Mirroring exchanges the top and the bottom of a word. */
  lemma ReverseParts(r: Bits)
    requires |r| >= 8
    ensures Reverse(r)[|r| - 8..] == Reverse(r[..8])
    ensures Reverse(r[8..] + Zeros(8)) == Zeros(8) + Reverse(r)[..|r| - 8]
  {
  }

  lemma LookupReflected(p: Params, table: seq<Bits>, r: Bits, b: byte)
    requires |r| == p.Width() && IsTable(p, table) && p.reflected
    ensures Lookup(p, table, Reverse(r), b) == Reverse(Feed(p, r, b))
  {
    ReverseParts(r);
    var i := ByteOf(Xor(Reverse(r[..8]), ByteBits(b)));
    TopByte(p, r, b, i);
    RestOf(p, r, b);
    StepsSplit(p, Xor(r, Load(p, b)), i);
    ReverseXor(Steps(p.poly, Load(p, i), 8), r[8..] + Zeros(8));
  }

  /** One lookup does to the mirrored register what eight shifts do to the register. */
  lemma LookupIsFeed(p: Params, table: seq<Bits>, r: Bits, b: byte)
    requires |r| == p.Width() && IsTable(p, table)
    ensures Lookup(p, table, p.Mirror(r), b) == p.Mirror(Feed(p, r, b))
  {
    if p.reflected {
      LookupReflected(p, table, r, b);
    } else {
      LookupPlain(p, table, r, b);
    }
  }

  /** The table loop. The register holds the mirror image of the bit-serial one; a first call starts
      from ones, which are their own mirror image. */
  method CalculateTable(p: Params, table: seq<Bits>, data: seq<byte>, start: Bits, first: bool) returns (crc: Bits)
    requires |start| == p.Width() && IsTable(p, table)
    requires p.init == Ones(p.Width())
    ensures crc == Calculate(p, data, start, first)
  {
    if first {
      crc := p.init;
    } else {
      crc := Xor(start, p.xorOut);
    }
    ghost var r0 := Start(p, start, first);
    assert Reverse(Ones(p.Width())) == Ones(p.Width());
    ReverseInvolution(Xor(start, p.xorOut));
    for i := 0 to |data|
      invariant |crc| == p.Width()
      invariant crc == p.Mirror(Run(p, r0, data[..i]))
    {
      assert data[..i + 1][..i] == data[..i];
      LookupIsFeed(p, table, Run(p, r0, data[..i]), data[i]);
      crc := Lookup(p, table, crc, data[i]);
    }
    assert data[..|data|] == data;
    crc := Xor(crc, p.xorOut);
  }
}
