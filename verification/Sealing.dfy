/** Messages sealed with a CRC that is stored inside them.

Every profile computes its CRC over the message with the CRC field cut out, together with bytes
that are not transmitted, and stores it in the field. */
module Sealing {
  import opened Bits
  import opened Crc
  import opened CrcTheory
  import opened Wire

  function Backwards(s: seq<byte>): (r: seq<byte>)
    ensures |r| == |s| && forall i :: 0 <= i < |s| ==> r[i] == s[|s| - 1 - i]
  {
    seq(|s|, i requires 0 <= i < |s| => s[|s| - 1 - i])
  }

  /** Where a CRC is stored and what it covers besides the rest of the message. The computation
      is a first call, or continues from an all-ones start value. */
  datatype Seal = Seal(
    p: Params, offset: nat, littleEndian: bool, prefix: seq<byte>, suffix: seq<byte>, first: bool)
  {
    ghost predicate Fits(d: seq<byte>)
    {
      offset + p.size <= |d|
    }

    function Covered(d: seq<byte>): (c: seq<byte>)
      requires Fits(d)
    {
      prefix + Cut(d, offset, p.size) + suffix
    }

    function Computed(d: seq<byte>): (crc: Bits)
      requires Fits(d)
      ensures |crc| == p.Width()
    {
      Calculate(p, Covered(d), Ones(p.Width()), first)
    }

    function Field(d: seq<byte>): (f: seq<byte>)
      requires Fits(d)
    {
      d[offset..offset + p.size]
    }

    function Encode(crc: Bits): (f: seq<byte>)
      requires |crc| == p.Width()
      ensures |f| == p.size
    {
      if littleEndian then Backwards(ToBytes(crc, p.size)) else ToBytes(crc, p.size)
    }

    function Decode(f: seq<byte>): (crc: Bits)
    {
      FromBytes(if littleEndian then Backwards(f) else f)
    }

    /** The received CRC equals the computed one. */
    predicate Intact(d: seq<byte>)
      requires Fits(d)
    {
      Decode(Field(d)) == Computed(d)
    }

    /** The message with its CRC filled in. */
    function Close(d: seq<byte>): (m: seq<byte>)
      requires Fits(d)
      ensures |m| == |d|
    {
      Paste(d, offset, Encode(Computed(d)))
    }
  }

  lemma DecodeEncode(s: Seal, crc: Bits)
    requires |crc| == s.p.Width()
    ensures s.Decode(s.Encode(crc)) == crc
  {
    FromToBytes(crc, s.p.size);
    assert Backwards(Backwards(ToBytes(crc, s.p.size))) == ToBytes(crc, s.p.size);
  }

  lemma DecodeInjective(s: Seal, f: seq<byte>, g: seq<byte>)
    requires |f| == |g| && s.Decode(f) == s.Decode(g)
    ensures f == g
  {
    if s.littleEndian {
      ToFromBytes(Backwards(f));
      ToFromBytes(Backwards(g));
      assert Backwards(Backwards(f)) == f && Backwards(Backwards(g)) == g;
    } else {
      ToFromBytes(f);
      ToFromBytes(g);
    }
  }

  lemma CloseIntact(s: Seal, d: seq<byte>)
    requires s.Fits(d)
    ensures s.Intact(s.Close(d))
  {
    DecodeEncode(s, s.Computed(d));
    PasteKeeps(d, s.offset, s.Encode(s.Computed(d)));
    SameCrc(s, d, s.Close(d));
  }

  lemma IntactMeans(s: Seal, d: seq<byte>, z: nat)
    requires s.Fits(d) && s.prefix == [] && z == s.offset + s.p.size
    ensures s.Intact(d) <==>
      s.Decode(d[s.offset..z])
      == Calculate(s.p, Cut(d, s.offset, s.p.size) + s.suffix, Ones(s.p.Width()), s.first)
  {
    assert [] + Cut(d, s.offset, s.p.size) == Cut(d, s.offset, s.p.size);
  }

  lemma CutAndField(d: seq<byte>, d': seq<byte>, off: nat, n: nat)
    requires |d| == |d'| && off + n <= |d|
    requires Cut(d, off, n) == Cut(d', off, n) && d[off..off + n] == d'[off..off + n]
    ensures d == d'
  {
    var c, c' := Cut(d, off, n), Cut(d', off, n);
    assert d == c[..off] + d[off..off + n] + c[off..];
    assert d' == c'[..off] + d'[off..off + n] + c'[off..];
  }

  lemma SameCrc(s: Seal, d: seq<byte>, d': seq<byte>)
    requires s.Fits(d) && |d| == |d'|
    requires Cut(d, s.offset, s.p.size) == Cut(d', s.offset, s.p.size)
    ensures s.Computed(d) == s.Computed(d')
  {
  }

  lemma SameField(s: Seal, d: seq<byte>, d': seq<byte>)
    requires s.Fits(d) && |d| == |d'|
    requires Cut(d, s.offset, s.p.size) == Cut(d', s.offset, s.p.size)
    requires s.Decode(s.Field(d)) == s.Decode(s.Field(d'))
    ensures d == d'
  {
    DecodeInjective(s, s.Field(d), s.Field(d'));
    CutAndField(d, d', s.offset, s.p.size);
  }

  /** Two intact messages that agree outside the CRC field are the same. */
  lemma FieldDetermined(s: Seal, d: seq<byte>, d': seq<byte>)
    requires s.Fits(d) && |d| == |d'| && s.Intact(d) && s.Intact(d')
    requires Cut(d, s.offset, s.p.size) == Cut(d', s.offset, s.p.size)
    ensures d == d'
  {
    SameCrc(s, d, d');
    SameField(s, d, d');
  }

  lemma BurstInside(p: Params, pre: seq<byte>, c: seq<byte>, c': seq<byte>, suf: seq<byte>, i: nat, j: nat)
    requires Burst(p, c, c', i, j)
    ensures Burst(p, pre + c + suf, pre + c' + suf, |pre| + i, |pre| + j)
  {
    var k, x, x' := |pre|, pre + c + suf, pre + c' + suf;
    assert x[..k + i] == pre + c[..i] && x'[..k + i] == pre + c'[..i];
    assert x[k + j..] == c[j..] + suf && x'[k + j..] == c'[j..] + suf;
    assert x[k..k + |c|] == c && x'[k..k + |c|] == c';
  }

  lemma BurstChangesComputed(s: Seal, d: seq<byte>, d': seq<byte>, i: nat, j: nat)
    requires s.Fits(d) && |d| == |d'|
    requires Burst(s.p, Cut(d, s.offset, s.p.size), Cut(d', s.offset, s.p.size), i, j)
    ensures s.Computed(d) != s.Computed(d')
  {
    BurstInside(s.p, s.prefix, Cut(d, s.offset, s.p.size), Cut(d', s.offset, s.p.size), s.suffix, i, j);
    BurstChangesCrc(s.p, s.Covered(d), s.Covered(d'), |s.prefix| + i, |s.prefix| + j, Ones(s.p.Width()), s.first);
  }

  /** A burst in the covered bytes, up to the size of the CRC, is detected: the bytes
      i..j are counted in the message without its CRC field. */
  lemma CoveredBurstDetected(s: Seal, d: seq<byte>, d': seq<byte>, i: nat, j: nat)
    requires s.Fits(d) && |d| == |d'| && s.Intact(d) && s.Field(d) == s.Field(d')
    requires Burst(s.p, Cut(d, s.offset, s.p.size), Cut(d', s.offset, s.p.size), i, j)
    ensures !s.Intact(d')
  {
    BurstChangesComputed(s, d, d', i, j);
  }

  /** The same kind of seal, with other untransmitted bytes. */
  predicate Alike(s: Seal, s': Seal)
  {
    s'.p == s.p && s'.offset == s.offset && s'.littleEndian == s.littleEndian && s'.first == s.first
  }

  /** Another message with the same CRC field is intact for another seal if and only if what it
      covers leaves the same register. */
  lemma OtherSealExact(s: Seal, s': Seal, d: seq<byte>, d': seq<byte>)
    requires Alike(s, s') && s.Fits(d) && |d| == |d'| && s.Intact(d) && s.Field(d) == s.Field(d')
    ensures var r := Start(s.p, Ones(s.p.Width()), s.first);
            s'.Intact(d') <==> Run(s.p, r, s.Covered(d)) == Run(s.p, r, s'.Covered(d'))
  {
    var r, f := Start(s.p, Ones(s.p.Width()), s.first), s.Field(d);
    assert s'.Field(d') == f;
    assert s'.Decode(f) == s.Decode(f) == s.Computed(d);
    SameCrcSameRun(s.p, r, s.Covered(d), s'.Covered(d'));
  }

  lemma SameCrcSameRun(p: Params, r: Bits, c: seq<byte>, c': seq<byte>)
    requires |r| == p.Width()
    ensures Finish(p, Run(p, r, c)) == Finish(p, Run(p, r, c')) <==> Run(p, r, c) == Run(p, r, c')
  {
    if Finish(p, Run(p, r, c)) == Finish(p, Run(p, r, c')) {
      FinishInjective(p, Run(p, r, c), Run(p, r, c'));
    }
  }

  /** A message is intact for other untransmitted bytes before it if and only if they have the same
      CRC. */
  lemma OtherPrefixExact(s: Seal, prefix: seq<byte>, d: seq<byte>)
    requires s.Fits(d) && s.Intact(d)
    ensures s.(prefix := prefix).Intact(d) <==>
      Calculate(s.p, s.prefix, Ones(s.p.Width()), s.first) == Calculate(s.p, prefix, Ones(s.p.Width()), s.first)
  {
    var s' := s.(prefix := prefix);
    var r, rest := Start(s.p, Ones(s.p.Width()), s.first), Cut(d, s.offset, s.p.size) + s.suffix;
    OtherSealExact(s, s', d, d);
    SameCrcSameRun(s.p, r, s.prefix, prefix);
    SameTail(s.p, r, s.prefix, prefix, rest);
    CoveredTail(s, d);
    CoveredTail(s', d);
  }

  lemma CoveredTail(s: Seal, d: seq<byte>)
    requires s.Fits(d)
    ensures s.Covered(d) == s.prefix + (Cut(d, s.offset, s.p.size) + s.suffix)
  {
  }

  lemma SameTail(p: Params, r: Bits, x: seq<byte>, y: seq<byte>, z: seq<byte>)
    requires |r| == p.Width()
    ensures Run(p, r, x + z) == Run(p, r, y + z) <==> Run(p, r, x) == Run(p, r, y)
  {
    RunConcat(p, r, x, z);
    RunConcat(p, r, y, z);
    if Run(p, r, x + z) == Run(p, r, y + z) {
      RunInjective(p, Run(p, r, x), Run(p, r, y), z);
    }
  }

  /** Seals that cover different bytes of the same message do not both find it intact. */
  lemma OtherSealDetected(s: Seal, s': Seal, d: seq<byte>, i: nat, j: nat)
    requires Alike(s, s')
    requires s.Fits(d) && s.Intact(d) && Burst(s.p, s.Covered(d), s'.Covered(d), i, j)
    ensures !s'.Intact(d)
  {
    OtherSealExact(s, s', d, d);
    BurstDetected(s.p, Start(s.p, Ones(s.p.Width()), s.first), s.Covered(d), s'.Covered(d), i, j);
  }

  /** A message sealed with some untransmitted bytes is not intact for others. */
  lemma OtherSuffixDetected(s: Seal, suffix: seq<byte>, d: seq<byte>)
    requires s.Fits(d) && s.Intact(d)
    requires |suffix| == |s.suffix| <= s.p.size && suffix != s.suffix
    ensures !s.(suffix := suffix).Intact(d)
  {
    var c := s.prefix + Cut(d, s.offset, s.p.size);
    BurstAtEnd(s.p, c, s.suffix, suffix);
    OtherSealDetected(s, s.(suffix := suffix), d, |c|, |c| + |suffix|);
  }

  lemma BurstAtEnd(p: Params, c: seq<byte>, x: seq<byte>, y: seq<byte>)
    requires |x| == |y| <= p.size && x != y
    ensures Burst(p, c + x, c + y, |c|, |c| + |x|)
  {
    assert (c + x)[|c|..] == x && (c + y)[|c|..] == y;
  }

  lemma ByteChangeInCut(p: Params, d: seq<byte>, k: nat, b: byte, off: nat, n: nat)
    requires k < |d| && b != d[k] && off + n <= |d| && !(off <= k < off + n)
    ensures var m := if k < off then k else k - n;
            Burst(p, Cut(d, off, n), Cut(d[k := b], off, n), m, m + 1)
    ensures d[off..off + n] == d[k := b][off..off + n]
  {
    var m := if k < off then k else k - n;
    assert Cut(d, off, n)[m] == d[k];
    assert Cut(d[k := b], off, n) == Cut(d, off, n)[m := b];
  }

  /** Changing one byte of an intact message, wherever it is, breaks it. */
  lemma ByteChangeDetected(s: Seal, d: seq<byte>, k: nat, b: byte)
    requires s.Fits(d) && s.Intact(d) && k < |d| && b != d[k]
    ensures !s.Intact(d[k := b])
  {
    var d' := d[k := b];
    if s.offset <= k < s.offset + s.p.size {
      assert Cut(d, s.offset, s.p.size) == Cut(d', s.offset, s.p.size);
      if s.Intact(d') {
        FieldDetermined(s, d, d');
      }
    } else {
      var m := if k < s.offset then k else k - s.p.size;
      ByteChangeInCut(s.p, d, k, b, s.offset, s.p.size);
      CoveredBurstDetected(s, d, d', m, m + 1);
    }
  }

  lemma CoveredFrom(s: Seal, f: seq<byte>, i: byte, before: seq<byte>, x: byte, after: seq<byte>)
    requires s.Fits(f) && s.p.size == 1 && s.prefix == [i] && s.suffix == []
    requires Cut(f, s.offset, 1) == before + [x] + after
    ensures s.Covered(f) == [] + [i] + before + [x] + after
  {
  }

  lemma ChangedCut(f: seq<byte>, off: nat, k: nat, b: byte) returns (before: seq<byte>, after: seq<byte>)
    requires off < |f| && k < |f| && k != off
    ensures |before| == if k <= off then k else k - 1
    ensures Cut(f, off, 1) == before + [f[k]] + after && Cut(f[k := b], off, 1) == before + [b] + after
  {
    var c, pos := Cut(f, off, 1), if k <= off then k else k - 1;
    before, after := c[..pos], c[pos + 1..];
    assert c[pos] == f[k];
    assert Cut(f[k := b], off, 1) == c[pos := b];
  }

  lemma RunsOfChanged(s: Seal, s': Seal, i: byte, i': byte, f: seq<byte>, k: nat, b: byte, r: Bits, shifts: nat)
    requires Alike(s, s') && s.Fits(f) && s.p.size == 1 && |r| == s.p.Width()
    requires s.prefix == [i] && s'.prefix == [i'] && s.suffix == s'.suffix == []
    requires k < |f| && k != s.offset && shifts == 8 * (1 + if k <= s.offset then k else k - 1)
    ensures Run(s.p, r, s.Covered(f)) == Run(s.p, r, s'.Covered(f[k := b]))
       <==> Steps(s.p.poly, Xor(Load(s.p, i), Load(s.p, i')), shifts) == Xor(Load(s.p, f[k]), Load(s.p, b))
  {
    var before, after := ChangedCut(f, s.offset, k, b);
    CoveredFrom(s, f, i, before, f[k], after);
    CoveredFrom(s', f[k := b], i', before, b, after);
    TwoDifferences(s.p, r, [], i, i', before, f[k], b, after, shifts);
  }

  /** Seals that cover another byte first, on messages that differ in byte k. */
  lemma FirstByteExact(s: Seal, s': Seal, i: byte, i': byte, f: seq<byte>, k: nat, b: byte, shifts: nat)
    requires Alike(s, s') && s.Fits(f) && s.p.size == 1 && s.Intact(f)
    requires s.prefix == [i] && s'.prefix == [i'] && s.suffix == s'.suffix == []
    requires k < |f| && k != s.offset && shifts == 8 * (1 + if k <= s.offset then k else k - 1)
    ensures s'.Intact(f[k := b])
       <==> Steps(s.p.poly, Xor(Load(s.p, i), Load(s.p, i')), shifts) == Xor(Load(s.p, f[k]), Load(s.p, b))
  {
    assert s.Field(f) == s.Field(f[k := b]);
    OtherSealExact(s, s', f, f[k := b]);
    RunsOfChanged(s, s', i, i', f, k, b, Start(s.p, Ones(s.p.Width()), s.first), shifts);
  }

  lemma ChainAround(p: Params, d: seq<byte>, off: nat, n: nat)
    requires off + n <= |d|
    ensures var o := Ones(p.Width());
            && Calculate(p, d[off + n..], Calculate(p, d[..off], o, true), false)
               == Calculate(p, Cut(d, off, n), o, true)
            && (off == 0 ==> Calculate(p, d[off + n..], o, true) == Calculate(p, Cut(d, off, n), o, true))
  {
    Chain(p, d[..off], d[off + n..], Ones(p.Width()), true);
    if off == 0 {
      assert Cut(d, off, n) == d[off + n..];
    }
  }

  /** The CRC of a message without the n bytes at its header, as profiles 5, 6, 7, 8 and 22
      compute it: in one call or in two, depending on the header's offset in bits. */
  method CalculateAround(p: Params, d: seq<byte>, offset: nat, n: nat) returns (crc: Bits)
    requires offset / 8 + n <= |d|
    ensures crc == Calculate(p, Cut(d, offset / 8, n), Ones(p.Width()), true)
  {
    var off := offset / 8;
    ChainAround(p, d, off, n);
    if offset > 0 {
      crc := CalculateRuntime(p, d[..off], Ones(p.Width()), true);
      crc := CalculateRuntime(p, d[off + n..], crc, false);
    } else {
      crc := CalculateRuntime(p, d[off + n..], Ones(p.Width()), true);
    }
  }

  /** One more byte. */
  method CalculateOneMore(p: Params, ghost c: seq<byte>, crc: Bits, b: byte) returns (crc': Bits)
    requires crc == Calculate(p, c, Ones(p.Width()), true)
    ensures crc' == Calculate(p, c + [b], Ones(p.Width()), true)
  {
    Chain(p, c, [b], Ones(p.Width()), true);
    crc' := CalculateRuntime(p, [b], crc, false);
  }

  /** The CRC of a message and of the bytes that are not transmitted. */
  method ComputeSeal(s: Seal, d: seq<byte>, offset: nat) returns (crc: Bits)
    requires s.Fits(d) && s.offset == offset / 8 && s.prefix == [] && s.first
    ensures crc == s.Computed(d)
  {
    crc := CalculateAround(s.p, d, offset, s.p.size);
    ghost var c := Cut(d, s.offset, s.p.size);
    assert c + s.suffix[..0] == c;
    for i := 0 to |s.suffix|
      invariant crc == Calculate(s.p, c + s.suffix[..i], Ones(s.p.Width()), true)
    {
      assert c + s.suffix[..i + 1] == (c + s.suffix[..i]) + [s.suffix[i]];
      crc := CalculateOneMore(s.p, c + s.suffix[..i], crc, s.suffix[i]);
    }
    assert s.Covered(d) == c + s.suffix[..|s.suffix|];
  }
}
