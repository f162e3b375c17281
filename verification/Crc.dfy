/** The CRC routines: bit-serial (the reference) and table driven.

The six routines differ only in width, polynomial, start value, final exclusive or, and whether
bits enter and leave reflected; `Params` carries these. `Calculate` is the value a call returns. */
module Crc {
  import opened Bits

  /** `size` is the width in bytes. */
  datatype RawParams = RawParams(size: nat, poly: Bits, init: Bits, xorOut: Bits, reflected: bool)
  {
    function Width(): nat { 8 * size }

    /** Reflected CRCs present their register mirrored. */
    function Mirror(a: Bits): (m: Bits)
      ensures |m| == |a|
    {
      if reflected then Reverse(a) else a
    }

    /** Everything has the same width, and the polynomial has a constant term. */
    predicate Valid()
    {
      1 <= size && |poly| == |init| == |xorOut| == Width() && poly[Width() - 1]
    }
  }

  type Params = p: RawParams | p.Valid() witness RawParams(1, Ones(8), Ones(8), Ones(8), false)

  /** All CRCs start from ones; they differ in the rest. */
  function Standard(size: nat, poly: nat, xorOut: Bits, reflected: bool): (p: Params)
    requires 1 <= size && poly % 2 == 1 && |xorOut| == 8 * size
    ensures p.size == size
  {
    RawParams(size, BitsOf(poly, 8 * size), Ones(8 * size), xorOut, reflected)
  }

  // The standard parameters (SWS_Crc_00030, 00042, 00002, 00003, 00056, 00062).

  function CRC8(): (p: Params)
    ensures p.size == 1
  {
    Standard(1, 0x1D, Ones(8), false)
  }

  function CRC8H2F(): (p: Params)
    ensures p.size == 1
  {
    Standard(1, 0x2F, Ones(8), false)
  }

  function CRC16(): (p: Params)
    ensures p.size == 2
  {
    Standard(2, 0x1021, Zeros(16), false)
  }

  function CRC32(): (p: Params)
    ensures p.size == 4
  {
    Standard(4, 0x04C1_1DB7, Ones(32), true)
  }

  function CRC32P4(): (p: Params)
    ensures p.size == 4
  {
    Standard(4, 0xF4AC_FB13, Ones(32), true)
  }

  function CRC64(): (p: Params)
    ensures p.size == 8
  {
    Standard(8, 0x42F0_E1EB_A9EA_3693, Ones(64), true)
  }

  // ---- One shift ----

  function ShiftLeft(r: Bits): (s: Bits)
    requires r != []
    ensures |s| == |r|
  {
    r[1..] + [false]
  }

  /** Shift left once; add the polynomial if a one was shifted out. */
  function Step(poly: Bits, r: Bits): (s: Bits)
    requires |r| == |poly| > 0
    ensures |s| == |r|
  {
    if r[0] then Xor(ShiftLeft(r), poly) else ShiftLeft(r)
  }

  function Steps(poly: Bits, r: Bits, n: nat): (s: Bits)
    requires |r| == |poly| > 0
    ensures |s| == |r|
  {
    if n == 0 then r else Step(poly, Steps(poly, r, n - 1))
  }

  // ---- One byte, one message, one call ----

  /** A byte aligned with the top of the register. */
  function Load(p: Params, b: byte): (r: Bits)
    ensures |r| == p.Width()
  {
    p.Mirror(ByteBits(b)) + Zeros(p.Width() - 8)
  }

  function Feed(p: Params, r: Bits, b: byte): (s: Bits)
    requires |r| == p.Width()
    ensures |s| == |r|
  {
    Steps(p.poly, Xor(r, Load(p, b)), 8)
  }

  function Run(p: Params, r: Bits, data: seq<byte>): (s: Bits)
    requires |r| == p.Width()
    ensures |s| == |r|
  {
    if data == [] then r else Feed(p, Run(p, r, data[..|data| - 1]), data[|data| - 1])
  }

  /** The register a call starts from. */
  function Start(p: Params, start: Bits, first: bool): (r: Bits)
    requires |start| == p.Width()
    ensures |r| == p.Width()
  {
    if first then p.init else p.Mirror(Xor(start, p.xorOut))
  }

  /** The value that is returned for a register. */
  function Finish(p: Params, r: Bits): (crc: Bits)
    requires |r| == p.Width()
    ensures |crc| == p.Width()
  {
    Xor(p.Mirror(r), p.xorOut)
  }

  function Calculate(p: Params, data: seq<byte>, start: Bits, first: bool): (crc: Bits)
    requires |start| == p.Width()
    ensures |crc| == p.Width()
  {
    Finish(p, Run(p, Start(p, start, first), data))
  }

  // ---- Bit-serial routine (CRC_RUNTIME) ----

  /** Crc_GetReflection_char, _int and _longlong. */
  method GetReflection(input: Bits) returns (result: Bits)
    ensures result == Reverse(input)
  {
    var w := |input|;
    result := Zeros(w);
    for i := 0 to w
      invariant |result| == w
      invariant forall k :: 0 <= k < i ==> result[k] == input[w - 1 - k]
      invariant forall k :: i <= k < w ==> !result[k]
    {
      if input[w - 1 - i] {
        result := result[i := true];
      }
    }
  }

  method CalculateRuntime(p: Params, data: seq<byte>, start: Bits, first: bool) returns (crc: Bits)
    requires |start| == p.Width()
    ensures crc == Calculate(p, data, start, first)
  {
    if first {
      crc := p.init;
    } else {
      crc := Xor(start, p.xorOut);
      if p.reflected {
        crc := GetReflection(crc);
      }
    }
    ghost var r0 := crc;
    for i := 0 to |data|
      invariant |crc| == p.Width()
      invariant crc == Run(p, r0, data[..i])
    {
      assert data[..i + 1][..i] == data[..i];
      var b := ByteBits(data[i]);
      if p.reflected {
        b := GetReflection(b);
      }
      crc := Xor(crc, b + Zeros(p.Width() - 8));
      ghost var x := crc;
      for j := 0 to 8
        invariant |crc| == p.Width()
        invariant crc == Steps(p.poly, x, j)
      {
        if crc[0] {
          crc := ShiftLeft(crc);
          crc := Xor(crc, p.poly);
        } else {
          crc := ShiftLeft(crc);
        }
      }
    }
    assert data[..|data|] == data;
    if p.reflected {
      crc := GetReflection(crc);
    }
    crc := Xor(crc, p.xorOut);
  }
}
