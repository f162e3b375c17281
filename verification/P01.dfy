/** E2E profile 1: an 8-bit CRC, a counter in half a byte, and a data ID that enters the CRC in one
of four ways. */
module P01 {
  import opened Bits
  import opened Crc
  import opened CrcTheory
  import opened Wire
  import opened Sealing
  import opened Receiver
  import opened Tolerance

  datatype Mode = Both | Alt | Low | Nibble | NotUsed

  /** Half a byte of a message. */
  datatype Spot = Spot(index: nat, high: bool)

  /** A bit offset denotes the low half of its byte if it is a multiple of 8, else the high half. */
  function SpotAt(offset: uint16): Spot
  {
    Spot(offset / 8, offset % 8 != 0)
  }

  function Get(d: seq<byte>, s: Spot): (n: nat)
    requires s.index < |d|
    ensures n < 16
  {
    if s.high then d[s.index] / 16 else d[s.index] % 16
  }

  function Put(d: seq<byte>, s: Spot, n: nat): (e: seq<byte>)
    requires s.index < |d| && n < 16
    ensures |e| == |d|
  {
    d[s.index := if s.high then n * 16 + d[s.index] % 16 else d[s.index] / 16 * 16 + n]
  }

  lemma PutGet(d: seq<byte>, s: Spot, n: nat, t: Spot)
    requires s.index < |d| && t.index < |d| && n < 16
    ensures Get(Put(d, s, n), t) == if s == t then n else Get(d, t)
  {
  }

  /** b ^ 0xFF */
  function Inverted(b: byte): byte
  {
    ByteOf(Xor(ByteBits(b), Ones(8)))
  }

  lemma InvertedTwice(b: byte)
    ensures Inverted(Inverted(b)) == b
  {
    XorTwice(ByteBits(b), Ones(8));
    ByteBitsInjective(Inverted(Inverted(b)), b);
  }

  datatype Config = Config(
    counterOffset: uint16, crcOffset: uint16, dataID: uint16, dataIDNibbleOffset: uint16, dataIDMode: Mode,
    dataLength: uint16, maxDeltaCounterInit: uint8, maxNoNewOrRepeatedData: uint8, syncCounterInit: uint8)
  {
    function Counter(): Spot { SpotAt(counterOffset) }

    /** Where the check reads the nibble of the data ID, and where protecting writes it, which
        computes the index on eight bits. In messages of up to 256 bytes, and so in all of the
        240 bits that DataLength may be (E2E_P01.h:97), they are the same. */
    function IdNibble(): Spot { SpotAt(dataIDNibbleOffset) }

    function IdWritten(): Spot { Spot(dataIDNibbleOffset / 8 % 256, dataIDNibbleOffset % 8 != 0) }

    /** The byte of the counter in the data without its CRC. */
    function Position(): nat
    {
      if Counter().index <= crcOffset / 8 then Counter().index else Counter().index - 1
    }

    /** What callers owe: the configured fields lie inside the data and do not overlap. */
    predicate Fits(length: nat)
    {
      && length == dataLength / 8
      && crcOffset / 8 < length && Counter().index < length && Counter().index != crcOffset / 8
      && (dataIDMode == Nibble ==>
            IdNibble().index < length && IdNibble().index != crcOffset / 8 && IdNibble() != Counter())
    }

    function Rules(): Rules
    {
      Tolerance.Rules(14, maxDeltaCounterInit, maxNoNewOrRepeatedData, syncCounterInit, true)
    }

    function LowByte(): byte { dataID % 256 }

    function HighByte(): byte { dataID / 256 }

    /** The bytes of the data ID that enter the CRC. */
    function IdBytes(counter: uint8): seq<byte>
    {
      match dataIDMode
      case Both => [LowByte(), HighByte()]
      case Alt => [if counter % 2 == 0 then LowByte() else HighByte()]
      case Low => [LowByte()]
      case Nibble => [LowByte(), 0]
      case NotUsed => []
    }

    /** A CRC offset of 1 to 7 drops the data ID. */
    predicate DropsId()
    {
      0 < crcOffset < 8
    }

    /** What the check of a protected message reads where the counter should be, and where the nibble
        of the data ID should be. */
    function SentCounter(counter: uint8): nat
    {
      if dataIDMode == Nibble && IdWritten() == Counter() then HighByte() % 16 else counter
    }

    function SentNibble(d: seq<byte>): nat
      requires Fits(|d|) && dataIDMode == Nibble
    {
      if IdNibble() == IdWritten() then HighByte() % 16 else Get(d, IdNibble())
    }

    /** The CRC starts from a register of zeros. */
    function Seal(counter: uint8): Seal
    {
      Sealing.Seal(CRC8(), crcOffset / 8, false, if DropsId() then [] else IdBytes(counter), [], false)
    }

    /** The CRC is stored without its final inversion. */
    function Flip(d: seq<byte>): (e: seq<byte>)
      requires Fits(|d|)
      ensures |e| == |d|
    {
      d[crcOffset / 8 := Inverted(d[crcOffset / 8])]
    }

    function WithNibbles(counter: uint8, d: seq<byte>): (e: seq<byte>)
      requires Fits(|d|) && counter < 16
      ensures |e| == |d|
    {
      var e := Put(d, Counter(), counter);
      if dataIDMode == Nibble then Put(e, IdWritten(), HighByte() % 16) else e
    }

    function Protected(counter: uint8, d: seq<byte>): (m: seq<byte>)
      requires Fits(|d|) && counter < 16
      ensures |m| == |d|
    {
      Flip(Seal(counter).Close(WithNibbles(counter, d)))
    }

    /** What a check finds. */
    function Judge(newDataAvailable: bool, d: seq<byte>): (e: Event)
      requires Fits(|d|)
      ensures Possible(Rules(), e)
    {
      var counter := Get(d, Counter());
      if !newDataAvailable then Silence
      else if counter >= 15 then BadCounter
      else if Seal(counter).Intact(Flip(d)) && (dataIDMode == Nibble ==> Get(d, IdNibble()) == HighByte() % 16) then
        Heard(counter)
      else BadCrc
    }
  }

  // ---- Round trip ----

  lemma FlipTwice(cfg: Config, d: seq<byte>)
    requires cfg.Fits(|d|)
    ensures cfg.Flip(cfg.Flip(d)) == d
  {
    InvertedTwice(d[cfg.crcOffset / 8]);
  }

  lemma OneByte(w: Bits)
    requires |w| == 8
    ensures ToBytes(w, 1) == [ByteOf(w)]
  {
    assert w[..8] == w;
  }

  lemma CloseOneByte(s: Seal, e: seq<byte>)
    requires s.Fits(e) && s.p.size == 1 && !s.littleEndian
    ensures s.Close(e) == e[s.offset := ByteOf(s.Computed(e))]
  {
    OneByte(s.Computed(e));
  }

  /** Storing the inverted CRC is flipping the closed message. */
  lemma StoredCrc(cfg: Config, counter: uint8, e: seq<byte>)
    requires cfg.Fits(|e|)
    ensures cfg.Flip(cfg.Seal(counter).Close(e))
         == e[cfg.crcOffset / 8 := ByteOf(Xor(cfg.Seal(counter).Computed(e), Ones(8)))]
  {
    CloseOneByte(cfg.Seal(counter), e);
  }

  lemma NibblesGet(cfg: Config, counter: uint8, d: seq<byte>, t: Spot)
    requires cfg.Fits(|d|) && counter < 16 && t.index < |d|
    ensures Get(cfg.WithNibbles(counter, d), t) ==
      if cfg.dataIDMode == Nibble && t == cfg.IdWritten() then cfg.HighByte() % 16
      else if t == cfg.Counter() then counter as nat
      else Get(d, t)
  {
    PutGet(d, cfg.Counter(), counter, t);
    if cfg.dataIDMode == Nibble {
      PutGet(Put(d, cfg.Counter(), counter), cfg.IdWritten(), cfg.HighByte() % 16, t);
    }
  }

  /** Protecting changes only the counter, the nibble of the data ID in nibble mode, and the CRC. */
  lemma OnlyFields(cfg: Config, counter: uint8, d: seq<byte>, t: Spot)
    requires cfg.Fits(|d|) && counter < 16 && t.index < |d| && t.index != cfg.crcOffset / 8
    ensures Get(cfg.Protected(counter, d), t) ==
      if cfg.dataIDMode == Nibble && t == cfg.IdWritten() then cfg.HighByte() % 16
      else if t == cfg.Counter() then counter as nat
      else Get(d, t)
  {
    StoredCrc(cfg, counter, cfg.WithNibbles(counter, d));
    NibblesGet(cfg, counter, d, t);
  }

  lemma ProtectedIntact(cfg: Config, counter: uint8, d: seq<byte>)
    requires cfg.Fits(|d|) && counter < 16
    ensures cfg.Seal(counter).Intact(cfg.Flip(cfg.Protected(counter, d)))
  {
    CloseIntact(cfg.Seal(counter), cfg.WithNibbles(counter, d));
    FlipTwice(cfg, cfg.Seal(counter).Close(cfg.WithNibbles(counter, d)));
  }

  /** The bytes in front of the data that the CRC covers. */
  function CoveredId(cfg: Config, counter: uint8): seq<byte>
  {
    var low, high := cfg.dataID % 256, cfg.dataID / 256;
    if 0 < cfg.crcOffset < 8 then []
    else if cfg.dataIDMode == Both then [low, high]
    else if cfg.dataIDMode == Alt then if counter % 2 == 0 then [low] else [high]
    else if cfg.dataIDMode == Low then [low]
    else if cfg.dataIDMode == Nibble then [low, 0]
    else []
  }

  lemma CoveredIdMeans(cfg: Config, counter: uint8)
    ensures cfg.Seal(counter).prefix == CoveredId(cfg, counter)
  {
  }

  lemma ComputedMeans(s: Seal, id: seq<byte>, m: seq<byte>)
    requires s.Fits(m) && s.p == CRC8() && s.prefix == id && s.suffix == [] && !s.first
    ensures s.Computed(m) == Calculate(CRC8(), id + m[..s.offset] + m[s.offset + 1..], Ones(8), false)
  {
    CoveredAround(s, m);
  }

  /** The CRC of a protected message: it continues from a register of zeros over these bytes and the
      rest of the data, and is stored without its final inversion. */
  lemma Format(cfg: Config, counter: uint8, d: seq<byte>)
    requires cfg.Fits(|d|) && counter < 16
    ensures var m, at := cfg.Protected(counter, d), cfg.crcOffset / 8;
            ByteBits(m[at])
            == Xor(Calculate(CRC8(), CoveredId(cfg, counter) + m[..at] + m[at + 1..], Ones(8), false), Ones(8))
  {
    ProtectedIntact(cfg, counter, d);
    CoveredIdMeans(cfg, counter);
    StoredSeal(cfg, counter, cfg.Protected(counter, d), CoveredId(cfg, counter));
  }

  lemma StoredSeal(cfg: Config, counter: uint8, m: seq<byte>, id: seq<byte>)
    requires cfg.Fits(|m|) && cfg.Seal(counter).Intact(cfg.Flip(m)) && cfg.Seal(counter).prefix == id
    ensures var at := cfg.crcOffset / 8;
            ByteBits(m[at]) == Xor(Calculate(CRC8(), id + m[..at] + m[at + 1..], Ones(8), false), Ones(8))
  {
    ReceivedCrc(cfg, counter, m);
    ComputedMeans(cfg.Seal(counter), id, m);
  }

  /** Half a byte at a bit offset: the low half at a multiple of 8. */
  function HalfByte(d: seq<byte>, offset: uint16): nat
    requires offset / 8 < |d|
  {
    if offset % 8 == 0 then d[offset / 8] % 16 else d[offset / 8] / 16
  }

  lemma HalfByteMeans(d: seq<byte>, offset: uint16)
    requires offset / 8 < |d|
    ensures HalfByte(d, offset) == Get(d, SpotAt(offset))
  {
  }

  lemma SentAsGiven(cfg: Config, counter: uint8, d: seq<byte>)
    requires cfg.Fits(|d|) && cfg.dataIDNibbleOffset / 8 < 256
    ensures cfg.SentCounter(counter) == counter
    ensures cfg.dataIDMode == Nibble ==> cfg.SentNibble(d) == cfg.dataID / 256 % 16
  {
    SameNibble(cfg);
  }

  /** The halves of bytes that a protected message carries, in layouts whose offsets fit in eight bits. */
  lemma FormatNibbles(cfg: Config, counter: uint8, d: seq<byte>)
    requires cfg.Fits(|d|) && counter < 15 && cfg.dataIDNibbleOffset / 8 < 256
    ensures var m := cfg.Protected(counter, d);
            && HalfByte(m, cfg.counterOffset) == counter
            && (cfg.dataIDMode == Nibble ==> HalfByte(m, cfg.dataIDNibbleOffset) == cfg.dataID / 256 % 16)
  {
    var m := cfg.Protected(counter, d);
    Received(cfg, counter, d);
    SentAsGiven(cfg, counter, d);
    HalfByteMeans(m, cfg.counterOffset);
    if cfg.dataIDMode == Nibble {
      HalfByteMeans(m, cfg.dataIDNibbleOffset);
    }
  }

  /** What a check finds in a message, in terms of its bytes. */
  lemma Accepted(cfg: Config, d: seq<byte>)
    requires cfg.Fits(|d|)
    ensures var c, at := HalfByte(d, cfg.counterOffset), cfg.crcOffset / 8;
            cfg.Judge(true, d) ==
              if c >= 15 then BadCounter
              else if && ByteBits(d[at])
                         == Xor(Calculate(CRC8(), CoveredId(cfg, c) + d[..at] + d[at + 1..], Ones(8), false), Ones(8))
                      && (cfg.dataIDMode == Nibble ==>
                            HalfByte(d, cfg.dataIDNibbleOffset) == cfg.dataID / 256 % 16)
              then Heard(c) else BadCrc
  {
    var c := HalfByte(d, cfg.counterOffset);
    if c < 15 {
      JudgeMeans(cfg, c, d);
      CoveredIdMeans(cfg, c);
      ReceivedCrc(cfg, c, d);
      ComputedMeans(cfg.Seal(c), CoveredId(cfg, c), d);
    }
  }

  /** In all four modes the check recovers the counter of a protected message, unless in nibble mode
      the nibble was written elsewhere than it is read, which takes an index of more than eight bits. */
  lemma RoundTrip(cfg: Config, counter: uint8, d: seq<byte>)
    requires cfg.Fits(|d|) && counter < 15
    ensures cfg.Judge(true, cfg.Protected(counter, d)) ==
      if cfg.SentCounter(counter) >= 15 then BadCounter
      else if cfg.dataIDMode == Nibble && cfg.SentNibble(d) != cfg.HighByte() % 16 then BadCrc
      else Heard(cfg.SentCounter(counter))
    ensures cfg.dataIDMode != Nibble || cfg.IdNibble().index < 256 ==>
      cfg.Judge(true, cfg.Protected(counter, d)) == Heard(counter)
  {
    MasqueradeExact(cfg, cfg.dataID, counter, d);
    SameNibble(cfg);
  }

  lemma SameNibble(cfg: Config)
    ensures cfg.IdNibble().index < 256 ==> cfg.IdNibble() == cfg.IdWritten()
  {
  }

  lemma JudgeMeans(cfg: Config, counter: uint8, m: seq<byte>)
    requires cfg.Fits(|m|) && Get(m, cfg.Counter()) == counter < 15
    ensures cfg.Judge(true, m) ==
      if && cfg.Seal(counter).Intact(cfg.Flip(m))
         && (cfg.dataIDMode == Nibble ==> Get(m, cfg.IdNibble()) == cfg.HighByte() % 16)
      then Heard(counter) else BadCrc
  {
  }

  // ---- Over a lossy channel ----

  function Events(cfg: Config, inputs: seq<Supply>): (es: seq<Event>)
    requires forall k :: 0 <= k < |inputs| ==> cfg.Fits(|inputs[k].data|)
    ensures |es| == |inputs|
    ensures forall k :: 0 <= k < |es| ==> Possible(cfg.Rules(), es[k])
  {
    seq(|inputs|, k requires 0 <= k < |inputs| => cfg.Judge(inputs[k].newDataAvailable, inputs[k].data))
  }

  /** A payload whose protected form the check accepts with its counter. */
  predicate Sendable(cfg: Config, d: seq<byte>)
  {
    && cfg.Fits(|d|)
    && (cfg.dataIDMode == Nibble ==> cfg.IdWritten() != cfg.Counter() && cfg.SentNibble(d) == cfg.HighByte() % 16)
  }

  /** In each cycle the stated message of a sender that started at counter 0 arrives, or nothing
      with a correct CRC. */
  ghost predicate Transmits(cfg: Config, payloads: seq<seq<byte>>, run: seq<Cycle>, inputs: seq<Supply>)
    requires forall k :: 0 <= k < |inputs| ==> cfg.Fits(|inputs[k].data|)
  {
    && |run| == |inputs|
    && (forall i :: 0 <= i < |payloads| ==> Sendable(cfg, payloads[i]))
    && (forall k :: 0 <= k < |run| ==>
          match run[k]
          case Delivered(i) => i < |payloads| && inputs[k] == Supply(true, cfg.Protected(i % 15, payloads[i]))
          case Nothing => !Events(cfg, inputs)[k].Heard?)
  }

  lemma TransmitsConveys(cfg: Config, payloads: seq<seq<byte>>, run: seq<Cycle>, inputs: seq<Supply>)
    requires forall k :: 0 <= k < |inputs| ==> cfg.Fits(|inputs[k].data|)
    requires Transmits(cfg, payloads, run, inputs)
    ensures Conveys(cfg.Rules(), run, Events(cfg, inputs))
  {
    forall k | 0 <= k < |run| && run[k].Delivered?
      ensures Events(cfg, inputs)[k] == Heard(run[k].index % 15)
    {
      RoundTrip(cfg, run[k].index % 15, payloads[run[k].index]);
    }
  }

  /** With SyncCounterInit > 0 or MaxDeltaCounterInit >= 13, every message delivered in a run from
      initialisation is reported as its distance deserves, with exactly the lost messages counted. */
  lemma Channel(cfg: Config, payloads: seq<seq<byte>>, run: seq<Cycle>, inputs: seq<Supply>)
    requires cfg.maxDeltaCounterInit <= 14 && (cfg.syncCounterInit > 0 || cfg.maxDeltaCounterInit >= 13)
    requires forall k :: 0 <= k < |inputs| ==> cfg.Fits(|inputs[k].data|)
    requires Transmits(cfg, payloads, run, inputs) && Ordered(cfg.Rules(), run)
    requires run != [] && run[|run| - 1].Delivered?
    ensures Arrival(cfg.Rules(), run, Events(cfg, inputs)) && Deservedly(cfg.Rules(), run, Events(cfg, inputs))
  {
    TransmitsConveys(cfg, payloads, run, inputs);
    ChannelReport(cfg.Rules(), run, Events(cfg, inputs));
  }

  /** What a check reports about a counter of its sequence, d after the last one. */
  lemma SequenceExact(cfg: Config, t: Track, c: uint8)
    requires t.lastValidCounter <= 14 && t.maxDeltaCounter <= 14 && t.syncCounter <= cfg.syncCounterInit
    requires t.noNewOrRepeated <= 14 && !t.waitForFirstData && c <= 14
    ensures var d := (c - t.lastValidCounter) % 15;
            var tolerance := if t.maxDeltaCounter < 14 then t.maxDeltaCounter + 1 else 14;
            var tired := t.noNewOrRepeated > cfg.maxNoNewOrRepeatedData;
            var u := Tolerance.Step(cfg.Rules(), t, Heard(c));
            if d == 0 then u.status == Again
            else if d > tolerance then
              && u.status == (Wrong)
              && u.syncCounter == cfg.syncCounterInit
              && u.lastValidCounter == (if cfg.syncCounterInit > 0 then c else t.lastValidCounter)
            else
              && u.status == (if tired || t.syncCounter > 0 then Sync else if d == 1 then Ok else SomeLost)
              && u.syncCounter == (if tired then cfg.syncCounterInit
                                   else if t.syncCounter > 0 then t.syncCounter - 1 else 0)
              && u.lostData == d - 1 && u.lastValidCounter == c && u.maxDeltaCounter == cfg.maxDeltaCounterInit
  {
    ModUnique(c - t.lastValidCounter, if c >= t.lastValidCounter then 0 else -1,
      Jump(14, t.lastValidCounter, c), 15);
  }

  // ---- Data IDs ----

  /** For the check with another ID: the bytes that enter the CRC have the same CRC. */
  predicate SameIdCrc(cfg: Config, other: uint16, counter: uint8)
  {
    || cfg.DropsId()
    || Calculate(CRC8(), cfg.IdBytes(counter), Ones(8), false)
       == Calculate(CRC8(), cfg.(dataID := other).IdBytes(counter), Ones(8), false)
  }

  lemma OtherIdIntact(cfg: Config, other: uint16, counter: uint8, m: seq<byte>)
    requires cfg.Fits(|m|) && cfg.Seal(counter).Intact(cfg.Flip(m))
    ensures var cfg' := cfg.(dataID := other);
            cfg'.Fits(|m|) && (cfg'.Seal(counter).Intact(cfg'.Flip(m)) <==> SameIdCrc(cfg, other, counter))
  {
    var cfg' := cfg.(dataID := other);
    OtherPrefixExact(cfg.Seal(counter), cfg'.Seal(counter).prefix, cfg.Flip(m));
    assert cfg'.Seal(counter) == cfg.Seal(counter).(prefix := cfg'.Seal(counter).prefix);
  }

  /** What is read from a protected message. */
  lemma Received(cfg: Config, counter: uint8, d: seq<byte>)
    requires cfg.Fits(|d|) && counter < 15
    ensures var m := cfg.Protected(counter, d);
            && Get(m, cfg.Counter()) == cfg.SentCounter(counter)
            && (cfg.dataIDMode == Nibble ==> Get(m, cfg.IdNibble()) == cfg.SentNibble(d))
  {
    OnlyFields(cfg, counter, d, cfg.Counter());
    if cfg.dataIDMode == Nibble {
      OnlyFields(cfg, counter, d, cfg.IdNibble());
    }
  }

  lemma ReceivedIntact(cfg: Config, counter: uint8, d: seq<byte>, c: uint8)
    requires cfg.Fits(|d|) && counter < 15 && c == cfg.SentCounter(counter)
    ensures cfg.Seal(c).Intact(cfg.Flip(cfg.Protected(counter, d)))
  {
    ProtectedIntact(cfg, counter, d);
    SameSeal(cfg, counter, c);
  }

  /** A receiver that expects another ID accepts a protected message if and only if the bytes of
      the IDs that enter the CRC have the same CRC, or none do, and in nibble mode the nibble is
      the expected one. */
  lemma MasqueradeExact(cfg: Config, other: uint16, counter: uint8, d: seq<byte>)
    requires cfg.Fits(|d|) && counter < 15
    ensures var c := cfg.SentCounter(counter);
            cfg.(dataID := other).Judge(true, cfg.Protected(counter, d)) ==
              if c >= 15 then BadCounter
              else if && SameIdCrc(cfg, other, c)
                      && (cfg.dataIDMode == Nibble ==> cfg.SentNibble(d) == other / 256 % 16)
              then Heard(c) else BadCrc
  {
    var m, c := cfg.Protected(counter, d), cfg.SentCounter(counter);
    Received(cfg, counter, d);
    if c < 15 {
      ReceivedIntact(cfg, counter, d, c);
      OtherIdIntact(cfg, other, c, m);
      JudgeMeans(cfg.(dataID := other), c, m);
    }
  }

  /** The IDs differ in exactly one of the bytes that enter the CRC. */
  predicate OneByteApart(cfg: Config, other: uint16, counter: uint8)
  {
    var low, high := other % 256 != cfg.LowByte(), other / 256 != cfg.HighByte();
    match cfg.dataIDMode
    case Both => low != high
    case Alt => if counter % 2 == 0 then low else high
    case Low => low
    case Nibble => low
    case NotUsed => false
  }

  lemma OneIdByteDiffers(cfg: Config, other: uint16, counter: uint8) returns (i: nat)
    requires OneByteApart(cfg, other, counter)
    ensures Burst(CRC8(), cfg.IdBytes(counter), cfg.(dataID := other).IdBytes(counter), i, i + 1)
  {
    var x, y := cfg.IdBytes(counter), cfg.(dataID := other).IdBytes(counter);
    i := if cfg.dataIDMode == Both && other % 256 == cfg.LowByte() then 1 else 0;
    assert x[i] != y[i];
    assert x[..i] == y[..i] && x[i + 1..] == y[i + 1..];
  }

  /** So an ID that is one byte apart is rejected, wherever the CRC does not drop the ID. */
  lemma Masquerade(cfg: Config, other: uint16, counter: uint8, d: seq<byte>)
    requires cfg.Fits(|d|) && counter < 15 && OneByteApart(cfg, other, counter) && !cfg.DropsId()
    ensures cfg.(dataID := other).Judge(true, cfg.Protected(counter, d)) ==
      if cfg.SentCounter(counter) < 15 then BadCrc else BadCounter
  {
    var i := OneIdByteDiffers(cfg, other, counter);
    var x, y := cfg.IdBytes(counter), cfg.(dataID := other).IdBytes(counter);
    BurstChangesCrc(CRC8(), x, y, i, i + 1, Ones(8), false);
    MasqueradeExact(cfg, other, counter, d);
  }

  /** Two pairs of bytes have the same CRC if and only if the difference of the first bytes, shifted
      once, is that of the second ones. */
  lemma PairCollision(a: byte, b: byte, a': byte, b': byte, shifts: nat)
    requires shifts == 8
    ensures Calculate(CRC8(), [a, b], Ones(8), false) == Calculate(CRC8(), [a', b'], Ones(8), false)
       <==> Steps(CRC8().poly, Xor(Load(CRC8(), a), Load(CRC8(), a')), shifts) == Xor(Load(CRC8(), b), Load(CRC8(), b'))
  {
    var r := Start(CRC8(), Ones(8), false);
    TwoDifferences(CRC8(), r, [], a, a', [], b, b', [], shifts);
    Pair(a, b);
    Pair(a', b');
    SameCrcSameRun(CRC8(), r, [a, b], [a', b']);
  }

  lemma Pair(a: byte, b: byte)
    ensures [] + [a] + [] + [b] + [] == [a, b]
  {
  }

  /** In BOTH mode the IDs 0x0000 and 0x1D01 are not told apart, although the CRC is aligned. */
  lemma UnnoticedId(cfg: Config, counter: uint8, d: seq<byte>)
    requires cfg.Fits(|d|) && counter < 15 && cfg.dataIDMode == Both && cfg.dataID == 0
    ensures cfg.(dataID := 0x1D01).Judge(true, cfg.Protected(counter, d)) == Heard(counter)
  {
    var shifts := 8;
    ShiftedOne(CRC8(), 0x1D, shifts);
    PairCollision(0, 0, 1, 0x1D, shifts);
    assert cfg.IdBytes(counter) == [0, 0] && cfg.(dataID := 0x1D01).IdBytes(counter) == [1, 0x1D];
    MasqueradeExact(cfg, 0x1D01, counter, d);
  }

  /** With a CRC offset of 1 to 7 the ID does not matter at all, unless a nibble is transmitted. */
  lemma IdIgnored(cfg: Config, other: uint16, counter: uint8, d: seq<byte>)
    requires cfg.Fits(|d|) && counter < 15 && cfg.DropsId() && cfg.dataIDMode != Nibble
    ensures cfg.(dataID := other).Judge(true, cfg.Protected(counter, d)) == Heard(counter)
  {
    MasqueradeExact(cfg, other, counter, d);
  }

  // ---- Changed bytes ----

  /** Changing a byte changes that byte of the flipped message. */
  lemma FlippedChange(cfg: Config, m: seq<byte>, k: nat, b: byte) returns (b': byte)
    requires cfg.Fits(|m|) && k < |m| && b != m[k]
    ensures cfg.Flip(m[k := b]) == cfg.Flip(m)[k := b'] && b' != cfg.Flip(m)[k]
    ensures k != cfg.crcOffset / 8 ==> b' == b && cfg.Flip(m)[k] == m[k]
  {
    if k == cfg.crcOffset / 8 {
      InvertedTwice(b);
      InvertedTwice(m[k]);
      b' := Inverted(b);
    } else {
      b' := b;
    }
  }

  /** The counters select different bytes of the ID, and the CRC covers them. */
  predicate OtherIdByte(cfg: Config, counter: uint8, other: uint8)
  {
    cfg.dataIDMode == Alt && !cfg.DropsId() && counter % 2 != other % 2
  }

  lemma SameSeal(cfg: Config, counter: uint8, other: uint8)
    requires !OtherIdByte(cfg, counter, other)
    ensures cfg.Seal(counter) == cfg.Seal(other)
  {
  }

  /** Changing the byte of the counter from x to b makes up for the other byte of the ID that is
      selected with it. */
  predicate Compensates(cfg: Config, counter: uint8, other: uint8, x: byte, b: byte, shifts: nat)
  {
    && OtherIdByte(cfg, counter, other)
    && var p := CRC8();
       Steps(p.poly, Xor(Load(p, cfg.IdBytes(counter)[0]), Load(p, cfg.IdBytes(other)[0])), shifts)
       == Xor(Load(p, x), Load(p, b))
  }

  /** The seal for a counter of other parity, on a message changed in the byte of the counter. */
  lemma ParityChange(cfg: Config, counter: uint8, other: uint8, f: seq<byte>, b: byte, shifts: nat)
    requires cfg.Fits(|f|) && cfg.Seal(counter).Intact(f) && OtherIdByte(cfg, counter, other)
    requires shifts == 8 * (1 + cfg.Position())
    ensures cfg.Seal(other).Intact(f[cfg.Counter().index := b])
       <==> Compensates(cfg, counter, other, f[cfg.Counter().index], b, shifts)
  {
    FirstByteExact(cfg.Seal(counter), cfg.Seal(other), cfg.IdBytes(counter)[0], cfg.IdBytes(other)[0],
      f, cfg.Counter().index, b, shifts);
  }

  /** A protected message with one byte changed has a wrong CRC or an impossible counter, unless the
      change is in the counter and makes up for the byte of the ID it selects. */
  lemma ByteChangeExact(cfg: Config, counter: uint8, d: seq<byte>, k: nat, b: byte, shifts: nat)
    requires cfg.Fits(|d|) && counter < 15 && k < |d| && b != cfg.Protected(counter, d)[k]
    requires shifts == 8 * (1 + cfg.Position())
    ensures var m := cfg.Protected(counter, d);
            var c := Get(m[k := b], cfg.Counter());
            cfg.Judge(true, m[k := b]) ==
              if c >= 15 then BadCounter
              else if k == cfg.Counter().index && Compensates(cfg, counter, c, m[k], b, shifts) then Heard(c)
              else BadCrc
  {
    var m := cfg.Protected(counter, d);
    var m' := m[k := b];
    var c := Get(m', cfg.Counter());
    ProtectedIntact(cfg, counter, d);
    OnlyFields(cfg, counter, d, cfg.Counter());
    if c < 15 {
      JudgeMeans(cfg, c, m');
      var b' := FlippedChange(cfg, m, k, b);
      if OtherIdByte(cfg, counter, c) {
        assert k == cfg.Counter().index;
        ParityChange(cfg, counter, c, cfg.Flip(m), b, shifts);
      } else {
        SameSeal(cfg, counter, c);
        ByteChangeDetected(cfg.Seal(counter), cfg.Flip(m), k, b');
      }
    }
  }

  /** So damage is reported as a wrong CRC, or not at all where it makes the counter impossible, and the
      receiver goes on from its last counter. */
  lemma DamageReported(cfg: Config, t: Track, counter: uint8, d: seq<byte>, k: nat, b: byte, shifts: nat)
    requires cfg.Fits(|d|) && counter < 15 && k < |d| && b != cfg.Protected(counter, d)[k]
    requires Guard(cfg.Rules(), t) && shifts == 8 * (1 + cfg.Position())
    ensures var m := cfg.Protected(counter, d);
            var c, e := Get(m[k := b], cfg.Counter()), cfg.Judge(true, m[k := b]);
            var u := Tolerance.Step(cfg.Rules(), t, e);
            !(c < 15 && k == cfg.Counter().index && Compensates(cfg, counter, c, m[k], b, shifts)) ==>
              && u.status == (if c < 15 then WrongCrc else t.status)
              && u.lastValidCounter == t.lastValidCounter && u.syncCounter == t.syncCounter
              && u.noNewOrRepeated == t.noNewOrRepeated
  {
    ByteChangeExact(cfg, counter, d, k, b, shifts);
  }

  /** In alternating mode with ID 0x0100, the counter of a message of two bytes can change from 0 to
      13 unnoticed. */
  lemma UnnoticedChange(cfg: Config, d: seq<byte>)
    requires cfg.Fits(|d|) && |d| == 2 && cfg.dataIDMode == Alt && cfg.dataID == 0x0100
    requires cfg.crcOffset == 0 && cfg.counterOffset == 8 && d[1] == 0
    ensures cfg.Judge(true, cfg.Protected(0, d)[1 := 0x1D]) == Heard(13)
  {
    var shifts := 8;
    CounterByteKept(cfg, d);
    AltCompensates(cfg, shifts);
    ChangeAccepted(cfg, 0, d, 0x1D, shifts, 0, 13);
  }

  lemma ChangeAccepted(cfg: Config, counter: uint8, d: seq<byte>, b: byte, shifts: nat, x: byte, other: uint8)
    requires cfg.Fits(|d|) && counter < 15 && x != b && shifts == 8 * (1 + cfg.Position())
    requires cfg.Protected(counter, d)[cfg.Counter().index] == x
    requires other == (if cfg.Counter().high then b / 16 else b % 16) && other < 15
    requires Compensates(cfg, counter, other, x, b, shifts)
    ensures cfg.Judge(true, cfg.Protected(counter, d)[cfg.Counter().index := b]) == Heard(other)
  {
    ByteChangeExact(cfg, counter, d, cfg.Counter().index, b, shifts);
  }

  lemma AltCompensates(cfg: Config, shifts: nat)
    requires cfg.dataIDMode == Alt && cfg.dataID == 0x0100 && cfg.crcOffset == 0 && shifts == 8
    ensures Compensates(cfg, 0, 13, 0, 0x1D, shifts)
  {
    ShiftedOne(CRC8(), 0x1D, shifts);
    assert cfg.IdBytes(0)[0] == 0 && cfg.IdBytes(13)[0] == 1;
  }

  lemma CounterByteKept(cfg: Config, d: seq<byte>)
    requires cfg.Fits(|d|) && |d| == 2 && cfg.dataIDMode == Alt
    requires cfg.crcOffset == 0 && cfg.counterOffset == 8 && d[1] == 0
    ensures cfg.Protected(0, d)[1] == 0
  {
    OnlyFields(cfg, 0, d, Spot(1, false));
    OnlyFields(cfg, 0, d, Spot(1, true));
  }

  // ---- In place ----

  /** The CRC over the data ID, the data before the CRC and the data after it. */
  method CalculateCRC8(cfg: Config, counter: uint8, d: seq<byte>) returns (crc: Bits)
    requires cfg.Fits(|d|) && cfg.dataIDMode != NotUsed
    ensures crc == Xor(cfg.Seal(counter).Computed(d), Ones(8))
  {
    var off := cfg.crcOffset / 8;
    ghost var before := cfg.Seal(counter).prefix + d[..off];
    crc := CrcBefore(cfg, counter, d);
    CoveredAround(cfg.Seal(counter), d);
    if off < |d| - 1 {
      Chain(CRC8(), before, d[off + 1..], Ones(8), false);
      crc := CalculateRuntime(CRC8(), d[off + 1..], crc, false);
    } else {
      assert before + d[off + 1..] == before;
    }
    assert crc == cfg.Seal(counter).Computed(d);
    crc := Xor(crc, Ones(8));
  }

  lemma CoveredAround(s: Seal, d: seq<byte>)
    requires s.Fits(d) && s.p.size == 1 && s.suffix == []
    ensures s.Covered(d) == (s.prefix + d[..s.offset]) + d[s.offset + 1..]
  {
  }

  /** The CRC over the data ID and the data before the CRC. */
  method CrcBefore(cfg: Config, counter: uint8, d: seq<byte>) returns (crc: Bits)
    requires cfg.Fits(|d|) && cfg.dataIDMode != NotUsed
    ensures |crc| == 8
    ensures crc == Calculate(CRC8(), cfg.Seal(counter).prefix + d[..cfg.crcOffset / 8], Ones(8), false)
  {
    var off := cfg.crcOffset / 8;
    crc := IdCrc(cfg, counter);
    if cfg.crcOffset >= 8 {
      Chain(CRC8(), cfg.IdBytes(counter), d[..off], Ones(8), false);
      crc := CalculateRuntime(CRC8(), d[..off], crc, false);
    } else if cfg.crcOffset == 0 {
      assert cfg.IdBytes(counter) + d[..0] == cfg.IdBytes(counter);
    } else {
      crc := CalculateRuntime(CRC8(), d[..off], Ones(8), false);
      assert [] + d[..off] == d[..off];
    }
  }

  method IdCrc(cfg: Config, counter: uint8) returns (crc: Bits)
    requires cfg.dataIDMode != NotUsed
    ensures crc == Calculate(CRC8(), cfg.IdBytes(counter), Ones(8), false)
  {
    match cfg.dataIDMode
    case Both =>
      crc := CalculateRuntime(CRC8(), [cfg.LowByte()], Ones(8), false);
      Chain(CRC8(), [cfg.LowByte()], [cfg.HighByte()], Ones(8), false);
      crc := CalculateRuntime(CRC8(), [cfg.HighByte()], crc, false);
      assert [cfg.LowByte()] + [cfg.HighByte()] == cfg.IdBytes(counter);
    case Low =>
      crc := CalculateRuntime(CRC8(), [cfg.LowByte()], Ones(8), false);
    case Alt =>
      if counter % 2 == 0 {
        crc := CalculateRuntime(CRC8(), [cfg.LowByte()], Ones(8), false);
      } else {
        crc := CalculateRuntime(CRC8(), [cfg.HighByte()], Ones(8), false);
      }
    case Nibble =>
      crc := CalculateRuntime(CRC8(), [cfg.LowByte()], Ones(8), false);
      Chain(CRC8(), [cfg.LowByte()], [0], Ones(8), false);
      crc := CalculateRuntime(CRC8(), [0], crc, false);
      assert [cfg.LowByte()] + [0] == cfg.IdBytes(counter);
  }

  method PutInPlace(data: array<byte>, index: nat, low: bool, n: nat)
    requires index < data.Length && n < 16
    modifies data
    ensures data[..] == Put(old(data[..]), Spot(index, !low), n)
  {
    if low {
      data[index] := data[index] / 16 * 16 + n;
    } else {
      data[index] := data[index] % 16 + n * 16;
    }
  }

  function Successor(counter: uint8): uint8
  {
    (counter + 1) % 15
  }

  class ProtectState {
    var counter: uint8

    constructor ProtectInit()
      ensures counter == 0
    {
      counter := 0;
    }

    method Protect(cfg: Config, data: array?<byte>) returns (ret: Return)
      requires data != null ==> cfg.Fits(data.Length)
      modifies this
      modifies if data == null then {} else {data}
      ensures ret == if data == null then INPUTERR_NULL
                     else if old(counter) > 14 || cfg.dataIDMode == NotUsed then INPUTERR_WRONG else OK
      ensures ret == OK ==>
        && data[..] == cfg.Protected(old(counter), old(data[..]))
        && counter == Successor(old(counter))
      ensures ret != OK ==> counter == old(counter) && (data != null ==> data[..] == old(data[..]))
    {
      if data == null {
        return INPUTERR_NULL;
      }
      if counter > 14 || cfg.dataIDMode == NotUsed {
        return INPUTERR_WRONG;
      }
      Fill(cfg, data, counter);
      counter := Successor(counter);
      return OK;
    }
  }

  lemma SuccessorNumbers(i: nat)
    ensures Successor(i % 15) == (i + 1) % 15
  {
    ModSuccessor(i, 15);
  }

  /** Protect payload number i. */
  method Send(cfg: Config, state: ProtectState, payload: seq<byte>, ghost i: nat) returns (message: seq<byte>)
    requires cfg.Fits(|payload|) && cfg.dataIDMode != NotUsed && state.counter == i % 15
    modifies state
    ensures message == cfg.Protected(i % 15, payload) && state.counter == (i + 1) % 15
  {
    var data := Copy(payload);
    SuccessorNumbers(i);
    var ret := state.Protect(cfg, data);
    message := data[..];
  }

  /** The messages of a sender. */
  function Messages(cfg: Config, payloads: seq<seq<byte>>): (messages: seq<seq<byte>>)
    requires forall i :: 0 <= i < |payloads| ==> cfg.Fits(|payloads[i]|)
    ensures |messages| == |payloads|
  {
    seq(|payloads|, k requires 0 <= k < |payloads| => cfg.Protected(k % 15, payloads[k]))
  }

  /** Protect payloads one after the other, from initialisation: message number i carries counter
      i % 15, in the channel results as in the code. */
  method SendAll(cfg: Config, payloads: seq<seq<byte>>) returns (messages: seq<seq<byte>>)
    requires cfg.dataIDMode != NotUsed && forall i :: 0 <= i < |payloads| ==> cfg.Fits(|payloads[i]|)
    ensures messages == Messages(cfg, payloads)
  {
    var state := new ProtectState.ProtectInit();
    messages := [];
    ghost var all := Messages(cfg, payloads);
    for i := 0 to |payloads|
      invariant fresh(state) && state.counter == i % 15
      invariant messages == all[..i]
    {
      var message := Send(cfg, state, payloads[i], i);
      OneMore(all, i);
      messages := messages + [message];
    }
  }

  method FillNibbles(cfg: Config, data: array<byte>, counter: uint8)
    requires cfg.Fits(data.Length) && counter <= 14
    modifies data
    ensures data[..] == cfg.WithNibbles(counter, old(data[..]))
  {
    PutInPlace(data, cfg.counterOffset / 8, cfg.counterOffset % 8 == 0, counter);
    if cfg.dataIDMode == Nibble {
      PutInPlace(data, cfg.dataIDNibbleOffset / 8 % 256, cfg.dataIDNibbleOffset % 8 == 0, cfg.dataID / 256 % 16);
    }
  }

  /** Write the nibbles and the CRC into a buffer. */
  method Fill(cfg: Config, data: array<byte>, counter: uint8)
    requires cfg.Fits(data.Length) && counter <= 14 && cfg.dataIDMode != NotUsed
    modifies data
    ensures data[..] == cfg.Protected(counter, old(data[..]))
  {
    FillNibbles(cfg, data, counter);
    ghost var e := data[..];
    var crc := CalculateCRC8(cfg, counter, data[..]);
    StoredCrc(cfg, counter, e);
    data[cfg.crcOffset / 8] := ByteOf(crc);
  }

  method Examine(cfg: Config, d: seq<byte>) returns (e: Event)
    requires cfg.Fits(|d|) && cfg.dataIDMode != NotUsed
    ensures e == cfg.Judge(true, d)
  {
    var received := Get(d, cfg.Counter());
    if received >= 15 {
      return BadCounter;
    }
    var crc := CalculateCRC8(cfg, received, d);
    ReceivedCrc(cfg, received, d);
    if ByteBits(d[cfg.crcOffset / 8]) == crc {
      if cfg.dataIDMode == Nibble && Get(d, cfg.IdNibble()) != cfg.HighByte() % 16 {
        e := BadCrc;
      } else {
        e := Heard(received);
      }
    } else {
      e := BadCrc;
    }
  }

  /** Comparing with the inverted CRC is checking the flipped message. */
  lemma ReceivedCrc(cfg: Config, counter: uint8, d: seq<byte>)
    requires cfg.Fits(|d|)
    ensures cfg.Seal(counter).Intact(cfg.Flip(d)) <==>
      ByteBits(d[cfg.crcOffset / 8]) == Xor(cfg.Seal(counter).Computed(d), Ones(8))
  {
    var s, at := cfg.Seal(counter), cfg.crcOffset / 8;
    var f := cfg.Flip(d);
    assert Cut(f, at, 1) == Cut(d, at, 1);
    assert s.Covered(f) == s.Covered(d);
    assert s.Field(f) == [Inverted(d[at])];
    assert FromBytes([Inverted(d[at])]) == ByteBits(Inverted(d[at])) == Xor(ByteBits(d[at]), Ones(8));
    XorTwice(ByteBits(d[at]), Ones(8));
    XorTwice(s.Computed(d), Ones(8));
  }

  /** One check of the caller's data. A counter out of range is an input error that is found after
      the tolerance has grown. */
  method Check(cfg: Config, state: CheckState, data: array?<byte>) returns (ret: Return)
    requires data != null ==> cfg.Fits(data.Length)
    modifies state
    ensures
      var passed :=
        && data != null && cfg.dataIDMode != NotUsed
        && old(state.lastValidCounter) <= 14 && old(state.maxDeltaCounter) <= 14
        && old(state.syncCounter) <= cfg.syncCounterInit && old(state.noNewOrRepeated) <= 14;
      && (!passed ==>
            && state.Value() == old(state.Value())
            && ret == if data == null then INPUTERR_NULL else INPUTERR_WRONG)
      && (passed ==>
            var e := cfg.Judge(old(state.newDataAvailable), data[..]);
            && state.Value() == Tolerance.Step(cfg.Rules(), old(state.Value()), e)
            && ret == if e == BadCounter then INPUTERR_WRONG else OK)
    ensures state.newDataAvailable == old(state.newDataAvailable)
  {
    if data == null {
      return INPUTERR_NULL;
    }
    if state.lastValidCounter > 14 || state.maxDeltaCounter > 14
       || state.syncCounter > cfg.syncCounterInit || state.noNewOrRepeated > 14
    {
      return INPUTERR_WRONG;
    }
    if cfg.dataIDMode == NotUsed {
      return INPUTERR_WRONG;
    }
    var event := Silence;
    if state.newDataAvailable {
      event := Examine(cfg, data[..]);
    }
    state.Take(cfg.Rules(), event);
    return if event == BadCounter then INPUTERR_WRONG else OK;
  }
}
