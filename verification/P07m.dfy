/** E2E profile 7m: profile 7 with the origin of a method call. */
module P07m {
  import opened Bits
  import opened Crc
  import opened Wire
  import opened Receiver
  import opened Sequence
  import opened Endpoint
  import opened Origins
  import P07

  type Config = P07.Config

  function Frame(cfg: Config): Envelope
  {
    Envelope(cfg.Scheme().(classify := CheckerShort(cfg.maxDeltaCounter)), cfg.offset / 8 + 20)
  }

  /** What callers owe: room for the header and the origin. */
  lemma FitsMeans(cfg: Config, length: uint32)
    ensures Frame(cfg).Fits(length) <==> cfg.offset / 8 + 24 <= length
    ensures At(Frame(cfg).scheme, cfg.offset)
  {
    Pow256Values();
  }

  /** The bytes of a protected message: the origin lies behind the header and is covered by the CRC. */
  lemma Format(cfg: Config, counter: uint32, o: Origin, d: seq<byte>)
    requires Frame(cfg).Fits(|d|)
    ensures var m, off := Frame(cfg).Protected(counter, o, d), cfg.offset / 8;
            && FromBytes(m[off..off + 8]) == Calculate(CRC64(), Cut(m, off, 8), Ones(64), true)
            && m[off + 8..off + 20] == BigEndian(|d|, 4) + BigEndian(counter, 4) + BigEndian(cfg.dataID, 4)
            && m[off + 20..off + 24] == Pack(o)
            && m[..off] == d[..off] && m[off + 24..] == d[off + 24..]
  {
    var off := cfg.offset / 8;
    Pow256Values();
    OriginKept(Frame(cfg), counter, o, d);
    EnvelopeKeeps(Frame(cfg), counter, o, d, off, off + 24);
    P07.Format(cfg, counter, Paste(d, off + 20, Pack(o)));
  }

  /** Counters and limit are cast to 16 bits, although counters have 32. */
  function ClassifyShort(maxDelta: nat, last: nat, received: nat): Status
  {
    StatusOf(Signed(received, 0x1_0000) - Signed(last, 0x1_0000), Signed(maxDelta, 0x1_0000))
  }

  function CheckerShort(maxDelta: nat): Sequencing
  {
    (last: nat, received: nat) => ClassifyShort(maxDelta, last, received)
  }

  lemma SignedShort(x: nat)
    ensures Signed(x, 0x1_0000) == (x + 0x8000) % 0x1_0000 - 0x8000
  {
  }

  lemma LowSum(last: nat, n: nat)
    ensures var low, u := n % 0x1_0000, (last + 0x8000) % 0x1_0000;
            ((last + n) % 0x1_0000_0000 + 0x8000) % 0x1_0000
            == if u + low < 0x1_0000 then u + low else u + low - 0x1_0000
  {
    var low, u, x := n % 0x1_0000, (last + 0x8000) % 0x1_0000, (last + n) % 0x1_0000_0000 + 0x8000;
    var a, b, c := n / 0x1_0000, (last + 0x8000) / 0x1_0000, (last + n) / 0x1_0000_0000;
    assert x == u + low + (a + b - 0x1_0000 * c) * 0x1_0000;
    if u + low < 0x1_0000 {
      ModUnique(x, a + b - 0x1_0000 * c, u + low, 0x1_0000);
    } else {
      ModUnique(x, a + b - 0x1_0000 * c + 1, u + low - 0x1_0000, 0x1_0000);
    }
  }

  /** The signed distance between the low halves of the counters of two messages n apart. */
  function LowDistance(last: nat, n: nat): int
  {
    var low, u := n % 0x1_0000, (last + 0x8000) % 0x1_0000;
    if u + low < 0x1_0000 then low else low - 0x1_0000
  }

  /** Beyond the limit, the low halves are out of the cast limit too; within it, they are within, and
      tell repetition and succession like the full distance. */
  predicate LowHalvesTell(maxDelta: uint32, last: uint32, n: nat)
  {
    var limit, delta := Signed(maxDelta, 0x1_0000), LowDistance(last, n);
    if n > maxDelta then !(0 <= delta <= limit)
    else 0 <= delta <= limit && (n == delta || (n >= 2 && delta >= 2))
  }

  /** The casts give a message n after the last one what it deserves if and only if the low halves
      tell it. */
  lemma ClassifyShortExact(maxDelta: uint32, last: uint32, n: nat)
    ensures ClassifyShort(maxDelta, last, (last + n) % 0x1_0000_0000) == Deserved(n, maxDelta)
       <==> LowHalvesTell(maxDelta, last, n)
  {
    ShortDistance(last, n);
  }

  lemma ChannelClassified(cfg: Config, sink: bool, origins: seq<Origin>, payloads: seq<seq<byte>>,
                          run: seq<Cycle>, expected: seq<Origin>, inputs: seq<Input>)
    requires |expected| == |inputs| && forall k :: 0 <= k < |inputs| ==> Frame(cfg).Ready(inputs[k])
    requires Transmits(Frame(cfg), sink, origins, payloads, run, expected, inputs)
    requires run != [] && run[|run| - 1].Delivered?
    ensures ReceiveAll(CheckerShort(cfg.maxDeltaCounter), Rx(0xFFFF_FFFF, Error),
                       Verdicts(Frame(cfg), sink, expected, inputs)).status
         == ClassifyShort(cfg.maxDeltaCounter, LastIndex(run[..|run| - 1]) % 0x1_0000_0000,
                          run[|run| - 1].index % 0x1_0000_0000)
  {
    Pow256Values();
    TransmitsJudged(Frame(cfg), sink, origins, payloads, run, expected, inputs);
    DeliveredIsClassified(CheckerShort(cfg.maxDeltaCounter), Rx(0xFFFF_FFFF, Error),
      run, Verdicts(Frame(cfg), sink, expected, inputs), 0x1_0000_0000);
  }

  /** So over a channel that keeps the order of messages, a message n after the last delivered one gets
      what it deserves under exactly this condition, at the source and at the sink. */
  lemma Channel(cfg: Config, sink: bool, origins: seq<Origin>, payloads: seq<seq<byte>>,
                run: seq<Cycle>, expected: seq<Origin>, inputs: seq<Input>, n: nat, last: uint32)
    requires |expected| == |inputs| && forall k :: 0 <= k < |inputs| ==> Frame(cfg).Ready(inputs[k])
    requires Transmits(Frame(cfg), sink, origins, payloads, run, expected, inputs)
    requires run != [] && run[|run| - 1].Delivered? && n == run[|run| - 1].index - LastIndex(run[..|run| - 1])
    requires last == LastIndex(run[..|run| - 1]) % 0x1_0000_0000
    ensures ReceiveAll(CheckerShort(cfg.maxDeltaCounter), Rx(0xFFFF_FFFF, Error),
                       Verdicts(Frame(cfg), sink, expected, inputs)).status == Deserved(n, cfg.maxDeltaCounter)
       <==> LowHalvesTell(cfg.maxDeltaCounter, last, n)
  {
    ChannelClassified(cfg, sink, origins, payloads, run, expected, inputs);
    ShortReport(cfg.maxDeltaCounter, LastIndex(run[..|run| - 1]), run[|run| - 1].index, n, last);
  }

  lemma ShortReport(maxDelta: uint32, i: int, j: nat, n: nat, last: uint32)
    requires n == j - i && last == i % 0x1_0000_0000
    ensures ClassifyShort(maxDelta, last, j % 0x1_0000_0000) == Deserved(n, maxDelta)
       <==> LowHalvesTell(maxDelta, last, n)
  {
    Ahead(i, n);
    ClassifyShortExact(maxDelta, last, n);
  }

  lemma Ahead(i: int, n: nat)
    ensures (i + n) % 0x1_0000_0000 == (i % 0x1_0000_0000 + n) % 0x1_0000_0000
  {
  }

  lemma ShortDistance(last: nat, n: nat)
    ensures Signed((last + n) % 0x1_0000_0000, 0x1_0000) - Signed(last, 0x1_0000) == LowDistance(last, n)
  {
    SignedShort(last);
    SignedShort((last + n) % 0x1_0000_0000);
    LowSum(last, n);
  }

  /** Consecutive messages that are reported as a wrong sequence: across 0x7FFF with the biggest
      sensible limit, and anywhere with a limit whose low half is 0. */
  lemma ConsecutiveWrong(last: uint32)
    ensures ClassifyShort(0x7FFF, 0x7FFF, 0x8000) == WrongSequence
    ensures ClassifyShort(0x1_0000, last, (last + 1) % 0x1_0000_0000) == WrongSequence
  {
    ShortDistance(last, 1);
  }
}
