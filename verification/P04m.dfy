/** E2E profile 4m: profile 4 with the origin of a method call. */
module P04m {
  import opened Bits
  import opened Crc
  import opened Wire
  import opened Receiver
  import opened Sequence
  import opened Endpoint
  import opened Origins
  import P04

  type Config = P04.Config

  function Frame(cfg: Config): Envelope
  {
    Envelope(cfg.Scheme(), cfg.offset / 8 + 12)
  }

  /** What callers owe: room for the header and the origin. */
  lemma FitsMeans(cfg: Config, length: uint16)
    ensures Frame(cfg).Fits(length) <==> cfg.offset / 8 + 16 <= length
    ensures At(Frame(cfg).scheme, cfg.offset + 64)
  {
    Pow256Values();
  }

  /** The header is that of profile 4. */
  lemma Header(cfg: Config, counter: uint16, o: Origin, d: seq<byte>)
    requires Frame(cfg).Fits(|d|)
    ensures var m, off := Frame(cfg).Protected(counter, o, d), cfg.offset / 8;
            && m[off..off + 8] == BigEndian(|d|, 2) + BigEndian(counter, 2) + BigEndian(cfg.dataID, 4)
            && FromBytes(m[off + 8..off + 12]) == Calculate(CRC32P4(), Cut(m, off + 8, 4), Ones(32), true)
  {
    P04.Format(cfg, counter, Paste(d, cfg.offset / 8 + 12, Pack(o)));
  }

  /** The bytes of a protected message: the origin lies behind the header and is covered by the CRC. */
  lemma Format(cfg: Config, counter: uint16, o: Origin, d: seq<byte>)
    requires Frame(cfg).Fits(|d|)
    ensures var m, off := Frame(cfg).Protected(counter, o, d), cfg.offset / 8;
            && m[off..off + 8] == BigEndian(|d|, 2) + BigEndian(counter, 2) + BigEndian(cfg.dataID, 4)
            && FromBytes(m[off + 8..off + 12]) == Calculate(CRC32P4(), Cut(m, off + 8, 4), Ones(32), true)
            && m[off + 12..off + 16] == Pack(o)
            && m[..off] == d[..off] && m[off + 16..] == d[off + 16..]
  {
    Pow256Values();
    Header(cfg, counter, o, d);
    OriginKept(Frame(cfg), counter, o, d);
    EnvelopeKeeps(Frame(cfg), counter, o, d, cfg.offset / 8, cfg.offset / 8 + 16);
  }

  /** Over a channel that keeps the order of messages, with a limit of at most 0x7FFF, a delivered
      message gets the status its distance from the last one deserves, at the source and at the sink. */
  lemma Channel(cfg: Config, sink: bool, origins: seq<Origin>, payloads: seq<seq<byte>>,
                run: seq<Cycle>, expected: seq<Origin>, inputs: seq<Input>)
    requires cfg.maxDeltaCounter <= 0x7FFF
    requires |expected| == |inputs| && forall k :: 0 <= k < |inputs| ==> Frame(cfg).Ready(inputs[k])
    requires Transmits(Frame(cfg), sink, origins, payloads, run, expected, inputs) && InOrder(run, 0x1_0000)
    requires run != [] && run[|run| - 1].Delivered?
    ensures ReceiveAll(Checker(0x1_0000, cfg.maxDeltaCounter), Rx(0xFFFF, Error),
                       Verdicts(Frame(cfg), sink, expected, inputs)).status
         == Deserved(run[|run| - 1].index - LastIndex(run[..|run| - 1]), cfg.maxDeltaCounter)
  {
    Pow256Values();
    TransmitsJudged(Frame(cfg), sink, origins, payloads, run, expected, inputs);
    CheckerModular(0x1_0000, cfg.maxDeltaCounter);
    DeliveredGetsDeserved(Checker(0x1_0000, cfg.maxDeltaCounter), Rx(0xFFFF, Error),
      run, Verdicts(Frame(cfg), sink, expected, inputs), 0x1_0000, cfg.maxDeltaCounter);
  }
}
