/** E2E profile 5: a 16-bit CRC, little endian, and a counter; the data ID is not transmitted. */
module P05 {
  import opened Bits
  import opened Crc
  import opened Wire
  import opened Sealing
  import opened Receiver
  import opened Sequence
  import opened Profile
  import opened Endpoint

  datatype Config = Config(
    offset: uint16, dataLength: uint16, dataID: uint16, maxDeltaCounter: uint8)
  {
    function Scheme(): Scheme
    {
      var seal := Seal(CRC16(), offset / 8, true, [], [dataID % 0x100, dataID / 0x100], true);
      Profile.Scheme(
        Layout(seal, offset / 8 + 2, 0, 1, []),
        dataLength / 8, dataLength / 8, Checker(0x100, maxDeltaCounter))
    }
  }

  /** What callers owe: an accepted length has room for the header. */
  lemma FitsMeans(cfg: Config, length: uint16)
    ensures cfg.Scheme().Fits(length) <==>
      (length == cfg.dataLength / 8 ==> cfg.offset / 8 + 3 <= length)
    ensures At(cfg.Scheme(), cfg.offset) && cfg.Scheme().Period() == 0x100
  {
    Pow256Values();
  }

  /** The bytes of a protected message: the CRC, its low byte first, and the counter. The CRC covers
      the rest and the data ID. */
  lemma Format(cfg: Config, counter: nat, d: seq<byte>)
    requires cfg.Scheme().layout.Fits(d)
    ensures var m, off := cfg.Scheme().layout.Protected(counter, d), cfg.offset / 8;
            && m[..off] == d[..off] && m[off + 3..] == d[off + 3..]
            && m[off + 2] == counter % 0x100
            && FromBytes([m[off + 1], m[off]])
               == Calculate(CRC16(), Cut(m, off, 2) + [cfg.dataID % 0x100, cfg.dataID / 0x100], Ones(16), true)
  {
    FormatOf(cfg.Scheme().layout, counter, d, cfg.offset / 8, cfg.offset / 8 + 3);
    var m, off := cfg.Scheme().layout.Protected(counter, d), cfg.offset / 8;
    assert m[off + 2] == m[off + 2..off + 3][0];
    assert Backwards(m[off..off + 2]) == [m[off + 1], m[off]];
  }

  /** The verdict on a message, in terms of its bytes. */
  lemma Accepted(cfg: Config, d: seq<byte>)
    requires cfg.Scheme().layout.Fits(d)
    ensures var off := cfg.offset / 8;
            cfg.Scheme().layout.Judge(d) ==
              if FromBytes([d[off + 1], d[off]])
                 == Calculate(CRC16(), Cut(d, off, 2) + [cfg.dataID % 0x100, cfg.dataID / 0x100], Ones(16), true)
              then Good(d[off + 2]) else Bad
  {
    var off := cfg.offset / 8;
    JudgeMeans(cfg.Scheme().layout, d, off + 2, off + 3, off + 3, off + 2);
    assert Backwards(d[off..off + 2]) == [d[off + 1], d[off]];
    OneByteNumber(d[off + 2..off + 3]);
    Slices(d, off + 3);
  }

  /** Over a channel that keeps the order of messages, with a limit of at most 0x7F, a
      delivered message gets the status its distance from the last one deserves. */
  lemma Channel(cfg: Config, payloads: seq<seq<byte>>, run: seq<Cycle>, inputs: seq<Input>)
    requires cfg.maxDeltaCounter <= 0x7F
    requires forall k :: 0 <= k < |inputs| ==> cfg.Scheme().Ready(inputs[k])
    requires cfg.Scheme().Transmits(payloads, run, inputs) && InOrder(run, 0x100)
    requires run != [] && run[|run| - 1].Delivered?
    ensures cfg.Scheme().CheckAll(Rx(0xFF, Error), inputs).status
         == Deserved(run[|run| - 1].index - LastIndex(run[..|run| - 1]), cfg.maxDeltaCounter)
  {
    Pow256Values();
    CheckerModular(0x100, cfg.maxDeltaCounter);
    ChannelStatus(cfg.Scheme(), cfg.maxDeltaCounter, Rx(0xFF, Error), payloads, run, inputs);
  }

  /** A receiver that expects another data ID rejects the message. */
  lemma Masquerade(cfg: Config, other: uint16, counter: nat, d: seq<byte>)
    requires cfg.Scheme().layout.Fits(d) && counter < 0x100 && other != cfg.dataID
    ensures cfg.(dataID := other).Scheme().layout.Judge(cfg.Scheme().layout.Protected(counter, d)) == Bad
  {
    var suffix: seq<byte> := [other % 0x100, other / 0x100];
    assert suffix[0] == cfg.Scheme().layout.seal.suffix[0] ==> suffix[1] != cfg.Scheme().layout.seal.suffix[1];
    OtherSuffixRejected(cfg.Scheme().layout, suffix, counter, d);
  }
}
