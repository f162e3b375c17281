/** E2E profile 7: a 64-bit CRC, then length, counter and data ID of 32 bits. */
module P07 {
  import opened Bits
  import opened Crc
  import opened Wire
  import opened Sealing
  import opened Receiver
  import opened Sequence
  import opened Profile
  import opened Endpoint

  datatype Config = Config(
    dataID: uint32, offset: uint32, minDataLength: uint32, maxDataLength: uint32, maxDeltaCounter: uint32)
  {
    function Scheme(): Scheme
    {
      var seal := Seal(CRC64(), offset / 8, false, [], [], true);
      Profile.Scheme(
        Layout(seal, offset / 8 + 8, 4, 4, U32(dataID)),
        minDataLength / 8, maxDataLength / 8, CheckerLong(maxDeltaCounter))
    }
  }

  /** What callers owe: an accepted length has room for the header. */
  lemma FitsMeans(cfg: Config, length: uint32)
    ensures cfg.Scheme().Fits(length) <==>
      (cfg.minDataLength / 8 <= length <= cfg.maxDataLength / 8 ==> cfg.offset / 8 + 20 <= length)
    ensures At(cfg.Scheme(), cfg.offset) && cfg.Scheme().Period() == 0x1_0000_0000
  {
    Pow256Values();
  }

  /** The bytes of a protected message: CRC, length, counter and data ID. The CRC covers the rest. */
  lemma Format(cfg: Config, counter: nat, d: seq<byte>)
    requires cfg.Scheme().layout.Fits(d)
    ensures var m, off := cfg.Scheme().layout.Protected(counter, d), cfg.offset / 8;
            && m[..off] == d[..off] && m[off + 20..] == d[off + 20..]
            && m[off + 8..off + 20] == BigEndian(|d|, 4) + BigEndian(counter, 4) + BigEndian(cfg.dataID, 4)
            && FromBytes(m[off..off + 8])
               == Calculate(CRC64(), Cut(m, off, 8), Ones(64), true)
  {
    FormatOf(cfg.Scheme().layout, counter, d, cfg.offset / 8, cfg.offset / 8 + 20);
    var m, off := cfg.Scheme().layout.Protected(counter, d), cfg.offset / 8;
    Slices(Cut(m, off, 8), 0);
  }

  /** The verdict on a message, in terms of its bytes. */
  lemma Accepted(cfg: Config, d: seq<byte>)
    requires cfg.Scheme().layout.Fits(d)
    ensures var off := cfg.offset / 8;
            cfg.Scheme().layout.Judge(d) ==
              if && d[off + 8..off + 12] == BigEndian(|d|, 4)
                 && d[off + 16..off + 20] == BigEndian(cfg.dataID, 4)
                 && FromBytes(d[off..off + 8]) == Calculate(CRC64(), Cut(d, off, 8), Ones(64), true)
              then Good(Number(d[off + 12..off + 16])) else Bad
  {
    var off := cfg.offset / 8;
    JudgeMeansPlain(cfg.Scheme().layout, d, off + 12, off + 16, off + 20, off + 8, 64);
  }

  /** Over a channel that keeps the order of messages, with a limit of at most 0x7FFF_FFFF, a
      delivered message gets the status its distance from the last one deserves. */
  lemma Channel(cfg: Config, payloads: seq<seq<byte>>, run: seq<Cycle>, inputs: seq<Input>)
    requires cfg.maxDeltaCounter <= 0x7FFF_FFFF
    requires forall k :: 0 <= k < |inputs| ==> cfg.Scheme().Ready(inputs[k])
    requires cfg.Scheme().Transmits(payloads, run, inputs) && InOrder(run, 0x1_0000_0000)
    requires run != [] && run[|run| - 1].Delivered?
    ensures cfg.Scheme().CheckAll(Rx(0xFFFF_FFFF, Error), inputs).status
         == Deserved(run[|run| - 1].index - LastIndex(run[..|run| - 1]), cfg.maxDeltaCounter)
  {
    Pow256Values();
    CheckerLongModular(cfg.maxDeltaCounter);
    ChannelStatus(cfg.Scheme(), cfg.maxDeltaCounter, Rx(0xFFFF_FFFF, Error), payloads, run, inputs);
  }

  /** A message whose length field holds another length is rejected, although its CRC is right. */
  lemma WrongLength(cfg: Config, n: uint32, counter: uint32, d: seq<byte>)
    requires cfg.Scheme().layout.Fits(d) && n != |d|
    ensures var l := cfg.Scheme().layout;
            var m := l.seal.Close(Paste(d, l.at, BigEndian(n, 4) + BigEndian(counter, 4) + l.id));
            l.seal.Intact(m) && l.Judge(m) == Bad
  {
    Pow256Values();
    WrongLengthRejected(cfg.Scheme().layout, n, counter, d);
  }

  /** A receiver that expects another data ID rejects the message. */
  lemma Masquerade(cfg: Config, other: uint32, counter: nat, d: seq<byte>)
    requires cfg.Scheme().layout.Fits(d) && counter < 0x1_0000_0000 && other != cfg.dataID
    ensures cfg.(dataID := other).Scheme().layout.Judge(cfg.Scheme().layout.Protected(counter, d)) == Bad
  {
    Pow256Values();
    NumberOfBigEndian(cfg.dataID, 4);
    NumberOfBigEndian(other, 4);
    OtherIdRejected(cfg.Scheme().layout, U32(other), counter, d);
  }
}
