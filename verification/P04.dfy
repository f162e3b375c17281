/** E2E profile 4: length, counter and data ID, then a 32-bit CRC. */
module P04 {
  import opened Bits
  import opened Crc
  import opened CrcTheory
  import opened Wire
  import opened Sealing
  import opened Receiver
  import opened Sequence
  import opened Profile

  datatype Config = Config(
    dataID: uint32, offset: uint16, minDataLength: uint16, maxDataLength: uint16, maxDeltaCounter: uint16)
  {
    function Scheme(): Scheme
    {
      var seal := Seal(CRC32P4(), offset / 8 + 8, false, [], [], true);
      Profile.Scheme(
        Layout(seal, offset / 8, 2, 2, U32(dataID)),
        minDataLength / 8, maxDataLength / 8, Checker(0x1_0000, maxDeltaCounter))
    }
  }

  /** What callers owe: an accepted length has room for the header. */
  lemma FitsMeans(cfg: Config, length: uint16)
    ensures cfg.Scheme().Fits(length) <==>
      (cfg.minDataLength / 8 <= length <= cfg.maxDataLength / 8 ==> cfg.offset / 8 + 12 <= length)
    ensures cfg.Scheme().Period() == 0x1_0000
  {
    Pow256Values();
  }

  /** The bytes of a protected message: length, counter, data ID and CRC. The CRC covers the rest. */
  lemma Format(cfg: Config, counter: nat, d: seq<byte>)
    requires cfg.Scheme().layout.Fits(d)
    ensures var m, off := cfg.Scheme().layout.Protected(counter, d), cfg.offset / 8;
            && m[..off] == d[..off] && m[off + 12..] == d[off + 12..]
            && m[off..off + 8] == BigEndian(|d|, 2) + BigEndian(counter, 2) + BigEndian(cfg.dataID, 4)
            && FromBytes(m[off + 8..off + 12]) == Calculate(CRC32P4(), Cut(m, off + 8, 4), Ones(32), true)
  {
    FormatOf(cfg.Scheme().layout, counter, d, cfg.offset / 8, cfg.offset / 8 + 12);
    var m, off := cfg.Scheme().layout.Protected(counter, d), cfg.offset / 8;
    Slices(Cut(m, off + 8, 4), 0);
  }

  /** The verdict on a message, in terms of its bytes. */
  lemma Accepted(cfg: Config, d: seq<byte>)
    requires cfg.Scheme().layout.Fits(d)
    ensures var off := cfg.offset / 8;
            cfg.Scheme().layout.Judge(d) ==
              if && d[off..off + 2] == BigEndian(|d|, 2)
                 && d[off + 4..off + 8] == BigEndian(cfg.dataID, 4)
                 && FromBytes(d[off + 8..off + 12]) == Calculate(CRC32P4(), Cut(d, off + 8, 4), Ones(32), true)
              then Good(Number(d[off + 2..off + 4])) else Bad
  {
    var off := cfg.offset / 8;
    JudgeMeansPlain(cfg.Scheme().layout, d, off + 2, off + 4, off + 8, off + 12, 32);
  }

  /** The CRC of everything but the CRC field, in chained calls. */
  method ComputeCrc(cfg: Config, d: seq<byte>) returns (crc: Bits)
    requires cfg.offset / 8 + 12 <= |d|
    ensures crc == cfg.Scheme().layout.seal.Computed(d)
  {
    var off := cfg.offset / 8;
    ghost var s := cfg.Scheme().layout.seal;
    assert s.Covered(d) == d[..off + 8] + d[off + 12..];
    crc := CalculateRuntime(CRC32P4(), d[..off + 8], Ones(32), true);
    if off + 12 < |d| {
      Chain(CRC32P4(), d[..off + 8], d[off + 12..], Ones(32), true);
      crc := CalculateRuntime(CRC32P4(), d[off + 12..], crc, false);
    } else {
      assert d[..off + 8] + d[off + 12..] == d[..off + 8];
    }
  }

  /** Counter++ */
  function Successor(counter: uint16): uint16
  {
    (counter + 1) % 0x1_0000
  }

  class ProtectState {
    var counter: uint16

    constructor ProtectInit()
      ensures counter == 0
    {
      counter := 0;
    }

    method Protect(cfg: Config, data: array?<byte>, length: uint16) returns (ret: Return)
      requires data != null ==> length == data.Length && cfg.Scheme().Fits(length)
      modifies this
      modifies if data == null then {} else {data}
      ensures ret == if data == null then INPUTERR_NULL
                     else if cfg.minDataLength / 8 <= length <= cfg.maxDataLength / 8 then OK else INPUTERR_WRONG
      ensures ret == OK ==>
        && data[..] == cfg.Scheme().layout.Protected(old(counter), old(data[..]))
        && counter == Successor(old(counter))
      ensures ret != OK ==> counter == old(counter) && (data != null ==> data[..] == old(data[..]))
    {
      if data == null {
        return INPUTERR_NULL;
      }
      if length >= cfg.minDataLength / 8 && length <= cfg.maxDataLength / 8 {
        var layout := cfg.Scheme().layout;
        ProtectedByFields(layout, counter, data[..]);
        StoreFields(layout, data, counter);
        var crc := ComputeCrc(cfg, data[..]);
        StoreCrc(layout, data, crc);
        counter := Successor(counter);
        return OK;
      } else {
        return INPUTERR_WRONG;
      }
    }
  }

  class CheckState {
    var counter: uint16
    var status: Status

    constructor CheckInit()
      ensures counter == 0xFFFF && status == Error
    {
      counter := 0xFFFF;
      status := Error;
    }

    function State(): Rx
      reads this
    {
      Rx(counter, status)
    }

    method Check(cfg: Config, data: array?<byte>, length: uint16) returns (ret: Return)
      requires data != null ==> length == data.Length && cfg.Scheme().Fits(length)
      modifies this
      ensures var i := if data == null then Absent(length) else Present(data[..]);
              && State() == cfg.Scheme().Check(old(State()), i)
              && ret == if cfg.Scheme().Judge(i) == InputError then INPUTERR_WRONG else OK
    {
      var newDataAvailable := false;
      if (data != null && length != 0) || (data == null && length == 0) {
        ret := OK;
        if data != null {
          if length >= cfg.minDataLength / 8 && length <= cfg.maxDataLength / 8 {
            newDataAvailable := true;
          } else {
            ret := INPUTERR_WRONG;
          }
        }
      } else {
        ret := INPUTERR_WRONG;
      }
      if ret == OK {
        if newDataAvailable {
          var crc := ComputeCrc(cfg, data[..]);
          Pow256Values();
          var verdict := Examine(cfg.Scheme().layout, data[..], crc);
          if verdict.Good? {
            status := Checker(0x1_0000, cfg.maxDeltaCounter)(counter, verdict.counter);
            counter := verdict.counter;
          } else {
            status := Error;
          }
        } else {
          status := NoNewData;
        }
      }
    }
  }

  /** Over a channel that keeps the order of messages, with a limit of at most 0x7FFF, a
      delivered message gets the status its distance from the last one deserves. */
  lemma Channel(cfg: Config, payloads: seq<seq<byte>>, run: seq<Cycle>, inputs: seq<Input>)
    requires cfg.maxDeltaCounter <= 0x7FFF
    requires forall k :: 0 <= k < |inputs| ==> cfg.Scheme().Ready(inputs[k])
    requires cfg.Scheme().Transmits(payloads, run, inputs) && InOrder(run, 0x1_0000)
    requires run != [] && run[|run| - 1].Delivered?
    ensures cfg.Scheme().CheckAll(Rx(0xFFFF, Error), inputs).status
         == Deserved(run[|run| - 1].index - LastIndex(run[..|run| - 1]), cfg.maxDeltaCounter)
  {
    Pow256Values();
    CheckerModular(0x1_0000, cfg.maxDeltaCounter);
    ChannelStatus(cfg.Scheme(), cfg.maxDeltaCounter, Rx(0xFFFF, Error), payloads, run, inputs);
  }

  /** A message whose length field holds another length is rejected, although its CRC is right. */
  lemma WrongLength(cfg: Config, n: uint16, counter: uint16, d: seq<byte>)
    requires cfg.Scheme().layout.Fits(d) && n != |d|
    ensures var l := cfg.Scheme().layout;
            var m := l.seal.Close(Paste(d, l.at, BigEndian(n, 2) + BigEndian(counter, 2) + l.id));
            l.seal.Intact(m) && l.Judge(m) == Bad
  {
    Pow256Values();
    WrongLengthRejected(cfg.Scheme().layout, n, counter, d);
  }

  /** A receiver that expects another data ID rejects the message. */
  lemma Masquerade(cfg: Config, other: uint32, counter: nat, d: seq<byte>)
    requires cfg.Scheme().layout.Fits(d) && counter < 0x1_0000 && other != cfg.dataID
    ensures cfg.(dataID := other).Scheme().layout.Judge(cfg.Scheme().layout.Protected(counter, d)) == Bad
  {
    Pow256Values();
    NumberOfBigEndian(cfg.dataID, 4);
    NumberOfBigEndian(other, 4);
    OtherIdRejected(cfg.Scheme().layout, U32(other), counter, d);
  }
}
