/** E2E profile 22: an 8-bit CRC, a 4-bit counter, and a data ID that depends on the counter and is
not transmitted. */
module P22 {
  import opened Bits
  import opened Crc
  import opened CrcTheory
  import opened Wire
  import opened Sealing
  import opened Receiver
  import opened Sequence

  type nibble = n: int | 0 <= n < 16

  datatype Config = Config(dataLength: uint16, dataIDList: seq<byte>, maxDeltaCounter: uint8, offset: uint16)
  {
    function Off(): nat { offset / 8 }

    /** The lengths that both functions accept. */
    predicate InRange(length: nat)
    {
      length == dataLength / 8 && length >= Off() + 2
    }

    function Seal(counter: nibble): Seal
      requires |dataIDList| == 16
    {
      Sealing.Seal(CRC8H2F(), Off(), false, [], [dataIDList[counter]], true)
    }

    /** The byte after the CRC keeps its high half and gets the counter as its low half. */
    function WithCounter(counter: nibble, d: seq<byte>): (e: seq<byte>)
      requires Off() + 2 <= |d|
      ensures |e| == |d|
    {
      d[Off() + 1 := d[Off() + 1] / 16 * 16 + counter]
    }

    function Protected(counter: nibble, d: seq<byte>): (m: seq<byte>)
      requires |dataIDList| == 16 && Off() + 2 <= |d|
      ensures |m| == |d|
    {
      Seal(counter).Close(WithCounter(counter, d))
    }

    function CounterOf(d: seq<byte>): nibble
      requires Off() + 2 <= |d|
    {
      d[Off() + 1] % 16
    }

    function Judge(i: Input): Verdict
      requires |dataIDList| == 16
    {
      match i
      case Absent(length) => if length == 0 then Missing else InputError
      case Present(d) =>
        if |d| == 0 || !InRange(|d|) then InputError
        else if Seal(CounterOf(d)).Intact(d) then Good(CounterOf(d)) else Bad
    }

    function Check(rx: Rx, i: Input): Rx
      requires |dataIDList| == 16
    {
      Receive(CheckerNibble(maxDeltaCounter), rx, Judge(i))
    }

    function CheckAll(rx: Rx, inputs: seq<Input>): Rx
      requires |dataIDList| == 16
    {
      if inputs == [] then rx else Check(CheckAll(rx, inputs[..|inputs| - 1]), inputs[|inputs| - 1])
    }

    /** The inputs of the cycles that ended with a status of the sequence check. */
    function Kept(rx: Rx, inputs: seq<Input>): seq<Input>
      requires |dataIDList| == 16
    {
      if inputs == [] then []
      else
        var init, last := inputs[..|inputs| - 1], inputs[|inputs| - 1];
        if Ended(Judge(last), CheckAll(rx, inputs).status) then Kept(rx, init) + [last] else Kept(rx, init)
    }

    function Judgements(inputs: seq<Input>): (vs: seq<Verdict>)
      requires |dataIDList| == 16
      ensures |vs| == |inputs|
    {
      seq(|inputs|, k requires 0 <= k < |inputs| => Judge(inputs[k]))
    }
  }

  /** The CRC of everything but the CRC byte, followed by the data ID for the counter. */
  method ComputeCrc(cfg: Config, d: seq<byte>, counter: nibble) returns (crc: Bits)
    requires |cfg.dataIDList| == 16 && cfg.Off() + 2 <= |d|
    ensures crc == cfg.Seal(counter).Computed(d)
  {
    var c := CalculateAround(CRC8H2F(), d, cfg.offset, 1);
    crc := CalculateOneMore(CRC8H2F(), Cut(d, cfg.Off(), 1), c, cfg.dataIDList[counter]);
    assert [] + Cut(d, cfg.Off(), 1) + [cfg.dataIDList[counter]] == Cut(d, cfg.Off(), 1) + [cfg.dataIDList[counter]];
  }

  /** The verdict on a message whose length is accepted. */
  method Examine(cfg: Config, d: seq<byte>) returns (v: Verdict)
    requires |cfg.dataIDList| == 16 && cfg.InRange(|d|)
    ensures v == cfg.Judge(Present(d))
    ensures v.Good? ==> v.counter < 16
  {
    var received: nibble := cfg.CounterOf(d);
    var computed := ComputeCrc(cfg, d, received);
    if cfg.Seal(received).Decode(d[cfg.Off()..cfg.Off() + 1]) == computed {
      v := Good(received);
    } else {
      v := Bad;
    }
  }

  /** The inputs of a check, and the verdict on its data. */
  method Verify(cfg: Config, data: array?<byte>, length: uint16) returns (v: Verdict)
    requires data != null ==> length == data.Length
    requires |cfg.dataIDList| == 16
    ensures v == cfg.Judge(if data == null then Absent(length) else Present(data[..]))
    ensures v.Good? ==> v.counter < 16
  {
    if (data != null && length != 0) || (data == null && length == 0) {
      if data == null {
        v := Missing;
      } else if length == cfg.dataLength / 8 && length >= cfg.offset / 8 + 2 {
        v := Examine(cfg, data[..]);
      } else {
        v := InputError;
      }
    } else {
      v := InputError;
    }
  }

  function Successor(counter: nibble): nibble
  {
    (counter + 1) % 16
  }

  class ProtectState {
    var counter: nibble

    constructor ProtectInit()
      ensures counter == 0
    {
      counter := 0;
    }

    method Protect(cfg: Config, data: array?<byte>, length: uint16) returns (ret: Return)
      requires data != null ==> length == data.Length
      requires |cfg.dataIDList| == 16
      modifies this
      modifies if data == null then {} else {data}
      ensures ret == if data == null then INPUTERR_NULL
                     else if length == cfg.dataLength / 8 && length >= cfg.offset / 8 + 2 then OK else INPUTERR_WRONG
      ensures ret == OK ==>
        && counter == Successor(old(counter))
        && data[..] == cfg.Protected(counter, old(data[..]))
      ensures ret != OK ==> counter == old(counter) && (data != null ==> data[..] == old(data[..]))
    {
      if data == null {
        return INPUTERR_NULL;
      }
      var off := cfg.offset / 8;
      if length == cfg.dataLength / 8 && length >= off + 2 {
        counter := Successor(counter);
        data[off + 1] := data[off + 1] / 16 * 16 + counter;
        assert data[..] == cfg.WithCounter(counter, old(data[..]));
        var crc := ComputeCrc(cfg, data[..], counter);
        Store(data, off, cfg.Seal(counter).Encode(crc));
        return OK;
      } else {
        return INPUTERR_WRONG;
      }
    }
  }

  lemma SuccessorNumbers(i: nat)
    ensures Successor(i % 16) == (i + 1) % 16
  {
    ModSuccessor(i, 16);
  }

  /** Protect payload number i. */
  method Send(cfg: Config, state: ProtectState, payload: seq<byte>, ghost i: nat) returns (message: seq<byte>)
    requires |cfg.dataIDList| == 16 && |payload| < 0x1_0000 && cfg.InRange(|payload|) && state.counter == i % 16
    modifies state
    ensures message == cfg.Protected((i + 1) % 16, payload) && state.counter == (i + 1) % 16
  {
    var data := Copy(payload);
    SuccessorNumbers(i);
    var ret := state.Protect(cfg, data, |payload|);
    message := data[..];
  }

  /** The messages of a sender. */
  function Messages(cfg: Config, payloads: seq<seq<byte>>): (messages: seq<seq<byte>>)
    requires |cfg.dataIDList| == 16 && forall i :: 0 <= i < |payloads| ==> cfg.InRange(|payloads[i]|)
    ensures |messages| == |payloads|
  {
    seq(|payloads|, k requires 0 <= k < |payloads| => Message(cfg, payloads, k + 1))
  }

  /** Protect payloads one after the other, from initialisation: the first message carries counter 1. */
  method SendAll(cfg: Config, payloads: seq<seq<byte>>) returns (messages: seq<seq<byte>>)
    requires |cfg.dataIDList| == 16
    requires forall i :: 0 <= i < |payloads| ==> |payloads[i]| < 0x1_0000 && cfg.InRange(|payloads[i]|)
    ensures messages == Messages(cfg, payloads)
  {
    var state := new ProtectState.ProtectInit();
    messages := [];
    ghost var all := Messages(cfg, payloads);
    for i := 0 to |payloads|
      invariant fresh(state) && state.counter == i % 16
      invariant messages == all[..i]
    {
      var message := Send(cfg, state, payloads[i], i);
      OneMore(all, i);
      messages := messages + [message];
    }
  }

  class CheckState {
    var counter: nibble
    var status: Status

    constructor CheckInit()
      ensures counter == 0xF && status == Error
    {
      counter := 0xF;
      status := Error;
    }

    function State(): Rx
      reads this
    {
      Rx(counter, status)
    }

    method Check(cfg: Config, data: array?<byte>, length: uint16) returns (ret: Return)
      requires data != null ==> length == data.Length
      requires |cfg.dataIDList| == 16
      modifies this
      ensures var i := if data == null then Absent(length) else Present(data[..]);
              && State() == cfg.Check(old(State()), i)
              && ret == if cfg.Judge(i) == InputError then INPUTERR_WRONG else OK
    {
      var verdict := Verify(cfg, data, length);
      ret := OK;
      match verdict
      case InputError =>
        ret := INPUTERR_WRONG;
      case Missing =>
        status := NoNewData;
      case Bad =>
        status := Error;
      case Good(received) =>
        status := CheckerNibble(cfg.maxDeltaCounter)(counter, received);
        counter := received;
    }
  }

  /** Writing the counter changes only the low half of its byte. */
  lemma CounterWritten(cfg: Config, counter: nibble, d: seq<byte>)
    requires cfg.Off() + 2 <= |d|
    ensures var e, off := cfg.WithCounter(counter, d), cfg.Off();
            && e[..off] == d[..off] && e[off + 2..] == d[off + 2..]
            && e[off + 1] / 16 == d[off + 1] / 16 && e[off + 1] % 16 == counter
  {
  }

  /** Filling in the CRC changes only its byte. */
  lemma CrcWritten(cfg: Config, s: Seal, e: seq<byte>)
    requires s.offset == cfg.Off() && s.p.size == 1 && cfg.Off() + 2 <= |e|
    ensures var m, off := s.Close(e), cfg.Off();
            m[..off] == e[..off] && m[off + 1] == e[off + 1] && m[off + 2..] == e[off + 2..]
  {
    PasteKeeps(e, s.offset, s.Encode(s.Computed(e)));
    var m, off := s.Close(e), cfg.Off();
    assert m[off + 1] == m[off + 1..][0] && e[off + 1] == e[off + 1..][0];
    assert m[off + 2..] == m[off + 1..][1..] && e[off + 2..] == e[off + 1..][1..];
  }

  /** Protecting changes the CRC byte and the counter half of the next byte, and the check reads
      the counter back. */
  lemma RoundTrip(cfg: Config, counter: nibble, d: seq<byte>)
    requires |cfg.dataIDList| == 16 && cfg.InRange(|d|)
    ensures var m, off := cfg.Protected(counter, d), cfg.Off();
            && cfg.Judge(Present(m)) == Good(counter)
            && m[off + 1] / 16 == d[off + 1] / 16
            && m[..off] == d[..off] && m[off + 2..] == d[off + 2..]
  {
    CounterWritten(cfg, counter, d);
    CrcWritten(cfg, cfg.Seal(counter), cfg.WithCounter(counter, d));
    CloseIntact(cfg.Seal(counter), cfg.WithCounter(counter, d));
  }

  /** The bytes of a protected message: the CRC of the rest and of the data ID for the counter, which is
      in the low half of the next byte. */
  lemma Format(cfg: Config, counter: nibble, d: seq<byte>)
    requires |cfg.dataIDList| == 16 && cfg.InRange(|d|)
    ensures var m, off := cfg.Protected(counter, d), cfg.offset / 8;
            && m[..off] == d[..off] && m[off + 2..] == d[off + 2..]
            && m[off + 1] == d[off + 1] / 16 * 16 + counter
            && ByteBits(m[off])
               == Calculate(CRC8H2F(), Cut(m, off, 1) + [cfg.dataIDList[counter]], Ones(8), true)
  {
    var m, off := cfg.Protected(counter, d), cfg.Off();
    RoundTrip(cfg, counter, d);
    IntactMeans(cfg.Seal(counter), m, off + 1);
    OneByteBits(m[off..off + 1]);
  }

  lemma OneByteBits(s: seq<byte>)
    requires |s| == 1
    ensures FromBytes(s) == ByteBits(s[0])
  {
    assert s[1..] == [];
  }

  /** The verdict on a message, in terms of its bytes. */
  lemma Accepted(cfg: Config, d: seq<byte>)
    requires |cfg.dataIDList| == 16 && cfg.InRange(|d|)
    ensures var off, c := cfg.offset / 8, d[cfg.offset / 8 + 1] % 16;
            cfg.Judge(Present(d)) ==
              if ByteBits(d[off]) == Calculate(CRC8H2F(), Cut(d, off, 1) + [cfg.dataIDList[c]], Ones(8), true)
              then Good(c) else Bad
  {
    var off := cfg.Off();
    IntactMeans(cfg.Seal(cfg.CounterOf(d)), d, off + 1);
    OneByteBits(d[off..off + 1]);
  }

  // ---- Changed bytes ----

  /** Changing the byte of the counter from x to b makes up for the change of data ID that goes with
      it: the difference of the bytes, shifted to the end of the data, is that of the IDs. */
  predicate Compensates(cfg: Config, counter: nibble, x: byte, b: byte, shifts: nat)
    requires |cfg.dataIDList| == 16
  {
    var p := CRC8H2F();
    Steps(p.poly, Xor(Load(p, x), Load(p, b)), shifts)
    == Xor(Load(p, cfg.dataIDList[counter]), Load(p, cfg.dataIDList[b % 16]))
  }

  lemma CoveredAt(s: Seal, m: seq<byte>)
    requires s.p.size == 1 && s.prefix == [] && s.offset + 2 <= |m|
    ensures s.Covered(m) == m[..s.offset] + [m[s.offset + 1]] + m[s.offset + 2..] + s.suffix + []
  {
    assert m[s.offset + 1..] == [m[s.offset + 1]] + m[s.offset + 2..];
  }

  /** The other seal, on a message that differs in the byte of the counter. */
  lemma CounterChange(cfg: Config, counter: nibble, m: seq<byte>, b: byte, shifts: nat)
    requires |cfg.dataIDList| == 16 && cfg.Off() + 2 <= |m| && shifts == 8 * (|m| - cfg.Off() - 1)
    requires cfg.Seal(counter).Intact(m)
    ensures cfg.Seal(b % 16).Intact(m[cfg.Off() + 1 := b])
       <==> Compensates(cfg, counter, m[cfg.Off() + 1], b, shifts)
  {
    var off, s, s' := cfg.Off(), cfg.Seal(counter), cfg.Seal(b % 16);
    var m' := m[off + 1 := b];
    assert m'[..off] == m[..off] && m'[off + 2..] == m[off + 2..];
    CoveredAt(s, m);
    CoveredAt(s', m');
    OtherSealExact(s, s', m, m');
    TwoDifferences(s.p, Start(s.p, Ones(s.p.Width()), true), m[..off], m[off + 1], b, m[off + 2..],
      cfg.dataIDList[counter], cfg.dataIDList[b % 16], [], shifts);
  }

  /** A protected message with one byte changed is bad, unless the change is in the counter and makes
      up for the data ID it selects; then the new counter is accepted. */
  lemma ByteChangeExact(cfg: Config, counter: nibble, d: seq<byte>, k: nat, b: byte, shifts: nat)
    requires |cfg.dataIDList| == 16 && cfg.InRange(|d|) && k < |d| && shifts == 8 * (|d| - cfg.Off() - 1)
    requires b != cfg.Protected(counter, d)[k]
    ensures var m := cfg.Protected(counter, d);
            cfg.Judge(Present(m[k := b]))
            == if k == cfg.Off() + 1 && Compensates(cfg, counter, m[k], b, shifts) then Good(b % 16) else Bad
    ensures k == cfg.Off() + 1 && b % 16 == counter ==> cfg.Judge(Present(cfg.Protected(counter, d)[k := b])) == Bad
  {
    RoundTrip(cfg, counter, d);
    ByteChangeDetected(cfg.Seal(counter), cfg.Protected(counter, d), k, b);
    if k == cfg.Off() + 1 {
      CounterChange(cfg, counter, cfg.Protected(counter, d), b, shifts);
    }
  }

  /** A message of two bytes whose counter can change from 0 to 1 unnoticed. */
  lemma UnnoticedChange(cfg: Config, d: seq<byte>)
    requires |cfg.dataIDList| == 16 && cfg.dataIDList[0] == 0 && cfg.dataIDList[1] == 0x2F
    requires cfg.InRange(|d|) && |d| == 2 && d[1] == 0
    ensures cfg.Judge(Present(cfg.Protected(0, d)[1 := 1])) == Good(1)
  {
    var m, shifts := cfg.Protected(0, d), 8;
    RoundTrip(cfg, 0, d);
    assert m[1] == 0;
    ShiftedOne(CRC8H2F(), 0x2F, shifts);
    CounterChange(cfg, 0, m, 1, shifts);
  }

  /** A receiver that expects another data ID for the counter rejects the message. */
  lemma Masquerade(cfg: Config, other: seq<byte>, counter: nibble, d: seq<byte>)
    requires |cfg.dataIDList| == 16 && cfg.InRange(|d|)
    requires |other| == 16 && other[counter] != cfg.dataIDList[counter]
    ensures cfg.(dataIDList := other).Judge(Present(cfg.Protected(counter, d))) == Bad
  {
    RoundTrip(cfg, counter, d);
    OtherSuffixDetected(cfg.Seal(counter), [other[counter]], cfg.Protected(counter, d));
  }

  // ---- Runs of checks ----

  lemma CheckLast(cfg: Config, rx: Rx, inputs: seq<Input>, last: Input)
    requires |cfg.dataIDList| == 16
    ensures cfg.CheckAll(rx, inputs + [last]) == cfg.Check(cfg.CheckAll(rx, inputs), last)
  {
    assert (inputs + [last])[..|inputs + [last]| - 1] == inputs;
  }

  /** What a check does without a good message: there is an input error, and nothing changes, exactly if
      data is missing or has a wrong length; otherwise the report is that there is no new data, or an
      error, and the counter is kept. */
  lemma Unheard(cfg: Config, rx: Rx, i: Input)
    requires |cfg.dataIDList| == 16
    ensures cfg.Judge(i) == InputError <==>
      || (i.Absent? && i.length > 0)
      || (i.Present? && (i.data == [] || |i.data| != cfg.dataLength / 8 || |i.data| < cfg.offset / 8 + 2))
    ensures cfg.Judge(i) == InputError ==> cfg.Check(rx, i) == rx
    ensures cfg.Judge(i) != InputError && !cfg.Judge(i).Good? ==>
      cfg.Check(rx, i) == Rx(rx.counter, if i.Absent? then NoNewData else Error)
  {
  }

  /** Deleting from a run all cycles that ended in NONEWDATA, in ERROR or in an input error changes
      no other status and not the counter. */
  lemma {:induction false} DeletionUnnoticed(cfg: Config, rx: Rx, inputs: seq<Input>)
    requires |cfg.dataIDList| == 16
    ensures cfg.CheckAll(rx, cfg.Kept(rx, inputs)).counter == cfg.CheckAll(rx, inputs).counter
    ensures inputs != [] && Ended(cfg.Judge(inputs[|inputs| - 1]), cfg.CheckAll(rx, inputs).status) ==>
      cfg.CheckAll(rx, cfg.Kept(rx, inputs)) == cfg.CheckAll(rx, inputs)
  {
    if inputs != [] {
      var init, last := inputs[..|inputs| - 1], inputs[|inputs| - 1];
      DeletionUnnoticed(cfg, rx, init);
      CheckersReport(16, cfg.maxDeltaCounter);
      EndedMeansGood(CheckerNibble(cfg.maxDeltaCounter), cfg.CheckAll(rx, init), cfg.Judge(last));
      CheckLast(cfg, rx, cfg.Kept(rx, init), last);
    }
  }

  /** Message number k, counting from one, of a sender that started at counter 0. */
  function Message(cfg: Config, payloads: seq<seq<byte>>, k: nat): seq<byte>
    requires |cfg.dataIDList| == 16 && 1 <= k <= |payloads| && cfg.InRange(|payloads[k - 1]|)
  {
    cfg.Protected(k % 16, payloads[k - 1])
  }

  ghost predicate Transmits(cfg: Config, payloads: seq<seq<byte>>, run: seq<Cycle>, inputs: seq<Input>)
    requires |cfg.dataIDList| == 16
  {
    && |run| == |inputs|
    && (forall i :: 0 <= i < |payloads| ==> cfg.InRange(|payloads[i]|))
    && (forall k :: 0 <= k < |run| ==>
          match run[k]
          case Delivered(i) => 1 <= i <= |payloads| && inputs[k] == Present(Message(cfg, payloads, i))
          case Nothing => !cfg.Judge(inputs[k]).Good?)
  }

  lemma MessageGood(cfg: Config, payloads: seq<seq<byte>>, k: nat)
    requires |cfg.dataIDList| == 16 && 1 <= k <= |payloads| && cfg.InRange(|payloads[k - 1]|)
    ensures cfg.Judge(Present(Message(cfg, payloads, k))) == Good(k % 16)
  {
    RoundTrip(cfg, k % 16, payloads[k - 1]);
  }

  lemma TransmitsJudged(cfg: Config, payloads: seq<seq<byte>>, run: seq<Cycle>, inputs: seq<Input>)
    requires |cfg.dataIDList| == 16 && Transmits(cfg, payloads, run, inputs)
    ensures Judged(run, cfg.Judgements(inputs), 16)
  {
    forall k | 0 <= k < |run| && run[k].Delivered?
      ensures cfg.Judgements(inputs)[k] == Good(run[k].index % 16)
    {
      MessageGood(cfg, payloads, run[k].index);
    }
  }

  /** Delivered messages get the status their distance deserves, for any limit. The sender counts
      from one and the receiver from minus one, so that the very first message seems to follow
      a lost one. */
  lemma Channel(cfg: Config, payloads: seq<seq<byte>>, run: seq<Cycle>, inputs: seq<Input>)
    requires |cfg.dataIDList| == 16
    requires Transmits(cfg, payloads, run, inputs) && InOrder(run, 16)
    requires run != [] && run[|run| - 1].Delivered?
    ensures ReceiveAll(CheckerNibble(cfg.maxDeltaCounter), Rx(15, Error), cfg.Judgements(inputs)).status
         == Deserved(run[|run| - 1].index - LastIndex(run[..|run| - 1]), cfg.maxDeltaCounter)
  {
    TransmitsJudged(cfg, payloads, run, inputs);
    CheckerNibbleModular(cfg.maxDeltaCounter);
    DeliveredGetsDeserved(
      CheckerNibble(cfg.maxDeltaCounter), Rx(15, Error), run, cfg.Judgements(inputs), 16, cfg.maxDeltaCounter);
  }
}
