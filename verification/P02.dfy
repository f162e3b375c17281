/** E2E profile 2: an 8-bit CRC in the first byte, a 4-bit counter in the second, and a data ID that
depends on the counter. Its messages are those of profile 22 at offset 0. */
module P02 {
  import opened Bits
  import Crc
  import opened Wire
  import opened Receiver
  import opened Tolerance
  import P22

  datatype Config = Config(
    dataLength: uint16, dataIDList: seq<byte>,
    maxDeltaCounterInit: uint8, maxNoNewOrRepeatedData: uint8, syncCounterInit: uint8)
  {
    function Form(): P22.Config
    {
      P22.Config(dataLength, dataIDList, 0, 0)
    }

    /** What callers owe: a data ID for every counter, and data of the configured length. */
    predicate Fits(length: nat)
    {
      |dataIDList| == 16 && length == dataLength / 8 && length >= 2
    }

    function Rules(): Rules
    {
      Tolerance.Rules(15, maxDeltaCounterInit, maxNoNewOrRepeatedData, syncCounterInit, false)
    }

    function Protected(counter: P22.nibble, d: seq<byte>): (m: seq<byte>)
      requires Fits(|d|)
      ensures |m| == |d|
    {
      Form().Protected(counter, d)
    }

    /** What a check finds. */
    function Judge(newDataAvailable: bool, d: seq<byte>): (e: Event)
      requires Fits(|d|)
      ensures Possible(Rules(), e)
    {
      if !newDataAvailable then Silence
      else
        var counter := Form().CounterOf(d);
        if Form().Seal(counter).Intact(d) then Heard(counter) else BadCrc
    }
  }

  class ProtectState {
    var counter: uint8

    constructor ProtectInit()
      ensures counter == 0
    {
      counter := 0;
    }

    method Protect(cfg: Config, data: array?<byte>) returns (ret: Return)
      requires data != null ==> cfg.Fits(data.Length)
      modifies this
      modifies if data == null then {} else {data}
      ensures ret == if data == null then INPUTERR_NULL else if old(counter) > 15 then INPUTERR_WRONG else OK
      ensures ret == OK ==>
        && counter == (if old(counter) == 15 then 0 else old(counter) + 1)
        && data[..] == cfg.Protected(counter, old(data[..]))
      ensures ret != OK ==> counter == old(counter) && (data != null ==> data[..] == old(data[..]))
    {
      if data == null {
        return INPUTERR_NULL;
      }
      if counter > 15 {
        return INPUTERR_WRONG;
      }
      if counter < 15 {
        counter := counter + 1;
      } else {
        counter := 0;
      }
      data[1] := data[1] / 16 * 16 + counter;
      assert data[..] == cfg.Form().WithCounter(counter, old(data[..]));
      var crc := P22.ComputeCrc(cfg.Form(), data[..], counter);
      Store(data, 0, cfg.Form().Seal(counter).Encode(crc));
      return OK;
    }
  }

  lemma CounterNumbers(i: nat)
    ensures (i + 1) % 16 == if i % 16 == 15 then 0 else i % 16 + 1
  {
  }

  /** Protect payload number i. */
  method Send(cfg: Config, state: ProtectState, payload: seq<byte>, ghost i: nat) returns (message: seq<byte>)
    requires cfg.Fits(|payload|) && state.counter == i % 16
    modifies state
    ensures message == cfg.Protected((i + 1) % 16, payload) && state.counter == (i + 1) % 16
  {
    var data := Copy(payload);
    CounterNumbers(i);
    var ret := state.Protect(cfg, data);
    message := data[..];
  }

  /** The messages of a sender. */
  function Messages(cfg: Config, payloads: seq<seq<byte>>): (messages: seq<seq<byte>>)
    requires forall i :: 0 <= i < |payloads| ==> cfg.Fits(|payloads[i]|)
    ensures |messages| == |payloads|
  {
    seq(|payloads|, k requires 0 <= k < |payloads| => cfg.Protected((k + 1) % 16, payloads[k]))
  }

  /** Protect payloads one after the other, from initialisation: the first message carries counter 1, in
      the channel results as in the code. */
  method SendAll(cfg: Config, payloads: seq<seq<byte>>) returns (messages: seq<seq<byte>>)
    requires forall i :: 0 <= i < |payloads| ==> cfg.Fits(|payloads[i]|)
    ensures messages == Messages(cfg, payloads)
  {
    var state := new ProtectState.ProtectInit();
    messages := [];
    ghost var all := Messages(cfg, payloads);
    for i := 0 to |payloads|
      invariant fresh(state) && state.counter == i % 16
      invariant messages == all[..i]
    {
      var message := Send(cfg, state, payloads[i], i);
      OneMore(all, i);
      messages := messages + [message];
    }
  }

  method Examine(cfg: Config, d: seq<byte>) returns (e: Event)
    requires cfg.Fits(|d|)
    ensures e == cfg.Judge(true, d)
  {
    var verdict := P22.Examine(cfg.Form(), d);
    if verdict.Good? {
      e := Heard(verdict.counter);
    } else {
      e := BadCrc;
    }
  }

  /** One check of the caller's data. */
  method Check(cfg: Config, state: CheckState, data: array?<byte>) returns (ret: Return)
    requires data != null ==> cfg.Fits(data.Length)
    modifies state
    ensures ret == if data == null then INPUTERR_NULL
                   else if && old(state.lastValidCounter) <= 15 && old(state.maxDeltaCounter) <= 15
                           && old(state.syncCounter) <= cfg.syncCounterInit && old(state.noNewOrRepeated) <= 15
                   then OK else INPUTERR_WRONG
    ensures ret != OK ==> state.Value() == old(state.Value())
    ensures ret == OK ==>
      state.Value() == Step(cfg.Rules(), old(state.Value()), cfg.Judge(old(state.newDataAvailable), data[..]))
    ensures state.newDataAvailable == old(state.newDataAvailable)
  {
    if data == null {
      return INPUTERR_NULL;
    }
    if state.lastValidCounter > 15 || state.maxDeltaCounter > 15
       || state.syncCounter > cfg.syncCounterInit || state.noNewOrRepeated > 15
    {
      return INPUTERR_WRONG;
    }
    var event := Silence;
    if state.newDataAvailable {
      event := Examine(cfg, data[..]);
    }
    state.Take(cfg.Rules(), event);
    return OK;
  }

  /** The check reads back the counter of a protected message, and only the CRC and the counter
      were written. */
  lemma RoundTrip(cfg: Config, counter: P22.nibble, d: seq<byte>)
    requires cfg.Fits(|d|)
    ensures var m := cfg.Protected(counter, d);
            && cfg.Judge(true, m) == Heard(counter)
            && m[1] / 16 == d[1] / 16 && m[2..] == d[2..]
  {
    P22.RoundTrip(cfg.Form(), counter, d);
  }

  /** The bytes of a protected message: the CRC of the rest and of the data ID for the counter, which is
      in the low half of the second byte. */
  lemma Format(cfg: Config, counter: P22.nibble, d: seq<byte>)
    requires cfg.Fits(|d|)
    ensures var m := cfg.Protected(counter, d);
            && m[1] == d[1] / 16 * 16 + counter && m[2..] == d[2..]
            && ByteBits(m[0]) == Crc.Calculate(Crc.CRC8H2F(), m[1..] + [cfg.dataIDList[counter]], Ones(8), true)
  {
    P22.Format(cfg.Form(), counter, d);
    var m := cfg.Protected(counter, d);
    assert Cut(m, 0, 1) == m[1..];
  }

  /** What a check finds in a message, in terms of its bytes. */
  lemma Accepted(cfg: Config, d: seq<byte>)
    requires cfg.Fits(|d|)
    ensures var c := d[1] % 16;
            cfg.Judge(true, d) ==
              if ByteBits(d[0]) == Crc.Calculate(Crc.CRC8H2F(), d[1..] + [cfg.dataIDList[c]], Ones(8), true)
              then Heard(c) else BadCrc
  {
    P22.Accepted(cfg.Form(), d);
    assert Cut(d, 0, 1) == d[1..];
  }

  // ---- Over a lossy channel ----

  function Events(cfg: Config, inputs: seq<Supply>): (es: seq<Event>)
    requires forall k :: 0 <= k < |inputs| ==> cfg.Fits(|inputs[k].data|)
    ensures |es| == |inputs|
    ensures forall k :: 0 <= k < |es| ==> Possible(cfg.Rules(), es[k])
  {
    seq(|inputs|, k requires 0 <= k < |inputs| => cfg.Judge(inputs[k].newDataAvailable, inputs[k].data))
  }

  /** In each cycle the stated message arrives, counting from one as the sender does, or nothing with
      a correct CRC. */
  ghost predicate Transmits(cfg: Config, payloads: seq<seq<byte>>, run: seq<Cycle>, inputs: seq<Supply>)
    requires forall k :: 0 <= k < |inputs| ==> cfg.Fits(|inputs[k].data|)
  {
    && |run| == |inputs|
    && (forall i :: 0 <= i < |payloads| ==> cfg.Fits(|payloads[i]|))
    && (forall k :: 0 <= k < |run| ==>
          match run[k]
          case Delivered(i) =>
            1 <= i <= |payloads| && inputs[k] == Supply(true, cfg.Protected(i % 16, payloads[i - 1]))
          case Nothing => !Events(cfg, inputs)[k].Heard?)
  }

  lemma TransmitsConveys(cfg: Config, payloads: seq<seq<byte>>, run: seq<Cycle>, inputs: seq<Supply>)
    requires forall k :: 0 <= k < |inputs| ==> cfg.Fits(|inputs[k].data|)
    requires Transmits(cfg, payloads, run, inputs)
    ensures Conveys(cfg.Rules(), run, Events(cfg, inputs))
  {
    forall k | 0 <= k < |run| && run[k].Delivered?
      ensures Events(cfg, inputs)[k] == Heard(run[k].index % 16)
    {
      RoundTrip(cfg, run[k].index % 16, payloads[run[k].index - 1]);
    }
  }

  /** With SyncCounterInit > 0 or MaxDeltaCounterInit >= 14, every message delivered in a run from
      initialisation is reported as its distance deserves, with exactly the lost messages counted. */
  lemma Channel(cfg: Config, payloads: seq<seq<byte>>, run: seq<Cycle>, inputs: seq<Supply>)
    requires cfg.maxDeltaCounterInit <= 15 && (cfg.syncCounterInit > 0 || cfg.maxDeltaCounterInit >= 14)
    requires forall k :: 0 <= k < |inputs| ==> cfg.Fits(|inputs[k].data|)
    requires Transmits(cfg, payloads, run, inputs) && Ordered(cfg.Rules(), run)
    requires run != [] && run[|run| - 1].Delivered?
    ensures Arrival(cfg.Rules(), run, Events(cfg, inputs)) && Deservedly(cfg.Rules(), run, Events(cfg, inputs))
  {
    TransmitsConveys(cfg, payloads, run, inputs);
    ChannelReport(cfg.Rules(), run, Events(cfg, inputs));
  }

  /** What a check reports about a counter of its sequence, d after the last one. */
  lemma SequenceExact(cfg: Config, t: Track, c: uint8)
    requires t.lastValidCounter <= 15 && t.maxDeltaCounter <= 15 && t.syncCounter <= cfg.syncCounterInit
    requires t.noNewOrRepeated <= 15 && !t.waitForFirstData && c <= 15
    ensures var d := (c - t.lastValidCounter) % 16;
            var tolerance := if t.maxDeltaCounter < 15 then t.maxDeltaCounter + 1 else 15;
            var tired := t.noNewOrRepeated > cfg.maxNoNewOrRepeatedData;
            var u := Step(cfg.Rules(), t, Heard(c));
            if d == 0 then u.status == Again
            else if d > tolerance then
              && u.status == (if cfg.syncCounterInit > 0 then Wrong else t.status)
              && u.syncCounter == cfg.syncCounterInit
              && u.lastValidCounter == (if cfg.syncCounterInit > 0 then c else t.lastValidCounter)
            else
              && u.status == (if tired || t.syncCounter > 0 then Sync else if d == 1 then Ok else SomeLost)
              && u.syncCounter == (if tired then cfg.syncCounterInit
                                   else if t.syncCounter > 0 then t.syncCounter - 1 else 0)
              && u.lostData == d - 1 && u.lastValidCounter == c && u.maxDeltaCounter == cfg.maxDeltaCounterInit
  {
    ModUnique(c - t.lastValidCounter, if c >= t.lastValidCounter then 0 else -1,
      Jump(15, t.lastValidCounter, c), 16);
  }

  // ---- Changed bytes and IDs ----

  /** One byte changed is a wrong CRC, unless the change is in the counter and makes up for the data
      ID it selects; then the new counter is accepted. */
  lemma ByteChangeExact(cfg: Config, counter: P22.nibble, d: seq<byte>, k: nat, b: byte, shifts: nat)
    requires cfg.Fits(|d|) && k < |d| && shifts == 8 * (|d| - 1)
    requires b != cfg.Protected(counter, d)[k]
    ensures var m := cfg.Protected(counter, d);
            cfg.Judge(true, m[k := b])
            == if k == 1 && P22.Compensates(cfg.Form(), counter, m[k], b, shifts) then Heard(b % 16) else BadCrc
  {
    P22.ByteChangeExact(cfg.Form(), counter, d, k, b, shifts);
  }

  /** So damage is reported as a wrong CRC, and the receiver goes on from its last counter. */
  lemma DamageReported(cfg: Config, t: Track, counter: P22.nibble, d: seq<byte>, k: nat, b: byte, shifts: nat)
    requires cfg.Fits(|d|) && k < |d| && b != cfg.Protected(counter, d)[k]
    requires Guard(cfg.Rules(), t) && shifts == 8 * (|d| - 1)
    ensures var m := cfg.Protected(counter, d);
            var u := Step(cfg.Rules(), t, cfg.Judge(true, m[k := b]));
            !(k == 1 && P22.Compensates(cfg.Form(), counter, m[k], b, shifts)) ==>
              && u.status == WrongCrc && u.lastValidCounter == t.lastValidCounter
              && u.syncCounter == t.syncCounter && u.noNewOrRepeated == t.noNewOrRepeated
  {
    ByteChangeExact(cfg, counter, d, k, b, shifts);
  }

  /** A message of two bytes whose counter can change from 0 to 1 unnoticed. */
  lemma UnnoticedChange(cfg: Config, d: seq<byte>)
    requires cfg.Fits(|d|) && cfg.dataIDList[0] == 0 && cfg.dataIDList[1] == 0x2F && |d| == 2 && d[1] == 0
    ensures cfg.Judge(true, cfg.Protected(0, d)[1 := 1]) == Heard(1)
  {
    P22.UnnoticedChange(cfg.Form(), d);
  }

  /** A receiver that expects another data ID for the counter rejects the message. */
  lemma Masquerade(cfg: Config, other: seq<byte>, counter: P22.nibble, d: seq<byte>)
    requires cfg.Fits(|d|) && |other| == 16 && other[counter] != cfg.dataIDList[counter]
    ensures cfg.(dataIDList := other).Judge(true, cfg.Protected(counter, d)) == BadCrc
  {
    P22.Masquerade(cfg.Form(), other, counter, d);
  }

  /** With SyncCounterInit = 0 a jump out of tolerance is not reported: in this run the status stays
      OK, as the previous check left it. */
  lemma UnreportedJump(cfg: Config)
    requires cfg.syncCounterInit == 0 && cfg.maxDeltaCounterInit == 0
    ensures Run(cfg.Rules(), INITIAL, [Heard(15), Heard(0), Heard(7)]).status == Ok
  {
    var a, b, c := [Heard(15)], [Heard(15), Heard(0)], [Heard(15), Heard(0), Heard(7)];
    assert a[..0] == [] && b[..1] == a && c[..2] == b;
    assert Run(cfg.Rules(), INITIAL, a) == Track(15, 0, false, 0, Initial, 0, 0);
    assert Run(cfg.Rules(), INITIAL, b) == Track(0, 0, false, 0, Ok, 0, 0);
  }

  /** A check of a message with a correct CRC reports a wrong sequence exactly when the jump is out
      of tolerance and synchronisation is configured. */
  lemma ReportedExactly(cfg: Config, t: Track, c: uint8)
    requires Guard(cfg.Rules(), t) && !t.waitForFirstData && t.status != Wrong && c <= 15
    ensures var d := Jump(15, t.lastValidCounter, c);
            var tolerance := if t.maxDeltaCounter < 15 then t.maxDeltaCounter + 1 else 15;
            Step(cfg.Rules(), t, Heard(c)).status == Wrong <==> d > tolerance && cfg.syncCounterInit > 0
  {
  }
}
