/** What the method profiles 4m and 7m add to profiles 4 and 7: four bytes behind the header that
pack a 28-bit source ID, a message type and a message result, covered by the CRC. */
module Origins {
  import opened Bits
  import opened Wire
  import opened Sealing
  import opened Receiver
  import opened Profile
  import opened Endpoint

  datatype Origin = Origin(sourceID: uint32, messageType: uint8, messageResult: uint8)
  {
    predicate Ok()
    {
      sourceID <= 0xFFF_FFFF && messageType <= 1 && messageResult <= 1
    }
  }

  /** The source ID's top byte gets the type in its two high bits and the result below. */
  function TopByte(b: byte, messageType: uint8, messageResult: uint8): byte
  {
    var typed := b % 0x40 + (messageType % 4) * 0x40;
    typed / 0x40 * 0x40 + typed % 0x10 + (messageResult % 4) * 0x10
  }

  function Pack(o: Origin): (s: seq<byte>)
    ensures |s| == 4
  {
    var id := U32(o.sourceID);
    [TopByte(id[0], o.messageType, o.messageResult)] + id[1..]
  }

  function SourceOf(s: seq<byte>): uint32
    requires |s| == 4
  {
    Number(s) % 0x1000_0000
  }

  function TypeOf(s: seq<byte>): uint8
    requires |s| == 4
  {
    s[0] / 0x40
  }

  function ResultOf(s: seq<byte>): uint8
    requires |s| == 4
  {
    s[0] / 0x10 % 4
  }

  lemma Number4(s: seq<byte>)
    requires |s| == 4
    ensures Number(s) == (s[0] as int) * 0x100_0000 + (s[1] as int) * 0x1_0000 + (s[2] as int) * 0x100 + s[3]
  {
    var t, u := s[..3], s[..2];
    assert t[..2] == u && u[..1] == [s[0]];
    OneByteNumber([s[0]]);
    assert Number(u) == 0x100 * Number([s[0]]) + s[1];
    assert Number(t) == 0x100 * Number(u) + s[2];
  }

  lemma TopByteParts(b: byte, t: uint8, r: uint8)
    requires b < 0x10 && t <= 1 && r <= 1
    ensures var c := TopByte(b, t, r); c == b + 0x40 * t + 0x10 * r && c / 0x40 == t && c / 0x10 % 4 == r
  {
    assert t == 0 || t == 1;
    assert r == 0 || r == 1;
    var typed := b + 0x40 * t;
    assert b % 0x40 == b && typed / 0x40 == t && typed % 0x10 == b;
    var c := typed + 0x10 * r;
    assert c / 0x40 == t && c / 0x10 == 4 * t + r;
  }

  lemma TopDigit(id: seq<byte>, n: uint32)
    requires |id| == 4 && Number(id) == n <= 0xFFF_FFFF
    ensures id[0] < 0x10
  {
    Number4(id);
  }

  lemma Repacked(id: seq<byte>, s: seq<byte>, t: uint8, r: uint8)
    requires |id| == 4 && |s| == 4 && s[1..] == id[1..] && s[0] == id[0] + 0x40 * t + 0x10 * r
    ensures Number(s) == Number(id) + (4 * t + r) * 0x1000_0000
  {
    Number4(id);
    Number4(s);
    assert s[1] == s[1..][0] && s[2] == s[1..][1] && s[3] == s[1..][2];
  }

  /** Packing loses nothing. */
  lemma PackRoundTrip(o: Origin)
    requires o.Ok()
    ensures var s := Pack(o); SourceOf(s) == o.sourceID && TypeOf(s) == o.messageType && ResultOf(s) == o.messageResult
  {
    var id, s := U32(o.sourceID), Pack(o);
    IdRead(o.sourceID);
    TopDigit(id, o.sourceID);
    TopByteParts(id[0], o.messageType, o.messageResult);
    assert s[1..] == id[1..];
    Repacked(id, s, o.messageType, o.messageResult);
    ModUnique(Number(s), 4 * o.messageType + o.messageResult, o.sourceID, 0x1000_0000);
  }

  /** The packed bytes: the type and the result are in the top digit of the source ID. */
  lemma PackBytes(o: Origin)
    requires o.Ok()
    ensures var n := o.sourceID;
            Pack(o) == [n / 0x100_0000 + 0x40 * o.messageType + 0x10 * o.messageResult,
                        n / 0x1_0000 % 0x100, n / 0x100 % 0x100, n % 0x100]
  {
    TopByteParts(o.sourceID / 0x100_0000, o.messageType, o.messageResult);
  }

  lemma IdRead(n: uint32)
    ensures Number(U32(n)) == n
  {
    Pow256Values();
    NumberOfBigEndian(n, 4);
  }

  // ---- Messages with an origin ----

  /** A scheme and the place of the origin in its messages. */
  datatype Envelope = Envelope(scheme: Scheme, at: nat)
  {
    /** The origin lies behind the header. */
    ghost predicate Fits(length: nat)
    {
      && scheme.layout.FitsLength(length) && at + 4 <= length
      && scheme.layout.at + scheme.layout.Size() <= at
      && scheme.layout.seal.offset + scheme.layout.seal.p.size <= at
    }

    ghost predicate Ready(i: Input)
    {
      i.Present? && scheme.InRange(|i.data|) ==> Fits(|i.data|)
    }

    function OriginBytes(d: seq<byte>): (s: seq<byte>)
      requires Fits(|d|)
      ensures |s| == 4
    {
      d[at..at + 4]
    }

    function Protected(counter: nat, o: Origin, d: seq<byte>): (m: seq<byte>)
      requires Fits(|d|)
      ensures |m| == |d|
    {
      scheme.layout.Protected(counter, Paste(d, at, Pack(o)))
    }

    /** The source's check: everything about the origin is as expected. */
    function SourceJudge(expected: Origin, i: Input): Verdict
      requires Ready(i)
    {
      match i
      case Absent(length) => if length == 0 then Missing else InputError
      case Present(d) =>
        if |d| == 0 || !scheme.InRange(|d|) || !expected.Ok() then InputError
        else if scheme.layout.Accepts(d) && Agrees(expected, d) && SourceOf(OriginBytes(d)) == expected.sourceID then
          Good(scheme.layout.CounterOf(d))
        else Bad
    }

    /** The sink's check accepts any source. */
    function SinkJudge(messageType: uint8, messageResult: uint8, i: Input): Verdict
      requires Ready(i)
    {
      match i
      case Absent(length) => if length == 0 then Missing else InputError
      case Present(d) =>
        if |d| == 0 || !scheme.InRange(|d|) || messageType > 1 || messageResult > 1 then InputError
        else if scheme.layout.Accepts(d) && Agrees(Origin(0, messageType, messageResult), d) then
          Good(scheme.layout.CounterOf(d))
        else Bad
    }

    predicate Agrees(expected: Origin, d: seq<byte>)
      requires Fits(|d|)
    {
      && TypeOf(OriginBytes(d)) == expected.messageType
      && ResultOf(OriginBytes(d)) == expected.messageResult
    }
  }

  /** What agrees with d outside of lo..at, but for a field f at at..hi, agrees with it outside of lo..hi. */
  lemma KeptOutside(m: seq<byte>, d: seq<byte>, lo: nat, f: seq<byte>, at: nat, hi: nat)
    requires lo <= at && hi == at + |f| <= |d| == |m|
    requires m[..lo] == Paste(d, at, f)[..lo] && m[at..] == Paste(d, at, f)[at..]
    ensures m[..lo] == d[..lo] && m[hi..] == d[hi..]
  {
    var p := Paste(d, at, f);
    assert p[..lo] == d[..lo] && p[hi..] == d[hi..];
    assert m[hi..] == m[at..][hi - at..] && p[hi..] == p[at..][hi - at..];
  }

  lemma PasteCommute(d: seq<byte>, i: nat, f: seq<byte>, j: nat, g: seq<byte>)
    requires i + |f| <= j && j + |g| <= |d|
    ensures Paste(Paste(d, i, f), j, g) == Paste(Paste(d, j, g), i, f)
  {
    var x, y := Paste(d, i, f), Paste(d, j, g);
    assert d == d[..i] + d[i..i + |f|] + d[i + |f|..j] + d[j..];
    assert x == d[..i] + f + d[i + |f|..j] + d[j..];
    assert x[..j] == d[..i] + f + d[i + |f|..j];
    assert x[j + |g|..] == d[j + |g|..];
    assert y[..i] == d[..i];
    assert y[i + |f|..] == d[i + |f|..j] + g + d[j + |g|..];
  }

  /** Writing the fields and then the origin is protecting the payload that holds the origin. */
  lemma ProtectedInOrder(e: Envelope, counter: nat, o: Origin, d: seq<byte>)
    requires e.Fits(|d|)
    ensures e.scheme.layout.seal.Close(Paste(WithFields(e.scheme.layout, counter, d), e.at, Pack(o)))
         == e.Protected(counter, o, d)
  {
    var l := e.scheme.layout;
    FieldByField(l, counter, d);
    PasteCommute(d, l.at, l.Fields(counter, |d|), e.at, Pack(o));
  }

  /** A protected message carries its origin and its counter. */
  lemma OriginKept(e: Envelope, counter: nat, o: Origin, d: seq<byte>)
    requires e.Fits(|d|) && counter < e.scheme.Period()
    ensures var m := e.Protected(counter, o, d);
            e.OriginBytes(m) == Pack(o) && e.scheme.layout.Judge(m) == Good(counter)
  {
    var p := Paste(d, e.at, Pack(o));
    PasteKeeps(d, e.at, Pack(o));
    ProtectedElsewhere(e.scheme.layout, counter, p, e.at, e.at + 4);
    RoundTrip(e.scheme.layout, counter, p);
  }

  /** Nothing changes in front of the header, which starts at lo, and behind the origin, which ends at hi. */
  lemma EnvelopeKeeps(e: Envelope, counter: nat, o: Origin, d: seq<byte>, lo: nat, hi: nat)
    requires e.Fits(|d|) && lo <= e.scheme.layout.at && lo <= e.scheme.layout.seal.offset && hi == e.at + 4
    ensures var m := e.Protected(counter, o, d); m[..lo] == d[..lo] && m[hi..] == d[hi..]
  {
    ProtectedOutside(e.scheme.layout, counter, Paste(d, e.at, Pack(o)), lo, e.at);
    KeptOutside(e.Protected(counter, o, d), d, lo, Pack(o), e.at, hi);
  }

  /** On a protected message the source's check reports an error if and only if the expected source
      ID, type or result differs from the one sent. */
  lemma SourceCheckExact(e: Envelope, counter: nat, o: Origin, d: seq<byte>, expected: Origin)
    requires 0 < |d| && e.scheme.InRange(|d|) && e.Fits(|d|) && counter < e.scheme.Period()
    requires o.Ok() && expected.Ok()
    ensures e.SourceJudge(expected, Present(e.Protected(counter, o, d))) == if expected == o then Good(counter) else Bad
  {
    OriginKept(e, counter, o, d);
    PackRoundTrip(o);
  }

  /** On a protected message the sink reads exactly the source ID sent, and reports an error if and
      only if type or result differ. */
  lemma SinkCheckExact(e: Envelope, counter: nat, o: Origin, d: seq<byte>, messageType: uint8, messageResult: uint8)
    requires 0 < |d| && e.scheme.InRange(|d|) && e.Fits(|d|) && counter < e.scheme.Period()
    requires o.Ok() && messageType <= 1 && messageResult <= 1
    ensures var m := e.Protected(counter, o, d);
            && SourceOf(e.OriginBytes(m)) == o.sourceID
            && e.SinkJudge(messageType, messageResult, Present(m))
               == (if o == Origin(o.sourceID, messageType, messageResult) then Good(counter) else Bad)
  {
    OriginKept(e, counter, o, d);
    PackRoundTrip(o);
  }

  /** What both checks do without a good message: there is an input error, and nothing changes, exactly
      if data is missing, or has a wrong length, or something impossible is expected; otherwise the
      report is that there is no new data, or an error, and the counter is kept. */
  lemma Unheard(e: Envelope, sink: bool, rx: Rx, expected: Origin, i: Input)
    requires e.Ready(i)
    ensures var v := if sink then e.SinkJudge(expected.messageType, expected.messageResult, i)
                     else e.SourceJudge(expected, i);
            var possible := expected.messageType <= 1 && expected.messageResult <= 1
                            && (sink || expected.sourceID <= 0xFFF_FFFF);
            var rx' := Receive(e.scheme.classify, rx, v);
            && (v == InputError <==>
                  || (i.Absent? && i.length > 0)
                  || (i.Present? && !possible)
                  || (i.Present? && (i.data == [] || !(e.scheme.minLength <= |i.data| <= e.scheme.maxLength))))
            && (v == InputError ==> rx' == rx)
            && (v != InputError && !v.Good? ==> rx' == Rx(rx.counter, if i.Absent? then NoNewData else Error))
  {
  }

  /** Changing one byte of a protected message makes both checks report an error. */
  lemma OriginByteChangeRejected(e: Envelope, counter: nat, o: Origin, d: seq<byte>, k: nat, b: byte, expected: Origin)
    requires 0 < |d| && e.scheme.InRange(|d|) && e.Fits(|d|) && expected.Ok()
    requires k < |d| && b != e.Protected(counter, o, d)[k]
    ensures var m := Present(e.Protected(counter, o, d)[k := b]);
            && e.SourceJudge(expected, m) == Bad
            && e.SinkJudge(expected.messageType, expected.messageResult, m) == Bad
  {
    ByteChangeRejected(e.scheme.layout, counter, Paste(d, e.at, Pack(o)), k, b);
  }

  // ---- Over a lossy channel ----

  /** What the source's check, or the sink's, finds in each cycle. */
  function Verdicts(e: Envelope, sink: bool, expected: seq<Origin>, inputs: seq<Input>): (vs: seq<Verdict>)
    requires |expected| == |inputs| && forall k :: 0 <= k < |inputs| ==> e.Ready(inputs[k])
    ensures |vs| == |inputs|
  {
    seq(|inputs|, k requires 0 <= k < |inputs| =>
      if sink then e.SinkJudge(expected[k].messageType, expected[k].messageResult, inputs[k])
      else e.SourceJudge(expected[k], inputs[k]))
  }

  /** In each cycle the stated message of a sender arrives and its origin is expected, or nothing that is
      good. */
  ghost predicate Transmits(e: Envelope, sink: bool, origins: seq<Origin>, payloads: seq<seq<byte>>,
                            run: seq<Cycle>, expected: seq<Origin>, inputs: seq<Input>)
    requires |expected| == |inputs| && forall k :: 0 <= k < |inputs| ==> e.Ready(inputs[k])
  {
    && |run| == |inputs| && |origins| == |payloads|
    && (forall i :: 0 <= i < |payloads| ==>
          0 < |payloads[i]| && e.scheme.InRange(|payloads[i]|) && e.Fits(|payloads[i]|) && origins[i].Ok())
    && (forall k :: 0 <= k < |run| ==>
          match run[k]
          case Delivered(i) =>
            && i < |payloads| && expected[k] == origins[i]
            && inputs[k] == Present(e.Protected(i % e.scheme.Period(), origins[i], payloads[i]))
          case Nothing => !Verdicts(e, sink, expected, inputs)[k].Good?)
  }

  lemma MessageGood(e: Envelope, counter: nat, o: Origin, d: seq<byte>)
    requires 0 < |d| && e.scheme.InRange(|d|) && e.Fits(|d|) && counter < e.scheme.Period() && o.Ok()
    ensures var m := Present(e.Protected(counter, o, d));
            && e.SourceJudge(o, m) == Good(counter)
            && e.SinkJudge(o.messageType, o.messageResult, m) == Good(counter)
  {
    SourceCheckExact(e, counter, o, d, o);
    SinkCheckExact(e, counter, o, d, o.messageType, o.messageResult);
  }

  lemma TransmitsJudged(e: Envelope, sink: bool, origins: seq<Origin>, payloads: seq<seq<byte>>,
                        run: seq<Cycle>, expected: seq<Origin>, inputs: seq<Input>)
    requires |expected| == |inputs| && forall k :: 0 <= k < |inputs| ==> e.Ready(inputs[k])
    requires Transmits(e, sink, origins, payloads, run, expected, inputs)
    ensures Judged(run, Verdicts(e, sink, expected, inputs), e.scheme.Period())
  {
    forall k | 0 <= k < |run| && run[k].Delivered?
      ensures Verdicts(e, sink, expected, inputs)[k] == Good(run[k].index % e.scheme.Period())
    {
      var i := run[k].index;
      MessageGood(e, i % e.scheme.Period(), origins[i], payloads[i]);
    }
  }

  // ---- In place ----

  method StoreOrigin(data: array<byte>, at: nat, o: Origin)
    requires at + 4 <= data.Length
    modifies data
    ensures data[..] == Paste(old(data[..]), at, Pack(o))
  {
    Store(data, at, U32(o.sourceID));
    ghost var stored := data[..];
    data[at] := data[at] % 0x40 + (o.messageType % 4) * 0x40;
    data[at] := data[at] / 0x40 * 0x40 + data[at] % 0x10 + (o.messageResult % 4) * 0x10;
    ghost var id := U32(o.sourceID);
    assert stored[at] == id[0];
    assert data[..] == stored[at := TopByte(id[0], o.messageType, o.messageResult)];
    assert data[..] == Paste(old(data[..]), at, Pack(o));
  }

  /** Write the header, the origin and the CRC into a buffer. */
  method FillEnvelope(e: Envelope, offset: nat, data: array<byte>, counter: nat, o: Origin)
    requires At(e.scheme, offset) && e.Fits(data.Length)
    modifies data
    ensures data[..] == e.Protected(counter, o, old(data[..]))
  {
    ProtectedInOrder(e, counter, o, data[..]);
    StoreFields(e.scheme.layout, data, counter);
    StoreOrigin(data, e.at, o);
    var crc := ComputeSeal(e.scheme.layout.seal, data[..], offset);
    StoreCrc(e.scheme.layout, data, crc);
  }

  /** Whether there is new data, or an input error. */
  method VerifyInputs(s: Scheme, data: array?<byte>, length: nat, accepted: bool)
    returns (ret: Return, newDataAvailable: bool)
    ensures ret == OK || ret == INPUTERR_WRONG
    ensures ret == OK <==> if data == null then length == 0 else length != 0 && s.InRange(length) && accepted
    ensures newDataAvailable <==> ret == OK && data != null
  {
    newDataAvailable := false;
    if (data != null && length != 0) || (data == null && length == 0) {
      ret := OK;
      if data != null {
        if accepted && length >= s.minLength && length <= s.maxLength {
          newDataAvailable := true;
        } else {
          ret := INPUTERR_WRONG;
        }
      }
    } else {
      ret := INPUTERR_WRONG;
    }
  }

  method ExamineMessage(e: Envelope, offset: nat, d: seq<byte>) returns (v: Verdict)
    requires At(e.scheme, offset) && e.Fits(|d|)
    ensures v == e.scheme.layout.Judge(d)
  {
    var crc := ComputeSeal(e.scheme.layout.seal, d, offset);
    v := Examine(e.scheme.layout, d, crc);
  }

  method SourceVerdict(e: Envelope, offset: nat, expected: Origin, data: array?<byte>, length: nat) returns (v: Verdict)
    requires At(e.scheme, offset) && (data != null ==> length == data.Length && e.Ready(Present(data[..])))
    ensures v == e.SourceJudge(expected, if data == null then Absent(length) else Present(data[..]))
  {
    var ret, newDataAvailable := VerifyInputs(e.scheme, data, length, expected.Ok());
    if ret != OK {
      v := InputError;
    } else if newDataAvailable {
      v := ExamineMessage(e, offset, data[..]);
      var origin := e.OriginBytes(data[..]);
      if !(SourceOf(origin) == expected.sourceID
           && TypeOf(origin) == expected.messageType && ResultOf(origin) == expected.messageResult)
      {
        v := Bad;
      }
    } else {
      v := Missing;
    }
  }

  method SinkVerdict(e: Envelope, offset: nat, sourceID: uint32, messageType: uint8, messageResult: uint8,
                     data: array?<byte>, length: nat) returns (v: Verdict, received: uint32)
    requires At(e.scheme, offset) && (data != null ==> length == data.Length && e.Ready(Present(data[..])))
    ensures v == e.SinkJudge(messageType, messageResult, if data == null then Absent(length) else Present(data[..]))
    ensures received == if v.Good? || v.Bad? then SourceOf(e.OriginBytes(data[..])) else sourceID
  {
    received := sourceID;
    var ret, newDataAvailable := VerifyInputs(e.scheme, data, length, messageType <= 1 && messageResult <= 1);
    if ret != OK {
      v := InputError;
    } else if newDataAvailable {
      v := ExamineMessage(e, offset, data[..]);
      var origin := e.OriginBytes(data[..]);
      received := SourceOf(origin);
      if !(TypeOf(origin) == messageType && ResultOf(origin) == messageResult) {
        v := Bad;
      }
    } else {
      v := Missing;
    }
  }

  class ProtectState {
    var counter: nat

    constructor ProtectInit()
      ensures counter == 0
    {
      counter := 0;
    }

    method Protect(e: Envelope, offset: nat, o: Origin, data: array?<byte>, length: nat) returns (ret: Return)
      requires At(e.scheme, offset) && (data != null ==> length == data.Length && e.Ready(Present(data[..])))
      modifies this
      modifies if data == null then {} else {data}
      ensures ret == if data == null then INPUTERR_NULL
                     else if && e.scheme.minLength <= length <= e.scheme.maxLength
                             && o.sourceID <= 0xFFF_FFFF && o.messageType <= 1 && o.messageResult <= 1
                     then OK else INPUTERR_WRONG
      ensures ret == OK ==>
        data[..] == e.Protected(old(counter), o, old(data[..])) && counter == e.scheme.Successor(old(counter))
      ensures ret != OK ==> counter == old(counter) && (data != null ==> data[..] == old(data[..]))
    {
      if data == null {
        return INPUTERR_NULL;
      }
      if e.scheme.InRange(length) && o.Ok() {
        FillEnvelope(e, offset, data, counter, o);
        counter := e.scheme.Successor(counter);
        return OK;
      } else {
        return INPUTERR_WRONG;
      }
    }
  }

  /** Protect payload number i. */
  method Send(e: Envelope, offset: nat, o: Origin, state: ProtectState, payload: seq<byte>, ghost i: nat)
    returns (message: seq<byte>)
    requires At(e.scheme, offset) && e.scheme.InRange(|payload|) && e.Fits(|payload|) && o.Ok()
    requires state.counter == i % e.scheme.Period()
    modifies state
    ensures message == e.Protected(i % e.scheme.Period(), o, payload)
    ensures state.counter == (i + 1) % e.scheme.Period()
  {
    var data := Copy(payload);
    SuccessorNumbers(e.scheme, i);
    var ret := state.Protect(e, offset, o, data, |payload|);
    message := data[..];
  }

  /** The messages of a sender. */
  function Messages(e: Envelope, origins: seq<Origin>, payloads: seq<seq<byte>>): (messages: seq<seq<byte>>)
    requires |origins| == |payloads| && forall i :: 0 <= i < |payloads| ==> e.Fits(|payloads[i]|)
    ensures |messages| == |payloads|
  {
    seq(|payloads|, k requires 0 <= k < |payloads| => e.Protected(k % e.scheme.Period(), origins[k], payloads[k]))
  }

  /** Protect payloads one after the other, from initialisation: message number i carries counter i. */
  method SendAll(e: Envelope, offset: nat, origins: seq<Origin>, payloads: seq<seq<byte>>)
    returns (messages: seq<seq<byte>>)
    requires At(e.scheme, offset) && |origins| == |payloads|
    requires forall i :: 0 <= i < |payloads| ==>
      e.scheme.InRange(|payloads[i]|) && e.Fits(|payloads[i]|) && origins[i].Ok()
    ensures messages == Messages(e, origins, payloads)
  {
    var state := new ProtectState.ProtectInit();
    messages := [];
    ghost var all := Messages(e, origins, payloads);
    for i := 0 to |payloads|
      invariant fresh(state) && state.counter == i % e.scheme.Period()
      invariant messages == all[..i]
    {
      var message := Send(e, offset, origins[i], state, payloads[i], i);
      OneMore(all, i);
      messages := messages + [message];
    }
  }

  class CheckState {
    var counter: nat
    var status: Status

    constructor CheckInit(e: Envelope)
      ensures counter == e.scheme.Period() - 1 && status == Error
    {
      counter := e.scheme.Period() - 1;
      status := Error;
    }

    function State(): Rx
      reads this
    {
      Rx(counter, status)
    }

    method SourceCheck(e: Envelope, offset: nat, expected: Origin, data: array?<byte>, length: nat)
      returns (ret: Return)
      requires At(e.scheme, offset) && (data != null ==> length == data.Length && e.Ready(Present(data[..])))
      modifies this
      ensures var i := if data == null then Absent(length) else Present(data[..]);
              && State() == Receive(e.scheme.classify, old(State()), e.SourceJudge(expected, i))
              && ret == if e.SourceJudge(expected, i) == InputError then INPUTERR_WRONG else OK
    {
      var verdict := SourceVerdict(e, offset, expected, data, length);
      Update(e.scheme, verdict);
      ret := if verdict == InputError then INPUTERR_WRONG else OK;
    }

    /** The source ID is an output; it keeps its value when there is no new data. */
    method SinkCheck(e: Envelope, offset: nat, sourceID: uint32, messageType: uint8, messageResult: uint8,
                     data: array?<byte>, length: nat) returns (ret: Return, received: uint32)
      requires At(e.scheme, offset) && (data != null ==> length == data.Length && e.Ready(Present(data[..])))
      modifies this
      ensures var i := if data == null then Absent(length) else Present(data[..]);
              var v := e.SinkJudge(messageType, messageResult, i);
              && State() == Receive(e.scheme.classify, old(State()), v)
              && ret == (if v == InputError then INPUTERR_WRONG else OK)
              && received == if v.Good? || v.Bad? then SourceOf(e.OriginBytes(i.data)) else sourceID
    {
      var verdict;
      verdict, received := SinkVerdict(e, offset, sourceID, messageType, messageResult, data, length);
      Update(e.scheme, verdict);
      ret := if verdict == InputError then INPUTERR_WRONG else OK;
    }

    method Update(s: Scheme, v: Verdict)
      modifies this
      ensures State() == Receive(s.classify, old(State()), v)
    {
      match v
      case InputError =>
      case Missing =>
        status := NoNewData;
      case Bad =>
        status := Error;
      case Good(received) =>
        status := s.classify(counter, received);
        counter := received;
    }
  }
}
