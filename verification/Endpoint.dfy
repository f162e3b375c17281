/** The sender and the receiver of profiles 5, 6, 7 and 8, which differ only in their scheme: protecting
and checking as these profiles do it, with the CRC computed around its field. */
module Endpoint {
  import opened Bits
  import opened Wire
  import opened Sealing
  import opened Receiver
  import opened Profile

  /** The CRC is at a configured offset, in bits, and starts with the data. */
  predicate At(s: Scheme, offset: nat)
  {
    s.layout.seal.offset == offset / 8 && s.layout.seal.prefix == [] && s.layout.seal.first
  }

  /** Write the header fields and the CRC into a buffer. */
  method Fill(s: Scheme, offset: nat, data: array<byte>, counter: nat)
    requires At(s, offset) && s.layout.FitsLength(data.Length)
    modifies data
    ensures data[..] == s.layout.Protected(counter, old(data[..]))
  {
    ProtectedByFields(s.layout, counter, data[..]);
    StoreFields(s.layout, data, counter);
    var crc := ComputeSeal(s.layout.seal, data[..], offset);
    StoreCrc(s.layout, data, crc);
  }

  /** The inputs of a check, and the verdict on its data. */
  method Verify(s: Scheme, offset: nat, data: array?<byte>, length: nat) returns (v: Verdict)
    requires At(s, offset) && (data != null ==> length == data.Length && s.Fits(length))
    ensures v == s.Judge(if data == null then Absent(length) else Present(data[..]))
    ensures v.Good? ==> v.counter < s.Period()
  {
    if (data != null && length != 0) || (data == null && length == 0) {
      if data == null {
        v := Missing;
      } else if length >= s.minLength && length <= s.maxLength {
        var crc := ComputeSeal(s.layout.seal, data[..], offset);
        v := Examine(s.layout, data[..], crc);
      } else {
        v := InputError;
      }
    } else {
      v := InputError;
    }
  }

  class ProtectState {
    var counter: nat

    constructor ProtectInit()
      ensures counter == 0
    {
      counter := 0;
    }

    method Protect(s: Scheme, offset: nat, data: array?<byte>, length: nat) returns (ret: Return)
      requires At(s, offset) && (data != null ==> length == data.Length && s.Fits(length))
      modifies this
      modifies if data == null then {} else {data}
      ensures ret == if data == null then INPUTERR_NULL
                     else if s.minLength <= length <= s.maxLength then OK else INPUTERR_WRONG
      ensures ret == OK ==>
        data[..] == s.layout.Protected(old(counter), old(data[..])) && counter == s.Successor(old(counter))
      ensures ret != OK ==> counter == old(counter) && (data != null ==> data[..] == old(data[..]))
    {
      if data == null {
        return INPUTERR_NULL;
      }
      if length >= s.minLength && length <= s.maxLength {
        Fill(s, offset, data, counter);
        counter := s.Successor(counter);
        return OK;
      } else {
        return INPUTERR_WRONG;
      }
    }
  }

  lemma SuccessorNumbers(s: Scheme, i: nat)
    ensures s.Successor(i % s.Period()) == (i + 1) % s.Period()
  {
    ModSuccessor(i, s.Period());
  }

  /** Protect payload number i. */
  method Send(s: Scheme, offset: nat, state: ProtectState, payload: seq<byte>, ghost i: nat)
    returns (message: seq<byte>)
    requires At(s, offset) && s.InRange(|payload|) && s.layout.Fits(payload) && state.counter == i % s.Period()
    modifies state
    ensures message == s.layout.Protected(i % s.Period(), payload) && state.counter == (i + 1) % s.Period()
  {
    var data := Copy(payload);
    SuccessorNumbers(s, i);
    var ret := state.Protect(s, offset, data, |payload|);
    message := data[..];
  }

  /** The messages of a sender. */
  function Messages(s: Scheme, payloads: seq<seq<byte>>): (messages: seq<seq<byte>>)
    requires forall i :: 0 <= i < |payloads| ==> s.layout.Fits(payloads[i])
    ensures |messages| == |payloads|
  {
    seq(|payloads|, k requires 0 <= k < |payloads| => s.Message(payloads, k))
  }

  /** Protect payloads one after the other, from initialisation: message number i carries counter i, in
      the channel results as in the code. */
  method SendAll(s: Scheme, offset: nat, payloads: seq<seq<byte>>) returns (messages: seq<seq<byte>>)
    requires At(s, offset)
    requires forall i :: 0 <= i < |payloads| ==> s.InRange(|payloads[i]|) && s.layout.Fits(payloads[i])
    ensures messages == Messages(s, payloads)
  {
    var state := new ProtectState.ProtectInit();
    messages := [];
    ghost var all := Messages(s, payloads);
    for i := 0 to |payloads|
      invariant fresh(state) && state.counter == i % s.Period()
      invariant messages == all[..i]
    {
      var message := Send(s, offset, state, payloads[i], i);
      OneMore(all, i);
      messages := messages + [message];
    }
  }

  class CheckState {
    var counter: nat
    var status: Status

    constructor CheckInit(s: Scheme)
      ensures counter == s.Period() - 1 && status == Error
    {
      counter := s.Period() - 1;
      status := Error;
    }

    function State(): Rx
      reads this
    {
      Rx(counter, status)
    }

    method Check(s: Scheme, offset: nat, data: array?<byte>, length: nat) returns (ret: Return)
      requires At(s, offset) && (data != null ==> length == data.Length && s.Fits(length))
      modifies this
      ensures var i := if data == null then Absent(length) else Present(data[..]);
              && State() == s.Check(old(State()), i)
              && ret == if s.Judge(i) == InputError then INPUTERR_WRONG else OK
    {
      var verdict := Verify(s, offset, data, length);
      ret := OK;
      match verdict
      case InputError =>
        ret := INPUTERR_WRONG;
      case Missing =>
        status := NoNewData;
      case Bad =>
        status := Error;
      case Good(received) =>
        status := s.classify(counter, received);
        counter := received;
    }
  }
}
