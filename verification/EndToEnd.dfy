/** Protecting, checking, mapping and supervising together, for profile 4. */
module EndToEnd {
  import opened Bits
  import opened Wire
  import opened Receiver
  import opened Sequence
  import opened Profile
  import opened StateMachine
  import opened SlidingWindow
  import opened Reactions
  import P04

  /** The profile-independent status of a check. */
  function MapStatusToSM(ret: Return, status: Status): ProfileStatus
  {
    if ret != OK then P_ERROR
    else match status
      case StatusOK => P_OK
      case OkSomeLost => P_OK
      case Error => P_ERROR
      case Repeated => P_REPEATED
      case NoNewData => P_NONEWDATA
      case WrongSequence => P_WRONGSEQUENCE
  }

  // ---- A run of OKs ----

  lemma RepeatSnoc(s: ProfileStatus, k: nat)
    ensures Repeat(s, k + 1) == Repeat(s, k) + [s]
    ensures Repeat(s, k + 1)[..k] == Repeat(s, k)
  {
  }

  lemma OneMore(ss: seq<ProfileStatus>, s: ProfileStatus, k: nat)
    requires ss == Repeat(s, k)
    ensures ss + [s] == Repeat(s, k + 1)
  {
    RepeatSnoc(s, k);
  }

  /** Windows of one size w >= 2 that VALID can be entered from and be kept in. */
  predicate Sensible(cfg: Config)
  {
    EqualSizes(cfg) && cfg.windowSizeInit >= 2 && cfg.valid.minOk <= cfg.init.minOk <= cfg.windowSizeInit
  }

  /** The OKs that are counted in INIT before VALID is entered. */
  function Needed(cfg: Config): nat
  {
    if cfg.init.minOk == 0 then 1 else cfg.init.minOk
  }

  /** The state after n messages received in order. */
  function Expected(cfg: Config, n: nat): State
  {
    if n == 0 then NODATA else if n <= Needed(cfg) then INIT else VALID
  }

  lemma RecentOks(k: nat, w: nat)
    ensures var r := Recent(Repeat(P_OK, k), w);
            Count(r, P_OK) == (if k < w then k else w) && Count(r, P_ERROR) == 0
  {
    var r := Recent(Repeat(P_OK, k), w);
    if k < w {
      assert r == Blank(w - k) + Repeat(P_OK, k);
      CountConcat(Blank(w - k), Repeat(P_OK, k), P_OK);
      CountConcat(Blank(w - k), Repeat(P_OK, k), P_ERROR);
      CountOthers(Blank(w - k), P_NOTAVAILABLE, P_OK);
      CountOthers(Blank(w - k), P_NOTAVAILABLE, P_ERROR);
      CountOks(k);
    } else {
      assert r == Repeat(P_OK, w);
      CountOks(w);
    }
  }

  lemma CountOks(k: nat)
    ensures Count(Repeat(P_OK, k), P_OK) == k && Count(Repeat(P_OK, k), P_ERROR) == 0
  {
    CountNewest(Repeat(P_OK, k), P_OK, k);
    CountBound(Repeat(P_OK, k), P_OK);
    CountOthers(Repeat(P_OK, k), P_OK, P_ERROR);
  }

  lemma UsedBound(k: nat, w: nat)
    requires w >= 2
    ensures Used(k, w) <= k && Used(k, w) < w
  {
    if k < w {
      ModUnique(k, 0, k, w);
    }
  }

  lemma NotSpent(cfg: Config, k: nat, ok: nat)
    requires Sensible(cfg) && ok == if k < cfg.windowSizeInit then k else cfg.windowSizeInit
    ensures !Spent(cfg, k, ok)
  {
    UsedBound(k, cfg.windowSizeInit);
  }

  lemma OkStep(cfg: Config, a: Historian, k: nat)
    requires Sensible(cfg) && a.history == Repeat(P_OK, k)
    requires a.state == INIT || (a.state == VALID && k >= cfg.init.minOk)
    ensures var b := Note(cfg, a, P_OK);
            && b.history == Repeat(P_OK, k + 1)
            && b.state == if a.state == VALID || k + 1 >= cfg.init.minOk then VALID else INIT
  {
    RepeatSnoc(P_OK, k);
    RecentOks(k + 1, cfg.windowSizeInit);
    NotSpent(cfg, k + 1, if k + 1 < cfg.windowSizeInit then k + 1 else cfg.windowSizeInit);
  }

  lemma {:induction false} ChronicleOks(cfg: Config, n: nat)
    requires Sensible(cfg)
    ensures var a := Chronicle(cfg, Repeat(P_OK, n));
            a.state == Expected(cfg, n) && a.history == Repeat(P_OK, if n == 0 then 0 else n - 1)
  {
    if n > 0 {
      ChronicleOks(cfg, n - 1);
      RepeatSnoc(P_OK, n - 1);
      if n > 1 {
        OkStep(cfg, Chronicle(cfg, Repeat(P_OK, n - 1)), n - 2);
      } else {
        ModUnique(1, 0, 1, cfg.windowSizeInit);
      }
    }
  }

  /** In both variants OKs lead to VALID after exactly 1 + max(1, MinOkStateInit) of them, and keep
      the machine there. */
  lemma OksReachValid(cfg: Config, m: Machine, n: nat)
    requires Sensible(cfg) && cfg.Room(|m.window|)
    ensures Run(cfg, Initial(cfg, m), Repeat(P_OK, n)).state == Expected(cfg, n)
  {
    RunChronicles(cfg, m, Repeat(P_OK, n));
    ChronicleOks(cfg, n);
  }

  // ---- Statuses from a channel ----

  function ReturnOf(v: Verdict): Return
  {
    if v == InputError then INPUTERR_WRONG else OK
  }

  /** What the state machine is told about a run of checks. */
  function Statuses(s: Scheme, rx: Rx, inputs: seq<Input>): (ss: seq<ProfileStatus>)
    requires forall k :: 0 <= k < |inputs| ==> s.Ready(inputs[k])
    ensures |ss| == |inputs|
  {
    if inputs == [] then []
    else
      var last := |inputs| - 1;
      Statuses(s, rx, inputs[..last])
      + [MapStatusToSM(ReturnOf(s.Judge(inputs[last])), s.CheckAll(rx, inputs).status)]
  }

  lemma StatusNext(s: Scheme, rx: Rx, inputs: seq<Input>, last: Input)
    requires (forall k :: 0 <= k < |inputs| ==> s.Ready(inputs[k])) && s.Ready(last)
    ensures var status := s.Check(s.CheckAll(rx, inputs), last).status;
            Statuses(s, rx, inputs + [last])
            == Statuses(s, rx, inputs) + [MapStatusToSM(ReturnOf(s.Judge(last)), status)]
  {
    var all := inputs + [last];
    assert all[..|all| - 1] == inputs;
    CheckLast(s, rx, inputs, last);
  }

  /** What the state machine is told about a message n after the last delivered one. */
  function Told(n: nat, maxDelta: nat): ProfileStatus
  {
    if n > maxDelta then P_WRONGSEQUENCE else if n == 0 then P_REPEATED else P_OK
  }

  lemma MappedDeserved(n: nat, maxDelta: nat)
    ensures MapStatusToSM(OK, Deserved(n, maxDelta)) == Told(n, maxDelta)
  {
  }

  lemma LastStatus(s: Scheme, rx: Rx, inputs: seq<Input>)
    requires (forall k :: 0 <= k < |inputs| ==> s.Ready(inputs[k])) && inputs != []
    ensures var i := inputs[|inputs| - 1];
            Statuses(s, rx, inputs)[|inputs| - 1] == MapStatusToSM(ReturnOf(s.Judge(i)), s.CheckAll(rx, inputs).status)
  {
  }

  lemma LastDelivered(
    s: Scheme, maxDelta: nat, rx: Rx, payloads: seq<seq<byte>>, run: seq<Cycle>, inputs: seq<Input>, n: nat)
    requires Modular(s.classify, s.Period(), maxDelta) && rx.counter == s.Period() - 1
    requires forall k :: 0 <= k < |inputs| ==> s.Ready(inputs[k])
    requires s.Transmits(payloads, run, inputs) && Apart(run, s.Period(), n)
    ensures s.CheckAll(rx, inputs).status == Deserved(n, maxDelta)
  {
    TransmitsJudged(s, payloads, run, inputs);
    CheckAllIsReceiveAll(s, rx, inputs);
    DeliveredAtDistance(s.classify, rx, run, s.Judgements(inputs), s.Period(), maxDelta, n);
  }

  /** In any run, ordered or not, the state machine is told of a message n after the last delivered one,
      modulo the period, that it is repeated, OK or out of sequence ... */
  lemma ToldOfMessage(
    s: Scheme, maxDelta: nat, rx: Rx, payloads: seq<seq<byte>>, run: seq<Cycle>, inputs: seq<Input>, n: nat)
    requires Modular(s.classify, s.Period(), maxDelta) && rx.counter == s.Period() - 1
    requires forall k :: 0 <= k < |inputs| ==> s.Ready(inputs[k])
    requires s.Transmits(payloads, run, inputs) && Apart(run, s.Period(), n)
    ensures Statuses(s, rx, inputs)[|inputs| - 1] == Told(n, maxDelta)
  {
    LastDelivered(s, maxDelta, rx, payloads, run, inputs, n);
    LastJudgedGood(s, payloads, run, inputs);
    LastStatus(s, rx, inputs);
    MappedDeserved(n, maxDelta);
  }

  /** ... and otherwise that there is no data, or an error. */
  lemma ToldOtherwise(s: Scheme, rx: Rx, inputs: seq<Input>)
    requires (forall k :: 0 <= k < |inputs| ==> s.Ready(inputs[k])) && inputs != []
    requires !s.Judge(inputs[|inputs| - 1]).Good?
    ensures Statuses(s, rx, inputs)[|inputs| - 1] == if inputs[|inputs| - 1] == Absent(0) then P_NONEWDATA else P_ERROR
  {
    LastStatus(s, rx, inputs);
  }

  lemma CountReplaced(w: seq<uint8>, k: nat, x: uint8, y: uint8)
    requires k < |w| && x != y
    ensures Count(w[k := x], y) <= Count(w, y)
  {
  }

  /** So a message that is repeated or out of sequence never raises the number of OKs. */
  lemma NeverRaised(
    s: Scheme, maxDelta: nat, rx: Rx, payloads: seq<seq<byte>>, run: seq<Cycle>, inputs: seq<Input>, n: nat,
    sm: Config, m: Machine, status: ProfileStatus)
    requires m.Fits(sm) && m.Legal(sm) && (m.state == INIT || m.state == VALID || m.state == INVALID)
    requires Modular(s.classify, s.Period(), maxDelta) && rx.counter == s.Period() - 1
    requires inputs != [] && forall k :: 0 <= k < |inputs| ==> s.Ready(inputs[k])
    requires s.Transmits(payloads, run, inputs) && Apart(run, s.Period(), n) && (n == 0 || n > maxDelta)
    requires status == Statuses(s, rx, inputs)[|inputs| - 1]
    ensures Step(sm, m, status).ok <= Count(m.window[..sm.Size(m.state)], P_OK)
  {
    ToldOfMessage(s, maxDelta, rx, payloads, run, inputs, n);
    NotCounted(sm, m, status);
  }

  lemma NotCounted(sm: Config, m: Machine, status: ProfileStatus)
    requires m.Fits(sm) && m.Legal(sm) && (m.state == INIT || m.state == VALID || m.state == INVALID)
    requires status != P_OK
    ensures Step(sm, m, status).ok <= Count(m.window[..sm.Size(m.state)], P_OK)
  {
    var n := sm.Size(m.state);
    assert m.window[m.top := status][..n] == m.window[..n][m.top := status];
    CountReplaced(m.window[..n], m.top, status, P_OK);
  }

  /** A message arrives in every cycle, none twice, and no more than the tolerated number are lost
      in between. */
  ghost predicate Prompt(run: seq<Cycle>, maxDelta: nat)
  {
    run == [] || (
      && Prompt(run[..|run| - 1], maxDelta)
      && run[|run| - 1].Delivered?
      && 1 <= run[|run| - 1].index - LastIndex(run[..|run| - 1]) <= maxDelta)
  }

  lemma {:induction false} PromptInOrder(run: seq<Cycle>, maxDelta: nat, modulus: nat)
    requires Prompt(run, maxDelta) && maxDelta < modulus
    ensures InOrder(run, modulus)
  {
    if run != [] {
      PromptInOrder(run[..|run| - 1], maxDelta, modulus);
    }
  }

  lemma PromptGap(run: seq<Cycle>, maxDelta: nat)
    requires Prompt(run, maxDelta) && run != []
    ensures run[|run| - 1].Delivered? && 1 <= run[|run| - 1].index - LastIndex(run[..|run| - 1]) <= maxDelta
  {
  }

  lemma DeservedAccepted(n: nat, maxDelta: nat)
    requires 1 <= n <= maxDelta
    ensures MapStatusToSM(OK, Deserved(n, maxDelta)) == P_OK
  {
  }

  lemma LastJudgedGood(s: Scheme, payloads: seq<seq<byte>>, run: seq<Cycle>, inputs: seq<Input>)
    requires forall k :: 0 <= k < |inputs| ==> s.Ready(inputs[k])
    requires s.Transmits(payloads, run, inputs) && run != [] && run[|run| - 1].Delivered?
    ensures ReturnOf(s.Judge(inputs[|inputs| - 1])) == OK
  {
    TransmitsJudged(s, payloads, run, inputs);
    assert s.Judgements(inputs)[|run| - 1].Good?;
  }

  lemma PromptStatus(s: Scheme, maxDelta: nat, rx: Rx, payloads: seq<seq<byte>>, run: seq<Cycle>, inputs: seq<Input>)
    requires Modular(s.classify, s.Period(), maxDelta) && maxDelta < s.Period() && rx.counter == s.Period() - 1
    requires forall k :: 0 <= k < |inputs| ==> s.Ready(inputs[k])
    requires s.Transmits(payloads, run, inputs) && Prompt(run, maxDelta) && run != []
    ensures MapStatusToSM(OK, s.CheckAll(rx, inputs).status) == P_OK
  {
    PromptGap(run, maxDelta);
    PromptInOrder(run, maxDelta, s.Period());
    DeservedAccepted(run[|run| - 1].index - LastIndex(run[..|run| - 1]), maxDelta);
    ChannelStatus(s, maxDelta, rx, payloads, run, inputs);
    assert s.CheckAll(rx, inputs).status == Deserved(run[|run| - 1].index - LastIndex(run[..|run| - 1]), maxDelta);
  }

  lemma TransmitsPrefix(s: Scheme, payloads: seq<seq<byte>>, run: seq<Cycle>, inputs: seq<Input>)
    requires forall k :: 0 <= k < |inputs| ==> s.Ready(inputs[k])
    requires s.Transmits(payloads, run, inputs) && run != []
    ensures var init := inputs[..|inputs| - 1]; forall k :: 0 <= k < |init| ==> s.Ready(init[k])
    ensures s.Transmits(payloads, run[..|run| - 1], inputs[..|inputs| - 1])
  {
  }

  lemma {:induction false} PromptStatuses(
    s: Scheme, maxDelta: nat, rx: Rx, payloads: seq<seq<byte>>, run: seq<Cycle>, inputs: seq<Input>)
    requires Modular(s.classify, s.Period(), maxDelta) && maxDelta < s.Period() && rx.counter == s.Period() - 1
    requires forall k :: 0 <= k < |inputs| ==> s.Ready(inputs[k])
    requires s.Transmits(payloads, run, inputs) && Prompt(run, maxDelta)
    ensures Statuses(s, rx, inputs) == Repeat(P_OK, |run|)
  {
    if run != [] {
      TransmitsPrefix(s, payloads, run, inputs);
      PromptStatuses(s, maxDelta, rx, payloads, run[..|run| - 1], inputs[..|inputs| - 1]);
      PromptStatus(s, maxDelta, rx, payloads, run, inputs);
      LastJudgedGood(s, payloads, run, inputs);
      RepeatSnoc(P_OK, |run| - 1);
    }
  }

  /** The composition, for any profile whose sequence rule is the modular one: over a channel that
      loses no more than is tolerated, the receiver's state machine reaches VALID after exactly
      1 + max(1, MinOkStateInit) messages and stays there. */
  lemma ChannelReachesValid(
    s: Scheme, maxDelta: nat, rx: Rx, sm: Config, m: Machine,
    payloads: seq<seq<byte>>, run: seq<Cycle>, inputs: seq<Input>)
    requires Modular(s.classify, s.Period(), maxDelta) && maxDelta < s.Period() && rx.counter == s.Period() - 1
    requires Sensible(sm) && sm.Room(|m.window|)
    requires forall k :: 0 <= k < |inputs| ==> s.Ready(inputs[k])
    requires s.Transmits(payloads, run, inputs) && Prompt(run, maxDelta)
    ensures Run(sm, Initial(sm, m), Statuses(s, rx, inputs)).state == Expected(sm, |run|)
  {
    PromptStatuses(s, maxDelta, rx, payloads, run, inputs);
    OksReachValid(sm, m, |run|);
  }

  // ---- Damage ----

  /** The input is message d, protected, with byte k changed to b. */
  ghost predicate DamagedAt(s: Scheme, i: Input, counter: nat, d: seq<byte>, k: nat, b: byte)
  {
    && 0 < |d| && s.InRange(|d|) && s.layout.Fits(d)
    && k < |d| && b != s.layout.Protected(counter, d)[k]
    && i == Present(s.layout.Protected(counter, d)[k := b])
  }

  ghost predicate Damaged(s: Scheme, i: Input)
  {
    exists counter: nat, d, k: nat, b: byte :: DamagedAt(s, i, counter, d, k, b)
  }

  lemma DamagedError(s: Scheme, rx: Rx, i: Input)
    requires Damaged(s, i) && s.Ready(i)
    ensures s.Check(rx, i).status == Error
  {
    var counter: nat, d, k: nat, b: byte :| DamagedAt(s, i, counter, d, k, b);
    DamageReported(s, rx, counter, d, k, b);
  }

  lemma ErrorNext(s: Scheme, rx: Rx, inputs: seq<Input>, last: Input, n: nat)
    requires (forall k :: 0 <= k < |inputs| ==> s.Ready(inputs[k])) && s.Ready(last)
    requires s.Check(s.CheckAll(rx, inputs), last).status == Error
    requires Statuses(s, rx, inputs) == Repeat(P_ERROR, n)
    ensures Statuses(s, rx, inputs + [last]) == Repeat(P_ERROR, n + 1)
  {
    StatusNext(s, rx, inputs, last);
    OneMore(Statuses(s, rx, inputs), P_ERROR, n);
  }

  lemma PrefixSnoc(inputs: seq<Input>, k: nat)
    requires k < |inputs|
    ensures inputs[..k] + [inputs[k]] == inputs[..k + 1]
  {
  }

  lemma {:induction false} DamagedStatuses(s: Scheme, rx: Rx, inputs: seq<Input>, n: nat)
    requires n <= |inputs| && forall k :: 0 <= k < |inputs| ==> s.Ready(inputs[k]) && Damaged(s, inputs[k])
    ensures Statuses(s, rx, inputs[..n]) == Repeat(P_ERROR, n)
  {
    if n > 0 {
      DamagedStatuses(s, rx, inputs, n - 1);
      DamagedError(s, s.CheckAll(rx, inputs[..n - 1]), inputs[n - 1]);
      ErrorNext(s, rx, inputs[..n - 1], inputs[n - 1], n - 1);
      PrefixSnoc(inputs, n - 1);
    }
  }

  /** The state of the machine after the first k of the inputs were checked. */
  function Supervised(s: Scheme, rx: Rx, sm: Config, m: Machine, inputs: seq<Input>, k: nat): State
    requires k <= |inputs| && forall j :: 0 <= j < |inputs| ==> s.Ready(inputs[j])
  {
    Run(sm, m, Statuses(s, rx, inputs[..k])).state
  }

  /** From VALID, messages damaged in one byte each lead to INVALID within DetectionTime of them, for
      any scheme and receiver, if and only if the limits allow leaving VALID at all. */
  lemma DamageDetected(s: Scheme, rx: Rx, sm: Config, m: Machine, inputs: seq<Input>)
    requires sm.Proper() && sm.Room(|m.window|) && m.Legal(sm) && m.state == VALID
    requires forall k :: 0 <= k < |inputs| ==> s.Ready(inputs[k]) && Damaged(s, inputs[k])
    requires |inputs| >= DetectionTime(sm)
    ensures sm.valid.maxError < sm.windowSizeValid || sm.valid.minOk > 0 <==>
      exists k :: 1 <= k <= DetectionTime(sm) && Supervised(s, rx, sm, m, inputs, k) == INVALID
  {
    forall k | 0 <= k <= |inputs|
      ensures Supervised(s, rx, sm, m, inputs, k) == Run(sm, m, Repeat(P_ERROR, k)).state
    {
      DamagedStatuses(s, rx, inputs, k);
    }
    Detection(sm, m);
  }

  // ---- Lossless runs ----

  /** Every message arrives once, in its own cycle. */
  function EveryIndex(n: nat): (run: seq<Cycle>)
    ensures |run| == n
  {
    seq(n, k requires 0 <= k < n => Delivered(k))
  }

  ghost predicate AllFit(s: Scheme, payloads: seq<seq<byte>>)
  {
    forall i :: 0 <= i < |payloads| ==>
      0 < |payloads[i]| && s.InRange(|payloads[i]|) && s.layout.FitsLength(|payloads[i]|)
  }

  function EveryMessage(s: Scheme, payloads: seq<seq<byte>>): (inputs: seq<Input>)
    requires AllFit(s, payloads)
    ensures |inputs| == |payloads|
    ensures forall k :: 0 <= k < |inputs| ==> s.Ready(inputs[k])
  {
    seq(|payloads|, k requires 0 <= k < |payloads| => Present(s.Message(payloads, k)))
  }

  lemma {:induction false} EveryIndexPrompt(n: nat, maxDelta: nat)
    requires maxDelta >= 1
    ensures Prompt(EveryIndex(n), maxDelta) && LastIndex(EveryIndex(n)) == n - 1
  {
    if n > 0 {
      EveryIndexPrompt(n - 1, maxDelta);
      assert EveryIndex(n)[..n - 1] == EveryIndex(n - 1);
    }
  }

  /** A lossless run is one of the runs above, so it reaches VALID as stated. */
  lemma LosslessReachesValid(
    s: Scheme, maxDelta: nat, rx: Rx, sm: Config, m: Machine, payloads: seq<seq<byte>>)
    requires Modular(s.classify, s.Period(), maxDelta) && 1 <= maxDelta < s.Period() && rx.counter == s.Period() - 1
    requires Sensible(sm) && sm.Room(|m.window|) && AllFit(s, payloads)
    ensures s.Transmits(payloads, EveryIndex(|payloads|), EveryMessage(s, payloads))
    ensures Run(sm, Initial(sm, m), Statuses(s, rx, EveryMessage(s, payloads))).state == Expected(sm, |payloads|)
  {
    EveryIndexPrompt(|payloads|, maxDelta);
    ChannelReachesValid(s, maxDelta, rx, sm, m, payloads, EveryIndex(|payloads|), EveryMessage(s, payloads));
  }

  // ---- The functions of profile 4 at work ----

  /** The receiver's status after the next message of a lossless run. */
  lemma NextIsOk(s: Scheme, maxDelta: nat, i: nat, d: seq<byte>, status: Status)
    requires 1 <= maxDelta && Modular(s.classify, s.Period(), maxDelta) && s.Period() > 1
    requires 0 < |d| && s.InRange(|d|) && s.layout.Fits(d)
    ensures var n, m := s.Period(), Present(s.layout.Protected(i % s.Period(), d));
            && s.Judge(m) == Good(i % n)
            && s.Check(Rx((i - 1) % n, status), m) == Rx(i % n, StatusOK)
  {
    MessageGood(s, i % s.Period(), d);
    ClassifiedAsDeserved(s.classify, i - 1, i, s.Period(), maxDelta);
  }

  lemma OkAgain(cfg: P04.Config, i: nat, d: seq<byte>, status: Status)
    requires 1 <= cfg.maxDeltaCounter <= 0x7FFF
    requires 0 < |d| && cfg.Scheme().InRange(|d|) && cfg.Scheme().layout.Fits(d)
    ensures var m := Present(cfg.Scheme().layout.Protected(i % 0x1_0000, d));
            && cfg.Scheme().Judge(m) == Good(i % 0x1_0000)
            && cfg.Scheme().Check(Rx((i - 1) % 0x1_0000, status), m) == Rx(i % 0x1_0000, StatusOK)
  {
    Pow256Values();
    CheckerModular(0x1_0000, cfg.maxDeltaCounter);
    NextIsOk(cfg.Scheme(), cfg.maxDeltaCounter, i, d, status);
  }

  lemma SuccessorModulo(i: nat)
    ensures P04.Successor(i % 0x1_0000) == (i + 1) % 0x1_0000
  {
  }

  /** Copy payload number i into a buffer and protect it. */
  method Send(cfg: P04.Config, sender: P04.ProtectState, payload: seq<byte>, ghost i: nat) returns (data: array<byte>)
    requires |payload| < 0x1_0000 && cfg.Scheme().InRange(|payload|) && cfg.Scheme().layout.Fits(payload)
    requires sender.counter == i % 0x1_0000
    modifies sender
    ensures fresh(data) && data[..] == cfg.Scheme().layout.Protected(i % 0x1_0000, payload)
    ensures sender.counter == (i + 1) % 0x1_0000
  {
    data := Copy(payload);
    SuccessorModulo(i);
    var sent := sender.Protect(cfg, data, |payload|);
  }

  /** Send payload number i and check what arrives. */
  method Deliver(cfg: P04.Config, sender: P04.ProtectState, receiver: P04.CheckState, payload: seq<byte>, ghost i: nat)
    returns (status: ProfileStatus)
    requires 1 <= cfg.maxDeltaCounter <= 0x7FFF
    requires 0 < |payload| < 0x1_0000 && cfg.Scheme().InRange(|payload|) && cfg.Scheme().layout.Fits(payload)
    requires sender.counter == i % 0x1_0000 && receiver.counter == (i - 1) % 0x1_0000
    modifies sender, receiver
    ensures sender.counter == (i + 1) % 0x1_0000 && receiver.counter == i % 0x1_0000
    ensures status == P_OK
  {
    OkAgain(cfg, i, payload, receiver.status);
    var data := Send(cfg, sender, payload, i);
    var checked := receiver.Check(cfg, data, |payload|);
    assert receiver.State() == Rx(i % 0x1_0000, StatusOK);
    status := MapStatusToSM(checked, receiver.status);
  }

  /** Send, check and supervise every payload in turn. */
  method Session(cfg: P04.Config, sm: Config, payloads: seq<seq<byte>>, buffer: array<uint8>) returns (state: State)
    requires 1 <= cfg.maxDeltaCounter <= 0x7FFF && Sensible(sm) && sm.Room(buffer.Length)
    requires forall i :: 0 <= i < |payloads| ==>
      0 < |payloads[i]| < 0x1_0000 && cfg.Scheme().InRange(|payloads[i]|) && cfg.Scheme().layout.Fits(payloads[i])
    modifies buffer
    ensures state == Expected(sm, |payloads|)
  {
    var sender := new P04.ProtectState.ProtectInit();
    var receiver := new P04.CheckState.CheckInit();
    var supervisor := new SMCheckState(buffer, DEINIT);
    ghost var start := supervisor.Value();
    supervisor.CheckInit(sm);
    var i := 0;
    while i < |payloads|
      invariant 0 <= i <= |payloads|
      invariant supervisor.window == buffer && fresh(supervisor) && fresh(sender) && fresh(receiver)
      invariant sender.counter == i % 0x1_0000 && receiver.counter == (i - 1) % 0x1_0000
      invariant supervisor.Value() == Run(sm, Initial(sm, start), Repeat(P_OK, i))
    {
      var status := Deliver(cfg, sender, receiver, payloads[i], i);
      RunChronicles(sm, start, Repeat(P_OK, i));
      var supervised := supervisor.Check(sm, status);
      RepeatSnoc(P_OK, i);
      i := i + 1;
    }
    OksReachValid(sm, start, i);
    state := supervisor.state;
  }
}
