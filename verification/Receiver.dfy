/** The receiving side shared by profiles 4, 5, 6, 7, 8 and 22.

A check first judges the message alone (its CRC, data ID and length) and then, if the message is
good, compares its counter with that of the last good message. The judgement is the profile's
own; what a receiver makes of a history of judgements is the same everywhere. */
module Receiver {
  import opened Bits

  datatype Return = OK | INPUTERR_NULL | INPUTERR_WRONG | WRONGSTATE

  datatype Status = StatusOK | NoNewData | Error | Repeated | OkSomeLost | WrongSequence

  /** What a check is given: nothing (with the length the caller passed), or a message. */
  datatype Input = Absent(length: nat) | Present(data: seq<byte>)

  /** What a message says by itself. */
  datatype Verdict = InputError | Missing | Bad | Good(counter: nat)

  /** The state a profile keeps between checks. */
  datatype Rx = Rx(counter: nat, status: Status)

  /** How a profile classifies a received counter against the last one. */
  type Sequencing = (nat, nat) -> Status

  function Receive(classify: Sequencing, rx: Rx, v: Verdict): Rx
  {
    match v
    case InputError => rx
    case Missing => rx.(status := NoNewData)
    case Bad => rx.(status := Error)
    case Good(c) => Rx(c, classify(rx.counter, c))
  }

  function ReceiveAll(classify: Sequencing, rx: Rx, vs: seq<Verdict>): Rx
  {
    if vs == [] then rx else Receive(classify, ReceiveAll(classify, rx, vs[..|vs| - 1]), vs[|vs| - 1])
  }

  // ---- Cycles without a good message leave no trace ----

  function Goods(vs: seq<Verdict>): seq<Verdict>
  {
    if vs == [] then []
    else
      var rest := Goods(vs[..|vs| - 1]);
      if vs[|vs| - 1].Good? then rest + [vs[|vs| - 1]] else rest
  }

  /** Deleting every cycle that ended in an input error, without data or with an error changes
      neither the counter nor the status that any other cycle reports. */
  lemma {:induction false} OnlyGoodMessagesCount(classify: Sequencing, rx: Rx, vs: seq<Verdict>)
    ensures ReceiveAll(classify, rx, vs).counter == ReceiveAll(classify, rx, Goods(vs)).counter
    ensures vs != [] && vs[|vs| - 1].Good? ==>
              ReceiveAll(classify, rx, vs) == ReceiveAll(classify, rx, Goods(vs))
  {
    if vs != [] {
      var init := vs[..|vs| - 1];
      OnlyGoodMessagesCount(classify, rx, init);
      if vs[|vs| - 1].Good? {
        assert Goods(vs)[..|Goods(vs)| - 1] == Goods(init);
      }
    }
  }

  /** A sequence check reports something else than an error or missing data. */
  ghost predicate Reports(classify: Sequencing)
  {
    forall last, received :: classify(last, received) != Error && classify(last, received) != NoNewData
  }

  /** A cycle that ended neither in an input error, nor without data, nor with an error. */
  predicate Ended(v: Verdict, status: Status)
  {
    v != InputError && status != NoNewData && status != Error
  }

  /** Cycles by what was returned and reported are the cycles with a good message. */
  lemma EndedMeansGood(classify: Sequencing, rx: Rx, v: Verdict)
    requires Reports(classify)
    ensures Ended(v, Receive(classify, rx, v).status) <==> v.Good?
  {
  }

  /** The counter is always that of the last good message. */
  lemma {:induction false} CounterIsLastGood(classify: Sequencing, rx: Rx, vs: seq<Verdict>)
    ensures var gs := Goods(vs);
            && (gs == [] ==> ReceiveAll(classify, rx, vs).counter == rx.counter)
            && (gs != [] ==> gs[|gs| - 1] == Good(ReceiveAll(classify, rx, vs).counter))
  {
    if vs != [] {
      CounterIsLastGood(classify, rx, vs[..|vs| - 1]);
    }
  }

  // ---- Runs over a lossy channel ----

  /** The status a message deserves that was sent n messages after the last one received. */
  function Deserved(n: nat, maxDelta: nat): Status
  {
    if n > maxDelta then WrongSequence
    else if n == 0 then Repeated
    else if n == 1 then StatusOK
    else OkSomeLost
  }

  /** `classify` sees counters modulo `modulus` and judges the distance between them. */
  ghost predicate Modular(classify: Sequencing, modulus: nat, maxDelta: nat)
    requires modulus > 0
  {
    forall last, received :: 0 <= last < modulus && 0 <= received < modulus ==>
      classify(last, received) == Deserved((received - last) % modulus, maxDelta)
  }

  /** One cycle of a run: the message sent as number `index` arrives, or no good message does. */
  datatype Cycle = Delivered(index: nat) | Nothing

  /** The number of the last message delivered, or -1. */
  function LastIndex(run: seq<Cycle>): (i: int)
    ensures i >= -1
  {
    if run == [] then -1
    else match run[|run| - 1]
      case Delivered(i) => i
      case Nothing => LastIndex(run[..|run| - 1])
  }

  /** Messages may be dropped, repeated or replaced by rubbish, but not overtake each other, and
      the gap between two that arrive is smaller than the counter's period. */
  ghost predicate InOrder(run: seq<Cycle>, modulus: nat)
  {
    run == [] || (
      && InOrder(run[..|run| - 1], modulus)
      && (run[|run| - 1].Delivered? ==> 0 <= run[|run| - 1].index - LastIndex(run[..|run| - 1]) < modulus))
  }

  /** What the receiver judges in each cycle, when message number i carries counter i % modulus. */
  ghost predicate Judged(run: seq<Cycle>, vs: seq<Verdict>, modulus: nat)
    requires modulus > 0
  {
    |run| == |vs| && forall k :: 0 <= k < |run| ==>
      match run[k]
      case Delivered(i) => vs[k] == Good(i % modulus)
      case Nothing => !vs[k].Good?
  }

  lemma {:induction false} CounterFollowsChannel(
    classify: Sequencing, rx: Rx, run: seq<Cycle>, vs: seq<Verdict>, modulus: nat)
    requires modulus > 0 && Judged(run, vs, modulus) && rx.counter == modulus - 1
    ensures ReceiveAll(classify, rx, vs).counter == LastIndex(run) % modulus
  {
    if run == [] {
      assert (-1) % modulus == modulus - 1;
    } else {
      CounterFollowsChannel(classify, rx, run[..|run| - 1], vs[..|vs| - 1], modulus);
    }
  }

  lemma ModUnique(n: int, q: int, r: int, m: nat)
    requires 0 <= r < m && n == q * m + r
    ensures n % m == r
  {
    var k := n / m - q;
    assert k * m == r - n % m by {
      assert n == (n / m) * m + n % m;
    }
    assert k >= 1 ==> k * m >= m;
    assert k <= -1 ==> k * m + m <= 0;
  }

  /** A counter that wraps around numbers messages modulo its period. */
  lemma ModSuccessor(i: nat, m: nat)
    requires m > 0
    ensures (i % m + 1) % m == (i + 1) % m
  {
    var q, n := i / m, i % m;
    assert i == q * m + n;
    if n + 1 < m {
      ModUnique(i + 1, q, n + 1, m);
      ModUnique(n + 1, 0, n + 1, m);
    } else {
      assert (q + 1) * m == q * m + m;
      ModUnique(i + 1, q + 1, 0, m);
      ModUnique(n + 1, 1, 0, m);
    }
  }

  lemma ModDifference(a: int, b: int, m: nat)
    requires m > 0 && 0 <= a - b < m
    ensures (a % m - b % m) % m == a - b
  {
    var q, r := b / m, b % m;
    assert b == q * m + r;
    if r + (a - b) < m {
      ModUnique(a, q, r + (a - b), m);
    } else {
      assert (q + 1) * m == q * m + m;
      ModUnique(a, q + 1, r + (a - b) - m, m);
      ModUnique(a - b - m, -1, a - b, m);
    }
  }

  /** The main result on sequences: in a run over such a channel, every delivered message gets the
      status it deserves for its distance from the last delivered one, across counter overflow.
      A receiver that has seen nothing acts as if message -1 had arrived. */
  lemma DeliveredGetsDeserved(
    classify: Sequencing, rx: Rx, run: seq<Cycle>, vs: seq<Verdict>, modulus: nat, maxDelta: nat)
    requires modulus > 0 && Modular(classify, modulus, maxDelta)
    requires Judged(run, vs, modulus) && InOrder(run, modulus) && rx.counter == modulus - 1
    requires run != [] && run[|run| - 1].Delivered?
    ensures ReceiveAll(classify, rx, vs).status
         == Deserved(run[|run| - 1].index - LastIndex(run[..|run| - 1]), maxDelta)
  {
    DeliveredIsClassified(classify, rx, run, vs, modulus);
    ClassifiedAsDeserved(classify, LastIndex(run[..|run| - 1]), run[|run| - 1].index, modulus, maxDelta);
  }

  /** Whatever the sequence check, it compares the counters of the last two delivered messages. */
  lemma DeliveredIsClassified(classify: Sequencing, rx: Rx, run: seq<Cycle>, vs: seq<Verdict>, modulus: nat)
    requires modulus > 0 && Judged(run, vs, modulus) && rx.counter == modulus - 1
    requires run != [] && run[|run| - 1].Delivered?
    ensures ReceiveAll(classify, rx, vs).status
         == classify(LastIndex(run[..|run| - 1]) % modulus, run[|run| - 1].index % modulus)
  {
    CounterFollowsChannel(classify, rx, run[..|run| - 1], vs[..|vs| - 1], modulus);
    assert vs[|vs| - 1] == Good(run[|run| - 1].index % modulus);
  }

  lemma ModularDistance(classify: Sequencing, last: int, index: int, modulus: nat, maxDelta: nat, n: nat)
    requires modulus > 0 && Modular(classify, modulus, maxDelta) && n == (index - last) % modulus
    ensures classify(last % modulus, index % modulus) == Deserved(n, maxDelta)
  {
    var a, b := last % modulus, index % modulus;
    ModDistance(last, index, modulus);
    assert classify(a, b) == Deserved((b - a) % modulus, maxDelta);
  }

  /** In any run, ordered or not, a delivered message gets the status of its distance modulo the period. */
  lemma DeliveredAtDistance(
    classify: Sequencing, rx: Rx, run: seq<Cycle>, vs: seq<Verdict>, modulus: nat, maxDelta: nat, n: nat)
    requires modulus > 0 && Modular(classify, modulus, maxDelta)
    requires Judged(run, vs, modulus) && rx.counter == modulus - 1 && Apart(run, modulus, n)
    ensures ReceiveAll(classify, rx, vs).status == Deserved(n, maxDelta)
  {
    DeliveredIsClassified(classify, rx, run, vs, modulus);
    ModularDistance(classify, LastIndex(run[..|run| - 1]), run[|run| - 1].index, modulus, maxDelta, n);
  }

  /** The run ends with a message n after the last delivered one, modulo the period. */
  ghost predicate Apart(run: seq<Cycle>, modulus: nat, n: nat)
    requires modulus > 0
  {
    && run != [] && run[|run| - 1].Delivered?
    && n == (run[|run| - 1].index - LastIndex(run[..|run| - 1])) % modulus
  }

  lemma ModDistance(last: int, index: int, m: nat)
    requires m > 0
    ensures (index % m - last % m) % m == (index - last) % m
  {
    var x, q := index % m - last % m, index / m - last / m;
    assert index == (index / m) * m + index % m && last == (last / m) * m + last % m;
    assert (index / m) * m - (last / m) * m == q * m;
    assert x == (x / m) * m + x % m;
    assert (x / m) * m + q * m == (x / m + q) * m;
    ModUnique(index - last, x / m + q, x % m, m);
  }

  lemma ClassifiedAsDeserved(classify: Sequencing, last: int, index: int, modulus: nat, maxDelta: nat)
    requires modulus > 0 && Modular(classify, modulus, maxDelta) && 0 <= index - last < modulus
    ensures classify(last % modulus, index % modulus) == Deserved(index - last, maxDelta)
  {
    ModDifference(index, last, modulus);
    var a, b := last % modulus, index % modulus;
    assert classify(a, b) == Deserved((b - a) % modulus, maxDelta);
  }
}
