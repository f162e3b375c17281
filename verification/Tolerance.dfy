/** The receiving side shared by profiles 1 and 2.

A receiver tolerates a jump of the counter that grows with every check since the last good
message, and asks for a number of messages in sequence after a jump that is too big. */
module Tolerance {
  import opened Bits
  import opened Wire
  import opened Receiver

  datatype Result = Ok | NoNew | WrongCrc | Sync | Initial | Again | SomeLost | Wrong

  /** Counters run from 0 to top. Profile 1 always reports a wrong sequence; profile 2 only when it
      asks for synchronisation. */
  datatype Rules = Rules(
    top: uint8, maxDeltaCounterInit: uint8, maxNoNewOrRepeatedData: uint8, syncCounterInit: uint8,
    alwaysReports: bool)

  /** The state kept between checks, but for the flag that the caller sets. */
  datatype Track = Track(
    lastValidCounter: uint8, maxDeltaCounter: uint8, waitForFirstData: bool, lostData: uint8,
    status: Result, syncCounter: uint8, noNewOrRepeated: uint8)

  /** What a check finds: no new data, a counter out of range, a wrong CRC, or a counter. */
  datatype Event = Silence | BadCounter | BadCrc | Heard(counter: uint8)

  const INITIAL := Track(0, 0, true, 0, NoNew, 0, 0)

  function Up(n: uint8, top: uint8): uint8
  {
    if n < top then n + 1 else n
  }

  /** How far the counter has moved, across its overflow. */
  function Jump(top: uint8, last: uint8, received: uint8): (d: nat)
    requires last <= top && received <= top
    ensures d <= top
    ensures d == 0 <==> last == received
  {
    if received >= last then received - last else top + 1 + received - last
  }

  /** The range check that precedes every check. */
  predicate Guard(r: Rules, t: Track)
  {
    && t.lastValidCounter <= r.top && t.maxDeltaCounter <= r.top
    && t.syncCounter <= r.syncCounterInit && t.noNewOrRepeated <= r.top
  }

  /** A counter that continues the sequence, d after the last one. */
  function Continue(r: Rules, t: Track, d: nat, received: uint8): Track
    requires 1 <= d <= r.top
  {
    var u := t.(maxDeltaCounter := r.maxDeltaCounterInit, lastValidCounter := received, lostData := d - 1,
                noNewOrRepeated := 0);
    if t.noNewOrRepeated > r.maxNoNewOrRepeatedData then u.(syncCounter := r.syncCounterInit, status := Sync)
    else if t.syncCounter > 0 then u.(syncCounter := t.syncCounter - 1, status := Sync)
    else u.(status := if d == 1 then Ok else SomeLost)
  }

  /** A counter that does not. */
  function Break(r: Rules, t: Track, received: uint8): Track
  {
    var u := t.(noNewOrRepeated := 0, syncCounter := r.syncCounterInit);
    var v := if r.alwaysReports || r.syncCounterInit > 0 then u.(status := Wrong) else u;
    if r.syncCounterInit > 0 then v.(maxDeltaCounter := r.maxDeltaCounterInit, lastValidCounter := received) else v
  }

  function Sequence(r: Rules, t: Track, received: uint8): Track
    requires t.lastValidCounter <= r.top && received <= r.top
  {
    var d := Jump(r.top, t.lastValidCounter, received);
    if d == 0 then t.(noNewOrRepeated := Up(t.noNewOrRepeated, r.top), status := Again)
    else if d == 1 || d <= t.maxDeltaCounter then Continue(r, t, d, received)
    else Break(r, t, received)
  }

  predicate Possible(r: Rules, e: Event)
  {
    e.Heard? ==> e.counter <= r.top
  }

  /** One check that passes the range check. */
  function Step(r: Rules, t: Track, e: Event): Track
    requires Guard(r, t) && Possible(r, e)
  {
    var u := t.(maxDeltaCounter := Up(t.maxDeltaCounter, r.top));
    match e
    case Silence => u.(noNewOrRepeated := Up(t.noNewOrRepeated, r.top), status := NoNew)
    case BadCounter => u
    case BadCrc => u.(status := WrongCrc)
    case Heard(c) =>
      if t.waitForFirstData then
        u.(waitForFirstData := false, maxDeltaCounter := r.maxDeltaCounterInit,
           lastValidCounter := c, status := Initial)
      else Sequence(r, u, c)
  }

  /** A run of checks; one that fails the range check changes nothing. */
  function Run(r: Rules, t: Track, es: seq<Event>): Track
    requires forall k :: 0 <= k < |es| ==> Possible(r, es[k])
  {
    if es == [] then t
    else
      var u := Run(r, t, es[..|es| - 1]);
      if Guard(r, u) then Step(r, u, es[|es| - 1]) else u
  }

  // ---- Checks that hear no counter ----

  /** In any run, a check without new data reports NONEWDATA and one with a wrong CRC reports
      WRONGCRC; an impossible counter leaves the status as it was. All keep everything else, but for
      the tolerance and the count of checks without new data. */
  lemma UnheardReported(r: Rules, t: Track, e: Event)
    requires Guard(r, t) && !e.Heard?
    ensures var u := Step(r, t, e);
            && u.status == (match e case Silence => NoNew case BadCrc => WrongCrc case _ => t.status)
            && u.noNewOrRepeated == (if e == Silence && t.noNewOrRepeated < r.top then t.noNewOrRepeated + 1
                                     else t.noNewOrRepeated)
            && u.maxDeltaCounter == (if t.maxDeltaCounter < r.top then t.maxDeltaCounter + 1 else r.top)
            && u.lastValidCounter == t.lastValidCounter && u.syncCounter == t.syncCounter
            && u.waitForFirstData == t.waitForFirstData && u.lostData == t.lostData
  {
  }

  // ---- The range check holds in every reachable state ----

  lemma {:induction false} RunGuarded(r: Rules, es: seq<Event>)
    requires r.maxDeltaCounterInit <= r.top
    requires forall k :: 0 <= k < |es| ==> Possible(r, es[k])
    ensures Guard(r, Run(r, INITIAL, es))
  {
    if es != [] {
      RunGuarded(r, es[..|es| - 1]);
    }
  }

  /** No run fails the range check, if and only if the configured tolerance passes it. */
  lemma GuardedForever(r: Rules)
    ensures r.maxDeltaCounterInit <= r.top <==>
      forall es: seq<Event> :: (forall k :: 0 <= k < |es| ==> Possible(r, es[k])) ==> Guard(r, Run(r, INITIAL, es))
  {
    if r.maxDeltaCounterInit <= r.top {
      forall es: seq<Event> | forall k :: 0 <= k < |es| ==> Possible(r, es[k])
        ensures Guard(r, Run(r, INITIAL, es))
      {
        RunGuarded(r, es);
      }
    } else {
      assert !Guard(r, Run(r, INITIAL, [Heard(0)]));
    }
  }

  // ---- Tolerance ----

  /** Checks that end without a new message. */
  predicate Idle(t: Track, e: Event)
  {
    e.Heard? ==> e.counter == t.lastValidCounter
  }

  lemma {:induction false} IdleRun(r: Rules, t: Track, es: seq<Event>)
    requires Guard(r, t) && !t.waitForFirstData
    requires forall k :: 0 <= k < |es| ==> Possible(r, es[k]) && Idle(t, es[k])
    ensures var u := Run(r, t, es);
            && Guard(r, u) && !u.waitForFirstData
            && u.lastValidCounter == t.lastValidCounter && u.syncCounter == t.syncCounter
            && u.maxDeltaCounter == if t.maxDeltaCounter + |es| <= r.top then t.maxDeltaCounter + |es| else r.top
  {
    if es != [] {
      IdleRun(r, t, es[..|es| - 1]);
    }
  }

  /** The biggest jump accepted k checks after the tolerance was reset. */
  function Reach(r: Rules, k: nat): nat
  {
    if r.maxDeltaCounterInit + k + 1 <= r.top then r.maxDeltaCounterInit + k + 1 else r.top
  }

  /** After a check that reset the tolerance and k idle ones, a new counter avoids a wrong
      sequence if and only if its jump is within reach; then the lost messages are counted. */
  lemma GapTolerance(r: Rules, t: Track, es: seq<Event>, c: uint8)
    requires r.alwaysReports || r.syncCounterInit > 0
    requires Guard(r, t) && !t.waitForFirstData && t.maxDeltaCounter == r.maxDeltaCounterInit
    requires forall k :: 0 <= k < |es| ==> Possible(r, es[k]) && Idle(t, es[k])
    requires c <= r.top && c != t.lastValidCounter
    ensures var d, u := Jump(r.top, t.lastValidCounter, c), Run(r, t, es + [Heard(c)]);
            && (u.status != Wrong <==> d <= Reach(r, |es|))
            && (u.status != Wrong ==>
                  u.status in {Ok, SomeLost, Sync} && u.lostData == d - 1 && u.lastValidCounter == c)
  {
    IdleRun(r, t, es);
    var all := es + [Heard(c)];
    assert all[..|all| - 1] == es;
  }

  /** Counters of messages i and j of one sender. */
  lemma JumpIsDistance(top: uint8, i: nat, j: nat)
    requires 0 <= j - i <= top
    ensures Jump(top, i % (top + 1), j % (top + 1)) == j - i
  {
    ModDifference(j, i, top + 1);
    var last, received := i % (top + 1), j % (top + 1);
    if received >= last {
      ModUnique(received - last, 0, received - last, top + 1);
    } else {
      ModUnique(received - last, -1, top + 1 + received - last, top + 1);
    }
  }

  /** The last message accepted was number i of a sender, k checks without a new message followed,
      and then its message number j arrives: it is in sequence if and only if it is within
      reach, and then exactly the messages in between are counted as lost. */
  lemma LossCounted(r: Rules, t: Track, es: seq<Event>, i: nat, j: nat)
    requires r.alwaysReports || r.syncCounterInit > 0
    requires Guard(r, t) && !t.waitForFirstData && t.maxDeltaCounter == r.maxDeltaCounterInit
    requires t.lastValidCounter == i % (r.top + 1) && 1 <= j - i <= r.top
    requires forall k :: 0 <= k < |es| ==> Possible(r, es[k]) && Idle(t, es[k])
    ensures var c := j % (r.top + 1);
            var u := Run(r, t, es + [Heard(c)]);
            && (u.status != Wrong <==> j - i <= Reach(r, |es|))
            && (u.status != Wrong ==>
                  u.status in {Ok, SomeLost, Sync} && u.lostData == j - i - 1 && u.lastValidCounter == c)
  {
    var c := j % (r.top + 1);
    JumpIsDistance(r.top, i, j);
    GapTolerance(r, t, es, c);
  }

  // ---- Runs over a lossy channel ----

  /** What the receiver finds in each cycle, when message number i carries counter i % (top + 1). */
  ghost predicate Conveys(r: Rules, run: seq<Cycle>, es: seq<Event>)
  {
    |run| == |es| && forall k :: 0 <= k < |run| ==>
      match run[k]
      case Delivered(i) => es[k] == Heard(i % (r.top + 1))
      case Nothing => !es[k].Heard?
  }

  /** The number of cycles since the last new message. */
  function Since(run: seq<Cycle>): nat
  {
    if run == [] then 0
    else
      var init, last := run[..|run| - 1], run[|run| - 1];
      if last.Delivered? && last.index != LastIndex(init) then 0 else Since(init) + 1
  }

  /** Messages keep their order, and the counter tells the gaps between them apart. */
  ghost predicate Ordered(r: Rules, run: seq<Cycle>)
  {
    run == [] || (
      var init, last := run[..|run| - 1], run[|run| - 1];
      && Ordered(r, init)
      && (last.Delivered? && LastIndex(init) >= 0 ==> 0 <= last.index - LastIndex(init) <= r.top))
  }

  /** How many checks found no new data or a repeated message since the last new one. */
  function Quiet(r: Rules, run: seq<Cycle>, es: seq<Event>): uint8
    requires |run| == |es|
  {
    if run == [] then 0
    else
      var n := |run| - 1;
      var before := Quiet(r, run[..n], es[..n]);
      match run[n]
      case Nothing => if es[n] == Silence then Up(before, r.top) else before
      case Delivered(i) =>
        if LastIndex(run[..n]) == -1 then before
        else if i == LastIndex(run[..n]) then Up(before, r.top)
        else 0
  }

  /** How many messages are still asked for until the sequence counts as synchronised. */
  function Owed(r: Rules, run: seq<Cycle>, es: seq<Event>): uint8
    requires |run| == |es|
  {
    if run == [] then 0
    else
      var n := |run| - 1;
      var before := Owed(r, run[..n], es[..n]);
      match run[n]
      case Nothing => before
      case Delivered(i) =>
        var g := i - LastIndex(run[..n]);
        if LastIndex(run[..n]) == -1 || g == 0 then before
        else if g > Reach(r, Since(run[..n])) || Quiet(r, run[..n], es[..n]) > r.maxNoNewOrRepeatedData then
          r.syncCounterInit
        else if before > 0 then before - 1
        else 0
  }

  /** What message j deserves after the run: the status and the number of lost messages. */
  ghost predicate Reported(r: Rules, run: seq<Cycle>, es: seq<Event>, j: nat, u: Track)
    requires |run| == |es|
  {
    var g := j - LastIndex(run);
    if LastIndex(run) == -1 then u.status == Initial
    else if g == 0 then u.status == Again
    else if g > Reach(r, Since(run)) then u.status == Wrong
    else
      && u.lostData == g - 1
      && u.status ==
           if Quiet(r, run, es) > r.maxNoNewOrRepeatedData || Owed(r, run, es) > 0 then Sync
           else if g == 1 then Ok
           else SomeLost
  }

  /** A receiver that has followed the run. */
  ghost predicate Follows(r: Rules, t: Track, run: seq<Cycle>, es: seq<Event>)
    requires |run| == |es|
  {
    && Guard(r, t) && t.noNewOrRepeated == Quiet(r, run, es) && t.syncCounter == Owed(r, run, es)
    && (LastIndex(run) == -1 ==> t.waitForFirstData)
    && (LastIndex(run) >= 0 ==>
          && !t.waitForFirstData
          && t.lastValidCounter == LastIndex(run) % (r.top + 1)
          && t.maxDeltaCounter == Grown(r, Since(run)))
  }

  function Grown(r: Rules, k: nat): nat
  {
    if r.maxDeltaCounterInit + k <= r.top then r.maxDeltaCounterInit + k else r.top
  }

  lemma Prefixes(run: seq<Cycle>, c: Cycle, es: seq<Event>, e: Event)
    ensures (run + [c])[..|run + [c]| - 1] == run && (es + [e])[..|es + [e]| - 1] == es
  {
  }

  lemma FollowsNothing(r: Rules, t: Track, run: seq<Cycle>, es: seq<Event>, e: Event)
    requires |run| == |es| && Follows(r, t, run, es) && !e.Heard?
    ensures Follows(r, Step(r, t, e), run + [Nothing], es + [e])
  {
    Prefixes(run, Nothing, es, e);
  }

  /** The first message of the run. */
  lemma FollowsFirst(r: Rules, t: Track, run: seq<Cycle>, es: seq<Event>, j: nat, e: Event)
    requires r.maxDeltaCounterInit <= r.top && e == Heard(j % (r.top + 1))
    requires |run| == |es| && Follows(r, t, run, es) && LastIndex(run) == -1
    ensures var u := Step(r, t, e);
            Reported(r, run, es, j, u) && Follows(r, u, run + [Delivered(j)], es + [e])
  {
    Prefixes(run, Delivered(j), es, e);
  }

  /** A message within reach. */
  lemma FollowsNext(r: Rules, t: Track, run: seq<Cycle>, es: seq<Event>, j: nat, e: Event)
    requires r.maxDeltaCounterInit <= r.top && e == Heard(j % (r.top + 1))
    requires |run| == |es| && Follows(r, t, run, es)
    requires LastIndex(run) >= 0 && 0 <= j - LastIndex(run) <= Reach(r, Since(run))
    ensures var u := Step(r, t, e);
            Reported(r, run, es, j, u) && Follows(r, u, run + [Delivered(j)], es + [e])
  {
    Prefixes(run, Delivered(j), es, e);
    JumpIsDistance(r.top, LastIndex(run), j);
  }

  /** A message out of reach. */
  lemma FollowsBreak(r: Rules, t: Track, run: seq<Cycle>, es: seq<Event>, j: nat, e: Event)
    requires r.maxDeltaCounterInit <= r.top && r.syncCounterInit > 0 && e == Heard(j % (r.top + 1))
    requires |run| == |es| && Follows(r, t, run, es)
    requires LastIndex(run) >= 0 && Reach(r, Since(run)) < j - LastIndex(run) <= r.top
    ensures var u := Step(r, t, e);
            Reported(r, run, es, j, u) && Follows(r, u, run + [Delivered(j)], es + [e])
  {
    Prefixes(run, Delivered(j), es, e);
    JumpIsDistance(r.top, LastIndex(run), j);
  }

  /** A receiver finds its way back after a jump out of reach, or no jump is. */
  predicate Settles(r: Rules)
  {
    r.syncCounterInit > 0 || r.maxDeltaCounterInit + 1 >= r.top
  }

  lemma FollowsMessage(r: Rules, t: Track, run: seq<Cycle>, es: seq<Event>, j: nat, e: Event)
    requires r.maxDeltaCounterInit <= r.top && Settles(r) && e == Heard(j % (r.top + 1))
    requires |run| == |es| && Follows(r, t, run, es)
    requires LastIndex(run) >= 0 ==> 0 <= j - LastIndex(run) <= r.top
    ensures var u := Step(r, t, e);
            Reported(r, run, es, j, u) && Follows(r, u, run + [Delivered(j)], es + [e])
  {
    if LastIndex(run) == -1 {
      FollowsFirst(r, t, run, es, j, e);
    } else if j - LastIndex(run) <= Reach(r, Since(run)) {
      FollowsNext(r, t, run, es, j, e);
    } else {
      FollowsBreak(r, t, run, es, j, e);
    }
  }

  lemma {:induction false} RunFollows(r: Rules, run: seq<Cycle>, es: seq<Event>)
    requires r.maxDeltaCounterInit <= r.top && Settles(r) && Conveys(r, run, es) && Ordered(r, run)
    ensures AllPossible(r, es) && Follows(r, Run(r, INITIAL, es), run, es)
  {
    if run != [] {
      var n := |run| - 1;
      RunFollows(r, run[..n], es[..n]);
      assert run == run[..n] + [run[n]] && es == es[..n] + [es[n]];
      if run[n].Delivered? {
        FollowsMessage(r, Run(r, INITIAL, es[..n]), run[..n], es[..n], run[n].index, es[n]);
      } else {
        FollowsNothing(r, Run(r, INITIAL, es[..n]), run[..n], es[..n], es[n]);
      }
    }
  }

  ghost predicate AllPossible(r: Rules, es: seq<Event>)
  {
    forall k :: 0 <= k < |es| ==> Possible(r, es[k])
  }

  /** A run from initialisation that ends with a message. */
  ghost predicate Arrival(r: Rules, run: seq<Cycle>, es: seq<Event>)
  {
    && Conveys(r, run, es) && AllPossible(r, es) && Ordered(r, run)
    && run != [] && run[|run| - 1].Delivered?
  }

  /** What is reported about that message is what it deserves. */
  ghost predicate Deservedly(r: Rules, run: seq<Cycle>, es: seq<Event>)
    requires Arrival(r, run, es)
  {
    var n := |run| - 1;
    Reported(r, run[..n], es[..n], run[n].index, Run(r, INITIAL, es))
  }

  /** Where the receiver settles, every message of every ordered run from initialisation is reported
      as initial, as repeated, as in sequence with exactly the lost messages counted, or as a wrong
      sequence, as the run so far deserves. */
  lemma ChannelReport(r: Rules, run: seq<Cycle>, es: seq<Event>)
    requires r.maxDeltaCounterInit <= r.top && Settles(r) && Arrival(r, run, es)
    ensures Deservedly(r, run, es)
  {
    var n := |run| - 1;
    RunFollows(r, run[..n], es[..n]);
    FollowsMessage(r, Run(r, INITIAL, es[..n]), run[..n], es[..n], run[n].index, es[n]);
  }

  lemma RunSnoc(r: Rules, t: Track, es: seq<Event>, e: Event)
    requires AllPossible(r, es) && Possible(r, e) && Guard(r, Run(r, t, es))
    ensures AllPossible(r, es + [e]) && Run(r, t, es + [e]) == Step(r, Run(r, t, es), e)
  {
    assert (es + [e])[..|es + [e]| - 1] == es;
  }

  lemma FirstAndJump(r: Rules)
    requires r.maxDeltaCounterInit + 1 < r.top && r.syncCounterInit == 0
    ensures var m := r.maxDeltaCounterInit;
            && Step(r, INITIAL, Heard(0)) == Track(0, m, false, 0, Initial, 0, 0)
            && Step(r, Track(0, m, false, 0, Initial, 0, 0), Heard(m + 2))
               == Track(0, m + 1, false, 0, if r.alwaysReports then Wrong else Initial, 0, 0)
  {
  }

  /** The state after message 0 and after message m + 2, which is out of reach. */
  lemma AfterJump(r: Rules)
    requires r.maxDeltaCounterInit + 1 < r.top && r.syncCounterInit == 0
    ensures var m, es := r.maxDeltaCounterInit, [Heard(0), Heard(r.maxDeltaCounterInit + 2)];
            && AllPossible(r, es)
            && Run(r, INITIAL, es) == Track(0, m + 1, false, 0, if r.alwaysReports then Wrong else Initial, 0, 0)
  {
    FirstAndJump(r);
    RunPair(r, INITIAL, Heard(0), Heard(r.maxDeltaCounterInit + 2));
  }

  lemma RunPair(r: Rules, t: Track, e: Event, f: Event)
    requires Possible(r, e) && Possible(r, f) && Guard(r, t) && Guard(r, Step(r, t, e))
    ensures AllPossible(r, [e, f]) && Run(r, t, [e, f]) == Step(r, Step(r, t, e), f)
  {
    RunSnoc(r, t, [], e);
    assert [] + [e] == [e] && [e] + [f] == [e, f];
    RunSnoc(r, t, [e], f);
  }

  /** The counter of message m + 3. */
  lemma ThirdCounter(r: Rules)
    requires r.maxDeltaCounterInit + 1 < r.top
    ensures var n := r.maxDeltaCounterInit + 3; n % (r.top + 1) == if n > r.top then 0 else n
  {
    var n := r.maxDeltaCounterInit + 3;
    if n > r.top {
      ModUnique(n, 1, 0, r.top + 1);
    } else {
      ModUnique(n, 0, n, r.top + 1);
    }
  }

  /** Message m + 3 is then reported as a wrong sequence, or as repeated. */
  lemma AfterThird(r: Rules, t: Track, c: uint8)
    requires r.maxDeltaCounterInit + 1 < r.top && r.syncCounterInit == 0 && r.alwaysReports
    requires t == Track(0, r.maxDeltaCounterInit + 1, false, 0, Wrong, 0, 0)
    requires c == if r.maxDeltaCounterInit + 3 > r.top then 0 else r.maxDeltaCounterInit + 3
    ensures Step(r, t, Heard(c)).status in {Wrong, Again}
  {
  }

  lemma JumpOrdered(r: Rules)
    requires r.maxDeltaCounterInit + 1 < r.top
    ensures var m := r.maxDeltaCounterInit;
            && Ordered(r, [Delivered(0), Delivered(m + 2)]) && LastIndex([Delivered(0), Delivered(m + 2)]) == m + 2
            && Conveys(r, [Delivered(0), Delivered(m + 2)], [Heard(0), Heard(m + 2)])
  {
    var m := r.maxDeltaCounterInit;
    assert [Delivered(0), Delivered(m + 2)][..1] == [Delivered(0)] && [Delivered(0)][..0] == [];
    ModUnique(m + 2, 0, m + 2, r.top + 1);
    ModUnique(0, 0, 0, r.top + 1);
  }

  /** Elsewhere profile 1 does not: after messages 0 and m + 2, message m + 3 is reported as a wrong
      sequence or as repeated, although it was sent directly after the message before it. */
  lemma ThirdUndeserved(r: Rules)
    requires r.alwaysReports && r.syncCounterInit == 0 && r.maxDeltaCounterInit + 1 < r.top
    ensures var m := r.maxDeltaCounterInit;
            var run := [Delivered(0), Delivered(m + 2), Delivered(m + 3)];
            var es := [Heard(0), Heard(m + 2), Heard((m + 3) % (r.top + 1))];
            Arrival(r, run, es) && !Deservedly(r, run, es)
  {
    var m := r.maxDeltaCounterInit;
    var two, es2, c := [Delivered(0), Delivered(m + 2)], [Heard(0), Heard(m + 2)], (m + 3) % (r.top + 1);
    AfterJump(r);
    ThirdCounter(r);
    AfterThird(r, Run(r, INITIAL, es2), c);
    RunSnoc(r, INITIAL, es2, Heard(c));
    JumpOrdered(r);
    assert two + [Delivered(m + 3)] == [Delivered(0), Delivered(m + 2), Delivered(m + 3)];
    assert es2 + [Heard(c)] == [Heard(0), Heard(m + 2), Heard(c)];
    Prefixes(two, Delivered(m + 3), es2, Heard(c));
  }

  /** And profile 2 does not report message m + 2 at all. */
  lemma SecondUndeserved(r: Rules)
    requires !r.alwaysReports && r.syncCounterInit == 0 && r.maxDeltaCounterInit + 1 < r.top
    ensures var m := r.maxDeltaCounterInit;
            var run, es := [Delivered(0), Delivered(m + 2)], [Heard(0), Heard(m + 2)];
            Arrival(r, run, es) && !Deservedly(r, run, es)
  {
    var m := r.maxDeltaCounterInit;
    AfterJump(r);
    JumpOrdered(r);
    Prefixes([Delivered(0)], Delivered(m + 2), [Heard(0)], Heard(m + 2));
    assert [Delivered(0)] + [Delivered(m + 2)] == [Delivered(0), Delivered(m + 2)];
    assert [Heard(0)] + [Heard(m + 2)] == [Heard(0), Heard(m + 2)];
    assert [Delivered(0)][..0] == [];
    assert Since([Delivered(0)]) == 0 && LastIndex([Delivered(0)]) == 0;
  }

  /** The exact condition. */
  lemma ChannelExact(r: Rules)
    requires r.maxDeltaCounterInit <= r.top
    ensures Settles(r) <==> forall run, es :: Arrival(r, run, es) ==> Deservedly(r, run, es)
  {
    if Settles(r) {
      forall run, es | Arrival(r, run, es)
        ensures Deservedly(r, run, es)
      {
        ChannelReport(r, run, es);
      }
    } else if r.alwaysReports {
      ThirdUndeserved(r);
    } else {
      SecondUndeserved(r);
    }
  }

  /** What a caller hands to a check. */
  datatype Supply = Supply(newDataAvailable: bool, data: seq<byte>)

  // ---- Resynchronisation ----

  function Latest(last: uint8, cs: seq<uint8>): uint8
  {
    if cs == [] then last else cs[|cs| - 1]
  }

  /** New counters, one per check, that continue the sequence after `last`. */
  ghost predicate Steady(r: Rules, last: uint8, cs: seq<uint8>)
  {
    if cs == [] then last <= r.top
    else
      var init, c := cs[..|cs| - 1], cs[|cs| - 1];
      && Steady(r, last, init) && c <= r.top && Latest(last, init) <= r.top
      && 1 <= Jump(r.top, Latest(last, init), c) <= Reach(r, 0)
  }

  function Messages(cs: seq<uint8>): (es: seq<Event>)
    ensures |es| == |cs|
  {
    seq(|cs|, k requires 0 <= k < |cs| => Heard(cs[k]))
  }

  lemma {:induction false} SteadyPossible(r: Rules, last: uint8, cs: seq<uint8>)
    requires Steady(r, last, cs)
    ensures forall k :: 0 <= k < |cs| ==> Possible(r, Messages(cs)[k])
  {
    if cs != [] {
      SteadyPossible(r, last, cs[..|cs| - 1]);
      forall k | 0 <= k < |cs| - 1
        ensures Possible(r, Messages(cs)[k])
      {
        assert Possible(r, Messages(cs[..|cs| - 1])[k]);
      }
    }
  }

  /** A receiver that has just taken a counter into its sequence. */
  ghost predicate Locked(r: Rules, t: Track)
  {
    && Guard(r, t) && !t.waitForFirstData
    && t.maxDeltaCounter == r.maxDeltaCounterInit && t.noNewOrRepeated == 0
  }

  lemma LockedStep(r: Rules, t: Track, c: uint8)
    requires Locked(r, t) && c <= r.top && 1 <= Jump(r.top, t.lastValidCounter, c) <= Reach(r, 0)
    ensures var u, d := Step(r, t, Heard(c)), Jump(r.top, t.lastValidCounter, c);
            && Locked(r, u) && u.lastValidCounter == c
            && (t.syncCounter > 0 ==> u.status == Sync && u.syncCounter == t.syncCounter - 1)
            && (t.syncCounter == 0 ==> u.status == (if d == 1 then Ok else SomeLost) && u.syncCounter == 0)
  {
  }

  /** Synchronisation ends after exactly as many messages in sequence as are asked for. */
  lemma {:induction false} Synchronises(r: Rules, t: Track, cs: seq<uint8>)
    requires Locked(r, t) && Steady(r, t.lastValidCounter, cs)
    ensures forall k :: 0 <= k < |cs| ==> Possible(r, Messages(cs)[k])
    ensures var u := Run(r, t, Messages(cs));
            && Locked(r, u) && u.lastValidCounter == Latest(t.lastValidCounter, cs)
            && u.syncCounter == (if |cs| <= t.syncCounter then t.syncCounter - |cs| else 0)
            && (0 < |cs| <= t.syncCounter ==> u.status == Sync)
            && (|cs| > t.syncCounter ==> u.status == Ok || u.status == SomeLost)
  {
    SteadyPossible(r, t.lastValidCounter, cs);
    if cs != [] {
      var init := cs[..|cs| - 1];
      Synchronises(r, t, init);
      assert Messages(cs)[..|cs| - 1] == Messages(init);
      LockedStep(r, Run(r, t, Messages(init)), cs[|cs| - 1]);
    }
  }

  /** After a wrong sequence with SyncCounterInit = s > 0, exactly s new messages in tolerance
      report SYNC before the next reports OK or OKSOMELOST. */
  lemma Resynchronisation(r: Rules, t: Track, c: uint8, cs: seq<uint8>)
    requires Guard(r, t) && !t.waitForFirstData && c <= r.top
    requires r.syncCounterInit > 0 && r.maxDeltaCounterInit <= r.top
    requires Step(r, t, Heard(c)).status == Wrong && Steady(r, c, cs)
    ensures var u := Step(r, t, Heard(c));
            && Locked(r, u) && u.lastValidCounter == c
            && (forall k :: 0 <= k < |cs| ==> Possible(r, Messages(cs)[k]))
            && (0 < |cs| <= r.syncCounterInit ==> Run(r, u, Messages(cs)).status == Sync)
            && (|cs| > r.syncCounterInit ==> Run(r, u, Messages(cs)).status in {Ok, SomeLost})
  {
    Synchronises(r, Step(r, t, Heard(c)), cs);
  }

  // ---- In place ----

  class CheckState {
    var lastValidCounter: uint8
    var maxDeltaCounter: uint8
    var waitForFirstData: bool
    var newDataAvailable: bool
    var lostData: uint8
    var status: Result
    var syncCounter: uint8
    var noNewOrRepeated: uint8

    constructor CheckInit()
      ensures Value() == INITIAL && newDataAvailable
    {
      lastValidCounter := 0;
      maxDeltaCounter := 0;
      waitForFirstData := true;
      newDataAvailable := true;
      lostData := 0;
      status := NoNew;
      syncCounter := 0;
      noNewOrRepeated := 0;
    }

    function Value(): Track
      reads this
    {
      Track(lastValidCounter, maxDeltaCounter, waitForFirstData, lostData, status, syncCounter, noNewOrRepeated)
    }

    /** After a counter in sequence. */
    method Accept(r: Rules, some: Result)
      modifies this
      ensures newDataAvailable == old(newDataAvailable)
      ensures var t := old(Value());
              Value() == if t.noNewOrRepeated > r.maxNoNewOrRepeatedData then
                  t.(noNewOrRepeated := 0, syncCounter := r.syncCounterInit, status := Sync)
                else if t.syncCounter > 0 then
                  t.(noNewOrRepeated := 0, syncCounter := t.syncCounter - 1, status := Sync)
                else t.(noNewOrRepeated := 0, status := some)
    {
      if noNewOrRepeated <= r.maxNoNewOrRepeatedData {
        noNewOrRepeated := 0;
        if syncCounter > 0 {
          syncCounter := syncCounter - 1;
          status := Sync;
        } else {
          status := some;
        }
      } else {
        noNewOrRepeated := 0;
        syncCounter := r.syncCounterInit;
        status := Sync;
      }
    }

    /** The verification of the counter. */
    method CheckSequence(r: Rules, received: uint8)
      requires lastValidCounter <= r.top && received <= r.top
      modifies this
      ensures Value() == Sequence(r, old(Value()), received) && newDataAvailable == old(newDataAvailable)
    {
      var delta := Jump(r.top, lastValidCounter, received);
      if delta == 0 {
        if noNewOrRepeated < r.top {
          noNewOrRepeated := noNewOrRepeated + 1;
        }
        status := Again;
      } else if delta == 1 {
        maxDeltaCounter := r.maxDeltaCounterInit;
        lastValidCounter := received;
        lostData := 0;
        Accept(r, Ok);
      } else if delta <= maxDeltaCounter {
        maxDeltaCounter := r.maxDeltaCounterInit;
        lastValidCounter := received;
        lostData := delta - 1;
        Accept(r, SomeLost);
      } else {
        noNewOrRepeated := 0;
        syncCounter := r.syncCounterInit;
        if syncCounter > 0 {
          maxDeltaCounter := r.maxDeltaCounterInit;
          lastValidCounter := received;
          status := Wrong;
        } else if r.alwaysReports {
          status := Wrong;
        }
      }
    }

    /** One check, once it is known what was received. */
    method Take(r: Rules, e: Event)
      requires Guard(r, Value()) && Possible(r, e)
      modifies this
      ensures Value() == Step(r, old(Value()), e) && newDataAvailable == old(newDataAvailable)
    {
      if maxDeltaCounter < r.top {
        maxDeltaCounter := maxDeltaCounter + 1;
      }
      match e
      case Silence =>
        if noNewOrRepeated < r.top {
          noNewOrRepeated := noNewOrRepeated + 1;
        }
        status := NoNew;
      case BadCounter =>
      case BadCrc =>
        status := WrongCrc;
      case Heard(received) =>
        if waitForFirstData {
          waitForFirstData := false;
          maxDeltaCounter := r.maxDeltaCounterInit;
          lastValidCounter := received;
          status := Initial;
        } else {
          CheckSequence(r, received);
        }
    }
  }
}
