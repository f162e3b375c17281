/** How the profiles compare counters: differences in two's complement, and when that amounts to
the distance modulo the counter's period. */
module Sequence {
  import opened Receiver

  /** n as a signed integer with `period` values. */
  function Signed(n: int, period: nat): int
    requires period > 0
  {
    var r := n % period;
    if r < period / 2 then r else r - period
  }

  /** The chain of tests on the difference. */
  function StatusOf(delta: int, maxDelta: int): Status
  {
    if delta <= maxDelta && delta >= 0 then
      if delta > 0 then
        if delta == 1 then StatusOK else OkSomeLost
      else Repeated
    else WrongSequence
  }

  /** Profiles 4, 4m, 5 and 6: operands, difference and limit are converted to signed. */
  function Classify(period: nat, maxDelta: nat, last: nat, received: nat): Status
    requires period > 0
  {
    var delta := Signed(Signed(received, period) - Signed(last, period), period);
    StatusOf(delta, Signed(maxDelta, period))
  }

  /** Profiles 7 and 8: the two cases of the difference, on 32 bits. The source computes them in
      signed arithmetic, which is taken here to wrap around. */
  function ClassifyLong(maxDelta: nat, last: nat, received: nat): Status
  {
    var period := 0x1_0000_0000;
    var delta :=
      if received >= last then Signed(Signed(received, period) - Signed(last, period), period)
      else Signed(Signed(0xFFFF_FFFF, period) + Signed(received, period) - Signed(last, period) + 1, period);
    StatusOf(delta, Signed(maxDelta, period))
  }

  /** Profile 22: unsigned, on four bits. */
  function ClassifyNibble(maxDelta: nat, last: nat, received: nat): Status
  {
    var delta := if received >= last then received - last else 0xF + received - last + 1;
    if delta <= maxDelta then
      if delta > 0 then
        if delta == 1 then StatusOK else OkSomeLost
      else Repeated
    else WrongSequence
  }

  function Checker(period: nat, maxDelta: nat): Sequencing
    requires period > 0
  {
    (last: nat, received: nat) => Classify(period, maxDelta, last, received)
  }

  function CheckerLong(maxDelta: nat): Sequencing
  {
    (last: nat, received: nat) => ClassifyLong(maxDelta, last, received)
  }

  function CheckerNibble(maxDelta: nat): Sequencing
  {
    (last: nat, received: nat) => ClassifyNibble(maxDelta, last, received)
  }

  lemma ModShift(n: int, period: nat)
    requires period > 0
    ensures (n + period) % period == n % period == (n - period) % period
  {
    var q := n / period;
    assert (q + 1) * period == q * period + period && (q - 1) * period == q * period - period;
    ModUnique(n + period, q + 1, n % period, period);
    ModUnique(n - period, q - 1, n % period, period);
  }

  lemma SignedInRange(n: nat, period: nat)
    requires n < period
    ensures Signed(n, period) == if n < period / 2 then n else n - period
  {
    ModUnique(n, 0, n, period);
  }

  lemma SignedDifference(period: nat, last: nat, received: nat)
    requires last < period && received < period
    ensures Signed(Signed(received, period) - Signed(last, period), period) == Signed(received - last, period)
  {
    SignedInRange(last, period);
    SignedInRange(received, period);
    ModShift(received - last, period);
  }

  lemma StatusOfSigned(period: nat, maxDelta: nat, n: int)
    requires 2 <= period && maxDelta < period
    ensures StatusOf(Signed(n, period), Signed(maxDelta, period))
         == if maxDelta < period / 2 then Deserved(n % period, maxDelta) else WrongSequence
  {
    SignedInRange(maxDelta, period);
  }

  lemma ClassifyDistance(period: nat, maxDelta: nat, last: nat, received: nat)
    requires 2 <= period && maxDelta < period && last < period && received < period
    ensures Classify(period, maxDelta, last, received)
         == if maxDelta < period / 2 then Deserved((received - last) % period, maxDelta) else WrongSequence
  {
    SignedDifference(period, last, received);
    StatusOfSigned(period, maxDelta, received - last);
  }

  /** Both branches of the long form compute the same difference as the short form. */
  lemma LongIsShort(maxDelta: nat, last: nat, received: nat)
    requires last < 0x1_0000_0000 && received < 0x1_0000_0000
    ensures ClassifyLong(maxDelta, last, received) == Classify(0x1_0000_0000, maxDelta, last, received)
  {
    SignedInRange(0xFFFF_FFFF, 0x1_0000_0000);
  }

  /** Exactly when the limit is positive as a signed number do profiles 4 to 6 judge the distance
      modulo the period. With a larger limit they call every message out of sequence. */
  lemma CheckerModular(period: nat, maxDelta: nat)
    requires 2 <= period && maxDelta < period
    ensures Modular(Checker(period, maxDelta), period, maxDelta) <==> maxDelta < period / 2
    ensures maxDelta >= period / 2 ==>
      forall last, received :: 0 <= last < period && 0 <= received < period ==>
        Checker(period, maxDelta)(last, received) == WrongSequence
  {
    forall last: nat, received: nat | last < period && received < period
      ensures Checker(period, maxDelta)(last, received)
           == if maxDelta < period / 2 then Deserved((received - last) % period, maxDelta) else WrongSequence
    {
      ClassifyDistance(period, maxDelta, last, received);
    }
    if maxDelta >= period / 2 {
      assert Checker(period, maxDelta)(0, 0) == WrongSequence;
      ModUnique(0, 0, 0, period);
    }
  }

  /** The same for profiles 7 and 8. */
  lemma CheckerLongModular(maxDelta: nat)
    requires maxDelta < 0x1_0000_0000
    ensures Modular(CheckerLong(maxDelta), 0x1_0000_0000, maxDelta) <==> maxDelta <= 0x7FFF_FFFF
  {
    CheckerModular(0x1_0000_0000, maxDelta);
    forall last: nat, received: nat | last < 0x1_0000_0000 && received < 0x1_0000_0000
      ensures CheckerLong(maxDelta)(last, received) == Checker(0x1_0000_0000, maxDelta)(last, received)
    {
      LongIsShort(maxDelta, last, received);
    }
  }

  lemma NibbleDistance(last: int, received: int)
    requires 0 <= last < 16 && 0 <= received < 16
    ensures (received - last) % 16 == if received >= last then received - last else 0xF + received - last + 1
  {
  }

  /** Profile 22 has no such limit. */
  lemma CheckerNibbleModular(maxDelta: nat)
    ensures Modular(CheckerNibble(maxDelta), 16, maxDelta)
  {
    forall last: nat, received: nat | last < 16 && received < 16
      ensures CheckerNibble(maxDelta)(last, received) == Deserved((received - last) % 16, maxDelta)
    {
      NibbleDistance(last, received);
    }
  }

  lemma CheckersReport(period: nat, maxDelta: nat)
    requires period > 0
    ensures Reports(Checker(period, maxDelta)) && Reports(CheckerLong(maxDelta)) && Reports(CheckerNibble(maxDelta))
  {
  }
}
