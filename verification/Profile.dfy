/** The message format shared by profiles 4 to 8: length, counter and data ID next to each other,
and a CRC elsewhere in the header. Each profile says where they are and how long. */
module Profile {
  import opened Bits
  import opened CrcTheory
  import opened Crc
  import opened Wire
  import opened Sealing
  import opened Receiver

  datatype Layout = Layout(seal: Seal, at: nat, lengthSize: nat, counterSize: nat, id: seq<byte>)
  {
    function Size(): nat { lengthSize + counterSize + |id| }

    /** Fields and CRC do not overlap. */
    ghost predicate Valid()
    {
      at + Size() <= seal.offset || seal.offset + seal.p.size <= at
    }

    /** A message has room for the header, and its length can be written down. */
    ghost predicate Fits(d: seq<byte>)
    {
      FitsLength(|d|)
    }

    ghost predicate FitsLength(length: nat)
    {
      && Valid() && seal.offset + seal.p.size <= length && at + Size() <= length
      && (lengthSize > 0 ==> length < Pow256(lengthSize))
    }

    function Fields(counter: nat, length: nat): (f: seq<byte>)
      ensures |f| == Size()
    {
      BigEndian(length, lengthSize) + BigEndian(counter, counterSize) + id
    }

    /** The protected form of a message: fields written, then the CRC over the result. */
    function Protected(counter: nat, d: seq<byte>): (m: seq<byte>)
      requires Fits(d)
      ensures |m| == |d|
    {
      seal.Close(Paste(d, at, Fields(counter, |d|)))
    }

    /** The header fields of a message, without the CRC. */
    function Header(d: seq<byte>): (f: seq<byte>)
      requires Fits(d)
      ensures |f| == Size()
    {
      d[at..at + Size()]
    }

    function LengthOf(d: seq<byte>): nat
      requires Fits(d)
    {
      Number(Header(d)[..lengthSize])
    }

    function CounterOf(d: seq<byte>): nat
      requires Fits(d)
    {
      Number(Header(d)[lengthSize..lengthSize + counterSize])
    }

    function IdOf(d: seq<byte>): seq<byte>
      requires Fits(d)
    {
      Header(d)[lengthSize + counterSize..]
    }

    /** All checks but that of the counter. */
    predicate Accepts(d: seq<byte>)
      requires Fits(d)
    {
      && seal.Intact(d)
      && IdOf(d) == id
      && (lengthSize > 0 ==> LengthOf(d) == |d|)
    }

    function Judge(d: seq<byte>): Verdict
      requires Fits(d)
    {
      if Accepts(d) then Good(CounterOf(d)) else Bad
    }
  }

  /** Writing the fields one after the other. */
  function WithFields(l: Layout, counter: nat, d: seq<byte>): (e: seq<byte>)
    requires l.Fits(d)
    ensures |e| == |d|
  {
    var lengthSet := Paste(d, l.at, BigEndian(|d|, l.lengthSize));
    var counterSet := Paste(lengthSet, l.at + l.lengthSize, BigEndian(counter, l.counterSize));
    Paste(counterSet, l.at + l.lengthSize + l.counterSize, l.id)
  }

  lemma FieldByField(l: Layout, counter: nat, d: seq<byte>)
    requires l.Fits(d)
    ensures WithFields(l, counter, d) == Paste(d, l.at, l.Fields(counter, |d|))
  {
    var f, g := BigEndian(|d|, l.lengthSize), BigEndian(counter, l.counterSize);
    PasteAdjacent(d, l.at, f, g);
    PasteAdjacent(d, l.at, f + g, l.id);
  }

  lemma ProtectedByFields(l: Layout, counter: nat, d: seq<byte>)
    requires l.Fits(d)
    ensures l.Protected(counter, d) == l.seal.Close(WithFields(l, counter, d))
  {
    FieldByField(l, counter, d);
  }

  // ---- In place ----

  /** Write length, counter and data ID into a buffer. */
  method StoreFields(l: Layout, data: array<byte>, counter: nat)
    requires l.FitsLength(data.Length)
    modifies data
    ensures data[..] == WithFields(l, counter, old(data[..]))
  {
    Store(data, l.at, BigEndian(data.Length, l.lengthSize));
    Store(data, l.at + l.lengthSize, BigEndian(counter, l.counterSize));
    Store(data, l.at + l.lengthSize + l.counterSize, l.id);
  }

  /** Write the CRC into a buffer. */
  method StoreCrc(l: Layout, data: array<byte>, crc: Bits)
    requires l.FitsLength(data.Length) && crc == l.seal.Computed(data[..])
    modifies data
    ensures data[..] == l.seal.Close(old(data[..]))
  {
    Store(data, l.seal.offset, l.seal.Encode(crc));
  }

  /** Read the fields of a message and compare them, and the CRC with the computed one. */
  method Examine(l: Layout, d: seq<byte>, computed: Bits) returns (v: Verdict)
    requires l.Fits(d) && computed == l.seal.Computed(d)
    ensures v == l.Judge(d)
    ensures v.Good? ==> v.counter < Pow256(l.counterSize)
  {
    var receivedLength := l.LengthOf(d);
    var receivedCounter := l.CounterOf(d);
    var receivedId := l.IdOf(d);
    var receivedCrc := l.seal.Decode(l.seal.Field(d));
    NumberBound(l.Header(d)[l.lengthSize..l.lengthSize + l.counterSize]);
    if receivedCrc == computed {
      if receivedId == l.id {
        if l.lengthSize == 0 || receivedLength == |d| {
          v := Good(receivedCounter);
        } else {
          v := Bad;
        }
      } else {
        v := Bad;
      }
    } else {
      v := Bad;
    }
  }

  /** A region that does not meet the pasted one is kept. */
  lemma RegionKept(d: seq<byte>, off: nat, f: seq<byte>, i: nat, j: nat)
    requires off + |f| <= |d| && i <= j <= |d| && (j <= off || off + |f| <= i)
    ensures Paste(d, off, f)[i..j] == d[i..j]
  {
    var m := Paste(d, off, f);
    PasteKeeps(d, off, f);
    if j <= off {
      assert m[i..j] == m[..off][i..j] && d[i..j] == d[..off][i..j];
    } else {
      var k := off + |f|;
      assert m[i..j] == m[k..][i - k..j - k] && d[i..j] == d[k..][i - k..j - k];
    }
  }

  lemma ProtectedIntact(l: Layout, counter: nat, d: seq<byte>)
    requires l.Fits(d)
    ensures l.seal.Intact(l.Protected(counter, d))
  {
    CloseIntact(l.seal, Paste(d, l.at, l.Fields(counter, |d|)));
  }

  /** Protecting writes the fields ... */
  lemma ProtectedFields(l: Layout, counter: nat, d: seq<byte>)
    requires l.Fits(d)
    ensures l.Header(l.Protected(counter, d)) == l.Fields(counter, |d|)
  {
    var e := Paste(d, l.at, l.Fields(counter, |d|));
    PasteKeeps(d, l.at, l.Fields(counter, |d|));
    RegionKept(e, l.seal.offset, l.seal.Encode(l.seal.Computed(e)), l.at, l.at + l.Size());
  }

  /** ... and the CRC, and nothing else. */
  lemma ProtectedElsewhere(l: Layout, counter: nat, d: seq<byte>, i: nat, j: nat)
    requires l.Fits(d) && i <= j <= |d|
    requires j <= l.at || l.at + l.Size() <= i
    requires j <= l.seal.offset || l.seal.offset + l.seal.p.size <= i
    ensures l.Protected(counter, d)[i..j] == d[i..j]
  {
    var e := Paste(d, l.at, l.Fields(counter, |d|));
    RegionKept(d, l.at, l.Fields(counter, |d|), i, j);
    RegionKept(e, l.seal.offset, l.seal.Encode(l.seal.Computed(e)), i, j);
  }

  lemma FieldParts(l: Layout, counter: nat, length: nat)
    ensures var f, a, b := l.Fields(counter, length), l.lengthSize, l.lengthSize + l.counterSize;
            f[..a] == BigEndian(length, a) && f[a..b] == BigEndian(counter, l.counterSize) && f[b..] == l.id
  {
  }

  /** Reading inverts writing, field by field. */
  lemma ReadFields(l: Layout, m: seq<byte>, counter: nat, length: nat)
    requires l.Fits(m) && counter < Pow256(l.counterSize) && l.Header(m) == l.Fields(counter, length)
    ensures l.CounterOf(m) == counter && l.IdOf(m) == l.id
    ensures length < Pow256(l.lengthSize) ==> l.LengthOf(m) == length
  {
    FieldParts(l, counter, length);
    NumberOfBigEndian(counter, l.counterSize);
    if length < Pow256(l.lengthSize) {
      NumberOfBigEndian(length, l.lengthSize);
    }
  }

  /** What was protected is accepted, and its counter is read back. */
  lemma RoundTrip(l: Layout, counter: nat, d: seq<byte>)
    requires l.Fits(d) && counter < Pow256(l.counterSize)
    ensures l.Judge(l.Protected(counter, d)) == Good(counter)
  {
    ProtectedIntact(l, counter, d);
    ProtectedFields(l, counter, d);
    ReadFields(l, l.Protected(counter, d), counter, |d|);
  }

  lemma SameNumber(s: seq<byte>, n: nat)
    requires n < Pow256(|s|)
    ensures Number(s) == n <==> s == BigEndian(n, |s|)
  {
    NumberOfBigEndian(n, |s|);
    if Number(s) == n {
      BigEndianOfNumber(s);
    }
  }

  /** The verdict in terms of bytes: CRC, length and data ID have to be those of the message, and then
      the counter is what is read. The counter is at i..j, the data ID at j..k, and the CRC ends at z. */
  lemma JudgeMeans(l: Layout, d: seq<byte>, i: nat, j: nat, k: nat, z: nat)
    requires l.Fits(d) && l.seal.prefix == [] && z == l.seal.offset + l.seal.p.size
    requires i == l.at + l.lengthSize && j == i + l.counterSize && k == j + |l.id|
    ensures var s := l.seal;
            l.Judge(d) ==
              if && s.Decode(d[s.offset..z])
                    == Calculate(s.p, Cut(d, s.offset, s.p.size) + s.suffix, Ones(s.p.Width()), s.first)
                 && (l.lengthSize > 0 ==> d[l.at..i] == BigEndian(|d|, l.lengthSize))
                 && d[j..k] == l.id
              then Good(Number(d[i..j])) else Bad
  {
    IntactMeans(l.seal, d, z);
    FieldsMean(l, d, i, j, k);
  }

  /** The same where the CRC, of w bits, covers only the data. */
  lemma JudgeMeansPlain(l: Layout, d: seq<byte>, i: nat, j: nat, k: nat, z: nat, w: nat)
    requires l.Fits(d) && l.seal.prefix == [] && z == l.seal.offset + l.seal.p.size
    requires i == l.at + l.lengthSize && j == i + l.counterSize && k == j + |l.id|
    requires l.seal.suffix == [] && w == l.seal.p.Width()
    ensures var s := l.seal;
            l.Judge(d) ==
              if && s.Decode(d[s.offset..z]) == Calculate(s.p, Cut(d, s.offset, s.p.size), Ones(w), s.first)
                 && (l.lengthSize > 0 ==> d[l.at..i] == BigEndian(|d|, l.lengthSize))
                 && d[j..k] == l.id
              then Good(Number(d[i..j])) else Bad
  {
    JudgeMeans(l, d, i, j, k, z);
    Slices(Cut(d, l.seal.offset, l.seal.p.size), 0);
  }

  lemma FieldsMean(l: Layout, d: seq<byte>, i: nat, j: nat, k: nat)
    requires l.Fits(d) && i == l.at + l.lengthSize && j == i + l.counterSize && k == j + |l.id|
    ensures l.lengthSize > 0 ==> (l.LengthOf(d) == |d| <==> d[l.at..i] == BigEndian(|d|, l.lengthSize))
    ensures l.CounterOf(d) == Number(d[i..j]) && l.IdOf(d) == d[j..k]
  {
    HeaderParts(l, d, i, j, k);
    if l.lengthSize > 0 {
      SameNumber(d[l.at..i], |d|);
    }
  }

  lemma HeaderParts(l: Layout, d: seq<byte>, i: nat, j: nat, k: nat)
    requires l.Fits(d) && i == l.at + l.lengthSize && j == i + l.counterSize && k == j + |l.id|
    ensures l.LengthOf(d) == Number(d[l.at..i]) && l.CounterOf(d) == Number(d[i..j]) && l.IdOf(d) == d[j..k]
  {
    var a, b := l.lengthSize, l.lengthSize + l.counterSize;
    Slices(l.Header(d), a);
    Slices(l.Header(d), b);
    SubSlice(d, l.at, k, 0, a, l.at, i);
    SubSlice(d, l.at, k, a, b, i, j);
    SubSlice(d, l.at, k, b, l.Size(), j, k);
  }

  /** The bytes of a protected message, with the whole header between lo and hi. */
  lemma FormatOf(l: Layout, counter: nat, d: seq<byte>, lo: nat, hi: nat)
    requires l.Fits(d) && l.seal.prefix == []
    requires lo <= l.at && lo <= l.seal.offset && l.at + l.Size() <= hi && l.seal.offset + l.seal.p.size <= hi <= |d|
    ensures var m, s := l.Protected(counter, d), l.seal;
            && m[..lo] == d[..lo] && m[hi..] == d[hi..]
            && m[l.at..l.at + l.Size()] == l.Fields(counter, |d|)
            && s.Decode(m[s.offset..s.offset + s.p.size])
               == Calculate(s.p, Cut(m, s.offset, s.p.size) + s.suffix, Ones(s.p.Width()), s.first)
  {
    ProtectedOutside(l, counter, d, lo, hi);
    ProtectedFields(l, counter, d);
    ProtectedCrc(l, counter, d);
  }

  lemma ProtectedCrc(l: Layout, counter: nat, d: seq<byte>)
    requires l.Fits(d) && l.seal.prefix == []
    ensures var m, s := l.Protected(counter, d), l.seal;
            s.Decode(m[s.offset..s.offset + s.p.size])
            == Calculate(s.p, Cut(m, s.offset, s.p.size) + s.suffix, Ones(s.p.Width()), s.first)
  {
    ProtectedIntact(l, counter, d);
    IntactMeans(l.seal, l.Protected(counter, d), l.seal.offset + l.seal.p.size);
  }

  lemma ProtectedOutside(l: Layout, counter: nat, d: seq<byte>, lo: nat, hi: nat)
    requires l.Fits(d)
    requires lo <= l.at && lo <= l.seal.offset && l.at + l.Size() <= hi && l.seal.offset + l.seal.p.size <= hi <= |d|
    ensures var m := l.Protected(counter, d); m[..lo] == d[..lo] && m[hi..] == d[hi..]
  {
    var m := l.Protected(counter, d);
    Slices(d, lo);
    Slices(m, lo);
    ProtectedElsewhere(l, counter, d, 0, lo);
    Slices(d, hi);
    Slices(m, hi);
    ProtectedElsewhere(l, counter, d, hi, |d|);
  }

  /** A message protected with one data ID is rejected by a receiver that expects another: if the
      ID is transmitted, */
  lemma OtherIdRejected(l: Layout, id: seq<byte>, counter: nat, d: seq<byte>)
    requires l.Fits(d) && counter < Pow256(l.counterSize) && |id| == |l.id| && id != l.id
    ensures l.(id := id).Judge(l.Protected(counter, d)) == Bad
  {
    var m, l' := l.Protected(counter, d), l.(id := id);
    ProtectedFields(l, counter, d);
    ReadFields(l, m, counter, |d|);
    assert l'.Header(m) == l.Header(m);
    assert l'.IdOf(m) == l.IdOf(m);
  }

  /** and if it only enters the CRC. */
  lemma OtherSuffixRejected(l: Layout, suffix: seq<byte>, counter: nat, d: seq<byte>)
    requires l.Fits(d) && |suffix| == |l.seal.suffix| <= l.seal.p.size && suffix != l.seal.suffix
    ensures l.(seal := l.seal.(suffix := suffix)).Judge(l.Protected(counter, d)) == Bad
  {
    ProtectedIntact(l, counter, d);
    OtherSuffixDetected(l.seal, suffix, l.Protected(counter, d));
  }

  /** A message whose length field holds another length is rejected, although its CRC and its data ID
      are right. */
  lemma WrongLengthRejected(l: Layout, n: nat, counter: nat, d: seq<byte>)
    requires l.Fits(d) && l.lengthSize > 0 && n != |d| && n < Pow256(l.lengthSize) && counter < Pow256(l.counterSize)
    ensures var m := l.seal.Close(Paste(d, l.at, l.Fields(counter, n)));
            l.seal.Intact(m) && l.IdOf(m) == l.id && l.Judge(m) == Bad
  {
    var e := Paste(d, l.at, l.Fields(counter, n));
    PasteKeeps(d, l.at, l.Fields(counter, n));
    RegionKept(e, l.seal.offset, l.seal.Encode(l.seal.Computed(e)), l.at, l.at + l.Size());
    CloseIntact(l.seal, e);
    ReadFields(l, l.seal.Close(e), counter, n);
  }

  /** Any change of a single byte of a protected message makes it bad. */
  lemma ByteChangeRejected(l: Layout, counter: nat, d: seq<byte>, k: nat, b: byte)
    requires l.Fits(d) && k < |d| && b != l.Protected(counter, d)[k]
    ensures l.Judge(l.Protected(counter, d)[k := b]) == Bad
  {
    ProtectedIntact(l, counter, d);
    ByteChangeDetected(l.seal, l.Protected(counter, d), k, b);
  }

  /** So does any change inside the CRC field, and any burst elsewhere that is no longer than
      the CRC; bytes i..j are counted without the CRC field. */
  lemma BurstRejected(l: Layout, counter: nat, d: seq<byte>, m': seq<byte>, i: nat, j: nat)
    requires l.Fits(d) && |m'| == |d| && m' != l.Protected(counter, d)
    requires var m, off, n := l.Protected(counter, d), l.seal.offset, l.seal.p.size;
             || Cut(m, off, n) == Cut(m', off, n)
             || (l.seal.Field(m) == l.seal.Field(m') && Burst(l.seal.p, Cut(m, off, n), Cut(m', off, n), i, j))
    ensures l.Judge(m') == Bad
  {
    var m := l.Protected(counter, d);
    ProtectedIntact(l, counter, d);
    if Cut(m, l.seal.offset, l.seal.p.size) == Cut(m', l.seal.offset, l.seal.p.size) {
      if l.seal.Intact(m') {
        FieldDetermined(l.seal, m, m');
      }
    } else {
      CoveredBurstDetected(l.seal, m, m', i, j);
    }
  }

  // ---- Checking ----

  /** A profile with its configuration: the format, the lengths it accepts, and how it compares
      counters. */
  datatype Scheme = Scheme(layout: Layout, minLength: nat, maxLength: nat, classify: Sequencing)
  {
    function Period(): nat { Pow256(layout.counterSize) }

    /** Counter++ */
    function Successor(counter: nat): nat { (counter + 1) % Period() }

    predicate InRange(length: nat)
    {
      minLength <= length <= maxLength
    }

    /** The callers' duty: lengths that pass the range check have room for the header. */
    ghost predicate Fits(length: nat)
    {
      InRange(length) ==> layout.FitsLength(length)
    }

    ghost predicate Ready(i: Input)
    {
      i.Present? ==> Fits(|i.data|)
    }

    function Judge(i: Input): Verdict
      requires Ready(i)
    {
      match i
      case Absent(length) => if length == 0 then Missing else InputError
      case Present(d) => if |d| == 0 || !InRange(|d|) then InputError else layout.Judge(d)
    }

    /** The state after one check. */
    function Check(rx: Rx, i: Input): Rx
      requires Ready(i)
    {
      Receive(classify, rx, Judge(i))
    }

    function Judgements(inputs: seq<Input>): (vs: seq<Verdict>)
      requires forall k :: 0 <= k < |inputs| ==> Ready(inputs[k])
      ensures |vs| == |inputs|
    {
      seq(|inputs|, k requires 0 <= k < |inputs| => Judge(inputs[k]))
    }

    /** The state after a run of checks. */
    function CheckAll(rx: Rx, inputs: seq<Input>): Rx
      requires forall k :: 0 <= k < |inputs| ==> Ready(inputs[k])
    {
      if inputs == [] then rx else Check(CheckAll(rx, inputs[..|inputs| - 1]), inputs[|inputs| - 1])
    }

    /** Message number i of a sender that started at counter 0. */
    function Message(payloads: seq<seq<byte>>, i: nat): seq<byte>
      requires i < |payloads| && layout.Fits(payloads[i])
    {
      layout.Protected(i % Period(), payloads[i])
    }

    /** In each cycle of the run, the stated message arrives or nothing that is good. */
    ghost predicate Transmits(payloads: seq<seq<byte>>, run: seq<Cycle>, inputs: seq<Input>)
      requires forall k :: 0 <= k < |inputs| ==> Ready(inputs[k])
    {
      && |run| == |inputs|
      && (forall i :: 0 <= i < |payloads| ==> 0 < |payloads[i]| && InRange(|payloads[i]|) && layout.Fits(payloads[i]))
      && (forall k :: 0 <= k < |run| ==>
            match run[k]
            case Delivered(i) => i < |payloads| && inputs[k] == Present(Message(payloads, i))
            case Nothing => !Judge(inputs[k]).Good?)
    }
  }

  lemma {:induction false} CheckAllIsReceiveAll(s: Scheme, rx: Rx, inputs: seq<Input>)
    requires forall k :: 0 <= k < |inputs| ==> s.Ready(inputs[k])
    ensures s.CheckAll(rx, inputs) == ReceiveAll(s.classify, rx, s.Judgements(inputs))
  {
    if inputs != [] {
      CheckAllIsReceiveAll(s, rx, inputs[..|inputs| - 1]);
      var vs := s.Judgements(inputs);
      assert vs[..|vs| - 1] == s.Judgements(inputs[..|inputs| - 1]);
    }
  }

  /** What a check does without a good message: there is an input error, and nothing changes, exactly if
      data is missing or has a wrong length; otherwise the report is that there is no new data, or an
      error, and the counter is kept. */
  lemma Unheard(s: Scheme, rx: Rx, i: Input)
    requires s.Ready(i)
    ensures s.Judge(i) == InputError <==>
      (i.Absent? && i.length > 0) || (i.Present? && (i.data == [] || !(s.minLength <= |i.data| <= s.maxLength)))
    ensures s.Judge(i) == InputError ==> s.Check(rx, i) == rx
    ensures s.Judge(i) != InputError && !s.Judge(i).Good? ==>
      s.Check(rx, i) == Rx(rx.counter, if i.Absent? then NoNewData else Error)
  {
  }

  /** The inputs of the cycles that ended with a status of the sequence check. */
  function Kept(s: Scheme, rx: Rx, inputs: seq<Input>): (kept: seq<Input>)
    requires forall k :: 0 <= k < |inputs| ==> s.Ready(inputs[k])
    ensures forall k :: 0 <= k < |kept| ==> s.Ready(kept[k])
  {
    if inputs == [] then []
    else
      var init, last := inputs[..|inputs| - 1], inputs[|inputs| - 1];
      if Ended(s.Judge(last), s.CheckAll(rx, inputs).status) then Kept(s, rx, init) + [last]
      else Kept(s, rx, init)
  }

  lemma CheckLast(s: Scheme, rx: Rx, inputs: seq<Input>, last: Input)
    requires (forall k :: 0 <= k < |inputs| ==> s.Ready(inputs[k])) && s.Ready(last)
    ensures s.CheckAll(rx, inputs + [last]) == s.Check(s.CheckAll(rx, inputs), last)
  {
    assert (inputs + [last])[..|inputs + [last]| - 1] == inputs;
  }

  /** Deleting from a run all cycles that ended in NONEWDATA, in ERROR or in an input error changes
      no other status and not the counter. */
  lemma {:induction false} DeletionUnnoticed(s: Scheme, rx: Rx, inputs: seq<Input>)
    requires Reports(s.classify) && forall k :: 0 <= k < |inputs| ==> s.Ready(inputs[k])
    ensures s.CheckAll(rx, Kept(s, rx, inputs)).counter == s.CheckAll(rx, inputs).counter
    ensures inputs != [] && Ended(s.Judge(inputs[|inputs| - 1]), s.CheckAll(rx, inputs).status) ==>
      s.CheckAll(rx, Kept(s, rx, inputs)) == s.CheckAll(rx, inputs)
  {
    if inputs != [] {
      var init, last := inputs[..|inputs| - 1], inputs[|inputs| - 1];
      DeletionUnnoticed(s, rx, init);
      EndedMeansGood(s.classify, s.CheckAll(rx, init), s.Judge(last));
      CheckLast(s, rx, Kept(s, rx, init), last);
    }
  }

  lemma MessageGood(s: Scheme, counter: nat, d: seq<byte>)
    requires 0 < |d| && s.InRange(|d|) && s.layout.Fits(d) && counter < s.Period()
    ensures s.Judge(Present(s.layout.Protected(counter, d))) == Good(counter)
  {
    RoundTrip(s.layout, counter, d);
  }

  lemma TransmitsJudged(s: Scheme, payloads: seq<seq<byte>>, run: seq<Cycle>, inputs: seq<Input>)
    requires forall k :: 0 <= k < |inputs| ==> s.Ready(inputs[k])
    requires s.Transmits(payloads, run, inputs)
    ensures Judged(run, s.Judgements(inputs), s.Period())
  {
    forall k | 0 <= k < |run| && run[k].Delivered?
      ensures s.Judgements(inputs)[k] == Good(run[k].index % s.Period())
    {
      var i := run[k].index;
      MessageGood(s, i % s.Period(), payloads[i]);
      assert inputs[k] == Present(s.Message(payloads, i));
    }
  }

  /** End to end over a channel that drops, repeats and damages messages but keeps their order:
      a delivered message is reported with the status its distance from the last delivered
      one deserves. */
  lemma ChannelStatus(
    s: Scheme, maxDelta: nat, rx: Rx, payloads: seq<seq<byte>>, run: seq<Cycle>, inputs: seq<Input>)
    requires Modular(s.classify, s.Period(), maxDelta) && rx.counter == s.Period() - 1
    requires forall k :: 0 <= k < |inputs| ==> s.Ready(inputs[k])
    requires s.Transmits(payloads, run, inputs) && InOrder(run, s.Period())
    requires run != [] && run[|run| - 1].Delivered?
    ensures s.CheckAll(rx, inputs).status == Deserved(run[|run| - 1].index - LastIndex(run[..|run| - 1]), maxDelta)
  {
    CheckAllIsReceiveAll(s, rx, inputs);
    TransmitsJudged(s, payloads, run, inputs);
    DeliveredGetsDeserved(s.classify, rx, run, s.Judgements(inputs), s.Period(), maxDelta);
  }

  /** A protected message with one byte changed is reported as an error, and the receiver goes on
      as if it had not arrived. */
  lemma DamageReported(s: Scheme, rx: Rx, counter: nat, d: seq<byte>, k: nat, b: byte)
    requires 0 < |d| && s.InRange(|d|) && s.layout.Fits(d)
    requires k < |d| && b != s.layout.Protected(counter, d)[k]
    ensures s.Check(rx, Present(s.layout.Protected(counter, d)[k := b])) == rx.(status := Error)
  {
    ByteChangeRejected(s.layout, counter, d, k, b);
  }
}
