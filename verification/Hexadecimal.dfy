/** Words written in hexadecimal digits, for calculations on literals: a word is a nest of groups of
digits, and shifting and adding words is a matter of bits alone. */
module Hexadecimal {
  import opened Bits

  datatype Digit = Digit(a: bool, b: bool, c: bool, d: bool)
  {
    function Number(): nat
    {
      (if a then 8 else 0) + (if b then 4 else 0) + (if c then 2 else 0) + if d then 1 else 0
    }

    function InBits(): (s: Bits)
      ensures |s| == 4
    {
      [a, b, c, d]
    }

    /** Shifted by one place, with the bit that enters. */
    function Up(last: bool): Digit { Digit(b, c, d, last) }

    function Down(first: bool): Digit { Digit(first, a, b, c) }

    function Plus(e: Digit): Digit { Digit(a != e.a, b != e.b, c != e.c, d != e.d) }

    function Flipped(): Digit { Digit(d, c, b, a) }
  }

  const H0 := Digit(false, false, false, false)
  const H1 := Digit(false, false, false, true)
  const H2 := Digit(false, false, true, false)
  const H3 := Digit(false, false, true, true)
  const H4 := Digit(false, true, false, false)
  const H5 := Digit(false, true, false, true)
  const H6 := Digit(false, true, true, false)
  const H7 := Digit(false, true, true, true)
  const H8 := Digit(true, false, false, false)
  const H9 := Digit(true, false, false, true)
  const HA := Digit(true, false, true, false)
  const HB := Digit(true, false, true, true)
  const HC := Digit(true, true, false, false)
  const HD := Digit(true, true, false, true)
  const HE := Digit(true, true, true, false)
  const HF := Digit(true, true, true, true)

  /** Words of two digits, or of groups of four. */
  datatype Word = Empty | Pair(a: Digit, b: Digit) | Quad(rest: Word, a: Digit, b: Digit, c: Digit, d: Digit)
  {
    predicate First()
    {
      match this
      case Empty => false
      case Pair(a, _) => a.a
      case Quad(r, a, _, _, _) => if r.Empty? then a.a else r.First()
    }

    predicate Last()
    {
      match this
      case Empty => false
      case Pair(_, b) => b.d
      case Quad(_, _, _, _, d) => d.d
    }

    /** Shifted left, with the bit that enters, and with another word added. */
    function Up(last: bool): Word
    {
      match this
      case Empty => Empty
      case Pair(a, b) => Pair(a.Up(b.a), b.Up(last))
      case Quad(r, a, b, c, d) => Quad(r.Up(a.a), a.Up(b.a), b.Up(c.a), c.Up(d.a), d.Up(last))
    }

    /** Shifted right. */
    function Down(): Word
    {
      match this
      case Empty => Empty
      case Pair(a, b) => Pair(a.Down(false), b.Down(a.d))
      case Quad(r, a, b, c, d) => Quad(r.Down(), a.Down(r.Last()), b.Down(a.d), c.Down(b.d), d.Down(c.d))
    }

    function Plus(v: Word): Word
    {
      match (this, v)
      case (Pair(a, b), Pair(e, f)) => Pair(a.Plus(e), b.Plus(f))
      case (Quad(r, a, b, c, d), Quad(s, e, f, g, h)) =>
        Quad(r.Plus(s), a.Plus(e), b.Plus(f), c.Plus(g), d.Plus(h))
      case _ => Empty
    }

    /** Behind the given word, the mirror image of this one. */
    function Flipped(front: Word): Word
    {
      match this
      case Empty => front
      case Pair(a, b) => Pair(b.Flipped(), a.Flipped())
      case Quad(r, a, b, c, d) => r.Flipped(Quad(front, d.Flipped(), c.Flipped(), b.Flipped(), a.Flipped()))
    }
  }

  function Shift(poly: Word, w: Word): Word
  {
    if w.First() then w.Up(false).Plus(poly) else w.Up(false)
  }

  function ShiftDown(poly: Word, w: Word): Word
  {
    if w.Last() then w.Down().Plus(poly) else w.Down()
  }

  // ---- What words denote ----

  function DigitBits(x: Digit): (s: Bits)
    ensures |s| == 4
  {
    [x.a, x.b, x.c, x.d]
  }

  function DigitNumber(x: Digit): nat
  {
    (if x.a then 8 else 0) + (if x.b then 4 else 0) + (if x.c then 2 else 0) + if x.d then 1 else 0
  }

  function PairBits(a: Digit, b: Digit): (s: Bits)
    ensures |s| == 8
  {
    DigitBits(a) + DigitBits(b)
  }

  function QuadBits(a: Digit, b: Digit, c: Digit, d: Digit): (s: Bits)
    ensures |s| == 16
  {
    PairBits(a, b) + PairBits(c, d)
  }

  function PairNumber(a: Digit, b: Digit): nat
  {
    16 * DigitNumber(a) + DigitNumber(b)
  }

  function Length(w: Word): nat
  {
    match w
    case Empty => 0
    case Pair(_, _) => 8
    case Quad(r, _, _, _, _) => Length(r) + 16
  }

  function InBits(w: Word): (s: Bits)
    ensures |s| == Length(w)
  {
    match w
    case Empty => []
    case Pair(a, b) => PairBits(a, b)
    case Quad(r, a, b, c, d) => InBits(r) + QuadBits(a, b, c, d)
  }

  function Number(w: Word): nat
  {
    match w
    case Empty => 0
    case Pair(a, b) => PairNumber(a, b)
    case Quad(r, a, b, c, d) => 0x1_0000 * Number(r) + 0x100 * PairNumber(a, b) + PairNumber(c, d)
  }

  lemma OneBit(m: nat, b: bool, n: nat, v: nat, k: nat)
    requires v == 2 * m + (if b then 1 else 0) && k == n + 1
    ensures BitsOf(v, k) == BitsOf(m, n) + [b]
  {
  }

  lemma FourParts(s: Bits, x: Digit)
    ensures s + [x.a] + [x.b] + [x.c] + [x.d] == s + DigitBits(x)
  {
  }

  lemma OneDigit(m: nat, x: Digit, n: nat, v: nat, k: nat)
    requires v == 16 * m + DigitNumber(x) && k == n + 4
    ensures BitsOf(v, k) == BitsOf(m, n) + DigitBits(x)
  {
    var v1 := 2 * m + if x.a then 1 else 0;
    var v2 := 2 * v1 + if x.b then 1 else 0;
    var v3 := 2 * v2 + if x.c then 1 else 0;
    OneBit(m, x.a, n, v1, n + 1);
    OneBit(v1, x.b, n + 1, v2, n + 2);
    OneBit(v2, x.c, n + 2, v3, n + 3);
    OneBit(v3, x.d, n + 3, v, k);
    FourParts(BitsOf(m, n), x);
  }

  lemma ThreeParts(a: Bits, b: Bits, c: Bits)
    ensures a + b + c == a + (b + c)
  {
  }

  lemma TwoDigits(m: nat, a: Digit, b: Digit, n: nat, v: nat, k: nat)
    requires v == 0x100 * m + PairNumber(a, b) && k == n + 8
    ensures BitsOf(v, k) == BitsOf(m, n) + PairBits(a, b)
  {
    var u, i := 16 * m + DigitNumber(a), n + 4;
    OneDigit(m, a, n, u, i);
    OneDigit(u, b, i, v, k);
    ThreeParts(BitsOf(m, n), DigitBits(a), DigitBits(b));
  }

  lemma FourDigits(m: nat, a: Digit, b: Digit, c: Digit, d: Digit, n: nat, v: nat, k: nat)
    requires v == 0x1_0000 * m + 0x100 * PairNumber(a, b) + PairNumber(c, d) && k == n + 16
    ensures BitsOf(v, k) == BitsOf(m, n) + QuadBits(a, b, c, d)
  {
    var u, i := 0x100 * m + PairNumber(a, b), n + 8;
    TwoDigits(m, a, b, n, u, i);
    TwoDigits(u, c, d, i, v, k);
    ThreeParts(BitsOf(m, n), PairBits(a, b), PairBits(c, d));
  }

  lemma {:induction false} NumberBits(w: Word, n: nat)
    requires n == Length(w)
    ensures BitsOf(Number(w), n) == InBits(w)
  {
    match w
    case Empty =>
    case Pair(a, b) =>
      TwoDigits(0, a, b, n - 8, Number(w), n);
    case Quad(r, a, b, c, d) =>
      NumberBits(r, n - 16);
      FourDigits(Number(r), a, b, c, d, n - 16, Number(w), n);
  }

  /** A bit enters at the end, and the first one leaves. */
  function Raised(s: Bits, last: bool): (t: Bits)
    ensures |t| == |s|
  {
    (s + [last])[1..]
  }

  lemma RaisedConcat(s: Bits, t: Bits, last: bool)
    requires t != []
    ensures Raised(s + t, last) == Raised(s, t[0]) + Raised(t, last)
  {
  }

  lemma RaisedDigit(x: Digit, last: bool)
    ensures DigitBits(x.Up(last)) == Raised(DigitBits(x), last)
  {
  }

  lemma RaisedPair(a: Digit, b: Digit, last: bool)
    ensures PairBits(a.Up(b.a), b.Up(last)) == Raised(PairBits(a, b), last)
  {
    RaisedDigit(a, b.a);
    RaisedDigit(b, last);
    RaisedConcat(DigitBits(a), DigitBits(b), last);
  }

  lemma RaisedQuad(a: Digit, b: Digit, c: Digit, d: Digit, last: bool)
    ensures QuadBits(a.Up(b.a), b.Up(c.a), c.Up(d.a), d.Up(last)) == Raised(QuadBits(a, b, c, d), last)
  {
    RaisedPair(a, b, c.a);
    RaisedPair(c, d, last);
    RaisedConcat(PairBits(a, b), PairBits(c, d), last);
  }

  lemma {:induction false} UpBits(w: Word, last: bool)
    ensures InBits(w.Up(last)) == Raised(InBits(w), last)
    ensures !w.Empty? ==> |InBits(w)| > 0 && w.First() == InBits(w)[0]
  {
    match w
    case Empty =>
    case Pair(a, b) =>
      RaisedPair(a, b, last);
    case Quad(r, a, b, c, d) =>
      UpBits(r, a.a);
      RaisedQuad(a, b, c, d, last);
      RaisedConcat(InBits(r), QuadBits(a, b, c, d), last);
  }

  /** A bit enters in front, and the last one leaves. */
  function Lowered(s: Bits, first: bool): (t: Bits)
    ensures |t| == |s|
  {
    ([first] + s)[..|s|]
  }

  lemma LoweredConcat(s: Bits, t: Bits, first: bool)
    requires s != []
    ensures Lowered(s + t, first) == Lowered(s, first) + Lowered(t, s[|s| - 1])
  {
  }

  lemma LoweredDigit(x: Digit, first: bool)
    ensures DigitBits(x.Down(first)) == Lowered(DigitBits(x), first)
  {
  }

  lemma LoweredPair(a: Digit, b: Digit, first: bool)
    ensures PairBits(a.Down(first), b.Down(a.d)) == Lowered(PairBits(a, b), first)
  {
    LoweredDigit(a, first);
    LoweredDigit(b, a.d);
    LoweredConcat(DigitBits(a), DigitBits(b), first);
  }

  lemma LoweredQuad(a: Digit, b: Digit, c: Digit, d: Digit, first: bool)
    ensures QuadBits(a.Down(first), b.Down(a.d), c.Down(b.d), d.Down(c.d)) == Lowered(QuadBits(a, b, c, d), first)
  {
    LoweredPair(a, b, first);
    LoweredPair(c, d, b.d);
    LoweredConcat(PairBits(a, b), PairBits(c, d), first);
  }

  lemma {:induction false} DownBits(w: Word)
    ensures InBits(w.Down()) == Lowered(InBits(w), false)
    ensures !w.Empty? ==> |InBits(w)| > 0 && w.Last() == InBits(w)[|InBits(w)| - 1]
  {
    match w
    case Empty =>
    case Pair(a, b) =>
      LoweredPair(a, b, false);
    case Quad(r, a, b, c, d) =>
      DownBits(r);
      LoweredQuad(a, b, c, d, r.Last());
      if !r.Empty? {
        LoweredConcat(InBits(r), QuadBits(a, b, c, d), false);
      }
  }

  lemma XorConcat(a: Bits, b: Bits, c: Bits, d: Bits)
    requires |a| == |c| && |b| == |d|
    ensures Xor(a + b, c + d) == Xor(a, c) + Xor(b, d)
  {
  }

  lemma XorDigit(x: Digit, y: Digit)
    ensures DigitBits(x.Plus(y)) == Xor(DigitBits(x), DigitBits(y))
  {
  }

  lemma XorPair(a: Digit, b: Digit, e: Digit, f: Digit)
    ensures PairBits(a.Plus(e), b.Plus(f)) == Xor(PairBits(a, b), PairBits(e, f))
  {
    XorDigit(a, e);
    XorDigit(b, f);
    XorConcat(DigitBits(a), DigitBits(b), DigitBits(e), DigitBits(f));
  }

  /** Words of the same shape. */
  predicate Alike(w: Word, v: Word)
  {
    match (w, v)
    case (Quad(r, _, _, _, _), Quad(s, _, _, _, _)) => Alike(r, s)
    case _ => (w.Empty? && v.Empty?) || (w.Pair? && v.Pair?)
  }

  lemma {:induction false} PlusBits(w: Word, v: Word)
    requires Alike(w, v)
    ensures |InBits(w)| == |InBits(v)| && InBits(w.Plus(v)) == Xor(InBits(w), InBits(v))
  {
    match (w, v)
    case (Pair(a, b), Pair(e, f)) =>
      XorPair(a, b, e, f);
    case (Quad(r, a, b, c, d), Quad(s, e, f, g, h)) =>
      PlusBits(r, s);
      XorPair(a, b, e, f);
      XorPair(c, d, g, h);
      XorConcat(PairBits(a, b), PairBits(c, d), PairBits(e, f), PairBits(g, h));
      XorConcat(InBits(r), QuadBits(a, b, c, d), InBits(s), QuadBits(e, f, g, h));
    case _ =>
  }

  lemma {:induction false} ShiftedAlike(w: Word, v: Word, last: bool)
    requires Alike(w, v)
    ensures Alike(w.Up(last), v) && Alike(w.Down(), v)
  {
    match (w, v)
    case (Quad(r, a, _, _, _), Quad(s, _, _, _, _)) => ShiftedAlike(r, s, a.a);
    case _ =>
  }

  lemma ReverseConcat(a: Bits, b: Bits)
    ensures Reverse(a + b) == Reverse(b) + Reverse(a)
  {
  }

  lemma FlippedDigit(x: Digit)
    ensures DigitBits(x.Flipped()) == Reverse(DigitBits(x))
  {
  }

  lemma FlippedPair(a: Digit, b: Digit)
    ensures PairBits(b.Flipped(), a.Flipped()) == Reverse(PairBits(a, b))
  {
    FlippedDigit(a);
    FlippedDigit(b);
    ReverseConcat(DigitBits(a), DigitBits(b));
  }

  lemma FlippedQuad(a: Digit, b: Digit, c: Digit, d: Digit)
    ensures QuadBits(d.Flipped(), c.Flipped(), b.Flipped(), a.Flipped()) == Reverse(QuadBits(a, b, c, d))
  {
    FlippedPair(a, b);
    FlippedPair(c, d);
    ReverseConcat(PairBits(a, b), PairBits(c, d));
  }

  predicate InQuads(w: Word)
  {
    w.Empty? || (w.Quad? && InQuads(w.rest))
  }

  lemma {:induction false} FlippedBits(w: Word, front: Word)
    requires InQuads(w)
    ensures InBits(w.Flipped(front)) == InBits(front) + Reverse(InBits(w))
  {
    match w
    case Empty =>
      assert InBits(front) + [] == InBits(front);
    case Quad(r, a, b, c, d) =>
      FlippedBits(r, Quad(front, d.Flipped(), c.Flipped(), b.Flipped(), a.Flipped()));
      FlippedQuad(a, b, c, d);
      ReverseConcat(InBits(r), QuadBits(a, b, c, d));
      ThreeParts(InBits(front), Reverse(QuadBits(a, b, c, d)), Reverse(InBits(r)));
  }
}
