/** What every CRC of the library guarantees: calls chain, registers never merge, and a burst of
wrong bytes no longer than the CRC itself is always noticed. */
module CrcTheory {
  import opened Bits
  import opened Crc

  // ---- Shifting is linear ----

  lemma StepXor(poly: Bits, a: Bits, b: Bits)
    requires |a| == |b| == |poly| > 0
    ensures Step(poly, Xor(a, b)) == Xor(Step(poly, a), Step(poly, b))
  {
  }

  lemma {:induction false} StepsXor(poly: Bits, a: Bits, b: Bits, n: nat)
    requires |a| == |b| == |poly| > 0
    ensures Steps(poly, Xor(a, b), n) == Xor(Steps(poly, a, n), Steps(poly, b, n))
  {
    if n > 0 {
      StepsXor(poly, a, b, n - 1);
      StepXor(poly, Steps(poly, a, n - 1), Steps(poly, b, n - 1));
    }
  }

  ghost predicate HeadZero(r: Bits, n: nat)
  {
    n <= |r| && forall i :: 0 <= i < n ==> !r[i]
  }

  ghost predicate TailZero(r: Bits, k: nat)
  {
    k <= |r| && forall i :: |r| - k <= i < |r| ==> !r[i]
  }

  /** While only zeros are shifted out there is no feedback. */
  lemma {:induction false} StepsQuiet(poly: Bits, r: Bits, n: nat)
    requires |r| == |poly| > 0 && HeadZero(r, n)
    ensures Steps(poly, r, n) == r[n..] + Zeros(n)
  {
    if n > 0 {
      StepsQuiet(poly, r, n - 1);
      var s := r[n - 1..] + Zeros(n - 1);
      assert !s[0];
      assert ShiftLeft(s) == r[n..] + Zeros(n);
    }
  }

  /** Zeros at the low end after n shifts show that only zeros were shifted out: the polynomial
      would have left its constant term there. */
  lemma {:induction false} StepsBack(poly: Bits, r: Bits, k: nat, n: nat)
    requires |r| == |poly| > 0 && poly[|poly| - 1]
    requires k + n <= |r| && TailZero(Steps(poly, r, n), k + n)
    ensures HeadZero(r, n) && TailZero(r, k)
  {
    if n > 0 {
      var s := Steps(poly, r, n - 1);
      assert !Step(poly, s)[|r| - 1];
      assert !s[0];
      forall i | |r| - (k + n - 1) <= i < |r| ensures !s[i] {
        assert Step(poly, s)[i - 1] == s[i];
      }
      StepsBack(poly, r, k, n - 1);
      StepsQuiet(poly, r, n - 1);
      assert s[0] == r[n - 1];
    }
  }

  // ---- Chaining ----

  lemma {:induction false} RunConcat(p: Params, r: Bits, a: seq<byte>, b: seq<byte>)
    requires |r| == p.Width()
    ensures Run(p, r, a + b) == Run(p, Run(p, r, a), b)
  {
    if b == [] {
      assert a + b == a;
    } else {
      assert (a + b)[..|a + b| - 1] == a + b[..|b| - 1];
      RunConcat(p, r, a, b[..|b| - 1]);
    }
  }

  lemma RunCons(p: Params, r: Bits, s: seq<byte>)
    requires |r| == p.Width() && s != []
    ensures Run(p, r, s) == Run(p, Feed(p, r, s[0]), s[1..])
  {
    assert s == s[..1] + s[1..];
    RunConcat(p, r, s[..1], s[1..]);
    assert s[..1][..0] == [];
    assert Run(p, r, s[..1][..0]) == r;
  }

  /** A returned value, given back as start value, continues from the register it stands for. */
  lemma StartOfFinish(p: Params, r: Bits)
    requires |r| == p.Width()
    ensures Start(p, Finish(p, r), false) == r
  {
    XorTwice(p.Mirror(r), p.xorOut);
    ReverseInvolution(r);
  }

  /** Feeding a buffer in two calls is the same as feeding it in one. */
  lemma Chain(p: Params, a: seq<byte>, b: seq<byte>, start: Bits, first: bool)
    requires |start| == p.Width()
    ensures Calculate(p, b, Calculate(p, a, start, first), false) == Calculate(p, a + b, start, first)
  {
    var r := Start(p, start, first);
    StartOfFinish(p, Run(p, r, a));
    RunConcat(p, r, a, b);
  }

  lemma FinishInjective(p: Params, r: Bits, r': Bits)
    requires |r| == |r'| == p.Width() && Finish(p, r) == Finish(p, r')
    ensures r == r'
  {
    StartOfFinish(p, r);
    StartOfFinish(p, r');
  }

  // ---- Error detection ----

  /** The difference of two fed registers is the difference shifted eight times. */
  lemma FeedDifference(p: Params, r: Bits, r': Bits, b: byte, b': byte)
    requires |r| == |r'| == p.Width()
    ensures Xor(Feed(p, r, b), Feed(p, r', b'))
         == Steps(p.poly, Xor(Xor(r, r'), Xor(Load(p, b), Load(p, b'))), 8)
  {
    StepsXor(p.poly, Xor(r, Load(p, b)), Xor(r', Load(p, b')), 8);
    assert Xor(Xor(r, Load(p, b)), Xor(r', Load(p, b')))
        == Xor(Xor(r, r'), Xor(Load(p, b), Load(p, b')));
  }

  lemma LoadInjective(p: Params, b: byte, b': byte)
    requires Load(p, b)[..8] == Load(p, b')[..8]
    ensures b == b'
  {
    ReverseInvolution(ByteBits(b));
    ReverseInvolution(ByteBits(b'));
    ByteBitsInjective(b, b');
  }

  /** If two registers agree in their k + 8 low bits after a byte, they agreed in their k low
      bits before it; and if they were equal before it, so were the bytes. */
  lemma FeedNear(p: Params, k: nat, r: Bits, r': Bits, b: byte, b': byte)
    requires |r| == |r'| == p.Width() && k + 8 <= p.Width()
    requires TailZero(Xor(Feed(p, r, b), Feed(p, r', b')), k + 8)
    ensures TailZero(Xor(r, r'), k)
    ensures r == r' ==> b == b'
  {
    var d, e := Xor(r, r'), Xor(Load(p, b), Load(p, b'));
    FeedDifference(p, r, r', b, b');
    StepsBack(p.poly, Xor(d, e), k, 8);
    forall i | |r| - k <= i < |r| ensures !d[i] {
      assert !Xor(d, e)[i] && !e[i];
    }
    if r == r' {
      forall i | 0 <= i < 8 ensures Load(p, b)[i] == Load(p, b')[i] {
        assert !Xor(d, e)[i] && !d[i];
      }
      LoadInjective(p, b, b');
    }
  }

  lemma FeedInjective(p: Params, r: Bits, r': Bits, b: byte)
    requires |r| == |r'| == p.Width()
    requires Feed(p, r, b) == Feed(p, r', b)
    ensures r == r'
  {
    var w, d := p.Width(), Xor(r, r');
    FeedDifference(p, r, r', b, b);
    assert Xor(d, Xor(Load(p, b), Load(p, b))) == d;
    StepsBack(p.poly, d, w - 8, 8);
    StepsQuiet(p.poly, d, 8);
    forall i | 0 <= i < w ensures r[i] == r'[i] {
      assert d[i] == (r[i] != r'[i]);
    }
  }

  /** Different registers stay different, whatever message follows. */
  lemma {:induction false} RunInjective(p: Params, r: Bits, r': Bits, s: seq<byte>)
    requires |r| == |r'| == p.Width()
    requires Run(p, r, s) == Run(p, r', s)
    ensures r == r'
  {
    if s != [] {
      var t := s[..|s| - 1];
      FeedInjective(p, Run(p, r, t), Run(p, r', t), s[|s| - 1]);
      RunInjective(p, r, r', t);
    }
  }

  lemma {:induction false} NearBeforeEqual(p: Params, r: Bits, r': Bits, u: seq<byte>, v: seq<byte>)
    requires |r| == |r'| == p.Width() && |u| == |v| <= p.size
    requires Run(p, r, u) == Run(p, r', v)
    ensures TailZero(Xor(r, r'), p.Width() - 8 * |u|)
    decreases |u|
  {
    if u == [] {
      XorZeros(r);
    } else {
      RunCons(p, r, u);
      RunCons(p, r', v);
      NearBeforeEqual(p, Feed(p, r, u[0]), Feed(p, r', v[0]), u[1..], v[1..]);
      FeedNear(p, p.Width() - 8 * |u|, r, r', u[0], v[0]);
    }
  }

  /** No two messages that fit into the register have the same effect on it. */
  lemma {:induction false} ShortRunInjective(p: Params, r: Bits, u: seq<byte>, v: seq<byte>)
    requires |r| == p.Width() && |u| == |v| <= p.size
    requires Run(p, r, u) == Run(p, r, v)
    ensures u == v
    decreases |u|
  {
    if u != [] {
      RunCons(p, r, u);
      RunCons(p, r, v);
      NearBeforeEqual(p, Feed(p, r, u[0]), Feed(p, r, v[0]), u[1..], v[1..]);
      FeedNear(p, p.Width() - 8 * |u|, r, r, u[0], v[0]);
      ShortRunInjective(p, Feed(p, r, u[0]), u[1..], v[1..]);
      assert u == [u[0]] + u[1..] && v == [v[0]] + v[1..];
    }
  }

  /** The messages differ, but only in bytes i..j, and no more bytes than the register holds. */
  ghost predicate Burst(p: Params, c: seq<byte>, c': seq<byte>, i: nat, j: nat)
  {
    && c != c' && |c| == |c'| && i <= j <= |c| && j - i <= p.size
    && c[..i] == c'[..i] && c[j..] == c'[j..]
  }

  lemma BurstBetween(p: Params, r: Bits, a: seq<byte>, u: seq<byte>, v: seq<byte>, z: seq<byte>)
    requires |r| == p.Width() && |u| == |v| <= p.size && u != v
    ensures Run(p, r, a + u + z) != Run(p, r, a + v + z)
  {
    var s := Run(p, r, a);
    RunConcat(p, r, a, u);
    RunConcat(p, r, a, v);
    RunConcat(p, r, a + u, z);
    RunConcat(p, r, a + v, z);
    if Run(p, r, a + u + z) == Run(p, r, a + v + z) {
      RunInjective(p, Run(p, s, u), Run(p, s, v), z);
      ShortRunInjective(p, s, u, v);
    }
  }

  /** Every burst changes the register, whatever bytes follow it. */
  lemma BurstDetected(p: Params, r: Bits, c: seq<byte>, c': seq<byte>, i: nat, j: nat)
    requires |r| == p.Width() && Burst(p, c, c', i, j)
    ensures Run(p, r, c) != Run(p, r, c')
  {
    assert c == c[..i] + c[i..j] + c[j..] && c' == c'[..i] + c'[i..j] + c'[j..];
    BurstBetween(p, r, c[..i], c[i..j], c'[i..j], c[j..]);
  }

  lemma BurstChangesCrc(p: Params, c: seq<byte>, c': seq<byte>, i: nat, j: nat, start: Bits, first: bool)
    requires |start| == p.Width() && Burst(p, c, c', i, j)
    ensures Calculate(p, c, start, first) != Calculate(p, c', start, first)
  {
    var r := Start(p, start, first);
    BurstDetected(p, r, c, c', i, j);
    if Finish(p, Run(p, r, c)) == Finish(p, Run(p, r, c')) {
      FinishInjective(p, Run(p, r, c), Run(p, r, c'));
    }
  }

  // ---- Two differences that cancel ----

  lemma {:induction false} StepsAdd(poly: Bits, r: Bits, m: nat, n: nat, total: nat)
    requires |r| == |poly| > 0 && total == m + n
    ensures Steps(poly, r, total) == Steps(poly, Steps(poly, r, m), n)
  {
    if n > 0 {
      StepsAdd(poly, r, m, n - 1, total - 1);
    }
  }

  /** Two registers fed with the same bytes differ by their difference, shifted along n times. */
  lemma {:induction false} RunDifference(p: Params, r: Bits, r': Bits, s: seq<byte>, n: nat)
    requires |r| == |r'| == p.Width() && n == 8 * |s|
    ensures Xor(Run(p, r, s), Run(p, r', s)) == Steps(p.poly, Xor(r, r'), n)
  {
    if s != [] {
      var t, b, m := s[..|s| - 1], s[|s| - 1], 8;
      RunDifference(p, r, r', t, n - m);
      ShiftedOnce(p, Run(p, r, t), Run(p, r', t), b, Xor(r, r'), n - m, m, n);
    }
  }

  lemma ShiftedOnce(p: Params, q: Bits, q': Bits, b: byte, e: Bits, k: nat, m: nat, n: nat)
    requires |q| == |q'| == |e| == p.Width() && m == 8 && n == k + m && Xor(q, q') == Steps(p.poly, e, k)
    ensures Xor(Feed(p, q, b), Feed(p, q', b)) == Steps(p.poly, e, n)
  {
    SameByte(p, q, q', b, m);
    StepsAdd(p.poly, e, k, m, n);
  }

  lemma SameByte(p: Params, r: Bits, r': Bits, b: byte, m: nat)
    requires |r| == |r'| == p.Width() && m == 8
    ensures Xor(Feed(p, r, b), Feed(p, r', b)) == Steps(p.poly, Xor(r, r'), m)
  {
    FeedDifference(p, r, r', b, b);
    assert Xor(Xor(r, r'), Xor(Load(p, b), Load(p, b))) == Xor(r, r');
  }

  /** Two bytes make two registers equal if and only if they make up for the difference. */
  lemma FeedEqual(p: Params, r: Bits, r': Bits, b: byte, b': byte)
    requires |r| == |r'| == p.Width()
    ensures Feed(p, r, b) == Feed(p, r', b') <==> Xor(r, r') == Xor(Load(p, b), Load(p, b'))
  {
    var w, d, e := p.Width(), Xor(r, r'), Xor(Load(p, b), Load(p, b'));
    FeedDifference(p, r, r', b, b');
    if Feed(p, r, b) == Feed(p, r', b') {
      XorZeros(Feed(p, r, b));
      StepsBack(p.poly, Xor(d, e), w - 8, 8);
      assert Xor(d, e) == Zeros(w);
      XorCancel(d, e);
    }
    if d == e {
      XorZeros(d);
      StepsQuiet(p.poly, Zeros(w), 8);
      assert Zeros(w)[8..] + Zeros(8) == Zeros(w);
      XorCancel(Feed(p, r, b), Feed(p, r', b'));
    }
  }

  /** Messages that differ in two bytes, x and y before and u and v after z, leave the same register
      if and only if the first difference, shifted to the place of the second, is the second.
      The number of shifts is n. */
  lemma TwoDifferences(
    p: Params, r: Bits, a: seq<byte>, x: byte, y: byte, z: seq<byte>, u: byte, v: byte, t: seq<byte>, n: nat)
    requires |r| == p.Width() && n == 8 * (1 + |z|)
    ensures Run(p, r, a + [x] + z + [u] + t) == Run(p, r, a + [y] + z + [v] + t)
       <==> Steps(p.poly, Xor(Load(p, x), Load(p, y)), n) == Xor(Load(p, u), Load(p, v))
  {
    var s := Run(p, r, a);
    var q, q' := Run(p, Feed(p, s, x), z), Run(p, Feed(p, s, y), z);
    RunParts(p, r, a, x, z, u, t);
    RunParts(p, r, a, y, z, v, t);
    FirstDifference(p, s, x, y, z, n);
    FeedEqual(p, q, q', u, v);
    if Run(p, Feed(p, q, u), t) == Run(p, Feed(p, q', v), t) {
      RunInjective(p, Feed(p, q, u), Feed(p, q', v), t);
    }
  }

  lemma RunParts(p: Params, r: Bits, a: seq<byte>, x: byte, z: seq<byte>, u: byte, t: seq<byte>)
    requires |r| == p.Width()
    ensures Run(p, r, a + [x] + z + [u] + t)
         == Run(p, Feed(p, Run(p, Feed(p, Run(p, r, a), x), z), u), t)
  {
    RunConcat(p, r, a + [x] + z + [u], t);
    RunSnoc(p, r, a + [x] + z, u);
    RunConcat(p, r, a + [x], z);
    RunSnoc(p, r, a, x);
  }

  lemma RunSnoc(p: Params, r: Bits, s: seq<byte>, b: byte)
    requires |r| == p.Width()
    ensures Run(p, r, s + [b]) == Feed(p, Run(p, r, s), b)
  {
    assert (s + [b])[..|s + [b]| - 1] == s;
  }

  lemma FirstDifference(p: Params, s: Bits, x: byte, y: byte, z: seq<byte>, n: nat)
    requires |s| == p.Width() && n == 8 * (1 + |z|)
    ensures Xor(Run(p, Feed(p, s, x), z), Run(p, Feed(p, s, y), z))
         == Steps(p.poly, Xor(Load(p, x), Load(p, y)), n)
  {
    var m, k := 8, 8 * |z|;
    SameStart(p, s, x, y, m);
    RunDifference(p, Feed(p, s, x), Feed(p, s, y), z, k);
    StepsAdd(p.poly, Xor(Load(p, x), Load(p, y)), m, k, n);
  }

  lemma SameStart(p: Params, s: Bits, x: byte, y: byte, m: nat)
    requires |s| == p.Width() && m == 8
    ensures Xor(Feed(p, s, x), Feed(p, s, y)) == Steps(p.poly, Xor(Load(p, x), Load(p, y)), m)
  {
    FeedDifference(p, s, s, x, y);
    assert Xor(Xor(s, s), Xor(Load(p, x), Load(p, y))) == Xor(Load(p, x), Load(p, y));
  }

  /** Eight shifts of the byte 1 leave the polynomial q of an 8-bit CRC. */
  lemma ShiftedOne(p: Params, q: byte, n: nat)
    requires p.size == 1 && !p.reflected && p.poly == ByteBits(q) && n == 8
    ensures Steps(p.poly, Xor(Load(p, 0), Load(p, 1)), n) == Xor(Load(p, 0), Load(p, q))
  {
    var e := Xor(Load(p, 0), Load(p, 1));
    assert ByteBits(0) == Zeros(8) && ByteBits(1) == Zeros(7) + [true];
    assert e == Zeros(7) + [true];
    StepsQuiet(p.poly, e, 7);
    assert e[7..] + Zeros(7) == [true] + Zeros(7);
    assert ShiftLeft([true] + Zeros(7)) == Zeros(8);
    assert Xor(Zeros(8), p.poly) == p.poly;
    assert Load(p, 0) == Zeros(8) && Load(p, q) == p.poly;
  }
}
