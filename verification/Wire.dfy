/** Fields inside messages: cutting them out, writing them, and big endian numbers. */
module Wire {
  import opened Bits

  type uint8 = n: int | 0 <= n < 0x100
  type uint16 = n: int | 0 <= n < 0x1_0000
  type uint32 = n: int | 0 <= n < 0x1_0000_0000

  /** d without the bytes off..off + n. */
  function Cut(d: seq<byte>, off: nat, n: nat): (c: seq<byte>)
    requires off + n <= |d|
    ensures |c| == |d| - n
  {
    d[..off] + d[off + n..]
  }

  /** d with the bytes at off replaced by a field. */
  function Paste(d: seq<byte>, off: nat, field: seq<byte>): (c: seq<byte>)
    requires off + |field| <= |d|
    ensures |c| == |d|
  {
    d[..off] + field + d[off + |field|..]
  }

  lemma PasteKeeps(d: seq<byte>, off: nat, field: seq<byte>)
    requires off + |field| <= |d|
    ensures var c := Paste(d, off, field);
            && c[off..off + |field|] == field
            && c[..off] == d[..off] && c[off + |field|..] == d[off + |field|..]
            && Cut(c, off, |field|) == Cut(d, off, |field|)
  {
    var c := Paste(d, off, field);
    assert c[..off] == d[..off] && c[off + |field|..] == d[off + |field|..];
  }

  lemma Slices(d: seq<byte>, n: nat)
    requires n <= |d|
    ensures d[..n] == d[0..n] && d[n..] == d[n..|d|] && d + [] == d
  {
  }

  lemma SubSlice(d: seq<byte>, at: nat, end: nat, i: nat, j: nat, x: nat, y: nat)
    requires at <= x <= y <= end <= |d| && x == at + i && y == at + j
    ensures d[at..end][i..j] == d[x..y]
  {
    assert forall k | 0 <= k < j - i :: d[at..end][i..j][k] == d[x + k] == d[x..y][k];
  }

  /** Writing adjacent fields one after the other. */
  lemma PasteAdjacent(d: seq<byte>, off: nat, f: seq<byte>, g: seq<byte>)
    requires off + |f| + |g| <= |d|
    ensures Paste(Paste(d, off, f), off + |f|, g) == Paste(d, off, f + g)
  {
    var c := Paste(d, off, f);
    assert c == d[..off] + f + d[off + |f|..];
    assert c[..off + |f|] == d[..off] + f;
    assert c[off + |f| + |g|..] == d[off + |f| + |g|..];
  }

  /** Store a field in a buffer. */
  method Store(data: array<byte>, off: nat, field: seq<byte>)
    requires off + |field| <= data.Length
    modifies data
    ensures data[..] == Paste(old(data[..]), off, field)
  {
    forall i | 0 <= i < |field| {
      data[off + i] := field[i];
    }
  }

  /** A new buffer that holds a message. */
  method Copy(d: seq<byte>) returns (data: array<byte>)
    ensures fresh(data) && data[..] == d
  {
    data := new byte[|d|](k requires 0 <= k < |d| => d[k]);
  }

  lemma OneMore(all: seq<seq<byte>>, n: nat)
    requires n < |all|
    ensures all[..n] + [all[n]] == all[..n + 1]
  {
  }

  // ---- Big endian numbers ----

  /** The number that bytes denote, the most significant first. */
  function Number(s: seq<byte>): nat
  {
    if s == [] then 0 else 0x100 * Number(s[..|s| - 1]) + s[|s| - 1]
  }

  function Pow256(k: nat): (m: nat)
    ensures m >= 1
  {
    if k == 0 then 1 else 0x100 * Pow256(k - 1)
  }

  /** The k low bytes of n. */
  function BigEndian(n: nat, k: nat): (s: seq<byte>)
    ensures |s| == k
  {
    if k == 0 then [] else BigEndian(n / 0x100, k - 1) + [n % 0x100]
  }

  lemma {:induction false} NumberOfBigEndian(n: nat, k: nat)
    requires n < Pow256(k)
    ensures Number(BigEndian(n, k)) == n
  {
    if k > 0 {
      NumberOfBigEndian(n / 0x100, k - 1);
      assert BigEndian(n, k)[..k - 1] == BigEndian(n / 0x100, k - 1);
    }
  }

  lemma OneByteNumber(s: seq<byte>)
    requires |s| == 1
    ensures Number(s) == s[0]
  {
    assert s[..0] == [];
  }

  lemma {:induction false} BigEndianOfNumber(s: seq<byte>)
    ensures BigEndian(Number(s), |s|) == s
  {
    if s != [] {
      BigEndianOfNumber(s[..|s| - 1]);
      assert s == s[..|s| - 1] + [s[|s| - 1]];
    }
  }

  lemma {:induction false} NumberBound(s: seq<byte>)
    ensures Number(s) < Pow256(|s|)
  {
    if s != [] {
      NumberBound(s[..|s| - 1]);
    }
  }

  // The byte expressions of the source.

  function U16(n: uint16): (s: seq<byte>)
    ensures s == BigEndian(n, 2)
  {
    assert BigEndian(n / 0x100, 1) == [n / 0x100];
    [n / 0x100, n % 0x100]
  }

  function U32(n: uint32): (s: seq<byte>)
    ensures s == BigEndian(n, 4)
  {
    var h := n / 0x1_0000;
    assert BigEndian(n / 0x100 / 0x100, 2) == U16(h) && n / 0x100 / 0x100 == h;
    assert BigEndian(n / 0x100, 3) == U16(h) + [n / 0x100 % 0x100];
    [n / 0x100_0000, n / 0x1_0000 % 0x100, n / 0x100 % 0x100, n % 0x100]
  }

  lemma Pow256Values()
    ensures Pow256(0) == 1 && Pow256(1) == 0x100 && Pow256(2) == 0x1_0000 && Pow256(4) == 0x1_0000_0000
  {
    assert Pow256(3) == 0x100_0000;
  }
}
