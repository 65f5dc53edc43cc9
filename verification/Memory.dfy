/** The flat byte buffer the shared-cache builder edits, with little-endian loads and stores. */
module Memory {
  import opened Bits

  type Byte = b: nat | b < 256

  /** 64-bit words wrap around here. */
  const WORD := 0x1_0000_0000_0000_0000

  const PAGE_SZ := 4096

  /** The little-endian value of a byte string. */
  function LittleEndian(bs: seq<Byte>): nat
  {
    if bs == [] then 0 else bs[0] + 256 * LittleEndian(bs[1..])
  }

  /** The low `n` bytes of `v`, least significant first. */
  function ToBytes(v: nat, n: nat): (bs: seq<Byte>)
    ensures |bs| == n
  {
    if n == 0 then [] else [v % 256] + ToBytes(v / 256, n - 1)
  }

  lemma {:induction false} BytesRoundTrip(v: nat, n: nat)
    requires v < Pow2(8 * n)
    ensures LittleEndian(ToBytes(v, n)) == v
  {
    if n != 0 {
      Pow2Add(8, 8 * (n - 1));
      assert Pow2(8) == 256;
      assert 8 + 8 * (n - 1) == 8 * n;
      BytesRoundTrip(v / 256, n - 1);
      assert ToBytes(v, n)[1..] == ToBytes(v / 256, n - 1);
    }
  }

  lemma {:induction false} LittleEndianRoundTrip(bs: seq<Byte>)
    ensures LittleEndian(bs) < Pow2(8 * |bs|)
    ensures ToBytes(LittleEndian(bs), |bs|) == bs
  {
    if bs != [] {
      var rest := LittleEndian(bs[1..]);
      Pow2Add(8, 8 * (|bs| - 1));
      assert Pow2(8) == 256;
      assert 8 + 8 * (|bs| - 1) == 8 * |bs|;
      LittleEndianRoundTrip(bs[1..]);
      assert bs == [bs[0]] + bs[1..];
    }
  }

  /** Byte `k` of a stored value is its `k`-th byte from the least significant end. */
  lemma {:induction false} ByteOrder(v: nat, n: nat, k: nat)
    requires k < n
    ensures ToBytes(v, n)[k] == Shr(v, 8 * k) % 256
    decreases k
  {
    if k == 0 {
      assert v / 1 == v;
    } else {
      ByteOrder(v / 256, n - 1, k - 1);
      assert ToBytes(v, n)[k] == ToBytes(v / 256, n - 1)[k - 1];
      assert Pow2(8) == 256 && 8 + 8 * (k - 1) == 8 * k;
      ShrAdd(v, 8, 8 * (k - 1));
    }
  }

  /** `[off, off + n)` lies inside the buffer. */
  predicate InBounds(m: seq<Byte>, off: int, n: nat)
  {
    0 <= off && off + n <= |m|
  }

  predicate Disjoint(off: int, n: nat, off': int, n': nat)
  {
    off + n <= off' || off' + n' <= off
  }

  /** Eight-byte slots that do not overlap. */
  ghost predicate Apart(offs: set<nat>)
  {
    forall a, b :: a in offs && b in offs && a != b ==> Disjoint(a, 8, b, 8)
  }

  /** Byte `k` belongs to one of some slots. */
  ghost predicate InSlots(offs: set<nat>, k: int)
  {
    exists off :: off in offs && off <= k < off + 8
  }

  function Load(m: seq<Byte>, off: int, n: nat): nat
    requires InBounds(m, off, n)
  {
    LittleEndian(m[off..off + n])
  }

  function Store(m: seq<Byte>, off: int, n: nat, v: nat): (m': seq<Byte>)
    requires InBounds(m, off, n)
    ensures |m'| == |m|
    ensures forall k :: 0 <= k < |m| && !(off <= k < off + n) ==> m'[k] == m[k]
  {
    m[..off] + ToBytes(v, n) + m[off + n..]
  }

  lemma {:induction false} LoadBound(m: seq<Byte>, off: int, n: nat)
    requires InBounds(m, off, n)
    ensures Load(m, off, n) < Pow2(8 * n)
  {
    LittleEndianRoundTrip(m[off..off + n]);
  }

  lemma {:induction false} LoadAfterStore(m: seq<Byte>, off: int, n: nat, v: nat)
    requires InBounds(m, off, n) && v < Pow2(8 * n)
    ensures Load(Store(m, off, n, v), off, n) == v
  {
    assert Store(m, off, n, v)[off..off + n] == ToBytes(v, n);
    BytesRoundTrip(v, n);
  }

  /** A load sees only its own bytes. */
  lemma {:induction false} LoadCongruent(m: seq<Byte>, m': seq<Byte>, off: int, n: nat)
    requires |m| == |m'| && InBounds(m, off, n)
    requires forall k :: off <= k < off + n ==> m[k] == m'[k]
    ensures Load(m, off, n) == Load(m', off, n)
  {
    assert m[off..off + n] == m'[off..off + n];
  }

  lemma {:induction false} LoadAfterDisjointStore(m: seq<Byte>, off: int, n: nat, off': int, n': nat, v: nat)
    requires InBounds(m, off, n) && InBounds(m, off', n') && Disjoint(off, n, off', n')
    ensures Load(Store(m, off', n', v), off, n) == Load(m, off, n)
  {
    LoadCongruent(m, Store(m, off', n', v), off, n);
  }

  /** Equal loads mean equal bytes. */
  lemma {:induction false} LoadDeterminesBytes(m: seq<Byte>, m': seq<Byte>, off: int, n: nat)
    requires |m| == |m'| && InBounds(m, off, n) && Load(m, off, n) == Load(m', off, n)
    ensures m[off..off + n] == m'[off..off + n]
  {
    LittleEndianRoundTrip(m[off..off + n]);
    LittleEndianRoundTrip(m'[off..off + n]);
  }

  /** In-place store of the low `n` bytes of `v`, byte by byte. */
  method Write(buf: array<Byte>, off: nat, n: nat, v: nat)
    requires off + n <= buf.Length
    modifies buf
    ensures buf[..] == Store(old(buf[..]), off, n, v)
  {
    var k, rest := 0, v;
    while k < n
      invariant 0 <= k <= n
      invariant buf[..] == old(buf[..off]) + ToBytes(v, n)[..k] + old(buf[off + k..])
      invariant ToBytes(v, n)[k..] == ToBytes(rest, n - k)
    {
      buf[off + k] := rest % 256;
      assert ToBytes(v, n)[k] == ToBytes(v, n)[k..][0];
      assert ToBytes(v, n)[k + 1..] == ToBytes(v, n)[k..][1..];
      rest := rest / 256;
      k := k + 1;
    }
    assert ToBytes(v, n)[..n] == ToBytes(v, n);
  }

  /** Reading a little-endian word out of the buffer. */
  method Read(buf: array<Byte>, off: nat, n: nat) returns (v: nat)
    requires off + n <= buf.Length
    ensures v == Load(buf[..], off, n)
  {
    v := 0;
    var k := n;
    while k > 0
      invariant 0 <= k <= n
      invariant v == LittleEndian(buf[off + k..off + n])
    {
      k := k - 1;
      assert buf[off + k..off + n] == [buf[off + k]] + buf[off + k + 1..off + n];
      v := buf[off + k] + 256 * v;
    }
    assert buf[..][off..off + n] == buf[off..off + n];
  }
}
