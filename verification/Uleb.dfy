/** Unsigned LEB128 operands, section 7.6 of the DWARF version 4 standard. */
module Uleb {
  import opened Bits
  import opened Memory
  import opened Wrappers

  /** Longest operand whose shifts stay below 64 bits. */
  const MAX_BYTES := 10

  /** The positional value of the low seven bits of each byte, least significant first. */
  function Value(bs: seq<Byte>): nat
  {
    if bs == [] then 0 else bs[0] % 128 + 128 * Value(bs[1..])
  }

  /** Length of the operand at `p`: up to and including the first byte without its high bit.
      None if it runs off the data or is longer than 64 bits allow. */
  function Length(data: seq<Byte>, p: nat, n: nat): (r: Option<nat>)
    requires p + n <= |data|
    ensures r.Some? ==> n < r.value <= MAX_BYTES && p + r.value <= |data|
    decreases |data| - p - n
  {
    if n >= MAX_BYTES || p + n == |data| then None
    else if data[p + n] < 128 then Some(n + 1)
    else Length(data, p, n + 1)
  }

  datatype Operand = Operand(value: nat, next: nat)

  /** The operand at `p`: its value in a 64-bit word and the position after it. */
  function Operand64(data: seq<Byte>, p: nat): (r: Option<Operand>)
    requires p <= |data|
    ensures r.Some? ==> p < r.value.next <= |data| && r.value.value < Pow2(64)
  {
    match Length(data, p, 0)
    case None => None
    case Some(n) => Some(Operand(Value(data[p..p + n]) % Pow2(64), p + n))
  }

  lemma {:induction false} ValueAppend(bs: seq<Byte>, b: Byte)
    ensures Value(bs + [b]) == Value(bs) + Shl(b % 128, 7 * |bs|)
    ensures Value(bs) < Pow2(7 * |bs|)
  {
    assert Pow2(7) == 128;
    if bs == [] {
      assert [] + [b] == [b];
      assert Value([b]) == b % 128 + 128 * Value([]);
    } else {
      var n := |bs| - 1;
      ValueAppend(bs[1..], b);
      assert (bs + [b])[1..] == bs[1..] + [b];
      Pow2Add(7, 7 * n);
      assert 7 + 7 * n == 7 * |bs|;
      ShiftMore(b % 128, 7 * n);
    }
  }

  lemma {:induction false} ShiftMore(x: nat, s: nat)
    ensures 128 * Shl(x, s) == Shl(x, 7 + s)
  {
    assert Pow2(7) == 128;
    Pow2Add(7, s);
    var p := Pow2(s);
    assert 128 * (x * p) == x * (128 * p);
  }

  lemma {:induction false} ModOfMultiple(r: nat, x: nat, q: nat, m: nat)
    requires m > 0 && r < q
    ensures m * q > 0 && (r + x * q) % (m * q) == r + (x % m) * q
  {
    var d, t := x / m, x % m;
    MulMonotone(q, 1, m);
    assert r + x * q == (m * q) * d + (r + t * q) by {
      assert x == m * d + t;
      assert x * q == (m * d) * q + t * q;
      assert (m * d) * q == (m * q) * d;
    }
    MulMonotone(q, t, m - 1);
    assert q * (m - 1) == m * q - q;
    DivModUnique(r + x * q, m * q, d, r + t * q);
  }

  /** A 64-bit word that holds `r` below bit `s` and the low bits of `x` above. */
  lemma {:induction false} AddTruncated(r: nat, x: nat, s: nat)
    requires s <= 63 && r < Pow2(s)
    ensures (r + Shl(x, s)) % Pow2(64) == r + Shl(x % Pow2(64 - s), s)
  {
    hide Pow2;
    Pow2Add(64 - s, s);
    assert 64 - s + s == 64;
    ModOfMultiple(r, x, Pow2(s), Pow2(64 - s));
  }

  /** Or-ing in a further seven bits is adding them, in a 64-bit word. */
  lemma {:induction false} OrIsAdd(r: nat, x: nat, s: nat, total: nat)
    requires s <= 63 && r < Pow2(s) && total == r + Shl(x, s)
    ensures Or(r, Shl(x, s) % Pow2(64)) == total % Pow2(64)
  {
    hide Or, And, Pow2, Shl;
    AddTruncated(0, x, s);
    LowHighDisjoint(r, x % Pow2(64 - s), s);
    OrDisjoint(r, Shl(x % Pow2(64 - s), s));
    AddTruncated(r, x, s);
  }

  /** The builder's loop: shift and or until a byte without its high bit. */
  method ReadUleb128(data: seq<Byte>, p: nat) returns (r: nat, next: nat)
    requires p <= |data| && Operand64(data, p).Some?
    ensures Operand(r, next) == Operand64(data, p).value
  {
    hide Or, And, Pow2, Shl, Value;
    ghost var n := Length(data, p, 0).value;
    var s := 0;
    r, next := 0, p;
    EmptyValue();
    assert data[p..p] == [];
    while true
      invariant p <= next < p + n && s == 7 * (next - p)
      invariant Length(data, p, next - p) == Some(n)
      invariant r == Value(data[p..next]) && r < Pow2(s)
      decreases p + n - next
    {
      var b := data[next];
      ghost var bs := data[p..next];
      assert data[p..next + 1] == bs + [b];
      ValueAppend(bs, b);
      ValueAppend(bs + [b], 0);
      OrIsAdd(r, b % 128, s, Value(bs + [b]));
      r := Or(r, Shl(b % 128, s) % Pow2(64));
      s := s + 7;
      next := next + 1;
      if b < 128 {
        return r, next;
      }
      Truncated(Value(bs + [b]), s);
    }
  }

  lemma {:induction false} EmptyValue()
    ensures Value([]) == 0 < Pow2(0)
  {
  }

  lemma {:induction false} Truncated(v: nat, s: nat)
    requires v < Pow2(s) && s <= 64
    ensures v % Pow2(64) == v
  {
    hide Pow2;
    Pow2Monotone(s, 64);
    DivModUnique(v, Pow2(64), 0, v);
  }

  // ----- the encoder as partner ----------------------------------------------------

  function Encode(v: nat): (bs: seq<Byte>)
    ensures bs != []
  {
    if v < 128 then [v] else [128 + v % 128] + Encode(v / 128)
  }

  lemma {:induction false} EncodeValue(v: nat)
    ensures Value(Encode(v)) == v
  {
    if v >= 128 {
      EncodeValue(v / 128);
      assert Encode(v)[1..] == Encode(v / 128);
    } else {
      assert Encode(v)[1..] == [];
    }
  }

  lemma {:induction false} EncodeShape(v: nat)
    ensures var bs := Encode(v); bs[|bs| - 1] < 128 && forall i :: 0 <= i < |bs| - 1 ==> bs[i] >= 128
  {
    if v >= 128 {
      EncodeShape(v / 128);
    }
  }

  lemma {:induction false} EncodeLength(v: nat, k: nat)
    requires k > 0 && v < Pow2(7 * k)
    ensures |Encode(v)| <= k
  {
    assert Pow2(7) == 128;
    if v >= 128 {
      assert k > 1;
      Pow2Add(7, 7 * (k - 1));
      assert 7 + 7 * (k - 1) == 7 * k;
      EncodeLength(v / 128, k - 1);
    }
  }

  lemma {:induction false} LengthOfEncoding(data: seq<Byte>, p: nat, bs: seq<Byte>, n: nat)
    requires p + |bs| <= |data| && data[p..p + |bs|] == bs && 0 < |bs| <= MAX_BYTES && n < |bs|
    requires bs[|bs| - 1] < 128 && forall i :: 0 <= i < |bs| - 1 ==> bs[i] >= 128
    ensures Length(data, p, n) == Some(|bs|)
    decreases |bs| - n
  {
    assert data[p + n] == data[p..p + |bs|][n];
    if n < |bs| - 1 {
      LengthOfEncoding(data, p, bs, n + 1);
    }
  }

  /** Every 64-bit value survives encoding and decoding, wherever it stands in the data. */
  lemma {:induction false} RoundTrip(before: seq<Byte>, v: nat, after: seq<Byte>)
    requires v < Pow2(64)
    ensures Operand64(before + Encode(v) + after, |before|) == Some(Operand(v, |before| + |Encode(v)|))
  {
    hide Pow2, Value, Encode, Length;
    var bs := Encode(v);
    var data := before + bs + after;
    Pow2Monotone(64, 7 * MAX_BYTES);
    EncodeLength(v, MAX_BYTES);
    EncodeShape(v);
    assert data[|before|..|before| + |bs|] == bs;
    LengthOfEncoding(data, |before|, bs, 0);
    EncodeValue(v);
    Truncated(v, 64);
  }
}
