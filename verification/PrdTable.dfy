/** Building the Physical Region Descriptor table of a bus-master IDE transfer: physical
    segments are cut so that no descriptor crosses a 64K boundary. */
module PrdTable {
  const BLOCK := 0x1_0000
  const MAX_DESCRIPTORS := 512
  const MAX_TRANSFER := 512 * 2048

  datatype Segment = Segment(addr: nat, len: nat)

  /** `count` is the 16-bit field of the descriptor. */
  datatype Prd = Prd(addr: nat, count: nat, last: bool)

  datatype Status = Done | BadArgument | NotAligned | Exhausted | DeviceError | Panic

  // ----- what a table means --------------------------------------------------------

  /** A count of 0 means 64K. */
  function Size(d: Prd): nat { if d.count == 0 then BLOCK else d.count }

  /** The addresses from `a` on. */
  function Range(a: nat, n: nat): (r: seq<nat>)
    ensures |r| == n
  {
    seq(n, i requires 0 <= i < n => a + i)
  }

  /** The addresses a table transfers, in order. */
  function Covered(table: seq<Prd>): seq<nat>
  {
    if table == [] then [] else Covered(table[..|table| - 1]) + Range(table[|table| - 1].addr, Size(table[|table| - 1]))
  }

  function Cut(s: Segment, n: nat): nat { if s.len > n then n else s.len }

  /** The first `n` bytes of the segments, in order. */
  function Requested(segs: seq<Segment>, n: nat): seq<nat>
  {
    if n == 0 || segs == [] then []
    else Range(segs[0].addr, Cut(segs[0], n)) + Requested(segs[1..], n - Cut(segs[0], n))
  }

  /** How many 64K blocks a non-empty range touches. */
  function Blocks(a: nat, n: nat): nat
    requires n > 0
  {
    (a + n - 1) / BLOCK - a / BLOCK + 1
  }

  predicate WithinBlock(d: Prd) { d.addr / BLOCK == (d.addr + Size(d) - 1) / BLOCK }

  /** Descriptors needed for the first `n` bytes. */
  function Needed(segs: seq<Segment>, n: nat): nat
  {
    if n == 0 || segs == [] || segs[0].len == 0 then 0
    else Blocks(segs[0].addr, Cut(segs[0], n)) + Needed(segs[1..], n - Cut(segs[0], n))
  }

  /** Segments usable up to byte `n`: even addresses, no empty one, enough bytes. */
  predicate Usable(segs: seq<Segment>, n: nat)
  {
    n == 0 || (segs != [] && segs[0].len > 0 && segs[0].addr % 2 == 0 && Usable(segs[1..], n - Cut(segs[0], n)))
  }

  /** The outcome with room for `room` more descriptors: the first segment that cannot be used or
      does not fit decides. */
  function Verdict(segs: seq<Segment>, n: nat, room: nat): Status
  {
    if n == 0 then Done
    else if segs == [] || segs[0].len == 0 then Panic
    else if segs[0].addr % 2 != 0 then NotAligned
    else
      var k := Cut(segs[0], n);
      if Blocks(segs[0].addr, k) > room then Exhausted
      else Verdict(segs[1..], n - k, room - Blocks(segs[0].addr, k))
  }

  /** With usable segments the table is exhausted exactly when it needs too many descriptors. */
  lemma {:induction false} ExhaustedIff(segs: seq<Segment>, n: nat, room: nat)
    requires Usable(segs, n)
    ensures Verdict(segs, n, room) == (if Needed(segs, n) > room then Exhausted else Done)
  {
    if n > 0 {
      var k := Cut(segs[0], n);
      if Blocks(segs[0].addr, k) <= room {
        ExhaustedIff(segs[1..], n - k, room - Blocks(segs[0].addr, k));
      }
    }
  }

  // ----- what the specification functions say of each segment ------------------------

  /** Bytes in the first `k` segments. */
  function Total(segs: seq<Segment>, k: nat): nat
    requires k <= |segs|
    decreases k
  {
    if k == 0 then 0 else segs[0].len + Total(segs[1..], k - 1)
  }

  /** Segment `k` is one the transfer gets to. */
  predicate Reached(segs: seq<Segment>, n: nat, k: nat) { k <= |segs| && Total(segs, k) < n }

  lemma {:induction false} UsableMeans(segs: seq<Segment>, n: nat)
    ensures Usable(segs, n) <==> forall k :: 0 <= k && Reached(segs, n, k) ==>
        k < |segs| && segs[k].len > 0 && segs[k].addr % 2 == 0
  {
    if n > 0 {
      assert Reached(segs, n, 0);
      if segs != [] {
        var rest, left := segs[1..], n - Cut(segs[0], n);
        UsableMeans(rest, left);
        forall k | 0 <= k <= |rest| ensures Reached(segs, n, k + 1) <==> Reached(rest, left, k) {
        }
        assert forall k :: 0 <= k < |rest| ==> rest[k] == segs[k + 1];
        if Usable(segs, n) {
          forall k | 0 <= k && Reached(segs, n, k) ensures k < |segs| && segs[k].len > 0 && segs[k].addr % 2 == 0 {
            if k > 0 {
              assert Reached(rest, left, k - 1);
            }
          }
        }
        if forall k :: 0 <= k && Reached(segs, n, k) ==> k < |segs| && segs[k].len > 0 && segs[k].addr % 2 == 0 {
          forall k | 0 <= k && Reached(rest, left, k) ensures k < |rest| && rest[k].len > 0 && rest[k].addr % 2 == 0 {
            assert Reached(segs, n, k + 1);
          }
        }
      }
    }
  }

  /** Byte `i` of segment `k` is at its place in what is requested. */
  lemma {:induction false} RequestedAt(segs: seq<Segment>, n: nat, k: nat, i: nat)
    requires k < |segs| && i < segs[k].len && Total(segs, k) + i < n
    ensures Total(segs, k) + i < |Requested(segs, n)| && Requested(segs, n)[Total(segs, k) + i] == segs[k].addr + i
    decreases k
  {
    var first := Range(segs[0].addr, Cut(segs[0], n));
    if k > 0 {
      assert segs[1..][k - 1] == segs[k];
      RequestedAt(segs[1..], n - Cut(segs[0], n), k - 1, i);
      assert Requested(segs, n)[|first| + (Total(segs[1..], k - 1) + i)] == segs[k].addr + i;
    } else {
      assert Requested(segs, n)[i] == first[i];
    }
  }

  /** The outcome is `Done` exactly for usable segments that need no more descriptors than there are. */
  lemma {:induction false} DoneIff(segs: seq<Segment>, n: nat, room: nat)
    ensures Verdict(segs, n, room) == Done <==> Usable(segs, n) && Needed(segs, n) <= room
  {
    if n > 0 && segs != [] && segs[0].len > 0 {
      var k := Cut(segs[0], n);
      if Blocks(segs[0].addr, k) <= room {
        DoneIff(segs[1..], n - k, room - Blocks(segs[0].addr, k));
      }
    }
  }

  /** A usable first segment goes before the account of the others. */
  lemma {:induction false} FirstUsable(segs: seq<Segment>, n: nat, k: nat)
    requires segs != [] && segs[0].len > 0 && segs[0].addr % 2 == 0 && 0 < k <= |segs|
    requires Reached(segs[1..], n - Cut(segs[0], n), k - 1)
    requires Usable(segs[1..], Total(segs[1..], k - 1))
    ensures var t := Total(segs[1..], k - 1); var b := Blocks(segs[0].addr, Cut(segs[0], n));
            && Total(segs, k) == segs[0].len + t && Cut(segs[0], n) == segs[0].len && Reached(segs, n, k)
            && Usable(segs, Total(segs, k)) && Needed(segs, Total(segs, k)) == b + Needed(segs[1..], t)
  {
    hide Blocks;
    var t := Total(segs[1..], k - 1);
    assert Total(segs, k) == segs[0].len + t;
    assert Cut(segs[0], segs[0].len + t) == segs[0].len;
  }

  /** Any other outcome names the first segment that the transfer gets to and cannot use. */
  lemma {:induction false} FailureMeans(segs: seq<Segment>, n: nat, room: nat) returns (k: nat)
    requires Verdict(segs, n, room) != Done
    ensures Reached(segs, n, k) && Usable(segs, Total(segs, k)) && Needed(segs, Total(segs, k)) <= room
    ensures var bad := k == |segs| || segs[k].len == 0; var odd := !bad && segs[k].addr % 2 != 0;
            && (Verdict(segs, n, room) == Panic <==> bad)
            && (Verdict(segs, n, room) == NotAligned <==> odd)
            && (Verdict(segs, n, room) == Exhausted <==> !bad && !odd)
            && (!bad && !odd ==>
                  Needed(segs, Total(segs, k)) + Blocks(segs[k].addr, Cut(segs[k], n - Total(segs, k))) > room)
  {
    hide Blocks;
    k := 0;
    if segs != [] && segs[0].len > 0 && segs[0].addr % 2 == 0 {
      var c := Cut(segs[0], n);
      var b := Blocks(segs[0].addr, c);
      if b <= room {
        k := FailureMeans(segs[1..], n - c, room - b);
        k := k + 1;
        FirstUsable(segs, n, k);
        assert k < |segs| ==> segs[1..][k - 1] == segs[k];
      }
    }
  }

  /** Descriptors before the last one continue, the last one ends the table. */
  ghost predicate EndsOnce(table: seq<Prd>, ended: bool)
  {
    forall i :: 0 <= i < |table| ==> (table[i].last <==> ended && i == |table| - 1)
  }

  lemma {:induction false} RangeSplit(a: nat, m: nat, n: nat)
    ensures Range(a, m + n) == Range(a, m) + Range(a + m, n)
  {
  }

  lemma {:induction false} CoveredAppend(table: seq<Prd>, d: Prd)
    ensures Covered(table + [d]) == Covered(table) + Range(d.addr, Size(d))
  {
    assert (table + [d])[..|table|] == table;
  }

  // ----- building ------------------------------------------------------------------

  /** The table so far covers the wanted prefix, one block per descriptor. */
  ghost predicate Good(table: seq<Prd>)
  {
    forall i :: 0 <= i < |table| ==> 0 <= table[i].count < BLOCK && WithinBlock(table[i])
  }

  function BlocksLeft(a: nat, n: nat): nat
  {
    if n == 0 then 0 else Blocks(a, n)
  }

  lemma {:induction false} AtLeastOneBlock(a: nat, n: nat)
    requires n > 0
    ensures BlocksLeft(a, n) >= 1
  {
  }

  /** The part of a range up to the next 64K boundary: it lies in one block, a 16-bit count tells
      its size, and the rest touches one block less. */
  lemma {:induction false} ChunkStep(a: nat, n: nat)
    requires n > 0
    ensures var boundary := a / BLOCK * BLOCK + BLOCK;
            var chunk := if a + n > boundary then boundary - a else n;
            && 0 < chunk <= n && chunk <= BLOCK
            && BlocksLeft(a, n) == 1 + BlocksLeft(a + chunk, n - chunk)
            && (chunk < n ==> (a + chunk) / BLOCK * BLOCK + BLOCK == boundary + BLOCK)
            && forall last :: Size(Prd(a, chunk % BLOCK, last)) == chunk && WithinBlock(Prd(a, chunk % BLOCK, last))
  {
  }

  /** No table covers a range with fewer descriptors than the 64K blocks it touches. */
  lemma {:induction false} FewestForRange(table: seq<Prd>, a: nat, n: nat)
    requires Good(table) && Covered(table) == Range(a, n)
    ensures |table| >= BlocksLeft(a, n)
  {
    if n > 0 {
      assert |Covered(table)| == n && table != [];
      var d, rest := table[|table| - 1], table[..|table| - 1];
      var k := Size(d);
      assert |Covered(rest)| + k == n;
      LastPart(Covered(rest), a, n, d.addr, k);
      FewestForRange(rest, a, n - k);
      assert WithinBlock(d);
      OneBlockMore(a, n, k);
    }
  }

  lemma {:induction false} LastPart(front: seq<nat>, a: nat, n: nat, b: nat, k: nat)
    requires 0 < k <= n && front + Range(b, k) == Range(a, n)
    ensures front == Range(a, n - k) && b == a + n - k
  {
    assert front == Range(a, n)[..n - k];
    assert (front + Range(b, k))[n - k] == b;
  }

  lemma {:induction false} OneBlockMore(a: nat, n: nat, k: nat)
    requires 0 < k <= n && (a + n - k) / BLOCK == (a + n - 1) / BLOCK
    ensures BlocksLeft(a, n) <= BlocksLeft(a, n - k) + 1
  {
  }

  /** Segments that touch are not merged: here one descriptor would do for the two that are used. */
  lemma {:induction false} SegmentsNotMerged()
    ensures var segs := [Segment(0, 2), Segment(2, 2)]; var table := [Prd(0, 4, true)];
            Needed(segs, 4) == 2 && Good(table) && Covered(table) == Requested(segs, 4)
  {
    var segs := [Segment(0, 2), Segment(2, 2)];
    assert segs[1..] == [Segment(2, 2)];
    assert Requested(segs[1..], 2) == Range(2, 2) + Requested(segs[1..][1..], 0);
    assert Requested(segs, 4) == Range(0, 2) + Requested(segs[1..], 2);
    assert Needed(segs[1..], 2) == 1;
    assert [Prd(0, 4, true)][..0] == [];
    assert Covered([Prd(0, 4, true)]) == Range(0, 4);
  }

  /** Cut one segment into descriptors from `index` on. `final` marks the last segment. */
  method SplitSegment(table: array<Prd>, index: nat, addr: nat, len: nat, final: bool) returns (ok: bool, next: nat)
    requires table.Length == MAX_DESCRIPTORS && index <= MAX_DESCRIPTORS && len > 0
    requires Good(table[..index]) && EndsOnce(table[..index], false)
    modifies table
    ensures ok <==> index + Blocks(addr, len) <= MAX_DESCRIPTORS
    ensures ok ==> next == index + Blocks(addr, len) && Good(table[..next]) && EndsOnce(table[..next], final)
    ensures ok ==> Covered(table[..next]) == old(Covered(table[..index])) + Range(addr, len)
  {
    hide Covered, Range, Blocks, WithinBlock, Size;
    ghost var done := Covered(table[..index]);
    var xferDataPtr, xferCount, next64KBlock := addr, len, addr / BLOCK * BLOCK + BLOCK;
    var ptr2EndData := addr + len;
    next := index;
    RangeSplit(addr, 0, len);
    EmptyRange(addr);
    while xferCount > 0
      invariant 0 <= xferCount <= len && xferDataPtr + xferCount == ptr2EndData
      invariant next64KBlock == xferDataPtr / BLOCK * BLOCK + BLOCK || xferCount == 0
      invariant index <= next <= MAX_DESCRIPTORS
      invariant next + BlocksLeft(xferDataPtr, xferCount) == index + Blocks(addr, len)
      invariant Good(table[..next]) && EndsOnce(table[..next], final && xferCount == 0)
      invariant Covered(table[..next]) == done + Range(addr, len - xferCount)
      decreases xferCount
    {
      AtLeastOneBlock(xferDataPtr, xferCount);
      if next >= MAX_DESCRIPTORS {
        return false, next;
      }
      var chunk := if ptr2EndData > next64KBlock then next64KBlock - xferDataPtr else xferCount;
      ChunkStep(xferDataPtr, xferCount);
      ghost var before := table[..next];
      var d := Prd(xferDataPtr, chunk % BLOCK, ptr2EndData <= next64KBlock && final);
      table[next] := d;
      assert table[..next + 1] == before + [d];
      CoveredAppend(before, d);
      RangeSplit(addr, len - xferCount, chunk);
      assert (done + Range(addr, len - xferCount)) + Range(xferDataPtr, chunk) == done +
          (Range(addr, len - xferCount) + Range(xferDataPtr, chunk));
      xferDataPtr := xferDataPtr + chunk;
      xferCount := xferCount - chunk;
      next64KBlock := next64KBlock + BLOCK;
      next := next + 1;
    }
    ok := true;
  }

  lemma {:induction false} EmptyRange(a: nat)
    ensures Range(a, 0) == []
  {
  }

  /** The whole table for a request of `byteCount` bytes over the supplied segments. */
  method CreateChannelCommands(table: array<Prd>, byteCount: nat, segs: seq<Segment>)
    returns (status: Status, index: nat)
    requires table.Length == MAX_DESCRIPTORS
    modifies table
    ensures status == if byteCount > MAX_TRANSFER then BadArgument
                      else if byteCount == 0 then DeviceError
                      else Verdict(segs, byteCount, MAX_DESCRIPTORS)
    ensures status == Done ==> 0 < index <= MAX_DESCRIPTORS && index == Needed(segs, byteCount)
    ensures status == Done ==>
              Covered(table[..index]) == Requested(segs, byteCount) && |Requested(segs, byteCount)| == byteCount
    ensures status == Done ==> Good(table[..index]) && EndsOnce(table[..index], true)
  {
    hide Covered, Range, Blocks, Good, EndsOnce, Needed, Requested, Verdict;
    index := 0;
    if byteCount > MAX_TRANSFER {
      return BadArgument, 0;
    }
    var bytesRemaining, s := byteCount, 0;
    EmptyTable(table[..0]);
    assert segs[0..] == segs;
    while bytesRemaining > 0
      invariant 0 <= s <= |segs| && index <= MAX_DESCRIPTORS && 0 <= bytesRemaining <= byteCount
      invariant byteCount > 0 ==>
                  Verdict(segs, byteCount, MAX_DESCRIPTORS) ==
                      Verdict(segs[s..], bytesRemaining, MAX_DESCRIPTORS - index)
      invariant index + Needed(segs[s..], bytesRemaining) == Needed(segs, byteCount)
      invariant Covered(table[..index]) + Requested(segs[s..], bytesRemaining) == Requested(segs, byteCount)
      invariant |Covered(table[..index])| + bytesRemaining == byteCount
      invariant Good(table[..index]) && EndsOnce(table[..index], bytesRemaining == 0 && byteCount > 0)
      invariant index > 0 <==> bytesRemaining < byteCount
      decreases bytesRemaining
    {
      VerdictStep(segs, s, bytesRemaining, MAX_DESCRIPTORS - index);
      if s == |segs| || segs[s].len == 0 {
        return Panic, index;
      }
      var seg := segs[s];
      if seg.addr % 2 != 0 {
        return NotAligned, index;
      }
      var xferCount := if seg.len > bytesRemaining then bytesRemaining else seg.len;
      ghost var before := Covered(table[..index]);
      ghost var left := bytesRemaining;
      bytesRemaining := bytesRemaining - xferCount;
      SegmentStep(segs, s, left, MAX_DESCRIPTORS - index);
      var ok, next := SplitSegment(table, index, seg.addr, xferCount, bytesRemaining == 0);
      if !ok {
        return Exhausted, index;
      }
      index := next;
      assert (before + Range(seg.addr, xferCount)) + Requested(segs[s + 1..], bytesRemaining)
          == before + (Range(seg.addr, xferCount) + Requested(segs[s + 1..], bytesRemaining));
      s := s + 1;
    }
    NothingLeft(segs[s..], MAX_DESCRIPTORS - index);
    if index == 0 {
      return DeviceError, 0;
    }
    status := Done;
  }

  lemma {:induction false} EmptyTable(t: seq<Prd>)
    requires t == []
    ensures Covered(t) == [] && Good(t) && EndsOnce(t, false)
  {
  }

  lemma {:induction false} NothingLeft(segs: seq<Segment>, room: nat)
    ensures Verdict(segs, 0, room) == Done && Needed(segs, 0) == 0 && Requested(segs, 0) == []
  {
  }

  lemma {:induction false} VerdictStep(segs: seq<Segment>, s: nat, n: nat, room: nat)
    requires s <= |segs| && n > 0
    ensures s == |segs| || segs[s].len == 0 ==> Verdict(segs[s..], n, room) == Panic
    ensures s < |segs| && segs[s].len > 0 && segs[s].addr % 2 != 0 ==> Verdict(segs[s..], n, room) == NotAligned
  {
  }

  /** One segment of the specification functions. */
  lemma {:induction false} SegmentStep(segs: seq<Segment>, s: nat, n: nat, room: nat)
    requires s < |segs| && n > 0 && segs[s].len > 0 && segs[s].addr % 2 == 0
    ensures var k := Cut(segs[s], n);
            && 0 < k <= n && Blocks(segs[s].addr, k) >= 1
            && Requested(segs[s..], n) == Range(segs[s].addr, k) + Requested(segs[s + 1..], n - k)
            && Needed(segs[s..], n) == Blocks(segs[s].addr, k) + Needed(segs[s + 1..], n - k)
            && Verdict(segs[s..], n, room) ==
                 (if Blocks(segs[s].addr, k) > room then Exhausted
                  else Verdict(segs[s + 1..], n - k, room - Blocks(segs[s].addr, k)))
  {
    assert segs[s..][1..] == segs[s + 1..];
  }
}
