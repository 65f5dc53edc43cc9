/** The builder side of slide info: sort and deduplicate the recorded slots in place, then
    rewrite them page by page. */
module SlideInfoBuilder {
  import opened Bits
  import opened Memory
  import opened SlideInfo

  ghost predicate SameMembers(s: seq<nat>, t: seq<nat>)
  {
    forall x :: x in s <==> x in t
  }

  ghost predicate Ascending(s: seq<nat>)
  {
    forall i, j :: 0 <= i < j < |s| ==> s[i] <= s[j]
  }

  // ----- qsort ---------------------------------------------------------------------

  function Insert(x: nat, s: seq<nat>): (t: seq<nat>)
    ensures |t| == |s| + 1
  {
    if s == [] || x <= s[0] then [x] + s else [s[0]] + Insert(x, s[1..])
  }

  function Sorted(s: seq<nat>): (t: seq<nat>)
    ensures |t| == |s|
  {
    if s == [] then [] else Insert(s[0], Sorted(s[1..]))
  }

  lemma {:induction false} InsertMultiset(x: nat, s: seq<nat>)
    ensures multiset(Insert(x, s)) == multiset(s) + multiset{x}
  {
    if !(s == [] || x <= s[0]) {
      InsertMultiset(x, s[1..]);
      assert s == [s[0]] + s[1..];
    }
  }

  lemma {:induction false} InsertAscending(x: nat, s: seq<nat>, low: nat)
    requires Ascending(s) && low <= x && forall k :: 0 <= k < |s| ==> low <= s[k]
    ensures Ascending(Insert(x, s)) && forall k :: 0 <= k < |s| + 1 ==> low <= Insert(x, s)[k]
  {
    if !(s == [] || x <= s[0]) {
      InsertAscending(x, s[1..], s[0]);
    }
  }

  lemma {:induction false} SortedSorts(s: seq<nat>)
    ensures Ascending(Sorted(s))
    ensures multiset(Sorted(s)) == multiset(s)
  {
    if s != [] {
      SortedSorts(s[1..]);
      InsertMultiset(s[0], Sorted(s[1..]));
      InsertAscending(s[0], Sorted(s[1..]), 0);
      assert s == [s[0]] + s[1..];
    }
  }

  /** The recorded locations in ascending order, in place. */
  method SortLocs(locs: array<nat>, n: nat)
    requires n <= locs.Length
    modifies locs
    ensures Ascending(locs[..n])
    ensures multiset(locs[..n]) == old(multiset(locs[..n]))
    ensures locs[n..] == old(locs[n..])
  {
    var t := Sorted(locs[..n]);
    SortedSorts(locs[..n]);
    for k := 0 to n
      invariant locs[..k] == t[..k]
      invariant locs[n..] == old(locs[n..])
    {
      locs[k] := t[k];
    }
    assert locs[..n] == t;
  }

  /** An ascending list with one copy of each element. */
  function Distinct(s: seq<nat>): (t: seq<nat>)
    ensures s != [] ==> 0 < |t| <= |s| && t[|t| - 1] == s[|s| - 1]
  {
    if |s| <= 1 then s
    else
      var n := |s| - 1;
      if s[n] == s[n - 1] then Distinct(s[..n]) else Distinct(s[..n]) + [s[n]]
  }

  lemma {:induction false} DistinctMembers(s: seq<nat>)
    ensures SameMembers(Distinct(s), s)
  {
    if |s| > 1 {
      var n := |s| - 1;
      DistinctMembers(s[..n]);
      assert s == s[..n] + [s[n]];
      assert s[n - 1] in s[..n];
    }
  }

  lemma {:induction false} DistinctAscending(s: seq<nat>)
    requires Ascending(s)
    ensures forall i, j :: 0 <= i < j < |Distinct(s)| ==> Distinct(s)[i] < Distinct(s)[j]
  {
    if |s| > 1 {
      var n := |s| - 1;
      DistinctAscending(s[..n]);
      assert s[..n][n - 1] == s[n - 1];
    }
  }

  lemma {:induction false} DistinctStep(s: seq<nat>, i: nat)
    requires 0 < i < |s|
    ensures Distinct(s[..i + 1]) == if s[i] == s[i - 1] then Distinct(s[..i]) else Distinct(s[..i]) + [s[i]]
  {
    assert s[..i + 1][..i] == s[..i];
  }

  /** Keep one copy of each location of an ascending prefix, in place. */
  method Deduplicate(locs: array<nat>, n: nat) returns (unique: nat)
    requires 0 < n <= locs.Length
    modifies locs
    ensures unique <= n && locs[..unique] == Distinct(old(locs[..n]))
  {
    ghost var was := locs[..n];
    ghost var kept := Distinct(was[..1]);
    assert kept == [locs[0]];
    hide Distinct;
    unique := 1;
    var i := 1;
    while i < n
      invariant 1 <= unique <= i <= n && |kept| == unique && kept == Distinct(was[..i])
      invariant locs[..n] == kept + was[unique..]
    {
      ghost var now := locs[..n];
      DistinctStep(was, i);
      LastKept(was, i);
      assert locs[i] == now[i] == was[i] && locs[i - 1] == now[i - 1] == was[i - 1];
      if locs[i] != locs[i - 1] {
        KeepOne(kept, was, was[i]);
        locs[unique] := locs[i];
        assert locs[..n] == now[unique := was[i]];
        unique := unique + 1;
        kept := kept + [was[i]];
      }
      i := i + 1;
    }
    assert was[..n] == was;
    assert locs[..unique] == locs[..n][..unique] == kept;
  }

  lemma {:induction false} LastKept(s: seq<nat>, i: nat)
    requires 0 < i <= |s|
    ensures var t := Distinct(s[..i]); 0 < |t| <= i && t[|t| - 1] == s[i - 1]
  {
    assert s[..i][|s[..i]| - 1] == s[i - 1];
  }

  lemma {:induction false} KeepOne(kept: seq<nat>, was: seq<nat>, x: nat)
    requires |kept| < |was|
    ensures (kept + was[|kept|..])[|kept| := x] == kept + [x] + was[|kept| + 1..]
  {
  }

  // ----- encoding ------------------------------------------------------------------

  /** Pages before `p` have their final start entry. */
  ghost predicate StartsBefore(s: seq<nat>, starts: seq<nat>, base: nat, p: nat)
  {
    forall q: nat, i: nat :: q < p && q < |starts| && FirstFrom(s, i, PageStart(base, q)) ==>
        StartAt(s, starts, base, q, i)
  }

  ghost predicate Encodable(m: seq<Byte>, s: seq<nat>)
    requires forall i :: 0 <= i < |s| ==> InBounds(m, s[i], 8)
  {
    forall i :: 0 <= i < |s| ==> EncodeValue(Load(m, s[i], 8)).Some?
  }

  lemma {:induction false} EncodeStep(m: seq<Byte>, e: seq<Byte>, s: seq<nat>, base: nat, pages: nat, i: nat, w: nat)
    requires Slots(|m|, s, base, pages) && i < |s| && EncodedUpTo(m, e, s, base, pages, i)
    requires EncodeValue(Load(m, s[i], 8)).Some? && w < Pow2(64)
    requires w == EncodeWord(EncodeValue(Load(m, s[i], 8)).value, DeltaAt(s, i, base))
    ensures EncodedUpTo(m, Store(e, s[i], 8, w), s, base, pages, i + 1)
  {
    hide And, Or, Pow2, Load, Store, EncodeValue, EncodeWord, DeltaAt;
    var e' := Store(e, s[i], 8, w);
    LoadAfterStore(e, s[i], 8, w);
    OtherSlotsKeep(e, s, i, w);
    assert OutsideSame(m, e', s);
    forall k | 0 <= k < i + 1 ensures LinkAt(m, e', s, k, base) {
      assert k < i ==> LinkAt(m, e, s, k, base);
    }
    forall k | i + 1 <= k < |s| ensures SameAt(m, e', s[k]) {
      assert SameAt(m, e, s[k]);
    }
  }

  /** Encode the links of one page, starting at slot `from`; false where the build aborts. */
  method EncodePage(buf: array<Byte>, s: seq<nat>, from: nat, base: nat, p: nat, pages: nat, ghost m: seq<Byte>)
    returns (ok: bool, next: nat)
    requires Slots(buf.Length, s, base, pages) && |m| == buf.Length
    requires FirstFrom(s, from, PageStart(base, p))
    requires EncodedUpTo(m, buf[..], s, base, pages, from)
    modifies buf
    ensures ok ==> FirstFrom(s, next, PageStart(base, p + 1)) && EncodedUpTo(m, buf[..], s, base, pages, next)
    ensures !ok ==> !Encodable(m, s)
  {
    hide And, Or, Pow2, Load, Store, EncodeValue, EncodeWord, DeltaAt, LinkAt, OutsideSame;
    var pageFileEnd := PageStart(base, p) + PAGE_SZ;
    next := from;
    while next < |s| && s[next] < pageFileEnd
      invariant from <= next <= |s|
      invariant forall k :: 0 <= k < next ==> s[k] < pageFileEnd
      invariant EncodedUpTo(m, buf[..], s, base, pages, next)
    {
      var rawValue := Read(buf, s[next], 8);
      assert SameAt(m, buf[..], s[next]);
      var value := EncodeValue(rawValue);
      if value.None? {
        return false, next;
      }
      var deltaToNext := 0;
      if next + 1 < |s| && s[next + 1] < pageFileEnd {
        deltaToNext := s[next + 1] - s[next];
      }
      PageDelta(s, next, base, p, buf.Length, pages);
      var encoded := EncodeWord(value.value, deltaToNext);
      LoadBound(m, s[next], 8);
      DeltaSmall(s, next, buf.Length, base, pages);
      SlotRoundTrip(rawValue, deltaToNext, 0);
      EncodeStep(m, buf[..], s, base, pages, next, encoded);
      Write(buf, s[next], 8, encoded);
      next := next + 1;
    }
    ok := true;
  }

  lemma {:induction false} PageDelta(s: seq<nat>, i: nat, base: nat, p: nat, len: nat, pages: nat)
    requires Slots(len, s, base, pages) && i < |s| && PageStart(base, p) <= s[i] < PageStart(base, p + 1)
    ensures DeltaAt(s, i, base) == if i + 1 < |s| && s[i + 1] < PageStart(base, p) + PAGE_SZ then s[i + 1] - s[i] else 0
  {
    assert PageOf(s[i], base) == p;
  }

  lemma {:induction false} FirstFromUnique(s: seq<nat>, i: int, j: int, bound: nat)
    requires FirstFrom(s, i, bound) && FirstFrom(s, j, bound)
    ensures i == j
  {
    assert i < j ==> At(s, i) < bound;
    assert j < i ==> At(s, j) < bound;
  }

  method SkipBelow(s: seq<nat>, from: nat, bound: nat) returns (i: nat)
    requires from <= |s| && forall k :: 0 <= k < from ==> s[k] < bound
    ensures from <= i <= |s| && forall k :: 0 <= k < i ==> s[k] < bound
    ensures i < |s| ==> bound <= s[i]
  {
    i := from;
    while i < |s| && s[i] < bound
      invariant from <= i <= |s| && forall k :: 0 <= k < i ==> s[k] < bound
    {
      i := i + 1;
    }
  }

  /** Rewrite every page: chain its slots and note where the chain starts. */
  method EncodePages(buf: array<Byte>, s: seq<nat>, base: nat, pages: nat) returns (ok: bool, starts: seq<nat>)
    requires Slots(buf.Length, s, base, pages)
    modifies buf
    ensures ok <==> Encodable(old(buf[..]), s)
    ensures ok ==> |starts| == pages && Starts(s, starts, base)
    ensures ok ==> EncodedUpTo(old(buf[..]), buf[..], s, base, pages, |s|)
  {
    hide And, Or, Pow2, Load, Store, EncodeValue, EncodeWord, DeltaAt;
    ghost var m := buf[..];
    starts := seq(pages, _ => NO_REBASE);
    ok := true;
    var locIdx, p := 0, 0;
    while p < pages && locIdx < |s|
      invariant 0 <= p <= pages && |starts| == pages
      invariant FirstFrom(s, locIdx, PageStart(base, p))
      invariant EncodedUpTo(m, buf[..], s, base, pages, locIdx)
      invariant StartsBefore(s, starts, base, p)
      invariant forall q :: p <= q < pages ==> starts[q] == NO_REBASE
    {
      var pageFileStart := PageStart(base, p);
      ghost var first := locIdx;
      locIdx := SkipBelow(s, locIdx, pageFileStart);
      FirstFromUnique(s, first, locIdx, pageFileStart);
      if locIdx < |s| && s[locIdx] < pageFileStart + PAGE_SZ {
        starts := starts[p := (s[locIdx] - pageFileStart) / 4];
      }
      PageStartKept(s, starts, base, p, locIdx);
      var encoded, next := EncodePage(buf, s, locIdx, base, p, pages, m);
      if !encoded {
        return false, [];
      }
      locIdx := next;
      p := p + 1;
    }
    TailStarts(s, starts, base, pages, p, locIdx, buf.Length);
    forall k | 0 <= k < |s| ensures EncodeValue(Load(m, s[k], 8)).Some? {
      assert LinkAt(m, buf[..], s, k, base);
    }
  }

  lemma {:induction false} PageStartKept(s: seq<nat>, starts: seq<nat>, base: nat, p: nat, i: nat)
    requires p < |starts| && FirstFrom(s, i, PageStart(base, p)) && StartsBefore(s, starts, base, p)
    requires StartAt(s, starts, base, p, i)
    ensures StartsBefore(s, starts, base, p + 1)
  {
    forall q: nat, j: nat | q < p + 1 && q < |starts| && FirstFrom(s, j, PageStart(base, q))
      ensures StartAt(s, starts, base, q, j)
    {
      if q == p {
        FirstFromUnique(s, i, j, PageStart(base, p));
      }
    }
  }

  lemma {:induction false} TailStarts(s: seq<nat>, starts: seq<nat>, base: nat, pages: nat, p: nat, i: nat, len: nat)
    requires Slots(len, s, base, pages) && |starts| == pages && p <= pages
    requires FirstFrom(s, i, PageStart(base, p)) && StartsBefore(s, starts, base, p)
    requires p < pages ==> i == |s|
    requires forall q :: p <= q < pages ==> starts[q] == NO_REBASE
    ensures Starts(s, starts, base) && i == |s|
  {
    assert i < |s| ==> PageStart(base, p) <= s[i] && DataSlot(len, s[i], base, pages);
    forall q: nat, j: nat | q < |starts| && FirstFrom(s, j, PageStart(base, q))
      ensures StartAt(s, starts, base, q, j)
    {
      assert q >= p ==> PageStart(base, p) <= PageStart(base, q);
      assert q >= p && j < |s| ==> At(s, j) < PageStart(base, p);
    }
  }

  /** The whole pass over the recorded locations. A build that does not abort leaves a buffer
      and a table of page starts from which a loader recovers every slot for every slide. */
  method GenerateSlideInfo(buf: array<Byte>, locs: array<nat>, n: nat, base: nat, pages: nat)
    returns (ok: bool, starts: seq<nat>, slots: seq<nat>)
    requires n <= locs.Length
    requires Apart(set x | x in locs[..n]) && forall i :: 0 <= i < n ==> DataSlot(buf.Length, locs[i], base, pages)
    modifies buf, locs
    ensures Slots(buf.Length, slots, base, pages) && SameMembers(slots, old(locs[..n]))
    ensures ok <==> Encodable(old(buf[..]), slots)
    ensures ok && n > 0 ==> |starts| == pages
    ensures ok ==> Starts(slots, starts, base)
    ensures ok ==> EncodedUpTo(old(buf[..]), buf[..], slots, base, pages, |slots|)
    ensures ok && NoneAtBase(old(buf[..]), slots) ==>
              forall slide: nat :: LoaderRecovers(old(buf[..]), buf[..], slots, starts, base, slide)
    ensures ok && !NoneAtBase(old(buf[..]), slots) ==>
              forall slide: nat :: VALUE_ADD + slide < Pow2(64) ==>
                  !LoaderRecovers(old(buf[..]), buf[..], slots, starts, base, slide)
  {
    hide EncodeValue, Load, EncodedUpTo, Starts, Distinct, LoaderRecovers, NoneAtBase, Pow2;
    ghost var was := locs[..n];
    if n == 0 {
      NothingRecorded(buf[..], base, pages);
      return true, [], [];
    }
    ghost var m := buf[..];
    SortLocs(locs, n);
    ghost var ascending := locs[..n];
    SameMultiset(ascending, was);
    var unique := Deduplicate(locs, n);
    slots := locs[..unique];
    DistinctMembers(ascending);
    DistinctAscending(ascending);
    DistinctSpaced(slots, was, buf.Length, base, pages);
    ok, starts := EncodePages(buf, slots, base, pages);
    if ok {
      forall slide: nat
        ensures NoneAtBase(m, slots) ==> LoaderRecovers(m, buf[..], slots, starts, base, slide)
        ensures VALUE_ADD + slide < Pow2(64) && LoaderRecovers(m, buf[..], slots, starts, base, slide) ==>
                  NoneAtBase(m, slots)
      {
        SlideInfoRoundTrip(m, buf[..], slots, starts, base, slide);
      }
    }
  }

  lemma {:induction false} NothingRecorded(m: seq<Byte>, base: nat, pages: nat)
    ensures Starts([], [], base) && EncodedUpTo(m, m, [], base, pages, 0)
    ensures NoneAtBase(m, []) && forall slide: nat :: LoaderRecovers(m, m, [], [], base, slide)
  {
  }

  lemma {:induction false} SameMultiset(s: seq<nat>, t: seq<nat>)
    requires multiset(s) == multiset(t)
    ensures SameMembers(s, t)
  {
    forall x ensures x in s <==> x in t {
      assert x in s <==> x in multiset(s);
      assert x in t <==> x in multiset(t);
    }
  }

  lemma {:induction false} DistinctSpaced(s: seq<nat>, was: seq<nat>, len: nat, base: nat, pages: nat)
    requires Apart(set x | x in was) && SameMembers(s, was)
    requires forall i, j :: 0 <= i < j < |s| ==> s[i] < s[j]
    requires forall i :: 0 <= i < |was| ==> DataSlot(len, was[i], base, pages)
    ensures Slots(len, s, base, pages)
  {
    forall i | 0 <= i < |s| ensures DataSlot(len, s[i], base, pages) {
      assert s[i] in was;
    }
    forall i, j | 0 <= i < j < |s| ensures s[i] + 8 <= s[j] {
      assert s[i] in was && s[j] in was;
      assert Disjoint(s[i], 8, s[j], 8);
    }
  }
}
