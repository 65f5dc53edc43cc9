/** Slide info version 2: every pointer slot of the DATA region is rewritten as a link of a
    per-page delta chain, from which a loader recovers the pointers and slides them. */
module SlideInfo {
  import opened Bits
  import opened Memory
  import opened Wrappers

  const DELTA_MASK := 0x00FF_FF00_0000_0000
  const DELTA_SHIFT := 38
  const VALUE_ADD := 0x7FFF_2000_0000
  const NO_REBASE := 0x4000

  // ----- one slot ------------------------------------------------------------------

  lemma {:induction false} MaskShape()
    ensures Pow2(64) == 0x1_0000_0000_0000_0000 && Pow2(16) == 0x1_0000 && Pow2(40) == 0x100_0000_0000
    ensures Pow2(38) == 0x40_0000_0000
    ensures DELTA_MASK == Shl(Pow2(16) - 1, 40) && DELTA_MASK < Pow2(64)
  {
    Pow2Values();
    Pow2Add(32, 8);
    Pow2Add(32, 6);
    assert Pow2(6) == 64;
  }

  /** The cache-relative value stored for a pointer, or `None` where the builder aborts. */
  function EncodeValue(raw: nat): Option<nat>
  {
    if raw == 0 then Some(0)
    else if raw < VALUE_ADD then None
    else
      var value := raw - VALUE_ADD;
      if And(value, DELTA_MASK) != 0 then None
      else
        MaskShape();
        Some(And(value, Not(DELTA_MASK, 64)))
  }

  function EncodeWord(value: nat, deltaToNext: nat): nat
  {
    Or(value, And(Shl(deltaToNext, DELTA_SHIFT) % Pow2(64), DELTA_MASK))
  }

  /** Distance to the next slot of the chain, 0 at its end. */
  function DecodeDelta(w: nat): nat { Shr(And(w, DELTA_MASK), DELTA_SHIFT) }

  /** The pointer of a link, slid; a null pointer stays null. */
  function DecodeValue(w: nat, slide: nat): (r: nat)
    ensures r < Pow2(64)
  {
    MaskShape();
    var value := And(w, Not(DELTA_MASK, 64));
    if value == 0 then 0 else (value + VALUE_ADD + slide) % Pow2(64)
  }

  /** What a loader must find in a slot that held `raw` when the cache is slid by `slide`. */
  function Slid(raw: nat, slide: nat): (r: nat)
    ensures r < Pow2(64)
  {
    if raw == 0 then 0 else (raw + slide) % Pow2(64)
  }

  /** The link distance survives the mask: it is a multiple of 4 below 2^18. */
  lemma {:induction false} DeltaField(deltaToNext: nat)
    requires deltaToNext % 4 == 0 && deltaToNext < 0x4_0000
    ensures And(Shl(deltaToNext, DELTA_SHIFT) % Pow2(64), DELTA_MASK) == Shl(deltaToNext, DELTA_SHIFT)
  {
    hide And, Pow2;
    MaskShape();
    var k := deltaToNext / 4;
    assert Shl(deltaToNext, DELTA_SHIFT) == Shl(k, 40) == k * 0x100_0000_0000;
    assert Shl(k, 40) % Pow2(64) == Shl(k, 40);
    AndShl(k, Pow2(16) - 1, 40);
    AndLowMask(k, 16);
  }

  lemma {:induction false} ValueField(raw: nat)
    requires raw < Pow2(64) && EncodeValue(raw).Some?
    ensures EncodeValue(raw).value == if raw == 0 then 0 else raw - VALUE_ADD
    ensures And(EncodeValue(raw).value, DELTA_MASK) == 0
  {
    MaskShape();
    AndZero(DELTA_MASK);
    if raw != 0 {
      AndSplit(raw - VALUE_ADD, DELTA_MASK, 64);
    }
  }

  /** Every address in the terabyte from the base on can be encoded, whatever its high byte. */
  lemma {:induction false} Encodes(v: nat, high: nat)
    requires v < Pow2(40)
    ensures EncodeValue(VALUE_ADD + v + Shl(high, 56)).Some?
  {
    hide And, Pow2, Not;
    MaskShape();
    var top := Shl(high, 56);
    LowHighDisjoint(v, Pow2(16) - 1, 40);
    Pow2Add(16, 40);
    assert top == Shl(Shl(high, 16), 40);
    AndShl(Shl(high, 16), Pow2(16) - 1, 40);
    LowHighDisjoint(Pow2(16) - 1, high, 16);
    AndCommutes(Shl(high, 16), Pow2(16) - 1);
    LowHighDisjoint(v, Shl(high, 16), 40);
    OrDisjoint(v, top);
    AndOrDistributes(v, top, DELTA_MASK);
    assert And(v + top, DELTA_MASK) == 0;
  }

  /** A slot round-trips exactly when its pointer is not the shared-region base itself,
      whose cache-relative value 0 reads back as a null pointer. */
  lemma {:induction false} SlotRoundTrip(raw: nat, deltaToNext: nat, slide: nat)
    requires raw < Pow2(64) && EncodeValue(raw).Some?
    requires deltaToNext % 4 == 0 && deltaToNext < 0x4_0000
    ensures var w := EncodeWord(EncodeValue(raw).value, deltaToNext);
            && w < Pow2(64)
            && DecodeDelta(w) == deltaToNext
            && (raw != VALUE_ADD ==> DecodeValue(w, slide) == Slid(raw, slide))
            && (raw == VALUE_ADD ==> DecodeValue(w, slide) == 0)
  {
    hide And, Or, Pow2, Shl, Shr, EncodeValue;
    MaskShape();
    ValueField(raw);
    DeltaField(deltaToNext);
    PackUnpack(EncodeValue(raw).value, Shl(deltaToNext, DELTA_SHIFT) % Pow2(64), DELTA_MASK, 64);
    ShrShl(deltaToNext, DELTA_SHIFT);
  }

  lemma {:induction false} RoundTripExactly(raw: nat, deltaToNext: nat, slide: nat)
    requires raw < Pow2(64) && EncodeValue(raw).Some? && VALUE_ADD + slide < Pow2(64)
    requires deltaToNext % 4 == 0 && deltaToNext < 0x4_0000
    ensures DecodeValue(EncodeWord(EncodeValue(raw).value, deltaToNext), slide) == Slid(raw, slide)
            <==> raw != VALUE_ADD
  {
    hide And, Or, Pow2, Shl, Shr, EncodeValue, DecodeValue, EncodeWord;
    SlotRoundTrip(raw, deltaToNext, slide);
  }

  // ----- the loader, written from the format ---------------------------------------

  /** Follow one chain from `off`: rewrite each link and report the slots visited. */
  function DecodeChain(m: seq<Byte>, off: nat, slide: nat): (r: Option<(seq<Byte>, seq<nat>)>)
    decreases |m| - off
  {
    if !InBounds(m, off, 8) then None
    else
      var w := Load(m, off, 8);
      var m' := Store(m, off, 8, DecodeValue(w, slide));
      var delta := DecodeDelta(w);
      if delta == 0 then Some((m', [off]))
      else
        match DecodeChain(m', off + delta, slide)
        case None => None
        case Some(r) => Some((r.0, [off] + r.1))
  }

  function PageStart(base: nat, p: nat): nat { base + p * PAGE_SZ }

  function DecodePages(m: seq<Byte>, starts: seq<nat>, base: nat, p: nat, slide: nat)
    : (r: Option<(seq<Byte>, seq<nat>)>)
    requires p <= |starts|
    decreases |starts| - p
  {
    if p == |starts| then Some((m, []))
    else if starts[p] == NO_REBASE then DecodePages(m, starts, base, p + 1, slide)
    else
      match DecodeChain(m, PageStart(base, p) + starts[p] * 4, slide)
      case None => None
      case Some(page) =>
        match DecodePages(page.0, starts, base, p + 1, slide)
        case None => None
        case Some(r) => Some((r.0, page.1 + r.1))
  }

  // ----- what the builder leaves in the buffer -------------------------------------

  /** Ascending slots, eight bytes each and not overlapping. */
  ghost predicate Spaced(s: seq<nat>)
  {
    forall i, j :: 0 <= i < j < |s| ==> s[i] + 8 <= s[j]
  }

  predicate DataSlot(len: nat, slot: nat, base: nat, pages: nat)
  {
    base <= slot < PageStart(base, pages) && slot + 8 <= len && (slot - base) % 4 == 0
  }

  ghost predicate Slots(len: nat, s: seq<nat>, base: nat, pages: nat)
  {
    Spaced(s) && forall i :: 0 <= i < |s| ==> DataSlot(len, s[i], base, pages)
  }

  function PageOf(slot: nat, base: nat): nat
    requires base <= slot
  {
    (slot - base) / PAGE_SZ
  }

  function At(s: seq<nat>, i: int): nat
  {
    if 0 <= i < |s| then s[i] else 0
  }

  /** `i` is the index of the first slot at or after `bound`. */
  ghost predicate FirstFrom(s: seq<nat>, i: int, bound: nat)
  {
    && 0 <= i <= |s|
    && (forall k :: 0 <= k < i ==> s[k] < bound)
    && (forall k :: i <= k < |s| ==> bound <= s[k])
  }

  /** The link distance stored at slot `i`: to the next slot of the same page, else 0. */
  function DeltaAt(s: seq<nat>, i: nat, base: nat): nat
    requires i < |s| && forall k :: 0 <= k < |s| ==> base <= s[k]
  {
    if i + 1 < |s| && PageOf(s[i + 1], base) == PageOf(s[i], base) && s[i] <= s[i + 1] then s[i + 1] - s[i] else 0
  }

  ghost predicate OutsideSame(m: seq<Byte>, m': seq<Byte>, s: seq<nat>)
  {
    && |m| == |m'|
    && forall k :: 0 <= k < |m| && (forall i :: 0 <= i < |s| ==> !(s[i] <= k < s[i] + 8)) ==> m'[k] == m[k]
  }

  ghost predicate LinkAt(m: seq<Byte>, e: seq<Byte>, s: seq<nat>, i: nat, base: nat)
    requires i < |s| && InBounds(m, s[i], 8) && |e| == |m| && forall k :: 0 <= k < |s| ==> base <= s[k]
  {
    var v := EncodeValue(Load(m, s[i], 8));
    v.Some? && Load(e, s[i], 8) == EncodeWord(v.value, DeltaAt(s, i, base))
  }

  ghost predicate SlidAt(m: seq<Byte>, d: seq<Byte>, slot: nat, slide: nat)
    requires InBounds(m, slot, 8) && |d| == |m|
  {
    Load(d, slot, 8) == Slid(Load(m, slot, 8), slide)
  }

  /** What the loader does find: the shared-region base itself reads back as a null pointer. */
  function Recovered(raw: nat, slide: nat): nat { if raw == VALUE_ADD then 0 else Slid(raw, slide) }

  ghost predicate RecoveredAt(m: seq<Byte>, d: seq<Byte>, slot: nat, slide: nat)
    requires InBounds(m, slot, 8) && |d| == |m|
  {
    Load(d, slot, 8) == Recovered(Load(m, slot, 8), slide)
  }

  ghost predicate SameAt(m: seq<Byte>, e: seq<Byte>, slot: nat)
    requires InBounds(m, slot, 8) && |e| == |m|
  {
    Load(e, slot, 8) == Load(m, slot, 8)
  }

  /** Slots before `i` have been encoded from the contents of `m`, the rest is as in `m`. */
  ghost predicate EncodedUpTo(m: seq<Byte>, e: seq<Byte>, s: seq<nat>, base: nat, pages: nat, i: nat)
    requires Slots(|m|, s, base, pages)
  {
    && i <= |s| && |e| == |m|
    && OutsideSame(m, e, s)
    && (forall k :: 0 <= k < i ==> LinkAt(m, e, s, k, base))
    && (forall k :: i <= k < |s| ==> SameAt(m, e, s[k]))
  }

  ghost predicate StartAt(s: seq<nat>, starts: seq<nat>, base: nat, p: nat, i: nat)
    requires p < |starts| && i <= |s|
  {
    if i < |s| && PageStart(base, p) <= s[i] < PageStart(base, p + 1)
    then starts[p] == (s[i] - PageStart(base, p)) / 4
    else starts[p] == NO_REBASE
  }

  ghost predicate Starts(s: seq<nat>, starts: seq<nat>, base: nat)
  {
    forall p: nat, i: nat :: p < |starts| && FirstFrom(s, i, PageStart(base, p)) ==> StartAt(s, starts, base, p, i)
  }

  /** Slots before `i` have been recovered, later ones are still links. */
  ghost predicate DecodedUpTo(m: seq<Byte>, d: seq<Byte>, s: seq<nat>, base: nat, pages: nat, i: nat, slide: nat)
    requires Slots(|m|, s, base, pages)
  {
    && i <= |s| && |d| == |m|
    && OutsideSame(m, d, s)
    && (forall k :: 0 <= k < i ==> RecoveredAt(m, d, s[k], slide))
    && (forall k :: i <= k < |s| ==> LinkAt(m, d, s, k, base))
  }

  /** The memory a loader must end with: each slot slid, every other byte as before encoding. */
  ghost predicate Relocated(m: seq<Byte>, d: seq<Byte>, s: seq<nat>, slide: nat)
    requires forall i :: 0 <= i < |s| ==> InBounds(m, s[i], 8)
  {
    OutsideSame(m, d, s) && forall i :: 0 <= i < |s| ==> SlidAt(m, d, s[i], slide)
  }

  /** Running the loader over `e` visits the slots once, in order, and relocates `m`. */
  ghost predicate LoaderRecovers(m: seq<Byte>, e: seq<Byte>, s: seq<nat>, starts: seq<nat>, base: nat, slide: nat)
    requires forall i :: 0 <= i < |s| ==> InBounds(m, s[i], 8)
  {
    var r := DecodePages(e, starts, base, 0, slide);
    r.Some? && r.value.1 == s && Relocated(m, r.value.0, s, slide)
  }

  /** No slot points at the shared-region base itself. */
  ghost predicate NoneAtBase(m: seq<Byte>, s: seq<nat>)
    requires forall i :: 0 <= i < |s| ==> InBounds(m, s[i], 8)
  {
    forall i :: 0 <= i < |s| ==> Load(m, s[i], 8) != VALUE_ADD
  }

  // ----- the round trip ------------------------------------------------------------

  lemma {:induction false} OtherSlotsKeep(m: seq<Byte>, s: seq<nat>, i: nat, v: nat)
    requires Spaced(s) && i < |s| && forall k :: 0 <= k < |s| ==> InBounds(m, s[k], 8)
    ensures forall k :: 0 <= k < |s| && k != i ==>
              InBounds(m, s[k], 8) && Load(Store(m, s[i], 8, v), s[k], 8) == Load(m, s[k], 8)
  {
    forall k | 0 <= k < |s| && k != i
      ensures Load(Store(m, s[i], 8, v), s[k], 8) == Load(m, s[k], 8)
    {
      LoadAfterDisjointStore(m, s[k], 8, s[i], 8, v);
    }
  }

  lemma {:induction false} DeltaSmall(s: seq<nat>, i: nat, len: nat, base: nat, pages: nat)
    requires Slots(len, s, base, pages) && i < |s|
    ensures DeltaAt(s, i, base) % 4 == 0 && DeltaAt(s, i, base) < PAGE_SZ
    ensures DeltaAt(s, i, base) == 0 <==> i + 1 == |s| || PageOf(s[i + 1], base) != PageOf(s[i], base)
  {
  }

  /** Rewriting link `i` yields the slid pointer and the distance to the next slot. */
  lemma {:induction false} DecodeLink(m: seq<Byte>, d: seq<Byte>, s: seq<nat>, base: nat, pages: nat, i: nat,
                                      slide: nat)
    requires Slots(|m|, s, base, pages) && i < |s| && DecodedUpTo(m, d, s, base, pages, i, slide)
    ensures var w := Load(d, s[i], 8);
            && DecodeDelta(w) == DeltaAt(s, i, base)
            && DecodedUpTo(m, Store(d, s[i], 8, DecodeValue(w, slide)), s, base, pages, i + 1, slide)
  {
    hide And, Or, Pow2, Load, Store, EncodeValue, DecodeValue, EncodeWord, DecodeDelta, DeltaAt, Slid;
    var w := Load(d, s[i], 8);
    assert LinkAt(m, d, s, i, base);
    LoadBound(m, s[i], 8);
    DeltaSmall(s, i, |m|, base, pages);
    SlotRoundTrip(Load(m, s[i], 8), DeltaAt(s, i, base), slide);
    var d' := Store(d, s[i], 8, DecodeValue(w, slide));
    LoadAfterStore(d, s[i], 8, DecodeValue(w, slide));
    OtherSlotsKeep(d, s, i, DecodeValue(w, slide));
    assert OutsideSame(m, d', s);
    forall k | 0 <= k < i + 1 ensures RecoveredAt(m, d', s[k], slide) {
      assert k < i ==> RecoveredAt(m, d, s[k], slide);
    }
    forall k | i + 1 <= k < |s| ensures LinkAt(m, d', s, k, base) {
      assert LinkAt(m, d, s, k, base);
    }
  }

  /** The chain from slot `i` runs through exactly the slots `i..j` left in its page. */
  lemma {:induction false} DecodeChainRun(m: seq<Byte>, d: seq<Byte>, s: seq<nat>, base: nat, pages: nat, i: nat,
                                          p: nat, slide: nat)
    returns (j: nat)
    requires Slots(|m|, s, base, pages) && i < |s| && DecodedUpTo(m, d, s, base, pages, i, slide)
    requires PageOf(s[i], base) == p
    ensures i < j <= |s| && FirstFrom(s, j, PageStart(base, p + 1))
    ensures var r := DecodeChain(d, s[i], slide);
            r.Some? && r.value.1 == s[i..j] && |r.value.0| == |m| && DecodedUpTo(m, r.value.0, s, base, pages, j, slide)
    decreases |s| - i
  {
    hide And, Or, Pow2, Load, Store, DecodeValue, DecodeDelta, LinkAt, RecoveredAt, OutsideSame;
    DecodeLink(m, d, s, base, pages, i, slide);
    DeltaSmall(s, i, |m|, base, pages);
    var d' := Store(d, s[i], 8, DecodeValue(Load(d, s[i], 8), slide));
    if DeltaAt(s, i, base) == 0 {
      j := i + 1;
      assert s[i..j] == [s[i]];
    } else {
      j := DecodeChainRun(m, d', s, base, pages, i + 1, p, slide);
      assert s[i..j] == [s[i]] + s[i + 1..j];
    }
  }

  lemma {:induction false} DecodePagesRun(m: seq<Byte>, d: seq<Byte>, s: seq<nat>, starts: seq<nat>, base: nat, i: nat,
                                          p: nat, slide: nat)
    requires Slots(|m|, s, base, |starts|) && Starts(s, starts, base)
    requires p <= |starts| && FirstFrom(s, i, PageStart(base, p)) && DecodedUpTo(m, d, s, base, |starts|, i, slide)
    ensures var r := DecodePages(d, starts, base, p, slide);
            r.Some? && r.value.1 == s[i..] && DecodedUpTo(m, r.value.0, s, base, |starts|, |s|, slide)
    decreases |starts| - p
  {
    hide And, Or, Pow2, Load, DecodeChain, LinkAt, RecoveredAt, OutsideSame;
    if p == |starts| {
      assert i == |s|;
    } else {
      assert StartAt(s, starts, base, p, i);
      if i < |s| && s[i] < PageStart(base, p + 1) {
        assert PageStart(base, p) + starts[p] * 4 == s[i];
        var j := DecodeChainRun(m, d, s, base, |starts|, i, p, slide);
        var d' := DecodeChain(d, s[i], slide).value.0;
        DecodePagesRun(m, d', s, starts, base, j, p + 1, slide);
        assert s[i..] == s[i..j] + s[j..];
      } else {
        DecodePagesRun(m, d, s, starts, base, i, p + 1, slide);
      }
    }
  }

  /** Recovering the slots is relocating them exactly when none points at the base. */
  lemma {:induction false} RelocatedIff(m: seq<Byte>, d: seq<Byte>, s: seq<nat>, base: nat, pages: nat, slide: nat)
    requires Slots(|m|, s, base, pages) && DecodedUpTo(m, d, s, base, pages, |s|, slide)
    ensures NoneAtBase(m, s) ==> Relocated(m, d, s, slide)
    ensures VALUE_ADD + slide < Pow2(64) && Relocated(m, d, s, slide) ==> NoneAtBase(m, s)
  {
    hide Load, OutsideSame, Pow2;
    forall i | 0 <= i < |s|
      ensures Load(m, s[i], 8) != VALUE_ADD ==> SlidAt(m, d, s[i], slide)
      ensures VALUE_ADD + slide < Pow2(64) && Load(m, s[i], 8) == VALUE_ADD ==> !SlidAt(m, d, s[i], slide)
    {
      assert RecoveredAt(m, d, s[i], slide);
    }
  }

  /** Round trip of the whole region: the loader visits every slot once, in order, slides each
      pointer and restores every other byte, exactly when no slot points at the base. */
  lemma {:induction false} SlideInfoRoundTrip(m: seq<Byte>, e: seq<Byte>, s: seq<nat>, starts: seq<nat>, base: nat,
                                              slide: nat)
    requires Slots(|m|, s, base, |starts|) && Starts(s, starts, base)
    requires EncodedUpTo(m, e, s, base, |starts|, |s|)
    ensures NoneAtBase(m, s) ==> LoaderRecovers(m, e, s, starts, base, slide)
    ensures VALUE_ADD + slide < Pow2(64) && LoaderRecovers(m, e, s, starts, base, slide) ==> NoneAtBase(m, s)
  {
    hide Load, Relocated, NoneAtBase, Pow2, DecodePages;
    assert FirstFrom(s, 0, PageStart(base, 0));
    DecodePagesRun(m, e, s, starts, base, 0, 0, slide);
    assert s[0..] == s;
    RelocatedIff(m, DecodePages(e, starts, base, 0, slide).value.0, s, base, |starts|, slide);
  }
}
