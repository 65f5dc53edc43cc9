/** Moving code and data apart: RIP-relative displacements are adjusted so that every patched
    instruction reaches, from its new address, the new address of what it reached before. */
module RipPatch {
  import opened Bits
  import opened Memory
  import opened Layout
  import opened Linker
  import opened Wrappers

  // ----- 32-bit displacements ------------------------------------------------------

  const TWO32 := 0x1_0000_0000
  const INT32_MIN := -0x8000_0000
  const INT32_MAX := 0x7FFF_FFFF

  predicate IsInt32(d: int) { INT32_MIN <= d <= INT32_MAX }

  function Signed32(u: nat): int { if u > INT32_MAX then u - TWO32 else u }

  function Unsigned32(d: int): nat
    requires IsInt32(d)
  {
    if d < 0 then d + TWO32 else d
  }

  function LoadDisp(m: seq<Byte>, off: int): int
    requires InBounds(m, off, 4)
  {
    Signed32(Load(m, off, 4))
  }

  function StoreDisp(m: seq<Byte>, off: int, d: int): (m': seq<Byte>)
    requires InBounds(m, off, 4) && IsInt32(d)
    ensures |m'| == |m| && forall k :: 0 <= k < |m| && !(off <= k < off + 4) ==> m'[k] == m[k]
  {
    Store(m, off, 4, Unsigned32(d))
  }

  lemma {:induction false} LoadStoredDisp(m: seq<Byte>, off: int, d: int)
    requires InBounds(m, off, 4) && IsInt32(d)
    ensures LoadDisp(StoreDisp(m, off, d), off) == d
  {
    hide Pow2, Load, Store;
    Pow2Values();
    LoadAfterStore(m, off, 4, Unsigned32(d));
  }

  /** The exact sum, or nothing if it is not a 32-bit displacement. */
  function AddDisp32Checked(disp: int, delta: int): Option<int>
  {
    if IsInt32(disp + delta) then Some(disp + delta) else None
  }

  // ----- one slide for all data segments of a library ------------------------------

  predicate DataSeg(segs: seq<Seg>, s: int) { 0 <= s < |segs| && segs[s].region == Data }

  /** `t` is the next data segment after `s`. */
  ghost predicate NextData(segs: seq<Seg>, s: nat, t: nat)
  {
    s < t && DataSeg(segs, s) && DataSeg(segs, t) && forall k :: s < k < t ==> !DataSeg(segs, k)
  }

  /** Each data segment starts where the room of the previous one ends. */
  ghost predicate Contiguous(segs: seq<Seg>)
  {
    forall s: nat, t: nat :: NextData(segs, s, t) ==> segs[t].origVmaddr == segs[s].origVmaddr + Room(segs[s])
  }

  ghost predicate OneDataSlide(segs: seq<Seg>)
  {
    forall s: nat, t: nat :: DataSeg(segs, s) && DataSeg(segs, t) ==> segs[s].Slide() == segs[t].Slide()
  }

  lemma {:induction false} UsedWithoutData(segs: seq<Seg>, m: nat, n: nat)
    requires m <= n <= |segs| && forall k :: m <= k < n ==> segs[k].region != Data
    ensures Used(segs[..n]).data == Used(segs[..m]).data
    decreases n - m
  {
    hide Room;
    if m < n {
      UsedStep(segs, n - 1);
      UsedWithoutData(segs, m, n - 1);
    }
  }

  /** In the cache, consecutive data segments of a library follow each other without a gap. */
  lemma {:induction false} NextDataPlace(ds: seq<Dylib>, plan: Plan, i: nat, s: nat, t: nat)
    requires LaidOut(Flat(ds), plan) && i < |ds| && NextData(ds[i].segs, s, t)
    requires forall j :: 0 <= j < |ds| ==> Readable(ds[j])
    ensures ds[i].segs[t].cacheVmaddr == ds[i].segs[s].cacheVmaddr + Room(ds[i].segs[s])
  {
    hide Flat, Used, Room, Contents, LibraryContents;
    var segs := Flat(ds);
    var m, n := Position(ds, i, s), Position(ds, i, t);
    AtPosition(ds, i, s);
    AtPosition(ds, i, t);
    assert segs[m] == PlaceOne(segs, m, plan.Files()) && segs[n] == PlaceOne(segs, n, plan.Files());
    UsedStep(segs, m);
    forall k | m + 1 <= k < n ensures segs[k].region != Data {
      AtPosition(ds, i, k - m + s);
      assert !DataSeg(ds[i].segs, k - m + s);
    }
    UsedWithoutData(segs, m + 1, n);
  }

  lemma {:induction false} PreviousData(segs: seq<Seg>, s: nat, t: nat) returns (p: nat)
    requires s < t && DataSeg(segs, s) && DataSeg(segs, t)
    ensures s <= p && NextData(segs, p, t)
  {
    p := t - 1;
    while !DataSeg(segs, p)
      invariant s <= p < t && forall k :: p < k < t ==> !DataSeg(segs, k)
      decreases p
    {
      p := p - 1;
    }
  }

  lemma {:induction false} SlidesAgree(ds: seq<Dylib>, plan: Plan, i: nat, s: nat, t: nat)
    requires LaidOut(Flat(ds), plan) && i < |ds| && (forall j :: 0 <= j < |ds| ==> Readable(ds[j]))
    requires Contiguous(ds[i].segs)
    requires s <= t && DataSeg(ds[i].segs, s) && DataSeg(ds[i].segs, t)
    ensures ds[i].segs[s].Slide() == ds[i].segs[t].Slide()
    decreases t - s
  {
    hide Flat, Used, Room, LaidOut;
    if s < t {
      var p := PreviousData(ds[i].segs, s, t);
      NextDataPlace(ds, plan, i, p, t);
      SlidesAgree(ds, plan, i, s, p);
    }
  }

  /** All data segments of a library get the same slide exactly when they are page-contiguous in
      the source. */
  lemma {:induction false} OneSlideIffContiguous(ds: seq<Dylib>, plan: Plan, i: nat)
    requires LaidOut(Flat(ds), plan) && i < |ds| && forall j :: 0 <= j < |ds| ==> Readable(ds[j])
    ensures OneDataSlide(ds[i].segs) <==> Contiguous(ds[i].segs)
  {
    hide Flat, Used, Room, LaidOut;
    var segs := ds[i].segs;
    if Contiguous(segs) {
      forall s: nat, t: nat | DataSeg(segs, s) && DataSeg(segs, t) ensures segs[s].Slide() == segs[t].Slide() {
        if s <= t {
          SlidesAgree(ds, plan, i, s, t);
        } else {
          SlidesAgree(ds, plan, i, t, s);
        }
      }
    }
    if OneDataSlide(segs) {
      forall s: nat, t: nat | NextData(segs, s, t) ensures segs[t].origVmaddr == segs[s].origVmaddr + Room(segs[s]) {
        NextDataPlace(ds, plan, i, s, t);
        assert segs[s].Slide() == segs[t].Slide();
      }
    }
  }

  // ----- the adjustment ------------------------------------------------------------

  /** The slide of the first data segment minus that of the text segment; 0 without data. */
  function CodeToDataDelta(segs: seq<Seg>, text: nat): int
    requires text < |segs|
  {
    match FirstData(segs) case None => 0 case Some(s) => segs[s].Slide() - segs[text].Slide()
  }

  function FirstData(segs: seq<Seg>): (r: Option<nat>)
    ensures r.Some? ==> DataSeg(segs, r.value)
    ensures r.Some? ==> forall s :: 0 <= s < r.value ==> !DataSeg(segs, s)
    ensures r.None? ==> forall s :: !DataSeg(segs, s)
  {
    if segs == [] then None
    else if segs[0].region == Data then Some(0)
    else
      match FirstData(segs[1..])
      case None => assert forall s :: DataSeg(segs, s) ==> DataSeg(segs[1..], s - 1); None
      case Some(s) => assert forall k :: 0 < k <= s ==> (DataSeg(segs, k) <==> DataSeg(segs[1..], k - 1)); Some(s + 1)
  }

  /** `addr` is in a data segment of the source. */
  predicate InData(segs: seq<Seg>, addr: int)
  {
    exists s :: 0 <= s < |segs| && segs[s].region == Data && segs[s].Holds(addr)
  }

  /** An instruction whose displacement is relative to `next`, with the displacement adjusted by the
      delta: moved with its text segment it reaches the cache address of its old target exactly when
      the target's segment slides like the first data segment, the one the delta is taken from. */
  lemma {:induction false} PatchedReachesExactly(segs: seq<Seg>, text: nat, next: int, disp: int, s: nat)
    requires text < |segs| && SourceDisjoint(segs) && DataSeg(segs, s) && segs[s].Holds(next + disp)
    ensures FirstData(segs).Some?
    ensures (next + segs[text].Slide()) + (disp + CodeToDataDelta(segs, text)) == Translate(segs, next + disp)
            <==> segs[s].Slide() == segs[FirstData(segs).value].Slide()
  {
    FindUnique(segs, s, next + disp);
    assert FirstData(segs).Some?;
  }

  lemma {:induction false} PatchedReachesTarget(segs: seq<Seg>, text: nat, next: int, disp: int)
    requires text < |segs| && SourceDisjoint(segs) && OneDataSlide(segs) && InData(segs, next + disp)
    ensures (next + segs[text].Slide()) + (disp + CodeToDataDelta(segs, text)) == Translate(segs, next + disp)
  {
    var s: nat :| DataSeg(segs, s) && segs[s].Holds(next + disp);
    PatchedReachesExactly(segs, text, next, disp, s);
  }

  // ----- stubs ---------------------------------------------------------------------

  predicate IsStub(m: seq<Byte>, entry: nat)
  {
    InBounds(m, entry, 6) && m[entry] == 0xff && m[entry + 1] == 0x25
  }

  /** A stub after patching: a jump has its displacement moved by `delta`, anything else is as before. */
  ghost predicate StubPatched(m: seq<Byte>, m': seq<Byte>, entry: nat, delta: int)
  {
    && |m| == |m'| && InBounds(m, entry, 6)
    && if IsStub(m, entry) then
         m'[entry] == 0xff && m'[entry + 1] == 0x25 && LoadDisp(m', entry + 2) == LoadDisp(m, entry + 2) + delta
       else m'[entry..entry + 6] == m[entry..entry + 6]
  }

  /** The displacement of a stub still fits after the move. */
  ghost predicate StubFits(m: seq<Byte>, entry: nat, delta: int)
  {
    IsStub(m, entry) ==> IsInt32(LoadDisp(m, entry + 2) + delta)
  }

  method PatchStub(buf: array<Byte>, entry: nat, delta: int) returns (ok: bool)
    requires entry + 6 <= buf.Length
    modifies buf
    ensures ok <==> StubFits(old(buf[..]), entry, delta)
    ensures ok ==> StubPatched(old(buf[..]), buf[..], entry, delta)
    ensures ok && old(buf[entry] == 0xff && buf[entry + 1] == 0x25) ==>
        LoadDisp(buf[..], entry + 2) == old(LoadDisp(buf[..], entry + 2)) + delta
    ensures ok && !old(buf[entry] == 0xff && buf[entry + 1] == 0x25) ==> buf[..] == old(buf[..])
    ensures !ok ==> buf[..] == old(buf[..]) && buf[entry] == 0xff && buf[entry + 1] == 0x25
    ensures forall k :: 0 <= k < buf.Length && !(entry <= k < entry + 6) ==> buf[k] == old(buf[k])
  {
    hide Load, Store;
    ghost var m := buf[..];
    ok := true;
    if buf[entry] == 0xff && buf[entry + 1] == 0x25 {
      var raw := Read(buf, entry + 2, 4);
      var newDisp := AddDisp32Checked(Signed32(raw), delta);
      if newDisp.None? {
        return false;
      }
      Write(buf, entry + 2, 4, Unsigned32(newDisp.value));
      LoadStoredDisp(m, entry + 2, newDisp.value);
      assert buf[..] == StoreDisp(m, entry + 2, newDisp.value);
      assert buf[..][entry] == m[entry] && buf[..][entry + 1] == m[entry + 1];
    }
  }

  /** Patch the jump of every stub, or abort where a displacement leaves 32 bits. */
  method PatchStubs(buf: array<Byte>, off: nat, numStubs: nat, stubSize: nat, delta: int) returns (ok: bool)
    requires stubSize >= 6 && off + numStubs * stubSize <= buf.Length
    modifies buf
    ensures ok ==> forall i :: 0 <= i < numStubs ==> StubPatched(old(buf[..]), buf[..], StubAt(off, stubSize, i), delta)
    ensures ok <==> forall i :: 0 <= i < numStubs ==> StubFits(old(buf[..]), StubAt(off, stubSize, i), delta)
    ensures forall k :: 0 <= k < buf.Length && !(off <= k < off + numStubs * stubSize) ==> buf[k] == old(buf[k])
  {
    hide StubPatched, StubFits, StubAt;
    ghost var m := buf[..];
    forall i | 0 <= i < numStubs ensures InBounds(m, StubAt(off, stubSize, i), 6) {
      StubInside(off, stubSize, i, numStubs);
    }
    StubEnds(off, stubSize, numStubs);
    var i := 0;
    while i < numStubs
      invariant 0 <= i <= numStubs
      invariant forall j :: 0 <= j < i ==>
                  StubPatched(m, buf[..], StubAt(off, stubSize, j), delta) &&
                      StubFits(m, StubAt(off, stubSize, j), delta)
      invariant forall k :: 0 <= k < buf.Length && !(off <= k < StubAt(off, stubSize, i)) ==> buf[k] == m[k]
    {
      var entry := StubAt(off, stubSize, i);
      StubInside(off, stubSize, i, numStubs);
      ghost var before := buf[..];
      SameStub(m, before, entry, delta);
      ok := PatchStub(buf, entry, delta);
      if !ok {
        return false;
      }
      CopiedStub(m, before, buf[..], entry, delta);
      forall j | 0 <= j < i ensures StubPatched(m, buf[..], StubAt(off, stubSize, j), delta) {
        StubsApart(off, stubSize, j, i);
        StubKept(m, before, buf[..], StubAt(off, stubSize, j), delta);
      }
      i := i + 1;
    }
    ok := true;
  }

  /** A patched jump of a stub at source address `addr`, whose old target lies in segment `s`: from its
      new address it reaches the cache address of that target exactly when `s` slides like the first
      data segment. Stubs are patched whether or not they reach data. */
  lemma {:induction false} PatchedStubReaches(segs: seq<Seg>, text: nat, m: seq<Byte>, m': seq<Byte>, entry: nat,
                                              addr: int, s: nat)
    requires text < |segs| && SourceDisjoint(segs) && FirstData(segs).Some? && IsStub(m, entry)
    requires StubPatched(m, m', entry, CodeToDataDelta(segs, text))
    requires s < |segs| && segs[s].Holds(StubTarget(m, entry, addr))
    ensures StubReaches(segs, text, m, m', entry, addr) <==> segs[s].Slide() == segs[FirstData(segs).value].Slide()
  {
    hide LoadDisp;
    FindUnique(segs, s, StubTarget(m, entry, addr));
  }

  /** A stub that goes through its own text segment loses its target whenever it is moved at all. */
  lemma {:induction false} StubIntoTextBreaks(segs: seq<Seg>, text: nat, m: seq<Byte>, m': seq<Byte>, entry: nat,
                                              addr: int)
    requires text < |segs| && SourceDisjoint(segs) && FirstData(segs).Some? && IsStub(m, entry)
    requires CodeToDataDelta(segs, text) != 0
    requires StubPatched(m, m', entry, CodeToDataDelta(segs, text)) && segs[text].Holds(StubTarget(m, entry, addr))
    ensures !StubReaches(segs, text, m, m', entry, addr)
  {
    hide StubReaches, StubTarget, StubPatched;
    PatchedStubReaches(segs, text, m, m', entry, addr, text);
  }

  /** The address a stub's jump goes through: relative to the end of its six bytes. */
  function StubTarget(m: seq<Byte>, entry: nat, addr: int): int
    requires InBounds(m, entry, 6)
  {
    addr + 6 + LoadDisp(m, entry + 2)
  }

  /** Moved with its text segment, the patched stub goes through the cache address of the old target. */
  ghost predicate StubReaches(segs: seq<Seg>, text: nat, m: seq<Byte>, m': seq<Byte>, entry: nat, addr: int)
    requires text < |segs| && InBounds(m, entry, 6) && |m'| == |m|
  {
    StubTarget(m', entry, addr + segs[text].Slide()) == Translate(segs, StubTarget(m, entry, addr))
  }

  /** Every jump among the stubs that goes through segment `s` in the source reaches its old target in
      the cache, exactly when `s` slides like the first data segment. */
  ghost predicate StubsReachExactly(segs: seq<Seg>, text: nat, m: seq<Byte>, m': seq<Byte>, off: nat, stubSize: nat,
                                    numStubs: nat, addr: int)
    requires text < |segs| && |m'| == |m| && FirstData(segs).Some?
  {
    forall i, s :: 0 <= i < numStubs && 0 <= s < |segs| && IsStub(m, StubAt(off, stubSize, i))
                   && segs[s].Holds(StubTarget(m, StubAt(off, stubSize, i), addr + i * stubSize)) ==>
      (StubReaches(segs, text, m, m', StubAt(off, stubSize, i), addr + i * stubSize)
       <==> segs[s].Slide() == segs[FirstData(segs).value].Slide())
  }

  /** The stubs of a library: `addr`, `size` and `reserved` are those of its section. Without a
      difference between the slides of code and data nothing is done. */
  method PatchLibraryStubs(buf: array<Byte>, segs: seq<Seg>, text: nat, addr: nat, size: nat,
                           reserved: nat)
    returns (ok: bool)
    requires text < |segs| && SourceDisjoint(segs) && segs[text].origVmaddr <= addr && (reserved == 0 || reserved >= 6)
    requires segs[text].cacheFileOff + (addr - segs[text].origVmaddr) + size <= buf.Length
    modifies buf
    ensures var off := segs[text].cacheFileOff + (addr - segs[text].origVmaddr);
            var stubSize := if reserved != 0 then reserved else 6;
            && (ok <==> forall i :: 0 <= i < size / stubSize ==>
                StubFits(old(buf[..]), StubAt(off, stubSize, i), CodeToDataDelta(segs, text)))
            && (ok && FirstData(segs).Some? ==> StubsReachExactly(segs, text, old(buf[..]), buf[..], off, stubSize,
                                                                  size / stubSize, addr))
            && forall k :: 0 <= k < buf.Length && !(off <= k < off + size) ==> buf[k] == old(buf[k])
  {
    hide StubReaches, StubTarget, StubFits, StubPatched, IsStub, Translate;
    var delta := CodeToDataDelta(segs, text);
    var off := segs[text].cacheFileOff + (addr - segs[text].origVmaddr);
    var stubSize := if reserved != 0 then reserved else 6;
    var numStubs := size / stubSize;
    WholeStubs(size, stubSize);
    ghost var m := buf[..];
    if delta == 0 {
      StubsUnmoved(m, off, stubSize, numStubs);
      ok := true;
    } else {
      ok := PatchStubs(buf, off, numStubs, stubSize, delta);
    }
    if ok && FirstData(segs).Some? {
      AllStubsReach(segs, text, m, buf[..], off, stubSize, numStubs, addr);
    }
  }

  lemma {:induction false} WholeStubs(size: nat, stubSize: nat)
    requires stubSize > 0
    ensures 0 <= size / stubSize && size / stubSize * stubSize <= size
  {
  }

  lemma {:induction false} StubsUnmoved(m: seq<Byte>, off: nat, stubSize: nat, numStubs: nat)
    requires stubSize >= 6 && off + numStubs * stubSize <= |m|
    ensures forall i :: 0 <= i < numStubs ==> StubFits(m, StubAt(off, stubSize, i), 0)
    ensures forall i :: 0 <= i < numStubs ==> StubPatched(m, m, StubAt(off, stubSize, i), 0)
  {
    hide LoadDisp;
    forall i | 0 <= i < numStubs
      ensures StubFits(m, StubAt(off, stubSize, i), 0) && StubPatched(m, m, StubAt(off, stubSize, i), 0)
    {
      StubInside(off, stubSize, i, numStubs);
      DispIsInt32(m, StubAt(off, stubSize, i) + 2);
    }
  }

  lemma {:induction false} DispIsInt32(m: seq<Byte>, off: int)
    requires InBounds(m, off, 4)
    ensures IsInt32(LoadDisp(m, off))
  {
    hide Pow2, Load;
    Pow2Values();
    LoadBound(m, off, 4);
  }

  lemma {:induction false} AllStubsReach(segs: seq<Seg>, text: nat, m: seq<Byte>, m': seq<Byte>, off: nat,
                                         stubSize: nat, numStubs: nat, addr: int)
    requires text < |segs| && SourceDisjoint(segs) && FirstData(segs).Some? && |m'| == |m|
    requires forall i :: 0 <= i < numStubs ==> StubPatched(m, m', StubAt(off, stubSize, i), CodeToDataDelta(segs, text))
    ensures StubsReachExactly(segs, text, m, m', off, stubSize, numStubs, addr)
  {
    hide StubReaches, StubTarget, StubPatched;
    forall i, s | 0 <= i < numStubs && 0 <= s < |segs| && IsStub(m, StubAt(off, stubSize, i))
                  && segs[s].Holds(StubTarget(m, StubAt(off, stubSize, i), addr + i * stubSize))
      ensures StubReaches(segs, text, m, m', StubAt(off, stubSize, i), addr + i * stubSize)
              <==> segs[s].Slide() == segs[FirstData(segs).value].Slide()
    {
      PatchedStubReaches(segs, text, m, m', StubAt(off, stubSize, i), addr + i * stubSize, s);
    }
  }

  lemma {:induction false} StubEnds(off: nat, stubSize: nat, n: nat)
    ensures StubAt(off, stubSize, 0) == off && StubAt(off, stubSize, n) == off + n * stubSize
  {
  }

  lemma {:induction false} SameStub(m: seq<Byte>, m': seq<Byte>, entry: nat, delta: int)
    requires |m| == |m'| && InBounds(m, entry, 6) && forall k :: entry <= k < entry + 6 ==> m[k] == m'[k]
    ensures StubFits(m, entry, delta) == StubFits(m', entry, delta)
  {
    SameDisp(m, m', entry + 2);
  }

  lemma {:induction false} CopiedStub(m: seq<Byte>, a: seq<Byte>, b: seq<Byte>, entry: nat, delta: int)
    requires |m| == |a| == |b| && InBounds(m, entry, 6) && StubPatched(a, b, entry, delta)
    requires forall k :: entry <= k < entry + 6 ==> m[k] == a[k]
    ensures StubPatched(m, b, entry, delta)
  {
    SameDisp(m, a, entry + 2);
    assert m[entry..entry + 6] == a[entry..entry + 6];
  }

  function StubAt(off: nat, stubSize: nat, i: nat): nat { off + i * stubSize }

  lemma {:induction false} StubInside(off: nat, stubSize: nat, i: nat, n: nat)
    requires i < n && stubSize >= 6
    ensures off <= StubAt(off, stubSize, i)
    ensures StubAt(off, stubSize, i) + 6 <= StubAt(off, stubSize, i + 1) <= off + n * stubSize
  {
    MulMonotone(stubSize, i, i + 1);
    MulMonotone(stubSize, i + 1, n);
  }

  lemma {:induction false} StubsApart(off: nat, stubSize: nat, j: nat, i: nat)
    requires j < i && stubSize >= 6
    ensures StubAt(off, stubSize, j) + 6 <= StubAt(off, stubSize, i)
  {
    MulMonotone(stubSize, j, j + 1);
    MulMonotone(stubSize, j + 1, i);
  }

  lemma {:induction false} SameDisp(m: seq<Byte>, m': seq<Byte>, off: nat)
    requires |m| == |m'| && InBounds(m, off, 4) && forall k :: off <= k < off + 4 ==> m[k] == m'[k]
    ensures LoadDisp(m, off) == LoadDisp(m', off)
  {
    LoadCongruent(m, m', off, 4);
  }

  lemma {:induction false} StubKept(m: seq<Byte>, a: seq<Byte>, b: seq<Byte>, entry: nat, delta: int)
    requires |m| == |a| == |b| && InBounds(m, entry, 6) && StubPatched(m, a, entry, delta)
    requires forall k :: entry <= k < entry + 6 ==> a[k] == b[k]
    ensures StubPatched(m, b, entry, delta)
  {
    SameDisp(a, b, entry + 2);
    assert a[entry..entry + 6] == b[entry..entry + 6];
  }
}
