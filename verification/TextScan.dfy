/** Scanning a code section byte by byte for displacements that reach data. The scan patches in
    place, so what it sees at a position may already have been patched further down. */
module TextScan {
  import opened Memory
  import opened Layout
  import opened RipPatch
  import opened Wrappers

  /** A code section at source address `addr`. `recognise` is the instruction decoder: given the
      section's current bytes it says whether a displacement starts at a position, and how many
      bytes of immediate follow it. */
  datatype Section = Section(addr: nat, segs: seq<Seg>, delta: int, recognise: (seq<Byte>, nat) -> Option<nat>)

  /** The decoder looks only at the six bytes before the displacement. */
  ghost predicate Local(recognise: (seq<Byte>, nat) -> Option<nat>)
  {
    forall m: seq<Byte>, m': seq<Byte>, pos: nat ::
      |m| == |m'| && pos <= |m| && (forall k :: 0 <= k < pos && pos - 6 <= k ==> m[k] == m'[k]) ==>
          recognise(m, pos) == recognise(m', pos)
  }

  /** The address a displacement at `pos` with `imm` trailing bytes reaches. */
  function Target(sec: Section, m: seq<Byte>, pos: nat, imm: nat): int
    requires InBounds(m, pos, 4)
  {
    sec.addr + pos + 4 + imm + LoadDisp(m, pos)
  }

  predicate Wanted(sec: Section, m: seq<Byte>, pos: nat)
    requires InBounds(m, pos, 4)
  {
    var imm := sec.recognise(m, pos);
    imm.Some? && InData(sec.segs, Target(sec, m, pos, imm.value))
  }

  /** The decoder answers at `pos`, and its displacement, counted from the end of the instruction, reaches a
      byte of a data segment. */
  ghost predicate DecodesIntoData(sec: Section, m: seq<Byte>, pos: nat)
    requires InBounds(m, pos, 4)
  {
    var imm := sec.recognise(m, pos);
    && imm.Some?
    && var addr := sec.addr + pos + 4 + imm.value + LoadDisp(m, pos);
       exists s :: DataSeg(sec.segs, s) && HoldsAddress(sec.segs[s], addr)
  }

  ghost predicate HoldsAddress(seg: Seg, addr: int) { seg.origVmaddr <= addr < seg.origVmaddr + seg.vmsize }

  lemma {:induction false} WantedMeans(sec: Section, m: seq<Byte>, pos: nat)
    requires InBounds(m, pos, 4)
    ensures Wanted(sec, m, pos) <==> DecodesIntoData(sec, m, pos)
  {
    hide LoadDisp;
    var imm := sec.recognise(m, pos);
    if imm.Some? {
      var addr := Target(sec, m, pos, imm.value);
      assert forall s :: 0 <= s < |sec.segs| ==> (sec.segs[s].Holds(addr) <==> HoldsAddress(sec.segs[s], addr));
      if InData(sec.segs, addr) {
        var s :| 0 <= s < |sec.segs| && sec.segs[s].region == Data && sec.segs[s].Holds(addr);
        assert DataSeg(sec.segs, s) && HoldsAddress(sec.segs[s], addr);
      }
    }
  }

  datatype Scan = Scan(mem: seq<Byte>, patches: seq<nat>, ok: bool)

  function Step(sec: Section, st: Scan, pos: nat): (r: Scan)
    requires InBounds(st.mem, pos, 4)
    ensures |r.mem| == |st.mem|
  {
    if !st.ok || !Wanted(sec, st.mem, pos) then st
    else
      match AddDisp32Checked(LoadDisp(st.mem, pos), sec.delta)
      case None => st.(ok := false)
      case Some(d) => Scan(StoreDisp(st.mem, pos, d), st.patches + [pos], true)
  }

  /** The scan after positions below `p`. */
  function ScanTo(sec: Section, m: seq<Byte>, p: nat): (r: Scan)
    requires p == 0 || p + 3 <= |m|
    ensures |r.mem| == |m|
  {
    if p == 0 then Scan(m, [], true) else Step(sec, ScanTo(sec, m, p - 1), p - 1)
  }

  predicate Covers(q: nat, k: int) { q <= k < q + 4 }

  ghost predicate Untouched(patches: seq<nat>, k: int)
  {
    forall i :: 0 <= i < |patches| ==> !Covers(patches[i], k)
  }

  /** Between two positions the scan only adds patches there, touching only their bytes. */
  lemma {:induction false} ScanBetween(sec: Section, m: seq<Byte>, a: nat, b: nat, k: nat)
    requires a <= b && b + 3 <= |m| && k < |m|
    ensures var s, t := ScanTo(sec, m, a), ScanTo(sec, m, b);
            && s.patches <= t.patches
            && (forall i :: |s.patches| <= i < |t.patches| ==> a <= t.patches[i] < b)
            && ((forall i :: |s.patches| <= i < |t.patches| ==> !Covers(t.patches[i], k)) ==> t.mem[k] == s.mem[k])
            && (t.ok ==> s.ok)
    decreases b - a
  {
    if a < b {
      ScanBetween(sec, m, a, b - 1, k);
      var s, u, t := ScanTo(sec, m, a), ScanTo(sec, m, b - 1), ScanTo(sec, m, b);
      if u.patches < t.patches {
        assert t.patches == u.patches + [b - 1];
        assert forall i :: 0 <= i < |u.patches| ==> t.patches[i] == u.patches[i];
        if forall i :: |s.patches| <= i < |t.patches| ==> !Covers(t.patches[i], k) {
          assert !Covers(t.patches[|u.patches|], k);
        }
      }
    }
  }

  /** No other patch overlaps the displacement at `p`. */
  ghost predicate Clear(patches: seq<nat>, p: nat)
  {
    forall i :: 0 <= i < |patches| ==> patches[i] == p || patches[i] + 4 <= p || p + 4 <= patches[i]
  }

  /** No earlier patch touches the displacement at `p` or the six bytes that its decoding looks at. */
  ghost predicate Undisturbed(patches: seq<nat>, p: nat)
  {
    forall i :: 0 <= i < |patches| ==> patches[i] + 10 <= p || p <= patches[i]
  }

  /** Patches below `p` leave byte `k` alone. */
  ghost predicate UntouchedBelow(patches: seq<nat>, p: nat, k: int)
  {
    forall i :: 0 <= i < |patches| ==> !Covers(patches[i], k) || p <= patches[i]
  }

  lemma {:induction false} OriginalByte(sec: Section, m: seq<Byte>, p: nat, k: nat)
    requires p + 4 <= |m| && k < |m|
    requires UntouchedBelow(ScanTo(sec, m, |m| - 3).patches, p, k)
    ensures ScanTo(sec, m, p).mem[k] == m[k]
    ensures forall i :: 0 <= i < |ScanTo(sec, m, p).patches| ==> ScanTo(sec, m, p).patches[i] < p
  {
    var n := |m| - 3;
    ScanBetween(sec, m, 0, p, k);
    ScanBetween(sec, m, p, n, k);
    NothingYet(sec, m);
    var s, r := ScanTo(sec, m, p), ScanTo(sec, m, n);
    forall i | 0 <= i < |s.patches| ensures !Covers(s.patches[i], k) {
      assert s.patches[i] == r.patches[i] && s.patches[i] < p;
    }
  }

  /** Up to an undisturbed position the section still shows its original bytes there. */
  lemma {:induction false} OriginalBefore(sec: Section, m: seq<Byte>, p: nat)
    requires p + 4 <= |m| && Undisturbed(ScanTo(sec, m, |m| - 3).patches, p)
    ensures forall k :: 0 <= k < |m| && p - 6 <= k < p + 4 ==> ScanTo(sec, m, p).mem[k] == m[k]
  {
    hide ScanTo;
    forall k: nat | 0 <= k < |m| && p - 6 <= k < p + 4 ensures ScanTo(sec, m, p).mem[k] == m[k] {
      OriginalByte(sec, m, p, k);
    }
  }

  /** The scan decides about an undisturbed position as the original bytes say. */
  lemma {:induction false} DecidedByOriginal(sec: Section, m: seq<Byte>, p: nat)
    requires p + 4 <= |m| && Undisturbed(ScanTo(sec, m, |m| - 3).patches, p) && Local(sec.recognise)
    ensures Wanted(sec, ScanTo(sec, m, p).mem, p) == Wanted(sec, m, p)
    ensures sec.recognise(ScanTo(sec, m, p).mem, p) == sec.recognise(m, p)
  {
    hide LoadDisp, ScanTo, InData;
    OriginalBefore(sec, m, p);
    SameDisp(m, ScanTo(sec, m, p).mem, p);
  }

  /** A position is patched exactly when the scan, on reaching it, decodes a displacement into data. */
  lemma {:induction false} PatchedWhenWanted(sec: Section, m: seq<Byte>, p: nat)
    requires p + 4 <= |m| && ScanTo(sec, m, |m| - 3).ok
    ensures p in ScanTo(sec, m, |m| - 3).patches <==> Wanted(sec, ScanTo(sec, m, p).mem, p)
    ensures p in ScanTo(sec, m, |m| - 3).patches <==> DecodesIntoData(sec, ScanTo(sec, m, p).mem, p)
  {
    hide LoadDisp, Wanted, ScanTo, StoreDisp, DecodesIntoData;
    var n := |m| - 3;
    WantedMeans(sec, ScanTo(sec, m, p).mem, p);
    var s, t, r := ScanTo(sec, m, p), ScanTo(sec, m, p + 1), ScanTo(sec, m, n);
    ScanStep(sec, m, p);
    ScanBetween(sec, m, 0, p, 0);
    NothingYet(sec, m);
    ScanBetween(sec, m, p + 1, n, 0);
    forall i | 0 <= i < |r.patches| && r.patches[i] == p ensures i < |t.patches| && t.patches[i] == p {
    }
    if Wanted(sec, s.mem, p) {
      assert t.patches == s.patches + [p];
      assert r.patches[|s.patches|] == p;
    }
  }

  lemma {:induction false} NothingYet(sec: Section, m: seq<Byte>)
    ensures ScanTo(sec, m, 0) == Scan(m, [], true)
  {
  }

  /** A scan that does not abort decides about an undisturbed position by its original bytes: it is
      patched exactly when its original displacement reaches data. */
  lemma {:induction false} UndisturbedPatch(sec: Section, m: seq<Byte>, p: nat)
    requires p + 4 <= |m| && Local(sec.recognise)
    requires var r := ScanTo(sec, m, |m| - 3); r.ok && Undisturbed(r.patches, p)
    ensures p in ScanTo(sec, m, |m| - 3).patches <==> DecodesIntoData(sec, m, p)
  {
    hide ScanTo, Wanted, DecodesIntoData;
    WantedMeans(sec, m, p);
    PatchedWhenWanted(sec, m, p);
    DecidedByOriginal(sec, m, p);
  }

  /** A scan that does not abort: a displacement that no other patch overlaps ends as its original
      value, plus the delta if its position is patched. */
  lemma {:induction false} ClearPatch(sec: Section, m: seq<Byte>, p: nat)
    requires p + 4 <= |m|
    requires var r := ScanTo(sec, m, |m| - 3); r.ok && Clear(r.patches, p)
    ensures LoadDisp(ScanTo(sec, m, p).mem, p) == LoadDisp(m, p)
    ensures var r := ScanTo(sec, m, |m| - 3);
            LoadDisp(r.mem, p) == LoadDisp(m, p) + if p in r.patches then sec.delta else 0
  {
    hide LoadDisp, Wanted, ScanTo, StoreDisp;
    var n := |m| - 3;
    var s, t, r := ScanTo(sec, m, p), ScanTo(sec, m, p + 1), ScanTo(sec, m, n);
    forall k: nat | p <= k < p + 4 ensures s.mem[k] == m[k] {
      OriginalByte(sec, m, p, k);
    }
    SameDisp(m, s.mem, p);
    PatchedWhenWanted(sec, m, p);
    ScanStep(sec, m, p);
    forall k: nat | p <= k < p + 4 ensures r.mem[k] == t.mem[k] {
      ScanBetween(sec, m, p + 1, n, k);
    }
    ScanBetween(sec, m, p + 1, n, 0);
    SameDisp(t.mem, r.mem, p);
    if Wanted(sec, s.mem, p) {
      var d := LoadDisp(m, p) + sec.delta;
      assert t == Scan(StoreDisp(s.mem, p, d), s.patches + [p], true);
      LoadStoredDisp(s.mem, p, d);
    }
  }

  lemma {:induction false} ScanStep(sec: Section, m: seq<Byte>, p: nat)
    requires p + 4 <= |m|
    ensures ScanTo(sec, m, p + 1) == Step(sec, ScanTo(sec, m, p), p)
  {
  }

  /** Every byte outside the patched displacements is left alone. */
  lemma {:induction false} OtherBytesKept(sec: Section, m: seq<Byte>, k: nat)
    requires 4 <= |m| && k < |m|
    requires Untouched(ScanTo(sec, m, |m| - 3).patches, k)
    ensures ScanTo(sec, m, |m| - 3).mem[k] == m[k]
  {
    ScanBetween(sec, m, 0, |m| - 3, k);
  }

  /** A patched displacement that no other patch overlaps, with the immediate length the scan decoded:
      from its new address it reaches the cache address of the byte its original displacement
      reached, exactly when that byte's segment slides like the first data segment. */
  lemma {:induction false} PatchedInstructionReaches(sec: Section, m: seq<Byte>, text: nat, p: nat, t: nat)
    requires p + 4 <= |m| && text < |sec.segs| && sec.delta == CodeToDataDelta(sec.segs, text)
    requires SourceDisjoint(sec.segs)
    requires var r := ScanTo(sec, m, |m| - 3); r.ok && Clear(r.patches, p) && p in r.patches
    requires var imm := sec.recognise(ScanTo(sec, m, p).mem, p);
             imm.Some? ==> DataSeg(sec.segs, t) && sec.segs[t].Holds(Target(sec, m, p, imm.value))
    ensures var r := ScanTo(sec, m, |m| - 3);
            var imm := sec.recognise(ScanTo(sec, m, p).mem, p);
            && imm.Some? && InData(sec.segs, Target(sec, m, p, imm.value)) && FirstData(sec.segs).Some?
            && (Target(sec, r.mem, p, imm.value) + sec.segs[text].Slide() ==
                Translate(sec.segs, Target(sec, m, p, imm.value))
                <==> sec.segs[t].Slide() == sec.segs[FirstData(sec.segs).value].Slide())
  {
    hide LoadDisp, ScanTo, InData, Translate, CodeToDataDelta;
    ClearPatch(sec, m, p);
    PatchedWhenWanted(sec, m, p);
    var imm := sec.recognise(ScanTo(sec, m, p).mem, p).value;
    PatchedReachesExactly(sec.segs, text, sec.addr + p + 4 + imm, LoadDisp(m, p), t);
  }

  /** With one data slide every such displacement reaches the cache address of its old target. */
  lemma {:induction false} PatchedInstructionsReach(sec: Section, m: seq<Byte>, text: nat, p: nat)
    requires p + 4 <= |m| && text < |sec.segs| && sec.delta == CodeToDataDelta(sec.segs, text)
    requires SourceDisjoint(sec.segs)
    requires OneDataSlide(sec.segs)
    requires var r := ScanTo(sec, m, |m| - 3); r.ok && Clear(r.patches, p) && p in r.patches
    ensures var r := ScanTo(sec, m, |m| - 3);
            var imm := sec.recognise(ScanTo(sec, m, p).mem, p);
            imm.Some? && Target(sec, r.mem, p, imm.value) + sec.segs[text].Slide() ==
                Translate(sec.segs, Target(sec, m, p, imm.value))
  {
    hide LoadDisp, ScanTo, InData, Translate, CodeToDataDelta;
    ClearPatch(sec, m, p);
    PatchedWhenWanted(sec, m, p);
    var imm := sec.recognise(ScanTo(sec, m, p).mem, p).value;
    PatchedReachesTarget(sec.segs, text, sec.addr + p + 4 + imm, LoadDisp(m, p));
  }

  /** The scan as the builder runs it, in place on the cache buffer. */
  method PatchTextSection(buf: array<Byte>, off: nat, size: nat, sec: Section) returns (ok: bool, patches: seq<nat>)
    requires off + size <= buf.Length
    modifies buf
    ensures size >= 4 ==> var r := ScanTo(sec, old(buf[off..off + size]), size - 3);
                          ok == r.ok && patches == r.patches && buf[off..off + size] == r.mem
    ensures size < 4 ==> ok && patches == [] && buf[..] == old(buf[..])
    ensures buf[..off] == old(buf[..off]) && buf[off + size..] == old(buf[off + size..])
  {
    hide LoadDisp, StoreDisp, Store, Wanted;
    ok, patches := true, [];
    ghost var m := buf[off..off + size];
    if size < 4 {
      return;
    }
    ghost var whole := buf[..];
    var pos := 0;
    while pos + 4 <= size
      invariant 0 <= pos && pos + 3 <= size
      invariant ScanTo(sec, m, pos) == Scan(buf[off..off + size], patches, true)
      invariant buf[..off] == whole[..off] && buf[off + size..] == whole[off + size..]
    {
      ScanStep(sec, m, pos);
      var sect := buf[off..off + size];
      if Wanted(sec, sect, pos) {
        var newDisp := AddDisp32Checked(LoadDisp(sect, pos), sec.delta);
        if newDisp.None? {
          ScanAborted(sec, m, pos + 1, size - 3);
          return false, patches;
        }
        ghost var before := buf[..];
        WriteInside(before, off, size, pos, Unsigned32(newDisp.value));
        Write(buf, off + pos, 4, Unsigned32(newDisp.value));
        StoreIsWrite(sect, pos, newDisp.value);
        assert buf[off..off + size] == buf[..][off..off + size];
        patches := patches + [pos];
      }
      pos := pos + 1;
    }
  }

  lemma {:induction false} StoreIsWrite(m: seq<Byte>, pos: nat, d: int)
    requires InBounds(m, pos, 4) && IsInt32(d)
    ensures StoreDisp(m, pos, d) == Store(m, pos, 4, Unsigned32(d))
  {
  }

  /** Storing inside a section is storing into its bytes. */
  lemma {:induction false} WriteInside(m: seq<Byte>, off: nat, size: nat, pos: nat, v: nat)
    requires off + size <= |m| && pos + 4 <= size
    ensures var m' := Store(m, off + pos, 4, v);
            && m'[off..off + size] == Store(m[off..off + size], pos, 4, v)
            && m'[..off] == m[..off] && m'[off + size..] == m[off + size..]
  {
  }

  lemma {:induction false} ScanAborted(sec: Section, m: seq<Byte>, p: nat, n: nat)
    requires 0 < p <= n && n + 3 <= |m| && !ScanTo(sec, m, p).ok
    ensures ScanTo(sec, m, n) == ScanTo(sec, m, p)
    decreases n
  {
    if p < n {
      ScanAborted(sec, m, p, n - 1);
    }
  }
}
