/** The builder's two layout passes and its copy pass, and what they preserve: a translated
    source address, mapped through the cache, is the copy of the byte it pointed at. */
module Linker {
  import opened Memory
  import opened Layout
  import opened Wrappers

  // ----- placing -------------------------------------------------------------------

  function PlaceAll(segs: seq<Seg>, files: PerRegion): (r: seq<Seg>)
    ensures |r| == |segs|
  {
    seq(|segs|, n requires 0 <= n < |segs| => PlaceOne(segs, n, files))
  }

  lemma {:induction false} PlaceAllAppend(segs: seq<Seg>, seg: Seg, files: PerRegion)
    ensures PlaceAll(segs + [seg], files) == PlaceAll(segs, files) + [PlaceOne(segs + [seg], |segs|, files)]
  {
    var all := segs + [seg];
    forall n | 0 <= n < |segs| ensures PlaceOne(all, n, files) == PlaceOne(segs, n, files) {
      assert all[..n] == segs[..n];
    }
  }

  /** Placing does not move what later places are computed from. */
  lemma {:induction false} PlaceAllIsPlaced(segs: seq<Seg>, files: PerRegion)
    ensures Placed(PlaceAll(segs, files), files)
    ensures Used(PlaceAll(segs, files)) == Used(segs)
  {
    var all := PlaceAll(segs, files);
    UsedCongruent(segs, all);
    forall n | 0 <= n < |all| ensures all[n] == PlaceOne(all, n, files) {
      UsedCongruent(segs[..n], all[..n]);
    }
  }

  lemma {:induction false} FlatStep(ds: seq<Dylib>, i: nat)
    requires i < |ds|
    ensures Flat(ds[..i + 1]) == Flat(ds[..i]) + ds[i].segs
  {
    assert ds[..i + 1][..i] == ds[..i];
  }

  /** The same library, placed or not. */
  predicate SameSource(seg: Seg, seg': Seg)
  {
    seg' == seg.(cacheFileOff := seg'.cacheFileOff, cacheVmaddr := seg'.cacheVmaddr)
  }

  ghost predicate SameLibrary(d: Dylib, d': Dylib)
  {
    d.mapped == d'.mapped && |d.segs| == |d'.segs| && forall s :: 0 <= s < |d.segs| ==>
        SameSource(d.segs[s], d'.segs[s])
  }

  lemma {:induction false} PageAlignExact(x: nat)
    requires x % PAGE_SZ == 0
    ensures PageAlign(x) == x
  {
  }

  /** The inner loop of the second pass; `before` are the segments of earlier libraries. */
  method PlaceLibrary(segs: seq<Seg>, cur: PerRegion, files: PerRegion,
                      ghost before: seq<Seg>)
    returns (placed: seq<Seg>, next: PerRegion)
    requires cur == Used(before)
    ensures PlaceAll(before + segs, files) == PlaceAll(before, files) + placed
    ensures next == Used(before + segs)
    ensures |placed| == |segs| && forall s :: 0 <= s < |segs| ==> SameSource(segs[s], placed[s])
  {
    hide Used, PlaceAll, Room;
    placed, next := [], cur;
    assert before + segs[..0] == before;
    for s := 0 to |segs|
      invariant |placed| == s && next == Used(before + segs[..s])
      invariant PlaceAll(before + segs[..s], files) == PlaceAll(before, files) + placed
      invariant forall t :: 0 <= t < s ==> SameSource(segs[t], placed[t])
    {
      var seg := segs[s];
      ghost var done := before + segs[..s];
      assert before + segs[..s + 1] == done + [seg];
      assert (done + [seg])[..|done|] == done;
      UsedStep(done + [seg], |done|);
      assert (done + [seg])[..|done| + 1] == done + [seg];
      PlaceAllAppend(done, seg, files);
      var asz := Room(seg);
      placed := placed + [seg.(cacheFileOff := files.Of(seg.region) + next.Of(seg.region),
                               cacheVmaddr := VM_BASES.Of(seg.region) + next.Of(seg.region))];
      next := next.Add(seg.region, asz);
    }
    assert segs[..|segs|] == segs;
  }

  /** The first pass: room needed in each region. */
  method MeasureRegions(ds: seq<Dylib>) returns (sizes: PerRegion)
    ensures sizes == Used(Flat(ds))
  {
    hide Used, Room;
    sizes := PerRegion(0, 0, 0);
    UsedEmpty();
    for i := 0 to |ds|
      invariant sizes == Used(Flat(ds[..i]))
    {
      FlatStep(ds, i);
      ghost var before := Flat(ds[..i]);
      var segs := ds[i].segs;
      assert before + segs[..0] == before;
      for s := 0 to |segs|
        invariant sizes == Used(before + segs[..s])
      {
        assert before + segs[..s + 1] == (before + segs[..s]) + [segs[s]];
        UsedAppend(before + segs[..s], segs[s]);
        sizes := sizes.Add(segs[s].region, Room(segs[s]));
      }
      assert segs[..|segs|] == segs;
    }
    assert ds[..|ds|] == ds;
  }

  lemma {:induction false} UsedEmpty()
    ensures Used([]) == PerRegion(0, 0, 0) && Flat([]) == []
  {
  }

  lemma {:induction false} UsedAppend(segs: seq<Seg>, seg: Seg)
    ensures Used(segs + [seg]) == Used(segs).Add(seg.region, Room(seg))
  {
    assert (segs + [seg])[..|segs|] == segs;
  }

  class Builder {
    var dylibs: seq<Dylib>
    var plan: Plan
    var buf: array<Byte>

    /** Measure the regions, plan the file, place every segment and allocate a zeroed buffer. */
    method AssignAddresses(metaBytes: nat)
      modifies this
      ensures |dylibs| == |old(dylibs)| && forall i :: 0 <= i < |dylibs| ==> SameLibrary(old(dylibs)[i], dylibs[i])
      ensures LaidOut(Flat(dylibs), plan) && plan.meta == PageAlign(metaBytes)
      ensures fresh(buf) && buf.Length >= plan.End() && forall k :: 0 <= k < buf.Length ==> buf[k] == 0
      ensures var slideInfo := buf.Length - plan.End();
              slideInfo % PAGE_SZ == 0 && 0 <= slideInfo - (40 + plan.sizes.data / PAGE_SZ * 4 + PAGE_SZ) < PAGE_SZ
    {
      hide Used, Room, PlaceAll, Flat;
      ghost var was := dylibs;
      var sizes := MeasureRegions(dylibs);
      forall r ensures sizes.Of(r) % PAGE_SZ == 0 {
        UsedAligned(Flat(was), r);
      }
      PageAlignExact(sizes.Of(Text));
      PageAlignExact(sizes.Of(Data));
      PageAlignExact(sizes.Of(Linkedit));
      plan := Plan(PageAlign(metaBytes), PerRegion(PageAlign(sizes.text), PageAlign(sizes.data),
                                                   PageAlign(sizes.link)));
      var dataPages := (plan.sizes.data + PAGE_SZ - 1) / PAGE_SZ;
      assert dataPages == plan.sizes.data / PAGE_SZ;
      buf := new Byte[plan.End() + PageAlign(40 + dataPages * 4 + 4096)](_ => 0);
      ghost var room := buf.Length;
      var cur := PerRegion(0, 0, 0);
      EmptyPlaces(plan.Files());
      for i := 0 to |dylibs|
        invariant |dylibs| == |was| && dylibs[i..] == was[i..] && plan.sizes == sizes
        invariant plan.meta == PageAlign(metaBytes)
        invariant fresh(buf) && buf.Length == room && forall k :: 0 <= k < buf.Length ==> buf[k] == 0
        invariant forall j :: 0 <= j < i ==> SameLibrary(was[j], dylibs[j])
        invariant cur == Used(Flat(was[..i])) && Flat(dylibs[..i]) == PlaceAll(Flat(was[..i]), plan.Files())
      {
        FlatStep(was, i);
        ghost var before := dylibs;
        assert dylibs[i] == dylibs[i..][0] == was[i];
        var placed, next := PlaceLibrary(dylibs[i].segs, cur, plan.Files(), Flat(was[..i]));
        dylibs := dylibs[i := dylibs[i].(segs := placed)];
        cur := next;
        assert dylibs[..i] == before[..i] && dylibs[i + 1..] == before[i..][1..] && was[i..][1..] == was[i + 1..];
        FlatStep(dylibs, i);
      }
      assert was[..|was|] == was && dylibs[..|dylibs|] == dylibs;
      PlaceAllIsPlaced(Flat(was), plan.Files());
    }

    /** Copy every segment's file contents to its place; one that would not fit is skipped. */
    method CopySegments()
      requires forall i :: 0 <= i < |dylibs| ==> Readable(dylibs[i])
      modifies buf
      ensures buf[..] == SpliceAll(old(buf[..]), Flat(dylibs), Contents(dylibs))
    {
      hide Splice, SpliceAll, Flat, Contents, LibraryContents;
      ghost var m := buf[..];
      SpliceNone(m);
      for i := 0 to |dylibs|
        invariant buf[..] == SpliceAll(m, Flat(dylibs[..i]), Contents(dylibs[..i]))
      {
        FlatStep(dylibs, i);
        ContentsStep(dylibs, i);
        ghost var segs0, cont0 := Flat(dylibs[..i]), Contents(dylibs[..i]);
        var d := dylibs[i];
        assert segs0 + d.segs[..0] == segs0 && cont0 + LibraryContents(d)[..0] == cont0;
        for s := 0 to |d.segs|
          invariant buf[..] == SpliceAll(m, segs0 + d.segs[..s], cont0 + LibraryContents(d)[..s])
        {
          var seg := d.segs[s];
          ContentAt(d, s);
          assert segs0 + d.segs[..s + 1] == (segs0 + d.segs[..s]) + [seg];
          assert cont0 + LibraryContents(d)[..s + 1] == (cont0 + LibraryContents(d)[..s]) + [LibraryContents(d)[s]];
          SpliceAppend(m, segs0 + d.segs[..s], cont0 + LibraryContents(d)[..s], seg, LibraryContents(d)[s]);
          var bytes := d.mapped[seg.origFileoff..seg.origFileoff + seg.filesize];
          SpliceEmpty(buf[..], seg.cacheFileOff);
          if seg.filesize != 0 {
            CopyBytes(buf, seg.cacheFileOff, bytes);
          }
        }
        assert d.segs[..|d.segs|] == d.segs && LibraryContents(d)[..|d.segs|] == LibraryContents(d);
      }
      assert dylibs[..|dylibs|] == dylibs;
    }
  }

  lemma {:induction false} EmptyPlaces(files: PerRegion)
    ensures Used([]) == PerRegion(0, 0, 0) && Flat([]) == [] && PlaceAll([], files) == []
  {
  }

  // ----- copying -------------------------------------------------------------------

  /** The file contents of every segment are inside the mapped file. */
  predicate Readable(d: Dylib)
  {
    forall s :: 0 <= s < |d.segs| ==> d.segs[s].origFileoff + d.segs[s].filesize <= |d.mapped|
  }

  function LibraryContents(d: Dylib): (r: seq<seq<Byte>>)
    requires Readable(d)
    ensures |r| == |d.segs|
  {
    seq(|d.segs|, s requires 0 <= s < |d.segs| =>
      d.mapped[d.segs[s].origFileoff..d.segs[s].origFileoff + d.segs[s].filesize])
  }

  /** What `Flat(ds)` has to be copied from, segment by segment. */
  ghost function Contents(ds: seq<Dylib>): (r: seq<seq<Byte>>)
    requires forall i :: 0 <= i < |ds| ==> Readable(ds[i])
    ensures |r| == |Flat(ds)|
  {
    if ds == [] then []
    else
      var last := |ds| - 1;
      assert Readable(ds[last]);
      Contents(ds[..last]) + LibraryContents(ds[last])
  }

  lemma {:induction false} ContentsStep(ds: seq<Dylib>, i: nat)
    requires i < |ds| && forall j :: 0 <= j < |ds| ==> Readable(ds[j])
    ensures Contents(ds[..i + 1]) == Contents(ds[..i]) + LibraryContents(ds[i])
  {
    assert ds[..i + 1][..i] == ds[..i];
  }

  lemma {:induction false} ContentAt(d: Dylib, s: nat)
    requires Readable(d) && s < |d.segs|
    ensures LibraryContents(d)[s] == d.mapped[d.segs[s].origFileoff..d.segs[s].origFileoff + d.segs[s].filesize]
  {
  }

  function Splice(m: seq<Byte>, off: nat, bytes: seq<Byte>): (m': seq<Byte>)
    ensures |m'| == |m|
  {
    if off + |bytes| > |m| then m else m[..off] + bytes + m[off + |bytes|..]
  }

  function SpliceAll(m: seq<Byte>, segs: seq<Seg>, contents: seq<seq<Byte>>): (m': seq<Byte>)
    requires |segs| == |contents|
    ensures |m'| == |m|
  {
    if segs == [] then m
    else
      var n := |segs| - 1;
      Splice(SpliceAll(m, segs[..n], contents[..n]), segs[n].cacheFileOff, contents[n])
  }

  lemma {:induction false} SpliceNone(m: seq<Byte>)
    ensures SpliceAll(m, [], []) == m && Flat([]) == [] && Contents([]) == []
  {
  }

  lemma {:induction false} SpliceEmpty(m: seq<Byte>, off: nat)
    ensures Splice(m, off, []) == m
  {
  }

  lemma {:induction false} SpliceAppend(m: seq<Byte>, segs: seq<Seg>, contents: seq<seq<Byte>>, seg: Seg,
                                        bytes: seq<Byte>)
    requires |segs| == |contents|
    ensures SpliceAll(m, segs + [seg], contents + [bytes]) ==
        Splice(SpliceAll(m, segs, contents), seg.cacheFileOff, bytes)
  {
    assert (segs + [seg])[..|segs|] == segs && (contents + [bytes])[..|segs|] == contents;
  }

  method CopyBytes(buf: array<Byte>, off: nat, bytes: seq<Byte>)
    modifies buf
    ensures buf[..] == Splice(old(buf[..]), off, bytes)
  {
    if off + |bytes| > buf.Length {
      return;
    }
    for k := 0 to |bytes|
      invariant forall j :: 0 <= j < buf.Length ==> buf[j] == if off <= j < off + k then bytes[j - off] else old(buf[j])
    {
      buf[off + k] := bytes[k];
    }
  }

  /** Contents are copied to disjoint places. */
  ghost predicate DisjointContents(segs: seq<Seg>, contents: seq<seq<Byte>>)
    requires |segs| == |contents|
  {
    forall m, n :: 0 <= m < n < |segs| ==> Disjoint(segs[m].cacheFileOff, |contents[m]|, segs[n].cacheFileOff,
                                                    |contents[n]|)
  }

  lemma {:induction false} CopiedByte(m: seq<Byte>, segs: seq<Seg>, contents: seq<seq<Byte>>, n: nat, k: nat)
    requires |segs| == |contents| && DisjointContents(segs, contents)
    requires n < |segs| && k < |contents[n]| && segs[n].cacheFileOff + |contents[n]| <= |m|
    ensures SpliceAll(m, segs, contents)[segs[n].cacheFileOff + k] == contents[n][k]
  {
    var last := |segs| - 1;
    if n < last {
      CopiedByte(m, segs[..last], contents[..last], n, k);
      assert Disjoint(segs[n].cacheFileOff, |contents[n]|, segs[last].cacheFileOff, |contents[last]|);
    }
  }

  lemma {:induction false} UncopiedByte(m: seq<Byte>, segs: seq<Seg>, contents: seq<seq<Byte>>, at: nat)
    requires |segs| == |contents| && at < |m|
    requires forall n :: 0 <= n < |segs| ==> !(segs[n].cacheFileOff <= at < segs[n].cacheFileOff + |contents[n]|)
    ensures SpliceAll(m, segs, contents)[at] == m[at]
  {
    if segs != [] {
      UncopiedByte(m, segs[..|segs| - 1], contents[..|segs| - 1], at);
    }
  }

  // ----- referents -----------------------------------------------------------------

  /** Position of library `i`'s segment `s` among all segments. */
  function Position(ds: seq<Dylib>, i: nat, s: nat): nat
    requires i < |ds|
  {
    |Flat(ds[..i])| + s
  }

  lemma {:induction false} AtPosition(ds: seq<Dylib>, i: nat, s: nat)
    requires i < |ds| && s < |ds[i].segs| && forall j :: 0 <= j < |ds| ==> Readable(ds[j])
    ensures var n := Position(ds, i, s);
            n < |Flat(ds)| && Flat(ds)[n] == ds[i].segs[s] && Contents(ds)[n] == LibraryContents(ds[i])[s]
  {
    var last := |ds| - 1;
    hide LibraryContents;
    if i < last {
      assert ds[..last][..i] == ds[..i];
      AtPosition(ds[..last], i, s);
    } else {
      assert ds[..last] == ds[..i];
    }
  }

  /** Mach-O files never hold more bytes for a segment than its memory size. */
  ghost predicate FileWithinMemory(ds: seq<Dylib>)
  {
    forall n :: 0 <= n < |Flat(ds)| ==> Flat(ds)[n].filesize <= Flat(ds)[n].vmsize
  }

  lemma {:induction false} ContentSize(ds: seq<Dylib>, n: nat)
    requires (forall j :: 0 <= j < |ds| ==> Readable(ds[j])) && n < |Flat(ds)|
    ensures |Contents(ds)[n]| == Flat(ds)[n].filesize
  {
    var last := |ds| - 1;
    if n < |Flat(ds[..last])| {
      ContentSize(ds[..last], n);
    }
  }

  lemma {:induction false} ContentsApart(ds: seq<Dylib>, plan: Plan)
    requires (forall j :: 0 <= j < |ds| ==> Readable(ds[j])) && LaidOut(Flat(ds), plan) && FileWithinMemory(ds)
    ensures DisjointContents(Flat(ds), Contents(ds))
  {
    hide Flat, Contents, LaidOut;
    var segs := Flat(ds);
    forall m, n | 0 <= m < n < |segs|
      ensures Disjoint(segs[m].cacheFileOff, |Contents(ds)[m]|, segs[n].cacheFileOff, |Contents(ds)[n]|)
    {
      ContentSize(ds, m);
      ContentSize(ds, n);
      SegmentsDisjoint(segs, plan, m, n);
    }
  }

  /** A byte of a segment's memory that its file does not cover is in nobody's contents. */
  lemma {:induction false} ZeroFill(ds: seq<Dylib>, plan: Plan, n: nat, k: nat)
    requires (forall j :: 0 <= j < |ds| ==> Readable(ds[j])) && LaidOut(Flat(ds), plan) && FileWithinMemory(ds)
    requires n < |Flat(ds)| && Flat(ds)[n].filesize <= k < Room(Flat(ds)[n])
    ensures forall j :: 0 <= j < |Flat(ds)| ==>
              !(Flat(ds)[j].cacheFileOff <= Flat(ds)[n].cacheFileOff + k < Flat(ds)[j].cacheFileOff + |Contents(ds)[j]|)
  {
    hide Flat, Contents, LaidOut, Room;
    var segs := Flat(ds);
    forall j | 0 <= j < |segs|
      ensures !(segs[j].cacheFileOff <= segs[n].cacheFileOff + k < segs[j].cacheFileOff + |Contents(ds)[j]|)
    {
      ContentSize(ds, j);
      if j < n {
        SegmentsDisjoint(segs, plan, j, n);
      } else if n < j {
        SegmentsDisjoint(segs, plan, n, j);
      }
    }
  }

  /** Translating a source address and mapping the result through the cache lands on the copy of
      the byte it pointed at: the file's byte, or zero fill. */
  lemma {:induction false} ReferentsPreserved(ds: seq<Dylib>, plan: Plan, zero: seq<Byte>, i: nat, s: nat, addr: nat)
    requires (forall j :: 0 <= j < |ds| ==> Readable(ds[j])) && LaidOut(Flat(ds), plan) && Fits(plan)
    requires FileWithinMemory(ds)
    requires |zero| >= plan.End() && forall k :: 0 <= k < |zero| ==> zero[k] == 0
    requires i < |ds| && s < |ds[i].segs| && SourceDisjoint(ds[i].segs) && ds[i].segs[s].Holds(addr)
    ensures var off := MapToFile(plan, Translate(ds[i].segs, addr));
            var seg := ds[i].segs[s];
            var k := addr - seg.origVmaddr;
            && off == Some(seg.cacheFileOff + k) && off.value < |zero|
            && SpliceAll(zero, Flat(ds), Contents(ds))[off.value] ==
                 (if k < seg.filesize then LibraryContents(ds[i])[s][k] else 0)
  {
    hide Flat, Contents, LaidOut, Room, SpliceAll, LibraryContents, MapToFile, Fits;
    var segs, seg := Flat(ds), ds[i].segs[s];
    var n, k := Position(ds, i, s), addr - seg.origVmaddr;
    AtPosition(ds, i, s);
    FindUnique(ds[i].segs, s, addr);
    MapsToPlace(segs, plan, n, k);
    PlaceInFile(segs, plan, n);
    ContentSize(ds, n);
    if k < seg.filesize {
      ContentsApart(ds, plan);
      CopiedByte(zero, segs, Contents(ds), n, k);
    } else {
      ZeroFill(ds, plan, n, k);
      UncopiedByte(zero, segs, Contents(ds), seg.cacheFileOff + k);
    }
  }

  lemma {:induction false} PlaceInFile(segs: seq<Seg>, plan: Plan, n: nat)
    requires LaidOut(segs, plan) && n < |segs|
    ensures segs[n].cacheFileOff + Room(segs[n]) <= plan.End()
  {
    SegmentInRegion(segs, plan, n);
  }
}
