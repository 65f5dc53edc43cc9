/** Laying out the segments of all libraries in the three regions of the shared cache, copying
    them into the cache buffer, and translating source addresses. */
module Layout {
  import opened Memory
  import opened Wrappers

  const TEXT_REGION_BASE := 0x7FFF_2000_0000
  const DATA_REGION_BASE := 0x7FFF_8000_0000
  const LINK_REGION_BASE := 0x7FFF_C000_0000

  datatype Region = Text | Data | Linkedit

  datatype Seg = Seg(origVmaddr: nat, vmsize: nat, origFileoff: nat, filesize: nat, region: Region,
                     cacheFileOff: nat, cacheVmaddr: nat)
  {
    /** `cacheVmaddr - origVmaddr` */
    function Slide(): int { cacheVmaddr - origVmaddr }

    predicate Holds(addr: int) { origVmaddr <= addr < origVmaddr + vmsize }
  }

  datatype Dylib = Dylib(mapped: seq<Byte>, segs: seq<Seg>)

  /** One number per region. */
  datatype PerRegion = PerRegion(text: nat, data: nat, link: nat)
  {
    function Of(r: Region): nat { match r case Text => text case Data => data case Linkedit => link }

    function Add(r: Region, n: nat): PerRegion
    {
      match r
      case Text => this.(text := text + n)
      case Data => this.(data := data + n)
      case Linkedit => this.(link := link + n)
    }
  }

  const VM_BASES := PerRegion(TEXT_REGION_BASE, DATA_REGION_BASE, LINK_REGION_BASE)

  function PageAlign(x: nat): (r: nat)
    ensures x <= r < x + PAGE_SZ && r % PAGE_SZ == 0
  {
    (x + PAGE_SZ - 1) / PAGE_SZ * PAGE_SZ
  }

  /** Room a segment takes: whole pages, at least one. */
  function Room(seg: Seg): (r: nat)
    ensures seg.vmsize <= r && 0 < r && r % PAGE_SZ == 0
  {
    if PageAlign(seg.vmsize) == 0 then PAGE_SZ else PageAlign(seg.vmsize)
  }

  /** No more than that: the last page is needed, or there is only one. */
  lemma {:induction false} RoomTight(seg: Seg)
    ensures Room(seg) - PAGE_SZ < seg.vmsize || Room(seg) == PAGE_SZ
  {
    assert PageAlign(seg.vmsize) < seg.vmsize + PAGE_SZ;
  }

  /** The segments of all libraries, in order. */
  function Flat(ds: seq<Dylib>): seq<Seg>
  {
    if ds == [] then [] else Flat(ds[..|ds| - 1]) + ds[|ds| - 1].segs
  }

  /** Room taken in each region. */
  function Used(segs: seq<Seg>): PerRegion
  {
    if segs == [] then PerRegion(0, 0, 0)
    else Used(segs[..|segs| - 1]).Add(segs[|segs| - 1].region, Room(segs[|segs| - 1]))
  }

  /** Segment `n` gets the place after everything of its region that comes before it. */
  function PlaceOne(segs: seq<Seg>, n: nat, files: PerRegion): Seg
    requires n < |segs|
  {
    var seg := segs[n];
    seg.(cacheFileOff := files.Of(seg.region) + Used(segs[..n]).Of(seg.region),
         cacheVmaddr := VM_BASES.Of(seg.region) + Used(segs[..n]).Of(seg.region))
  }

  ghost predicate Placed(segs: seq<Seg>, files: PerRegion)
  {
    forall n :: 0 <= n < |segs| ==> segs[n] == PlaceOne(segs, n, files)
  }

  lemma {:induction false} UsedStep(segs: seq<Seg>, n: nat)
    requires n < |segs|
    ensures Used(segs[..n + 1]) == Used(segs[..n]).Add(segs[n].region, Room(segs[n]))
  {
    assert segs[..n + 1][..n] == segs[..n];
  }

  /** Only the sizes and regions matter for the room used. */
  lemma {:induction false} UsedCongruent(a: seq<Seg>, b: seq<Seg>)
    requires |a| == |b| && forall n :: 0 <= n < |a| ==> a[n].vmsize == b[n].vmsize && a[n].region == b[n].region
    ensures Used(a) == Used(b)
  {
    if a != [] {
      UsedCongruent(a[..|a| - 1], b[..|b| - 1]);
    }
  }

  lemma {:induction false} UsedMonotone(segs: seq<Seg>, m: nat, n: nat, r: Region)
    requires m <= n <= |segs|
    ensures Used(segs[..m]).Of(r) <= Used(segs[..n]).Of(r)
    decreases n - m
  {
    hide Used, Room;
    if m < n {
      UsedStep(segs, n - 1);
      UsedMonotone(segs, m, n - 1, r);
    }
  }

  lemma {:induction false} UsedAligned(segs: seq<Seg>, r: Region)
    ensures Used(segs).Of(r) % PAGE_SZ == 0
  {
    if segs != [] {
      UsedAligned(segs[..|segs| - 1], r);
    }
  }

  /** A segment's place ends before the place of any later segment of its region, and inside it. */
  lemma {:induction false} PlacesApart(segs: seq<Seg>, m: nat, n: nat)
    requires m < n <= |segs|
    ensures Used(segs[..m]).Of(segs[m].region) + Room(segs[m]) <= Used(segs[..n]).Of(segs[m].region)
  {
    UsedStep(segs, m);
    UsedMonotone(segs, m + 1, n, segs[m].region);
  }

  // ----- the cache file ------------------------------------------------------------

  /** Where the regions start in the file, and how long they are. */
  datatype Plan = Plan(meta: nat, sizes: PerRegion)
  {
    function Files(): PerRegion
    {
      PerRegion(meta, meta + sizes.text, meta + sizes.text + sizes.data)
    }

    function End(): nat { meta + sizes.text + sizes.data + sizes.link }
  }

  /** The plan made by the first pass, and the segments placed by the second. */
  ghost predicate LaidOut(segs: seq<Seg>, plan: Plan)
  {
    plan.meta % PAGE_SZ == 0 && plan.sizes == Used(segs) && Placed(segs, plan.Files())
  }

  /** Each region fits its address gap. */
  predicate Fits(plan: Plan)
  {
    plan.sizes.text <= DATA_REGION_BASE - TEXT_REGION_BASE && plan.sizes.data <= LINK_REGION_BASE - DATA_REGION_BASE
  }

  /** A segment's place inside its region. */
  lemma {:induction false} SegmentInRegion(segs: seq<Seg>, plan: Plan, n: nat)
    requires LaidOut(segs, plan) && n < |segs|
    ensures var seg := segs[n]; var r := seg.region;
            && plan.Files().Of(r) <= seg.cacheFileOff &&
                seg.cacheFileOff + Room(seg) <= plan.Files().Of(r) + plan.sizes.Of(r)
            && seg.cacheVmaddr - VM_BASES.Of(r) == seg.cacheFileOff - plan.Files().Of(r)
  {
    hide Used, Room;
    assert segs[n] == PlaceOne(segs, n, plan.Files());
    PlacesApart(segs, n, |segs|);
    assert segs[..|segs|] == segs;
  }

  /** Every place starts on a page boundary, in the file and in memory. */
  lemma {:induction false} SegmentAligned(segs: seq<Seg>, plan: Plan, n: nat)
    requires LaidOut(segs, plan) && n < |segs|
    ensures segs[n].cacheFileOff % PAGE_SZ == 0 && segs[n].cacheVmaddr % PAGE_SZ == 0
  {
    hide Used, Room, Placed;
    assert segs[n] == PlaceOne(segs, n, plan.Files()) by {
      PlacedAt(segs, plan.Files(), n);
    }
    UsedAligned(segs[..n], segs[n].region);
    UsedAligned(segs, Text);
    UsedAligned(segs, Data);
  }

  lemma {:induction false} PlacedAt(segs: seq<Seg>, files: PerRegion, n: nat)
    requires Placed(segs, files) && n < |segs|
    ensures segs[n] == PlaceOne(segs, n, files)
  {
  }

  /** No two segments share a byte of the file, nor an address if the regions fit. */
  lemma {:induction false} SegmentsDisjoint(segs: seq<Seg>, plan: Plan, m: nat, n: nat)
    requires LaidOut(segs, plan) && m < n < |segs|
    ensures Disjoint(segs[m].cacheFileOff, Room(segs[m]), segs[n].cacheFileOff, Room(segs[n]))
    ensures Fits(plan) ==> Disjoint(segs[m].cacheVmaddr, Room(segs[m]), segs[n].cacheVmaddr, Room(segs[n]))
  {
    hide Room, Used, PlaceOne;
    SegmentInRegion(segs, plan, m);
    SegmentInRegion(segs, plan, n);
    if segs[m].region == segs[n].region {
      SameRegionApart(segs, plan, m, n);
    }
  }

  lemma {:induction false} SameRegionApart(segs: seq<Seg>, plan: Plan, m: nat, n: nat)
    requires LaidOut(segs, plan) && m < n < |segs| && segs[m].region == segs[n].region
    ensures segs[m].cacheFileOff + Room(segs[m]) <= segs[n].cacheFileOff
  {
    hide Room, Used;
    assert segs[m] == PlaceOne(segs, m, plan.Files());
    assert segs[n] == PlaceOne(segs, n, plan.Files());
    PlacesApart(segs, m, n);
  }

  // ----- addresses -----------------------------------------------------------------

  /** The first segment that holds an address. */
  function Find(segs: seq<Seg>, addr: int): (r: Option<nat>)
    ensures r.Some? ==> r.value < |segs| && segs[r.value].Holds(addr)
    ensures r.None? ==> forall n :: 0 <= n < |segs| ==> !segs[n].Holds(addr)
  {
    if segs == [] then None
    else if segs[0].Holds(addr) then Some(0)
    else match Find(segs[1..], addr) case None => None case Some(n) => Some(n + 1)
  }

  lemma {:induction false} FindFirst(segs: seq<Seg>, addr: int)
    requires Find(segs, addr).Some?
    ensures forall n :: 0 <= n < Find(segs, addr).value ==> !segs[n].Holds(addr)
  {
    if !segs[0].Holds(addr) {
      FindFirst(segs[1..], addr);
      forall n | 0 <= n < Find(segs, addr).value ensures !segs[n].Holds(addr) {
        assert n > 0 ==> segs[n] == segs[1..][n - 1];
      }
    }
  }

  /** A source address in the cache: slid with the segment that holds it, else left alone. */
  function Translate(segs: seq<Seg>, addr: int): int
  {
    match Find(segs, addr) case None => addr case Some(n) => addr + segs[n].Slide()
  }

  /** The file offset that the cache's mappings give an address. */
  function MapToFile(plan: Plan, addr: int): Option<int>
  {
    if 0 <= addr - TEXT_REGION_BASE < plan.sizes.text then Some(addr - TEXT_REGION_BASE + plan.Files().text)
    else if 0 <= addr - DATA_REGION_BASE < plan.sizes.data then Some(addr - DATA_REGION_BASE + plan.Files().data)
    else if 0 <= addr - LINK_REGION_BASE < plan.sizes.link then Some(addr - LINK_REGION_BASE + plan.Files().link)
    else None
  }

  /** An address inside a segment's room maps to the same offset from its place in the file. */
  lemma {:induction false} MapsToPlace(segs: seq<Seg>, plan: Plan, n: nat, k: nat)
    requires LaidOut(segs, plan) && Fits(plan) && n < |segs| && k < Room(segs[n])
    ensures MapToFile(plan, segs[n].cacheVmaddr + k) == Some(segs[n].cacheFileOff + k)
  {
    hide Room, Used, PlaceOne, Placed;
    SegmentInRegion(segs, plan, n);
  }

  /** Segment ranges of one library do not overlap. */
  ghost predicate SourceDisjoint(segs: seq<Seg>)
  {
    forall m, n :: 0 <= m < n < |segs| ==> Disjoint(segs[m].origVmaddr, segs[m].vmsize, segs[n].origVmaddr,
                                                    segs[n].vmsize)
  }

  lemma {:induction false} FindUnique(segs: seq<Seg>, n: nat, addr: int)
    requires SourceDisjoint(segs) && n < |segs| && segs[n].Holds(addr)
    ensures Find(segs, addr) == Some(n)
  {
    var m := Find(segs, addr).value;
    assert m == n || Disjoint(segs[m].origVmaddr, segs[m].vmsize, segs[n].origVmaddr, segs[n].vmsize)
                  || Disjoint(segs[n].origVmaddr, segs[n].vmsize, segs[m].origVmaddr, segs[m].vmsize);
  }
}
