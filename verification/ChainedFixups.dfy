/** Chained fixups: the slots of a segment page form a linked list whose links live in the very
    words that the walk overwrites. */
module ChainedFixups {
  import opened Bits
  import opened Memory
  import opened Layout
  import opened Wrappers

  const NO_START := 0xFFFF
  const PTR_64_OFFSET := 6

  // ----- fields of a raw slot ------------------------------------------------------

  predicate IsBind(raw: nat) { And(Shr(raw, 63), 1) != 0 }

  /** Distance to the next slot in units of four bytes; 0 ends the chain. */
  function Next(raw: nat): nat { And(Shr(raw, 51), 0xFFF) }

  function TargetField(raw: nat): nat { And(raw, 0xF_FFFF_FFFF) }

  function High8(raw: nat): nat { And(Shr(raw, 36), 0xFF) }

  function OrdinalField(raw: nat): nat { And(raw, 0xFF_FFFF) }

  /** The signed addend byte of a bind. */
  function Addend(raw: nat): int
  {
    var b := And(Shr(raw, 24), 0xFF);
    if b >= 128 then b - 256 else b
  }

  /** What a walk needs to know: the library's segments with its text segment, the pointer format,
      and the addresses its imports resolve to, 0 where they do not. */
  datatype Context = Context(segs: seq<Seg>, text: nat, format: nat, imports: seq<nat>)
  {
    predicate Valid() { text < |segs| }
  }

  /** The source address a rebase slot refers to. */
  function SourceTarget(cx: Context, raw: nat): nat
    requires cx.Valid()
  {
    if cx.format == PTR_64_OFFSET then cx.segs[cx.text].origVmaddr + TargetField(raw) else TargetField(raw)
  }

  /** Its cache address: slid with the segment that holds it; else an offset from text, or as it is. */
  function NewAddress(cx: Context, raw: nat): int
    requires cx.Valid()
  {
    var target := SourceTarget(cx, raw);
    if Find(cx.segs, target).Some? then Translate(cx.segs, target)
    else if cx.format == PTR_64_OFFSET then cx.segs[cx.text].cacheVmaddr + TargetField(raw)
    else target
  }

  function Bound(cx: Context, raw: nat): nat
  {
    var ordinal := OrdinalField(raw);
    if ordinal < |cx.imports| && cx.imports[ordinal] != 0 then (cx.imports[ordinal] + Addend(raw)) % WORD else 0
  }

  /** The word that replaces a raw slot. */
  function Fixup(cx: Context, raw: nat): nat
    requires cx.Valid()
  {
    if IsBind(raw) then Bound(cx, raw) else Or(NewAddress(cx, raw) % WORD, Shl(High8(raw), 56)) % WORD
  }

  lemma {:induction false} High8IsByte(raw: nat)
    ensures High8(raw) < 256
  {
    AndBound(Shr(raw, 36), 0xFF);
  }

  /** A rebase slot whose target lies in a segment becomes the cache address of that target with
      its high byte put back. */
  lemma {:induction false} RebaseReachesTarget(cx: Context, raw: nat, s: nat)
    requires cx.Valid() && !IsBind(raw) && SourceDisjoint(cx.segs)
    requires s < |cx.segs| && cx.segs[s].Holds(SourceTarget(cx, raw))
    requires cx.segs[s].cacheVmaddr + cx.segs[s].vmsize <= Pow2(56)
    ensures Fixup(cx, raw) == Translate(cx.segs, SourceTarget(cx, raw)) + Shl(High8(raw), 56)
    ensures Fixup(cx, raw) % Pow2(56) == Translate(cx.segs, SourceTarget(cx, raw))
    ensures Shr(Fixup(cx, raw), 56) == High8(raw)
  {
    hide And, Or, Pow2, Shl, Shr, SourceTarget, High8;
    var target := SourceTarget(cx, raw);
    FindUnique(cx.segs, s, target);
    var addr := Translate(cx.segs, target);
    assert 0 <= addr < Pow2(56);
    High8IsByte(raw);
    HighByte(addr, High8(raw));
  }

  lemma {:induction false} HighByte(addr: nat, high: nat)
    requires addr < Pow2(56) && high < 256
    ensures var w := Or(addr % WORD, Shl(high, 56)) % WORD;
            w == addr + Shl(high, 56) && w % Pow2(56) == addr && Shr(w, 56) == high
  {
    hide And, Or, Pow2;
    Pow2Values();
    Pow2Add(56, 8);
    var p := Pow2(56);
    assert p * 256 == WORD;
    MulMonotone(p, high, 255);
    var w := addr + high * p;
    assert w < WORD && addr < WORD;
    DivModUnique(addr, WORD, 0, addr);
    DivModUnique(w, WORD, 0, w);
    DivModUnique(w, p, high, addr);
    LowHighDisjoint(addr, high, 56);
    OrDisjoint(addr, Shl(high, 56));
  }

  lemma {:induction false} FixupIsWord(cx: Context, raw: nat)
    requires cx.Valid()
    ensures 0 <= Fixup(cx, raw) < WORD
  {
    hide And, Or, Pow2, Shl, Shr;
  }

  // ----- chains --------------------------------------------------------------------

  datatype Chain = Broken | Whole(slots: seq<nat>)

  /** The slots of the chain from `loc`, read off one memory; broken if it leaves it. */
  function ChainFrom(m: seq<Byte>, loc: nat): Chain
    decreases |m| - loc
  {
    if loc + 8 > |m| then Broken
    else
      var next := Next(Load(m, loc, 8));
      if next == 0 then Whole([loc])
      else
        match ChainFrom(m, loc + next * 4)
        case Broken => Broken
        case Whole(slots) => Whole([loc] + slots)
  }

  /** The slots of all pages from `page` on, each chain starting at its page start. */
  function PageChains(m: seq<Byte>, starts: seq<nat>, base: nat, pageSize: nat, page: nat): Chain
    requires page <= |starts|
    decreases |starts| - page
  {
    if page == |starts| then Whole([])
    else if starts[page] == NO_START then PageChains(m, starts, base, pageSize, page + 1)
    else
      match ChainFrom(m, base + page * pageSize + starts[page])
      case Broken => Broken
      case Whole(slots) =>
        match PageChains(m, starts, base, pageSize, page + 1)
        case Broken => Broken
        case Whole(more) => Whole(slots + more)
  }

  // ----- the slots of a library ----------------------------------------------------

  /** Where the chains of a segment start: whether the segment has any, its offset from the text
      segment, its pages and its pointer format. */
  datatype Starts = Starts(present: bool, segOff: nat, pageSize: nat, format: nat, pages: seq<nat>)

  /** A slot and what its word is read with. */
  datatype Site = Site(slot: nat, cx: Context)

  function Sites(slots: seq<nat>, cx: Context): (r: seq<Site>)
    ensures |r| == |slots| && forall i :: 0 <= i < |r| ==> r[i] == Site(slots[i], cx)
  {
    seq(|slots|, i requires 0 <= i < |slots| => Site(slots[i], cx))
  }

  /** The first segment at a source address. */
  function SegmentAt(segs: seq<Seg>, addr: nat): (r: Option<nat>)
    ensures r.Some? ==> r.value < |segs| && segs[r.value].origVmaddr == addr
    ensures r.Some? ==> forall n :: 0 <= n < r.value ==> segs[n].origVmaddr != addr
    ensures r.None? ==> forall n :: 0 <= n < |segs| ==> segs[n].origVmaddr != addr
    decreases |segs|
  {
    if segs == [] then None
    else
      var n := |segs| - 1;
      var front := SegmentAt(segs[..n], addr);
      assert forall k :: 0 <= k < n ==> segs[..n][k] == segs[k];
      if front.Some? then front else if segs[n].origVmaddr == addr then Some(n) else None
  }

  /** The chains of one segment; none if it has no starts or no segment is there. */
  function SegmentChains(m: seq<Byte>, cx: Context, st: Starts): Chain
    requires cx.Valid()
  {
    if !st.present then Whole([])
    else
      match SegmentAt(cx.segs, cx.segs[cx.text].origVmaddr + st.segOff)
      case None => Whole([])
      case Some(s) => PageChains(m, st.pages, cx.segs[s].cacheFileOff, st.pageSize, 0)
  }

  datatype Sited = Lost | Found(sites: seq<Site>)

  /** The sites of all segments from number `k` on. */
  function LibrarySites(m: seq<Byte>, cx: Context, starts: seq<Starts>, k: nat): Sited
    requires cx.Valid() && k <= |starts|
    decreases |starts| - k
  {
    if k == |starts| then Found([])
    else
      match SegmentChains(m, cx, starts[k])
      case Broken => Lost
      case Whole(slots) =>
        match LibrarySites(m, cx, starts, k + 1)
        case Lost => Lost
        case Found(more) => Found(Sites(slots, cx.(format := starts[k].format)) + more)
  }

  // ----- walking -------------------------------------------------------------------

  ghost predicate DisjointSites(len: nat, s: seq<Site>)
  {
    && (forall i :: 0 <= i < |s| ==> s[i].slot + 8 <= len && s[i].cx.Valid())
    && forall i, j :: 0 <= i < j < |s| ==> Disjoint(s[i].slot, 8, s[j].slot, 8)
  }

  ghost predicate FixedAt(m: seq<Byte>, m': seq<Byte>, site: Site)
    requires site.cx.Valid() && site.slot + 8 <= |m| == |m'|
  {
    Load(m', site.slot, 8) == Fixup(site.cx, Load(m, site.slot, 8))
  }

  ghost predicate RawAt(m: seq<Byte>, m': seq<Byte>, slot: nat)
    requires slot + 8 <= |m| == |m'|
  {
    Load(m', slot, 8) == Load(m, slot, 8)
  }

  ghost function SlotSet(s: seq<Site>): set<nat> { set i | 0 <= i < |s| :: s[i].slot }

  /** The first `n` sites are fixed up from their original words, the others still raw, and every
      other byte is untouched. */
  ghost predicate FixedUpTo(m: seq<Byte>, m': seq<Byte>, s: seq<Site>, n: nat)
    requires DisjointSites(|m|, s)
  {
    && |m'| == |m| && n <= |s|
    && (forall i :: 0 <= i < n ==> FixedAt(m, m', s[i]))
    && (forall i :: n <= i < |s| ==> RawAt(m, m', s[i].slot))
    && (forall k :: 0 <= k < |m| && !InSlots(SlotSet(s), k) ==> m'[k] == m[k])
  }

  lemma {:induction false} FixNext(m: seq<Byte>, m': seq<Byte>, s: seq<Site>, n: nat)
    requires DisjointSites(|m|, s) && FixedUpTo(m, m', s, n) && n < |s|
    ensures FixedUpTo(m, Store(m', s[n].slot, 8, Fixup(s[n].cx, Load(m', s[n].slot, 8))), s, n + 1)
  {
    hide Load, Store, Fixup, Pow2;
    var at := s[n].slot;
    var v := Fixup(s[n].cx, Load(m', at, 8));
    var m2 := Store(m', at, 8, v);
    assert RawAt(m, m', at);
    FixupIsWord(s[n].cx, Load(m', at, 8));
    Pow2Values();
    LoadAfterStore(m', at, 8, v);
    forall i | 0 <= i < |s| && i != n ensures Load(m2, s[i].slot, 8) == Load(m', s[i].slot, 8) {
      assert i < n ==> Disjoint(s[i].slot, 8, at, 8);
      assert n < i ==> Disjoint(at, 8, s[i].slot, 8);
      LoadAfterDisjointStore(m', s[i].slot, 8, at, 8, v);
    }
    forall i | 0 <= i < n + 1 ensures FixedAt(m, m2, s[i]) {
      assert i < n ==> FixedAt(m, m', s[i]);
    }
    forall i | n + 1 <= i < |s| ensures RawAt(m, m2, s[i].slot) {
      assert RawAt(m, m', s[i].slot);
    }
    forall k | 0 <= k < |m| && !InSlots(SlotSet(s), k) ensures m2[k] == m[k] {
      assert at in SlotSet(s);
    }
  }

  lemma {:induction false} StillRaw(m: seq<Byte>, m': seq<Byte>, s: seq<Site>, n: nat)
    requires DisjointSites(|m|, s) && FixedUpTo(m, m', s, n) && n < |s|
    ensures |m'| == |m| && s[n].slot + 8 <= |m| && Load(m', s[n].slot, 8) == Load(m, s[n].slot, 8)
  {
    hide Load;
    assert RawAt(m, m', s[n].slot);
  }

  /** Slots inside the data region of the cache file, in order. */
  function DataSlots(s: seq<Site>, dataOff: nat, dataSize: nat): seq<nat>
  {
    if s == [] then []
    else
      var n := |s| - 1;
      DataSlots(s[..n], dataOff, dataSize) + if dataOff <= s[n].slot < dataOff + dataSize then [s[n].slot] else []
  }

  lemma {:induction false} DataSlotsStep(s: seq<Site>, n: nat, dataOff: nat, dataSize: nat)
    requires n < |s|
    ensures DataSlots(s[..n + 1], dataOff, dataSize) ==
            DataSlots(s[..n], dataOff, dataSize) + if dataOff <= s[n].slot < dataOff + dataSize then [s[n].slot] else []
  {
    assert s[..n + 1][..n] == s[..n];
  }

  /** Each is a slot of the data region, and every one of them is there once. */
  lemma {:induction false} DataSlotsMean(s: seq<Site>, dataOff: nat, dataSize: nat, slot: nat)
    ensures slot in DataSlots(s, dataOff, dataSize) <==> dataOff <= slot < dataOff + dataSize && slot in SlotSet(s)
  {
    if s != [] {
      var n := |s| - 1;
      DataSlotsMean(s[..n], dataOff, dataSize, slot);
      assert SlotSet(s) == SlotSet(s[..n]) + {s[n].slot};
    }
  }

  /** Walk one chain. The chain meant is that of the memory `m` the whole pass started from, whose
      sites are `all[n..]` from here on; `recorded` are the slots noted for slide info so far. */
  method WalkChain(buf: array<Byte>, start: nat, cx: Context, dataOff: nat, dataSize: nat, recorded: seq<nat>,
                   ghost m: seq<Byte>, ghost all: seq<Site>, ghost n: nat)
    returns (recorded': seq<nat>, ghost n': nat)
    requires cx.Valid() && |m| == buf.Length && DisjointSites(|m|, all)
    requires n <= |all| && FixedUpTo(m, buf[..], all, n)
    requires ChainFrom(m, start).Whole? && Sites(ChainFrom(m, start).slots, cx) <= all[n..]
    requires recorded == DataSlots(all[..n], dataOff, dataSize)
    modifies buf
    ensures n' == n + |ChainFrom(m, start).slots| && FixedUpTo(m, buf[..], all, n')
    ensures recorded' == DataSlots(all[..n'], dataOff, dataSize)
  {
    hide Load, Store, Fixup, Next, DataSlots, FixedUpTo, DisjointSites;
    var loc := start;
    n', recorded' := n, recorded;
    ghost var end := n + |ChainFrom(m, start).slots|;
    while true
      invariant n <= n' < end <= |all| && FixedUpTo(m, buf[..], all, n')
      invariant ChainFrom(m, loc).Whole? && Sites(ChainFrom(m, loc).slots, cx) == all[n'..end]
      invariant recorded' == DataSlots(all[..n'], dataOff, dataSize)
      decreases buf.Length - loc
    {
      assert Site(loc, cx) == Sites(ChainFrom(m, loc).slots, cx)[0] == all[n'];
      var raw := Read(buf, loc, 8);
      StillRaw(m, buf[..], all, n');
      var next := Next(raw);
      FixNext(m, buf[..], all, n');
      Write(buf, loc, 8, Fixup(cx, raw));
      DataSlotsStep(all, n', dataOff, dataSize);
      if dataOff <= loc < dataOff + dataSize {
        recorded' := recorded' + [loc];
      }
      n' := n' + 1;
      if next == 0 {
        return;
      }
      assert ChainFrom(m, loc).slots[1..] == ChainFrom(m, loc + next * 4).slots;
      assert all[n' - 1..end][1..] == all[n'..end];
      loc := loc + next * 4;
    }
  }

  /** All pages of a segment. */
  method WalkPages(buf: array<Byte>, starts: seq<nat>, base: nat, pageSize: nat, cx: Context, dataOff: nat,
                   dataSize: nat,
                   recorded: seq<nat>, ghost m: seq<Byte>, ghost all: seq<Site>, ghost n: nat)
    returns (recorded': seq<nat>, ghost n': nat)
    requires cx.Valid() && |m| == buf.Length && DisjointSites(|m|, all)
    requires n <= |all| && FixedUpTo(m, buf[..], all, n)
    requires var c := PageChains(m, starts, base, pageSize, 0); c.Whole? && Sites(c.slots, cx) <= all[n..]
    requires recorded == DataSlots(all[..n], dataOff, dataSize)
    modifies buf
    ensures n' == n + |PageChains(m, starts, base, pageSize, 0).slots| && FixedUpTo(m, buf[..], all, n')
    ensures recorded' == DataSlots(all[..n'], dataOff, dataSize)
  {
    hide Load, Fixup, ChainFrom, DataSlots, FixedUpTo, DisjointSites;
    n', recorded' := n, recorded;
    ghost var end := n + |PageChains(m, starts, base, pageSize, 0).slots|;
    for page := 0 to |starts|
      invariant n <= n' <= end <= |all| && FixedUpTo(m, buf[..], all, n')
      invariant PageChains(m, starts, base, pageSize, page).Whole?
      invariant Sites(PageChains(m, starts, base, pageSize, page).slots, cx) == all[n'..end]
      invariant recorded' == DataSlots(all[..n'], dataOff, dataSize)
    {
      if starts[page] != NO_START {
        ghost var from := n';
        var start := base + page * pageSize + starts[page];
        SitesSplit(ChainFrom(m, start).slots, PageChains(m, starts, base, pageSize, page + 1).slots, cx, all, from,
                   end);
        recorded', n' := WalkChain(buf, start, cx, dataOff, dataSize, recorded', m, all, n');
      }
    }
  }

  lemma {:induction false} SitesSplit(a: seq<nat>, b: seq<nat>, cx: Context, all: seq<Site>, n: nat, end: nat)
    requires n <= end <= |all| && Sites(a + b, cx) == all[n..end]
    ensures n + |a| <= end && Sites(a, cx) <= all[n..] && Sites(b, cx) == all[n + |a|..end]
  {
    assert |a + b| == end - n;
    forall i | 0 <= i < |a| ensures all[n..][i] == Sites(a, cx)[i] {
      assert all[n..end][i] == Site((a + b)[i], cx);
    }
    forall i | 0 <= i < |b| ensures all[n + |a|..end][i] == Sites(b, cx)[i] {
      assert all[n..end][|a| + i] == Site((a + b)[|a| + i], cx);
    }
  }

  /** All segments of a library. Although every link is overwritten as it is followed, the walk visits
      exactly the slots of the original chains, replaces each by the fixup of its original word
      and leaves every other byte alone. */
  method WalkSegments(buf: array<Byte>, cx: Context, starts: seq<Starts>, dataOff: nat, dataSize: nat)
    returns (recorded: seq<nat>)
    requires cx.Valid() && LibrarySites(buf[..], cx, starts, 0).Found?
    requires DisjointSites(buf.Length, LibrarySites(buf[..], cx, starts, 0).sites)
    modifies buf
    ensures var s := old(LibrarySites(buf[..], cx, starts, 0).sites);
            FixedUpTo(old(buf[..]), buf[..], s, |s|) && recorded == DataSlots(s, dataOff, dataSize)
  {
    hide Load, Fixup, PageChains, DataSlots, DisjointSites;
    ghost var m := buf[..];
    ghost var all := LibrarySites(m, cx, starts, 0).sites;
    ghost var n := 0;
    recorded := [];
    NothingWalked(m, all, dataOff, dataSize);
    hide FixedUpTo;
    for k := 0 to |starts|
      invariant n <= |all| && FixedUpTo(m, buf[..], all, n)
      invariant LibrarySites(m, cx, starts, k) == Found(all[n..])
      invariant recorded == DataSlots(all[..n], dataOff, dataSize)
    {
      var st := starts[k];
      if st.present {
        var at := SegmentAt(cx.segs, cx.segs[cx.text].origVmaddr + st.segOff);
        if at.Some? {
          ghost var from, c := n, PageChains(m, st.pages, cx.segs[at.value].cacheFileOff, st.pageSize, 0);
          ghost var more := LibrarySites(m, cx, starts, k + 1).sites;
          assert Sites(c.slots, cx.(format := st.format)) + more == all[n..];
          recorded, n := WalkPages(buf, st.pages, cx.segs[at.value].cacheFileOff, st.pageSize, cx.(format := st.format),
                                   dataOff, dataSize, recorded, m, all, n);
          assert all[from..][n - from..] == all[n..];
        }
      }
    }
    assert all[..n] == all;
  }

  lemma {:induction false} NothingWalked(m: seq<Byte>, s: seq<Site>, dataOff: nat, dataSize: nat)
    requires DisjointSites(|m|, s)
    ensures FixedUpTo(m, m, s, 0) && s[..0] == [] && DataSlots([], dataOff, dataSize) == [] && s[0..] == s
  {
    hide Load, Fixup;
  }

  // ----- the same chains in another memory -----------------------------------------

  /** A chain depends only on the words of its own slots. */
  lemma {:induction false} ChainSame(m: seq<Byte>, m': seq<Byte>, loc: nat)
    requires |m'| == |m| && ChainFrom(m, loc).Whole?
    requires forall i :: 0 <= i < |ChainFrom(m, loc).slots| ==> SameWord(m, m', ChainFrom(m, loc).slots[i])
    ensures ChainFrom(m', loc) == ChainFrom(m, loc)
    decreases |m| - loc
  {
    hide Load, Next;
    var c := ChainFrom(m, loc);
    assert c.slots[0] == loc && SameWord(m, m', c.slots[0]);
    var next := Next(Load(m, loc, 8));
    if next != 0 {
      var rest := ChainFrom(m, loc + next * 4).slots;
      assert c.slots == [loc] + rest;
      forall i | 0 <= i < |rest| ensures SameWord(m, m', rest[i]) {
        assert c.slots[i + 1] == rest[i];
      }
      ChainSame(m, m', loc + next * 4);
    }
  }

  ghost predicate SameWord(m: seq<Byte>, m': seq<Byte>, slot: nat)
  {
    slot + 8 <= |m| == |m'| && Load(m', slot, 8) == Load(m, slot, 8)
  }

  ghost predicate SameWords(m: seq<Byte>, m': seq<Byte>, slots: seq<nat>)
  {
    forall i :: 0 <= i < |slots| ==> SameWord(m, m', slots[i])
  }

  lemma {:induction false} PagesSame(m: seq<Byte>, m': seq<Byte>, starts: seq<nat>, base: nat, pageSize: nat, page: nat)
    requires page <= |starts| && |m'| == |m| && PageChains(m, starts, base, pageSize, page).Whole?
    requires SameWords(m, m', PageChains(m, starts, base, pageSize, page).slots)
    ensures PageChains(m', starts, base, pageSize, page) == PageChains(m, starts, base, pageSize, page)
    decreases |starts| - page
  {
    hide Load, SameWord, ChainFrom;
    if page < |starts| {
      if starts[page] == NO_START {
        PagesSame(m, m', starts, base, pageSize, page + 1);
      } else {
        var c := ChainFrom(m, base + page * pageSize + starts[page]);
        var rest := PageChains(m, starts, base, pageSize, page + 1);
        SameParts(m, m', c.slots, rest.slots);
        ChainSame(m, m', base + page * pageSize + starts[page]);
        PagesSame(m, m', starts, base, pageSize, page + 1);
      }
    }
  }

  lemma {:induction false} SameParts(m: seq<Byte>, m': seq<Byte>, a: seq<nat>, b: seq<nat>)
    requires SameWords(m, m', a + b)
    ensures SameWords(m, m', a) && SameWords(m, m', b)
  {
    hide SameWord;
    forall i | 0 <= i < |a| ensures SameWord(m, m', a[i]) {
      assert (a + b)[i] == a[i];
    }
    forall i | 0 <= i < |b| ensures SameWord(m, m', b[i]) {
      assert (a + b)[|a| + i] == b[i];
    }
  }

  ghost predicate SameAtSites(m: seq<Byte>, m': seq<Byte>, s: seq<Site>)
  {
    forall i :: 0 <= i < |s| ==> SameWord(m, m', s[i].slot)
  }

  /** A library's sites depend only on the words of these sites. */
  lemma {:induction false} SitesSame(m: seq<Byte>, m': seq<Byte>, cx: Context, starts: seq<Starts>, k: nat)
    requires cx.Valid() && k <= |starts| && |m'| == |m| && LibrarySites(m, cx, starts, k).Found?
    requires SameAtSites(m, m', LibrarySites(m, cx, starts, k).sites)
    ensures LibrarySites(m', cx, starts, k) == LibrarySites(m, cx, starts, k)
    decreases |starts| - k
  {
    hide Load, SameWord, PageChains;
    if k < |starts| {
      var c, rest := SegmentChains(m, cx, starts[k]), LibrarySites(m, cx, starts, k + 1);
      var all := Sites(c.slots, cx.(format := starts[k].format)) + rest.sites;
      forall i | 0 <= i < |c.slots| ensures SameWord(m, m', c.slots[i]) {
        assert all[i].slot == c.slots[i];
      }
      forall i | 0 <= i < |rest.sites| ensures SameWord(m, m', rest.sites[i].slot) {
        assert all[|c.slots| + i] == rest.sites[i];
      }
      SegmentSame(m, m', cx, starts[k]);
      SitesSame(m, m', cx, starts, k + 1);
    }
  }

  lemma {:induction false} SegmentSame(m: seq<Byte>, m': seq<Byte>, cx: Context, st: Starts)
    requires cx.Valid() && |m'| == |m| && SegmentChains(m, cx, st).Whole?
    requires SameWords(m, m', SegmentChains(m, cx, st).slots)
    ensures SegmentChains(m', cx, st) == SegmentChains(m, cx, st)
  {
    hide Load, SameWord, PageChains;
    if st.present {
      var at := SegmentAt(cx.segs, cx.segs[cx.text].origVmaddr + st.segOff);
      if at.Some? {
        PagesSame(m, m', st.pages, cx.segs[at.value].cacheFileOff, st.pageSize, 0);
      }
    }
  }
}
