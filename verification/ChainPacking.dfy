/** Chained fixups written from the format: packing the fields of a slot into its word and the
    slots of a page into a chain, as partner of the walk. */
module ChainPacking {
  import opened Bits
  import opened Memory
  import opened Layout
  import opened Wrappers
  import opened ChainedFixups

  // ----- one word ------------------------------------------------------------------

  /** What a slot holds, apart from its link; `reserved` are bits the format leaves unused. */
  datatype Entry =
    | Pointer(target: nat, high: nat, reserved: nat)
    | Import(ordinal: nat, addend: int, reserved: nat)

  predicate Packable(e: Entry)
  {
    match e
    case Pointer(target, high, reserved) => target < 0x10_0000_0000 && high < 0x100 && reserved < 0x80
    case Import(ordinal, addend, reserved) => ordinal < 0x100_0000 && -128 <= addend < 128 && reserved < 0x8_0000
  }

  /** The word: the target in 36 bits, its high byte, or the ordinal in 24 bits and the addend byte;
      the link at bit 51, the import mark at bit 63. */
  function Word(e: Entry, next: nat): nat
    requires Packable(e)
  {
    match e
    case Pointer(target, high, reserved) =>
      target + high * 0x10_0000_0000 + reserved * 0x1000_0000_0000 + next * 0x8_0000_0000_0000
    case Import(ordinal, addend, reserved) =>
      ordinal + (if addend < 0 then addend + 256 else addend) * 0x100_0000 + reserved * 0x1_0000_0000 +
      next * 0x8_0000_0000_0000 + 0x8000_0000_0000_0000
  }

  lemma {:induction false} FieldPowers()
    ensures Pow2(1) == 2 && Pow2(8) == 0x100 && Pow2(12) == 0x1000 && Pow2(24) == 0x100_0000
    ensures Pow2(36) == 0x10_0000_0000 && Pow2(51) == 0x8_0000_0000_0000 && Pow2(63) == 0x8000_0000_0000_0000
  {
    assert Pow2(1) == 2 && Pow2(3) == 8 && Pow2(4) == 16 && Pow2(8) == 0x100;
    hide Pow2;
    Pow2Add(8, 4);
    Pow2Add(12, 12);
    Pow2Add(24, 12);
    Pow2Add(36, 12);
    Pow2Add(48, 3);
    Pow2Add(51, 12);
  }

  /** A field of `k` bits at bit `s`, with anything below and above it. */
  lemma {:induction false} FieldAt(x: nat, low: nat, f: nat, high: nat, s: nat, k: nat)
    requires low < Pow2(s) && f < Pow2(k) && x == low + Pow2(s) * (f + Pow2(k) * high)
    ensures And(Shr(x, s), Pow2(k) - 1) == f
  {
    hide And, Pow2;
    DivModUnique(x, Pow2(s), f + Pow2(k) * high, low);
    AndLowMask(Shr(x, s), k);
    DivModUnique(f + Pow2(k) * high, Pow2(k), high, f);
  }

  lemma {:induction false} LowField(x: nat, f: nat, high: nat, k: nat)
    requires f < Pow2(k) && x == f + Pow2(k) * high
    ensures And(x, Pow2(k) - 1) == f
  {
    hide And, Pow2;
    AndLowMask(x, k);
    DivModUnique(x, Pow2(k), high, f);
  }

  /** The link reads back. */
  lemma {:induction false} LinkReadsBack(e: Entry, next: nat)
    requires Packable(e) && next < 0x1000
    ensures Next(Word(e, next)) == next && (IsBind(Word(e, next)) <==> e.Import?)
    ensures Word(e, next) < WORD
  {
    hide And, Pow2, Shr;
    FieldPowers();
    var w := Word(e, next);
    var bind := if e.Import? then 1 else 0;
    var low := w - next * 0x8_0000_0000_0000 - bind * 0x8000_0000_0000_0000;
    assert 0 <= low < 0x8_0000_0000_0000;
    FieldAt(w, low, next, bind, 51, 12);
    FieldAt(w, low + next * 0x8_0000_0000_0000, bind, 0, 63, 1);
  }

  /** The fields of a pointer read back. */
  lemma {:induction false} PointerReadsBack(e: Entry, next: nat)
    requires e.Pointer? && Packable(e) && next < 0x1000
    ensures TargetField(Word(e, next)) == e.target && High8(Word(e, next)) == e.high
  {
    hide And, Pow2, Shr;
    FieldPowers();
    var w := Word(e, next);
    var above := e.reserved + next * 0x80;
    LowField(w, e.target, e.high + 0x100 * above, 36);
    FieldAt(w, e.target, e.high, above, 36, 8);
  }

  /** The fields of an import read back. */
  lemma {:induction false} ImportReadsBack(e: Entry, next: nat)
    requires e.Import? && Packable(e) && next < 0x1000
    ensures OrdinalField(Word(e, next)) == e.ordinal && Addend(Word(e, next)) == e.addend
  {
    hide And, Pow2, Shr;
    FieldPowers();
    var w := Word(e, next);
    var b := if e.addend < 0 then e.addend + 256 else e.addend;
    var above := e.reserved + next * 0x8_0000 + 0x8000_0000;
    LowField(w, e.ordinal, b + 0x100 * above, 24);
    FieldAt(w, e.ordinal, b, above, 24, 8);
  }

  // ----- what a slot is to become ---------------------------------------------------

  /** The source address of a pointer: an offset from the text segment, or the address itself. */
  function Source(cx: Context, target: nat): nat
    requires cx.Valid()
  {
    if cx.format == PTR_64_OFFSET then cx.segs[cx.text].origVmaddr + target else target
  }

  /** Its cache address. */
  function Address(cx: Context, target: nat): int
    requires cx.Valid()
  {
    var source := Source(cx, target);
    if exists s :: 0 <= s < |cx.segs| && cx.segs[s].Holds(source) then Translate(cx.segs, source)
    else if cx.format == PTR_64_OFFSET then cx.segs[cx.text].cacheVmaddr + target
    else target
  }

  /** A pointer keeps its place in the segment it points into. */
  lemma {:induction false} AddressMeans(cx: Context, target: nat, s: nat)
    requires cx.Valid() && SourceDisjoint(cx.segs) && s < |cx.segs| && cx.segs[s].Holds(Source(cx, target))
    ensures Address(cx, target) == cx.segs[s].cacheVmaddr + (Source(cx, target) - cx.segs[s].origVmaddr)
  {
    FindUnique(cx.segs, s, Source(cx, target));
  }

  /** The word a slot is to become. A pointer is its cache address with the high byte put back, an
      import the address it resolves to with its addend, or null. */
  ghost function Meant(cx: Context, e: Entry): int
    requires cx.Valid()
  {
    match e
    case Pointer(target, high, _) => Address(cx, target) + high * 0x100_0000_0000_0000
    case Import(ordinal, addend, _) =>
      if ordinal < |cx.imports| && cx.imports[ordinal] != 0 then (cx.imports[ordinal] + addend) % WORD else 0
  }

  /** The cache address leaves the high byte free. */
  ghost predicate InReach(cx: Context, e: Entry)
    requires cx.Valid()
  {
    e.Pointer? ==> 0 <= Address(cx, e.target) < 0x100_0000_0000_0000
  }

  lemma {:induction false} FixupIsMeant(cx: Context, e: Entry, next: nat)
    requires cx.Valid() && Packable(e) && next < 0x1000 && InReach(cx, e)
    ensures Fixup(cx, Word(e, next)) == Meant(cx, e)
  {
    hide And, Or, Pow2, Shr, Shl, IsBind, TargetField, High8, OrdinalField, Addend, Word;
    LinkReadsBack(e, next);
    if e.Import? {
      ImportReadsBack(e, next);
    } else {
      PointerReadsBack(e, next);
      var raw := Word(e, next);
      assert SourceTarget(cx, raw) == Source(cx, e.target);
      assert NewAddress(cx, raw) == Address(cx, e.target);
      PutBack(Address(cx, e.target), e.high);
    }
  }

  lemma {:induction false} PutBack(addr: nat, high: nat)
    requires addr < 0x100_0000_0000_0000 && high < 256
    ensures Or(addr % WORD, Shl(high, 56)) % WORD == addr + high * 0x100_0000_0000_0000
  {
    hide Or, And, Pow2;
    Pow2Values();
    FieldPowers();
    Pow2Add(24, 32);
    HighByte(addr, high);
  }

  // ----- one page ------------------------------------------------------------------

  datatype Link = Link(slot: nat, entry: Entry)

  function Slots(links: seq<Link>): (r: seq<nat>)
    ensures |r| == |links| && forall i :: 0 <= i < |links| ==> r[i] == links[i].slot
  {
    seq(|links|, i requires 0 <= i < |links| => links[i].slot)
  }

  /** Distance from link `i` to the one after it, in units of four bytes; 0 at the end. */
  function Distance(links: seq<Link>, i: nat): int
    requires i < |links|
  {
    if i + 1 < |links| then (links[i + 1].slot - links[i].slot) / 4 else 0
  }

  /** Ascending slots, a multiple of four and less than 0x4000 bytes apart, each holding its entry and
      the way to the next. */
  ghost predicate Linked(m: seq<Byte>, links: seq<Link>)
  {
    forall i :: 0 <= i < |links| ==> LinkedAt(m, links, i)
  }

  ghost predicate LinkedAt(m: seq<Byte>, links: seq<Link>, i: nat)
    requires i < |links|
  {
    && links[i].slot + 8 <= |m| && Packable(links[i].entry)
    && (i + 1 < |links| ==>
          var d := links[i + 1].slot - links[i].slot; 0 < d < 0x4000 && d % 4 == 0)
    && Distance(links, i) >= 0
    && Load(m, links[i].slot, 8) == Word(links[i].entry, Distance(links, i))
  }

  /** The chain from the first slot runs through exactly these slots. */
  lemma {:induction false} ChainOfLinks(m: seq<Byte>, links: seq<Link>, i: nat)
    requires Linked(m, links) && i < |links|
    ensures ChainFrom(m, links[i].slot) == Whole(Slots(links)[i..])
    decreases |links| - i
  {
    hide Load, Word, Next;
    assert LinkedAt(m, links, i);
    LinkReadsBack(links[i].entry, Distance(links, i));
    assert Slots(links)[i] == links[i].slot;
    if i + 1 < |links| {
      assert LinkedAt(m, links, i + 1);
      assert links[i].slot + Distance(links, i) * 4 == links[i + 1].slot;
      ChainOfLinks(m, links, i + 1);
      assert Slots(links)[i..] == [links[i].slot] + Slots(links)[i + 1..];
    } else {
      assert Slots(links)[i..] == [links[i].slot];
    }
  }

  // ----- all pages of a segment -----------------------------------------------------

  /** Page `p` holds its links from its page start on, or has no start. */
  ghost predicate PageLinked(m: seq<Byte>, start: nat, at: nat, links: seq<Link>)
  {
    && (links == [] <==> start == NO_START)
    && (links != [] ==> links[0].slot == at + start)
    && Linked(m, links)
  }

  ghost predicate PagesLinked(m: seq<Byte>, starts: seq<nat>, base: nat, pageSize: nat, pages: seq<seq<Link>>)
  {
    && |pages| == |starts|
    && forall p :: 0 <= p < |pages| ==> PageLinked(m, starts[p], base + p * pageSize, pages[p])
  }

  function Joined(pages: seq<seq<Link>>, p: nat): seq<Link>
    requires p <= |pages|
    decreases |pages| - p
  {
    if p == |pages| then [] else pages[p] + Joined(pages, p + 1)
  }

  lemma {:induction false} PagesOfLinks(m: seq<Byte>, starts: seq<nat>, base: nat, pageSize: nat,
                                        pages: seq<seq<Link>>, p: nat)
    requires PagesLinked(m, starts, base, pageSize, pages) && p <= |pages|
    ensures PageChains(m, starts, base, pageSize, p) == Whole(Slots(Joined(pages, p)))
    decreases |pages| - p
  {
    hide Linked, ChainFrom;
    if p == |pages| {
      assert Slots([]) == [];
    } else {
      assert PageLinked(m, starts[p], base + p * pageSize, pages[p]);
      PagesOfLinks(m, starts, base, pageSize, pages, p + 1);
      var more := Joined(pages, p + 1);
      assert Slots(pages[p] + more) == Slots(pages[p]) + Slots(more);
      if pages[p] != [] {
        ChainOfLinks(m, pages[p], 0);
        assert Slots(pages[p])[0..] == Slots(pages[p]);
      } else {
        assert pages[p] + more == more;
      }
    }
  }

  // ----- a library -----------------------------------------------------------------

  /** Segment `k` of the starts holds these pages of links, or none where it has no chains. */
  ghost predicate SegmentLinked(m: seq<Byte>, cx: Context, st: Starts, pages: seq<seq<Link>>)
    requires cx.Valid()
  {
    var at := SegmentAt(cx.segs, cx.segs[cx.text].origVmaddr + st.segOff);
    if st.present && at.Some? then PagesLinked(m, st.pages, cx.segs[at.value].cacheFileOff, st.pageSize, pages)
    else pages == []
  }

  ghost predicate LibraryLinked(m: seq<Byte>, cx: Context, starts: seq<Starts>, segments: seq<seq<seq<Link>>>)
    requires cx.Valid()
  {
    && |segments| == |starts|
    && forall k :: 0 <= k < |starts| ==> SegmentLinked(m, cx, starts[k], segments[k])
  }

  /** A link and what its word is read with. */
  datatype Placed = Placed(link: Link, cx: Context)

  function PlacedLinks(links: seq<Link>, cx: Context): (r: seq<Placed>)
    ensures |r| == |links| && forall i :: 0 <= i < |r| ==> r[i] == Placed(links[i], cx)
  {
    seq(|links|, i requires 0 <= i < |links| => Placed(links[i], cx))
  }

  /** All links of a library, in order. */
  function LibraryLinks(cx: Context, starts: seq<Starts>, segments: seq<seq<seq<Link>>>, k: nat): seq<Placed>
    requires k <= |starts| == |segments|
    decreases |starts| - k
  {
    if k == |starts| then []
    else
      PlacedLinks(Joined(segments[k], 0), cx.(format := starts[k].format)) + LibraryLinks(cx, starts, segments, k + 1)
  }

  function PlacedSites(all: seq<Placed>): (r: seq<Site>)
    ensures |r| == |all| && forall i :: 0 <= i < |r| ==> r[i] == Site(all[i].link.slot, all[i].cx)
  {
    seq(|all|, i requires 0 <= i < |all| => Site(all[i].link.slot, all[i].cx))
  }

  lemma {:induction false} SegmentOfLinks(m: seq<Byte>, cx: Context, st: Starts, pages: seq<seq<Link>>)
    requires cx.Valid() && SegmentLinked(m, cx, st, pages)
    ensures SegmentChains(m, cx, st) == Whole(Slots(Joined(pages, 0)))
  {
    hide PagesLinked, PageChains;
    var at := SegmentAt(cx.segs, cx.segs[cx.text].origVmaddr + st.segOff);
    if st.present && at.Some? {
      PagesOfLinks(m, st.pages, cx.segs[at.value].cacheFileOff, st.pageSize, pages, 0);
    } else {
      assert Slots(Joined(pages, 0)) == [];
    }
  }

  /** The walk's sites are exactly the links that were written, with their own contexts. */
  lemma {:induction false} SitesOfLinks(m: seq<Byte>, cx: Context, starts: seq<Starts>, segments: seq<seq<seq<Link>>>,
                                        k: nat)
    requires cx.Valid() && LibraryLinked(m, cx, starts, segments) && k <= |starts|
    ensures LibrarySites(m, cx, starts, k) == Found(PlacedSites(LibraryLinks(cx, starts, segments, k)))
    decreases |starts| - k
  {
    hide SegmentLinked, SegmentChains, Joined;
    if k == |starts| {
      assert PlacedSites([]) == [];
    } else {
      SegmentOfLinks(m, cx, starts[k], segments[k]);
      SitesOfLinks(m, cx, starts, segments, k + 1);
      var links, cx' := Joined(segments[k], 0), cx.(format := starts[k].format);
      var rest := LibraryLinks(cx, starts, segments, k + 1);
      assert PlacedSites(PlacedLinks(links, cx') + rest) == Sites(Slots(links), cx') + PlacedSites(rest);
    }
  }

  // ----- the walk on what was written ------------------------------------------------

  /** The slot holds its entry, with some link. */
  ghost predicate Holds(m: seq<Byte>, link: Link)
  {
    && link.slot + 8 <= |m| && Packable(link.entry)
    && exists next :: 0 <= next < 0x1000 && Load(m, link.slot, 8) == Word(link.entry, next)
  }

  ghost predicate AllHold(m: seq<Byte>, links: seq<Link>)
  {
    forall i :: 0 <= i < |links| ==> Holds(m, links[i])
  }

  lemma {:induction false} LinkedHold(m: seq<Byte>, links: seq<Link>)
    requires Linked(m, links)
    ensures AllHold(m, links)
  {
    hide Load, Word;
    forall i | 0 <= i < |links| ensures Holds(m, links[i]) {
      assert LinkedAt(m, links, i);
      assert Distance(links, i) < 0x1000;
    }
  }

  lemma {:induction false} PagesHold(m: seq<Byte>, starts: seq<nat>, base: nat, pageSize: nat, pages: seq<seq<Link>>,
                                     p: nat)
    requires PagesLinked(m, starts, base, pageSize, pages) && p <= |pages|
    ensures AllHold(m, Joined(pages, p))
    decreases |pages| - p
  {
    hide Linked, Holds;
    if p < |pages| {
      assert PageLinked(m, starts[p], base + p * pageSize, pages[p]);
      LinkedHold(m, pages[p]);
      PagesHold(m, starts, base, pageSize, pages, p + 1);
    }
  }

  ghost predicate AllPlacedHold(m: seq<Byte>, all: seq<Placed>)
  {
    forall i :: 0 <= i < |all| ==> Holds(m, all[i].link) && all[i].cx.Valid()
  }

  lemma {:induction false} LibraryHolds(m: seq<Byte>, cx: Context, starts: seq<Starts>, segments: seq<seq<seq<Link>>>,
                                        k: nat)
    requires cx.Valid() && LibraryLinked(m, cx, starts, segments) && k <= |starts|
    ensures AllPlacedHold(m, LibraryLinks(cx, starts, segments, k))
    decreases |starts| - k
  {
    hide PagesLinked, Holds;
    if k < |starts| {
      assert SegmentLinked(m, cx, starts[k], segments[k]);
      var at := SegmentAt(cx.segs, cx.segs[cx.text].origVmaddr + starts[k].segOff);
      if starts[k].present && at.Some? {
        PagesHold(m, starts[k].pages, cx.segs[at.value].cacheFileOff, starts[k].pageSize, segments[k], 0);
      } else {
        assert Joined(segments[k], 0) == [];
      }
      LibraryHolds(m, cx, starts, segments, k + 1);
    }
  }

  /** The slot has become what its entry means. */
  ghost predicate BecameMeant(m': seq<Byte>, p: Placed)
  {
    && p.link.slot + 8 <= |m'| && p.cx.Valid()
    && (InReach(p.cx, p.link.entry) ==> Load(m', p.link.slot, 8) == Meant(p.cx, p.link.entry))
  }

  lemma {:induction false} SlotBecomesMeant(m: seq<Byte>, m': seq<Byte>, p: Placed)
    requires Holds(m, p.link) && p.cx.Valid() && |m'| == |m| && FixedAt(m, m', Site(p.link.slot, p.cx))
    ensures BecameMeant(m', p)
  {
    hide Load, Word, Fixup, Meant, InReach;
    var next :| 0 <= next < 0x1000 && Load(m, p.link.slot, 8) == Word(p.link.entry, next);
    if InReach(p.cx, p.link.entry) {
      FixupIsMeant(p.cx, p.link.entry, next);
    }
  }

  /** Walking a library whose chains were written from lists of slots: each listed slot becomes what
      its entry means, no other byte changes, and the slots of the data region are recorded. */
  method WalkWritten(buf: array<Byte>, cx: Context, starts: seq<Starts>, dataOff: nat, dataSize: nat,
                     ghost segments: seq<seq<seq<Link>>>) returns (recorded: seq<nat>)
    requires cx.Valid() && LibraryLinked(buf[..], cx, starts, segments)
    requires DisjointSites(buf.Length, PlacedSites(LibraryLinks(cx, starts, segments, 0)))
    modifies buf
    ensures var all := LibraryLinks(cx, starts, segments, 0);
            && (forall i :: 0 <= i < |all| ==> BecameMeant(buf[..], all[i]))
            && (forall k :: 0 <= k < buf.Length && !InSlots(SlotSet(PlacedSites(all)), k) ==> buf[k] == old(buf[k]))
            && (forall slot: nat :: slot in recorded <==>
                  dataOff <= slot < dataOff + dataSize && slot in SlotSet(PlacedSites(all)))
  {
    hide SegmentLinked, LibrarySites, LibraryLinks, BecameMeant, Holds, FixedAt, RawAt, DataSlots, SlotSet;
    ghost var m, all := buf[..], LibraryLinks(cx, starts, segments, 0);
    SitesOfLinks(m, cx, starts, segments, 0);
    LibraryHolds(m, cx, starts, segments, 0);
    recorded := WalkSegments(buf, cx, starts, dataOff, dataSize);
    ghost var s := PlacedSites(all);
    forall i | 0 <= i < |all| ensures BecameMeant(buf[..], all[i]) {
      assert FixedAt(m, buf[..], s[i]);
      SlotBecomesMeant(m, buf[..], all[i]);
    }
    forall slot: nat
      ensures slot in recorded <==> dataOff <= slot < dataOff + dataSize && slot in SlotSet(s)
    {
      DataSlotsMean(s, dataOff, dataSize, slot);
    }
  }
}
