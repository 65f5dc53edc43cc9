/** The builder's passes over pointers put together: fix up every library in the one buffer, by its
    rebase stream and its chains, encode the recorded slots, and look at what a loader makes of it. */
module CacheBuild {
  import opened Bits
  import opened Memory
  import opened Layout
  import opened Linker
  import opened Rebase
  import CF = ChainedFixups
  import opened SlideInfo
  import opened SlideInfoBuilder
  import opened Wrappers

  const MAX_REBASE_LOCS := 0x10_0000

  /** A library's segments, its compressed rebase stream, and its chains with what they need. */
  datatype Library = Library(segs: seq<Seg>, data: seq<Byte>, start: nat, end: nat, text: nat, imports: seq<nat>,
                             starts: seq<CF.Starts>)
  {
    predicate Valid() { start <= end <= |data| && Parse(data, start, end).Some? && text < |segs| }

    function Stream(): seq<Slot>
      requires Valid()
    {
      Expand(Parse(data, start, end).value, Slot(0, 0))
    }

    function Chains(): CF.Context { CF.Context(segs, text, 0, imports) }
  }

  // ----- what a library touches ----------------------------------------------------

  /** The places in the buffer that a library's stream names. */
  ghost function Named(lib: Library, len: nat): (r: set<nat>)
    ensures forall off :: off in r ==> off + 8 <= len
  {
    if lib.Valid() then Offsets(lib.segs, len, lib.Stream()) else {}
  }

  /** The sites of its chains. */
  ghost function ChainSites(lib: Library, m: seq<Byte>): seq<CF.Site>
  {
    if !lib.Valid() then []
    else
      match CF.LibrarySites(m, lib.Chains(), lib.starts, 0)
      case Lost => []
      case Found(sites) => sites
  }

  ghost function Touched(lib: Library, m: seq<Byte>): set<nat>
  {
    Named(lib, |m|) + CF.SlotSet(ChainSites(lib, m))
  }

  /** Chains that stay in the buffer, and places that do not overlap. */
  ghost predicate Ready(lib: Library, m: seq<Byte>)
  {
    && lib.Valid() && SourceApartFromCache(lib.segs)
    && CF.LibrarySites(m, lib.Chains(), lib.starts, 0).Found? && CF.DisjointSites(|m|, ChainSites(lib, m))
    && Apart(Touched(lib, m)) && Named(lib, |m|) !! CF.SlotSet(ChainSites(lib, m))
  }

  /** Places touched by two libraries do not overlap. */
  ghost predicate Separate(libs: seq<Library>, m: seq<Byte>)
  {
    && (forall i :: 0 <= i < |libs| ==> Ready(libs[i], m))
    && (forall i, j, a, b ::
          0 <= i < j < |libs| && a in Touched(libs[i], m) && b in Touched(libs[j], m) ==> Disjoint(a, 8, b, 8))
  }

  ghost predicate SiteHas(s: seq<CF.Site>, k: nat, off: nat) { k < |s| && s[k].slot == off }

  /** The word a library leaves at a place it touches: the translated pointer, or the fixup. */
  ghost function NewWord(m: seq<Byte>, lib: Library, off: nat): nat
    requires off + 8 <= |m|
  {
    var s := ChainSites(lib, m);
    if off in Named(lib, |m|) then Rebased(lib.segs, Load(m, off, 8))
    else if k: nat :| SiteHas(s, k, off) && s[k].cx.Valid() then CF.Fixup(s[k].cx, Load(m, off, 8))
    else Load(m, off, 8)
  }

  lemma {:induction false} TouchedInside(lib: Library, m: seq<Byte>, off: nat)
    requires Ready(lib, m) && off in Touched(lib, m)
    ensures off + 8 <= |m|
  {
  }

  lemma {:induction false} NewWordAtSite(m: seq<Byte>, lib: Library, k: nat)
    requires Ready(lib, m) && k < |ChainSites(lib, m)|
    ensures var s := ChainSites(lib, m)[k];
            s.slot + 8 <= |m| && s.cx.Valid() && NewWord(m, lib, s.slot) == CF.Fixup(s.cx, Load(m, s.slot, 8))
  {
    hide Load, CF.Fixup, CF.LibrarySites, Named, Rebased, SourceApartFromCache, Apart;
    var s := ChainSites(lib, m);
    assert s[k].slot in CF.SlotSet(s);
    assert SiteHas(s, k, s[k].slot);
    forall j: nat | SiteHas(s, j, s[k].slot) ensures j == k {
      assert j < k ==> Disjoint(s[j].slot, 8, s[k].slot, 8);
      assert k < j ==> Disjoint(s[k].slot, 8, s[j].slot, 8);
    }
  }

  // ----- one library ---------------------------------------------------------------

  ghost predicate WordDone(m: seq<Byte>, m': seq<Byte>, lib: Library, off: nat)
  {
    off + 8 <= |m| == |m'| && Load(m', off, 8) == NewWord(m, lib, off)
  }

  /** Each place touched holds its new word, every other byte is as before. */
  ghost predicate Done(m: seq<Byte>, m': seq<Byte>, lib: Library)
  {
    && |m'| == |m|
    && (forall off :: off in Touched(lib, m) ==> WordDone(m, m', lib, off))
    && (forall k :: 0 <= k < |m| && !InSlots(Touched(lib, m), k) ==> m'[k] == m[k])
  }

  lemma {:induction false} KeptApart(m: seq<Byte>, m': seq<Byte>, changed: set<nat>, off: nat)
    requires |m'| == |m| && off + 8 <= |m| && forall k :: 0 <= k < |m| && !InSlots(changed, k) ==> m'[k] == m[k]
    requires forall o :: o in changed ==> Disjoint(o, 8, off, 8)
    ensures Load(m', off, 8) == Load(m, off, 8)
  {
    hide Load;
    forall k | off <= k < off + 8 ensures m'[k] == m[k] {
      forall o | o in changed ensures !(o <= k < o + 8) {
        assert Disjoint(o, 8, off, 8);
      }
    }
    LoadCongruent(m, m', off, 8);
  }

  /** After the rebases the words of the chains are as before. */
  lemma {:induction false} ChainsKept(m: seq<Byte>, m1: seq<Byte>, lib: Library)
    requires Ready(lib, m) && RebasedOnce(m, m1, lib.segs, Named(lib, |m|))
    ensures |m1| == |m| && CF.SameAtSites(m, m1, ChainSites(lib, m))
  {
    hide Load, Rebased, CF.LibrarySites, Named, SourceApartFromCache;
    var s, named := ChainSites(lib, m), Named(lib, |m|);
    forall k | 0 <= k < |m| && !InSlots(named, k) ensures m1[k] == m[k] {
      assert forall off :: off in named ==> !(off <= k < off + 8);
    }
    forall i | 0 <= i < |s| ensures CF.SameWord(m, m1, s[i].slot) {
      assert s[i].slot in CF.SlotSet(s);
      forall o | o in named ensures Disjoint(o, 8, s[i].slot, 8) {
        assert o in Touched(lib, m) && s[i].slot in Touched(lib, m);
      }
      KeptApart(m, m1, named, s[i].slot);
    }
  }

  lemma {:induction false} LibraryDone(m: seq<Byte>, m1: seq<Byte>, m2: seq<Byte>, lib: Library)
    requires Ready(lib, m) && RebasedOnce(m, m1, lib.segs, Named(lib, |m|))
    requires CF.DisjointSites(|m1|, ChainSites(lib, m))
    requires CF.FixedUpTo(m1, m2, ChainSites(lib, m), |ChainSites(lib, m)|)
    ensures Done(m, m2, lib)
  {
    var s, named := ChainSites(lib, m), Named(lib, |m|);
    ChainsKept(m, m1, lib);
    hide Load, Rebased, CF.LibrarySites, Named, SourceApartFromCache, CF.Fixup, NewWord, ChainSites;
    forall off | off in Touched(lib, m) ensures WordDone(m, m2, lib, off) {
      if off in named {
        forall o | o in CF.SlotSet(s) ensures Disjoint(o, 8, off, 8) {
          assert o in Touched(lib, m);
        }
        KeptApart(m1, m2, CF.SlotSet(s), off);
        NewWordNamed(m, lib, off);
      } else {
        var k :| 0 <= k < |s| && s[k].slot == off;
        assert CF.FixedAt(m1, m2, s[k]) && CF.SameWord(m, m1, s[k].slot);
        NewWordAtSite(m, lib, k);
      }
    }
    forall k | 0 <= k < |m| && !InSlots(Touched(lib, m), k) ensures m2[k] == m[k] {
      forall o | o in named ensures !(o <= k < o + 8) {
        assert o in Touched(lib, m);
      }
      forall o | o in CF.SlotSet(s) ensures !(o <= k < o + 8) {
        assert o in Touched(lib, m);
      }
    }
  }

  lemma {:induction false} NewWordNamed(m: seq<Byte>, lib: Library, off: nat)
    requires off in Named(lib, |m|)
    ensures NewWord(m, lib, off) == Rebased(lib.segs, Load(m, off, 8))
  {
    hide Load, Rebased, ChainSites, Named;
  }

  /** The locations a library records: for its stream, and for its chains those in the data region. */
  ghost function Records(m: seq<Byte>, lib: Library, base: nat, size: nat): seq<nat>
  {
    if !lib.Valid() then [] else Recorded(m, lib.segs, lib.Stream()) + CF.DataSlots(ChainSites(lib, m), base, size)
  }

  /** Apply one library's rebases and chains. */
  method FixLibrary(buf: array<Byte>, lib: Library, base: nat, size: nat) returns (recorded: seq<nat>)
    requires Ready(lib, buf[..])
    modifies buf
    ensures Done(old(buf[..]), buf[..], lib) && recorded == Records(old(buf[..]), lib, base, size)
  {
    hide Expand, Parse, Load, RebaseAll, Recorded, CF.LibrarySites, CF.DataSlots, SourceApartFromCache, Rebased,
         Offsets, Done,
         CF.FixedUpTo, RebasedOnce, CF.SameAtSites;
    ghost var m := buf[..];
    recorded := ApplyRebases(buf, lib.segs, lib.data, lib.start, lib.end);
    NamedRebased(m, lib);
    ghost var m1 := buf[..];
    ChainsKept(m, m1, lib);
    CF.SitesSame(m, m1, lib.Chains(), lib.starts, 0);
    var more := CF.WalkSegments(buf, lib.Chains(), lib.starts, base, size);
    LibraryDone(m, m1, buf[..], lib);
    recorded := recorded + more;
  }

  lemma {:induction false} NamedRebased(m: seq<Byte>, lib: Library)
    requires Ready(lib, m)
    ensures RebasedOnce(m, RebaseAll(m, lib.segs, lib.Stream()), lib.segs, Named(lib, |m|))
  {
    hide Load, Rebased, RebaseAll, CF.LibrarySites, ChainSites, SourceApartFromCache, Offsets, RebasedOnce;
    assert Apart(Named(lib, |m|)) by {
      assert Named(lib, |m|) <= Touched(lib, m);
    }
    RebaseAllPointwise(m, lib.segs, lib.Stream());
  }

  // ----- library after library -----------------------------------------------------

  /** Each place touched by a library holds what that library makes of the original words. */
  ghost predicate EachDone(m: seq<Byte>, m': seq<Byte>, libs: seq<Library>)
  {
    && |m'| == |m|
    && (forall i, off :: 0 <= i < |libs| && off in Touched(libs[i], m) ==> WordDone(m, m', libs[i], off))
    && (forall k :: 0 <= k < |m| && (forall i :: 0 <= i < |libs| ==> !InSlots(Touched(libs[i], m), k)) ==>
        m'[k] == m[k])
  }

  /** The words a library needs are untouched when its turn comes. */
  ghost predicate SameWhereTouched(m: seq<Byte>, m': seq<Byte>, lib: Library)
  {
    |m'| == |m| && forall off :: off in Touched(lib, m) ==> off + 8 <= |m| && Load(m', off, 8) == Load(m, off, 8)
  }

  lemma {:induction false} ReadyElsewhere(m: seq<Byte>, m': seq<Byte>, lib: Library)
    requires Ready(lib, m) && SameWhereTouched(m, m', lib)
    ensures Ready(lib, m') && ChainSites(lib, m') == ChainSites(lib, m) && Touched(lib, m') == Touched(lib, m)
    ensures forall off :: off in Touched(lib, m) ==> off + 8 <= |m| && NewWord(m', lib, off) == NewWord(m, lib, off)
  {
    hide Load, Rebased, Named, SourceApartFromCache, CF.LibrarySites, CF.Fixup;
    var s := ChainSites(lib, m);
    forall i | 0 <= i < |s| ensures CF.SameWord(m, m', s[i].slot) {
      assert s[i].slot in CF.SlotSet(s);
    }
    CF.SitesSame(m, m', lib.Chains(), lib.starts, 0);
    forall off | off in Touched(lib, m) ensures off + 8 <= |m| && NewWord(m', lib, off) == NewWord(m, lib, off) {
      assert Load(m', off, 8) == Load(m, off, 8);
      SameNewWord(m, m', lib, off);
    }
  }

  lemma {:induction false} SameNewWord(m: seq<Byte>, m': seq<Byte>, lib: Library, off: nat)
    requires Ready(lib, m) && Ready(lib, m') && |m'| == |m| && ChainSites(lib, m') == ChainSites(lib, m)
    requires off in Touched(lib, m) && off + 8 <= |m| && Load(m', off, 8) == Load(m, off, 8)
    ensures NewWord(m', lib, off) == NewWord(m, lib, off)
  {
    hide Load, Rebased, Named, CF.Fixup, NewWord, ChainSites, Ready;
    if off in Named(lib, |m|) {
      NewWordNamed(m, lib, off);
      NewWordNamed(m', lib, off);
    } else {
      var s := ChainSites(lib, m);
      var k :| 0 <= k < |s| && s[k].slot == off;
      NewWordAtSite(m, lib, k);
      NewWordAtSite(m', lib, k);
    }
  }

  lemma {:induction false} TurnComes(m: seq<Byte>, m1: seq<Byte>, libs: seq<Library>)
    requires libs != [] && Separate(libs, m) && Separate(libs[..|libs| - 1], m) && EachDone(m, m1, libs[..|libs| - 1])
    ensures SameWhereTouched(m, m1, libs[|libs| - 1])
  {
    hide Load, Touched, NewWord;
    var n := |libs| - 1;
    var front, last := libs[..n], libs[n];
    assert forall i :: 0 <= i < n ==> front[i] == libs[i];
    forall off | off in Touched(last, m) ensures off + 8 <= |m| && Load(m1, off, 8) == Load(m, off, 8) {
      TouchedInside(last, m, off);
      forall k | off <= k < off + 8 ensures m1[k] == m[k] {
        forall j | 0 <= j < n ensures !InSlots(Touched(front[j], m), k) {
          assert forall o :: o in Touched(libs[j], m) ==> Disjoint(o, 8, off, 8);
        }
      }
      LoadCongruent(m, m1, off, 8);
    }
  }

  lemma {:induction false} OneMoreLibrary(m: seq<Byte>, m1: seq<Byte>, m2: seq<Byte>, libs: seq<Library>)
    requires libs != [] && Separate(libs, m) && EachDone(m, m1, libs[..|libs| - 1])
    requires SameWhereTouched(m, m1, libs[|libs| - 1]) && Done(m1, m2, libs[|libs| - 1])
    ensures EachDone(m, m2, libs)
  {
    hide Load, Touched, NewWord, Ready, Separate, SameWhereTouched, EachDone, Done, WordDone;
    var n := |libs| - 1;
    LastReady(libs, m);
    ReadyElsewhere(m, m1, libs[n]);
    SameLengths(m, m1, m2, libs[n]);
    forall i, off | 0 <= i < |libs| && off in Touched(libs[i], m) ensures WordDone(m, m2, libs[i], off) {
      if i < n {
        EarlierKept(m, m1, m2, libs, i, off);
      } else {
        LastWord(m, m1, m2, libs[n], off);
      }
    }
    forall k | 0 <= k < |m| &&
        (forall i :: 0 <= i < |libs| ==> !InSlots(Touched(libs[i], m), k)) ensures m2[k] == m[k] {
      OutsideAll(m, m1, m2, libs, k);
    }
    AllDone(m, m2, libs);
  }

  lemma {:induction false} AllDone(m: seq<Byte>, m2: seq<Byte>, libs: seq<Library>)
    requires |m2| == |m|
    requires forall i, off :: 0 <= i < |libs| && off in Touched(libs[i], m) ==> WordDone(m, m2, libs[i], off)
    requires forall k :: 0 <= k < |m| && (forall i :: 0 <= i < |libs| ==> !InSlots(Touched(libs[i], m), k)) ==>
              m2[k] == m[k]
    ensures EachDone(m, m2, libs)
  {
    hide Load, Touched, NewWord;
  }

  lemma {:induction false} LastReady(libs: seq<Library>, m: seq<Byte>)
    requires libs != [] && Separate(libs, m)
    ensures Ready(libs[|libs| - 1], m)
  {
    hide Ready, Touched;
  }

  lemma {:induction false} SameLengths(m: seq<Byte>, m1: seq<Byte>, m2: seq<Byte>, lib: Library)
    requires SameWhereTouched(m, m1, lib) && Done(m1, m2, lib)
    ensures |m2| == |m1| == |m|
  {
  }

  lemma {:induction false} EarlierKept(m: seq<Byte>, m1: seq<Byte>, m2: seq<Byte>, libs: seq<Library>, i: nat, off: nat)
    requires libs != [] && Separate(libs, m) && EachDone(m, m1, libs[..|libs| - 1]) && i < |libs| - 1
    requires Done(m1, m2, libs[|libs| - 1]) && Touched(libs[|libs| - 1], m1) == Touched(libs[|libs| - 1], m)
    requires off in Touched(libs[i], m)
    ensures WordDone(m, m2, libs[i], off)
  {
    hide Load, Touched, NewWord, Ready;
    var n := |libs| - 1;
    assert libs[..n][i] == libs[i];
    assert WordDone(m, m1, libs[..n][i], off);
    forall o | o in Touched(libs[n], m) ensures Disjoint(o, 8, off, 8) {
      assert Disjoint(off, 8, o, 8);
    }
    KeptApart(m1, m2, Touched(libs[n], m), off);
  }

  lemma {:induction false} LastWord(m: seq<Byte>, m1: seq<Byte>, m2: seq<Byte>, lib: Library, off: nat)
    requires Done(m1, m2, lib) && Touched(lib, m1) == Touched(lib, m) && off in Touched(lib, m) && |m1| == |m|
    requires off + 8 <= |m| && NewWord(m1, lib, off) == NewWord(m, lib, off)
    ensures WordDone(m, m2, lib, off)
  {
    hide Load, Touched, NewWord;
    assert WordDone(m1, m2, lib, off);
  }

  lemma {:induction false} OutsideAll(m: seq<Byte>, m1: seq<Byte>, m2: seq<Byte>, libs: seq<Library>, k: nat)
    requires libs != [] && EachDone(m, m1, libs[..|libs| - 1]) && k < |m|
    requires Done(m1, m2, libs[|libs| - 1]) && Touched(libs[|libs| - 1], m1) == Touched(libs[|libs| - 1], m)
    requires forall i :: 0 <= i < |libs| ==> !InSlots(Touched(libs[i], m), k)
    ensures |m2| == |m| && m2[k] == m[k]
  {
    hide Load, Touched, NewWord;
    var n := |libs| - 1;
    assert !InSlots(Touched(libs[n], m), k);
    forall j | 0 <= j < n ensures !InSlots(Touched(libs[..n][j], m), k) {
      assert libs[..n][j] == libs[j];
    }
  }

  // ----- what is recorded ----------------------------------------------------------

  /** A library may record a place: it translates the pointer its stream names there, or one of its
      chains has a slot there in the data region. */
  ghost predicate MayRecord(m: seq<Byte>, lib: Library, base: nat, size: nat, off: nat)
  {
    || (off in Named(lib, |m|) && Translates(lib.segs, Load(m, off, 8)))
    || (base <= off < base + size && off in CF.SlotSet(ChainSites(lib, m)))
  }

  /** It does, unless its stream also names the place through a segment that is not data. */
  ghost predicate MustRecord(m: seq<Byte>, lib: Library, base: nat, size: nat, off: nat)
  {
    lib.Valid() && MayRecord(m, lib, base, size, off) &&
        (off in Named(lib, |m|) ==> DataOnly(lib.segs, |m|, lib.Stream(), off))
  }

  ghost predicate NoRepeats(r: seq<nat>)
  {
    forall p, q :: 0 <= p < q < |r| ==> r[p] != r[q]
  }

  lemma {:induction false} RecordsMean(m: seq<Byte>, lib: Library, base: nat, size: nat, off: nat)
    requires Ready(lib, m)
    ensures off in Records(m, lib, base, size) ==> MayRecord(m, lib, base, size, off)
    ensures MustRecord(m, lib, base, size, off) ==> off in Records(m, lib, base, size)
  {
    hide Load, Translates, Recorded, CF.DataSlots, ChainSites, SourceApartFromCache, Offsets, CF.LibrarySites, DataOnly;
    assert Apart(Named(lib, |m|)) by {
      assert Named(lib, |m|) <= Touched(lib, m);
    }
    CF.DataSlotsMean(ChainSites(lib, m), base, size, off);
    if off in Recorded(m, lib.segs, lib.Stream()) {
      RecordedOnce(m, lib.segs, lib.Stream());
      var r := Recorded(m, lib.segs, lib.Stream());
      var k :| 0 <= k < |r| && r[k] == off;
      assert r[k] in Named(lib, |m|);
      RecordedMeans(m, lib.segs, lib.Stream(), off);
    } else if off in Named(lib, |m|) {
      RecordedMeans(m, lib.segs, lib.Stream(), off);
    }
  }

  lemma {:induction false} RecordsOnce(m: seq<Byte>, lib: Library, base: nat, size: nat)
    requires Ready(lib, m)
    ensures NoRepeats(Records(m, lib, base, size))
  {
    hide Load, Recorded, CF.DataSlots, ChainSites, SourceApartFromCache, Offsets, CF.LibrarySites;
    assert Apart(Named(lib, |m|)) by {
      assert Named(lib, |m|) <= Touched(lib, m);
    }
    RecordedOnce(m, lib.segs, lib.Stream());
    var s := ChainSites(lib, m);
    SitesOnce(|m|, s, base, size);
    var a, b := Recorded(m, lib.segs, lib.Stream()), CF.DataSlots(s, base, size);
    forall p, q | 0 <= p < |a| && 0 <= q < |b| ensures a[p] != b[q] {
      assert a[p] in Named(lib, |m|);
      CF.DataSlotsMean(s, base, size, b[q]);
    }
  }

  lemma {:induction false} SitesOnce(len: nat, s: seq<CF.Site>, base: nat, size: nat)
    requires CF.DisjointSites(len, s)
    ensures NoRepeats(CF.DataSlots(s, base, size))
  {
    if s != [] {
      var n := |s| - 1;
      SitesOnce(len, s[..n], base, size);
      CF.DataSlotsMean(s[..n], base, size, s[n].slot);
      assert forall i :: 0 <= i < n ==> Disjoint(s[i].slot, 8, s[n].slot, 8);
    }
  }

  /** Everything the libraries record, each place once. */
  ghost predicate RecordsOf(m: seq<Byte>, libs: seq<Library>, base: nat, size: nat, r: seq<nat>)
  {
    && NoRepeats(r)
    && (forall off :: off in r ==> exists i :: 0 <= i < |libs| && MayRecord(m, libs[i], base, size, off))
    && (forall i, off :: 0 <= i < |libs| && MustRecord(m, libs[i], base, size, off) ==> off in r)
  }

  lemma {:induction false} RecordTouched(m: seq<Byte>, lib: Library, base: nat, size: nat, off: nat)
    ensures MayRecord(m, lib, base, size, off) ==> off in Touched(lib, m)
  {
    hide Named, ChainSites, Translates, Load;
  }

  lemma {:induction false} RecordSame(m: seq<Byte>, m': seq<Byte>, lib: Library, base: nat, size: nat, off: nat)
    requires Ready(lib, m) && SameWhereTouched(m, m', lib)
    ensures MayRecord(m', lib, base, size, off) == MayRecord(m, lib, base, size, off)
    ensures MustRecord(m', lib, base, size, off) == MustRecord(m, lib, base, size, off)
  {
    ReadyElsewhere(m, m', lib);
    hide Named, ChainSites, Translates, Load, DataOnly, Ready, NewWord;
    assert off in Named(lib, |m|) ==> off in Touched(lib, m);
  }

  /** The last library's records join those of the earlier ones. */
  lemma {:induction false} MoreRecords(m: seq<Byte>, m1: seq<Byte>, libs: seq<Library>, base: nat, size: nat,
                                       r: seq<nat>)
    requires libs != [] && Separate(libs, m) && RecordsOf(m, libs[..|libs| - 1], base, size, r)
    requires Ready(libs[|libs| - 1], m1) && SameWhereTouched(m, m1, libs[|libs| - 1])
    ensures RecordsOf(m, libs, base, size, r + Records(m1, libs[|libs| - 1], base, size))
  {
    hide Load, Touched, MayRecord, MustRecord, Records, Ready, SameWhereTouched, Separate;
    var n := |libs| - 1;
    var front, more := libs[..n], Records(m1, libs[n], base, size);
    assert forall i :: 0 <= i < n ==> front[i] == libs[i];
    LastReady(libs, m);
    RecordsOnce(m1, libs[n], base, size);
    forall off ensures off in more ==> MayRecord(m, libs[n], base, size, off)
               ensures MustRecord(m, libs[n], base, size, off) ==> off in more
    {
      RecordsMean(m1, libs[n], base, size, off);
      RecordSame(m, m1, libs[n], base, size, off);
    }
    forall off | off in r ensures exists i :: 0 <= i < n && MayRecord(m, libs[i], base, size, off) {
      var i :| 0 <= i < n && MayRecord(m, front[i], base, size, off);
      assert MayRecord(m, libs[i], base, size, off);
    }
    forall off | off in r ensures off !in more {
      var i :| 0 <= i < n && MayRecord(m, libs[i], base, size, off);
      OneRecorder(m, libs, i, n, base, size, off);
    }
    forall i, off | 0 <= i < |libs| && MustRecord(m, libs[i], base, size, off) ensures off in r + more {
      assert i < n ==> MustRecord(m, front[i], base, size, off);
    }
    forall off | off in r + more ensures exists i :: 0 <= i < |libs| && MayRecord(m, libs[i], base, size, off) {
      if off in more {
        assert MayRecord(m, libs[n], base, size, off);
      } else {
        assert off in r;
      }
    }
    JoinedOnce(r, more);
  }

  lemma {:induction false} JoinedOnce(r: seq<nat>, more: seq<nat>)
    requires NoRepeats(r) && NoRepeats(more) && forall off :: off in r ==> off !in more
    ensures NoRepeats(r + more)
  {
    forall p, q | 0 <= p < q < |r + more| ensures (r + more)[p] != (r + more)[q] {
      assert p < |r| ==> (r + more)[p] in r;
      assert q >= |r| ==> (r + more)[q] in more;
    }
  }

  lemma {:induction false} OneRecorder(m: seq<Byte>, libs: seq<Library>, i: nat, j: nat, base: nat, size: nat, off: nat)
    requires Separate(libs, m) && i < j < |libs| && MayRecord(m, libs[i], base, size, off)
    ensures !MayRecord(m, libs[j], base, size, off)
  {
    hide Load, Touched, MayRecord, Ready;
    RecordTouched(m, libs[i], base, size, off);
    RecordTouched(m, libs[j], base, size, off);
    assert off in Touched(libs[j], m) ==> Disjoint(off, 8, off, 8);
  }

  /** Fix up the libraries one after the other in the one buffer. */
  method FixLibraries(buf: array<Byte>, libs: seq<Library>, base: nat, size: nat) returns (recorded: seq<nat>)
    requires Separate(libs, buf[..])
    modifies buf
    ensures EachDone(old(buf[..]), buf[..], libs) && RecordsOf(old(buf[..]), libs, base, size, recorded)
  {
    hide Load, Touched, Records, NewWord, MayRecord, MustRecord, Done, SameWhereTouched, Ready, Separate, EachDone,
         RecordsOf;
    ghost var m := buf[..];
    recorded := [];
    NothingDone(m, base, size);
    assert libs[..0] == [];
    for i := 0 to |libs|
      invariant EachDone(m, buf[..], libs[..i]) && RecordsOf(m, libs[..i], base, size, recorded)
    {
      ghost var m1 := buf[..];
      PrefixSeparate(libs, m, i + 1);
      PrefixSeparate(libs, m, i);
      assert libs[..i + 1][..i] == libs[..i];
      TurnComes(m, m1, libs[..i + 1]);
      LastReady(libs[..i + 1], m);
      ReadyElsewhere(m, m1, libs[i]);
      var more := FixLibrary(buf, libs[i], base, size);
      OneMoreLibrary(m, m1, buf[..], libs[..i + 1]);
      MoreRecords(m, m1, libs[..i + 1], base, size, recorded);
      recorded := recorded + more;
    }
    assert libs[..|libs|] == libs;
  }

  lemma {:induction false} NothingDone(m: seq<Byte>, base: nat, size: nat)
    ensures EachDone(m, m, []) && RecordsOf(m, [], base, size, [])
  {
    hide Load, Touched, NewWord;
  }

  lemma {:induction false} PrefixSeparate(libs: seq<Library>, m: seq<Byte>, n: nat)
    requires Separate(libs, m) && n <= |libs|
    ensures Separate(libs[..n], m)
  {
    hide Touched;
    var front := libs[..n];
    assert forall i :: 0 <= i < n ==> front[i] == libs[i] && Ready(libs[i], m);
  }

  // ----- encoding and loading ------------------------------------------------------

  /** The builder's table of locations has a limit; later ones are not kept. */
  function Kept(r: seq<nat>): seq<nat> { if |r| <= MAX_REBASE_LOCS then r else r[..MAX_REBASE_LOCS] }

  /** Each slot holds what its library leaves there, slid. */
  ghost predicate Arrive(m: seq<Byte>, libs: seq<Library>, d: seq<Byte>, slots: seq<nat>, slide: nat)
  {
    forall i, off :: 0 <= i < |libs| && off in slots && off in Touched(libs[i], m) ==>
        ArriveAt(m, libs[i], d, off, slide)
  }

  ghost predicate ArriveAt(m: seq<Byte>, lib: Library, d: seq<Byte>, off: nat, slide: nat)
  {
    off + 8 <= |m| == |d| && Load(d, off, 8) == Slid(NewWord(m, lib, off), slide)
  }

  /** Every word a library leaves in a slot can be encoded. */
  ghost predicate AllEncode(m: seq<Byte>, libs: seq<Library>, slots: seq<nat>)
  {
    forall i, off :: 0 <= i < |libs| && off in slots && off in Touched(libs[i], m) ==> EncodesAt(m, libs[i], off)
  }

  ghost predicate EncodesAt(m: seq<Byte>, lib: Library, off: nat)
  {
    off + 8 <= |m| && EncodeValue(NewWord(m, lib, off)).Some?
  }

  /** None of them goes to the very base of the shared region. */
  ghost predicate NoneToBase(m: seq<Byte>, libs: seq<Library>, slots: seq<nat>)
  {
    forall i, off :: 0 <= i < |libs| && off in slots && off in Touched(libs[i], m) ==> NotToBase(m, libs[i], off)
  }

  ghost predicate NotToBase(m: seq<Byte>, lib: Library, off: nat)
  {
    off + 8 <= |m| && NewWord(m, lib, off) != VALUE_ADD
  }

  /** The loader visits every slot once, leaves every other byte as the fixups left it, and makes the
      pointers arrive. */
  ghost predicate LoadedArrive(m: seq<Byte>, libs: seq<Library>, fixed: seq<Byte>, e: seq<Byte>, slots: seq<nat>,
                               starts: seq<nat>,
                               base: nat, slide: nat)
  {
    var r := DecodePages(e, starts, base, 0, slide);
    r.Some? && r.value.1 == slots && OutsideSame(fixed, r.value.0, slots) && Arrive(m, libs, r.value.0, slots, slide)
  }

  ghost predicate SomeTouches(m: seq<Byte>, libs: seq<Library>, off: nat)
  {
    exists i :: 0 <= i < |libs| && off in Touched(libs[i], m)
  }

  /** Every slot is touched by a library, whose word it holds after the fixups. */
  ghost predicate Covered(m: seq<Byte>, libs: seq<Library>, fixed: seq<Byte>, slots: seq<nat>)
  {
    && EachDone(m, fixed, libs)
    && forall k :: 0 <= k < |slots| ==> SomeTouches(m, libs, slots[k])
  }

  lemma {:induction false} SlotsCovered(m: seq<Byte>, libs: seq<Library>, fixed: seq<Byte>, base: nat, size: nat,
                                        r: seq<nat>, slots: seq<nat>)
    requires EachDone(m, fixed, libs) && RecordsOf(m, libs, base, size, r) && SameMembers(slots, Kept(r))
    ensures Covered(m, libs, fixed, slots)
  {
    hide EachDone, Touched, MayRecord, MustRecord;
    forall k | 0 <= k < |slots| ensures SomeTouches(m, libs, slots[k]) {
      assert slots[k] in Kept(r) && slots[k] in r;
      var i :| 0 <= i < |libs| && MayRecord(m, libs[i], base, size, slots[k]);
      RecordTouched(m, libs[i], base, size, slots[k]);
      assert slots[k] in Touched(libs[i], m);
    }
  }

  lemma {:induction false} ArriveMeans(m: seq<Byte>, libs: seq<Library>, fixed: seq<Byte>, d: seq<Byte>,
                                       slots: seq<nat>, slide: nat)
    requires Covered(m, libs, fixed, slots) && |d| == |fixed|
    requires forall k :: 0 <= k < |slots| ==> InBounds(fixed, slots[k], 8)
    ensures Arrive(m, libs, d, slots, slide) <==> forall k :: 0 <= k < |slots| ==> SlidAt(fixed, d, slots[k], slide)
  {
    hide Load, Touched, NewWord, Slid;
    if Arrive(m, libs, d, slots, slide) {
      forall k | 0 <= k < |slots| ensures SlidAt(fixed, d, slots[k], slide) {
        assert SomeTouches(m, libs, slots[k]) && slots[k] in slots;
        var i :| 0 <= i < |libs| && slots[k] in Touched(libs[i], m);
        assert WordDone(m, fixed, libs[i], slots[k]) && ArriveAt(m, libs[i], d, slots[k], slide);
      }
    }
    if forall k :: 0 <= k < |slots| ==> SlidAt(fixed, d, slots[k], slide) {
      forall i, off | 0 <= i < |libs| && off in slots &&
          off in Touched(libs[i], m) ensures ArriveAt(m, libs[i], d, off, slide) {
        var k :| 0 <= k < |slots| && slots[k] == off;
        assert WordDone(m, fixed, libs[i], slots[k]) && SlidAt(fixed, d, slots[k], slide);
      }
    }
  }

  lemma {:induction false} EncodableMeans(m: seq<Byte>, libs: seq<Library>, fixed: seq<Byte>, slots: seq<nat>)
    requires Covered(m, libs, fixed, slots) && forall k :: 0 <= k < |slots| ==> InBounds(fixed, slots[k], 8)
    ensures Encodable(fixed, slots) <==> AllEncode(m, libs, slots)
    ensures NoneAtBase(fixed, slots) <==> NoneToBase(m, libs, slots)
  {
    hide Load, Touched, NewWord, EncodeValue;
    forall k | 0 <= k < |slots|
      ensures AllEncode(m, libs, slots) ==> EncodeValue(Load(fixed, slots[k], 8)).Some?
      ensures NoneToBase(m, libs, slots) ==> Load(fixed, slots[k], 8) != VALUE_ADD
    {
      assert SomeTouches(m, libs, slots[k]) && slots[k] in slots;
      var i :| 0 <= i < |libs| && slots[k] in Touched(libs[i], m);
      assert WordDone(m, fixed, libs[i], slots[k]);
      assert AllEncode(m, libs, slots) ==> EncodesAt(m, libs[i], slots[k]);
      assert NoneToBase(m, libs, slots) ==> NotToBase(m, libs[i], slots[k]);
    }
    forall i, off | 0 <= i < |libs| && off in slots && off in Touched(libs[i], m)
      ensures Encodable(fixed, slots) ==> EncodesAt(m, libs[i], off)
      ensures NoneAtBase(fixed, slots) ==> NotToBase(m, libs[i], off)
    {
      var k :| 0 <= k < |slots| && slots[k] == off;
      assert WordDone(m, fixed, libs[i], slots[k]);
    }
  }

  lemma {:induction false} LoadedMeans(m: seq<Byte>, libs: seq<Library>, fixed: seq<Byte>, e: seq<Byte>,
                                       slots: seq<nat>, starts: seq<nat>,
                                       base: nat, slide: nat)
    requires Covered(m, libs, fixed, slots) && forall k :: 0 <= k < |slots| ==> InBounds(fixed, slots[k], 8)
    ensures LoaderRecovers(fixed, e, slots, starts, base, slide) <==>
              LoadedArrive(m, libs, fixed, e, slots, starts, base, slide)
  {
    hide DecodePages, SlidAt, Arrive, Covered;
    var r := DecodePages(e, starts, base, 0, slide);
    if r.Some? && |r.value.0| == |fixed| {
      ArriveMeans(m, libs, fixed, r.value.0, slots, slide);
    }
  }

  /** All passes over pointers, for any number of libraries. The build succeeds exactly when every word
      left in a kept slot can be encoded. Then a loader at any slide ends with each such word slid,
      exactly when none of them is the base of the shared region. */
  method EncodePointers(buf: array<Byte>, libs: seq<Library>, base: nat, pages: nat)
    returns (ok: bool, starts: seq<nat>, slots: seq<nat>, recorded: seq<nat>, ghost fixed: seq<Byte>)
    requires Separate(libs, buf[..])
    requires forall i, off :: 0 <= i < |libs| && MayRecord(buf[..], libs[i], base, pages * PAGE_SZ, off) ==>
               DataSlot(buf.Length, off, base, pages)
    modifies buf
    ensures EachDone(old(buf[..]), fixed, libs) && RecordsOf(old(buf[..]), libs, base, pages * PAGE_SZ, recorded)
    ensures SameMembers(slots, Kept(recorded))
    ensures ok <==> AllEncode(old(buf[..]), libs, slots)
    ensures ok && NoneToBase(old(buf[..]), libs, slots) ==>
              forall slide: nat :: LoadedArrive(old(buf[..]), libs, fixed, buf[..], slots, starts, base, slide)
    ensures ok && !NoneToBase(old(buf[..]), libs, slots) ==>
              forall slide: nat :: VALUE_ADD + slide < WORD ==>
                !LoadedArrive(old(buf[..]), libs, fixed, buf[..], slots, starts, base, slide)
  {
    hide EachDone, RecordsOf, Separate, NoneToBase, EncodedUpTo, SlideInfo.Starts, LoaderRecovers, NoneAtBase, Apart,
         DecodePages, Slots,
         Encodable, LoadedArrive, AllEncode, Load, Pow2, MayRecord, Kept, Covered, DataSlot;
    ghost var m := buf[..];
    recorded := FixLibraries(buf, libs, base, pages * PAGE_SZ);
    fixed := buf[..];
    var kept := Kept(recorded);
    var locs := new nat[|kept|](i requires 0 <= i < |kept| => kept[i]);
    assert locs[..|kept|] == kept;
    KeptSlots(m, libs, base, pages, recorded, buf.Length);
    ok, starts, slots := GenerateSlideInfo(buf, locs, |kept|, base, pages);
    SlotsInBounds(buf.Length, slots, base, pages);
    SlotsCovered(m, libs, fixed, base, pages * PAGE_SZ, recorded, slots);
    EncodableMeans(m, libs, fixed, slots);
    Pow2Values();
    forall slide: nat
      ensures LoaderRecovers(fixed, buf[..], slots, starts, base, slide)
              <==> LoadedArrive(m, libs, fixed, buf[..], slots, starts, base, slide)
    {
      LoadedMeans(m, libs, fixed, buf[..], slots, starts, base, slide);
    }
  }

  lemma {:induction false} SlotsInBounds(len: nat, slots: seq<nat>, base: nat, pages: nat)
    requires Slots(len, slots, base, pages)
    ensures forall k :: 0 <= k < |slots| ==> slots[k] + 8 <= len
  {
  }

  /** What is kept is apart and in the data region. */
  lemma {:induction false} KeptSlots(m: seq<Byte>, libs: seq<Library>, base: nat, pages: nat, r: seq<nat>, len: nat)
    requires Separate(libs, m) && RecordsOf(m, libs, base, pages * PAGE_SZ, r)
    requires forall i, off :: 0 <= i < |libs| && MayRecord(m, libs[i], base, pages * PAGE_SZ, off) ==>
              DataSlot(len, off, base, pages)
    ensures Apart(set x | x in Kept(r)) && forall k :: 0 <= k < |Kept(r)| ==> DataSlot(len, Kept(r)[k], base, pages)
  {
    hide MayRecord, MustRecord, Touched, DataSlot, Ready;
    var kept := Kept(r);
    forall k | 0 <= k < |kept| ensures kept[k] in r && DataSlot(len, kept[k], base, pages) {
      assert kept[k] in r;
      var i :| 0 <= i < |libs| && MayRecord(m, libs[i], base, pages * PAGE_SZ, kept[k]);
    }
    forall a, b | a in kept && b in kept && a != b ensures Disjoint(a, 8, b, 8) {
      assert a in r && b in r;
      var i :| 0 <= i < |libs| && MayRecord(m, libs[i], base, pages * PAGE_SZ, a);
      var j :| 0 <= j < |libs| && MayRecord(m, libs[j], base, pages * PAGE_SZ, b);
      RecordTouched(m, libs[i], base, pages * PAGE_SZ, a);
      RecordTouched(m, libs[j], base, pages * PAGE_SZ, b);
      TouchedApart(m, libs, i, j, a, b);
    }
  }

  lemma {:induction false} TouchedApart(m: seq<Byte>, libs: seq<Library>, i: nat, j: nat, a: nat, b: nat)
    requires Separate(libs, m) && i < |libs| && j < |libs| && a in Touched(libs[i], m) && b in Touched(libs[j], m)
    requires a != b
    ensures Disjoint(a, 8, b, 8)
  {
    hide Touched;
    if i == j {
      assert Apart(Touched(libs[i], m));
    } else if j < i {
      assert Disjoint(b, 8, a, 8);
    }
  }

  // ----- the limit on locations ----------------------------------------------------

  /** Every recorded place becomes a slot exactly when the limit is not exceeded. */
  lemma {:induction false} WithinLimit(r: seq<nat>, slots: seq<nat>)
    requires NoRepeats(r) && SameMembers(slots, Kept(r))
    ensures (forall off :: off in r ==> off in slots) <==> |r| <= MAX_REBASE_LOCS
  {
    if |r| > MAX_REBASE_LOCS {
      var off := r[MAX_REBASE_LOCS];
      assert off in r && off !in Kept(r);
    }
  }

  /** A place beyond the limit comes out of the loader unslid. */
  lemma {:induction false} BeyondLimit(m: seq<Byte>, libs: seq<Library>, fixed: seq<Byte>, e: seq<Byte>,
                                       slots: seq<nat>, starts: seq<nat>,
                                       base: nat, slide: nat, i: nat, off: nat)
    requires Separate(libs, m) && EachDone(m, fixed, libs)
    requires LoadedArrive(m, libs, fixed, e, slots, starts, base, slide)
    requires forall k :: 0 <= k < |slots| ==> SomeTouches(m, libs, slots[k])
    requires i < |libs| && off in Touched(libs[i], m) && off !in slots
    ensures off + 8 <= |m| && DecodePages(e, starts, base, 0, slide).Some?
    ensures |DecodePages(e, starts, base, 0, slide).value.0| == |m|
    ensures Load(DecodePages(e, starts, base, 0, slide).value.0, off, 8) == NewWord(m, libs[i], off)
  {
    hide Load, Touched, NewWord, DecodePages, Separate, Arrive;
    var d := DecodePages(e, starts, base, 0, slide).value.0;
    assert WordDone(m, fixed, libs[i], off);
    forall k | off <= k < off + 8 ensures d[k] == fixed[k] {
      forall n | 0 <= n < |slots| ensures !(slots[n] <= k < slots[n] + 8) {
        assert SomeTouches(m, libs, slots[n]) && slots[n] in slots;
        var j :| 0 <= j < |libs| && slots[n] in Touched(libs[j], m);
        TouchedApart(m, libs, i, j, off, slots[n]);
      }
    }
    LoadCongruent(fixed, d, off, 8);
  }

  // ----- what the words mean -------------------------------------------------------

  /** The pointer a slot held, translated to its cache address. */
  function CachePointer(m: seq<Byte>, lib: Library, off: nat): int
    requires off + 8 <= |m|
  {
    Translate(lib.segs, Load(m, off, 8))
  }

  /** A recorded place that a stream names gets the cache address of what the pointer went to. */
  lemma {:induction false} NamedPointer(m: seq<Byte>, lib: Library, base: nat, size: nat, off: nat)
    requires Ready(lib, m) && off in Named(lib, |m|) && MayRecord(m, lib, base, size, off)
    ensures NewWord(m, lib, off) == CachePointer(m, lib, off) && 0 < CachePointer(m, lib, off) < WORD
  {
    hide Load, Named, ChainSites, NewWord, Rebased, Translates, SourceApartFromCache;
    NewWordNamed(m, lib, off);
    TranslatedInside(lib.segs, Load(m, off, 8));
  }

  lemma {:induction false} TranslatedInside(segs: seq<Seg>, v: nat)
    requires SourceApartFromCache(segs) && Translates(segs, v)
    ensures Rebased(segs, v) == Translate(segs, v) && 0 < Translate(segs, v) < WORD
  {
    var s := Find(segs, v).value;
    assert 0 < segs[s].cacheVmaddr && segs[s].cacheVmaddr + segs[s].vmsize <= WORD;
  }

  /** Addresses in the rooms of segments that are laid out can be encoded, whatever their high byte. */
  lemma {:induction false} RoomEncodes(segs: seq<Seg>, plan: Plan, n: nat, k: nat, high: nat)
    requires LaidOut(segs, plan) && Fits(plan) && plan.sizes.link <= 0x40_0000_0000 && n < |segs| && k < Room(segs[n])
    ensures EncodeValue(segs[n].cacheVmaddr + k + Shl(high, 56)).Some?
  {
    hide LaidOut, Room, EncodeValue, Pow2;
    SegmentInRegion(segs, plan, n);
    MaskShape();
    Encodes(segs[n].cacheVmaddr + k - VALUE_ADD, high);
  }

  /** What a library translates by its stream never makes a laid-out build abort. */
  lemma {:induction false} NamedEncodes(m: seq<Byte>, ds: seq<Dylib>, plan: Plan, lib: Library, i: nat, base: nat,
                                        size: nat, off: nat)
    requires LaidOut(Flat(ds), plan) && Fits(plan) && plan.sizes.link <= 0x40_0000_0000
    requires i < |ds| && lib.segs == ds[i].segs && forall j :: 0 <= j < |ds| ==> Readable(ds[j])
    requires Ready(lib, m) && off in Named(lib, |m|) && MayRecord(m, lib, base, size, off)
    ensures EncodesAt(m, lib, off)
  {
    hide Load, Named, ChainSites, NewWord, SourceApartFromCache, LaidOut, EncodeValue, Room, Flat, Readable;
    NamedPointer(m, lib, base, size, off);
    var v := Load(m, off, 8);
    var s := Find(lib.segs, v).value;
    AtPosition(ds, i, s);
    InsideRoom(lib.segs[s], v);
    RoomEncodes(Flat(ds), plan, Position(ds, i, s), v - lib.segs[s].origVmaddr, 0);
    assert Shl(0, 56) == 0;
  }

  lemma {:induction false} InsideRoom(seg: Seg, v: int)
    requires seg.Holds(v)
    ensures v - seg.origVmaddr < Room(seg)
  {
  }

  /** Nor does a chained rebase whose target is in a segment. */
  lemma {:induction false} ChainedEncodes(m: seq<Byte>, ds: seq<Dylib>, plan: Plan, lib: Library, i: nat, k: nat,
                                          s: nat)
    requires LaidOut(Flat(ds), plan) && Fits(plan) && plan.sizes.link <= 0x40_0000_0000
    requires i < |ds| && lib.segs == ds[i].segs && SourceDisjoint(lib.segs)
    requires forall j :: 0 <= j < |ds| ==> Readable(ds[j])
    requires Ready(lib, m) && k < |ChainSites(lib, m)| && s < |lib.segs|
    requires var site := ChainSites(lib, m)[k];
             site.slot + 8 <= |m| && site.cx.Valid() && !CF.IsBind(Load(m, site.slot, 8))
             && lib.segs[s].Holds(CF.SourceTarget(site.cx, Load(m, site.slot, 8)))
    ensures EncodesAt(m, lib, ChainSites(lib, m)[k].slot)
  {
    hide Load, Named, NewWord, SourceApartFromCache, LaidOut, EncodeValue, Room, Flat, Readable, ChainSites, CF.Fixup,
         CF.IsBind,
         CF.SourceTarget, SourceDisjoint, Pow2, CF.High8, Translate;
    SiteSegs(m, lib, k);
    var site := ChainSites(lib, m)[k];
    var raw := Load(m, site.slot, 8);
    NewWordAtSite(m, lib, k);
    AtPosition(ds, i, s);
    SegmentBelow(Flat(ds), plan, Position(ds, i, s));
    CF.RebaseReachesTarget(site.cx, raw, s);
    TargetPlace(lib.segs, s, CF.SourceTarget(site.cx, raw));
    InsideRoom(lib.segs[s], CF.SourceTarget(site.cx, raw));
    RoomEncodes(Flat(ds), plan, Position(ds, i, s), CF.SourceTarget(site.cx, raw) - lib.segs[s].origVmaddr,
                CF.High8(raw));
  }

  lemma {:induction false} TargetPlace(segs: seq<Seg>, s: nat, v: int)
    requires SourceDisjoint(segs) && s < |segs| && segs[s].Holds(v)
    ensures Translate(segs, v) == segs[s].cacheVmaddr + (v - segs[s].origVmaddr)
  {
    FindUnique(segs, s, v);
  }

  lemma {:induction false} SegmentBelow(segs: seq<Seg>, plan: Plan, n: nat)
    requires LaidOut(segs, plan) && Fits(plan) && plan.sizes.link <= 0x40_0000_0000 && n < |segs|
    ensures segs[n].cacheVmaddr + segs[n].vmsize <= Pow2(56)
  {
    hide LaidOut, Pow2;
    SegmentInRegion(segs, plan, n);
    MaskShape();
    Pow2Add(40, 16);
  }

  /** The sites of a library are read with its own segments. */
  lemma {:induction false} SitesOfLibrary(m: seq<Byte>, cx: CF.Context, starts: seq<CF.Starts>, k: nat)
    requires cx.Valid() && k <= |starts| && CF.LibrarySites(m, cx, starts, k).Found?
    ensures forall n :: 0 <= n < |CF.LibrarySites(m, cx, starts, k).sites| ==>
              CF.LibrarySites(m, cx, starts, k).sites[n].cx.segs == cx.segs
    decreases |starts| - k
  {
    if k < |starts| {
      SitesOfLibrary(m, cx, starts, k + 1);
    }
  }

  lemma {:induction false} SiteSegs(m: seq<Byte>, lib: Library, k: nat)
    requires Ready(lib, m) && k < |ChainSites(lib, m)|
    ensures ChainSites(lib, m)[k].cx.segs == lib.segs
  {
    hide CF.LibrarySites, SourceApartFromCache, Named, Apart;
    SitesOfLibrary(m, lib.Chains(), lib.starts, 0);
  }

  /** A chain slot that holds a rebase into one of the library's segments. */
  ghost predicate IntoSegment(m: seq<Byte>, lib: Library, site: CF.Site)
  {
    && site.slot + 8 <= |m| && site.cx.Valid() && !CF.IsBind(Load(m, site.slot, 8))
    && exists s :: 0 <= s < |lib.segs| && lib.segs[s].Holds(CF.SourceTarget(site.cx, Load(m, site.slot, 8)))
  }

  ghost predicate IntoSegments(m: seq<Byte>, lib: Library, slots: seq<nat>)
  {
    forall k :: 0 <= k < |ChainSites(lib, m)| && ChainSites(lib, m)[k].slot in slots ==>
      IntoSegment(m, lib, ChainSites(lib, m)[k])
  }

  /** A laid-out build never aborts, as long as chain slots hold rebases into segments. */
  lemma {:induction false} NeverAborts(m: seq<Byte>, ds: seq<Dylib>, plan: Plan, libs: seq<Library>, base: nat,
                                       size: nat, r: seq<nat>,
                                       slots: seq<nat>)
    requires LaidOut(Flat(ds), plan) && Fits(plan) && plan.sizes.link <= 0x40_0000_0000 && |libs| == |ds|
    requires forall i :: 0 <= i < |ds| ==> Readable(ds[i]) && libs[i].segs == ds[i].segs && SourceDisjoint(ds[i].segs)
    requires Separate(libs, m) && RecordsOf(m, libs, base, size, r) && SameMembers(slots, Kept(r))
    requires forall i :: 0 <= i < |libs| ==> IntoSegments(m, libs[i], slots)
    ensures AllEncode(m, libs, slots)
  {
    hide LaidOut, Flat, Readable, SourceDisjoint, MayRecord, MustRecord, EncodesAt, ChainSites, Named, Ready, Fits,
         IntoSegment;
    forall i, off | 0 <= i < |libs| && off in slots && off in Touched(libs[i], m) ensures EncodesAt(m, libs[i], off) {
      assert Ready(libs[i], m);
      assert off in Kept(r) && off in r;
      var j :| 0 <= j < |libs| && MayRecord(m, libs[j], base, size, off);
      RecordTouched(m, libs[j], base, size, off);
      assert j < i ==> Disjoint(off, 8, off, 8);
      assert i < j ==> Disjoint(off, 8, off, 8);
      if off in Named(libs[i], |m|) {
        NamedEncodes(m, ds, plan, libs[i], i, base, size, off);
      } else {
        assert IntoSegments(m, libs[i], slots);
        var k :| 0 <= k < |ChainSites(libs[i], m)| && ChainSites(libs[i], m)[k].slot == off;
        SiteEncodes(m, ds, plan, libs[i], i, k);
      }
    }
  }

  lemma {:induction false} SiteEncodes(m: seq<Byte>, ds: seq<Dylib>, plan: Plan, lib: Library, i: nat, k: nat)
    requires LaidOut(Flat(ds), plan) && Fits(plan) && plan.sizes.link <= 0x40_0000_0000
    requires i < |ds| && lib.segs == ds[i].segs && SourceDisjoint(lib.segs)
    requires forall j :: 0 <= j < |ds| ==> Readable(ds[j])
    requires Ready(lib, m) && k < |ChainSites(lib, m)| && IntoSegment(m, lib, ChainSites(lib, m)[k])
    ensures EncodesAt(m, lib, ChainSites(lib, m)[k].slot)
  {
    hide LaidOut, Flat, Readable, SourceDisjoint, EncodesAt, ChainSites, Ready, Fits, CF.IsBind, CF.SourceTarget, Load;
    var site := ChainSites(lib, m)[k];
    var s :| 0 <= s < |lib.segs| && lib.segs[s].Holds(CF.SourceTarget(site.cx, Load(m, site.slot, 8)));
    ChainedEncodes(m, ds, plan, lib, i, k, s);
  }

  /** The buffer after the copy pass: all segments laid out and copied into zeroes. */
  ghost predicate CopiedInto(ds: seq<Dylib>, plan: Plan, m: seq<Byte>)
  {
    && (forall j :: 0 <= j < |ds| ==> Readable(ds[j])) && LaidOut(Flat(ds), plan) && Fits(plan) && FileWithinMemory(ds)
    && exists zero: seq<Byte> :: AllZero(zero) && |zero| >= plan.End() && m == SpliceAll(zero, Flat(ds), Contents(ds))
  }

  ghost predicate AllZero(m: seq<Byte>)
  {
    forall k :: 0 <= k < |m| ==> m[k] == 0
  }

  /** A cache address, mapped through the cache, is the copy of the byte at source address `v` of segment
      `s` of library `i`: its file's byte, or zero fill. */
  ghost predicate ReachesByte(ds: seq<Dylib>, plan: Plan, m: seq<Byte>, i: nat, s: nat, v: int, addr: int)
  {
    && i < |ds| && Readable(ds[i]) && s < |ds[i].segs| && ds[i].segs[s].Holds(v)
    && var at, k := MapToFile(plan, addr), v - ds[i].segs[s].origVmaddr;
       && at.Some? && 0 <= at.value < |m|
       && m[at.value] == if k < ds[i].segs[s].filesize then LibraryContents(ds[i])[s][k] else 0
  }

  lemma {:induction false} TranslatedReaches(ds: seq<Dylib>, plan: Plan, m: seq<Byte>, i: nat, s: nat, v: nat)
    requires CopiedInto(ds, plan, m) && i < |ds| && SourceDisjoint(ds[i].segs) && s < |ds[i].segs|
    requires ds[i].segs[s].Holds(v)
    ensures ReachesByte(ds, plan, m, i, s, v, Translate(ds[i].segs, v))
  {
    hide SpliceAll, Contents, Flat, LaidOut, MapToFile, Translate, FileWithinMemory, Fits, SourceDisjoint;
    var zero: seq<Byte> :| AllZero(zero) && |zero| >= plan.End() && m == SpliceAll(zero, Flat(ds), Contents(ds));
    ReferentsPreserved(ds, plan, zero, i, s, v);
  }

  /** A pointer that arrived goes to the right byte: it is the slid cache address of what it pointed at,
      and that address is the copy of the byte there. */
  lemma {:induction false} PointerReachesByte(ds: seq<Dylib>, plan: Plan, m: seq<Byte>, lib: Library, d: seq<Byte>,
                                              base: nat, size: nat,
                                              slide: nat, i: nat, off: nat, s: nat)
    requires CopiedInto(ds, plan, m) && i < |ds| && lib.segs == ds[i].segs && SourceDisjoint(ds[i].segs)
    requires s < |ds[i].segs|
    requires Ready(lib, m) && off in Named(lib, |m|) && MayRecord(m, lib, base, size, off)
    requires ArriveAt(m, lib, d, off, slide)
    requires ds[i].segs[s].Holds(Load(m, off, 8))
    ensures Load(d, off, 8) == (CachePointer(m, lib, off) + slide) % WORD
    ensures ReachesByte(ds, plan, m, i, s, Load(m, off, 8), CachePointer(m, lib, off))
  {
    hide Load, Translate, SourceDisjoint, Named, NewWord, Ready, MayRecord, Pow2, CopiedInto, ReachesByte;
    NamedPointer(m, lib, base, size, off);
    Pow2Values();
    TranslatedReaches(ds, plan, m, i, s, Load(m, off, 8));
  }

  /** So does a chained rebase, its high byte put back. */
  lemma {:induction false} ChainedPointerReachesByte(ds: seq<Dylib>, plan: Plan, m: seq<Byte>, lib: Library,
                                                     d: seq<Byte>, slide: nat,
                                                     i: nat, k: nat, site: CF.Site, raw: nat, s: nat)
    requires CopiedInto(ds, plan, m) && plan.sizes.link <= 0x40_0000_0000
    requires i < |ds| && lib.segs == ds[i].segs && SourceDisjoint(ds[i].segs) && s < |ds[i].segs|
    requires Ready(lib, m) && k < |ChainSites(lib, m)| && site == ChainSites(lib, m)[k]
    requires site.cx.Valid() && ArriveAt(m, lib, d, site.slot, slide) && raw == Load(m, site.slot, 8)
    requires !CF.IsBind(raw) && ds[i].segs[s].Holds(CF.SourceTarget(site.cx, raw))
    ensures var addr := Translate(lib.segs, CF.SourceTarget(site.cx, raw));
            && 0 <= addr && Load(d, site.slot, 8) == Slid(addr + Shl(CF.High8(raw), 56), slide)
            && ReachesByte(ds, plan, m, i, s, CF.SourceTarget(site.cx, raw), addr)
  {
    hide Load, Flat, LaidOut, Translate, FileWithinMemory, Fits, SourceDisjoint, NewWord, Ready, ReachesByte, AllZero,
         SpliceAll,
         Pow2, CF.Fixup, CF.IsBind, CF.SourceTarget, CF.High8, ChainSites, Slid, Shl;
    SiteSegs(m, lib, k);
    NewWordAtSite(m, lib, k);
    AtPosition(ds, i, s);
    SegmentBelow(Flat(ds), plan, Position(ds, i, s));
    CF.RebaseReachesTarget(site.cx, raw, s);
    TargetPlace(lib.segs, s, CF.SourceTarget(site.cx, raw));
    TranslatedReaches(ds, plan, m, i, s, CF.SourceTarget(site.cx, raw));
  }
}
