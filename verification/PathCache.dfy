/** The extractor's cache of directories known to exist: an open-addressed hash set of paths,
    and the creation of parent directories with and without it. */
module PathCache {
  import opened Bits
  import opened Wrappers

  const EEXIST := 17
  const ENOMEM := 12
  const ENAMETOOLONG := 63

  // ----- linear probing ------------------------------------------------------------

  /** Slot number `k` of the probe sequence that starts at `pos`, wrapping around. */
  function Probe(pos: nat, k: nat, capacity: nat): nat
    requires pos < capacity && k < capacity
  {
    if pos + k < capacity then pos + k else pos + k - capacity
  }

  /** How many probes from `pos` it takes to reach slot `j`. */
  function Distance(pos: nat, j: nat, capacity: nat): nat
    requires pos < capacity && j < capacity
  {
    if pos <= j then j - pos else j + capacity - pos
  }

  lemma {:induction false} ProbeIsModular(pos: nat, k: nat, capacity: nat)
    requires pos < capacity && k < capacity
    ensures Probe(pos, k, capacity) == (pos + k) % capacity
  {
    DivModUnique(pos + k, capacity, if pos + k < capacity then 0 else 1, Probe(pos, k, capacity));
  }

  lemma {:induction false} ProbeReaches(pos: nat, j: nat, capacity: nat)
    requires pos < capacity && j < capacity
    ensures Distance(pos, j, capacity) < capacity && Probe(pos, Distance(pos, j, capacity), capacity) == j
  {
  }

  function Filled(slots: seq<Option<string>>): (n: nat)
    ensures n <= |slots|
  {
    if slots == [] then 0 else Filled(slots[1..]) + if slots[0].Some? then 1 else 0
  }

  lemma {:induction false} FilledAll(slots: seq<Option<string>>)
    requires Filled(slots) < |slots|
    ensures exists j :: 0 <= j < |slots| && slots[j].None?
  {
    if slots[0].None? {
      assert slots[0].None?;
    } else {
      FilledAll(slots[1..]);
      var j :| 0 <= j < |slots| - 1 && slots[1..][j].None?;
      assert slots[j + 1].None?;
    }
  }

  lemma {:induction false} FilledUpdate(slots: seq<Option<string>>, j: nat, path: string)
    requires j < |slots| && slots[j].None?
    ensures Filled(slots[j := Some(path)]) == Filled(slots) + 1
  {
    if j > 0 {
      FilledUpdate(slots[1..], j - 1, path);
      assert slots[j := Some(path)][1..] == slots[1..][j - 1 := Some(path)];
    } else {
      assert slots[0 := Some(path)][1..] == slots[1..];
    }
  }

  /** Every stored path is reached from its hash through filled slots only. */
  ghost predicate Reachable(slots: seq<Option<string>>, hash: string -> nat)
  {
    forall j, k ::
      0 <= j < |slots| && slots[j].Some? && 0 <= k < Distance(hash(slots[j].value) % |slots|, j, |slots|) ==>
      slots[Probe(hash(slots[j].value) % |slots|, k, |slots|)].Some?
  }

  ghost predicate NoDuplicates(slots: seq<Option<string>>)
  {
    forall i, j :: 0 <= i < j < |slots| && slots[i].Some? ==> slots[i] != slots[j]
  }

  ghost predicate InTable(slots: seq<Option<string>>, path: string)
  {
    Some(path) in slots
  }

  /** The first `n` probes for `path` found other paths. */
  ghost predicate Probed(slots: seq<Option<string>>, path: string, pos: nat, n: nat)
    requires pos < |slots|
  {
    && n <= |slots|
    && forall k :: 0 <= k < n ==> slots[Probe(pos, k, |slots|)].Some? && slots[Probe(pos, k, |slots|)] != Some(path)
  }

  /** An empty slot at probe `n`, or no slot left, means that the path is not stored. */
  lemma {:induction false} NotStored(slots: seq<Option<string>>, hash: string -> nat, path: string, n: nat)
    requires slots != [] && Reachable(slots, hash) && Probed(slots, path, hash(path) % |slots|, n)
    requires n == |slots| || slots[Probe(hash(path) % |slots|, n, |slots|)].None?
    ensures !InTable(slots, path)
  {
    var pos := hash(path) % |slots|;
    forall j | 0 <= j < |slots| ensures slots[j] != Some(path) {
      ProbeReaches(pos, j, |slots|);
    }
  }

  class Cache {
    const hash: string -> nat
    var slots: array<Option<string>>
    var count: nat

    ghost predicate Valid()
      reads this, slots
    {
      && Reachable(slots[..], hash) && NoDuplicates(slots[..])
      && count == Filled(slots[..]) && count * 2 <= slots.Length + 1
    }

    ghost predicate Has(path: string)
      reads this, slots
    {
      InTable(slots[..], path)
    }

    ghost function Stored(): iset<string>
      reads this, slots
    {
      iset path | Has(path)
    }

    constructor (h: string -> nat, capacity: nat)
      ensures hash == h && fresh(slots) && slots.Length == capacity && Valid() && forall path :: !Has(path)
      ensures count == 0
    {
      hash := h;
      slots := new Option<string>[capacity](_ => None);
      count := 0;
      new;
      AllEmpty(slots[..]);
    }

    /** True exactly for the stored paths, whatever the hash function. */
    method Contains(path: string) returns (found: bool)
      requires Valid()
      ensures found <==> Has(path)
    {
      if slots.Length == 0 {
        return false;
      }
      var pos := hash(path) % slots.Length;
      var i := 0;
      while i < slots.Length
        invariant 0 <= i <= slots.Length && Probed(slots[..], path, pos, i)
      {
        ProbeIsModular(pos, i, slots.Length);
        var idx := (pos + i) % slots.Length;
        if slots[idx].None? {
          NotStored(slots[..], hash, path, i);
          return false;
        }
        if slots[idx] == Some(path) {
          assert slots[..][idx] == Some(path);
          return true;
        }
        i := i + 1;
      }
      NotStored(slots[..], hash, path, i);
      found := false;
    }

    /** Store the path unless it is there already or the table is half full. */
    method Insert(path: string, memory: bool) returns (rc: nat)
      requires Valid()
      modifies this`count, slots
      ensures Valid()
      ensures forall p :: Has(p) <==> old(Has(p)) || (p == path && rc == 0 && old(count) * 2 < slots.Length)
      ensures rc == 0 || (rc == ENOMEM && !memory)
      ensures old(count) <= count <= old(count) + 1
    {
      if slots.Length == 0 || count * 2 >= slots.Length {
        return 0;
      }
      FilledAll(slots[..]);
      ghost var was := slots[..];
      var pos := hash(path) % slots.Length;
      var i := 0;
      while true
        invariant 0 <= i < slots.Length && slots[..] == was && count == old(count) && Probed(was, path, pos, i)
        decreases slots.Length - i
      {
        ProbeIsModular(pos, i, slots.Length);
        var idx := (pos + i) % slots.Length;
        if slots[idx].None? {
          if !memory {
            return ENOMEM;
          }
          NotStored(was, hash, path, i);
          InsertKeeps(was, hash, path, i);
          slots[idx] := Some(path);
          assert slots[..] == was[idx := Some(path)];
          count := count + 1;
          return 0;
        }
        if slots[idx] == Some(path) {
          assert was[idx] == Some(path);
          return 0;
        }
        EmptySlotLeft(was, path, pos, i + 1);
        i := i + 1;
      }
    }
  }

  lemma {:induction false} AllEmpty(slots: seq<Option<string>>)
    requires forall j :: 0 <= j < |slots| ==> slots[j] == None
    ensures Filled(slots) == 0
  {
    if slots != [] {
      AllEmpty(slots[1..]);
    }
  }

  /** Probing cannot run past the end while a slot is empty. */
  lemma {:induction false} EmptySlotLeft(slots: seq<Option<string>>, path: string, pos: nat, n: nat)
    requires pos < |slots| && Probed(slots, path, pos, n) && exists j :: 0 <= j < |slots| && slots[j].None?
    ensures n < |slots|
  {
    var j :| 0 <= j < |slots| && slots[j].None?;
    ProbeReaches(pos, j, |slots|);
  }

  lemma {:induction false} InsertKeeps(slots: seq<Option<string>>, hash: string -> nat, path: string, n: nat)
    requires slots != [] && Reachable(slots, hash) && NoDuplicates(slots) && !InTable(slots, path)
    requires n < |slots| && Probed(slots, path, hash(path) % |slots|, n)
    requires slots[Probe(hash(path) % |slots|, n, |slots|)].None?
    ensures var idx := Probe(hash(path) % |slots|, n, |slots|);
            var t := slots[idx := Some(path)];
            && Reachable(t, hash) && NoDuplicates(t) && Filled(t) == Filled(slots) + 1
            && forall p :: InTable(t, p) <==> InTable(slots, p) || p == path
  {
    var pos := hash(path) % |slots|;
    var idx := Probe(pos, n, |slots|);
    var t := slots[idx := Some(path)];
    FilledUpdate(slots, idx, path);
    forall p ensures InTable(t, p) <==> InTable(slots, p) || p == path {
      assert t[idx] == Some(path);
      if InTable(slots, p) {
        var j :| 0 <= j < |slots| && slots[j] == Some(p);
        assert t[j] == Some(p);
      }
    }
    forall j, k | 0 <= j < |t| && t[j].Some? && 0 <= k < Distance(hash(t[j].value) % |t|, j, |t|)
      ensures t[Probe(hash(t[j].value) % |t|, k, |t|)].Some?
    {
      if j == idx {
        assert k < n;
      }
    }
  }

  // ----- creating parent directories -----------------------------------------------

  /** `path` exists as far as mkdir can tell. */
  ghost predicate Exists<FS>(mkdir: (FS, string) -> (FS, nat), fs: FS, path: string)
  {
    mkdir(fs, path) == (fs, EEXIST)
  }

  /** What a mkdir that succeeds or finds something leaves behind exists, and nothing that exists is
      removed by making another directory. */
  ghost predicate NothingRemoved<FS(!new)>(mkdir: (FS, string) -> (FS, nat))
  {
    && (forall fs: FS, p :: mkdir(fs, p).1 == 0 || mkdir(fs, p).1 == EEXIST ==> Exists(mkdir, mkdir(fs, p).0, p))
    && (forall fs: FS, p, q :: Exists(mkdir, fs, p) ==> Exists(mkdir, mkdir(fs, q).0, p))
  }

  /** The simple form: make the directory of every prefix that ends before a slash. */
  function MakeParents<FS>(mkdir: (FS, string) -> (FS, nat), fs: FS, path: string, i: nat): (FS, nat)
    requires i <= |path|
    decreases |path| - i
  {
    if i == |path| then (fs, 0)
    else if path[i] != '/' then MakeParents(mkdir, fs, path, i + 1)
    else
      var (fs', errno) := mkdir(fs, path[..i]);
      if errno != 0 && errno != EEXIST then (fs', errno) else MakeParents(mkdir, fs', path, i + 1)
  }

  function EnsureSimple<FS>(mkdir: (FS, string) -> (FS, nat), fs: FS, path: string, pathMax: nat): (FS, nat)
    requires path != []
  {
    if |path| >= pathMax then (fs, ENAMETOOLONG) else MakeParents(mkdir, fs, path, 1)
  }

  // ----- what making the parents achieves ------------------------------------------

  /** `dir` is a proper prefix of `path`, not empty, that ends before a slash. */
  ghost predicate IsParent(path: string, dir: string)
  {
    0 < |dir| < |path| && path[..|dir|] == dir && path[|dir|] == '/'
  }

  /** All parents that end before position `i` exist. */
  ghost predicate ParentsExist<FS>(mkdir: (FS, string) -> (FS, nat), fs: FS, path: string, i: nat)
  {
    forall dir :: IsParent(path, dir) && |dir| < i ==> Exists(mkdir, fs, dir)
  }

  /** Making a directory makes nothing else exist. */
  ghost predicate MakesOnlyNamed<FS(!new)>(mkdir: (FS, string) -> (FS, nat))
  {
    forall fs: FS, p, q :: p != q && Exists(mkdir, mkdir(fs, p).0, q) ==> Exists(mkdir, fs, q)
  }

  /** Whatever is new is a parent of `path`. */
  ghost predicate OnlyParentsNew<FS>(mkdir: (FS, string) -> (FS, nat), before: FS, after: FS, path: string)
  {
    forall q :: Exists(mkdir, after, q) ==> Exists(mkdir, before, q) || IsParent(path, q)
  }

  /** Making a parent of `path` failed with this error and left this file system. */
  ghost predicate MakingFailed<FS(!new)>(mkdir: (FS, string) -> (FS, nat), path: string, fs: FS, rc: nat)
  {
    exists before: FS, dir :: IsParent(path, dir) && mkdir(before, dir) == (fs, rc) && rc != EEXIST
  }

  /** One more directory, made or known. */
  lemma {:induction false} OneParentMore<FS(!new)>(mkdir: (FS, string) -> (FS, nat), fs0: FS, fs: FS, fs': FS,
                                                   path: string, i: nat)
    requires 0 < i < |path| && path[i] == '/'
    requires fs' == mkdir(fs, path[..i]).0 || (fs' == fs && Exists(mkdir, fs, path[..i]))
    ensures NothingRemoved(mkdir) && ParentsExist(mkdir, fs, path, i) && Exists(mkdir, fs', path[..i]) ==>
              ParentsExist(mkdir, fs', path, i + 1)
    ensures MakesOnlyNamed(mkdir) && OnlyParentsNew(mkdir, fs0, fs, path) ==> OnlyParentsNew(mkdir, fs0, fs', path)
  {
    hide Exists;
    var here := path[..i];
    assert IsParent(path, here);
    if NothingRemoved(mkdir) && ParentsExist(mkdir, fs, path, i) && Exists(mkdir, fs', here) {
      forall dir | IsParent(path, dir) && |dir| < i + 1 ensures Exists(mkdir, fs', dir) {
        if |dir| == i {
          assert dir == here;
        } else {
          assert Exists(mkdir, fs, dir);
        }
      }
    }
    if MakesOnlyNamed(mkdir) && OnlyParentsNew(mkdir, fs0, fs, path) {
      forall q | Exists(mkdir, fs', q) ensures Exists(mkdir, fs0, q) || IsParent(path, q) {
        assert q != here ==> Exists(mkdir, fs, q);
      }
    }
  }

  /** The simple form, if it succeeds, leaves all parents behind, and it never makes anything else. */
  lemma {:induction false} MakesParents<FS(!new)>(mkdir: (FS, string) -> (FS, nat), fs0: FS, fs: FS, path: string,
                                                  i: nat)
    requires NothingRemoved(mkdir) && 0 < i <= |path| && ParentsExist(mkdir, fs, path, i)
    ensures var (end, rc) := MakeParents(mkdir, fs, path, i);
            && (rc == 0 ==> ParentsExist(mkdir, end, path, |path|))
            && (MakesOnlyNamed(mkdir) && OnlyParentsNew(mkdir, fs0, fs, path) ==>
                  OnlyParentsNew(mkdir, fs0, end, path))
    decreases |path| - i
  {
    hide NothingRemoved, MakesOnlyNamed, ParentsExist, OnlyParentsNew;
    if i < |path| {
      if path[i] != '/' {
        NoParentHere(mkdir, fs, path, i);
        MakesParents(mkdir, fs0, fs, path, i + 1);
      } else {
        var (fs', errno) := mkdir(fs, path[..i]);
        OneParentMore(mkdir, fs0, fs, fs', path, i);
        if errno == 0 || errno == EEXIST {
          MadeExists(mkdir, fs, path[..i]);
          MakesParents(mkdir, fs0, fs', path, i + 1);
        }
      }
    }
  }

  lemma {:induction false} NoParentHere<FS(!new)>(mkdir: (FS, string) -> (FS, nat), fs: FS, path: string, i: nat)
    requires i < |path| && path[i] != '/' && ParentsExist(mkdir, fs, path, i)
    ensures ParentsExist(mkdir, fs, path, i + 1)
  {
  }

  lemma {:induction false} MadeExists<FS(!new)>(mkdir: (FS, string) -> (FS, nat), fs: FS, dir: string)
    requires NothingRemoved(mkdir) && (mkdir(fs, dir).1 == 0 || mkdir(fs, dir).1 == EEXIST)
    ensures Exists(mkdir, mkdir(fs, dir).0, dir)
  {
  }

  /** If it fails, the parents before the failing one were made, and its error is the result. */
  lemma {:induction false} FirstFailure<FS>(mkdir: (FS, string) -> (FS, nat), fs: FS, path: string, i: nat)
    returns (j: nat)
    requires i <= |path| && MakeParents(mkdir, fs, path, i).1 != 0
    ensures i <= j < |path| && path[j] == '/' && MakeParents(mkdir, fs, path[..j], i).1 == 0
    ensures MakeParents(mkdir, fs, path, i) == mkdir(MakeParents(mkdir, fs, path[..j], i).0, path[..j])
    ensures MakeParents(mkdir, fs, path, i).1 != EEXIST
    decreases |path| - i
  {
    if path[i] == '/' && mkdir(fs, path[..i]).1 != 0 && mkdir(fs, path[..i]).1 != EEXIST {
      j := i;
    } else {
      var fs' := if path[i] == '/' then mkdir(fs, path[..i]).0 else fs;
      j := FirstFailure(mkdir, fs', path, i + 1);
      assert path[..j][i] == path[i] && path[..j][..i] == path[..i];
    }
  }

  ghost predicate AllExist<FS>(mkdir: (FS, string) -> (FS, nat), fs: FS, cache: Cache)
    reads cache, cache.slots
  {
    forall p :: cache.Has(p) ==> Exists(mkdir, fs, p)
  }

  /** Directories handed to mkdir for one path: parents, each longer than the one before. */
  ghost predicate Ascending(path: string, made: seq<string>, i: nat)
  {
    && (forall k :: 0 <= k < |made| ==> IsParent(path, made[k]) && |made[k]| < i)
    && forall k, l :: 0 <= k < l < |made| ==> |made[k]| < |made[l]|
  }

  /** Every parent that ends before position `i` was made or known. */
  ghost predicate MadeOrKnown(path: string, made: seq<string>, had: iset<string>, i: nat)
  {
    forall dir :: IsParent(path, dir) && |dir| < i ==> dir in made || dir in had
  }

  /** What is known is not made again. */
  ghost predicate NotAgain(made: seq<string>, had: iset<string>)
  {
    forall k :: 0 <= k < |made| ==> made[k] !in had
  }

  ghost predicate AllHeld(cache: Cache, made: seq<string>)
    reads cache, cache.slots
  {
    forall i :: 0 <= i < |made| ==> cache.Has(made[i])
  }

  ghost predicate AllIn(made: seq<string>, stored: iset<string>)
  {
    forall i :: 0 <= i < |made| ==> made[i] in stored
  }

  /** The account of the directories made so far, at position `i`: `had` is what the cache knew at first,
      `stored` what it knows now, `room` twice the number of paths it could take at first. */
  ghost predicate Account(path: string, made: seq<string>, i: nat, had: iset<string>, stored: iset<string>,
                          parentCache: bool, room: int)
  {
    && Ascending(path, made, i) && had <= stored
    && MadeOrKnown(path, made, if parentCache then had else iset{}, i)
    && (parentCache ==> NotAgain(made, had) && forall p :: p in stored ==> p in had || p in made)
    && (parentCache && 2 * |made| <= room ==> AllIn(made, stored))
  }

  /** One more position without a directory made. */
  lemma {:induction false} StepOver(path: string, made: seq<string>, had: iset<string>, i: nat)
    requires 0 < i < |path| && Ascending(path, made, i) && MadeOrKnown(path, made, had, i)
    ensures Ascending(path, made, i + 1)
    ensures path[i] != '/' || path[..i] in made || path[..i] in had ==> MadeOrKnown(path, made, had, i + 1)
    ensures path[i] == '/' ==> IsParent(path, path[..i])
  {
  }

  /** One more directory made. */
  lemma {:induction false} OneMade(path: string, made: seq<string>, had: iset<string>, i: nat)
    requires 0 < i < |path| && path[i] == '/' && Ascending(path, made, i) && MadeOrKnown(path, made, had, i)
    ensures Ascending(path, made + [path[..i]], i + 1) && MadeOrKnown(path, made + [path[..i]], had, i + 1)
    ensures NotAgain(made, had) && path[..i] !in had ==> NotAgain(made + [path[..i]], had)
    ensures Ascending(path, made + [path[..i]], |path|)
  {
  }

  /** The account after a position without a slash, a known directory or one that was made. */
  lemma {:induction false} AccountStep(path: string, made: seq<string>, i: nat, had: iset<string>,
                                       stored: iset<string>, stored': iset<string>, parentCache: bool, room: int)
    requires 0 < i < |path| && Account(path, made, i, had, stored, parentCache, room)
    ensures path[i] != '/' || (parentCache && path[..i] in stored) ==>
              Account(path, made, i + 1, had, stored, parentCache, room)
    ensures path[i] == '/' ==> IsParent(path, path[..i])
    ensures path[i] == '/' && !(parentCache && path[..i] in stored) && stored <= stored' <= stored + iset{path[..i]} &&
              (parentCache && 2 * (|made| + 1) <= room ==> path[..i] in stored') ==>
              Account(path, made + [path[..i]], i + 1, had, stored', parentCache, room)
  {
    hide IsParent;
    var dir, known := path[..i], if parentCache then had else iset{};
    StepOver(path, made, known, i);
    if path[i] == '/' {
      OneMade(path, made, known, i);
    }
  }

  /** A directory that could not be made, or not stored, ends the account. */
  lemma {:induction false} AccountEnds(path: string, made: seq<string>, i: nat, had: iset<string>,
                                       stored: iset<string>, parentCache: bool, room: int)
    requires 0 < i < |path| && path[i] == '/' && Account(path, made, i, had, stored, parentCache, room)
    requires !(parentCache && path[..i] in stored)
    ensures Ascending(path, made + [path[..i]], |path|)
    ensures parentCache ==> NotAgain(made + [path[..i]], had)
  {
    OneMade(path, made, if parentCache then had else iset{}, i);
  }

  /** One parent: known, or made and stored. */
  method VisitParent<FS(!new)>(mkdir: (FS, string) -> (FS, nat), fs0: FS, dir: string, cache: Cache,
                               parentCache: bool, memory: bool)
    returns (fs: FS, rc: nat, ghost made: bool)
    requires cache.Valid() && NothingRemoved(mkdir) && AllExist(mkdir, fs0, cache)
    modifies cache`count, cache.slots
    ensures cache.Valid() && AllExist(mkdir, fs, cache) && (rc == 0 ==> Exists(mkdir, fs, dir))
    ensures made <==> !(parentCache && old(cache.Has(dir)))
    ensures !made ==> fs == fs0 && rc == 0 && cache.Stored() == old(cache.Stored())
    ensures made ==> fs == mkdir(fs0, dir).0
    ensures made && mkdir(fs0, dir).1 != 0 && mkdir(fs0, dir).1 != EEXIST ==>
        rc == mkdir(fs0, dir).1 && cache.Stored() == old(cache.Stored())
    ensures made && (mkdir(fs0, dir).1 == 0 || mkdir(fs0, dir).1 == EEXIST) ==>
        rc == 0 || (parentCache && !memory && rc == ENOMEM)
    ensures old(cache.Stored()) <= cache.Stored() <= old(cache.Stored()) + iset{dir}
    ensures made && parentCache && rc == 0 && 2 * old(cache.count) < cache.slots.Length ==> dir in cache.Stored()
    ensures old(cache.count) <= cache.count <= old(cache.count) + (if made then 1 else 0)
  {
    hide NothingRemoved;
    fs, rc, made := fs0, 0, true;
    var known := false;
    if parentCache {
      known := cache.Contains(dir);
    }
    if known {
      made := false;
      return;
    }
    var (fs', errno) := mkdir(fs, dir);
    StillExist(mkdir, fs, dir, cache);
    fs := fs';
    if errno != 0 && errno != EEXIST {
      rc := errno;
    } else if parentCache {
      rc := cache.Insert(dir, memory);
    }
  }

  /** With the cache: same result and same file system as the simple form, unless memory runs out. */
  method EnsureParentDirs<FS(!new)>(mkdir: (FS, string) -> (FS, nat), fs0: FS, path: string, pathMax: nat,
                                        cache: Cache, parentCache: bool, memory: bool)
    returns (fs: FS, rc: nat, ghost made: seq<string>)
    requires path != [] && cache.Valid()
    requires NothingRemoved(mkdir) && AllExist(mkdir, fs0, cache)
    modifies cache`count, cache.slots
    ensures Ascending(path, made, |path|) && cache.count <= old(cache.count) + |made|
    ensures rc == 0 ==> MadeOrKnown(path, made, if parentCache then old(cache.Stored()) else iset{}, |path|)
    ensures parentCache ==> NotAgain(made, old(cache.Stored()))
    ensures parentCache && rc == 0 && 2 * (old(cache.count) + |made|) <= cache.slots.Length ==> AllHeld(cache, made)
    ensures old(cache.Stored()) <= cache.Stored()
    ensures cache.Valid() && AllExist(mkdir, fs, cache)
    ensures (fs, rc) == EnsureSimple(mkdir, fs0, path, pathMax) || (parentCache && !memory && rc == ENOMEM)
    ensures |path| >= pathMax ==> (fs, rc) == (fs0, ENAMETOOLONG)
    ensures rc == 0 ==> |path| < pathMax && ParentsExist(mkdir, fs, path, |path|)
    ensures rc != 0 && |path| < pathMax ==>
        MakingFailed(mkdir, path, fs, rc) || (parentCache && !memory && rc == ENOMEM)
    ensures MakesOnlyNamed(mkdir) ==> OnlyParentsNew(mkdir, fs0, fs, path)
  {
    hide MakesOnlyNamed;
    fs, made := fs0, [];
    if |path| >= pathMax {
      return fs, ENAMETOOLONG, made;
    }
    ghost var had, count := cache.Stored(), cache.count;
    ghost var room := cache.slots.Length - 2 * count;
    var i := 1;
    while i < |path|
      invariant 1 <= i <= |path|
      invariant cache.Valid() && AllExist(mkdir, fs, cache) && cache.count <= count + |made|
      invariant MakeParents(mkdir, fs, path, i) == MakeParents(mkdir, fs0, path, 1)
      invariant ParentsExist(mkdir, fs, path, i)
      invariant MakesOnlyNamed(mkdir) ==> OnlyParentsNew(mkdir, fs0, fs, path)
      invariant Account(path, made, i, had, cache.Stored(), parentCache, room)
    {
      hide NothingRemoved, ParentsExist, OnlyParentsNew, Account, Ascending, NotAgain, MadeOrKnown, IsParent, AllExist;
      if path[i] != '/' {
        NoParentHere(mkdir, fs, path, i);
        AccountStep(path, made, i, had, cache.Stored(), cache.Stored(), parentCache, room);
      } else {
        ghost var before, stored := fs, cache.Stored();
        ghost var new_;
        fs, rc, new_ := VisitParent(mkdir, fs, path[..i], cache, parentCache, memory);
        OneParentMore(mkdir, fs0, before, fs, path, i);
        AccountStep(path, made, i, had, stored, cache.Stored(), parentCache, room);
        if rc != 0 {
          AccountEnds(path, made, i, had, stored, parentCache, room);
          made := made + [path[..i]];
          return;
        }
        made := if new_ then made + [path[..i]] else made;
      }
      i := i + 1;
    }
    rc := 0;
  }

  lemma {:induction false} StillExist<FS(!new)>(mkdir: (FS, string) -> (FS, nat), fs: FS, dir: string, cache: Cache)
    requires NothingRemoved(mkdir) && AllExist(mkdir, fs, cache)
    ensures AllExist(mkdir, mkdir(fs, dir).0, cache)
    ensures mkdir(fs, dir).1 == 0 || mkdir(fs, dir).1 == EEXIST ==> Exists(mkdir, mkdir(fs, dir).0, dir)
  {
    forall p | cache.Has(p) ensures Exists(mkdir, mkdir(fs, dir).0, p) {
      assert Exists(mkdir, fs, p);
    }
  }

  // ----- a whole extraction --------------------------------------------------------

  /** An archive entry: one that does not match, one whose name is refused, one of a type that is only
      read over, and one to be extracted under a path. */
  datatype Entry = Skipped | Refused | ReadOver(ok: bool) | Named(path: string)

  /** Extracting an entry does not remove anything that exists, whether it fails or not. */
  ghost predicate KeepsExisting<FS(!new)>(mkdir: (FS, string) -> (FS, nat), extract: (FS, string) -> (FS, nat))
  {
    forall fs: FS, p, q :: Exists(mkdir, fs, p) ==> Exists(mkdir, extract(fs, q).0, p)
  }

  /** One entry the simple way: the parents, then the entry itself, and the first error of either. */
  function ExtractOne<FS>(mkdir: (FS, string) -> (FS, nat), extract: (FS, string) -> (FS, nat), fs: FS, path: string,
                          pathMax: nat): (FS, nat)
    requires path != []
  {
    var (fs', rc) := EnsureSimple(mkdir, fs, path, pathMax);
    if rc != 0 then (fs', rc) else extract(fs', path)
  }

  /** The simple extraction and its number of errors: a refused name is counted and passed over, a
      failing entry is counted and ends it. */
  function ExtractSimple<FS>(mkdir: (FS, string) -> (FS, nat), extract: (FS, string) -> (FS, nat), fs: FS,
                             entries: seq<Entry>, pathMax: nat,
                             errors: nat): (FS, nat)
    requires forall i :: 0 <= i < |entries| && entries[i].Named? ==> entries[i].path != []
    decreases |entries|
  {
    if entries == [] then (fs, errors)
    else
      match entries[0]
      case Skipped => ExtractSimple(mkdir, extract, fs, entries[1..], pathMax, errors)
      case Refused => ExtractSimple(mkdir, extract, fs, entries[1..], pathMax, errors + 1)
      case ReadOver(ok) => if ok then ExtractSimple(mkdir, extract, fs, entries[1..], pathMax, errors)
          else (fs, errors + 1)
      case Named(path) =>
        var (fs', rc) := ExtractOne(mkdir, extract, fs, path, pathMax);
        if rc != 0 then (fs', errors + 1) else ExtractSimple(mkdir, extract, fs', entries[1..], pathMax, errors)
  }

  /** An entry extracted without error was extracted where all its parents existed, and they still do. */
  lemma {:induction false} ExtractedUnderParents<FS(!new)>(mkdir: (FS, string) -> (FS, nat),
                                                           extract: (FS, string) -> (FS, nat), fs: FS, path: string,
                                                           pathMax: nat) returns (mid: FS)
    requires NothingRemoved(mkdir) && KeepsExisting(mkdir, extract) && path != []
    requires ExtractOne(mkdir, extract, fs, path, pathMax).1 == 0
    ensures ParentsExist(mkdir, mid, path, |path|)
    ensures ExtractOne(mkdir, extract, fs, path, pathMax) == extract(mid, path)
    ensures ParentsExist(mkdir, extract(mid, path).0, path, |path|)
  {
    mid := EnsureSimple(mkdir, fs, path, pathMax).0;
    assert ParentsExist(mkdir, fs, path, 1);
    hide ParentsExist, NothingRemoved;
    MakesParents(mkdir, fs, fs, path, 1);
    ParentsKept(mkdir, extract, mid, path, path);
  }

  lemma {:induction false} ParentsKept<FS(!new)>(mkdir: (FS, string) -> (FS, nat), extract: (FS, string) -> (FS, nat),
                                                 fs: FS, path: string, other: string)
    requires KeepsExisting(mkdir, extract) && ParentsExist(mkdir, fs, path, |path|)
    ensures ParentsExist(mkdir, extract(fs, other).0, path, |path|)
  {
    hide Exists;
  }

  /** Making more parents keeps the parents of another path. */
  lemma {:induction false} ParentsKeptByMaking<FS(!new)>(mkdir: (FS, string) -> (FS, nat), fs: FS, path: string,
                                                         other: string, i: nat)
    requires NothingRemoved(mkdir) && ParentsExist(mkdir, fs, path, |path|) && i <= |other|
    ensures ParentsExist(mkdir, MakeParents(mkdir, fs, other, i).0, path, |path|)
    decreases |other| - i
  {
    hide Exists;
    if i < |other| {
      if other[i] != '/' {
        ParentsKeptByMaking(mkdir, fs, path, other, i + 1);
      } else {
        var (fs', errno) := mkdir(fs, other[..i]);
        assert ParentsExist(mkdir, fs', path, |path|);
        if errno == 0 || errno == EEXIST {
          ParentsKeptByMaking(mkdir, fs', path, other, i + 1);
        }
      }
    }
  }

  /** The rest of an extraction keeps the parents of an earlier path, and never forgets an error. */
  lemma {:induction false} ExtractionKeeps<FS(!new)>(mkdir: (FS, string) -> (FS, nat),
                                                     extract: (FS, string) -> (FS, nat), fs: FS, entries: seq<Entry>,
                                                     pathMax: nat, errors: nat, path: string)
    requires NothingRemoved(mkdir) && KeepsExisting(mkdir, extract) && ParentsExist(mkdir, fs, path, |path|)
    requires forall i :: 0 <= i < |entries| && entries[i].Named? ==> entries[i].path != []
    ensures var (end, n) := ExtractSimple(mkdir, extract, fs, entries, pathMax, errors);
            ParentsExist(mkdir, end, path, |path|) && n >= errors
    decreases |entries|
  {
    hide ParentsExist, NothingRemoved, KeepsExisting;
    if entries != [] {
      match entries[0] {
        case Skipped => ExtractionKeeps(mkdir, extract, fs, entries[1..], pathMax, errors, path);
        case Refused => ExtractionKeeps(mkdir, extract, fs, entries[1..], pathMax, errors + 1, path);
        case ReadOver(ok) =>
          if ok {
            ExtractionKeeps(mkdir, extract, fs, entries[1..], pathMax, errors, path);
          }
        case Named(other) =>
          ParentsKeptByMaking(mkdir, fs, path, other, 1);
          var mid := EnsureSimple(mkdir, fs, other, pathMax).0;
          ParentsKept(mkdir, extract, mid, path, other);
          var (fs', rc) := ExtractOne(mkdir, extract, fs, other, pathMax);
          if rc == 0 {
            ExtractionKeeps(mkdir, extract, fs', entries[1..], pathMax, errors, path);
          }
      }
    }
  }

  /** After an extraction without errors the parents of every extracted entry exist, no name was refused and
      nothing failed to be read over. */
  ghost predicate AllExtracted<FS>(mkdir: (FS, string) -> (FS, nat), fs: FS, entries: seq<Entry>)
  {
    forall i :: 0 <= i < |entries| ==>
      && entries[i] != Refused && entries[i] != ReadOver(false)
      && (entries[i].Named? ==> ParentsExist(mkdir, fs, entries[i].path, |entries[i].path|))
  }

  lemma {:induction false} ErrorFree<FS(!new)>(mkdir: (FS, string) -> (FS, nat), extract: (FS, string) -> (FS, nat),
                                               fs: FS, entries: seq<Entry>, pathMax: nat, errors: nat)
    requires NothingRemoved(mkdir) && KeepsExisting(mkdir, extract)
    requires forall i :: 0 <= i < |entries| && entries[i].Named? ==> entries[i].path != []
    ensures var (end, n) := ExtractSimple(mkdir, extract, fs, entries, pathMax, errors);
            n >= errors && (n == errors ==> AllExtracted(mkdir, end, entries))
    decreases |entries|
  {
    hide ParentsExist, NothingRemoved, KeepsExisting, ExtractOne;
    if entries != [] {
      var rest := entries[1..];
      assert forall i :: 1 <= i < |entries| ==> entries[i] == rest[i - 1];
      match entries[0] {
        case Skipped => ErrorFree(mkdir, extract, fs, rest, pathMax, errors);
        case Refused => ErrorFree(mkdir, extract, fs, rest, pathMax, errors + 1);
        case ReadOver(ok) =>
          if ok {
            ErrorFree(mkdir, extract, fs, rest, pathMax, errors);
          }
        case Named(path) =>
          var (fs', rc) := ExtractOne(mkdir, extract, fs, path, pathMax);
          if rc == 0 {
            var _ := ExtractedUnderParents(mkdir, extract, fs, path, pathMax);
            ExtractionKeeps(mkdir, extract, fs', rest, pathMax, errors, path);
            ErrorFree(mkdir, extract, fs', rest, pathMax, errors);
          }
      }
    }
  }

  /** A whole extraction through one cache that starts with the existing root: the same file system and
      the same verdict as the simple one, whichever entries fail. */
  method ExtractCached<FS(!new)>(mkdir: (FS, string) -> (FS, nat), extract: (FS, string) -> (FS, nat), fs0: FS,
                                 root: string,
                                     entries: seq<Entry>, pathMax: nat, hash: string -> nat, capacity: nat)
    returns (fs: FS, rc: nat, ghost made: seq<string>)
    requires NothingRemoved(mkdir) && KeepsExisting(mkdir, extract) && Exists(mkdir, fs0, root)
    requires forall i :: 0 <= i < |entries| && entries[i].Named? ==> entries[i].path != []
    ensures var (simple, errors) := ExtractSimple(mkdir, extract, fs0, entries, pathMax, 0);
            fs == simple && rc == if errors == 0 then 0 else 1
    ensures rc == 0 ==> AllExtracted(mkdir, fs, entries)
    ensures 2 * (|made| + 1) <= capacity ==> NoneTwice(made)
  {
    ErrorFree(mkdir, extract, fs0, entries, pathMax, 0);
    var cache := new Cache(hash, capacity);
    var _ := cache.Insert(root, true);
    fs, made := fs0, [];
    var i, errors := 0, 0;
    assert entries[0..] == entries;
    while i < |entries|
      invariant 0 <= i <= |entries| && fresh(cache) && fresh(cache.slots)
      invariant cache.Valid() && AllExist(mkdir, fs, cache)
      invariant ExtractSimple(mkdir, extract, fs, entries[i..], pathMax,
                              errors) == ExtractSimple(mkdir, extract, fs0, entries, pathMax, 0)
      invariant cache.slots.Length == capacity && cache.count <= |made| + 1
      invariant 2 * (|made| + 1) <= capacity ==> NoneTwice(made) && AllHeld(cache, made)
    {
      hide NothingRemoved, KeepsExisting, AllExist, EnsureSimple, AllExtracted, NoneTwice, AllHeld, AllIn, NotAgain,
           Ascending;
      assert entries[i..][1..] == entries[i + 1..];
      var error := 0;
      match entries[i] {
        case Skipped =>
        case Refused => errors := errors + 1;
        case ReadOver(ok) => error := if ok then 0 else 1;
        case Named(path) =>
          ghost var more, had := [], cache.Stored();
          HeldIsStored(cache, made);
          fs, error, more := ExtractEntry(mkdir, extract, fs, path, pathMax, cache);
          if 2 * (|made + more| + 1) <= capacity {
            NoneTwiceAppend(cache, path, made, more, had);
          }
          made := made + more;
      }
      if error != 0 {
        return fs, 1, made;
      }
      i := i + 1;
    }
    rc := if errors == 0 then 0 else 1;
  }

  ghost predicate NoneTwice(made: seq<string>) { forall i, j :: 0 <= i < j < |made| ==> made[i] != made[j] }

  lemma {:induction false} HeldIsStored(cache: Cache, made: seq<string>)
    ensures AllHeld(cache, made) <==> AllIn(made, cache.Stored())
  {
  }

  /** One entry's directories more. */
  lemma {:induction false} NoneTwiceAppend(cache: Cache, path: string, made: seq<string>, more: seq<string>,
                                           had: iset<string>)
    requires NoneTwice(made) && AllIn(made, had) && Ascending(path, more, |path|) && NotAgain(more, had)
    requires had <= cache.Stored()
    ensures NoneTwice(made + more) && (AllHeld(cache, more) ==> AllHeld(cache, made + more))
  {
    forall i, j | 0 <= i < j < |made + more| ensures (made + more)[i] != (made + more)[j] {
      if i >= |made| {
        assert |more[i - |made|]| < |more[j - |made|]|;
      }
    }
  }

  /** One entry through the cache. */
  method ExtractEntry<FS(!new)>(mkdir: (FS, string) -> (FS, nat), extract: (FS, string) -> (FS, nat), fs0: FS,
                                path: string, pathMax: nat, cache: Cache)
    returns (fs: FS, rc: nat, ghost made: seq<string>)
    requires path != [] && cache.Valid()
    requires NothingRemoved(mkdir) && KeepsExisting(mkdir, extract) && AllExist(mkdir, fs0, cache)
    modifies cache`count, cache.slots
    ensures Ascending(path, made, |path|) && cache.count <= old(cache.count) + |made|
    ensures NotAgain(made, old(cache.Stored())) && old(cache.Stored()) <= cache.Stored()
    ensures rc == 0 && 2 * (old(cache.count) + |made|) <= cache.slots.Length ==> AllHeld(cache, made)
    ensures cache.Valid() && AllExist(mkdir, fs, cache)
    ensures (fs, rc) == ExtractOne(mkdir, extract, fs0, path, pathMax)
    ensures rc == 0 ==> ParentsExist(mkdir, fs, path, |path|)
  {
    hide ParentsExist;
    fs, rc, made := EnsureParentDirs(mkdir, fs0, path, pathMax, cache, true, true);
    if rc == 0 {
      ExtractKeeps(mkdir, extract, fs, path, cache);
      ParentsKept(mkdir, extract, fs, path, path);
      var (fs', error) := extract(fs, path);
      fs, rc := fs', error;
    }
  }

  lemma {:induction false} ExtractKeeps<FS(!new)>(mkdir: (FS, string) -> (FS, nat), extract: (FS, string) -> (FS, nat),
                                                  fs: FS, path: string, cache: Cache)
    requires KeepsExisting(mkdir, extract) && AllExist(mkdir, fs, cache)
    ensures AllExist(mkdir, extract(fs, path).0, cache)
  {
    forall p | cache.Has(p) ensures Exists(mkdir, extract(fs, path).0, p) {
      assert Exists(mkdir, fs, p);
    }
  }
}
