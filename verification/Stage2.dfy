/** The stage-2 page table object: `map_page`, `unmap_page`, `map`, `unmap` and
    drop over frame memory, specified by the partial function they maintain. */
module Stage2 {
  import opened Bits
  import opened Descriptor
  import opened Geometry
  import opened PageTree
  import opened TableDemand
  import opened TreeInPool
  import FramePool

  /** How `unmap` ends: done, at an address without a leaf, spinning on a
      misaligned leaf, or at the assertion on a leaf longer than the rest. */
  datatype UnmapEnd = Finished | Missing | Misaligned | Overrun

  ghost function Stop(xl: imap<nat, Xlate>, cut: nat, end: nat): UnmapEnd {
    if cut == end then Finished
    else if cut !in xl then Missing
    else if 1 <= xl[cut].level <= 5 && !Aligned(xl[cut].level, cut) then Misaligned
    else Overrun
  }

  /** A table before a mapping, for what the mapping is compared with. */
  datatype Before = Before(s: Frames, own: set<nat>, xl: imap<nat, Xlate>, free: nat, tab: Tables, dense: bool)

  /** What decides whether a region can be mapped: its addresses are free, no
      leftover table obstructs it, and the tables it lacks find frames. */
  ghost predicate Succeeds(m: Before, r: Region, level: nat)
    requires r.Mappable(4)
  {
    RegionFree(m.xl, r) && !Obstructed(r, m.tab) && |RegionKeys(r, level) - m.tab.Keys| <= m.free
  }

  lemma MapStarts(m: Before, r: Region, level: nat)
    requires r.Mappable(4)
    ensures IsCut(r, r.start) && m.xl + Slice(r, r.start, r.start) == m.xl && Untouched(m.xl, r.start, r.start)
    ensures Spent(m.free, m.tab.Keys, m.free, m.tab.Keys, {}, true, false)
    ensures {} + KeysFrom(r, level, r.start) == RegionKeys(r, level)
  {
    StartIsCut(r);
  }

  lemma MapEnds(m: Before, r: Region, level: nat, va: nat, free: nat, keys: set<Key>, done: set<Key>)
    requires r.Mappable(4) && va == r.End() && Untouched(m.xl, r.start, va)
    requires Spent(m.free, m.tab.Keys, free, keys, done, true, false)
    requires done + KeysFrom(r, level, va) == RegionKeys(r, level)
    requires Obstructed(r, m.tab) <==> BlockedFrom(r, m.tab, va)
    ensures Spent(m.free, m.tab.Keys, free, keys, RegionKeys(r, level), true, false) && Succeeds(m, r, level)
  {
    assert done == RegionKeys(r, level);
    SpentDecides(m.free, m.tab.Keys, free, keys, done, true, false);
  }

  lemma MapStops(m: Before, r: Region, level: nat, free: nat, keys: set<Key>, e: PagingError)
    requires r.Mappable(4) && 3 <= level
    requires Spent(m.free, m.tab.Keys, free, keys, RegionKeys(r, level), false, e == NoMemory)
    requires RegionFree(m.xl, r) && e != NoMemory ==> e == AlreadyMapped && Obstructed(r, m.tab)
    ensures !Succeeds(m, r, level)
    ensures Dense(m.xl, level, m.tab) && RegionFree(m.xl, r) ==> e == NoMemory
  {
    SpentDecides(m.free, m.tab.Keys, free, keys, RegionKeys(r, level), false, e == NoMemory);
    if Dense(m.xl, level, m.tab) && RegionFree(m.xl, r) {
      StartIsBoundary(r);
      DenseUnblocked(m.xl, level, m.tab, r, r.start);
    }
  }

  /** A written page in the accounts of the whole region. */
  lemma PageWritten(m: Before, n: Before, r: Region, level: nat, va: nat, l: nat, next: nat,
                    done: set<Key>, done': set<Key>, free: nat, keys: set<Key>)
    requires r.Mappable(4) && IsCut(r, va) && r.start <= va < r.End() && l == LeafLevel(r, va)
    requires next == va + Span(l) && Spent(m.free, m.tab.Keys, n.free, n.tab.Keys, done, true, false)
    requires done + KeysFrom(r, level, va) == RegionKeys(r, level) && done' == done + PathKeys(level, va, l)
    requires Spent(n.free, n.tab.Keys, free, keys, PathKeys(level, va, l), true, false) && !Below(n.tab, l, va)
    ensures Spent(m.free, m.tab.Keys, free, keys, done', true, false)
    ensures done' + KeysFrom(r, level, next) == RegionKeys(r, level)
    ensures BlockedFrom(r, m.tab, va) <==> BlockedFrom(r, m.tab, next)
  {
    CutBoundary(r, va);
    KeysMove(r, level, va, l, next, done, done');
    SpentThen(m.free, m.tab.Keys, n.free, n.tab.Keys, free, keys, done, PathKeys(level, va, l), true, false);
    NotBlockedHere(r, m.tab, n.tab, va, l, next);
  }

  /** A refused page in the accounts of the whole region. */
  lemma PageRefused(m: Before, n: Before, r: Region, level: nat, va: nat, l: nat, next: nat,
                    done: set<Key>, free: nat, keys: set<Key>, e: PagingError)
    requires r.Mappable(4) && IsCut(r, va) && r.start <= va < r.End() && l == LeafLevel(r, va)
    requires next == va + Span(l) && Spent(m.free, m.tab.Keys, n.free, n.tab.Keys, done, true, false)
    requires done + KeysFrom(r, level, va) == RegionKeys(r, level) && n.xl == m.xl + Slice(r, r.start, va)
    requires Spent(n.free, n.tab.Keys, free, keys, PathKeys(level, va, l), false, e == NoMemory)
    requires e != NoMemory && PageFree(n.xl, l, va) ==> e == AlreadyMapped && Below(n.tab, l, va)
    ensures Spent(m.free, m.tab.Keys, free, keys, RegionKeys(r, level), false, e == NoMemory)
    ensures RegionFree(m.xl, r) && e != NoMemory ==> e == AlreadyMapped && BlockedFrom(r, m.tab, va)
  {
    CutBoundary(r, va);
    KeysMove(r, level, va, l, next, done, done + PathKeys(level, va, l));
    SpentThen(m.free, m.tab.Keys, n.free, n.tab.Keys, free, keys, done, PathKeys(level, va, l), false, e == NoMemory);
    SpentWider(m.free, m.tab.Keys, free, keys, done + PathKeys(level, va, l), RegionKeys(r, level), e == NoMemory);
    if RegionFree(m.xl, r) && e != NoMemory {
      NextPageFree(m.xl, r, va, l);
      BlockedHere(r, level, m.tab, n.tab, va, l, next);
    }
  }

  /** A page that was written had no table left below it, before or now. */
  lemma NotBlockedHere(r: Region, tab0: Tables, tab: Tables, va: nat, l: nat, next: nat)
    requires r.Mappable(4) && r.start <= va < r.End() && l == LeafLevel(r, va) && next == va + Span(l)
    requires tab0.Keys <= tab.Keys && !Below(tab, l, va)
    ensures BlockedFrom(r, tab0, va) <==> BlockedFrom(r, tab0, next)
  {
    BlockedNext(r, tab0, va, next);
  }

  /** A table in the way was there before the mapping began. */
  lemma BlockedHere(r: Region, level: nat, tab0: Tables, tab: Tables, va: nat, l: nat, next: nat)
    requires r.Mappable(4) && Boundary(r, va) && va < r.End() && l == LeafLevel(r, va) && next == va + Span(l)
    requires tab.Keys <= tab0.Keys + RegionKeys(r, level) && Below(tab, l, va)
    ensures BlockedFrom(r, tab0, va)
  {
    NotOwnObstacle(r, level, va, l);
    BlockedNext(r, tab0, va, next);
  }

  lemma FirstPage(m: Before, n: Before, level: nat, va: nat, page: Result<()>)
    requires 3 <= level <= 4 && PageFree(m.xl, 2, va) && m.free >= level - 1
    requires Spent(m.free, m.tab.Keys, n.free, n.tab.Keys, PathKeys(level, va, 1), page.Ok?, page == Err(NoMemory))
    requires page.Err? && page.error != NoMemory && PageFree(m.xl, 1, va) ==> Below(m.tab, 1, va)
    ensures page.Ok?
  {
    EnoughForPage(level, va, 1, m.free, m.tab.Keys, n.free, n.tab.Keys, page.Ok?, page == Err(NoMemory));
    forall x: nat | x in m.xl ensures Num(1, x) != Num(1, va) { NumParent(1, x); NumParent(1, va); }
  }

  lemma BlockAbove(n: Before, level: nat, va: nat, free: nat, keys: set<Key>, block: Result<()>)
    requires PathKeys(level, va, 1) <= n.tab.Keys
    requires Spent(n.free, n.tab.Keys, free, keys, PathKeys(level, va, 2), block.Ok?, block == Err(NoMemory))
    ensures block != Err(NoMemory) && Below(n.tab, 2, va)
  {
    assert PathKeys(level, va, 2) <= PathKeys(level, va, 1);
    PathKey(level, va, 1, 1);
  }

  class PageTable {
    const pool: FramePool.Pool
    const level: nat
    var root: nat
    /** `intrm_tables`: the frames of the tables below the root. */
    var intrm: seq<nat>
    /** Where each table sits in the tree. */
    ghost var tab: Tables

    ghost function P(): Frames
      reads pool
    {
      Frames(pool.freeFrames, pool.liveFrames, pool.mem)
    }

    ghost function T(): Tree
      reads this, pool
    {
      Tree(P(), intrm, tab)
    }

    ghost predicate Valid()
      reads this, pool
    {
      var sound := pool.Valid() && Good(P(), root, level, intrm, tab);
      sound
    }

    ghost function Own(): set<nat>
      reads this
    {
      FrameSet(root, intrm)
    }

    ghost function Translation(): imap<nat, Xlate>
      reads this, pool
    {
      Trans(pool.mem, root, level)
    }

    /** Free frames and tables together: no operation changes their number. */
    ghost function Held(): nat
      reads this, pool
    {
      |pool.free| + |tab.Keys|
    }

    lemma PoolFacts()
      requires pool.Valid()
      ensures PoolOk(P())
    {
      pool.FrameFacts();
    }

    constructor (pool: FramePool.Pool, level: nat)
      requires pool.Valid() && pool.free != {} && 3 <= level <= 4
      modifies pool`free, pool`live, pool`freeFrames, pool`liveFrames, pool`mem
      ensures Valid() && this.pool == pool && this.level == level
      ensures Translation() == imap[]
      ensures Confined(old(Frames(pool.freeFrames, pool.liveFrames, pool.mem)), {}, P(), Own())
      ensures pool.base == old(pool.base) && pool.count == old(pool.count)
      ensures IsDense() && tab.Keys == {Key(level, 0)} && |pool.free| + 1 == |old(pool.free)|
    {
      ghost var s := Frames(pool.freeFrames, pool.liveFrames, pool.mem);
      var r := pool.NewZero();
      NewRoot(s, r.value, ZeroFrame());
      pool.FrameFacts();
      this.pool := pool;
      this.level := level;
      root := r.value;
      intrm := [];
      tab := map[Key(level, 0) := r.value];
      new;
      EmptyTree(pool.mem, root, level);
    }

    /** `next_table_mut_or_create` on the level `up` entry for `va`, which leads to level `m`. */
    method NextTableOrCreate(table: nat, va: nat, m: nat, up: nat, ghost top: nat, ghost parent: Key, ghost k: Key)
      returns (r: Result<nat>)
      requires Valid() && 1 <= m < level && m <= 3 && va < Limit(level) && up == m + 1 && top == m + 2
      requires parent == Key(up, Num(top, va)) && k == Key(m, Num(up, va))
      requires parent in tab && table == tab[parent]
      modifies this`intrm, this`tab, pool`free, pool`live, pool`freeFrames, pool`liveFrames, pool`mem
      ensures Valid() && Grew(root, level, old(T()), T(), va, m)
      ensures r.Ok? ==> k in tab && tab[k] == r.value
      ensures r.Err? ==> r.error in {NoMemory, MappedToHugePage}
      ensures r == Err(NoMemory) ==> pool.free == {} && k !in tab
      ensures Held() == old(Held())
      ensures r == Err(MappedToHugePage) ==> va in Translation() && Translation()[va].level == up
    {
      var index := Index(up, va);
      EntryAbove(pool.mem, root, level, tab, va, m, k, table, index);
      var d := Entry(pool.mem, table, index);
      ghost var t0 := T();
      if IsUnused(d) {
        r := AllocIntrmTable(table, index, k);
        assert OnPath(k, va, m);
        GrewByOne(root, level, t0, T(), va, m, k);
      } else {
        r := NextTable(d);
        GrewRefl(root, level, t0, va, m);
      }
    }

    /** Allocate a zeroed frame, record it in `intrm` and link it. */
    method AllocIntrmTable(table: nat, index: nat, ghost k: Key) returns (r: Result<nat>)
      requires Valid() && TablePlace(pool.mem, level, tab, k, table, index)
      modifies this`intrm, this`tab, pool`free, pool`live, pool`freeFrames, pool`liveFrames, pool`mem
      ensures Valid() && Confined(old(P()), old(Own()), P(), Own())
      ensures Translation() == old(Translation())
      ensures r.Ok? ==> k in tab && tab[k] == r.value && tab.Keys == old(tab).Keys + {k}
      ensures r.Err? ==> tab == old(tab) && pool.mem == old(pool.mem) && r.error == NoMemory && pool.free == {}
      ensures Held() == old(Held())
    {
      PoolFacts();
      ghost var s := P();
      var a := pool.NewZero();
      if a.None? {
        return Err(NoMemory);
      }
      LinkNewTable(table, index, a.value, k, s);
      r := Ok(a.value);
    }

    /** Record the zeroed frame `f` and link it from its parent's entry. */
    method LinkNewTable(table: nat, index: nat, f: nat, ghost k: Key, ghost s: Frames)
      requires pool.Valid() && PoolOk(s) && Good(s, root, level, intrm, tab) && f in s.free
      requires TablePlace(s.mem, level, tab, k, table, index)
      requires P() == Frames(s.free - {f}, s.live + {f}, s.mem[f := ZeroFrame()])
      modifies this`intrm, this`tab, pool`mem
      ensures Valid() && Confined(s, old(Own()), P(), Own())
      ensures Translation() == Trans(s.mem, root, level) && k in tab && tab[k] == f
      ensures tab.Keys == old(tab).Keys + {k} && |tab.Keys| == |old(tab).Keys| + 1
    {
      CreateTable(s, root, level, intrm, tab, k, table, index, f);
      pool.Write(table, index, SetTable(0, f));
      intrm, tab := intrm + [f], tab[k := f];
      assert tab.Keys == old(tab).Keys + {k};
    }

    /** `get_entry_mut_or_create`: the entry of size `l` for `va`. */
    method GetEntryOrCreate(va: nat, l: nat) returns (r: Result<Slot>)
      requires Valid() && va < Limit(level) && 1 <= l <= 3
      modifies this`intrm, this`tab, pool`free, pool`live, pool`freeFrames, pool`liveFrames, pool`mem
      ensures Valid() && Grew(root, level, old(T()), T(), va, l)
      ensures r.Ok? ==> Key(l, Num(l + 1, va)) in tab && r.value == Slot(tab[Key(l, Num(l + 1, va))], Num(l, va) % 512, l)
      ensures r.Err? ==> r.error in {NoMemory, MappedToHugePage}
      ensures Spent(old(|pool.free|), old(tab).Keys, |pool.free|, tab.Keys, PathKeys(level, va, l), r.Ok?, r == Err(NoMemory))
      ensures r == Err(MappedToHugePage) ==> va in Translation() && Translation()[va].level > l
    {
      ghost var t0, free0, k := T(), |pool.free|, Key(l, Num(l + 1, va));
      var t: Result<nat>;
      if l == 3 {
        t := Level3Table(va);
        SpentOnPath(root, level, t0, T(), va, 3, free0, |pool.free|, t.Ok?, t == Err(NoMemory));
        assert k == Key(3, Num(4, va));
      } else if l == 2 {
        t := Level2Table(va);
        SpentOnPath(root, level, t0, T(), va, 2, free0, |pool.free|, t.Ok?, t == Err(NoMemory));
        assert k == Key(2, Num(3, va));
      } else {
        assert l == 1;
        t := Level1Table(va);
        SpentOnPath(root, level, t0, T(), va, 1, free0, |pool.free|, t.Ok?, t == Err(NoMemory));
        assert k == Key(1, Num(2, va));
      }
      IndexIsNum(l, va);
      r := if t.Ok? then Ok(Slot(t.value, Index(l, va), l)) else Err(t.error);
    }

    /** The root of a three-level table, or its child in a four-level one. */
    method Level3Table(va: nat) returns (r: Result<nat>)
      requires Valid() && va < Limit(level)
      modifies this`intrm, this`tab, pool`free, pool`live, pool`freeFrames, pool`liveFrames, pool`mem
      ensures Valid() && Grew(root, level, old(T()), T(), va, 3) && Held() == old(Held())
      ensures r.Ok? ==> Key(3, Num(4, va)) in tab && tab[Key(3, Num(4, va))] == r.value
      ensures r.Err? ==> r.error in {NoMemory, MappedToHugePage}
      ensures r == Err(NoMemory) ==> pool.free == {} && Gap(level, tab, va, 3)
      ensures r == Err(MappedToHugePage) ==> va in Translation() && Translation()[va].level > 3
    {
      GrewRefl(root, level, T(), va, 3);
      Closed(pool.mem, root, level, tab, va);
      if level == 4 {
        r := NextTableOrCreate(root, va, 3, 4, 5, Key(4, Num(5, va)), Key(3, Num(4, va)));
      } else {
        r := Ok(root);
      }
    }

    method Level2Table(va: nat) returns (r: Result<nat>)
      requires Valid() && va < Limit(level)
      modifies this`intrm, this`tab, pool`free, pool`live, pool`freeFrames, pool`liveFrames, pool`mem
      ensures Valid() && Grew(root, level, old(T()), T(), va, 2) && Held() == old(Held())
      ensures r.Ok? ==> Key(2, Num(3, va)) in tab && tab[Key(2, Num(3, va))] == r.value
      ensures r.Err? ==> r.error in {NoMemory, MappedToHugePage}
      ensures r == Err(NoMemory) ==> pool.free == {} && Gap(level, tab, va, 2)
      ensures r == Err(MappedToHugePage) ==> va in Translation() && Translation()[va].level > 2
    {
      ghost var t0 := T();
      var p3 := Level3Table(va);
      ghost var t1 := T();
      if p3.Err? {
        WeakerPath(root, level, t0, t1, va, 3, 2);
        return p3;
      }
      r := NextTableOrCreate(p3.value, va, 2, 3, 4, Key(3, Num(4, va)), Key(2, Num(3, va)));
      GrewTrans(root, level, t0, t1, T(), va, 3, 2);
    }

    method Level1Table(va: nat) returns (r: Result<nat>)
      requires Valid() && va < Limit(level)
      modifies this`intrm, this`tab, pool`free, pool`live, pool`freeFrames, pool`liveFrames, pool`mem
      ensures Valid() && Grew(root, level, old(T()), T(), va, 1) && Held() == old(Held())
      ensures r.Ok? ==> Key(1, Num(2, va)) in tab && tab[Key(1, Num(2, va))] == r.value
      ensures r.Err? ==> r.error in {NoMemory, MappedToHugePage}
      ensures r == Err(NoMemory) ==> pool.free == {} && Gap(level, tab, va, 1)
      ensures r == Err(MappedToHugePage) ==> va in Translation() && Translation()[va].level > 1
    {
      ghost var t0 := T();
      var p2 := Level2Table(va);
      ghost var t1 := T();
      if p2.Err? {
        WeakerPath(root, level, t0, t1, va, 2, 1);
        return p2;
      }
      r := NextTableOrCreate(p2.value, va, 1, 2, 3, Key(2, Num(3, va)), Key(1, Num(2, va)));
      GrewTrans(root, level, t0, t1, T(), va, 2, 1);
    }

    ghost predicate IsDense()
      reads this, pool
    {
      Dense(Translation(), level, tab)
    }

    /** `map_page`: one page of size `l`. It succeeds exactly when its addresses are
        free, no table is left below its entry, and the tables it lacks find frames. */
    method MapPage(va: nat, l: nat, paddr: nat, flags: MemFlags) returns (r: Result<()>)
      requires Valid() && va < Limit(level) && 1 <= l <= 3
      modifies this`intrm, this`tab, pool`free, pool`live, pool`freeFrames, pool`liveFrames, pool`mem
      ensures Valid() && Confined(old(P()), old(Own()), P(), Own())
      ensures r.Ok? ==> LeafWord(Base(l, paddr), flags, l != 1) != 0
                        && Translation() == old(Translation()) + Block(l, va, LeafWord(Base(l, paddr), flags, l != 1))
      ensures r.Err? ==> Translation() == old(Translation())
      ensures Spent(old(|pool.free|), old(tab).Keys, |pool.free|, tab.Keys, PathKeys(level, va, l), r.Ok?, r == Err(NoMemory))
      ensures r.Ok? ==> PageFree(old(Translation()), l, va) && !Below(old(tab), l, va)
      ensures r.Err? && r.error != NoMemory && PageFree(old(Translation()), l, va) ==>
                r.error == AlreadyMapped && Below(old(tab), l, va)
      ensures r.Ok? && old(IsDense()) ==> IsDense()
    {
      ghost var t0 := T();
      var e := GetEntryOrCreate(va, l);
      if e.Err? {
        return Err(e.error);
      }
      var slot := e.value;
      if !IsUnused(Entry(pool.mem, slot.table, slot.index)) {
        EntryTaken(root, level, t0, T(), va, l, slot.table, slot.index);
        return Err(AlreadyMapped);
      }
      FillSlot(slot, va, paddr, flags, t0);
      r := Ok(());
    }

    /** `set_addr` and `set_flags` on an unused entry. */
    method FillSlot(slot: Slot, va: nat, paddr: nat, flags: MemFlags, ghost t0: Tree)
      requires Valid() && va < Limit(level) && 1 <= slot.level <= 3
      requires Key(slot.level, Num(slot.level + 1, va)) in tab
      requires slot.table == tab[Key(slot.level, Num(slot.level + 1, va))] && slot.index == Num(slot.level, va) % 512
      requires Entry(pool.mem, slot.table, slot.index) == 0
      requires Grew(root, level, t0, T(), va, slot.level)
      modifies pool`mem
      ensures Valid() && Confined(t0.s, FrameSet(root, t0.intrm), P(), Own())
      ensures var d := LeafWord(Base(slot.level, paddr), flags, slot.level != 1);
              d != 0 && Translation() == Trans(t0.s.mem, root, level) + Block(slot.level, va, d)
      ensures PageFree(Trans(t0.s.mem, root, level), slot.level, va) && !Below(t0.tab, slot.level, va)
      ensures Dense(Trans(t0.s.mem, root, level), level, t0.tab) ==> IsDense()
    {
      var l := slot.level;
      var d := LeafWord(Base(l, paddr), flags, l != 1);
      LeafBlock(l, va, paddr, flags);
      EmptyEntry(pool.mem, root, level, tab, va, l, slot.table, slot.index);
      FillEntry(t0, T(), root, level, va, l, slot.table, slot.index, d);
      pool.Write(slot.table, slot.index, d);
    }

    /** `query`. */
    method QueryAddress(va: nat) returns (r: Result<Xlate>)
      requires Valid() && va < Limit(level)
      ensures r == if va in Translation() then Ok(Translation()[va]) else Err(NotMapped)
    {
      QueryIsTrans(pool.mem, root, level, tab, va);
      r := Query(pool.mem, root, level, va);
    }

    /** `unmap_page`: clears the leaf over `va`, whatever its size. */
    method UnmapPage(va: nat) returns (r: Result<(nat, nat)>)
      requires Valid() && va < Limit(level)
      modifies pool`mem
      ensures Valid() && Confined(old(P()), old(Own()), P(), Own())
      ensures r.Err? ==> r.error == NotMapped && va !in Translation() && Translation() == old(Translation())
      ensures r.Ok? ==> va in old(Translation()) && r.value.1 == old(Translation())[va].level && 1 <= r.value.1 <= 3
                        && r.value.0 + (va - Base(r.value.1, va)) == old(Translation())[va].paddr
                        && Translation() == WithoutBlock(old(Translation()), r.value.1, va)
    {
      ClearEntry(P(), root, level, intrm, tab, va);
      var e := GetEntry(pool.mem, root, level, va);
      if e.Err? {
        return Err(e.error);
      }
      var slot := e.value;
      var d := Entry(pool.mem, slot.table, slot.index);
      if IsUnused(d) {
        return Err(NotMapped);
      }
      pool.Write(slot.table, slot.index, 0);
      r := Ok((Addr(d), slot.level));
    }

    /** `update`: writes a leaf where the walk stops. A mapped address keeps its leaf
        size; for an unmapped one the whole hole becomes a leaf, since nothing is
        checked. It fails exactly when there is no table at level 3. */
    method Update(va: nat, paddr: nat, flags: MemFlags) returns (r: Result<nat>)
      requires Valid() && va < Limit(level)
      modifies pool`mem
      ensures Valid() && Confined(old(P()), old(Own()), P(), Own())
      ensures r.Err? <==> Key(3, Num(4, va)) !in tab
      ensures r.Err? ==> r.error == NotMapped && va !in Translation() && Translation() == old(Translation())
      ensures va in old(Translation()) ==> r == Ok(old(Translation())[va].level)
      ensures r.Ok? ==> 1 <= r.value <= 3 && (va !in old(Translation()) ==> PageFree(old(Translation()), r.value, va))
      ensures r.Ok? ==> var l := r.value; var d := LeafWord(paddr, flags, l != 1);
                && d != 0 && Translation() == old(Translation()) + Block(l, va, d)
                && va in Translation()
                && Translation()[va] == ByLeaf(l, va, paddr, AccessOf(flags))
    {
      var e := GetEntry(pool.mem, root, level, va);
      if Key(3, Num(4, va)) in tab {
        UpdateEntry(P(), root, level, intrm, tab, va, Depth(tab, va), paddr, flags);
      } else {
        NoPath(P(), root, level, intrm, tab, va);
      }
      if e.Err? {
        return Err(e.error);
      }
      var slot := e.value;
      var d := Entry(pool.mem, slot.table, slot.index);
      pool.Write(slot.table, slot.index, SetFlags(SetAddr(d, paddr), flags, slot.level != 1));
      r := Ok(slot.level);
    }

    ghost function Now(): Before
      reads this, pool
    {
      Before(P(), Own(), Translation(), |pool.free|, tab, IsDense())
    }

    /** The region is mapped up to `va`; `done` are the tables its leaves so far need. */
    ghost predicate MappedTo(m: Before, r: Region, va: nat, done: set<Key>)
      requires r.Mappable(4)
      reads this, pool
    {
      var reached :=
        && Valid() && Confined(m.s, m.own, P(), Own())
        && IsCut(r, va) && r.start <= va <= r.End()
        && Translation() == m.xl + Slice(r, r.start, va) && Untouched(m.xl, r.start, va)
        && Spent(m.free, m.tab.Keys, |pool.free|, tab.Keys, done, true, false)
        && done + KeysFrom(r, level, va) == RegionKeys(r, level)
        && (Obstructed(r, m.tab) <==> BlockedFrom(r, m.tab, va))
        && (m.dense ==> IsDense());
      reached
    }

    /** The mapping stopped before `va`. */
    ghost predicate StoppedAt(m: Before, r: Region, va: nat, e: PagingError)
      requires r.Mappable(4)
      reads this, pool
    {
      var stopped :=
        && Valid() && Confined(m.s, m.own, P(), Own())
        && IsCut(r, va) && r.start <= va < r.End()
        && Translation() == m.xl + Slice(r, r.start, va) && Untouched(m.xl, r.start, va)
        && Spent(m.free, m.tab.Keys, |pool.free|, tab.Keys, RegionKeys(r, level), false, e == NoMemory)
        && (RegionFree(m.xl, r) && e != NoMemory ==> e == AlreadyMapped && Obstructed(r, m.tab));
      stopped
    }

    /** `map`: page after page, the largest size that fits. Whatever happens, a
        prefix `[start, cut)` of the region is mapped and nothing else changes. It
        succeeds exactly when the region is free, no leftover table obstructs one of
        its leaves, and there are frames for the tables it lacks. */
    method Map(r: Region) returns (res: Result<()>, ghost cut: nat)
      requires Valid() && r.Mappable(level)
      modifies this`intrm, this`tab, pool`free, pool`live, pool`freeFrames, pool`liveFrames, pool`mem
      ensures Valid() && Confined(old(P()), old(Own()), P(), Own())
      ensures r.Mappable(4) && IsCut(r, cut) && r.start <= cut <= r.End()
      ensures Translation() == old(Translation()) + Slice(r, r.start, cut) && MappedUpTo(r, cut, Translation())
      ensures Untouched(old(Translation()), r.start, cut)
      ensures res.Ok? <==> cut == r.End()
      ensures Spent(old(|pool.free|), old(tab).Keys, |pool.free|, tab.Keys, RegionKeys(r, level), res.Ok?, res == Err(NoMemory))
      ensures Succeeds(old(Now()), r, level) <==> res.Ok?
      ensures RegionFree(old(Translation()), r) && res.Err? && res.error != NoMemory ==>
                res.error == AlreadyMapped && Obstructed(r, old(tab))
      ensures old(IsDense()) && RegionFree(old(Translation()), r) && res.Err? ==> res.error == NoMemory
      ensures old(IsDense()) && res.Ok? ==> IsDense()
    {
      MappableAtFour(r, level);
      ghost var m := Now();
      ghost var done;
      res, cut, done := MapPages(r, m);
      if res.Ok? {
        MapEnds(m, r, level, cut, |pool.free|, tab.Keys, done);
      } else {
        MapStops(m, r, level, |pool.free|, tab.Keys, res.error);
      }
      SliceIsMapped(m.xl, r, cut);
    }

    /** The loop of `map`. */
    method MapPages(r: Region, ghost m: Before) returns (res: Result<()>, ghost cut: nat, ghost done: set<Key>)
      requires r.Mappable(level) && r.Mappable(4) && Valid() && m == Now()
      modifies this`intrm, this`tab, pool`free, pool`live, pool`freeFrames, pool`liveFrames, pool`mem
      ensures r.start <= cut <= r.End() && (res.Ok? <==> cut == r.End())
      ensures if res.Ok? then MappedTo(m, r, cut, done) else StoppedAt(m, r, cut, res.error)
    {
      MapStarts(m, r, level);
      done := {};
      var va: nat, size: nat := r.start, r.size;
      while size > 0
        invariant va + size == r.End() && r.start <= va
        invariant MappedTo(m, r, va, done)
      {
        var page;
        page, done := MapNext(r, va, size, m, done);
        if page.Err? {
          return Err(page.error), va, done;
        }
        va, size := page.value, size - (page.value - va);
      }
      return Ok(()), va, done;
    }

    /** One round of `map`; the address after the page. */
    method MapNext(r: Region, va: nat, size: nat, ghost m: Before, ghost done: set<Key>)
      returns (page: Result<nat>, ghost done': set<Key>)
      requires r.Mappable(level) && r.Mappable(4) && MappedTo(m, r, va, done) && size > 0 && va + size == r.End()
      modifies this`intrm, this`tab, pool`free, pool`live, pool`freeFrames, pool`liveFrames, pool`mem
      ensures page.Ok? ==> va < page.value <= r.End() && MappedTo(m, r, page.value, done')
      ensures page.Err? ==> StoppedAt(m, r, va, page.error)
    {
      var l := PickLevel(r, va, size);
      var next: nat := va + Span(l);
      CutBoundary(r, va);
      PickIsLeafLevel(r, va, size);
      MapRound(r, va, l, next, m.xl);
      ghost var n := Now();
      var written := MapPage(va, l, MapFn(r, va), r.flags);
      ConfinedTrans(m.s, m.own, n.s, n.own, P(), Own());
      done' := done + PathKeys(level, va, l);
      if written.Err? {
        PageRefused(m, n, r, level, va, l, next, done, |pool.free|, tab.Keys, written.error);
        return Err(written.error), done';
      }
      PageWritten(m, n, r, level, va, l, next, done, done', |pool.free|, tab.Keys);
      assert Translation() == m.xl + Slice(r, r.start, next);
      assert Untouched(m.xl, r.start, next);
      page := Ok(next);
    }

    /** `unmap`: leaf after leaf. `cut` is where the loop stopped. */
    method Unmap(r: Region) returns (end: UnmapEnd, ghost cut: nat)
      requires Valid() && r.End() <= Limit(level)
      modifies pool`mem
      ensures Valid() && Confined(old(P()), old(Own()), P(), Own())
      ensures r.start <= cut <= r.End()
      ensures end == Stop(old(Translation()), cut, r.End())
      ensures end.Overrun? ==> var l := old(Translation())[cut].level; 1 <= l <= 3 && cut + Span(l) > r.End()
      ensures end.Finished? || end.Missing? ==> Translation() == CutOut(old(Translation()), r.start, cut)
      ensures end.Misaligned? || end.Overrun? ==>
                var l := old(Translation())[cut].level;
                1 <= l <= 3 && Translation() == WithoutBlock(CutOut(old(Translation()), r.start, cut), l, cut)
      ensures LeavesAgree(old(Translation()), r) ==> IsCut(r, cut) && (end.Finished? || end.Missing?)
      ensures Shows(old(Translation()), r) ==> end.Finished?
      ensures end.Finished? ==> Translation() == CutOut(old(Translation()), r.start, r.End())
    {
      ghost var s0, own0, xl0 := P(), Own(), Translation();
      ghost var agree := LeavesAgree(xl0, r);
      if agree { StartIsCut(r); }
      CutOutNothing(xl0, r.start);
      var va: nat, size: nat := r.start, r.size;
      while size > 0
        invariant Valid() && Confined(s0, own0, P(), Own())
        invariant r.start <= va && va + size == r.End()
        invariant Translation() == CutOut(xl0, r.start, va)
        invariant agree ==> IsCut(r, va)
      {
        ghost var s1, own1 := P(), Own();
        CutOutAt(xl0, r.start, va);
        if Shows(xl0, r) { ShownStop(xl0, r, va); }
        var page := UnmapPage(va);
        ConfinedTrans(s0, own0, s1, own1, P(), Own());
        if page.Err? {
          return Missing, va;
        }
        var l := page.value.1;
        var next: nat := va + Span(l);
        if agree { UnmapRound(xl0, r, va, l, next); }
        if !Aligned(l, va) {
          return Misaligned, va;
        }
        if Span(l) > size {
          return Overrun, va;
        }
        CutLeaf(xl0, r.start, va, l, next);
        va, size := next, size - Span(l);
      }
      return Finished, va;
    }

    /** `map` then `unmap` of a free region restores every translation, also when the
        mapping failed midway; after a completed one the unmapping finishes. */
    method MapThenUnmap(r: Region) returns (res: Result<()>, end: UnmapEnd)
      requires Valid() && r.Mappable(level) && RegionFree(Translation(), r)
      modifies this`intrm, this`tab, pool`free, pool`live, pool`freeFrames, pool`liveFrames, pool`mem
      ensures Valid() && Translation() == old(Translation())
      ensures end.Finished? || end.Missing?
      ensures res.Ok? ==> end.Finished?
    {
      ghost var xl := Translation();
      ghost var cut, stop;
      res, cut := Map(r);
      ghost var mapped := Translation();
      end, stop := Unmap(r);
      Restored(xl, mapped, Translation(), r, cut, stop, end);
    }

    /** Unmapping keeps the tables: a 4K page mapped and unmapped leaves its table
        behind, and the 2M block over it is refused although nothing is mapped. */
    method LeftoverTable(va: nat, paddr: nat, flags: MemFlags) returns (page: Result<()>, block: Result<()>)
      requires Valid() && va < Limit(level) && PageFree(Translation(), 2, va) && |pool.free| >= level - 1
      modifies this`intrm, this`tab, pool`free, pool`live, pool`freeFrames, pool`liveFrames, pool`mem
      ensures page.Ok? && block == Err(AlreadyMapped)
      ensures Translation() == old(Translation()) && PageFree(Translation(), 2, va)
    {
      page := MapAndUnmapPage(va, paddr, flags);
      ghost var n := Now();
      block := MapPage(va, 2, paddr, flags);
      BlockAbove(n, level, va, |pool.free|, tab.Keys, block);
    }

    /** A 4K page in a free block comes and goes; the tables above it stay. */
    method MapAndUnmapPage(va: nat, paddr: nat, flags: MemFlags) returns (page: Result<()>)
      requires Valid() && va < Limit(level) && PageFree(Translation(), 2, va) && |pool.free| >= level - 1
      modifies this`intrm, this`tab, pool`free, pool`live, pool`freeFrames, pool`liveFrames, pool`mem
      ensures Valid() && page.Ok? && Translation() == old(Translation())
      ensures PathKeys(level, va, 1) <= tab.Keys
    {
      ghost var xl := Translation();
      page := MapFreshPage(va, paddr, flags);
      PageComesAndGoes(xl, va, LeafWord(Base(1, paddr), flags, false));
      var gone := UnmapPage(va);
      assert gone.Ok? && gone.value.1 == 1;
    }

    method MapFreshPage(va: nat, paddr: nat, flags: MemFlags) returns (page: Result<()>)
      requires Valid() && va < Limit(level) && PageFree(Translation(), 2, va) && |pool.free| >= level - 1
      modifies this`intrm, this`tab, pool`free, pool`live, pool`freeFrames, pool`liveFrames, pool`mem
      ensures Valid() && page.Ok? && LeafWord(Base(1, paddr), flags, false) != 0
      ensures Translation() == old(Translation()) + Block(1, va, LeafWord(Base(1, paddr), flags, false))
      ensures PathKeys(level, va, 1) <= tab.Keys
    {
      ghost var m := Now();
      page := MapPage(va, 1, paddr, flags);
      FirstPage(m, Now(), level, va, page);
    }

    /** Dropping the table: the root frame, then every intermediate frame. */
    method Drop()
      requires Valid()
      modifies pool`free, pool`live, pool`freeFrames, pool`liveFrames
      ensures pool.Valid()
      ensures pool.freeFrames == old(pool.freeFrames) + Own() && pool.liveFrames == old(pool.liveFrames) - Own()
    {
      pool.DropOne(root);
      var i := 0;
      while i < |intrm|
        invariant i <= |intrm| && pool.Valid()
        invariant pool.freeFrames == old(pool.freeFrames) + FrameSet(root, intrm[..i])
        invariant pool.liveFrames == old(pool.liveFrames) - FrameSet(root, intrm[..i])
      {
        assert intrm[i] in FrameSet(root, intrm);
        assert FrameSet(root, intrm[..i + 1]) == FrameSet(root, intrm[..i]) + {intrm[i]};
        pool.DropOne(intrm[i]);
        i := i + 1;
      }
      assert intrm[..i] == intrm;
    }
  }

  /** The translation after a `map` to `cut` and an `unmap` to `stop`. */
  lemma Restored(xl: imap<nat, Xlate>, mapped: imap<nat, Xlate>, after: imap<nat, Xlate>,
                 r: Region, cut: nat, stop: nat, end: UnmapEnd)
    requires r.Mappable(4) && RegionFree(xl, r) && r.start <= cut <= r.End() && r.start <= stop <= r.End()
    requires mapped == xl + Slice(r, r.start, cut) && end == Stop(mapped, stop, r.End())
    requires LeavesAgree(mapped, r) ==> end.Finished? || end.Missing?
    requires end.Finished? || end.Missing? ==> after == CutOut(mapped, r.start, stop)
    ensures after == xl && (end.Finished? || end.Missing?) && (cut == r.End() ==> end.Finished?)
  {
    UnmapUndoesMap(xl, r, cut, stop);
  }

  datatype Operation = MapRegion(region: Region) | UnmapRegion(region: Region)

  /** Conservation over a table's whole life: created, used by any sequence of
      mappings and unmappings, failing ones included, and dropped, it returns
      the allocator to its original free set and disturbs no other frame. */
  method Lifetime(pool: FramePool.Pool, level: nat, ops: seq<Operation>)
    requires pool.Valid() && pool.free != {} && 3 <= level <= 4
    requires forall i | 0 <= i < |ops| :: ops[i].region.Mappable(level)
    modifies pool`free, pool`live, pool`freeFrames, pool`liveFrames, pool`mem
    ensures pool.Valid()
    ensures pool.freeFrames == old(pool.freeFrames) && pool.liveFrames == old(pool.liveFrames)
    ensures forall f | f in old(pool.liveFrames) :: f in pool.mem && pool.mem[f] == old(pool.mem[f])
  {
    pool.FrameFacts();
    ghost var s0 := Frames(pool.freeFrames, pool.liveFrames, pool.mem);
    var pt := new PageTable(pool, level);
    var i := 0;
    while i < |ops|
      invariant i <= |ops| && pt.Valid() && pt.pool == pool && pt.level == level
      invariant Confined(s0, {}, pt.P(), pt.Own())
    {
      ghost var s1, own1 := pt.P(), pt.Own();
      match ops[i] {
        case MapRegion(r) => var _, _ := pt.Map(r);
        case UnmapRegion(r) => var _, _ := pt.Unmap(r);
      }
      ConfinedTrans(s0, {}, s1, own1, pt.P(), pt.Own());
      i := i + 1;
    }
    GiveBack(s0, pt.P(), pt.Own());
    pt.Drop();
  }

  /** What a table took, it took from the free set. */
  lemma GiveBack(s: Frames, s': Frames, own: set<nat>)
    requires s.free !! s.live && PoolOk(s) && Confined(s, {}, s', own)
    ensures s'.free + own == s.free && s'.live - own == s.live
    ensures forall f | f in s.live :: f in s'.mem && s'.mem[f] == s.mem[f]
  {
    forall f | f in s.live ensures f !in own { assert f !in s.free; assert f !in s'.free + own; }
  }
}
