/** A page table among the frames of the pool: what it owns, what it may change,
    and what each of its growth steps does. */
module TreeInPool {
  import opened Bits
  import opened Descriptor
  import opened Geometry
  import opened PageTree

  // ------------------------------------------------ a table within the pool

  /** The pool as a page table sees it: free frames, live frames, contents. */
  datatype Frames = Frames(free: set<nat>, live: set<nat>, mem: Memory)

  ghost predicate PoolOk(p: Frames) {
    && p.free !! p.live
    && forall f | f in p.free || f in p.live :: f in p.mem && |p.mem[f]| == 512 && f % 0x1000 == 0 && f < PHYS_LIMIT
  }

  ghost function FrameSet(root: nat, intrm: seq<nat>): set<nat> {
    {root} + (set f | f in intrm)
  }

  ghost predicate NoDup(root: nat, intrm: seq<nat>) {
    root !in intrm && (forall i, j | 0 <= i < j < |intrm| :: intrm[i] != intrm[j])
  }

  /** The reachable tables are exactly the root and `intrm`, all live frames. */
  ghost predicate Good(p: Frames, root: nat, level: nat, intrm: seq<nat>, tab: Tables) {
    && Wf(p.mem, root, level, tab)
    && tab.Values == FrameSet(root, intrm)
    && NoDup(root, intrm)
    && tab.Values <= p.live
  }

  /** Frames outside the table keep their contents and their owners; frames move
      only from the free set to the table. */
  ghost predicate Confined(p: Frames, own: set<nat>, p': Frames, own': set<nat>) {
    var confined :=
      && own <= own'
      && p'.free + own' == p.free + own
      && p'.live == p.live + own'
      && (forall f | f in p.mem && f !in own' :: f in p'.mem && p'.mem[f] == p.mem[f]);
    confined
  }

  /** Allocating, zeroing and linking one intermediate table. */
  lemma CreateTable(s: Frames, root: nat, level: nat, intrm: seq<nat>, tab: Tables, k: Key, p: nat, i: nat, f: nat)
    requires PoolOk(s) && Good(s, root, level, intrm, tab)
    requires TablePlace(s.mem, level, tab, k, p, i) && f in s.free
    ensures var s' := Frames(s.free - {f}, s.live + {f}, LinkTable(s.mem, p, i, f));
            && Good(s', root, level, intrm + [f], tab[k := f])
            && Trans(s'.mem, root, level) == Trans(s.mem, root, level)
            && Confined(s, FrameSet(root, intrm), s', FrameSet(root, intrm + [f]))
  {
    LinkTableWf(s.mem, root, level, tab, k, p, i, f);
    LinkTableTrans(s.mem, root, level, tab, k, p, i, f);
    assert FrameSet(root, intrm + [f]) == FrameSet(root, intrm) + {f};
    ValuesOfUpdate(tab, k, f);
  }

  lemma ValuesOfUpdate(tab: Tables, k: Key, f: nat)
    requires k !in tab
    ensures tab[k := f].Values == tab.Values + {f}
  {
    var tab' := tab[k := f];
    forall v | v in tab.Values + {f} ensures v in tab'.Values {
      if v == f { assert tab'[k] == f; }
      else { var k1 :| k1 in tab && tab[k1] == v; assert tab'[k1] == v; }
    }
  }

  /** What the level `m + 1` entry for `va` can be: a free place for a table, the
      table below it, or a leaf over `va`. */
  lemma EntryAbove(mem: Memory, root: nat, level: nat, tab: Tables, va: nat, m: nat, k: Key, table: nat, index: nat)
    requires Wf(mem, root, level, tab) && 1 <= m < level && m <= 3 && va < Limit(level)
    requires Key(m + 1, Num(m + 2, va)) in tab && table == tab[Key(m + 1, Num(m + 2, va))]
    requires k == Key(m, Num(m + 1, va)) && index == Index(m + 1, va)
    ensures table in mem && index < |mem[table]| == 512
    ensures Entry(mem, table, index) == 0 ==> TablePlace(mem, level, tab, k, table, index)
    ensures Entry(mem, table, index) != 0 ==>
              match NextTable(Entry(mem, table, index))
              case Ok(f) => k in tab && tab[k] == f
              case Err(e) =>
                && e == MappedToHugePage
                && va in Trans(mem, root, level) && Trans(mem, root, level)[va].level == m + 1
  {
    NumParent(m + 1, va);
    IndexIsNum(m + 1, va);
    assert EntryOk(mem, tab, Parent(k), index);
    assert KeyOk(mem, level, tab, Parent(k));
    ZeroWord();
    if Entry(mem, table, index) != 0 && NextTable(Entry(mem, table, index)).Err? {
      LeafInTheWay(mem, root, level, tab, m + 1, va);
    }
  }

  /** Isolation: whatever one table does within its own frames and the free
      ones, another table stays well formed and translates as before. */
  lemma Isolation(s: Frames, own: set<nat>, s': Frames, own': set<nat>,
                  root: nat, level: nat, intrm: seq<nat>, tab: Tables)
    requires PoolOk(s) && Confined(s, own, s', own')
    requires Good(s, root, level, intrm, tab) && FrameSet(root, intrm) !! own
    ensures Good(s', root, level, intrm, tab) && FrameSet(root, intrm) !! own'
    ensures Trans(s'.mem, root, level) == Trans(s.mem, root, level)
  {
    forall f | f in tab.Values ensures f !in own' { assert f !in s.free; assert f !in s'.free + own'; }
    SameFrames(s.mem, s'.mem, root, level, tab);
  }

  lemma ConfinedTrans(p: Frames, a: set<nat>, p': Frames, a': set<nat>, p'': Frames, a'': set<nat>)
    requires Confined(p, a, p', a') && Confined(p', a', p'', a'')
    ensures Confined(p, a, p'', a'')
  {
  }

  /** The tables on the way to `va`, down to level `l`. */
  ghost predicate OnPath(k: Key, va: nat, l: nat) {
    l <= k.level <= 3 && k.level >= 1 && k.num == Num(k.level + 1, va)
  }

  /** A table as a value: its root and level never change. */
  datatype Tree = Tree(s: Frames, intrm: seq<nat>, tab: Tables)

  /** Empty tables were added on the way to `va`; nothing else changed. */
  ghost predicate Grew(root: nat, level: nat, a: Tree, b: Tree, va: nat, l: nat) {
    var grew :=
      && Confined(a.s, FrameSet(root, a.intrm), b.s, FrameSet(root, b.intrm))
      && Trans(b.s.mem, root, level) == Trans(a.s.mem, root, level)
      && a.tab.Keys <= b.tab.Keys
      && forall k {:trigger OnPath(k, va, l)} | k in b.tab.Keys - a.tab.Keys :: OnPath(k, va, l);
    grew
  }

  /** One more table, on the path. */
  lemma GrewByOne(root: nat, level: nat, a: Tree, b: Tree, va: nat, l: nat, k: Key)
    requires Confined(a.s, FrameSet(root, a.intrm), b.s, FrameSet(root, b.intrm))
    requires Trans(b.s.mem, root, level) == Trans(a.s.mem, root, level)
    requires b.tab.Keys == a.tab.Keys + {k} || b.tab == a.tab
    requires OnPath(k, va, l)
    ensures Grew(root, level, a, b, va, l)
  {
  }

  /** The first frame of a new table. */
  lemma NewRoot(s: Frames, f: nat, zero: seq<nat>)
    requires f in s.free
    ensures Confined(s, {}, Frames(s.free - {f}, s.live + {f}, s.mem[f := zero]), {f}) && FrameSet(f, []) == {f}
  {
  }

  lemma GrewTrans(root: nat, level: nat, a: Tree, b: Tree, c: Tree, va: nat, l: nat, m: nat)
    requires Grew(root, level, a, b, va, l) && Grew(root, level, b, c, va, m) && m <= l
    ensures Grew(root, level, a, c, va, m)
  {
    forall k | k in c.tab.Keys - a.tab.Keys ensures OnPath(k, va, m) {
      if k in b.tab.Keys { assert OnPath(k, va, l); } else { assert OnPath(k, va, m); }
    }
  }

  lemma GrewRefl(root: nat, level: nat, a: Tree, va: nat, l: nat)
    requires FrameSet(root, a.intrm) <= a.s.live
    ensures Grew(root, level, a, a, va, l)
  {
  }

  lemma WeakerPath(root: nat, level: nat, a: Tree, b: Tree, va: nat, l: nat, m: nat)
    requires Grew(root, level, a, b, va, l) && m <= l
    ensures Grew(root, level, a, b, va, m)
  {
    forall k | k in b.tab.Keys - a.tab.Keys ensures OnPath(k, va, m) { assert OnPath(k, va, l); }
  }

  /** Writing a leaf of the tree touches one of its own frames. */
  lemma WriteLeaf(s: Frames, root: nat, level: nat, intrm: seq<nat>, tab: Tables, l: nat, va: nat, t: nat, i: nat, d: nat)
    requires Good(s, root, level, intrm, tab) && va < Limit(level)
    requires LeafPlace(s.mem, tab, l, va, t, i) && LeafOrHole(l, d)
    ensures var s' := s.(mem := Store(s.mem, t, i, d));
            && Good(s', root, level, intrm, tab)
            && Confined(s, FrameSet(root, intrm), s', FrameSet(root, intrm))
  {
    StoreLeafWf(s.mem, root, level, tab, l, va, t, i, d);
    assert t in tab.Values;
  }

  /** Tables added on the way to a mapped address are inhabited. */
  lemma DenseAfterMap(xl: imap<nat, Xlate>, xl': imap<nat, Xlate>, level: nat, tab: Tables, tab': Tables, va: nat, l: nat)
    requires Dense(xl, level, tab) && va in xl' && forall x | x in xl :: x in xl'
    requires forall k {:trigger OnPath(k, va, l)} | k in tab'.Keys - tab.Keys :: OnPath(k, va, l)
    ensures Dense(xl', level, tab')
  {
    forall k | k in tab' && k.level < level ensures Inhabited(xl', k) {
      if k in tab { assert Inhabited(xl, k); } else { assert OnPath(k, va, l); }
    }
  }

  /** The addresses of the level-`l` page of `va` are all untranslated. */
  ghost predicate PageFree(xl: imap<nat, Xlate>, l: nat, va: nat)
    requires 1 <= l <= 3
  {
    forall x: nat | x in xl :: Num(l, x) != Num(l, va)
  }

  lemma PageComesAndGoes(xl: imap<nat, Xlate>, va: nat, d: nat)
    requires PageFree(xl, 2, va) && d != 0
    ensures va in xl + Block(1, va, d) && (xl + Block(1, va, d))[va].level == 1
    ensures WithoutBlock(xl + Block(1, va, d), 1, va) == xl
  {
    assert va in Block(1, va, d);
    forall x: nat | x in xl ensures Num(1, x) != Num(1, va) { NumParent(1, x); NumParent(1, va); }
  }

  lemma DenseBelow(xl: imap<nat, Xlate>, level: nat, tab: Tables, k: Key)
    requires Dense(xl, level, tab) && k in tab && k.level < level
    ensures Inhabited(xl, k)
  {
  }

  /** In a dense tree a free page has no table below its entry. */
  lemma DenseFree(xl: imap<nat, Xlate>, level: nat, tab: Tables, l: nat, va: nat)
    requires Dense(xl, level, tab) && 3 <= level && 2 <= l <= 3 && PageFree(xl, l, va)
    ensures Key(l - 1, Num(l, va)) !in tab
  {
    if Key(l - 1, Num(l, va)) in tab { DenseBelow(xl, level, tab, Key(l - 1, Num(l, va))); }
  }

  /** Growing the path to `va` and then filling its empty level-`l` entry. */
  lemma FillEntry(t0: Tree, t1: Tree, root: nat, level: nat, va: nat, l: nat, t: nat, i: nat, d: nat)
    requires Good(t1.s, root, level, t1.intrm, t1.tab) && Grew(root, level, t0, t1, va, l) && va < Limit(level)
    requires 1 <= l <= 3 && Key(l, Num(l + 1, va)) in t1.tab && t == t1.tab[Key(l, Num(l + 1, va))] && i == Num(l, va) % 512
    requires Entry(t1.s.mem, t, i) == 0 && d != 0 && LeafOrHole(l, d)
    ensures t in t1.s.mem && |t1.s.mem[t]| == 512
    ensures var s' := t1.s.(mem := Store(t1.s.mem, t, i, d));
            && Good(s', root, level, t1.intrm, t1.tab)
            && Confined(t0.s, FrameSet(root, t0.intrm), s', FrameSet(root, t1.intrm))
            && Trans(s'.mem, root, level) == Trans(t0.s.mem, root, level) + Block(l, va, d)
            && (Dense(Trans(t0.s.mem, root, level), level, t0.tab) ==> Dense(Trans(s'.mem, root, level), level, t1.tab))
    ensures PageFree(Trans(t0.s.mem, root, level), l, va)
  {
    var k := Key(l, Num(l + 1, va));
    EmptyEntry(t1.s.mem, root, level, t1.tab, va, l, t, i);
    HoleIsFree(t1.s.mem, root, level, t1.tab, l, va);
    WriteLeaf(t1.s, root, level, t1.intrm, t1.tab, l, va, t, i, d);
    StoreLeafTrans(t1.s.mem, root, level, t1.tab, l, va, t, i, d);
    var s' := t1.s.(mem := Store(t1.s.mem, t, i, d));
    ConfinedTrans(t0.s, FrameSet(root, t0.intrm), t1.s, FrameSet(root, t1.intrm), s', FrameSet(root, t1.intrm));
    if Dense(Trans(t0.s.mem, root, level), level, t0.tab) {
      DenseAfterMap(Trans(t0.s.mem, root, level), Trans(s'.mem, root, level), level, t0.tab, t1.tab, va, l);
    }
  }

  /** An unused entry has no table below it. */
  lemma EmptyEntry(mem: Memory, root: nat, level: nat, tab: Tables, va: nat, l: nat, t: nat, i: nat)
    requires Wf(mem, root, level, tab) && 1 <= l <= 3 && Key(l, Num(l + 1, va)) in tab
    requires t == tab[Key(l, Num(l + 1, va))] && i == Num(l, va) % 512 && Entry(mem, t, i) == 0
    ensures LeafPlace(mem, tab, l, va, t, i)
  {
    var k := Key(l, Num(l + 1, va));
    assert KeyOk(mem, level, tab, k);
    NumParent(l, va);
    assert EntryOk(mem, tab, k, i);
  }

  // ------------------------------------------------------ regions as leaves

  /** The page `map` writes at a leaf start is that leaf of the region. */
  lemma PageIsSlice(r: Region, va: nat, l: nat, next: nat)
    requires r.Mappable(4) && Boundary(r, va) && va < r.End() && l == LeafLevel(r, va) && next == va + Span(l)
    ensures var d := LeafWord(Base(l, MapFn(r, va)), r.flags, l != 1);
            next <= r.End() && d != 0 && Block(l, va, d) == Slice(r, va, next)
  {
    LeafInside(r, va);
    var pa := Base(l, MapFn(r, va));
    var d := LeafWord(pa, r.flags, l != 1);
    LeafBlock(l, va, MapFn(r, va), r.flags);
    forall x: nat ensures Num(l, x) == Num(l, va) <==> va <= x < next { PageNumbers(l, va, x); }
    forall x: nat | va <= x < next ensures LeafOf(r, x) == Decoded(d, l, x).value {
      PageValue(r, va, x);
      PageNumbers(l, va, x);
      assert Block(l, va, d)[x] == Decoded(d, l, x).value;
    }
    SliceByValue(r, va, l, next, d);
  }

  lemma SliceByValue(r: Region, va: nat, l: nat, next: nat, d: nat)
    requires r.Mappable(4) && r.start <= va <= next <= r.End() && 1 <= l <= 3 && d != 0
    requires forall x: nat :: Num(l, x) == Num(l, va) <==> va <= x < next
    requires forall x: nat | va <= x < next :: LeafOf(r, x) == Decoded(d, l, x).value
    ensures Block(l, va, d) == Slice(r, va, next)
  {
  }

  lemma PageValue(r: Region, va: nat, x: nat)
    requires r.Mappable(4) && Boundary(r, va) && va < r.End() && va <= x < va + Span(LeafLevel(r, va))
    ensures var l := LeafLevel(r, va);
            && r.Contains(x)
            && LeafOf(r, x) == Xlate(PhysPage(Base(l, MapFn(r, va))) + (x - Base(l, x)), AccessOf(r.flags), l)
  {
    SameLeaf(r, va, x);
    PhysOfBase(LeafLevel(r, va), MapFn(r, va));
  }

  lemma PhysOfBase(l: nat, pa: nat)
    requires 1 <= l <= 3 && (l > 1 ==> Aligned(l, pa))
    ensures PhysPage(Base(l, pa)) == PhysPage(pa)
  {
    if l == 1 { assert pa / 0x1000 * 0x1000 / 0x1000 == pa / 0x1000; }
  }

  lemma PageNumbers(l: nat, va: nat, x: nat)
    requires 1 <= l <= 3 && Aligned(l, va)
    ensures Num(l, x) == Num(l, va) <==> va <= x < va + Span(l)
  {
  }

  /** A translation without the addresses `[lo, hi)`. */
  ghost function CutOut(xl: imap<nat, Xlate>, lo: nat, hi: nat): imap<nat, Xlate> {
    imap x: nat | x in xl && !(lo <= x < hi) :: xl[x]
  }

  /** Removing the leaf that starts at `va` cuts out its addresses. */
  lemma CutLeaf(xl: imap<nat, Xlate>, lo: nat, va: nat, l: nat, next: nat)
    requires 1 <= l <= 3 && lo <= va && Aligned(l, va) && next == va + Span(l)
    ensures WithoutBlock(CutOut(xl, lo, va), l, va) == CutOut(xl, lo, next)
  {
    var a, b := WithoutBlock(CutOut(xl, lo, va), l, va), CutOut(xl, lo, next);
    forall x: nat ensures x in a <==> x in b { PageNumbers(l, va, x); }
  }

  lemma CutOutAt(xl: imap<nat, Xlate>, lo: nat, va: nat)
    requires lo <= va
    ensures va in CutOut(xl, lo, va) <==> va in xl
    ensures va in xl ==> CutOut(xl, lo, va)[va] == xl[va]
  {
  }

  lemma CutOutNothing(xl: imap<nat, Xlate>, lo: nat)
    ensures CutOut(xl, lo, lo) == xl
  {
  }

  /** Every translated address of the region has the page size `map` would use. */
  ghost predicate LeavesAgree(xl: imap<nat, Xlate>, r: Region) {
    r.Mappable(4) && forall x: nat | r.Contains(x) && x in xl :: xl[x].level == LeafLevel(r, x)
  }

  /** The entry that translates `va`, and what clearing it does. */
  lemma ClearEntry(s: Frames, root: nat, level: nat, intrm: seq<nat>, tab: Tables, va: nat)
    requires Good(s, root, level, intrm, tab) && va < Limit(level)
    ensures va !in Trans(s.mem, root, level) ==>
              var e := GetEntry(s.mem, root, level, va);
              e == Err(NotMapped) || (e.Ok? && Entry(s.mem, e.value.table, e.value.index) == 0)
    ensures va in Trans(s.mem, root, level) ==>
              var e := GetEntry(s.mem, root, level, va);
              && e.Ok? && 1 <= e.value.level <= 3 && e.value.level == Trans(s.mem, root, level)[va].level
              && e.value.table in s.mem && e.value.index < |s.mem[e.value.table]| == 512
              && Entry(s.mem, e.value.table, e.value.index) != 0
              && Addr(Entry(s.mem, e.value.table, e.value.index)) + (va - Base(e.value.level, va))
                 == Trans(s.mem, root, level)[va].paddr
              && var s' := s.(mem := Store(s.mem, e.value.table, e.value.index, 0));
              && Good(s', root, level, intrm, tab)
              && Confined(s, FrameSet(root, intrm), s', FrameSet(root, intrm))
              && Trans(s'.mem, root, level) == WithoutBlock(Trans(s.mem, root, level), e.value.level, va)
  {
    WalkByKeys(s.mem, root, level, tab, va);
    QueryByKeys(s.mem, root, level, tab, va);
    if va in Trans(s.mem, root, level) {
      var l := Depth(tab, va);
      Closed(s.mem, root, level, tab, va);
      IndexIsNum(l, va);
      var k := Key(l, Num(l + 1, va));
      assert KeyOk(s.mem, level, tab, k);
      WriteLeaf(s, root, level, intrm, tab, l, va, tab[k], Index(l, va), 0);
      StoreLeafTrans(s.mem, root, level, tab, l, va, tab[k], Index(l, va), 0);
    }
  }

  /** Writing a leaf into the entry where the walk for `va` stops, be it a leaf or a
      hole. A hole covers untranslated addresses only. */
  lemma ReplaceEntry(s: Frames, root: nat, level: nat, intrm: seq<nat>, tab: Tables, va: nat, l: nat, d: nat)
    requires Good(s, root, level, intrm, tab) && va < Limit(level) && Key(3, Num(4, va)) in tab
    requires l == Depth(tab, va) && d != 0 && LeafOrHole(l, d)
    ensures var e := GetEntry(s.mem, root, level, va);
            && e.Ok? && e.value.level == l
            && e.value.table in s.mem && e.value.index < |s.mem[e.value.table]| == 512
            && var s' := s.(mem := Store(s.mem, e.value.table, e.value.index, d));
            && Good(s', root, level, intrm, tab)
            && Confined(s, FrameSet(root, intrm), s', FrameSet(root, intrm))
            && Trans(s'.mem, root, level) == Trans(s.mem, root, level) + Block(l, va, d)
    ensures va in Trans(s.mem, root, level) ==> Trans(s.mem, root, level)[va].level == l
    ensures va !in Trans(s.mem, root, level) ==> PageFree(Trans(s.mem, root, level), l, va)
  {
    var t, i := WhereWalkStops(s.mem, root, level, tab, va, l);
    WriteLeaf(s, root, level, intrm, tab, l, va, t, i, d);
    StoreLeafTrans(s.mem, root, level, tab, l, va, t, i, d);
  }

  /** The entry where the walk stops is a leaf over `va` or a hole. */
  lemma WhereWalkStops(mem: Memory, root: nat, level: nat, tab: Tables, va: nat, l: nat) returns (t: nat, i: nat)
    requires Wf(mem, root, level, tab) && va < Limit(level) && Key(3, Num(4, va)) in tab && l == Depth(tab, va)
    ensures GetEntry(mem, root, level, va) == Ok(Slot(t, i, l)) && LeafPlace(mem, tab, l, va, t, i)
    ensures va in Trans(mem, root, level) ==> Trans(mem, root, level)[va].level == l
    ensures va !in Trans(mem, root, level) ==> PageFree(Trans(mem, root, level), l, va)
  {
    WalkByKeys(mem, root, level, tab, va);
    QueryByKeys(mem, root, level, tab, va);
    Closed(mem, root, level, tab, va);
    IndexIsNum(l, va);
    var k := Key(l, Num(l + 1, va));
    assert KeyOk(mem, level, tab, k);
    t, i := tab[k], Index(l, va);
    if va !in Trans(mem, root, level) { HoleIsFree(mem, root, level, tab, l, va); }
  }

  /** A leaf word of the right size is a leaf, and what it translates to. */
  lemma LeafWordBlock(l: nat, va: nat, paddr: nat, flags: MemFlags)
    requires 1 <= l <= 3
    ensures var d := LeafWord(paddr, flags, l != 1);
            && d != 0 && LeafOrHole(l, d)
            && Block(l, va, d)[va] == ByLeaf(l, va, paddr, AccessOf(flags))
  {
    LeafRoundTrip(paddr, flags, l != 1);
  }

  /** What `update` writes, wherever the walk for `va` stops. */
  lemma UpdateEntry(s: Frames, root: nat, level: nat, intrm: seq<nat>, tab: Tables,
                    va: nat, l: nat, paddr: nat, flags: MemFlags)
    requires Good(s, root, level, intrm, tab) && va < Limit(level) && Key(3, Num(4, va)) in tab && l == Depth(tab, va)
    ensures var e := GetEntry(s.mem, root, level, va);
            && e.Ok? && e.value.level == l
            && e.value.table in s.mem && e.value.index < |s.mem[e.value.table]| == 512
            && var d := SetFlags(SetAddr(Entry(s.mem, e.value.table, e.value.index), paddr), flags, l != 1);
            && var s' := s.(mem := Store(s.mem, e.value.table, e.value.index, d));
            && d == LeafWord(paddr, flags, l != 1) && d != 0
            && Good(s', root, level, intrm, tab)
            && Confined(s, FrameSet(root, intrm), s', FrameSet(root, intrm))
            && Trans(s'.mem, root, level) == Trans(s.mem, root, level) + Block(l, va, d)
            && va in Block(l, va, d)
            && Block(l, va, d)[va] == ByLeaf(l, va, paddr, AccessOf(flags))
    ensures va in Trans(s.mem, root, level) ==> Trans(s.mem, root, level)[va].level == l
    ensures va !in Trans(s.mem, root, level) ==> PageFree(Trans(s.mem, root, level), l, va)
  {
    LeafWordBlock(l, va, paddr, flags);
    ReplaceEntry(s, root, level, intrm, tab, va, l, LeafWord(paddr, flags, l != 1));
    var e := GetEntry(s.mem, root, level, va).value;
    Overwrite(Entry(s.mem, e.table, e.index), paddr, flags, l != 1);
  }

  /** Without a table at level 3 the walk ends at once and nothing is translated. */
  lemma NoPath(s: Frames, root: nat, level: nat, intrm: seq<nat>, tab: Tables, va: nat)
    requires Good(s, root, level, intrm, tab) && va < Limit(level) && Key(3, Num(4, va)) !in tab
    ensures GetEntry(s.mem, root, level, va) == Err(NotMapped) && va !in Trans(s.mem, root, level)
  {
    WalkByKeys(s.mem, root, level, tab, va);
  }

  lemma MappableAtFour(r: Region, level: nat)
    requires r.Mappable(level)
    ensures r.Mappable(4)
  {
  }

  /** None of the addresses `[lo, hi)` is translated. */
  ghost predicate Untouched(xl: imap<nat, Xlate>, lo: nat, hi: nat) {
    forall x: nat | lo <= x < hi :: x !in xl
  }

  /** None of the region's addresses is translated. */
  ghost predicate RegionFree(xl: imap<nat, Xlate>, r: Region) {
    forall x: nat | x in xl :: !r.Contains(x)
  }

  /** The leaf starts of the region from `va` on, and its end. */
  ghost function LeavesFrom(r: Region, va: nat): seq<nat>
    requires r.Mappable(4) && r.start <= va
    decreases r.End() - va
  {
    if va >= r.End() then [va] else [va] + LeavesFrom(r, va + Span(LeafLevel(r, va)))
  }

  ghost predicate IsCut(r: Region, va: nat)
    requires r.Mappable(4)
  {
    va in LeavesFrom(r, r.start)
  }

  lemma {:induction false} CutsAreBoundaries(r: Region, va: nat, x: nat)
    requires r.Mappable(4) && Boundary(r, va) && x in LeavesFrom(r, va)
    ensures Boundary(r, x)
    ensures forall y | x < r.End() && y == x + Span(LeafLevel(r, x)) :: y in LeavesFrom(r, va)
    decreases r.End() - va
  {
    if va < r.End() {
      NextBoundary(r, va);
      var next := va + Span(LeafLevel(r, va));
      if x == va { assert next == LeavesFrom(r, next)[0]; } else { CutsAreBoundaries(r, next, x); }
    }
  }

  lemma CutBoundary(r: Region, va: nat)
    requires r.Mappable(4) && IsCut(r, va)
    ensures Boundary(r, va)
  {
    StartIsBoundary(r);
    CutsAreBoundaries(r, r.start, va);
  }

  lemma NextCut(r: Region, va: nat, next: nat)
    requires r.Mappable(4) && IsCut(r, va) && r.start <= va < r.End() && next == va + Span(LeafLevel(r, va))
    ensures IsCut(r, next)
  {
    StartIsBoundary(r);
    CutsAreBoundaries(r, r.start, va);
  }

  lemma StartIsCut(r: Region)
    requires r.Mappable(4)
    ensures IsCut(r, r.start) && Slice(r, r.start, r.start) == imap[]
  {
    assert LeavesFrom(r, r.start)[0] == r.start;
  }

  /** One round of `map` at a cut: the size picked, and what its page adds. */
  lemma MapRound(r: Region, va: nat, l: nat, next: nat, xl0: imap<nat, Xlate>)
    requires r.Mappable(4) && IsCut(r, va) && r.start <= va < r.End() && l == LeafLevel(r, va)
    requires next == va + Span(l)
    ensures next <= r.End() && IsCut(r, next)
    ensures var d := LeafWord(Base(l, MapFn(r, va)), r.flags, l != 1);
            d != 0 && xl0 + Slice(r, r.start, va) + Block(l, va, d) == xl0 + Slice(r, r.start, next)
    ensures PageFree(xl0 + Slice(r, r.start, va), l, va) && Untouched(xl0, r.start, va) ==> Untouched(xl0, r.start, next)
  {
    CutBoundary(r, va);
    NextCut(r, va, next);
    PageIsSlice(r, va, l, next);
    AppendSlice(xl0, r, va, next);
    FreePageNotIn(xl0, Slice(r, r.start, va), l, va, next);
  }

  /** Every address of the region is translated as the region says. */
  ghost predicate Shows(xl: imap<nat, Xlate>, r: Region) {
    r.Mappable(4) && forall x: nat | r.Contains(x) :: x in xl && xl[x] == LeafOf(r, x)
  }

  /** Where `unmap` stops, a fully mapped region has ended. */
  lemma ShownStop(xl: imap<nat, Xlate>, r: Region, cut: nat)
    requires Shows(xl, r) && r.start <= cut <= r.End()
    ensures LeavesAgree(xl, r) && (cut !in xl ==> cut == r.End())
  {
  }

  /** One round of `unmap` at a cut retraces the page that `map` chose there. */
  lemma UnmapRound(xl: imap<nat, Xlate>, r: Region, va: nat, l: nat, next: nat)
    requires LeavesAgree(xl, r) && IsCut(r, va) && r.start <= va < r.End()
    requires va in xl && l == xl[va].level && 1 <= l <= 3 && next == va + Span(l)
    ensures Aligned(l, va) && next <= r.End() && IsCut(r, next)
  {
    CutBoundary(r, va);
    NextCut(r, va, next);
    LeafInside(r, va);
  }

  /** Unmapping what `map` left of a free region, all of it or a prefix, meets the
      page sizes it needs and gives the translation back. */
  lemma UnmapUndoesMap(xl: imap<nat, Xlate>, r: Region, cut: nat, stop: nat)
    requires r.Mappable(4) && RegionFree(xl, r) && r.start <= cut <= r.End() && r.start <= stop <= r.End()
    ensures LeavesAgree(xl + Slice(r, r.start, cut), r)
    ensures stop == r.End() || stop !in xl + Slice(r, r.start, cut) ==>
              CutOut(xl + Slice(r, r.start, cut), r.start, stop) == xl
    ensures stop < cut ==> stop in xl + Slice(r, r.start, cut)
  {
    var part := Slice(r, r.start, cut);
    forall x: nat | r.Contains(x) && x in xl + part ensures (xl + part)[x] == LeafOf(r, x) {
      assert x in part;
    }
    if stop < cut { assert stop in part; }
  }

  /** What a completed `map` means to `query`: the mapper's address and the region's
      access flags inside, everything as before outside. */
  lemma MappedMeans(xl: imap<nat, Xlate>, r: Region, va: nat)
    requires r.Mappable(4) && PhysInRange(r)
    ensures var xl' := xl + RegionMap(r);
            if r.Contains(va)
            then va in xl' && xl'[va].paddr == MapFn(r, va) && xl'[va].access == AccessOf(r.flags)
            else (va in xl' <==> va in xl) && (va in xl ==> xl'[va] == xl[va])
  {
    if r.Contains(va) {
      InRangeLeaf(r, va);
      assert va in RegionMap(r);
    }
  }

  /** The address is translated by the largest block there is, with the region's access
      and, where the physical range is in range, to the mapper's address. */
  ghost predicate MappedAt(r: Region, va: nat, xl: imap<nat, Xlate>)
    requires r.Mappable(4) && r.Contains(va)
  {
    && va in xl && LargestBlock(r, va, xl[va].level)
    && xl[va].access == Access(r.flags.read, r.flags.write, r.flags.io)
    && (PhysInRange(r) ==> xl[va].paddr == MapFn(r, va))
  }

  ghost predicate MappedUpTo(r: Region, hi: nat, xl: imap<nat, Xlate>)
    requires r.Mappable(4) && hi <= r.End()
  {
    forall va: nat {:trigger MappedAt(r, va, xl)} | r.start <= va < hi :: MappedAt(r, va, xl)
  }

  lemma SliceIsMapped(xl: imap<nat, Xlate>, r: Region, hi: nat)
    requires r.Mappable(4) && r.start <= hi <= r.End()
    ensures MappedUpTo(r, hi, xl + Slice(r, r.start, hi))
  {
    forall va: nat | r.start <= va < hi ensures MappedAt(r, va, xl + Slice(r, r.start, hi)) {
      LeafLevelMeans(r, va);
      if PhysInRange(r) { InRangeLeaf(r, va); }
      assert va in Slice(r, r.start, hi);
    }
  }

  lemma AppendSlice(xl0: imap<nat, Xlate>, r: Region, va: nat, hi: nat)
    requires r.Mappable(4) && r.start <= va <= hi <= r.End()
    ensures xl0 + Slice(r, r.start, va) + Slice(r, va, hi) == xl0 + Slice(r, r.start, hi)
  {
  }

  lemma FreePageNotIn(xl0: imap<nat, Xlate>, c: imap<nat, Xlate>, l: nat, va: nat, next: nat)
    requires 1 <= l <= 3 && Aligned(l, va) && next == va + Span(l)
    ensures PageFree(xl0 + c, l, va) ==> forall x: nat | va <= x < next :: x !in xl0
  {
    forall x: nat | va <= x < next ensures PageFree(xl0 + c, l, va) ==> x !in xl0 {
      PageNumbers(l, va, x);
      assert x in xl0 ==> x in xl0 + c;
    }
  }
}
