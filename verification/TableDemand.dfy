/** How many tables a mapping needs and which leftover tables stand in its way:
    what decides, before the call, whether `map` succeeds. */
module TableDemand {
  import opened Geometry
  import opened PageTree
  import opened TreeInPool

  // ------------------------------------------------------- tables on a path

  /** The tables below the root that lead to the level-`l` entry of `va`. */
  ghost function PathKeys(level: nat, va: nat, l: nat): set<Key> {
    (if l <= 1 then {Key(1, Num(2, va))} else {}) + (if l <= 2 then {Key(2, Num(3, va))} else {})
    + (if level == 4 then {Key(3, Num(4, va))} else {})
  }

  lemma PathKey(level: nat, va: nat, l: nat, m: nat)
    requires 1 <= l <= m <= 3 && (m == 3 ==> level == 4)
    ensures Key(m, Num(m + 1, va)) in PathKeys(level, va, l)
  {
  }

  lemma PathCount(level: nat, va: nat, l: nat)
    requires 3 <= level <= 4 && 1 <= l <= 3
    ensures |PathKeys(level, va, l)| == level - l
  {
  }

  /** A table of the path is missing. */
  ghost predicate Gap(level: nat, tab: Tables, va: nat, l: nat) {
    || (l <= 1 && Key(1, Num(2, va)) !in tab)
    || (l <= 2 && Key(2, Num(3, va)) !in tab)
    || (level == 4 && Key(3, Num(4, va)) !in tab)
  }

  /** Tables added on the way to `va` are on its path. */
  lemma GrewOnPath(root: nat, level: nat, a: Tree, b: Tree, va: nat, l: nat)
    requires Good(a.s, root, level, a.intrm, a.tab) && Grew(root, level, a, b, va, l) && va < Limit(level) && l >= 1
    ensures a.tab.Keys <= b.tab.Keys <= a.tab.Keys + PathKeys(level, va, l)
  {
    Closed(a.s.mem, root, level, a.tab, va);
    forall k | k in b.tab.Keys - a.tab.Keys ensures k in PathKeys(level, va, l) {
      assert OnPath(k, va, l);
      if k.level == 1 { assert k == Key(1, Num(2, va)); }
      else if k.level == 2 { assert k == Key(2, Num(3, va)); }
      else { assert k == Key(3, Num(4, va)); }
    }
  }

  /** A table at the end of the path has all of them above it. */
  lemma PathPresent(mem: Memory, root: nat, level: nat, tab: Tables, va: nat, l: nat)
    requires Wf(mem, root, level, tab) && va < Limit(level) && 1 <= l <= 3 && Key(l, Num(l + 1, va)) in tab
    ensures PathKeys(level, va, l) <= tab.Keys
  {
    Closed(mem, root, level, tab, va);
  }

  /** A table is left below the level-`l` entry of `va`. */
  ghost predicate Below(tab: Tables, l: nat, va: nat)
    requires 1 <= l <= 3
  {
    l > 1 && Key(l - 1, Num(l, va)) in tab
  }

  /** A used entry for a page whose addresses are free has a table below it, and
      that table was there before the path to it grew. */
  lemma EntryTaken(root: nat, level: nat, t0: Tree, t1: Tree, va: nat, l: nat, t: nat, i: nat)
    requires Good(t1.s, root, level, t1.intrm, t1.tab) && Grew(root, level, t0, t1, va, l) && va < Limit(level)
    requires 1 <= l <= 3 && Key(l, Num(l + 1, va)) in t1.tab && t == t1.tab[Key(l, Num(l + 1, va))] && i == Num(l, va) % 512
    requires t in t1.s.mem && i < |t1.s.mem[t]| && Entry(t1.s.mem, t, i) != 0
    ensures PageFree(Trans(t0.s.mem, root, level), l, va) ==> Below(t0.tab, l, va)
  {
    if Below(t1.tab, l, va) {
      assert !OnPath(Key(l - 1, Num(l, va)), va, l);
    } else {
      LeafInTheWay(t1.s.mem, root, level, t1.tab, l, va);
    }
  }

  // -------------------------------------------------------- frames for them

  /** An operation that needs the tables `path`: each frame it takes becomes a table
      of the path; it is done only with all of them there, and out of memory only
      with nothing free and one of them missing. */
  ghost predicate Spent(free: nat, keys: set<Key>, free': nat, keys': set<Key>, path: set<Key>, done: bool, out: bool) {
    var spent :=
      && free' + |keys'| == free + |keys|
      && keys <= keys' <= keys + path
      && (done ==> path <= keys')
      && (out ==> free' == 0 && !(path <= keys'));
    spent
  }

  /** What growing the path to `va` spends. */
  lemma SpentOnPath(root: nat, level: nat, a: Tree, b: Tree, va: nat, l: nat, free: nat, free': nat, done: bool, out: bool)
    requires Good(a.s, root, level, a.intrm, a.tab) && Good(b.s, root, level, b.intrm, b.tab)
    requires Grew(root, level, a, b, va, l) && va < Limit(level) && 1 <= l <= 3
    requires free' + |b.tab.Keys| == free + |a.tab.Keys| && (done ==> Key(l, Num(l + 1, va)) in b.tab)
    requires out ==> free' == 0 && Gap(level, b.tab, va, l)
    ensures Spent(free, a.tab.Keys, free', b.tab.Keys, PathKeys(level, va, l), done, out)
  {
    GrewOnPath(root, level, a, b, va, l);
    if done { PathPresent(b.s.mem, root, level, b.tab, va, l); }
  }

  /** So the free frames and the missing tables, counted before, decide. */
  lemma SpentDecides(free: nat, keys: set<Key>, free': nat, keys': set<Key>, path: set<Key>, done: bool, out: bool)
    requires Spent(free, keys, free', keys', path, done, out)
    ensures done ==> |path - keys| <= free && keys' == keys + path
    ensures out ==> |path - keys| > free
  {
    var missing := path - keys;
    assert keys + path == keys + missing;
    assert |keys + missing| == |keys| + |missing|;
    if done { assert keys' == keys + path; }
    if out {
      var k :| k in path && k !in keys';
      SubsetCard(keys', keys + missing - {k});
    }
  }

  /** As many free frames as levels below the root suffice for one page. */
  lemma EnoughForPage(level: nat, va: nat, l: nat, free: nat, keys: set<Key>, free': nat, keys': set<Key>, done: bool, out: bool)
    requires 3 <= level <= 4 && 1 <= l <= 3 && free >= level - l
    requires Spent(free, keys, free', keys', PathKeys(level, va, l), done, out)
    ensures !out
  {
    PathCount(level, va, l);
    SpentDecides(free, keys, free', keys', PathKeys(level, va, l), done, out);
    SubsetCard(PathKeys(level, va, l) - keys, PathKeys(level, va, l));
  }

  lemma {:induction false} SubsetCard<T>(a: set<T>, b: set<T>)
    requires a <= b
    ensures |a| <= |b|
    decreases a
  {
    if x :| x in a { SubsetCard(a - {x}, b - {x}); }
  }

  lemma SpentNothing(free: nat, keys: set<Key>)
    ensures Spent(free, keys, free, keys, {}, true, false)
  {
  }

  /** One operation after another that was done. */
  lemma SpentThen(f0: nat, k0: set<Key>, f1: nat, k1: set<Key>, f2: nat, k2: set<Key>,
                  first: set<Key>, second: set<Key>, done: bool, out: bool)
    requires Spent(f0, k0, f1, k1, first, true, false) && Spent(f1, k1, f2, k2, second, done, out)
    ensures Spent(f0, k0, f2, k2, first + second, done, out)
  {
  }

  /** What was not done needed no more than more tables. */
  lemma SpentWider(f0: nat, k0: set<Key>, f1: nat, k1: set<Key>, path: set<Key>, all: set<Key>, out: bool)
    requires Spent(f0, k0, f1, k1, path, false, out) && path <= all
    ensures Spent(f0, k0, f1, k1, all, false, out)
  {
  }

  // ------------------------------------------------------------- of a region

  /** The tables that the region's leaves from `va` on need. */
  ghost function KeysFrom(r: Region, level: nat, va: nat): set<Key>
    requires r.Mappable(4) && r.start <= va
    decreases r.End() - va
  {
    if va >= r.End() then {}
    else PathKeys(level, va, LeafLevel(r, va)) + KeysFrom(r, level, va + Span(LeafLevel(r, va)))
  }

  /** The tables a region needs. */
  ghost function RegionKeys(r: Region, level: nat): set<Key>
    requires r.Mappable(4)
  {
    KeysFrom(r, level, r.start)
  }

  lemma KeysFromNext(r: Region, level: nat, va: nat, l: nat, next: nat)
    requires r.Mappable(4) && r.start <= va < r.End() && l == LeafLevel(r, va) && next == va + Span(l)
    ensures KeysFrom(r, level, va) == PathKeys(level, va, l) + KeysFrom(r, level, next)
  {
  }

  /** One leaf moves from the tables still needed to those accounted for. */
  lemma KeysMove(r: Region, level: nat, va: nat, l: nat, next: nat, done: set<Key>, done': set<Key>)
    requires r.Mappable(4) && r.start <= va < r.End() && l == LeafLevel(r, va) && next == va + Span(l)
    requires done' == done + PathKeys(level, va, l)
    ensures done' + KeysFrom(r, level, next) == done + KeysFrom(r, level, va)
    ensures done' <= done + KeysFrom(r, level, va)
  {
    KeysFromNext(r, level, va, l, next);
  }

  /** The leaf that starts at `x` has the table on its path. */
  ghost predicate NeededAt(r: Region, level: nat, k: Key, x: nat)
    requires r.Mappable(4) && r.Contains(x)
  {
    k in PathKeys(level, x, LeafLevel(r, x))
  }

  lemma {:induction false} KeyOrigin(r: Region, level: nat, va: nat, k: Key) returns (x: nat)
    requires r.Mappable(4) && Boundary(r, va) && k in KeysFrom(r, level, va)
    ensures va <= x < r.End() && x in LeavesFrom(r, va) && Boundary(r, x) && NeededAt(r, level, k, x)
    decreases r.End() - va
  {
    assert LeavesFrom(r, va)[0] == va;
    if NeededAt(r, level, k, va) {
      x := va;
    } else {
      NextBoundary(r, va);
      x := KeyOrigin(r, level, va + Span(LeafLevel(r, va)), k);
    }
  }

  lemma {:induction false} KeyNeeded(r: Region, level: nat, va: nat, k: Key, x: nat)
    requires r.Mappable(4) && Boundary(r, va) && x in LeavesFrom(r, va) && r.Contains(x) && NeededAt(r, level, k, x)
    ensures k in KeysFrom(r, level, va)
    decreases r.End() - va
  {
    if x != va {
      NextBoundary(r, va);
      KeyNeeded(r, level, va + Span(LeafLevel(r, va)), k, x);
    }
  }

  /** The tables a region needs are exactly those on the paths of its leaves. */
  lemma KeysFromMeans(r: Region, level: nat, va: nat, k: Key)
    requires r.Mappable(4) && Boundary(r, va)
    ensures k in KeysFrom(r, level, va) <==>
            exists x: nat :: x in LeavesFrom(r, va) && r.Contains(x) && NeededAt(r, level, k, x)
  {
    if k in KeysFrom(r, level, va) {
      var x := KeyOrigin(r, level, va, k);
    } else if x: nat :| x in LeavesFrom(r, va) && r.Contains(x) && NeededAt(r, level, k, x) {
      KeyNeeded(r, level, va, k, x);
    }
  }

  /** A leftover table below the entry of the region's leaf at `va`. */
  ghost predicate Blocked(r: Region, tab: Tables, va: nat)
    requires r.Mappable(4) && r.Contains(va)
  {
    Below(tab, LeafLevel(r, va), va)
  }

  ghost predicate BlockedFrom(r: Region, tab: Tables, va: nat)
    requires r.Mappable(4) && r.start <= va
    decreases r.End() - va
  {
    va < r.End() && (Blocked(r, tab, va) || BlockedFrom(r, tab, va + Span(LeafLevel(r, va))))
  }

  /** Some leaf of the region has a leftover table in its way. */
  ghost predicate Obstructed(r: Region, tab: Tables)
    requires r.Mappable(4)
  {
    BlockedFrom(r, tab, r.start)
  }

  /** ... which is to say, at some leaf start. */
  lemma {:induction false} BlockedFromMeans(r: Region, tab: Tables, va: nat)
    requires r.Mappable(4) && Boundary(r, va)
    ensures BlockedFrom(r, tab, va) <==>
            exists x :: x in LeavesFrom(r, va) && r.start <= x < r.End() && Blocked(r, tab, x)
    decreases r.End() - va
  {
    if va < r.End() {
      NextBoundary(r, va);
      BlockedFromMeans(r, tab, va + Span(LeafLevel(r, va)));
      assert LeavesFrom(r, va)[0] == va;
    }
  }

  lemma BlockedNext(r: Region, tab: Tables, va: nat, next: nat)
    requires r.Mappable(4) && r.start <= va < r.End() && next == va + Span(LeafLevel(r, va))
    ensures BlockedFrom(r, tab, va) <==> Blocked(r, tab, va) || BlockedFrom(r, tab, next)
  {
  }

  /** A region never stands in its own way: no table it needs lies below the entry
      of one of its leaves. */
  lemma NotOwnObstacle(r: Region, level: nat, va: nat, l: nat)
    requires r.Mappable(4) && Boundary(r, va) && va < r.End() && l == LeafLevel(r, va) && l > 1
    ensures Key(l - 1, Num(l, va)) !in RegionKeys(r, level)
  {
    var k := Key(l - 1, Num(l, va));
    if k in RegionKeys(r, level) {
      StartIsBoundary(r);
      var x := KeyOrigin(r, level, r.start, k);
      PageNumbers(l, va, x);
      SameLeaf(r, va, x);
      assert false;
    }
  }

  /** Where no table but the root is empty, nothing obstructs a free region. */
  lemma {:induction false} DenseUnblocked(xl: imap<nat, Xlate>, level: nat, tab: Tables, r: Region, va: nat)
    requires r.Mappable(4) && Boundary(r, va) && 3 <= level && Dense(xl, level, tab) && RegionFree(xl, r)
    ensures !BlockedFrom(r, tab, va)
    decreases r.End() - va
  {
    if va < r.End() {
      var l := LeafLevel(r, va);
      NextBoundary(r, va);
      DenseUnblocked(xl, level, tab, r, va + Span(l));
      if l > 1 {
        FreeLeaf(xl, r, va, l);
        DenseFree(xl, level, tab, l, va);
      }
    }
  }

  lemma FreeLeaf(xl: imap<nat, Xlate>, r: Region, va: nat, l: nat)
    requires r.Mappable(4) && Boundary(r, va) && va < r.End() && l == LeafLevel(r, va) && RegionFree(xl, r)
    ensures PageFree(xl, l, va)
  {
    LeafInside(r, va);
    forall x: nat | x in xl ensures Num(l, x) != Num(l, va) { PageNumbers(l, va, x); }
  }

  /** The next page of a free region, once the pages before it are mapped. */
  lemma NextPageFree(xl: imap<nat, Xlate>, r: Region, va: nat, l: nat)
    requires r.Mappable(4) && Boundary(r, va) && va < r.End() && l == LeafLevel(r, va) && RegionFree(xl, r)
    ensures PageFree(xl + Slice(r, r.start, va), l, va)
  {
    LeafInside(r, va);
    forall x: nat | x in xl + Slice(r, r.start, va) ensures Num(l, x) != Num(l, va) { PageNumbers(l, va, x); }
  }
}
