/** The 3- or 4-level radix tree in frame memory, and what each in-place write
    does to the translation it represents. */
module PageTree {
  import opened Bits
  import opened Descriptor
  import opened Geometry

  datatype PagingError = NoMemory | NotMapped | AlreadyMapped | MappedToHugePage
  datatype Result<+T> = Ok(value: T) | Err(error: PagingError)

  /** Frame memory: 512 descriptors at each frame address. */
  type Memory = map<nat, seq<nat>>


  function ZeroFrame(): (s: seq<nat>)
    ensures |s| == 512 && forall i | 0 <= i < 512 :: s[i] == 0
  {
    seq(512, i => 0)
  }

  function Entry(mem: Memory, frame: nat, i: nat): nat {
    if frame in mem && i < |mem[frame]| then mem[frame][i] else 0
  }

  function Store(mem: Memory, frame: nat, i: nat, d: nat): Memory
    requires frame in mem && i < |mem[frame]|
  {
    var t: seq<nat> := mem[frame][i := d];
    mem[frame := t]
  }

  function NextTable(d: nat): Result<nat> {
    if !IsPresent(d) then Err(NotMapped)
    else if IsHuge(d) then Err(MappedToHugePage)
    else Ok(Addr(d))
  }

  /** An entry of a table, with the page size of its level. */
  datatype Slot = Slot(table: nat, index: nat, level: nat)

  function GetEntry(mem: Memory, root: nat, levels: nat, va: nat): Result<Slot> {
    var p3 := if levels == 4 then NextTable(Entry(mem, root, Index(4, va))) else Ok(root);
    if p3.Err? then Err(p3.error) else
    var e3 := Entry(mem, p3.value, Index(3, va));
    if IsHuge(e3) then Ok(Slot(p3.value, Index(3, va), 3)) else
    var p2 := NextTable(e3);
    if p2.Err? then Err(p2.error) else
    var e2 := Entry(mem, p2.value, Index(2, va));
    if IsHuge(e2) then Ok(Slot(p2.value, Index(2, va), 2)) else
    var p1 := NextTable(e2);
    if p1.Err? then Err(p1.error) else
    Ok(Slot(p1.value, Index(1, va), 1))
  }

  /** What a leaf descriptor of level `l` translates `va` to. */
  function Decoded(d: nat, l: nat, va: nat): Result<Xlate>
    requires 1 <= l <= 3
  {
    if IsUnused(d) then Err(NotMapped)
    else Ok(Xlate(Addr(d) + (va - Base(l, va)), FlagsOf(d), l))
  }

  function Query(mem: Memory, root: nat, levels: nat, va: nat): Result<Xlate> {
    var s := GetEntry(mem, root, levels, va);
    if s.Err? then Err(s.error)
    else Decoded(Entry(mem, s.value.table, s.value.index), s.value.level, va)
  }

  // ------------------------------------------------------------- tree shape

  /** The table of level `level` whose entries are numbered `512 * num + i`. */
  datatype Key = Key(level: nat, num: nat)

  type Tables = map<Key, nat>

  /** A non-table entry of a level-`l` table. */
  ghost predicate LeafOrHole(l: nat, d: nat) {
    d == 0 || (1 <= l <= 3 && IsPresent(d) && AttrIndexOk(d) && IsHuge(d) == (l != 1))
  }

  ghost predicate EntryOk(mem: Memory, tab: Tables, k: Key, i: nat)
    requires k in tab
  {
    var d := Entry(mem, tab[k], i);
    if k.level > 1 && Key(k.level - 1, 512 * k.num + i) in tab
    then d != 0 && IsPresent(d) && !IsHuge(d) && Addr(d) == tab[Key(k.level - 1, 512 * k.num + i)]
    else LeafOrHole(k.level, d)
  }

  ghost predicate KeyOk(mem: Memory, levels: nat, tab: Tables, k: Key)
    requires k in tab
  {
    && 1 <= k.level <= levels
    && (k.level == levels ==> k.num == 0)
    && (k.level < levels ==> Key(k.level + 1, k.num / 512) in tab)
    && tab[k] in mem && |mem[tab[k]]| == 512
    && tab[k] % 0x1000 == 0 && tab[k] < PHYS_LIMIT
  }

  /** Different places hold different tables. */
  ghost predicate Apart(tab: Tables, k: Key, k': Key)
    requires k in tab && k' in tab
  {
    k != k' ==> tab[k] != tab[k']
  }

  /** The reachable tables are exactly `tab`, each at its own place in the tree. */
  ghost predicate Wf(mem: Memory, root: nat, levels: nat, tab: Tables) {
    && 3 <= levels <= 4
    && Key(levels, 0) in tab && tab[Key(levels, 0)] == root
    && (forall k {:trigger KeyOk(mem, levels, tab, k)} | k in tab :: KeyOk(mem, levels, tab, k))
    && (forall k, k' {:trigger Apart(tab, k, k')} | k in tab && k' in tab :: Apart(tab, k, k'))
    && (forall k, i {:trigger EntryOk(mem, tab, k, i)} | k in tab && 0 <= i < 512 :: EntryOk(mem, tab, k, i))
  }

  /** The level at which the walk for `va` stops. */
  ghost function Depth(tab: Tables, va: nat): (l: nat)
    ensures 1 <= l <= 3
  {
    if Key(1, Num(2, va)) in tab then 1 else if Key(2, Num(3, va)) in tab then 2 else 3
  }

  lemma Closed(mem: Memory, root: nat, levels: nat, tab: Tables, va: nat)
    requires Wf(mem, root, levels, tab) && va < Limit(levels)
    ensures Key(1, Num(2, va)) in tab ==> Key(2, Num(3, va)) in tab
    ensures Key(2, Num(3, va)) in tab ==> Key(3, Num(4, va)) in tab
    ensures levels == 3 ==> Num(4, va) == 0
    ensures levels == 4 ==> Num(5, va) == 0
  {
    NumParent(2, va); NumParent(3, va);
    if Key(1, Num(2, va)) in tab { assert KeyOk(mem, levels, tab, Key(1, Num(2, va))); }
    if Key(2, Num(3, va)) in tab { assert KeyOk(mem, levels, tab, Key(2, Num(3, va))); }
  }

  /** One step of the walk, by table number. */
  lemma StepByKeys(mem: Memory, root: nat, levels: nat, tab: Tables, l: nat, va: nat)
    requires Wf(mem, root, levels, tab) && va < Limit(levels)
    requires 1 <= l <= levels && Key(l, Num(l + 1, va)) in tab
    ensures var d := Entry(mem, tab[Key(l, Num(l + 1, va))], Index(l, va));
            if l > 1 && Key(l - 1, Num(l, va)) in tab
            then d != 0 && NextTable(d) == Ok(tab[Key(l - 1, Num(l, va))]) && !IsHuge(d)
            else LeafOrHole(l, d)
  {
    var k := Key(l, Num(l + 1, va));
    IndexIsNum(l, va); NumParent(l, va);
    assert EntryOk(mem, tab, k, Num(l, va) % 512);
  }

  /** The walk of the source ends in the table and entry that the numbers name. */
  lemma WalkByKeys(mem: Memory, root: nat, levels: nat, tab: Tables, va: nat)
    requires Wf(mem, root, levels, tab) && va < Limit(levels)
    ensures var l := Depth(tab, va);
            GetEntry(mem, root, levels, va) ==
            if Key(3, Num(4, va)) !in tab then Err(NotMapped)
            else Ok(Slot(tab[Key(l, Num(l + 1, va))], Index(l, va), l))
  {
    ZeroWord();
    Closed(mem, root, levels, tab, va);
    if levels == 4 { StepByKeys(mem, root, levels, tab, 4, va); }
    if Key(3, Num(4, va)) in tab { StepByKeys(mem, root, levels, tab, 3, va); }
    if Key(2, Num(3, va)) in tab { StepByKeys(mem, root, levels, tab, 2, va); }
  }

  /** The descriptor that decides the translation of `va`; 0 when there is none. */
  ghost function Look(mem: Memory, tab: Tables, va: nat): nat {
    var l := Depth(tab, va);
    var k := Key(l, Num(l + 1, va));
    if k in tab then Entry(mem, tab[k], Num(l, va) % 512) else 0
  }

  lemma QueryByKeys(mem: Memory, root: nat, levels: nat, tab: Tables, va: nat)
    requires Wf(mem, root, levels, tab) && va < Limit(levels)
    ensures Query(mem, root, levels, va) == Decoded(Look(mem, tab, va), Depth(tab, va), va)
  {
    WalkByKeys(mem, root, levels, tab, va);
    Closed(mem, root, levels, tab, va);
    IndexIsNum(Depth(tab, va), va);
  }

  // ---------------------------------------------------------- leaf writes

  /** Entry `i` of table `t` is `va`'s level-`l` entry, and no table hangs below it. */
  ghost predicate LeafPlace(mem: Memory, tab: Tables, l: nat, va: nat, t: nat, i: nat) {
    && 1 <= l <= 3 && Key(l, Num(l + 1, va)) in tab && (l > 1 ==> Key(l - 1, Num(l, va)) !in tab)
    && t == tab[Key(l, Num(l + 1, va))] && i == Num(l, va) % 512
    && t in mem && |mem[t]| == 512
  }

  lemma StoreLeafWf(mem: Memory, root: nat, levels: nat, tab: Tables, l: nat, va: nat, t: nat, i: nat, d: nat)
    requires Wf(mem, root, levels, tab) && va < Limit(levels) && LeafPlace(mem, tab, l, va, t, i) && LeafOrHole(l, d)
    ensures Wf(Store(mem, t, i, d), root, levels, tab)
  {
    var k0 := Key(l, Num(l + 1, va));
    NumParent(l, va);
    var mem' := Store(mem, t, i, d);
    forall k | k in tab ensures KeyOk(mem', levels, tab, k) { assert KeyOk(mem, levels, tab, k); }
    forall k, j | k in tab && 0 <= j < 512 ensures EntryOk(mem', tab, k, j) {
      assert EntryOk(mem, tab, k, j);
      assert KeyOk(mem, levels, tab, k);
      assert Apart(tab, k, k0);
    }
  }

  /** Writing a leaf changes the translation of exactly the addresses it covers. */
  lemma StoreLeafQuery(mem: Memory, root: nat, levels: nat, tab: Tables, l: nat, va: nat, t: nat, i: nat, d: nat, x: nat)
    requires Wf(mem, root, levels, tab) && va < Limit(levels) && x < Limit(levels)
    requires LeafPlace(mem, tab, l, va, t, i) && LeafOrHole(l, d)
    ensures Query(Store(mem, t, i, d), root, levels, x) ==
            if Num(l, x) == Num(l, va) then Decoded(d, l, x) else Query(mem, root, levels, x)
  {
    StoreLeafWf(mem, root, levels, tab, l, va, t, i, d);
    QueryByKeys(mem, root, levels, tab, x);
    QueryByKeys(Store(mem, t, i, d), root, levels, tab, x);
    if Num(l, x) == Num(l, va) {
      PlaceDepth(mem, root, levels, tab, l, va, x);
    } else {
      LookElsewhere(mem, root, levels, tab, l, va, t, i, d, x);
    }
  }

  lemma LookElsewhere(mem: Memory, root: nat, levels: nat, tab: Tables, l: nat, va: nat, t: nat, i: nat, d: nat, x: nat)
    requires Wf(mem, root, levels, tab) && LeafPlace(mem, tab, l, va, t, i) && Num(l, x) != Num(l, va)
    ensures Look(Store(mem, t, i, d), tab, x) == Look(mem, tab, x)
  {
    NumParent(l, va); NumParent(l, x);
    var m := Depth(tab, x);
    var k0, k := Key(l, Num(l + 1, va)), Key(m, Num(m + 1, x));
    if k in tab { assert Apart(tab, k, k0); }
  }

  lemma PlaceDepth(mem: Memory, root: nat, levels: nat, tab: Tables, l: nat, va: nat, x: nat)
    requires Wf(mem, root, levels, tab) && va < Limit(levels) && x < Limit(levels)
    requires 1 <= l <= 3 && Key(l, Num(l + 1, va)) in tab && (l > 1 ==> Key(l - 1, Num(l, va)) !in tab)
    requires Num(l, x) == Num(l, va)
    ensures Depth(tab, x) == l && Num(l + 1, x) == Num(l + 1, va)
  {
    NumParent(l, va); NumParent(l, x);
    Closed(mem, root, levels, tab, x);
    if l > 1 { NumParent(l - 1, x); }
    if l == 1 { NumParent(2, x); NumParent(2, va); }
  }

  // ---------------------------------------------------------- new tables

  ghost function Parent(k: Key): Key { Key(k.level + 1, k.num / 512) }

  /** A free place for table `k`: the empty entry `i` of its parent table `p`. */
  ghost predicate TablePlace(mem: Memory, levels: nat, tab: Tables, k: Key, p: nat, i: nat) {
    && 1 <= k.level < levels && k !in tab && Parent(k) in tab
    && p == tab[Parent(k)] && i == k.num % 512
    && p in mem && |mem[p]| == 512 && Entry(mem, p, i) == 0
  }

  /** Zero the frame, then link it from entry `i` of the parent table `p`. */
  ghost function LinkTable(mem: Memory, p: nat, i: nat, f: nat): Memory
    requires p in mem && i < |mem[p]| == 512
  {
    Store(mem[f := ZeroFrame()], p, i, SetTable(0, f))
  }

  /** A frame that can become a table of this tree. */
  ghost predicate NewFrame(tab: Tables, f: nat) {
    f !in tab.Values && f % 0x1000 == 0 && f < PHYS_LIMIT
  }

  lemma LinkTableWf(mem: Memory, root: nat, levels: nat, tab: Tables, k: Key, p: nat, i: nat, f: nat)
    requires Wf(mem, root, levels, tab) && TablePlace(mem, levels, tab, k, p, i) && NewFrame(tab, f)
    ensures Wf(LinkTable(mem, p, i, f), root, levels, tab[k := f])
  {
    TableRoundTrip(f);
    var mem', tab' := LinkTable(mem, p, i, f), tab[k := f];
    forall k1 | k1 in tab' ensures KeyOk(mem', levels, tab', k1) {
      if k1 != k { assert KeyOk(mem, levels, tab, k1); }
    }
    forall k1, k2 | k1 in tab' && k2 in tab' ensures Apart(tab', k1, k2) {
      if k1 in tab && k2 in tab { assert Apart(tab, k1, k2); }
    }
    forall k1, j | k1 in tab' && 0 <= j < 512 ensures EntryOk(mem', tab', k1, j) {
      if k1 == k { NewTableEntry(mem, root, levels, tab, k, p, i, f, j); }
      else {
        assert KeyOk(mem, levels, tab, k1) && EntryOk(mem, tab, k1, j) && Apart(tab, k1, Parent(k));
        LinkTableEntry(mem, levels, tab, k, p, i, f, k1, j);
      }
    }
  }

  lemma ParentIn(mem: Memory, root: nat, levels: nat, tab: Tables, k: Key)
    requires Wf(mem, root, levels, tab) && k in tab && k.level < levels
    ensures k.level >= 1 && Parent(k) in tab
  {
    assert KeyOk(mem, levels, tab, k);
  }

  /** The new table's entries are holes. */
  lemma NewTableEntry(mem: Memory, root: nat, levels: nat, tab: Tables, k: Key, p: nat, i: nat, f: nat, j: nat)
    requires Wf(mem, root, levels, tab) && TablePlace(mem, levels, tab, k, p, i) && NewFrame(tab, f) && j < 512
    ensures EntryOk(LinkTable(mem, p, i, f), tab[k := f], k, j)
  {
    var child := Key(k.level - 1, 512 * k.num + j);
    if child in tab { ParentIn(mem, root, levels, tab, child); }
  }

  /** The other tables keep their entries, but for the link in the parent. */
  lemma LinkTableEntry(mem: Memory, levels: nat, tab: Tables, k: Key, p: nat, i: nat, f: nat, k1: Key, j: nat)
    requires TablePlace(mem, levels, tab, k, p, i) && NewFrame(tab, f)
    requires k1 in tab && (k1 != Parent(k) ==> tab[k1] != p)
    requires j < 512 && KeyOk(mem, levels, tab, k1) && EntryOk(mem, tab, k1, j)
    ensures EntryOk(LinkTable(mem, p, i, f), tab[k := f], k1, j)
  {
    if k1 == Parent(k) && j == i {
      TableRoundTrip(f);
    } else {
      assert Key(k1.level - 1, 512 * k1.num + j) != k;
      assert Entry(LinkTable(mem, p, i, f), tab[k1], j) == Entry(mem, tab[k1], j);
    }
  }

  /** Linking an empty table changes no translation. */
  lemma LinkTableQuery(mem: Memory, root: nat, levels: nat, tab: Tables, k: Key, p: nat, i: nat, f: nat, x: nat)
    requires Wf(mem, root, levels, tab) && TablePlace(mem, levels, tab, k, p, i) && NewFrame(tab, f) && x < Limit(levels)
    ensures Query(LinkTable(mem, p, i, f), root, levels, x) == Query(mem, root, levels, x)
  {
    LinkTableWf(mem, root, levels, tab, k, p, i, f);
    QueryByKeys(mem, root, levels, tab, x);
    QueryByKeys(LinkTable(mem, p, i, f), root, levels, tab[k := f], x);
    if k.num == Num(k.level + 1, x) {
      LookBelowLink(mem, root, levels, tab, k, p, i, f, x);
    } else {
      LookBesideLink(mem, root, levels, tab, k, p, i, f, x);
    }
  }

  lemma LookBelowLink(mem: Memory, root: nat, levels: nat, tab: Tables, k: Key, p: nat, i: nat, f: nat, x: nat)
    requires Wf(mem, root, levels, tab) && TablePlace(mem, levels, tab, k, p, i) && NewFrame(tab, f) && x < Limit(levels)
    requires k.num == Num(k.level + 1, x)
    ensures Look(mem, tab, x) == 0 && Look(LinkTable(mem, p, i, f), tab[k := f], x) == 0
  {
    Closed(mem, root, levels, tab, x);
    NumParent(k.level + 1, x);
  }

  lemma LookBesideLink(mem: Memory, root: nat, levels: nat, tab: Tables, k: Key, p: nat, i: nat, f: nat, x: nat)
    requires Wf(mem, root, levels, tab) && TablePlace(mem, levels, tab, k, p, i) && NewFrame(tab, f) && x < Limit(levels)
    requires k.num != Num(k.level + 1, x)
    ensures Look(LinkTable(mem, p, i, f), tab[k := f], x) == Look(mem, tab, x)
    ensures Depth(tab[k := f], x) == Depth(tab, x)
  {
    var l := Depth(tab, x);
    var k1 := Key(l, Num(l + 1, x));
    NumParent(l, x);
    if k1 in tab { assert Apart(tab, k1, Parent(k)); }
  }

  // ------------------------------------------- the tree as a partial function

  /** The tree as a partial function from guest address to translation. */
  ghost function Trans(mem: Memory, root: nat, levels: nat): imap<nat, Xlate> {
    imap va: nat | va < Limit(levels) && Query(mem, root, levels, va).Ok? :: Query(mem, root, levels, va).value
  }

  /** The addresses of one level-`l` entry, all translated by descriptor `d`. */
  ghost function Block(l: nat, va: nat, d: nat): imap<nat, Xlate>
    requires 1 <= l <= 3 && d != 0
  {
    imap x: nat | Num(l, x) == Num(l, va) :: Decoded(d, l, x).value
  }

  ghost function WithoutBlock(t: imap<nat, Xlate>, l: nat, va: nat): imap<nat, Xlate>
    requires 1 <= l <= 3
  {
    imap x: nat | x in t && Num(l, x) != Num(l, va) :: t[x]
  }

  /** A query either finds the translation or answers NotMapped. */
  lemma QueryIsTrans(mem: Memory, root: nat, levels: nat, tab: Tables, va: nat)
    requires Wf(mem, root, levels, tab) && va < Limit(levels)
    ensures Query(mem, root, levels, va) ==
            if va in Trans(mem, root, levels) then Ok(Trans(mem, root, levels)[va]) else Err(NotMapped)
  {
    QueryByKeys(mem, root, levels, tab, va);
  }

  lemma LinkTableTrans(mem: Memory, root: nat, levels: nat, tab: Tables, k: Key, p: nat, i: nat, f: nat)
    requires Wf(mem, root, levels, tab) && TablePlace(mem, levels, tab, k, p, i) && NewFrame(tab, f)
    ensures Trans(LinkTable(mem, p, i, f), root, levels) == Trans(mem, root, levels)
  {
    forall x: nat | x < Limit(levels)
      ensures Query(LinkTable(mem, p, i, f), root, levels, x) == Query(mem, root, levels, x)
    {
      LinkTableQuery(mem, root, levels, tab, k, p, i, f, x);
    }
  }

  lemma StoreLeafTrans(mem: Memory, root: nat, levels: nat, tab: Tables, l: nat, va: nat, t: nat, i: nat, d: nat)
    requires Wf(mem, root, levels, tab) && va < Limit(levels) && LeafPlace(mem, tab, l, va, t, i) && LeafOrHole(l, d)
    ensures Trans(Store(mem, t, i, d), root, levels) ==
            if d != 0 then Trans(mem, root, levels) + Block(l, va, d)
            else WithoutBlock(Trans(mem, root, levels), l, va)
  {
    var m, m' := Trans(mem, root, levels), Trans(Store(mem, t, i, d), root, levels);
    forall x: nat
      ensures x in m' <==> if Num(l, x) == Num(l, va) then d != 0 else x in m
      ensures x in m' ==> m'[x] == if Num(l, x) == Num(l, va) then Decoded(d, l, x).value else m[x]
    {
      BlockInLimit(levels, l, va);
      if x < Limit(levels) { StoreLeafQuery(mem, root, levels, tab, l, va, t, i, d, x); }
    }
    MapUpdate(m, m', l, va, d);
  }

  lemma MapUpdate(t: imap<nat, Xlate>, t': imap<nat, Xlate>, l: nat, va: nat, d: nat)
    requires 1 <= l <= 3
    requires forall x: nat :: x in t' <==> if Num(l, x) == Num(l, va) then d != 0 else x in t
    requires forall x: nat | x in t' :: t'[x] == if Num(l, x) == Num(l, va) then Decoded(d, l, x).value else t[x]
    ensures t' == if d != 0 then t + Block(l, va, d) else WithoutBlock(t, l, va)
  {
  }

  lemma BlockInLimit(levels: nat, l: nat, va: nat)
    requires 3 <= levels <= 4 && 1 <= l <= 3 && va < Limit(levels)
    ensures forall x: nat | Num(l, x) == Num(l, va) :: x < Limit(levels)
  {
  }

  /** A tree depends only on its own frames. */
  lemma SameFrames(mem: Memory, mem': Memory, root: nat, levels: nat, tab: Tables)
    requires Wf(mem, root, levels, tab)
    requires forall f | f in tab.Values :: f in mem && f in mem' && mem'[f] == mem[f]
    ensures Wf(mem', root, levels, tab) && Trans(mem', root, levels) == Trans(mem, root, levels)
  {
    forall k | k in tab ensures KeyOk(mem', levels, tab, k) { assert KeyOk(mem, levels, tab, k); }
    forall k, i | k in tab && 0 <= i < 512 ensures EntryOk(mem', tab, k, i) { assert EntryOk(mem, tab, k, i); }
    forall x: nat | x < Limit(levels) ensures Query(mem', root, levels, x) == Query(mem, root, levels, x) {
      QueryByKeys(mem, root, levels, tab, x);
      QueryByKeys(mem', root, levels, tab, x);
    }
  }

  /** A root table with nothing in it is the empty function. */
  lemma EmptyTree(mem: Memory, root: nat, levels: nat)
    requires 3 <= levels <= 4 && root in mem && mem[root] == ZeroFrame() && root % 0x1000 == 0 && root < PHYS_LIMIT
    ensures Wf(mem, root, levels, map[Key(levels, 0) := root]) && Trans(mem, root, levels) == imap[]
  {
    var tab := map[Key(levels, 0) := root];
    forall k, i | k in tab && 0 <= i < 512 ensures EntryOk(mem, tab, k, i) { }
    forall x: nat | x < Limit(levels) ensures Query(mem, root, levels, x) == Err(NotMapped) {
      QueryByKeys(mem, root, levels, tab, x);
    }
  }

  // ------------------------------------------------------- tables form a tree

  /** The table reached from the root by following the entries of `path`. */
  function TableAt(mem: Memory, root: nat, path: seq<nat>): Result<nat> {
    if path == [] then Ok(root)
    else
      var t := TableAt(mem, root, path[..|path| - 1]);
      if t.Err? then t else NextTable(Entry(mem, t.value, path[|path| - 1]))
  }

  /** Paths that pass only through entries above level 1. */
  predicate TablePath(levels: nat, path: seq<nat>) {
    |path| < levels && forall i | 0 <= i < |path| :: path[i] < 512
  }

  function PathNum(path: seq<nat>): nat {
    if path == [] then 0 else 512 * PathNum(path[..|path| - 1]) + path[|path| - 1]
  }

  lemma {:induction false} PathToKey(mem: Memory, root: nat, levels: nat, tab: Tables, path: seq<nat>)
    requires Wf(mem, root, levels, tab) && TablePath(levels, path) && TableAt(mem, root, path).Ok?
    ensures var k := Key(levels - |path|, PathNum(path)); k in tab && tab[k] == TableAt(mem, root, path).value
    decreases |path|
  {
    if path != [] {
      var init := path[..|path| - 1];
      PathToKey(mem, root, levels, tab, init);
      var k := Key(levels - |init|, PathNum(init));
      assert EntryOk(mem, tab, k, path[|path| - 1]);
      PathStep(mem, tab, k, path[|path| - 1]);
    }
  }

  /** Above level 1, an entry that can be followed leads to a table of the tree. */
  lemma PathStep(mem: Memory, tab: Tables, k: Key, i: nat)
    requires k in tab && 2 <= k.level && EntryOk(mem, tab, k, i) && NextTable(Entry(mem, tab[k], i)).Ok?
    ensures var child := Key(k.level - 1, 512 * k.num + i);
            child in tab && NextTable(Entry(mem, tab[k], i)) == Ok(tab[child])
  {
    ZeroWord();
  }

  lemma {:induction false} KeyToPath(mem: Memory, root: nat, levels: nat, tab: Tables, k: Key) returns (path: seq<nat>)
    requires Wf(mem, root, levels, tab) && k in tab
    ensures TablePath(levels, path) && TableAt(mem, root, path) == Ok(tab[k])
    ensures |path| == levels - k.level && PathNum(path) == k.num
    decreases levels - k.level
  {
    assert KeyOk(mem, levels, tab, k);
    if k.level == levels {
      path := [];
    } else {
      var init := KeyToPath(mem, root, levels, tab, Parent(k));
      path := init + [k.num % 512];
      assert EntryOk(mem, tab, Parent(k), k.num % 512);
      ExtendPath(mem, root, init, k.num % 512);
    }
  }

  lemma ExtendPath(mem: Memory, root: nat, init: seq<nat>, i: nat)
    requires TableAt(mem, root, init).Ok?
    ensures TableAt(mem, root, init + [i]) == NextTable(Entry(mem, TableAt(mem, root, init).value, i))
    ensures PathNum(init + [i]) == 512 * PathNum(init) + i
  {
    var p := init + [i];
    assert p[..|p| - 1] == init && p[|p| - 1] == i;
  }

  lemma {:induction false} PathNumInjective(p: seq<nat>, q: seq<nat>)
    requires |p| == |q| && PathNum(p) == PathNum(q)
    requires forall i | 0 <= i < |p| :: p[i] < 512 && q[i] < 512
    ensures p == q
  {
    if p != [] {
      PathNumInjective(p[..|p| - 1], q[..|q| - 1]);
      assert p == p[..|p| - 1] + [p[|p| - 1]] && q == q[..|q| - 1] + [q[|q| - 1]];
    }
  }

  /** The reachable tables are exactly `tab.Values`, and each is reached by one
      path only: a tree of fixed depth, every table with a single parent entry. */
  lemma TablesFormTree(mem: Memory, root: nat, levels: nat, tab: Tables)
    requires Wf(mem, root, levels, tab)
    ensures forall p | TablePath(levels, p) && TableAt(mem, root, p).Ok? :: TableAt(mem, root, p).value in tab.Values
    ensures forall f | f in tab.Values :: exists p :: TablePath(levels, p) && TableAt(mem, root, p) == Ok(f)
    ensures forall p, q | TablePath(levels, p) && TablePath(levels, q) && TableAt(mem, root, p).Ok?
                          && TableAt(mem, root, p) == TableAt(mem, root, q) :: p == q
  {
    forall p | TablePath(levels, p) && TableAt(mem, root, p).Ok?
      ensures TableAt(mem, root, p).value in tab.Values
    {
      PathToKey(mem, root, levels, tab, p);
    }
    forall f | f in tab.Values ensures exists p :: TablePath(levels, p) && TableAt(mem, root, p) == Ok(f) {
      var k :| k in tab && tab[k] == f;
      var p := KeyToPath(mem, root, levels, tab, k);
    }
    forall p, q | TablePath(levels, p) && TablePath(levels, q) && TableAt(mem, root, p).Ok?
                  && TableAt(mem, root, p) == TableAt(mem, root, q)
      ensures p == q
    {
      PathToKey(mem, root, levels, tab, p);
      PathToKey(mem, root, levels, tab, q);
      assert Apart(tab, Key(levels - |p|, PathNum(p)), Key(levels - |q|, PathNum(q)));
      PathNumInjective(p, q);
    }
  }

  // ------------------------------------------------------------- occupancy

  /** Some address below table `k` is translated. */
  ghost predicate Inhabited(t: imap<nat, Xlate>, k: Key) {
    1 <= k.level <= 3 && exists va: nat :: va in t && Num(k.level + 1, va) == k.num
  }

  /** No table but the root is empty. Unmapping and failed maps can break this. */
  ghost predicate Dense(t: imap<nat, Xlate>, levels: nat, tab: Tables) {
    forall k {:trigger Inhabited(t, k)} | k in tab && k.level < levels :: Inhabited(t, k)
  }

  /** A nonzero entry on the way to `va` with no table below is a larger leaf. */
  lemma LeafInTheWay(mem: Memory, root: nat, levels: nat, tab: Tables, l: nat, va: nat)
    requires Wf(mem, root, levels, tab) && va < Limit(levels) && 1 <= l <= 3
    requires Key(l, Num(l + 1, va)) in tab && (l > 1 ==> Key(l - 1, Num(l, va)) !in tab)
    requires Entry(mem, tab[Key(l, Num(l + 1, va))], Num(l, va) % 512) != 0
    ensures va in Trans(mem, root, levels) && Trans(mem, root, levels)[va].level == l
  {
    QueryByKeys(mem, root, levels, tab, va);
    PlaceDepth(mem, root, levels, tab, l, va, va);
  }

  /** A zero entry with no table below leaves all its addresses untranslated. */
  lemma HoleIsFree(mem: Memory, root: nat, levels: nat, tab: Tables, l: nat, va: nat)
    requires Wf(mem, root, levels, tab) && va < Limit(levels) && 1 <= l <= 3
    requires Key(l, Num(l + 1, va)) in tab && (l > 1 ==> Key(l - 1, Num(l, va)) !in tab)
    requires Entry(mem, tab[Key(l, Num(l + 1, va))], Num(l, va) % 512) == 0
    ensures forall x: nat | Num(l, x) == Num(l, va) :: x !in Trans(mem, root, levels)
  {
    forall x: nat | Num(l, x) == Num(l, va) && x < Limit(levels) ensures x !in Trans(mem, root, levels) {
      QueryByKeys(mem, root, levels, tab, x);
      PlaceDepth(mem, root, levels, tab, l, va, x);
    }
  }

  /** The block written by a page of size `l`. */
  lemma LeafBlock(l: nat, va: nat, paddr: nat, flags: MemFlags)
    requires 1 <= l <= 3
    ensures var d := LeafWord(Base(l, paddr), flags, l != 1);
            && d != 0 && LeafOrHole(l, d)
            && forall x: nat | Num(l, x) == Num(l, va) ::
                 Block(l, va, d)[x] == Xlate(PhysPage(Base(l, paddr)) + (x - Base(l, x)), AccessOf(flags), l)
  {
    LeafRoundTrip(Base(l, paddr), flags, l != 1);
  }
}
