/** Building a zone's memory from its configuration: `pt_init` and the guest
    address at which the zone finds its device tree. */
module ZoneMemory {
  import opened Bits
  import opened Descriptor
  import opened Geometry
  import opened PageTree
  import opened TableDemand
  import opened TreeInPool
  import opened RegionSet
  import opened MemorySets
  import Stage2

  const MEM_TYPE_RAM: nat := 0
  const MEM_TYPE_IO: nat := 1
  const MEM_TYPE_VIRTIO: nat := 2

  type Word64 = n: nat | n < U64_LIMIT

  /** A 64-bit sum of two terms. */
  function Wrapped(sum: nat): nat { if sum < U64_LIMIT then sum else sum - U64_LIMIT }

  datatype ConfigRegion = ConfigRegion(memType: nat, physicalStart: Word64, virtualStart: Word64, size: Word64)
  {
    predicate Backed() { memType == MEM_TYPE_RAM || memType == MEM_TYPE_IO }

    predicate HoldsPhysical(pa: nat) { physicalStart <= pa && Wrapped(physicalStart + size) > pa }

    predicate HoldsVirtual(va: nat) { virtualStart <= va < virtualStart + size }

    /** Page-aligned and within reach on both sides. */
    predicate WellPlaced(level: nat) {
      && virtualStart % 0x1000 == 0 && physicalStart % 0x1000 == 0 && size % 0x1000 == 0
      && virtualStart + size <= Limit(level) && physicalStart + size <= PHYS_LIMIT
    }
  }

  function FlagsFor(c: ConfigRegion): MemFlags {
    MemFlags(true, true, true, false, c.memType == MEM_TYPE_IO, false, false, false, false, false)
  }

  function RegionOf(c: ConfigRegion): Region {
    NewWithOffsetMapper(c.virtualStart, c.physicalStart, c.size, FlagsFor(c))
  }

  /** A block of `size` bytes from `b` on holds `va`, lies in the configured region, and
      is aligned on both sides. */
  predicate ConfigBlockAt(c: ConfigRegion, size: nat, va: nat, b: nat)
    requires size > 0
  {
    && b % size == 0 && b <= va < b + size && c.virtualStart <= b && b + size <= c.virtualStart + c.size
    && (c.physicalStart + (b - c.virtualStart)) % size == 0
  }

  ghost predicate ConfigBlock(c: ConfigRegion, size: nat, va: nat)
    requires size > 0
  {
    exists b: nat :: ConfigBlockAt(c, size, va, b)
  }

  /** 1G leaves where they fit, 2M leaves where only these fit, and 4K leaves. */
  ghost predicate ConfigLevel(c: ConfigRegion, va: nat, l: nat) {
    && (l == 3 <==> ConfigBlock(c, 0x4000_0000, va))
    && (l == 2 <==> !ConfigBlock(c, 0x4000_0000, va) && ConfigBlock(c, 0x20_0000, va))
    && (l == 1 <==> !ConfigBlock(c, 0x4000_0000, va) && !ConfigBlock(c, 0x20_0000, va))
  }

  lemma ConfiguredBlock(c: ConfigRegion, level: nat, size: nat, va: nat)
    requires c.WellPlaced(level) && c.HoldsVirtual(va) && size > 0
    ensures RegionOf(c).Mappable(4) && (HasBlock(RegionOf(c), size, va) <==> ConfigBlock(c, size, va))
  {
    var r := RegionOf(c);
    forall b: nat ensures BlockAt(r, size, va, b) <==> ConfigBlockAt(c, size, va, b) {
      if c.HoldsVirtual(b) { OffsetMapper(c.virtualStart, c.physicalStart, c.size, FlagsFor(c), b); }
    }
    if b: nat :| BlockAt(r, size, va, b) { assert ConfigBlockAt(c, size, va, b); }
    if b: nat :| ConfigBlockAt(c, size, va, b) { assert BlockAt(r, size, va, b); }
  }

  /** A configured region's leaves deliver the configured addresses, in the largest
      blocks that fit. */
  lemma ConfiguredLeaf(c: ConfigRegion, level: nat, va: nat)
    requires c.WellPlaced(level) && c.HoldsVirtual(va)
    ensures RegionOf(c).Mappable(4) && RegionOf(c).Contains(va)
    ensures var x := LeafOf(RegionOf(c), va);
            && x.paddr == c.physicalStart + (va - c.virtualStart) && x.access == Access(true, true, c.memType == MEM_TYPE_IO)
            && ConfigLevel(c, va, x.level)
  {
    ConfiguredBlock(c, level, 0x4000_0000, va);
    ConfiguredBlock(c, level, 0x20_0000, va);
    LeafLevelMeans(RegionOf(c), va);
    var r := RegionOf(c);
    OffsetMapper(c.virtualStart, c.physicalStart, c.size, FlagsFor(c), c.virtualStart);
    OffsetMapper(c.virtualStart, c.physicalStart, c.size, FlagsFor(c), va);
    InRangeLeaf(r, va);
  }

  // ------------------------------------------------- what a config describes

  predicate Sized(c: ConfigRegion) { c.Backed() && c.size > 0 }

  predicate Apart(c: ConfigRegion, d: ConfigRegion) {
    Sized(c) && Sized(d) ==> !Overlaps(RegionOf(c), RegionOf(d))
  }

  ghost predicate Disjoint(cs: seq<ConfigRegion>) {
    forall i, j {:trigger Apart(cs[i], cs[j])} | 0 <= i < j < |cs| :: Apart(cs[i], cs[j])
  }

  predicate Placed(c: ConfigRegion, level: nat) { c.Backed() ==> c.WellPlaced(level) }

  ghost predicate AllPlaced(cs: seq<ConfigRegion>, level: nat) {
    forall i {:trigger Placed(cs[i], level)} | 0 <= i < |cs| :: Placed(cs[i], level)
  }

  ghost predicate Held(cs: seq<ConfigRegion>, va: nat) {
    exists i :: 0 <= i < |cs| && cs[i].memType <= 1 && cs[i].HoldsVirtual(va)
  }

  /** The address reaches its configured physical address, in the largest block that fits. */
  ghost predicate ReachesAt(c: ConfigRegion, xl: imap<nat, Xlate>, va: nat)
    requires c.virtualStart <= va
  {
    && va in xl && xl[va].paddr == c.physicalStart + (va - c.virtualStart)
    && xl[va].access == Access(true, true, c.memType == 1) && ConfigLevel(c, va, xl[va].level)
  }

  ghost predicate Reaches(c: ConfigRegion, xl: imap<nat, Xlate>) {
    forall va: nat {:trigger ReachesAt(c, xl, va)} | c.HoldsVirtual(va) :: ReachesAt(c, xl, va)
  }

  /** The translation is exactly the union of the configured RAM and IO. */
  ghost predicate Describes(cs: seq<ConfigRegion>, xl: imap<nat, Xlate>) {
    && (forall va: nat | va in xl :: Held(cs, va))
    && (forall i | 0 <= i < |cs| && cs[i].memType <= 1 :: Reaches(cs[i], xl))
  }

  /** The regions that the configuration registers, in order. */
  ghost function Registered(cs: seq<ConfigRegion>): Regions {
    if cs == [] then map[] else
      var m := Registered(cs[..|cs| - 1]);
      var c := cs[|cs| - 1];
      if Sized(c) then m[c.virtualStart := RegionOf(c)] else m
  }

  lemma {:induction false} RegisteredFrom(cs: seq<ConfigRegion>, k: nat) returns (i: nat)
    requires k in Registered(cs)
    ensures i < |cs| && Sized(cs[i]) && k == cs[i].virtualStart && Registered(cs)[k] == RegionOf(cs[i])
  {
    var n := |cs| - 1;
    if Sized(cs[n]) && k == cs[n].virtualStart { i := n; } else { i := RegisteredFrom(cs[..n], k); }
  }

  lemma DisjointPrefix(cs: seq<ConfigRegion>, some: seq<ConfigRegion>)
    requires some <= cs && Disjoint(cs)
    ensures Disjoint(some)
  {
    forall i, j | 0 <= i < j < |some| ensures Apart(some[i], some[j]) { assert Apart(cs[i], cs[j]); }
  }

  lemma {:induction false} RegisteredHas(cs: seq<ConfigRegion>, i: nat)
    requires Disjoint(cs) && i < |cs| && Sized(cs[i])
    ensures cs[i].virtualStart in Registered(cs) && Registered(cs)[cs[i].virtualStart] == RegionOf(cs[i])
  {
    var n := |cs| - 1;
    if i < n {
      DisjointPrefix(cs, cs[..n]);
      RegisteredHas(cs[..n], i);
      assert Apart(cs[i], cs[n]);
    }
  }

  /** A set in step with the registered regions describes the configuration. */
  lemma RegisteredDescribes(cs: seq<ConfigRegion>, level: nat, v: View)
    requires AllPlaced(cs, level) && Disjoint(cs)
    requires v.regions == Registered(cs) && v.Healthy(level) && v.InStep()
    ensures Describes(cs, v.xl)
  {
    forall va: nat | va in v.xl ensures Held(cs, va) {
      HolderOf(cs, v, va);
    }
    forall i | 0 <= i < |cs| && cs[i].Backed() ensures Reaches(cs[i], v.xl) {
      assert Placed(cs[i], level);
      if cs[i].size > 0 { ShownOf(cs, v, i, level); }
    }
  }

  lemma HolderOf(cs: seq<ConfigRegion>, v: View, va: nat)
    requires v.regions == Registered(cs) && v.InStep() && va in v.xl
    ensures Held(cs, va)
  {
    assert InSome(v.regions, va);
    var k :| k in v.regions && v.regions[k].Contains(va);
    var i := RegisteredFrom(cs, k);
    assert cs[i].HoldsVirtual(va);
  }

  lemma ShownOf(cs: seq<ConfigRegion>, v: View, i: nat, level: nat)
    requires Disjoint(cs) && v.regions == Registered(cs) && ShowsAll(v.xl, v.regions)
    requires i < |cs| && Sized(cs[i]) && cs[i].WellPlaced(level)
    ensures Reaches(cs[i], v.xl)
  {
    RegisteredHas(cs, i);
    assert Shows(v.xl, v.regions[cs[i].virtualStart]);
    ShownReaches(cs[i], v.xl, level);
  }

  lemma ShownReaches(c: ConfigRegion, xl: imap<nat, Xlate>, level: nat)
    requires c.WellPlaced(level) && RegionOf(c).Mappable(4) && Shows(xl, RegionOf(c))
    ensures Reaches(c, xl)
  {
    forall va: nat | c.HoldsVirtual(va) ensures ReachesAt(c, xl, va) { ConfiguredLeaf(c, level, va); }
  }

  lemma RegisteredNext(done: seq<ConfigRegion>, c: ConfigRegion)
    ensures Registered(done + [c]) ==
            if Sized(c) then Registered(done)[c.virtualStart := RegionOf(c)] else Registered(done)
  {
    assert (done + [c])[..|done|] == done;
  }

  /** A further region overlaps none of the registered ones exactly when the
      configuration stays disjoint. */
  lemma FreeMeansDisjoint(done: seq<ConfigRegion>, c: ConfigRegion)
    requires Disjoint(done) && Sized(c)
    ensures FreeArea(Registered(done), RegionOf(c)) <==> Disjoint(done + [c])
  {
    var all, m := done + [c], Registered(done);
    if FreeArea(m, RegionOf(c)) {
      forall i, j | 0 <= i < j < |all| ensures Apart(all[i], all[j]) {
        if j < |done| { assert Apart(done[i], done[j]); } else if Sized(all[i]) { RegisteredHas(done, i); }
      }
    } else {
      var k :| k in m && Overlaps(m[k], RegionOf(c));
      var j := RegisteredFrom(done, k);
      assert !Apart(all[j], all[|done|]);
    }
  }

  lemma UnsizedKeepsDisjoint(done: seq<ConfigRegion>, c: ConfigRegion)
    requires Disjoint(done) && !Sized(c)
    ensures Disjoint(done + [c])
  {
    var all := done + [c];
    forall i, j | 0 <= i < j < |all| ensures Apart(all[i], all[j]) {
      if j < |done| { assert Apart(done[i], done[j]); }
    }
  }

  /** One round of `pt_init` over a backed region. */
  lemma InitRound(done: seq<ConfigRegion>, c: ConfigRegion, level: nat, v: View, v': View, res: HvResult, cut: nat)
    requires c.Backed() && Disjoint(done) && RegionOf(c).Mappable(level) && RegionOf(c).Mappable(4)
    requires v.regions == Registered(done) && v.Healthy(level) && v.InStep()
    requires Inserts(v, v', RegionOf(c), res, cut)
    ensures res.Done? ==> v'.regions == Registered(done + [c]) && v'.InStep() && Disjoint(done + [c])
    ensures res == Failed(EINVAL) <==> !Disjoint(done + [c])
  {
    RegisteredNext(done, c);
    InsertStep(v, v', level, RegionOf(c), res, cut);
    if Sized(c) { FreeMeansDisjoint(done, c); } else { UnsizedKeepsDisjoint(done, c); }
  }

  // ------------------------------------------------------ tables it needs

  ghost function KeysOf(c: ConfigRegion, level: nat): set<Key> {
    if c.Backed() && RegionOf(c).Mappable(4) then RegionKeys(RegionOf(c), level) else {}
  }

  /** The tables that the configured RAM and IO need. */
  ghost function ConfigKeys(cs: seq<ConfigRegion>, level: nat): set<Key> {
    if cs == [] then {} else ConfigKeys(cs[..|cs| - 1], level) + KeysOf(cs[|cs| - 1], level)
  }

  lemma ConfigKeysNext(done: seq<ConfigRegion>, c: ConfigRegion, level: nat)
    ensures ConfigKeys(done + [c], level) == ConfigKeys(done, level) + KeysOf(c, level)
  {
    assert (done + [c])[..|done|] == done;
  }

  lemma {:induction false} ConfigKeysPrefix(cs: seq<ConfigRegion>, some: seq<ConfigRegion>, level: nat)
    requires some <= cs
    ensures ConfigKeys(some, level) <= ConfigKeys(cs, level)
  {
    if |some| < |cs| {
      assert some <= cs[..|cs| - 1];
      ConfigKeysPrefix(cs[..|cs| - 1], some, level);
    } else {
      assert some == cs;
    }
  }

  /** There are frames for the tables that the configuration lacks. */
  ghost predicate Enough(m: Stage2.Before, cs: seq<ConfigRegion>, level: nat) {
    |ConfigKeys(cs, level) - m.tab.Keys| <= m.free
  }

  /** What the regions of `done` have spent. */
  ghost predicate SpentOn(m: Stage2.Before, done: seq<ConfigRegion>, level: nat, free: nat, keys: set<Key>) {
    Spent(m.free, m.tab.Keys, free, keys, ConfigKeys(done, level), true, false)
  }

  lemma SpentMore(m: Stage2.Before, n: Stage2.Before, done: seq<ConfigRegion>, c: ConfigRegion, level: nat,
                  free: nat, keys: set<Key>, res: HvResult)
    requires SpentOn(m, done, level, n.free, n.tab.Keys) && c.Backed() && RegionOf(c).Mappable(4)
    requires Spent(n.free, n.tab.Keys, free, keys, RegionKeys(RegionOf(c), level), res.Done?, res == Failed(ENOMEM))
    ensures res.Done? ==> SpentOn(m, done + [c], level, free, keys)
    ensures res == Failed(ENOMEM) ==> !Enough(m, done + [c], level)
  {
    var path := ConfigKeys(done, level) + KeysOf(c, level);
    ConfigKeysNext(done, c, level);
    SpentThen(m.free, m.tab.Keys, n.free, n.tab.Keys, free, keys, ConfigKeys(done, level), KeysOf(c, level),
              res.Done?, res == Failed(ENOMEM));
    SpentDecides(m.free, m.tab.Keys, free, keys, path, res.Done?, res == Failed(ENOMEM));
  }

  lemma PlacedMappable(c: ConfigRegion, level: nat)
    requires c.WellPlaced(level)
    ensures RegionOf(c).Mappable(level) && RegionOf(c).Mappable(4)
  {
  }

  /** One round over a backed region: regions, translation and frames. */
  lemma RoundDone(done: seq<ConfigRegion>, c: ConfigRegion, level: nat, v: View, v': View, res: HvResult, cut: nat,
                  m: Stage2.Before, n: Stage2.Before, free: nat, keys: set<Key>)
    requires c.Backed() && Disjoint(done) && RegionOf(c).Mappable(level) && RegionOf(c).Mappable(4)
    requires v.regions == Registered(done) && v.Healthy(level) && v.InStep()
    requires Inserts(v, v', RegionOf(c), res, cut) && res != Failed(EFAULT)
    requires SpentOn(m, done, level, n.free, n.tab.Keys) && Accounts(n, free, keys, RegionOf(c), level, res)
    ensures res.Done? ==> v'.regions == Registered(done + [c]) && v'.InStep() && Disjoint(done + [c])
    ensures res.Done? ==> SpentOn(m, done + [c], level, free, keys)
    ensures res.Failed? ==> res.error == if Disjoint(done + [c]) then ENOMEM else EINVAL
    ensures res == Failed(ENOMEM) ==> !Enough(m, done + [c], level)
  {
    InitRound(done, c, level, v, v', res, cut);
    SpentMore(m, n, done, c, level, free, keys, res);
  }

  lemma SpentSame(m: Stage2.Before, done: seq<ConfigRegion>, c: ConfigRegion, level: nat, free: nat, keys: set<Key>)
    requires SpentOn(m, done, level, free, keys) && !c.Backed()
    ensures SpentOn(m, done + [c], level, free, keys)
  {
    ConfigKeysNext(done, c, level);
    assert ConfigKeys(done + [c], level) == ConfigKeys(done, level);
  }

  lemma SpentEnough(m: Stage2.Before, cs: seq<ConfigRegion>, level: nat, free: nat, keys: set<Key>)
    requires SpentOn(m, cs, level, free, keys)
    ensures Enough(m, cs, level)
  {
    SpentDecides(m.free, m.tab.Keys, free, keys, ConfigKeys(cs, level), true, false);
  }

  lemma NeverEnough(m: Stage2.Before, cs: seq<ConfigRegion>, some: seq<ConfigRegion>, level: nat)
    requires some <= cs && !Enough(m, some, level)
    ensures !Enough(m, cs, level)
  {
    ConfigKeysPrefix(cs, some, level);
    SubsetCard(ConfigKeys(some, level) - m.tab.Keys, ConfigKeys(cs, level) - m.tab.Keys);
  }

  // ---------------------------------------------------------- device tree

  /** A region holds the addresses of its range, and none if the range wraps around. */
  lemma HoldsMeans(c: ConfigRegion, pa: nat)
    ensures c.HoldsPhysical(pa) <==> c.physicalStart <= pa < c.physicalStart + c.size < 0x1_0000_0000_0000_0000
  {
  }

  /** The last region that holds the address, or -1. */
  ghost function LastHolder(cs: seq<ConfigRegion>, pa: nat): (k: int)
    ensures -1 <= k < |cs| && (k >= 0 ==> cs[k].HoldsPhysical(pa))
    ensures forall i | k < i < |cs| :: !cs[i].HoldsPhysical(pa)
  {
    if cs == [] then -1
    else if cs[|cs| - 1].HoldsPhysical(pa) then |cs| - 1
    else LastHolder(cs[..|cs| - 1], pa)
  }

  /** `virtual_start + dtb - physical_start` of the last region that holds the tree. */
  ghost function DtbOf(cs: seq<ConfigRegion>, dtb: nat, invalid: nat): nat {
    var k := LastHolder(cs, dtb);
    if k < 0 then invalid else Wrapped(cs[k].virtualStart + dtb - cs[k].physicalStart)
  }

  /** The guest address of the device tree, from the last region that holds it. */
  method DtbIpa(cs: seq<ConfigRegion>, dtb: nat, invalid: nat) returns (ipa: nat)
    ensures ipa == DtbOf(cs, dtb, invalid)
  {
    ipa := invalid;
    ghost var last := -1;
    var n := 0;
    while n < |cs|
      invariant n <= |cs| && -1 <= last < n && (last >= 0 ==> cs[last].HoldsPhysical(dtb))
      invariant forall i | last < i < n :: !cs[i].HoldsPhysical(dtb)
      invariant ipa == if last < 0 then invalid else Wrapped(cs[last].virtualStart + dtb - cs[last].physicalStart)
    {
      if cs[n].HoldsPhysical(dtb) {
        ipa := Wrapped(cs[n].virtualStart + dtb - cs[n].physicalStart);
        last := n;
      }
      n := n + 1;
    }
    assert last == LastHolder(cs, dtb);
  }

  /** Where only RAM and IO regions hold the device tree, the address that `DtbIpa`
      takes from one of them translates back to the tree: no sum has wrapped around. */
  lemma DtbTranslatesBack(cs: seq<ConfigRegion>, xl: imap<nat, Xlate>, dtb: nat, invalid: nat)
    requires Describes(cs, xl) && LastHolder(cs, dtb) >= 0 && forall va | va in xl :: va < U64_LIMIT
    requires forall j | 0 <= j < |cs| && cs[j].HoldsPhysical(dtb) :: cs[j].Backed()
    ensures var ipa := DtbOf(cs, dtb, invalid); ipa in xl && xl[ipa].paddr == dtb
  {
    var c := cs[LastHolder(cs, dtb)];
    assert Reaches(c, xl);
    RegionTranslatesBack(c, xl, dtb);
  }

  lemma RegionTranslatesBack(c: ConfigRegion, xl: imap<nat, Xlate>, dtb: nat)
    requires Reaches(c, xl) && c.HoldsPhysical(dtb) && forall va | va in xl :: va < U64_LIMIT
    ensures var ipa := Wrapped(c.virtualStart + dtb - c.physicalStart); ipa in xl && xl[ipa].paddr == dtb
  {
    assert ReachesAt(c, xl, c.virtualStart + dtb - c.physicalStart);
  }

  // ------------------------------------------------------------- the zone

  datatype Mmio = Mmio(start: nat, size: nat, arg: nat)

  ghost predicate OnePerStart(ms: seq<Mmio>) {
    forall i, j | 0 <= i < j < |ms| :: ms[i].start != ms[j].start
  }

  function DeviceOf(c: ConfigRegion): Mmio { Mmio(c.physicalStart, c.size, c.physicalStart) }

  /** Its handler is told the physical start. */
  predicate IsDevice(m: Mmio, c: ConfigRegion) {
    c.memType == 2 && m.start == c.physicalStart && m.size == c.size && m.arg == c.physicalStart
  }

  ghost predicate Known(m: Mmio, cs: seq<ConfigRegion>) { exists c :: c in cs && IsDevice(m, c) }

  ghost predicate Covers(ms: seq<Mmio>, c: ConfigRegion) {
    c.memType == 2 ==> exists m :: m in ms && IsDevice(m, c)
  }

  /** The registered devices are exactly those of the configuration. */
  ghost predicate FromConfig(ms: seq<Mmio>, cs: seq<ConfigRegion>) {
    && (forall m {:trigger Known(m, cs)} | m in ms :: Known(m, cs))
    && (forall c {:trigger Covers(ms, c)} | c in cs :: Covers(ms, c))
  }

  predicate Clash(c: ConfigRegion, d: ConfigRegion) {
    c.memType == d.memType == 2 && c.physicalStart == d.physicalStart && c.size != d.size
  }

  ghost predicate SizesAgree(cs: seq<ConfigRegion>) {
    forall c, d {:trigger Clash(c, d)} | c in cs && d in cs :: !Clash(c, d)
  }

  /** A panic of `pt_init` has this cause. */
  ghost predicate Unsupported(cs: seq<ConfigRegion>) {
    !SizesAgree(cs) || exists c :: c in cs && c.memType > 2
  }

  lemma MoreConfig(ms: seq<Mmio>, done: seq<ConfigRegion>, c: ConfigRegion)
    requires FromConfig(ms, done) && c.memType != MEM_TYPE_VIRTIO
    ensures FromConfig(ms, done + [c])
  {
    forall m | m in ms ensures Known(m, done + [c]) { assert Known(m, done); }
    forall d | d in done + [c] ensures Covers(ms, d) { if d in done { assert Covers(ms, d); } }
  }

  /** One more device: the list as `MmioRegister` leaves it. */
  lemma MoreDevices(ms: seq<Mmio>, ms': seq<Mmio>, done: seq<ConfigRegion>, c: ConfigRegion)
    requires FromConfig(ms, done) && c.memType == MEM_TYPE_VIRTIO
    requires forall m | m in ms && m.start == DeviceOf(c).start :: m.size == DeviceOf(c).size
    requires forall m :: m in ms' <==> m == DeviceOf(c) || (m in ms && m.start != DeviceOf(c).start)
    ensures FromConfig(ms', done + [c])
  {
    forall m | m in ms' ensures Known(m, done + [c]) {
      if m == DeviceOf(c) { assert c in done + [c] && IsDevice(m, c); } else { assert Known(m, done); }
    }
    forall d | d in done + [c] ensures Covers(ms', d) {
      if d in done && d.memType == MEM_TYPE_VIRTIO {
        assert Covers(ms, d);
        var m :| m in ms && IsDevice(m, d);
        assert IsDevice(if m.start == DeviceOf(c).start then DeviceOf(c) else m, d);
      } else if d == c && c.memType == MEM_TYPE_VIRTIO {
        assert IsDevice(DeviceOf(c), c);
      }
    }
  }

  /** A device of another size at a known start. */
  lemma SizesClash(ms: seq<Mmio>, done: seq<ConfigRegion>, c: ConfigRegion, m: Mmio)
    requires FromConfig(ms, done) && c.memType == MEM_TYPE_VIRTIO
    requires m in ms && m.start == DeviceOf(c).start && m.size != DeviceOf(c).size
    ensures Unsupported(done + [c])
  {
    assert Known(m, done);
    var d :| d in done && IsDevice(m, d);
    assert c in done + [c] && d in done + [c] && Clash(c, d);
  }

  /** What goes wrong in a prefix goes wrong in the whole. */
  lemma PrefixFacts(cs: seq<ConfigRegion>, some: seq<ConfigRegion>)
    requires some <= cs
    ensures Disjoint(cs) ==> Disjoint(some)
    ensures Unsupported(some) ==> Unsupported(cs)
  {
    forall c | c in some ensures c in cs { var i :| 0 <= i < |some| && some[i] == c; assert cs[i] == c; }
    if Disjoint(cs) { DisjointPrefix(cs, some); }
  }

  lemma PrefixNext(cs: seq<ConfigRegion>, done: seq<ConfigRegion>, c: ConfigRegion, more: seq<ConfigRegion>)
    requires done <= cs && |done| < |cs| && c == cs[|done|] && more == done + [c]
    ensures more <= cs
  {
  }

  predicate KnownType(c: ConfigRegion) { c.memType <= MEM_TYPE_VIRTIO }

  ghost predicate KnownTypes(cs: seq<ConfigRegion>) {
    forall i {:trigger KnownType(cs[i])} | 0 <= i < |cs| :: KnownType(cs[i])
  }

  lemma KnownNext(done: seq<ConfigRegion>, c: ConfigRegion)
    requires KnownTypes(done) && KnownType(c)
    ensures KnownTypes(done + [c])
  {
    forall i | 0 <= i < |done + [c]| ensures KnownType((done + [c])[i]) { if i < |done| { assert KnownType(done[i]); } }
  }

  /** One entry per start for every device leaves no sizes to clash. */
  lemma SupportedOnce(ms: seq<Mmio>, cs: seq<ConfigRegion>)
    requires OnePerStart(ms) && FromConfig(ms, cs) && KnownTypes(cs)
    ensures !Unsupported(cs)
  {
    forall c, d | c in cs && d in cs ensures !Clash(c, d) {
      assert Covers(ms, c) && Covers(ms, d);
    }
    forall c | c in cs ensures KnownType(c) { var i :| 0 <= i < |cs| && cs[i] == c; assert KnownType(cs[i]); }
  }

  lemma LastUnsupported(done: seq<ConfigRegion>, c: ConfigRegion)
    requires c.memType > MEM_TYPE_VIRTIO
    ensures Unsupported(done + [c])
  {
    assert c in done + [c];
  }

  datatype InitResult = Built | Refused(error: HvError) | Panicked

  /** What PtInit promises when a prefix of the configuration stopped it. */
  lemma StoppedShort(m: Stage2.Before, cs: seq<ConfigRegion>, some: seq<ConfigRegion>, level: nat, res: InitResult)
    requires some <= cs && !res.Built?
    requires res.Refused? ==> res.error == if Disjoint(some) then ENOMEM else EINVAL
    requires res == Refused(ENOMEM) ==> !Enough(m, some, level)
    requires res.Panicked? ==> Unsupported(some)
    ensures !(Disjoint(cs) && !Unsupported(cs) && Enough(m, cs, level))
    ensures res.Refused? ==> (res.error == EINVAL && !Disjoint(cs)) || (res.error == ENOMEM && !Enough(m, cs, level))
    ensures res.Panicked? ==> Unsupported(cs)
  {
    PrefixFacts(cs, some);
    if !Enough(m, some, level) { NeverEnough(m, cs, some, level); }
  }

  lemma AllBuilt(m: Stage2.Before, cs: seq<ConfigRegion>, level: nat, v: View, ms: seq<Mmio>, free: nat, keys: set<Key>)
    requires AllPlaced(cs, level) && Disjoint(cs) && KnownTypes(cs) && OnePerStart(ms) && FromConfig(ms, cs)
    requires v.regions == Registered(cs) && v.Healthy(level) && v.InStep() && SpentOn(m, cs, level, free, keys)
    ensures Describes(cs, v.xl) && !Unsupported(cs) && Enough(m, cs, level)
  {
    RegisteredDescribes(cs, level, v);
    SupportedOnce(ms, cs);
    SpentEnough(m, cs, level, free, keys);
  }

  /** The regions, the devices and the frames spent are those of `done`. */
  ghost predicate Progress(done: seq<ConfigRegion>, level: nat, v: View, ms: seq<Mmio>, m: Stage2.Before,
                           free: nat, keys: set<Key>)
  {
    var progress :=
      && v.InStep() && v.regions == Registered(done) && Disjoint(done) && SpentOn(m, done, level, free, keys)
      && OnePerStart(ms) && FromConfig(ms, done) && KnownTypes(done);
    progress
  }

  /** A round of `pt_init` over a backed region. */
  lemma BackedRound(done: seq<ConfigRegion>, c: ConfigRegion, level: nat, v: View, v': View, ms: seq<Mmio>, res: HvResult,
                    cut: nat, m: Stage2.Before, n: Stage2.Before, free: nat, keys: set<Key>)
    requires Progress(done, level, v, ms, m, n.free, n.tab.Keys) && v.Healthy(level)
    requires c.Backed() && RegionOf(c).Mappable(level) && RegionOf(c).Mappable(4)
    requires Inserts(v, v', RegionOf(c), res, cut) && res != Failed(EFAULT) && Accounts(n, free, keys, RegionOf(c), level, res)
    ensures res.Done? ==> Progress(done + [c], level, v', ms, m, free, keys)
    ensures res.Failed? ==> res.error == if Disjoint(done + [c]) then ENOMEM else EINVAL
    ensures res == Failed(ENOMEM) ==> !Enough(m, done + [c], level)
  {
    MoreConfig(ms, done, c);
    KnownNext(done, c);
    RoundDone(done, c, level, v, v', res, cut, m, n, free, keys);
  }

  /** A round over a device. */
  lemma DeviceRound(done: seq<ConfigRegion>, c: ConfigRegion, level: nat, v: View, ms: seq<Mmio>, ms': seq<Mmio>,
                    m: Stage2.Before, free: nat, keys: set<Key>)
    requires Progress(done, level, v, ms, m, free, keys) && c.memType == MEM_TYPE_VIRTIO
    requires OnePerStart(ms') && FromConfig(ms', done + [c])
    ensures Progress(done + [c], level, v, ms', m, free, keys)
  {
    UnsizedKeepsDisjoint(done, c);
    RegisteredNext(done, c);
    KnownNext(done, c);
    SpentSame(m, done, c, level, free, keys);
  }

  class Zone {
    const gpm: MemorySet
    var mmio: seq<Mmio>

    constructor (gpm: MemorySet)
      ensures this.gpm == gpm && mmio == []
    {
      this.gpm := gpm;
      mmio := [];
    }

    /** `mmio_region_register`; false is the panic on a size that differs. */
    method MmioRegister(e: Mmio) returns (ok: bool)
      requires OnePerStart(mmio)
      modifies this`mmio
      ensures OnePerStart(mmio)
      ensures ok <==> forall m | m in old(mmio) && m.start == e.start :: m.size == e.size
      ensures ok ==> forall m :: m in mmio <==> m == e || (m in old(mmio) && m.start != e.start)
      ensures !ok ==> mmio == old(mmio)
    {
      var i := 0;
      while i < |mmio| && mmio[i].start != e.start
        invariant i <= |mmio| && forall j | 0 <= j < i :: mmio[j].start != e.start
      {
        i := i + 1;
      }
      if i == |mmio| {
        mmio := mmio + [e];
        return true;
      }
      if mmio[i].size != e.size {
        return false;
      }
      mmio := mmio[i := e];
      assert mmio[i] == e;
      forall m | m in old(mmio) && m.start != e.start ensures m in mmio {
        var j :| 0 <= j < |mmio| && old(mmio)[j] == m;
        assert mmio[j] == m;
      }
      return true;
    }

    /** The VIRTIO branch of `pt_init`, after the regions `done`. */
    method RegisterDevice(c: ConfigRegion, ghost done: seq<ConfigRegion>) returns (ok: bool)
      requires OnePerStart(mmio) && FromConfig(mmio, done) && c.memType == MEM_TYPE_VIRTIO
      modifies this`mmio
      ensures OnePerStart(mmio)
      ensures ok ==> FromConfig(mmio, done + [c])
      ensures !ok ==> Unsupported(done + [c])
    {
      ghost var before := mmio;
      ok := MmioRegister(DeviceOf(c));
      if ok {
        MoreDevices(before, mmio, done, c);
      } else {
        ghost var m :| m in before && m.start == DeviceOf(c).start && m.size != DeviceOf(c).size;
        SizesClash(before, done, c, m);
      }
    }

    /** The RAM and IO branch of `pt_init`, after the regions `done`. */
    method InsertConfigured(c: ConfigRegion, ghost done: seq<ConfigRegion>, ghost m: Stage2.Before) returns (res: HvResult)
      requires BuiltSoFar(done, m) && c.Backed() && c.WellPlaced(gpm.pt.level)
      modifies gpm`regions, gpm.pt`intrm, gpm.pt`tab
      modifies gpm.pt.pool`free, gpm.pt.pool`live, gpm.pt.pool`freeFrames, gpm.pt.pool`liveFrames, gpm.pt.pool`mem
      ensures gpm.Valid()
      ensures res.Done? ==> BuiltSoFar(done + [c], m)
      ensures res.Failed? ==> res.error == if Disjoint(done + [c]) then ENOMEM else EINVAL
      ensures res == Failed(ENOMEM) ==> !Enough(m, done + [c], gpm.pt.level)
    {
      ghost var v, n := gpm.Look(), gpm.pt.Now();
      PlacedMappable(c, gpm.pt.level);
      ghost var cut;
      res, cut := gpm.Insert(RegionOf(c));
      BackedRound(done, c, gpm.pt.level, v, gpm.Look(), mmio, res, cut, m, n, |gpm.pt.pool.free|, gpm.pt.tab.Keys);
    }

    /** What `pt_init`, begun at `m`, has established after the regions `done`. */
    ghost predicate BuiltSoFar(done: seq<ConfigRegion>, m: Stage2.Before)
      reads this, gpm, gpm.pt, gpm.pt.pool
    {
      var built :=
        && gpm.Valid() && gpm.pt.IsDense()
        && Progress(done, gpm.pt.level, gpm.Look(), mmio, m, |gpm.pt.pool.free|, gpm.pt.tab.Keys);
      built
    }

    /** One round of `pt_init`. */
    method InitOne(c: ConfigRegion, ghost done: seq<ConfigRegion>, ghost m: Stage2.Before) returns (res: InitResult)
      requires BuiltSoFar(done, m) && Placed(c, gpm.pt.level)
      modifies this`mmio, gpm`regions, gpm.pt`intrm, gpm.pt`tab
      modifies gpm.pt.pool`free, gpm.pt.pool`live, gpm.pt.pool`freeFrames, gpm.pt.pool`liveFrames, gpm.pt.pool`mem
      ensures gpm.Valid() && OnePerStart(mmio)
      ensures res.Built? ==> BuiltSoFar(done + [c], m)
      ensures res.Refused? ==> res.error == if Disjoint(done + [c]) then ENOMEM else EINVAL
      ensures res == Refused(ENOMEM) ==> !Enough(m, done + [c], gpm.pt.level)
      ensures res.Panicked? ==> Unsupported(done + [c])
    {
      if c.memType == MEM_TYPE_RAM || c.memType == MEM_TYPE_IO {
        var inserted := InsertConfigured(c, done, m);
        return if inserted.Done? then Built else Refused(inserted.error);
      }
      if c.memType != MEM_TYPE_VIRTIO {
        LastUnsupported(done, c);
        return Panicked;
      }
      var ok := AddDevice(c, done, m);
      return if ok then Built else Panicked;
    }

    /** The VIRTIO branch again, with what else the round keeps. */
    method AddDevice(c: ConfigRegion, ghost done: seq<ConfigRegion>, ghost m: Stage2.Before) returns (ok: bool)
      requires BuiltSoFar(done, m) && c.memType == MEM_TYPE_VIRTIO
      modifies this`mmio
      ensures gpm.Valid() && OnePerStart(mmio)
      ensures ok ==> BuiltSoFar(done + [c], m)
      ensures !ok ==> Unsupported(done + [c])
    {
      ghost var v, before, free, keys := gpm.Look(), mmio, |gpm.pt.pool.free|, gpm.pt.tab.Keys;
      ok := RegisterDevice(c, done);
      assert gpm.Valid() && gpm.Look() == v;
      if ok { DeviceRound(done, c, gpm.pt.level, v, before, mmio, m, free, keys); }
    }

    /** `pt_init` on a fresh zone. It succeeds exactly for a disjoint, supported
        configuration with frames for the tables it needs, and then the translation is
        the union of the configured RAM and IO. It refuses only an overlap or for want
        of frames, and panics only on a bad type or clashing device sizes. */
    method PtInit(cs: seq<ConfigRegion>) returns (res: InitResult)
      requires gpm.Valid() && gpm.pt.IsDense() && gpm.Look() == View(map[], imap[]) && mmio == []
      requires AllPlaced(cs, gpm.pt.level)
      modifies this`mmio, gpm`regions, gpm.pt`intrm, gpm.pt`tab
      modifies gpm.pt.pool`free, gpm.pt.pool`live, gpm.pt.pool`freeFrames, gpm.pt.pool`liveFrames, gpm.pt.pool`mem
      ensures gpm.Valid() && OnePerStart(mmio)
      ensures res.Built? <==> Disjoint(cs) && !Unsupported(cs) && Enough(old(gpm.pt.Now()), cs, gpm.pt.level)
      ensures res.Built? ==> Describes(cs, gpm.Look().xl) && FromConfig(mmio, cs)
      ensures res.Refused? ==> (res.error == EINVAL && !Disjoint(cs))
                               || (res.error == ENOMEM && !Enough(old(gpm.pt.Now()), cs, gpm.pt.level))
      ensures res.Panicked? ==> Unsupported(cs)
      ensures Unsupported(cs) && Disjoint(cs) && Enough(old(gpm.pt.Now()), cs, gpm.pt.level) ==> res.Panicked?
    {
      ghost var m := gpm.pt.Now();
      SpentNothing(m.free, m.tab.Keys);
      var i := 0;
      ghost var done: seq<ConfigRegion> := [];
      while i < |cs|
        invariant done <= cs && |done| == i && BuiltSoFar(done, m)
      {
        var c := cs[i];
        assert Placed(c, gpm.pt.level);
        ghost var more := done + [c];
        PrefixNext(cs, done, c, more);
        res := InitOne(c, done, m);
        if !res.Built? {
          StoppedShort(m, cs, more, gpm.pt.level, res);
          return;
        }
        i, done := i + 1, more;
      }
      assert done == cs;
      AllBuilt(m, cs, gpm.pt.level, gpm.Look(), mmio, |gpm.pt.pool.free|, gpm.pt.tab.Keys);
      return Built;
    }
  }
}
