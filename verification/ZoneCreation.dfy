/** Creating and starting a zone from its whole configuration: memory, devices,
    interrupts and CPUs put together, with every cause of a panic. */
module ZoneCreation {
  import opened Bits
  import opened Geometry
  import opened PageTree
  import opened ZoneMemory
  import MemorySets
  import FramePool
  import Lifecycle
  import Vgic

  const MAX_CPU_NUM: nat := 4
  const PER_GICR_SIZE: nat := 0x20000
  const CONFIG_MAX_MEMORY_REGIONS: nat := 16
  const CONFIG_MAX_INTERRUPTS: nat := 32

  /** `HvArchZoneConfig`; a zero stands for the host's value. */
  datatype Gic = Gic(gicdBase: Word64, gicrBase: Word64, gicdSize: Word64)

  /** `HvZoneConfig`; the sequences are as long as the counts in it say, and `cpus` are
      the bits of the CPU mask. */
  datatype Config = Config(id: nat, cpus: set<nat>, regions: seq<ConfigRegion>, irqs: seq<nat>,
                           entryPoint: nat, dtb: nat, gic: Gic)

  function OrHost(own: nat, host: nat): nat { if own == 0 then host else own }

  /** The regions that `vgicv3_mmio_init` registers, in order. */
  function GicRegions(gic: Gic, host: Gic): seq<Mmio> {
    [Mmio(OrHost(gic.gicdBase, host.gicdBase), OrHost(gic.gicdSize, host.gicdSize), 0)]
    + seq(MAX_CPU_NUM, cpu requires 0 <= cpu =>
            Mmio(Wrapped(OrHost(gic.gicrBase, host.gicrBase) + cpu * PER_GICR_SIZE), PER_GICR_SIZE, cpu))
  }

  /** The distributor, then the redistributors 0x2_0000 apart, each with its CPU's number;
      the host's value stands in exactly for a zero. */
  lemma GicRegionsMean(gic: Gic, host: Gic, c: nat)
    requires c < 4
    ensures var es := GicRegions(gic, host);
            && |es| == 5 && es[0].arg == 0 && es[c + 1].arg == c && es[c + 1].size == 0x2_0000
            && es[0].start == (if gic.gicdBase == 0 then host.gicdBase else gic.gicdBase)
            && es[0].size == (if gic.gicdSize == 0 then host.gicdSize else gic.gicdSize)
            && var base := if gic.gicrBase == 0 then host.gicrBase else gic.gicrBase;
               es[c + 1].start == (base + c * 0x2_0000) % U64_LIMIT
  {
    var base := if gic.gicrBase == 0 then host.gicrBase else gic.gicrBase;
    var sum := base + c * 0x2_0000;
    if sum < U64_LIMIT { Remainder(sum, U64_LIMIT, 0, sum); } else { Remainder(sum, U64_LIMIT, 1, sum - U64_LIMIT); }
  }

  // ---------------------------------------------------- registering devices

  predicate SameSize(m: Mmio, e: Mmio) { m.start == e.start ==> m.size == e.size }

  /** No device of `es` meets a known start with another size. */
  ghost predicate Fits(ms: seq<Mmio>, es: seq<Mmio>) {
    && (forall m, e {:trigger SameSize(m, e)} | m in ms && e in es :: SameSize(m, e))
    && (forall d, e {:trigger SameSize(d, e)} | d in es && e in es :: SameSize(d, e))
  }

  /** ... said of the configured devices. */
  ghost predicate FitsConfig(cs: seq<ConfigRegion>, es: seq<Mmio>) {
    && (forall c, e {:trigger SameSize(DeviceOf(c), e)} | c in cs && e in es && c.memType == MEM_TYPE_VIRTIO ::
          SameSize(DeviceOf(c), e))
    && (forall d, e {:trigger SameSize(d, e)} | d in es && e in es :: SameSize(d, e))
  }

  lemma FitsAsConfigured(ms: seq<Mmio>, cs: seq<ConfigRegion>, es: seq<Mmio>)
    requires FromConfig(ms, cs)
    ensures Fits(ms, es) <==> FitsConfig(cs, es)
  {
    if Fits(ms, es) {
      forall c, e | c in cs && e in es && c.memType == MEM_TYPE_VIRTIO ensures SameSize(DeviceOf(c), e) {
        assert Covers(ms, c);
        var m :| m in ms && IsDevice(m, c);
        assert SameSize(m, e);
      }
    }
    if FitsConfig(cs, es) {
      forall m, e | m in ms && e in es ensures SameSize(m, e) {
        assert Known(m, cs);
        var c :| c in cs && IsDevice(m, c);
        assert SameSize(DeviceOf(c), e);
      }
    }
  }

  /** The entry is there after `es` was registered on top of `ms`. */
  ghost predicate Latest(m: Mmio, ms: seq<Mmio>, es: seq<Mmio>) {
    if es == [] then m in ms
    else m == es[|es| - 1] || (m.start != es[|es| - 1].start && Latest(m, ms, es[..|es| - 1]))
  }

  /** Every start that was registered keeps an entry of the same size. */
  ghost predicate Kept(ms: seq<Mmio>, m: Mmio) { exists k :: k in ms && k.start == m.start && k.size == m.size }

  /** The list after `done` was registered on top of `ms`. */
  ghost predicate OnTop(ms: seq<Mmio>, done: seq<Mmio>, now: seq<Mmio>) {
    && OnePerStart(now) && Fits(ms, done)
    && (forall m {:trigger Latest(m, ms, done)} :: m in now <==> Latest(m, ms, done))
    && (forall m {:trigger Kept(now, m)} | m in ms || m in done :: Kept(now, m))
    && (forall m | m in now :: m in ms || m in done)
  }

  lemma OnTopNone(ms: seq<Mmio>)
    requires OnePerStart(ms)
    ensures OnTop(ms, [], ms)
  {
    forall m | m in ms ensures Kept(ms, m) {}
  }

  lemma OnTopNext(ms: seq<Mmio>, done: seq<Mmio>, now: seq<Mmio>, e: Mmio, more: seq<Mmio>, now': seq<Mmio>)
    requires OnTop(ms, done, now) && OnePerStart(now') && more == done + [e]
    requires forall m | m in now && m.start == e.start :: m.size == e.size
    requires forall m :: m in now' <==> m == e || (m in now && m.start != e.start)
    ensures OnTop(ms, more, now')
  {
    assert more[..|done|] == done;
    forall m ensures m in now' <==> Latest(m, ms, more) { assert m in now <==> Latest(m, ms, done); }
    forall m | m in ms || m in more ensures Kept(now', m) {
      if m in ms || m in done {
        assert Kept(now, m);
        var k :| k in now && k.start == m.start && k.size == m.size;
        if k.start == e.start { assert e in now'; } else { assert k in now'; }
      } else {
        assert m == e && e in now';
      }
    }
    FitsNext(ms, done, now, e, more);
  }

  lemma FitsNext(ms: seq<Mmio>, done: seq<Mmio>, now: seq<Mmio>, e: Mmio, more: seq<Mmio>)
    requires Fits(ms, done) && more == done + [e]
    requires forall m {:trigger Kept(now, m)} | m in ms || m in done :: Kept(now, m)
    requires forall m | m in now && m.start == e.start :: m.size == e.size
    ensures Fits(ms, more)
  {
    forall m | m in ms || m in done ensures SameSize(m, e) && SameSize(e, m) { assert Kept(now, m); }
  }

  /** A start that is known with another size, wherever it came from. */
  lemma FitsNoMore(ms: seq<Mmio>, done: seq<Mmio>, now: seq<Mmio>, e: Mmio, es: seq<Mmio>)
    requires OnTop(ms, done, now) && done + [e] <= es && exists m :: m in now && m.start == e.start && m.size != e.size
    ensures !Fits(ms, es)
  {
    var m :| m in now && m.start == e.start && m.size != e.size;
    assert es[|done|] == e;
    if m in done {
      var i :| 0 <= i < |done| && done[i] == m;
      assert es[i] == m;
    }
    assert !SameSize(m, e);
  }

  /** `vgicv3_mmio_init`; false is the panic on a size that differs. */
  method MmioInit(z: Zone, es: seq<Mmio>) returns (ok: bool)
    requires OnePerStart(z.mmio)
    modifies z`mmio
    ensures ok <==> Fits(old(z.mmio), es)
    ensures ok ==> OnePerStart(z.mmio) && forall m :: m in z.mmio <==> Latest(m, old(z.mmio), es)
  {
    ghost var ms := z.mmio;
    ghost var done: seq<Mmio> := [];
    OnTopNone(ms);
    var n := 0;
    while n < |es|
      invariant n <= |es| && done == es[..n] && OnTop(ms, done, z.mmio)
    {
      ghost var now, more := z.mmio, done + [es[n]];
      ok := z.MmioRegister(es[n]);
      if !ok {
        FitsNoMore(ms, done, now, es[n], es);
        return;
      }
      OnTopNext(ms, done, now, es[n], more, z.mmio);
      n, done := n + 1, more;
    }
    assert done == es;
    ok := true;
  }

  // -------------------------------------------------------------------- CPUs

  /** `set_bit` for every CPU; false is the assertion on an id that is too large. */
  method CpuSetOf(ids: set<nat>) returns (ok: bool, cpus: set<nat>)
    ensures ok <==> forall c | c in ids :: c <= MAX_CPU_NUM
    ensures ok ==> cpus == ids
  {
    cpus := {};
    var todo := ids;
    while todo != {}
      invariant todo <= ids && cpus == ids - todo && forall c | c in cpus :: c <= MAX_CPU_NUM
      decreases todo
    {
      var c :| c in todo;
      if !(c <= MAX_CPU_NUM) {
        return false, cpus;
      }
      cpus, todo := cpus + {c}, todo - {c};
    }
    assert cpus == ids;
    ok := true;
  }

  // -------------------------------------------------------- building a zone

  /** The regions can be built with `free` frames, a root table and those they lack,
      and no device of the interrupt controller clashes with theirs. */
  ghost predicate MemoryFits(cfg: Config, host: Gic, level: nat, free: nat) {
    var fits :=
      && |cfg.regions| <= 16 && Disjoint(cfg.regions) && !Unsupported(cfg.regions)
      && |ConfigKeys(cfg.regions, level) - {Key(level, 0)}| + 1 <= free
      && FitsConfig(cfg.regions, GicRegions(cfg.gic, host));
    fits
  }

  ghost predicate IrqsFit(cfg: Config) {
    |cfg.irqs| <= 32 && forall i | 0 <= i < |cfg.irqs| :: cfg.irqs[i] < 1024
  }

  ghost predicate CpusFit(cfg: Config) { forall c | c in cfg.cpus :: c <= 4 }

  /** A configuration from which a zone can be created. */
  ghost predicate Creatable(cfg: Config, host: Gic, level: nat, free: nat) {
    var creatable := MemoryFits(cfg, host, level, free) && IrqsFit(cfg) && CpusFit(cfg);
    creatable
  }

  /** The devices are the configured ones with those of the interrupt controller on top. */
  ghost predicate HasDevices(now: seq<Mmio>, cs: seq<ConfigRegion>, es: seq<Mmio>) {
    exists ms :: FromConfig(ms, cs) && forall m :: m in now <==> Latest(m, ms, es)
  }

  /** What the zone translates, what its devices are, and which interrupts it owns. */
  datatype Contents = Contents(xl: imap<nat, Xlate>, mmio: seq<Mmio>, bitmap: Vgic.Bitmap)

  /** Exactly its RAM and IO, its devices, and the listed interrupts. */
  ghost predicate AsConfigured(k: Contents, cfg: Config, host: Gic) {
    && Describes(cfg.regions, k.xl) && HasDevices(k.mmio, cfg.regions, GicRegions(cfg.gic, host))
    && forall i: nat :: Vgic.Owned(k.bitmap, i) <==> i in cfg.irqs
  }

  ghost function ContentsOf(z: Zone, bitmap: Vgic.Bitmap): Contents
    reads z, z.gpm, z.gpm.pt, z.gpm.pt.pool
  {
    Contents(z.gpm.pt.Translation(), z.mmio, bitmap)
  }

  /** The memory of a new zone; false is a panic. */
  method BuildMemory(pool: FramePool.Pool, level: nat, cs: seq<ConfigRegion>) returns (ok: bool, z: Zone?)
    requires pool.Valid() && 3 <= level <= 4 && AllPlaced(cs, level)
    modifies pool`free, pool`live, pool`freeFrames, pool`liveFrames, pool`mem
    ensures pool.Valid()
    ensures ok <==> |cs| <= CONFIG_MAX_MEMORY_REGIONS && Disjoint(cs) && !Unsupported(cs)
                    && |ConfigKeys(cs, level) - {Key(level, 0)}| + 1 <= old(|pool.free|)
    ensures ok ==> z != null && fresh(z) && fresh(z.gpm) && fresh(z.gpm.pt) && z.gpm.pt.pool == pool
                   && Describes(cs, z.gpm.pt.Translation()) && OnePerStart(z.mmio) && FromConfig(z.mmio, cs)
  {
    if pool.free == {} {
      return false, null;
    }
    var gpm := new MemorySets.MemorySet(pool, level);
    z := new Zone(gpm);
    if |cs| > CONFIG_MAX_MEMORY_REGIONS {
      return false, z;
    }
    var built := z.PtInit(cs);
    ok := built.Built?;
  }

  /** The memory and the devices of a new zone; false is a panic. */
  method BuildDevices(pool: FramePool.Pool, level: nat, cfg: Config, host: Gic) returns (ok: bool, z: Zone?)
    requires pool.Valid() && 3 <= level <= 4 && AllPlaced(cfg.regions, level)
    modifies pool`free, pool`live, pool`freeFrames, pool`liveFrames, pool`mem
    ensures pool.Valid() && (ok <==> MemoryFits(cfg, host, level, old(|pool.free|)))
    ensures ok ==> z != null && Describes(cfg.regions, z.gpm.pt.Translation())
    ensures ok ==> z != null && HasDevices(z.mmio, cfg.regions, GicRegions(cfg.gic, host))
  {
    ok, z := BuildMemory(pool, level, cfg.regions);
    if !ok {
      return;
    }
    ghost var ms, es := z.mmio, GicRegions(cfg.gic, host);
    FitsAsConfigured(ms, cfg.regions, es);
    ok := MmioInit(z, GicRegions(cfg.gic, host));
    if ok { assert HasDevices(z.mmio, cfg.regions, es); }
  }

  /** The part of `zone_create` that fills in the new zone. */
  method Build(pool: FramePool.Pool, level: nat, cfg: Config, host: Gic)
    returns (ok: bool, z: Zone?, bitmap: Vgic.Bitmap, cpus: set<nat>)
    requires pool.Valid() && 3 <= level <= 4 && AllPlaced(cfg.regions, level)
    modifies pool`free, pool`live, pool`freeFrames, pool`liveFrames, pool`mem
    ensures pool.Valid() && (ok <==> Creatable(cfg, host, level, old(|pool.free|)))
    ensures ok ==> z != null && cpus == cfg.cpus && AsConfigured(ContentsOf(z, bitmap), cfg, host)
  {
    bitmap, cpus := [], {};
    ok, z := BuildDevices(pool, level, cfg, host);
    if !ok || |cfg.irqs| > CONFIG_MAX_INTERRUPTS {
      return false, z, bitmap, cpus;
    }
    ok, bitmap := Vgic.IrqBitmapInit(cfg.irqs);
    if ok {
      ok, cpus := CpuSetOf(cfg.cpus);
    }
  }

  ghost function CreateOutcome(known: bool, creatable: bool): Lifecycle.Outcome {
    if known then Lifecycle.EEXIST else if creatable then Lifecycle.Success else Lifecycle.Panicked
  }

  /** `zone_create`. */
  method ZoneCreate(m: Lifecycle.Machine, pool: FramePool.Pool, level: nat, cfg: Config, host: Gic)
    returns (res: Lifecycle.Outcome, cpus: set<nat>)
    requires m.Valid() && !m.poweredOff && (m.zones == [] ==> cfg.id == Lifecycle.ROOT_ID)
    requires pool.Valid() && 3 <= level <= 4 && AllPlaced(cfg.regions, level)
    modifies m`zones, m`owner, m`count, m`nextKey, m`locals, m`entry, m`dtbIpa, m`bootCpus
    modifies pool`free, pool`live, pool`freeFrames, pool`liveFrames, pool`mem
    ensures m.Sound() && pool.Valid()
    ensures res == CreateOutcome(Lifecycle.HasId(old(m.zones), cfg.id), Creatable(cfg, host, level, old(|pool.free|)))
    ensures !res.Success? ==> m.locals == multiset{} && m.Look() == old(m.Look())
    ensures res.Success? ==> Lifecycle.CountsMoved(old(m.count), old(m.owner), cfg.cpus, old(m.nextKey), m.count)
    ensures res.Success? ==> m.locals == multiset{old(m.nextKey)}
    ensures res.Success? ==> cpus == cfg.cpus && m.nextKey == old(m.nextKey) + 1
    ensures StartEffect(old(m.Look()), m.Look(), cfg, res.Success?)
  {
    cpus := {};
    var known := m.IsKnown(cfg.id);
    if known {
      return Lifecycle.EEXIST, cpus;
    }
    var ok, z, bitmap;
    ok, z, bitmap, cpus := Build(pool, level, cfg, host);
    if !ok {
      return Lifecycle.Panicked, cpus;
    }
    var dtb := DtbIpa(cfg.regions, cfg.dtb, Lifecycle.INVALID_ADDRESS);
    m.CreateNew(cfg.id, cpus, cfg.entryPoint, dtb);
    res := Lifecycle.Success;
  }

  /** The answers of `hv_zone_start`, in the order of its checks. */
  ghost function StartOutcome(root: bool, known: bool, creatable: bool, cpus: set<nat>, psciOn: set<nat>): Lifecycle.Outcome {
    if !root then Lifecycle.EPERM else if known then Lifecycle.EEXIST else if !creatable then Lifecycle.Panicked
    else Lifecycle.WakeOutcome(cpus, psciOn)
  }

  /** The zone is created even when its boot CPU is busy or missing: it is listed, and its
      CPUs point at it, with its entry point, its device tree and its boot CPU. */
  ghost predicate StartEffect(f: Lifecycle.Fields, f': Lifecycle.Fields, cfg: Config, created: bool) {
    var effect :=
      if created then
        && f'.now.zones == f.now.zones + [Lifecycle.Zone(cfg.id, f.now.next, cfg.cpus)]
        && f'.now.owner == Lifecycle.AllSet(f.now.owner, cfg.cpus, f.now.next) && f'.now.next == f.now.next + 1
        && f'.entry == Lifecycle.AllSet(f.entry, cfg.cpus, cfg.entryPoint)
        && f'.dtbIpa == Lifecycle.AllSet(f.dtbIpa, cfg.cpus, DtbOf(cfg.regions, cfg.dtb, 0xffff_ffff_ffff_ffff))
        && f'.bootCpus == f.bootCpus + Lifecycle.Firsts(cfg.cpus, cfg.cpus)
      else f'.(count := f.count) == f;
    effect
  }

  lemma CountsAside(f: Lifecycle.Fields, f1: Lifecycle.Fields, f2: Lifecycle.Fields, cfg: Config)
    requires StartEffect(f, f1, cfg, true) && f2 == f1.(count := f2.count)
    ensures StartEffect(f, f2, cfg, true)
  {
  }

  /** The boot CPU is woken exactly on success. */
  ghost predicate Wakes(res: Lifecycle.Outcome, cfg: Config, woken: seq<nat>, woken': seq<nat>) {
    if res.Success? then Lifecycle.WakesFirst(cfg.cpus, woken, woken') else woken' == woken
  }

  /** What `hv_zone_start` can change in the machine. */
  datatype Snap = Snap(fields: Lifecycle.Fields, psciOn: set<nat>, woken: seq<nat>, stops: multiset<nat>)

  ghost function SnapOf(m: Lifecycle.Machine): Snap
    reads m
  {
    Snap(m.Look(), m.psciOn, m.woken, m.stops)
  }

  /** The answer, the zone and the wake-up of a start; no CPU changes its state. */
  ghost predicate Starts(root: bool, known: bool, creatable: bool, cfg: Config, a: Snap, b: Snap, res: Lifecycle.Outcome) {
    var starts :=
      && res == StartOutcome(root, known, creatable, cfg.cpus, a.psciOn)
      && StartEffect(a.fields, b.fields, cfg, root && !known && creatable) && Wakes(res, cfg, a.woken, b.woken)
      && b.psciOn == a.psciOn && b.stops == a.stops;
    starts
  }

  /** `hv_zone_start`, called on `cpu`. */
  method ZoneStart(m: Lifecycle.Machine, cpu: nat, pool: FramePool.Pool, level: nat, cfg: Config, host: Gic)
    returns (res: Lifecycle.Outcome)
    requires m.Valid() && !m.poweredOff && cpu in m.owner
    requires pool.Valid() && 3 <= level <= 4 && AllPlaced(cfg.regions, level)
    modifies m, pool`free, pool`live, pool`freeFrames, pool`liveFrames, pool`mem
    ensures m.Valid() && !m.poweredOff && pool.Valid() && old(m.zones) != []
    ensures Starts(old(m.owner[cpu] == m.zones[0].key), Lifecycle.HasId(old(m.zones), cfg.id),
                   Creatable(cfg, host, level, old(|pool.free|)), cfg, old(SnapOf(m)), SnapOf(m), res)
  {
    var root := m.IsThisRootZone(cpu);
    if !root {
      return Lifecycle.EPERM;
    }
    res := CreateAndWake(m, pool, level, cfg, host);
  }

  method CreateAndWake(m: Lifecycle.Machine, pool: FramePool.Pool, level: nat, cfg: Config, host: Gic)
    returns (res: Lifecycle.Outcome)
    requires m.Valid() && !m.poweredOff && m.zones != []
    requires pool.Valid() && 3 <= level <= 4 && AllPlaced(cfg.regions, level)
    modifies m, pool`free, pool`live, pool`freeFrames, pool`liveFrames, pool`mem
    ensures m.Valid() && !m.poweredOff && pool.Valid()
    ensures Starts(true, Lifecycle.HasId(old(m.zones), cfg.id), Creatable(cfg, host, level, old(|pool.free|)), cfg,
                   old(SnapOf(m)), SnapOf(m), res)
  {
    ghost var a := SnapOf(m);
    ghost var known, creatable := Lifecycle.HasId(m.zones, cfg.id), Creatable(cfg, host, level, |pool.free|);
    var key := m.nextKey;
    var created, cpus := ZoneCreate(m, pool, level, cfg, host);
    res := FinishStart(m, created, cpus, key, a, cfg, known, creatable);
  }

  /** The end of `hv_zone_start`. */
  method FinishStart(m: Lifecycle.Machine, created: Lifecycle.Outcome, cpus: set<nat>, key: nat, ghost a: Snap,
                     ghost cfg: Config, ghost known: bool, ghost creatable: bool)
    returns (res: Lifecycle.Outcome)
    requires m.Sound() && created == CreateOutcome(known, creatable)
    requires if created.Success? then key < m.nextKey && m.locals == multiset{key} && cpus == cfg.cpus else m.locals == multiset{}
    requires StartEffect(a.fields, m.Look(), cfg, created.Success?) && SnapOf(m) == a.(fields := m.Look())
    modifies m`woken, m`count, m`locals
    ensures m.Valid() && Starts(true, known, creatable, cfg, a, SnapOf(m), res)
  {
    if created.Success? {
      ghost var f := m.Look();
      res := m.WakeBoot(cpus, key);
      CountsAside(a.fields, f, m.Look(), cfg);
    } else {
      res := created;
    }
  }
}
