/** `MemorySet`: the registered regions and the stage-2 table they describe. */
module MemorySets {
  import opened Geometry
  import opened Options
  import opened PageTree
  import opened TableDemand
  import opened TreeInPool
  import opened RegionSet
  import FramePool
  import Stage2

  datatype HvError = EINVAL | ENOMEM | EFAULT

  datatype HvResult = Done | Failed(error: HvError)

  function FromPaging(e: PagingError): HvError {
    if e == NoMemory then ENOMEM else EFAULT
  }

  /** What `unmap` returns, when it does. */
  function FromUnmap(e: Stage2.UnmapEnd): HvResult
    requires e.Finished? || e.Missing?
  {
    if e.Finished? then Done else Failed(EFAULT)
  }

  // --------------------------------------------------- steps and whole runs

  /** A set as its users see it: the registered regions and the translation. */
  datatype View = View(regions: Regions, xl: imap<nat, Xlate>)
  {
    /** Disjoint regions, each translated as registered. */
    ghost predicate Healthy(level: nat) { Separate(regions, level) && ShowsAll(xl, regions) }

    /** Nothing is translated but the registered regions. */
    ghost predicate InStep() { Exact(xl, regions) }
  }

  /** What an insertion does, whether it completes, is refused or fails midway. */
  ghost predicate Inserts(v: View, v': View, r: Region, res: HvResult, cut: nat)
    requires r.Mappable(4)
  {
    var inserts :=
      && r.start <= cut <= r.End() && Untouched(v.xl, r.start, cut)
      && v'.xl == v.xl + Slice(r, r.start, cut)
      && (res.Done? <==> cut == r.End())
      && v'.regions == (if res.Done? && r.size > 0 then v.regions[r.start := r] else v.regions)
      && (res == Failed(EINVAL) <==> r.size > 0 && !FreeArea(v.regions, r))
      && (res == Failed(EINVAL) ==> cut == r.start);
    inserts
  }

  ghost predicate Deletes(v: View, v': View, start: nat, res: HvResult) {
    if start in v.regions
    then res == Done && v' == View(v.regions - {start}, CutOut(v.xl, start, v.regions[start].End()))
    else res == Failed(EINVAL) && v' == v
  }

  lemma InsertStep(v: View, v': View, level: nat, r: Region, res: HvResult, cut: nat)
    requires v.Healthy(level) && r.Mappable(level) && r.Mappable(4) && Inserts(v, v', r, res, cut)
    ensures v'.Healthy(level)
    ensures v.InStep() && (cut == r.start || res.Done?) ==> v'.InStep()
  {
    if res.Done? && r.size > 0 {
      InsertKeeps(v.xl, v.regions, level, r);
    } else {
      PrefixKeeps(v.xl, v.regions, level, r, cut);
    }
  }

  /** What mapping a free area, and registering it if all of it was mapped, comes to. */
  lemma FreeInserted(v: View, xl: imap<nat, Xlate>, level: nat, r: Region, res: HvResult, cut: nat)
    requires v.Healthy(level) && r.Mappable(level) && r.Mappable(4) && r.size > 0 && FreeArea(v.regions, r)
    requires r.start <= cut <= r.End() && (res.Done? <==> cut == r.End()) && res != Failed(EINVAL)
    requires xl == v.xl + Slice(r, r.start, cut) && Untouched(v.xl, r.start, cut)
    ensures var v' := View(if res.Done? then v.regions[r.start := r] else v.regions, xl);
            Inserts(v, v', r, res, cut) && v'.Healthy(level)
  {
    var v' := View(if res.Done? then v.regions[r.start := r] else v.regions, xl);
    InsertStep(v, v', level, r, res, cut);
  }

  lemma DeleteStep(v: View, v': View, level: nat, start: nat, res: HvResult)
    requires v.Healthy(level) && Deletes(v, v', start, res)
    ensures v'.Healthy(level) && (v.InStep() ==> v'.InStep())
  {
    if start in v.regions { DeleteKeeps(v.xl, v.regions, level, start); }
  }

  datatype Event = Insertion(r: Region, res: HvResult, cut: nat) | Deletion(start: nat, res: HvResult)
  {
    /** A mapping that failed after it had mapped something. */
    predicate Midway() { Insertion? && res.Failed? && cut != r.start }
  }

  ghost predicate Step(v: View, e: Event, v': View, level: nat) {
    match e
    case Insertion(r, res, cut) => r.Mappable(level) && r.Mappable(4) && Inserts(v, v', r, res, cut)
    case Deletion(start, res) => Deletes(v, v', start, res)
  }

  ghost predicate IsRun(vs: seq<View>, es: seq<Event>, level: nat) {
    && |vs| == |es| + 1 && vs[0] == View(map[], imap[])
    && forall i | 0 <= i < |es| :: Step(vs[i], es[i], vs[i + 1], level)
  }

  /** Over every run of insertions and deletions: an address in a registered
      region has that region's mapping; while no mapping has failed midway, an
      address is translated exactly when one registered region holds it. */
  lemma {:induction false} RunIsUnion(vs: seq<View>, es: seq<Event>, level: nat, n: nat, va: nat)
    requires IsRun(vs, es, level) && n <= |es|
    ensures vs[n].Healthy(level)
    ensures forall k | k in vs[n].regions && vs[n].regions[k].Contains(va) ::
              va in vs[n].xl && vs[n].xl[va] == LeafOf(vs[n].regions[k], va)
    ensures (forall i | 0 <= i < n :: !es[i].Midway()) ==>
              && (va in vs[n].xl <==> InSome(vs[n].regions, va))
              && forall j, k | j in vs[n].regions && k in vs[n].regions
                               && vs[n].regions[j].Contains(va) && vs[n].regions[k].Contains(va) :: j == k
  {
    RunKeeps(vs, es, level, n);
    forall k | k in vs[n].regions ensures Shows(vs[n].xl, vs[n].regions[k]) {}
    if forall i | 0 <= i < n :: !es[i].Midway() {
      TranslationIsUnion(vs[n].xl, vs[n].regions, level, va);
    }
  }

  lemma {:induction false} RunKeeps(vs: seq<View>, es: seq<Event>, level: nat, n: nat)
    requires IsRun(vs, es, level) && n <= |es|
    ensures vs[n].Healthy(level)
    ensures (forall i | 0 <= i < n :: !es[i].Midway()) ==> vs[n].InStep()
  {
    if n > 0 {
      var m := n - 1;
      RunKeeps(vs, es, level, m);
      StepKeeps(vs[m], es[m], vs[m + 1], level);
    }
  }

  lemma StepKeeps(v: View, e: Event, v': View, level: nat)
    requires v.Healthy(level) && Step(v, e, v', level)
    ensures v'.Healthy(level) && (v.InStep() && !e.Midway() ==> v'.InStep())
  {
    match e {
      case Insertion(r, res, cut) => InsertStep(v, v', level, r, res, cut);
      case Deletion(start, res) => DeleteStep(v, v', level, start, res);
    }
  }

  // -------------------------------------------------------------- the object

  /** The frames an insertion takes and the tables it adds; an area that is free yet
      refused is obstructed. */
  ghost predicate Accounts(m: Stage2.Before, free: nat, keys: set<Key>, r: Region, level: nat, res: HvResult)
    requires r.Mappable(4)
  {
    var accounts :=
      && Spent(m.free, m.tab.Keys, free, keys, RegionKeys(r, level), res.Done?, res == Failed(ENOMEM))
      && (RegionFree(m.xl, r) && res == Failed(EFAULT) ==> Obstructed(r, m.tab));
    accounts
  }

  lemma NoAccounts(m: Stage2.Before, r: Region, level: nat)
    requires r.Mappable(4)
    ensures r.size == 0 ==> Accounts(m, m.free, m.tab.Keys, r, level, Done)
    ensures Accounts(m, m.free, m.tab.Keys, r, level, Failed(EINVAL))
  {
  }

  class MemorySet {
    var regions: Regions
    const pt: Stage2.PageTable

    ghost function Look(): View
      reads this, pt, pt.pool
    {
      View(regions, pt.Translation())
    }

    ghost predicate Valid()
      reads this, pt, pt.pool
    {
      var sound := pt.Valid() && Look().Healthy(pt.level);
      sound
    }

    constructor (pool: FramePool.Pool, level: nat)
      requires pool.Valid() && pool.free != {} && 3 <= level <= 4
      modifies pool`free, pool`live, pool`freeFrames, pool`liveFrames, pool`mem
      ensures Valid() && fresh(pt) && pt.pool == pool && pt.level == level && pt.IsDense()
      ensures Look() == View(map[], imap[]) && pt.tab.Keys == {Key(level, 0)} && |pool.free| + 1 == |old(pool.free)|
      ensures Confined(old(Frames(pool.freeFrames, pool.liveFrames, pool.mem)), {}, pt.P(), pt.Own())
    {
      regions := map[];
      pt := new Stage2.PageTable(pool, level);
    }

    /** `test_free_area`: looks at the nearest region on each side only. */
    method TestFreeArea(r: Region) returns (free: bool)
      requires Separate(regions, pt.level) && r.size > 0
      ensures free <==> FreeArea(regions, r)
    {
      NeighboursSuffice(regions, pt.level, r);
      var before := NearestBefore(regions, r.start);
      if before.Some? && Overlaps(regions[before.value], r) {
        return false;
      }
      var after := NearestFrom(regions, r.start);
      return !(after.Some? && Overlaps(regions[after.value], r));
    }

    /** `insert`. A region that overlaps nothing is inserted exactly when its addresses
        are untranslated, no leftover table obstructs it and the tables it lacks find
        frames. */
    method Insert(r: Region) returns (res: HvResult, ghost cut: nat)
      requires Valid() && r.Mappable(pt.level)
      modifies this`regions, pt`intrm, pt`tab
      modifies pt.pool`free, pt.pool`live, pt.pool`freeFrames, pt.pool`liveFrames, pt.pool`mem
      ensures Valid() && Confined(old(pt.P()), old(pt.Own()), pt.P(), pt.Own())
      ensures r.Mappable(4) && Inserts(old(Look()), Look(), r, res, cut)
      ensures res.Done? <==> r.size == 0 || (FreeArea(old(regions), r) && Stage2.Succeeds(old(pt.Now()), r, pt.level))
      ensures Accounts(old(pt.Now()), |pt.pool.free|, pt.tab.Keys, r, pt.level, res)
      ensures old(pt.IsDense() && Look().InStep()) && res.Failed? ==> res.error != EFAULT
      ensures old(pt.IsDense()) && (res.Done? || res == Failed(EINVAL)) ==> pt.IsDense()
    {
      MappableAtFour(r, pt.level);
      NoAccounts(pt.Now(), r, pt.level);
      if r.size == 0 {
        NothingInserted(Look(), r, Done);
        return Done, r.start;
      }
      var free := TestFreeArea(r);
      if !free {
        NothingInserted(Look(), r, Failed(EINVAL));
        return Failed(EINVAL), r.start;
      }
      res, cut := InsertFree(r);
    }

    /** The rest of `insert`, once the area is known to be free. */
    method InsertFree(r: Region) returns (res: HvResult, ghost cut: nat)
      requires Valid() && r.Mappable(pt.level) && r.Mappable(4) && r.size > 0 && FreeArea(regions, r)
      modifies this`regions, pt`intrm, pt`tab
      modifies pt.pool`free, pt.pool`live, pt.pool`freeFrames, pt.pool`liveFrames, pt.pool`mem
      ensures Valid() && Confined(old(pt.P()), old(pt.Own()), pt.P(), pt.Own())
      ensures Inserts(old(Look()), Look(), r, res, cut)
      ensures res.Done? <==> Stage2.Succeeds(old(pt.Now()), r, pt.level)
      ensures Accounts(old(pt.Now()), |pt.pool.free|, pt.tab.Keys, r, pt.level, res)
      ensures old(pt.IsDense() && Look().InStep()) && res.Failed? ==> res.error != EFAULT
      ensures old(pt.IsDense()) && res.Done? ==> pt.IsDense()
    {
      ghost var v := Look();
      if v.InStep() { FreeAreaIsFree(v.xl, regions, pt.level, r); }
      res, cut := MapArea(r, pt.Now());
      ghost var xl := pt.Translation();
      FreeInserted(v, xl, pt.level, r, res, cut);
      if res.Done? {
        regions := regions[r.start := r];
      }
      assert pt.Valid() && Look() == View(if res.Done? then v.regions[r.start := r] else v.regions, xl);
    }

    /** The call of `map` in `insert`, from `m` on. */
    method MapArea(r: Region, ghost m: Stage2.Before) returns (res: HvResult, ghost cut: nat)
      requires pt.Valid() && r.Mappable(pt.level) && r.Mappable(4) && m == pt.Now()
      modifies pt`intrm, pt`tab, pt.pool`free, pt.pool`live, pt.pool`freeFrames, pt.pool`liveFrames, pt.pool`mem
      ensures pt.Valid() && Confined(m.s, m.own, pt.P(), pt.Own())
      ensures r.start <= cut <= r.End() && (res.Done? <==> cut == r.End()) && res != Failed(EINVAL)
      ensures pt.Translation() == m.xl + Slice(r, r.start, cut) && Untouched(m.xl, r.start, cut)
      ensures res.Done? <==> Stage2.Succeeds(m, r, pt.level)
      ensures Accounts(m, |pt.pool.free|, pt.tab.Keys, r, pt.level, res)
      ensures m.dense && RegionFree(m.xl, r) && res.Failed? ==> res.error != EFAULT
      ensures m.dense && res.Done? ==> pt.IsDense()
    {
      var mapped;
      mapped, cut := pt.Map(r);
      res := if mapped.Ok? then Done else Failed(FromPaging(mapped.error));
    }

    /** `delete`: `unmap` always finishes, so only a missing start is an error. */
    method Delete(start: nat) returns (res: HvResult)
      requires Valid()
      modifies this`regions, pt.pool`mem
      ensures Valid() && Confined(old(pt.P()), old(pt.Own()), pt.P(), pt.Own())
      ensures Deletes(old(Look()), Look(), start, res)
    {
      if start !in regions {
        return Failed(EINVAL);
      }
      ghost var v := Look();
      var r := regions[start];
      assert Shows(v.xl, r);
      var end, cut := pt.Unmap(r);
      res := FromUnmap(end);
      if res.Done? {
        regions := regions - {start};
      }
      DeleteStep(v, Look(), pt.level, start, res);
    }

    /** `clear`: every `unmap(..).unwrap()` succeeds, and exactly the registered
        regions go. */
    method Clear()
      requires Valid()
      modifies this`regions, pt.pool`mem
      ensures Valid() && Confined(old(pt.P()), old(pt.Own()), pt.P(), pt.Own())
      ensures Look() == View(map[], Cleared(old(pt.Translation()), old(regions), map[]))
    {
      ghost var s0, own0, xl0 := pt.P(), pt.Own(), pt.Translation();
      var rest := regions;
      ClearedNothing(xl0, regions);
      while rest != map[]
        invariant regions == old(regions) && Within(rest, regions)
        invariant pt.Valid() && View(rest, pt.Translation()).Healthy(pt.level)
        invariant Confined(s0, own0, pt.P(), pt.Own())
        invariant pt.Translation() == Cleared(xl0, regions, rest)
        decreases rest.Keys
      {
        var k :| k in rest;
        ghost var s1, own1, xl1 := pt.P(), pt.Own(), pt.Translation();
        assert Shows(xl1, rest[k]);
        ClearOne(xl0, regions, rest, pt.level, k);
        var end, cut := pt.Unmap(rest[k]);
        assert end.Finished?;
        ConfinedTrans(s0, own0, s1, own1, pt.P(), pt.Own());
        rest := rest - {k};
      }
      regions := map[];
    }

    /** Dropping the set: clear it, then drop the table. */
    method Drop()
      requires Valid()
      modifies this`regions, pt.pool`mem, pt.pool`free, pt.pool`live, pt.pool`freeFrames, pt.pool`liveFrames
      ensures pt.pool.Valid()
      ensures pt.pool.freeFrames == old(pt.pool.freeFrames + pt.Own())
      ensures pt.pool.liveFrames == old(pt.pool.liveFrames - pt.Own())
    {
      Clear();
      pt.Drop();
    }
  }

  /** `xl` without the regions of `m` that are no longer in `rest`. */
  ghost function Cleared(xl: imap<nat, Xlate>, m: Regions, rest: Regions): imap<nat, Xlate> {
    imap x: nat | x in xl && (InSome(m, x) ==> InSome(rest, x)) :: xl[x]
  }

  ghost predicate Within(rest: Regions, m: Regions) {
    forall k | k in rest :: k in m && m[k] == rest[k]
  }

  lemma ClearedNothing(xl: imap<nat, Xlate>, m: Regions)
    ensures Cleared(xl, m, m) == xl
  {
  }

  lemma ClearOne(xl: imap<nat, Xlate>, m: Regions, rest: Regions, level: nat, k: nat)
    requires View(rest, Cleared(xl, m, rest)).Healthy(level) && k in rest && Within(rest, m)
    ensures CutOut(Cleared(xl, m, rest), rest[k].start, rest[k].End()) == Cleared(xl, m, rest - {k})
    ensures View(rest - {k}, Cleared(xl, m, rest - {k})).Healthy(level) && Within(rest - {k}, m)
  {
    CutCleared(xl, m, rest, level, k);
    DeleteKeeps(Cleared(xl, m, rest), rest, level, k);
  }

  lemma CutCleared(xl: imap<nat, Xlate>, m: Regions, rest: Regions, level: nat, k: nat)
    requires Separate(rest, level) && k in rest && k in m && m[k] == rest[k]
    ensures CutOut(Cleared(xl, m, rest), k, rest[k].End()) == Cleared(xl, m, rest - {k})
  {
    forall x: nat ensures InSome(rest - {k}, x) <==> InSome(rest, x) && !(k <= x < rest[k].End()) {
      if InSome(rest, x) {
        var j :| j in rest && rest[j].Contains(x);
        OverlapMeansShared(rest[j], rest[k]);
        assert j != k ==> j in rest - {k} && (rest - {k})[j].Contains(x);
      }
    }
    forall x: nat | k <= x < rest[k].End() ensures InSome(m, x) { assert m[k].Contains(x); }
  }

  /** After the regions of an in-step set are cleared, nothing is translated. */
  lemma ClearedAll(v: View)
    requires v.InStep()
    ensures Cleared(v.xl, v.regions, map[]) == imap[]
  {
  }

  /** `regions.range(..start).last()`. */
  method NearestBefore(m: Regions, start: nat) returns (r: Option<nat>)
    ensures r.Some? ==> Last(m, start, r.value)
    ensures forall k: nat | Last(m, start, k) :: r == Some(k)
  {
    var before := set k | k in m && k < start;
    assert forall k | k in m && k < start :: k in before;
    if before == {} {
      return None;
    }
    ghost var j :| j in before;
    ghost var g := Greatest(before, j);
    var k :| k in before && forall i | i in before :: i <= k;
    return Some(k);
  }

  /** `regions.range(start..).next()`. */
  method NearestFrom(m: Regions, start: nat) returns (r: Option<nat>)
    ensures r.Some? ==> First(m, start, r.value)
    ensures forall k: nat | First(m, start, k) :: r == Some(k)
  {
    var after := set k | k in m && start <= k;
    assert forall k | k in m && start <= k :: k in after;
    if after == {} {
      return None;
    }
    ghost var j :| j in after;
    ghost var g := Least(after, j);
    var k :| k in after && forall i | i in after :: k <= i;
    return Some(k);
  }

  /** An insertion that stops before mapping anything. */
  lemma NothingInserted(v: View, r: Region, res: HvResult)
    requires r.Mappable(4)
    requires if r.size == 0 then res == Done else res == Failed(EINVAL) && !FreeArea(v.regions, r)
    ensures Inserts(v, v, r, res, r.start)
  {
  }
}
