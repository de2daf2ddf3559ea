/** Zones, the CPUs that point at them, the reference counts that guard their
    removal, and turning CPUs on. Creation, shutdown and power-off are atomic. */
module Lifecycle {

  const ROOT_ID: nat := 0
  const INVALID_ADDRESS: nat := 0xffff_ffff_ffff_ffff

  /** `key` stands for the identity of the shared zone object. */
  datatype Zone = Zone(id: nat, key: nat, cpus: set<nat>)

  datatype Outcome = Success | EPERM | EINVAL | EEXIST | EBUSY | Panicked

  /** `first_cpu`. */
  predicate IsFirst(cpus: set<nat>, c: nat) { c in cpus && forall d | d in cpus :: c <= d }

  lemma {:induction false} HasFirst(cpus: set<nat>, c: nat)
    requires c in cpus
    ensures exists d :: IsFirst(cpus, d)
    decreases cpus
  {
    if d :| d in cpus && d < c {
      HasFirst(cpus - {c}, d);
      var e :| IsFirst(cpus - {c}, e);
      assert forall x | x in cpus :: x == c || x in cpus - {c};
      assert IsFirst(cpus, e);
    } else {
      assert IsFirst(cpus, c);
    }
  }

  lemma OneFirst(cpus: set<nat>, c: nat)
    requires IsFirst(cpus, c)
    ensures Firsts(cpus, cpus) == {c}
  {
  }

  method First(cpus: set<nat>) returns (c: nat)
    requires cpus != {}
    ensures IsFirst(cpus, c) && Firsts(cpus, cpus) == {c}
  {
    var d: nat :| d in cpus;
    HasFirst(cpus, d);
    c :| c in cpus && IsFirst(cpus, c);
    OneFirst(cpus, c);
  }

  /** The boot CPU is sent a wake-up event. */
  ghost predicate WakesFirst(cpus: set<nat>, woken: seq<nat>, woken': seq<nat>) {
    exists c: nat :: c in cpus && (forall d | d in cpus :: c <= d) && woken' == woken + [c]
  }

  /** A zone without CPUs panics; a boot CPU that is on is busy. */
  ghost function WakeOutcome(cpus: set<nat>, psciOn: set<nat>): Outcome {
    if cpus == {} then Panicked else if Firsts(cpus, cpus) !! psciOn then Success else EBUSY
  }

  /** The CPUs among some that are the lowest of the set. */
  ghost function Firsts(among: set<nat>, cpus: set<nat>): set<nat> {
    set c | c in among && c in cpus && forall d | d in cpus :: c <= d
  }

  /** The field `m` of every CPU of the set becomes `v`. */
  ghost function AllSet(m: map<nat, nat>, cpus: set<nat>, v: nat): map<nat, nat> { m + map c | c in cpus :: v }

  lemma AllSetNext(m: map<nat, nat>, done: set<nat>, v: nat, c: nat)
    ensures AllSet(m, done, v)[c := v] == AllSet(m, done + {c}, v)
  {
    assert forall x | x in done + {c} :: x == c || x in done;
  }

  /** The zone list, the CPUs' zone fields and the next zone object. */
  datatype State = State(zones: seq<Zone>, owner: map<nat, nat>, next: nat)

  datatype Act = Create(z: Zone) | Down(i: nat)

  /** A new zone is listed and its CPUs point at it; a zone that goes down is removed
      and its CPUs point at nothing. */
  ghost function After(s: State, a: Act): State
    requires a.Down? ==> a.i < |s.zones|
  {
    match a
    case Create(z) => State(s.zones + [z], AllSet(s.owner, z.cpus, z.key), z.key + 1)
    case Down(i) => State(s.zones[..i] + s.zones[i + 1..], s.owner - s.zones[i].cpus, s.next)
  }

  ghost predicate DistinctZones(zones: seq<Zone>) {
    forall i, j | 0 <= i < j < |zones| :: zones[i].id != zones[j].id && zones[i].key != zones[j].key
  }

  predicate HasId(zones: seq<Zone>, id: nat) { exists i :: 0 <= i < |zones| && zones[i].id == id }

  /** The zone object is in the list and the zone lists the CPU. */
  ghost predicate Lists(zones: seq<Zone>, key: nat, c: nat) {
    exists i :: 0 <= i < |zones| && zones[i].key == key && c in zones[i].cpus
  }

  /** Every CPU's zone is in the list and lists the CPU. */
  ghost predicate OwnersListed(zones: seq<Zone>, owner: map<nat, nat>) {
    forall c {:trigger owner[c]} | c in owner :: Lists(zones, owner[c], c)
  }

  /** The root zone is created first. */
  ghost predicate RootFirst(zones: seq<Zone>) { zones == [] || zones[0].id == 0 }

  /** The zones are distinct and every zone referred to was allocated. */
  ghost predicate Known(zones: seq<Zone>, owner: map<nat, nat>, nextKey: nat) {
    var known :=
      && DistinctZones(zones)
      && (forall i | 0 <= i < |zones| :: zones[i].key < nextKey)
      && (forall c | c in owner :: owner[c] < nextKey);
    known
  }

  // ------------------------------------------------------ reference counts

  /** The CPUs whose `zone` field points at the zone object. */
  ghost function Holders(owner: map<nat, nat>, key: nat): set<nat> { set c | c in owner && owner[c] == key }

  /** How often the list refers to the zone object. */
  ghost function Listed(zones: seq<Zone>, key: nat): nat {
    if zones == [] then 0
    else Listed(zones[..|zones| - 1], key) + if zones[|zones| - 1].key == key then 1 else 0
  }

  /** All references to a zone object: CPUs, the list, and local variables. */
  ghost function Refs(zones: seq<Zone>, owner: map<nat, nat>, locals: multiset<nat>, key: nat): nat {
    |Holders(owner, key)| + Listed(zones, key) + locals[key]
  }

  ghost predicate CountOk(count: map<nat, nat>, zones: seq<Zone>, owner: map<nat, nat>, locals: multiset<nat>, k: nat) {
    k in count && count[k] == Refs(zones, owner, locals, k)
  }

  ghost predicate AllCounted(count: map<nat, nat>, zones: seq<Zone>, owner: map<nat, nat>, locals: multiset<nat>, n: nat) {
    forall k: nat {:trigger CountOk(count, zones, owner, locals, k)} | k < n :: CountOk(count, zones, owner, locals, k)
  }

  /** The new zone has one reference per CPU, the list's and the caller's; every other
      zone loses one for each CPU that is taken from it. */
  ghost predicate CountsMoved(count: map<nat, nat>, owner: map<nat, nat>, cpus: set<nat>, key: nat, count': map<nat, nat>) {
    && key in count' && count'[key] == |cpus| + 2
    && forall k: nat {:trigger Loses(count, owner, cpus, k, count')} | k < key :: Loses(count, owner, cpus, k, count')
  }

  ghost predicate Loses(count: map<nat, nat>, owner: map<nat, nat>, cpus: set<nat>, k: nat, count': map<nat, nat>) {
    k in count && k in count' && count'[k] == count[k] - |Holders(owner, k) * cpus|
  }

  ghost predicate Consistent(zones: seq<Zone>, owner: map<nat, nat>, count: map<nat, nat>, locals: multiset<nat>,
                             n: nat, off: bool)
  {
    var sound :=
      && Known(zones, owner, n) && AllCounted(count, zones, owner, locals, n)
      && OwnersListed(zones, owner) && (!off ==> RootFirst(zones));
    sound
  }

  /** What a creation changes. */
  datatype Fields = Fields(now: State, count: map<nat, nat>, entry: map<nat, nat>, dtbIpa: map<nat, nat>, bootCpus: set<nat>)

  /** The zone is listed and its CPUs point at it, with its entry point and device tree;
      the first is its boot CPU; the counts have moved. */
  ghost predicate Created(f: Fields, f': Fields, id: nat, cpus: set<nat>, entryPoint: nat, dtb: nat) {
    && f'.now == After(f.now, Create(Zone(id, f.now.next, cpus)))
    && CountsMoved(f.count, f.now.owner, cpus, f.now.next, f'.count)
    && f'.entry == AllSet(f.entry, cpus, entryPoint) && f'.dtbIpa == AllSet(f.dtbIpa, cpus, dtb)
    && f'.bootCpus == f.bootCpus + Firsts(cpus, cpus)
  }

  lemma HoldersSet(owner: map<nat, nat>, c: nat, k: nat, key: nat)
    ensures |Holders(owner[c := k], key)| ==
            |Holders(owner, key)| - (if c in owner && owner[c] == key then 1 else 0) + (if k == key then 1 else 0)
  {
    var rest := Holders(owner, key) - {c};
    assert Holders(owner[c := k], key) == if k == key then rest + {c} else rest;
  }

  lemma HoldersClear(owner: map<nat, nat>, c: nat, key: nat)
    ensures |Holders(owner - {c}, key)| == |Holders(owner, key)| - if c in owner && owner[c] == key then 1 else 0
  {
    assert Holders(owner - {c}, key) == Holders(owner, key) - {c};
  }

  /** Whoever loses CPUs to the new zone loses as many references. */
  lemma HoldersTaken(owner: map<nat, nat>, cpus: set<nat>, key: nat, k: nat)
    ensures k != key ==> |Holders(AllSet(owner, cpus, key), k)| == |Holders(owner, k)| - |Holders(owner, k) * cpus|
    ensures Holders(AllSet(owner, cpus, key), key) == Holders(owner, key) + cpus
  {
    if k != key {
      assert Holders(AllSet(owner, cpus, key), k) == Holders(owner, k) - cpus;
    }
  }

  lemma ListedPush(zones: seq<Zone>, z: Zone, key: nat)
    ensures Listed(zones + [z], key) == Listed(zones, key) + if z.key == key then 1 else 0
  {
    assert (zones + [z])[..|zones|] == zones;
  }

  lemma {:induction false} ListedRemove(zones: seq<Zone>, i: nat, key: nat)
    requires i < |zones|
    ensures Listed(zones, key) == Listed(zones[..i] + zones[i + 1..], key) + if zones[i].key == key then 1 else 0
  {
    var n := |zones| - 1;
    if i == n {
      assert zones[..i] + zones[i + 1..] == zones[..n];
    } else {
      var rest := zones[..n][..i] + zones[..n][i + 1..];
      ListedRemove(zones[..n], i, key);
      assert zones[..i] + zones[i + 1..] == rest + [zones[n]];
      ListedPush(rest, zones[n], key);
    }
  }

  /** Distinct zones are listed once. */
  lemma {:induction false} ListedOnce(zones: seq<Zone>, i: nat)
    requires DistinctZones(zones) && i < |zones|
    ensures Listed(zones, zones[i].key) == 1
  {
    var n := |zones| - 1;
    assert zones == zones[..n] + [zones[n]];
    if i < n { ListedOnce(zones[..n], i); } else { NotListed(zones[..n], zones[n].key); }
  }

  lemma {:induction false} NotListed(zones: seq<Zone>, key: nat)
    requires forall j | 0 <= j < |zones| :: zones[j].key != key
    ensures Listed(zones, key) == 0
  {
    if zones != [] { NotListed(zones[..|zones| - 1], key); }
  }

  // ----------------------------------------------------------- zone lists

  lemma OnlyListedHold(zones: seq<Zone>, owner: map<nat, nat>, i: nat)
    requires DistinctZones(zones) && OwnersListed(zones, owner) && i < |zones|
    ensures Holders(owner, zones[i].key) <= zones[i].cpus
  {
    forall c | c in Holders(owner, zones[i].key) ensures c in zones[i].cpus {
      assert Lists(zones, owner[c], c);
      var j :| 0 <= j < |zones| && zones[j].key == owner[c] && c in zones[j].cpus;
      assert j == i;
    }
  }

  lemma RemovalKeepsListed(zones: seq<Zone>, owner: map<nat, nat>, i: nat, zones': seq<Zone>)
    requires OwnersListed(zones, owner) && i < |zones| && zones' == zones[..i] + zones[i + 1..]
    requires forall c | c in owner :: c !in zones[i].cpus
    ensures OwnersListed(zones', owner)
  {
    forall c | c in owner ensures Lists(zones', owner[c], c) {
      assert Lists(zones, owner[c], c);
      var j :| 0 <= j < |zones| && zones[j].key == owner[c] && c in zones[j].cpus;
      var k := if j < i then j else j - 1;
      assert zones'[k] == zones[j];
    }
  }

  lemma RemovedOne(zones: seq<Zone>, i: nat, zones': seq<Zone>)
    requires DistinctZones(zones) && i < |zones| && zones' == zones[..i] + zones[i + 1..]
    ensures DistinctZones(zones')
  {
    forall j, k | 0 <= j < k < |zones'| ensures zones'[j].id != zones'[k].id && zones'[j].key != zones'[k].key {
      assert zones'[j] == zones[if j < i then j else j + 1] && zones'[k] == zones[if k < i then k else k + 1];
    }
  }

  lemma PushedOne(zones: seq<Zone>, owner: map<nat, nat>, z: Zone)
    requires OwnersListed(zones, owner - z.cpus) && forall c | c in owner && c in z.cpus :: owner[c] == z.key
    ensures OwnersListed(zones + [z], owner)
  {
    var zones' := zones + [z];
    forall c | c in owner ensures Lists(zones', owner[c], c) {
      if c in z.cpus {
        assert zones'[|zones|] == z;
      } else {
        assert (owner - z.cpus)[c] == owner[c];
        var j :| 0 <= j < |zones| && zones[j].key == owner[c] && c in zones[j].cpus;
        assert zones'[j] == zones[j];
      }
    }
  }

  // ---------------------------------------------------------- the machine

  class Machine {
    /** `ZONE_LIST`. */
    var zones: seq<Zone>
    /** `PerCpu::zone`, by key; a missing CPU has none. */
    var owner: map<nat, nat>
    /** The strong count of each zone object; 0 once it is freed. */
    var count: map<nat, nat>
    var nextKey: nat
    /** `PerCpu::cpu_on_entry`, `dtb_ipa`, `boot_cpu` and `psci_on`. */
    var entry: map<nat, nat>
    var dtbIpa: map<nat, nat>
    var bootCpus: set<nat>
    var psciOn: set<nat>
    var poweredOff: bool
    /** The CPUs that were sent the wake-up event, in order. */
    var woken: seq<nat>
    /** The shutdown events sent to each CPU. */
    var stops: multiset<nat>
    /** References held in local variables. */
    ghost var locals: multiset<nat>

    ghost function Now(): State
      reads this
    {
      State(zones, owner, nextKey)
    }

    ghost function Look(): Fields
      reads this
    {
      Fields(Now(), count, entry, dtbIpa, bootCpus)
    }

    /** Every count is the number of references there are. */
    ghost predicate Counted()
      reads this
    {
      AllCounted(count, zones, owner, locals, nextKey)
    }

    ghost predicate Shape()
      reads this
    {
      Known(zones, owner, nextKey)
    }

    /** Distinct zones with the root at the head while the machine is on; every CPU's
        zone is listed and lists it; counts are exact. */
    ghost predicate Sound()
      reads this
    {
      Consistent(zones, owner, count, locals, nextKey, poweredOff)
    }

    /** ... and no local variable holds a zone. */
    ghost predicate Valid()
      reads this
    {
      Sound() && locals == multiset{}
    }

    /** Before the primary creates the root zone. */
    constructor ()
      ensures Valid() && !poweredOff && Now() == State([], map[], 0)
      ensures entry == map[] && dtbIpa == map[] && bootCpus == {} && psciOn == {} && woken == [] && stops == multiset{}
    {
      zones, owner, count, nextKey := [], map[], map[], 0;
      entry, dtbIpa, bootCpus, psciOn := map[], map[], {}, {};
      poweredOff, woken, stops := false, [], multiset{};
      locals := multiset{};
    }

    // The operations on references.

    /** `clone` into a local variable. */
    method Hold(key: nat)
      requires Counted() && key < nextKey
      modifies this`count, this`locals
      ensures Counted() && locals == old(locals) + multiset{key}
      ensures key in old(count) && count == old(count)[key := old(count)[key] + 1]
    {
      assert CountOk(count, zones, owner, locals, key);
      count := count[key := count[key] + 1];
      locals := locals + multiset{key};
      forall k: nat | k < nextKey ensures CountOk(count, zones, owner, locals, k) {
        assert CountOk(old(count), zones, owner, old(locals), k);
      }
    }

    /** A local variable goes out of scope. */
    method Release(key: nat)
      requires Counted() && key < nextKey && locals[key] > 0
      modifies this`count, this`locals
      ensures Counted() && locals == old(locals) - multiset{key}
      ensures key in old(count) && old(count)[key] > 0 && count == old(count)[key := old(count)[key] - 1]
    {
      assert CountOk(count, zones, owner, locals, key);
      count := count[key := count[key] - 1];
      locals := locals - multiset{key};
      forall k: nat | k < nextKey ensures CountOk(count, zones, owner, locals, k) {
        assert CountOk(old(count), zones, owner, old(locals), k);
      }
    }

    /** `cpu.zone = Some(zone.clone())`: the zone it pointed at loses a reference. */
    method PointAt(c: nat, key: nat)
      requires Counted() && key < nextKey && (c in owner ==> owner[c] < nextKey)
      modifies this`count, this`owner
      ensures Counted() && owner == old(owner)[c := key]
    {
      assert CountOk(count, zones, owner, locals, key);
      count := count[key := count[key] + 1];
      if c in owner {
        assert CountOk(old(count), zones, owner, locals, owner[c]);
        HolderCounts(owner, c);
        count := count[owner[c] := count[owner[c]] - 1];
      }
      owner := owner[c := key];
      forall k: nat | k < nextKey ensures CountOk(count, zones, owner, locals, k) {
        assert CountOk(old(count), zones, old(owner), locals, k);
        HoldersSet(old(owner), c, key, k);
      }
    }

    /** `cpu.zone = None`. */
    method Forget(c: nat)
      requires Counted() && (c in owner ==> owner[c] < nextKey)
      modifies this`count, this`owner
      ensures Counted() && owner == old(owner) - {c}
    {
      if c in owner {
        assert CountOk(old(count), zones, owner, locals, owner[c]);
        HolderCounts(owner, c);
        count := count[owner[c] := count[owner[c]] - 1];
      }
      owner := owner - {c};
      forall k: nat | k < nextKey ensures CountOk(count, zones, owner, locals, k) {
        assert CountOk(old(count), zones, old(owner), locals, k);
        HoldersClear(old(owner), c, k);
      }
    }

    /** `ZONE_LIST.push(zone.clone())`. */
    method Push(z: Zone)
      requires Counted() && z.key < nextKey
      modifies this`count, this`zones
      ensures Counted() && zones == old(zones) + [z]
    {
      assert CountOk(count, zones, owner, locals, z.key);
      count := count[z.key := count[z.key] + 1];
      zones := zones + [z];
      forall k: nat | k < nextKey ensures CountOk(count, zones, owner, locals, k) {
        ListedPush(old(zones), z, k);
        assert CountOk(old(count), old(zones), owner, locals, k);
      }
    }

    /** `zone_list.remove(i)`: the list's reference moves to a local variable. */
    method TakeOut(i: nat)
      requires Counted() && i < |zones|
      modifies this`zones, this`locals
      ensures Counted() && zones == old(zones)[..i] + old(zones)[i + 1..]
      ensures locals == old(locals) + multiset{old(zones)[i].key}
    {
      locals := locals + multiset{zones[i].key};
      zones := zones[..i] + zones[i + 1..];
      forall k: nat | k < nextKey ensures CountOk(count, zones, owner, locals, k) {
        ListedRemove(old(zones), i, k);
        assert CountOk(count, old(zones), owner, old(locals), k);
      }
    }

    // The operations of the source.

    method Find(id: nat) returns (i: nat)
      ensures i <= |zones| && (i < |zones| <==> HasId(zones, id))
      ensures i < |zones| ==> zones[i].id == id
    {
      i := 0;
      while i < |zones| && zones[i].id != id
        invariant i <= |zones| && forall j | 0 <= j < i :: zones[j].id != id
      {
        i := i + 1;
      }
    }

    /** `is_this_root_zone` on `cpu`: two clones that are dropped at once. */
    method IsThisRootZone(cpu: nat) returns (root: bool)
      requires Valid() && !poweredOff && cpu in owner
      modifies this`count, this`locals
      ensures Valid() && zones != [] && (root <==> owner[cpu] == zones[0].key)
    {
      assert Lists(zones, owner[cpu], cpu);
      Hold(owner[cpu]);
      Hold(zones[0].key);
      root := owner[cpu] == zones[0].key;
      Release(zones[0].key);
      Release(owner[cpu]);
    }

    /** `Arc::new`. */
    method NewZone() returns (key: nat)
      requires Sound() && locals == multiset{}
      modifies this`count, this`nextKey, this`locals
      ensures Sound() && Known(zones, owner, key) && key == old(nextKey) && nextKey == key + 1 && locals == multiset{key}
    {
      key := nextKey;
      NotListed(zones, key);
      assert Holders(owner, key) == {};
      count := count[key := 1];
      nextKey := nextKey + 1;
      locals := multiset{key};
      forall k: nat | k < nextKey ensures CountOk(count, zones, owner, locals, k) {
        if k < key { assert CountOk(old(count), zones, owner, old(locals), k); }
      }
    }

    /** One round of the loop in `zone_create`. */
    method TakeCpu(c: nat, key: nat, isBoot: bool, entryPoint: nat, dtb: nat)
      requires Shape() && Counted() && key < nextKey
      modifies this`count, this`owner, this`entry, this`dtbIpa, this`bootCpus
      ensures Shape() && Counted() && owner == old(owner)[c := key]
      ensures entry == old(entry)[c := entryPoint] && dtbIpa == old(dtbIpa)[c := dtb]
      ensures bootCpus == old(bootCpus) + if isBoot then {c} else {}
    {
      PointAt(c, key);
      if isBoot {
        bootCpus := bootCpus + {c};
      }
      entry := entry[c := entryPoint];
      dtbIpa := dtbIpa[c := dtb];
    }

    /** The loop of `zone_create` that makes each CPU point at the new zone; a CPU of
        another zone is taken over, and that zone loses the reference. */
    method TakeCpus(cpus: set<nat>, key: nat, entryPoint: nat, dtb: nat)
      requires Shape() && Counted() && key < nextKey
      modifies this`count, this`owner, this`entry, this`dtbIpa, this`bootCpus
      ensures Shape() && Counted() && owner == AllSet(old(owner), cpus, key)
      ensures entry == AllSet(old(entry), cpus, entryPoint) && dtbIpa == AllSet(old(dtbIpa), cpus, dtb)
      ensures bootCpus == old(bootCpus) + Firsts(cpus, cpus)
    {
      var todo := cpus;
      ghost var done: set<nat> := {};
      while todo != {}
        invariant Split(todo, done, cpus) && Shape() && Counted()
        invariant owner == AllSet(old(owner), done, key)
        invariant entry == AllSet(old(entry), done, entryPoint) && dtbIpa == AllSet(old(dtbIpa), done, dtb)
        invariant bootCpus == old(bootCpus) + Firsts(done, cpus)
        decreases todo
      {
        var c :| c in todo;
        TakeCpu(c, key, IsFirst(cpus, c), entryPoint, dtb);
        AllSetNext(old(owner), done, key, c);
        AllSetNext(old(entry), done, entryPoint, c);
        AllSetNext(old(dtbIpa), done, dtb, c);
        SplitNext(todo, done, cpus, c);
        todo, done := todo - {c}, done + {c};
      }
    }

    /** `find_zone(id).is_some()`. */
    method IsKnown(id: nat) returns (known: bool)
      requires Valid()
      modifies this`count, this`locals
      ensures Valid() && count == old(count) && (known <==> HasId(zones, id))
    {
      var i := Find(id);
      known := i < |zones|;
      if known {
        Hold(zones[i].key);
        Release(zones[i].key);
      }
    }

    /** The end of `zone_create`, from `Arc::new` on: the zone is listed, its CPUs point
        at it, and the caller gets a reference. */
    method CreateNew(id: nat, cpus: set<nat>, entryPoint: nat, dtb: nat)
      requires Valid() && !HasId(zones, id) && (zones == [] ==> id == ROOT_ID)
      modifies this`zones, this`owner, this`count, this`nextKey, this`locals, this`entry, this`dtbIpa, this`bootCpus
      ensures Sound() && locals == multiset{old(nextKey)}
      ensures Created(old(Look()), Look(), id, cpus, entryPoint, dtb)
    {
      var key := NewZone();
      Install(id, key, cpus, entryPoint, dtb);
      CountsAfter(old(count), old(zones), old(owner), Zone(id, key, cpus), count, owner);
    }

    /** ... after `Arc::new`. */
    method Install(id: nat, key: nat, cpus: set<nat>, entryPoint: nat, dtb: nat)
      requires Sound() && Known(zones, owner, key) && nextKey == key + 1 && !HasId(zones, id)
      requires zones == [] ==> id == ROOT_ID
      modifies this`zones, this`owner, this`count, this`entry, this`dtbIpa, this`bootCpus
      ensures Sound() && Now() == After(old(Now()), Create(Zone(id, key, cpus)))
      ensures entry == AllSet(old(entry), cpus, entryPoint) && dtbIpa == AllSet(old(dtbIpa), cpus, dtb)
      ensures bootCpus == old(bootCpus) + Firsts(cpus, cpus)
    {
      TakeCpus(cpus, key, entryPoint, dtb);
      Installed(old(zones), old(owner), Zone(id, key, cpus), nextKey);
      Push(Zone(id, key, cpus));
    }

    /** `remove_zone`: false is the assertion that the strong count is 1. The count is
        1 exactly when no CPU and no local variable refers to the zone. */
    method RemoveZone(id: nat, ghost i: nat) returns (ok: bool)
      requires Shape() && Counted() && i < |zones| && zones[i].id == id
      modifies this`zones, this`count, this`locals
      ensures Counted() && locals == old(locals) && zones == old(zones)[..i] + old(zones)[i + 1..]
      ensures ok <==> Holders(owner, old(zones)[i].key) == {} && locals[old(zones)[i].key] == 0
    {
      var at := Find(id);
      assert at == i;
      var removed := zones[at];
      ListedOnce(zones, at);
      ListedRemove(zones, at, removed.key);
      TakeOut(at);
      assert CountOk(count, zones, owner, locals, removed.key);
      ok := count[removed.key] == 1;
      Release(removed.key);
    }

    /** Takes the zone at `i` down: its CPUs forget it, whoever they point at, all but
        the `quiet` ones are sent a shutdown event, and it is removed. The count
        assertion never fires. */
    method TakeDown(i: nat, reset: bool, quiet: set<nat>)
      requires Valid() && i < |zones|
      modifies this`zones, this`owner, this`count, this`locals, this`entry, this`stops
      ensures Shape() && Counted() && OwnersListed(zones, owner) && locals == multiset{}
      ensures Now() == After(old(Now()), Down(i))
      ensures entry == if reset then AllSet(old(entry), old(zones)[i].cpus, INVALID_ADDRESS) else old(entry)
      ensures stops == old(stops) + multiset(old(zones)[i].cpus - quiet)
    {
      var z := zones[i];
      Disown(z, reset, quiet);
      Uninstalled(zones, old(owner), i, zones[..i] + zones[i + 1..], owner, nextKey);
      var ok := RemoveZone(z.id, i);
      assert ok;
    }

    /** The CPUs of a zone forget it, while a local variable holds it. */
    method Disown(z: Zone, reset: bool, quiet: set<nat>)
      requires Shape() && Counted() && locals == multiset{} && z.key < nextKey
      modifies this`owner, this`count, this`locals, this`entry, this`stops
      ensures Shape() && Counted() && locals == multiset{} && Stopped(old(OfCpus()), z.cpus, reset, quiet, OfCpus())
    {
      Hold(z.key);
      ForgetCpus(z.cpus, reset, quiet);
      Release(z.key);
    }

    ghost function OfCpus(): PerCpus
      reads this
    {
      PerCpus(owner, entry, stops)
    }

    /** The loop over the CPUs of a zone that goes down. */
    method ForgetCpus(cpus: set<nat>, reset: bool, quiet: set<nat>)
      requires Shape() && Counted()
      modifies this`owner, this`count, this`entry, this`stops
      ensures Shape() && Counted() && Stopped(old(OfCpus()), cpus, reset, quiet, OfCpus())
    {
      var todo := cpus;
      ghost var done: set<nat>, p := {}, OfCpus();
      StoppedNone(p, reset, quiet);
      while todo != {}
        invariant Split(todo, done, cpus) && Shape() && Counted() && Stopped(p, done, reset, quiet, OfCpus())
        decreases todo
      {
        var c :| c in todo;
        ForgetNext(c, reset, quiet, p, done);
        SplitNext(todo, done, cpus, c);
        todo, done := todo - {c}, done + {c};
      }
    }

    method ForgetNext(c: nat, reset: bool, quiet: set<nat>, ghost p: PerCpus, ghost done: set<nat>)
      requires Shape() && Counted() && Stopped(p, done, reset, quiet, OfCpus()) && c !in done
      modifies this`owner, this`count, this`entry, this`stops
      ensures Shape() && Counted() && Stopped(p, done + {c}, reset, quiet, OfCpus())
    {
      ghost var before := OfCpus();
      StopCpu(c, reset, c in quiet);
      StoppedNext(p, done, reset, quiet, before, c, OfCpus());
    }

    /** One round of that loop. */
    method StopCpu(c: nat, reset: bool, quiet: bool)
      requires Shape() && Counted()
      modifies this`owner, this`count, this`entry, this`stops
      ensures Shape() && Counted() && owner == old(owner) - {c}
      ensures entry == if reset then old(entry)[c := INVALID_ADDRESS] else old(entry)
      ensures stops == old(stops) + if quiet then multiset{} else multiset{c}
    {
      Forget(c);
      if reset {
        entry := entry[c := INVALID_ADDRESS];
      }
      if !quiet {
        stops := stops + multiset{c};
      }
    }

    /** The end of `hv_zone_start`, where the local reference goes out of scope. */
    method WakeBoot(cpus: set<nat>, key: nat) returns (res: Outcome)
      requires Sound() && key < nextKey && locals == multiset{key}
      modifies this`woken, this`count, this`locals
      ensures Valid() && Look() == old(Look()).(count := count) && res == WakeOutcome(cpus, psciOn)
      ensures if res.Success? then WakesFirst(cpus, old(woken), woken) else woken == old(woken)
    {
      Release(key);
      if cpus == {} {
        return Panicked;
      }
      var boot := First(cpus);
      if boot in psciOn {
        return EBUSY;
      }
      woken := woken + [boot];
      return Success;
    }

    /** `hv_zone_shutdown`: the root zone itself cannot be shut down. */
    method ZoneShutdown(cpu: nat, id: nat) returns (res: Outcome)
      requires Valid() && !poweredOff && cpu in owner
      modifies this
      ensures Valid() && !poweredOff && old(zones) != [] && zones != [] && zones[0] == old(zones[0])
      ensures res == if old(owner[cpu]) != old(zones[0].key) then EPERM else if id == 0 then EINVAL
                     else if !HasId(old(zones), id) then EEXIST else Success
      ensures !res.Success? ==> Now() == old(Now()) && stops == old(stops) && entry == old(entry)
      ensures psciOn == old(psciOn) && woken == old(woken) && dtbIpa == old(dtbIpa) && bootCpus == old(bootCpus)
      ensures res.Success? ==> exists i :: 0 <= i < |old(zones)| && old(zones)[i].id == id && Now() == After(old(Now()), Down(i))
                                           && stops == old(stops) + multiset(old(zones)[i].cpus)
                                           && entry == AllSet(old(entry), old(zones)[i].cpus, 0xffff_ffff_ffff_ffff)
    {
      var root := IsThisRootZone(cpu);
      if !root {
        return EPERM;
      }
      if id == ROOT_ID {
        return EINVAL;
      }
      var i := Find(id);
      if i == |zones| {
        return EEXIST;
      }
      TakeDown(i, true, {});
      return Success;
    }

    /** The SYSTEM_OFF call of a CPU in some zone; from the root zone it powers the
        machine off, from another the CPU goes idle. */
    method SystemOff(cpu: nat) returns (ghost i: nat)
      requires Valid() && !poweredOff && cpu in owner
      modifies this
      ensures Valid() && old(zones) != [] && (poweredOff <==> old(owner[cpu]) == old(zones[0].key))
      ensures psciOn == if poweredOff then old(psciOn) else old(psciOn) - {cpu}
      ensures entry == old(entry) && woken == old(woken) && dtbIpa == old(dtbIpa) && bootCpus == old(bootCpus)
      ensures i < |old(zones)| && stops == old(stops) + multiset(old(zones)[i].cpus - {cpu})
      ensures i < |old(zones)| && old(zones)[i].key == old(owner[cpu]) && Now() == After(old(Now()), Down(i))
    {
      var root := IsThisRootZone(cpu);
      assert Lists(zones, owner[cpu], cpu);
      var at := 0;
      while zones[at].key != owner[cpu]
        invariant at < |zones| && forall j | 0 <= j < at :: zones[j].key != owner[cpu]
        decreases |zones| - at
      {
        at := at + 1;
      }
      i := at;
      TakeDown(at, false, {cpu});
      if root {
        poweredOff := true;
      } else {
        assert zones[0] == old(zones)[0];
        psciOn := psciOn - {cpu};
      }
    }
  }

  /** What a zone that goes down changes in its CPUs. */
  datatype PerCpus = PerCpus(owner: map<nat, nat>, entry: map<nat, nat>, stops: multiset<nat>)

  ghost predicate Stopped(p: PerCpus, done: set<nat>, reset: bool, quiet: set<nat>, p': PerCpus) {
    var stopped :=
      && p'.owner == p.owner - done
      && p'.entry == (if reset then AllSet(p.entry, done, INVALID_ADDRESS) else p.entry)
      && p'.stops == p.stops + multiset(done - quiet);
    stopped
  }

  ghost predicate Split(todo: set<nat>, done: set<nat>, all: set<nat>) {
    var split := todo !! done && todo + done == all;
    split
  }

  lemma SplitNext(todo: set<nat>, done: set<nat>, all: set<nat>, c: nat)
    requires Split(todo, done, all) && c in todo
    ensures Split(todo - {c}, done + {c}, all) && c !in done
  {
  }

  lemma StoppedNone(p: PerCpus, reset: bool, quiet: set<nat>)
    ensures Stopped(p, {}, reset, quiet, p)
  {
  }

  lemma StoppedNext(p: PerCpus, done: set<nat>, reset: bool, quiet: set<nat>, p1: PerCpus, c: nat, p2: PerCpus)
    requires Stopped(p, done, reset, quiet, p1) && c !in done && p2.owner == p1.owner - {c}
    requires p2.entry == if reset then p1.entry[c := INVALID_ADDRESS] else p1.entry
    requires p2.stops == p1.stops + if c in quiet then multiset{} else multiset{c}
    ensures Stopped(p, done + {c}, reset, quiet, p2)
  {
    AllSetNext(p.entry, done, INVALID_ADDRESS, c);
    OneMore(p.stops, done, quiet, c);
    assert p.owner - done - {c} == p.owner - (done + {c});
  }

  lemma OneMore(m: multiset<nat>, done: set<nat>, quiet: set<nat>, c: nat)
    requires c !in done
    ensures m + multiset((done + {c}) - quiet) == m + multiset(done - quiet) + if c in quiet then multiset{} else multiset{c}
  {
    assert (done + {c}) - quiet == (done - quiet) + if c in quiet then {} else {c};
  }

  lemma HolderCounts(owner: map<nat, nat>, c: nat)
    requires c in owner
    ensures |Holders(owner, owner[c])| > 0
  {
    assert c in Holders(owner, owner[c]);
  }

  lemma CountsAfter(count: map<nat, nat>, zones: seq<Zone>, owner: map<nat, nat>, z: Zone, count': map<nat, nat>,
                    owner': map<nat, nat>)
    requires Known(zones, owner, z.key) && AllCounted(count, zones, owner, multiset{}, z.key)
    requires owner' == AllSet(owner, z.cpus, z.key) && AllCounted(count', zones + [z], owner', multiset{z.key}, z.key + 1)
    ensures CountsMoved(count, owner, z.cpus, z.key, count')
  {
    var key := z.key;
    ListedPush(zones, z, key);
    NotListed(zones, key);
    HoldersTaken(owner, z.cpus, key, key);
    assert Holders(owner, key) == {};
    assert CountOk(count', zones + [z], owner', multiset{key}, key);
    forall k: nat | k < key ensures Loses(count, owner, z.cpus, k, count') {
      assert CountOk(count, zones, owner, multiset{}, k) && CountOk(count', zones + [z], owner', multiset{key}, k);
      ListedPush(zones, z, k);
      HoldersTaken(owner, z.cpus, key, k);
    }
  }

  /** The new zone takes its CPUs over, whoever had them. */
  lemma Installed(zones: seq<Zone>, owner: map<nat, nat>, z: Zone, nextKey: nat)
    requires Known(zones, owner, z.key) && OwnersListed(zones, owner) && !HasId(zones, z.id) && z.key < nextKey
    ensures Known(zones + [z], AllSet(owner, z.cpus, z.key), nextKey)
    ensures OwnersListed(zones + [z], AllSet(owner, z.cpus, z.key))
    ensures RootFirst(zones) && (zones == [] ==> z.id == ROOT_ID) ==> RootFirst(zones + [z])
  {
    StillListed(zones, owner, z.cpus, AllSet(owner, z.cpus, z.key));
    PushedOne(zones, AllSet(owner, z.cpus, z.key), z);
  }

  /** The zone leaves no CPU behind that points at it or at nothing listed. */
  lemma Uninstalled(zones: seq<Zone>, owner: map<nat, nat>, i: nat, zones': seq<Zone>, owner': map<nat, nat>, nextKey: nat)
    requires Known(zones, owner, nextKey) && OwnersListed(zones, owner)
    requires i < |zones| && zones' == zones[..i] + zones[i + 1..] && owner' == owner - zones[i].cpus
    ensures Known(zones', owner', nextKey) && OwnersListed(zones', owner') && Holders(owner', zones[i].key) == {}
  {
    OnlyListedHold(zones, owner, i);
    FewerOwners(zones, owner, owner');
    RemovedOne(zones, i, zones');
    RemovalKeepsListed(zones, owner', i, zones');
  }

  lemma StillListed(zones: seq<Zone>, owner: map<nat, nat>, cpus: set<nat>, owner': map<nat, nat>)
    requires OwnersListed(zones, owner) && forall c | c in owner' - cpus :: c in owner && owner[c] == owner'[c]
    ensures OwnersListed(zones, owner' - cpus)
  {
    forall c | c in owner' - cpus ensures Lists(zones, (owner' - cpus)[c], c) { assert Lists(zones, owner[c], c); }
  }

  lemma FewerOwners(zones: seq<Zone>, owner: map<nat, nat>, owner': map<nat, nat>)
    requires OwnersListed(zones, owner) && forall c | c in owner' :: c in owner && owner[c] == owner'[c]
    ensures OwnersListed(zones, owner')
  {
    forall c | c in owner' ensures Lists(zones, owner'[c], c) { assert Lists(zones, owner[c], c); }
  }

  // ------------------------------------------------------- runs of a machine

  ghost predicate Proper(s: State) { Known(s.zones, s.owner, s.next) && OwnersListed(s.zones, s.owner) }

  /** A creation has a new id and the next zone object. */
  ghost predicate Possible(s: State, a: Act) {
    match a
    case Create(z) => z.key == s.next && !HasId(s.zones, z.id)
    case Down(i) => i < |s.zones|
  }

  ghost predicate StepAt(ss: seq<State>, acts: seq<Act>, k: nat)
    requires k < |acts| && k + 1 < |ss|
  {
    Possible(ss[k], acts[k]) && ss[k + 1] == After(ss[k], acts[k])
  }

  ghost predicate IsRun(ss: seq<State>, acts: seq<Act>) {
    |ss| == |acts| + 1 && forall k: nat | k < |acts| :: StepAt(ss, acts, k)
  }

  /** Every CPU that a listed zone claims points at that zone. */
  ghost predicate Faithful(s: State) {
    forall i, c | 0 <= i < |s.zones| && c in s.zones[i].cpus :: c in s.owner && s.owner[c] == s.zones[i].key
  }

  /** A creation that takes no CPU of a listed zone. */
  ghost predicate TakesFree(s: State, a: Act) {
    a.Create? ==> forall i | 0 <= i < |s.zones| :: s.zones[i].cpus !! a.z.cpus
  }

  lemma CreateFaithful(s: State, z: Zone)
    requires Proper(s) && Possible(s, Create(z)) && Faithful(s)
    ensures Faithful(After(s, Create(z))) <==> TakesFree(s, Create(z))
  {
    var s' := After(s, Create(z));
    assert forall i | 0 <= i < |s.zones| :: s'.zones[i] == s.zones[i];
    if i, c :| 0 <= i < |s.zones| && c in s.zones[i].cpus && c in z.cpus {
      assert s'.owner[c] == z.key;
      assert !Faithful(s');
    }
  }

  lemma DownFaithful(s: State, i: nat)
    requires i < |s.zones| && DistinctZones(s.zones) && Faithful(s)
    ensures Faithful(After(s, Down(i)))
  {
    var s' := After(s, Down(i));
    forall k, c | 0 <= k < |s'.zones| && c in s'.zones[k].cpus ensures c in s'.owner && s'.owner[c] == s'.zones[k].key {
      var j := if k < i then k else k + 1;
      assert s'.zones[k] == s.zones[j];
      assert c in s.owner && s.owner[c] == s.zones[j].key && s.zones[j].key != s.zones[i].key;
    }
  }

  lemma StepKeepsProper(s: State, a: Act)
    requires Proper(s) && Possible(s, a)
    ensures Proper(After(s, a))
  {
    match a
    case Create(z) => Installed(s.zones, s.owner, z, z.key + 1);
    case Down(i) => var s' := After(s, a); Uninstalled(s.zones, s.owner, i, s'.zones, s'.owner, s.next);
  }

  /** Over every run the zones stay distinct and every CPU's zone is listed. */
  lemma {:induction false} RunProper(ss: seq<State>, acts: seq<Act>, k: nat)
    requires IsRun(ss, acts) && k < |ss| && Proper(ss[0])
    ensures Proper(ss[k])
  {
    if k > 0 {
      RunProper(ss, acts, k - 1);
      assert StepAt(ss, acts, k - 1);
      StepKeepsProper(ss[k - 1], acts[k - 1]);
    }
  }

  /** Over every run, listed zones keep their CPUs exactly as long as creations take
      CPUs of no listed zone. */
  lemma {:induction false} FaithfulRuns(ss: seq<State>, acts: seq<Act>, n: nat)
    requires IsRun(ss, acts) && n <= |acts| && Proper(ss[0]) && Faithful(ss[0])
    ensures (forall k | 0 <= k <= n :: Faithful(ss[k])) <==> (forall k | 0 <= k < n :: TakesFree(ss[k], acts[k]))
  {
    if n > 0 {
      FaithfulRuns(ss, acts, n - 1);
      assert StepAt(ss, acts, n - 1);
      RunProper(ss, acts, n - 1);
      var s, a := ss[n - 1], acts[n - 1];
      if Faithful(s) {
        match a
        case Create(z) => CreateFaithful(s, z);
        case Down(i) => DownFaithful(s, i);
      }
    }
  }

  /** Shutting down a zone that lost CPUs to a new one clears the pointers of the new
      zone's CPUs: it keeps them exactly when the two share none. */
  lemma RobbedShutdown(s: State, z: Zone, i: nat)
    requires Proper(s) && Possible(s, Create(z)) && i < |s.zones|
    ensures var s' := After(After(s, Create(z)), Down(i));
            && z in s'.zones
            && (forall c | c in z.cpus * s.zones[i].cpus :: c !in s'.owner)
            && ((forall c | c in z.cpus :: c in s'.owner && s'.owner[c] == z.key) <==> z.cpus !! s.zones[i].cpus)
  {
    var s1 := After(s, Create(z));
    var s' := After(s1, Down(i));
    assert s1.zones[i] == s.zones[i];
    assert s'.zones[|s.zones| - 1] == z;
  }

  // ------------------------------------------------------------ CPU_ON

  /** A CPU_ON answered with success or ALREADY_ON, a CPU entering its guest, and a
      CPU going idle. */
  datatype Event = CpuOn(target: nat, success: bool) | Run(cpu: nat) | Idle(cpu: nat)

  ghost predicate Happens(on: set<nat>, e: Event, on': set<nat>) {
    match e
    case CpuOn(t, success) => (success <==> t !in on) && on' == on + {t}
    case Run(c) => on' == on + {c}
    case Idle(c) => on' == on - {c}
  }

  ghost predicate IsHistory(ons: seq<set<nat>>, es: seq<Event>) {
    |ons| == |es| + 1 && forall k | 0 <= k < |es| :: Happens(ons[k], es[k], ons[k + 1])
  }

  lemma {:induction false} StaysOn(ons: seq<set<nat>>, es: seq<Event>, t: nat, i: nat, k: nat)
    requires IsHistory(ons, es) && i < k <= |es| && t in ons[i + 1]
    requires forall m | i < m < k :: es[m] != Idle(t)
    ensures t in ons[k]
  {
    if i + 1 < k {
      StaysOn(ons, es, t, i, k - 1);
      assert Happens(ons[k - 1], es[k - 1], ons[k - 1 + 1]);
    }
  }

  /** Between two successful CPU_ON calls for a CPU it has gone idle. */
  lemma OneSuccessBetweenIdles(ons: seq<set<nat>>, es: seq<Event>, t: nat, i: nat, j: nat)
    requires IsHistory(ons, es) && i < j < |es| && es[i] == CpuOn(t, true) && es[j] == CpuOn(t, true)
    ensures exists k :: i < k < j && es[k] == Idle(t)
  {
    assert Happens(ons[i], es[i], ons[i + 1]) && Happens(ons[j], es[j], ons[j + 1]);
    if forall k | i < k < j :: es[k] != Idle(t) { StaysOn(ons, es, t, i, j); }
  }

  /** While a CPU runs, from its entering the guest until it goes idle, every CPU_ON for
      it is refused. */
  lemma RefusedWhileRunning(ons: seq<set<nat>>, es: seq<Event>, t: nat, i: nat, j: nat)
    requires IsHistory(ons, es) && i < j < |es| && es[i] == Run(t) && es[j].CpuOn? && es[j].target == t
    requires forall k | i < k < j :: es[k] != Idle(t)
    ensures !es[j].success
  {
    assert Happens(ons[i], es[i], ons[i + 1]) && Happens(ons[j], es[j], ons[j + 1]);
    StaysOn(ons, es, t, i, j);
  }
}
