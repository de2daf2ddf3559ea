/** Concurrent writes to the group, configuration and priority registers: every
    interleaving of the locked read-modify-write steps of CPUs in different zones,
    for accesses of any width that start at bit 0 of a register. */
module VgicLock {
  import opened Bits
  import opened Options
  import opened Vgic

  datatype Pc =
    | Idle
    | Want(index: nat, width: nat, value: nat)
    | Locked(index: nat, width: nat, value: nat)
    | HasRead(index: nat, width: nat, value: nat, lane: nat)
    | HasWritten
  {
    predicate Holding() { Locked? || HasRead? || HasWritten? }
  }

  /** One bank of registers under `GICD_LOCK`. `bitmaps[z]` are zone `z`'s
      interrupts; `last[(z, i)]` records what zone `z` last wrote to each bit of
      register `i`, and `first` the words before any write. */
  datatype State = State(words: seq<nat>, lock: Option<nat>, pcs: seq<Pc>,
                         last: map<(nat, nat), nat>, first: seq<nat>)

  /** The fixed surroundings: field width, the zones' bitmaps and masks, and the
      zone each CPU belongs to. */
  datatype World = World(bits: nat, bitmaps: seq<Bitmap>, masks: seq<seq<nat>>, zoneOf: seq<nat>)

  ghost predicate Exclusive(bitmaps: seq<Bitmap>) {
    forall y, z, irq: nat | 0 <= y < z < |bitmaps| :: !(Owned(bitmaps[y], irq) && Owned(bitmaps[z], irq))
  }

  /** The masks are those that `AccessMask` computes. */
  ghost predicate WorldOk(w: World, n: nat) {
    && FieldWidth(w.bits) && Exclusive(w.bitmaps) && |w.masks| == |w.bitmaps|
    && (forall c | 0 <= c < |w.zoneOf| :: w.zoneOf[c] < |w.masks|)
    && (forall z | 0 <= z < |w.masks| :: |w.masks[z]| == n)
    && (forall z, i | 0 <= z < |w.masks| && 0 <= i < n :: w.masks[z][i] < U32_LIMIT)
    && forall z, i, j: nat | 0 <= z < |w.masks| && 0 <= i < n ::
         Bit(w.masks[z][i], j) <==> j < 32 && Owned(w.bitmaps[z], IrqAt(i, w.bits, j))
  }

  datatype Step =
    | Begin(cpu: nat, index: nat, width: nat, value: nat)
    | Acquire(cpu: nat)
    | Read(cpu: nat)
    | Write(cpu: nat)
    | Release(cpu: nat)

  ghost predicate Shape(w: World, s: State) {
    && WorldOk(w, |s.words|) && |s.pcs| == |w.zoneOf| && |s.first| == |s.words|
    && (forall i | 0 <= i < |s.words| :: s.words[i] < U32_LIMIT)
    && (forall c | 0 <= c < |s.pcs| ::
          (s.pcs[c].Want? || s.pcs[c].Locked? || s.pcs[c].HasRead? ==> s.pcs[c].index < |s.words| && s.pcs[c].width <= 32)
          && (s.pcs[c].HasRead? ==> s.pcs[c].lane < U32_LIMIT))
  }

  /** The CPU has got to this step. */
  ghost predicate Ready(w: World, s: State, t: Step)
    requires Shape(w, s)
  {
    t.cpu < |s.pcs| &&
    match t
    case Begin(c, i, w, v) => s.pcs[c].Idle? && i < |s.words| && w <= 32
    case Acquire(c) => s.pcs[c].Want?
    case Read(c) => s.pcs[c].Locked?
    case Write(c) => s.pcs[c].HasRead?
    case Release(c) => s.pcs[c].HasWritten?
  }

  /** ... and finds the lock free where it takes it. */
  ghost predicate Enabled(w: World, s: State, t: Step)
    requires Shape(w, s)
  {
    Ready(w, s, t) && (t.Acquire? ==> s.lock.None?)
  }

  /** What zone `z` last wrote to the bits of register `i`, or what was there before. */
  ghost function Last(s: State, z: nat, i: nat): nat
    requires i < |s.first|
  {
    if (z, i) in s.last then s.last[(z, i)] else s.first[i]
  }

  ghost function Do(w: World, s: State, t: Step): State
    requires Shape(w, s) && Ready(w, s, t)
  {
    var pc := s.pcs[t.cpu];
    match t
    case Begin(c, i, w, v) => s.(pcs := s.pcs[c := Want(i, w, v)])
    case Acquire(c) => s.(pcs := s.pcs[c := Locked(pc.index, pc.width, pc.value)], lock := Some(c))
    case Read(c) => s.(pcs := s.pcs[c := HasRead(pc.index, pc.width, pc.value, Lane(s.words[pc.index], 0, pc.width))])
    case Write(c) =>
      var z := w.zoneOf[c];
      s.(pcs := s.pcs[c := HasWritten],
         words := s.words[pc.index := PutLane(s.words[pc.index], 0, pc.width, Merge(pc.lane, pc.value, w.masks[z][pc.index]))],
         last := s.last[(z, pc.index) := PutLane(Last(s, z, pc.index), 0, pc.width, pc.value)])
    case Release(c) => s.(pcs := s.pcs[c := Idle], lock := None)
  }

  ghost predicate Initial(w: World, s: State) {
    && Shape(w, s) && s.lock.None? && s.last == map[] && s.first == s.words
    && forall c | 0 <= c < |s.pcs| :: s.pcs[c].Idle?
  }

  /** The holder of the lock has read the current word. */
  ghost predicate CpuOk(s: State, c: nat)
    requires c < |s.pcs|
  {
    && (s.pcs[c].Holding() <==> s.lock == Some(c))
    && (s.pcs[c].HasRead? ==> s.pcs[c].index < |s.words| && Lane(s.words[s.pcs[c].index], 0, s.pcs[c].width) == s.pcs[c].lane)
  }

  /** A zone's bits of a register are those it wrote last. */
  ghost predicate ZoneOk(w: World, s: State, z: nat, i: nat)
    requires Shape(w, s) && z < |w.masks| && i < |s.words|
  {
    forall j: nat | j < 32 && Bit(w.masks[z][i], j) ::
      Bit(s.words[i], j) <==> Bit(Last(s, z, i), j)
  }

  /** Bits of interrupts that no zone owns never change. */
  ghost predicate NobodyOk(w: World, s: State, i: nat)
    requires Shape(w, s) && i < |s.words|
  {
    forall j: nat | j < 32 && (forall z | 0 <= z < |w.masks| :: !Bit(w.masks[z][i], j)) ::
      Bit(s.words[i], j) <==> Bit(s.first[i], j)
  }

  ghost predicate Inv(w: World, s: State) {
    && Shape(w, s)
    && (forall c {:trigger CpuOk(s, c)} | 0 <= c < |s.pcs| :: CpuOk(s, c))
    && (forall z, i {:trigger ZoneOk(w, s, z, i)} | 0 <= z < |w.masks| && 0 <= i < |s.words| :: ZoneOk(w, s, z, i))
    && (forall i {:trigger NobodyOk(w, s, i)} | 0 <= i < |s.words| :: NobodyOk(w, s, i))
  }

  lemma MasksApart(w: World, n: nat, y: nat, z: nat, i: nat, j: nat)
    requires WorldOk(w, n) && y < |w.masks| && z < |w.masks| && y != z && i < n && Bit(w.masks[y][i], j)
    ensures !Bit(w.masks[z][i], j)
  {
    var irq := IrqAt(i, w.bits, j);
    assert Owned(w.bitmaps[y], irq);
  }

  lemma StepKeepsShape(w: World, s: State, t: Step)
    requires Inv(w, s) && Enabled(w, s, t)
    ensures Shape(w, Do(w, s, t))
  {
    if t.Write? {
      var pc := s.pcs[t.cpu];
      Pow2At32();
      PutLaneBelow(s.words[pc.index], 0, pc.width, Merge(pc.lane, pc.value, w.masks[w.zoneOf[t.cpu]][pc.index]), 32);
    }
    if t.Read? { LaneBelow(s.words[s.pcs[t.cpu].index], 0, s.pcs[t.cpu].width); }
  }

  lemma StepKeepsCpu(w: World, s: State, t: Step, c: nat)
    requires Inv(w, s) && Enabled(w, s, t) && c < |s.pcs|
    ensures CpuOk(Do(w, s, t), c)
  {
    assert CpuOk(s, c) && CpuOk(s, t.cpu);
  }

  lemma WriteBits(w: World, s: State, t: Step, j: nat)
    requires Inv(w, s) && Enabled(w, s, t) && t.Write? && j < 32
    ensures var pc, z := s.pcs[t.cpu], w.zoneOf[t.cpu];
            Bit(Do(w, s, t).words[pc.index], j) <==>
            if j < pc.width && Bit(w.masks[z][pc.index], j) then Bit(pc.value, j) else Bit(s.words[pc.index], j)
    ensures var pc, z := s.pcs[t.cpu], w.zoneOf[t.cpu];
            Bit(Last(Do(w, s, t), z, pc.index), j) <==>
            if j < pc.width then Bit(pc.value, j) else Bit(Last(s, z, pc.index), j)
  {
    var pc, z := s.pcs[t.cpu], w.zoneOf[t.cpu];
    var word, mask := s.words[pc.index], w.masks[z][pc.index];
    assert CpuOk(s, t.cpu);
    MergedBit(pc.lane, pc.value, mask, j);
    BitOfLane(word, 0, pc.width, j);
    BitOfPutLane(word, 0, pc.width, Merge(pc.lane, pc.value, mask), j);
    BitOfPutLane(Last(s, z, pc.index), 0, pc.width, pc.value, j);
  }

  lemma StepKeepsZone(w: World, s: State, t: Step, z: nat, i: nat)
    requires Inv(w, s) && Enabled(w, s, t) && Shape(w, Do(w, s, t)) && z < |w.masks| && i < |s.words|
    ensures ZoneOk(w, Do(w, s, t), z, i)
  {
    assert ZoneOk(w, s, z, i);
    if t.Write? && s.pcs[t.cpu].index == i {
      forall j: nat | j < 32 && Bit(w.masks[z][i], j)
        ensures Bit(Do(w, s, t).words[i], j) <==> Bit(Last(Do(w, s, t), z, i), j)
      {
        WriteBits(w, s, t, j);
        if z != w.zoneOf[t.cpu] { MasksApart(w, |s.words|, z, w.zoneOf[t.cpu], i, j); }
      }
    }
  }

  lemma StepKeepsNobody(w: World, s: State, t: Step, i: nat)
    requires Inv(w, s) && Enabled(w, s, t) && Shape(w, Do(w, s, t)) && i < |s.words|
    ensures NobodyOk(w, Do(w, s, t), i)
  {
    assert NobodyOk(w, s, i);
    if t.Write? && s.pcs[t.cpu].index == i {
      forall j: nat | j < 32 && !Bit(w.masks[w.zoneOf[t.cpu]][i], j)
        ensures Bit(Do(w, s, t).words[i], j) <==> Bit(s.words[i], j)
      {
        WriteBits(w, s, t, j);
      }
    }
  }

  lemma StepKeepsInv(w: World, s: State, t: Step)
    requires Inv(w, s) && Enabled(w, s, t)
    ensures Inv(w, Do(w, s, t))
  {
    var s' := Do(w, s, t);
    StepKeepsShape(w, s, t);
    forall c | 0 <= c < |s'.pcs| ensures CpuOk(s', c) { StepKeepsCpu(w, s, t, c); }
    forall z, i | 0 <= z < |w.masks| && 0 <= i < |s'.words| ensures ZoneOk(w, s', z, i) { StepKeepsZone(w, s, t, z, i); }
    forall i | 0 <= i < |s'.words| ensures NobodyOk(w, s', i) { StepKeepsNobody(w, s, t, i); }
  }

  ghost predicate IsRun(w: World, ss: seq<State>, ts: seq<Step>) {
    && |ss| == |ts| + 1 && Initial(w, ss[0])
    && forall k | 0 <= k < |ts| :: Shape(w, ss[k]) && Enabled(w, ss[k], ts[k]) && ss[k + 1] == Do(w, ss[k], ts[k])
  }

  lemma {:induction false} RunKeepsInv(w: World, ss: seq<State>, ts: seq<Step>, n: nat)
    requires IsRun(w, ss, ts) && n <= |ts|
    ensures Inv(w, ss[n])
  {
    if n > 0 {
      RunKeepsInv(w, ss, ts, n - 1);
      StepKeepsInv(w, ss[n - 1], ts[n - 1]);
    }
  }

  /** No update is lost: after any interleaving each zone finds its own
      interrupts' bits as it wrote them last, or as they were if it never did. */
  lemma RunLosesNothing(w: World, ss: seq<State>, ts: seq<Step>, n: nat, z: nat, i: nat, j: nat)
    requires IsRun(w, ss, ts) && n <= |ts| && z < |w.bitmaps| && i < |ss[n].words| && j < 32
    requires FieldWidth(w.bits) && Owned(w.bitmaps[z], IrqAt(i, w.bits, j))
    ensures |ss[n].first| == |ss[n].words|
    ensures Bit(ss[n].words[i], j) <==> Bit(Last(ss[n], z, i), j)
  {
    RunKeepsInv(w, ss, ts, n);
    assert ZoneOk(w, ss[n], z, i);
  }

  function OwnStep(pc: Pc, c: nat): Step
    requires !pc.Idle?
  {
    if pc.Want? then Acquire(c) else if pc.Locked? then Read(c) else if pc.HasRead? then Write(c) else Release(c)
  }

  /** A CPU in the middle of an access waits only for the lock, and then its holder can go
      on. */
  lemma RunNeverStuck(w: World, ss: seq<State>, ts: seq<Step>, n: nat, c: nat)
    requires IsRun(w, ss, ts) && n <= |ts| && c < |ss[n].pcs| && !ss[n].pcs[c].Idle?
    ensures Shape(w, ss[n])
    ensures var s := ss[n];
            || Enabled(w, s, OwnStep(s.pcs[c], c))
            || (s.pcs[c].Want? && s.lock.Some? && var d := s.lock.value;
                d < |s.pcs| && !s.pcs[d].Idle? && Enabled(w, s, OwnStep(s.pcs[d], d)))
  {
    RunKeepsInv(w, ss, ts, n);
    LockHasHolder(w, ss, ts, n);
    if ss[n].lock.Some? { assert CpuOk(ss[n], ss[n].lock.value); }
  }

  lemma {:induction false} LockHasHolder(w: World, ss: seq<State>, ts: seq<Step>, n: nat)
    requires IsRun(w, ss, ts) && n <= |ts|
    ensures ss[n].lock.Some? ==> ss[n].lock.value < |ss[n].pcs|
  {
    if n > 0 { LockHasHolder(w, ss, ts, n - 1); }
  }

  // ------------------------------------------- the same steps without the lock

  ghost predicate IsUnguardedRun(w: World, ss: seq<State>, ts: seq<Step>) {
    && |ss| == |ts| + 1 && Initial(w, ss[0])
    && forall k | 0 <= k < |ts| :: UnguardedStep(w, ss[k], ts[k], ss[k + 1])
  }

  /** Two CPUs that both get to read before either writes. */
  function Interleaving(c: nat, d: nat, i: nat, n: nat, u: nat, v: nat): seq<Step> {
    [Begin(c, i, n, u), Begin(d, i, n, v), Acquire(c), Acquire(d), Read(c), Read(d), Write(c), Write(d)]
  }

  ghost predicate UnguardedStep(w: World, s: State, t: Step, s': State) {
    Shape(w, s) && Ready(w, s, t) && s' == Do(w, s, t)
  }

  lemma BothLocked(w: World, s: State, c: nat, d: nat, i: nat, n: nat, u: nat, v: nat) returns (ss: seq<State>)
    requires Initial(w, s) && c < |s.pcs| && d < |s.pcs| && c != d && i < |s.words| && n <= 32
    ensures |ss| == 5 && ss[0] == s
    ensures forall k | 0 <= k < 4 :: UnguardedStep(w, ss[k], Interleaving(c, d, i, n, u, v)[k], ss[k + 1])
    ensures Shape(w, ss[4]) && ss[4].words == s.words && ss[4].last == s.last
    ensures ss[4].pcs[c] == Locked(i, n, u) && ss[4].pcs[d] == Locked(i, n, v)
  {
    var s1 := Do(w, s, Begin(c, i, n, u));
    var s2 := Do(w, s1, Begin(d, i, n, v));
    var s3 := Do(w, s2, Acquire(c));
    ss := [s, s1, s2, s3, Do(w, s3, Acquire(d))];
  }

  /** Both CPUs have read the same word. */
  lemma BothRead(w: World, s: State, c: nat, d: nat, i: nat, n: nat, u: nat, v: nat) returns (ss: seq<State>)
    requires Initial(w, s) && c < |s.pcs| && d < |s.pcs| && c != d && i < |s.words| && n <= 32
    ensures |ss| == 7 && ss[0] == s
    ensures forall k | 0 <= k < 6 :: UnguardedStep(w, ss[k], Interleaving(c, d, i, n, u, v)[k], ss[k + 1])
    ensures Shape(w, ss[6]) && ss[6].words == s.words && ss[6].last == s.last
    ensures ss[6].pcs[c] == HasRead(i, n, u, Lane(s.words[i], 0, n)) && ss[6].pcs[d] == HasRead(i, n, v, Lane(s.words[i], 0, n))
  {
    var before := BothLocked(w, s, c, d, i, n, u, v);
    LaneBelow(s.words[i], 0, n);
    var s5 := Do(w, before[4], Read(c));
    ss := before + [s5, Do(w, s5, Read(d))];
    forall k | 0 <= k < 6 ensures UnguardedStep(w, ss[k], Interleaving(c, d, i, n, u, v)[k], ss[k + 1]) {
      if k < 4 { assert ss[k] == before[k] && ss[k + 1] == before[k + 1]; }
    }
  }

  /** The second writer puts back what it read of the first writer's bit. */
  lemma StaleBit(word: nat, now: nat, n: nat, value: nat, mask: nat, j: nat)
    requires mask < U32_LIMIT && j < n <= 32 && !Bit(mask, j)
    ensures Bit(PutLane(now, 0, n, Merge(Lane(word, 0, n), value, mask)), j) == Bit(word, j)
  {
    LaneBelow(word, 0, n);
    MergedBit(Lane(word, 0, n), value, mask, j);
    BitOfLane(word, 0, n, j);
    BitOfPutLane(now, 0, n, Merge(Lane(word, 0, n), value, mask), j);
  }

  /** Without the lock's guard, any two CPUs of different zones can lose an update: the
      first zone's bit is not what it wrote last. */
  lemma LostWithoutLock(w: World, s: State, c: nat, d: nat, i: nat, n: nat, u: nat, v: nat, j: nat) returns (ss: seq<State>)
    requires Initial(w, s) && c < |s.pcs| && d < |s.pcs| && w.zoneOf[c] != w.zoneOf[d] && i < |s.words|
    requires j < n <= 32 && Bit(w.masks[w.zoneOf[c]][i], j) && Bit(u, j) != Bit(s.words[i], j)
    ensures IsUnguardedRun(w, ss, Interleaving(c, d, i, n, u, v)) && ss[0] == s
    ensures |ss[8].words| == |ss[8].first| == |s.words|
    ensures Bit(Last(ss[8], w.zoneOf[c], i), j) == Bit(u, j)
    ensures Bit(ss[8].words[i], j) == Bit(s.words[i], j) != Bit(u, j)
  {
    var before := BothRead(w, s, c, d, i, n, u, v);
    var s7, s8 := BothWritten(w, before[6], s, c, d, i, n, u, v, j);
    ss := before + [s7, s8];
    forall k | 0 <= k < 8 ensures UnguardedStep(w, ss[k], Interleaving(c, d, i, n, u, v)[k], ss[k + 1]) {
      if k < 6 { assert ss[k] == before[k] && ss[k + 1] == before[k + 1]; }
    }
  }

  lemma BothWritten(w: World, s6: State, s: State, c: nat, d: nat, i: nat, n: nat, u: nat, v: nat, j: nat)
    returns (s7: State, s8: State)
    requires Shape(w, s6) && c < |s6.pcs| && d < |s6.pcs| && w.zoneOf[c] != w.zoneOf[d] && i < |s6.words| == |s.words|
    requires j < n <= 32 && Bit(w.masks[w.zoneOf[c]][i], j) && s.words[i] == s6.words[i]
    requires s6.pcs[c] == HasRead(i, n, u, Lane(s.words[i], 0, n)) && s6.pcs[d] == HasRead(i, n, v, Lane(s.words[i], 0, n))
    ensures UnguardedStep(w, s6, Write(c), s7) && UnguardedStep(w, s7, Write(d), s8)
    ensures |s8.words| == |s8.first| == |s.words|
    ensures Bit(Last(s8, w.zoneOf[c], i), j) == Bit(u, j) && Bit(s8.words[i], j) == Bit(s.words[i], j)
  {
    s7 := Do(w, s6, Write(c));
    Pow2At32();
    PutLaneBelow(s.words[i], 0, n, Merge(Lane(s.words[i], 0, n), u, w.masks[w.zoneOf[c]][i]), 32);
    s8 := Do(w, s7, Write(d));
    MasksApart(w, |s.words|, w.zoneOf[c], w.zoneOf[d], i, j);
    StaleBit(s.words[i], s7.words[i], n, v, w.masks[w.zoneOf[d]][i], j);
    BitOfPutLane(Last(s6, w.zoneOf[c], i), 0, n, u, j);
  }
}
