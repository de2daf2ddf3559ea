/** The virtio request ring and the config handshake of `mmio_virtio_handler`,
    as interleaved steps of the guest CPUs and of the device in the root zone. */
module VirtioRing {
  import opened Bits
  import opened Options

  const MAX_REQ: nat := 32
  const MAX_CPUS: nat := 16
  const QUEUE_NOTIFY: nat := 0x50

  /** A device request; `config` is the negation of `need_interrupt`. */
  datatype Request = Request(cpu: nat, address: nat, size: nat, value: nat, zone: nat, write: bool, config: bool)

  /** A trapped access of a CPU in a zone, at `offset` in the device at `base`. */
  datatype Access = Access(cpu: nat, zone: nat, offset: nat, base: nat, size: nat, value: nat, write: bool)

  function NewRequest(a: Access): Request {
    Request(a.cpu, a.offset + a.base, a.size, a.value, a.zone, a.write, a.offset != QUEUE_NOTIFY)
  }

  /** The request asks for the access; only a queue notify, at offset 0x50, is answered
      by an interrupt. */
  predicate AsksFor(q: Request, a: Access) {
    && q.cpu == a.cpu && q.zone == a.zone && q.address == a.offset + a.base
    && q.size == a.size && q.value == a.value && (q.write <==> a.write) && (q.config <==> a.offset != 0x50)
  }

  predicate IsFull(front: nat, rear: nat) { BitAnd(rear + 1, MAX_REQ - 1) == front }

  /** Where a CPU is in `mmio_virtio_handler`. `seen` is the flag it read before
      pushing, `index` the place of its request in the history of pushes. */
  datatype Pc =
    | Idle
    | Want(req: Request)
    | Held(req: Request)
    | Room(req: Request)
    | Ready(req: Request, seen: nat)
    | Wrote(req: Request, seen: nat)
    | Pushed(req: Request, seen: nat, index: nat)
    | Blocked(req: Request, seen: nat, index: nat)
    | Noticed(req: Request, index: nat)
    | Finished(req: Request, index: nat, value: nat)
  {
    predicate Locking() { Held? || Room? || Ready? || Wrote? || Pushed? }

    /** The full test was made under the lock still held. */
    predicate SawRoom() { Room? || Ready? || Wrote? }

    predicate Waiting() { (Pushed? || Blocked?) && req.config }
  }

  /** The shared region, the lock and the program counters; `pushed` and
      `taken` record what the CPUs pushed and what the device took, `drafts` and
      `answers` the values it wrote for a request before and at its flag bump.
      `access[c]` is the access that CPU `c` handles or handled last, `origin[i]` the one
      that request `i` was pushed for, and `result[c]` the value that `c` got for it. */
  datatype State = State(front: nat, rear: nat, slots: seq<Request>, flags: seq<nat>, values: seq<nat>,
                         lock: Option<nat>, pcs: seq<Pc>,
                         inHand: Option<Request>, pushed: seq<Request>, taken: seq<Request>,
                         drafts: map<nat, nat>, answers: map<nat, nat>,
                         access: seq<Access>, origin: seq<Access>, result: seq<Option<nat>>)

  datatype Step =
    | Arrive(cpu: nat, a: Access)
    | Acquire(cpu: nat)
    | GiveUp(cpu: nat)
    | FindRoom(cpu: nat)
    | ReadFlag(cpu: nat)
    | WriteSlot(cpu: nat)
    | BumpRear(cpu: nat)
    | Release(cpu: nat)
    | Notice(cpu: nat)
    | ReadValue(cpu: nat)
    | Return(cpu: nat)
    | DeviceRead
    | DeviceBump
    | DeviceValue(index: nat, value: nat)
    | DeviceFlag(index: nat)

  ghost predicate Shape(s: State) {
    && |s.slots| == MAX_REQ && s.front < MAX_REQ && s.rear < MAX_REQ
    && |s.flags| == MAX_CPUS && |s.values| == MAX_CPUS && |s.pcs| == MAX_CPUS
    && |s.access| == MAX_CPUS && |s.result| == MAX_CPUS
    && (forall c | 0 <= c < MAX_CPUS :: s.flags[c] < U64_LIMIT)
  }

  /** The device has taken this config request and not answered it yet. */
  ghost predicate Unanswered(s: State, i: nat) {
    i < |s.taken| && s.taken[i].config && s.taken[i].cpu < MAX_CPUS && i !in s.answers
  }

  ghost predicate Enabled(s: State, t: Step)
    requires Shape(s)
  {
    match t
    case Arrive(c, a) => c < MAX_CPUS && s.pcs[c].Idle? && a.cpu == c
    case Acquire(c) => c < MAX_CPUS && s.pcs[c].Want? && s.lock.None?
    case GiveUp(c) => c < MAX_CPUS && s.pcs[c].Held? && IsFull(s.front, s.rear)
    case FindRoom(c) => c < MAX_CPUS && s.pcs[c].Held? && !IsFull(s.front, s.rear)
    case ReadFlag(c) => c < MAX_CPUS && s.pcs[c].Room?
    case WriteSlot(c) => c < MAX_CPUS && s.pcs[c].Ready?
    case BumpRear(c) => c < MAX_CPUS && s.pcs[c].Wrote?
    case Release(c) => c < MAX_CPUS && s.pcs[c].Pushed?
    case Notice(c) => c < MAX_CPUS && s.pcs[c].Blocked? && s.flags[c] != s.pcs[c].seen
    case ReadValue(c) => c < MAX_CPUS && s.pcs[c].Noticed?
    case Return(c) => c < MAX_CPUS && s.pcs[c].Finished?
    // The device owns `req_front`; it answers each config request once.
    case DeviceRead => s.front != s.rear && s.inHand.None?
    case DeviceBump => s.inHand.Some?
    case DeviceValue(i, v) => Unanswered(s, i)
    case DeviceFlag(i) => Unanswered(s, i) && i in s.drafts
  }

  ghost function At(s: State, c: nat, pc: Pc): State
    requires Shape(s) && c < MAX_CPUS
  {
    s.(pcs := s.pcs[c := pc])
  }

  ghost function Do(s: State, t: Step): (s': State)
    requires Shape(s) && Enabled(s, t)
    ensures Shape(s')
  {
    match t
    case Arrive(c, a) =>
      At(s, c, Want(NewRequest(a))).(access := s.access[c := a], result := s.result[c := None])
    case Acquire(c) => At(s, c, Held(s.pcs[c].req)).(lock := Some(c))
    case GiveUp(c) => At(s, c, Want(s.pcs[c].req)).(lock := None)
    case FindRoom(c) => At(s, c, Room(s.pcs[c].req))
    case ReadFlag(c) => At(s, c, Ready(s.pcs[c].req, s.flags[c]))
    case WriteSlot(c) =>
      At(s, c, Wrote(s.pcs[c].req, s.pcs[c].seen)).(slots := s.slots[s.rear % MAX_REQ := s.pcs[c].req])
    case BumpRear(c) =>
      At(s, c, Pushed(s.pcs[c].req, s.pcs[c].seen, |s.pushed|))
      .(rear := (s.rear + 1) % MAX_REQ, pushed := s.pushed + [s.pcs[c].req], origin := s.origin + [s.access[c]])
    case Release(c) =>
      var pc := s.pcs[c];
      At(s, c, if pc.req.config then Blocked(pc.req, pc.seen, pc.index) else Idle).(lock := None)
    case Notice(c) =>
      At(s, c, if s.pcs[c].req.write then Idle else Noticed(s.pcs[c].req, s.pcs[c].index))
    case ReadValue(c) => At(s, c, Finished(s.pcs[c].req, s.pcs[c].index, s.values[c]))
    case Return(c) => At(s, c, Idle).(result := s.result[c := Some(s.pcs[c].value)])
    case DeviceRead => s.(inHand := Some(s.slots[s.front]))
    case DeviceBump => s.(front := (s.front + 1) % MAX_REQ, taken := s.taken + [s.inHand.value], inHand := None)
    case DeviceValue(i, v) => s.(values := s.values[s.taken[i].cpu := v], drafts := s.drafts[i := v])
    case DeviceFlag(i) =>
      var c := s.taken[i].cpu;
      s.(flags := s.flags[c := (s.flags[c] + 1) % U64_LIMIT], answers := s.answers[i := s.drafts[i]])
  }

  ghost predicate Initial(s: State) {
    && Shape(s) && s.front == s.rear == 0 && s.lock.None? && s.inHand.None?
    && s.pushed == [] && s.taken == [] && s.drafts == map[] && s.answers == map[] && s.origin == []
    && forall c | 0 <= c < MAX_CPUS :: s.pcs[c].Idle?
  }

  // ---------------------------------------------------------- what is kept

  /** The ring is a bounded FIFO. */
  ghost predicate Fifo(s: State)
    requires Shape(s)
  {
    && s.taken <= s.pushed && |s.pushed| - |s.taken| <= MAX_REQ - 1
    && s.front == |s.taken| % MAX_REQ && s.rear == |s.pushed| % MAX_REQ
    && (forall i {:trigger s.pushed[i]} | |s.taken| <= i < |s.pushed| :: s.slots[i % MAX_REQ] == s.pushed[i])
    && (s.inHand.Some? ==> |s.taken| < |s.pushed| && s.inHand.value == s.pushed[|s.taken|])
  }

  /** The lock protects the producers, and a non-full test stays true under it. */
  ghost predicate Locked(s: State, c: nat)
    requires Shape(s) && c < MAX_CPUS
  {
    var pc := s.pcs[c];
    && (pc.Locking() <==> s.lock == Some(c))
    && (pc.SawRoom() ==> |s.pushed| - |s.taken| < MAX_REQ - 1)
    && (pc.Wrote? ==> s.slots[s.rear] == pc.req)
    && (!pc.Idle? ==> pc.req.cpu == c)
  }

  /** The request that CPU `c` waits for. */
  ghost predicate Awaits(s: State, c: nat, i: nat)
    requires Shape(s) && c < MAX_CPUS
  {
    s.pcs[c].Waiting() && s.pcs[c].index == i
  }

  /** The handshake of CPU `c`: before the answer its flag is the old one, and
      from the answer on the flag has moved once and the value stays. */
  ghost predicate Handshake(s: State, c: nat)
    requires Shape(s) && c < MAX_CPUS
  {
    var pc := s.pcs[c];
    && (pc.Ready? || pc.Wrote? ==> pc.seen == s.flags[c])
    && (pc.Pushed? || pc.Blocked? || pc.Noticed? || pc.Finished? ==>
          pc.index < |s.pushed| && s.pushed[pc.index] == pc.req)
    && (pc.Blocked? || pc.Noticed? || pc.Finished? ==> pc.req.config)
    && (pc.Waiting() ==>
          && pc.seen < U64_LIMIT
          && if pc.index in s.answers
             then s.flags[c] == (pc.seen + 1) % U64_LIMIT && s.values[c] == s.answers[pc.index]
             else s.flags[c] == pc.seen && (pc.index in s.drafts ==> s.values[c] == s.drafts[pc.index]))
    && (pc.Noticed? ==> pc.index in s.answers && s.values[c] == s.answers[pc.index])
    && (pc.Finished? ==> pc.index in s.answers && pc.value == s.answers[pc.index])
  }

  /** An unanswered config request is the one its CPU waits for. */
  ghost predicate Outstanding(s: State, i: nat)
    requires Shape(s) && i < |s.pushed|
  {
    s.pushed[i].cpu < MAX_CPUS && (s.pushed[i].config && i !in s.answers ==> Awaits(s, s.pushed[i].cpu, i))
  }

  /** Requests ask for the accesses they were made for, and a CPU in the handler for the
      one it is handling; a write gets no value. */
  ghost predicate Traced(s: State, c: nat)
    requires Shape(s) && c < MAX_CPUS
  {
    var pc := s.pcs[c];
    && (!pc.Idle? ==> AsksFor(pc.req, s.access[c]) && s.access[c].cpu == c && s.result[c] == None)
    && (pc.Noticed? || pc.Finished? ==> !pc.req.write)
    && (pc.Pushed? || pc.Blocked? || pc.Noticed? || pc.Finished? ==>
          pc.index < |s.origin| && s.origin[pc.index] == s.access[c] && LastOf(s, c, pc.index))
  }

  /** CPU `c` has pushed nothing after request `i`. */
  ghost predicate LastOf(s: State, c: nat, i: nat) {
    forall k | i < k < |s.origin| :: s.origin[k].cpu != c
  }

  ghost predicate OriginOk(s: State, i: nat)
    requires i < |s.pushed| == |s.origin|
  {
    AsksFor(s.pushed[i], s.origin[i])
  }

  ghost predicate Inv(s: State) {
    && Shape(s) && Fifo(s) && |s.origin| == |s.pushed|
    && (forall c {:trigger Traced(s, c)} | 0 <= c < MAX_CPUS :: Traced(s, c))
    && (forall i {:trigger OriginOk(s, i)} | 0 <= i < |s.pushed| :: OriginOk(s, i))
    && (forall c {:trigger Locked(s, c)} | 0 <= c < MAX_CPUS :: Locked(s, c))
    && (forall c {:trigger Handshake(s, c)} | 0 <= c < MAX_CPUS :: Handshake(s, c))
    && (forall i {:trigger Outstanding(s, i)} | 0 <= i < |s.pushed| :: Outstanding(s, i))
    && (forall i | i in s.answers || i in s.drafts :: i < |s.taken|)
  }

  lemma InitialInv(s: State)
    requires Initial(s)
    ensures Inv(s)
  {
  }

  lemma NextIndex(n: nat)
    ensures (n % MAX_REQ + 1) % MAX_REQ == (n + 1) % MAX_REQ
  {
  }

  lemma SlotsApart(i: nat, j: nat)
    requires i < j < i + MAX_REQ
    ensures i % MAX_REQ != j % MAX_REQ
  {
  }

  lemma FullByRemainder(front: nat, rear: nat)
    ensures IsFull(front, rear) <==> (rear + 1) % MAX_REQ == front
  {
    assert Pow2(3) == 8;
    AndMask(rear + 1, MAX_REQ - 1, 5);
  }

  lemma FullCount(p: nat, t: nat)
    requires t <= p < t + MAX_REQ
    ensures (p % MAX_REQ + 1) % MAX_REQ == t % MAX_REQ <==> p - t == MAX_REQ - 1
  {
    NextIndex(p);
    if p - t < MAX_REQ - 1 { SlotsApart(t, p + 1); }
  }

  /** The full test counts 31 outstanding requests. */
  lemma FullMeans(s: State)
    requires Shape(s) && Fifo(s)
    ensures IsFull(s.front, s.rear) <==> |s.pushed| - |s.taken| == MAX_REQ - 1
  {
    FullByRemainder(s.front, s.rear);
    FullCount(|s.pushed|, |s.taken|);
  }

  lemma WriteSlotFifo(s: State, c: nat)
    requires Inv(s) && Enabled(s, WriteSlot(c))
    ensures Fifo(Do(s, WriteSlot(c)))
  {
    var s' := Do(s, WriteSlot(c));
    assert Locked(s, c);
    forall i | |s'.taken| <= i < |s'.pushed| ensures s'.slots[i % MAX_REQ] == s'.pushed[i] {
      SlotsApart(i, |s.pushed|);
    }
  }

  lemma BumpRearFifo(s: State, c: nat)
    requires Inv(s) && Enabled(s, BumpRear(c))
    ensures Fifo(Do(s, BumpRear(c)))
  {
    assert Locked(s, c);
    NextIndex(|s.pushed|);
  }

  lemma DeviceBumpFifo(s: State)
    requires Inv(s) && Enabled(s, DeviceBump)
    ensures Fifo(Do(s, DeviceBump))
  {
    NextIndex(|s.taken|);
  }

  lemma DeviceReadFifo(s: State)
    requires Inv(s) && Enabled(s, DeviceRead)
    ensures Fifo(Do(s, DeviceRead))
  {
    assert |s.taken| < |s.pushed|;
  }

  lemma StepKeepsFifo(s: State, t: Step)
    requires Inv(s) && Enabled(s, t)
    ensures Fifo(Do(s, t))
  {
    match t {
      case WriteSlot(c) => WriteSlotFifo(s, c);
      case BumpRear(c) => BumpRearFifo(s, c);
      case DeviceBump => DeviceBumpFifo(s);
      case DeviceRead => DeviceReadFifo(s);
      case _ => SameRing(s, Do(s, t));
    }
  }

  lemma SameRing(s: State, s': State)
    requires Shape(s) && Shape(s') && Fifo(s)
    requires s'.front == s.front && s'.rear == s.rear && s'.slots == s.slots
    requires s'.pushed == s.pushed && s'.taken == s.taken && s'.inHand == s.inHand
    ensures Fifo(s')
  {
  }

  predicate ByDevice(t: Step) { t.DeviceRead? || t.DeviceBump? || t.DeviceValue? || t.DeviceFlag? }

  lemma StepKeepsLocked(s: State, t: Step, c: nat)
    requires Inv(s) && Enabled(s, t) && c < MAX_CPUS
    ensures Locked(Do(s, t), c)
  {
    assert Locked(s, c);
    if !ByDevice(t) {
      if t.cpu == c { OwnLocked(s, t); } else { OtherLocked(s, t, c); }
    }
  }

  lemma OwnLocked(s: State, t: Step)
    requires Inv(s) && Enabled(s, t) && !ByDevice(t)
    ensures Locked(Do(s, t), t.cpu)
  {
    FullMeans(s);
    assert Locked(s, t.cpu);
  }

  lemma OtherLocked(s: State, t: Step, c: nat)
    requires Inv(s) && Enabled(s, t) && !ByDevice(t) && t.cpu != c && c < MAX_CPUS
    ensures Locked(Do(s, t), c)
  {
    assert Locked(s, c) && Locked(s, t.cpu);
  }

  lemma StepKeepsHandshake(s: State, t: Step, c: nat)
    requires Inv(s) && Enabled(s, t) && c < MAX_CPUS
    ensures Handshake(Do(s, t), c)
  {
    assert Handshake(s, c);
    match t {
      case DeviceRead =>
      case DeviceBump =>
      case DeviceValue(i, v) => DeviceHandshake(s, t, i, c);
      case DeviceFlag(i) => DeviceHandshake(s, t, i, c);
      case BumpRear(d) => if d == c { BumpRearHandshake(s, c); }
      case _ => CpuHandshake(s, t, c);
    }
  }

  /** The steps of a CPU that leave the shared flags, values and history alone. */
  predicate IsLocal(t: Step) {
    || t.Arrive? || t.Acquire? || t.GiveUp? || t.FindRoom? || t.ReadFlag? || t.WriteSlot?
    || t.Release? || t.Notice? || t.ReadValue? || t.Return?
  }

  lemma OtherHandshake(s: State, t: Step, c: nat)
    requires Inv(s) && Enabled(s, t) && c < MAX_CPUS && IsLocal(t) && t.cpu != c
    ensures Handshake(Do(s, t), c)
  {
    assert Handshake(s, c);
    assert Do(s, t).pcs[c] == s.pcs[c];
  }

  lemma CpuHandshake(s: State, t: Step, c: nat)
    requires Inv(s) && Enabled(s, t) && c < MAX_CPUS && IsLocal(t)
    ensures Handshake(Do(s, t), c)
  {
    assert Handshake(s, c);
    if t.cpu != c { OtherHandshake(s, t, c); }
  }

  /** Answering one CPU's request leaves the other CPUs' handshakes alone. */
  lemma DeviceHandshake(s: State, t: Step, i: nat, c: nat)
    requires Inv(s) && Enabled(s, t) && c < MAX_CPUS
    requires t == DeviceFlag(i) || (t.DeviceValue? && t.index == i)
    ensures Handshake(Do(s, t), c)
  {
    assert Handshake(s, c) && Locked(s, c) && Outstanding(s, i);
    assert s.taken[i] == s.pushed[i] && Awaits(s, s.pushed[i].cpu, i);
    assert s.pcs[c].Waiting() && s.pcs[c].index == i ==> s.pushed[i].cpu == c;
  }

  /** A pushed request is new, so it is neither drafted nor answered. */
  lemma BumpRearHandshake(s: State, c: nat)
    requires Inv(s) && Enabled(s, BumpRear(c))
    ensures Handshake(Do(s, BumpRear(c)), c)
  {
    assert Handshake(s, c);
    assert |s.pushed| !in s.answers && |s.pushed| !in s.drafts;
  }

  lemma StepKeepsOutstanding(s: State, t: Step, i: nat)
    requires Inv(s) && Enabled(s, t) && i < |Do(s, t).pushed|
    ensures Outstanding(Do(s, t), i)
  {
    if i < |s.pushed| { assert Outstanding(s, i); }
    if !ByDevice(t) {
      assert Locked(s, t.cpu) && Handshake(s, t.cpu);
    }
  }

  lemma StepKeepsTraced(s: State, t: Step, c: nat)
    requires Inv(s) && Enabled(s, t) && c < MAX_CPUS
    ensures Traced(Do(s, t), c)
  {
    assert Traced(s, c);
    if ByDevice(t) { DeviceTraced(s, t, c); } else if t.cpu == c { OwnTraced(s, t); } else { OtherTraced(s, t, c); }
  }

  lemma DeviceTraced(s: State, t: Step, c: nat)
    requires Shape(s) && Enabled(s, t) && ByDevice(t) && c < MAX_CPUS && Traced(s, c)
    ensures Traced(Do(s, t), c)
  {
  }

  lemma OwnTraced(s: State, t: Step)
    requires Inv(s) && Enabled(s, t) && !ByDevice(t) && Traced(s, t.cpu)
    ensures Traced(Do(s, t), t.cpu)
  {
  }

  /** What another CPU pushes is its own. */
  lemma OtherTraced(s: State, t: Step, c: nat)
    requires Inv(s) && Enabled(s, t) && !ByDevice(t) && c < MAX_CPUS && t.cpu != c && Traced(s, c)
    ensures Traced(Do(s, t), c)
  {
    assert Do(s, t).pcs[c] == s.pcs[c];
    assert Traced(s, t.cpu);
  }

  lemma StepKeepsOrigins(s: State, t: Step)
    requires Inv(s) && Enabled(s, t)
    ensures var s' := Do(s, t);
            |s'.origin| == |s'.pushed| && forall i {:trigger OriginOk(s', i)} | 0 <= i < |s'.pushed| :: OriginOk(s', i)
  {
    var s' := Do(s, t);
    if t.BumpRear? { assert Traced(s, t.cpu); }
    forall i | 0 <= i < |s'.pushed| ensures OriginOk(s', i) { if i < |s.pushed| { assert OriginOk(s, i); } }
  }

  /** Every step of every CPU and of the device keeps the invariant. */
  lemma StepKeepsInv(s: State, t: Step)
    requires Inv(s) && Enabled(s, t)
    ensures Inv(Do(s, t))
  {
    var s' := Do(s, t);
    StepKeepsOrigins(s, t);
    forall c | 0 <= c < MAX_CPUS ensures Traced(s', c) { StepKeepsTraced(s, t, c); }
    StepKeepsFifo(s, t);
    forall c | 0 <= c < MAX_CPUS ensures Locked(s', c) { StepKeepsLocked(s, t, c); }
    forall c | 0 <= c < MAX_CPUS ensures Handshake(s', c) { StepKeepsHandshake(s, t, c); }
    forall i | 0 <= i < |s'.pushed| ensures Outstanding(s', i) { StepKeepsOutstanding(s, t, i); }
  }

  // ------------------------------------------------------------ whole runs

  ghost predicate IsRun(ss: seq<State>, ts: seq<Step>) {
    && |ss| == |ts| + 1 && Initial(ss[0])
    && forall k | 0 <= k < |ts| :: Shape(ss[k]) && Enabled(ss[k], ts[k]) && ss[k + 1] == Do(ss[k], ts[k])
  }

  lemma {:induction false} RunKeepsInv(ss: seq<State>, ts: seq<Step>, n: nat)
    requires IsRun(ss, ts) && n <= |ts|
    ensures Inv(ss[n])
  {
    if n == 0 {
      InitialInv(ss[0]);
    } else {
      RunKeepsInv(ss, ts, n - 1);
      StepKeepsInv(ss[n - 1], ts[n - 1]);
    }
  }

  /** In every interleaving the device has taken exactly the first requests
      pushed, at most 31 are outstanding, and each of those is still in its
      slot. */
  lemma RunIsFifo(ss: seq<State>, ts: seq<Step>, n: nat)
    requires IsRun(ss, ts) && n <= |ts|
    ensures var s := ss[n];
            && s.taken <= s.pushed && |s.pushed| - |s.taken| <= 31 && |s.slots| == 32
            && forall i | |s.taken| <= i < |s.pushed| :: s.slots[i % 32] == s.pushed[i]
  {
    RunKeepsInv(ss, ts, n);
  }

  /** In every interleaving a CPU has at most one config request unanswered, and
      a config read returns the value the device wrote for that very request. */
  lemma RunAnswersOwnRequest(ss: seq<State>, ts: seq<Step>, n: nat, c: nat)
    requires IsRun(ss, ts) && n <= |ts| && c < 16
    ensures forall i, j | 0 <= i < |ss[n].pushed| && 0 <= j < |ss[n].pushed|
                          && ss[n].pushed[i].cpu == ss[n].pushed[j].cpu == c
                          && ss[n].pushed[i].config && ss[n].pushed[j].config
                          && i !in ss[n].answers && j !in ss[n].answers :: i == j
    ensures Shape(ss[n])
    ensures ss[n].pcs[c].Finished? ==>
              var pc := ss[n].pcs[c];
              && pc.index < |ss[n].pushed| && ss[n].pushed[pc.index] == pc.req
              && pc.index in ss[n].answers && pc.value == ss[n].answers[pc.index]
  {
    var s := ss[n];
    RunKeepsInv(ss, ts, n);
    assert Handshake(s, c);
    forall i | 0 <= i < |s.pushed| && s.pushed[i].cpu == c && s.pushed[i].config && i !in s.answers
      ensures Awaits(s, c, i)
    {
      assert Outstanding(s, i);
    }
  }

  /** In every interleaving each request asks for the access that it was pushed for. */
  lemma RunPushesAccesses(ss: seq<State>, ts: seq<Step>, n: nat, i: nat)
    requires IsRun(ss, ts) && n <= |ts| && i < |ss[n].pushed|
    ensures i < |ss[n].origin|
    ensures var q, a := ss[n].pushed[i], ss[n].origin[i];
            && q.cpu == a.cpu && q.zone == a.zone && q.address == a.offset + a.base
            && q.size == a.size && q.value == a.value && (q.write <==> a.write) && (q.config <==> a.offset != 0x50)
  {
    RunKeepsInv(ss, ts, n);
    assert OriginOk(ss[n], i);
  }

  ghost predicate Leaves(s: State, s': State, c: nat) {
    c < |s.pcs| && c < |s'.pcs| && !s.pcs[c].Idle? && s'.pcs[c].Idle?
  }

  /** A CPU leaves the handler only after its access was pushed; unless the access was a
      queue notify, only after it was answered, and a read with that very answer. */
  lemma RunLeavesAnswered(ss: seq<State>, ts: seq<Step>, n: nat, c: nat)
    requires IsRun(ss, ts) && n < |ts| && c < 16 && Leaves(ss[n], ss[n + 1], c)
    ensures Shape(ss[n + 1]) && ss[n + 1].access[c].cpu == c
    ensures var s, a := ss[n + 1], ss[n + 1].access[c];
            exists i: nat ::
              && i < |s.origin| && s.origin[i] == a && LastOf(s, c, i)
              && (a.offset != 0x50 ==> i in s.answers)
              && s.result[c] == if a.offset != 0x50 && !a.write then Some(s.answers[i]) else None
  {
    var s := ss[n];
    RunKeepsInv(ss, ts, n);
    RunKeepsInv(ss, ts, n + 1);
    assert Traced(s, c) && Handshake(s, c) && Locked(s, c);
    LeavingStep(s, ts[n], c);
    assert ss[n + 1].access[c] == s.access[c];
    var i := s.pcs[c].index;
    assert i < |ss[n + 1].origin| && ss[n + 1].origin[i] == s.access[c] && LastOf(ss[n + 1], c, i);
  }

  /** The three ways out. */
  lemma LeavingStep(s: State, t: Step, c: nat)
    requires Inv(s) && Enabled(s, t) && c < MAX_CPUS && Leaves(s, Do(s, t), c)
    ensures t == Release(c) || t == Notice(c) || t == Return(c)
  {
  }

  /** A queue notify never waits for the device. */
  lemma RunNotifyNeverBlocks(ss: seq<State>, ts: seq<Step>, n: nat, c: nat)
    requires IsRun(ss, ts) && n <= |ts| && c < 16 && Shape(ss[n]) && ss[n].access[c].offset == 0x50
    ensures !ss[n].pcs[c].Blocked? && !ss[n].pcs[c].Noticed? && !ss[n].pcs[c].Finished?
  {
    RunKeepsInv(ss, ts, n);
    assert Traced(ss[n], c) && Handshake(ss[n], c);
  }

  /** The next step of a CPU in the handler. */
  function OwnStep(s: State, c: nat): Step
    requires c < |s.pcs| && !s.pcs[c].Idle?
  {
    match s.pcs[c]
    case Want(_) => Acquire(c)
    case Held(_) => if IsFull(s.front, s.rear) then GiveUp(c) else FindRoom(c)
    case Room(_) => ReadFlag(c)
    case Ready(_, _) => WriteSlot(c)
    case Wrote(_, _) => BumpRear(c)
    case Pushed(_, _, _) => Release(c)
    case Blocked(_, _, _) => Notice(c)
    case Noticed(_, _) => ReadValue(c)
    case Finished(_, _, _) => Return(c)
  }

  /** A CPU in the handler waits only for the lock or for its answer. */
  lemma RunWaitsForReason(ss: seq<State>, ts: seq<Step>, n: nat, c: nat)
    requires IsRun(ss, ts) && n <= |ts| && c < |ss[n].pcs| && !ss[n].pcs[c].Idle?
    ensures Shape(ss[n])
    ensures var s := ss[n];
            Enabled(s, OwnStep(s, c)) || (s.pcs[c].Want? && s.lock.Some?) || (s.pcs[c].Blocked? && s.pcs[c].index !in s.answers)
  {
    RunKeepsInv(ss, ts, n);
    assert Handshake(ss[n], c);
  }

  /** While a CPU is in the handler some CPU there, or the device, can take a step. */
  lemma RunNeverStuck(ss: seq<State>, ts: seq<Step>, n: nat, c: nat) returns (t: Step)
    requires IsRun(ss, ts) && n <= |ts| && c < |ss[n].pcs| && !ss[n].pcs[c].Idle?
    ensures Shape(ss[n])
    ensures Enabled(ss[n], t) && !t.Arrive?
  {
    var s := ss[n];
    RunKeepsInv(ss, ts, n);
    RunWaitsForReason(ss, ts, n, c);
    if Enabled(s, OwnStep(s, c)) {
      t := OwnStep(s, c);
    } else if s.pcs[c].Want? {
      t := HolderStep(ss, ts, n);
    } else {
      t := DeviceStep(s, c);
    }
  }

  /** Whoever holds the lock can go on. */
  lemma HolderStep(ss: seq<State>, ts: seq<Step>, n: nat) returns (t: Step)
    requires IsRun(ss, ts) && n <= |ts| && Inv(ss[n]) && ss[n].lock.Some?
    ensures Enabled(ss[n], t) && !t.Arrive?
  {
    var s, d := ss[n], ss[n].lock.value;
    LockHasHolder(ss, ts, n);
    assert Locked(s, d);
    RunWaitsForReason(ss, ts, n, d);
    t := OwnStep(s, d);
  }

  lemma {:induction false} LockHasHolder(ss: seq<State>, ts: seq<Step>, n: nat)
    requires IsRun(ss, ts) && n <= |ts|
    ensures ss[n].lock.Some? ==> ss[n].lock.value < 16
  {
    if n > 0 { LockHasHolder(ss, ts, n - 1); }
  }

  /** A request that a CPU waits for is on its way through the device. */
  lemma DeviceStep(s: State, c: nat) returns (t: Step)
    requires Inv(s) && c < MAX_CPUS && s.pcs[c].Blocked? && s.pcs[c].index !in s.answers
    ensures Enabled(s, t) && !t.Arrive?
  {
    var i := s.pcs[c].index;
    assert Handshake(s, c) && Locked(s, c);
    if i < |s.taken| {
      t := DeviceValue(i, 0);
      assert s.taken[i] == s.pushed[i];
    } else if s.inHand.Some? {
      t := DeviceBump;
    } else {
      t := DeviceRead;
      SlotsApart(|s.taken|, |s.pushed|);
    }
  }

  // ------------------------------------------------ the ring as an object

  function Place(front: nat, i: nat): nat { (front + i) % MAX_REQ }

  lemma PlaceInRing(front: nat, rear: nat, n: nat, i: nat)
    requires front < MAX_REQ && rear < MAX_REQ && i <= n < MAX_REQ
    requires front + n == rear || front + n == rear + MAX_REQ
    ensures Place(front, i) == rear <==> i == n
  {
  }

  /** The part of `VirtioBridge` that holds the requests. */
  class Bridge {
    var reqFront: nat
    var reqRear: nat
    const reqList: array<Request>

    ghost predicate Valid()
      reads this, reqList
    {
      reqList.Length == MAX_REQ && reqFront < MAX_REQ && reqRear < MAX_REQ
    }

    /** The region before the device is enabled; its slots hold anything. */
    constructor (anything: Request)
      ensures Valid() && fresh(reqList) && Contents() == []
    {
      reqFront, reqRear := 0, 0;
      reqList := new Request[MAX_REQ](_ => anything);
    }

    ghost function Length(): nat
      requires Valid()
      reads this, reqList
    {
      if reqFront <= reqRear then reqRear - reqFront else reqRear + MAX_REQ - reqFront
    }

    /** The requests the device has not taken, oldest first. */
    ghost function Contents(): (q: seq<Request>)
      requires Valid()
      reads this, reqList
      ensures |q| == Length()
    {
      seq(Length(), i requires 0 <= i && Valid() reads this, reqList => reqList[Place(reqFront, i)])
    }

    method IsReqListFull() returns (full: bool)
      requires Valid()
      ensures full <==> |Contents()| == MAX_REQ - 1
    {
      FullByRemainder(reqFront, reqRear);
      full := IsFull(reqFront, reqRear);
    }

    /** `push_req`, once the full test has failed. */
    method PushReq(req: Request)
      requires Valid() && |Contents()| < MAX_REQ - 1
      modifies this`reqRear, reqList
      ensures Valid() && Contents() == old(Contents()) + [req]
    {
      ghost var n := Length();
      forall i | 0 <= i < n ensures Place(reqFront, i) != reqRear { PlaceInRing(reqFront, reqRear, n, i); }
      PlaceInRing(reqFront, reqRear, n, n);
      reqList[reqRear % MAX_REQ] := req;
      reqRear := (reqRear + 1) % MAX_REQ;
      assert Length() == n + 1;
    }
  }
}
