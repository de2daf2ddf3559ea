/** Virtio interrupts on their way to a guest CPU: the result ring, the per-CPU
    interrupt lists, and the event queues. */
module VirtioIrq {
  import opened Options
  import opened VirtioRing

  const MAX_DEVS: nat := 4
  const IPI_EVENT_VIRTIO_INJECT_IRQ: nat := 2

  datatype Res = Res(zone: nat, irq: nat)

  // ------------------------------------------------------------- irq lists

  /** `[u64; MAX_DEVS + 1]`: element 0 is the number of valid ones after it. */
  type IrqList = seq<nat>

  predicate ListOk(l: IrqList) { |l| == MAX_DEVS + 1 && l[0] <= MAX_DEVS - 1 }

  const EMPTY_LIST: IrqList := [0, 0, 0, 0, 0]

  function Pending(l: IrqList): seq<nat>
    requires ListOk(l)
  {
    l[1..1 + l[0]]
  }

  /** The list of a CPU; a missing one is created empty. */
  function ListOf(lists: map<nat, IrqList>, cpu: nat): IrqList {
    if cpu in lists then lists[cpu] else EMPTY_LIST
  }

  function Append(l: IrqList, irq: nat): IrqList
    requires ListOk(l) && l[0] + 1 < MAX_DEVS
  {
    l[l[0] + 1 := irq][0 := l[0] + 1]
  }

  lemma AppendPending(l: IrqList, irq: nat)
    requires ListOk(l) && l[0] + 1 < MAX_DEVS
    ensures ListOk(Append(l, irq)) && Pending(Append(l, irq)) == Pending(l) + [irq]
  {
  }

  /** A sequence without its later duplicates. */
  ghost function Distinct(s: seq<nat>): seq<nat> {
    if s == [] then [] else
      var d, x := Distinct(s[..|s| - 1]), s[|s| - 1];
      if x in d then d else d + [x]
  }

  ghost predicate NoDuplicates(s: seq<nat>) { forall i, j | 0 <= i < j < |s| :: s[i] != s[j] }

  /** ... which has the same members, each once. */
  lemma {:induction false} DistinctMeans(s: seq<nat>)
    ensures NoDuplicates(Distinct(s)) && forall x :: x in Distinct(s) <==> x in s
  {
    if s != [] {
      var t, x := s[..|s| - 1], s[|s| - 1];
      DistinctMeans(t);
      assert s == t + [x];
    }
  }

  lemma DistinctNext(s: seq<nat>, x: nat)
    ensures Distinct(s + [x]) == if x in Distinct(s) then Distinct(s) else Distinct(s) + [x]
  {
    assert (s + [x])[..|s|] == s;
  }

  ghost function Injects(q: seq<nat>): nat {
    if q == [] then 0 else (if q[0] == IPI_EVENT_VIRTIO_INJECT_IRQ then 1 else 0) + Injects(q[1..])
  }

  lemma {:induction false} InjectsPush(q: seq<nat>, e: nat)
    ensures Injects(q + [e]) == Injects(q) + if e == IPI_EVENT_VIRTIO_INJECT_IRQ then 1 else 0
  {
    if q != [] {
      assert (q + [e])[1..] == q[1..] + [e];
      InjectsPush(q[1..], e);
    }
  }

  // ------------------------------------------------- interleaved execution

  /** The root CPU inside `hv_virtio_inject_irq`. It holds the lock on the lists
      from `Draining` until it is `Off` again. */
  datatype Drainer = Off | Draining | Sending(cpu: nat) | Crashed

  /** `posted` and `consumed` record the device's results and those read;
      `since` records, per CPU, the interrupts read since its last handler. */
  datatype State = State(resFront: nat, resRear: nat, resList: seq<Res>, posted: seq<Res>, consumed: seq<Res>,
                         lists: map<nat, IrqList>, queues: seq<seq<nat>>, handling: seq<bool>,
                         drainer: Drainer, since: seq<seq<nat>>)

  datatype Step =
    | Post(res: Res)
    | Start
    | Take(cpu: nat)
    | TakeUnknown
    | Send
    | Finish
    | OtherEvent(cpu: nat, event: nat)
    | Fetch(cpu: nat)
    | Handle(cpu: nat)

  ghost predicate Shape(s: State) {
    && |s.resList| == MAX_REQ && s.resFront < MAX_REQ && s.resRear < MAX_REQ
    && |s.queues| == |s.handling| == |s.since|
    && (forall c | c in s.lists :: ListOk(s.lists[c]))
  }

  ghost predicate Enabled(s: State, t: Step)
    requires Shape(s)
  {
    match t
    // The device posts only into a free slot; it alone moves `res_rear`.
    case Post(r) => (s.resRear + 1) % MAX_REQ != s.resFront
    case Start => s.drainer.Off?
    case Take(c) => s.drainer.Draining? && s.resFront != s.resRear && c < |s.queues|
    case TakeUnknown => s.drainer.Draining? && s.resFront != s.resRear
    case Send => s.drainer.Sending? && s.drainer.cpu < |s.queues|
    case Finish => s.drainer.Draining? && s.resFront == s.resRear
    case OtherEvent(c, e) => c < |s.queues| && e != IPI_EVENT_VIRTIO_INJECT_IRQ
    case Fetch(c) => c < |s.queues| && !s.handling[c] && s.queues[c] != []
    case Handle(c) => c < |s.queues| && s.handling[c] && s.drainer.Off?
  }

  /** Past the entry at `res_front`. */
  ghost function Advance(s: State): State
    requires Shape(s)
  {
    s.(resFront := (s.resFront + 1) % MAX_REQ)
  }

  /** One result for CPU `c`: a new interrupt is appended and its event is still
      to be sent; a fourth distinct one trips the assertion. */
  ghost function TakeFor(s: State, c: nat): (s': State)
    requires Shape(s) && c < |s.queues|
  {
    var r := s.resList[s.resFront];
    var l := ListOf(s.lists, c);
    var s1 := s.(lists := s.lists[c := l], consumed := s.consumed + [r], since := s.since[c := s.since[c] + [r.irq]]);
    if r.irq in Pending(l) then Advance(s1)
    else if l[0] + 1 < MAX_DEVS then s1.(lists := s.lists[c := Append(l, r.irq)], drainer := Sending(c))
    else s1.(drainer := Crashed)
  }

  ghost function Do(s: State, t: Step): (s': State)
    requires Shape(s) && Enabled(s, t)
    ensures Shape(s')
  {
    match t
    case Post(r) =>
      s.(resList := s.resList[s.resRear := r], resRear := (s.resRear + 1) % MAX_REQ, posted := s.posted + [r])
    case Start => s.(drainer := Draining)
    case Take(c) => TakeFor(s, c)
    case TakeUnknown => s.(drainer := Crashed)
    case Send =>
      var c := s.drainer.cpu;
      Advance(s.(queues := s.queues[c := s.queues[c] + [IPI_EVENT_VIRTIO_INJECT_IRQ]], drainer := Draining))
    case Finish => s.(drainer := Off)
    case OtherEvent(c, e) => s.(queues := s.queues[c := s.queues[c] + [e]])
    case Fetch(c) =>
      s.(queues := s.queues[c := s.queues[c][1..]],
         handling := s.handling[c := s.queues[c][0] == IPI_EVENT_VIRTIO_INJECT_IRQ])
    case Handle(c) =>
      s.(lists := s.lists[c := ListOf(s.lists, c)[0 := 0]], handling := s.handling[c := false], since := s.since[c := []])
  }

  ghost predicate Initial(s: State) {
    && Shape(s) && s.resFront == s.resRear == 0 && s.posted == s.consumed == [] && s.lists == map[] && s.drainer.Off?
    && forall c | 0 <= c < |s.queues| :: s.queues[c] == [] && !s.handling[c] && s.since[c] == []
  }

  // ---------------------------------------------------------- what is kept

  /** The drainer has read the entry it is about to step past. */
  ghost function Ahead(s: State): nat { if s.drainer.Sending? then 1 else 0 }

  /** Results are read once each, in the order posted. */
  ghost predicate Fifo(s: State)
    requires Shape(s)
  {
    s.drainer.Crashed? ||
    (&& s.consumed <= s.posted && Ahead(s) <= |s.consumed|
     && |s.posted| - (|s.consumed| - Ahead(s)) <= MAX_REQ - 1
     && s.resFront == (|s.consumed| - Ahead(s)) % MAX_REQ && s.resRear == |s.posted| % MAX_REQ
     && forall i {:trigger s.posted[i]} | |s.consumed| <= i < |s.posted| :: s.resList[i % MAX_REQ] == s.posted[i])
  }

  /** The event for the last interrupt in `c`'s list is about to be sent. */
  ghost function Owed(s: State, c: nat): nat { if s.drainer == Sending(c) then 1 else 0 }

  /** `c`'s list holds the distinct interrupts read since its last handler, each
      backed by a queued event, the handler in progress, or the event due. */
  ghost predicate CpuOk(s: State, c: nat)
    requires Shape(s) && c < |s.queues|
  {
    var l := ListOf(s.lists, c);
    && (!s.drainer.Crashed? ==> Pending(l) == Distinct(s.since[c]))
    && |Pending(l)| <= Injects(s.queues[c]) + (if s.handling[c] then 1 else 0) + Owed(s, c)
    && (Injects(s.queues[c]) > 0 || s.handling[c] ==> c in s.lists)
  }

  ghost predicate Inv(s: State) {
    && Shape(s) && Fifo(s)
    && (s.drainer.Sending? ==> s.drainer.cpu < |s.queues| && s.drainer.cpu in s.lists)
    && (forall c {:trigger CpuOk(s, c)} | 0 <= c < |s.queues| :: CpuOk(s, c))
  }

  lemma InitialInv(s: State)
    requires Initial(s)
    ensures Inv(s)
  {
  }

  lemma PostFifo(s: State, r: Res)
    requires Inv(s) && Enabled(s, Post(r))
    ensures Fifo(Do(s, Post(r)))
  {
    var s' := Do(s, Post(r));
    if !s.drainer.Crashed? {
      var n := |s.consumed| - Ahead(s);
      FullCount(|s.posted|, n);
      NextIndex(|s.posted|);
      forall i | |s.consumed| <= i < |s'.posted| ensures s'.resList[i % MAX_REQ] == s'.posted[i] {
        if i < |s.posted| { SlotsApart(i, |s.posted|); }
      }
    }
  }

  /** The entry at `res_front` is the next one posted. */
  lemma FrontIsNext(s: State)
    requires Shape(s) && Fifo(s) && s.drainer.Draining? && s.resFront != s.resRear
    ensures |s.consumed| < |s.posted| && s.resList[s.resFront] == s.posted[|s.consumed|]
  {
    assert |s.consumed| != |s.posted|;
  }

  lemma TakeFifo(s: State, c: nat)
    requires Inv(s) && Enabled(s, Take(c))
    ensures Fifo(Do(s, Take(c)))
  {
    FrontIsNext(s);
    NextIndex(|s.consumed|);
    assert s.consumed + [s.posted[|s.consumed|]] <= s.posted;
  }

  lemma SendFifo(s: State)
    requires Inv(s) && Enabled(s, Send)
    ensures Fifo(Do(s, Send))
  {
    NextIndex(|s.consumed| - 1);
  }

  lemma StepKeepsFifo(s: State, t: Step)
    requires Inv(s) && Enabled(s, t)
    ensures Fifo(Do(s, t))
  {
    match t {
      case Post(r) => PostFifo(s, r);
      case Take(c) => TakeFifo(s, c);
      case Send => SendFifo(s);
      case _ =>
    }
  }

  lemma TakeCpu(s: State, d: nat, c: nat)
    requires Inv(s) && Enabled(s, Take(d)) && c < |s.queues|
    ensures CpuOk(Do(s, Take(d)), c)
  {
    assert CpuOk(s, c);
    if c == d { TakeOwn(s, c); }
  }

  lemma TakeOwn(s: State, c: nat)
    requires Inv(s) && Enabled(s, Take(c))
    ensures CpuOk(Do(s, Take(c)), c)
  {
    var r, l := s.resList[s.resFront], ListOf(s.lists, c);
    if r.irq in Pending(l) {
      TakeKnown(s, c, r, l);
    } else if l[0] + 1 < MAX_DEVS {
      TakeNew(s, c, r, l);
    } else {
      TakeTooMany(s, c, r, l);
    }
  }

  lemma TakeKnown(s: State, c: nat, r: Res, l: IrqList)
    requires Inv(s) && s.drainer.Draining? && c < |s.queues|
    requires r == s.resList[s.resFront] && l == ListOf(s.lists, c) && r.irq in Pending(l)
    ensures CpuOk(TakeFor(s, c), c)
  {
    assert CpuOk(s, c);
    DistinctNext(s.since[c], r.irq);
    assert ListOf(TakeFor(s, c).lists, c) == l;
  }

  lemma TakeNew(s: State, c: nat, r: Res, l: IrqList)
    requires Inv(s) && s.drainer.Draining? && c < |s.queues|
    requires r == s.resList[s.resFront] && l == ListOf(s.lists, c) && r.irq !in Pending(l) && l[0] + 1 < MAX_DEVS
    ensures CpuOk(TakeFor(s, c), c)
  {
    assert CpuOk(s, c);
    DistinctNext(s.since[c], r.irq);
    AppendPending(l, r.irq);
    assert ListOf(TakeFor(s, c).lists, c) == Append(l, r.irq);
  }

  lemma TakeTooMany(s: State, c: nat, r: Res, l: IrqList)
    requires Inv(s) && s.drainer.Draining? && c < |s.queues|
    requires r == s.resList[s.resFront] && l == ListOf(s.lists, c) && r.irq !in Pending(l) && l[0] + 1 >= MAX_DEVS
    ensures CpuOk(TakeFor(s, c), c)
  {
    assert CpuOk(s, c);
    assert ListOf(TakeFor(s, c).lists, c) == l && TakeFor(s, c).drainer.Crashed?;
  }

  lemma SendCpu(s: State, c: nat)
    requires Inv(s) && Enabled(s, Send) && c < |s.queues|
    ensures CpuOk(Do(s, Send), c)
  {
    assert CpuOk(s, c);
    InjectsPush(s.queues[c], IPI_EVENT_VIRTIO_INJECT_IRQ);
  }

  lemma FetchCpu(s: State, d: nat, c: nat)
    requires Inv(s) && Enabled(s, Fetch(d)) && c < |s.queues|
    ensures CpuOk(Do(s, Fetch(d)), c)
  {
    assert CpuOk(s, c);
  }

  lemma StepKeepsCpu(s: State, t: Step, c: nat)
    requires Inv(s) && Enabled(s, t) && c < |s.queues|
    ensures CpuOk(Do(s, t), c)
  {
    assert CpuOk(s, c);
    match t {
      case Take(d) => TakeCpu(s, d, c);
      case Send => SendCpu(s, c);
      case Fetch(d) => FetchCpu(s, d, c);
      case OtherEvent(d, e) => InjectsPush(s.queues[d], e);
      case _ =>
    }
  }

  /** Every step of the device, the root CPU and the guest CPUs keeps the invariant. */
  lemma StepKeepsInv(s: State, t: Step)
    requires Inv(s) && Enabled(s, t)
    ensures Inv(Do(s, t))
  {
    var s' := Do(s, t);
    StepKeepsFifo(s, t);
    forall c | 0 <= c < |s'.queues| ensures CpuOk(s', c) { StepKeepsCpu(s, t, c); }
  }

  // ------------------------------------------------------------ whole runs

  ghost predicate IsRun(ss: seq<State>, ts: seq<Step>) {
    && |ss| == |ts| + 1 && Initial(ss[0])
    && forall k | 0 <= k < |ts| :: Shape(ss[k]) && Enabled(ss[k], ts[k]) && ss[k + 1] == Do(ss[k], ts[k])
  }

  lemma {:induction false} RunKeepsInv(ss: seq<State>, ts: seq<Step>, n: nat)
    requires IsRun(ss, ts) && n <= |ts|
    ensures Inv(ss[n])
  {
    if n == 0 {
      InitialInv(ss[0]);
    } else {
      RunKeepsInv(ss, ts, n - 1);
      StepKeepsInv(ss[n - 1], ts[n - 1]);
    }
  }

  /** No interrupt is stranded: in every interleaving the events queued for a CPU,
      its handler in progress and the one event the drainer still owes cover its
      list; while the lists are unlocked nothing is owed. */
  lemma RunStrandsNothing(ss: seq<State>, ts: seq<Step>, n: nat, c: nat)
    requires IsRun(ss, ts) && n <= |ts| && c < |ss[n].queues|
    ensures Shape(ss[n])
    ensures var s := ss[n];
            |Pending(ListOf(s.lists, c))| <= Injects(s.queues[c]) + (if s.handling[c] then 1 else 0) + Owed(s, c)
    ensures ss[n].drainer.Off? ==>
              |Pending(ListOf(ss[n].lists, c))| <= Injects(ss[n].queues[c]) + if ss[n].handling[c] then 1 else 0
  {
    RunKeepsInv(ss, ts, n);
    assert CpuOk(ss[n], c);
  }

  /** With the lists unlocked, a CPU with a listed interrupt has a step to take towards
      it: its handler can run, or there is an event to fetch. */
  lemma RunCanDeliver(ss: seq<State>, ts: seq<Step>, n: nat, c: nat)
    requires IsRun(ss, ts) && n <= |ts| && c < |ss[n].queues| && ss[n].drainer.Off?
    ensures Shape(ss[n])
    ensures Pending(ListOf(ss[n].lists, c)) != [] ==> Enabled(ss[n], if ss[n].handling[c] then Handle(c) else Fetch(c))
  {
    RunKeepsInv(ss, ts, n);
    assert CpuOk(ss[n], c);
  }

  /** The drain always goes on: to the next result, the owed event, or its end. */
  lemma RunDrainMoves(ss: seq<State>, ts: seq<Step>, n: nat)
    requires IsRun(ss, ts) && n <= |ts| && (ss[n].drainer.Draining? || ss[n].drainer.Sending?)
    ensures Shape(ss[n])
    ensures var s := ss[n];
            if s.drainer.Sending? then Enabled(s, Send)
            else if s.resFront == s.resRear then Enabled(s, Finish)
            else Enabled(s, TakeUnknown) && forall c: nat | c < |s.queues| :: Enabled(s, Take(c))
  {
    RunKeepsInv(ss, ts, n);
  }

  /** A handler that gets the lock finds its CPU's list, and passes on exactly the
      distinct interrupts read for that CPU since its last handler: at most 3. */
  lemma RunHandlesDistinct(ss: seq<State>, ts: seq<Step>, n: nat, c: nat)
    requires IsRun(ss, ts) && n < |ts| && ts[n] == Handle(c)
    ensures Shape(ss[n]) && c < |ss[n].queues| && c in ss[n].lists
    ensures Pending(ss[n].lists[c]) == Distinct(ss[n].since[c]) && |Pending(ss[n].lists[c])| <= MAX_DEVS - 1
    ensures NoDuplicates(Pending(ss[n].lists[c])) && forall x :: x in Pending(ss[n].lists[c]) <==> x in ss[n].since[c]
    ensures Shape(ss[n + 1]) && Pending(ss[n + 1].lists[c]) == []
  {
    RunKeepsInv(ss, ts, n);
    RunKeepsInv(ss, ts, n + 1);
    assert CpuOk(ss[n], c);
    DistinctMeans(ss[n].since[c]);
  }

  /** Until the drainer crashes, the results read are exactly the first ones posted. */
  lemma RunReadsInOrder(ss: seq<State>, ts: seq<Step>, n: nat)
    requires IsRun(ss, ts) && n <= |ts| && !ss[n].drainer.Crashed?
    ensures ss[n].consumed <= ss[n].posted
  {
    RunKeepsInv(ss, ts, n);
  }

  /** The event is sent after the interrupt is listed: between the two, under the
      lock, the list can be longer than its events. */
  lemma EventLagsList(s: State, r: Res)
    requires Initial(s) && |s.queues| == 1
    ensures var s1 := Do(s, Post(r)); var s2 := Do(s1, Start); Enabled(s2, Take(0))
    ensures var s3 := Do(Do(Do(s, Post(r)), Start), Take(0));
            |Pending(ListOf(s3.lists, 0))| > Injects(s3.queues[0]) + if s3.handling[0] then 1 else 0
  {
    AppendPending(EMPTY_LIST, r.irq);
  }

  // -------------------------------------------------- draining, sequentially

  /** The lists and event queues as one drain changes them. */
  datatype Board = Board(lists: map<nat, IrqList>, queues: seq<seq<nat>>)

  ghost predicate BoardOk(b: Board) { forall c | c in b.lists :: ListOk(b.lists[c]) }

  ghost function ForCpu(rs: seq<Res>, target: map<nat, nat>, c: nat): seq<nat> {
    if rs == [] then [] else
      var r := rs[|rs| - 1];
      var before := ForCpu(rs[..|rs| - 1], target, c);
      if r.zone in target && target[r.zone] == c then before + [r.irq] else before
  }

  lemma ForCpuNext(rs: seq<Res>, target: map<nat, nat>, c: nat, r: Res)
    ensures ForCpu(rs + [r], target, c) ==
            if r.zone in target && target[r.zone] == c then ForCpu(rs, target, c) + [r.irq] else ForCpu(rs, target, c)
  {
    assert (rs + [r])[..|rs|] == rs;
  }

  ghost function Repeat(n: nat): seq<nat> {
    if n == 0 then [] else Repeat(n - 1) + [2]
  }

  /** The list and the queue of `c` after a drain of `rs`. */
  ghost predicate Drained(b: Board, b': Board, rs: seq<Res>, target: map<nat, nat>, c: nat)
    requires BoardOk(b) && BoardOk(b') && c < |b.queues| == |b'.queues|
  {
    Adds(Pending(ListOf(b.lists, c)), b.queues[c],
         Pending(ListOf(b'.lists, c)), b'.queues[c], ForCpu(rs, target, c))
  }

  /** The list `p` and queue `q` after the interrupts `x`: each new one is listed
      once, in order, with one event. */
  ghost predicate Adds(p: seq<nat>, q: seq<nat>, p': seq<nat>, q': seq<nat>, x: seq<nat>) {
    p' == Distinct(p + x) && |p| <= |p'| && q' == q + Repeat(|p'| - |p|)
  }

  lemma AddsOne(p: seq<nat>, q: seq<nat>, p1: seq<nat>, q1: seq<nat>, x: seq<nat>, irq: nat)
    requires Adds(p, q, p1, q1, x)
    ensures irq in p1 ==> Adds(p, q, p1, q1, x + [irq])
    ensures irq !in p1 ==> Adds(p, q, p1 + [irq], q1 + [IPI_EVENT_VIRTIO_INJECT_IRQ], x + [irq])
  {
    assert p + (x + [irq]) == p + x + [irq];
    DistinctNext(p + x, irq);
    AddsEvent(q, q1, |p1| - |p|, |p1| + 1 - |p|);
  }

  lemma AddsEvent(q: seq<nat>, q1: seq<nat>, n: nat, m: nat)
    requires q1 == q + Repeat(n) && m == n + 1
    ensures q1 + [IPI_EVENT_VIRTIO_INJECT_IRQ] == q + Repeat(m)
  {
    MoreEvents(q, n, m);
  }

  ghost predicate AllDrained(b: Board, b': Board, rs: seq<Res>, target: map<nat, nat>) {
    && BoardOk(b) && BoardOk(b') && |b.queues| == |b'.queues|
    && forall c {:trigger Drained(b, b', rs, target, c)} | 0 <= c < |b.queues| :: Drained(b, b', rs, target, c)
  }

  /** No list comes to hold more than three interrupts. */
  ghost predicate Fits(b: Board, rs: seq<Res>, target: map<nat, nat>, c: nat)
    requires BoardOk(b)
  {
    |Distinct(Pending(ListOf(b.lists, c)) + ForCpu(rs, target, c))| < MAX_DEVS
  }

  /** A drain meets no assertion: every zone is known and every list suffices. */
  ghost predicate Drainable(b: Board, rs: seq<Res>, target: map<nat, nat>)
    requires BoardOk(b)
  {
    && AllKnown(rs, target)
    && (forall c {:trigger Fits(b, rs, target, c)} | 0 <= c < |b.queues| :: Fits(b, rs, target, c))
  }

  ghost predicate AllKnown(rs: seq<Res>, target: map<nat, nat>) { forall r | r in rs :: r.zone in target }

  lemma {:induction false} DistinctGrows(s: seq<nat>, t: seq<nat>)
    ensures |Distinct(s)| <= |Distinct(s + t)|
  {
    if t == [] {
      assert s + t == s;
    } else {
      var t', x := t[..|t| - 1], t[|t| - 1];
      assert s + t == s + t' + [x];
      DistinctGrows(s, t');
      DistinctNext(s + t', x);
    }
  }

  lemma {:induction false} ForCpuGrows(some: seq<Res>, rs: seq<Res>, target: map<nat, nat>, c: nat)
    requires some <= rs
    ensures ForCpu(some, target, c) <= ForCpu(rs, target, c)
  {
    if |some| < |rs| {
      assert some <= rs[..|rs| - 1];
      ForCpuGrows(some, rs[..|rs| - 1], target, c);
    } else {
      assert some == rs;
    }
  }

  lemma FitsPrefix(b: Board, some: seq<Res>, rs: seq<Res>, target: map<nat, nat>, c: nat)
    requires BoardOk(b) && some <= rs && Fits(b, rs, target, c)
    ensures Fits(b, some, target, c)
  {
    var p, x, y := Pending(ListOf(b.lists, c)), ForCpu(some, target, c), ForCpu(rs, target, c);
    ForCpuGrows(some, rs, target, c);
    assert p + y == p + x + y[|x|..];
    DistinctGrows(p + x, y[|x|..]);
  }

  lemma {:induction false} DistinctOfDistinct(s: seq<nat>)
    requires NoDuplicates(s)
    ensures Distinct(s) == s
  {
    if s != [] {
      var t, x := s[..|s| - 1], s[|s| - 1];
      assert s == t + [x];
      DistinctOfDistinct(t);
      DistinctNext(t, x);
    }
  }

  /** Nothing read, nothing changed. */
  lemma DrainedNothing(b: Board, target: map<nat, nat>)
    requires BoardOk(b) && Tidy(b.lists)
    ensures AllDrained(b, b, [], target)
  {
    forall c | 0 <= c < |b.queues| ensures Drained(b, b, [], target, c) {
      var p := Pending(ListOf(b.lists, c));
      DistinctOfDistinct(p);
      assert p + [] == p && b.queues[c] + [] == b.queues[c];
    }
  }

  /** One more result, for CPU `d`: what the loop body does to the board. */
  ghost function TakeOn(b: Board, d: nat, irq: nat): Board
    requires BoardOk(b) && d < |b.queues|
    requires irq in Pending(ListOf(b.lists, d)) || ListOf(b.lists, d)[0] + 1 < MAX_DEVS
  {
    var l := ListOf(b.lists, d);
    if irq in Pending(l) then b.(lists := b.lists[d := l])
    else Board(b.lists[d := Append(l, irq)], b.queues[d := b.queues[d] + [IPI_EVENT_VIRTIO_INJECT_IRQ]])
  }

  ghost function BoardOf(s: State): Board { Board(s.lists, s.queues) }

  /** The interleaved model takes a result and sends its event in two steps; together
      they do what the loop body does to the board, and they crash where it asserts. */
  lemma TakeThenSend(s: State, c: nat)
    requires Shape(s) && Enabled(s, Take(c))
    ensures var r, l, s1 := s.resList[s.resFront], ListOf(s.lists, c), Do(s, Take(c));
            if r.irq in Pending(l) || l[0] + 1 < MAX_DEVS
            then
              && (s1.drainer.Sending? ==> Enabled(s1, Send))
              && var s2 := if s1.drainer.Sending? then Do(s1, Send) else s1;
                 BoardOf(s2) == TakeOn(BoardOf(s), c, r.irq) && s2.drainer.Draining? && s2.resFront == (s.resFront + 1) % MAX_REQ
            else s1.drainer.Crashed? && BoardOf(s1) == Board(s.lists[c := l], s.queues)
  {
  }

  lemma TakeOnDrains(b0: Board, b: Board, done: seq<Res>, target: map<nat, nat>, r: Res, c: nat)
    requires AllDrained(b0, b, done, target) && r.zone in target && target[r.zone] < |b.queues| && c < |b.queues|
    requires r.irq in Pending(ListOf(b.lists, target[r.zone])) || ListOf(b.lists, target[r.zone])[0] + 1 < MAX_DEVS
    ensures var b' := TakeOn(b, target[r.zone], r.irq); BoardOk(b') && Drained(b0, b', done + [r], target, c)
  {
    assert Drained(b0, b, done, target, c);
    ForCpuNext(done, target, c, r);
    TakeOnOk(b, target[r.zone], r.irq);
    if c == target[r.zone] { TakeOnOwn(b0, b, done, target, r, c); }
  }

  lemma TakeOnOk(b: Board, d: nat, irq: nat)
    requires BoardOk(b) && d < |b.queues|
    requires irq in Pending(ListOf(b.lists, d)) || ListOf(b.lists, d)[0] + 1 < MAX_DEVS
    ensures var b', p := TakeOn(b, d, irq), Pending(ListOf(b.lists, d));
            && BoardOk(b')
            && Pending(ListOf(b'.lists, d)) == (if irq in p then p else p + [irq])
            && b'.queues[d] == (if irq in p then b.queues[d] else b.queues[d] + [IPI_EVENT_VIRTIO_INJECT_IRQ])
            && forall c | 0 <= c < |b.queues| && c != d ::
                 ListOf(b'.lists, c) == ListOf(b.lists, c) && b'.queues[c] == b.queues[c]
  {
    if ListOf(b.lists, d)[0] + 1 < MAX_DEVS { AppendPending(ListOf(b.lists, d), irq); }
  }

  lemma TakeOnOwn(b0: Board, b: Board, done: seq<Res>, target: map<nat, nat>, r: Res, c: nat)
    requires BoardOk(b0) && BoardOk(b) && c < |b0.queues| == |b.queues| && Drained(b0, b, done, target, c)
    requires r.zone in target && target[r.zone] == c
    requires r.irq in Pending(ListOf(b.lists, c)) || ListOf(b.lists, c)[0] + 1 < MAX_DEVS
    ensures BoardOk(TakeOn(b, c, r.irq)) && Drained(b0, TakeOn(b, c, r.irq), done + [r], target, c)
  {
    TakeOnOk(b, c, r.irq);
    ForCpuNext(done, target, c, r);
    AddsOne(Pending(ListOf(b0.lists, c)), b0.queues[c],
            Pending(ListOf(b.lists, c)), b.queues[c], ForCpu(done, target, c), r.irq);
  }

  lemma MoreEvents(q: seq<nat>, n: nat, m: nat)
    requires m == n + 1
    ensures q + Repeat(n) + [IPI_EVENT_VIRTIO_INJECT_IRQ] == q + Repeat(m)
  {
  }

  lemma TakeOnAll(b0: Board, b: Board, done: seq<Res>, target: map<nat, nat>, r: Res)
    requires AllDrained(b0, b, done, target) && r.zone in target && target[r.zone] < |b.queues|
    requires r.irq in Pending(ListOf(b.lists, target[r.zone])) || ListOf(b.lists, target[r.zone])[0] + 1 < MAX_DEVS
    ensures AllDrained(b0, TakeOn(b, target[r.zone], r.irq), done + [r], target)
  {
    var b' := TakeOn(b, target[r.zone], r.irq);
    TakeOnOk(b, target[r.zone], r.irq);
    forall c | 0 <= c < |b0.queues| ensures Drained(b0, b', done + [r], target, c) {
      TakeOnDrains(b0, b, done, target, r, c);
    }
  }

  /** A fourth distinct interrupt for one CPU. */
  lemma OverflowNotDrainable(b0: Board, b: Board, done: seq<Res>, rs: seq<Res>, target: map<nat, nat>, r: Res)
    requires AllDrained(b0, b, done, target) && done + [r] <= rs && r.zone in target && target[r.zone] < |b.queues|
    requires r.irq !in Pending(ListOf(b.lists, target[r.zone])) && ListOf(b.lists, target[r.zone])[0] + 1 >= MAX_DEVS
    ensures !Drainable(b0, rs, target)
  {
    var c := target[r.zone];
    var p0 := Pending(ListOf(b0.lists, c));
    assert Drained(b0, b, done, target, c);
    ForCpuNext(done, target, c, r);
    assert p0 + (ForCpu(done, target, c) + [r.irq]) == p0 + ForCpu(done, target, c) + [r.irq];
    DistinctNext(p0 + ForCpu(done, target, c), r.irq);
    assert !Fits(b0, done + [r], target, c);
    if Fits(b0, rs, target, c) { FitsPrefix(b0, done + [r], rs, target, c); }
  }

  lemma UnknownNotDrainable(b: Board, done: seq<Res>, rs: seq<Res>, target: map<nat, nat>, r: Res)
    requires BoardOk(b) && done + [r] <= rs && r.zone !in target
    ensures !Drainable(b, rs, target)
  {
    assert rs[|done|] == r;
  }

  lemma AllFit(b0: Board, b: Board, rs: seq<Res>, target: map<nat, nat>)
    requires AllDrained(b0, b, rs, target) && AllKnown(rs, target)
    ensures Drainable(b0, rs, target)
  {
    forall c | 0 <= c < |b0.queues| ensures Fits(b0, rs, target, c) { assert Drained(b0, b, rs, target, c); }
  }

  ghost function RingLength(front: nat, rear: nat): nat
    requires front < MAX_REQ && rear < MAX_REQ
  {
    if front <= rear then rear - front else rear + MAX_REQ - front
  }

  /** The entries from `front` up to `rear`, around the ring. */
  ghost function UnreadOf(list: seq<Res>, front: nat, rear: nat): (rs: seq<Res>)
    requires |list| == MAX_REQ && front < MAX_REQ && rear < MAX_REQ
    ensures |rs| == RingLength(front, rear)
  {
    seq(RingLength(front, rear), i requires 0 <= i => list[Place(front, i)])
  }

  lemma UnreadNext(list: seq<Res>, front: nat, rear: nat)
    requires |list| == MAX_REQ && front < MAX_REQ && rear < MAX_REQ && front != rear
    ensures UnreadOf(list, front, rear) == [list[front]] + UnreadOf(list, (front + 1) % MAX_REQ, rear)
    ensures RingLength((front + 1) % MAX_REQ, rear) < RingLength(front, rear)
  {
    var next := (front + 1) % MAX_REQ;
    assert RingLength(next, rear) + 1 == RingLength(front, rear);
    forall i | 0 <= i < RingLength(next, rear) ensures Place(next, i) == Place(front, i + 1) {}
  }

  /** Every event that was queued came with an interrupt of its CPU. */
  ghost predicate AllSignalled(queues: seq<seq<nat>>, sgis: multiset<nat>, queues': seq<seq<nat>>, sgis': multiset<nat>) {
    && |queues'| == |queues|
    && forall c: nat {:trigger Signalled(queues, sgis, queues', sgis', c)} | c < |queues| ::
         Signalled(queues, sgis, queues', sgis', c)
  }

  ghost predicate Signalled(queues: seq<seq<nat>>, sgis: multiset<nat>, queues': seq<seq<nat>>, sgis': multiset<nat>, c: nat)
    requires c < |queues| == |queues'|
  {
    |queues'[c]| + sgis[c] == |queues[c]| + sgis'[c]
  }

  lemma SignalledThen(q: seq<seq<nat>>, g: multiset<nat>, q1: seq<seq<nat>>, g1: multiset<nat>,
                      q2: seq<seq<nat>>, g2: multiset<nat>)
    requires AllSignalled(q, g, q1, g1) && AllSignalled(q1, g1, q2, g2)
    ensures AllSignalled(q, g, q2, g2)
  {
    forall c: nat | c < |q| ensures Signalled(q, g, q2, g2, c) {
      assert Signalled(q, g, q1, g1, c) && Signalled(q1, g1, q2, g2, c);
    }
  }

  lemma OneSignal(queues: seq<seq<nat>>, sgis: multiset<nat>, cpu: nat, event: nat)
    requires cpu < |queues|
    ensures AllSignalled(queues, sgis, queues[cpu := queues[cpu] + [event]], sgis + multiset{cpu})
  {
  }

  /** No list names an interrupt twice. */
  ghost predicate Tidy(lists: map<nat, IrqList>) {
    forall c {:trigger lists[c]} | c in lists :: ListOk(lists[c]) && NoDuplicates(Pending(lists[c]))
  }

  lemma TidyWith(lists: map<nat, IrqList>, cpu: nat, irq: nat)
    requires Tidy(lists)
    ensures ListOk(ListOf(lists, cpu)) && Tidy(lists[cpu := ListOf(lists, cpu)])
    ensures var l := ListOf(lists, cpu);
            irq !in Pending(l) && l[0] + 1 < MAX_DEVS ==> Tidy(lists[cpu := Append(l, irq)])
  {
    var l := ListOf(lists, cpu);
    if irq !in Pending(l) && l[0] + 1 < MAX_DEVS { AppendPending(l, irq); }
  }

  datatype DrainEnd = NotPermitted | Completed | Panicked

  class Hub {
    var resFront: nat
    var resRear: nat
    const resList: array<Res>
    var lists: map<nat, IrqList>
    var queues: seq<seq<nat>>
    /** How many inter-processor interrupts were raised for each CPU. */
    var sgis: multiset<nat>

    /** The event queues of `cpus` CPUs, and a result ring whose slots hold anything. */
    constructor (cpus: nat, anything: Res)
      ensures Valid() && fresh(resList) && Unread() == [] && lists == map[] && sgis == multiset{}
      ensures |queues| == cpus && forall c | 0 <= c < cpus :: queues[c] == []
    {
      resFront, resRear, lists, queues, sgis := 0, 0, map[], seq(cpus, _ => []), multiset{};
      resList := new Res[MAX_REQ](_ => anything);
    }

    ghost function Look(): Board
      reads this
    {
      Board(lists, queues)
    }

    ghost predicate Valid()
      reads this
    {
      && resList.Length == MAX_REQ && resFront < MAX_REQ && resRear < MAX_REQ && BoardOk(Look())
      && Tidy(lists)
    }

    /** The unread results, oldest first, for this `res_rear`. */
    ghost function Unread(): seq<Res>
      requires Valid()
      reads this, resList
    {
      UnreadOf(resList[..], resFront, resRear)
    }

    /** `send_event`: the interrupt is raised even when the CPU has no queue and the
        event is dropped. */
    method SendEvent(cpu: nat, event: nat)
      modifies this`queues, this`sgis
      ensures queues == if cpu < |old(queues)| then old(queues)[cpu := old(queues[cpu]) + [event]] else old(queues)
      ensures sgis == old(sgis) + multiset{cpu}
    {
      if cpu < |queues| {
        queues := queues[cpu := queues[cpu] + [event]];
      }
      sgis := sgis + multiset{cpu};
    }

    /** `fetch_event`. */
    method FetchEvent(cpu: nat) returns (event: Option<nat>)
      modifies this`queues
      ensures if cpu < |old(queues)| && old(queues[cpu]) != []
              then event.Some? && |queues| == |old(queues)| && old(queues) == queues[cpu := [event.value] + queues[cpu]]
              else event == None && queues == old(queues)
    {
      if cpu >= |queues| || queues[cpu] == [] {
        return None;
      }
      var q := queues[cpu];
      event := Some(q[0]);
      queues := queues[cpu := q[1..]];
      assert [q[0]] + q[1..] == q;
    }

    /** The body of the drain loop for one result; false is the assertion that
        would let a list hold four interrupts. */
    method TakeResult(r: Res, cpu: nat) returns (ok: bool)
      requires Valid() && cpu < |queues|
      modifies this`lists, this`queues, this`sgis
      ensures AllSignalled(old(queues), old(sgis), queues, sgis)
      ensures ok <==> r.irq in Pending(ListOf(old(lists), cpu)) || ListOf(old(lists), cpu)[0] + 1 < MAX_DEVS
      ensures Look() == if ok then TakeOn(old(Look()), cpu, r.irq)
                        else Board(old(lists)[cpu := ListOf(old(lists), cpu)], old(queues))
      ensures Valid()
    {
      var l := ListOf(lists, cpu);
      TidyWith(lists, cpu, r.irq);
      lists := lists[cpu := l];
      ok := true;
      if r.irq !in l[1..1 + l[0]] {
        if !(l[0] + 1 < MAX_DEVS) {
          return false;
        }
        OneSignal(queues, sgis, cpu, IPI_EVENT_VIRTIO_INJECT_IRQ);
        lists := lists[cpu := Append(l, r.irq)];
        SendEvent(cpu, IPI_EVENT_VIRTIO_INJECT_IRQ);
        assert lists == old(lists)[cpu := Append(l, r.irq)];
      }
    }

    /** `hv_virtio_inject_irq`: reads every result once, in order; completes
        exactly when every zone is known and no CPU gets a fourth interrupt. */
    method InjectVirtioIrqs(root: bool, target: map<nat, nat>) returns (end: DrainEnd)
      requires Valid() && forall z | z in target :: target[z] < |queues|
      modifies this`resFront, this`lists, this`queues, this`sgis
      ensures Valid()
      ensures end.NotPermitted? <==> !root
      ensures !root ==> Look() == old(Look()) && resFront == old(resFront)
      ensures root ==> (end.Completed? <==> Drainable(old(Look()), old(Unread()), target))
      ensures AllSignalled(old(queues), old(sgis), queues, sgis)
      ensures end.Completed? ==> resFront == resRear && AllDrained(old(Look()), Look(), old(Unread()), target)
    {
      if !root {
        return NotPermitted;
      }
      ghost var b0, rs := Look(), Unread();
      ghost var done: seq<Res> := [];
      DrainedNothing(b0, target);
      while resFront != resRear
        invariant Valid() && resRear == old(resRear) && Consumed(b0, rs, done, target)
        invariant AllSignalled(old(queues), old(sgis), queues, sgis)
        decreases RingLength(resFront, resRear)
      {
        ghost var q, g := queues, sgis;
        var ok := TakeNext(target, b0, rs, done);
        SignalledThen(old(queues), old(sgis), q, g, queues, sgis);
        if !ok {
          return Panicked;
        }
        done := done + [rs[|done|]];
      }
      assert done == rs;
      AllFit(b0, Look(), rs, target);
      return Completed;
    }

    /** How far a drain that began at `b0` with the results `rs` has come. */
    ghost predicate Consumed(b0: Board, rs: seq<Res>, done: seq<Res>, target: map<nat, nat>)
      reads this, resList
    {
      && Valid() && rs == done + Unread() && AllDrained(b0, Look(), done, target) && AllKnown(done, target)
      && forall z | z in target :: target[z] < |queues|
    }

    /** One round of the drain. */
    method TakeNext(target: map<nat, nat>, ghost b0: Board, ghost rs: seq<Res>, ghost done: seq<Res>) returns (ok: bool)
      requires resFront != resRear && Consumed(b0, rs, done, target)
      modifies this`resFront, this`lists, this`queues, this`sgis
      ensures Valid() && AllSignalled(old(queues), old(sgis), queues, sgis)
      ensures !ok ==> !Drainable(b0, rs, target)
      ensures ok ==> |done| < |rs| && Consumed(b0, rs, done + [rs[|done|]], target)
      ensures ok ==> RingLength(resFront, resRear) < old(RingLength(resFront, resRear))
    {
      var r := resList[resFront];
      ghost var b := Look();
      UnreadNext(resList[..], resFront, resRear);
      assert rs[|done|] == r && done + [r] <= rs;
      if r.zone !in target {
        UnknownNotDrainable(b0, done, rs, target, r);
        return false;
      }
      ok := TakeResult(r, target[r.zone]);
      if !ok {
        OverflowNotDrainable(b0, b, done, rs, target, r);
        return;
      }
      TakeOnAll(b0, b, done, target, r);
      resFront := (resFront + 1) % MAX_REQ;
    }

    /** `handle_virtio_irq`: the interrupts passed to `inject_irq`, in order. */
    method HandleVirtioIrq(cpu: nat) returns (injected: seq<nat>)
      requires Valid() && cpu in lists
      modifies this`lists
      ensures Valid() && injected == Pending(old(lists[cpu])) && cpu in lists && Pending(lists[cpu]) == []
      ensures forall c | c != cpu :: ListOf(lists, c) == ListOf(old(lists), c)
    {
      var l := lists[cpu];
      injected := [];
      var i := 1;
      while i < 1 + l[0]
        invariant 1 <= i <= 1 + l[0] && injected == l[1..i]
      {
        injected := injected + [l[i]];
        i := i + 1;
      }
      lists := lists[cpu := l[0 := 0]];
    }
  }
}
