/** Booting any number of CPUs: the barriers of `rust_main`, and the minimum
    physical address range that the CPUs agree on. */
module Boot {
  import opened Options

  // Where a CPU is in `rust_main`, in program order.
  const OFF: nat := 0
  const FRESH: nat := 1       // entered by firmware
  const LOADED: nat := 2      // has read MASTER_CPU
  const CLAIMED: nat := 3     // knows whether it is the primary
  const CREATED: nat := 4     // has written its PerCpu
  const WOKEN: nat := 5       // past `wakeup_secondary_cpus`
  const ENTERED: nat := 6     // has counted itself in ENTERED_CPUS
  const ALL_ENTERED: nat := 7
  const LOWERED: nat := 8     // has lowered MIN_PARANGE
  const COUNTED: nat := 9     // has counted itself in PARANGE_OK_CPUS
  const ALL_COUNTED: nat := 10
  const ROOT_MADE: nat := 11  // primary only: the root zone exists
  const EARLY_DONE: nat := 12
  const INITED: nat := 13     // has counted itself in INITED_CPUS
  const ALL_INITED: nat := 14
  const LATE_DONE: nat := 15
  const RUNNING: nat := 16    // in `run_vm`

  const PARANGE_TABLE: seq<nat> := [32, 36, 40, 42, 44, 48]

  /** `at[c]` is CPU `c`'s stage, `saw[c]` whether it found no master; `primary` is
      its local flag; `woken` counts the rounds of the wake-up loop. */
  datatype State = State(at: seq<nat>, saw: seq<bool>, primary: seq<bool>, master: Option<nat>, woken: nat,
                         entered: nat, parangeOk: nat, inited: nat, minParange: nat,
                         rootMade: bool, earlyOk: bool, lateOk: bool)

  datatype Step =
    | Load(cpu: nat) | Claim(cpu: nat) | NewPerCpu(cpu: nat) | StartNext(cpu: nat) | DoneWaking(cpu: nat)
    | Enter(cpu: nat) | PassEntered(cpu: nat)
    | LowerMin(cpu: nat) | CountParange(cpu: nat) | PassParange(cpu: nat)
    | CreateRoot(cpu: nat) | StoreEarly(cpu: nat) | SeeEarly(cpu: nat)
    | CountInited(cpu: nat) | PassInited(cpu: nat)
    | StoreLate(cpu: nat) | SeeLate(cpu: nat) | RunVm(cpu: nat)

  ghost predicate Shape(s: State, parange: seq<nat>) {
    |s.at| == |s.saw| == |s.primary| == |parange|
  }

  predicate Enabled(s: State, t: Step)
    requires |s.at| == |s.saw| == |s.primary|
  {
    t.cpu < |s.at| &&
    var n, pc, first := |s.at|, s.at[t.cpu], s.primary[t.cpu];
    match t
    case Load(_) => pc == FRESH
    case Claim(_) => pc == LOADED
    case NewPerCpu(_) => pc == CLAIMED
    case StartNext(_) => pc == CREATED && first && s.woken < n
    case DoneWaking(_) => pc == CREATED && (first ==> s.woken >= n)
    case Enter(_) => pc == WOKEN
    case PassEntered(_) => pc == ENTERED && s.entered >= n
    case LowerMin(_) => pc == ALL_ENTERED
    case CountParange(_) => pc == LOWERED
    case PassParange(_) => pc == COUNTED && s.parangeOk >= n
    case CreateRoot(_) => pc == ALL_COUNTED && first
    case StoreEarly(_) => pc == ROOT_MADE
    case SeeEarly(_) => pc == ALL_COUNTED && !first && s.earlyOk
    case CountInited(_) => pc == EARLY_DONE
    case PassInited(_) => pc == INITED && s.inited >= n
    case StoreLate(_) => pc == ALL_INITED && first
    case SeeLate(_) => pc == ALL_INITED && !first && s.lateOk
    case RunVm(_) => pc == LATE_DONE
  }

  function To(s: State, c: nat, stage: nat): State
    requires c < |s.at|
  {
    s.(at := s.at[c := stage])
  }

  function Do(s: State, t: Step, parange: seq<nat>): State
    requires |s.at| == |s.saw| == |s.primary| == |parange| && Enabled(s, t)
  {
    var c := t.cpu;
    match t
    case Load(_) => To(s, c, LOADED).(saw := s.saw[c := s.master.None?])
    case Claim(_) =>
      if s.saw[c] then To(s, c, CLAIMED).(master := Some(c), primary := s.primary[c := true]) else To(s, c, CLAIMED)
    case NewPerCpu(_) => To(s, c, CREATED)
    case StartNext(_) =>
      // Firmware starts a CPU that is off and refuses one that is on.
      (if s.woken != c && s.at[s.woken] == OFF then To(s, s.woken, FRESH) else s).(woken := s.woken + 1)
    case DoneWaking(_) => To(s, c, WOKEN)
    case Enter(_) => To(s, c, ENTERED).(entered := s.entered + 1)
    case PassEntered(_) => To(s, c, ALL_ENTERED)
    case LowerMin(_) => To(s, c, LOWERED).(minParange := if parange[c] < s.minParange then parange[c] else s.minParange)
    case CountParange(_) => To(s, c, COUNTED).(parangeOk := s.parangeOk + 1)
    case PassParange(_) => To(s, c, ALL_COUNTED)
    case CreateRoot(_) => To(s, c, ROOT_MADE).(rootMade := true)
    case StoreEarly(_) => To(s, c, EARLY_DONE).(earlyOk := true)
    case SeeEarly(_) => To(s, c, EARLY_DONE)
    case CountInited(_) => To(s, c, INITED).(inited := s.inited + 1)
    case PassInited(_) => To(s, c, ALL_INITED)
    case StoreLate(_) => To(s, c, LATE_DONE).(lateOk := true)
    case SeeLate(_) => To(s, c, LATE_DONE)
    case RunVm(_) => To(s, c, RUNNING)
  }

  /** Only the CPU `p` has been started. */
  ghost predicate Initial(s: State, parange: seq<nat>, p: nat) {
    && Shape(s, parange) && p < |s.at| && s.at[p] == FRESH && s.master.None? && s.woken == 0
    && (forall c | 0 <= c < |s.at| :: !s.primary[c] && (c != p ==> s.at[c] == OFF))
    && s.entered == s.parangeOk == s.inited == 0 && s.minParange == 7
    && !s.rootMade && !s.earlyOk && !s.lateOk
  }

  // ---------------------------------------------------------------- counting

  /** How many CPUs have reached a stage. */
  ghost function Reached(at: seq<nat>, stage: nat): nat {
    if at == [] then 0 else (if at[0] >= stage then 1 else 0) + Reached(at[1..], stage)
  }

  lemma {:induction false} ReachedUpdate(at: seq<nat>, c: nat, v: nat, stage: nat)
    requires c < |at|
    ensures Reached(at[c := v], stage)
            == Reached(at, stage) - (if at[c] >= stage then 1 else 0) + (if v >= stage then 1 else 0)
  {
    if c == 0 {
      assert at[0 := v][1..] == at[1..];
    } else {
      assert at[c := v][1..] == at[1..][c - 1 := v];
      ReachedUpdate(at[1..], c - 1, v, stage);
    }
  }

  lemma {:induction false} ReachedAll(at: seq<nat>, stage: nat)
    ensures Reached(at, stage) <= |at|
    ensures Reached(at, stage) == |at| <==> forall c | 0 <= c < |at| :: at[c] >= stage
  {
    if at != [] {
      ReachedAll(at[1..], stage);
      assert forall c | 0 <= c < |at| - 1 :: at[1..][c] == at[c + 1];
      if forall c | 0 <= c < |at[1..]| :: at[1..][c] >= stage {
        assert forall c | 1 <= c < |at| :: at[c] == at[1..][c - 1];
      }
    }
  }

  // ---------------------------------------------------------- what is kept

  ghost predicate All(s: State, stage: nat) { forall c | 0 <= c < |s.at| :: s.at[c] >= stage }

  ghost predicate Counters(s: State) {
    s.entered == Reached(s.at, ENTERED) && s.parangeOk == Reached(s.at, COUNTED) && s.inited == Reached(s.at, INITED)
  }

  /** Past a barrier, everybody has arrived at it. */
  ghost predicate Barrier(s: State, c: nat)
    requires c < |s.at|
  {
    && (s.at[c] >= ALL_ENTERED ==> All(s, ENTERED))
    && (s.at[c] >= ALL_COUNTED ==> All(s, COUNTED))
    && (s.at[c] >= ALL_INITED ==> All(s, INITED))
  }

  /** The CPU `p` that firmware started becomes the primary. */
  ghost predicate Primary(s: State, p: nat)
    requires |s.at| == |s.saw| == |s.primary|
  {
    && p < |s.at| && s.at[p] != OFF
    && (s.at[p] < CLAIMED ==> s.master.None?) && (s.at[p] == LOADED ==> s.saw[p])
    && (s.at[p] >= CLAIMED ==> s.master == Some(p) && s.primary[p])
    && (s.rootMade <==> s.at[p] >= ROOT_MADE) && (s.earlyOk <==> s.at[p] >= EARLY_DONE)
    && (s.lateOk <==> s.at[p] >= LATE_DONE)
  }

  /** Every other CPU was started by `p` and waits for it. */
  ghost predicate Secondary(s: State, p: nat, c: nat)
    requires |s.at| == |s.saw| == |s.primary| && p < |s.at| && c < |s.at|
  {
    && !s.primary[c] && (s.at[c] == LOADED ==> !s.saw[c])
    && (s.at[c] != OFF ==> s.at[p] >= CREATED)
    && s.at[c] != ROOT_MADE
    && (s.at[c] >= EARLY_DONE ==> s.earlyOk) && (s.at[c] >= LATE_DONE ==> s.lateOk)
  }

  /** The minimum over the CPUs that have contributed, capped at 7. */
  ghost predicate Minimum(s: State, parange: seq<nat>)
    requires |s.at| == |parange|
  {
    && s.minParange <= 7
    && (forall c | 0 <= c < |s.at| && s.at[c] >= LOWERED :: s.minParange <= parange[c])
    && (s.minParange < 7 ==> exists c :: 0 <= c < |s.at| && s.at[c] >= LOWERED && s.minParange == parange[c])
  }

  /** The wake-up loop has started every CPU before its counter; past the loop, all. */
  ghost predicate Started(s: State, p: nat) {
    && p < |s.at| && s.woken <= |s.at|
    && (forall c | 0 <= c < |s.at| :: s.at[c] <= RUNNING && (c < s.woken ==> s.at[c] != OFF))
    && (s.at[p] >= WOKEN ==> s.woken == |s.at|)
  }

  ghost predicate Inv(s: State, parange: seq<nat>, p: nat) {
    && Shape(s, parange) && Counters(s) && Primary(s, p) && Minimum(s, parange) && Started(s, p)
    && (forall c {:trigger Barrier(s, c)} | 0 <= c < |s.at| :: Barrier(s, c))
    && (forall c {:trigger Secondary(s, p, c)} | 0 <= c < |s.at| && c != p :: Secondary(s, p, c))
  }

  lemma {:induction false} NoneReached(at: seq<nat>, stage: nat)
    requires forall c | 0 <= c < |at| :: at[c] < stage
    ensures Reached(at, stage) == 0
  {
    if at != [] { NoneReached(at[1..], stage); }
  }

  lemma InitialInv(s: State, parange: seq<nat>, p: nat)
    requires Initial(s, parange, p)
    ensures Inv(s, parange, p)
  {
    NoneReached(s.at, ENTERED);
    NoneReached(s.at, COUNTED);
    NoneReached(s.at, INITED);
  }

  /** The CPU whose stage a step changes. */
  ghost function Mover(s: State, t: Step): nat { if t.StartNext? then s.woken else t.cpu }

  /** The stage to which a step brings its mover. */
  ghost function Next(s: State, t: Step): nat
    requires t.StartNext? ==> s.woken < |s.at|
  {
    match t
    case Load(_) => LOADED case Claim(_) => CLAIMED case NewPerCpu(_) => CREATED
    case StartNext(_) => if s.woken != t.cpu && s.at[s.woken] == OFF then FRESH else s.at[s.woken]
    case DoneWaking(_) => WOKEN case Enter(_) => ENTERED case PassEntered(_) => ALL_ENTERED
    case LowerMin(_) => LOWERED case CountParange(_) => COUNTED case PassParange(_) => ALL_COUNTED
    case CreateRoot(_) => ROOT_MADE case StoreEarly(_) => EARLY_DONE case SeeEarly(_) => EARLY_DONE
    case CountInited(_) => INITED case PassInited(_) => ALL_INITED
    case StoreLate(_) => LATE_DONE case SeeLate(_) => LATE_DONE case RunVm(_) => RUNNING
  }

  lemma Moves(s: State, t: Step, parange: seq<nat>)
    requires Shape(s, parange) && Enabled(s, t)
    ensures Mover(s, t) < |s.at| && Do(s, t, parange).at == s.at[Mover(s, t) := Next(s, t)]
  {
  }

  /** Only the counting step crosses the stage that its counter counts. */
  lemma CountsEntered(s: State, t: Step, parange: seq<nat>)
    requires Shape(s, parange) && Enabled(s, t)
    ensures Do(s, t, parange).entered ==
            s.entered + (if Next(s, t) >= ENTERED then 1 else 0) - (if s.at[Mover(s, t)] >= ENTERED then 1 else 0)
  {
  }

  lemma CountsParange(s: State, t: Step, parange: seq<nat>)
    requires Shape(s, parange) && Enabled(s, t)
    ensures Do(s, t, parange).parangeOk ==
            s.parangeOk + (if Next(s, t) >= COUNTED then 1 else 0) - (if s.at[Mover(s, t)] >= COUNTED then 1 else 0)
  {
  }

  lemma CountsInited(s: State, t: Step, parange: seq<nat>)
    requires Shape(s, parange) && Enabled(s, t)
    ensures Do(s, t, parange).inited ==
            s.inited + (if Next(s, t) >= INITED then 1 else 0) - (if s.at[Mover(s, t)] >= INITED then 1 else 0)
  {
  }

  lemma StepKeepsShape(s: State, t: Step, parange: seq<nat>)
    requires Shape(s, parange) && Enabled(s, t)
    ensures Shape(Do(s, t, parange), parange)
  {
  }

  lemma StepKeepsCounters(s: State, t: Step, parange: seq<nat>, p: nat)
    requires Inv(s, parange, p) && Enabled(s, t)
    ensures Counters(Do(s, t, parange))
  {
    var c, v := Mover(s, t), Next(s, t);
    Moves(s, t, parange);
    CountsEntered(s, t, parange);
    CountsParange(s, t, parange);
    CountsInited(s, t, parange);
    ReachedUpdate(s.at, c, v, ENTERED);
    ReachedUpdate(s.at, c, v, COUNTED);
    ReachedUpdate(s.at, c, v, INITED);
  }

  lemma NextIsForward(s: State, t: Step)
    requires |s.at| == |s.saw| == |s.primary| && Enabled(s, t)
    ensures Next(s, t) >= s.at[Mover(s, t)]
  {
  }

  lemma OnlyForward(s: State, t: Step, parange: seq<nat>, stage: nat)
    requires Shape(s, parange) && Enabled(s, t)
    ensures forall c | 0 <= c < |s.at| && c != Mover(s, t) :: Do(s, t, parange).at[c] == s.at[c]
    ensures All(s, stage) ==> All(Do(s, t, parange), stage)
  {
    Moves(s, t, parange);
    NextIsForward(s, t);
  }

  /** A step past a barrier finds everybody there. */
  lemma Crosses(s: State, t: Step, parange: seq<nat>, c: nat)
    requires Shape(s, parange) && Counters(s) && Enabled(s, t) && c < |s.at|
    ensures var v := Do(s, t, parange).at[c];
            && (v >= ALL_ENTERED ==> s.at[c] >= ALL_ENTERED || All(s, ENTERED))
            && (v >= ALL_COUNTED ==> s.at[c] >= ALL_COUNTED || All(s, COUNTED))
            && (v >= ALL_INITED ==> s.at[c] >= ALL_INITED || All(s, INITED))
  {
    Moves(s, t, parange);
    if c == Mover(s, t) { CrossesAt(s, t); }
  }

  lemma CrossesAt(s: State, t: Step)
    requires |s.at| == |s.saw| == |s.primary| && Counters(s) && Enabled(s, t)
    ensures var was, v := s.at[Mover(s, t)], Next(s, t);
            && (v >= ALL_ENTERED ==> was >= ALL_ENTERED || All(s, ENTERED))
            && (v >= ALL_COUNTED ==> was >= ALL_COUNTED || All(s, COUNTED))
            && (v >= ALL_INITED ==> was >= ALL_INITED || All(s, INITED))
  {
    if t.PassEntered? { ReachedAll(s.at, ENTERED); }
    if t.PassParange? { ReachedAll(s.at, COUNTED); }
    if t.PassInited? { ReachedAll(s.at, INITED); }
  }

  lemma StepKeepsBarrier(s: State, t: Step, parange: seq<nat>, p: nat, c: nat)
    requires Inv(s, parange, p) && Enabled(s, t) && c < |s.at|
    ensures Barrier(Do(s, t, parange), c)
  {
    assert Barrier(s, c);
    Crosses(s, t, parange, c);
    OnlyForward(s, t, parange, ENTERED);
    OnlyForward(s, t, parange, COUNTED);
    OnlyForward(s, t, parange, INITED);
  }

  lemma StepKeepsPrimary(s: State, t: Step, parange: seq<nat>, p: nat)
    requires Inv(s, parange, p) && Enabled(s, t)
    ensures Primary(Do(s, t, parange), p)
  {
    if t.cpu != p { assert Secondary(s, p, t.cpu); }
  }

  lemma StepKeepsStarted(s: State, t: Step, parange: seq<nat>, p: nat)
    requires Inv(s, parange, p) && Enabled(s, t)
    ensures Started(Do(s, t, parange), p)
  {
    Moves(s, t, parange);
    NextIsForward(s, t);
    WakesInOrder(s, t, parange);
  }

  /** What a step does to the wake-up counter, and when a CPU passes the loop. */
  lemma WakesInOrder(s: State, t: Step, parange: seq<nat>)
    requires Shape(s, parange) && Enabled(s, t)
    ensures Do(s, t, parange).woken == s.woken + (if t.StartNext? then 1 else 0)
    ensures t.StartNext? ==> s.woken < |s.at| && s.primary[t.cpu] && s.at[t.cpu] == CREATED
    ensures !t.StartNext? ==> 0 < s.at[t.cpu] < Next(s, t) <= RUNNING
    ensures !t.StartNext? && s.at[t.cpu] < WOKEN <= Next(s, t) && s.primary[t.cpu] ==> s.woken >= |s.at|
    ensures !t.StartNext? && s.at[t.cpu] < WOKEN <= Next(s, t) ==> s.at[t.cpu] == CREATED
  {
  }

  lemma StepKeepsSecondary(s: State, t: Step, parange: seq<nat>, p: nat, c: nat)
    requires Inv(s, parange, p) && Enabled(s, t) && c < |s.at| && c != p
    ensures Secondary(Do(s, t, parange), p, c)
  {
    assert Secondary(s, p, c);
    if t.cpu == c {
      SecondaryMoves(s, t, parange, p);
    } else if t.cpu == p {
      PrimaryMoves(s, t, parange, p, c);
    } else {
      assert Secondary(s, p, t.cpu);
    }
  }

  lemma SecondaryMoves(s: State, t: Step, parange: seq<nat>, p: nat)
    requires Inv(s, parange, p) && Enabled(s, t) && t.cpu != p
    ensures Secondary(Do(s, t, parange), p, t.cpu)
  {
    assert Secondary(s, p, t.cpu);
  }

  lemma PrimaryMoves(s: State, t: Step, parange: seq<nat>, p: nat, c: nat)
    requires Inv(s, parange, p) && Enabled(s, t) && t.cpu == p && c < |s.at| && c != p
    ensures Secondary(Do(s, t, parange), p, c)
  {
    assert Secondary(s, p, c);
  }

  lemma LowerMinimum(s: State, c: nat, parange: seq<nat>)
    requires Shape(s, parange) && Minimum(s, parange) && Enabled(s, LowerMin(c))
    ensures Minimum(Do(s, LowerMin(c), parange), parange)
  {
    var s' := Do(s, LowerMin(c), parange);
    if s'.minParange < 7 {
      if s'.minParange == parange[c] {
        assert s'.at[c] >= LOWERED;
      } else {
        var d :| 0 <= d < |s.at| && s.at[d] >= LOWERED && s.minParange == parange[d];
        assert s'.at[d] >= LOWERED;
      }
    }
  }

  lemma SameMinimum(s: State, s': State, parange: seq<nat>)
    requires Shape(s, parange) && Minimum(s, parange) && |s'.at| == |s.at| && s'.minParange == s.minParange
    requires forall c | 0 <= c < |s.at| :: s'.at[c] >= LOWERED <==> s.at[c] >= LOWERED
    ensures Minimum(s', parange)
  {
  }

  lemma StepKeepsMinimum(s: State, t: Step, parange: seq<nat>, p: nat)
    requires Inv(s, parange, p) && Enabled(s, t)
    ensures Minimum(Do(s, t, parange), parange)
  {
    if t.LowerMin? {
      LowerMinimum(s, t.cpu, parange);
    } else {
      OnlyForward(s, t, parange, LOWERED);
      SameMinimum(s, Do(s, t, parange), parange);
    }
  }

  /** Every step of every CPU keeps the invariant. */
  lemma StepKeepsInv(s: State, t: Step, parange: seq<nat>, p: nat)
    requires Inv(s, parange, p) && Enabled(s, t)
    ensures Inv(Do(s, t, parange), parange, p)
  {
    StepKeepsShape(s, t, parange);
    StepKeepsCounters(s, t, parange, p);
    StepKeepsPrimary(s, t, parange, p);
    StepKeepsStarted(s, t, parange, p);
    StepKeepsMinimum(s, t, parange, p);
    StepKeepsCpus(s, t, parange, p, Do(s, t, parange));
  }

  lemma StepKeepsCpus(s: State, t: Step, parange: seq<nat>, p: nat, s': State)
    requires Inv(s, parange, p) && Enabled(s, t) && s' == Do(s, t, parange) && Shape(s', parange)
    ensures forall c {:trigger Barrier(s', c)} | 0 <= c < |s'.at| :: Barrier(s', c)
    ensures forall c {:trigger Secondary(s', p, c)} | 0 <= c < |s'.at| && c != p :: Secondary(s', p, c)
  {
    forall c | 0 <= c < |s'.at| ensures Barrier(s', c) { StepKeepsBarrier(s, t, parange, p, c); }
    forall c | 0 <= c < |s'.at| && c != p ensures Secondary(s', p, c) { StepKeepsSecondary(s, t, parange, p, c); }
  }

  // ------------------------------------------------------------ whole runs

  ghost predicate IsRun(ss: seq<State>, ts: seq<Step>, parange: seq<nat>, p: nat) {
    && |ss| == |ts| + 1 && Initial(ss[0], parange, p)
    && forall k | 0 <= k < |ts| ::
         Shape(ss[k], parange) && Enabled(ss[k], ts[k]) && ss[k + 1] == Do(ss[k], ts[k], parange)
  }

  lemma {:induction false} RunKeepsInv(ss: seq<State>, ts: seq<Step>, parange: seq<nat>, p: nat, n: nat)
    requires IsRun(ss, ts, parange, p) && n <= |ts|
    ensures Inv(ss[n], parange, p)
  {
    if n == 0 {
      InitialInv(ss[0], parange, p);
    } else {
      RunKeepsInv(ss, ts, parange, p, n - 1);
      StepKeepsInv(ss[n - 1], ts[n - 1], parange, p);
    }
  }

  /** In every schedule: no per-CPU block is written once the root zone exists, so
      what zone creation stored in the blocks stays; and no CPU runs a VM before
      every CPU is initialised and late initialisation is done. */
  lemma RunIsOrdered(ss: seq<State>, ts: seq<Step>, parange: seq<nat>, p: nat, n: nat)
    requires IsRun(ss, ts, parange, p) && n < |ts|
    ensures ts[n].NewPerCpu? ==> !ss[n].rootMade
    ensures ts[n].RunVm? ==> ss[n].lateOk && ss[n].rootMade && All(ss[n], INITED)
  {
    var s := ss[n];
    RunKeepsInv(ss, ts, parange, p, n);
    assert Barrier(s, p) && Barrier(s, ts[n].cpu);
    if ts[n].cpu != p { assert Secondary(s, p, ts[n].cpu); }
  }

  /** The assertion after the first barrier never fires. */
  lemma RunEntersExactly(ss: seq<State>, ts: seq<Step>, parange: seq<nat>, p: nat, n: nat)
    requires IsRun(ss, ts, parange, p) && n < |ts| && ts[n].PassEntered?
    ensures ss[n].entered == |parange|
  {
    RunKeepsInv(ss, ts, parange, p, n);
    ReachedAll(ss[n].at, ENTERED);
  }

  // --------------------------------------------------------------- progress

  /** A step for a CPU that waits for nobody. */
  predicate Free(stage: nat) {
    stage in {FRESH, LOADED, CLAIMED, WOKEN, ALL_ENTERED, LOWERED, ROOT_MADE, EARLY_DONE, LATE_DONE}
  }

  function FreeStep(stage: nat, c: nat): Step {
    if stage == FRESH then Load(c) else if stage == LOADED then Claim(c) else if stage == CLAIMED then NewPerCpu(c)
    else if stage == WOKEN then Enter(c) else if stage == ALL_ENTERED then LowerMin(c)
    else if stage == LOWERED then CountParange(c) else if stage == ROOT_MADE then StoreEarly(c)
    else if stage == EARLY_DONE then CountInited(c) else RunVm(c)
  }

  /** As long as some CPU is not in its VM, some CPU can take a step. */
  lemma SomeStep(s: State, parange: seq<nat>, p: nat) returns (t: Step)
    requires Inv(s, parange, p) && exists c :: 0 <= c < |s.at| && s.at[c] != RUNNING
    ensures Enabled(s, t)
  {
    if c: nat :| c < |s.at| && Free(s.at[c]) {
      t := FreeStep(s.at[c], c);
    } else if c: nat :| c < |s.at| && s.at[c] == CREATED {
      t := if s.primary[c] && s.woken < |s.at| then StartNext(c) else DoneWaking(c);
    } else {
      t := WaitingStep(s, parange, p);
    }
  }

  /** The CPUs all wait: the one that is furthest behind can go on. */
  lemma WaitingStep(s: State, parange: seq<nat>, p: nat) returns (t: Step)
    requires Inv(s, parange, p) && exists c :: 0 <= c < |s.at| && s.at[c] != RUNNING
    requires forall c | 0 <= c < |s.at| :: !Free(s.at[c]) && s.at[c] != CREATED
    ensures Enabled(s, t)
  {
    assert s.at[p] >= WOKEN;
    assert forall c | 0 <= c < |s.at| :: s.at[c] in {ENTERED, COUNTED, ALL_COUNTED, INITED, ALL_INITED, RUNNING};
    ReachedAll(s.at, ENTERED);
    ReachedAll(s.at, COUNTED);
    ReachedAll(s.at, INITED);
    if s.at[p] == ALL_COUNTED { t := CreateRoot(p); }
    else if s.at[p] == ALL_INITED { t := StoreLate(p); }
    else if c: nat :| c < |s.at| && s.at[c] == ENTERED { t := PassEntered(c); }
    else if c: nat :| c < |s.at| && s.at[c] == COUNTED { t := PassParange(c); }
    else if c: nat :| c < |s.at| && s.at[c] == ALL_COUNTED { assert Secondary(s, p, c); t := SeeEarly(c); }
    else if c: nat :| c < |s.at| && s.at[c] == INITED { t := PassInited(c); }
    else {
      var c: nat :| c < |s.at| && s.at[c] != RUNNING;
      assert Secondary(s, p, c);
      t := SeeLate(c);
    }
  }

  ghost function Total(at: seq<nat>): nat { if at == [] then 0 else at[0] + Total(at[1..]) }

  lemma {:induction false} TotalUpdate(at: seq<nat>, c: nat, v: nat)
    requires c < |at|
    ensures Total(at[c := v]) == Total(at) - at[c] + v
  {
    if c == 0 {
      assert at[0 := v][1..] == at[1..];
    } else {
      assert at[c := v][1..] == at[1..][c - 1 := v];
      TotalUpdate(at[1..], c - 1, v);
    }
  }

  lemma {:induction false} TotalBound(at: seq<nat>)
    requires forall c | 0 <= c < |at| :: at[c] <= RUNNING
    ensures Total(at) <= RUNNING * |at|
  {
    if at != [] { TotalBound(at[1..]); }
  }

  lemma StepAdvances(s: State, t: Step, parange: seq<nat>)
    requires Shape(s, parange) && Enabled(s, t)
    ensures var s' := Do(s, t, parange); Total(s'.at) + s'.woken >= Total(s.at) + s.woken + 1
  {
    Moves(s, t, parange);
    NextIsForward(s, t);
    WakesInOrder(s, t, parange);
    TotalUpdate(s.at, Mover(s, t), Next(s, t));
  }

  lemma {:induction false} RunAdvances(ss: seq<State>, ts: seq<Step>, parange: seq<nat>, p: nat, n: nat)
    requires IsRun(ss, ts, parange, p) && n <= |ts|
    ensures Total(ss[n].at) + ss[n].woken >= n
  {
    if n > 0 {
      RunAdvances(ss, ts, parange, p, n - 1);
      StepAdvances(ss[n - 1], ts[n - 1], parange);
    }
  }

  /** The boot always comes to an end: no schedule of `n` CPUs has more than `17 n` steps,
      and one that cannot go on has every CPU in its VM. */
  lemma RunBoots(ss: seq<State>, ts: seq<Step>, parange: seq<nat>, p: nat)
    requires IsRun(ss, ts, parange, p)
    ensures |ts| <= 17 * |parange| && Shape(ss[|ts|], parange)
    ensures (exists t :: Enabled(ss[|ts|], t)) || forall c | 0 <= c < |parange| :: ss[|ts|].at[c] == RUNNING
  {
    var s := ss[|ts|];
    RunKeepsInv(ss, ts, parange, p, |ts|);
    RunAdvances(ss, ts, parange, p, |ts|);
    TotalBound(s.at);
    if c :| 0 <= c < |parange| && s.at[c] != RUNNING { var t := SomeStep(s, parange, p); }
  }

  ghost predicate IsMinimum(m: nat, parange: seq<nat>) {
    && m <= 7 && (forall c | 0 <= c < |parange| :: m <= parange[c])
    && (m < 7 ==> exists c :: 0 <= c < |parange| && m == parange[c])
  }

  /** From `setup_parange`'s barrier on, which is where every reader is, the counter
      that `get_parange` asserts is exact and the value read is the minimum over
      all CPUs, capped at 7. */
  lemma RunReadsMinimum(ss: seq<State>, ts: seq<Step>, parange: seq<nat>, p: nat, n: nat, c: nat)
    requires IsRun(ss, ts, parange, p) && n <= |ts| && c < |parange| && |ss[n].at| == |parange|
    requires ss[n].at[c] >= ALL_COUNTED
    ensures ss[n].parangeOk == |parange| && IsMinimum(ss[n].minParange, parange)
  {
    var s := ss[n];
    RunKeepsInv(ss, ts, parange, p, n);
    assert Barrier(s, c);
    ReachedAll(s.at, COUNTED);
  }

  /** `get_parange_bits` stays inside its table exactly when some CPU reports a
      range below 6. */
  lemma TableInBounds(m: nat, parange: seq<nat>)
    requires IsMinimum(m, parange)
    ensures m < |PARANGE_TABLE| <==> exists c :: 0 <= c < |parange| && parange[c] < 6
  {
    if m < 6 {
      var c :| 0 <= c < |parange| && m == parange[c];
      assert parange[c] < 6;
    }
  }

  /** `new_s2_memory_set`: three levels below 44 bits. */
  function PtLevels(m: nat): nat
    requires m < |PARANGE_TABLE|
  {
    if PARANGE_TABLE[m] < 44 then 3 else 4
  }

  /** The ranges 0 to 5 stand for 32, 36, 40, 42, 44 and 48 bits; the first four get three
      levels. */
  lemma LevelsByRange(m: nat)
    requires m < |PARANGE_TABLE|
    ensures PARANGE_TABLE[m] == (if m < 3 then 32 + 4 * m else if m < 5 then 36 + 2 * m else 48)
    ensures PtLevels(m) == if m < 4 then 3 else 4
  {
  }
}
