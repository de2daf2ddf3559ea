/** Virtual interrupt injection through the GIC list registers. */
module ListRegisters {
  import opened Bits

  const LR_VIRTIRQ_MASK: nat := 0xffff_ffff
  const GROUP1: nat := 0x1000_0000_0000_0000
  const HARDWARE: nat := 0x2000_0000_0000_0000
  const PENDING: nat := 0x4000_0000_0000_0000

  predicate IsSgi(irq: nat) { irq < 16 }

  function VIntId(lr: nat): nat { BitAnd(lr, LR_VIRTIRQ_MASK) }

  /** The state field, bits 62 and 63, is not "inactive". */
  predicate Occupied(lr: nat) { Shr(lr, 62) % 4 != 0 }

  function NewLr(irq: nat, hardware: bool): nat {
    var val := BitOr(BitOr(irq, GROUP1), PENDING);
    if !IsSgi(irq) && hardware then BitOr(BitOr(val, HARDWARE), Shl(irq, 32)) else val
  }

  /** Every bit of a fresh list register. */
  lemma NewLrBits(irq: nat, hardware: bool, j: nat)
    requires irq < U32_LIMIT
    ensures Bit(NewLr(irq, hardware), j) <==>
            (j < 32 && Bit(irq, j)) || j == 60 || j == 62
            || (hardware && irq >= 16 && (j == 61 || (j >= 32 && Bit(irq, j - 32))))
  {
    FieldWords();
    var val := BitOr(BitOr(irq, GROUP1), PENDING);
    BitOfOr(irq, GROUP1, j);
    BitOfOr(BitOr(irq, GROUP1), PENDING, j);
    OneBit(60, j); OneBit(61, j); OneBit(62, j);
    if j >= 32 { BitOfSmall(irq, 32, j); }
    BitOfOr(val, HARDWARE, j);
    BitOfOr(BitOr(val, HARDWARE), Shl(irq, 32), j);
    BitOfShl(irq, 32, j);
  }

  lemma FieldWords()
    ensures Pow2(32) == U32_LIMIT && Pow2(60) == GROUP1 && Pow2(61) == HARDWARE && Pow2(62) == PENDING
  {
    Pow2At32();
    Pow2At64();
  }

  /** A fresh list register carries the interrupt id; it is in group 1, pending and not
      active; it is tied to hardware exactly for a hardware interrupt that is no SGI. */
  lemma NewLrMeans(irq: nat, hardware: bool)
    requires irq < U32_LIMIT
    ensures VIntId(NewLr(irq, hardware)) == irq && Occupied(NewLr(irq, hardware))
    ensures irq < 1024 ==> FreshFields(NewLr(irq, hardware), irq, hardware)
  {
    var lr := NewLr(irq, hardware);
    FieldWords();
    forall j: nat ensures Bit(Low(lr, 32), j) <==> Bit(irq, j) {
      BitOfLow(lr, 32, j);
      NewLrBits(irq, hardware, j);
      if j >= 32 { BitOfSmall(irq, 32, j); }
    }
    SameBits(Low(lr, 32), irq);
    AndLow(lr, 32);
    NewLrBits(irq, hardware, 62);
    OccupiedMeans(lr);
    if irq < 1024 { FreshFieldsHold(irq, hardware); }
  }

  /** Group 1, pending, not active; the hardware bit, and the physical id in bits 32 to
      59, exactly for a hardware interrupt from 16 on. */
  ghost predicate FreshFields(lr: nat, irq: nat, hardware: bool) {
    && Bit(lr, 60) && Bit(lr, 62) && !Bit(lr, 63) && (Bit(lr, 61) <==> hardware && irq >= 16)
    && Shr(lr, 32) % 0x1000_0000 == if hardware && irq >= 16 then irq else 0
  }

  lemma FreshFieldsHold(irq: nat, hardware: bool)
    requires irq < 1024
    ensures FreshFields(NewLr(irq, hardware), irq, hardware)
  {
    var lr, id := NewLr(irq, hardware), if hardware && irq >= 16 then irq else 0;
    assert Pow2(10) == 1024 && Pow2(14) == 0x4000;
    assert Pow2(28) == 0x1000_0000;
    NewLrBits(irq, hardware, 60); NewLrBits(irq, hardware, 61); NewLrBits(irq, hardware, 62); NewLrBits(irq, hardware, 63);
    BitOfSmall(irq, 10, 28); BitOfSmall(irq, 10, 29); BitOfSmall(irq, 10, 30); BitOfSmall(irq, 10, 31);
    forall j: nat ensures Bit(Low(Shr(lr, 32), 28), j) <==> Bit(id, j) {
      BitOfLow(Shr(lr, 32), 28, j);
      ShrShr(lr, 32, j);
      NewLrBits(irq, hardware, 32 + j);
      BitOfZero(j);
      if j >= 28 { BitOfSmall(irq, 10, j); }
    }
    SameBits(Low(Shr(lr, 32), 28), id);
    LowShr(Shr(lr, 32), 28);
    ShlMul(Shr(Shr(lr, 32), 28), 28);
    Remainder(Shr(lr, 32), 0x1000_0000, Shr(Shr(lr, 32), 28), Low(Shr(lr, 32), 28));
  }

  /** Occupied is pending or active. */
  lemma OccupiedMeans(lr: nat)
    ensures Occupied(lr) <==> Bit(lr, 62) || Bit(lr, 63)
  {
    ShrShr(lr, 62, 1);
  }

  // ------------------------------------------------------------- the bank

  /** `(vtr & 0xf) + 1` list registers are implemented. */
  function Implemented(vtr: nat): (n: nat)
  {
    BitAnd(vtr, 0xf) + 1
  }

  lemma ImplementedRange(vtr: nat)
    ensures Implemented(vtr) == vtr % 16 + 1 && 1 <= Implemented(vtr) <= 16
  {
    assert Pow2(4) == 16;
    AndMask(vtr, 0xf, 4);
  }

  /** Bit `i` of `ich_elrsr_el2`: list register `i` is empty. */
  predicate Empty(elsr: nat, i: nat) { BitAnd(Pow2(i), elsr) > 0 }

  ghost predicate Reports(elsr: nat, lrs: seq<nat>) {
    forall i {:trigger Empty(elsr, i)} | 0 <= i < |lrs| :: Empty(elsr, i) <==> !Occupied(lrs[i])
  }

  ghost predicate Holds(lrs: seq<nat>, n: nat, irq: nat)
    requires n <= |lrs|
  {
    exists i :: 0 <= i < n && Occupied(lrs[i]) && VIntId(lrs[i]) == irq
  }

  /** No two occupied registers carry the same interrupt. */
  ghost predicate NoTwins(lrs: seq<nat>, n: nat)
    requires n <= |lrs|
  {
    forall i, j | 0 <= i < j < n && Occupied(lrs[i]) && Occupied(lrs[j]) :: VIntId(lrs[i]) != VIntId(lrs[j])
  }

  datatype Injected = AlreadyThere | Written(index: nat) | FullLr

  /** What an injection does to the first `n` registers. */
  ghost predicate Injects(lrs: seq<nat>, lrs': seq<nat>, n: nat, irq: nat, hardware: bool, res: Injected)
    requires n <= |lrs|
  {
    match res
    case AlreadyThere => lrs' == lrs && Holds(lrs, n, irq)
    case Written(f) =>
      && f < n && !Occupied(lrs[f]) && (forall i | 0 <= i < f :: Occupied(lrs[i]))
      && lrs' == lrs[f := NewLr(irq, hardware)] && !Holds(lrs, n, irq)
      && VIntId(lrs'[f]) == irq && (irq < 1024 ==> FreshFields(lrs'[f], irq, hardware))
    case FullLr => lrs' == lrs && !Holds(lrs, n, irq) && forall i | 0 <= i < n :: Occupied(lrs[i])
  }

  class Bank {
    var lrs: array<nat>

    ghost predicate Valid()
      reads this, lrs
    {
      lrs.Length == 16
    }

    constructor ()
      ensures Valid() && fresh(lrs) && forall i | 0 <= i < 16 :: !Occupied(lrs[i])
    {
      lrs := new nat[16](_ => 0);
      new;
      LowOfSmall(0, 62);
    }

    /** `inject_irq`; `FullLr` is the panic. */
    method InjectIrq(irq: nat, hardware: bool, elsr: nat, vtr: nat) returns (res: Injected)
      requires Valid() && irq < U32_LIMIT && Reports(elsr, lrs[..])
      modifies lrs
      ensures Valid() && Implemented(vtr) <= 16
      ensures Injects(old(lrs[..]), lrs[..], Implemented(vtr), irq, hardware, res)
    {
      ImplementedRange(vtr);
      var n := Implemented(vtr);
      var free: int := -1;
      var i := 0;
      while i < n
        invariant i <= n
        invariant -1 <= free < i && (free >= 0 ==> !Occupied(lrs[free]))
        invariant forall j | 0 <= j < i && !Occupied(lrs[j]) :: 0 <= free <= j
        invariant forall j | 0 <= j < i && Occupied(lrs[j]) :: VIntId(lrs[j]) != irq
      {
        assert Empty(elsr, i) <==> !Occupied(lrs[..][i]);
        if Empty(elsr, i) {
          if free == -1 {
            free := i;
          }
        } else if VIntId(lrs[i]) == irq {
          assert Holds(lrs[..], n, irq) by { assert Occupied(lrs[..][i]); }
          return AlreadyThere;
        }
        i := i + 1;
      }
      if free == -1 {
        return FullLr;
      }
      NewLrMeans(irq, hardware);
      lrs[free] := NewLr(irq, hardware);
      res := Written(free);
    }
  }

  // ------------------------------------------------------------ whole runs

  /** An injection, or the guest's side: activating a register keeps its
      interrupt, deactivating frees it. */
  datatype Step = Inject(irq: nat, hardware: bool, res: Injected) | Activate(index: nat) | Deactivate(index: nat)

  ghost predicate Next(lrs: seq<nat>, t: Step, lrs': seq<nat>, n: nat)
    requires n <= |lrs|
  {
    match t
    case Inject(irq, hw, res) => irq < U32_LIMIT && Injects(lrs, lrs', n, irq, hw, res)
    case Activate(i) =>
      i < n && Occupied(lrs[i]) && exists w :: Occupied(w) && VIntId(w) == VIntId(lrs[i]) && lrs' == lrs[i := w]
    case Deactivate(i) => i < n && Occupied(lrs[i]) && exists w :: !Occupied(w) && lrs' == lrs[i := w]
  }

  lemma NextKeepsNoTwins(lrs: seq<nat>, t: Step, lrs': seq<nat>, n: nat)
    requires n <= |lrs| && NoTwins(lrs, n) && Next(lrs, t, lrs', n)
    ensures n <= |lrs'| && NoTwins(lrs', n)
  {
    if t.Inject? { NewLrMeans(t.irq, t.hardware); }
  }

  ghost predicate IsRun(ls: seq<seq<nat>>, ts: seq<Step>, n: nat) {
    && |ls| == |ts| + 1 && n <= |ls[0]| && (forall i | 0 <= i < n :: !Occupied(ls[0][i]))
    && (forall k | 0 <= k < |ls| :: |ls[k]| == |ls[0]|)
    && forall k | 0 <= k < |ts| :: Next(ls[k], ts[k], ls[k + 1], n)
  }

  /** Over every run of injections and guest completions no two occupied
      registers hold the same virtual interrupt; one injection writes at most
      one register, which was free and is implemented. */
  lemma {:induction false} RunHasNoTwins(ls: seq<seq<nat>>, ts: seq<Step>, n: nat, k: nat)
    requires IsRun(ls, ts, n) && k < |ls|
    ensures n <= |ls[k]| && NoTwins(ls[k], n)
    ensures k < |ts| && ts[k].Inject? ==>
              forall i, j | 0 <= i < |ls[k]| && 0 <= j < |ls[k]| && ls[k + 1][i] != ls[k][i] && ls[k + 1][j] != ls[k][j] ::
                i == j && i < n && !Occupied(ls[k][i])
  {
    if k > 0 {
      RunHasNoTwins(ls, ts, n, k - 1);
      NextKeepsNoTwins(ls[k - 1], ts[k - 1], ls[k], n);
    }
  }
}
