/** The distributor filter: which interrupts of a register a zone may touch, and
    what a filtered access does to the distributor. */
module Vgic {
  import opened Bits
  import opened Options

  const GICD_CTLR: nat := 0x0000
  const GICD_TYPER: nat := 0x0004
  const GICD_IIDR: nat := 0x0008
  const GICD_IGROUPR: nat := 0x0080
  const GICD_ISENABLER: nat := 0x0100
  const GICD_ICENABLER: nat := 0x0180
  const GICD_ISPENDR: nat := 0x0200
  const GICD_ICPENDR: nat := 0x0280
  const GICD_ISACTIVER: nat := 0x0300
  const GICD_ICACTIVER: nat := 0x0380
  const GICD_IPRIORITYR: nat := 0x0400
  const GICD_ITARGETSR: nat := 0x0800
  const GICD_ICFGR: nat := 0x0c00
  const GICD_IROUTER: nat := 0x6000
  const GICDV3_PIDR4: nat := 0xffd0
  const GICDV3_PIDR0: nat := 0xffe0
  const GICDV3_CIDR0: nat := 0xfff0

  // ------------------------------------------------------ the zone's bitmap

  type Bitmap = seq<nat>

  predicate BitmapOk(bitmap: Bitmap) {
    |bitmap| == 32 && forall i | 0 <= i < 32 :: bitmap[i] < U32_LIMIT
  }

  /** `irq_in_zone`; the index is in bounds below 1024. */
  predicate IrqInZone(bitmap: Bitmap, irq: nat)
    requires |bitmap| == 32 && irq < 1024
  {
    BitAnd(bitmap[irq / 32], Pow2(irq % 32)) != 0
  }

  ghost predicate Owned(bitmap: Bitmap, irq: nat) {
    |bitmap| == 32 && irq < 1024 && Bit(bitmap[irq / 32], irq % 32)
  }

  lemma InZoneIsOwned(bitmap: Bitmap, irq: nat)
    requires |bitmap| == 32 && irq < 1024
    ensures IrqInZone(bitmap, irq) <==> Owned(bitmap, irq)
  {
    TestBit(bitmap[irq / 32], irq % 32);
  }

  /** Setting the bit of one interrupt owns that one more. */
  lemma InsertOwns(bitmap: Bitmap, irq: nat, i: nat)
    requires BitmapOk(bitmap) && irq < 1024 && i < 1024
    ensures var bitmap' := bitmap[irq / 32 := BitOr(bitmap[irq / 32], Pow2(irq % 32))];
            Owned(bitmap', i) <==> i == irq || Owned(bitmap, i)
  {
    ShlMul(1, irq % 32);
    BitOfOr(bitmap[irq / 32], Pow2(irq % 32), i % 32);
    OneBit(irq % 32, i % 32);
  }

  lemma OrBelow(x: nat, y: nat, k: nat)
    requires x < Pow2(k) && y < Pow2(k)
    ensures BitOr(x, y) < Pow2(k)
  {
    LowOfSmall(x, k);
    LowOfSmall(y, k);
    OrLow(x, y, k);
    LowShr(BitOr(x, y), k);
    OrShr(x, y, k);
    ShlMul(0, k);
  }

  lemma {:induction false} Pow2Grows(j: nat, k: nat)
    requires j < k
    ensures Pow2(j) < Pow2(k)
  {
    if j + 1 < k { Pow2Grows(j, k - 1); }
  }

  /** `irq_bitmap_init` on a fresh zone; false is the assertion on an interrupt
      of 1024 or more. */
  method IrqBitmapInit(irqs: seq<nat>) returns (ok: bool, bitmap: Bitmap)
    ensures ok <==> forall i | 0 <= i < |irqs| :: irqs[i] < 1024
    ensures BitmapOk(bitmap)
    ensures ok ==> forall i: nat :: Owned(bitmap, i) <==> i in irqs
  {
    bitmap := seq(32, _ => 0);
    var n := 0;
    ghost var done: seq<nat> := [];
    forall i: nat ensures !Owned(bitmap, i) { BitOfZero(i % 32); }
    while n < |irqs|
      invariant n <= |irqs| && done == irqs[..n] && BitmapOk(bitmap)
      invariant forall i | 0 <= i < n :: irqs[i] < 1024
      invariant forall i: nat :: Owned(bitmap, i) <==> i in done
    {
      var irq := irqs[n];
      if !(irq < 1024) {
        return false, bitmap;
      }
      ghost var before := bitmap;
      var word := BitOr(bitmap[irq / 32], Pow2(irq % 32));
      Pow2At32();
      Pow2Grows(irq % 32, 32);
      OrBelow(bitmap[irq / 32], Pow2(irq % 32), 32);
      bitmap := bitmap[irq / 32 := word];
      forall i: nat ensures Owned(bitmap, i) <==> i == irq || Owned(before, i) {
        if i < 1024 { InsertOwns(before, irq, i); }
      }
      n, done := n + 1, done + [irq];
    }
    assert done == irqs;
    return true, bitmap;
  }

  // -------------------------------------------------------------- the mask

  predicate FieldWidth(bits: nat) { bits == 1 || bits == 2 || bits == 8 }

  /** The interrupt that bit `j` of register `index` belongs to. */
  function IrqAt(index: nat, bits: nat, j: nat): nat
    requires FieldWidth(bits)
  {
    index * (32 / bits) + j / bits
  }

  /** The mask covers the owned interrupts among the first `k` of the register. */
  ghost predicate Masks(mask: nat, bitmap: Bitmap, index: nat, bits: nat, k: nat)
    requires FieldWidth(bits)
  {
    forall j: nat :: Bit(mask, j) <==> j / bits < k && Owned(bitmap, IrqAt(index, bits, j))
  }

  lemma MaskStep(mask: nat, bitmap: Bitmap, index: nat, bits: nat, k: nat, next: nat)
    requires FieldWidth(bits) && Masks(mask, bitmap, index, bits, k) && next == k + 1
    ensures Owned(bitmap, index * (32 / bits) + k) ==>
              Masks(BitOr(mask, Shl(Pow2(bits) - 1, k * bits)), bitmap, index, bits, next)
    ensures !Owned(bitmap, index * (32 / bits) + k) ==> Masks(mask, bitmap, index, bits, next)
  {
    var mask' := BitOr(mask, Shl(Pow2(bits) - 1, k * bits));
    forall j: nat ensures Bit(mask', j) <==> Bit(mask, j) || j / bits == k {
      BitOfOr(mask, Shl(Pow2(bits) - 1, k * bits), j);
      BitOfOnes(bits, k * bits, j);
      FieldOf(bits, k, j);
    }
  }

  /** The mask-building loop of `restrict_bitmask_access`. */
  method AccessMask(bitmap: Bitmap, index: nat, bits: nat) returns (mask: nat)
    requires |bitmap| == 32 && FieldWidth(bits) && (index + 1) * (32 / bits) <= 1024
    ensures forall j: nat :: Bit(mask, j) <==> j < 32 && Owned(bitmap, IrqAt(index, bits, j))
  {
    mask := 0;
    var perReg := 32 / bits;
    var first := index * perReg;
    EmptyMask(bitmap, index, bits);
    var k := 0;
    while k < perReg
      invariant k <= perReg && Masks(mask, bitmap, index, bits, k)
    {
      var irq, next := first + k, k + 1;
      RegisterInBounds(index, bits, k);
      InZoneIsOwned(bitmap, irq);
      MaskStep(mask, bitmap, index, bits, k, next);
      if IrqInZone(bitmap, irq) {
        mask := BitOr(mask, Shl(Pow2(bits) - 1, k * bits));
      }
      k := next;
    }
    WholeMask(mask, bitmap, index, bits);
  }

  lemma EmptyMask(bitmap: Bitmap, index: nat, bits: nat)
    requires FieldWidth(bits)
    ensures Masks(0, bitmap, index, bits, 0)
  {
    forall j: nat ensures !Bit(0, j) { BitOfZero(j); }
  }

  lemma WholeMask(mask: nat, bitmap: Bitmap, index: nat, bits: nat)
    requires FieldWidth(bits) && Masks(mask, bitmap, index, bits, 32 / bits)
    ensures forall j: nat :: Bit(mask, j) <==> j < 32 && Owned(bitmap, IrqAt(index, bits, j))
  {
    forall j: nat ensures Bit(mask, j) <==> j < 32 && Owned(bitmap, IrqAt(index, bits, j)) { WordOf(bits, j); }
  }

  lemma RegisterInBounds(index: nat, bits: nat, k: nat)
    requires FieldWidth(bits) && (index + 1) * (32 / bits) <= 1024 && k < 32 / bits
    ensures index * (32 / bits) + k < 1024
  {
  }

  lemma FieldOf(bits: nat, k: nat, j: nat)
    requires FieldWidth(bits)
    ensures k * bits <= j < k * bits + bits <==> j / bits == k
  {
  }

  lemma WordOf(bits: nat, j: nat)
    requires FieldWidth(bits)
    ensures j / bits < 32 / bits <==> j < 32
  {
  }

  // -------------------------------------------------------------- dispatch

  /** `reg_range(base, n, size).contains(&reg)`. */
  predicate InRange(base: nat, n: nat, size: nat, reg: nat)
    requires n > 0
  {
    base <= reg < base + (n - 1) * size
  }

  datatype Route = IrqRegister(irq: nat) | Bitmask(index: nat, bits: nat, poke: bool) | Misc

  /** The branches of `vgicv3_dist_handler`, in order. */
  function Dispatch(reg: nat): Route {
    if InRange(GICD_IROUTER, 1024, 8, reg) then IrqRegister((reg - GICD_IROUTER) / 8)
    else if InRange(GICD_ITARGETSR, 1024, 1, reg) then IrqRegister(reg - GICD_ITARGETSR)
    else if InRange(GICD_ICENABLER, 32, 4, reg) || InRange(GICD_ISENABLER, 32, 4, reg)
            || InRange(GICD_ICPENDR, 32, 4, reg) || InRange(GICD_ISPENDR, 32, 4, reg)
            || InRange(GICD_ICACTIVER, 32, 4, reg) || InRange(GICD_ISACTIVER, 32, 4, reg)
    then Bitmask(BitAnd(reg, 0x7f) / 4, 1, true)
    else if InRange(GICD_IGROUPR, 32, 4, reg) then Bitmask(BitAnd(reg, 0x7f) / 4, 1, false)
    else if InRange(GICD_ICFGR, 64, 4, reg) then Bitmask(BitAnd(reg, 0xff) / 4, 2, false)
    else if InRange(GICD_IPRIORITYR, 255, 4, reg) then Bitmask(BitAnd(reg, 0x3ff) / 4, 8, false)
    else Misc
  }

  predicate MiscAllowed(reg: nat) {
    || InRange(GICDV3_PIDR0, 4, 4, reg) || InRange(GICDV3_PIDR4, 4, 4, reg) || InRange(GICDV3_CIDR0, 4, 4, reg)
    || reg == GICD_CTLR || reg == GICD_TYPER || reg == GICD_IIDR
  }

  // ------------------------- the distributor (section 12.9 of Arm IHI 0069)

  datatype Bank = Group | Enable | Pend | Active | Priority | Config

  datatype Effect = Replace | SetBits | ClearBits

  datatype Reg = Reg(bank: Bank, index: nat)

  datatype Place = Place(reg: Reg, effect: Effect)

  function BitsPer(bank: Bank): nat {
    match bank case Config => 2 case Priority => 8 case _ => 1
  }

  /** The 32-bit registers of a bank. */
  function Count(bank: Bank): nat {
    match bank case Config => 64 case Priority => 255 case _ => 32
  }

  function At(bank: Bank, base: nat, effect: Effect, reg: nat): Option<Place> {
    if base <= reg < base + Count(bank) * 4 then Some(Place(Reg(bank, (reg - base) / 4), effect)) else None
  }

  function OrElse<T>(a: Option<T>, b: Option<T>): Option<T> { if a.Some? then a else b }

  /** The bitmask register at an address, by its architectural layout. */
  function Locate(reg: nat): Option<Place> {
    OrElse(At(Group, GICD_IGROUPR, Replace, reg),
    OrElse(At(Enable, GICD_ISENABLER, SetBits, reg),
    OrElse(At(Enable, GICD_ICENABLER, ClearBits, reg),
    OrElse(At(Pend, GICD_ISPENDR, SetBits, reg),
    OrElse(At(Pend, GICD_ICPENDR, ClearBits, reg),
    OrElse(At(Active, GICD_ISACTIVER, SetBits, reg),
    OrElse(At(Active, GICD_ICACTIVER, ClearBits, reg),
    OrElse(At(Priority, GICD_IPRIORITYR, Replace, reg),
           At(Config, GICD_ICFGR, Replace, reg)))))))))
  }

  lemma LowBits(reg: nat)
    ensures BitAnd(reg, 0x7f) == reg % 0x80 && BitAnd(reg, 0xff) == reg % 0x100 && BitAnd(reg, 0x3ff) == reg % 0x400
  {
    assert Pow2(7) == 0x80 && Pow2(8) == 0x100 && Pow2(10) == 0x400;
    AndMask(reg, 0x7f, 7);
    AndMask(reg, 0xff, 8);
    AndMask(reg, 0x3ff, 10);
  }

  /** The mask covers the interrupts of the register at `reg`. */
  ghost predicate Agrees(d: Route, reg: nat) {
    && d.Bitmask? && FieldWidth(d.bits) && (d.index + 1) * (32 / d.bits) <= 1024
    && Locate(reg).Some? && Locate(reg).value.reg.index == d.index
    && BitsPer(Locate(reg).value.reg.bank) == d.bits
    && (d.poke <==> Locate(reg).value.effect != Replace)
  }

  lemma OneBitAgrees(reg: nat, poke: bool)
    requires if poke then 0x100 <= reg < 0x400 else 0x80 <= reg < 0x100
    ensures Agrees(Bitmask(reg % 0x80 / 4, 1, poke), reg)
  {
    var q := reg / 0x80;
    var base := q * 0x80;
    assert 1 <= q <= 7;
    BankAt(reg, q, base);
  }

  lemma BankAt(reg: nat, q: nat, base: nat)
    requires 1 <= q <= 7 && base == q * 0x80 && base <= reg < base + 0x80
    ensures Locate(reg).Some? && Locate(reg).value.reg.index == (reg - base) / 4
    ensures BitsPer(Locate(reg).value.reg.bank) == 1 && (Locate(reg).value.effect == Replace <==> q == 1)
  {
    if q == 1 { assert base == GICD_IGROUPR; }
    else if q == 2 { assert base == GICD_ISENABLER; }
    else if q == 3 { assert base == GICD_ICENABLER; }
    else if q == 4 { assert base == GICD_ISPENDR; }
    else if q == 5 { assert base == GICD_ICPENDR; }
    else if q == 6 { assert base == GICD_ISACTIVER; }
    else { assert base == GICD_ICACTIVER; }
  }

  lemma ConfigAgrees(reg: nat)
    requires 0xc00 <= reg < 0xd00
    ensures Agrees(Bitmask(reg % 0x100 / 4, 2, false), reg)
  {
    Remainder(reg, 0x100, 12, reg - 0xc00);
  }

  lemma PriorityAgrees(reg: nat)
    requires 0x400 <= reg < 0x7fc
    ensures Agrees(Bitmask(reg % 0x400 / 4, 8, false), reg)
  {
    Remainder(reg, 0x400, 1, reg - 0x400);
  }

  /** A dispatched bitmask access reaches the register whose interrupts its mask
      covers, with the right field width and effect, inside the bitmap. */
  lemma DispatchAgrees(reg: nat)
    requires Dispatch(reg).Bitmask?
    ensures Agrees(Dispatch(reg), reg)
  {
    LowBits(reg);
    if reg < 0x400 {
      OneBitAgrees(reg, reg >= 0x100);
    } else if reg < 0x800 {
      PriorityAgrees(reg);
    } else {
      ConfigAgrees(reg);
    }
  }

  /** Exactly the last register of each bank is not dispatched. */
  lemma LastNotDispatched(reg: nat)
    requires Locate(reg).Some?
    ensures Dispatch(reg).Bitmask? <==> Locate(reg).value.reg.index + 1 < Count(Locate(reg).value.reg.bank)
  {
  }

  /** The interrupt that a byte in the block of the route or target registers is for. */
  function ByteOwner(routes: bool, b: nat): int { if routes then (b - GICD_IROUTER) / 8 else b - GICD_ITARGETSR }

  /** An access to routes or targets touches bytes of the one interrupt that was
      checked if and only if it stays inside a route, or is a single target byte. */
  lemma IrqRegisterBytes(reg: nat, size: nat)
    requires Dispatch(reg).IrqRegister? && size > 0
    ensures var routes := reg >= GICD_IROUTER;
            && Dispatch(reg).irq < 1024
            && ((forall b: nat | reg <= b < reg + size :: ByteOwner(routes, b) == Dispatch(reg).irq) <==>
                if routes then (reg - GICD_IROUTER) % 8 + size <= 8 else size == 1)
  {
    var routes := reg >= GICD_IROUTER;
    if routes {
      RouteBytes(reg - GICD_IROUTER, size);
      if (reg - GICD_IROUTER) % 8 + size > 8 {
        var b := reg + (8 - (reg - GICD_IROUTER) % 8);
        assert ByteOwner(routes, b) == Dispatch(reg).irq + 1;
      }
    } else if size > 1 {
      assert ByteOwner(routes, reg + 1) == Dispatch(reg).irq + 1;
    }
  }

  lemma RouteBytes(x: nat, size: nat)
    ensures x % 8 + size <= 8 ==> forall y: nat | x <= y < x + size :: y / 8 == x / 8
    ensures (x + (8 - x % 8)) / 8 == x / 8 + 1
  {
  }

  function Not32(x: nat): nat
    requires x < U32_LIMIT
  {
    U32_LIMIT - 1 - x
  }

  lemma BitOfNot32(x: nat, j: nat)
    requires x < U32_LIMIT && j < 32
    ensures Bit(Not32(x), j) <==> !Bit(x, j)
  {
    Pow2At32();
    BitOfNot(x, 32, j);
  }

  /** What the distributor does with a written word. */
  function Stored(effect: Effect, word: nat, value: nat): nat
    requires value < U32_LIMIT
  {
    match effect
    case Replace => value
    case SetBits => BitOr(word, value)
    case ClearBits => BitAnd(word, Not32(value))
  }

  /** What becomes of one bit when its interrupt is, or is not, the writer's. */
  predicate NewBit(effect: Effect, was: bool, owned: bool, value: bool) {
    if !owned then was else
    match effect
    case Replace => value
    case SetBits => was || value
    case ClearBits => was && !value
  }

  lemma AndBelow(x: nat, y: nat, k: nat)
    requires y < Pow2(k)
    ensures BitAnd(x, y) < Pow2(k)
  {
    AndSplit(x, y, k);
    LowOfSmall(y, k);
    AndStep(Shr(x, k), 0);
    ShlMul(0, k);
    AndAtMost(Low(x, k), Low(y, k));
  }

  lemma {:induction false} AndAtMost(x: nat, y: nat)
    ensures BitAnd(x, y) <= y
    decreases x
  {
    if x != 0 { AndAtMost(x / 2, y / 2); }
  }

  /** The unlocked path: the value is masked before it is written. */
  lemma PokedBit(effect: Effect, word: nat, value: nat, mask: nat, j: nat)
    requires effect != Replace && word < U32_LIMIT && mask < U32_LIMIT && j < 32
    ensures BitAnd(value, mask) < U32_LIMIT
    ensures Bit(Stored(effect, word, BitAnd(value, mask)), j) <==>
            NewBit(effect, Bit(word, j), Bit(mask, j), Bit(value, j))
  {
    Pow2At32();
    AndBelow(value, mask, 32);
    BitOfAnd(value, mask, j);
    var v := BitAnd(value, mask);
    if effect == SetBits {
      BitOfOr(word, v, j);
    } else {
      BitOfAnd(word, Not32(v), j);
      BitOfNot32(v, j);
    }
  }

  /** The word that a locked read-modify-write stores. */
  function Merge(word: nat, value: nat, mask: nat): nat
    requires mask < U64_LIMIT
  {
    BitOr(BitAnd(word, BitNot64(mask)), BitAnd(value, mask))
  }

  lemma MergedBit(word: nat, value: nat, mask: nat, j: nat)
    requires word < U32_LIMIT && mask < U32_LIMIT && j < 32
    ensures Merge(word, value, mask) < U32_LIMIT
    ensures Bit(Merge(word, value, mask), j) <==> if Bit(mask, j) then Bit(value, j) else Bit(word, j)
  {
    Pow2At32();
    Pow2At64();
    AndBelow(value, mask, 32);
    AndBelowLeft(word, BitNot64(mask), 32);
    OrBelow(BitAnd(word, BitNot64(mask)), BitAnd(value, mask), 32);
    BitOfOr(BitAnd(word, BitNot64(mask)), BitAnd(value, mask), j);
    BitOfAnd(word, BitNot64(mask), j);
    BitOfAnd(value, mask, j);
    BitOfNot(mask, 64, j);
  }

  lemma {:induction false} AndCommutes(x: nat, y: nat)
    ensures BitAnd(x, y) == BitAnd(y, x)
    decreases x
  {
    if x != 0 { AndCommutes(x / 2, y / 2); }
  }

  lemma AndBelowLeft(x: nat, y: nat, k: nat)
    requires x < Pow2(k)
    ensures BitAnd(x, y) < Pow2(k)
  {
    AndCommutes(x, y);
    AndBelow(y, x, k);
  }

  // --------------------------------------------------- accesses by byte lanes

  /** What a narrow read shows: `w` bits from bit `s` on. */
  function Lane(word: nat, s: nat, w: nat): nat { Low(Shr(word, s), w) }

  /** A narrow write replaces those bits with the low bits of `v`. */
  function PutLane(word: nat, s: nat, w: nat, v: nat): nat
    decreases s, w
  {
    if s > 0 then word % 2 + 2 * PutLane(word / 2, s - 1, w, v)
    else if w > 0 then v % 2 + 2 * PutLane(word / 2, 0, w - 1, v / 2)
    else word
  }

  lemma BitOfLane(word: nat, s: nat, w: nat, j: nat)
    ensures Bit(Lane(word, s, w), j) <==> j < w && Bit(word, s + j)
  {
    BitOfLow(Shr(word, s), w, j);
    ShrShr(word, s, j);
  }

  lemma {:induction false} BitOfPutLow(word: nat, w: nat, v: nat, j: nat)
    ensures Bit(PutLane(word, 0, w, v), j) <==> if j < w then Bit(v, j) else Bit(word, j)
  {
    if w > 0 && j > 0 { BitOfPutLow(word / 2, w - 1, v / 2, j - 1); }
  }

  lemma PutLaneHalf(word: nat, s: nat, w: nat, v: nat)
    requires s > 0
    ensures PutLane(word, s, w, v) / 2 == PutLane(word / 2, s - 1, w, v) && PutLane(word, s, w, v) % 2 == word % 2
  {
  }

  lemma {:induction false} BitOfPutLane(word: nat, s: nat, w: nat, v: nat, j: nat)
    ensures Bit(PutLane(word, s, w, v), j) <==> if s <= j < s + w then Bit(v, j - s) else Bit(word, j)
  {
    if s == 0 {
      BitOfPutLow(word, w, v, j);
    } else {
      PutLaneHalf(word, s, w, v);
      if j > 0 { BitOfPutLane(word / 2, s - 1, w, v, j - 1); }
    }
  }

  lemma {:induction false} PutLaneBelow(word: nat, s: nat, w: nat, v: nat, k: nat)
    requires word < Pow2(k) && s + w <= k
    ensures PutLane(word, s, w, v) < Pow2(k)
    decreases s, w
  {
    if s > 0 { PutLaneBelow(word / 2, s - 1, w, v, k - 1); }
    else if w > 0 { PutLaneBelow(word / 2, 0, w - 1, v / 2, k - 1); }
  }

  lemma LaneBelow(word: nat, s: nat, w: nat)
    requires w <= 32
    ensures Lane(word, s, w) < U32_LIMIT
  {
    LowShr(Shr(word, s), w);
    Pow2At32();
    if w < 32 { Pow2Grows(w, 32); }
  }

  /** The word that a filtered write of one lane leaves behind. */
  function Written(effect: Effect, word: nat, s: nat, w: nat, value: nat, mask: nat): nat
    requires mask < U32_LIMIT && w <= 32
  {
    var lane := Lane(word, s, w);
    if effect == Replace then PutLane(word, s, w, Merge(lane, value, mask))
    else Pow2At32(); AndBelow(value, mask, 32); PutLane(word, s, w, Stored(effect, lane, BitAnd(value, mask)))
  }

  /** Inside the lane the filter tests the mask from bit 0 on, wherever the lane is. */
  lemma WrittenBit(effect: Effect, word: nat, s: nat, w: nat, value: nat, mask: nat, j: nat)
    requires word < U32_LIMIT && mask < U32_LIMIT && s + w <= 32 && j < 32
    ensures Written(effect, word, s, w, value, mask) < U32_LIMIT
    ensures Bit(Written(effect, word, s, w, value, mask), j) <==>
            if s <= j < s + w then NewBit(effect, Bit(word, j), Bit(mask, j - s), Bit(value, j - s)) else Bit(word, j)
  {
    Pow2At32();
    AndBelow(value, mask, 32);
    var lane := Lane(word, s, w);
    LaneBelow(word, s, w);
    var v := if effect == Replace then Merge(lane, value, mask) else Stored(effect, lane, BitAnd(value, mask));
    PutLaneBelow(word, s, w, v, 32);
    BitOfPutLane(word, s, w, v, j);
    if s <= j < s + w {
      BitOfLane(word, s, w, j - s);
      if effect == Replace { MergedBit(lane, value, mask, j - s); } else { PokedBit(effect, lane, value, mask, j - s); }
    }
  }

  /** What a read shows of the word: its lane, where the mask from bit 0 on allows it. */
  ghost predicate Shown(result: nat, bitmap: Bitmap, r: Reg, s: nat, w: nat, word: nat) {
    forall j: nat :: Bit(result, j) <==> j < w && Owned(bitmap, IrqAt(r.index, BitsPer(r.bank), j)) && Bit(word, s + j)
  }

  /** What a write makes of the word: in the lane each bit as the register says where
      the mask from bit 0 on allows it, and nothing elsewhere. */
  ghost predicate Changed(bitmap: Bitmap, at: Place, s: nat, w: nat, value: nat, word: nat, word': nat) {
    forall j: nat | j < 32 :: Bit(word', j) <==>
      if s <= j < s + w
      then NewBit(at.effect, Bit(word, j), Owned(bitmap, IrqAt(at.reg.index, BitsPer(at.reg.bank), j - s)), Bit(value, j - s))
      else Bit(word, j)
  }

  /** The access stays inside one register, as every naturally aligned one of at most
      four bytes does. */
  predicate InOneRegister(reg: nat, size: nat) { size > 0 && reg % 4 + size <= 4 }

  /** The zone's bit for the interrupt at bit `j` of the lane is the one tested. */
  ghost predicate FiltersLane(bitmap: Bitmap, index: nat, bits: nat, s: nat, w: nat)
    requires FieldWidth(bits)
  {
    forall j: nat | s <= j < s + w :: Owned(bitmap, IrqAt(index, bits, j - s)) <==> Owned(bitmap, IrqAt(index, bits, j))
  }

  /** An access is filtered by its own interrupts, in every zone, if and only if it
      starts at bit 0 of the register: a byte access to the middle of a priority
      register is filtered as if it were to the first byte. */
  lemma FilteredExactly(index: nat, bits: nat, reg: nat, size: nat)
    requires FieldWidth(bits) && (index + 1) * (32 / bits) <= 1024 && InOneRegister(reg, size)
    ensures reg % 4 == 0 <==>
            forall bitmap: Bitmap | BitmapOk(bitmap) :: FiltersLane(bitmap, index, bits, 8 * (reg % 4), 8 * size)
  {
    var s := 8 * (reg % 4);
    if s != 0 {
      LaterIrq(index, bits, s);
      var bitmap := OnlyOwns(IrqAt(index, bits, 0), IrqAt(index, bits, s));
      assert Owned(bitmap, IrqAt(index, bits, s - s));
      assert !FiltersLane(bitmap, index, bits, s, 8 * size);
    }
  }

  lemma LaterIrq(index: nat, bits: nat, s: nat)
    requires FieldWidth(bits) && (index + 1) * (32 / bits) <= 1024 && 8 <= s < 32
    ensures IrqAt(index, bits, 0) < IrqAt(index, bits, s) < 1024
  {
    if bits == 1 { assert IrqAt(index, 1, s) == index * 32 + s; }
    else if bits == 2 { assert IrqAt(index, 2, s) == index * 16 + s / 2; }
    else { assert IrqAt(index, 8, s) == index * 4 + s / 8; }
  }

  /** A zone that owns one interrupt and not another. */
  lemma OnlyOwns(irq: nat, other: nat) returns (bitmap: Bitmap)
    requires irq < 1024 && other < 1024 && irq != other
    ensures BitmapOk(bitmap) && Owned(bitmap, irq) && !Owned(bitmap, other)
  {
    var none: Bitmap := seq(32, _ => 0);
    BitOfZero(other % 32);
    Pow2At32();
    Pow2Grows(irq % 32, 32);
    OrBelow(0, Pow2(irq % 32), 32);
    InsertOwns(none, irq, irq);
    InsertOwns(none, irq, other);
    bitmap := none[irq / 32 := BitOr(none[irq / 32], Pow2(irq % 32))];
  }

  // ------------------------------------------------------ filtered accesses

  datatype Action = Performed | Skipped | Panicked

  predicate IsSpi(irq: nat) { 31 < irq < 1020 }

  // --------------------------------------- the same, address by address

  function WordIn(words: map<Reg, nat>, r: Reg): nat { if r in words then words[r] else 0 }

  /** The interrupt of bit `j`, with `per` interrupts in the register. */
  ghost predicate OwnsBit(bitmap: Bitmap, i: nat, per: nat, j: nat)
    requires per > 0
  {
    Owned(bitmap, i * per + j * per / 32)
  }

  /** The owned bits of the register become those written. */
  ghost predicate Replaces(bitmap: Bitmap, i: nat, per: nat, value: nat, word: nat, word': nat)
    requires per > 0
  {
    forall j: nat | j < 32 :: Bit(word', j) <==> if OwnsBit(bitmap, i, per, j) then Bit(value, j) else Bit(word, j)
  }

  /** The owned bits that are written as ones are set. */
  ghost predicate Sets(bitmap: Bitmap, i: nat, per: nat, value: nat, word: nat, word': nat)
    requires per > 0
  {
    forall j: nat | j < 32 :: Bit(word', j) <==> Bit(word, j) || (OwnsBit(bitmap, i, per, j) && Bit(value, j))
  }

  /** The owned bits that are written as ones are cleared. */
  ghost predicate Clears(bitmap: Bitmap, i: nat, per: nat, value: nat, word: nat, word': nat)
    requires per > 0
  {
    forall j: nat | j < 32 :: Bit(word', j) <==> Bit(word, j) && !(OwnsBit(bitmap, i, per, j) && Bit(value, j))
  }

  /** What a word written to `reg` does, by the map of the distributor. */
  ghost predicate WritesAt(bitmap: Bitmap, reg: nat, value: nat, words: map<Reg, nat>, words': map<Reg, nat>) {
    && (0x080 <= reg < 0x0fc ==> var r := Reg(Group, (reg - 0x080) / 4);
          Replaces(bitmap, r.index, 32, value, WordIn(words, r), WordIn(words', r)))
    && (0x100 <= reg < 0x17c ==> var r := Reg(Enable, (reg - 0x100) / 4);
          Sets(bitmap, r.index, 32, value, WordIn(words, r), WordIn(words', r)))
    && (0x180 <= reg < 0x1fc ==> var r := Reg(Enable, (reg - 0x180) / 4);
          Clears(bitmap, r.index, 32, value, WordIn(words, r), WordIn(words', r)))
    && (0x200 <= reg < 0x27c ==> var r := Reg(Pend, (reg - 0x200) / 4);
          Sets(bitmap, r.index, 32, value, WordIn(words, r), WordIn(words', r)))
    && (0x280 <= reg < 0x2fc ==> var r := Reg(Pend, (reg - 0x280) / 4);
          Clears(bitmap, r.index, 32, value, WordIn(words, r), WordIn(words', r)))
    && (0x300 <= reg < 0x37c ==> var r := Reg(Active, (reg - 0x300) / 4);
          Sets(bitmap, r.index, 32, value, WordIn(words, r), WordIn(words', r)))
    && (0x380 <= reg < 0x3fc ==> var r := Reg(Active, (reg - 0x380) / 4);
          Clears(bitmap, r.index, 32, value, WordIn(words, r), WordIn(words', r)))
    && (0x400 <= reg < 0x7f8 ==> var r := Reg(Priority, (reg - 0x400) / 4);
          Replaces(bitmap, r.index, 4, value, WordIn(words, r), WordIn(words', r)))
    && (0xc00 <= reg < 0xcfc ==> var r := Reg(Config, (reg - 0xc00) / 4);
          Replaces(bitmap, r.index, 16, value, WordIn(words, r), WordIn(words', r)))
  }

  /** Where the bitmask registers lie, and what a write to them does. */
  lemma LocateMeans(reg: nat)
    ensures 0x080 <= reg < 0x0fc ==> Locate(reg) == Some(Place(Reg(Group, (reg - 0x080) / 4), Replace))
    ensures 0x100 <= reg < 0x17c ==> Locate(reg) == Some(Place(Reg(Enable, (reg - 0x100) / 4), SetBits))
    ensures 0x180 <= reg < 0x1fc ==> Locate(reg) == Some(Place(Reg(Enable, (reg - 0x180) / 4), ClearBits))
    ensures 0x200 <= reg < 0x27c ==> Locate(reg) == Some(Place(Reg(Pend, (reg - 0x200) / 4), SetBits))
    ensures 0x280 <= reg < 0x2fc ==> Locate(reg) == Some(Place(Reg(Pend, (reg - 0x280) / 4), ClearBits))
    ensures 0x300 <= reg < 0x37c ==> Locate(reg) == Some(Place(Reg(Active, (reg - 0x300) / 4), SetBits))
    ensures 0x380 <= reg < 0x3fc ==> Locate(reg) == Some(Place(Reg(Active, (reg - 0x380) / 4), ClearBits))
    ensures 0x400 <= reg < 0x7f8 ==> Locate(reg) == Some(Place(Reg(Priority, (reg - 0x400) / 4), Replace))
    ensures 0xc00 <= reg < 0xcfc ==> Locate(reg) == Some(Place(Reg(Config, (reg - 0xc00) / 4), Replace))
  {
  }

  /** The addresses that are dispatched as bitmask registers. */
  predicate BitmaskAddress(reg: nat) {
    || 0x080 <= reg < 0x0fc || 0x100 <= reg < 0x17c || 0x180 <= reg < 0x1fc || 0x200 <= reg < 0x27c
    || 0x280 <= reg < 0x2fc || 0x300 <= reg < 0x37c || 0x380 <= reg < 0x3fc || 0x400 <= reg < 0x7f8
    || 0xc00 <= reg < 0xcfc
  }

  lemma DispatchedAddresses(reg: nat)
    ensures Dispatch(reg).Bitmask? <==> BitmaskAddress(reg)
  {
  }

  lemma ChangedWord(bitmap: Bitmap, at: Place, value: nat, word: nat, word': nat)
    requires Changed(bitmap, at, 0, 32, value, word, word')
    ensures var i, per := at.reg.index, 32 / BitsPer(at.reg.bank);
            match at.effect
            case Replace => Replaces(bitmap, i, per, value, word, word')
            case SetBits => Sets(bitmap, i, per, value, word, word')
            case ClearBits => Clears(bitmap, i, per, value, word, word')
  {
    var i, bits := at.reg.index, BitsPer(at.reg.bank);
    forall j: nat | j < 32 ensures OwnsBit(bitmap, i, 32 / bits, j) <==> Owned(bitmap, IrqAt(i, bits, j)) {
      FieldIndex(bits, j);
    }
  }

  lemma FieldIndex(bits: nat, j: nat)
    requires FieldWidth(bits)
    ensures j * (32 / bits) / 32 == j / bits
  {
  }

  /** A word write to a dispatched register, address by address. */
  lemma WrittenAt(bitmap: Bitmap, reg: nat, value: nat, words: map<Reg, nat>, words': map<Reg, nat>)
    requires BitmaskAddress(reg) && Locate(reg).Some?
    requires var at := Locate(reg).value; Changed(bitmap, at, 0, 32, value, WordIn(words, at.reg), WordIn(words', at.reg))
    ensures WritesAt(bitmap, reg, value, words, words')
  {
    var at := Locate(reg).value;
    LocateMeans(reg);
    ChangedWord(bitmap, at, value, WordIn(words, at.reg), WordIn(words', at.reg));
  }

  /** Which routes and targets are reached, and which of the other registers: 32 to 1019
      are the shared interrupts; a few identification registers can be read. */
  ghost predicate OthersAt(bitmap: Bitmap, reg: nat, write: bool, act: Action) {
    && (0x6000 <= reg < 0x7ff8 ==> var irq := (reg - 0x6000) / 8;
          act == if 32 <= irq <= 1019 && Owned(bitmap, irq) then Performed else Skipped)
    && (0x800 <= reg < 0xbff ==> var irq := reg - 0x800;
          act == if 32 <= irq <= 1019 && Owned(bitmap, irq) then Performed else Skipped)
    && (!BitmaskAddress(reg) && !(0x6000 <= reg < 0x7ff8) && !(0x800 <= reg < 0xbff) ==>
          var known := reg == 0 || reg == 4 || reg == 8 || 0xffd0 <= reg < 0xffdc || 0xffe0 <= reg < 0xffec || 0xfff0 <= reg < 0xfffc;
          act == if !known then Panicked else if write then Skipped else Performed)
  }

  class Distributor {
    var words: map<Reg, nat>

    ghost predicate Valid()
      reads this
    {
      forall r | r in words :: words[r] < U32_LIMIT
    }

    function Word(r: Reg): nat
      reads this
    {
      WordIn(words, r)
    }

    constructor ()
      ensures Valid() && forall r :: Word(r) == 0
    {
      words := map[];
    }

    /** `restrict_bitmask_access` of `w` bits from bit `s` on of the register `place`.
        A write changes those bits only, each as the register says where the mask, taken
        from bit 0 on, allows it; a read shows only what the mask allows. */
    method RestrictBitmaskAccess(bitmap: Bitmap, place: Place, index: nat, bits: nat, poke: bool,
                                 s: nat, w: nat, write: bool, value: nat)
      returns (result: nat)
      requires Valid() && |bitmap| == 32 && FieldWidth(bits) && (index + 1) * (32 / bits) <= 1024
      requires (poke <==> place.effect != Replace) && s + w <= 32
      requires index == place.reg.index && bits == BitsPer(place.reg.bank)
      modifies this`words
      ensures Valid()
      ensures !write ==> words == old(words) && Shown(result, bitmap, place.reg, s, w, old(Word(place.reg)))
      ensures forall r | r != place.reg :: Word(r) == old(Word(r))
      ensures write ==> Changed(bitmap, place, s, w, value, old(Word(place.reg)), Word(place.reg))
    {
      var mask := AccessMask(bitmap, index, bits);
      MaskBelow(mask);
      var word := Word(place.reg);
      var lane := Lane(word, s, w);
      if !write {
        result := BitAnd(lane, mask);
        forall j: nat ensures Bit(result, j) <==> j < w && Bit(word, s + j) && Bit(mask, j) {
          BitOfAnd(lane, mask, j);
          BitOfLane(word, s, w, j);
        }
        return;
      }
      result := value;
      ghost var after := Written(place.effect, word, s, w, value, mask);
      WrittenBit(place.effect, word, s, w, value, mask, 0);
      forall j: nat | j < 32
        ensures Bit(after, j) <==>
                if s <= j < s + w then NewBit(place.effect, Bit(word, j), Bit(mask, j - s), Bit(value, j - s)) else Bit(word, j)
      {
        WrittenBit(place.effect, word, s, w, value, mask, j);
      }
      if !poke {
        words := words[place.reg := PutLane(word, s, w, Merge(lane, value, mask))];
      } else {
        Pow2At32();
        AndBelow(value, mask, 32);
        words := words[place.reg := PutLane(word, s, w, Stored(place.effect, lane, BitAnd(value, mask)))];
      }
    }

    /** `vgicv3_dist_handler`. A bitmask access changes bits of its own lane only; one
        that starts at bit 0 changes exactly the bits of interrupts that the zone owns.
        Routes and targets are reached for owned shared interrupts only. */
    method DistHandler(bitmap: Bitmap, reg: nat, size: nat, write: bool, value: nat) returns (act: Action, result: nat)
      requires Valid() && |bitmap| == 32 && (Dispatch(reg).Bitmask? ==> InOneRegister(reg, size))
      modifies this`words
      ensures Valid()
      ensures Dispatch(reg).Bitmask? ==>
                && act.Performed? && Locate(reg).Some?
                && var r, s := Locate(reg).value.reg, 8 * (reg % 4);
                   && (!write ==> Shown(result, bitmap, r, s, 8 * size, old(Word(r))))
                   && (write ==> Changed(bitmap, Locate(reg).value, s, 8 * size, value, old(Word(r)), Word(r)))
      ensures forall r | !(write && Dispatch(reg).Bitmask? && Locate(reg).Some? && r == Locate(reg).value.reg) ::
                Word(r) == old(Word(r))
      ensures write && size == 4 && reg % 4 == 0 && BitmaskAddress(reg) ==> WritesAt(bitmap, reg, value, old(words), words)
      ensures OthersAt(bitmap, reg, write, act) && (BitmaskAddress(reg) ==> act.Performed?)
      ensures act.Skipped? ==> result == value
    {
      result := value;
      DispatchedAddresses(reg);
      match Dispatch(reg) {
        case IrqRegister(irq) =>
          InZoneIsOwned(bitmap, irq);
          act := if !IsSpi(irq) || !IrqInZone(bitmap, irq) then Skipped else Performed;
        case Bitmask(index, bits, poke) =>
          DispatchAgrees(reg);
          result := RestrictBitmaskAccess(bitmap, Locate(reg).value, index, bits, poke, 8 * (reg % 4), 8 * size, write, value);
          act := Performed;
          if write && size == 4 && reg % 4 == 0 { WrittenAt(bitmap, reg, value, old(words), words); }
        case Misc =>
          act := if !MiscAllowed(reg) then Panicked else if write then Skipped else Performed;
      }
    }

    /** One register of `arch_irqchip_reset`. */
    method ClearOwned(r: Reg, mask: nat)
      requires Valid() && mask < U32_LIMIT
      modifies this`words
      ensures Valid()
      ensures forall j: nat | j < 32 :: Bit(Word(r), j) <==> Bit(old(Word(r)), j) && !Bit(mask, j)
      ensures forall q | q != r :: Word(q) == old(Word(q))
    {
      var word := Word(r);
      StoredBelow(ClearBits, word, mask);
      forall j: nat | j < 32 ensures Bit(BitAnd(word, Not32(mask)), j) <==> Bit(word, j) && !Bit(mask, j) {
        BitOfAnd(word, Not32(mask), j);
        BitOfNot32(mask, j);
      }
      words := words[r := Stored(ClearBits, word, mask)];
    }

    /** `arch_irqchip_reset`: the zone's shared interrupts end disabled and
        inactive; private ones and other zones' stay as they were. */
    method ArchIrqchipReset(bitmap: Bitmap)
      requires Valid() && BitmapOk(bitmap)
      modifies this`words
      ensures Valid()
      ensures forall r, j: nat | j < 32 :: Bit(Word(r), j) <==>
                && Bit(old(Word(r)), j)
                && !((r.bank == Enable || r.bank == Active) && 1 <= r.index < 32 && Owned(bitmap, r.index * 32 + j))
    {
      var idx := 1;
      while idx < 32
        invariant 1 <= idx <= 32 && Valid()
        invariant forall r, j: nat | j < 32 :: Bit(Word(r), j) <==>
                    && Bit(old(Word(r)), j)
                    && !((r.bank == Enable || r.bank == Active) && 1 <= r.index < idx && Bit(bitmap[r.index], j))
      {
        ClearOwned(Reg(Enable, idx), bitmap[idx]);
        ClearOwned(Reg(Active, idx), bitmap[idx]);
        idx := idx + 1;
      }
      forall i, j: nat | 1 <= i < 32 && j < 32 ensures Owned(bitmap, i * 32 + j) <==> Bit(bitmap[i], j) {}
    }
  }

  lemma StoredBelow(effect: Effect, word: nat, value: nat)
    requires word < U32_LIMIT && value < U32_LIMIT
    ensures Stored(effect, word, value) < U32_LIMIT
  {
    Pow2At32();
    OrBelow(word, value, 32);
    AndBelowLeft(word, Not32(value), 32);
  }

  /** A word without bits from 32 on is below 2^32. */
  lemma MaskBelow(mask: nat)
    requires forall j: nat | j >= 32 :: !Bit(mask, j)
    ensures mask < U32_LIMIT
  {
    Pow2At32();
    LowShr(mask, 32);
    ShlMul(Shr(mask, 32), 32);
    if Shr(mask, 32) != 0 {
      var j := HighBit(Shr(mask, 32));
      ShrShr(mask, 32, j);
      assert Bit(mask, 32 + j);
    }
  }

}
