/** Stage-2 descriptors (section D8.3 of the Arm ARM DDI 0487) as 64-bit words,
    packed and unpacked as src/arch/aarch64/s2pt.rs does. */
module Descriptor {
  import opened Bits

  const PAGE_SIZE: nat := 0x1000
  const PHYS_LIMIT: nat := 0x1_0000_0000_0000
  const PHYS_ADDR_MASK: nat := 0xffff_ffff_f000

  /** The `MemFlags` bit set of src/memory/mod.rs. */
  datatype MemFlags = MemFlags(read: bool, write: bool, execute: bool, dma: bool, io: bool,
                               communication: bool, loadable: bool, rootshared: bool,
                               noHugepages: bool, user: bool)

  /** What a descriptor can hold of a region's flags. */
  datatype Access = Access(read: bool, write: bool, io: bool)

  function AccessOf(flags: MemFlags): Access {
    Access(flags.read, flags.write, flags.io)
  }

  // Attribute bits of a descriptor, and the attribute index in bits 2..5.
  const VALID: nat := 0x1
  const NON_BLOCK: nat := 0x2
  const S2AP_R: nat := 0x40
  const S2AP_W: nat := 0x80
  const INNER: nat := 0x100
  const SHAREABLE: nat := 0x200
  const AF: nat := 0x400

  /** Whether the word `d` has the single-bit flag. */
  predicate Has(d: nat, flag: nat)
    requires flag > 0
  {
    d / flag % 2 == 1
  }

  function AttrIndex(d: nat): nat { d / 4 % 16 }

  /** `d | flag` for a single-bit flag. */
  function Insert(d: nat, flag: nat): nat
    requires flag > 0
  {
    if Has(d, flag) then d else d + flag
  }

  datatype MemType = Device | Normal

  /** `d | from_mem_type(t)`: index 1 for device memory; index 15, inner and
      shareable for normal memory. */
  function InsertMemType(d: nat, t: MemType): nat {
    match t
    case Device => Insert(d, 4)
    case Normal => Insert(Insert(Insert(Insert(Insert(Insert(d, 4), 8), 16), 32), INNER), SHAREABLE)
  }

  function MemTypeOf(flags: MemFlags): MemType { if flags.io then Device else Normal }

  function AttrOf(flags: MemFlags): nat {
    var a := Insert(Insert(InsertMemType(0, MemTypeOf(flags)), VALID), AF);
    var a := if flags.read then Insert(a, S2AP_R) else a;
    if flags.write then Insert(a, S2AP_W) else a
  }

  function Addr(d: nat): nat { BitAnd(d, PHYS_ADDR_MASK) }

  predicate IsUnused(d: nat) { d == 0 }

  predicate IsPresent(d: nat) { Has(d, VALID) }

  predicate IsHuge(d: nat) { !Has(d, NON_BLOCK) }

  /** `mem_type` panics unless the attribute index is one the hypervisor writes. */
  predicate AttrIndexOk(d: nat) { AttrIndex(d) in {1, 15} }

  function FlagsOf(d: nat): Access {
    Access(Has(d, VALID) && Has(d, S2AP_R), Has(d, S2AP_W), AttrIndex(d) == 1)
  }

  function SetAddr(d: nat, paddr: nat): nat {
    BitOr(BitAnd(d, BitNot64(PHYS_ADDR_MASK)), BitAnd(paddr, PHYS_ADDR_MASK))
  }

  function SetFlagsAndMemType(d: nat, attr: nat, t: MemType): nat {
    BitOr(BitAnd(InsertMemType(attr, t), BitNot64(PHYS_ADDR_MASK)), BitAnd(d, PHYS_ADDR_MASK))
  }

  function SetFlags(d: nat, flags: MemFlags, huge: bool): nat {
    var a := AttrOf(flags);
    SetFlagsAndMemType(d, if huge then a else Insert(a, NON_BLOCK), MemTypeOf(flags))
  }

  function SetTable(d: nat, paddr: nat): nat {
    SetFlagsAndMemType(SetAddr(d, paddr), Insert(VALID, NON_BLOCK), Normal)
  }

  // ------------------------------------------- attribute bits as masks and shifts

  lemma FlagWords()
    ensures VALID == Pow2(0) && NON_BLOCK == Pow2(1) && S2AP_R == Pow2(6) && S2AP_W == Pow2(7)
    ensures INNER == Pow2(8) && SHAREABLE == Pow2(9) && AF == Pow2(10)
  {
    assert Pow2(6) == 0x40;
    assert Pow2(10) == 0x400;
  }

  lemma HasIsBit(d: nat, k: nat)
    ensures Has(d, Pow2(k)) <==> Bit(d, k)
  {
    ShrDiv(d, k);
  }

  /** `d & flag == flag` and `d | flag` for a single-bit flag. */
  lemma FlagMeans(d: nat, k: nat)
    ensures Has(d, Pow2(k)) <==> BitAnd(d, Pow2(k)) == Pow2(k)
    ensures Insert(d, Pow2(k)) == BitOr(d, Pow2(k))
  {
    HasIsBit(d, k);
    AndOneBit(d, k);
    OrOneBit(d, k);
  }

  /** `(d & ATTR_INDEX_MASK) >> 2`. */
  lemma AttrIndexMeans(d: nat)
    ensures AttrIndex(d) == Shr(BitAnd(d, 0x3c), 2)
  {
    assert Shl(15, 2) == 0x3c && Pow2(4) == 16 && Pow2(2) == 4;
    AndShift(d, 15, 2);
    LowOfShl(BitAnd(Shr(d, 2), 15), 2);
    ShrDiv(d, 2);
    AndMask(Shr(d, 2), 15, 4);
  }

  /** `d | from_mem_type(t)`: the index shifted into place, and the shareability of
      normal memory. */
  lemma MemTypeMeans(d: nat)
    ensures InsertMemType(d, Device) == BitOr(d, Shl(1, 2))
    ensures InsertMemType(d, Normal) == BitOr(d, BitOr(BitOr(Shl(15, 2), INNER), SHAREABLE))
  {
    FlagWords();
    assert Pow2(2) == 4 && Pow2(3) == 8 && Pow2(4) == 16 && Pow2(5) == 32;
    assert Shl(1, 2) == 4 && Shl(15, 2) == 0x3c;
    FlagMeans(d, 2);
    Merges(d, 4, 3);
    Merges(d, 12, 4);
    Merges(d, 28, 5);
    Merges(d, 60, 8);
    Merges(d, 0x13c, 9);
    OrOneBit(60, 8);
    OrOneBit(0x13c, 9);
    HasIsBit(60, 8);
    HasIsBit(0x13c, 9);
  }

  lemma Merges(d: nat, bits: nat, k: nat)
    requires bits < Pow2(k)
    ensures Insert(BitOr(d, bits), Pow2(k)) == BitOr(d, bits + Pow2(k))
  {
    FlagMeans(BitOr(d, bits), k);
    OrAssociates(d, bits, Pow2(k));
    OrOneBit(bits, k);
    BitOfSmall(bits, k, k);
  }

  /** The part of a physical address that a descriptor can hold: bits 47..12. */
  function PhysPage(paddr: nat): (r: nat)
    ensures r < PHYS_LIMIT && r % PAGE_SIZE == 0
    ensures paddr < PHYS_LIMIT && paddr % PAGE_SIZE == 0 ==> r == paddr
  {
    paddr / 0x1000 % 0x10_0000_0000 * 0x1000
  }

  // ------------------------------------------------------------------ words

  lemma SplitAt12(x: nat)
    ensures Pow2(12) == 0x1000
    ensures Low(x, 12) == x % 0x1000 && Shr(x, 12) == x / 0x1000
  {
    assert Pow2(12) == 0x1000;
    LowShr(x, 12); ShlMul(Shr(x, 12), 12);
    Remainder(x, 0x1000, Shr(x, 12), Low(x, 12));
  }

  lemma LowBits36(x: nat)
    ensures Pow2(36) == 0x10_0000_0000
    ensures Low(x, 36) == x % 0x10_0000_0000
  {
    assert Pow2(12) == 0x1000;
    assert Pow2(18) == 0x4_0000;
    assert Pow2(24) == 0x100_0000;
    assert Pow2(30) == 0x4000_0000;
    LowShr(x, 36); ShlMul(Shr(x, 36), 36);
    Remainder(x, 0x10_0000_0000, Shr(x, 36), Low(x, 36));
  }

  /** `& PHYS_ADDR_MASK` keeps bits 47..12. */
  lemma MaskMeaning(x: nat)
    ensures BitAnd(x, PHYS_ADDR_MASK) == PhysPage(x)
  {
    assert Shl(0xf_ffff_ffff, 12) == 0xffff_ffff_f000;
    AndShift(x, 0xf_ffff_ffff, 12);
    SplitAt12(x);
    var hi := Shr(x, 12);
    LowBits36(hi);
    AndLow(hi, 36);
    ShlMul(Low(hi, 36), 12);
  }

  lemma AndZero(x: nat)
    ensures BitAnd(x, 0) == 0 && BitAnd(0, x) == 0 && Shl(0, 12) == 0
  {
  }

  /** Attribute bits pass through the complement of the address mask. */
  lemma AttrMask(attr: nat)
    requires attr < 0x1000
    ensures BitAnd(attr, BitNot64(PHYS_ADDR_MASK)) == attr
  {
    var m := 0xffff_0000_0000_0fff;
    SplitAt12(attr); SplitAt12(m);
    assert Low(attr, 12) == attr && Shr(attr, 12) == 0 && Low(m, 12) == 0xfff;
    AndSplit(attr, m, 12);
    AndLow(attr, 12);
    AndZero(Shr(m, 12));
  }

  lemma OrFields(pfn: nat, attr: nat)
    requires attr < 0x1000
    ensures BitOr(attr, pfn * 0x1000) == pfn * 0x1000 + attr
  {
    assert Pow2(12) == 0x1000;
    ShlMul(pfn, 12);
    OrDisjoint(pfn, attr, 12);
  }

  /** Address and attributes written into an empty descriptor do not overlap. */
  lemma Pack(paddr: nat, attr: nat, t: MemType)
    requires InsertMemType(attr, t) < 0x1000
    ensures SetFlagsAndMemType(SetAddr(0, paddr), attr, t) == PhysPage(paddr) + InsertMemType(attr, t)
  {
    MaskMeaning(paddr);
    AndZero(BitNot64(PHYS_ADDR_MASK));
    assert SetAddr(0, paddr) == PhysPage(paddr);
    MaskMeaning(PhysPage(paddr));
    AttrMask(InsertMemType(attr, t));
    OrFields(PhysPage(paddr) / 0x1000, InsertMemType(attr, t));
  }

  /** The kind bits of a packed descriptor are those of its attribute field. */
  lemma KindBits(pfn: nat, a: nat)
    requires a < 0x1000
    ensures Has(pfn * 0x1000 + a, VALID) == Has(a, VALID)
    ensures Has(pfn * 0x1000 + a, NON_BLOCK) == Has(a, NON_BLOCK)
  {
    var x, q := pfn * 0x1000 + a, pfn * 0x800 + a / 2;
    Remainder(x, 2, q, a % 2);
    Remainder(q, 2, pfn * 0x400 + a / 4, a / 2 % 2);
  }

  lemma IndexBits(pfn: nat, a: nat)
    requires a < 0x1000
    ensures AttrIndex(pfn * 0x1000 + a) == AttrIndex(a)
  {
    var x, q := pfn * 0x1000 + a, pfn * 0x400 + a / 4;
    Remainder(x, 4, q, a % 4);
    Remainder(q, 16, pfn * 0x40 + a / 64, a / 4 % 16);
  }

  lemma ReadBit(pfn: nat, a: nat)
    requires a < 0x1000
    ensures Has(pfn * 0x1000 + a, S2AP_R) == Has(a, S2AP_R)
  {
    var x, q := pfn * 0x1000 + a, pfn * 0x40 + a / 64;
    Remainder(x, 64, q, a % 64);
    Remainder(q, 2, pfn * 0x20 + a / 128, a / 64 % 2);
  }

  lemma WriteBit(pfn: nat, a: nat)
    requires a < 0x1000
    ensures Has(pfn * 0x1000 + a, S2AP_W) == Has(a, S2AP_W)
  {
    var x, q := pfn * 0x1000 + a, pfn * 0x20 + a / 128;
    Remainder(x, 128, q, a % 128);
    Remainder(q, 2, pfn * 0x10 + a / 256, a / 128 % 2);
  }

  lemma PackedPage(pfn: nat, a: nat)
    requires pfn < 0x10_0000_0000 && a < 0x1000
    ensures PhysPage(pfn * 0x1000 + a) == pfn * 0x1000
  {
  }

  /** Reading a packed descriptor: the address and every attribute. */
  lemma Decode(paddr: nat, a: nat)
    requires a < 0x1000
    ensures var d := PhysPage(paddr) + a;
            && Addr(d) == PhysPage(paddr) && FlagsOf(d) == FlagsOf(a)
            && IsPresent(d) == IsPresent(a) && IsHuge(d) == IsHuge(a) && AttrIndexOk(d) == AttrIndexOk(a)
  {
    var pfn := paddr / 0x1000 % 0x10_0000_0000;
    PackedPage(pfn, a);
    MaskMeaning(pfn * 0x1000 + a);
    KindBits(pfn, a); IndexBits(pfn, a); ReadBit(pfn, a); WriteBit(pfn, a);
  }

  // ------------------------------------------------------------ round trips

  function LeafWord(paddr: nat, flags: MemFlags, huge: bool): nat {
    SetFlags(SetAddr(0, paddr), flags, huge)
  }

  function LeafAttr(flags: MemFlags, huge: bool): nat {
    var a := AttrOf(flags);
    InsertMemType(if huge then a else Insert(a, NON_BLOCK), MemTypeOf(flags))
  }

  /** The attribute field of a leaf decodes to the flags it was built from. */
  lemma LeafAttrDecodes(flags: MemFlags, huge: bool)
    ensures 0 < LeafAttr(flags, huge) < 0x1000
    ensures var a := LeafAttr(flags, huge);
            && IsPresent(a) && IsHuge(a) == huge && AttrIndexOk(a) && FlagsOf(a) == AccessOf(flags)
  {
    var r, w := flags.read, flags.write;
    AttrValue(flags);
    var n := (if flags.io then 0x405 else 0x73d) + (if r then 0x40 else 0) + (if w then 0x80 else 0);
    if flags.io { DeviceField(r, w); } else { NormalField(r, w); }
    FieldDecodes(flags, huge, n);
  }

  lemma FieldDecodes(flags: MemFlags, huge: bool, a: nat)
    requires AttrOf(flags) == a && AttrField(a, MemTypeOf(flags), flags.read, flags.write)
    ensures LeafAttr(flags, huge) == if huge then a else a + 2
    ensures var a := LeafAttr(flags, huge);
            && 0 < a < 0x1000 && IsPresent(a) && IsHuge(a) == huge && AttrIndexOk(a) && FlagsOf(a) == AccessOf(flags)
  {
  }

  lemma DeviceField(r: bool, w: bool)
    ensures AttrField(0x405 + (if r then 0x40 else 0) + (if w then 0x80 else 0), Device, r, w)
  {
    DeviceAttrs();
    if r { if w { } else { } } else { if w { } else { } }
  }

  lemma NormalField(r: bool, w: bool)
    ensures AttrField(0x73d + (if r then 0x40 else 0) + (if w then 0x80 else 0), Normal, r, w)
  {
    NormalPlain(); NormalRead(); NormalWrite(); NormalBoth();
    if r { if w { } else { } } else { if w { } else { } }
  }

  /** `a` is the attribute field of a block with these flags, and `a + 2` that of
      the page; merging the memory type a second time changes neither. */
  predicate AttrField(a: nat, t: MemType, r: bool, w: bool) {
    && 0 < a < 0x1000 - 2 && Insert(a, NON_BLOCK) == a + 2
    && InsertMemType(a, t) == a && InsertMemType(a + 2, t) == a + 2
    && IsPresent(a) && IsHuge(a) && AttrIndexOk(a) && FlagsOf(a) == Access(r, w, t.Device?)
    && IsPresent(a + 2) && !IsHuge(a + 2) && AttrIndexOk(a + 2) && FlagsOf(a + 2) == Access(r, w, t.Device?)
  }

  lemma DeviceAttrs()
    ensures AttrField(0x405, Device, false, false) && AttrField(0x445, Device, true, false)
    ensures AttrField(0x485, Device, false, true) && AttrField(0x4c5, Device, true, true)
  {
  }

  lemma NormalPlain()
    ensures AttrField(0x73d, Normal, false, false)
  {
  }

  lemma NormalRead()
    ensures AttrField(0x77d, Normal, true, false)
  {
  }

  lemma NormalWrite()
    ensures AttrField(0x7bd, Normal, false, true)
  {
  }

  lemma NormalBoth()
    ensures AttrField(0x7fd, Normal, true, true)
  {
  }

  lemma AttrValue(flags: MemFlags)
    ensures AttrOf(flags) ==
            (if flags.io then 0x405 else 0x73d) + (if flags.read then 0x40 else 0) + (if flags.write then 0x80 else 0)
  {
    if flags.io { assert Insert(Insert(InsertMemType(0, Device), VALID), AF) == 0x405; }
    else { assert Insert(Insert(InsertMemType(0, Normal), VALID), AF) == 0x73d; }
    if flags.read { if flags.write { } else { } } else { if flags.write { } else { } }
  }

  /** A leaf descriptor gives back the address bits 47..12, the access flags and
      its size class, and is never mistaken for an unused entry. */
  lemma LeafRoundTrip(paddr: nat, flags: MemFlags, huge: bool)
    ensures var d := LeafWord(paddr, flags, huge);
            && !IsUnused(d) && d < U64_LIMIT
            && IsPresent(d) && IsHuge(d) == huge && AttrIndexOk(d)
            && Addr(d) == PhysPage(paddr)
            && FlagsOf(d) == AccessOf(flags)
  {
    LeafAttrDecodes(flags, huge);
    LeafPacks(paddr, flags, huge);
    PackedLeaf(LeafWord(paddr, flags, huge), paddr, LeafAttr(flags, huge), AccessOf(flags), huge);
  }

  /** A leaf read back, given what its attribute field `a` decodes to. */
  lemma PackedLeaf(d: nat, paddr: nat, a: nat, access: Access, huge: bool)
    requires d == PhysPage(paddr) + a && 0 < a < 0x1000
    requires IsPresent(a) && IsHuge(a) == huge && AttrIndexOk(a) && FlagsOf(a) == access
    ensures !IsUnused(d) && d < U64_LIMIT && IsPresent(d) && IsHuge(d) == huge && AttrIndexOk(d)
    ensures Addr(d) == PhysPage(paddr) && FlagsOf(d) == access
  {
    Decode(paddr, a);
  }

  lemma LeafPacks(paddr: nat, flags: MemFlags, huge: bool)
    requires LeafAttr(flags, huge) < 0x1000
    ensures LeafWord(paddr, flags, huge) == PhysPage(paddr) + LeafAttr(flags, huge)
  {
    var a := AttrOf(flags);
    Pack(paddr, if huge then a else Insert(a, NON_BLOCK), MemTypeOf(flags));
  }

  lemma MasksApart()
    ensures BitAnd(BitNot64(PHYS_ADDR_MASK), PHYS_ADDR_MASK) == 0
  {
    MaskMeaning(0xffff_0000_0000_0fff);
    assert 0xffff_0000_0000_0fff / 0x1000 == 0xf_fff0_0000_0000;
    assert 0xf_fff0_0000_0000 % 0x10_0000_0000 == 0;
  }

  /** Writing address and flags over a leaf leaves nothing of it behind. */
  lemma Overwrite(d: nat, paddr: nat, flags: MemFlags, huge: bool)
    ensures SetFlags(SetAddr(d, paddr), flags, huge) == LeafWord(paddr, flags, huge)
  {
    var n := BitNot64(PHYS_ADDR_MASK);
    MasksApart();
    AndOverOr(BitAnd(d, n), BitAnd(paddr, PHYS_ADDR_MASK), PHYS_ADDR_MASK);
    AndOverOr(BitAnd(0, n), BitAnd(paddr, PHYS_ADDR_MASK), PHYS_ADDR_MASK);
    AndApart(d, n, PHYS_ADDR_MASK);
    AndApart(0, n, PHYS_ADDR_MASK);
  }

  /** A table descriptor gives back the table's frame address. */
  lemma TableRoundTrip(paddr: nat)
    ensures var d := SetTable(0, paddr);
            && !IsUnused(d) && d < U64_LIMIT
            && IsPresent(d) && !IsHuge(d)
            && Addr(d) == PhysPage(paddr)
  {
    assert InsertMemType(3, Normal) == 0x33f;
    Pack(paddr, 3, Normal);
    Decode(paddr, 0x33f);
  }

  /** The all-zero descriptor is absent yet answers "huge": walks stop at holes. */
  lemma ZeroWord()
    ensures IsUnused(0) && !IsPresent(0) && IsHuge(0)
  {
  }

  /** A 4K leaf and a table descriptor agree on the two bits that name the kind. */
  lemma PageLooksLikeTable(paddr: nat, flags: MemFlags, frame: nat)
    ensures IsPresent(LeafWord(paddr, flags, false)) && IsPresent(SetTable(0, frame))
    ensures !IsHuge(LeafWord(paddr, flags, false)) && !IsHuge(SetTable(0, frame))
  {
    LeafRoundTrip(paddr, flags, false);
    TableRoundTrip(frame);
  }
}
