/** Page sizes, table indices, offset-mapped regions, and the page size that
    `map` gives to each address of a region, in closed form. */
module Geometry {
  import opened Bits
  import opened Descriptor

  /** Bytes covered by one entry of a level-`l` table; level 1 holds 4K pages. */
  function Span(l: nat): (s: nat)
    requires 1 <= l <= 5
    ensures s > 0
  {
    if l == 1 then 0x1000 else if l == 2 then 0x20_0000 else if l == 3 then 0x4000_0000
    else if l == 4 then 0x80_0000_0000 else 0x1_0000_0000_0000
  }

  /** The number of the level-`l` entry that covers `va`. */
  function Num(l: nat, va: nat): nat
    requires 1 <= l <= 5
  {
    if l == 1 then va / 0x1000 else if l == 2 then va / 0x20_0000 else if l == 3 then va / 0x4000_0000
    else if l == 4 then va / 0x80_0000_0000 else va / 0x1_0000_0000_0000
  }

  /** The first address covered by the level-`l` entry that covers `va`. */
  function Base(l: nat, va: nat): nat
    requires 1 <= l <= 5
  {
    if l == 1 then va / 0x1000 * 0x1000 else if l == 2 then va / 0x20_0000 * 0x20_0000
    else if l == 3 then va / 0x4000_0000 * 0x4000_0000
    else if l == 4 then va / 0x80_0000_0000 * 0x80_0000_0000 else va / 0x1_0000_0000_0000 * 0x1_0000_0000_0000
  }

  predicate Aligned(l: nat, a: nat)
    requires 1 <= l <= 5
  {
    if l == 1 then a % 0x1000 == 0 else if l == 2 then a % 0x20_0000 == 0 else if l == 3 then a % 0x4000_0000 == 0
    else if l == 4 then a % 0x80_0000_0000 == 0 else a % 0x1_0000_0000_0000 == 0
  }

  /** `(va >> shift) & (ENTRY_COUNT - 1)`, with the shift of each level. */
  function Index(l: nat, va: nat): nat
    requires 1 <= l <= 4
  {
    BitAnd(Shr(va, 12 + 9 * (l - 1)), 511)
  }

  lemma IndexIsNum(l: nat, va: nat)
    requires 1 <= l <= 4
    ensures Index(l, va) == Num(l, va) % 512
  {
    ShrIsNum(l, va);
    assert Pow2(9) == 512;
    AndMask(Num(l, va), 511, 9);
  }

  /** `page_offset`: `addr & (size - 1)`. */
  function PageOffset(l: nat, va: nat): nat
    requires 1 <= l <= 3
  {
    BitAnd(va, Span(l) - 1)
  }

  /** The masks of `PageSize` in terms of quotient and remainder. */
  lemma PageOffsetMeans(l: nat, va: nat)
    requires 1 <= l <= 3
    ensures PageOffset(l, va) == va - Base(l, va) && (PageOffset(l, va) == 0 <==> Aligned(l, va))
  {
    PowersOfTwo();
    AndMask(va, Span(l) - 1, 12 + 9 * (l - 1));
  }

  /** `align_down`: `addr & !(size - 1)`. */
  function AlignDown(l: nat, va: nat): nat
    requires 1 <= l <= 3
  {
    BitAnd(va, BitNot64(Span(l) - 1))
  }

  lemma AlignDownMeans(l: nat, va: nat)
    requires 1 <= l <= 3 && va < U64_LIMIT
    ensures AlignDown(l, va) == Base(l, va) && AlignDown(l, va) + PageOffset(l, va) == va
  {
    Pow2At64();
    AndNot(va, Span(l) - 1, 64);
    PageOffsetMeans(l, va);
  }

  lemma ShrIsNum(l: nat, va: nat)
    requires 1 <= l <= 4
    ensures Shr(va, 12 + 9 * (l - 1)) == Num(l, va)
  {
    PowersOfTwo();
    ShrDiv(va, 12 + 9 * (l - 1));
  }

  lemma PowersOfTwo()
    ensures Pow2(12) == 0x1000 && Pow2(21) == 0x20_0000 && Pow2(30) == 0x4000_0000 && Pow2(39) == 0x80_0000_0000
  {
    assert Pow2(12) == 0x1000;
    assert Pow2(17) == 0x2_0000;
    assert Pow2(21) == 0x20_0000;
    assert Pow2(26) == 0x400_0000;
    assert Pow2(30) == 0x4000_0000;
    assert Pow2(35) == 0x8_0000_0000;
  }

  lemma NumParent(l: nat, va: nat)
    requires 1 <= l <= 4
    ensures Num(l + 1, va) == Num(l, va) / 512
  {
  }

  /** Addresses below the limit of an `L`-level table share its root table. */
  function Limit(levels: nat): nat { if levels == 3 then 0x80_0000_0000 else 0x1_0000_0000_0000 }

  /** An entry covers 4K at level 1 and 512 times as much at each level above; a table
      with three or four levels reaches as far as one entry above its root. */
  lemma SpanMeans(l: nat)
    requires 1 <= l <= 4
    ensures Span(1) == 0x1000 && Span(l + 1) == 512 * Span(l) && (l >= 3 ==> Limit(l) == Span(l + 1))
  {
  }

  // ---------------------------------------------------------------- regions

  /** A `MemoryRegion` with the `Offset` mapper. */
  datatype Region = Region(start: nat, size: nat, flags: MemFlags, offset: nat)
  {
    function End(): nat { start + size }

    predicate Contains(va: nat) { start <= va < start + size }

    /** Page-aligned, within reach of an `L`-level table. */
    predicate Mappable(levels: nat) {
      start % 0x1000 == 0 && size % 0x1000 == 0 && start + size <= Limit(levels) && offset < U64_LIMIT
    }
  }

  function WrappingSub(a: nat, b: nat): (r: nat)
    requires a < U64_LIMIT && b < U64_LIMIT
    ensures r < U64_LIMIT
  {
    if b <= a then a - b else a + U64_LIMIT - b
  }

  function NewWithOffsetMapper(va: nat, pa: nat, size: nat, flags: MemFlags): Region
    requires va < U64_LIMIT && pa < U64_LIMIT
  {
    Region(va, size, flags, WrappingSub(va, pa))
  }

  function MapFn(r: Region, va: nat): nat
    requires va < U64_LIMIT && r.offset < U64_LIMIT
  {
    WrappingSub(va, r.offset)
  }

  /** The page size of the leaf that covers `va` once the region is mapped: the
      largest aligned block around `va` that lies in the region, is aligned
      physically too, and is allowed. */
  function LeafLevel(r: Region, va: nat): (l: nat)
    requires r.Mappable(4) && r.Contains(va)
    ensures 1 <= l <= 3
  {
    if BlockFits(r, 3, va) then 3 else if BlockFits(r, 2, va) then 2 else 1
  }

  predicate BlockFits(r: Region, l: nat, va: nat)
    requires 2 <= l <= 3 && r.Mappable(4) && r.Contains(va)
  {
    && !r.flags.noHugepages
    && r.start <= Base(l, va) && Base(l, va) + Span(l) <= r.End()
    && Aligned(l, MapFn(r, Base(l, va)))
  }

  /** A block of `size` bytes from `b` on holds `va`, lies in the region, and is aligned
      on both sides. */
  predicate BlockAt(r: Region, size: nat, va: nat, b: nat)
    requires size > 0 && r.Mappable(4)
  {
    && b % size == 0 && b <= va < b + size && r.start <= b && b + size <= r.End()
    && MapFn(r, b) % size == 0
  }

  ghost predicate HasBlock(r: Region, size: nat, va: nat)
    requires size > 0 && r.Mappable(4)
  {
    !r.flags.noHugepages && exists b: nat :: BlockAt(r, size, va, b)
  }

  /** Level 3 where a 1G block can be had, level 2 where only a 2M block can, else 1. */
  ghost predicate LargestBlock(r: Region, va: nat, l: nat)
    requires r.Mappable(4)
  {
    && (l == 3 <==> HasBlock(r, 0x4000_0000, va))
    && (l == 2 <==> !HasBlock(r, 0x4000_0000, va) && HasBlock(r, 0x20_0000, va))
    && (l == 1 <==> !HasBlock(r, 0x4000_0000, va) && !HasBlock(r, 0x20_0000, va))
  }

  lemma LeafLevelMeans(r: Region, va: nat)
    requires r.Mappable(4) && r.Contains(va)
    ensures LargestBlock(r, va, LeafLevel(r, va))
  {
    FitsIsBlock(r, 3, va);
    FitsIsBlock(r, 2, va);
  }

  lemma FitsIsBlock(r: Region, l: nat, va: nat)
    requires 2 <= l <= 3 && r.Mappable(4) && r.Contains(va)
    ensures BlockFits(r, l, va) <==> HasBlock(r, if l == 3 then 0x4000_0000 else 0x20_0000, va)
  {
    var size := if l == 3 then 0x4000_0000 else 0x20_0000;
    if BlockFits(r, l, va) {
      BaseAligned(l, va);
      assert BlockAt(r, size, va, Base(l, va));
    }
    if b: nat :| BlockAt(r, size, va, b) {
      OnlyBlock(size, va, b);
    }
  }

  lemma OnlyBlock(size: nat, va: nat, b: nat)
    requires size > 0 && b % size == 0 && b <= va < b + size
    ensures b == va / size * size
  {
    Divided(b, size);
    Remainder(va, size, b / size, va - b);
  }

  /** The size `map` picks at `va` with `size` bytes left to map. */
  function PickLevel(r: Region, va: nat, size: nat): (l: nat)
    requires va < U64_LIMIT && r.offset < U64_LIMIT
    ensures 1 <= l <= 3
  {
    var pa := MapFn(r, va);
    if Aligned(3, va) && Aligned(3, pa) && size >= Span(3) && !r.flags.noHugepages then 3
    else if Aligned(2, va) && Aligned(2, pa) && size >= Span(2) && !r.flags.noHugepages then 2
    else 1
  }

  /** `va` starts a leaf of the region, or is its end. */
  predicate Boundary(r: Region, va: nat)
    requires r.Mappable(4)
  {
    r.start <= va <= r.End() && (va < r.End() ==> Aligned(LeafLevel(r, va), va))
  }

  /** The greedy choice of `map` is the closed form, at every leaf start. */
  lemma PickIsLeafLevel(r: Region, va: nat, size: nat)
    requires r.Mappable(4) && Boundary(r, va) && va < r.End() && va + size == r.End()
    ensures PickLevel(r, va, size) == LeafLevel(r, va)
  {
  }

  lemma StartIsBoundary(r: Region)
    requires r.Mappable(4)
    ensures Boundary(r, r.start)
  {
  }

  /** After a leaf comes the next leaf or the end of the region. */
  lemma NextBoundary(r: Region, va: nat)
    requires r.Mappable(4) && Boundary(r, va) && va < r.End()
    ensures Boundary(r, va + Span(LeafLevel(r, va)))
  {
    var l := LeafLevel(r, va);
    var va' := va + Span(l);
    LeafInside(r, va);
    if va' < r.End() {
      var l' := LeafLevel(r, va');
      if l' > l { SameBlock(r, va, l'); } else { AlignedStep(l, l', va); }
    }
  }

  lemma LeafInside(r: Region, va: nat)
    requires r.Mappable(4) && r.Contains(va)
    ensures var l := LeafLevel(r, va); r.start <= Base(l, va) <= va && Base(l, va) + Span(l) <= r.End()
  {
    if LeafLevel(r, va) == 1 { PageInside(r.start, r.End(), va); }
  }

  lemma PageInside(start: nat, end: nat, va: nat)
    requires start % 0x1000 == 0 && end % 0x1000 == 0 && start <= va < end
    ensures start <= va / 0x1000 * 0x1000 <= va && va / 0x1000 * 0x1000 + 0x1000 <= end
  {
    var a, b := start / 0x1000, end / 0x1000;
    assert start == a * 0x1000 && end == b * 0x1000;
  }

  /** A larger leaf right after `va`'s leaf starts exactly there. */
  lemma SameBlock(r: Region, va: nat, l': nat)
    requires r.Mappable(4) && Boundary(r, va) && va < r.End()
    requires LeafLevel(r, va) < l' <= 3
    requires va + Span(LeafLevel(r, va)) < r.End() && LeafLevel(r, va + Span(LeafLevel(r, va))) == l'
    ensures Aligned(l', va + Span(LeafLevel(r, va)))
  {
    var l := LeafLevel(r, va);
    var va' := va + Span(l);
    if !Aligned(l', va') {
      BaseShared(l, l', va);
    }
  }

  lemma BaseShared(l: nat, l': nat, va: nat)
    requires 1 <= l < l' <= 3 && Aligned(l, va) && !Aligned(l', va + Span(l))
    ensures Base(l', va + Span(l)) == Base(l', va)
  {
    if l == 1 { if l' == 2 { PageInBlock(va); } else { PageInBigBlock(va); } } else { BlockInBigBlock(va); }
  }

  lemma PageInBlock(va: nat)
    requires va % 0x1000 == 0 && (va + 0x1000) % 0x20_0000 != 0
    ensures (va + 0x1000) / 0x20_0000 == va / 0x20_0000
  {
  }

  lemma PageInBigBlock(va: nat)
    requires va % 0x1000 == 0 && (va + 0x1000) % 0x4000_0000 != 0
    ensures (va + 0x1000) / 0x4000_0000 == va / 0x4000_0000
  {
  }

  lemma BlockInBigBlock(va: nat)
    requires va % 0x20_0000 == 0 && (va + 0x20_0000) % 0x4000_0000 != 0
    ensures (va + 0x20_0000) / 0x4000_0000 == va / 0x4000_0000
  {
  }

  lemma AlignedStep(l: nat, l': nat, va: nat)
    requires 1 <= l' <= l <= 3 && Aligned(l, va)
    ensures Aligned(l', va + Span(l))
  {
    assert Aligned(l, va + Span(l));
    AlignedDown(l, l', va + Span(l));
  }

  lemma AlignedDown(l: nat, l': nat, a: nat)
    requires 1 <= l' <= l <= 3 && Aligned(l, a)
    ensures Aligned(l', a)
  {
    if l == 3 { BigBlockIsBlocks(a); }
    if l >= 2 { BlockIsPages(a); }
  }

  lemma BigBlockIsBlocks(a: nat)
    requires a % 0x4000_0000 == 0
    ensures a % 0x20_0000 == 0
  {
    MultipleOfUnit(a, 0x20_0000, 512);
  }

  lemma BlockIsPages(a: nat)
    requires a % 0x20_0000 == 0
    ensures a % 0x1000 == 0
  {
    MultipleOfUnit(a, 0x1000, 512);
  }

  lemma BaseAligned(l: nat, va: nat)
    requires 1 <= l <= 3
    ensures Aligned(l, Base(l, va))
  {
    Remainder(Base(l, va), Span(l), Num(l, va), 0);
  }

  /** All addresses of one leaf agree on its level. */
  lemma SameLeaf(r: Region, va: nat, x: nat)
    requires r.Mappable(4) && Boundary(r, va) && va < r.End() && va <= x < va + Span(LeafLevel(r, va))
    ensures r.Contains(x) && LeafLevel(r, x) == LeafLevel(r, va)
    ensures Base(LeafLevel(r, va), x) == va
  {
    var l := LeafLevel(r, va);
    LeafInside(r, va);
    BaseOfLeaf(l, va, x);
    if l < 3 { BaseInside(l, 3, va, x); }
    if l < 2 { BaseInside(l, 2, va, x); }
  }

  lemma BaseInside(l: nat, l': nat, va: nat, x: nat)
    requires 1 <= l < l' <= 3 && Aligned(l, va) && va <= x < va + Span(l)
    ensures Base(l', x) == Base(l', va)
  {
    if l == 1 {
      if l' == 2 { SameQuotient(va, x, 0x1000, 512); } else { SameQuotient(va, x, 0x1000, 0x4_0000); }
    } else {
      SameQuotient(va, x, 0x20_0000, 512);
    }
  }

  lemma BaseOfLeaf(l: nat, va: nat, x: nat)
    requires 1 <= l <= 3 && Aligned(l, va) && va <= x < va + Span(l)
    ensures Base(l, x) == va
  {
    Remainder(x, Span(l), Num(l, va), x - va);
  }

  // ----------------------------------------------------------- translations

  /** What a successful query returns. */
  datatype Xlate = Xlate(paddr: nat, access: Access, level: nat)

  /** What a level-`l` leaf to `paddr` makes of `va`. */
  function ByLeaf(l: nat, va: nat, paddr: nat, access: Access): Xlate
    requires 1 <= l <= 3
  {
    Xlate(PhysPage(paddr) + (va - Base(l, va)), access, l)
  }

  /** The translation of `va` by the leaf that `map` creates over it. */
  function LeafOf(r: Region, va: nat): Xlate
    requires r.Mappable(4) && r.Contains(va)
  {
    var l := LeafLevel(r, va);
    Xlate(PhysPage(MapFn(r, Base(l, va))) + (va - Base(l, va)), AccessOf(r.flags), l)
  }

  /** The region as a partial function from guest to host address, cut to
      `[lo, hi)`. */
  ghost function Slice(r: Region, lo: nat, hi: nat): imap<nat, Xlate>
    requires r.Mappable(4) && r.start <= lo <= hi <= r.End()
  {
    imap va: nat | lo <= va < hi :: LeafOf(r, va)
  }

  ghost function RegionMap(r: Region): imap<nat, Xlate>
    requires r.Mappable(4)
  {
    Slice(r, r.start, r.End())
  }

  /** The region's physical range is page-aligned and fits a descriptor. */
  predicate PhysInRange(r: Region)
    requires r.Mappable(4)
  {
    MapFn(r, r.start) % 0x1000 == 0 && MapFn(r, r.start) + r.size <= PHYS_LIMIT
  }

  /** The leaves deliver the mapper's address everywhere exactly when the
      physical range is page-aligned and below 2^48. `map` checks neither. */
  lemma LeavesMatchMapper(r: Region)
    requires r.Mappable(4) && r.size > 0
    ensures (forall va | r.Contains(va) :: LeafOf(r, va).paddr == MapFn(r, va)) <==> PhysInRange(r)
  {
    if PhysInRange(r) {
      forall va | r.Contains(va) ensures LeafOf(r, va).paddr == MapFn(r, va) { InRangeLeaf(r, va); }
    } else if LeafOf(r, r.start).paddr == MapFn(r, r.start) {
      FirstLeaf(r);
      LeafBelowLimit(r, r.End() - 1);
      assert r.Contains(r.End() - 1) && MapFn(r, r.End() - 1) >= PHYS_LIMIT;
    } else {
      assert r.Contains(r.start);
    }
  }

  /** A first leaf that delivers the mapper's address has an aligned target. */
  lemma FirstLeaf(r: Region)
    requires r.Mappable(4) && r.size > 0 && LeafOf(r, r.start).paddr == MapFn(r, r.start)
    ensures MapFn(r, r.start) % 0x1000 == 0 && MapFn(r, r.start) < PHYS_LIMIT
  {
    LeafInside(r, r.start);
    assert LeafOf(r, r.start).paddr == PhysPage(MapFn(r, r.start));
  }

  lemma InRangeLeaf(r: Region, va: nat)
    requires r.Mappable(4) && r.Contains(va) && PhysInRange(r)
    ensures LeafOf(r, va).paddr == MapFn(r, va)
  {
    var b := Base(LeafLevel(r, va), va);
    LeafInside(r, va);
    BaseAligned(LeafLevel(r, va), va);
    AlignedDown(LeafLevel(r, va), 1, b);
    InRangeAt(r, b, va);
  }

  lemma InRangeAt(r: Region, b: nat, va: nat)
    requires r.Mappable(4) && PhysInRange(r) && r.start <= b <= va < r.End() && b % 0x1000 == 0
    ensures PhysPage(MapFn(r, b)) + (va - b) == MapFn(r, va)
  {
    MapFnLinear(r, b);
    MapFnLinear(r, va);
    PageTarget(MapFn(r, r.start), b, r.start, va);
  }

  lemma PageTarget(p: nat, b: nat, s: nat, x: nat)
    requires p % 0x1000 == 0 && b % 0x1000 == 0 && s % 0x1000 == 0 && s <= b <= x && p + (b - s) < PHYS_LIMIT
    ensures PhysPage(p + (b - s)) + (x - b) == p + (x - s)
  {
    assert (p + (b - s)) % 0x1000 == 0;
  }

  lemma MapFnLinear(r: Region, x: nat)
    requires r.Mappable(4) && PhysInRange(r) && r.start <= x < r.End()
    ensures MapFn(r, x) == MapFn(r, r.start) + (x - r.start)
  {
  }

  lemma LeafBelowLimit(r: Region, va: nat)
    requires r.Mappable(4) && r.Contains(va)
    ensures LeafOf(r, va).paddr < PHYS_LIMIT
  {
    var l := LeafLevel(r, va);
    if l != 1 { PhysBlock(l, MapFn(r, Base(l, va))); }
  }

  lemma PhysBlock(l: nat, pa: nat)
    requires 2 <= l <= 3 && Aligned(l, pa)
    ensures PhysPage(pa) + Span(l) <= PHYS_LIMIT
  {
    var n := if l == 2 then 0x200 else 0x4_0000;
    var k, m := pa / Span(l), 0x10_0000_0000 / n;
    Remainder(pa, 0x1000, n * k, 0);
    Remainder(n * k, 0x10_0000_0000, k / m, n * (k % m));
  }

  /** The offset mapper of a region built from two start addresses. */
  lemma OffsetMapper(va: nat, pa: nat, size: nat, flags: MemFlags, x: nat)
    requires va <= x < va + size <= PHYS_LIMIT && pa < PHYS_LIMIT
    ensures MapFn(NewWithOffsetMapper(va, pa, size, flags), x) == pa + (x - va)
  {
  }
}
