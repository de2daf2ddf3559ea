/** The registered regions of a memory set, as values: overlap, the check of the
    nearest neighbours, and how the set and the translation stay in step. */
module RegionSet {
  import opened Geometry
  import opened TreeInPool

  type Regions = map<nat, Region>

  /** `is_overlap_with`. */
  predicate Overlaps(a: Region, b: Region) {
    !(a.End() <= b.start || a.start >= b.End())
  }

  lemma OverlapMeansShared(a: Region, b: Region)
    requires a.size > 0 && b.size > 0
    ensures Overlaps(a, b) <==> exists x: nat :: a.Contains(x) && b.Contains(x)
  {
    if Overlaps(a, b) {
      var x := if a.start >= b.start then a.start else b.start;
      assert a.Contains(x) && b.Contains(x);
    }
  }

  /** Keyed by start, non-empty, mappable and pairwise disjoint. */
  ghost predicate Separate(m: Regions, level: nat) {
    && (forall k | k in m :: m[k].start == k && m[k].size > 0 && m[k].Mappable(level))
    && (forall j, k | j in m && k in m && j != k :: !Overlaps(m[j], m[k]))
  }

  ghost predicate FreeArea(m: Regions, r: Region) {
    forall k | k in m :: !Overlaps(m[k], r)
  }

  // ------------------------------------------------------------- neighbours

  ghost predicate Last(m: Regions, start: nat, k: nat) {
    k in m && k < start && forall j | j in m && j < start :: j <= k
  }

  ghost predicate First(m: Regions, start: nat, k: nat) {
    k in m && start <= k && forall j | j in m && start <= j :: k <= j
  }

  /** Checking the nearest region on each side is checking them all. */
  lemma NeighboursSuffice(m: Regions, level: nat, r: Region)
    requires Separate(m, level) && r.size > 0
    ensures FreeArea(m, r) <==>
            && (forall k | Last(m, r.start, k) :: !Overlaps(m[k], r))
            && (forall k | First(m, r.start, k) :: !Overlaps(m[k], r))
  {
    forall j | j in m && Overlaps(m[j], r)
      ensures exists k :: (Last(m, r.start, k) || First(m, r.start, k)) && Overlaps(m[k], r)
    {
      var below := set k | k in m && k < r.start;
      var above := set k | k in m && r.start <= k;
      if j < r.start {
        var k := Greatest(below, j);
        assert Last(m, r.start, k) by { assert forall i | i in m && i < r.start :: i in below; }
      } else {
        var k := Least(above, j);
        assert First(m, r.start, k) by { assert forall i | i in m && r.start <= i :: i in above; }
      }
    }
  }

  lemma {:induction false} Greatest(s: set<nat>, j: nat) returns (k: nat)
    requires j in s
    ensures k in s && forall x | x in s :: x <= k
    decreases |s|
  {
    k := j;
    if x :| x in s && x > j {
      k := Greatest(s - {j}, x);
      assert forall y | y in s :: y == j || y in s - {j};
    }
  }

  lemma {:induction false} Least(s: set<nat>, j: nat) returns (k: nat)
    requires j in s
    ensures k in s && forall x | x in s :: k <= x
    decreases |s|
  {
    k := j;
    if x :| x in s && x < j {
      k := Least(s - {j}, x);
      assert forall y | y in s :: y == j || y in s - {j};
    }
  }

  // ------------------------------------------- the set and the translation

  ghost predicate ShowsAll(xl: imap<nat, Xlate>, m: Regions) {
    forall k | k in m :: Shows(xl, m[k])
  }

  ghost predicate InSome(m: Regions, x: nat) {
    exists k :: k in m && m[k].Contains(x)
  }

  /** Nothing is translated outside the registered regions. */
  ghost predicate Exact(xl: imap<nat, Xlate>, m: Regions) {
    forall x: nat | x in xl :: InSome(m, x)
  }

  /** A mapped prefix of a free area disturbs no registered region. */
  lemma PrefixKeeps(xl: imap<nat, Xlate>, m: Regions, level: nat, r: Region, cut: nat)
    requires Separate(m, level) && ShowsAll(xl, m)
    requires r.Mappable(4) && r.start <= cut <= r.End() && Untouched(xl, r.start, cut)
    ensures ShowsAll(xl + Slice(r, r.start, cut), m)
  {
  }

  /** A completed insertion. */
  lemma InsertKeeps(xl: imap<nat, Xlate>, m: Regions, level: nat, r: Region)
    requires Separate(m, level) && ShowsAll(xl, m)
    requires r.Mappable(level) && r.Mappable(4) && r.size > 0 && FreeArea(m, r) && Untouched(xl, r.start, r.End())
    ensures r.start !in m && Separate(m[r.start := r], level)
    ensures ShowsAll(xl + RegionMap(r), m[r.start := r])
    ensures Exact(xl, m) ==> Exact(xl + RegionMap(r), m[r.start := r])
  {
    var m' := m[r.start := r];
    if r.start in m { assert Overlaps(m[r.start], r); }
    PrefixKeeps(xl, m, level, r, r.End());
    forall k | k in m' ensures Shows(xl + RegionMap(r), m'[k]) {
      if k != r.start { assert Shows(xl + RegionMap(r), m[k]); }
    }
    if Exact(xl, m) { InsertExact(xl, m, r, m'); }
  }

  lemma InsertExact(xl: imap<nat, Xlate>, m: Regions, r: Region, m': Regions)
    requires r.Mappable(4) && Exact(xl, m) && r.start !in m && m' == m[r.start := r]
    ensures Exact(xl + RegionMap(r), m')
  {
    forall x: nat | x in xl + RegionMap(r) ensures InSome(m', x) {
      if x in RegionMap(r) { assert m'[r.start].Contains(x); }
      else { var k :| k in m && m[k].Contains(x); assert m'[k].Contains(x); }
    }
  }

  /** In a set whose translation is exact, a free area is untranslated. */
  lemma FreeAreaIsFree(xl: imap<nat, Xlate>, m: Regions, level: nat, r: Region)
    requires Separate(m, level) && Exact(xl, m) && r.size > 0 && FreeArea(m, r)
    ensures RegionFree(xl, r)
  {
    forall x: nat | x in xl ensures !r.Contains(x) {
      var k :| k in m && m[k].Contains(x);
      OverlapMeansShared(m[k], r);
    }
  }

  /** A deletion. */
  lemma DeleteKeeps(xl: imap<nat, Xlate>, m: Regions, level: nat, start: nat)
    requires Separate(m, level) && ShowsAll(xl, m) && start in m
    ensures var xl' := CutOut(xl, start, m[start].End());
            ShowsAll(xl', m - {start}) && (Exact(xl, m) ==> Exact(xl', m - {start}))
    ensures Separate(m - {start}, level)
  {
    var m', xl' := m - {start}, CutOut(xl, start, m[start].End());
    forall k | k in m' ensures Shows(xl', m'[k]) {
      assert Shows(xl, m[k]);
      CutAway(xl, m[start], m[k]);
    }
    if Exact(xl, m) {
      forall x: nat | x in xl' ensures InSome(m', x) { StillInSome(xl, m, start, x); }
    }
  }

  /** Cutting out one region leaves a disjoint one as it was. */
  lemma CutAway(xl: imap<nat, Xlate>, r: Region, q: Region)
    requires Shows(xl, q) && !Overlaps(q, r)
    ensures Shows(CutOut(xl, r.start, r.End()), q)
  {
  }

  lemma StillInSome(xl: imap<nat, Xlate>, m: Regions, start: nat, x: nat)
    requires Exact(xl, m) && start in m && m[start].start == start && x in xl && !(start <= x < m[start].End())
    ensures InSome(m - {start}, x)
  {
    var k :| k in m && m[k].Contains(x);
    assert k in m - {start} && (m - {start})[k].Contains(x);
  }

  /** The meaning of a set in step with an exact translation: an address is
      translated exactly when one registered region holds it, that region is
      the only one, and its mapping is what the address gets. */
  lemma TranslationIsUnion(xl: imap<nat, Xlate>, m: Regions, level: nat, va: nat)
    requires Separate(m, level) && ShowsAll(xl, m) && Exact(xl, m)
    ensures va in xl <==> InSome(m, va)
    ensures forall k | k in m && m[k].Contains(va) ::
              && xl[va] == LeafOf(m[k], va)
              && forall j | j in m && m[j].Contains(va) :: j == k
  {
    forall k | k in m && m[k].Contains(va) ensures xl[va] == LeafOf(m[k], va) { assert Shows(xl, m[k]); }
    forall j, k | j in m && k in m && m[j].Contains(va) && m[k].Contains(va) ensures j == k {
      OverlapMeansShared(m[j], m[k]);
    }
    if InSome(m, va) {
      var k :| k in m && m[k].Contains(va);
      assert Shows(xl, m[k]);
    }
  }
}
