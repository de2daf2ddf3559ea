/** The physical frame allocator and the memory behind it. */
module FramePool {
  import opened Descriptor
  import opened Options
  import opened PageTree

  function AlignUp(a: nat): nat { (a + 0xfff) / 0x1000 * 0x1000 }

  /** The least multiple of 0x1000 at or above `a`. */
  lemma AlignUpMeans(a: nat, x: nat)
    ensures AlignUp(a) % 0x1000 == 0 && a <= AlignUp(a)
    ensures x % 0x1000 == 0 && a <= x ==> AlignUp(a) <= x
  {
  }

  /** Some live frame covers index `i`. */
  ghost predicate Covered(live: map<nat, nat>, i: nat) {
    exists s :: s in live && s <= i < s + live[s]
  }

  /** Live frames lie in the pool, are pairwise disjoint, and with the free set
      they partition it. `live` maps a frame's first index to its frame count. */
  ghost predicate Partition(count: nat, free: set<nat>, live: map<nat, nat>) {
    && (forall s | s in live :: 1 <= live[s] && s + live[s] <= count)
    && (forall s, t | s in live && t in live && s < t :: s + live[s] <= t)
    && (forall i | i in free :: i < count)
    && (forall i: nat | i < count :: i in free <==> !Covered(live, i))
  }

  function FrameAt(base: nat, i: nat): nat { base + 0x1000 * i }

  ghost predicate IsFrame(base: nat, f: nat) { base <= f && FrameAt(base, (f - base) / 0x1000) == f }

  /** The indices of the allocator seen as frame addresses. */
  ghost predicate ByAddress(base: nat, free: set<nat>, live: map<nat, nat>, freeFrames: set<nat>, liveFrames: set<nat>) {
    && (forall i: nat {:trigger FrameAt(base, i)} ::
          && (i in free <==> FrameAt(base, i) in freeFrames)
          && (i in live && live[i] == 1 <==> FrameAt(base, i) in liveFrames))
    && (forall f | f in freeFrames || f in liveFrames :: IsFrame(base, f))
  }

  ghost function Image(base: nat, r: set<nat>): set<nat> { set i | i in r :: FrameAt(base, i) }

  lemma ImageMember(base: nat, r: set<nat>, i: nat)
    ensures FrameAt(base, i) in Image(base, r) <==> i in r
  {
    if FrameAt(base, i) in Image(base, r) {
      var j :| j in r && FrameAt(base, j) == FrameAt(base, i);
    }
  }

  lemma ImageIsFrame(base: nat, r: set<nat>, f: nat)
    requires f in Image(base, r)
    ensures IsFrame(base, f)
  {
  }

  /** Taking and giving indices, seen by address. */
  lemma TakeByAddress(base: nat, free: set<nat>, live: map<nat, nat>, ff: set<nat>, lf: set<nat>, s: nat, n: nat)
    requires ByAddress(base, free, live, ff, lf) && s !in live
    ensures ByAddress(base, free - Run(s, n), live[s := n], ff - Image(base, Run(s, n)),
                      if n == 1 then lf + {FrameAt(base, s)} else lf)
  {
    var r, live' := Run(s, n), live[s := n];
    var ff', lf' := ff - Image(base, r), if n == 1 then lf + {FrameAt(base, s)} else lf;
    forall i: nat
      ensures i in free - r <==> FrameAt(base, i) in ff'
      ensures i in live' && live'[i] == 1 <==> FrameAt(base, i) in lf'
    {
      ImageMember(base, r, i);
    }
    assert IsFrame(base, FrameAt(base, s));
  }

  lemma GiveByAddress(base: nat, free: set<nat>, live: map<nat, nat>, ff: set<nat>, lf: set<nat>, s: nat)
    requires ByAddress(base, free, live, ff, lf) && s in live
    ensures ByAddress(base, free + Run(s, live[s]), live - {s}, ff + Image(base, Run(s, live[s])), lf - {FrameAt(base, s)})
  {
    var r := Run(s, live[s]);
    GiveSetByAddress(base, free, live, ff, lf, s, r, Image(base, r)) by {
      forall i: nat ensures i in r <==> FrameAt(base, i) in Image(base, r) { ImageMember(base, r, i); }
      forall f | f in Image(base, r) ensures IsFrame(base, f) { ImageIsFrame(base, r, f); }
    }
  }

  lemma GiveSetByAddress(base: nat, free: set<nat>, live: map<nat, nat>, ff: set<nat>, lf: set<nat>,
                         s: nat, r: set<nat>, m: set<nat>)
    requires ByAddress(base, free, live, ff, lf) && s in live
    requires forall i: nat {:trigger FrameAt(base, i)} :: i in r <==> FrameAt(base, i) in m
    requires forall f | f in m :: IsFrame(base, f)
    ensures ByAddress(base, free + r, live - {s}, ff + m, lf - {FrameAt(base, s)})
  {
  }

  lemma ImageOne(base: nat, s: nat)
    ensures Run(s, 1) == {s} && Image(base, Run(s, 1)) == {FrameAt(base, s)}
  {
    RunOne(s);
  }

  /** The pool's frames are pages of memory below the physical limit. */
  ghost predicate Placed(base: nat, count: nat, mem: Memory) {
    var placed :=
      && base % 0x1000 == 0 && base + 0x1000 * count <= PHYS_LIMIT
      && (forall i: nat {:trigger FrameAt(base, i)} | i < count :: FrameAt(base, i) in mem && |mem[FrameAt(base, i)]| == 512);
    placed
  }

  ghost predicate Consistent(base: nat, count: nat, free: set<nat>, live: map<nat, nat>, ff: set<nat>, lf: set<nat>) {
    var consistent := Partition(count, free, live) && ByAddress(base, free, live, ff, lf);
    consistent
  }

  /** A free run taken, by index and by address; `r` is the run and `m` its image. */
  lemma RunTaken(base: nat, count: nat, free: set<nat>, live: map<nat, nat>, ff: set<nat>, lf: set<nat>,
                 s: nat, n: nat, r: set<nat>, m: set<nat>)
    requires Consistent(base, count, free, live, ff, lf) && n >= 1 && forall i: nat | s <= i < s + n :: i in free
    requires r == Run(s, n) && m == Image(base, r)
    ensures Consistent(base, count, free - r, live[s := n], ff - m, if n == 1 then lf + {FrameAt(base, s)} else lf)
    ensures s in free && FrameAt(base, s) in ff
  {
    TakeRun(count, free, live, s, n);
    TakeByAddress(base, free, live, ff, lf, s, n);
  }

  class Pool {
    /** `base`, and the bit set of `BitAlloc1M` by index. */
    var base: nat
    var free: set<nat>
    /** The contents of the pool's frames, by frame address. */
    var mem: Memory
    ghost var count: nat
    ghost var live: map<nat, nat>
    /** The free frames and the live single frames, by address. */
    ghost var freeFrames: set<nat>
    ghost var liveFrames: set<nat>

    ghost predicate Valid()
      reads this
    {
      Placed(base, count, mem) && Consistent(base, count, free, live, freeFrames, liveFrames)
    }

    /** What users of the pool need to know about its frames. */
    lemma FrameFacts()
      requires Valid()
      ensures freeFrames !! liveFrames && (freeFrames == {} <==> free == {})
      ensures forall f | f in freeFrames || f in liveFrames ::
                f in mem && |mem[f]| == 512 && f % 0x1000 == 0 && f < PHYS_LIMIT
    {
      forall f | f in freeFrames || f in liveFrames
        ensures !(f in freeFrames && f in liveFrames) && f in mem && |mem[f]| == 512 && f % 0x1000 == 0 && f < PHYS_LIMIT
      {
        var i := (f - base) / 0x1000;
        assert FrameAt(base, i) == f;
        if i in live && live[i] == 1 { assert Covered(live, i); }
      }
      if i :| i in free { assert FrameAt(base, i) in freeFrames; }
      if f :| f in freeFrames { assert (f - base) / 0x1000 in free; }
    }

    /** `FrameAllocator::init`: all pages of the pool are free. */
    constructor (start: nat, size: nat, contents: Memory)
      requires AlignUp(start) + AlignUp(size) <= PHYS_LIMIT
      requires AlignUp(size) / 0x1000 <= 0x10_0000
      requires forall i: nat | i < AlignUp(size) / 0x1000 ::
                 FrameAt(AlignUp(start), i) in contents && |contents[FrameAt(AlignUp(start), i)]| == 512
      ensures Valid() && live == map[] && mem == contents
      ensures base == AlignUp(start) && count == AlignUp(size) / 0x1000
      ensures free == Run(0, count)
    {
      base := AlignUp(start);
      free := Run(0, AlignUp(size) / 0x1000);
      mem := contents;
      count := AlignUp(size) / 0x1000;
      live := map[];
      freeFrames := set i | i in Run(0, AlignUp(size) / 0x1000) :: FrameAt(AlignUp(start), i);
      liveFrames := {};
    }

    /** `Frame::new`: any free frame, or none when the pool is empty. */
    method Alloc() returns (r: Option<nat>)
      requires Valid()
      modifies this`free, this`live, this`freeFrames, this`liveFrames
      ensures Valid()
      ensures r.None? <==> old(free) == {}
      ensures r.None? ==> free == old(free) && live == old(live)
      ensures r.None? ==> freeFrames == old(freeFrames) && liveFrames == old(liveFrames)
      ensures r.Some? ==> r.value in old(freeFrames) && freeFrames == old(freeFrames) - {r.value}
      ensures r.Some? ==> liveFrames == old(liveFrames) + {r.value}
      ensures r.Some? ==> exists i :: (
                            && i in old(free) && r.value == FrameAt(base, i)
                            && free == old(free) - {i} && live == old(live)[i := 1])
    {
      if free == {} {
        return None;
      }
      var i :| i in free;
      TakeOne(count, free, live, i);
      ImageOne(base, i);
      TakeByAddress(base, free, live, freeFrames, liveFrames, i, 1);
      var f := FrameAt(base, i);
      assert f in freeFrames;
      free := free - {i};
      live := live[i := 1];
      freeFrames := freeFrames - {f};
      liveFrames := liveFrames + {f};
      r := Some(f);
    }

    /** `Frame::new_zero`. */
    method NewZero() returns (r: Option<nat>)
      requires Valid()
      modifies this`free, this`live, this`freeFrames, this`liveFrames, this`mem
      ensures Valid()
      ensures r.None? <==> old(free) == {}
      ensures r.None? ==> free == old(free) && live == old(live)
      ensures r.None? ==> freeFrames == old(freeFrames) && liveFrames == old(liveFrames)
      ensures r.None? ==> mem == old(mem)
      ensures r.Some? ==> r.value in old(freeFrames) && freeFrames == old(freeFrames) - {r.value}
      ensures r.Some? ==> liveFrames == old(liveFrames) + {r.value} && mem == old(mem)[r.value := ZeroFrame()]
      ensures r.Some? ==> |free| + 1 == |old(free)|
    {
      r := Alloc();
      if r.Some? {
        FrameFacts();
        Clear(r.value);
      }
    }

    /** `Frame::new_contiguous`: `n` consecutive frames on an aligned index. */
    method AllocContiguous(n: nat, alignment: nat) returns (r: Option<nat>)
      requires Valid() && n >= 1 && alignment >= 1
      modifies this`free, this`live, this`freeFrames, this`liveFrames
      ensures Valid()
      ensures r.None? <==> !exists s :: s in old(free) && s % alignment == 0 && Run(s, n) <= old(free)
      ensures r.None? ==> free == old(free) && live == old(live)
      ensures r.Some? ==> exists s :: (
                            && s in old(free) && s % alignment == 0 && Run(s, n) <= old(free) && r.value == FrameAt(base, s)
                            && live == old(live)[s := n] && free == old(free) - Run(s, n))
    {
      if s :| s in free && s % alignment == 0 && Run(s, n) <= free {
        TakeAt(s, n);
        return Some(FrameAt(base, s));
      }
      r := None;
    }

    /** Takes `n` free frames from index `s` on. */
    method TakeAt(s: nat, n: nat)
      requires Valid() && n >= 1 && forall i: nat | s <= i < s + n :: i in free
      modifies this`free, this`live, this`freeFrames, this`liveFrames
      ensures Valid() && free == old(free) - Run(s, n) && live == old(live)[s := n]
    {
      ghost var r := Run(s, n);
      ghost var m := Image(base, r);
      RunTaken(base, count, free, live, freeFrames, liveFrames, s, n, r, m);
      free := free - Run(s, n);
      live := live[s := n];
      freeFrames := freeFrames - m;
      liveFrames := if n == 1 then liveFrames + {FrameAt(base, s)} else liveFrames;
    }

    /** `Drop for Frame`: one frame, a loop over several, nothing for a frame
        made by `from_paddr`. */
    method Drop(start: nat, frameCount: nat)
      requires Valid()
      requires frameCount != 0 ==> start >= base && Index(start) in live && live[Index(start)] == frameCount
      modifies this`free, this`live, this`freeFrames, this`liveFrames
      ensures Valid()
      ensures frameCount == 0 ==> free == old(free) && live == old(live)
      ensures frameCount != 0 ==> free == old(free) + Run(Index(start), frameCount)
      ensures frameCount != 0 ==> old(free) !! Run(Index(start), frameCount)
      ensures frameCount != 0 ==> live == old(live) - {Index(start)}
      ensures frameCount == 1 && start in old(liveFrames) ==>
                freeFrames == old(freeFrames) + {start} && liveFrames == old(liveFrames) - {start}
    {
      if frameCount != 0 {
        Dealloc(Index(start), frameCount);
      }
    }

    function Index(f: nat): nat
      requires f >= base
      reads this`base
    {
      (f - base) / 0x1000
    }

    method Dealloc(s: nat, frameCount: nat)
      requires Valid() && s in live && live[s] == frameCount
      modifies this`free, this`live, this`freeFrames, this`liveFrames
      ensures Valid()
      ensures free == old(free) + Run(s, frameCount) && live == old(live) - {s} && old(free) !! Run(s, frameCount)
      ensures frameCount == 1 ==> freeFrames == old(freeFrames) + {FrameAt(base, s)}
      ensures frameCount == 1 ==> liveFrames == old(liveFrames) - {FrameAt(base, s)}
    {
      GiveRun(count, free, live, s);
      GiveByAddress(base, free, live, freeFrames, liveFrames, s);
      ImageOne(base, s);
      if frameCount == 1 {
        free := free + {s};
      } else {
        DeallocContiguous(s, frameCount);
      }
      live := live - {s};
      freeFrames := freeFrames + Image(base, Run(s, frameCount));
      liveFrames := liveFrames - {FrameAt(base, s)};
    }

    method DeallocContiguous(s: nat, n: nat)
      modifies this`free
      ensures free == old(free) + Run(s, n)
    {
      for i := s to s + n
        invariant free == old(free) + Run(s, i - s)
      {
        free := free + {i};
        RunNext(s, i - s);
      }
    }

    /** Dropping a single live frame, by address. */
    method DropOne(f: nat)
      requires Valid() && f in liveFrames
      modifies this`free, this`live, this`freeFrames, this`liveFrames
      ensures Valid()
      ensures freeFrames == old(freeFrames) + {f} && liveFrames == old(liveFrames) - {f}
    {
      assert FrameAt(base, (f - base) / 0x1000) == f;
      Drop(f, 1);
    }

    /** A write of one descriptor to frame memory. */
    method Write(f: nat, i: nat, d: nat)
      requires Valid() && f in mem && i < |mem[f]|
      modifies this`mem
      ensures Valid() && mem == Store(old(mem), f, i, d)
    {
      mem := Store(mem, f, i, d);
    }

    /** `Frame::clear`: store zero in every word of the frame. */
    method Clear(f: nat)
      requires Valid() && f in mem && |mem[f]| == 512
      modifies this`mem
      ensures Valid() && mem == old(mem)[f := ZeroFrame()]
    {
      for i := 0 to 512
        invariant f in mem && |mem[f]| == 512 && forall j | 0 <= j < i :: mem[f][j] == 0
        invariant mem == old(mem)[f := mem[f]]
      {
        mem := Store(mem, f, i, 0);
      }
      assert mem[f] == ZeroFrame();
    }
  }

  /** The indices `s .. s + n`. */
  function Run(s: nat, n: nat): (r: set<nat>)
    ensures forall i :: i in r <==> s <= i < s + n
  {
    if n == 0 then {} else Run(s, n - 1) + {s + n - 1}
  }

  lemma RunOne(s: nat)
    ensures Run(s, 1) == {s}
  {
    assert forall i :: i in Run(s, 1) <==> i == s;
  }

  lemma RunNext(s: nat, n: nat)
    ensures Run(s, n + 1) == Run(s, n) + {s + n}
  {
  }

  /** Taking free indices keeps the partition. */
  lemma TakeRun(count: nat, free: set<nat>, live: map<nat, nat>, s: nat, n: nat)
    requires Partition(count, free, live) && n >= 1 && forall i: nat | s <= i < s + n :: i in free
    ensures Partition(count, free - Run(s, n), live[s := n])
    ensures s !in live
  {
    var live' := live[s := n];
    assert s in free && !Covered(live, s);
    forall a, b | a in live' && b in live' && a < b ensures a + live'[a] <= b {
      if a == s && s + n > b { assert b in free && Covered(live, b); }
    }
    forall i: nat | i < count ensures i in free - Run(s, n) <==> !Covered(live', i) {
      if s <= i < s + n { assert s in live'; }
      if Covered(live', i) && !(s <= i < s + n) {
        var t :| t in live' && t <= i < t + live'[t];
        assert t in live;
      }
      if Covered(live, i) {
        var t :| t in live && t <= i < t + live[t];
        assert t in live' && (t != s);
      }
    }
    assert s + n - 1 in free;
  }

  lemma TakeOne(count: nat, free: set<nat>, live: map<nat, nat>, i: nat)
    requires Partition(count, free, live) && i in free
    ensures Partition(count, free - {i}, live[i := 1]) && i !in live
  {
    TakeRun(count, free, live, i, 1);
    RunOne(i);
  }

  /** Giving a live frame back keeps the partition. */
  lemma GiveRun(count: nat, free: set<nat>, live: map<nat, nat>, s: nat)
    requires Partition(count, free, live) && s in live
    ensures Partition(count, free + Run(s, live[s]), live - {s})
    ensures free !! Run(s, live[s])
  {
    GiveSet(count, free, live, s, Run(s, live[s]));
  }

  lemma GiveSet(count: nat, free: set<nat>, live: map<nat, nat>, s: nat, r: set<nat>)
    requires Partition(count, free, live) && s in live
    requires forall i :: i in r <==> s <= i < s + live[s]
    ensures Partition(count, free + r, live - {s}) && free !! r
  {
    var live' := live - {s};
    forall i: nat | i < count ensures i in free + r <==> !Covered(live', i) {
      GiveIndex(count, free, live, s, i);
    }
    forall i | i in r ensures i !in free { assert Covered(live, i); }
  }

  lemma GiveIndex(count: nat, free: set<nat>, live: map<nat, nat>, s: nat, i: nat)
    requires Partition(count, free, live) && s in live && i < count
    ensures i in free || s <= i < s + live[s] <==> !Covered(live - {s}, i)
  {
    var live' := live - {s};
    if Covered(live', i) {
      UncoverOthers(live, s, i);
    } else if i !in free {
      var t :| t in live && t <= i < t + live[t];
      assert t == s || t in live';
    }
  }

  lemma UncoverOthers(live: map<nat, nat>, s: nat, i: nat)
    requires s in live && Covered(live - {s}, i)
    requires forall s, t | s in live && t in live && s < t :: s + live[s] <= t
    ensures Covered(live, i) && !(s <= i < s + live[s])
  {
    var t :| t in live - {s} && t <= i < t + (live - {s})[t];
    assert t in live && t != s;
  }
}
