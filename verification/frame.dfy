/** The bitmap frame allocator: one bit per 4 KiB frame, set when the frame is
    not available. The bitmap refines a finite set of free frames. */
module Frames {

  const PAGE_SIZE: nat := 4096
  const MAX_FRAMES: nat := 1048576
  const BITMAP_SIZE: nat := 131072
  // Usable memory below 1 MiB is never handed out.
  const FIRST_FRAME: nat := 256

  datatype Option<+T> = None | Some(value: T)

  /** An entry of the boot loader's memory map. */
  datatype Region = Region(base: nat, length: nat, usable: bool)

  /** `1 << k` on a byte. */
  function Bit(k: nat): bv8
    requires k < 8
  {
    if k == 0 then 1 else if k == 1 then 2 else if k == 2 then 4 else if k == 3 then 8
    else if k == 4 then 16 else if k == 5 then 32 else if k == 6 then 64 else 128
  }

  function Cleared(b: bv8, k: nat): bv8
    requires k < 8
  {
    b & !Bit(k)
  }

  function Raised(b: bv8, k: nat): bv8
    requires k < 8
  {
    b | Bit(k)
  }

  predicate IsClear(b: bv8, k: nat)
    requires k < 8
  {
    b & Bit(k) == 0
  }

  lemma BitsApart(b: bv8, j: nat, k: nat)
    requires j < 8 && k < 8
    ensures IsClear(Cleared(b, j), k) <==> j == k || IsClear(b, k)
    ensures IsClear(Raised(b, j), k) <==> j != k && IsClear(b, k)
  {
    hide Bit;
    BitMasks(j, k);
    if j != k {
      MasksApart(b, Bit(j), Bit(k));
    } else {
      MaskItself(b, Bit(j));
    }
  }

  /** A bit mask is not zero, and two of them share no bit unless they are the same. */
  lemma BitMasks(j: nat, k: nat)
    requires j < 8 && k < 8
    ensures Bit(j) != 0 && (j != k ==> Bit(j) != Bit(k) && Bit(j) & Bit(k) == 0)
  {
  }

  lemma MasksApart(b: bv8, x: bv8, y: bv8)
    requires x & y == 0
    ensures (b & !x) & y == b & y && (b | x) & y == b & y
  {
  }

  lemma MaskItself(b: bv8, x: bv8)
    requires x != 0
    ensures (b & !x) & x == 0 && (b | x) & x != 0
  {
  }

  lemma FullByte(k: nat)
    requires k < 8
    ensures !IsClear(0xFF, k)
  {
  }

  /** A frame is free when its bit is clear; frames past the bitmap never are. */
  predicate FreeIn(bits: seq<bv8>, frame: nat)
    requires |bits| == BITMAP_SIZE
  {
    var byte := frame / 8;
    if byte < BITMAP_SIZE then IsClear(bits[byte], frame % 8) else false
  }

  lemma BitCleared(bits: seq<bv8>, frame: nat, f: nat)
    requires |bits| == BITMAP_SIZE && frame / 8 < BITMAP_SIZE
    ensures FreeIn(bits[frame / 8 := Cleared(bits[frame / 8], frame % 8)], f) <==> FreeIn(bits, f) || f == frame
  {
    hide IsClear, Cleared;
    BitsApart(bits[frame / 8], frame % 8, f % 8);
  }

  lemma BitRaised(bits: seq<bv8>, frame: nat, f: nat)
    requires |bits| == BITMAP_SIZE && frame / 8 < BITMAP_SIZE
    ensures FreeIn(bits[frame / 8 := Raised(bits[frame / 8], frame % 8)], f) <==> FreeIn(bits, f) && f != frame
  {
    hide IsClear, Raised;
    BitsApart(bits[frame / 8], frame % 8, f % 8);
  }

  lemma FullByteUsed(bits: seq<bv8>, byte: nat)
    requires |bits| == BITMAP_SIZE && byte < BITMAP_SIZE && bits[byte] == 0xFF
    ensures forall f :: byte * 8 <= f < byte * 8 + 8 ==> !FreeIn(bits, f)
  {
    hide IsClear;
    forall f | byte * 8 <= f < byte * 8 + 8
      ensures !FreeIn(bits, f)
    {
      FullByte(f % 8);
    }
  }

  class FrameAllocator {
    const bitmap: array<bv8>
    var total: nat
    var used: nat

    ghost predicate Valid()
    {
      bitmap.Length == BITMAP_SIZE
    }

    predicate IsFree(frame: nat)
      requires Valid()
      reads bitmap
    {
      FreeIn(bitmap[..], frame)
    }

    /** The abstract value of the bitmap. */
    ghost function Free(): set<nat>
      requires Valid()
      reads bitmap
    {
      set f | 0 <= f < MAX_FRAMES && IsFree(f)
    }

    /** The allocator as a value, for reasoning about runs. */
    ghost function AsPool(): Pool
      requires Valid()
      reads this, bitmap
    {
      Pool(Free(), total, used)
    }

    constructor ()
      ensures Valid() && fresh(bitmap)
      ensures Free() == {} && total == 0 && used == 0
    {
      bitmap := new bv8[BITMAP_SIZE](_ => 0xFF);
      total, used := 0, 0;
      new;
      forall f | 0 <= f < MAX_FRAMES
        ensures !IsFree(f)
      {
        FullByte(f % 8);
      }
    }

    method MarkFree(frame: nat)
      requires Valid()
      modifies bitmap
      ensures Free() == if frame < MAX_FRAMES then old(Free()) + {frame} else old(Free())
    {
      hide Cleared, FreeIn;
      var byte, bit := frame / 8, frame % 8;
      if byte < BITMAP_SIZE {
        ghost var was := bitmap[..];
        bitmap[byte] := Cleared(bitmap[byte], bit);
        assert bitmap[..] == was[byte := Cleared(was[byte], bit)];
        forall f | 0 <= f < MAX_FRAMES
          ensures IsFree(f) <==> old(IsFree(f)) || f == frame
        {
          BitCleared(was, frame, f);
        }
        assert Free() == old(Free()) + {frame};
      }
    }

    method MarkUsed(frame: nat)
      requires Valid()
      modifies bitmap
      ensures Free() == old(Free()) - {frame}
    {
      hide Raised, FreeIn;
      var byte, bit := frame / 8, frame % 8;
      if byte < BITMAP_SIZE {
        ghost var was := bitmap[..];
        bitmap[byte] := Raised(bitmap[byte], bit);
        assert bitmap[..] == was[byte := Raised(was[byte], bit)];
        forall f | 0 <= f < MAX_FRAMES
          ensures IsFree(f) <==> old(IsFree(f)) && f != frame
        {
          BitRaised(was, frame, f);
        }
      }
    }

    /** Hands out the lowest free frame; fails exactly when no frame is free. */
    method Alloc() returns (r: Option<nat>)
      requires Valid()
      modifies this`used, bitmap
      ensures r.None? <==> old(Free()) == {}
      ensures r.None? ==> Free() == old(Free()) && used == old(used)
      ensures r.Some? ==>
        && r.value % PAGE_SIZE == 0
        && var f := r.value / PAGE_SIZE;
          && f in old(Free()) && (forall g :: g in old(Free()) ==> f <= g)
          && Free() == old(Free()) - {f}
          && used == old(used) + 1
      ensures PoolStep(old(AsPool()), Allocate, AsPool())
    {
      hide FreeIn;
      for byte := 0 to BITMAP_SIZE
        invariant used == old(used) && Free() == old(Free())
        invariant forall f :: 0 <= f < byte * 8 ==> !IsFree(f)
      {
        if bitmap[byte] != 0xFF {
          for bit := 0 to 8
            invariant used == old(used) && Free() == old(Free())
            invariant forall f :: 0 <= f < byte * 8 + bit ==> !IsFree(f)
          {
            var frame := byte * 8 + bit;
            if IsFree(frame) {
              assert frame in Free();
              MarkUsed(frame);
              used := used + 1;
              return Some(frame * PAGE_SIZE);
            }
          }
        } else {
          FullByteUsed(bitmap[..], byte);
        }
      }
      return None;
    }

    /** Returns a frame to the pool; a no-op on a frame that is already free. */
    method Dealloc(phys: nat)
      requires Valid()
      modifies this`used, bitmap
      ensures var f := phys / PAGE_SIZE;
        if f < MAX_FRAMES && f !in old(Free()) then
          Free() == old(Free()) + {f} && used == if old(used) > 0 then old(used) - 1 else 0
        else
          Free() == old(Free()) && used == old(used)
      ensures PoolStep(old(AsPool()), Release(phys / PAGE_SIZE), AsPool())
    {
      var frame := phys / PAGE_SIZE;
      if frame < MAX_FRAMES && !IsFree(frame) {
        MarkFree(frame);
        if used > 0 {
          used := used - 1;
        }
      }
    }

    /** Marks the usable regions of the memory map free. */
    method Init(regions: seq<Region>)
      requires Valid()
      modifies this, bitmap
      ensures Free() == old(Free()) + UsableFrames(regions)
      ensures forall f: nat :: f in Free() <==> f in old(Free()) || exists i :: 0 <= i < |regions| && Offered(regions[i], f)
      ensures total == |Offers(regions)| && used == 0
    {
      hide Free, IsFree, StartFrame, EndFrame, Offers, Offered;
      var count := 0;
      for i := 0 to |regions|
        invariant Free() == old(Free()) + UsableFrames(regions[..i])
        invariant count == UsableCount(regions[..i])
      {
        assert regions[..i + 1][..i] == regions[..i];
        if regions[i].usable {
          var n := MarkSpan(StartFrame(regions[i]), EndFrame(regions[i]));
          count := count + n;
        }
      }
      assert regions[..|regions|] == regions;
      total := count;
      used := 0;
      OffersCounted(regions);
      forall f: nat
        ensures f in UsableFrames(regions) <==> exists i :: 0 <= i < |regions| && Offered(regions[i], f)
      {
        UsableIffOffered(regions, f);
      }
    }

    /** The inner loop of `Init`: marks one region and counts its frames. */
    method MarkSpan(start: nat, end: nat) returns (count: nat)
      requires Valid()
      modifies bitmap
      ensures Free() == old(Free()) + Span(start, end)
      ensures count == |Span(start, end)|
    {
      hide Free, IsFree;
      count := 0;
      var frame := start;
      while frame < end
        invariant start <= frame
        invariant Free() == old(Free()) + Span(start, frame)
        invariant count == |Span(start, frame)|
        invariant Span(start, frame) <= Span(start, end)
      {
        SpanGrows(start, frame);
        if InBitmap(frame) {
          MarkFree(frame);
          count := count + 1;
        }
        frame := frame + 1;
      }
      assert Span(start, frame) == Span(start, end);
    }
  }

  function Max(a: nat, b: nat): nat {
    if a > b then a else b
  }

  function StartFrame(r: Region): nat {
    Max((r.base + PAGE_SIZE - 1) / PAGE_SIZE, FIRST_FRAME)
  }

  function EndFrame(r: Region): nat {
    (r.base + r.length) / PAGE_SIZE
  }

  predicate InBitmap(f: nat) {
    f < MAX_FRAMES
  }

  /** The frames from `lo` up to `hi` that the bitmap can represent. */
  ghost function Span(lo: nat, hi: nat): set<nat> {
    set f | lo <= f < hi && InBitmap(f)
  }

  lemma SpanGrows(lo: nat, hi: nat)
    requires lo <= hi
    ensures Span(lo, hi + 1) == Span(lo, hi) + (if InBitmap(hi) then {hi} else {})
    ensures |Span(lo, hi + 1)| == |Span(lo, hi)| + (if InBitmap(hi) then 1 else 0)
  {
    assert Span(lo, hi + 1) == Span(lo, hi) + (if InBitmap(hi) then {hi} else {});
    assert hi !in Span(lo, hi);
  }

  ghost function RegionFrames(r: Region): set<nat> {
    if r.usable then Span(StartFrame(r), EndFrame(r)) else {}
  }

  /** The whole frame lies in the region, which is usable, and the bitmap hands it out. */
  predicate Offered(r: Region, f: nat) {
    && FIRST_FRAME <= f < MAX_FRAMES && r.usable
    && r.base <= f * PAGE_SIZE && (f + 1) * PAGE_SIZE <= r.base + r.length
  }

  lemma RegionIffOffered(r: Region, f: nat)
    ensures f in RegionFrames(r) <==> Offered(r, f)
  {
  }

  ghost function UsableFrames(regions: seq<Region>): set<nat> {
    if regions == [] then {}
    else UsableFrames(regions[..|regions| - 1]) + RegionFrames(regions[|regions| - 1])
  }

  ghost function UsableCount(regions: seq<Region>): nat {
    if regions == [] then 0
    else UsableCount(regions[..|regions| - 1]) + |RegionFrames(regions[|regions| - 1])|
  }

  /** No frame lies in two usable regions. */
  ghost predicate NonOverlapping(regions: seq<Region>) {
    forall i, j, f :: 0 <= i < j < |regions| && Offered(regions[i], f) ==> !Offered(regions[j], f)
  }

  /** Every way in which some region offers some frame. */
  ghost function Offers(regions: seq<Region>): set<(nat, nat)> {
    set i: nat, f: nat | i < |regions| && f < MAX_FRAMES && Offered(regions[i], f) :: (i, f)
  }

  lemma UsableFramesMember(regions: seq<Region>, f: nat)
    ensures f in UsableFrames(regions) <==> exists i :: 0 <= i < |regions| && f in RegionFrames(regions[i])
  {
    if regions != [] {
      var n := |regions| - 1;
      UsableFramesMember(regions[..n], f);
      if f in UsableFrames(regions[..n]) {
        var i :| 0 <= i < n && f in RegionFrames(regions[..n][i]);
        assert f in RegionFrames(regions[i]);
      }
      if i :| 0 <= i < n && f in RegionFrames(regions[i]) {
        assert f in RegionFrames(regions[..n][i]);
      }
    }
  }

  /** The boot loader's map decides which frames are usable: those that lie as a whole in a
      usable region, from 1 MiB up to the end of the bitmap. */
  lemma UsableIffOffered(regions: seq<Region>, f: nat)
    ensures f in UsableFrames(regions) <==> exists i :: 0 <= i < |regions| && Offered(regions[i], f)
  {
    hide UsableFrames, RegionFrames, Offered;
    UsableFramesMember(regions, f);
    forall i | 0 <= i < |regions|
      ensures f in RegionFrames(regions[i]) <==> Offered(regions[i], f)
    {
      RegionIffOffered(regions[i], f);
    }
  }

  lemma NoneShared<T>(a: set<T>, b: set<T>)
    ensures |a * b| == 0 <==> a !! b
  {
    if a !! b {
      assert a * b == {};
    } else {
      var x :| x in a && x in b;
      assert x in a * b;
    }
  }

  lemma UnionSize<T>(a: set<T>, b: set<T>)
    ensures |a + b| == |a| + |b| - |a * b|
  {
    assert a + b == a + (b - a);
    assert b == (b - a) + a * b;
  }

  lemma DisjointFromAll(regions: seq<Region>, frames: set<nat>)
    ensures UsableFrames(regions) !! frames
      <==> forall i :: 0 <= i < |regions| ==> RegionFrames(regions[i]) !! frames
  {
    if UsableFrames(regions) !! frames {
      forall i, f | 0 <= i < |regions| && f in RegionFrames(regions[i])
        ensures f !in frames
      {
        UsableFramesMember(regions, f);
      }
    } else {
      var f :| f in UsableFrames(regions) && f in frames;
      UsableFramesMember(regions, f);
    }
  }

  lemma NonOverlappingSnoc(front: seq<Region>, last: Region)
    ensures NonOverlapping(front + [last])
      <==> NonOverlapping(front) && UsableFrames(front) !! RegionFrames(last)
  {
    hide RegionFrames, UsableFrames, Offered;
    var all, n := front + [last], |front|;
    DisjointFromAll(front, RegionFrames(last));
    assert all[n] == last && forall i :: 0 <= i < n ==> all[i] == front[i];
    forall r: Region, f: nat
      ensures f in RegionFrames(r) <==> Offered(r, f)
    {
      RegionIffOffered(r, f);
    }
    if NonOverlapping(all) {
      forall i, j, f | 0 <= i < j < n && Offered(front[i], f)
        ensures !Offered(front[j], f)
      {
        assert Offered(all[i], f);
      }
      forall i, f: nat | 0 <= i < n && f in RegionFrames(front[i])
        ensures f !in RegionFrames(last)
      {
        assert Offered(all[i], f);
      }
    }
  }

  ghost function Paired(n: nat, frames: set<nat>): set<(nat, nat)> {
    set f | f in frames :: (n, f)
  }

  lemma OffersSnoc(regions: seq<Region>, n: nat)
    requires |regions| == n + 1
    ensures Offers(regions) == Offers(regions[..n]) + Paired(n, RegionFrames(regions[n]))
    ensures Offers(regions[..n]) !! Paired(n, RegionFrames(regions[n]))
  {
    hide RegionFrames, Offered;
    forall i: nat, f: nat
      ensures (i, f) in Offers(regions) <==> i < |regions| && f in RegionFrames(regions[i])
      ensures (i, f) in Offers(regions[..n]) <==> i < n && f in RegionFrames(regions[i])
    {
      if i < |regions| {
        RegionIffOffered(regions[i], f);
        OfferedInBitmap(regions[i], f);
      }
    }
  }

  lemma OfferedInBitmap(r: Region, f: nat)
    ensures Offered(r, f) ==> f < MAX_FRAMES
  {
  }

  lemma {:induction false} PairedSize(n: nat, frames: set<nat>)
    ensures |Paired(n, frames)| == |frames|
  {
    if frames == {} {
      assert Paired(n, {}) == {};
    } else {
      var x :| x in frames;
      PairedSize(n, frames - {x});
      assert Paired(n, frames) == Paired(n, frames - {x}) + {(n, x)};
    }
  }

  /** The boot count counts a frame once for each region that offers it. */
  lemma {:induction false} OffersCounted(regions: seq<Region>)
    ensures UsableCount(regions) == |Offers(regions)|
  {
    if regions == [] {
      assert Offers(regions) == {};
    } else {
      hide Offered, RegionFrames, Offers;
      var n := |regions| - 1;
      OffersCounted(regions[..n]);
      OffersSnoc(regions, n);
      PairedSize(n, RegionFrames(regions[n]));
    }
  }

  /** The boot count of free frames is the true size of the free set exactly
      when no frame lies in two usable regions. */
  lemma {:induction false} InitCountsExactly(regions: seq<Region>)
    ensures UsableCount(regions) == |Offers(regions)| >= |UsableFrames(regions)|
    ensures |Offers(regions)| == |UsableFrames(regions)| <==> NonOverlapping(regions)
    ensures forall f :: f in UsableFrames(regions) ==> FIRST_FRAME <= f < MAX_FRAMES
  {
    hide NonOverlapping, Offers, RegionFrames;
    OffersCounted(regions);
    if regions == [] {
      NoRegions();
    } else {
      var front, last := regions[..|regions| - 1], regions[|regions| - 1];
      InitCountsExactly(front);
      OffersCounted(front);
      UnionSize(UsableFrames(front), RegionFrames(last));
      NonOverlappingSnoc(front, last);
      assert front + [last] == regions;
      NoneShared(UsableFrames(front), RegionFrames(last));
      RegionInBitmap(last);
    }
  }

  lemma RegionInBitmap(r: Region)
    ensures forall f :: f in RegionFrames(r) ==> FIRST_FRAME <= f < MAX_FRAMES
  {
  }

  lemma NoRegions()
    ensures NonOverlapping([])
  {
  }

  // ---------- Runs of the allocator ----------

  /** The allocator as a value: the set of free frames and the two counters. */
  datatype Pool = Pool(free: set<nat>, total: nat, used: nat)

  datatype Op = Allocate | Release(frame: nat)

  ghost predicate LeastFree(free: set<nat>, f: nat) {
    f in free && forall g :: g in free ==> f <= g
  }

  ghost predicate PoolStep(p: Pool, op: Op, q: Pool) {
    && q.total == p.total
    && match op
       case Allocate =>
         if p.free == {} then q == p
         else exists f :: LeastFree(p.free, f) && q == p.(free := p.free - {f}, used := p.used + 1)
       case Release(f) =>
         if f < MAX_FRAMES && f !in p.free then
           q == p.(free := p.free + {f}, used := if p.used > 0 then p.used - 1 else 0)
         else q == p
  }

  /** A run that releases only frames of `pool`, the set that was free after boot. */
  ghost predicate PoolRun(run: seq<Pool>, ops: seq<Op>, pool: set<nat>) {
    && |run| == |ops| + 1
    && run[0].free == pool && run[0].total == |pool| && run[0].used == 0
    && (forall i :: 0 <= i < |ops| ==> PoolStep(run[i], ops[i], run[i + 1]))
    && (forall i :: 0 <= i < |ops| && ops[i].Release? ==> ops[i].frame in pool)
  }

  ghost predicate Accounted(p: Pool, pool: set<nat>) {
    p.free <= pool && p.total == |pool| && p.used == |pool - p.free|
  }

  lemma TakenSize(pool: set<nat>, free: set<nat>, f: nat)
    requires free <= pool && f in free
    ensures |pool - (free - {f})| == |pool - free| + 1
  {
    assert pool - (free - {f}) == (pool - free) + {f};
  }

  lemma {:induction false} AccountedStep(p: Pool, op: Op, q: Pool, pool: set<nat>)
    requires Accounted(p, pool) && PoolStep(p, op, q)
    requires op.Release? ==> op.frame in pool
    ensures Accounted(q, pool)
  {
    match op
    case Allocate =>
      if p.free != {} {
        var f :| LeastFree(p.free, f) && q == p.(free := p.free - {f}, used := p.used + 1);
        TakenSize(pool, p.free, f);
      }
    case Release(f) =>
      if f < MAX_FRAMES && f !in p.free {
        TakenSize(pool, q.free, f);
        assert q.free - {f} == p.free;
      }
  }

  /** Conservation: over every run, used plus free is the boot total. */
  lemma {:induction false} RunConservesFrames(run: seq<Pool>, ops: seq<Op>, pool: set<nat>, n: nat)
    requires PoolRun(run, ops, pool) && n < |run|
    ensures Accounted(run[n], pool)
    ensures run[n].used + |run[n].free| == run[n].total
  {
    if n == 0 {
      assert pool - pool == {};
    } else {
      RunConservesFrames(run, ops, pool, n - 1);
      AccountedStep(run[n - 1], ops[n - 1], run[n], pool);
    }
    assert pool == (pool - run[n].free) + run[n].free;
  }
}
