/** Virtual memory areas of a process and the search for a free region. */
module Vmas {
  import opened Bits
  import opened Frames
  import opened PageTree

  const PAGE_MASK: nat := 0xFFFF_FFFF_FFFF_F000
  // Exclusive upper limit of the region search.
  const REGION_LIMIT: nat := 0x7FFF_0000_0000

  function PageDown(a: nat): nat {
    And(a, PAGE_MASK)
  }

  function PageUp(a: nat): nat {
    And(a + 0xFFF, PAGE_MASK)
  }

  lemma PageRounding(a: nat)
    requires a + 0xFFF < U64
    ensures PageDown(a) == a / PAGE_SIZE * PAGE_SIZE
    ensures PageUp(a) == (a + 0xFFF) / PAGE_SIZE * PAGE_SIZE
    ensures PageDown(a) <= a <= PageUp(a) < a + PAGE_SIZE
    ensures PageAligned(PageDown(a)) && PageAligned(PageUp(a))
  {
    hide And;
    MaskedDown(a);
    MaskedDown(a + 0xFFF);
  }

  lemma MaskedDown(a: nat)
    requires a < U64
    ensures And(a, PAGE_MASK) == a / PAGE_SIZE * PAGE_SIZE
  {
    hide And, Pow2;
    MaskValues();
    AndField(a, 12, 52);
    assert a / PAGE_SIZE < MAX_PHYS;
  }

  datatype VmaFlags = VmaFlags(write: bool, exec: bool)

  datatype Vma = Vma(start: nat, end: nat, flags: VmaFlags) {
    predicate Contains(addr: nat) {
      start <= addr < end
    }

    predicate Conflicts(at: nat, size: nat) {
      at < end && at + size > start
    }
  }

  /** The first area that contains an address. */
  function FindVma(regions: seq<Vma>, addr: nat): Option<Vma> {
    if regions == [] then None
    else if regions[0].Contains(addr) then Some(regions[0])
    else FindVma(regions[1..], addr)
  }

  lemma {:induction false} FindVmaCovers(regions: seq<Vma>, addr: nat)
    ensures FindVma(regions, addr).Some? <==> Covered(regions, addr)
    ensures FindVma(regions, addr).Some? ==> FindVma(regions, addr).value in regions
  {
    if regions != [] {
      FindVmaCovers(regions[1..], addr);
      if v :| v in regions && v.Contains(addr) {
        assert v == regions[0] || v in regions[1..];
      }
    }
  }

  predicate Covered(regions: seq<Vma>, addr: nat) {
    exists v :: v in regions && v.Contains(addr)
  }

  // ---------- Placement ----------

  /** A page-aligned place at or above the hint, below the limit, clear of every area. */
  ghost predicate Fits(regions: seq<Vma>, hint: nat, size: nat, at: nat) {
    && PageAligned(at)
    && PageUp(hint) <= at
    && at + PageUp(size) <= REGION_LIMIT
    && forall v :: v in regions ==> at >= v.end || at + PageUp(size) <= v.start
  }

  function EndingAbove(regions: seq<Vma>, at: nat): nat {
    if regions == [] then 0
    else (if regions[0].end > at then 1 else 0) + EndingAbove(regions[1..], at)
  }

  lemma {:induction false} EndingAboveFalls(regions: seq<Vma>, lo: nat, hi: nat)
    requires lo <= hi
    ensures EndingAbove(regions, hi) <= EndingAbove(regions, lo)
    ensures (exists v :: v in regions && lo < v.end <= hi) ==> EndingAbove(regions, hi) < EndingAbove(regions, lo)
  {
    if regions != [] {
      EndingAboveFalls(regions[1..], lo, hi);
      if v :| v in regions && lo < v.end <= hi {
        assert v == regions[0] || v in regions[1..];
      }
    }
  }

  /** Sizes and addresses for which the search cannot wrap around 2^64. */
  ghost predicate NoWrap(regions: seq<Vma>, hint: nat, size: nat) {
    && hint + size + 2 * PAGE_SIZE < U64
    && forall v :: v in regions ==> v.end + size + 2 * PAGE_SIZE < U64
  }

  lemma PastRegion(end: nat, at: nat)
    requires PageAligned(at) && at >= end && end + 0xFFF < U64
    ensures PageUp(end) <= at
  {
    hide PageUp;
    PageRounding(end);
  }

  /** The lowest place that fits, or None exactly when there is none. */
  method FindFreeRegion(regions: seq<Vma>, hint: nat, size: nat) returns (r: Option<nat>)
    requires NoWrap(regions, hint, size)
    ensures r.Some? ==> Fits(regions, hint, size, r.value)
    ensures r.Some? ==> forall at :: Fits(regions, hint, size, at) ==> r.value <= at
    ensures r.None? ==> forall at :: !Fits(regions, hint, size, at)
  {
    hide And, PageUp;
    PageRounding(hint);
    PageRounding(size);
    var alignedSize := PageUp(size);
    var candidate: nat := PageUp(hint);
    while true
      invariant PageAligned(candidate) && PageUp(hint) <= candidate
      invariant candidate + alignedSize < U64
      invariant forall at :: Fits(regions, hint, size, at) ==> candidate <= at
      decreases EndingAbove(regions, candidate)
    {
      if candidate + alignedSize > REGION_LIMIT {
        return None;
      }
      var conflict := false;
      var i := 0;
      ghost var before := candidate;
      while i < |regions|
        invariant i <= |regions| && !conflict && candidate == before
        invariant forall j :: 0 <= j < i ==> !regions[j].Conflicts(candidate, alignedSize)
      {
        if regions[i].Conflicts(candidate, alignedSize) {
          PageRounding(regions[i].end);
          candidate := PageUp(regions[i].end);
          conflict := true;
          ghost var v := regions[i];
          assert v in regions;
          forall at: nat | Fits(regions, hint, size, at)
            ensures candidate <= at
          {
            assert at >= v.end;
            PastRegion(v.end, at);
          }
          EndingAboveFalls(regions, before, candidate);
          break;
        }
        i := i + 1;
      }
      if !conflict {
        return Some(candidate);
      }
    }
  }
}
