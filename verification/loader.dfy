/** The ELF loader: a fresh address space filled page by page so that it holds
    exactly the memory image of the file. */
module Loader {
  import opened Bits
  import opened Bytes
  import opened Frames
  import opened PageTree
  import opened Translation
  import opened Mapping
  import opened Hardware
  import opened Paging
  import opened Vmas
  import opened Elf
  import opened ElfImage
  import opened Processes
  import opened Ownership
  import opened Worlds
  import opened Losses
  import opened UserMemory
  import opened System
  import opened Calls

  const STACK_TOP: nat := 0x7FFF_FFFF_0000
  const STACK_SIZE: nat := 262144
  const STACK_PAGES: nat := 2

  // ---------- Specification ----------

  function AreaOf(s: Phdr): Vma {
    Vma(SegStart(s), SegEnd(s), VmaFlags(And(s.flags, 2) != 0, And(s.flags, 1) != 0))
  }

  function AreasOf(segs: seq<Phdr>): seq<Vma> {
    seq(|segs|, i requires 0 <= i < |segs| => AreaOf(segs[i]))
  }

  const STACK_AREA: Vma := Vma(STACK_TOP - STACK_SIZE, STACK_TOP, VmaFlags(true, false))

  function MaxEnd(segs: seq<Phdr>, n: nat): nat
    requires n <= |segs|
  {
    if n == 0 then 0
    else if SegEnd(segs[n - 1]) > MaxEnd(segs, n - 1) then SegEnd(segs[n - 1]) else MaxEnd(segs, n - 1)
  }

  /** The byte that a mapped user address reads. */
  ghost function ByteAt(m: seq<byte>, space: map<nat, nat>, a: nat): byte
    requires a / PAGE_SIZE in space
  {
    var at := space[a / PAGE_SIZE] * PAGE_SIZE + a % PAGE_SIZE;
    if at < |m| then m[at] else 0
  }

  /** Every mapped byte is what the image says after `j` segments, and below `cur`
      after one segment more. */
  ghost predicate ImageLoaded(m: seq<byte>, space: map<nat, nat>, data: seq<byte>, segs: seq<Phdr>, j: nat, cur: nat)
    requires j <= |segs| && AllLoadable(data, segs)
  {
    forall a: nat {:trigger ByteAt(m, space, a)} :: a / PAGE_SIZE in space ==>
      ByteAt(m, space, a) == Image(data, segs, if a < cur && j < |segs| then j + 1 else j, a)
  }

  /** The mapped pages are those of the first `j` segments, and those of the next one
      below `cur`. */
  ghost predicate PagesLoaded(space: map<nat, nat>, segs: seq<Phdr>, j: nat, cur: nat)
    requires j <= |segs|
  {
    forall p: nat {:trigger p in space} :: p in space <==>
      (exists i :: 0 <= i < j && OnPage(segs[i], p)) || (j < |segs| && OnPage(segs[j], p) && p * PAGE_SIZE < cur)
  }

  predicate Covers(segs: seq<Phdr>, p: nat) {
    exists i :: 0 <= i < |segs| && OnPage(segs[i], p)
  }

  /** The first `n` pages below the top of the stack. */
  predicate StackPage(p: nat, n: nat) {
    STACK_TOP - n * PAGE_SIZE <= p * PAGE_SIZE < STACK_TOP
  }

  /** The stack pages mapped in advance, and the frames of the segment pages that
      they replaced. */
  datatype Stack = Stack(pages: nat, under: map<nat, nat>)

  ghost predicate FinishedPages(space: map<nat, nat>, segs: seq<Phdr>, n: nat) {
    forall p: nat {:trigger p in space} :: p in space <==> StackPage(p, n) || Covers(segs, p)
  }

  /** The stack pages read as zero, and every other mapped byte is the image's. */
  ghost predicate Overlaid(m: seq<byte>, space: map<nat, nat>, data: seq<byte>, segs: seq<Phdr>, n: nat)
    requires AllLoadable(data, segs)
  {
    forall a: nat {:trigger ByteAt(m, space, a)} :: a / PAGE_SIZE in space ==>
      ByteAt(m, space, a) == if StackPage(a / PAGE_SIZE, n) then 0 else Image(data, segs, |segs|, a)
  }

  ghost predicate StackOver(stack: Stack, segs: seq<Phdr>) {
    && stack.pages <= STACK_PAGES
    && forall p: nat {:trigger p in stack.under} :: p in stack.under <==> StackPage(p, stack.pages) && Covers(segs, p)
  }

  /** The finished address space: the pages of the segments with the image of the
      file, under the stack pages that were mapped in advance. */
  ghost predicate FinishedSpace(m: seq<byte>, spaces: Spaces, root: nat, data: seq<byte>, segs: seq<Phdr>, stack: Stack)
    requires AllLoadable(data, segs)
  {
    && root in spaces && StackOver(stack, segs)
    && FinishedPages(spaces[root], segs, stack.pages) && Overlaid(m, spaces[root], data, segs, stack.pages)
  }

  /** The load has taken the frames that the new space maps and the replaced ones,
      and no others. */
  ghost predicate Took(before: set<nat>, spaces: Spaces, taken: set<nat>, root: nat, under: map<nat, nat>) {
    && root in spaces && taken == before + spaces[root].Values + under.Values
    && spaces[root].Values !! before && under.Values !! before + spaces[root].Values
  }

  /** A load that ran out of frames had mapped the pages of some segments and a part
      of the next one. */
  ghost predicate Partly(space: map<nat, nat>, segs: seq<Phdr>) {
    exists j: nat, cur: nat :: j <= |segs| && PagesLoaded(space, segs, j, cur)
  }

  /** An address space under construction: apart from every live one. */
  ghost predicate Loading(t: Table, spaces: Spaces, taken: set<nat>, root: nat) {
    && ProcessesOwn(t, spaces, taken) && root !in LiveRoots(t) && root in spaces
    && Isolated(spaces, LiveRoots(t) + {root}, taken)
  }

  /** The world `w0` before the load is still there: same bytes, same address spaces;
      the new space uses only frames taken since. */
  ghost predicate Untouched(w0: World, m: seq<byte>, spaces: Spaces, taken: set<nat>, root: nat) {
    && SameBytes(w0.m, m, w0.taken) && w0.taken <= taken && root !in w0.spaces && root in spaces
    && (forall r :: r in w0.spaces ==> r in spaces && spaces[r] == w0.spaces[r])
    && (forall p {:trigger spaces[root][p]} :: p in spaces[root] ==> spaces[root][p] !in w0.taken)
  }

  lemma UntouchedNewFrame(w0: World, m: seq<byte>, spaces: Spaces, taken: set<nat>, n: seq<byte>, spaces': Spaces, taken': set<nat>,
      root: nat, page: nat, g: nat)
    requires Untouched(w0, m, spaces, taken, root) && root in spaces
    requires NewFrameMapped(m, spaces, taken, n, spaces', taken', root, page, g)
    ensures Untouched(w0, n, spaces', taken', root)
  {
    forall a: nat | a < |n| && a / PAGE_SIZE in w0.taken
      ensures n[a] == w0.m[a]
    {
      assert n[a] == m[a];
    }
  }

  lemma UntouchedLeak(w0: World, m: seq<byte>, spaces: Spaces, taken: set<nat>, n: seq<byte>, taken': set<nat>, root: nat)
    requires Untouched(w0, m, spaces, taken, root) && taken <= taken' && SameBytes(m, n, taken)
    ensures Untouched(w0, n, spaces, taken', root)
  {
    forall a: nat | a < |n| && a / PAGE_SIZE in w0.taken
      ensures n[a] == w0.m[a]
    {
      assert n[a] == m[a];
    }
  }

  lemma UntouchedCopy(w0: World, m: seq<byte>, spaces: Spaces, taken: set<nat>, n: seq<byte>, root: nat, page: nat, at: nat, src: seq<byte>)
    requires Untouched(w0, m, spaces, taken, root) && root in spaces && page in spaces[root]
    requires Stored(m, at, src, n)
    requires spaces[root][page] * PAGE_SIZE <= at && at + |src| <= (spaces[root][page] + 1) * PAGE_SIZE
    ensures Untouched(w0, n, spaces, taken, root)
  {
    forall a: nat | a < |n| && a / PAGE_SIZE in w0.taken
      ensures n[a] == w0.m[a]
    {
      assert a < spaces[root][page] * PAGE_SIZE || a >= (spaces[root][page] + 1) * PAGE_SIZE;
      assert n[a] == m[a];
    }
  }

  lemma LoadingMapped(t: Table, spaces: Spaces, taken: set<nat>, root: nat, page: nat, f: nat)
    requires Loading(t, spaces, taken, root) && f !in taken
    ensures Loading(t, spaces[root := MapIn(spaces[root], page, f)], taken + {f}, root)
  {
    hide Isolated;
    var after := spaces[root := MapIn(spaces[root], page, f)];
    MapOwned(spaces, LiveRoots(t) + {root}, taken, root, page, f);
    FewerLive(after, LiveRoots(t) + {root}, taken + {f}, LiveRoots(t));
    forall i | 0 <= i < MAX_PROCESSES && IsLive(t[i])
      ensures OwnsSpace(t[i].value, after)
    {
      assert OwnsSpace(t[i].value, spaces);
      assert RootOf(t[i].value) in LiveRoots(t);
    }
  }

  lemma LoadingMoreTaken(t: Table, spaces: Spaces, taken: set<nat>, root: nat, more: set<nat>)
    requires Loading(t, spaces, taken, root) && taken <= more
    ensures Loading(t, spaces, more, root)
  {
    MoreTaken(spaces, LiveRoots(t) + {root}, taken, more);
    OwnMoreTaken(t, spaces, taken, more);
  }

  lemma SpacesWithRoot(m: seq<byte>, lab: Labels, root: nat, n: seq<byte>)
    requires root !in lab && SameSpaces(m, n, lab) && Space(n, root) == map[]
    ensures SpacesOf(n, lab[root := Pml4(root)]) == SpacesOf(m, lab)[root := map[]]
  {
    hide Space, Entries;
    assert forall r :: r in SpacesOf(m, lab) <==> IsRoot(lab, r);
  }

  lemma LoadingStarts(t: Table, m: seq<byte>, lab: Labels, taken: set<nat>, root: nat, n: seq<byte>)
    requires ProcessesOwn(t, SpacesOf(m, lab), taken) && root !in lab
    requires SameSpaces(m, n, lab) && Space(n, root) == map[]
    ensures Loading(t, SpacesOf(n, lab[root := Pml4(root)]), taken, root)
    ensures SpacesOf(n, lab[root := Pml4(root)]) == SpacesOf(m, lab)[root := map[]]
  {
    hide Space, Entries, Isolated;
    var before, after := SpacesOf(m, lab), SpacesOf(n, lab[root := Pml4(root)]);
    SpacesWithRoot(m, lab, root, n);
    assert root !in LiveRoots(t);
    NewSpaceOwned(before, LiveRoots(t), taken, root);
    FewerLive(after, LiveRoots(t) + {root}, taken, LiveRoots(t));
    forall i | 0 <= i < MAX_PROCESSES && IsLive(t[i])
      ensures OwnsSpace(t[i].value, after)
    {
      assert OwnsSpace(t[i].value, before);
      assert RootOf(t[i].value) in LiveRoots(t);
    }
  }

  // ---------- Steps of the page loop, on values ----------

  /** The page `p` was mapped to the zeroed frame `g`, and the frames of the space
      kept their bytes. */
  ghost predicate FreshPage(m: seq<byte>, space: map<nat, nat>, n: seq<byte>, after: map<nat, nat>, p: nat, g: nat) {
    && after == space[p := g] && |n| == |m| && (g + 1) * PAGE_SIZE <= |m|
    && (forall q :: q in space ==> space[q] != g && (space[q] + 1) * PAGE_SIZE <= |m|)
    && (forall a: nat {:trigger n[a]} :: a < |m| && a / PAGE_SIZE == g ==> n[a] == 0)
    && (forall q, a: nat {:trigger n[a], q in space} :: q in space && a < |m| && a / PAGE_SIZE == space[q] ==> n[a] == m[a])
  }

  lemma FreshByte(m: seq<byte>, space: map<nat, nat>, n: seq<byte>, after: map<nat, nat>, p: nat, g: nat, a: nat)
    requires FreshPage(m, space, n, after, p, g) && a / PAGE_SIZE in after
    ensures a / PAGE_SIZE == p ==> ByteAt(n, after, a) == 0
    ensures a / PAGE_SIZE != p ==> a / PAGE_SIZE in space && ByteAt(n, after, a) == ByteAt(m, space, a)
  {
    var q := a / PAGE_SIZE;
    var at := after[q] * PAGE_SIZE + a % PAGE_SIZE;
    assert at / PAGE_SIZE == after[q] && at < |m|;
    if q != p {
      assert n[at] == m[at];
    } else {
      assert n[at] == 0;
    }
  }

  /** A fresh zeroed page holds the image so far, since no earlier segment covers it. */
  lemma FreshPageImage(m: seq<byte>, n: seq<byte>, space: map<nat, nat>, after: map<nat, nat>, p: nat, g: nat,
      data: seq<byte>, segs: seq<Phdr>, j: nat, cur: nat)
    requires j < |segs| && AllLoadable(data, segs) && ImageLoaded(m, space, data, segs, j, cur) && PagesLoaded(space, segs, j, cur)
    requires p !in space && OnPage(segs[j], p) && cur == p * PAGE_SIZE && FreshPage(m, space, n, after, p, g)
    ensures ImageLoaded(n, after, data, segs, j, cur)
  {
    hide FreshPage, OnPage, ByteAt, Image;
    assert forall i :: 0 <= i < j ==> !OnPage(segs[i], p);
    forall a: nat | a / PAGE_SIZE in after
      ensures ByteAt(n, after, a) == Image(data, segs, if a < cur && j < |segs| then j + 1 else j, a)
    {
      FreshByte(m, space, n, after, p, g, a);
      if a / PAGE_SIZE == p {
        ImageUncovered(data, segs, j, p, a);
      } else {
        assert ByteAt(m, space, a) == Image(data, segs, if a < cur && j < |segs| then j + 1 else j, a);
      }
    }
  }

  // ---------- The stack pages ----------

  /** The page of the next stack page. */
  function StackAt(n: nat): nat
    requires n < STACK_PAGES
  {
    STACK_TOP / PAGE_SIZE - (n + 1)
  }

  lemma NextStackPage(n: nat, p: nat)
    requires n < STACK_PAGES
    ensures StackPage(p, n + 1) <==> StackPage(p, n) || p == StackAt(n)
    ensures !StackPage(StackAt(n), n)
  {
  }

  lemma NoStackPage(p: nat)
    ensures !StackPage(p, 0)
  {
  }

  /** With all segments loaded and no stack page yet, the space is the image. */
  lemma StackStarts(m: seq<byte>, spaces: Spaces, root: nat, data: seq<byte>, segs: seq<Phdr>)
    requires AllLoadable(data, segs) && root in spaces
    requires ImageLoaded(m, spaces[root], data, segs, |segs|, 0) && PagesLoaded(spaces[root], segs, |segs|, 0)
    ensures FinishedSpace(m, spaces, root, data, segs, Stack(0, map[]))
  {
    hide OnPage, StackPage, Image, ByteAt;
    forall p: nat
      ensures !StackPage(p, 0)
    {
      NoStackPage(p);
    }
  }

  /** Mapping the next stack page over whatever a segment left there. */
  lemma StackGrows(m: seq<byte>, space: map<nat, nat>, n: seq<byte>, after: map<nat, nat>, g: nat,
      data: seq<byte>, segs: seq<Phdr>, k: nat)
    requires AllLoadable(data, segs) && k < STACK_PAGES && FreshPage(m, space, n, after, StackAt(k), g)
    requires FinishedPages(space, segs, k) && Overlaid(m, space, data, segs, k)
    ensures FinishedPages(after, segs, k + 1) && Overlaid(n, after, data, segs, k + 1)
  {
    hide StackPage, FreshPage, ByteAt, Image, Covers, StackAt;
    forall p: nat
      ensures p in after <==> StackPage(p, k + 1) || Covers(segs, p)
    {
      NextStackPage(k, p);
      FreshKeys(m, space, n, after, StackAt(k), g, p);
    }
    forall a: nat | a / PAGE_SIZE in after
      ensures ByteAt(n, after, a) == if StackPage(a / PAGE_SIZE, k + 1) then 0 else Image(data, segs, |segs|, a)
    {
      FreshByte(m, space, n, after, StackAt(k), g, a);
      NextStackPage(k, a / PAGE_SIZE);
    }
  }

  lemma FreshKeys(m: seq<byte>, space: map<nat, nat>, n: seq<byte>, after: map<nat, nat>, p: nat, g: nat, q: nat)
    requires FreshPage(m, space, n, after, p, g)
    ensures q in after <==> q in space || q == p
  {
  }

  /** The stack with one page more: a segment page at its place is replaced. */
  function Grown(stack: Stack, space: map<nat, nat>): Stack
    requires stack.pages < STACK_PAGES
  {
    var p := StackAt(stack.pages);
    Stack(stack.pages + 1, if p in space then stack.under[p := space[p]] else stack.under)
  }

  lemma GrownOver(stack: Stack, space: map<nat, nat>, segs: seq<Phdr>)
    requires stack.pages < STACK_PAGES && StackOver(stack, segs) && FinishedPages(space, segs, stack.pages)
    ensures StackOver(Grown(stack, space), segs) && StackAt(stack.pages) !in stack.under
  {
    hide Covers, StackPage, StackAt;
    var k, grown := stack.pages, Grown(stack, space);
    NextStackPage(k, StackAt(k));
    forall p: nat
      ensures p in grown.under <==> StackPage(p, k + 1) && Covers(segs, p)
    {
      NextStackPage(k, p);
    }
  }

  // ---------- The frames taken ----------

  lemma UpdatedValues(space: map<nat, nat>, p: nat, g: nat)
    requires p !in space
    ensures MapIn(space, p, g).Values == space.Values + {g}
  {
    var after := MapIn(space, p, g);
    assert after[p] == g;
    forall f | f in space.Values
      ensures f in after.Values
    {
      var q :| q in space && space[q] == f;
      assert after[q] == f;
    }
  }

  lemma ReplacedValues(space: map<nat, nat>, p: nat, g: nat)
    requires p in space && (forall q :: q in space && q != p ==> space[q] != space[p]) && g !in space.Values
    ensures MapIn(space, p, g).Values == space.Values - {space[p]} + {g}
  {
    var rest := space - {p};
    assert rest[p := g] == MapIn(space, p, g);
    UpdatedValues(rest, p, g);
    forall f | f in space.Values - {space[p]}
      ensures f in rest.Values
    {
      var q :| q in space && space[q] == f;
      assert q in rest && rest[q] == f;
    }
  }

  /** A new frame for a page that was not mapped. */
  lemma TookNew(before: set<nat>, spaces: Spaces, taken: set<nat>, root: nat, under: map<nat, nat>, page: nat, g: nat)
    requires Took(before, spaces, taken, root, under) && page !in spaces[root] && g !in taken
    ensures Took(before, spaces[root := MapIn(spaces[root], page, g)], taken + {g}, root, under)
  {
    UpdatedValues(spaces[root], page, g);
  }

  /** A new frame for a page that was mapped: the old one is only counted as replaced. */
  lemma TookOver(before: set<nat>, spaces: Spaces, taken: set<nat>, root: nat, under: map<nat, nat>, page: nat, g: nat)
    requires Took(before, spaces, taken, root, under) && page in spaces[root] && g !in taken && page !in under
    requires forall q :: q in spaces[root] && q != page ==> spaces[root][q] != spaces[root][page]
    ensures Took(before, spaces[root := MapIn(spaces[root], page, g)], taken + {g}, root, under[page := spaces[root][page]])
  {
    ReplacedValues(spaces[root], page, g);
    UpdatedValues(under, page, spaces[root][page]);
    assert spaces[root][page] in spaces[root].Values;
  }

  lemma TookRoot(before: set<nat>, spaces: Spaces, taken: set<nat>, root: nat, under: map<nat, nat>)
    requires Took(before, spaces, taken, root, under)
    ensures root in spaces
  {
  }

  lemma TookNothing(before: set<nat>, spaces: Spaces, root: nat)
    requires root in spaces && spaces[root] == map[]
    ensures Took(before, spaces, before, root, map[])
  {
  }

  // ---------- The pages of a segment ----------

  function Larger(a: nat, b: nat): nat {
    if a > b then a else b
  }

  function Smaller(a: nat, b: nat): nat {
    if a < b then a else b
  }

  /** The file bytes of the segment that fall on the page at `cur` were stored into
      the frame `g` of that page, at their offset in the page. */
  ghost predicate PartCopied(m: seq<byte>, n: seq<byte>, s: Phdr, data: seq<byte>, cur: nat, g: nat)
    requires Loadable(data, s)
  {
    var start, end := Larger(s.vaddr, cur), Smaller(s.vaddr + s.filesz, cur + PAGE_SIZE);
    if start < end then
      Stored(m, g * PAGE_SIZE + (start - cur), data[s.offset + (start - s.vaddr)..s.offset + (end - s.vaddr)], n)
    else n == m
  }

  /** Copying the part of the segment that falls on the page completes the page. */
  lemma CopiedPageImage(m: seq<byte>, n: seq<byte>, space: map<nat, nat>, p: nat, data: seq<byte>, segs: seq<Phdr>, j: nat)
    requires j < |segs| && AllLoadable(data, segs) && ImageLoaded(m, space, data, segs, j, p * PAGE_SIZE)
    requires p in space && OnPage(segs[j], p)
    requires forall q :: q in space ==> (space[q] + 1) * PAGE_SIZE <= |m| && (q != p ==> space[q] != space[p])
    requires PartCopied(m, n, segs[j], data, p * PAGE_SIZE, space[p])
    ensures ImageLoaded(n, space, data, segs, j, p * PAGE_SIZE + PAGE_SIZE)
  {
    hide PartCopied, OnPage, Image, Loadable, Supplies;
    var cur := p * PAGE_SIZE;
    forall a: nat | a / PAGE_SIZE in space
      ensures ByteAt(n, space, a) == Image(data, segs, if a < cur + PAGE_SIZE && j < |segs| then j + 1 else j, a)
    {
      assert ByteAt(m, space, a) == Image(data, segs, if a < cur && j < |segs| then j + 1 else j, a);
      if a / PAGE_SIZE == p {
        CopiedByte(m, n, segs[j], data, p, space[p], a);
        ImageStep(data, segs, j, a);
      } else {
        var at := space[a / PAGE_SIZE] * PAGE_SIZE + a % PAGE_SIZE;
        assert at / PAGE_SIZE == space[a / PAGE_SIZE];
        UncopiedByte(m, n, segs[j], data, p, space[p], at);
      }
    }
  }

  /** The copy puts the segment's byte where it supplies one, and keeps the rest of the page. */
  lemma CopiedByte(m: seq<byte>, n: seq<byte>, s: Phdr, data: seq<byte>, p: nat, g: nat, a: nat)
    requires Loadable(data, s) && PartCopied(m, n, s, data, p * PAGE_SIZE, g)
    requires OnPage(s, p) && a / PAGE_SIZE == p && (g + 1) * PAGE_SIZE <= |m|
    ensures |n| == |m|
    ensures var at := g * PAGE_SIZE + a % PAGE_SIZE;
      n[at] == if Supplies(s, a) then data[s.offset + (a - s.vaddr)] else m[at]
  {
    hide SegStart, SegEnd;
    SegBounds(data, s);
    var cur := p * PAGE_SIZE;
    assert g * PAGE_SIZE + a % PAGE_SIZE == g * PAGE_SIZE + (a - cur);
    assert a < SegEnd(s);
  }

  lemma UncopiedByte(m: seq<byte>, n: seq<byte>, s: Phdr, data: seq<byte>, p: nat, g: nat, at: nat)
    requires Loadable(data, s) && PartCopied(m, n, s, data, p * PAGE_SIZE, g) && at / PAGE_SIZE != g && at < |m|
    ensures |n| == |m| && n[at] == m[at]
  {
    assert at < g * PAGE_SIZE || at >= g * PAGE_SIZE + PAGE_SIZE;
  }

  lemma ImageStep(data: seq<byte>, segs: seq<Phdr>, j: nat, a: nat)
    requires j < |segs| && AllLoadable(data, segs)
    ensures Image(data, segs, j + 1, a) ==
            if Supplies(segs[j], a) then data[segs[j].offset + (a - segs[j].vaddr)] else Image(data, segs, j, a)
  {
  }

  lemma PageLoaded(space: map<nat, nat>, after: map<nat, nat>, segs: seq<Phdr>, j: nat, p: nat)
    requires j < |segs| && PagesLoaded(space, segs, j, p * PAGE_SIZE) && OnPage(segs[j], p)
    requires forall q: nat :: q in after <==> q in space || q == p
    ensures PagesLoaded(after, segs, j, p * PAGE_SIZE + PAGE_SIZE)
  {
    hide OnPage;
  }

  lemma SegmentStarts(m: seq<byte>, space: map<nat, nat>, data: seq<byte>, segs: seq<Phdr>, j: nat)
    requires j < |segs| && AllLoadable(data, segs) && ImageLoaded(m, space, data, segs, j, 0) && PagesLoaded(space, segs, j, 0)
    ensures ImageLoaded(m, space, data, segs, j, SegStart(segs[j])) && PagesLoaded(space, segs, j, SegStart(segs[j]))
  {
    hide PageUp, PageDown;
    SegBounds(data, segs[j]);
    forall a: nat | a / PAGE_SIZE in space
      ensures ByteAt(m, space, a) == Image(data, segs, if a < SegStart(segs[j]) then j + 1 else j, a)
    {
      assert ByteAt(m, space, a) == Image(data, segs, j, a);
    }
  }

  lemma PageOfSegment(s: Phdr, va: nat)
    requires PageAligned(va) && SegStart(s) <= va < SegEnd(s)
    ensures OnPage(s, va / PAGE_SIZE)
  {
    hide SegStart, SegEnd;
  }

  lemma SegmentEnds(m: seq<byte>, space: map<nat, nat>, data: seq<byte>, segs: seq<Phdr>, j: nat, cur: nat)
    requires j < |segs| && AllLoadable(data, segs) && cur >= SegEnd(segs[j])
    requires ImageLoaded(m, space, data, segs, j, cur) && PagesLoaded(space, segs, j, cur)
    ensures ImageLoaded(m, space, data, segs, j + 1, 0) && PagesLoaded(space, segs, j + 1, 0)
  {
    hide PageUp, PageDown;
    SegBounds(data, segs[j]);
    forall a: nat | a / PAGE_SIZE in space
      ensures ByteAt(m, space, a) == Image(data, segs, j + 1, a)
    {
      assert ByteAt(m, space, a) == Image(data, segs, if a < cur && j < |segs| then j + 1 else j, a);
    }
    forall p: nat
      ensures p in space <==> exists i :: 0 <= i < j + 1 && OnPage(segs[i], p)
    {
      if p in space && OnPage(segs[j], p) {
        assert 0 <= j < j + 1;
      }
      if i :| 0 <= i < j + 1 && OnPage(segs[i], p) {
        assert i < j || i == j;
      }
    }
  }

  /** The page `page` of the space `root` is backed by frame `g`: the one it had, or a
      fresh zeroed one; no other frame in use changed. */
  ghost predicate PageProvided(m: seq<byte>, spaces: Spaces, taken: set<nat>, n: seq<byte>, spaces': Spaces, taken': set<nat>,
      root: nat, page: nat, g: nat) {
    && root in spaces
    && if page in spaces[root] then n == m && spaces' == spaces && taken' == taken && g == spaces[root][page]
       else NewFrameMapped(m, spaces, taken, n, spaces', taken', root, page, g)
  }

  /** What a load did to the world: a new process in the first reusable slot, or
      nothing but frames lost, when it failed or no slot was left. */
  ghost predicate LoadResult(w: World, newPid: nat, parent: nat, o: Outcome, pid: Option<nat>, root: nat, v: World) {
    if !o.Loaded? then pid == None && v.table == w.table && Moves(w, Leak(root), v) && (o.Rejected? ==> v == w)
    else
      var p := NewProcess(newPid, parent, o);
      && v.table == Installed(w.table, p)
      && match FreeSlotFrom(w.table, 0)
         case Some(i) => pid == Some(newPid) && Moves(w, Load(i, p), v)
         case None => pid == None && Moves(w, Leak(root), v)
  }

  /** The frames that a load loses: the replaced ones, and when no process comes of
      it also those of the new space. */
  ghost function LoadLoss(o: Outcome, installed: bool, spaces: Spaces, root: nat, under: map<nat, nat>): set<nat> {
    if o.Rejected? || root !in spaces then {}
    else if installed then under.Values
    else spaces[root].Values + under.Values
  }

  /** The page tables that a load leaves without a process: none when it is rejected or
      installs one, and otherwise all that it has built. */
  ghost function LoadBurial(o: Outcome, installed: bool, trees: Trees, root: nat): set<nat> {
    if o.Rejected? || installed then {} else TreeOf(trees, root)
  }

  /** The process record takes its areas, heap start and entry point from the file. */
  ghost predicate ProgramImage(data: seq<byte>, o: Outcome)
    requires FileOk(data) && o.Loaded?
  {
    var segs := SegmentsOf(data);
    && PageAligned(o.pml4) && o.vmas == AreasOf(segs) + [STACK_AREA] && o.heapBreak == PageUp(MaxEnd(segs, |segs|))
    && ParseHeader(data).Some? && |data| >= 64 && o.entry == Le(data[24..32])
  }

  lemma NothingLoaded(w: World, v: World, newPid: nat, parent: nat, o: Outcome, root: nat)
    requires !o.Loaded? && v.table == w.table && (v == w || Moves(w, Leak(root), v)) && (o.Rejected? ==> v == w)
    ensures LoadResult(w, newPid, parent, o, None, root, v)
  {
  }

  lemma LoadedResult(w0: World, w: World, root: nat, newPid: nat, parent: nat, o: Outcome, data: seq<byte>, segs: seq<Phdr>, n: nat)
    requires o.Loaded? && Loading(w0.table, w.spaces, w.taken, root) && Untouched(w0, w.m, w.spaces, w.taken, root)
    requires o.pml4 / PAGE_SIZE == root && PageAligned(o.pml4) && AllLoadable(data, segs)
    requires root in w.spaces && n <= STACK_PAGES && FinishedPages(w.spaces[root], segs, n) && o.vmas == AreasOf(segs) + [STACK_AREA]
    requires w.table == Installed(w0.table, NewProcess(newPid, parent, o))
    requires AddsRoot(w0.trees, w0.spaces, w.trees, w.spaces, root)
    ensures LoadResult(w0, newPid, parent, o, if FreeSlotFrom(w0.table, 0).Some? then Some(newPid) else None, root, w)
  {
    hide AddsRoot, Loading, Untouched, FinishedPages, AreasOf, Moves, Installed;
    var p := NewProcess(newPid, parent, o);
    match FreeSlotFrom(w0.table, 0)
    case Some(i) => LoadMoves(w0, w, root, p, data, segs, n, i);
    case None =>
      InstalledNowhere(w0.table, p);
      LeakMoves(w0, w, root);
  }

  lemma InstalledJoins(t: Table, pid: nat, parent: nat, o: Outcome)
    requires o.Loaded?
    ensures FreeSlotFrom(t, 0).Some? ==> Joins(t, pid, parent, o, Installed(t, NewProcess(pid, parent, o)))
  {
    hide Enrolled, FreeSlotFrom, Installed, NewProcess;
    InstalledEnrolls(t, pid, parent, o);
  }

  class ElfLoader {
    const user: AddressSpaces

    constructor (u: AddressSpaces)
      ensures user == u
    {
      user := u;
    }

    ghost predicate Ready(root: nat, w0: World)
      reads user.procs, user.procs.slots, user.machine, user.machine.memory, user.machine.frames, user.machine.frames.bitmap
    {
      && user.procs.Valid() && user.machine.Valid()
      && Loading(user.procs.View(), user.Spaces(), user.Taken(), root)
      && Untouched(w0, user.machine.memory[..], user.Spaces(), user.Taken(), root)
      && Grounded(user.machine.memory[..], user.machine.lab)
      && AddsRoot(w0.trees, w0.spaces, user.Trees(), user.Spaces(), root)
    }

    /** The frames taken since `w0` are those of the new space and the replaced ones. */
    ghost predicate Holds(root: nat, w0: World, under: map<nat, nat>)
      requires user.machine.frames.Valid()
      reads user, user.machine, user.machine.memory, user.machine.frames, user.machine.frames.bitmap
    {
      Took(w0.taken, user.Spaces(), user.Taken(), root, under)
    }

    /** The frame of a page under construction: an earlier segment's, or a new one.
        False models the allocator running dry; halted, the panic for a page table. */
    method PageFor(pml4: nat, va: nat, ghost w0: World) returns (ok: bool, frame: nat, halted: bool)
      requires PageAligned(pml4) && Ready(pml4 / PAGE_SIZE, w0) && PageAligned(va) && IsUser(va)
      modifies user.machine.memory, user.machine.frames`used, user.machine.frames.bitmap, user.machine`lab
      ensures Ready(pml4 / PAGE_SIZE, w0) && !(ok && halted)
      ensures ok ==> PageAligned(frame) && PageProvided(old(user.machine.memory[..]), old(user.Spaces()), old(user.Taken()),
        user.machine.memory[..], user.Spaces(), user.Taken(), pml4 / PAGE_SIZE, va / PAGE_SIZE, frame / PAGE_SIZE)
      ensures !ok && !halted ==>
        user.Spaces() == old(user.Spaces()) && user.Taken() == old(user.Taken()) && user.machine.frames.Free() == {}
    {
      hide And, Or, Space, TablesGrew, Loading, MachineOk, SameKernelView, SameSpaces, Intact, Translate, Stored,
        TreeOk, PageDown, Untouched, NewFrameMapped, Grounded, AddsRoot, HardwareTranslate, ReadsAlike;
      ghost var m, spaces, taken, free, lab, root := user.machine.memory[..], user.Spaces(), user.Taken(),
        user.machine.frames.Free(), user.machine.lab, pml4 / PAGE_SIZE;
      LoadingRoot(user.procs.View(), m, lab, taken, root);
      MachineIntact(m, lab, user.machine.kernel, user.machine.pool, free, user.machine.frames.used);
      LookupPage(m, lab, user.machine.kernel, root, va);
      var existing := user.machine.GetMappedFrame(pml4, va);
      if existing.Some? {
        PoolBound(m, lab, user.machine.kernel, user.machine.pool, free, user.machine.frames.used);
        LoadingFrame(user.procs.View(), spaces, taken, root, va / PAGE_SIZE);
        FrameFound(spaces[root][va / PAGE_SIZE]);
        return true, PageDown(existing.value), false;
      }
      ok, frame, halted := NewPage(pml4, va, w0);
    }

    method NewPage(pml4: nat, va: nat, ghost w0: World) returns (ok: bool, frame: nat, halted: bool)
      requires PageAligned(pml4) && Ready(pml4 / PAGE_SIZE, w0) && PageAligned(va) && IsUser(va)
      modifies user.machine.memory, user.machine.frames`used, user.machine.frames.bitmap, user.machine`lab
      ensures Ready(pml4 / PAGE_SIZE, w0) && !(ok && halted)
      ensures !ok && !halted <==> old(user.machine.frames.Free()) == {}
      ensures !ok && !halted ==>
        && user.Spaces() == old(user.Spaces()) && user.machine.memory[..] == old(user.machine.memory[..])
        && user.Taken() == old(user.Taken()) && user.machine.frames.Free() == {}
      ensures ok ==>
        && var g, root := frame / PAGE_SIZE, pml4 / PAGE_SIZE;
          && PageAligned(frame) && root in old(user.Spaces())
          && NewFrameMapped(old(user.machine.memory[..]), old(user.Spaces()), old(user.Taken()),
               user.machine.memory[..], user.Spaces(), user.Taken(), root, va / PAGE_SIZE, g)
    {
      hide And, Or, Space, TablesGrew, Loading, MachineOk, SameKernelView, SameSpaces, Intact, Translate, Stored,
        TreeOk, Untouched, Grounded, AddsRoot, Grew, ProcessesOwn, FindFrom, NewFrameMapped;
      ghost var m, spaces, taken, free, lab, root, t := user.machine.memory[..], user.Spaces(), user.Taken(),
        user.machine.frames.Free(), user.machine.lab, pml4 / PAGE_SIZE, user.procs.View();
      ghost var trees := user.Trees();
      LoadingRoot(t, m, lab, taken, root);
      var got := user.machine.AllocFrame();
      if got.None? {
        return false, 0, false;
      }
      frame := got.value;
      ghost var g := frame / PAGE_SIZE;
      TakenFromPool(m, lab, user.machine.kernel, user.machine.pool, free, old(user.machine.frames.used), g);
      ok := user.MapUserPage(pml4, va, frame);
      ghost var n, lab' := user.machine.memory[..], user.machine.lab;
      ghost var free' := user.machine.frames.Free();
      AddsThenGrew(w0, trees, spaces, user.Trees(), user.Spaces(), root);
      TakenApart(user.machine.pool, free', lab'.Keys);
      if !ok {
        PageLeaked(w0, t, m, lab, free - {g}, n, lab', free', spaces, taken, root, g);
        return false, 0, true;
      }
      NewTaken(m, lab, free - {g}, n, lab', free', g);
      user.machine.WriteData(frame, Zeros(PAGE_SIZE), g);
      SameSpacesOf(n, user.machine.memory[..], lab');
      GroundedSame(n, user.machine.memory[..], lab');
      PageAdded(w0, t, m, lab, free - {g}, n, lab', free', user.machine.memory[..], spaces, taken, root, va / PAGE_SIZE, g);
      halted := false;
    }

    /** The image loaded so far into the space under construction. */
    ghost predicate LoadedUpTo(root: nat, data: seq<byte>, segs: seq<Phdr>, j: nat, cur: nat)
      requires j <= |segs| && AllLoadable(data, segs)
      reads user.machine, user.machine.memory
    {
      && root in user.Spaces()
      && ImageLoaded(user.machine.memory[..], user.Spaces()[root], data, segs, j, cur)
      && PagesLoaded(user.Spaces()[root], segs, j, cur)
    }

    /** How a load fails without halting the kernel: no frame is left, and the new
        space has the pages of some segments. */
    ghost predicate OutOfFrames(root: nat, segs: seq<Phdr>)
      requires user.machine.frames.Valid()
      reads user, user.machine, user.machine.memory, user.machine.frames, user.machine.frames.bitmap
    {
      user.machine.frames.Free() == {} && root in user.Spaces() && Partly(user.Spaces()[root], segs)
    }

    /** Copies the part of a segment that falls on the page at `va` into its frame. */
    method CopyPart(ghost pml4: nat, data: seq<byte>, s: Phdr, va: nat, frame: nat, ghost w0: World)
      requires PageAligned(pml4) && Ready(pml4 / PAGE_SIZE, w0) && PageAligned(va) && PageAligned(frame)
      requires Loadable(data, s) && frame / PAGE_SIZE in user.Taken()
      requires pml4 / PAGE_SIZE in user.Spaces() && va / PAGE_SIZE in user.Spaces()[pml4 / PAGE_SIZE]
      requires user.Spaces()[pml4 / PAGE_SIZE][va / PAGE_SIZE] == frame / PAGE_SIZE
      modifies user.machine.memory
      ensures Ready(pml4 / PAGE_SIZE, w0) && user.Spaces() == old(user.Spaces())
      ensures PartCopied(old(user.machine.memory[..]), user.machine.memory[..], s, data, va, frame / PAGE_SIZE)
    {
      hide And, Or, Space, Loading, MachineOk, SameKernelView, SameSpaces, Stored, PageUp, PageDown, Grounded, AddsRoot;
      ghost var m := user.machine.memory[..];
      var start, end := Larger(s.vaddr, va), Smaller(s.vaddr + s.filesz, va + PAGE_SIZE);
      if start < end {
        var src := data[s.offset + (start - s.vaddr)..s.offset + (end - s.vaddr)];
        assert frame == frame / PAGE_SIZE * PAGE_SIZE;
        user.machine.WriteData(frame + (start - va), src, frame / PAGE_SIZE);
        SameSpacesOf(m, user.machine.memory[..], user.machine.lab);
        GroundedSame(m, user.machine.memory[..], user.machine.lab);
        UntouchedCopy(w0, m, user.Spaces(), user.Taken(), user.machine.memory[..], pml4 / PAGE_SIZE, va / PAGE_SIZE,
          frame + (start - va), src);
      }
    }

    /** One round of the page-copy loop of `load_elf`. */
    method FillPage(pml4: nat, data: seq<byte>, segs: seq<Phdr>, j: nat, va: nat, ghost w0: World) returns (ok: bool, halted: bool)
      requires PageAligned(pml4) && Ready(pml4 / PAGE_SIZE, w0) && PageAligned(va)
      requires j < |segs| && AllLoadable(data, segs) && OnPage(segs[j], va / PAGE_SIZE)
      requires LoadedUpTo(pml4 / PAGE_SIZE, data, segs, j, va) && Holds(pml4 / PAGE_SIZE, w0, map[])
      modifies user.machine.memory, user.machine.frames`used, user.machine.frames.bitmap, user.machine`lab
      ensures Ready(pml4 / PAGE_SIZE, w0) && !(ok && halted) && (!halted ==> Holds(pml4 / PAGE_SIZE, w0, map[]))
      ensures !ok && !halted ==> OutOfFrames(pml4 / PAGE_SIZE, segs)
      ensures ok ==> LoadedUpTo(pml4 / PAGE_SIZE, data, segs, j, va + PAGE_SIZE)
    {
      hide And, Or, Space, Loading, MachineOk, SameKernelView, SameSpaces, ImageLoaded, PagesLoaded, PartCopied,
        Took, Untouched, Grounded, AddsRoot, PageUp, PageDown, OnPage;
      ghost var space0, root, page := user.Spaces()[pml4 / PAGE_SIZE], pml4 / PAGE_SIZE, va / PAGE_SIZE;
      var frame;
      ok, frame, halted := ProvidePage(pml4, data, segs, j, va, w0);
      if !ok {
        return;
      }
      ghost var m, spaces := user.machine.memory[..], user.Spaces();
      CopyPart(pml4, data, segs[j], va, frame, w0);
      CopiedPageImage(m, user.machine.memory[..], spaces[root], page, data, segs, j);
      PageLoaded(space0, spaces[root], segs, j, page);
    }

    /** The page that the round works on: mapped, and holding the image so far. */
    method ProvidePage(pml4: nat, data: seq<byte>, segs: seq<Phdr>, j: nat, va: nat, ghost w0: World)
      returns (ok: bool, frame: nat, halted: bool)
      requires PageAligned(pml4) && Ready(pml4 / PAGE_SIZE, w0) && PageAligned(va)
      requires j < |segs| && AllLoadable(data, segs) && OnPage(segs[j], va / PAGE_SIZE)
      requires LoadedUpTo(pml4 / PAGE_SIZE, data, segs, j, va) && Holds(pml4 / PAGE_SIZE, w0, map[])
      modifies user.machine.memory, user.machine.frames`used, user.machine.frames.bitmap, user.machine`lab
      ensures Ready(pml4 / PAGE_SIZE, w0) && !(ok && halted) && (!halted ==> Holds(pml4 / PAGE_SIZE, w0, map[]))
      ensures !ok && !halted ==> user.Spaces() == old(user.Spaces()) && user.machine.frames.Free() == {}
      ensures ok ==>
        var root, page, g := pml4 / PAGE_SIZE, va / PAGE_SIZE, frame / PAGE_SIZE;
        && PageAligned(frame) && root in user.Spaces() && page in user.Spaces()[root]
        && user.Spaces()[root][page] == g && g in user.Taken()
        && ImageLoaded(user.machine.memory[..], user.Spaces()[root], data, segs, j, va)
        && (forall q: nat :: q in user.Spaces()[root] <==> q in old(user.Spaces())[root] || q == page)
        && (forall q :: q in user.Spaces()[root] ==>
              && (user.Spaces()[root][q] + 1) * PAGE_SIZE <= |user.machine.memory[..]|
              && (q != page ==> user.Spaces()[root][q] != g))
    {
      hide And, Or, Space, Loading, MachineOk, SameKernelView, SameSpaces, ImageLoaded, PagesLoaded, PageProvided,
        Took, Untouched, Grounded, AddsRoot, PageUp, PageDown;
      ghost var m0, spaces0, taken0, root, page := user.machine.memory[..], user.Spaces(), user.Taken(), pml4 / PAGE_SIZE, va / PAGE_SIZE;
      SegBounds(data, segs[j]);
      ok, frame, halted := PageFor(pml4, va, w0);
      if !ok {
        return;
      }
      ghost var m, spaces, taken, g := user.machine.memory[..], user.Spaces(), user.Taken(), frame / PAGE_SIZE;
      TakenInMemory(m, user.machine.lab, user.machine.kernel, user.machine.pool, user.machine.frames.Free(), user.machine.frames.used);
      ProvidedImage(user.procs.View(), m0, spaces0, taken0, m, spaces, taken, root, page, g, data, segs, j);
      TookPage(w0.taken, m0, spaces0, taken0, m, spaces, taken, root, page, g);
    }

    /** All pages of one segment. */
    method LoadSegment(pml4: nat, data: seq<byte>, segs: seq<Phdr>, j: nat, ghost w0: World) returns (ok: bool, halted: bool)
      requires PageAligned(pml4) && Ready(pml4 / PAGE_SIZE, w0)
      requires j < |segs| && AllLoadable(data, segs) && LoadedUpTo(pml4 / PAGE_SIZE, data, segs, j, 0)
      requires Holds(pml4 / PAGE_SIZE, w0, map[])
      modifies user.machine.memory, user.machine.frames`used, user.machine.frames.bitmap, user.machine`lab
      ensures Ready(pml4 / PAGE_SIZE, w0) && !(ok && halted) && (!halted ==> Holds(pml4 / PAGE_SIZE, w0, map[]))
      ensures !ok && !halted ==> OutOfFrames(pml4 / PAGE_SIZE, segs)
      ensures ok ==> LoadedUpTo(pml4 / PAGE_SIZE, data, segs, j + 1, 0)
    {
      hide And, Or, Space, Loading, MachineOk, ImageLoaded, PagesLoaded, Took, Partly, Untouched, Grounded, AddsRoot, PageUp, PageDown, OnPage,
        SegStart, SegEnd;
      ghost var root := pml4 / PAGE_SIZE;
      var startPage, endPage := SegStart(segs[j]), SegEnd(segs[j]);
      SegBounds(data, segs[j]);
      SegmentStarts(user.machine.memory[..], user.Spaces()[root], data, segs, j);
      var va: nat := startPage;
      while va < endPage
        invariant PageAligned(va) && startPage <= va && Ready(root, w0) && LoadedUpTo(root, data, segs, j, va)
        invariant Holds(root, w0, map[])
        decreases endPage - va
      {
        PageOfSegment(segs[j], va);
        ok, halted := FillPage(pml4, data, segs, j, va, w0);
        if !ok {
          return;
        }
        va := va + PAGE_SIZE;
      }
      SegmentEnds(user.machine.memory[..], user.Spaces()[root], data, segs, j, va);
      ok, halted := true, false;
    }

    /** All segments, in file order. */
    method LoadSegments(pml4: nat, data: seq<byte>, segs: seq<Phdr>, ghost w0: World) returns (ok: bool, halted: bool, maxVaddr: nat)
      requires PageAligned(pml4) && Ready(pml4 / PAGE_SIZE, w0) && AllLoadable(data, segs)
      requires pml4 / PAGE_SIZE in user.Spaces() && user.Spaces()[pml4 / PAGE_SIZE] == map[]
      requires Holds(pml4 / PAGE_SIZE, w0, map[])
      modifies user.machine.memory, user.machine.frames`used, user.machine.frames.bitmap, user.machine`lab
      ensures Ready(pml4 / PAGE_SIZE, w0) && !(ok && halted) && (!halted ==> Holds(pml4 / PAGE_SIZE, w0, map[]))
      ensures !ok && !halted ==> OutOfFrames(pml4 / PAGE_SIZE, segs)
      ensures ok ==> LoadedUpTo(pml4 / PAGE_SIZE, data, segs, |segs|, 0) && maxVaddr == MaxEnd(segs, |segs|)
    {
      hide And, Or, Space, Loading, MachineOk, Took, Partly, Untouched, Grounded, AddsRoot, PageUp, PageDown;
      maxVaddr := 0;
      for j := 0 to |segs|
        invariant Ready(pml4 / PAGE_SIZE, w0) && LoadedUpTo(pml4 / PAGE_SIZE, data, segs, j, 0) && maxVaddr == MaxEnd(segs, j)
        invariant Holds(pml4 / PAGE_SIZE, w0, map[])
      {
        if SegEnd(segs[j]) > maxVaddr {
          maxVaddr := SegEnd(segs[j]);
        }
        ok, halted := LoadSegment(pml4, data, segs, j, w0);
        if !ok {
          return;
        }
      }
      ok, halted := true, false;
    }

    ghost predicate Finished(root: nat, data: seq<byte>, segs: seq<Phdr>, stack: Stack)
      requires AllLoadable(data, segs)
      reads user.machine, user.machine.memory
    {
      FinishedSpace(user.machine.memory[..], user.Spaces(), root, data, segs, stack)
    }

    /** The two stack pages that are mapped in advance; a page for which there is no
        frame is left to demand paging. */
    method LoadStack(pml4: nat, data: seq<byte>, segs: seq<Phdr>, ghost w0: World) returns (halted: bool, ghost stack: Stack)
      requires PageAligned(pml4) && Ready(pml4 / PAGE_SIZE, w0) && AllLoadable(data, segs)
      requires LoadedUpTo(pml4 / PAGE_SIZE, data, segs, |segs|, 0) && Holds(pml4 / PAGE_SIZE, w0, map[])
      modifies user.machine.memory, user.machine.frames`used, user.machine.frames.bitmap, user.machine`lab
      ensures Ready(pml4 / PAGE_SIZE, w0)
      ensures !halted ==> Finished(pml4 / PAGE_SIZE, data, segs, stack) && Holds(pml4 / PAGE_SIZE, w0, stack.under)
      ensures !halted ==> stack.pages == STACK_PAGES || user.machine.frames.Free() == {}
    {
      hide And, Or, Space, Loading, MachineOk, Grounded, AddsRoot, ImageLoaded, PagesLoaded, FinishedSpace, Took,
        PageUp, PageDown, OnPage;
      StackStarts(user.machine.memory[..], user.Spaces(), pml4 / PAGE_SIZE, data, segs);
      stack := Stack(0, map[]);
      for i := 0 to STACK_PAGES
        invariant Ready(pml4 / PAGE_SIZE, w0) && Finished(pml4 / PAGE_SIZE, data, segs, stack)
        invariant Holds(pml4 / PAGE_SIZE, w0, stack.under)
        invariant stack.pages == i || (stack.pages < i && user.machine.frames.Free() == {})
      {
        halted, stack := LoadStackPage(pml4, STACK_TOP - (i + 1) * PAGE_SIZE, data, segs, stack, w0);
        if halted {
          return;
        }
      }
      halted := false;
    }

    method LoadStackPage(pml4: nat, va: nat, data: seq<byte>, segs: seq<Phdr>, ghost stack0: Stack, ghost w0: World)
      returns (halted: bool, ghost stack: Stack)
      requires PageAligned(pml4) && Ready(pml4 / PAGE_SIZE, w0) && AllLoadable(data, segs)
      requires PageAligned(va) && IsUser(va) && Finished(pml4 / PAGE_SIZE, data, segs, stack0)
      requires user.machine.frames.Free() == {} || (stack0.pages < STACK_PAGES && va / PAGE_SIZE == StackAt(stack0.pages))
      requires Holds(pml4 / PAGE_SIZE, w0, stack0.under)
      modifies user.machine.memory, user.machine.frames`used, user.machine.frames.bitmap, user.machine`lab
      ensures Ready(pml4 / PAGE_SIZE, w0)
      ensures !halted ==> Finished(pml4 / PAGE_SIZE, data, segs, stack) && Holds(pml4 / PAGE_SIZE, w0, stack.under)
      ensures !halted ==>
        if old(user.machine.frames.Free()) == {} then stack == stack0 && user.machine.frames.Free() == {}
        else stack.pages == stack0.pages + 1
    {
      hide And, Or, Space, Loading, MachineOk, FinishedSpace, Took, NewFrameMapped, Untouched, Grounded, AddsRoot,
        StackAt;
      ghost var m, spaces, taken, root, page := user.machine.memory[..], user.Spaces(), user.Taken(), pml4 / PAGE_SIZE, va / PAGE_SIZE;
      stack := stack0;
      var ok, frame;
      ok, frame, halted := NewPage(pml4, va, w0);
      if ok {
        TakenInMemory(user.machine.memory[..], user.machine.lab, user.machine.kernel, user.machine.pool,
          user.machine.frames.Free(), user.machine.frames.used);
        StackPageAdded(user.procs.View(), m, spaces, taken, user.machine.memory[..], user.Spaces(), user.Taken(),
          root, frame / PAGE_SIZE, data, segs, stack0, w0.taken);
        stack := Grown(stack0, spaces[root]);
      }
    }

    /** `load_elf`. The outcome tells the process image; a full process table loses it.
        `kernelStack` is the result of the kernel-heap allocation of the kernel stack. */
    method LoadElf(data: seq<byte>, parent: nat, kernelStack: bool)
      returns (o: Outcome, pid: Option<nat>, halted: bool, ghost root: nat, ghost stack: Stack)
      requires user.Valid() && FileOk(data)
      modifies user.procs.slots, user.procs`nextPid
      modifies user.machine.memory, user.machine.frames`used, user.machine.frames.bitmap, user.machine`lab
      ensures user.Valid()
      ensures o.Rejected? <==> ParseHeader(data).None?
      ensures user.procs.nextPid == old(user.procs.nextPid) + (if o.Rejected? then 0 else 1)
      ensures halted ==> o.LoadFailed?
      ensures LoadResult(old(user.Now()), old(user.procs.nextPid), parent, o, pid, root, user.Now())
      ensures pid.Some? ==>
        && o.Loaded? && pid.value == old(user.procs.nextPid)
        && Joins(old(user.procs.View()), pid.value, parent, o, user.procs.View())
      ensures o.Loaded? ==> ProgramImage(data, o) && o.pml4 / PAGE_SIZE !in old(user.Spaces())
      ensures o.Loaded? ==> root == o.pml4 / PAGE_SIZE && Finished(root, data, SegmentsOf(data), stack)
      ensures o.Loaded? ==> stack.pages == STACK_PAGES || user.machine.frames.Free() == {}
      ensures o.LoadFailed? && !halted ==>
        || (OutOfFrames(root, SegmentsOf(data)) && stack.under == map[])
        || (!kernelStack && Finished(root, data, SegmentsOf(data), stack))
      ensures !halted && !o.Rejected? ==> root !in old(user.Spaces()) && Took(old(user.Taken()), user.Spaces(), user.Taken(), root, stack.under)
      ensures !halted ==>
        && Lost(user.Now()) == Lost(old(user.Now())) + LoadLoss(o, pid.Some?, user.Spaces(), root, stack.under)
        && DeadTables(user.Now()) == DeadTables(old(user.Now())) + LoadBurial(o, pid.Some?, user.Trees(), root)
      ensures pid.Some? ==> (Lost(user.Now()) != Lost(old(user.Now())) <==> UnderStack(SegmentsOf(data), stack.pages))
      ensures pid.None? && !halted && !o.Rejected? ==>
        (Lost(user.Now()) != Lost(old(user.Now())) <==> user.Spaces()[root] != map[])
    {
      hide And, Or, Space, MachineOk, ImageLoaded, PagesLoaded, FinishedSpace, UnderStack, Took, Partly, PageUp,
        PageDown, ProcessesOwn, Loading, Isolated, Installed, Moves, Untouched, LoadResult, Lost, Grounded, AddsRoot, DeadTables, TreeOf;
      ghost var w0 := user.Now();
      RootedTrees(user.machine.memory[..], user.machine.lab);
      root, stack := 0, Stack(0, map[]);
      var header := ParseHeader(data);
      if header.None? {
        NothingLoaded(w0, w0, user.procs.nextPid, parent, Rejected, 0);
        o, pid, halted := Rejected, None, false;
        return;
      }
      var segs := Elf.LoadSegments(data, header.value, header.value.phnum);
      var newPid := user.procs.nextPid;
      user.procs.nextPid := newPid + 1;
      ghost var t := user.procs.View();
      var ok, pml4, maxVaddr;
      ok, pml4, maxVaddr, halted, stack := BuildSpace(data, segs);
      root := pml4 / PAGE_SIZE;
      o, pid := LoadFailed, None;
      if !halted {
        TookRoot(w0.taken, user.Spaces(), user.Taken(), root, stack.under);
      }
      if ok {
        LoadingOwn(t, user.Spaces(), user.Taken(), root);
        LeakMoves(w0, user.Now(), root);
      }
      if !ok || !kernelStack {
        NothingLoaded(w0, user.Now(), newPid, parent, LoadFailed, root);
        if !halted {
          LoadLoses(w0, newPid, parent, o, pid, user.Now(), root, stack.under);
          LoadBuries(w0, newPid, parent, o, pid, user.Now(), root);
          FailedLosesIff(w0, user.Now(), root, data, segs, stack);
        }
        return;
      }
      o, pid := Enroll(data, segs, header.value.entry, pml4, maxVaddr, newPid, parent, w0, stack);
      if pid.Some? {
        InstalledLosesIff(w0, user.Now(), root, data, segs, stack);
      } else {
        FailedLosesIff(w0, user.Now(), root, data, segs, stack);
      }
    }

    /** The end of `load_elf`: the process record goes to the first reusable slot. */
    method Enroll(ghost data: seq<byte>, segs: seq<Phdr>, entry: nat, pml4: nat, maxVaddr: nat, newPid: nat, parent: nat,
        ghost w0: World, ghost stack: Stack)
      returns (o: Outcome, pid: Option<nat>)
      requires PageAligned(pml4) && Ready(pml4 / PAGE_SIZE, w0) && w0.table == user.procs.View() && WorldOk(w0)
      requires AllLoadable(data, segs) && Finished(pml4 / PAGE_SIZE, data, segs, stack)
      requires Holds(pml4 / PAGE_SIZE, w0, stack.under)
      modifies user.procs.slots
      ensures user.Valid()
      ensures o == Outcome.Loaded(pml4, AreasOf(segs) + [STACK_AREA], PageUp(maxVaddr), entry)
      ensures LoadResult(w0, newPid, parent, o, pid, pml4 / PAGE_SIZE, user.Now())
      ensures pid.Some? ==> pid.value == newPid && Joins(w0.table, newPid, parent, o, user.procs.View())
      ensures Lost(user.Now()) == Lost(w0) + LoadLoss(o, pid.Some?, user.Spaces(), pml4 / PAGE_SIZE, stack.under)
      ensures DeadTables(user.Now()) == DeadTables(w0) + LoadBurial(o, pid.Some?, user.Trees(), pml4 / PAGE_SIZE)
    {
      hide And, Or, Space, MachineOk, FinishedPages, Overlaid, Took, PageUp, ProcessesOwn, Loading, Isolated, Installed,
        Moves, Untouched, LoadResult, Lost, LoadLoss, AreasOf, Grounded, AddsRoot, DeadTables, LoadBurial;
      ghost var t, root := user.procs.View(), pml4 / PAGE_SIZE;
      NewRootOf(w0, user.machine.memory[..], user.Spaces(), user.Taken(), root);
      o := Outcome.Loaded(pml4, AreasOf(segs) + [STACK_AREA], PageUp(maxVaddr), entry);
      var installed := user.procs.Install(NewProcess(newPid, parent, o));
      LoadedOwns(t, user.Spaces(), user.Taken(), root, NewProcess(newPid, parent, o), data, segs, stack.pages);
      LoadedResult(w0, user.Now(), root, newPid, parent, o, data, segs, stack.pages);
      InstalledJoins(w0.table, newPid, parent, o);
      pid := if installed then Some(newPid) else None;
      LoadLoses(w0, newPid, parent, o, pid, user.Now(), root, stack.under);
      LoadBuries(w0, newPid, parent, o, pid, user.Now(), root);
    }

    /** The address space of the new process: created, filled, with its first stack pages. */
    method BuildSpace(data: seq<byte>, segs: seq<Phdr>)
      returns (ok: bool, pml4: nat, maxVaddr: nat, halted: bool, ghost stack: Stack)
      requires user.Valid() && AllLoadable(data, segs)
      modifies user.machine.memory, user.machine.frames`used, user.machine.frames.bitmap, user.machine`lab
      ensures user.machine.frames.Valid()
      ensures !(ok && halted) && (!ok ==> user.Valid() && Moves(old(user.Now()), Leak(pml4 / PAGE_SIZE), user.Now()))
      ensures ok ==> PageAligned(pml4) && Ready(pml4 / PAGE_SIZE, old(user.Now()))
      ensures ok ==> Finished(pml4 / PAGE_SIZE, data, segs, stack) && maxVaddr == MaxEnd(segs, |segs|)
      ensures ok ==> stack.pages == STACK_PAGES || user.machine.frames.Free() == {}
      ensures !ok && !halted ==> OutOfFrames(pml4 / PAGE_SIZE, segs) && stack.under == map[]
      ensures !halted ==> pml4 / PAGE_SIZE !in old(user.Spaces()) && Holds(pml4 / PAGE_SIZE, old(user.Now()), stack.under)
    {
      hide And, Or, Space, MachineOk, ImageLoaded, PagesLoaded, FinishedSpace, Took, Partly, PageUp, PageDown,
        ProcessesOwn, Loading, Isolated, Moves, Untouched, Grounded, AddsRoot;
      ghost var w0 := user.Now();
      stack := Stack(0, map[]);
      LeakNothing(w0, 0);
      ok, pml4 := NewSpace(data, segs);
      if !ok {
        ok, pml4, maxVaddr, halted := false, 0, 0, true;
        return;
      }
      TookNothing(w0.taken, user.Spaces(), pml4 / PAGE_SIZE);
      ok, halted, maxVaddr := LoadSegments(pml4, data, segs, w0);
      LoadingOwn(w0.table, user.Spaces(), user.Taken(), pml4 / PAGE_SIZE);
      LeakMoves(w0, user.Now(), pml4 / PAGE_SIZE);
      if !ok {
        return;
      }
      halted, stack := LoadStack(pml4, data, segs, w0);
      LoadingOwn(w0.table, user.Spaces(), user.Taken(), pml4 / PAGE_SIZE);
      LeakMoves(w0, user.Now(), pml4 / PAGE_SIZE);
      ok := !halted;
    }

    method NewSpace(ghost data: seq<byte>, ghost segs: seq<Phdr>) returns (ok: bool, pml4: nat)
      requires user.Valid() && AllLoadable(data, segs)
      modifies user.machine.memory, user.machine.frames`used, user.machine.frames.bitmap, user.machine`lab
      ensures !ok ==> user.Valid() && user.Now() == old(user.Now())
      ensures ok ==> PageAligned(pml4) && Ready(pml4 / PAGE_SIZE, old(user.Now())) && pml4 / PAGE_SIZE !in old(user.Spaces())
      ensures ok ==> pml4 / PAGE_SIZE in user.Spaces() && user.Spaces()[pml4 / PAGE_SIZE] == map[] && user.Taken() == old(user.Taken())
    {
      hide And, Or, Space, Entries, MachineOk, Translate, Intact, ProcessesOwn, Loading, SameSpaces, SameKernelView, Grounded,
        AddsRoot;
      ghost var t, m, lab, free, taken := user.procs.View(), user.machine.memory[..], user.machine.lab, user.machine.frames.Free(), user.Taken();
      ok, pml4 := user.machine.CreateUserPageTable();
      if ok {
        ghost var root := pml4 / PAGE_SIZE;
        TakenFromPool(m, lab, user.machine.kernel, user.machine.pool, free, old(user.machine.frames.used), root);
        LoadingStarts(t, m, lab, taken, root, user.machine.memory[..]);
        assert user.Taken() == taken;
        SpaceStarts(m, lab, user.machine.memory[..], t, taken, root);
        GroundedNewRoot(m, lab, user.machine.memory[..], root);
      }
    }
  }

  lemma GroundedNewRoot(m: seq<byte>, lab: Labels, n: seq<byte>, root: nat)
    requires Grounded(m, lab) && root !in lab && SameSpaces(m, n, lab) && Space(n, root) == map[] && Entries(n, root) == map[]
    ensures Grounded(n, lab[root := Pml4(root)])
    ensures AddsRoot(TreesOf(lab), SpacesOf(m, lab), TreesOf(lab[root := Pml4(root)]), SpacesOf(n, lab[root := Pml4(root)]), root)
  {
    hide Space, Entries, IsOpen;
    var lab' := lab[root := Pml4(root)];
    SpacesWithRoot(m, lab, root, n);
    assert SpacesOf(n, lab').Keys == SpacesOf(m, lab).Keys + {root};
    AddsRooted(TreesOf(lab), SpacesOf(m, lab), TreesOf(lab'), SpacesOf(n, lab'), root);
    forall r, p | IsRoot(lab', r) && p in Entries(n, r)
      ensures IsOpen(Entries(n, r)[p])
    {
      assert r != root ==> Entries(n, r)[p] == Entries(m, r)[p];
    }
  }

  lemma AddsThenGrew(w0: World, trees: Trees, spaces: Spaces, trees': Trees, spaces': Spaces, root: nat)
    requires AddsRoot(w0.trees, w0.spaces, trees, spaces, root) && Grew(trees, trees', root) && spaces'.Keys == spaces.Keys
    ensures AddsRoot(w0.trees, w0.spaces, trees', spaces', root)
  {
    GrewTwice(w0.trees, trees, trees', root);
    assert root in trees;
  }

  lemma SpaceStarts(m: seq<byte>, lab: Labels, n: seq<byte>, t: Table, taken: set<nat>, root: nat)
    requires root !in lab && root !in taken && |n| == |m|
    requires forall a: nat {:trigger n[a]} :: a < |m| && a / PAGE_SIZE != root ==> n[a] == m[a]
    requires SpacesOf(n, lab[root := Pml4(root)]) == SpacesOf(m, lab)[root := map[]]
    ensures Untouched(World(m, t, SpacesOf(m, lab), taken, TreesOf(lab)), n, SpacesOf(n, lab[root := Pml4(root)]), taken, root)
  {
    hide Space;
  }

  /** Each program header that the loader reads lies in the file. */
  predicate HeadersIn(data: seq<byte>) {
    ParseHeader(data).Some? ==> Readable(data, ParseHeader(data).value, ParseHeader(data).value.phnum)
  }

  function SegmentsOf(data: seq<byte>): seq<Phdr>
    requires HeadersIn(data)
  {
    var h := ParseHeader(data);
    if h.Some? then Elf.LoadSegments(data, h.value, h.value.phnum) else []
  }

  /** A whole file: from the encodings of a file header and of the program headers that it
      counts, the loader reads exactly the PT_LOAD ones, in order. */
  lemma FileRoundTrip(data: seq<byte>, kind: nat, h: Header, ps: seq<Phdr>)
    requires HoldsHeader(data, kind, h) && (kind == 2 || kind == 3) && h.phnum == |ps|
    requires forall i :: 0 <= i < |ps| ==> HoldsPhdr(data, EntryAt(h, i), ps[i])
    requires forall i :: 0 <= i < |ps| ==> EntryAt(h, i) + h.phentsize <= |data|
    ensures HeadersIn(data) && SegmentsOf(data) == LoadOnly(ps)
  {
    hide HoldsPhdr, HoldsHeader, ParseHeader, EntryAt, LoadOnly;
    HeaderRoundTrip(data, kind, h);
    SegmentsRoundTrip(data, h, ps);
  }

  /** The areas of the new process: the whole pages of each segment, with its rights, and
      the stack. */
  lemma AreasAre(segs: seq<Phdr>, data: seq<byte>, a: nat)
    requires AllLoadable(data, segs)
    ensures Covered(AreasOf(segs) + [STACK_AREA], a) <==>
      || STACK_TOP - STACK_SIZE <= a < STACK_TOP
      || exists i :: 0 <= i < |segs| && segs[i].vaddr / PAGE_SIZE <= a / PAGE_SIZE < (segs[i].vaddr + segs[i].memsz + PAGE_SIZE - 1) / PAGE_SIZE
  {
    hide PageUp, PageDown, And;
    var areas := AreasOf(segs) + [STACK_AREA];
    assert areas[|segs|] == STACK_AREA;
    forall i | 0 <= i < |segs|
      ensures areas[i] == AreaOf(segs[i])
      ensures areas[i].Contains(a) <==>
        segs[i].vaddr / PAGE_SIZE <= a / PAGE_SIZE < (segs[i].vaddr + segs[i].memsz + PAGE_SIZE - 1) / PAGE_SIZE
    {
      SegmentSpans(data, segs[i], a);
    }
    if v :| v in areas && v.Contains(a) {
      var i :| 0 <= i < |areas| && areas[i] == v;
    }
    if i :| 0 <= i < |areas| && areas[i].Contains(a) {
      assert areas[i] in areas;
    }
  }

  lemma SegmentSpans(data: seq<byte>, s: Phdr, a: nat)
    requires Loadable(data, s)
    ensures SegStart(s) <= a < SegEnd(s) <==>
      s.vaddr / PAGE_SIZE <= a / PAGE_SIZE < (s.vaddr + s.memsz + PAGE_SIZE - 1) / PAGE_SIZE
  {
    hide And;
    PageRounding(s.vaddr);
    PageRounding(s.vaddr + s.memsz);
    hide PageUp, PageDown;
  }

  /** An area may be written or executed as the segment's PF_W and PF_X bits say. */
  lemma AreaRights(segs: seq<Phdr>, i: nat)
    requires i < |segs|
    ensures var flags := AreasOf(segs)[i].flags;
      (flags.write <==> segs[i].flags / 2 % 2 == 1) && (flags.exec <==> segs[i].flags % 2 == 1)
  {
    hide And, SegStart, SegEnd;
    AndDouble(segs[i].flags, 1);
    AndLow(segs[i].flags, 1);
    AndLow(segs[i].flags / 2, 1);
    assert Pow2(1) == 2;
  }

  lemma {:induction false} MaxEndBounds(data: seq<byte>, segs: seq<Phdr>, n: nat)
    requires n <= |segs| && AllLoadable(data, segs)
    ensures forall i :: 0 <= i < n ==> segs[i].vaddr + segs[i].memsz <= MaxEnd(segs, n)
    ensures if n == 0 then MaxEnd(segs, n) == 0
      else exists i :: 0 <= i < n && MaxEnd(segs, n) < segs[i].vaddr + segs[i].memsz + PAGE_SIZE
    ensures PageAligned(MaxEnd(segs, n)) && MaxEnd(segs, n) <= USER_TOP
  {
    hide SegEnd, SegStart;
    if n > 0 {
      MaxEndBounds(data, segs, n - 1);
      SegBounds(data, segs[n - 1]);
    }
  }

  /** The heap of a new process starts on the first page boundary at or above the end of
      every segment, or at 0 when the file has none. */
  lemma HeapAboveSegments(data: seq<byte>, o: Outcome)
    requires FileOk(data) && o.Loaded? && ProgramImage(data, o)
    ensures var segs := SegmentsOf(data);
      && o.heapBreak % PAGE_SIZE == 0
      && (forall i :: 0 <= i < |segs| ==> segs[i].vaddr + segs[i].memsz <= o.heapBreak)
      && if segs == [] then o.heapBreak == 0
         else exists i :: 0 <= i < |segs| && o.heapBreak < segs[i].vaddr + segs[i].memsz + PAGE_SIZE
  {
    hide PageUp, PageDown, And, MaxEnd, ParseHeader, AreasOf, SegmentsOf;
    var segs := SegmentsOf(data);
    MaxEndBounds(data, segs, |segs|);
    PageRounding(MaxEnd(segs, |segs|));
    assert PageUp(MaxEnd(segs, |segs|)) == MaxEnd(segs, |segs|);
  }

  /** What the loader takes on trust about a file that passes the header checks. */
  predicate FileOk(data: seq<byte>) {
    HeadersIn(data) && AllLoadable(data, SegmentsOf(data))
  }

  lemma LoadingOwn(t: Table, spaces: Spaces, taken: set<nat>, root: nat)
    requires Loading(t, spaces, taken, root)
    ensures ProcessesOwn(t, spaces, taken)
  {
  }

  /** The areas of the new process cover all its pages. */
  lemma AreasCover(space: map<nat, nat>, data: seq<byte>, segs: seq<Phdr>, n: nat)
    requires AllLoadable(data, segs) && n <= STACK_PAGES && FinishedPages(space, segs, n)
    ensures forall v :: v in AreasOf(segs) + [STACK_AREA] ==> AreaOk(v)
    ensures forall p :: p in space ==> TouchedBy(AreasOf(segs) + [STACK_AREA], p)
  {
    hide PageUp, PageDown, And;
    var areas := AreasOf(segs) + [STACK_AREA];
    forall i | 0 <= i < |segs|
      ensures AreaOk(AreaOf(segs[i])) && AreaOf(segs[i]) in areas && PageDown(SegStart(segs[i])) == SegStart(segs[i])
    {
      SegBounds(data, segs[i]);
      PageRounding(SegStart(segs[i]));
      hide PageUp, PageDown;
      assert AreaOf(segs[i]) == areas[i];
    }
    PageRounding(STACK_AREA.start);
    assert STACK_AREA == areas[|segs|] && AreaOk(STACK_AREA);
    forall p | p in space
      ensures TouchedBy(areas, p)
    {
      if StackPage(p, n) {
        assert Touches(STACK_AREA, p);
      } else {
        var i :| 0 <= i < |segs| && OnPage(segs[i], p);
        assert Touches(AreaOf(segs[i]), p);
      }
    }
  }

  lemma LeakNothing(w: World, root: nat)
    ensures Moves(w, Leak(root), w)
  {
  }

  lemma LeakMoves(w0: World, w: World, root: nat)
    requires w.table == w0.table && Untouched(w0, w.m, w.spaces, w.taken, root)
    requires AddsRoot(w0.trees, w0.spaces, w.trees, w.spaces, root)
    ensures Moves(w0, Leak(root), w)
  {
    hide SameBytes, AddsRoot;
  }

  lemma InstalledNowhere(t: Table, p: Process)
    requires FreeSlotFrom(t, 0).None?
    ensures Installed(t, p) == t
  {
  }

  lemma LoadMoves(w0: World, w: World, root: nat, p: Process, data: seq<byte>, segs: seq<Phdr>, n: nat, i: nat)
    requires Loading(w0.table, w.spaces, w.taken, root) && Untouched(w0, w.m, w.spaces, w.taken, root)
    requires RootOf(p) == root && PageAligned(p.pml4) && IsLive(Some(p)) && AllLoadable(data, segs)
    requires root in w.spaces && n <= STACK_PAGES && FinishedPages(w.spaces[root], segs, n) && p.vmas == AreasOf(segs) + [STACK_AREA]
    requires FreeSlotFrom(w0.table, 0) == Some(i) && w.table == Installed(w0.table, p)
    requires AddsRoot(w0.trees, w0.spaces, w.trees, w.spaces, root)
    ensures Moves(w0, Load(i, p), w)
  {
    hide AddsRoot, FinishedPages, AreasOf, AreaOk, TouchedBy, SameBytes, OwnsSpace;
    AreasCover(w.spaces[root], data, segs, n);
    assert root in LiveRoots(w0.table) + {root};
    assert OnlyAdds(w0, w, root);
  }

  lemma LoadedOwns(t: Table, spaces: Spaces, taken: set<nat>, root: nat, p: Process, data: seq<byte>, segs: seq<Phdr>, n: nat)
    requires Loading(t, spaces, taken, root) && RootOf(p) == root && PageAligned(p.pml4) && IsLive(Some(p))
    requires AllLoadable(data, segs) && root in spaces && n <= STACK_PAGES && FinishedPages(spaces[root], segs, n) && p.vmas == AreasOf(segs) + [STACK_AREA]
    ensures ProcessesOwn(Installed(t, p), spaces, taken)
  {
    hide Isolated, FinishedPages, AreasOf, AreaOk, TouchedBy;
    AreasCover(spaces[root], data, segs, n);
    match FreeSlotFrom(t, 0)
    case Some(i) => OwnAfterInstall(t, spaces, taken, i, p);
    case None =>
  }

  /** A new frame for a page of the space under construction, in terms of that space. */
  lemma NewFrameFresh(t: Table, m: seq<byte>, spaces: Spaces, taken: set<nat>, n: seq<byte>, spaces': Spaces, taken': set<nat>,
      root: nat, page: nat, g: nat)
    requires root in spaces && NewFrameMapped(m, spaces, taken, n, spaces', taken', root, page, g)
    requires Loading(t, spaces, taken, root) && InMemoryAll(taken', |m|)
    ensures root in spaces' && FreshPage(m, spaces[root], n, spaces'[root], page, g)
  {
    hide ProcessesOwn;
    assert root in LiveRoots(t) + {root};
    assert forall q :: q in spaces[root] ==> spaces[root][q] in taken;
  }

  /** One more stack page: the space stays finished, and the frames are accounted for. */
  lemma StackPageAdded(t: Table, m: seq<byte>, spaces: Spaces, taken: set<nat>, n: seq<byte>, spaces': Spaces, taken': set<nat>,
      root: nat, g: nat, data: seq<byte>, segs: seq<Phdr>, stack: Stack, before: set<nat>)
    requires AllLoadable(data, segs) && stack.pages < STACK_PAGES && FinishedSpace(m, spaces, root, data, segs, stack)
    requires NewFrameMapped(m, spaces, taken, n, spaces', taken', root, StackAt(stack.pages), g)
    requires Loading(t, spaces, taken, root) && InMemoryAll(taken', |m|)
    requires Took(before, spaces, taken, root, stack.under)
    ensures FinishedSpace(n, spaces', root, data, segs, Grown(stack, spaces[root]))
    ensures Took(before, spaces', taken', root, Grown(stack, spaces[root]).under)
  {
    hide Loading, FinishedPages, Overlaid, Took, StackOver, FreshPage, StackAt;
    var page := StackAt(stack.pages);
    NewFrameFresh(t, m, spaces, taken, n, spaces', taken', root, page, g);
    StackGrows(m, spaces[root], n, spaces'[root], g, data, segs, stack.pages);
    GrownOver(stack, spaces[root], segs);
    if page in spaces[root] {
      LoadingFrame(t, spaces, taken, root, page);
      TookOver(before, spaces, taken, root, stack.under, page, g);
    } else {
      TookNew(before, spaces, taken, root, stack.under, page, g);
    }
  }

  lemma TakenInMemory(m: seq<byte>, lab: Labels, kernel: set<(nat, nat)>, pool: set<nat>, free: set<nat>, used: nat)
    requires MachineOk(m, lab, kernel, pool, free, used) && |m| >= MAX_FRAMES * PAGE_SIZE
    ensures InMemoryAll(pool - free - lab.Keys, |m|)
  {
    hide Intact;
  }

  lemma TookPage(before: set<nat>, m: seq<byte>, spaces: Spaces, taken: set<nat>, n: seq<byte>, spaces': Spaces, taken': set<nat>,
      root: nat, page: nat, g: nat)
    requires Took(before, spaces, taken, root, map[]) && PageProvided(m, spaces, taken, n, spaces', taken', root, page, g)
    ensures Took(before, spaces', taken', root, map[])
  {
    hide Took;
    if page !in spaces[root] {
      TookNew(before, spaces, taken, root, map[], page, g);
    }
  }

  lemma LoadLoses(w: World, newPid: nat, parent: nat, o: Outcome, pid: Option<nat>, v: World, root: nat, under: map<nat, nat>)
    requires WorldOk(w) && LoadResult(w, newPid, parent, o, pid, root, v) && !o.Rejected?
    requires Took(w.taken, v.spaces, v.taken, root, under) && (o.Loaded? ==> o.pml4 / PAGE_SIZE == root)
    ensures Lost(v) == Lost(w) + LoadLoss(o, pid.Some?, v.spaces, root, under)
  {
    hide WorldOk, Lost, Moves;
    if pid.Some? {
      var i, p := FreeSlotFrom(w.table, 0).value, NewProcess(newPid, parent, o);
      MoveLoses(w, Load(i, p), v);
    } else {
      MoveLoses(w, Leak(root), v);
    }
  }

  /** Some segment lies on one of the pre-mapped stack pages. */
  ghost predicate UnderStack(segs: seq<Phdr>, n: nat) {
    exists p: nat :: StackPage(p, n) && Covers(segs, p)
  }

  /** An installed process costs a frame for good if and only if one of its segments lies
      on a pre-mapped stack page. */
  lemma InstalledLosesIff(w: World, v: World, root: nat, data: seq<byte>, segs: seq<Phdr>, stack: Stack)
    requires AllLoadable(data, segs) && FinishedSpace(v.m, v.spaces, root, data, segs, stack) && Took(w.taken, v.spaces, v.taken, root, stack.under)
    requires Lost(v) == Lost(w) + stack.under.Values
    ensures Lost(v) != Lost(w) <==> UnderStack(segs, stack.pages)
  {
    hide StackPage, Covers, LiveFrames, Overlaid, FinishedPages;
    if p: nat :| StackPage(p, stack.pages) && Covers(segs, p) {
      assert p in stack.under && stack.under[p] in stack.under.Values;
      assert stack.under[p] !in w.taken;
    }
    if f :| f in stack.under.Values {
      var p :| p in stack.under && stack.under[p] == f;
      assert StackPage(p, stack.pages) && Covers(segs, p);
    }
  }

  /** A load that installs no process costs a frame for good if and only if it had mapped a page. */
  lemma FailedLosesIff(w: World, v: World, root: nat, data: seq<byte>, segs: seq<Phdr>, stack: Stack)
    requires Took(w.taken, v.spaces, v.taken, root, stack.under) && AllLoadable(data, segs)
    requires stack.under == map[] || FinishedSpace(v.m, v.spaces, root, data, segs, stack)
    requires Lost(v) == Lost(w) + v.spaces[root].Values + stack.under.Values
    ensures Lost(v) != Lost(w) <==> v.spaces[root] != map[]
  {
    hide StackPage, Covers, LiveFrames, Overlaid;
    var space := v.spaces[root];
    if p :| p in space {
      assert space[p] in space.Values && space[p] !in w.taken;
    }
    if f :| f in stack.under.Values {
      var p :| p in stack.under && stack.under[p] == f;
      assert p in space;
    }
  }

  /** The page tables of a load that installs no process are dead, the PML4 among them. */
  lemma LoadBuries(w: World, newPid: nat, parent: nat, o: Outcome, pid: Option<nat>, v: World, root: nat)
    requires WorldOk(w) && LoadResult(w, newPid, parent, o, pid, root, v) && !o.Rejected?
    requires root !in w.spaces && root in v.spaces
    ensures DeadTables(v) == DeadTables(w) + LoadBurial(o, pid.Some?, v.trees, root)
    ensures pid.None? ==> root in LoadBurial(o, false, v.trees, root)
  {
    hide WorldOk, DeadTables, Moves, TreeOf;
    if pid.Some? {
      MoveBuries(w, Load(FreeSlotFrom(w.table, 0).value, NewProcess(newPid, parent, o)), v);
    } else {
      LoadBuriesTree(w, root, v);
    }
  }

  lemma NewRootOf(w0: World, m: seq<byte>, spaces: Spaces, taken: set<nat>, root: nat)
    requires Untouched(w0, m, spaces, taken, root)
    ensures root !in w0.spaces && root in spaces
  {
  }

  lemma ProvidedImage(t: Table, m: seq<byte>, spaces: Spaces, taken: set<nat>, n: seq<byte>, spaces': Spaces, taken': set<nat>,
      root: nat, page: nat, g: nat, data: seq<byte>, segs: seq<Phdr>, j: nat)
    requires j < |segs| && AllLoadable(data, segs) && OnPage(segs[j], page)
    requires PageProvided(m, spaces, taken, n, spaces', taken', root, page, g)
    requires Loading(t, spaces', taken', root) && Loading(t, spaces, taken, root)
    requires InMemoryAll(taken', |m|)
    requires ImageLoaded(m, spaces[root], data, segs, j, page * PAGE_SIZE) && PagesLoaded(spaces[root], segs, j, page * PAGE_SIZE)
    ensures root in spaces' && page in spaces'[root] && spaces'[root][page] == g && g in taken'
    ensures ImageLoaded(n, spaces'[root], data, segs, j, page * PAGE_SIZE)
    ensures forall q: nat :: q in spaces'[root] <==> q in spaces[root] || q == page
    ensures forall q :: q in spaces'[root] ==>
      (spaces'[root][q] + 1) * PAGE_SIZE <= |m| && (q != page ==> spaces'[root][q] != spaces'[root][page])
  {
    hide ProcessesOwn, ImageLoaded, PagesLoaded, OnPage, FreshPage;
    LoadingFrame(t, spaces', taken', root, page);
    assert root in LiveRoots(t) + {root};
    if page !in spaces[root] {
      NewFrameFresh(t, m, spaces, taken, n, spaces', taken', root, page, g);
      FreshPageImage(m, n, spaces[root], spaces'[root], page, g, data, segs, j, page * PAGE_SIZE);
    }
  }

  ghost predicate InMemoryAll(frames: set<nat>, size: nat) {
    forall f :: f in frames ==> (f + 1) * PAGE_SIZE <= size
  }

  /** A page newly mapped to the zeroed frame `g`. */
  ghost predicate NewFrameMapped(m: seq<byte>, spaces: Spaces, taken: set<nat>, n: seq<byte>, spaces': Spaces, taken': set<nat>,
      root: nat, page: nat, g: nat)
    requires root in spaces
  {
    && g !in taken && taken' == taken + {g} && spaces' == spaces[root := MapIn(spaces[root], page, g)] && |n| == |m|
    && (forall a: nat {:trigger n[a]} :: a < |m| && a / PAGE_SIZE == g ==> n[a] == 0)
    && (forall a: nat {:trigger n[a]} :: a < |m| && a / PAGE_SIZE in taken ==> n[a] == m[a])
  }

  lemma NewPageContents(m: seq<byte>, n: seq<byte>, z: seq<byte>, tables: set<nat>, taken: set<nat>, g: nat)
    requires |n| == |m| && (forall a: nat {:trigger n[a]} :: a < |m| && a / PAGE_SIZE !in tables ==> n[a] == m[a])
    requires Stored(n, g * PAGE_SIZE, Zeros(PAGE_SIZE), z) && taken !! tables && g !in taken
    ensures |z| == |m| && (forall a: nat {:trigger z[a]} :: a < |m| && a / PAGE_SIZE == g ==> z[a] == 0)
    ensures forall a: nat {:trigger z[a]} :: a < |m| && a / PAGE_SIZE in taken ==> z[a] == m[a]
  {
    forall a: nat | a < |m| && a / PAGE_SIZE in taken
      ensures z[a] == m[a]
    {
      assert n[a] == m[a];
      assert a < g * PAGE_SIZE || a >= (g + 1) * PAGE_SIZE;
    }
  }

  /** A data frame is none of the tables that have grown. */
  lemma NewTaken(m: seq<byte>, lab: Labels, free: set<nat>, n: seq<byte>, lab': Labels, free': set<nat>, g: nat)
    requires TablesGrew(m, lab, free, n, lab', free') && g !in lab && g !in free
    ensures g !in lab'
  {
    hide TablesGrew;
    FrameContents(m, lab, free, n, lab', free', g);
  }

  /** The page was mapped, and its frame zeroed. */
  lemma PageAdded(w0: World, t: Table, m: seq<byte>, lab: Labels, free: set<nat>, n: seq<byte>, lab': Labels, free': set<nat>,
      z: seq<byte>, spaces: Spaces, taken: set<nat>, root: nat, page: nat, g: nat)
    requires TablesGrew(m, lab, free, n, lab', free') && Stored(n, g * PAGE_SIZE, Zeros(PAGE_SIZE), z)
    requires g !in taken && taken + {g} !! lab'.Keys && root in spaces
    requires Loading(t, spaces, taken, root) && Untouched(w0, m, spaces, taken, root)
    ensures var after := spaces[root := MapIn(spaces[root], page, g)];
      && NewFrameMapped(m, spaces, taken, z, after, taken + {g}, root, page, g)
      && Loading(t, after, taken + {g}, root) && Untouched(w0, z, after, taken + {g}, root)
  {
    hide TablesGrew, Loading, Untouched;
    FrameContents(m, lab, free, n, lab', free', g);
    NewPageContents(m, n, z, lab'.Keys, taken, g);
    LoadingMapped(t, spaces, taken, root, page, g);
    UntouchedNewFrame(w0, m, spaces, taken, z, spaces[root := MapIn(spaces[root], page, g)], taken + {g}, root, page, g);
  }

  /** The page could not be mapped: its frame is taken for nothing. */
  lemma PageLeaked(w0: World, t: Table, m: seq<byte>, lab: Labels, free: set<nat>, n: seq<byte>, lab': Labels, free': set<nat>,
      spaces: Spaces, taken: set<nat>, root: nat, g: nat)
    requires TablesGrew(m, lab, free, n, lab', free') && taken !! lab'.Keys
    requires Loading(t, spaces, taken, root) && Untouched(w0, m, spaces, taken, root)
    ensures Loading(t, spaces, taken + {g}, root) && Untouched(w0, n, spaces, taken + {g}, root)
  {
    hide TablesGrew, Loading, Untouched;
    FrameContents(m, lab, free, n, lab', free', g);
    LoadingMoreTaken(t, spaces, taken, root, taken + {g});
    UntouchedLeak(w0, m, spaces, taken, n, taken + {g}, root);
  }

  lemma LoadingRoot(t: Table, m: seq<byte>, lab: Labels, taken: set<nat>, root: nat)
    requires Loading(t, SpacesOf(m, lab), taken, root)
    ensures IsRoot(lab, root) && root in SpacesOf(m, lab) && SpacesOf(m, lab)[root] == Space(m, root)
    ensures ProcessesOwn(t, SpacesOf(m, lab), taken)
  {
    hide Space, Isolated;
  }

  lemma LoadingFrame(t: Table, spaces: Spaces, taken: set<nat>, root: nat, page: nat)
    requires Loading(t, spaces, taken, root) && root in spaces && page in spaces[root]
    ensures spaces[root][page] in taken
    ensures forall q :: q in spaces[root] && q != page ==> spaces[root][q] != spaces[root][page]
  {
    assert root in LiveRoots(t) + {root};
  }

  lemma LookupPage(m: seq<byte>, lab: Labels, kernel: set<(nat, nat)>, root: nat, va: nat)
    requires Intact(m, lab, kernel) && IsRoot(lab, root) && IsUser(va) && PageAligned(va)
    ensures Translate(m, root, va) ==
      if va / PAGE_SIZE in Space(m, root) then Some(Space(m, root)[va / PAGE_SIZE] * PAGE_SIZE) else None
  {
    hide And, Space, Translate, TreeOk;
    TranslateByPage(m, lab, root, va);
  }

  lemma FrameFound(f: nat)
    requires f < MAX_FRAMES
    ensures PageDown(f * PAGE_SIZE) == f * PAGE_SIZE && PageAligned(f * PAGE_SIZE) && f * PAGE_SIZE / PAGE_SIZE == f
  {
    hide PageDown;
    DivUnique(f * PAGE_SIZE, PAGE_SIZE, f, 0);
    PageRounding(f * PAGE_SIZE);
  }

  // ---------- What a program finds in its memory ----------

  /** Byte `i` of a segment as the file describes it. */
  function FileByte(data: seq<byte>, s: Phdr, i: nat): byte
    requires Loadable(data, s)
  {
    if i < s.filesz then data[s.offset + i] else 0
  }

  /** A read at a virtual address, through the page tables. */
  ghost function ReadAt(m: seq<byte>, root: nat, va: nat): Option<byte> {
    match Translate(m, root, va)
    case None => None
    case Some(pa) => if pa < |m| then Some(m[pa]) else None
  }

  /** What the hardware reads in a finished address space whose segments are
      byte-disjoint: byte `i` of segment `j` is the file's byte, or zero past the file
      size, however the segments share pages; and zero where a stack page lies over it. */
  lemma ProgramBytes(m: seq<byte>, lab: Labels, root: nat, data: seq<byte>, segs: seq<Phdr>, n: nat, j: nat, i: nat)
    requires TreeOk(m, lab) && IsRoot(lab, root) && AllLoadable(data, segs)
    requires FinishedPages(Space(m, root), segs, n) && Overlaid(m, Space(m, root), data, segs, n)
    requires forall p :: p in Space(m, root) ==> (Space(m, root)[p] + 1) * PAGE_SIZE <= |m|
    requires ByteDisjoint(segs) && j < |segs| && i < segs[j].memsz
    ensures var va := segs[j].vaddr + i;
      ReadAt(m, root, va) == Some(if StackPage(va / PAGE_SIZE, n) then 0 else FileByte(data, segs[j], i))
  {
    hide And, PageUp, PageDown, Translate, TreeOk, Space, FinishedPages, Overlaid, ByteDisjoint, StackPage, Image,
      AllLoadable;
    var va := segs[j].vaddr + i;
    SegmentPage(data, segs, j, i);
    PageMapped(Space(m, root), segs, n, j, va / PAGE_SIZE);
    TranslateByPage(m, lab, root, va);
    ImageOfSegment(data, segs, j, i);
    OverlaidAt(m, Space(m, root), data, segs, n, va);
  }

  lemma PageMapped(space: map<nat, nat>, segs: seq<Phdr>, n: nat, j: nat, page: nat)
    requires FinishedPages(space, segs, n) && j < |segs| && OnPage(segs[j], page)
    ensures page in space
  {
    hide OnPage;
  }

  lemma OverlaidAt(m: seq<byte>, space: map<nat, nat>, data: seq<byte>, segs: seq<Phdr>, n: nat, va: nat)
    requires AllLoadable(data, segs) && Overlaid(m, space, data, segs, n) && va / PAGE_SIZE in space
    ensures ByteAt(m, space, va) == if StackPage(va / PAGE_SIZE, n) then 0 else Image(data, segs, |segs|, va)
  {
  }

  /** Every file byte of the segment that lies on a stack page is zero. */
  predicate ZeroUnderStack(data: seq<byte>, s: Phdr, n: nat)
    requires Loadable(data, s)
  {
    forall i: nat {:trigger FileByte(data, s, i)} ::
      i < s.filesz && StackPage((s.vaddr + i) / PAGE_SIZE, n) ==> FileByte(data, s, i) == 0
  }

  /** A segment is in memory whole if and only if its file bytes on the stack pages,
      if it has any, are zero. */
  lemma SegmentWholeIff(m: seq<byte>, lab: Labels, root: nat, data: seq<byte>, segs: seq<Phdr>, n: nat, j: nat)
    requires TreeOk(m, lab) && IsRoot(lab, root) && AllLoadable(data, segs)
    requires FinishedPages(Space(m, root), segs, n) && Overlaid(m, Space(m, root), data, segs, n)
    requires forall p :: p in Space(m, root) ==> (Space(m, root)[p] + 1) * PAGE_SIZE <= |m|
    requires ByteDisjoint(segs) && j < |segs|
    ensures ZeroUnderStack(data, segs[j], n) <==>
      forall i: nat :: i < segs[j].memsz ==> ReadAt(m, root, segs[j].vaddr + i) == Some(FileByte(data, segs[j], i))
  {
    hide TreeOk, Space, FinishedPages, Overlaid, StackPage, ReadAt, Image, Loadable;
    forall i: nat | i < segs[j].memsz
      ensures ReadAt(m, root, segs[j].vaddr + i) == Some(FileByte(data, segs[j], i)) <==>
        (StackPage((segs[j].vaddr + i) / PAGE_SIZE, n) ==> FileByte(data, segs[j], i) == 0)
    {
      ProgramBytes(m, lab, root, data, segs, n, j, i);
    }
    assert segs[j].filesz <= segs[j].memsz;
  }

  /** A finished space is the image of the file if and only if the image is zero on
      the stack pages that were mapped in advance. */
  lemma ImageWholeIff(m: seq<byte>, space: map<nat, nat>, data: seq<byte>, segs: seq<Phdr>, n: nat)
    requires AllLoadable(data, segs) && FinishedPages(space, segs, n) && Overlaid(m, space, data, segs, n)
    ensures ImageLoaded(m, space, data, segs, |segs|, 0) <==>
      forall a: nat :: StackPage(a / PAGE_SIZE, n) ==> Image(data, segs, |segs|, a) == 0
  {
    hide StackPage, Covers, ByteAt, Image;
    forall a: nat | StackPage(a / PAGE_SIZE, n)
      ensures a / PAGE_SIZE in space && ByteAt(m, space, a) == 0
    {
    }
    forall a: nat | a / PAGE_SIZE in space
      ensures ByteAt(m, space, a) == if StackPage(a / PAGE_SIZE, n) then 0 else Image(data, segs, |segs|, a)
    {
    }
  }

  /** Replacing one page of a space that holds the image keeps the image if and only
      if the image is zero on that page. */
  lemma ReplacedPageIff(m: seq<byte>, space: map<nat, nat>, n: seq<byte>, after: map<nat, nat>, p: nat, g: nat,
      data: seq<byte>, segs: seq<Phdr>)
    requires AllLoadable(data, segs) && ImageLoaded(m, space, data, segs, |segs|, 0) && FreshPage(m, space, n, after, p, g)
    ensures ImageLoaded(n, after, data, segs, |segs|, 0) <==>
      forall a: nat :: a / PAGE_SIZE == p ==> Image(data, segs, |segs|, a) == 0
  {
    hide FreshPage, ByteAt;
    FreshKeys(m, space, n, after, p, g, p);
    forall a: nat | a / PAGE_SIZE in after
      ensures a / PAGE_SIZE == p ==> ByteAt(n, after, a) == 0
      ensures a / PAGE_SIZE != p ==> ByteAt(n, after, a) == Image(data, segs, |segs|, a)
    {
      FreshByte(m, space, n, after, p, g, a);
      assert a / PAGE_SIZE != p ==> ByteAt(m, space, a) == Image(data, segs, |segs|, a);
    }
    if forall a: nat :: a / PAGE_SIZE == p ==> Image(data, segs, |segs|, a) == 0 {
      forall a: nat | a / PAGE_SIZE in after
        ensures ByteAt(n, after, a) == Image(data, segs, |segs|, a)
      {
        assert a / PAGE_SIZE == p ==> Image(data, segs, |segs|, a) == 0;
      }
    } else {
      var a: nat :| a / PAGE_SIZE == p && Image(data, segs, |segs|, a) != 0;
      assert ByteAt(n, after, a) != Image(data, segs, |segs|, a);
      assert !ImageLoaded(n, after, data, segs, |segs|, 0);
    }
  }

  lemma SegmentPage(data: seq<byte>, segs: seq<Phdr>, j: nat, i: nat)
    requires AllLoadable(data, segs) && j < |segs| && i < segs[j].memsz
    ensures IsUser(segs[j].vaddr + i) && OnPage(segs[j], (segs[j].vaddr + i) / PAGE_SIZE)
  {
    hide PageUp, PageDown;
    SegBounds(data, segs[j]);
  }
}
