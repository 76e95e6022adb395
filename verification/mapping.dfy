/** What one write into physical memory does to every address space: the tables
    as a map from user pages to frames, and the three kinds of write. */
module Mapping {
  import opened Bits
  import opened Bytes
  import opened Frames
  import opened PageTree
  import opened Translation

  ghost function PageEnd(m: seq<byte>, root: nat, page: nat): Option<End> {
    Lookup(m, root, page * PAGE_SIZE)
  }

  /** The user half of an address space as a map from pages to page-table entries. */
  ghost function Entries(m: seq<byte>, root: nat): map<nat, nat> {
    map p | 0 <= p < USER_PAGES && PageEnd(m, root, p).Some? :: PageEnd(m, root, p).value.entry
  }

  ghost function EntryFrames(entries: map<nat, nat>): map<nat, nat> {
    map p | p in entries :: FrameOf(entries[p])
  }

  /** The user half of an address space as a map from pages to frames. */
  ghost function Space(m: seq<byte>, root: nat): map<nat, nat> {
    EntryFrames(Entries(m, root))
  }

  predicate IsRoot(lab: Labels, f: nat) {
    f in lab && lab[f].Pml4?
  }

  ghost function KernelFrames(kernel: set<(nat, nat)>): set<nat> {
    set k | k in kernel :: k.1
  }

  /** No page of any address space has another frame or other flags. */
  ghost predicate SameSpaces(m: seq<byte>, n: seq<byte>, lab: Labels) {
    && (forall r :: IsRoot(lab, r) ==> Space(n, r) == Space(m, r))
    && (forall r :: IsRoot(lab, r) ==> Entries(n, r) == Entries(m, r))
  }

  /** Every kernel-half address finds the entry that it found before. */
  ghost predicate SameKernelView(m: seq<byte>, n: seq<byte>, lab: Labels) {
    forall r, va {:trigger Lookup(n, r, va)} ::
      IsRoot(lab, r) && IsKernel(va) ==> Lookup(n, r, va) == Lookup(m, r, va)
  }

  // ---------- Words and stored bytes ----------

  /** Storing within one frame leaves the words of every other frame alone. */
  lemma StoredElsewhere(m: seq<byte>, at: nat, s: seq<byte>, n: seq<byte>, g: nat)
    requires Stored(m, at, s, n) && g * PAGE_SIZE <= at && at + |s| <= (g + 1) * PAGE_SIZE
    ensures forall f: nat, i {:trigger Word(n, f, i)} :: f != g && 0 <= i < 512 ==> Word(n, f, i) == Word(m, f, i)
  {
    forall f: nat, i | f != g && 0 <= i < 512
      ensures Word(n, f, i) == Word(m, f, i)
    {
      var a := f * PAGE_SIZE + i * 8;
      if a + 8 <= |m| {
        assert f < g ==> a + 8 <= at;
        assert f > g ==> a >= at + |s|;
        assert n[a..a + 8] == m[a..a + 8];
      }
    }
  }

  lemma WordStored(m: seq<byte>, f: nat, i: nat, w: nat, n: seq<byte>)
    requires i < 512 && w < U64 && Stored(m, f * PAGE_SIZE + i * 8, ToLe(w, 8), n)
    ensures Word(n, f, i) == w
    ensures forall g: nat, j {:trigger Word(n, g, j)} ::
      0 <= j < 512 && !(g == f && j == i) ==> Word(n, g, j) == Word(m, g, j)
  {
    var at := f * PAGE_SIZE + i * 8;
    assert n[at..at + 8] == ToLe(w, 8);
    assert Pow256(4) == 0x1_0000_0000;
    assert Pow256(8) == U64;
    LeRoundTrip(w, 8);
    StoredElsewhere(m, at, ToLe(w, 8), n, f);
    forall j | 0 <= j < 512 && j != i
      ensures Word(n, f, j) == Word(m, f, j)
    {
      var a := f * PAGE_SIZE + j * 8;
      if a + 8 <= |m| {
        assert n[a..a + 8] == m[a..a + 8];
      }
    }
  }

  lemma FrameZeroed(m: seq<byte>, g: nat, n: seq<byte>)
    requires Stored(m, g * PAGE_SIZE, Zeros(PAGE_SIZE), n)
    ensures forall j {:trigger Word(n, g, j)} :: 0 <= j < 512 ==> Word(n, g, j) == 0
  {
    forall j | 0 <= j < 512
      ensures Word(n, g, j) == 0
    {
      var a := g * PAGE_SIZE + j * 8;
      LeAllZero(n[a..a + 8]);
    }
  }

  // ---------- Spaces ----------

  /** The page-table entry of a user address decides its translation. */
  ghost function LeafOf(m: seq<byte>, root: nat, va: nat): nat {
    match TableAt(m, root, va, 3)
    case None => 0
    case Some(t) => Word(m, t, Index(va, 3))
  }

  lemma LookupByLeaf(m: seq<byte>, lab: Labels, root: nat, va: nat)
    requires TreeOk(m, lab) && IsRoot(lab, root) && IsUser(va)
    ensures var e := LeafOf(m, root, va);
      Lookup(m, root, va) == if Present(e) then Some(End(e, 3)) else None
  {
    hide And, TreeOk, Lookup;
    PathLabels(m, lab, root, va, 3);
    AddrField(0);
  }

  lemma SamePageSameLeaf(m: seq<byte>, root: nat, va: nat, vb: nat)
    requires IsUser(va) && IsUser(vb) && va / PAGE_SIZE == vb / PAGE_SIZE
    ensures LeafOf(m, root, va) == LeafOf(m, root, vb)
  {
    hide And, Index, TableAt;
    SlotsDeterminePage(va, vb);
    assert forall l: nat :: l < 3 ==> Index(va, l) == Index(vb, l);
    PathSharedBySlots(m, root, va, vb, 3);
  }

  lemma LookupByPage(m: seq<byte>, lab: Labels, root: nat, va: nat)
    requires TreeOk(m, lab) && IsRoot(lab, root) && IsUser(va)
    ensures var p := va / PAGE_SIZE;
      Lookup(m, root, va) == if p in Entries(m, root) then Some(End(Entries(m, root)[p], 3)) else None
  {
    hide Present, Lookup, LeafOf, TreeOk;
    var base := va / PAGE_SIZE * PAGE_SIZE;
    SamePageSameLeaf(m, root, va, base);
    LookupByLeaf(m, lab, root, va);
    LookupByLeaf(m, lab, root, base);
    assert PageEnd(m, root, va / PAGE_SIZE) == Lookup(m, root, base);
  }

  /** Lookup returns the page's frame plus the offset, for every user address. */
  lemma TranslateByPage(m: seq<byte>, lab: Labels, root: nat, va: nat)
    requires TreeOk(m, lab) && IsRoot(lab, root) && IsUser(va)
    ensures var p := va / PAGE_SIZE;
      Translate(m, root, va) ==
        if p in Space(m, root) then Some(Space(m, root)[p] * PAGE_SIZE + va % PAGE_SIZE) else None
  {
    hide And, Lookup, TreeOk, Entries;
    LookupByPage(m, lab, root, va);
    if va / PAGE_SIZE in Entries(m, root) {
      AddrField(Entries(m, root)[va / PAGE_SIZE]);
    }
  }

  lemma SpacesFromWalks(m: seq<byte>, n: seq<byte>, root: nat)
    requires forall va {:trigger Lookup(n, root, va)} :: IsUser(va) ==> Lookup(n, root, va) == Lookup(m, root, va)
    ensures Entries(n, root) == Entries(m, root) && Space(n, root) == Space(m, root)
  {
    hide Lookup;
    forall p | 0 <= p < USER_PAGES
      ensures PageEnd(n, root, p) == PageEnd(m, root, p)
    {
      assert IsUser(p * PAGE_SIZE);
      assert Lookup(n, root, p * PAGE_SIZE) == Lookup(m, root, p * PAGE_SIZE);
    }
    assert Entries(n, root) == Entries(m, root);
  }

  lemma KernelViewKept(m: seq<byte>, n: seq<byte>, lab: Labels, kernel: set<(nat, nat)>)
    requires KernelOk(m, lab, kernel)
    requires forall k, j {:trigger Word(n, k, j)} :: k in KernelFrames(kernel) && j < 512 ==> Word(n, k, j) == Word(m, k, j)
    requires forall r, j {:trigger Word(n, r, j)} :: IsRoot(lab, r) && KERNEL_SLOT <= j < 512 ==> Word(n, r, j) == Word(m, r, j)
    ensures SameKernelView(m, n, lab)
  {
    forall r, va | IsRoot(lab, r) && IsKernel(va)
      ensures Lookup(n, r, va) == Lookup(m, r, va)
    {
      hide And;
      IndexRange(va);
      var j := Index(va, 0);
      assert Word(n, r, j) == Word(m, r, j);
      if Present(Word(m, r, j)) {
        assert KernelLinked(m, kernel, 0, r, j);
        KernelWalkSame(m, n, lab, kernel, FrameOf(Word(m, r, j)), va, 1);
      }
    }
  }

  // ---------- The three kinds of write ----------

  ghost predicate Intact(m: seq<byte>, lab: Labels, kernel: set<(nat, nat)>) {
    TreeOk(m, lab) && KernelOk(m, lab, kernel)
  }

  /** Writing data: a store inside a frame that is no table changes no address space. */
  lemma DataWrite(m: seq<byte>, at: nat, s: seq<byte>, n: seq<byte>, g: nat, lab: Labels, kernel: set<(nat, nat)>)
    requires Intact(m, lab, kernel) && Stored(m, at, s, n)
    requires g * PAGE_SIZE <= at && at + |s| <= (g + 1) * PAGE_SIZE
    requires g !in lab && g !in KernelFrames(kernel)
    ensures Intact(n, lab, kernel) && SameSpaces(m, n, lab) && SameKernelView(m, n, lab)
  {
    hide And;
    StoredElsewhere(m, at, s, n, g);
    assert SameTables(m, n, lab.Keys, g, 0);
    forall r | IsRoot(lab, r)
      ensures Space(n, r) == Space(m, r) && Entries(n, r) == Entries(m, r)
    {
      forall va | IsUser(va)
        ensures Lookup(n, r, va) == Lookup(m, r, va)
      {
        WalkMisses(m, n, lab, g, 0, r, r, va, 0);
      }
      SpacesFromWalks(m, n, r);
    }
    KernelViewKept(m, n, lab, kernel);
    assert TreeOk(n, lab) by {
      forall f, i | f in lab && UserSlot(lab[f], i) && lab[f].Level() < 3
        ensures Linked(n, lab, f, i)
      {
        assert Word(n, f, i) == Word(m, f, i);
        assert Linked(m, lab, f, i);
      }
    }
    assert KernelOk(n, lab, kernel) by {
      KernelOkKept(m, n, lab, kernel);
    }
  }

  lemma KernelOkKept(m: seq<byte>, n: seq<byte>, lab: Labels, kernel: set<(nat, nat)>)
    requires KernelOk(m, lab, kernel) && |n| == |m|
    requires forall k, j {:trigger Word(n, k, j)} :: k in KernelFrames(kernel) && j < 512 ==> Word(n, k, j) == Word(m, k, j)
    requires forall r, j {:trigger Word(n, r, j)} :: IsRoot(lab, r) && KERNEL_SLOT <= j < 512 ==> Word(n, r, j) == Word(m, r, j)
    ensures KernelOk(n, lab, kernel)
  {
    hide And;
    forall l: nat, f: nat, i: nat | (l, f) in kernel && l < 3 && i < 512 && (l == 0 ==> i >= KERNEL_SLOT)
      ensures KernelLinked(n, kernel, l, f, i)
    {
      assert (l, f).1 in KernelFrames(kernel);
      assert Word(n, f, i) == Word(m, f, i);
      assert KernelLinked(m, kernel, l, f, i);
    }
    forall f, i | f in lab && lab[f].Pml4? && KERNEL_SLOT <= i < 512
      ensures KernelLinked(n, kernel, 0, f, i)
    {
      assert Word(n, f, i) == Word(m, f, i);
      assert KernelLinked(m, kernel, 0, f, i);
    }
  }

  /** Linking: hanging the zeroed frame `g` below an absent user entry changes no
      address space, and keeps the tree. */
  lemma LinkWrite(m: seq<byte>, n: seq<byte>, t: nat, i: nat, g: nat, lab: Labels, kernel: set<(nat, nat)>)
    requires Intact(m, lab, kernel)
    requires t in lab && lab[t].Level() < 3 && UserSlot(lab[t], i) && !Present(Word(m, t, i))
    requires g !in lab && g !in KernelFrames(kernel) && InMemory(m, g) && g < MAX_FRAMES
    requires forall j :: 0 <= j < 512 ==> Word(m, g, j) == 0
    requires Stored(m, t * PAGE_SIZE + i * 8, ToLe(TableEntry(g * PAGE_SIZE), 8), n)
    ensures Intact(n, lab[g := lab[t].Child(i)], kernel)
    ensures SameSpaces(m, n, lab) && SameKernelView(m, n, lab)
    ensures SameTables(m, n, lab.Keys, t, i) && Present(Word(n, t, i)) && FrameOf(Word(n, t, i)) == g
  {
    hide And, Or;
    var e, lab' := TableEntry(g * PAGE_SIZE), lab[g := lab[t].Child(i)];
    TableEntryFields(g * PAGE_SIZE);
    WordStored(m, t, i, e, n);
    AddrField(0);
    assert forall j :: 0 <= j < 512 ==> Word(n, g, j) == 0 && !Present(Word(n, g, j));
    forall r | IsRoot(lab, r)
      ensures Space(n, r) == Space(m, r) && Entries(n, r) == Entries(m, r)
    {
      forall va | IsUser(va)
        ensures Lookup(n, r, va) == Lookup(m, r, va)
      {
        WalkThroughLink(m, n, lab, t, i, r, r, va, 0);
      }
      SpacesFromWalks(m, n, r);
    }
    KernelViewKept(m, n, lab, kernel);
    LinkKeepsTree(m, n, t, i, g, lab);
    KernelOkKept(m, n, lab, kernel);
    KernelOkExtends(n, lab, kernel, g, lab[t].Child(i));
  }

  lemma KernelOkExtends(m: seq<byte>, lab: Labels, kernel: set<(nat, nat)>, g: nat, p: Pos)
    requires KernelOk(m, lab, kernel) && g !in KernelFrames(kernel) && g !in lab && !p.Pml4?
    ensures KernelOk(m, lab[g := p], kernel)
  {
    forall k | k in kernel
      ensures k.1 !in lab[g := p]
    {
      assert k.1 in KernelFrames(kernel);
    }
  }

  lemma LinkKeepsTree(m: seq<byte>, n: seq<byte>, t: nat, i: nat, g: nat, lab: Labels)
    requires TreeOk(m, lab) && SameTables(m, n, lab.Keys, t, i) && InMemory(m, g)
    requires t in lab && lab[t].Level() < 3 && UserSlot(lab[t], i) && g !in lab
    requires FrameOf(Word(n, t, i)) == g && !IsHuge(Word(n, t, i)) && IsOpen(Word(n, t, i))
    requires forall j :: 0 <= j < 512 ==> !Present(Word(n, g, j))
    ensures TreeOk(n, lab[g := lab[t].Child(i)])
  {
    hide Present, IsHuge, IsOpen, FrameOf;
    var lab' := lab[g := lab[t].Child(i)];
    forall f, j | f in lab' && UserSlot(lab'[f], j) && lab'[f].Level() < 3
      ensures Linked(n, lab', f, j)
    {
      if f != g && !(f == t && j == i) {
        assert Word(n, f, j) == Word(m, f, j);
        assert Linked(m, lab, f, j);
      }
    }
  }

  /** Mapping or unmapping: overwriting the page-table entry of one user page
      changes exactly that page of exactly that address space. */
  lemma LeafWrite(m: seq<byte>, n: seq<byte>, t: nat, root: nat, va: nat, e: nat, lab: Labels, kernel: set<(nat, nat)>)
    requires Intact(m, lab, kernel) && IsRoot(lab, root) && IsUser(va) && e < U64
    requires TableAt(m, root, va, 3) == Some(t)
    requires Stored(m, t * PAGE_SIZE + Index(va, 3) * 8, ToLe(e, 8), n)
    ensures Intact(n, lab, kernel) && SameKernelView(m, n, lab)
    ensures Entries(n, root) ==
      if Present(e) then Entries(m, root)[va / PAGE_SIZE := e] else Entries(m, root) - {va / PAGE_SIZE}
    ensures Space(n, root) ==
      if Present(e) then Space(m, root)[va / PAGE_SIZE := FrameOf(e)] else Space(m, root) - {va / PAGE_SIZE}
    ensures forall r :: IsRoot(lab, r) && r != root ==> Space(n, r) == Space(m, r) && Entries(n, r) == Entries(m, r)
  {
    hide And, Or;
    var i := Index(va, 3);
    IndexRange(va);
    PathLabels(m, lab, root, va, 3);
    WordStored(m, t, i, e, n);
    assert SameTables(m, n, lab.Keys, t, i);
    assert lab[t].Child(i) == PosAt(root, va, 4);
    KernelViewKept(m, n, lab, kernel);
    KernelOkKept(m, n, lab, kernel);
    LeafKeepsTree(m, n, t, i, lab);
    forall r | IsRoot(lab, r) && r != root
      ensures Space(n, r) == Space(m, r) && Entries(n, r) == Entries(m, r)
    {
      forall vb | IsUser(vb)
        ensures Lookup(n, r, vb) == Lookup(m, r, vb)
      {
        assert PosAt(r, vb, 4).root == r;
        WalkMisses(m, n, lab, t, i, r, r, vb, 0);
      }
      SpacesFromWalks(m, n, r);
    }
    LeafWriteSpace(m, n, t, root, va, e, lab);
  }

  lemma LeafKeepsTree(m: seq<byte>, n: seq<byte>, t: nat, i: nat, lab: Labels)
    requires TreeOk(m, lab) && SameTables(m, n, lab.Keys, t, i) && t in lab && lab[t].Pt?
    ensures TreeOk(n, lab)
  {
    hide And;
    forall f, j | f in lab && UserSlot(lab[f], j) && lab[f].Level() < 3
      ensures Linked(n, lab, f, j)
    {
      assert Word(n, f, j) == Word(m, f, j);
      assert Linked(m, lab, f, j);
    }
  }

  lemma LeafWriteSpace(m: seq<byte>, n: seq<byte>, t: nat, root: nat, va: nat, e: nat, lab: Labels)
    requires TreeOk(m, lab) && TreeOk(n, lab) && IsRoot(lab, root) && IsUser(va)
    requires SameTables(m, n, lab.Keys, t, Index(va, 3)) && Word(n, t, Index(va, 3)) == e
    requires TableAt(m, root, va, 3) == Some(t)
    ensures Entries(n, root) ==
      if Present(e) then Entries(m, root)[va / PAGE_SIZE := e] else Entries(m, root) - {va / PAGE_SIZE}
    ensures Space(n, root) ==
      if Present(e) then Space(m, root)[va / PAGE_SIZE := FrameOf(e)] else Space(m, root) - {va / PAGE_SIZE}
  {
    hide Index, Present, FrameOf, Lookup, TableAt, TreeOk, SameTables;
    forall p | 0 <= p < USER_PAGES
      ensures PageEnd(n, root, p) ==
        if p != va / PAGE_SIZE then PageEnd(m, root, p) else if Present(e) then Some(End(e, 3)) else None
    {
      LeafWriteAt(m, n, t, root, va, e, lab, p * PAGE_SIZE);
    }
    assert Entries(n, root) ==
      if Present(e) then Entries(m, root)[va / PAGE_SIZE := e] else Entries(m, root) - {va / PAGE_SIZE};
  }

  lemma LeafWriteAt(m: seq<byte>, n: seq<byte>, t: nat, root: nat, va: nat, e: nat, lab: Labels, vb: nat)
    requires TreeOk(m, lab) && TreeOk(n, lab) && IsRoot(lab, root) && IsUser(va) && IsUser(vb)
    requires SameTables(m, n, lab.Keys, t, Index(va, 3)) && Word(n, t, Index(va, 3)) == e
    requires TableAt(m, root, va, 3) == Some(t)
    ensures Lookup(n, root, vb) ==
      if vb / PAGE_SIZE != va / PAGE_SIZE then Lookup(m, root, vb)
      else if Present(e) then Some(End(e, 3)) else None
  {
    hide And, Index, Present, FrameOf, TreeOk, Lookup, TableAt, SameTables;
    if vb / PAGE_SIZE != va / PAGE_SIZE {
      LeafWriteMiss(m, n, t, root, va, lab, vb);
    } else {
      IndexRange(va);
      PathLabels(m, lab, root, va, 3);
      PathStable(m, n, lab, t, Index(va, 3), root, va, 3);
      SamePageSameLeaf(n, root, va, vb);
      assert LeafOf(n, root, va) == e;
      LookupByLeaf(n, lab, root, vb);
    }
  }

  lemma LeafWriteMiss(m: seq<byte>, n: seq<byte>, t: nat, root: nat, va: nat, lab: Labels, vb: nat)
    requires TreeOk(m, lab) && IsRoot(lab, root) && IsUser(va) && IsUser(vb)
    requires SameTables(m, n, lab.Keys, t, Index(va, 3))
    requires TableAt(m, root, va, 3) == Some(t)
    requires vb / PAGE_SIZE != va / PAGE_SIZE
    ensures Lookup(n, root, vb) == Lookup(m, root, vb)
  {
    hide And, Present, FrameOf, TableAt, SameTables, Reach, TreeOk;
    PathLabels(m, lab, root, va, 3);
    SlotsDeterminePage(va, vb);
    var i := Index(va, 3);
    assert PosAt(root, vb, 4) != PosAt(root, va, 4);
    assert IsRoot(lab, root) && lab[root] == PosAt(root, vb, 0) by { TreeRoot(m, lab, root); }
    WalkMisses(m, n, lab, t, i, root, root, vb, 0);
  }

  lemma TreeRoot(m: seq<byte>, lab: Labels, root: nat)
    requires TreeOk(m, lab) && IsRoot(lab, root)
    ensures lab[root] == Pml4(root)
  {
  }
}
