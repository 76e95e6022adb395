/** The machine that the memory manager drives: flat physical memory, the frame
    allocator and CR3, with the page-table operations of the kernel. */
module Paging {
  import opened Bits
  import opened Bytes
  import opened Frames
  import opened PageTree
  import opened Translation
  import opened Mapping
  import opened Hardware

  /** The tables are well-formed trees, their frames are taken from the pool and
      are not free, and the allocator's count is the number of frames in use. */
  ghost predicate MachineOk(m: seq<byte>, lab: Labels, kernel: set<(nat, nat)>, pool: set<nat>,
      free: set<nat>, used: nat) {
    && Intact(m, lab, kernel)
    && free <= pool
    && used == |pool - free|
    && lab.Keys <= pool - free
    && pool !! KernelFrames(kernel)
    && (forall f :: f in pool ==> FIRST_FRAME <= f < MAX_FRAMES)
  }

  /** Taking the free frame `g` keeps the machine consistent. */
  lemma MachineTakes(m: seq<byte>, lab: Labels, kernel: set<(nat, nat)>, pool: set<nat>, free: set<nat>, used: nat, g: nat)
    requires MachineOk(m, lab, kernel, pool, free, used) && g in free
    ensures MachineOk(m, lab, kernel, pool, free - {g}, used + 1)
    ensures g in pool && g !in lab && g !in KernelFrames(kernel) && g < MAX_FRAMES && lab.Keys !! free
    ensures Intact(m, lab, kernel)
  {
    hide Intact;
    TakenSize(pool, free, g);
  }

  /** Returning a frame keeps the machine consistent, and changes nothing if it was free. */
  lemma MachineReleases(m: seq<byte>, lab: Labels, kernel: set<(nat, nat)>, pool: set<nat>, free: set<nat>, used: nat, f: nat)
    requires MachineOk(m, lab, kernel, pool, free, used) && f in pool && f !in lab
    ensures f < MAX_FRAMES
    ensures f in free ==> free + {f} == free
    ensures f !in free ==> used > 0 && MachineOk(m, lab, kernel, pool, free + {f}, used - 1)
  {
    hide Intact;
    if f !in free {
      TakenSize(pool, free + {f}, f);
      assert free + {f} - {f} == free;
    } else {
      assert free + {f} == free;
    }
  }

  lemma MachineNewLabel(m: seq<byte>, n: seq<byte>, lab: Labels, kernel: set<(nat, nat)>, pool: set<nat>, free: set<nat>, used: nat, g: nat, p: Pos)
    requires MachineOk(m, lab, kernel, pool, free, used) && g in pool - free
    requires Intact(n, lab[g := p], kernel)
    ensures MachineOk(n, lab[g := p], kernel, pool, free, used)
  {
    hide Intact;
  }

  /** What page-table work leaves alone: the allocator shrinks by exactly the table
      frames taken, labels are only added, no byte outside the tables changes, and
      the kernel half of every address space translates as before. */
  ghost predicate TablesGrew(m: seq<byte>, lab: Labels, free: set<nat>, n: seq<byte>, lab': Labels, free': set<nat>) {
    && |n| == |m|
    && free' <= free && lab.Keys <= lab'.Keys && lab'.Keys - lab.Keys == free - free'
    && (forall f {:trigger lab'[f]} :: f in lab' ==> if f in lab then lab'[f] == lab[f] else !lab'[f].Pml4?)
    && (forall a: nat {:trigger n[a]} :: a < |m| && a / PAGE_SIZE !in lab' ==> n[a] == m[a])
    && SameKernelView(m, n, lab)
  }

  /** Every table that has come in serves the space of `root`. */
  ghost predicate ServesOnly(lab: Labels, lab': Labels, root: nat) {
    forall f {:trigger lab'[f]} :: f in lab' && f !in lab ==> lab'[f].root == root
  }

  lemma ServesOnlyTwice(lab: Labels, n: seq<byte>, lab': Labels, free': set<nat>, o: seq<byte>, lab'': Labels, free'': set<nat>,
      root: nat)
    requires ServesOnly(lab, lab', root) && ServesOnly(lab', lab'', root) && TablesGrew(n, lab', free', o, lab'', free'')
    ensures ServesOnly(lab, lab'', root)
  {
    hide SameKernelView;
    forall f | f in lab'' && f !in lab
      ensures lab''[f].root == root
    {
      if f in lab' {
        assert lab''[f] == lab'[f];
      }
    }
  }

  lemma KernelViewTwice(m: seq<byte>, lab: Labels, n: seq<byte>, lab': Labels, o: seq<byte>)
    requires SameKernelView(m, n, lab) && SameKernelView(n, o, lab')
    requires forall f :: IsRoot(lab, f) ==> IsRoot(lab', f)
    ensures SameKernelView(m, o, lab)
  {
    hide Lookup;
    forall r, va | IsRoot(lab, r) && IsKernel(va)
      ensures Lookup(o, r, va) == Lookup(m, r, va)
    {
      assert Lookup(n, r, va) == Lookup(m, r, va);
    }
  }

  lemma ChainSets<T>(a: set<T>, b: set<T>, c: set<T>, x: set<T>, y: set<T>, z: set<T>)
    requires a <= b <= c && z <= y <= x && a !! x && b !! y && b - a == x - y && c - b == y - z
    ensures c - a == x - z
  {
    assert c - a == (c - b) + (b - a);
    assert x - z == (x - y) + (y - z);
  }

  lemma TablesGrewTwice(m: seq<byte>, lab: Labels, free: set<nat>, n: seq<byte>, lab': Labels, free': set<nat>,
      o: seq<byte>, lab'': Labels, free'': set<nat>)
    requires TablesGrew(m, lab, free, n, lab', free') && TablesGrew(n, lab', free', o, lab'', free'')
    requires lab.Keys !! free && lab'.Keys !! free'
    ensures TablesGrew(m, lab, free, o, lab'', free'')
  {
    hide SameKernelView;
    forall f | IsRoot(lab, f)
      ensures IsRoot(lab', f)
    {
      assert f in lab'.Keys && lab'[f] == lab[f];
    }
    KernelViewTwice(m, lab, n, lab', o);
    ChainSets(lab.Keys, lab'.Keys, lab''.Keys, free, free', free'');
    forall f | f in lab''
      ensures if f in lab then lab''[f] == lab[f] else !lab''[f].Pml4?
    {
      if f in lab' {
        assert lab''[f] == lab'[f];
      }
    }
    forall a: nat | a < |m| && a / PAGE_SIZE !in lab''
      ensures o[a] == m[a]
    {
      assert o[a] == n[a] && a / PAGE_SIZE !in lab'.Keys;
    }
  }

  lemma PathTable(m: seq<byte>, lab: Labels, kernel: set<(nat, nat)>, root: nat, va: nat, level: nat, t: nat)
    requires Intact(m, lab, kernel) && IsRoot(lab, root) && IsUser(va) && level < 4
    requires TableAt(m, root, va, level) == Some(t)
    ensures t in lab && InMemory(m, t) && lab[t] == PosAt(root, va, level) && Index(va, level) < 512
    ensures level < 3 ==> forall i :: lab[t].Child(i).root == root
  {
    IndexRange(va);
    PathLabels(m, lab, root, va, level);
  }

  lemma TableAtNext(m: seq<byte>, root: nat, va: nat, level: nat, t: nat)
    requires level < 3 && TableAt(m, root, va, level) == Some(t) && Present(Word(m, t, Index(va, level)))
    ensures TableAt(m, root, va, level + 1) == Some(FrameOf(Word(m, t, Index(va, level))))
  {
  }

  lemma MachineIntact(m: seq<byte>, lab: Labels, kernel: set<(nat, nat)>, pool: set<nat>, free: set<nat>, used: nat)
    requires MachineOk(m, lab, kernel, pool, free, used)
    ensures Intact(m, lab, kernel) && lab.Keys <= pool - free
  {
  }

  lemma MachineUsed(m: seq<byte>, lab: Labels, kernel: set<(nat, nat)>, pool: set<nat>, free: set<nat>, used: nat)
    requires MachineOk(m, lab, kernel, pool, free, used)
    ensures used == |pool - free| && lab.Keys <= pool - free
  {
    hide Intact;
  }

  lemma GrantsFlags(m: seq<byte>, lab: Labels, kernel: set<(nat, nat)>, root: nat, va: nat, phys: nat, flags: nat)
    requires Intact(m, lab, kernel) && IsRoot(lab, root) && IsUser(va)
    requires PageAligned(phys) && phys < MAX_PHYS && ValidFlags(flags)
    requires va / PAGE_SIZE in Entries(m, root) && Entries(m, root)[va / PAGE_SIZE] == LeafEntry(phys, flags)
    ensures HardwareAccess(m, root, va, 0) == Some(EntryAccess(flags))
  {
    hide TreeOk, KernelOk;
    MappedAccess(m, lab, root, va, phys, flags);
  }

  lemma UnchangedGrows(m: seq<byte>, lab: Labels, free: set<nat>)
    ensures TablesGrew(m, lab, free, m, lab, free) && SameSpaces(m, m, lab)
  {
    hide Lookup;
  }

  /** Zeroing the frame of a new table. */
  lemma NewTableZeroed(m: seq<byte>, z: seq<byte>, lab: Labels, kernel: set<(nat, nat)>,
      root: nat, va: nat, level: nat, t: nat, g: nat)
    requires Intact(m, lab, kernel) && IsRoot(lab, root) && IsUser(va) && level < 3
    requires TableAt(m, root, va, level) == Some(t) && !Present(Word(m, t, Index(va, level)))
    requires g !in lab && g !in KernelFrames(kernel)
    requires Stored(m, g * PAGE_SIZE, Zeros(PAGE_SIZE), z)
    ensures Intact(z, lab, kernel) && SameSpaces(m, z, lab) && SameKernelView(m, z, lab)
    ensures TableAt(z, root, va, level) == Some(t) && !Present(Word(z, t, Index(va, level)))
    ensures forall j {:trigger Word(z, g, j)} :: 0 <= j < 512 ==> Word(z, g, j) == 0
    ensures InMemory(z, g)
  {
    hide And, Or, Index, Present, TableAt, Lookup;
    IndexRange(va);
    PathLabels(m, lab, root, va, level);
    FrameZeroed(m, g, z);
    StoredElsewhere(m, g * PAGE_SIZE, Zeros(PAGE_SIZE), z, g);
    DataWrite(m, g * PAGE_SIZE, Zeros(PAGE_SIZE), z, g, lab, kernel);
    assert SameTables(m, z, lab.Keys, g, 0);
    PathStable(m, z, lab, g, 0, root, va, level);
    assert Word(z, t, Index(va, level)) == Word(m, t, Index(va, level));
  }

  /** The new table of one level: zero it, then link it below the path. */
  lemma NewTableLinked(m: seq<byte>, n: seq<byte>, lab: Labels, kernel: set<(nat, nat)>,
      root: nat, va: nat, level: nat, t: nat, g: nat)
    requires Intact(m, lab, kernel) && IsRoot(lab, root) && IsUser(va) && level < 3
    requires TableAt(m, root, va, level) == Some(t) && !Present(Word(m, t, Index(va, level)))
    requires g !in lab && g !in KernelFrames(kernel) && g < MAX_FRAMES && InMemory(m, g)
    requires forall j {:trigger Word(m, g, j)} :: 0 <= j < 512 ==> Word(m, g, j) == 0
    requires Stored(m, t * PAGE_SIZE + Index(va, level) * 8, ToLe(TableEntry(g * PAGE_SIZE), 8), n)
    ensures t in lab && lab[t].Level() == level && InMemory(m, t) && Index(va, level) < 512
    ensures Intact(n, lab[g := lab[t].Child(Index(va, level))], kernel)
    ensures SameSpaces(m, n, lab) && SameKernelView(m, n, lab)
    ensures TableAt(n, root, va, level + 1) == Some(g)
  {
    hide And, Or, Index, Present, Lookup, TableEntry;
    IndexRange(va);
    PathLabels(m, lab, root, va, level);
    var i := Index(va, level);
    LinkWrite(m, n, t, i, g, lab, kernel);
    PathStable(m, n, lab, t, i, root, va, level);
  }

  /** Together: the tree has one more table, and nothing else is different. */
  lemma NewTable(m: seq<byte>, z: seq<byte>, n: seq<byte>, lab: Labels, kernel: set<(nat, nat)>,
      root: nat, va: nat, level: nat, t: nat, g: nat, free: set<nat>)
    requires Intact(m, lab, kernel) && IsRoot(lab, root) && IsUser(va) && level < 3
    requires TableAt(m, root, va, level) == Some(t) && !Present(Word(m, t, Index(va, level)))
    requires g !in lab && g !in KernelFrames(kernel) && g < MAX_FRAMES && g in free && lab.Keys !! free
    requires Stored(m, g * PAGE_SIZE, Zeros(PAGE_SIZE), z)
    requires Stored(z, t * PAGE_SIZE + Index(va, level) * 8, ToLe(TableEntry(g * PAGE_SIZE), 8), n)
    ensures t in lab && lab[t].Level() == level
    ensures var lab' := lab[g := lab[t].Child(Index(va, level))];
      && Intact(n, lab', kernel) && SameSpaces(m, n, lab)
      && TablesGrew(m, lab, free, n, lab', free - {g})
    ensures TableAt(n, root, va, level + 1) == Some(g)
  {
    hide And, Or, Index, Present, Lookup, TableEntry, TableAt, Intact, SameKernelView, SameSpaces, Stored, TablesGrew, Word;
    NewTableZeroed(m, z, lab, kernel, root, va, level, t, g);
    NewTableLinked(z, n, lab, kernel, root, va, level, t, g);
    KernelViewTwice(m, lab, z, lab, n);
    SameSpacesTwice(m, z, n, lab);
    NewTableGrew(m, z, n, lab, t, Index(va, level), TableEntry(g * PAGE_SIZE), g, free);
  }

  lemma SameSpacesTwice(m: seq<byte>, z: seq<byte>, n: seq<byte>, lab: Labels)
    requires SameSpaces(m, z, lab) && SameSpaces(z, n, lab)
    ensures SameSpaces(m, n, lab)
  {
    hide Space, Entries;
  }

  lemma NewTableGrew(m: seq<byte>, z: seq<byte>, n: seq<byte>, lab: Labels, t: nat, i: nat, e: nat, g: nat, free: set<nat>)
    requires t in lab && lab[t].Level() < 3 && i < 512 && g !in lab && g in free && lab.Keys !! free
    requires Stored(m, g * PAGE_SIZE, Zeros(PAGE_SIZE), z) && Stored(z, t * PAGE_SIZE + i * 8, ToLe(e, 8), n)
    requires SameKernelView(m, n, lab)
    ensures TablesGrew(m, lab, free, n, lab[g := lab[t].Child(i)], free - {g})
  {
    hide SameKernelView, ToLe;
    var lab' := lab[g := lab[t].Child(i)];
    forall a: nat | a < |m| && a / PAGE_SIZE !in lab'
      ensures n[a] == m[a]
    {
      assert a < t * PAGE_SIZE || a >= (t + 1) * PAGE_SIZE;
      assert z[a] == m[a];
    }
  }

  lemma RootPath(m: seq<byte>, root: nat, va: nat)
    ensures TableAt(m, root, va, 0) == Some(root)
  {
  }

  lemma GrownRoots(m: seq<byte>, lab: Labels, free: set<nat>, n: seq<byte>, lab': Labels, free': set<nat>)
    requires TablesGrew(m, lab, free, n, lab', free')
    ensures forall r :: IsRoot(lab', r) <==> IsRoot(lab, r)
  {
    hide SameKernelView;
    forall r
      ensures IsRoot(lab', r) <==> IsRoot(lab, r)
    {
      assert r in lab ==> r in lab'.Keys;
      assert r in lab' ==> if r in lab then lab'[r] == lab[r] else !lab'[r].Pml4?;
    }
  }

  lemma MachineRewritten(m: seq<byte>, n: seq<byte>, lab: Labels, kernel: set<(nat, nat)>, pool: set<nat>,
      free: set<nat>, used: nat)
    requires MachineOk(m, lab, kernel, pool, free, used) && Intact(n, lab, kernel)
    ensures MachineOk(n, lab, kernel, pool, free, used)
  {
    hide Intact;
  }

  lemma GrewThenLeaf(m: seq<byte>, lab: Labels, free: set<nat>, n: seq<byte>, lab': Labels, free': set<nat>,
      t: nat, i: nat, s: seq<byte>, o: seq<byte>)
    requires TablesGrew(m, lab, free, n, lab', free') && SameKernelView(n, o, lab')
    requires t in lab' && i < 512 && |s| == 8 && Stored(n, t * PAGE_SIZE + i * 8, s, o)
    ensures TablesGrew(m, lab, free, o, lab', free')
  {
    hide SameKernelView;
    GrownRoots(m, lab, free, n, lab', free');
    KernelViewTwice(m, lab, n, lab', o);
    forall a: nat | a < |m| && a / PAGE_SIZE !in lab'
      ensures o[a] == m[a]
    {
      assert a < t * PAGE_SIZE || a >= (t + 1) * PAGE_SIZE;
      assert o[a] == n[a];
    }
  }

  lemma NoPathNoPage(m: seq<byte>, lab: Labels, kernel: set<(nat, nat)>, root: nat, va: nat, level: nat, t: nat)
    requires Intact(m, lab, kernel) && IsRoot(lab, root) && IsUser(va) && level < 3
    requires TableAt(m, root, va, level) == Some(t) && !Present(Word(m, t, Index(va, level)))
    ensures va / PAGE_SIZE !in Space(m, root) && va / PAGE_SIZE !in Entries(m, root)
  {
    hide And, Index, Lookup;
    PathLabels(m, lab, root, va, level);
    LookupByPage(m, lab, root, va);
  }

  /** Where a walk may stand: the rest of the walk is the translation, and the table
      belongs to the tree (user half) or to the kernel half. */
  ghost predicate Placed(m: seq<byte>, lab: Labels, kernel: set<(nat, nat)>, root: nat, va: nat, level: nat, t: nat)
    requires level < 4
  {
    && InMemory(m, t)
    && Lookup(m, root, va) == Reach(m, t, va, level)
    && (IsUser(va) || level == 0 ==> t in lab && lab[t] == PosAt(root, va, level))
    && (!IsUser(va) && level > 0 ==> (level, t) in kernel)
  }

  lemma WalkStarts(m: seq<byte>, lab: Labels, kernel: set<(nat, nat)>, root: nat, va: nat)
    requires Intact(m, lab, kernel) && IsRoot(lab, root)
    ensures Placed(m, lab, kernel, root, va, 0, root)
  {
    hide And, Or, Index, Word;
  }

  lemma WalkStep(m: seq<byte>, lab: Labels, kernel: set<(nat, nat)>, root: nat, va: nat, level: nat, t: nat)
    requires Intact(m, lab, kernel) && Low(va) == va && level < 3
    requires Placed(m, lab, kernel, root, va, level, t)
    ensures InMemory(m, t) && Index(va, level) < 512
    ensures var e := Word(m, t, Index(va, level));
      if !Present(e) then Lookup(m, root, va) == None
      else if EndsWalk(e, level) then Lookup(m, root, va) == Some(End(e, level))
      else Placed(m, lab, kernel, root, va, level + 1, FrameOf(e))
  {
    hide And, Or, Index, Lookup, Present, IsHuge, IsOpen, Addr, FrameOf;
    IndexRange(va);
    if IsUser(va) {
      assert Linked(m, lab, t, Index(va, level));
    } else {
      assert KernelLinked(m, kernel, level, t, Index(va, level));
    }
  }

  lemma WalkEnds(m: seq<byte>, lab: Labels, kernel: set<(nat, nat)>, root: nat, va: nat, t: nat)
    requires Low(va) == va && Placed(m, lab, kernel, root, va, 3, t)
    ensures InMemory(m, t) && Index(va, 3) < 512
    ensures var e := Word(m, t, Index(va, 3));
      Lookup(m, root, va) == if Present(e) then Some(End(e, 3)) else None
  {
    hide And, Or, Index, Lookup, Present, IsHuge, FrameOf;
    IndexRange(va);
  }

  lemma LowTranslates(m: seq<byte>, root: nat, va: nat)
    ensures Low(Low(va)) == Low(va) && Lookup(m, root, Low(va)) == Lookup(m, root, va)
    ensures forall l: nat {:trigger Index(va, l)} :: l < 4 ==> Index(Low(va), l) == Index(va, l)
    ensures Low(va) % PAGE_SIZE == va % PAGE_SIZE
    ensures PageBytes(3) == PAGE_SIZE
    ensures forall l: nat {:trigger PageBytes(l)} :: Low(va) % PageBytes(l) == va % PageBytes(l)
  {
    hide And, Index, Reach;
    LowIndex(va);
    WalkOfLow(m, root, va, 0);
  }

  lemma AddrAligned(e: nat)
    ensures PageAligned(Addr(e)) && Addr(e) / PAGE_SIZE == FrameOf(e)
  {
    AddrField(e);
  }

  lemma ActiveRoot(m: seq<byte>, lab: Labels, kernel: set<(nat, nat)>, active: nat)
    requires Intact(m, lab, kernel) && (IsRoot(lab, active) || (0, active) in kernel)
    ensures InMemory(m, active) && (active in lab || active in KernelFrames(kernel))
  {
    if (0, active) in kernel {
      assert (0, active).1 in KernelFrames(kernel);
    }
  }

  /** Progress of copying the kernel half of `active` into the zeroed frame `root`. */
  ghost predicate CopiedSlots(m: seq<byte>, n: seq<byte>, active: nat, root: nat, upTo: nat) {
    && |n| == |m|
    && (forall a: nat {:trigger n[a]} :: a < |m| && a / PAGE_SIZE != root ==> n[a] == m[a])
    && (forall f: nat, j {:trigger Word(n, f, j)} :: f != root && 0 <= j < 512 ==> Word(n, f, j) == Word(m, f, j))
    && (forall j {:trigger Word(n, root, j)} :: 0 <= j < 512 ==>
        Word(n, root, j) == if KERNEL_SLOT <= j < upTo then Word(m, active, j) else 0)
  }

  lemma CopyStarts(m: seq<byte>, z: seq<byte>, active: nat, root: nat)
    requires Stored(m, root * PAGE_SIZE, Zeros(PAGE_SIZE), z)
    ensures CopiedSlots(m, z, active, root, KERNEL_SLOT)
  {
    FrameZeroed(m, root, z);
    StoredElsewhere(m, root * PAGE_SIZE, Zeros(PAGE_SIZE), z, root);
  }

  lemma CopyStep(m: seq<byte>, n: seq<byte>, o: seq<byte>, active: nat, root: nat, i: nat)
    requires CopiedSlots(m, n, active, root, i) && KERNEL_SLOT <= i < 512 && active != root
    requires Stored(n, root * PAGE_SIZE + i * 8, ToLe(Word(n, active, i), 8), o)
    ensures CopiedSlots(m, o, active, root, i + 1)
  {
    var w := Word(n, active, i);
    assert w < U64 by {
      var at := active * PAGE_SIZE + i * 8;
      if at + 8 <= |n| {
        LeBound(n[at..at + 8]);
      }
      assert Pow256(4) == 0x1_0000_0000;
      assert Pow256(8) == U64;
    }
    hide Le, Pow256, Word;
    WordStored(n, root, i, w, o);
    forall a: nat | a < |m| && a / PAGE_SIZE != root
      ensures o[a] == m[a]
    {
      assert n[a] == m[a];
      assert a < root * PAGE_SIZE || a >= (root + 1) * PAGE_SIZE;
    }
  }

  /** A frame whose user slots are empty and whose kernel slots equal those of the
      active root is the root of a new address space. */
  lemma NewRoot(m: seq<byte>, n: seq<byte>, lab: Labels, kernel: set<(nat, nat)>, active: nat, root: nat)
    requires Intact(m, lab, kernel) && CopiedSlots(m, n, active, root, 512) && InMemory(m, root)
    requires root !in lab && root !in KernelFrames(kernel) && active != root
    requires IsRoot(lab, active) || (0, active) in kernel
    ensures Intact(n, lab[root := Pml4(root)], kernel) && Space(n, root) == map[] && Entries(n, root) == map[]
    ensures SameSpaces(m, n, lab) && SameKernelView(m, n, lab)
    ensures forall va {:trigger Lookup(n, root, va)} :: IsKernel(va) ==>
      Lookup(n, root, va) == Lookup(m, active, va)
  {
    hide And;
    var lab' := lab[root := Pml4(root)];
    AddrField(0);
    assert SameTables(m, n, lab.Keys, root, 0);
    KernelOkKept(m, n, lab, kernel);
    KernelViewKept(m, n, lab, kernel);
    forall r | IsRoot(lab, r)
      ensures Space(n, r) == Space(m, r) && Entries(n, r) == Entries(m, r)
    {
      forall va | IsUser(va)
        ensures Lookup(n, r, va) == Lookup(m, r, va)
      {
        WalkMisses(m, n, lab, root, 0, r, r, va, 0);
      }
      SpacesFromWalks(m, n, r);
    }
    NewRootIntact(m, n, lab, kernel, active, root);
    NewRootViews(m, n, lab, kernel, active, root);
  }

  lemma NewRootIntact(m: seq<byte>, n: seq<byte>, lab: Labels, kernel: set<(nat, nat)>, active: nat, root: nat)
    requires Intact(m, lab, kernel) && CopiedSlots(m, n, active, root, 512) && InMemory(m, root)
    requires root !in lab && root !in KernelFrames(kernel) && KernelOk(n, lab, kernel)
    requires IsRoot(lab, active) || (0, active) in kernel
    ensures Intact(n, lab[root := Pml4(root)], kernel)
  {
    hide And;
    var lab' := lab[root := Pml4(root)];
    AddrField(0);
    forall f, i | f in lab' && UserSlot(lab'[f], i) && lab'[f].Level() < 3
      ensures Linked(n, lab', f, i)
    {
      if f == root {
        assert Word(n, root, i) == 0;
      } else {
        assert Word(n, f, i) == Word(m, f, i);
        assert Linked(m, lab, f, i);
      }
    }
    forall k | k in kernel
      ensures k.1 !in lab'
    {
      assert k.1 in KernelFrames(kernel);
    }
    forall f, i | f in lab' && lab'[f].Pml4? && KERNEL_SLOT <= i < 512
      ensures KernelLinked(n, kernel, 0, f, i)
    {
      if f == root {
        assert Word(n, root, i) == Word(m, active, i);
        assert KernelLinked(m, kernel, 0, active, i);
      } else {
        assert KernelLinked(n, kernel, 0, f, i);
      }
    }
  }

  lemma NewRootViews(m: seq<byte>, n: seq<byte>, lab: Labels, kernel: set<(nat, nat)>, active: nat, root: nat)
    requires Intact(m, lab, kernel) && CopiedSlots(m, n, active, root, 512)
    requires root !in lab && root !in KernelFrames(kernel)
    requires IsRoot(lab, active) || (0, active) in kernel
    ensures Space(n, root) == map[] && Entries(n, root) == map[]
    ensures forall va {:trigger Lookup(n, root, va)} :: IsKernel(va) ==>
      Lookup(n, root, va) == Lookup(m, active, va)
  {
    hide And;
    AddrField(0);
    forall p | 0 <= p < USER_PAGES
      ensures PageEnd(n, root, p) == None
    {
      IndexRange(p * PAGE_SIZE);
      assert Word(n, root, Index(p * PAGE_SIZE, 0)) == 0;
    }
    forall va | IsKernel(va)
      ensures Lookup(n, root, va) == Lookup(m, active, va)
    {
      IndexRange(va);
      var j := Index(va, 0);
      assert Word(n, root, j) == Word(m, active, j);
      assert KernelLinked(m, kernel, 0, active, j);
      if Present(Word(m, active, j)) {
        KernelWalkSame(m, n, lab, kernel, FrameOf(Word(m, active, j)), va, 1);
      }
    }
  }

  class Machine {
    const memory: array<byte>
    const frames: FrameAllocator
    var cr3: nat
    // Ownership of the user-half tables; never read by the code.
    ghost var lab: Labels
    // The kernel-half tables, and the frames the boot loader reported usable.
    ghost const kernel: set<(nat, nat)>
    ghost const pool: set<nat>

    ghost predicate Valid()
      reads this, memory, frames, frames.bitmap
    {
      && frames.Valid()
      && memory.Length >= MAX_FRAMES * PAGE_SIZE
      && MachineOk(memory[..], lab, kernel, pool, frames.Free(), frames.used)
      && PageAligned(cr3)
      && (IsRoot(lab, cr3 / PAGE_SIZE) || (0, cr3 / PAGE_SIZE) in kernel)
    }

    ghost function User(root: nat): map<nat, nat>
      reads memory
    {
      Space(memory[..], root)
    }

    ghost function UserEntries(root: nat): map<nat, nat>
      reads memory
    {
      Entries(memory[..], root)
    }

    constructor (bytes: array<byte>, alloc: FrameAllocator, bootCr3: nat,
        ghost kernelTables: set<(nat, nat)>, ghost usable: set<nat>)
      requires alloc.Valid() && bytes.Length >= MAX_FRAMES * PAGE_SIZE
      requires KernelOk(bytes[..], map[], kernelTables)
      requires alloc.Free() == usable && alloc.used == 0 && usable !! KernelFrames(kernelTables)
      requires forall f :: f in usable ==> FIRST_FRAME <= f < MAX_FRAMES
      requires PageAligned(bootCr3) && (0, bootCr3 / PAGE_SIZE) in kernelTables
      ensures Valid() && memory == bytes && frames == alloc && cr3 == bootCr3
      ensures kernel == kernelTables && pool == usable && lab == map[]
    {
      memory, frames, cr3 := bytes, alloc, bootCr3;
      lab, kernel, pool := map[], kernelTables, usable;
      new;
      assert usable - usable == {};
    }

    // ---------- Raw memory ----------

    method Store(at: nat, s: seq<byte>)
      requires at + |s| <= memory.Length
      modifies memory
      ensures Stored(old(memory[..]), at, s, memory[..])
    {
      forall k | 0 <= k < |s| {
        memory[at + k] := s[k];
      }
    }

    method ReadWord(phys: nat, index: nat) returns (w: nat)
      requires PageAligned(phys) && phys + PAGE_SIZE <= memory.Length && index < 512
      ensures w == Word(memory[..], phys / PAGE_SIZE, index)
    {
      var at := phys + index * 8;
      w := Le(memory[at..at + 8]);
      assert memory[..][at..at + 8] == memory[at..at + 8];
    }

    /** Writes into a frame that is no page table. */
    method WriteData(at: nat, s: seq<byte>, ghost g: nat)
      requires Valid() && g in pool && g !in lab
      requires g * PAGE_SIZE <= at && at + |s| <= (g + 1) * PAGE_SIZE
      modifies memory
      ensures Valid() && Stored(old(memory[..]), at, s, memory[..])
      ensures SameSpaces(old(memory[..]), memory[..], lab) && SameKernelView(old(memory[..]), memory[..], lab)
    {
      Store(at, s);
      DataWrite(old(memory[..]), at, s, memory[..], g, lab, kernel);
    }

    /** A frame of the pool for the caller, or None when the pool is empty. */
    method AllocFrame() returns (r: Option<nat>)
      requires Valid()
      modifies frames`used, frames.bitmap
      ensures Valid()
      ensures r.None? <==> old(frames.Free()) == {}
      ensures r.None? ==> frames.Free() == old(frames.Free())
      ensures r.Some? ==>
        && PageAligned(r.value)
        && LeastFree(old(frames.Free()), r.value / PAGE_SIZE)
        && frames.Free() == old(frames.Free()) - {r.value / PAGE_SIZE}
    {
      r := frames.Alloc();
      if r.Some? {
        MachineTakes(memory[..], lab, kernel, pool, old(frames.Free()), old(frames.used), r.value / PAGE_SIZE);
      }
    }

    /** Returns a frame of the pool; a second return of the same frame is a no-op. */
    method FreeFrame(phys: nat)
      requires Valid() && phys / PAGE_SIZE in pool && phys / PAGE_SIZE !in lab
      modifies frames`used, frames.bitmap
      ensures Valid() && frames.Free() == old(frames.Free()) + {phys / PAGE_SIZE}
    {
      hide MachineOk, Intact;
      MachineReleases(memory[..], lab, kernel, pool, frames.Free(), frames.used, phys / PAGE_SIZE);
      frames.Dealloc(phys);
    }

    // ---------- Page tables ----------

    /** Takes a frame for a new table, zeroes it and links it below entry
        `Index(va, level)` of `table`. False models the out-of-frames panic. */
    method LinkNewTable(ghost root: nat, va: nat, level: nat, table: nat) returns (ok: bool, next: nat)
      requires Valid() && IsRoot(lab, root) && IsUser(va) && level < 3
      requires PageAligned(table) && TableAt(memory[..], root, va, level) == Some(table / PAGE_SIZE)
      requires !Present(Word(memory[..], table / PAGE_SIZE, Index(va, level)))
      modifies memory, frames`used, frames.bitmap, this`lab
      ensures Valid()
      ensures TablesGrew(old(memory[..]), old(lab), old(frames.Free()), memory[..], lab, frames.Free())
      ensures SameSpaces(old(memory[..]), memory[..], old(lab)) && ServesOnly(old(lab), lab, root)
      ensures ok ==> PageAligned(next) && TableAt(memory[..], root, va, level + 1) == Some(next / PAGE_SIZE)
      ensures |lab| <= |old(lab)| + 1
      ensures !ok ==> frames.Free() == {}
    {
      hide And, Or, Index, TableAt, Lookup, Intact, TablesGrew, SameSpaces, Present, FrameOf, Addr, Space, Entries,
        TableEntry, Stored, ToLe, Word, MachineOk;
      ghost var m, t := memory[..], table / PAGE_SIZE;
      MachineIntact(m, lab, kernel, pool, frames.Free(), frames.used);
      PathTable(m, lab, kernel, root, va, level, t);
      UnchangedGrows(m, lab, frames.Free());
      var got := AllocFrame();
      if got.None? {
        return false, 0;
      }
      next := got.value;
      ghost var g, i, free := next / PAGE_SIZE, Index(va, level), old(frames.Free());
      assert next == g * PAGE_SIZE && table == t * PAGE_SIZE;
      MachineTakes(m, lab, kernel, pool, free, old(frames.used), g);
      Store(next, Zeros(PAGE_SIZE));
      ghost var z := memory[..];
      TableEntryFields(next);
      Store(table + Index(va, level) * 8, ToLe(TableEntry(next), 8));
      NewTable(m, z, memory[..], lab, kernel, root, va, level, t, g, free);
      MachineNewLabel(m, memory[..], lab, kernel, pool, free - {g}, frames.used, g, lab[t].Child(i));
      lab := lab[g := lab[t].Child(i)];
      ok := true;
    }

    /** One level of the table walk in `map_page_in_table`: follow the entry, or
        hang a new table below it. */
    method Descend(ghost root: nat, va: nat, level: nat, table: nat) returns (ok: bool, next: nat)
      requires Valid() && IsRoot(lab, root) && IsUser(va) && level < 3
      requires PageAligned(table) && TableAt(memory[..], root, va, level) == Some(table / PAGE_SIZE)
      modifies memory, frames`used, frames.bitmap, this`lab
      ensures Valid()
      ensures TablesGrew(old(memory[..]), old(lab), old(frames.Free()), memory[..], lab, frames.Free())
      ensures SameSpaces(old(memory[..]), memory[..], old(lab)) && ServesOnly(old(lab), lab, root)
      ensures ok ==> PageAligned(next) && TableAt(memory[..], root, va, level + 1) == Some(next / PAGE_SIZE)
      ensures |lab| <= |old(lab)| + 1
      ensures !ok ==> frames.Free() == {}
    {
      hide And, Or, Index, TableAt, Lookup, Intact, TablesGrew, SameSpaces, Present, FrameOf, Addr, Space, Entries, Word;
      ghost var m, t := memory[..], table / PAGE_SIZE;
      MachineIntact(m, lab, kernel, pool, frames.Free(), frames.used);
      PathTable(m, lab, kernel, root, va, level, t);
      UnchangedGrows(m, lab, frames.Free());
      var entry := ReadWord(table, Index(va, level));
      if Present(entry) {
        AddrAligned(entry);
        TableAtNext(m, root, va, level, t);
        return true, Addr(entry);
      }
      ok, next := LinkNewTable(root, va, level, table);
    }

    /** Maps one user page in one address space. Every other page of every address
        space keeps its translation; at most three frames become tables. */
    method MapPageInTable(pml4: nat, va: nat, phys: nat, flags: nat) returns (ok: bool)
      requires Valid() && PageAligned(pml4) && IsRoot(lab, pml4 / PAGE_SIZE)
      requires IsUser(va) && PageAligned(phys) && phys < MAX_PHYS && ValidFlags(flags)
      modifies memory, frames`used, frames.bitmap, this`lab
      ensures Valid()
      ensures TablesGrew(old(memory[..]), old(lab), old(frames.Free()), memory[..], lab, frames.Free())
      ensures forall r :: IsRoot(old(lab), r) ==>
        User(r) == if ok && r == pml4 / PAGE_SIZE then old(User(r))[va / PAGE_SIZE := phys / PAGE_SIZE] else old(User(r))
      ensures forall r :: IsRoot(old(lab), r) ==>
        UserEntries(r) == if ok && r == pml4 / PAGE_SIZE then old(UserEntries(r))[va / PAGE_SIZE := LeafEntry(phys, flags)]
          else old(UserEntries(r))
      ensures ok ==> HardwareAccess(memory[..], pml4 / PAGE_SIZE, va, 0) == Some(EntryAccess(flags))
      ensures |lab| <= |old(lab)| + 3 && ServesOnly(old(lab), lab, pml4 / PAGE_SIZE)
      ensures !ok ==> frames.Free() == {}
    {
      hide And, Or, Index, TableAt, Lookup, Intact, TablesGrew, Present, FrameOf, Addr, Space, Entries, Word, Stored,
        ToLe, MachineOk, HardwareAccess, EntryAccess, LeafEntry;
      ghost var m0, lab0, free0, root := memory[..], lab, frames.Free(), pml4 / PAGE_SIZE;
      UnchangedGrows(m0, lab0, free0);
      MachineIntact(m0, lab0, kernel, pool, free0, frames.used);
      var table: nat := pml4;
      RootPath(m0, root, va);
      for level := 0 to 3
        invariant Valid() && PageAligned(table)
        invariant TableAt(memory[..], root, va, level) == Some(table / PAGE_SIZE)
        invariant TablesGrew(m0, lab0, free0, memory[..], lab, frames.Free())
        invariant SameSpaces(m0, memory[..], lab0)
        invariant |lab| <= |lab0| + level && ServesOnly(lab0, lab, root)
      {
        ghost var m, lab1, free := memory[..], lab, frames.Free();
        MachineIntact(m, lab, kernel, pool, frames.Free(), frames.used);
        GrownRoots(m0, lab0, free0, m, lab1, free);
        var more;
        more, table := Descend(root, va, level, table);
        MachineIntact(memory[..], lab, kernel, pool, frames.Free(), frames.used);
        TablesGrewTwice(m0, lab0, free0, m, lab1, free, memory[..], lab, frames.Free());
        ServesOnlyTwice(lab0, m, lab1, free, memory[..], lab, frames.Free(), root);
        if !more {
          return false;
        }
      }
      GrownRoots(m0, lab0, free0, memory[..], lab, frames.Free());
      LeafEntryFields(phys, flags);
      WriteLeaf(root, va, table, LeafEntry(phys, flags), m0, lab0, free0);
      MachineIntact(memory[..], lab, kernel, pool, frames.Free(), frames.used);
      GrantsFlags(memory[..], lab, kernel, root, va, phys, flags);
      ok := true;
    }

    /** Overwrites the page-table entry of `va`, at the end of its path. */
    method WriteLeaf(ghost root: nat, va: nat, table: nat, entry: nat, ghost m0: seq<byte>, ghost lab0: Labels, ghost free0: set<nat>)
      requires Valid() && IsRoot(lab, root) && IsUser(va) && entry < U64
      requires PageAligned(table) && TableAt(memory[..], root, va, 3) == Some(table / PAGE_SIZE)
      requires TablesGrew(m0, lab0, free0, memory[..], lab, frames.Free())
      modifies memory
      ensures Valid()
      ensures TablesGrew(m0, lab0, free0, memory[..], lab, frames.Free())
      ensures forall r :: IsRoot(lab, r) ==>
        User(r) ==
          if r != root then old(User(r))
          else if Present(entry) then old(User(r))[va / PAGE_SIZE := FrameOf(entry)]
          else old(User(r)) - {va / PAGE_SIZE}
      ensures forall r :: IsRoot(lab, r) ==>
        UserEntries(r) ==
          if r != root then old(UserEntries(r))
          else if Present(entry) then old(UserEntries(r))[va / PAGE_SIZE := entry]
          else old(UserEntries(r)) - {va / PAGE_SIZE}
    {
      hide And, Or, Index, TableAt, Lookup, Intact, TablesGrew, Present, FrameOf, Addr, Space, Entries, Word, Stored,
        ToLe, MachineOk;
      ghost var m, t := memory[..], table / PAGE_SIZE;
      MachineIntact(m, lab, kernel, pool, frames.Free(), frames.used);
      PathTable(m, lab, kernel, root, va, 3, t);
      assert table == t * PAGE_SIZE;
      Store(table + Index(va, 3) * 8, ToLe(entry, 8));
      LeafWrite(m, memory[..], t, root, va, entry, lab, kernel);
      MachineRewritten(m, memory[..], lab, kernel, pool, frames.Free(), frames.used);
      GrewThenLeaf(m0, lab0, free0, m, lab, frames.Free(), t, Index(va, 3), ToLe(entry, 8), memory[..]);
    }

    /** The translation of any 64-bit address. It is the one that the hardware makes if
        and only if `ReadsAlike`: huge entries with base bits below their size are read
        differently. */
    method GetMappedFrame(pml4: nat, va: nat) returns (r: Option<nat>)
      requires Valid() && PageAligned(pml4) && IsRoot(lab, pml4 / PAGE_SIZE) && va < U64
      ensures r == Translate(memory[..], pml4 / PAGE_SIZE, va)
      ensures r == HardwareTranslate(memory[..], pml4 / PAGE_SIZE, va) <==> ReadsAlike(memory[..], pml4 / PAGE_SIZE, va)
    {
      hide And, Or, Index, Low, Word, Reach, Placed, Present, IsHuge, Addr, FrameOf, MachineOk, Intact, Lookup, PageBytes,
        ReadsAlike, HardwareTranslate;
      ghost var m, root, low := memory[..], pml4 / PAGE_SIZE, Low(va);
      LowTranslates(m, root, va);
      LookupIsHardwareIff(m, root, va);
      MachineIntact(m, lab, kernel, pool, frames.Free(), frames.used);
      WalkStarts(m, lab, kernel, root, low);
      var table: nat := pml4;
      for level := 0 to 3
        modifies {}
        invariant memory[..] == m && PageAligned(table)
        invariant Placed(m, lab, kernel, root, low, level, table / PAGE_SIZE)
      {
        WalkStep(m, lab, kernel, root, low, level, table / PAGE_SIZE);
        var entry := ReadWord(table, Index(va, level));
        if !Present(entry) {
          return None;
        }
        if (level == 1 || level == 2) && IsHuge(entry) {
          return Some(Addr(entry) + va % PageBytes(level));
        }
        AddrAligned(entry);
        table := Addr(entry);
      }
      WalkEnds(m, lab, kernel, root, low, table / PAGE_SIZE);
      var entry := ReadWord(table, Index(va, 3));
      if !Present(entry) {
        return None;
      }
      return Some(Addr(entry) + va % PAGE_SIZE);
    }

    /** Unmaps one user page of the active address space. */
    method UnmapPage(va: nat)
      requires Valid() && IsRoot(lab, cr3 / PAGE_SIZE) && IsUser(va)
      modifies memory
      ensures Valid()
      ensures TablesGrew(old(memory[..]), lab, frames.Free(), memory[..], lab, frames.Free())
      ensures forall r :: IsRoot(lab, r) ==>
        User(r) == if r == cr3 / PAGE_SIZE then old(User(r)) - {va / PAGE_SIZE} else old(User(r))
      ensures forall r :: IsRoot(lab, r) ==>
        UserEntries(r) == if r == cr3 / PAGE_SIZE then old(UserEntries(r)) - {va / PAGE_SIZE} else old(UserEntries(r))
    {
      hide And, Or, Index, TableAt, Lookup, Intact, TablesGrew, Present, FrameOf, Addr, Space, Entries, Word, Stored,
        ToLe, MachineOk;
      ghost var m, root := memory[..], cr3 / PAGE_SIZE;
      UnchangedGrows(m, lab, frames.Free());
      MachineIntact(m, lab, kernel, pool, frames.Free(), frames.used);
      RootPath(m, root, va);
      var table: nat := cr3;
      for level := 0 to 3
        modifies {}
        invariant memory[..] == m && PageAligned(table) && TableAt(m, root, va, level) == Some(table / PAGE_SIZE)
      {
        PathTable(m, lab, kernel, root, va, level, table / PAGE_SIZE);
        var entry := ReadWord(table, Index(va, level));
        if !Present(entry) {
          NoPathNoPage(m, lab, kernel, root, va, level, table / PAGE_SIZE);
          return;
        }
        AddrAligned(entry);
        TableAtNext(m, root, va, level, table / PAGE_SIZE);
        table := Addr(entry);
      }
      AddrField(0);
      WriteLeaf(root, va, table, 0, m, lab, frames.Free());
    }

    /** The copy loop of `create_user_page_table`. */
    method CopyKernelSlots(pml4: nat, ghost m: seq<byte>)
      requires PageAligned(pml4) && pml4 + PAGE_SIZE <= memory.Length
      requires PageAligned(cr3) && cr3 + PAGE_SIZE <= memory.Length && cr3 / PAGE_SIZE != pml4 / PAGE_SIZE
      requires CopiedSlots(m, memory[..], cr3 / PAGE_SIZE, pml4 / PAGE_SIZE, KERNEL_SLOT)
      modifies memory
      ensures CopiedSlots(m, memory[..], cr3 / PAGE_SIZE, pml4 / PAGE_SIZE, 512)
    {
      hide And, Or, Word, Stored, ToLe, CopiedSlots;
      ghost var root, active := pml4 / PAGE_SIZE, cr3 / PAGE_SIZE;
      for i := KERNEL_SLOT to 512
        invariant CopiedSlots(m, memory[..], active, root, i)
      {
        ghost var before := memory[..];
        var entry := ReadWord(cr3, i);
        Store(pml4 + i * 8, ToLe(entry, 8));
        CopyStep(m, before, memory[..], active, root, i);
      }
    }

    /** A new address space: the kernel half of the active one, and an empty user half. */
    method CreateUserPageTable() returns (ok: bool, pml4: nat)
      requires Valid()
      modifies memory, frames`used, frames.bitmap, this`lab
      ensures Valid()
      ensures !ok <==> old(frames.Free()) == {}
      ensures !ok ==> frames.Free() == old(frames.Free()) && lab == old(lab) && memory[..] == old(memory[..])
      ensures ok ==>
        && var root := pml4 / PAGE_SIZE;
          && PageAligned(pml4) && LeastFree(old(frames.Free()), root)
          && frames.Free() == old(frames.Free()) - {root}
          && lab == old(lab)[root := Pml4(root)]
          && User(root) == map[] && UserEntries(root) == map[]
          && (forall va {:trigger Lookup(memory[..], root, va)} :: IsKernel(va) ==>
              Lookup(memory[..], root, va) == old(Lookup(memory[..], cr3 / PAGE_SIZE, va)))
          && SameSpaces(old(memory[..]), memory[..], old(lab))
          && SameKernelView(old(memory[..]), memory[..], old(lab))
          && (forall a: nat {:trigger memory[a]} :: a < memory.Length && a / PAGE_SIZE != root ==> memory[a] == old(memory[a]))
    {
      hide And, Or, Lookup, Intact, Present, FrameOf, Addr, Space, Entries, Word, Stored, ToLe, MachineOk, SameSpaces,
        SameKernelView;
      var got := AllocFrame();
      if got.None? {
        return false, 0;
      }
      pml4 := got.value;
      ghost var m, root, active, free := old(memory[..]), pml4 / PAGE_SIZE, cr3 / PAGE_SIZE, frames.Free();
      MachineTakes(m, lab, kernel, pool, old(frames.Free()), old(frames.used), root);
      assert pml4 == root * PAGE_SIZE && cr3 == active * PAGE_SIZE;
      ActiveRoot(m, lab, kernel, active);
      Store(pml4, Zeros(PAGE_SIZE));
      CopyStarts(m, memory[..], active, root);
      CopyKernelSlots(pml4, m);
      NewRoot(m, memory[..], lab, kernel, active, root);
      MachineNewLabel(m, memory[..], lab, kernel, pool, free, frames.used, root, Pml4(root));
      lab := lab[root := Pml4(root)];
      ok := true;
    }
  }
}
