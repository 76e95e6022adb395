/** The memory of user processes: demand paging, sbrk, mmap, munmap and the
    reclamation of frames at exit, over the process table and the machine. */
module UserMemory {
  import opened Bits
  import opened Bytes
  import opened Frames
  import opened PageTree
  import opened Translation
  import opened Mapping
  import opened Hardware
  import opened Paging
  import opened Vmas
  import opened Processes
  import opened Ownership
  import opened Worlds

  const MMAP_DEFAULT_HINT: nat := 0x2000_0000
  const USER_FLAGS: nat := 6  // WRITABLE | USER

  lemma UserFlags()
    ensures USER_FLAGS == Or(WRITABLE, USER) && ValidFlags(USER_FLAGS)
  {
    AddrField(6);
  }

  /** Growing the tables moves no frame in or out of use by processes. */
  lemma GrownTaken(pool: set<nat>, free: set<nat>, tables: set<nat>, free': set<nat>, tables': set<nat>)
    requires free' <= free && tables <= tables' && tables' - tables == free - free' && tables !! free
    ensures pool - free' - tables' == pool - free - tables
  {
    assert tables' == tables + (free - free');
    assert free == free' + (free - free');
  }

  lemma GrownTrees(m: seq<byte>, lab: Labels, free: set<nat>, n: seq<byte>, lab': Labels, free': set<nat>, root: nat)
    requires TablesGrew(m, lab, free, n, lab', free') && ServesOnly(lab, lab', root)
    ensures Grew(TreesOf(lab), TreesOf(lab'), root)
  {
    hide SameKernelView;
    assert forall f :: f in lab ==> f in lab'.Keys;
  }

  /** Mapping a page with the flags of user pages keeps the tables in spaces and the pages open. */
  lemma GroundedAfterMap(m: seq<byte>, lab: Labels, free: set<nat>, n: seq<byte>, lab': Labels, free': set<nat>, root: nat,
      page: nat, phys: nat, ok: bool)
    requires TablesGrew(m, lab, free, n, lab', free') && ServesOnly(lab, lab', root) && IsRoot(lab, root)
    requires PageAligned(phys) && phys < MAX_PHYS && Grounded(m, lab)
    requires forall r :: IsRoot(lab, r) ==>
      Entries(n, r) == if ok && r == root then Entries(m, root)[page := LeafEntry(phys, USER_FLAGS)] else Entries(m, r)
    ensures Grounded(n, lab')
  {
    hide Space, Entries, TablesGrew, ServesOnly, IsOpen, LeafEntry, Grew, Rooted;
    GrownTrees(m, lab, free, n, lab', free', root);
    GrownRoots(m, lab, free, n, lab', free');
    UserFlags();
    LeafEntryFields(phys, USER_FLAGS);
    assert IsOpen(LeafEntry(phys, USER_FLAGS)) by { OpenLeaf(phys); }
    assert SpacesOf(n, lab').Keys == SpacesOf(m, lab).Keys by {
      assert forall r :: r in SpacesOf(n, lab') <==> IsRoot(lab', r);
      assert forall r :: r in SpacesOf(m, lab) <==> IsRoot(lab, r);
    }
    assert root in SpacesOf(m, lab);
    GrewRooted(TreesOf(lab), SpacesOf(m, lab), TreesOf(lab'), SpacesOf(n, lab'), root);
    forall r, p | IsRoot(lab', r) && p in Entries(n, r)
      ensures IsOpen(Entries(n, r)[p])
    {
      if !(ok && r == root && p == page) {
        assert Entries(n, r)[p] == Entries(m, r)[p];
      }
    }
  }

  lemma RootedTrees(m: seq<byte>, lab: Labels)
    requires Grounded(m, lab)
    ensures Rooted(TreesOf(lab), SpacesOf(m, lab))
  {
  }

  lemma OpenLeaf(phys: nat)
    requires PageAligned(phys) && phys < MAX_PHYS
    ensures IsOpen(LeafEntry(phys, USER_FLAGS))
  {
    hide And, Or, LeafEntry;
    UserFlags();
    LeafEntryFields(phys, USER_FLAGS);
    RightsBits(USER_FLAGS);
  }

  /** A page of an address space grants its process every access: the processor raises no
      user fault on a page that is mapped. */
  lemma MappedPageGrants(m: seq<byte>, lab: Labels, root: nat, va: nat)
    requires TreeOk(m, lab) && Grounded(m, lab) && IsRoot(lab, root) && IsUser(va) && va / PAGE_SIZE in Space(m, root)
    ensures HardwareTranslate(m, root, va) == Some(Space(m, root)[va / PAGE_SIZE] * PAGE_SIZE + va % PAGE_SIZE)
    ensures HardwareAccess(m, root, va, 0) == Some(Access(true, true, true))
  {
    hide And, TreeOk, Entries, Lookup, HardwareAccess, HardwareTranslate, Translate;
    UserLookupIsHardware(m, lab, root, va);
    TranslateByPage(m, lab, root, va);
    AccessByPage(m, lab, root, va);
    assert IsOpen(Entries(m, root)[va / PAGE_SIZE]);
  }

  /** Unmapping pages, or writing data, adds neither tables nor entries. */
  lemma GroundedLess(m: seq<byte>, n: seq<byte>, lab: Labels)
    requires Grounded(m, lab)
    requires forall r, p {:trigger Entries(n, r)[p]} :: IsRoot(lab, r) && p in Entries(n, r) ==>
      p in Entries(m, r) && Entries(n, r)[p] == Entries(m, r)[p]
    ensures Grounded(n, lab)
  {
    hide Space, Entries, IsOpen;
    assert forall r :: r in SpacesOf(n, lab) <==> IsRoot(lab, r);
    assert forall r :: r in SpacesOf(m, lab) <==> IsRoot(lab, r);
  }

  lemma GroundedSame(m: seq<byte>, n: seq<byte>, lab: Labels)
    requires Grounded(m, lab) && SameSpaces(m, n, lab)
    ensures Grounded(n, lab)
  {
    hide Grounded, Entries, Space;
    GroundedLess(m, n, lab);
  }

  lemma SpacesAfterMap(m: seq<byte>, lab: Labels, free: set<nat>, n: seq<byte>, lab': Labels, free': set<nat>, root: nat, page: nat, f: nat)
    requires TablesGrew(m, lab, free, n, lab', free') && IsRoot(lab, root)
    requires forall r :: IsRoot(lab, r) ==>
      Space(n, r) == if r == root then MapIn(Space(m, root), page, f) else Space(m, r)
    ensures root in SpacesOf(m, lab)
    ensures SpacesOf(n, lab') == SpacesOf(m, lab)[root := MapIn(SpacesOf(m, lab)[root], page, f)]
  {
    hide Space, TablesGrew;
    GrownRoots(m, lab, free, n, lab', free');
    assert forall r :: r in SpacesOf(n, lab') <==> IsRoot(lab', r);
    assert forall r :: r in SpacesOf(m, lab) <==> IsRoot(lab, r);
  }

  lemma SpacesUnchanged(m: seq<byte>, lab: Labels, free: set<nat>, n: seq<byte>, lab': Labels, free': set<nat>)
    requires TablesGrew(m, lab, free, n, lab', free') && SameSpaces(m, n, lab)
    ensures SpacesOf(n, lab') == SpacesOf(m, lab)
  {
    hide Space, TablesGrew;
    GrownRoots(m, lab, free, n, lab', free');
    assert forall r :: r in SpacesOf(n, lab') <==> IsRoot(lab', r);
    assert forall r :: r in SpacesOf(m, lab) <==> IsRoot(lab, r);
  }

  lemma SpacesAfterUnmap(m: seq<byte>, n: seq<byte>, lab: Labels, root: nat, pages: set<nat>)
    requires IsRoot(lab, root)
    requires forall r :: IsRoot(lab, r) ==>
      Space(n, r) == if r == root then Space(m, r) - pages else Space(m, r)
    ensures root in SpacesOf(m, lab)
    ensures SpacesOf(n, lab) == SpacesOf(m, lab)[root := SpacesOf(m, lab)[root] - pages]
  {
    hide Space;
    assert forall r :: r in SpacesOf(m, lab) <==> IsRoot(lab, r);
  }

  /** The areas of a process after SYS_SBRK: a positive increment adds the pages past the old break. */
  function HeapAreas(vmas: seq<Vma>, heapBreak: nat, increment: int): seq<Vma> {
    if increment > 0 then vmas + [Vma(PageUp(heapBreak), PageUp(heapBreak + increment), VmaFlags(true, false))] else vmas
  }

  function NewBreak(heapBreak: nat, increment: int): nat {
    if increment > 0 then heapBreak + increment else heapBreak
  }

  /** The areas after SYS_MMAP answered `rax`. */
  function PlacedAreas(vmas: seq<Vma>, size: nat, rax: nat): seq<Vma> {
    if rax == U64 - 1 then vmas else vmas + [Vma(rax, rax + PageUp(size), VmaFlags(true, false))]
  }

  /** The areas grew by one, after the old ones: it may be written and not executed, and covers
      exactly the addresses from `lo` up to `hi`. */
  ghost predicate AreaAdded(before: seq<Vma>, after: seq<Vma>, lo: nat, hi: nat) {
    && |after| == |before| + 1 && after[..|before|] == before
    && after[|before|].flags.write && !after[|before|].flags.exec
    && forall a: nat :: Covered(after, a) <==> Covered(before, a) || lo <= a < hi
  }

  /** The areas and the break after SYS_SBRK. */
  ghost predicate HeapMoved(p: Process, q: Process, increment: int) {
    if increment > 0 then
      q.heapBreak == p.heapBreak + increment && AreaAdded(p.vmas, q.vmas, PageUp(p.heapBreak), PageUp(p.heapBreak + increment))
    else q.heapBreak == p.heapBreak && q.vmas == p.vmas
  }

  /** The areas after SYS_MMAP: unless the answer is the error value, the new area covers the
      size, rounded up to whole pages, from the answer on. */
  ghost predicate AreaPlaced(before: seq<Vma>, after: seq<Vma>, size: nat, rax: nat) {
    if rax == U64 - 1 then after == before else AreaAdded(before, after, rax, rax + PageUp(size))
  }

  /** The areas after SYS_MUNMAP: exactly those with these bounds are gone. */
  ghost predicate AreaDropped(before: seq<Vma>, after: seq<Vma>, addr: nat, end: nat) {
    forall v :: v in after <==> v in before && !(v.start == addr && v.end == end)
  }

  lemma SnocCovers(before: seq<Vma>, v: Vma)
    requires v.flags == VmaFlags(true, false)
    ensures AreaAdded(before, before + [v], v.start, v.end)
  {
    var after := before + [v];
    assert v == after[|before|] && after[..|before|] == before;
    forall a: nat
      ensures Covered(after, a) <==> Covered(before, a) || v.start <= a < v.end
    {
      if w :| w in before && w.Contains(a) {
        assert w in after;
      }
      assert v in after && (v.Contains(a) <==> v.start <= a < v.end);
    }
  }

  lemma AddedCovers(before: seq<Vma>, after: seq<Vma>, lo: nat, hi: nat, end: nat)
    requires AreaAdded(before, after, lo, hi) && end <= hi
    ensures forall a :: lo <= a < end ==> Covered(after, a)
  {
  }

  lemma HeapIsMoved(p: Process, q: Process, increment: int)
    requires q.vmas == HeapAreas(p.vmas, p.heapBreak, increment) && q.heapBreak == NewBreak(p.heapBreak, increment)
    ensures HeapMoved(p, q, increment)
  {
    hide PageUp, AreaAdded;
    if increment > 0 {
      SnocCovers(p.vmas, Vma(PageUp(p.heapBreak), PageUp(p.heapBreak + increment), VmaFlags(true, false)));
    }
  }

  lemma AreaIsPlaced(vmas: seq<Vma>, size: nat, rax: nat)
    ensures AreaPlaced(vmas, PlacedAreas(vmas, size, rax), size, rax)
  {
    hide PageUp, AreaAdded;
    if rax != U64 - 1 {
      SnocCovers(vmas, Vma(rax, rax + PageUp(size), VmaFlags(true, false)));
    }
  }

  /** The answer is the lowest place that fits, or the error value when none does. */
  ghost predicate LowestPlace(vmas: seq<Vma>, hint: nat, size: nat, rax: nat) {
    if rax == U64 - 1 then forall at :: !Fits(vmas, hint, size, at)
    else Fits(vmas, hint, size, rax) && forall at :: Fits(vmas, hint, size, at) ==> rax <= at
  }

  /** What serving a fault at a page of process `c` comes to. */
  ghost predicate ServeTaken(w: World, c: nat, page: nat, free: set<nat>, handled: bool, halted: bool, v: World, free': set<nat>) {
    && c < MAX_PROCESSES && w.table[c].Some?
    && (handled || halted <==> free != {}) && !(handled && halted)
    && (handled ==> exists g :: LeastFree(free, g) && Moves(w, Serve(c, page, g), v))
    && (!handled && !halted ==> v == w && free' == free)
    && (halted ==> Moves(w, Leak(RootOf(w.table[c].value)), v))
  }

  lemma NotServed(w: World, c: nat, page: nat)
    requires c < MAX_PROCESSES && w.table[c].Some?
    ensures ServeTaken(w, c, page, {}, false, false, w, {})
  {
  }

  /** What a fault of the process `pid` at `cr2` comes to. It is served, unless a table
      allocation halts the kernel, if and only if an area covers the address and a frame
      is free; the page then gets the lowest free frame, zeroed. Otherwise nothing changes. */
  ghost predicate FaultTaken(w: World, pid: nat, cr2: nat, free: set<nat>, handled: bool, halted: bool, v: World, free': set<nat>) {
    Find(w.table, pid).Some?
    && var c := Find(w.table, pid).value;
      && (handled || halted <==> Covered(w.table[c].value.vmas, cr2) && free != {}) && !(handled && halted)
      && (handled ==> exists g :: LeastFree(free, g) && Moves(w, Serve(c, cr2 / PAGE_SIZE, g), v))
      && (!handled && !halted ==> v == w && free' == free)
      && (halted ==> Moves(w, Leak(RootOf(w.table[c].value)), v))
  }

  class AddressSpaces {
    const procs: ProcessTable
    const machine: Machine

    ghost function Spaces(): Spaces
      reads machine, machine.memory
    {
      SpacesOf(machine.memory[..], machine.lab)
    }

    ghost function Trees(): Trees
      reads machine
    {
      TreesOf(machine.lab)
    }

    /** The frames in use that are no page tables. */
    ghost function Taken(): set<nat>
      requires machine.frames.Valid()
      reads machine, machine.frames, machine.frames.bitmap
    {
      machine.pool - machine.frames.Free() - machine.lab.Keys
    }

    ghost predicate Valid()
      reads procs, procs.slots, machine, machine.memory, machine.frames, machine.frames.bitmap
    {
      && procs.Valid() && machine.Valid()
      && ProcessesOwn(procs.View(), Spaces(), Taken())
      && Grounded(machine.memory[..], machine.lab)
    }

    ghost function Now(): World
      requires procs.Valid() && machine.frames.Valid()
      reads procs, procs.slots, machine, machine.memory, machine.frames, machine.frames.bitmap
    {
      World(machine.memory[..], procs.View(), Spaces(), Taken(), Trees())
    }

    /** The current process is live and its address space is the active one. */
    ghost predicate CurrentActive()
      requires procs.Valid()
      reads procs, procs.slots, machine
    {
      var c := Find(procs.View(), procs.current);
      c.Some? && IsLive(procs.View()[c.value]) && machine.cr3 == procs.View()[c.value].value.pml4
    }

    constructor (table: ProcessTable, m: Machine)
      requires table.Valid() && table.View() == seq(MAX_PROCESSES, _ => None) && m.Valid() && m.lab == map[]
      ensures Valid() && procs == table && machine == m
    {
      procs, machine := table, m;
    }

    /** Maps a user page; the frames in use by processes stay the same. */
    method MapUserPage(pml4: nat, va: nat, phys: nat) returns (ok: bool)
      requires machine.Valid() && PageAligned(pml4) && IsRoot(machine.lab, pml4 / PAGE_SIZE)
      requires PageAligned(phys) && phys < MAX_PHYS && IsUser(va)
      modifies machine.memory, machine.frames`used, machine.frames.bitmap, machine`lab
      ensures machine.Valid() && Taken() == old(Taken())
      ensures TablesGrew(old(machine.memory[..]), old(machine.lab), old(machine.frames.Free()),
        machine.memory[..], machine.lab, machine.frames.Free())
      ensures pml4 / PAGE_SIZE in old(Spaces()) && Grew(old(Trees()), Trees(), pml4 / PAGE_SIZE)
      ensures Grounded(old(machine.memory[..]), old(machine.lab)) ==> Grounded(machine.memory[..], machine.lab)
      ensures Spaces() == if ok then
        old(Spaces())[pml4 / PAGE_SIZE := MapIn(old(Spaces())[pml4 / PAGE_SIZE], va / PAGE_SIZE, phys / PAGE_SIZE)] else old(Spaces())
      ensures !ok ==> machine.frames.Free() == {}
    {
      hide And, Or, Space, Entries, TablesGrew, MachineOk, ServesOnly, Grounded, Grew;
      ghost var m, lab, free := machine.memory[..], machine.lab, machine.frames.Free();
      MachineIntact(m, lab, machine.kernel, machine.pool, free, machine.frames.used);
      UserFlags();
      ok := machine.MapPageInTable(pml4, va, phys, USER_FLAGS);
      GrownTables(m, lab, free, machine.memory[..], machine.lab, machine.frames.Free());
      GrownTaken(machine.pool, free, lab.Keys, machine.frames.Free(), machine.lab.Keys);
      GrownTrees(m, lab, free, machine.memory[..], machine.lab, machine.frames.Free(), pml4 / PAGE_SIZE);
      if Grounded(m, lab) {
        GroundedAfterMap(m, lab, free, machine.memory[..], machine.lab, machine.frames.Free(), pml4 / PAGE_SIZE,
          va / PAGE_SIZE, phys, ok);
      }
      if ok {
        SpacesAfterMap(m, lab, free, machine.memory[..], machine.lab, machine.frames.Free(), pml4 / PAGE_SIZE, va / PAGE_SIZE, phys / PAGE_SIZE);
      } else {
        SpacesUnchanged(m, lab, free, machine.memory[..], machine.lab, machine.frames.Free());
      }
    }

    /** Maps the frame `phys`, taken from the pool by the caller, at a page of an area
        of process `c`. */
    method MapForProcess(c: nat, va: nat, phys: nat, ghost spaces0: Spaces, ghost taken0: set<nat>) returns (ok: bool)
      requires procs.Valid() && machine.Valid()
      requires c < MAX_PROCESSES && IsLive(procs.View()[c])
      requires ProcessesOwn(procs.View(), spaces0, taken0)
      requires spaces0 == Spaces() && Taken() == taken0 + {phys / PAGE_SIZE} && phys / PAGE_SIZE !in taken0
      requires Grounded(machine.memory[..], machine.lab)
      requires PageAligned(phys) && phys < MAX_PHYS
      requires IsUser(va) && TouchedBy(procs.View()[c].value.vmas, va / PAGE_SIZE)
      modifies machine.memory, machine.frames`used, machine.frames.bitmap, machine`lab
      ensures Valid() && Taken() == taken0 + {phys / PAGE_SIZE}
      ensures TablesGrew(old(machine.memory[..]), old(machine.lab), old(machine.frames.Free()),
        machine.memory[..], machine.lab, machine.frames.Free())
      ensures RootOf(old(procs.View())[c].value) in spaces0 && Grew(old(Trees()), Trees(), RootOf(old(procs.View())[c].value))
      ensures var r := RootOf(old(procs.View())[c].value);
        Spaces() == if ok then spaces0[r := MapIn(spaces0[r], va / PAGE_SIZE, phys / PAGE_SIZE)] else spaces0
      ensures !ok ==> machine.frames.Free() == {}
    {
      hide FindFrom, And, Or, Space, TablesGrew, Isolated, OwnsSpace, MachineOk, Grounded, Grew;
      ghost var t := procs.View();
      OwnedRoot(t, c, machine.memory[..], machine.lab, taken0);
      ok := MapUserPage(procs.slots[c].value.pml4, va, phys);
      if ok {
        OwnAfterMap(t, spaces0, taken0, c, va / PAGE_SIZE, phys / PAGE_SIZE);
      } else {
        OwnMoreTaken(t, spaces0, taken0, Taken());
      }
    }

    /** Demand paging: the user page-fault branch of the interrupt handler. A fault
        inside an area gets a fresh zeroed frame; a fault outside every area, or with
        no frame left, is not handled and changes nothing. */
    method PageFault(cr2: nat) returns (handled: bool, halted: bool)
      requires Valid() && CurrentActive()
      modifies machine.memory, machine.frames`used, machine.frames.bitmap, machine`lab
      ensures Valid()
      ensures FaultTaken(old(Now()), old(procs.current), cr2, old(machine.frames.Free()), handled, halted, Now(), machine.frames.Free())
    {
      hide Moves, Covered, FindFrom, And, Or, Space, TablesGrew, Isolated, OwnsSpace, MachineOk, SameKernelView, SameSpaces, Grounded, AddsRoot;
      var found := procs.GetProcess(procs.current);
      var c := found.value;
      var vmas := procs.slots[c].value.vmas;
      FindVmaCovers(vmas, cr2);
      if FindVma(vmas, cr2).None? {
        return false, false;
      }
      LiveAreas(procs.View(), Spaces(), Taken(), c);
      UserAreaPage(vmas, cr2);
      handled, halted := ServeFault(c, cr2 / PAGE_SIZE);
    }

    /** A fresh zeroed frame for a page in an area of process `c`. */
    method ServeFault(c: nat, page: nat) returns (handled: bool, halted: bool)
      requires Valid() && c < MAX_PROCESSES && IsLive(procs.View()[c])
      requires IsUser(page * PAGE_SIZE) && TouchedBy(procs.View()[c].value.vmas, page)
      modifies machine.memory, machine.frames`used, machine.frames.bitmap, machine`lab
      ensures Valid()
      ensures ServeTaken(old(Now()), c, page, old(machine.frames.Free()), handled, halted, Now(), machine.frames.Free())
    {
      hide ServeTaken, FindFrom, And, Or, Space, TablesGrew, Isolated, OwnsSpace, MachineOk, SameKernelView, SameSpaces,
        ProcessesOwn, Moves, Stored, Intact, Grounded, Grew;
      ghost var w, free := Now(), machine.frames.Free();
      RootedTrees(w.m, machine.lab);
      NotServed(w, c, page);
      var got := ZeroedFrame();
      if got.None? {
        return false, false;
      }
      ghost var z, lab := machine.memory[..], machine.lab;
      var ok := MapForProcess(c, page * PAGE_SIZE, got.value, w.spaces, w.taken);
      FaultMoves(w, z, machine.memory[..], lab, free, machine.lab, machine.frames.Free(), c, page, got.value / PAGE_SIZE, Now(), ok);
      return ok, !ok;
    }

    /** The lowest free frame, taken from the pool and zeroed. */
    method ZeroedFrame() returns (got: Option<nat>)
      requires Valid()
      modifies machine.memory, machine.frames`used, machine.frames.bitmap
      ensures machine.Valid() && Grounded(machine.memory[..], machine.lab) && Spaces() == old(Spaces())
      ensures Taken() !! machine.lab.Keys && old(Taken()) !! old(machine.frames.Free())
      ensures got.None? ==>
        Valid() && old(machine.frames.Free()) == {} && machine.frames.Free() == {} && Now() == old(Now())
      ensures got.Some? ==>
        var g := got.value / PAGE_SIZE;
        && PageAligned(got.value) && got.value < MAX_PHYS && LeastFree(old(machine.frames.Free()), g)
        && g in old(machine.frames.Free()) && g !in machine.lab && g !in old(Taken())
        && machine.frames.Free() == old(machine.frames.Free()) - {g} && Taken() == old(Taken()) + {g}
        && Stored(old(machine.memory[..]), g * PAGE_SIZE, Zeros(PAGE_SIZE), machine.memory[..])
    {
      hide FindFrom, And, Or, Space, TablesGrew, Isolated, OwnsSpace, MachineOk, SameKernelView, SameSpaces,
        ProcessesOwn, Stored, Intact, Grounded;
      ghost var m, free, lab := machine.memory[..], machine.frames.Free(), machine.lab;
      TakenApart(machine.pool, free, lab.Keys);
      got := machine.AllocFrame();
      if got.Some? {
        ghost var g := got.value / PAGE_SIZE;
        TakenFromPool(m, lab, machine.kernel, machine.pool, free, old(machine.frames.used), g);
        machine.WriteData(got.value, Zeros(PAGE_SIZE), g);
        SameSpacesOf(m, machine.memory[..], lab);
        GroundedSame(m, machine.memory[..], lab);
      }
    }

    /** SYS_SBRK. */
    method Sbrk(increment: int) returns (rax: nat)
      requires Valid() && CurrentActive()
      requires increment > 0 ==>
        procs.View()[Find(procs.View(), procs.current).value].value.heapBreak + increment + PAGE_SIZE <= USER_TOP
      modifies procs.slots
      ensures Valid() && CurrentActive()
      ensures var c := old(Find(procs.View(), procs.current)).value;
        var p, q := old(procs.View())[c].value, procs.View()[c];
        && rax == p.heapBreak && q.Some? && Moves(old(Now()), ChangeAreas(c, q.value, {}), Now())
        && procs.View() == Update(old(procs.View()), c,
             p.(vmas := HeapAreas(p.vmas, p.heapBreak, increment), heapBreak := NewBreak(p.heapBreak, increment)))
        && HeapMoved(p, q.value, increment)
        && (increment > 0 ==> forall a :: PageUp(p.heapBreak) <= a < q.value.heapBreak ==> Covered(q.value.vmas, a))
    {
      hide Grounded, FindFrom, And, Or, Space, ProcessesOwn, MachineOk, Moves, AreaAdded;
      var found := procs.GetProcess(procs.current);
      var c := found.value;
      var p := procs.slots[c].value;
      ghost var w := Now();
      RootedTrees(machine.memory[..], machine.lab);
      rax := p.heapBreak;
      if increment > 0 {
        PageRounding(p.heapBreak);
        var newBreak := p.heapBreak + increment;
        PageRounding(newBreak);
        var v := Vma(PageUp(p.heapBreak), PageUp(newBreak), VmaFlags(true, false));
        var q := p.(vmas := p.vmas + [v], heapBreak := newBreak);
        procs.slots[c] := Some(q);
        AreaMoves(w, c, [v], q);
        SameFind(w.table, c, q, procs.current);
        assert Now() == w.(table := Update(w.table, c, q));
        SnocCovers(p.vmas, v);
        AddedCovers(p.vmas, q.vmas, v.start, v.end, newBreak);
      } else {
        AreaMoves(w, c, [], p);
        assert Update(w.table, c, p) == w.table && Now() == w;
      }
    }

    /** SYS_MMAP: the new area is clear of every existing one. */
    method Mmap(hint0: nat, size: nat) returns (rax: nat)
      requires Valid() && CurrentActive()
      requires NoWrap(procs.View()[Find(procs.View(), procs.current).value].value.vmas,
        if hint0 != 0 then hint0 else MMAP_DEFAULT_HINT, size + PAGE_SIZE)
      modifies procs.slots
      ensures Valid() && CurrentActive()
      ensures var c := old(Find(procs.View(), procs.current)).value;
        var p, hint, t := old(procs.View())[c].value, (if hint0 != 0 then hint0 else MMAP_DEFAULT_HINT), procs.View();
        && LowestPlace(p.vmas, hint, size, rax)
        && t == Update(old(procs.View()), c, p.(vmas := PlacedAreas(p.vmas, size, rax)))
        && t[c].Some? && AreaPlaced(p.vmas, t[c].value.vmas, size, rax)
        && Moves(old(Now()), ChangeAreas(c, t[c].value, {}), Now())
        && (rax != U64 - 1 ==> forall v :: v in p.vmas ==> rax >= v.end || rax + PageUp(size) <= v.start)
    {
      hide Grounded, FindFrom, And, Or, Space, ProcessesOwn, MachineOk, PageUp, Moves, Fits, NoWrap,
        AreaPlaced;
      var found := procs.GetProcess(procs.current);
      var c := found.value;
      var p := procs.slots[c].value;
      ghost var w := Now();
      RootedTrees(machine.memory[..], machine.lab);
      var hint := if hint0 != 0 then hint0 else MMAP_DEFAULT_HINT;
      var place := PlaceRegion(p.vmas, hint, size);
      match place {
        case Some(addr) =>
          var v := Vma(addr, addr + PageUp(size), VmaFlags(true, false));
          var q := p.(vmas := p.vmas + [v]);
          procs.slots[c] := Some(q);
          AreaMoves(w, c, [v], q);
          SameFind(w.table, c, q, procs.current);
          assert Now() == w.(table := Update(w.table, c, q));
          rax := addr;
          AreaIsPlaced(p.vmas, size, rax);
        case None =>
          rax := U64 - 1;
          AreaIsPlaced(p.vmas, size, rax);
          AreaMoves(w, c, [], p);
          assert Update(w.table, c, p) == w.table && Now() == w;
      }
    }

    /** SYS_MUNMAP: drops the area with exactly these bounds and unmaps every page in
        the range. No frame goes back to the pool. */
    method Munmap(addr0: nat, size0: nat)
      requires Valid() && CurrentActive() && size0 + PAGE_SIZE < U64
      requires PageDown(addr0) + PageUp(size0) <= USER_TOP && addr0 + PAGE_SIZE < U64
      modifies procs.slots, machine.memory
      ensures Valid() && CurrentActive()
      ensures machine.frames.Free() == old(machine.frames.Free()) && Taken() == old(Taken())
      ensures var addr, end, c := PageDown(addr0), PageDown(addr0) + PageUp(size0), old(Find(procs.View(), procs.current)).value;
        var p := old(procs.View())[c].value;
        var q := p.(vmas := WithoutArea(p.vmas, addr, end));
        && procs.View() == Update(old(procs.View()), c, q) && AreaDropped(p.vmas, q.vmas, addr, end)
        && Moves(old(Now()), ChangeAreas(c, q, PagesFrom(addr, end)), Now())
    {
      hide Grounded, FindFrom, And, Or, Space, ProcessesOwn, MachineOk, PageUp, PageDown, TablesGrew, Moves, SameBytes,
        PagesFrom, WithoutArea;
      RangeAligned(addr0, size0);
      MunmapRange(PageDown(addr0), PageDown(addr0) + PageUp(size0));
      WithoutAreaMembers(old(procs.View())[old(Find(procs.View(), procs.current)).value].value.vmas, PageDown(addr0),
        PageDown(addr0) + PageUp(size0));
    }

    method MunmapRange(addr: nat, end: nat)
      requires Valid() && CurrentActive()
      requires PageAligned(addr) && PageAligned(end) && addr <= end <= USER_TOP && addr + PAGE_SIZE < U64
      modifies procs.slots, machine.memory
      ensures Valid() && CurrentActive()
      ensures machine.frames.Free() == old(machine.frames.Free()) && Taken() == old(Taken())
      ensures var c := old(Find(procs.View(), procs.current)).value;
        var p := old(procs.View())[c].value;
        var q := p.(vmas := WithoutArea(p.vmas, addr, end));
        && procs.View() == Update(old(procs.View()), c, q)
        && Moves(old(Now()), ChangeAreas(c, q, PagesFrom(addr, end)), Now())
    {
      hide Grounded, FindFrom, And, Or, Space, ProcessesOwn, MachineOk, TablesGrew, Moves, SameBytes, PagesFrom, WithoutArea;
      var found := procs.GetProcess(procs.current);
      var c := found.value;
      var p := procs.slots[c].value;
      ghost var w := Now();
      RootedTrees(machine.memory[..], machine.lab);
      OwnedRoot(w.table, c, w.m, machine.lab, w.taken);
      var q := p.(vmas := WithoutArea(p.vmas, addr, end));
      procs.slots[c] := Some(q);
      SameFind(w.table, c, q, procs.current);
      UnmapRange(addr, end, w.taken);
      SpacesAfterUnmap(w.m, machine.memory[..], machine.lab, RootOf(p), PagesFrom(addr, end));
      UnmapMoves(w, c, addr, end, machine.memory[..]);
    }

    /** The page loop of SYS_MUNMAP. */
    method UnmapRange(addr: nat, end: nat, ghost data: set<nat>)
      requires data !! machine.lab.Keys
      requires machine.Valid() && IsRoot(machine.lab, machine.cr3 / PAGE_SIZE)
      requires PageAligned(addr) && PageAligned(end) && addr <= end <= USER_TOP
      modifies machine.memory
      ensures machine.Valid() && SameBytes(old(machine.memory[..]), machine.memory[..], data)
      ensures forall r :: IsRoot(machine.lab, r) ==>
        machine.User(r) == if r == machine.cr3 / PAGE_SIZE then old(machine.User(r)) - PagesFrom(addr, end) else old(machine.User(r))
      ensures Grounded(old(machine.memory[..]), machine.lab) ==> Grounded(machine.memory[..], machine.lab)
    {
      hide Space, Entries, MachineOk, Grounded;
      var page := addr;
      while page < end
        invariant PageAligned(page) && addr <= page <= end && machine.Valid()
        invariant SameBytes(old(machine.memory[..]), machine.memory[..], data)
        invariant forall r :: IsRoot(machine.lab, r) ==>
          machine.User(r) == if r == machine.cr3 / PAGE_SIZE then old(machine.User(r)) - PagesFrom(addr, page) else old(machine.User(r))
        invariant Grounded(old(machine.memory[..]), machine.lab) ==> Grounded(machine.memory[..], machine.lab)
      {
        ghost var before := machine.memory[..];
        machine.UnmapPage(page);
        if Grounded(before, machine.lab) {
          GroundedLess(before, machine.memory[..], machine.lab);
        }
        UnmappedBytes(old(machine.memory[..]), before, machine.memory[..], machine.lab, machine.frames.Free(), data);
        assert PagesFrom(addr, page + 0x1000) == PagesFrom(addr, page) + {page / PAGE_SIZE};
        page := page + 0x1000;
      }
    }

    /** `exit_process`: wakes the waiters, returns the frames of every area to the
        pool, and retires the process. */
    method ExitProcess(pid: nat, code: nat)
      requires Valid() && Find(procs.View(), pid).Some? && IsLive(procs.View()[Find(procs.View(), pid).value])
      modifies procs.slots, machine.frames`used, machine.frames.bitmap
      ensures Valid() && procs.View() == Exited(old(procs.View()), pid, code) && Spaces() == old(Spaces())
      ensures Moves(old(Now()), Retire(old(Find(procs.View(), pid)).value), Now())
      ensures Reclaimed(old(procs.View()), old(Find(procs.View(), pid)).value, Spaces(), old(machine.frames.Free()),
        old(machine.frames.used), procs.View(), machine.frames.Free(), machine.frames.used)
    {
      hide Grounded, And, Or, Space, MachineOk, ProcessesOwn, AnyWaiter, AreaFrames, Reclaimed, Exited, Moves;
      ghost var w, free, c := Now(), machine.frames.Free(), Find(procs.View(), pid).value;
      RootedTrees(machine.memory[..], machine.lab);
      PoolBound(w.m, machine.lab, machine.kernel, machine.pool, free, machine.frames.used);
      ExitStarts(w.table, w.m, machine.lab, machine.pool, free, pid);
      var parentWaiting := procs.WakeWaitersOf(pid);
      var found := procs.GetProcess(pid);
      var slot := found.value;
      var p := procs.slots[slot].value;
      ReclaimAreas(p, w.spaces[RootOf(p)]);
      procs.slots[slot] := Some(p.(vmas := [], exitCode := Some(code), state := if parentWaiting then Dead else Empty));
      ExitEnds(w, machine.pool, free, machine.lab.Keys, pid, code, c, procs.View());
      PoolBound(machine.memory[..], machine.lab, machine.kernel, machine.pool, machine.frames.Free(), machine.frames.used);
    }

    /** The reclamation loop of `exit_process`. */
    method ReclaimAreas(p: Process, ghost space: map<nat, nat>)
      requires machine.Valid() && PageAligned(p.pml4) && IsRoot(machine.lab, RootOf(p))
      requires space == Space(machine.memory[..], RootOf(p)) && forall v :: v in p.vmas ==> AreaOk(v)
      requires forall page :: page in space ==> space[page] in machine.pool && space[page] !in machine.lab
      modifies machine.frames`used, machine.frames.bitmap
      ensures machine.Valid()
      ensures machine.frames.Free() == old(machine.frames.Free()) + AreaFrames(space, p.vmas)
    {
      hide And, Or, Space, MachineOk;
      for k := 0 to |p.vmas|
        invariant machine.Valid()
        invariant machine.frames.Free() == old(machine.frames.Free()) + AreaFrames(space, p.vmas[..k])
      {
        ReclaimArea(p.pml4, p.vmas[k], space);
        AreaFramesSnoc(space, p.vmas[..k], p.vmas[k]);
        assert p.vmas[..k + 1] == p.vmas[..k] + [p.vmas[k]];
      }
      assert p.vmas[..|p.vmas|] == p.vmas;
    }

    /** The page loop of the reclamation of one area. */
    method ReclaimArea(pml4: nat, v: Vma, ghost space: map<nat, nat>)
      requires machine.Valid() && PageAligned(pml4) && IsRoot(machine.lab, pml4 / PAGE_SIZE)
      requires space == Space(machine.memory[..], pml4 / PAGE_SIZE) && AreaOk(v)
      requires forall page :: page in space ==> space[page] in machine.pool && space[page] !in machine.lab
      modifies machine.frames`used, machine.frames.bitmap
      ensures machine.Valid()
      ensures machine.frames.Free() == old(machine.frames.Free()) + AreaFrames(space, [v])
    {
      hide HardwareTranslate, ReadsAlike, And, Or, Space, MachineOk, Translate, PageDown, FramesBelow;
      AreaStart(v);
      var va: nat := PageDown(v.start);
      while va < v.end
        invariant machine.Valid() && PageAligned(va)
        invariant machine.frames.Free() == old(machine.frames.Free()) + FramesBelow(space, v, va)
      {
        ReclaimStep(machine.memory[..], machine.lab, machine.kernel, machine.pool, machine.frames.Free(), machine.frames.used,
          pml4 / PAGE_SIZE, space, v, va);
        var phys := machine.GetMappedFrame(pml4, va);
        match phys {
          case Some(a) =>
            machine.FreeFrame(PageDown(a));
          case None =>
        }
        va := va + PAGE_SIZE;
      }
      FramesBelowAll(space, v, va);
    }
  }

  /** The search of SYS_MMAP, which rounds the size up before and inside the search. */
  method PlaceRegion(regions: seq<Vma>, hint: nat, size: nat) returns (place: Option<nat>)
    requires NoWrap(regions, hint, size + PAGE_SIZE)
    ensures place.None? ==> forall at :: !Fits(regions, hint, size, at)
    ensures place.Some? ==>
      && Fits(regions, hint, size, place.value)
      && AreaOk(Vma(place.value, place.value + PageUp(size), VmaFlags(true, false))) && place.value != U64 - 1
      && (forall at :: Fits(regions, hint, size, at) ==> place.value <= at)
      && (forall v :: v in regions ==> place.value >= v.end || place.value + PageUp(size) <= v.start)
  {
    hide And, PageUp;
    PageRounding(size);
    PageUpTwice(size);
    var alignedSize := PageUp(size);
    place := FindFreeRegion(regions, hint, alignedSize);
    forall at
      ensures Fits(regions, hint, size, at) <==> Fits(regions, hint, alignedSize, at)
    {
    }
    if place.Some? {
      forall v | v in regions
        ensures place.value >= v.end || place.value + alignedSize <= v.start
      {
        assert Fits(regions, hint, alignedSize, place.value);
      }
    }
  }

  /** The exit of the process in slot `c` returned exactly the distinct frames mapped
      in its areas, which are the frames of all its pages, but none of its page tables;
      the count of frames in use fell by their number; and no process still live uses
      any of them. */
  ghost predicate Reclaimed(t: Table, c: nat, spaces: Spaces, free: set<nat>, used: nat, u: Table, free': set<nat>, used': nat)
    requires c < MAX_PROCESSES && t[c].Some?
  {
    && RootOf(t[c].value) in spaces
    && var space, regions := spaces[RootOf(t[c].value)], t[c].value.vmas;
      && free' == free + AreaFrames(space, regions)
      && AreaFrames(space, regions) == space.Values && AreaFrames(space, regions) !! free
      && used' == used - |AreaFrames(space, regions)|
      && forall j :: 0 <= j < MAX_PROCESSES && IsLive(u[j]) ==> UsesNone(u[j].value, spaces, AreaFrames(space, regions))
  }

  lemma ExitStarts(t: Table, m: seq<byte>, lab: Labels, pool: set<nat>, free: set<nat>, pid: nat)
    requires Find(t, pid).Some? && IsLive(t[Find(t, pid).value])
    requires ProcessesOwn(t, SpacesOf(m, lab), pool - free - lab.Keys)
    ensures var c, woken := Find(t, pid).value, WakeWaiters(t, pid);
      && Find(woken, pid) == Some(c) && woken[c].Some?
      && woken[c].value.pml4 == t[c].value.pml4 && woken[c].value.vmas == t[c].value.vmas
      && var space := Space(m, RootOf(t[c].value));
        && IsRoot(lab, RootOf(t[c].value)) && PageAligned(t[c].value.pml4)
        && RootOf(t[c].value) in SpacesOf(m, lab) && SpacesOf(m, lab)[RootOf(t[c].value)] == space
        && (forall v :: v in t[c].value.vmas ==> AreaOk(v))
        && (forall page :: page in space ==> space[page] in pool && space[page] !in lab)
  {
    hide Space, Isolated;
    var c := Find(t, pid).value;
    WokenFind(t, pid);
    assert SameMemory(t[c], WakeWaiters(t, pid)[c]);
    OwnedRoot(t, c, m, lab, pool - free - lab.Keys);
    LiveAreas(t, SpacesOf(m, lab), pool - free - lab.Keys, c);
    OwnedFrames(t, SpacesOf(m, lab), pool, free, lab.Keys, c);
  }

  lemma ExitEnds(w: World, pool: set<nat>, free: set<nat>, tables: set<nat>, pid: nat, code: nat, c: nat, u: Table)
    requires Find(w.table, pid) == Some(c) && IsLive(w.table[c]) && free <= pool
    requires WorldOk(w) && w.taken == pool - free - tables
    requires Find(WakeWaiters(w.table, pid), pid) == Some(c)
    requires u == Update(WakeWaiters(w.table, pid), c, WakeWaiters(w.table, pid)[c].value.(vmas := [], exitCode := Some(code),
      state := if AnyWaiter(w.table, pid) then Dead else Empty))
    ensures u == Exited(w.table, pid, code) && RootOf(w.table[c].value) in w.spaces
    ensures var freed := AreaFrames(w.spaces[RootOf(w.table[c].value)], w.table[c].value.vmas);
      && var v := World(w.m, u, w.spaces, pool - (free + freed) - tables, w.trees);
        && WorldOk(v) && Moves(w, Retire(c), v)
        && Reclaimed(w.table, c, w.spaces, free, |pool - free|, u, free + freed, |pool - (free + freed)|)
  {
    hide Isolated, UsesNone, AreaFrames, Moves, WakeWaiters, AnyWaiter, Exited, ProcessesOwn, Update, SameMemory;
    ExitedSlots(w.table, pid, code, c, u);
    MappedTouched(w.table, w.spaces, w.taken, c);
    var freed := AreaFrames(w.spaces[RootOf(w.table[c].value)], w.table[c].value.vmas);
    AllFramesFreed(w.spaces[RootOf(w.table[c].value)], w.table[c].value.vmas);
    OwnAfterExit(w.table, w.spaces, w.taken, c, freed, u);
    ReturnedSize(pool, free, freed, tables);
    NotReused(u, c, w.spaces, freed);
    RetireMoves(w, c, World(w.m, u, w.spaces, w.taken - freed, w.trees));
  }

  /** The table after an exit: the process is no longer live, the others keep their memory. */
  lemma ExitedSlots(t: Table, pid: nat, code: nat, c: nat, u: Table)
    requires Find(t, pid) == Some(c) && Find(WakeWaiters(t, pid), pid) == Some(c)
    requires u == Update(WakeWaiters(t, pid), c, WakeWaiters(t, pid)[c].value.(vmas := [], exitCode := Some(code),
      state := if AnyWaiter(t, pid) then Dead else Empty))
    ensures u == Exited(t, pid, code) && !IsLive(u[c])
    ensures forall j :: 0 <= j < MAX_PROCESSES && j != c ==> SameMemory(t[j], u[j])
  {
    WokenFind(t, pid);
    assert forall j :: 0 <= j < MAX_PROCESSES && j != c ==> u[j] == WakeWaiters(t, pid)[j];
  }

  lemma NotReused(u: Table, c: nat, spaces: Spaces, freed: set<nat>)
    requires c < MAX_PROCESSES && !IsLive(u[c])
    requires forall j :: 0 <= j < MAX_PROCESSES && j != c && IsLive(u[j]) ==> UsesNone(u[j].value, spaces, freed)
    ensures forall j :: 0 <= j < MAX_PROCESSES && IsLive(u[j]) ==> UsesNone(u[j].value, spaces, freed)
  {
  }

  lemma RetireMoves(w: World, c: nat, v: World)
    requires LiveIn(w, c) && !IsLive(v.table[c])
    requires forall j :: 0 <= j < MAX_PROCESSES && j != c ==> SameMemory(w.table[j], v.table[j])
    requires v == World(w.m, v.table, w.spaces, w.taken - SpaceOf(w, c).Values, w.trees)
    ensures Moves(w, Retire(c), v)
  {
    hide SameMemory;
  }

  predicate PageBelow(page: nat, va: nat) {
    page * PAGE_SIZE < va
  }

  /** The frames mapped at the pages of an area below `va`. */
  ghost function FramesBelow(space: map<nat, nat>, v: Vma, va: nat): set<nat> {
    set page | page in space && Touches(v, page) && PageBelow(page, va) :: space[page]
  }

  lemma AreaStart(v: Vma)
    requires AreaOk(v)
    ensures PageDown(v.start) == v.start && PageAligned(PageDown(v.start))
    ensures forall space: map<nat, nat> :: FramesBelow(space, v, PageDown(v.start)) == {}
  {
    hide PageDown;
    PageRounding(v.start);
  }

  lemma PoolBound(m: seq<byte>, lab: Labels, kernel: set<(nat, nat)>, pool: set<nat>, free: set<nat>, used: nat)
    requires MachineOk(m, lab, kernel, pool, free, used)
    ensures forall f :: f in pool ==> f < MAX_FRAMES
    ensures used == |pool - free| && free <= pool
  {
  }

  lemma FramesBelowStep(space: map<nat, nat>, v: Vma, va: nat)
    requires PageAligned(va) && PageDown(v.start) <= va < v.end
    ensures FramesBelow(space, v, va + PAGE_SIZE) ==
      FramesBelow(space, v, va) + (if va / PAGE_SIZE in space then {space[va / PAGE_SIZE]} else {})
  {
    hide PageDown;
    var p := va / PAGE_SIZE;
    forall q: nat
      ensures PageBelow(q, va + PAGE_SIZE) <==> PageBelow(q, va) || q == p
    {
      PageBelowStep(q, va);
    }
    hide PageBelow;
    assert Touches(v, p);
  }

  lemma PageBelowStep(q: nat, va: nat)
    requires PageAligned(va)
    ensures PageBelow(q, va + PAGE_SIZE) <==> PageBelow(q, va) || q == va / PAGE_SIZE
  {
    assert va == va / PAGE_SIZE * PAGE_SIZE;
  }

  /** What one round of the loop finds at `va`: the frame of its page, or nothing. */
  lemma ReclaimStep(m: seq<byte>, lab: Labels, kernel: set<(nat, nat)>, pool: set<nat>, free: set<nat>, used: nat,
      root: nat, space: map<nat, nat>, v: Vma, va: nat)
    requires MachineOk(m, lab, kernel, pool, free, used) && IsRoot(lab, root) && space == Space(m, root)
    requires forall page :: page in space ==> space[page] in pool && space[page] !in lab
    requires PageAligned(va) && PageDown(v.start) <= va < v.end <= USER_TOP
    ensures match Translate(m, root, va)
      case None => FramesBelow(space, v, va + PAGE_SIZE) == FramesBelow(space, v, va)
      case Some(a) =>
        && PageDown(a) / PAGE_SIZE in pool && PageDown(a) / PAGE_SIZE !in lab
        && FramesBelow(space, v, va + PAGE_SIZE) == FramesBelow(space, v, va) + {PageDown(a) / PAGE_SIZE}
  {
    hide And, Space, Translate, FramesBelow;
    TranslateByPage(m, lab, root, va);
    FramesBelowStep(space, v, va);
    if va / PAGE_SIZE in space {
      FrameBase(Translate(m, root, va).value);
    }
  }

  lemma FramesBelowAll(space: map<nat, nat>, v: Vma, va: nat)
    requires va >= v.end
    ensures FramesBelow(space, v, va) == AreaFrames(space, [v])
  {
    hide PageDown;
    assert forall q: nat :: TouchedBy([v], q) <==> Touches(v, q);
    assert forall q: nat :: Touches(v, q) ==> PageBelow(q, va);
  }

  lemma FrameBase(a: nat)
    requires a < U64 - PAGE_SIZE
    ensures PageDown(a) / PAGE_SIZE == a / PAGE_SIZE
  {
    hide PageDown;
    PageRounding(a);
  }

  lemma AreaFramesSnoc(space: map<nat, nat>, regions: seq<Vma>, v: Vma)
    ensures AreaFrames(space, regions + [v]) == AreaFrames(space, regions) + AreaFrames(space, [v])
  {
    hide Touches;
    forall q: nat
      ensures TouchedBy(regions + [v], q) <==> TouchedBy(regions, q) || TouchedBy([v], q)
    {
      if w :| w in regions && Touches(w, q) {
        assert w in regions + [v];
      }
      assert v in regions + [v] && v in [v];
    }
  }

  /** A space whose pages all lie in areas gives back the frame of every page. */
  lemma AllFramesFreed(space: map<nat, nat>, regions: seq<Vma>)
    requires forall page :: page in space ==> TouchedBy(regions, page)
    ensures AreaFrames(space, regions) == space.Values
    ensures forall f :: f in AreaFrames(space, regions) ==> exists p :: p in space && space[p] == f
  {
  }

  lemma OwnedFrames(t: Table, spaces: Spaces, pool: set<nat>, free: set<nat>, tables: set<nat>, c: nat)
    requires ProcessesOwn(t, spaces, pool - free - tables) && c < MAX_PROCESSES && IsLive(t[c])
    ensures RootOf(t[c].value) in spaces
    ensures forall page :: page in spaces[RootOf(t[c].value)] ==>
      spaces[RootOf(t[c].value)][page] in pool - free - tables
  {
    assert OwnsSpace(t[c].value, spaces);
    assert RootOf(t[c].value) in LiveRoots(t);
  }

  lemma WokenFind(t: Table, pid: nat)
    ensures Find(WakeWaiters(t, pid), pid) == Find(t, pid)
    ensures forall i :: 0 <= i < MAX_PROCESSES ==> SameMemory(t[i], WakeWaiters(t, pid)[i])
  {
    var u := WakeWaiters(t, pid);
    assert forall j :: 0 <= j < MAX_PROCESSES ==> Holds(t, j, pid) == Holds(u, j, pid);
    FindFromSame(t, u, pid, 0);
  }

  lemma ReturnedSize(pool: set<nat>, free: set<nat>, freed: set<nat>, tables: set<nat>)
    requires freed <= pool - free - tables
    ensures |pool - (free + freed)| == |pool - free| - |freed|
    ensures pool - (free + freed) - tables == (pool - free - tables) - freed
  {
    assert pool - free == (pool - (free + freed)) + freed;
  }

  lemma UnmappedBytes(m: seq<byte>, n: seq<byte>, o: seq<byte>, lab: Labels, free: set<nat>, data: set<nat>)
    requires SameBytes(m, n, data) && TablesGrew(n, lab, free, o, lab, free) && data !! lab.Keys
    ensures SameBytes(m, o, data)
  {
    hide SameKernelView;
    forall a: nat | a < |m| && a / PAGE_SIZE in data
      ensures o[a] == m[a]
    {
      assert o[a] == n[a];
    }
  }

  predicate PageInRange(page: nat, addr: nat, end: nat) {
    addr <= page * PAGE_SIZE < end
  }

  function PagesFrom(addr: nat, end: nat): set<nat> {
    set page | 0 <= page <= end && PageInRange(page, addr, end)
  }

  /** The pages that start in the range. */
  lemma PagesInRange(addr: nat, end: nat, page: nat)
    ensures page in PagesFrom(addr, end) <==> addr <= page * PAGE_SIZE < end
  {
  }

  /** `regions.retain`: every area but those with exactly these bounds, in order. */
  function WithoutArea(regions: seq<Vma>, start: nat, end: nat): seq<Vma> {
    if regions == [] then [] else
    var v := regions[0];
    (if v.start == start && v.end == end then [] else [v]) + WithoutArea(regions[1..], start, end)
  }

  lemma {:induction false} WithoutAreaMembers(regions: seq<Vma>, start: nat, end: nat)
    ensures forall v :: v in WithoutArea(regions, start, end) <==> v in regions && !(v.start == start && v.end == end)
  {
    if regions != [] {
      WithoutAreaMembers(regions[1..], start, end);
      assert forall v :: v in regions <==> v == regions[0] || v in regions[1..];
    }
  }

  lemma WithoutAreaHead(v: Vma, rest: seq<Vma>, start: nat, end: nat)
    ensures WithoutArea([v] + rest, start, end) ==
      (if v.start == start && v.end == end then [] else [v]) + WithoutArea(rest, start, end)
  {
    assert ([v] + rest)[1..] == rest;
  }

  /** The areas that stay keep their order. */
  lemma {:induction false} WithoutAreaSplits(front: seq<Vma>, back: seq<Vma>, start: nat, end: nat)
    ensures WithoutArea(front + back, start, end) == WithoutArea(front, start, end) + WithoutArea(back, start, end)
  {
    if front == [] {
      assert front + back == back;
    } else {
      hide WithoutArea;
      var v, rest := front[0], front[1..];
      WithoutAreaSplits(rest, back, start, end);
      WithoutAreaHead(v, rest, start, end);
      WithoutAreaHead(v, rest + back, start, end);
      assert front == [v] + rest && front + back == [v] + (rest + back);
    }
  }

  /** A page outside the range that lay in an area still does. */
  lemma WithoutAreaTouches(regions: seq<Vma>, start: nat, end: nat)
    requires PageAligned(start) && start + PAGE_SIZE < U64
    ensures forall v :: v in WithoutArea(regions, start, end) ==> v in regions
    ensures forall page: nat :: TouchedBy(regions, page) && page !in PagesFrom(start, end) ==>
      TouchedBy(WithoutArea(regions, start, end), page)
  {
    hide PageDown;
    WithoutAreaMembers(regions, start, end);
    PageRounding(start);
    forall page: nat | TouchedBy(regions, page) && page !in PagesFrom(start, end)
      ensures TouchedBy(WithoutArea(regions, start, end), page)
    {
      var v :| v in regions && Touches(v, page);
      assert !PageInRange(page, start, end);
      assert v in WithoutArea(regions, start, end);
    }
  }

  lemma RangeAligned(addr: nat, size: nat)
    requires addr + PAGE_SIZE < U64 && size + PAGE_SIZE < U64
    ensures PageAligned(PageDown(addr)) && PageAligned(PageDown(addr) + PageUp(size)) && PageDown(addr) <= addr
  {
    hide PageUp, PageDown;
    PageRounding(addr);
    PageRounding(size);
    AlignedSum(PageDown(addr), PageUp(size));
  }

  lemma AlignedSum(a: nat, b: nat)
    requires PageAligned(a) && PageAligned(b)
    ensures PageAligned(a + b)
  {
    DivUnique(a + b, PAGE_SIZE, a / PAGE_SIZE + b / PAGE_SIZE, 0);
  }

  lemma PageUpTwice(size: nat)
    requires size + 2 * PAGE_SIZE < U64
    ensures PageUp(PageUp(size)) == PageUp(size) && PageUp(size) < size + PAGE_SIZE
  {
    hide PageUp, PageDown;
    PageRounding(size);
    var up := PageUp(size);
    PageRounding(up);
    assert (up + 0xFFF) / PAGE_SIZE == up / PAGE_SIZE;
  }

  lemma SameFind(t: Table, c: nat, p: Process, pid: nat)
    requires c < MAX_PROCESSES && t[c].Some? && p.pid == t[c].value.pid
    ensures Find(Update(t, c, p), pid) == Find(t, pid)
  {
    var u := Update(t, c, p);
    assert forall j :: 0 <= j < MAX_PROCESSES ==> Holds(t, j, pid) == Holds(u, j, pid);
    FindFromSame(t, u, pid, 0);
  }

  lemma MappedTouched(t: Table, spaces: Spaces, taken: set<nat>, c: nat)
    requires ProcessesOwn(t, spaces, taken) && c < MAX_PROCESSES && IsLive(t[c])
    ensures RootOf(t[c].value) in spaces
    ensures forall page :: page in spaces[RootOf(t[c].value)] ==> TouchedBy(t[c].value.vmas, page)
  {
    assert OwnsSpace(t[c].value, spaces);
  }

  /** Adding an area, or none, changes no mapping. */
  lemma AreaMoves(w: World, c: nat, added: seq<Vma>, q: Process)
    requires WorldOk(w) && c < MAX_PROCESSES && IsLive(w.table[c]) && forall v :: v in added ==> AreaOk(v)
    requires q == w.table[c].value.(vmas := w.table[c].value.vmas + added, heapBreak := q.heapBreak)
    ensures Moves(w, ChangeAreas(c, q, {}), w.(table := Update(w.table, c, q)))
    ensures WorldOk(w.(table := Update(w.table, c, q)))
  {
    MappedTouched(w.table, w.spaces, w.taken, c);
    LiveAreas(w.table, w.spaces, w.taken, c);
    hide WorldOk;
    var v := w.(table := Update(w.table, c, q));
    forall page | page in w.spaces[RootOf(q)]
      ensures TouchedBy(q.vmas, page)
    {
      var area :| area in w.table[c].value.vmas && Touches(area, page);
      assert area in q.vmas;
    }
    assert w.spaces[RootOf(q)] - {} == w.spaces[RootOf(q)];
    assert w.spaces[RootOf(q) := w.spaces[RootOf(q)] - {}] == w.spaces;
    assert Moves(w, ChangeAreas(c, q, {}), v);
    MoveKeepsIsolation(w, ChangeAreas(c, q, {}), v);
  }

  lemma UnmapMoves(w: World, c: nat, addr: nat, end: nat, n: seq<byte>)
    requires WorldOk(w) && c < MAX_PROCESSES && IsLive(w.table[c]) && PageAligned(addr) && addr + PAGE_SIZE < U64
    requires SameBytes(w.m, n, w.taken)
    ensures RootOf(w.table[c].value) in w.spaces
    ensures var q, r := w.table[c].value.(vmas := WithoutArea(w.table[c].value.vmas, addr, end)), RootOf(w.table[c].value);
      var v := World(n, Update(w.table, c, q), w.spaces[r := w.spaces[r] - PagesFrom(addr, end)], w.taken, w.trees);
      Moves(w, ChangeAreas(c, q, PagesFrom(addr, end)), v) && WorldOk(v)
  {
    MappedTouched(w.table, w.spaces, w.taken, c);
    LiveAreas(w.table, w.spaces, w.taken, c);
    WithoutAreaTouches(w.table[c].value.vmas, addr, end);
    hide WorldOk, SameBytes, PagesFrom, WithoutArea, TouchedBy;
    var q, r := w.table[c].value.(vmas := WithoutArea(w.table[c].value.vmas, addr, end)), RootOf(w.table[c].value);
    var v := World(n, Update(w.table, c, q), w.spaces[r := w.spaces[r] - PagesFrom(addr, end)], w.taken, w.trees);
    assert Moves(w, ChangeAreas(c, q, PagesFrom(addr, end)), v);
    MoveKeepsIsolation(w, ChangeAreas(c, q, PagesFrom(addr, end)), v);
  }

  lemma FaultMoves(w: World, z: seq<byte>, n: seq<byte>, lab: Labels, free: set<nat>, lab': Labels, free': set<nat>,
      c: nat, page: nat, g: nat, v: World, ok: bool)
    requires WorldOk(w) && c < MAX_PROCESSES && IsLive(w.table[c]) && TouchedBy(w.table[c].value.vmas, page)
    requires g in free && g !in lab && g !in w.taken && Stored(w.m, g * PAGE_SIZE, Zeros(PAGE_SIZE), z)
    requires TablesGrew(z, lab, free - {g}, n, lab', free') && w.taken !! lab.Keys && w.taken !! free
    requires RootOf(w.table[c].value) in w.spaces
    requires v == World(n, w.table,
      if ok then w.spaces[RootOf(w.table[c].value) := MapIn(w.spaces[RootOf(w.table[c].value)], page, g)] else w.spaces,
      w.taken + {g}, v.trees)
    requires Grew(w.trees, v.trees, RootOf(w.table[c].value))
    ensures Moves(w, if ok then Serve(c, page, g) else Leak(RootOf(w.table[c].value)), v)
    ensures LeastFree(free, g) ==> ServeTaken(w, c, page, free, ok, !ok, v, free')
  {
    hide TablesGrew, ProcessesOwn, Rooted, Grew, AddsRoot;
    GrewRooted(w.trees, w.spaces, v.trees, v.spaces, RootOf(w.table[c].value));
    FrameContents(z, lab, free - {g}, n, lab', free', g);
    GrownTables(z, lab, free - {g}, n, lab', free');
    assert lab'.Keys == lab.Keys + (free - {g} - free');
    forall a: nat | a < |n| && (a / PAGE_SIZE in w.taken || a / PAGE_SIZE == g)
      ensures n[a] == if a / PAGE_SIZE == g then 0 else w.m[a]
    {
      assert a / PAGE_SIZE !in lab'.Keys;
      assert n[a] == z[a];
      assert a / PAGE_SIZE == g <==> g * PAGE_SIZE <= a < g * PAGE_SIZE + PAGE_SIZE;
    }
  }

  lemma LiveAreas(t: Table, spaces: Spaces, taken: set<nat>, c: nat)
    requires ProcessesOwn(t, spaces, taken) && c < MAX_PROCESSES && IsLive(t[c])
    ensures forall v :: v in t[c].value.vmas ==> AreaOk(v)
  {
    assert OwnsSpace(t[c].value, spaces);
  }

  lemma TakenApart(pool: set<nat>, free: set<nat>, tables: set<nat>)
    ensures pool - free - tables !! tables && pool - free - tables !! free
  {
  }

  lemma TakenFromPool(m: seq<byte>, lab: Labels, kernel: set<(nat, nat)>, pool: set<nat>, free: set<nat>, used: nat, g: nat)
    requires MachineOk(m, lab, kernel, pool, free, used) && g in free
    ensures g in pool && g !in lab && g < MAX_FRAMES && g !in pool - free - lab.Keys
    ensures pool - (free - {g}) - lab.Keys == (pool - free - lab.Keys) + {g}
  {
  }

  lemma SameSpacesOf(m: seq<byte>, n: seq<byte>, lab: Labels)
    requires SameSpaces(m, n, lab)
    ensures SpacesOf(n, lab) == SpacesOf(m, lab)
  {
    hide Space;
    assert forall r :: r in SpacesOf(m, lab) <==> IsRoot(lab, r);
  }

  /** Table growth leaves the bytes of a data frame alone. */
  lemma FrameContents(m: seq<byte>, lab: Labels, free: set<nat>, n: seq<byte>, lab': Labels, free': set<nat>, g: nat)
    requires TablesGrew(m, lab, free, n, lab', free')
    ensures |n| == |m| && forall a: nat {:trigger n[a]} :: a < |m| && a / PAGE_SIZE !in lab' ==> n[a] == m[a]
    ensures g !in lab && g !in free ==> g !in lab'
  {
    hide SameKernelView;
    assert g in lab' && g !in lab ==> g in lab'.Keys - lab.Keys;
  }

  lemma OwnedRoot(t: Table, c: nat, m: seq<byte>, lab: Labels, taken: set<nat>)
    requires ProcessesOwn(t, SpacesOf(m, lab), taken) && c < MAX_PROCESSES && IsLive(t[c])
    ensures IsRoot(lab, RootOf(t[c].value)) && PageAligned(t[c].value.pml4)
    ensures RootOf(t[c].value) in SpacesOf(m, lab)
    ensures SpacesOf(m, lab)[RootOf(t[c].value)] == Space(m, RootOf(t[c].value))
  {
    hide Space;
    assert OwnsSpace(t[c].value, SpacesOf(m, lab));
  }

  lemma OwnMoreTaken(t: Table, spaces: Spaces, taken: set<nat>, more: set<nat>)
    requires ProcessesOwn(t, spaces, taken) && taken <= more
    ensures ProcessesOwn(t, spaces, more)
  {
    MoreTaken(spaces, LiveRoots(t), taken, more);
  }

  lemma GrownTables(m: seq<byte>, lab: Labels, free: set<nat>, n: seq<byte>, lab': Labels, free': set<nat>)
    requires TablesGrew(m, lab, free, n, lab', free')
    ensures free' <= free && lab.Keys <= lab'.Keys && lab'.Keys - lab.Keys == free - free'
  {
    hide SameKernelView;
  }
}
