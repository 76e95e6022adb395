/** Shared memory regions as owners of physical frames. */
module SharedMemory {
  import opened Bytes
  import opened Frames
  import opened PageTree
  import opened Translation
  import opened Mapping
  import opened Paging
  import opened Ownership
  import opened UserMemory
  import opened Vmas

  const MAX_SHM_REGIONS: nat := 32
  const ID_LIMIT: nat := 0xFFFF_FFFF

  datatype SharedRegion = SharedRegion(
    id: nat, frames: seq<nat>, size: nat, refCount: nat, owner: nat, ownerExited: bool)

  ghost function FrameSet(frames: seq<nat>): set<nat> {
    set a | a in frames :: a / PAGE_SIZE
  }

  lemma InFrameSet(frames: seq<nat>, k: nat)
    requires k < |frames|
    ensures frames[k] / PAGE_SIZE in FrameSet(frames)
  {
    assert frames[k] in frames;
  }

  /** Page-aligned frames of the set, none of them twice. */
  ghost predicate FramesOk(frames: seq<nat>, taken: set<nat>) {
    && (forall k :: 0 <= k < |frames| ==> PageAligned(frames[k]) && frames[k] / PAGE_SIZE in taken)
    && (forall j, k :: 0 <= j < k < |frames| ==> frames[j] != frames[k])
  }

  /** Regions own pairwise disjoint frames in use; ids grow along the table and stay below the next one. */
  ghost predicate RegionsOk(table: seq<SharedRegion>, taken: set<nat>, nextId: nat) {
    && (forall i :: 0 <= i < |table| ==> FramesOk(table[i].frames, taken) && table[i].id < nextId)
    && (forall i, j :: 0 <= i < j < |table| ==>
          table[i].id < table[j].id && FrameSet(table[i].frames) !! FrameSet(table[j].frames))
  }

  lemma RegionAdded(table: seq<SharedRegion>, taken: set<nat>, more: set<nat>, nextId: nat, r: SharedRegion)
    requires RegionsOk(table, taken, nextId) && FramesOk(r.frames, more) && r.id == nextId && taken !! more
    ensures RegionsOk(table + [r], taken + more, nextId + 1)
  {
    forall i | 0 <= i < |table|
      ensures FrameSet(table[i].frames) !! FrameSet(r.frames)
    {
      assert FrameSet(table[i].frames) <= taken && FrameSet(r.frames) <= more;
    }
  }

  lemma RegionRemoved(table: seq<SharedRegion>, taken: set<nat>, nextId: nat, i: nat)
    requires RegionsOk(table, taken, nextId) && i < |table|
    ensures RegionsOk(table[..i] + table[i + 1..], taken - FrameSet(table[i].frames), nextId)
    ensures FrameSet(table[i].frames) <= taken
  {
    var rest, gone := table[..i] + table[i + 1..], FrameSet(table[i].frames);
    forall j | 0 <= j < |rest|
      ensures FramesOk(rest[j].frames, taken - gone)
    {
      var was := if j < i then j else j + 1;
      assert rest[j] == table[was];
      assert gone !! FrameSet(table[was].frames);
      forall k | 0 <= k < |table[was].frames|
        ensures table[was].frames[k] / PAGE_SIZE !in gone
      {
        InFrameSet(table[was].frames, k);
      }
    }
  }

  lemma RegionChanged(table: seq<SharedRegion>, taken: set<nat>, nextId: nat, i: nat, r: SharedRegion)
    requires RegionsOk(table, taken, nextId) && i < |table|
    requires r.frames == table[i].frames && r.id == table[i].id
    ensures RegionsOk(table[i := r], taken, nextId)
  {
  }

  /** The frames of a region are all distinct, so it owns as many as it lists. */
  lemma {:induction false} FramesCounted(frames: seq<nat>, taken: set<nat>)
    requires FramesOk(frames, taken)
    ensures |FrameSet(frames)| == |frames|
  {
    if frames != [] {
      var front, last := frames[..|frames| - 1], frames[|frames| - 1];
      FramesCounted(front, taken);
      assert frames == front + [last];
      FrameSetSnoc(front, last);
      LastIsNew(frames, taken);
    }
  }

  lemma FrameSetSnoc(front: seq<nat>, last: nat)
    ensures FrameSet(front + [last]) == FrameSet(front) + {last / PAGE_SIZE}
  {
    forall f
      ensures f in FrameSet(front + [last]) <==> f in FrameSet(front) + {last / PAGE_SIZE}
    {
      assert last in front + [last];
      if a :| a in front && a / PAGE_SIZE == f {
        assert a in front + [last];
      }
    }
  }

  lemma LastIsNew(frames: seq<nat>, taken: set<nat>)
    requires frames != [] && FramesOk(frames, taken)
    ensures frames[|frames| - 1] / PAGE_SIZE !in FrameSet(frames[..|frames| - 1])
  {
    var front, last := frames[..|frames| - 1], frames[|frames| - 1];
    forall a | a in front
      ensures a / PAGE_SIZE != last / PAGE_SIZE
    {
      var k :| 0 <= k < |front| && front[k] == a;
      assert frames[k] == a && PageAligned(a) && PageAligned(last);
    }
  }

  // ---------- Exit of an owner ----------

  /** What the exit of `pid` makes of one region; None when it is removed. */
  function AfterExit(r: SharedRegion, pid: nat): Option<SharedRegion> {
    if r.owner != pid then Some(r)
    else
      var left := if r.refCount > 0 then r.refCount - 1 else 0;
      if left == 0 then None else Some(r.(ownerExited := true, refCount := left))
  }

  function Cleaned(table: seq<SharedRegion>, pid: nat): seq<SharedRegion> {
    if table == [] then []
    else
      var last := AfterExit(table[|table| - 1], pid);
      Cleaned(table[..|table| - 1], pid) + (if last.Some? then [last.value] else [])
  }

  ghost function FreedFrames(table: seq<SharedRegion>, pid: nat): set<nat> {
    if table == [] then {}
    else
      FreedFrames(table[..|table| - 1], pid)
      + (if AfterExit(table[|table| - 1], pid).None? then FrameSet(table[|table| - 1].frames) else {})
  }

  function OfOthers(table: seq<SharedRegion>, pid: nat): seq<SharedRegion> {
    if table == [] then []
    else
      OfOthers(table[..|table| - 1], pid)
      + (if table[|table| - 1].owner != pid then [table[|table| - 1]] else [])
  }

  lemma NothingCleaned(pid: nat)
    ensures Cleaned([], pid) == [] && FreedFrames([], pid) == {}
  {
  }

  /** One turn of the cleaning loop, on the table as it stands after `k` regions. */
  lemma CleanStep(t: seq<SharedRegion>, k: nat, pid: nat)
    requires k < |t|
    ensures var front, next := Cleaned(t[..k], pid), AfterExit(t[k], pid);
            var table, kept := front + t[k..], if next.Some? then [next.value] else [];
            && table[|front|] == t[k]
            && table[..|front|] + kept + table[|front| + 1..] == Cleaned(t[..k + 1], pid) + t[k + 1..]
            && |Cleaned(t[..k + 1], pid)| == |front| + |kept|
    ensures FreedFrames(t[..k + 1], pid) ==
            FreedFrames(t[..k], pid) + (if AfterExit(t[k], pid).None? then FrameSet(t[k].frames) else {})
  {
    hide AfterExit, FrameSet;
    assert t[..k + 1][..k] == t[..k];
  }

  /** The regions of other owners stay untouched and in order. */
  lemma {:induction false} OthersUntouched(table: seq<SharedRegion>, pid: nat)
    ensures OfOthers(Cleaned(table, pid), pid) == OfOthers(table, pid)
  {
    if table != [] {
      var front, last := table[..|table| - 1], AfterExit(table[|table| - 1], pid);
      OthersUntouched(front, pid);
      if last.Some? {
        assert Cleaned(table, pid)[..|Cleaned(front, pid)|] == Cleaned(front, pid);
      } else {
        assert Cleaned(table, pid) == Cleaned(front, pid);
      }
    }
  }

  /** A frame is freed exactly when a region that owns it is removed. */
  lemma {:induction false} FreedIffRemoved(table: seq<SharedRegion>, pid: nat, f: nat)
    ensures f in FreedFrames(table, pid) <==>
            exists i :: 0 <= i < |table| && AfterExit(table[i], pid).None? && f in FrameSet(table[i].frames)
  {
    if table != [] {
      var n := |table| - 1;
      FreedIffRemoved(table[..n], pid, f);
      if f in FreedFrames(table[..n], pid) {
        var i :| 0 <= i < n && AfterExit(table[..n][i], pid).None? && f in FrameSet(table[..n][i].frames);
        assert table[i] == table[..n][i];
      }
      if i :| 0 <= i < n && AfterExit(table[i], pid).None? && f in FrameSet(table[i].frames) {
        assert table[i] == table[..n][i];
      }
    }
  }

  /** An own region that was mapped at least twice: one mapping less, and an orphan. */
  predicate Orphaned(r: SharedRegion, pid: nat, x: SharedRegion) {
    r.owner == pid && r.refCount >= 2 && x == r.(ownerExited := true, refCount := r.refCount - 1)
  }

  lemma ExitKeepsIff(r: SharedRegion, pid: nat, x: SharedRegion)
    ensures AfterExit(r, pid) == Some(x) <==> (x == r && r.owner != pid) || Orphaned(r, pid, x)
  {
  }

  /** What is left after the exit of `pid`: the regions of others, and its own ones that were
      mapped at least twice. */
  lemma {:induction false} CleanedMembers(table: seq<SharedRegion>, pid: nat, x: SharedRegion)
    ensures x in Cleaned(table, pid) <==>
      (x in table && x.owner != pid) || exists i :: 0 <= i < |table| && Orphaned(table[i], pid, x)
  {
    hide AfterExit, Orphaned;
    if table != [] {
      var front, last := table[..|table| - 1], table[|table| - 1];
      CleanedMembers(front, pid, x);
      ExitKeepsIff(last, pid, x);
      assert x in table <==> x in front || x == last;
      assert forall i :: 0 <= i < |front| ==> front[i] == table[i];
    }
  }

  class ShmTable {
    const machine: Machine
    var table: seq<SharedRegion>
    var nextId: nat

    ghost function Taken(): set<nat>
      reads machine, machine.frames, machine.frames.bitmap
      requires machine.frames.Valid()
    {
      machine.pool - machine.frames.Free() - machine.lab.Keys
    }

    ghost function Free(): set<nat>
      reads machine, machine.frames, machine.frames.bitmap
      requires machine.frames.Valid()
    {
      machine.frames.Free()
    }

    ghost predicate Valid()
      reads this, machine, machine.memory, machine.frames, machine.frames.bitmap
    {
      machine.Valid() && |table| <= MAX_SHM_REGIONS && RegionsOk(table, Taken(), nextId)
    }

    constructor (m: Machine)
      requires m.Valid()
      ensures Valid() && machine == m && table == [] && nextId == 1
    {
      machine, table, nextId := m, [], 1;
    }

    /** Returns frames that the caller owns to the allocator. */
    method FreeAll(frames: seq<nat>)
      requires machine.Valid() && FramesOk(frames, Taken())
      modifies machine.frames`used, machine.frames.bitmap
      ensures machine.Valid()
      ensures Free() == old(Free()) + FrameSet(frames)
    {
      hide Intact, MachineOk;
      for k := 0 to |frames|
        invariant machine.Valid()
        invariant Free() == old(Free()) + FrameSet(frames[..k])
      {
        assert frames[..k + 1] == frames[..k] + [frames[k]];
        FrameSetSnoc(frames[..k], frames[k]);
        machine.FreeFrame(frames[k]);
      }
      assert frames[..|frames|] == frames;
    }

    /** Takes and zeroes `pages` frames, or takes none. */
    method TakeFrames(pages: nat) returns (ok: bool, frames: seq<nat>)
      requires machine.Valid()
      modifies machine.memory, machine.frames`used, machine.frames.bitmap
      ensures machine.Valid()
      ensures ok <==> pages <= |old(Free())|
      ensures !ok ==> Free() == old(Free())
      ensures ok ==> |frames| == pages && FramesOk(frames, old(Free()))
      ensures ok ==> Free() == old(Free()) - FrameSet(frames)
      ensures ok ==> Zeroed(machine.memory[..], FrameSet(frames))
      ensures OnlyTouches(old(machine.memory[..]), machine.memory[..], old(Free()))
    {
      hide Intact, FramesOk, MachineOk, Zeroed, OnlyTouches, Stored;
      ghost var free0, m0 := Free(), machine.memory[..];
      MachineFacts(m0, machine.lab, machine.kernel, machine.pool, free0, machine.frames.used);
      NoFrames(m0, free0);
      frames := [];
      for i := 0 to pages
        invariant machine.Valid() && machine.lab == old(machine.lab)
        invariant |frames| == i && FramesOk(frames, free0)
        invariant Free() == free0 - FrameSet(frames)
        invariant Zeroed(machine.memory[..], FrameSet(frames))
        invariant OnlyTouches(m0, machine.memory[..], free0)
      {
        var frame := TakeFrame(frames, free0, m0);
        if frame.None? {
          NoneLeft(frames, free0, machine.pool, machine.lab.Keys);
          FreeAll(frames);
          return false, [];
        }
        frames := frames + [frame.value];
      }
      AllTaken(frames, free0);
      return true, frames;
    }

    /** One more frame of the region, zeroed, or None when none is free. */
    method TakeFrame(ghost frames: seq<nat>, ghost free0: set<nat>, ghost m0: seq<byte>) returns (frame: Option<nat>)
      requires machine.Valid() && free0 <= machine.pool - machine.lab.Keys && FramesOk(frames, free0)
      requires Free() == free0 - FrameSet(frames)
      requires Zeroed(machine.memory[..], FrameSet(frames)) && OnlyTouches(m0, machine.memory[..], free0)
      modifies machine.memory, machine.frames`used, machine.frames.bitmap
      ensures machine.Valid() && OnlyTouches(m0, machine.memory[..], free0)
      ensures frame.None? ==> old(Free()) == {} && Free() == old(Free()) && machine.memory[..] == old(machine.memory[..])
      ensures frame.Some? ==>
        && FramesOk(frames + [frame.value], free0) && Free() == free0 - FrameSet(frames + [frame.value])
        && Zeroed(machine.memory[..], FrameSet(frames + [frame.value]))
    {
      hide Intact, FramesOk, MachineOk, Zeroed, OnlyTouches, Stored;
      frame := machine.AllocFrame();
      if frame.Some? {
        ghost var m := machine.memory[..];
        TakenFromFree(frames, free0, frame.value);
        machine.WriteData(frame.value, Zeros(PAGE_SIZE), frame.value / PAGE_SIZE);
        FrameCleared(m0, m, machine.memory[..], frames, free0, frame.value);
      }
    }

    /** Creates a region of zeroed frames. It either enters the table with all of its
        frames, or fails with every frame back in the allocator; the id is spent even when
        the table turns out to be full. */
    method Create(size: nat, owner: nat) returns (result: Option<nat>)
      requires Valid() && size + PAGE_SIZE - 1 < U64 && nextId < ID_LIMIT
      modifies this, machine.memory, machine.frames`used, machine.frames.bitmap
      ensures Valid()
      ensures result.Some? <==> PageUp(size) / PAGE_SIZE <= |old(Free())| && |old(table)| < MAX_SHM_REGIONS
      ensures result.None? ==> table == old(table) && Free() == old(Free())
      ensures nextId == old(nextId) + if PageUp(size) / PAGE_SIZE <= |old(Free())| then 1 else 0
      ensures result.Some? ==>
        && result.value == old(nextId)
        && Entered(old(table), table, old(nextId), owner, PageUp(size), old(Free()), Free(), machine.memory[..])
      ensures OnlyTouches(old(machine.memory[..]), machine.memory[..], old(Free()))
    {
      hide Intact, FramesOk, MachineOk, Zeroed, OnlyTouches, RegionsOk, FrameSet, Entered, PageUp;
      PageRounding(size);
      ghost var free0, taken0 := Free(), Taken();
      MachineFacts(machine.memory[..], machine.lab, machine.kernel, machine.pool, free0, machine.frames.used);
      var aligned := PageUp(size);
      var ok, frames := TakeFrames(aligned / PAGE_SIZE);
      if !ok {
        assert Taken() == taken0;
        return None;
      }
      FramesOwned(frames, free0, machine.pool, machine.lab.Keys);
      result := Enter(frames, aligned, owner, free0, taken0);
    }

    /** Gives a new region its id and pushes it, or returns its frames when the table is full. */
    method Enter(frames: seq<nat>, size: nat, owner: nat, ghost free0: set<nat>, ghost taken0: set<nat>)
      returns (result: Option<nat>)
      requires machine.Valid() && |table| <= MAX_SHM_REGIONS && RegionsOk(table, taken0, nextId)
      requires Free() == free0 - FrameSet(frames) && FrameSet(frames) <= free0
      requires FramesOk(frames, free0) && FramesOk(frames, Taken()) && FramesOk(frames, FrameSet(frames))
      requires Taken() == taken0 + FrameSet(frames) && taken0 !! FrameSet(frames)
      requires taken0 == machine.pool - free0 - machine.lab.Keys
      requires |frames| * PAGE_SIZE == size && Zeroed(machine.memory[..], FrameSet(frames))
      modifies this, machine.frames`used, machine.frames.bitmap
      ensures Valid() && nextId == old(nextId) + 1
      ensures result.Some? <==> |old(table)| < MAX_SHM_REGIONS
      ensures result.None? ==> table == old(table) && Free() == free0
      ensures result.Some? ==>
        && result.value == old(nextId)
        && Entered(old(table), table, old(nextId), owner, size, free0, Free(), machine.memory[..])
    {
      hide Intact, FramesOk, MachineOk, Zeroed, RegionsOk, FrameSet, Entered;
      var id := nextId;
      nextId := nextId + 1;
      var region := SharedRegion(id, frames, size, 0, owner, false);
      if |table| >= MAX_SHM_REGIONS {
        FreeAll(region.frames);
        NextIdGrows(table, taken0, id);
        assert Free() == free0;
        return None;
      }
      RegionAdded(table, taken0, FrameSet(frames), id, region);
      NowEntered(table, region, free0, machine.memory[..]);
      table := table + [region];
      return Some(id);
    }

    /** Maps a region page by page into the address space of `pml4`. */
    method Map(shmId: nat, pml4: nat, va: nat) returns (result: Option<nat>, halted: bool)
      requires Valid() && PageAligned(pml4) && IsRoot(machine.lab, pml4 / PAGE_SIZE)
      requires va + PAGE_SIZE - 1 < U64
      requires var i := Position(table, shmId);
        i < |table| ==> PageDown(va) + |table[i].frames| * PAGE_SIZE <= USER_TOP
      modifies this`table, machine.memory, machine.frames`used, machine.frames.bitmap, machine`lab
      ensures Valid()
      ensures var i := Position(old(table), shmId);
        if i == |old(table)| then
          result.None? && !halted && table == old(table) && machine.memory[..] == old(machine.memory[..])
        else if halted then table == old(table) && Free() == {}
        else
          && result == Some(old(table)[i].size)
          && table == old(table)[i := old(table)[i].(refCount := old(table)[i].refCount + 1)]
          && machine.User(pml4 / PAGE_SIZE) == old(machine.User(pml4 / PAGE_SIZE)) + PageMap(PageDown(va) / PAGE_SIZE, old(table)[i].frames)
      ensures forall r :: IsRoot(old(machine.lab), r) && r != pml4 / PAGE_SIZE ==> machine.User(r) == old(machine.User(r))
    {
      hide Intact, MachineOk, Space, FrameSet, TablesGrew, RegionsOk, FramesOk, PageMap, PageDown, Position;
      PageRounding(va);
      var i := Position(table, shmId);
      if i == |table| {
        return None, false;
      }
      halted := MapRegion(i, pml4, PageDown(va));
      return if halted then None else Some(table[i].size), halted;
    }

    method MapRegion(i: nat, pml4: nat, va: nat) returns (halted: bool)
      requires Valid() && PageAligned(pml4) && IsRoot(machine.lab, pml4 / PAGE_SIZE)
      requires i < |table| && PageAligned(va) && va + |table[i].frames| * PAGE_SIZE <= USER_TOP
      modifies this`table, machine.memory, machine.frames`used, machine.frames.bitmap, machine`lab
      ensures Valid()
      ensures halted ==> table == old(table) && Free() == {}
      ensures !halted ==>
        && table == old(table)[i := old(table)[i].(refCount := old(table)[i].refCount + 1)]
        && machine.User(pml4 / PAGE_SIZE) == old(machine.User(pml4 / PAGE_SIZE)) + PageMap(va / PAGE_SIZE, old(table)[i].frames)
      ensures forall r :: IsRoot(old(machine.lab), r) && r != pml4 / PAGE_SIZE ==> machine.User(r) == old(machine.User(r))
    {
      hide Intact, MachineOk, Space, FrameSet, TablesGrew, RegionsOk, FramesOk, PageMap;
      RegionOwns(table, Taken(), nextId, i);
      var ok := MapAll(pml4, va, table[i].frames);
      if !ok {
        return true;
      }
      var region := table[i].(refCount := table[i].refCount + 1);
      RegionChanged(table, Taken(), nextId, i, region);
      table := table[i := region];
      return false;
    }

    /** The mapping loop of `Map`. */
    method MapAll(pml4: nat, va: nat, frames: seq<nat>) returns (ok: bool)
      requires machine.Valid() && PageAligned(pml4) && IsRoot(machine.lab, pml4 / PAGE_SIZE)
      requires FramesOk(frames, Taken()) && PageAligned(va) && va + |frames| * PAGE_SIZE <= USER_TOP
      modifies machine.memory, machine.frames`used, machine.frames.bitmap, machine`lab
      ensures machine.Valid() && Taken() == old(Taken())
      ensures ok ==> machine.User(pml4 / PAGE_SIZE) ==
                     old(machine.User(pml4 / PAGE_SIZE)) + PageMap(va / PAGE_SIZE, frames)
      ensures !ok ==> Free() == {}
      ensures forall r :: IsRoot(old(machine.lab), r) && r != pml4 / PAGE_SIZE ==> machine.User(r) == old(machine.User(r))
    {
      hide Intact, MachineOk, Space, FrameSet, TablesGrew, PageMap;
      ghost var root := pml4 / PAGE_SIZE;
      EmptyPageMap(va / PAGE_SIZE);
      ghost var space0 := machine.User(root);
      for k := 0 to |frames|
        invariant machine.Valid() && Taken() == old(Taken())
        invariant forall r :: IsRoot(old(machine.lab), r) ==> IsRoot(machine.lab, r)
        invariant machine.User(root) == space0 + PageMap(va / PAGE_SIZE, frames[..k])
        invariant forall r :: IsRoot(old(machine.lab), r) && r != root ==> machine.User(r) == old(machine.User(r))
      {
        ok := MapOne(pml4, va + k * PAGE_SIZE, frames[k]);
        if !ok {
          return false;
        }
        assert frames[..k + 1] == frames[..k] + [frames[k]];
        PageMapSnoc(space0, va / PAGE_SIZE, frames[..k], frames[k]);
      }
      assert frames[..|frames|] == frames;
      return true;
    }

    method MapOne(pml4: nat, va: nat, frame: nat) returns (ok: bool)
      requires machine.Valid() && PageAligned(pml4) && IsRoot(machine.lab, pml4 / PAGE_SIZE)
      requires IsUser(va) && PageAligned(frame) && frame / PAGE_SIZE in Taken()
      modifies machine.memory, machine.frames`used, machine.frames.bitmap, machine`lab
      ensures machine.Valid() && Taken() == old(Taken())
      ensures forall r :: IsRoot(old(machine.lab), r) ==> IsRoot(machine.lab, r)
      ensures forall r :: IsRoot(old(machine.lab), r) ==>
        machine.User(r) == if ok && r == pml4 / PAGE_SIZE then old(machine.User(r))[va / PAGE_SIZE := frame / PAGE_SIZE]
                           else old(machine.User(r))
      ensures !ok ==> Free() == {}
    {
      hide Intact, Space, TablesGrew, SameKernelView;
      ghost var m, lab, free := machine.memory[..], machine.lab, Free();
      MachineFacts(m, lab, machine.kernel, machine.pool, free, machine.frames.used);
      hide MachineOk;
      UserFlags();
      ok := machine.MapPageInTable(pml4, va, frame, USER_FLAGS);
      GrownTables(m, lab, free, machine.memory[..], machine.lab, Free());
      GrownTaken(machine.pool, free, lab.Keys, Free(), machine.lab.Keys);
      GrownRoots(m, lab, free, machine.memory[..], machine.lab, Free());
    }

    /** Unmaps a region from the active address space, and removes it when its owner has
        exited and at most one mapping is counted. */
    method Unmap(shmId: nat, va: nat) returns (found: bool)
      requires Valid() && IsRoot(machine.lab, machine.cr3 / PAGE_SIZE) && va + PAGE_SIZE - 1 < U64
      requires var i := Position(table, shmId);
        i < |table| ==> PageDown(va) + |table[i].frames| * PAGE_SIZE <= USER_TOP
      modifies this`table, machine.memory, machine.frames`used, machine.frames.bitmap
      ensures Valid()
      ensures found <==> Position(old(table), shmId) < |old(table)|
      ensures !found ==> table == old(table) && Free() == old(Free()) && machine.memory[..] == old(machine.memory[..])
      ensures found ==>
        var i := Position(old(table), shmId);
        && (table, Free()) == AfterUnmap(old(table), old(Free()), i)
        && machine.User(machine.cr3 / PAGE_SIZE) ==
           old(machine.User(machine.cr3 / PAGE_SIZE)) - PagesAt(PageDown(va) / PAGE_SIZE, |old(table)[i].frames|)
      ensures forall r :: IsRoot(machine.lab, r) && r != machine.cr3 / PAGE_SIZE ==> machine.User(r) == old(machine.User(r))
    {
      hide Intact, MachineOk, Space, FrameSet, TablesGrew, RegionsOk, FramesOk, PagesAt, PageDown;
      PageRounding(va);
      var i := Position(table, shmId);
      if i == |table| {
        return false;
      }
      UnmapAll(PageDown(va), |table[i].frames|);
      DropMapping(i);
      return true;
    }

    /** The unmapping loop of `Unmap`. */
    method UnmapAll(va: nat, n: nat)
      requires machine.Valid() && IsRoot(machine.lab, machine.cr3 / PAGE_SIZE)
      requires PageAligned(va) && va + n * PAGE_SIZE <= USER_TOP
      modifies machine.memory
      ensures machine.Valid()
      ensures machine.User(machine.cr3 / PAGE_SIZE) ==
              old(machine.User(machine.cr3 / PAGE_SIZE)) - PagesAt(va / PAGE_SIZE, n)
      ensures forall r :: IsRoot(machine.lab, r) && r != machine.cr3 / PAGE_SIZE ==> machine.User(r) == old(machine.User(r))
    {
      hide Intact, MachineOk, Space, TablesGrew;
      ghost var root := machine.cr3 / PAGE_SIZE;
      ghost var space0 := machine.User(root);
      for k := 0 to n
        invariant machine.Valid()
        invariant machine.User(root) == space0 - PagesAt(va / PAGE_SIZE, k)
        invariant forall r :: IsRoot(machine.lab, r) && r != root ==> machine.User(r) == old(machine.User(r))
      {
        machine.UnmapPage(va + k * PAGE_SIZE);
        PagesAtSnoc(va / PAGE_SIZE, k);
      }
    }

    /** Counts one mapping less, and frees the region when nobody is left to use it. */
    method DropMapping(i: nat)
      requires Valid() && i < |table|
      modifies this`table, machine.frames`used, machine.frames.bitmap
      ensures Valid() && (table, Free()) == AfterUnmap(old(table), old(Free()), i)
    {
      hide Intact, MachineOk, FrameSet, RegionsOk, FramesOk;
      ghost var t := table;
      assert t[i].refCount == 0 ==> t[i := t[i].(refCount := 0)] == t;
      if table[i].refCount > 0 {
        RegionChanged(table, Taken(), nextId, i, table[i].(refCount := table[i].refCount - 1));
        table := table[i := table[i].(refCount := table[i].refCount - 1)];
      }
      if table[i].refCount <= 1 && table[i].ownerExited {
        assert table[..i] == t[..i] && table[i + 1..] == t[i + 1..];
        Remove(i);
      }
    }

    /** Removes one region and frees its frames. */
    method Remove(i: nat)
      requires Valid() && i < |table|
      modifies this`table, machine.frames`used, machine.frames.bitmap
      ensures Valid() && table == old(table)[..i] + old(table)[i + 1..]
      ensures Free() == old(Free()) + FrameSet(old(table)[i].frames)
    {
      hide Intact, MachineOk, FrameSet, RegionsOk, FramesOk;
      ghost var taken := Taken();
      var removed := table[i];
      RegionOwns(table, taken, nextId, i);
      RegionRemoved(table, taken, nextId, i);
      table := table[..i] + table[i + 1..];
      FreeAll(removed.frames);
      assert Taken() == taken - FrameSet(removed.frames);
    }

    /** Exit of a process: one pass that removes regions while it walks the table. */
    method CleanupProcess(pid: nat)
      requires Valid()
      modifies this`table, machine.frames`used, machine.frames.bitmap
      ensures Valid() && table == Cleaned(old(table), pid)
      ensures Free() == old(Free()) + FreedFrames(old(table), pid)
    {
      hide Intact, MachineOk, FrameSet, RegionsOk, FramesOk, Cleaned, FreedFrames, AfterExit;
      NothingCleaned(pid);
      ghost var t, k := table, 0;
      var i: nat := 0;
      while i < |table|
        invariant Valid() && k <= |t| && i == |Cleaned(t[..k], pid)|
        invariant table == Cleaned(t[..k], pid) + t[k..]
        invariant Free() == old(Free()) + FreedFrames(t[..k], pid)
        decreases |t| - k
      {
        CleanStep(t, k, pid);
        var gone := CleanOne(i, pid);
        if !gone {
          i := i + 1;
        }
        k := k + 1;
      }
      assert t[..k] == t && t[k..] == [];
    }

    /** What one turn of the loop does with the region at hand. */
    method CleanOne(i: nat, pid: nat) returns (gone: bool)
      requires Valid() && i < |table|
      modifies this`table, machine.frames`used, machine.frames.bitmap
      ensures Valid() && (gone <==> AfterExit(old(table)[i], pid).None?)
      ensures table == old(table)[..i] + (if gone then [] else [AfterExit(old(table)[i], pid).value]) + old(table)[i + 1..]
      ensures Free() == old(Free()) + if gone then FrameSet(old(table)[i].frames) else {}
    {
      hide Intact, MachineOk, FrameSet, RegionsOk, FramesOk;
      gone := false;
      if table[i].owner == pid {
        var left := if table[i].refCount > 0 then table[i].refCount - 1 else 0;
        RegionChanged(table, Taken(), nextId, i, table[i].(ownerExited := true, refCount := left));
        table := table[i := table[i].(ownerExited := true, refCount := left)];
        if left == 0 {
          Remove(i);
          return true;
        }
      }
    }
  }

  /** The index of the first region with this id, or the size of the table. */
  function Position(table: seq<SharedRegion>, id: nat): (i: nat)
    ensures i <= |table|
    ensures i < |table| ==> table[i].id == id
    ensures forall k :: 0 <= k < i ==> table[k].id != id
  {
    if table == [] || table[0].id == id then 0 else 1 + Position(table[1..], id)
  }

  predicate Within(p: nat, page: nat, n: nat) {
    page <= p < page + n
  }

  /** Consecutive pages from `page` on, mapped to the listed frames. */
  ghost function PageMap(page: nat, frames: seq<nat>): map<nat, nat> {
    map p: nat | 0 <= p < page + |frames| && Within(p, page, |frames|) :: frames[p - page] / PAGE_SIZE
  }

  /** Page `page + k` leads to the `k`-th frame, and no other page is concerned. */
  lemma PageMapAt(page: nat, frames: seq<nat>, p: nat)
    ensures p in PageMap(page, frames) <==> page <= p < page + |frames|
    ensures p in PageMap(page, frames) ==> PageMap(page, frames)[p] == frames[p - page] / PAGE_SIZE
    ensures p in PagesAt(page, |frames|) <==> page <= p < page + |frames|
  {
  }

  lemma EmptyPageMap(page: nat)
    ensures PageMap(page, []) == map[]
  {
  }

  lemma PageMapSnoc(space: map<nat, nat>, page: nat, frames: seq<nat>, frame: nat)
    ensures space + PageMap(page, frames + [frame]) ==
            (space + PageMap(page, frames))[page + |frames| := frame / PAGE_SIZE]
  {
    var more := frames + [frame];
    assert forall k :: 0 <= k < |frames| ==> more[k] == frames[k];
  }

  lemma RegionOwns(table: seq<SharedRegion>, taken: set<nat>, nextId: nat, i: nat)
    requires RegionsOk(table, taken, nextId) && i < |table|
    ensures FramesOk(table[i].frames, taken)
  {
  }

  lemma NextIdGrows(table: seq<SharedRegion>, taken: set<nat>, nextId: nat)
    requires RegionsOk(table, taken, nextId)
    ensures RegionsOk(table, taken, nextId + 1)
  {
  }

  /** Frames taken from the free set become frames in use. */
  lemma FramesOwned(frames: seq<nat>, free0: set<nat>, pool: set<nat>, tables: set<nat>)
    requires FramesOk(frames, free0) && free0 <= pool && tables !! free0
    ensures FramesOk(frames, FrameSet(frames)) && FrameSet(frames) <= free0
    ensures pool - (free0 - FrameSet(frames)) - tables == (pool - free0 - tables) + FrameSet(frames)
    ensures FramesOk(frames, pool - (free0 - FrameSet(frames)) - tables)
    ensures (pool - free0 - tables) !! FrameSet(frames)
    ensures free0 - FrameSet(frames) + FrameSet(frames) == free0
  {
    FramesWithin(frames, free0);
    forall k | 0 <= k < |frames|
      ensures frames[k] / PAGE_SIZE in FrameSet(frames)
    {
      InFrameSet(frames, k);
    }
  }

  /** The table and the free frames after one region is unmapped once. */
  ghost function AfterUnmap(table: seq<SharedRegion>, free: set<nat>, i: nat): (seq<SharedRegion>, set<nat>)
    requires i < |table|
  {
    var r := table[i];
    var left := if r.refCount > 0 then r.refCount - 1 else 0;
    if left <= 1 && r.ownerExited then (table[..i] + table[i + 1..], free + FrameSet(r.frames))
    else (table[i := r.(refCount := left)], free)
  }

  ghost function PagesAt(page: nat, n: nat): set<nat> {
    set p: nat | 0 <= p < page + n && Within(p, page, n)
  }

  lemma PagesAtSnoc(page: nat, n: nat)
    ensures PagesAt(page, n + 1) == PagesAt(page, n) + {page + n}
  {
    assert Within(page + n, page, n + 1);
  }

  /** The table ends with a new unmapped region of zeroed frames that were free. */
  ghost predicate Entered(before: seq<SharedRegion>, after: seq<SharedRegion>, id: nat, owner: nat, size: nat,
      free0: set<nat>, free: set<nat>, m: seq<byte>) {
    && |after| == |before| + 1 && after[..|before|] == before
    && var r := after[|before|];
      && r == SharedRegion(id, r.frames, size, 0, owner, false)
      && |r.frames| * PAGE_SIZE == size
      && FramesOk(r.frames, free0)
      && free == free0 - FrameSet(r.frames)
      && Zeroed(m, FrameSet(r.frames))
  }

  lemma NowEntered(before: seq<SharedRegion>, r: SharedRegion, free0: set<nat>, m: seq<byte>)
    requires r.refCount == 0 && !r.ownerExited && |r.frames| * PAGE_SIZE == r.size
    requires FramesOk(r.frames, free0) && Zeroed(m, FrameSet(r.frames))
    ensures Entered(before, before + [r], r.id, r.owner, r.size, free0, free0 - FrameSet(r.frames), m)
  {
  }

  /** Every byte of these frames is zero. */
  ghost predicate Zeroed(m: seq<byte>, frames: set<nat>) {
    forall a: nat {:trigger m[a]} :: a < |m| && a / PAGE_SIZE in frames ==> m[a] == 0
  }

  /** Only bytes of these frames differ. */
  ghost predicate OnlyTouches(m: seq<byte>, n: seq<byte>, frames: set<nat>) {
    && |n| == |m|
    && forall a: nat {:trigger n[a]} :: a < |m| && a / PAGE_SIZE !in frames ==> n[a] == m[a]
  }

  lemma MachineFacts(m: seq<byte>, lab: Labels, kernel: set<(nat, nat)>, pool: set<nat>, free: set<nat>, used: nat)
    requires MachineOk(m, lab, kernel, pool, free, used)
    ensures free <= pool && lab.Keys !! free
  {
  }

  lemma NoFrames(m: seq<byte>, free: set<nat>)
    ensures FramesOk([], free) && FrameSet([]) == {} && Zeroed(m, {}) && OnlyTouches(m, m, free)
  {
  }

  lemma AllTaken(frames: seq<nat>, free0: set<nat>)
    requires FramesOk(frames, free0)
    ensures |frames| <= |free0|
  {
    hide FrameSet, FramesOk;
    FramesCounted(frames, free0);
    FramesWithin(frames, free0);
    var own := FrameSet(frames);
    assert free0 == own + (free0 - own);
  }

  lemma FramesWithin(frames: seq<nat>, taken: set<nat>)
    requires FramesOk(frames, taken)
    ensures FrameSet(frames) <= taken
  {
    forall f
      ensures f in FrameSet(frames) ==> f in taken
    {
      if f in FrameSet(frames) {
        var a :| a in frames && a / PAGE_SIZE == f;
        var k :| 0 <= k < |frames| && frames[k] == a;
      }
    }
  }

  lemma NoneLeft(frames: seq<nat>, free0: set<nat>, pool: set<nat>, tables: set<nat>)
    requires FramesOk(frames, free0) && free0 - FrameSet(frames) == {} && free0 <= pool && tables !! free0
    ensures FrameSet(frames) == free0 && |free0| == |frames|
    ensures FramesOk(frames, pool - {} - tables)
  {
    hide FrameSet, FramesOk;
    FramesCounted(frames, free0);
    FramesWithin(frames, free0);
    forall f
      ensures f in FrameSet(frames) <==> f in free0
    {
      assert f in free0 && f !in FrameSet(frames) ==> f in free0 - FrameSet(frames);
    }
    SameFrames(frames, free0, pool - {} - tables);
  }

  lemma SameFrames(frames: seq<nat>, taken: set<nat>, more: set<nat>)
    requires FramesOk(frames, taken) && taken <= more
    ensures FramesOk(frames, more)
  {
  }

  lemma TakenFromFree(frames: seq<nat>, free0: set<nat>, frame: nat)
    requires FramesOk(frames, free0) && PageAligned(frame) && frame / PAGE_SIZE in free0 - FrameSet(frames)
    ensures FramesOk(frames + [frame], free0)
    ensures free0 - FrameSet(frames + [frame]) == free0 - FrameSet(frames) - {frame / PAGE_SIZE}
    ensures frame == frame / PAGE_SIZE * PAGE_SIZE
  {
    FrameSetSnoc(frames, frame);
    forall k | 0 <= k < |frames|
      ensures frames[k] != frame
    {
      InFrameSet(frames, k);
    }
  }

  lemma FrameCleared(m0: seq<byte>, m: seq<byte>, n: seq<byte>, frames: seq<nat>, free0: set<nat>, frame: nat)
    requires Stored(m, frame, Zeros(PAGE_SIZE), n) && PageAligned(frame) && frame / PAGE_SIZE in free0
    requires Zeroed(m, FrameSet(frames)) && OnlyTouches(m0, m, free0)
    ensures Zeroed(n, FrameSet(frames + [frame])) && OnlyTouches(m0, n, free0)
  {
    FrameSetSnoc(frames, frame);
    hide FrameSet;
    forall a: nat | a < |n|
      ensures n[a] == if a / PAGE_SIZE == frame / PAGE_SIZE then 0 else m[a]
    {
      assert a / PAGE_SIZE == frame / PAGE_SIZE <==> frame <= a < frame + PAGE_SIZE;
    }
    hide Stored;
  }

  // ---------- Freed frames that are still mapped ----------

  predicate MapsSome(space: map<nat, nat>, frames: set<nat>) {
    exists p :: p in space && space[p] in frames
  }

  /** The live address spaces that map some of these frames. */
  ghost function Mappers(spaces: Spaces, live: set<nat>, frames: set<nat>): set<nat> {
    set r | r in live && r in spaces && MapsSome(spaces[r], frames)
  }

  /** The counter of the region is the number of live address spaces that map it. */
  ghost predicate Counted(r: SharedRegion, spaces: Spaces, live: set<nat>) {
    r.refCount == |Mappers(spaces, live, FrameSet(r.frames))|
  }

  lemma MappersWithout(spaces: Spaces, live: set<nat>, frames: set<nat>, root: nat)
    ensures Mappers(spaces, live - {root}, frames) == Mappers(spaces, live, frames) - {root}
  {
    hide MapsSome;
  }

  lemma OneLess(a: set<nat>, x: nat)
    ensures |a - {x}| == if x in a then |a| - 1 else |a|
  {
    if x in a {
      assert a == (a - {x}) + {x};
    } else {
      assert a - {x} == a;
    }
  }

  /** Mapping a region keeps its counter exact if and only if the address space did not map
      it before (and it has a frame). */
  lemma MapCountsIff(r: SharedRegion, spaces: Spaces, live: set<nat>, root: nat, page: nat)
    requires Counted(r, spaces, live) && root in live && root in spaces
    ensures Counted(r.(refCount := r.refCount + 1), spaces[root := spaces[root] + PageMap(page, r.frames)], live) <==>
      root !in Mappers(spaces, live, FrameSet(r.frames)) && r.frames != []
  {
    hide FrameSet, MapsSome;
    var f, after := FrameSet(r.frames), spaces[root := spaces[root] + PageMap(page, r.frames)];
    if r.frames == [] {
      NoFramesNoMapper(spaces, live);
      NoFramesNoMapper(after, live);
    } else {
      MappedSome(spaces[root], page, r.frames);
      assert Mappers(after, live, f) == Mappers(spaces, live, f) + {root};
      hide Mappers;
      var mappers := Mappers(spaces, live, f);
      assert root in mappers ==> mappers + {root} == mappers;
    }
  }

  lemma NoFramesNoMapper(spaces: Spaces, live: set<nat>)
    ensures Mappers(spaces, live, FrameSet([])) == {}
  {
  }

  lemma MappedSome(space: map<nat, nat>, page: nat, frames: seq<nat>)
    requires frames != []
    ensures MapsSome(space + PageMap(page, frames), FrameSet(frames))
  {
    InFrameSet(frames, 0);
    assert Within(page, page, |frames|) && (space + PageMap(page, frames))[page] == frames[0] / PAGE_SIZE;
  }

  /** Unmapping a region that stays keeps its counter exact. */
  lemma UnmapCounts(table: seq<SharedRegion>, free: set<nat>, i: nat, spaces: Spaces, live: set<nat>, root: nat, pages: set<nat>)
    requires i < |table| && Counted(table[i], spaces, live) && root in spaces
    requires root in Mappers(spaces, live, FrameSet(table[i].frames)) && !MapsSome(spaces[root] - pages, FrameSet(table[i].frames))
    ensures var after := AfterUnmap(table, free, i).0;
      |after| == |table| ==>
        && after == table[i := table[i].(refCount := after[i].refCount)]
        && Counted(after[i], spaces[root := spaces[root] - pages], live) && AfterUnmap(table, free, i).1 == free
  {
    hide FrameSet, MapsSome;
    var f, after := FrameSet(table[i].frames), spaces[root := spaces[root] - pages];
    assert Mappers(after, live, f) == Mappers(spaces, live, f) - {root};
    hide Mappers;
    OneLess(Mappers(spaces, live, f), root);
  }

  /** The exit of the owner keeps the counter of a region that stays exact if and only if the
      owner itself mapped it. */
  lemma ExitCountsIff(r: SharedRegion, pid: nat, spaces: Spaces, live: set<nat>, root: nat)
    requires r.owner == pid && Counted(r, spaces, live) && AfterExit(r, pid).Some?
    ensures Counted(AfterExit(r, pid).value, spaces, live - {root}) <==> root in Mappers(spaces, live, FrameSet(r.frames))
  {
    hide Mappers, FrameSet;
    MappersWithout(spaces, live, FrameSet(r.frames), root);
    OneLess(Mappers(spaces, live, FrameSet(r.frames)), root);
  }

  /** The exit of the owner frees a region that another live process still maps, if and
      only if the owner itself does not map it and exactly one process does. */
  lemma ExitFreesMappedIff(r: SharedRegion, pid: nat, spaces: Spaces, live: set<nat>, root: nat)
    requires r.owner == pid && Counted(r, spaces, live)
    ensures var mappers := Mappers(spaces, live, FrameSet(r.frames));
      AfterExit(r, pid).None? && Mappers(spaces, live - {root}, FrameSet(r.frames)) != {} <==>
      root !in mappers && |mappers| == 1
  {
    hide Mappers, FrameSet;
    var mappers := Mappers(spaces, live, FrameSet(r.frames));
    MappersWithout(spaces, live, FrameSet(r.frames), root);
    OneLess(mappers, root);
    assert mappers - {root} == {} <==> |mappers - {root}| == 0;
  }

  /** Unmapping a region from the space of `root` frees it while another process still
      maps it, if and only if its owner has exited and exactly two processes mapped it. */
  lemma UnmapFreesMappedIff(table: seq<SharedRegion>, free: set<nat>, i: nat, spaces: Spaces, live: set<nat>, root: nat, pages: set<nat>)
    requires i < |table| && Counted(table[i], spaces, live) && root in spaces
    requires root in Mappers(spaces, live, FrameSet(table[i].frames)) && !MapsSome(spaces[root] - pages, FrameSet(table[i].frames))
    ensures var after := spaces[root := spaces[root] - pages];
      AfterUnmap(table, free, i).0 == table[..i] + table[i + 1..] && Mappers(after, live, FrameSet(table[i].frames)) != {} <==>
      table[i].ownerExited && |Mappers(spaces, live, FrameSet(table[i].frames))| == 2
  {
    hide FrameSet, MapsSome;
    var f, after := FrameSet(table[i].frames), spaces[root := spaces[root] - pages];
    assert Mappers(after, live, f) == Mappers(spaces, live, f) - {root};
    hide Mappers;
    OneLess(Mappers(spaces, live, f), root);
    assert Mappers(after, live, f) == {} <==> |Mappers(after, live, f)| == 0;
  }

  ghost predicate FreedWhileMapped(r: SharedRegion, pid: nat, spaces: Spaces, live: set<nat>) {
    r.owner == pid && r.refCount <= 1 && Mappers(spaces, live, FrameSet(r.frames)) != {}
  }

  /** The cleanup at the exit of `pid` frees a mapped frame if and only if it removes a
      region that is mapped: one of its own, with a counter of at most one. */
  lemma CleanupFreesMappedIff(table: seq<SharedRegion>, pid: nat, spaces: Spaces, live: set<nat>)
    ensures Mappers(spaces, live, FreedFrames(table, pid)) != {} <==>
      exists i :: 0 <= i < |table| && FreedWhileMapped(table[i], pid, spaces, live)
  {
    hide FrameSet, FreedFrames;
    var freed := FreedFrames(table, pid);
    if r :| r in Mappers(spaces, live, freed) {
      var p :| p in spaces[r] && spaces[r][p] in freed;
      FreedIffRemoved(table, pid, spaces[r][p]);
      var i :| 0 <= i < |table| && AfterExit(table[i], pid).None? && spaces[r][p] in FrameSet(table[i].frames);
      assert r in Mappers(spaces, live, FrameSet(table[i].frames));
      assert FreedWhileMapped(table[i], pid, spaces, live);
    }
    if i :| 0 <= i < |table| && FreedWhileMapped(table[i], pid, spaces, live) {
      var r :| r in Mappers(spaces, live, FrameSet(table[i].frames));
      var p :| p in spaces[r] && spaces[r][p] in FrameSet(table[i].frames);
      FreedIffRemoved(table, pid, spaces[r][p]);
      assert AfterExit(table[i], pid).None?;
      assert r in Mappers(spaces, live, freed);
    }
  }

  /** An owner with pid 9 that never mapped its region, and one process, with root 2, that did. */
  const LENT: SharedRegion := SharedRegion(1, [7 * PAGE_SIZE], PAGE_SIZE, 1, 9, false)

  lemma LentRegionIsFreed()
    ensures var spaces, live := map[1 := map[], 2 := map[5 := 7]], {1, 2};
      && Counted(LENT, spaces, live) && Cleaned([LENT], 9) == [] && FreedFrames([LENT], 9) == {7}
      && Mappers(spaces, live - {1}, FreedFrames([LENT], 9)) == {2}
  {
    var spaces: Spaces, live := map[1 := map[], 2 := map[5 := 7]], {1, 2};
    assert LENT.frames[0] in LENT.frames && FrameSet(LENT.frames) == {7};
    assert spaces[2][5] == 7;
    assert Mappers(spaces, live, {7}) == {2};
    assert [LENT][..0] == [];
  }
}
