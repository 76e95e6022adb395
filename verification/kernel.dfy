/** The kernel proper: the interrupt handler and the blocking system calls as
    methods over the process table, the message queues and user memory. Each one
    performs one step of the system and keeps frames isolated. */
module Kernels {
  import opened Bits
  import opened Bytes
  import opened Elf
  import opened Frames
  import opened PageTree
  import opened Translation
  import opened Mapping
  import opened Paging
  import opened Vmas
  import opened Ipc
  import opened Processes
  import opened Ownership
  import opened Worlds
  import opened Losses
  import opened UserMemory
  import opened System
  import opened Calls
  import opened Loader

  const SYS_MMAP: nat := 9
  const SYS_MUNMAP: nat := 10
  const SYS_SBRK: nat := 11
  const KEYBOARD_PID: nat := 3
  const MOUSE_PID: nat := 4
  const MSG_HARDWARE_INTERRUPT: nat := 0x30
  const MSG_MOUSE_PACKET: nat := 0x40

  /** One message queue per pid below 64. */
  class IpcQueues {
    const queues: array<MessageQueue>
    // The queue objects and their ring arrays.
    ghost const repr: set<object>

    ghost predicate Valid()
      reads queues, repr
    {
      && queues.Length == QUEUES && queues !in repr
      && (forall i, j :: 0 <= i < j < QUEUES ==> queues[i] != queues[j] && queues[i].messages != queues[j].messages)
      && (forall i :: 0 <= i < QUEUES ==> queues[i] in repr && queues[i].messages in repr && queues[i].Valid())
    }

    ghost function View(): Queues
      requires Valid()
      reads queues, repr
    {
      seq(QUEUES, i requires 0 <= i < QUEUES && Valid() reads queues, repr => queues[i].Contents())
    }

    constructor ()
      ensures Valid() && fresh(repr) && View() == seq(QUEUES, _ => [])
    {
      var made: seq<MessageQueue> := [];
      ghost var objects: set<object> := {};
      for k := 0 to QUEUES
        invariant |made| == k && fresh(objects)
        invariant forall q :: q in made ==> q in objects && q.messages in objects && q.Valid() && q.Contents() == []
        invariant forall i, j :: 0 <= i < j < k ==> made[i] != made[j] && made[i].messages != made[j].messages
      {
        var q := new MessageQueue();
        assert q !in objects && q.messages !in objects;
        made := made + [q];
        objects := objects + {q, q.messages};
      }
      var all := new MessageQueue[QUEUES](i requires 0 <= i < |made| => made[i]);
      queues, repr := all, objects;
    }

    method Offer(to: nat, m: Message) returns (ok: bool)
      requires Valid() && to < QUEUES
      modifies repr
      ensures Valid() && ok == Accepts(old(View())[to], m)
      ensures View() == old(View())[to := Pushed(old(View())[to], m)]
    {
      ghost var before := View();
      ok := queues[to].Push(m);
      assert forall i :: 0 <= i < QUEUES && i != to ==> queues[i].Contents() == before[i];
      assert queues[to].Contents() == Pushed(before[to], m);
    }

    method TakeFrom(pid: nat) returns (r: Option<Message>)
      requires Valid() && pid < QUEUES
      modifies repr
      ensures Valid()
      ensures r.None? <==> old(View())[pid] == []
      ensures r.None? ==> View() == old(View())
      ensures r.Some? ==> old(View())[pid] != [] && r.value == old(View())[pid][0]
      ensures r.Some? ==> View() == old(View())[pid := old(View())[pid][1..]]
    {
      ghost var before := View();
      r := queues[pid].Pop();
      assert forall i :: 0 <= i < QUEUES && i != pid ==> queues[i].Contents() == before[i];
      if r.Some? {
        assert queues[pid].Contents() == before[pid][1..];
      } else {
        assert queues[pid].Contents() == before[pid];
      }
    }
  }

  // ---------- Steps do not concern memory, except exit ----------

  ghost predicate SameMemories(t: Table, u: Table) {
    forall i :: 0 <= i < MAX_PROCESSES ==> SameMemory(t[i], u[i])
  }

  lemma CtxSameMemories(s: Sys, r: Regs, v: nat)
    ensures SameMemories(s.table, WithCtx(s, r).table) && SameMemories(s.table, SetRax(s, v).table)
  {
  }

  lemma ScheduleSameMemories(s: Sys)
    ensures SameMemories(s.table, System.Schedule(s).table)
  {
  }

  lemma UnblockSameMemories(t: Table, pid: nat)
    ensures SameMemories(t, Unblock(t, pid))
  {
  }

  lemma BlockSameMemories(s: Sys, r: Regs, waitingFor: Option<nat>)
    requires s.current != 0 && Current(s).Some? ==> IsLive(s.table[Current(s).value])
    ensures SameMemories(s.table, BlockedOn(s, r, waitingFor).table)
  {
  }

  lemma ReapSameMemories(t: Table, c: nat)
    requires InState(t, c, Dead)
    ensures SameMemories(t, WithState(t, c, Empty))
  {
  }

  /** The frames after the current process of `s` exits: exactly those of its pages are
      free again, and no process still live uses any of them. */
  ghost predicate ExitReclaims(s: Sys, code: nat, spaces: Spaces, free: set<nat>, used: nat, free': set<nat>, used': nat) {
    Current(s).Some?
    && Reclaimed(s.table, Current(s).value, spaces, free, used, Exited(s.table, s.current, code), free', used')
  }

  /** The frames after a system call: only SYS_EXIT moves any. */
  ghost predicate CallReclaims(s: Sys, r: Regs, spaces: Spaces, free: set<nat>, used: nat, free': set<nat>, used': nat) {
    if r.rax == SYS_EXIT then ExitReclaims(s, r.arg1, spaces, free, used, free', used') else free' == free && used' == used
  }

  /** A page fault of the process with address space `root` was served: its page has
      the lowest free frame, zeroed, and no other page or byte in use changed. */
  ghost predicate PageServed(m: seq<byte>, spaces: Spaces, taken: set<nat>, free: set<nat>, n: seq<byte>, spaces': Spaces,
      taken': set<nat>, root: nat, page: nat) {
    root in spaces && exists g ::
      && LeastFree(free, g) && g !in taken && taken' == taken + {g}
      && spaces' == spaces[root := MapIn(spaces[root], page, g)] && SameBytes(m, n, taken) && Zeroed(n, g)
  }

  /** The scheduler: the process table and the active address space. */
  class Cpu {
    const user: AddressSpaces
    const kernelPml4: nat

    constructor (u: AddressSpaces, bootPml4: nat)
      ensures user == u && kernelPml4 == bootPml4
    {
      user, kernelPml4 := u, bootPml4;
    }

    ghost predicate Valid()
      reads user, user.procs, user.procs.slots, user.machine, user.machine.memory, user.machine.frames, user.machine.frames.bitmap
    {
      user.Valid() && PageAligned(kernelPml4) && (0, kernelPml4 / PAGE_SIZE) in user.machine.kernel
    }

    /** The system with the given queues. */
    ghost function With(queues: Queues): Sys
      requires user.procs.Valid()
      reads user.procs, user.procs.slots
    {
      Sys(user.procs.View(), user.procs.current, user.procs.nextPid, queues)
    }

    /** `schedule`: the current process yields, the next ready one in slot order runs
        in its own address space; with none ready the kernel idles. */
    method Schedule(ghost queues: Queues)
      requires Valid() && Consistent(With(queues)) && (user.procs.current != 0 ==> Current(With(queues)).Some?)
      modifies user.procs.slots, user.procs`current, user.machine`cr3
      ensures Valid() && With(queues) == System.Schedule(old(With(queues)))
      ensures user.procs.current != 0 ==> user.CurrentActive()
      ensures Moves(old(user.Now()), Reschedule, user.Now())
    {
      hide FindFrom, And, Or, Space, MachineOk, ProcessesOwn, Consistent, NextReadySlot, SameMemories, Yielded, System.Schedule;
      ghost var s, w := With(queues), user.Now();
      ScheduleSameMemories(s);
      ScheduleParts(s);
      var oldPid := user.procs.current;
      YieldCurrent(queues);
      var next := user.procs.NextReady(oldPid);
      match next {
        case None =>
          user.procs.current := 0;
        case Some(pid) =>
          Dispatch(pid, NextReadySlot(Yielded(s), oldPid).value, w);
      }
      RescheduleMoves(w, user.Now());
    }

    /** Between steps: the system invariant, and the active space is the current one. */
    ghost predicate Settled(queues: Queues)
      reads user, user.procs, user.procs.slots, user.machine, user.machine.memory, user.machine.frames, user.machine.frames.bitmap
    {
      Valid() && SysOk(With(queues)) && (user.procs.current != 0 ==> user.CurrentActive())
    }

    lemma SettledFacts(queues: Queues)
      requires Settled(queues)
      ensures SysOk(With(queues)) && Valid() && user.Valid() && user.procs.Valid()
    {
    }

    lemma SettledFrames(queues: Queues)
      requires Settled(queues)
      ensures SysOk(With(queues)) && user.procs.Valid() && user.machine.frames.Valid()
    {
    }

    lemma SettledAgain(queues: Queues, queues': Queues)
      requires Settled(queues) && SysOk(With(queues'))
      ensures Settled(queues')
    {
    }

    /** The interrupt frame pushed on the kernel stack of the current process. */
    method SaveContext(regs: Regs, ghost queues: Queues)
      requires Settled(queues)
      modifies user.procs.slots
      ensures Settled(queues) && With(queues) == WithCtx(old(With(queues)), regs)
      ensures Moves(old(user.Now()), Reschedule, user.Now())
    {
      hide FindFrom, And, Or, Space, MachineOk, ProcessesOwn, SameMemories, SysOk;
      ghost var s, w := With(queues), user.Now();
      WithCtxOk(s, regs);
      CtxSameMemories(s, regs, 0);
      if user.procs.current != 0 {
        CurrentSlot(s);
        var found := user.procs.GetProcess(user.procs.current);
        var c := found.value;
        var p := user.procs.slots[c].value;
        user.procs.slots[c] := Some(p.(ctx := regs));
        SameFind(s.table, c, p.(ctx := regs), user.procs.current);
      }
      RescheduleMoves(w, user.Now());
    }

    /** The value that the current call returns in rax. */
    method Return(v: nat, ghost queues: Queues)
      requires Settled(queues)
      modifies user.procs.slots
      ensures Settled(queues) && With(queues) == SetRax(old(With(queues)), v)
      ensures Moves(old(user.Now()), Reschedule, user.Now())
    {
      hide FindFrom, SysOk, ProcessesOwn, Moves;
      if user.procs.current != 0 {
        CurrentSlot(With(queues));
        var found := user.procs.GetProcess(user.procs.current);
        SaveContext(user.procs.slots[found.value].value.ctx.(rax := v), queues);
      } else {
        ghost var w := user.Now();
        SameMemoriesSelf(w.table);
        RescheduleMoves(w, w);
      }
    }

    /** `block_current` and the restart by `rip -= 2`, for receive and for waitpid. */
    method Block(r: Regs, waitingFor: Option<nat>, ghost queues: Queues)
      requires Settled(queues) && user.procs.current != 0
      modifies user.procs.slots
      ensures Valid() && With(queues) == BlockedOn(old(With(queues)), r, waitingFor)
      ensures Moves(old(user.Now()), Reschedule, user.Now())
    {
      hide FindFrom, And, Or, Space, MachineOk, ProcessesOwn, SameMemories, SysOk;
      ghost var s, w := With(queues), user.Now();
      CurrentSlot(s);
      BlockSameMemories(s, r, waitingFor);
      var found := user.procs.GetProcess(user.procs.current);
      var c := found.value;
      var p := user.procs.slots[c].value;
      user.procs.slots[c] := Some(p.(state := Blocked, ctx := r.(rip := Rewound(r.rip)),
        waitingFor := if waitingFor.Some? then waitingFor else p.waitingFor));
      RescheduleMoves(w, user.Now());
    }

    /** `scheduler::unblock`, for the receiver of a message just queued. */
    method Wake(to: nat, ghost queues: Queues, ghost queues': Queues, ghost m: Message)
      requires Settled(queues) && 0 < to < QUEUES && Accepts(queues[to], m)
      requires queues' == queues[to := Pushed(queues[to], m)]
      modifies user.procs.slots
      ensures Settled(queues') && With(queues') == Sent(old(With(queues)), to, m).0
    {
      hide FindFrom, And, Or, Space, MachineOk, ProcessesOwn, SysOk, Moves, Accepts, Pushed, Unblock, SameMemories;
      ghost var s, w := With(queues), user.Now();
      SentSettled(s, to, m);
      user.procs.UnblockPid(to);
      RescheduleMoves(w, user.Now());
    }

    // ---------- Steps that leave the queues alone ----------

    /** The timer interrupt. */
    method Tick(regs: Regs, ghost queues: Queues)
      requires Settled(queues)
      modifies user.procs.slots, user.procs`current, user.machine`cr3
      ensures Settled(queues) && With(queues) == Step(old(With(queues)), Event.Tick(regs))
    {
      hide FindFrom, SysOk, ProcessesOwn, Moves, System.Schedule, WithCtx, Consistent, Current;
      ghost var s := With(queues);
      StepOk(s, Event.Tick(regs));
      SaveContext(regs, queues);
      ReadyToSchedule(With(queues));
      Schedule(queues);
    }

    /** SYS_EXIT, and the end of a process killed by a fault. */
    method ExitCurrent(code: nat, ghost queues: Queues)
      requires Settled(queues) && user.procs.current != 0
      modifies user.procs.slots, user.procs`current, user.machine`cr3, user.machine.frames`used, user.machine.frames.bitmap
      ensures Settled(queues) && With(queues) == Exit(old(With(queues)), code)
      ensures ExitReclaims(old(With(queues)), code, old(user.Spaces()), old(user.machine.frames.Free()),
        old(user.machine.frames.used), user.machine.frames.Free(), user.machine.frames.used)
      ensures DeadTables(user.Now()) == DeadTables(old(user.Now())) +
        TreeOf(old(user.Trees()), RootOf(old(user.procs.View()[Current(With(queues)).value]).value))
    {
      hide FindFrom, SysOk, ProcessesOwn, Moves, System.Schedule, Consistent, Exited, Reclaimed, MachineOk, Grounded,
        DeadTables, TreeOf;
      ghost var s, w := With(queues), user.Now();
      RootedTrees(w.m, user.machine.lab);
      CurrentSlot(s);
      ExitOk(s, code);
      ExitedReady(s, code);
      user.ExitProcess(user.procs.current, code);
      ghost var v := user.Now();
      Schedule(queues);
      ExitBuries(w, Current(s).value, v, user.Now());
    }

    /** The blocking branch of SYS_RECV. */
    method WaitForMessage(r: Regs, ghost queues: Queues)
      requires Settled(queues) && user.procs.current != 0 && r.rax == SYS_RECV && r.arg2 != 1
      requires user.procs.current < QUEUES ==> queues[user.procs.current] == []
      modifies user.procs.slots, user.procs`current, user.machine`cr3
      ensures Settled(queues) && With(queues) == System.Receive(old(With(queues)), r)
      ensures var s, c := old(With(queues)), Current(old(With(queues))).value;
        IsCurrent(s, c) && Blocks(s, c, r, s.table[c].value.waitingFor, With(queues))
    {
      hide FindFrom, SysOk, ProcessesOwn, Moves, System.Schedule, Consistent, BlockedOn, Blocks;
      ghost var s := With(queues);
      ReceiveBlocksNow(s, r);
      ReceiveOk(s, r);
      BlockedOnOk(s, r, None);
      Block(r, None, queues);
      Schedule(queues);
    }

    /** The calls that use no queue: exit, yield, waitpid and unknown numbers. */
    method OtherCall(r: Regs, ghost queues: Queues)
      requires Settled(queues) && user.procs.current != 0 && r.rax != SYS_SEND && r.rax != SYS_RECV
      modifies user.procs.slots, user.procs`current, user.machine`cr3, user.machine.frames`used, user.machine.frames.bitmap
      ensures Settled(queues) && With(queues) == System.SystemCall(old(With(queues)), r)
      ensures CallReclaims(old(With(queues)), r, old(user.Spaces()), old(user.machine.frames.Free()),
        old(user.machine.frames.used), user.machine.frames.Free(), user.machine.frames.used)
    {
      hide FindFrom, SysOk, ProcessesOwn, Moves, System.Schedule, Consistent, Exit, System.WaitPid, SetRax, ExitReclaims;
      if r.rax == SYS_EXIT {
        ExitCurrent(r.arg1, queues);
      } else if r.rax == SYS_YIELD {
        ReadyToSchedule(With(queues));
        ScheduleKeepsOk(With(queues));
        Schedule(queues);
      } else if r.rax == SYS_WAITPID {
        WaitPid(r, queues);
      } else {
        Return(U64_MAX, queues);
      }
    }

    /** SYS_WAITPID. */
    method WaitPid(r: Regs, ghost queues: Queues)
      requires Settled(queues) && user.procs.current != 0 && r.rax == SYS_WAITPID
      modifies user.procs.slots, user.procs`current, user.machine`cr3
      ensures Settled(queues) && With(queues) == System.WaitPid(old(With(queues)), r)
    {
      hide FindFrom, SysOk, ProcessesOwn, Moves, System.Schedule, Consistent, SetRax, BlockedOn, SameMemories;
      ghost var s, w := With(queues), user.Now();
      WaitPidOk(s, r);
      CurrentSlot(s);
      var child := user.procs.GetProcess(r.arg1);
      match child {
        case None => Return(U64_MAX, queues);
        case Some(i) =>
          var p := user.procs.slots[i].value;
          if p.state == Dead {
            ReapOk(s, i);
            user.procs.SetState(i, Empty);
            RescheduleMoves(w, user.Now());
            Return(if p.exitCode.Some? then p.exitCode.value else 0, queues);
          } else {
            BlockedOnOk(s, r, Some(r.arg1));
            Block(r, Some(r.arg1), queues);
            Schedule(queues);
          }
      }
    }

    /** The user page-fault branch: demand paging, or the end of the process. */
    method Fault(regs: Regs, cr2: nat, ghost queues: Queues) returns (served: bool, halted: bool)
      requires Settled(queues) && user.procs.current != 0
      modifies user.procs.slots, user.procs`current, user.machine`cr3
      modifies user.machine.memory, user.machine.frames`used, user.machine.frames.bitmap, user.machine`lab
      ensures halted || (Settled(queues) && With(queues) == Step(old(With(queues)), Event.Fault(regs, served)))
      ensures served || halted <==>
        && Covered(old(user.procs.View()[Current(With(queues)).value]).value.vmas, cr2)
        && old(user.machine.frames.Free()) != {}
      ensures user.Valid()
      ensures served ==> PageServed(old(user.machine.memory[..]), old(user.Spaces()), old(user.Taken()),
        old(user.machine.frames.Free()), user.machine.memory[..], user.Spaces(), user.Taken(),
        RootOf(old(user.procs.View()[Current(With(queues)).value]).value), cr2 / PAGE_SIZE)
      ensures !served && !halted ==> ExitReclaims(WithCtx(old(With(queues)), regs), U64_MAX, old(user.Spaces()),
        old(user.machine.frames.Free()), old(user.machine.frames.used), user.machine.frames.Free(), user.machine.frames.used)
    {
      hide FindFrom, SysOk, ProcessesOwn, Moves, Exit, MachineOk, Covered, WithCtx, PageServed, ExitReclaims;
      ghost var s := With(queues);
      CurrentSlot(s);
      CtxKeepsMemory(s, regs);
      SaveContext(regs, queues);
      served, halted := FaultSaved(cr2, queues);
    }

    /** The fault itself, once the frame is saved. */
    method FaultSaved(cr2: nat, ghost queues: Queues) returns (served: bool, halted: bool)
      requires Settled(queues) && user.procs.current != 0
      modifies user.procs.slots, user.procs`current, user.machine`cr3
      modifies user.machine.memory, user.machine.frames`used, user.machine.frames.bitmap, user.machine`lab
      ensures user.Valid()
      ensures halted || (Settled(queues) && With(queues) == if served then old(With(queues)) else Exit(old(With(queues)), U64_MAX))
      ensures served || halted <==>
        && Covered(old(user.procs.View()[Current(With(queues)).value]).value.vmas, cr2)
        && old(user.machine.frames.Free()) != {}
      ensures served ==> PageServed(old(user.machine.memory[..]), old(user.Spaces()), old(user.Taken()),
        old(user.machine.frames.Free()), user.machine.memory[..], user.Spaces(), user.Taken(),
        RootOf(old(user.procs.View()[Current(With(queues)).value]).value), cr2 / PAGE_SIZE)
      ensures !served && !halted ==> ExitReclaims(old(With(queues)), U64_MAX, old(user.Spaces()),
        old(user.machine.frames.Free()), old(user.machine.frames.used), user.machine.frames.Free(), user.machine.frames.used)
    {
      hide FindFrom, SysOk, ProcessesOwn, Moves, System.Schedule, Consistent, Exit, MachineOk, Covered, ExitReclaims, PageServed,
        FaultTaken, Grounded;
      ghost var w, free := user.Now(), user.machine.frames.Free();
      CurrentSlot(With(queues));
      MachineUsed(w.m, user.machine.lab, user.machine.kernel, user.machine.pool, free, user.machine.frames.used);
      served, halted := user.PageFault(cr2);
      MachineUsed(user.machine.memory[..], user.machine.lab, user.machine.kernel, user.machine.pool,
        user.machine.frames.Free(), user.machine.frames.used);
      FaultParts(w, user.procs.current, cr2, free, served, halted, user.Now(), user.machine.frames.Free());
      if !served && !halted {
        ExitCurrent(U64_MAX, queues);
      }
    }

    /** SYS_SBRK. */
    method Sbrk(regs: Regs, ghost queues: Queues)
      requires Settled(queues) && user.procs.current != 0 && regs.rax == SYS_SBRK && regs.arg1 < U64
      requires user.procs.View()[Current(With(queues)).value].value.heapBreak + regs.arg1 + PAGE_SIZE <= USER_TOP
        || AsSigned(regs.arg1) <= 0
      modifies user.procs.slots
      ensures Settled(queues)
      ensures var p, increment := old(user.procs.View()[Current(With(queues)).value]).value, AsSigned(regs.arg1);
        With(queues) == Step(old(With(queues)), MemoryCall(regs, p.heapBreak,
          HeapAreas(p.vmas, p.heapBreak, increment), NewBreak(p.heapBreak, increment)))
      ensures var c := Current(old(With(queues))).value;
        && user.procs.View()[c].Some?
        && HeapMoved(old(user.procs.View()[c]).value, user.procs.View()[c].value, AsSigned(regs.arg1))
    {
      hide FindFrom, SysOk, ProcessesOwn, Moves, MachineOk, WithCtx, SetRax, WithMemory, HeapAreas, NewBreak, HeapMoved;
      ghost var s := With(queues);
      CurrentSlot(s);
      CtxKeepsMemory(s, regs);
      SaveContext(regs, queues);
      SbrkSaved(AsSigned(regs.arg1), queues);
      HeapOfStep(s, regs, AsSigned(regs.arg1));
    }

    /** The call itself, once the frame is saved. */
    method SbrkSaved(increment: int, ghost queues: Queues)
      requires Settled(queues) && user.procs.current != 0
      requires increment > 0 ==> user.procs.View()[Current(With(queues)).value].value.heapBreak + increment + PAGE_SIZE <= USER_TOP
      modifies user.procs.slots
      ensures Settled(queues)
      ensures var p := old(user.procs.View()[Current(With(queues)).value]).value;
        With(queues) == SetRax(WithMemory(old(With(queues)), HeapAreas(p.vmas, p.heapBreak, increment),
          NewBreak(p.heapBreak, increment)), p.heapBreak)
    {
      hide FindFrom, SysOk, ProcessesOwn, Moves, MachineOk, SetRax, WithMemory, HeapAreas, NewBreak;
      ghost var s, c := With(queues), Current(With(queues)).value;
      CurrentSlot(s);
      var rax := user.Sbrk(increment);
      MemoryDone(s, user.procs.View()[c].value, user.procs.View());
      Return(rax, queues);
    }

    /** SYS_MMAP. */
    method Mmap(regs: Regs, ghost queues: Queues) returns (rax: nat)
      requires Settled(queues) && user.procs.current != 0 && regs.rax == SYS_MMAP
      requires NoWrap(user.procs.View()[Current(With(queues)).value].value.vmas,
        if regs.arg1 != 0 then regs.arg1 else MMAP_DEFAULT_HINT, regs.arg2 + PAGE_SIZE)
      modifies user.procs.slots
      ensures Settled(queues)
      ensures var p := old(user.procs.View()[Current(With(queues)).value]).value;
        && LowestPlace(p.vmas, if regs.arg1 != 0 then regs.arg1 else MMAP_DEFAULT_HINT, regs.arg2, rax)
        && With(queues) == Step(old(With(queues)), MemoryCall(regs, rax, PlacedAreas(p.vmas, regs.arg2, rax), p.heapBreak))
      ensures var c := Current(old(With(queues))).value;
        && user.procs.View()[c].Some?
        && AreaPlaced(old(user.procs.View()[c]).value.vmas, user.procs.View()[c].value.vmas, regs.arg2, rax)
    {
      hide FindFrom, SysOk, ProcessesOwn, Moves, MachineOk, WithCtx, NoWrap, SetRax, WithMemory, LowestPlace, PlacedAreas,
        AreaPlaced;
      ghost var s := With(queues);
      CurrentSlot(s);
      CtxKeepsMemory(s, regs);
      SaveContext(regs, queues);
      rax := MmapSaved(regs.arg1, regs.arg2, queues);
      PlacedByStep(s, regs, regs.arg2, rax);
    }

    /** The call itself, once the frame is saved. */
    method MmapSaved(hint: nat, size: nat, ghost queues: Queues) returns (rax: nat)
      requires Settled(queues) && user.procs.current != 0
      requires NoWrap(user.procs.View()[Current(With(queues)).value].value.vmas,
        if hint != 0 then hint else MMAP_DEFAULT_HINT, size + PAGE_SIZE)
      modifies user.procs.slots
      ensures Settled(queues)
      ensures var p := old(user.procs.View()[Current(With(queues)).value]).value;
        && LowestPlace(p.vmas, if hint != 0 then hint else MMAP_DEFAULT_HINT, size, rax)
        && With(queues) == SetRax(WithMemory(old(With(queues)), PlacedAreas(p.vmas, size, rax), p.heapBreak), rax)
      ensures var c := Current(old(With(queues))).value;
        && user.procs.View()[c].Some?
        && AreaPlaced(old(user.procs.View()[c]).value.vmas, user.procs.View()[c].value.vmas, size, rax)
    {
      hide FindFrom, SysOk, ProcessesOwn, Moves, MachineOk, NoWrap, SetRax, WithMemory, LowestPlace, PlacedAreas, AreaPlaced;
      ghost var s, c := With(queues), Current(With(queues)).value;
      CurrentSlot(s);
      rax := user.Mmap(hint, size);
      MemoryDone(s, user.procs.View()[c].value, user.procs.View());
      Return(rax, queues);
      PlacedByStep(s, s.table[c].value.ctx, size, rax);
      assert WithCtx(s, s.table[c].value.ctx) == s;
    }

    /** SYS_MUNMAP. */
    method Munmap(regs: Regs, ghost queues: Queues)
      requires Settled(queues) && user.procs.current != 0 && regs.rax == SYS_MUNMAP
      requires regs.arg1 + PAGE_SIZE < U64 && regs.arg2 + PAGE_SIZE < U64 && PageDown(regs.arg1) + PageUp(regs.arg2) <= USER_TOP
      modifies user.procs.slots, user.machine.memory
      ensures Settled(queues)
      ensures var p := old(user.procs.View()[Current(With(queues)).value]).value;
        var addr, end := PageDown(regs.arg1), PageDown(regs.arg1) + PageUp(regs.arg2);
        && With(queues) == Step(old(With(queues)), MemoryCall(regs, 0, WithoutArea(p.vmas, addr, end), p.heapBreak))
        && AreaDropped(p.vmas, WithoutArea(p.vmas, addr, end), addr, end)
        && RootOf(p) in old(user.Spaces())
        && user.Spaces() == old(user.Spaces())[RootOf(p) := old(user.Spaces())[RootOf(p)] - PagesFrom(addr, end)]
      ensures user.machine.frames.Free() == old(user.machine.frames.Free()) && user.Taken() == old(user.Taken())
    {
      hide FindFrom, SysOk, ProcessesOwn, Moves, MachineOk, WithCtx, SetRax, WithMemory, PageDown, PageUp, WithoutArea, PagesFrom;
      ghost var s, c := With(queues), Current(With(queues)).value;
      CurrentSlot(s);
      CtxKeepsMemory(s, regs);
      SaveContext(regs, queues);
      ghost var s1 := With(queues);
      ghost var w := user.Now();
      user.Munmap(regs.arg1, regs.arg2);
      UnmappedSpaces(w, c, user.procs.View()[c].value, PagesFrom(PageDown(regs.arg1), PageDown(regs.arg1) + PageUp(regs.arg2)), user.Now());
      MemoryDone(s1, user.procs.View()[c].value, user.procs.View());
      Return(0, queues);
      WithoutAreaMembers(s.table[c].value.vmas, PageDown(regs.arg1), PageDown(regs.arg1) + PageUp(regs.arg2));
    }

    /** SYS_SPAWN once the file has been read, and the first load at boot. */
    method Spawn(regs: Regs, loader: ElfLoader, data: seq<byte>, kernelStack: bool, ghost queues: Queues)
      returns (halted: bool, result: Outcome, ghost root: nat, ghost stack: Stack)
      requires Settled(queues) && loader.user == user && FileOk(data)
      modifies user.procs.slots, user.procs`nextPid
      modifies user.machine.memory, user.machine.frames`used, user.machine.frames.bitmap, user.machine`lab
      ensures user.Valid()
      ensures result.Rejected? <==> ParseHeader(data).None?
      ensures result.Loaded? ==> ProgramImage(data, result)
      ensures result.Loaded? ==> root == result.pml4 / PAGE_SIZE && loader.Finished(root, data, SegmentsOf(data), stack)
      ensures !halted ==>
        var installed := result.Loaded? && FreeSlotFrom(old(user.procs.View()), 0).Some?;
        && Lost(user.Now()) == Lost(old(user.Now())) + LoadLoss(result, installed, user.Spaces(), root, stack.under)
        && DeadTables(user.Now()) == DeadTables(old(user.Now())) + LoadBurial(result, installed, user.Trees(), root)
      ensures !halted ==> Settled(queues) && With(queues) == Step(old(With(queues)), Event.Spawn(regs, result))
      ensures !halted && result.Loaded? && old(user.procs.current) != 0 ==>
        Spawns(old(With(queues)), Current(old(With(queues))).value, regs, result, With(queues))
    {
      hide FindFrom, SysOk, ProcessesOwn, Moves, MachineOk, WithCtx, Installed, LoadResult, SetRax, SpawnResult, FileOk,
        ProgramImage, ParseHeader, Lost, LoadLoss, DeadTables, LoadBurial, ElfLoader.Finished, ElfLoader.OutOfFrames, Took, SegmentsOf;
      ghost var s, w := With(queues), user.Now();
      SaveContext(regs, queues);
      ghost var v := user.Now();
      RescheduledLost(w, v);
      CtxKeepsFreeSlot(s, regs);
      halted, result, root, stack := SpawnSaved(loader, data, kernelStack, queues);
      if result.Loaded? && s.current != 0 {
        CurrentSlot(s);
        SpawnStarts(s, regs, result, Current(s).value);
      }
    }

    /** The call itself, once the frame is saved. */
    method SpawnSaved(loader: ElfLoader, data: seq<byte>, kernelStack: bool, ghost queues: Queues)
      returns (halted: bool, result: Outcome, ghost root: nat, ghost stack: Stack)
      requires Settled(queues) && loader.user == user && FileOk(data)
      modifies user.procs.slots, user.procs`nextPid
      modifies user.machine.memory, user.machine.frames`used, user.machine.frames.bitmap, user.machine`lab
      ensures user.Valid()
      ensures result.Rejected? <==> ParseHeader(data).None?
      ensures result.Loaded? ==> ProgramImage(data, result)
      ensures result.Loaded? ==> root == result.pml4 / PAGE_SIZE && loader.Finished(root, data, SegmentsOf(data), stack)
      ensures !halted ==>
        var installed := result.Loaded? && FreeSlotFrom(old(user.procs.View()), 0).Some?;
        && Lost(user.Now()) == Lost(old(user.Now())) + LoadLoss(result, installed, user.Spaces(), root, stack.under)
        && DeadTables(user.Now()) == DeadTables(old(user.Now())) + LoadBurial(result, installed, user.Trees(), root)
      ensures !halted ==>
        var (spawned, rax) := SpawnResult(old(With(queues)), result);
        Settled(queues) && With(queues) == SetRax(spawned, rax)
      ensures !halted && result.Loaded? && old(user.procs.current) != 0 ==>
        var s, c := old(With(queues)), Current(old(With(queues))).value;
        s.table[c].Some? && Spawns(s, c, s.table[c].value.ctx, result, With(queues))
    {
      hide FindFrom, SysOk, ProcessesOwn, Moves, MachineOk, Installed, LoadResult, SetRax, SpawnResult, FileOk, ProgramImage,
        ParseHeader, Lost, LoadLoss, DeadTables, LoadBurial, ElfLoader.Finished, ElfLoader.OutOfFrames, Took, SegmentsOf;
      ghost var s, w := With(queues), user.Now();
      var o, pid;
      o, pid, halted, root, stack := loader.LoadElf(data, user.procs.current, kernelStack);
      result := o;
      if halted {
        return;
      }
      ghost var v := user.Now();
      LoadResultStep(s, w, o, pid, root, v);
      Return(if pid.Some? then pid.value else U64_MAX, queues);
      RescheduledLost(v, user.Now());
      if o.Loaded? && s.current != 0 {
        SpawnFromFrame(s, o);
      }
    }

    method YieldCurrent(ghost queues: Queues)
      requires user.procs.Valid()
      modifies user.procs.slots
      ensures With(queues) == old(With(queues)).(table := Yielded(old(With(queues))))
    {
      if user.procs.current != 0 {
        var found := user.procs.GetProcess(user.procs.current);
        match found {
          case Some(i) =>
            if user.procs.slots[i].value.state == Running {
              user.procs.SetState(i, Ready);
            }
          case None =>
        }
      }
    }

    /** Makes the process in slot `j` the running one and activates its address space. */
    method Dispatch(pid: nat, ghost j: nat, ghost w: World)
      requires user.procs.Valid() && user.machine.Valid()
      requires WorldOk(w) && w.spaces == user.Spaces() && SameMemories(w.table, user.procs.View())
      requires InState(user.procs.View(), j, Ready) && Find(user.procs.View(), pid) == Some(j)
      modifies user.procs.slots, user.procs`current, user.machine`cr3
      ensures user.procs.View() == WithState(old(user.procs.View()), j, Running) && user.procs.current == pid
      ensures user.machine.Valid() && user.CurrentActive()
    {
      hide FindFrom, And, Or, Space, MachineOk, WorldOk, SameMemories, IsRoot;
      ghost var t := user.procs.View();
      LiveRootAt(w, t, j, user.machine.memory[..], user.machine.lab);
      MachineIntact(user.machine.memory[..], user.machine.lab, user.machine.kernel, user.machine.pool,
        user.machine.frames.Free(), user.machine.frames.used);
      var slot := user.procs.GetProcess(pid);
      var pml4 := user.procs.slots[slot.value].value.pml4;
      user.procs.SetState(slot.value, Running);
      user.procs.current := pid;
      SameFindState(t, user.procs.View(), j, pid);
      user.machine.cr3 := if pml4 != 0 then pml4 else kernelPml4;
      RootNotZero(user.machine.memory[..], user.machine.lab, user.machine.kernel, user.machine.pool,
        user.machine.frames.Free(), user.machine.frames.used, pml4);
    }
  }

  /** `arg as i64`: the signed value with the same 64 bits. */
  function AsSigned(a: nat): (r: int)
    ensures a < U64 ==> -0x8000_0000_0000_0000 <= r < 0x8000_0000_0000_0000 && (r == a || r == a - U64)
  {
    if a < 0x8000_0000_0000_0000 then a else a - U64
  }

  lemma ReapOk(s: Sys, i: nat)
    requires SysOk(s) && InState(s.table, i, Dead)
    ensures SysOk(s.(table := WithState(s.table, i, Empty)))
    ensures Current(s.(table := WithState(s.table, i, Empty))) == Current(s)
    ensures SameMemories(s.table, WithState(s.table, i, Empty))
  {
    UpdateOk(s, i, s.table[i].value.(state := Empty));
    ReapSameMemories(s.table, i);
  }

  lemma CtxKeepsMemory(s: Sys, r: Regs)
    requires SysOk(s) && s.current != 0
    ensures var c, n := Current(s).value, WithCtx(s, r);
      && n.queues == s.queues && Current(n) == Current(s) && n.table[c].Some? && n.current == s.current
      && n.table[c].value.vmas == s.table[c].value.vmas && n.table[c].value.heapBreak == s.table[c].value.heapBreak
  {
    WithCtxOk(s, r);
  }

  lemma MemoryDone(s: Sys, q: Process, t: Table)
    requires SysOk(s) && s.current != 0
    requires q == s.table[Current(s).value].value.(vmas := q.vmas, heapBreak := q.heapBreak)
    requires t == Update(s.table, Current(s).value, q)
    ensures s.(table := t) == WithMemory(s, q.vmas, q.heapBreak) && SysOk(s.(table := t))
  {
    MemoryOk(s, q.vmas, q.heapBreak);
  }

  lemma LoadResultStep(s: Sys, w: World, o: Outcome, pid: Option<nat>, root: nat, v: World)
    requires SysOk(s) && w.table == s.table && LoadResult(w, s.nextPid, s.current, o, pid, root, v)
    ensures var n := SpawnResult(s, o).0;
      && n == Sys(v.table, s.current, s.nextPid + (if o.Rejected? then 0 else 1), s.queues) && SysOk(n)
      && SpawnResult(s, o).1 == (if pid.Some? then pid.value else U64_MAX)
      && Current(n) == Current(s) && (s.current != 0 ==> n.table[Current(s).value] == s.table[Current(s).value])
    ensures pid.Some? <==> o.Loaded? && FreeSlotFrom(s.table, 0).Some?
  {
    hide Moves;
    SpawnOk(s, o);
    var n := SpawnResult(s, o).0;
    if s.current != 0 {
      CurrentSlot(s);
      FindHolds(n.table, Current(s).value, s.current);
    }
  }

  /** The record that SYS_SBRK leaves. */
  lemma HeapOfStep(s: Sys, r: Regs, increment: int)
    requires SysOk(s) && s.current != 0
    ensures Current(s).Some?
    ensures var c := Current(s).value; var p := s.table[c].value;
      var n := Step(s, MemoryCall(r, p.heapBreak, HeapAreas(p.vmas, p.heapBreak, increment), NewBreak(p.heapBreak, increment)));
      n.table[c].Some? && HeapMoved(p, n.table[c].value, increment)
  {
    hide Step, HeapMoved, HeapAreas, NewBreak, FindFrom;
    CurrentSlot(s);
    var c := Current(s).value;
    var p := s.table[c].value;
    var vmas, end := HeapAreas(p.vmas, p.heapBreak, increment), NewBreak(p.heapBreak, increment);
    MemoryAnswers(s, r, p.heapBreak, vmas, end, c);
    HeapIsMoved(p, p.(ctx := r.(rax := p.heapBreak), vmas := vmas, heapBreak := end), increment);
  }

  /** The record that SYS_MMAP leaves. */
  lemma PlacedByStep(s: Sys, r: Regs, size: nat, rax: nat)
    requires SysOk(s) && s.current != 0
    ensures Current(s).Some?
    ensures var c := Current(s).value; var p := s.table[c].value;
      var n := Step(s, MemoryCall(r, rax, PlacedAreas(p.vmas, size, rax), p.heapBreak));
      n.table[c].Some? && AreaPlaced(p.vmas, n.table[c].value.vmas, size, rax)
  {
    hide Step, AreaPlaced, PlacedAreas, FindFrom;
    CurrentSlot(s);
    var c := Current(s).value;
    var p := s.table[c].value;
    MemoryAnswers(s, r, rax, PlacedAreas(p.vmas, size, rax), p.heapBreak, c);
    AreaIsPlaced(p.vmas, size, rax);
  }

  /** A spawn once the frame is saved. */
  lemma SpawnFromFrame(s: Sys, o: Outcome)
    requires SysOk(s) && s.current != 0 && o.Loaded?
    ensures Current(s).Some?
    ensures var c := Current(s).value;
      Spawns(s, c, s.table[c].value.ctx, o, SetRax(SpawnResult(s, o).0, SpawnResult(s, o).1))
  {
    hide SpawnResult, SetRax, Spawns, FindFrom;
    CurrentSlot(s);
    var c := Current(s).value;
    SpawnStarts(s, s.table[c].value.ctx, o, c);
    assert WithCtx(s, s.table[c].value.ctx) == s;
  }

  lemma SameMemoriesSelf(t: Table)
    ensures SameMemories(t, t)
  {
  }

  lemma ReadyToSchedule(s: Sys)
    requires SysOk(s)
    ensures Consistent(s) && (s.current != 0 ==> Current(s).Some?)
  {
  }

  lemma ExitedReady(s: Sys, code: nat)
    requires SysOk(s) && s.current != 0
    ensures var e := s.(table := Exited(s.table, s.current, code)); Consistent(e) && Current(e).Some?
  {
    WakeWaitersOk(s, s.current);
    var w := s.(table := WakeWaiters(s.table, s.current));
    var i := Current(s).value;
    UpdateOk(w, i, w.table[i].value.(vmas := [], exitCode := Some(code), state := if AnyWaiter(s.table, s.current) then Dead else Empty));
  }

  lemma FaultParts(w: World, pid: nat, cr2: nat, free: set<nat>, served: bool, halted: bool, v: World, free': set<nat>)
    requires FaultTaken(w, pid, cr2, free, served, halted, v, free')
    ensures Find(w.table, pid).Some?
    ensures var p := w.table[Find(w.table, pid).value].value;
      && (served || halted <==> Covered(p.vmas, cr2) && free != {})
      && (served ==> PageServed(w.m, w.spaces, w.taken, free, v.m, v.spaces, v.taken, RootOf(p), cr2 / PAGE_SIZE))
    ensures !served && !halted ==>
      free' == free && v.m == w.m && v.table == w.table && v.spaces == w.spaces && v.taken == w.taken && v.trees == w.trees
  {
    hide Covered, FindFrom, SameBytes, Zeroed;
  }

  lemma UnmappedSpaces(w: World, c: nat, p: Process, pages: set<nat>, v: World)
    requires Moves(w, ChangeAreas(c, p, pages), v)
    ensures RootOf(p) in w.spaces && v.spaces == w.spaces[RootOf(p) := w.spaces[RootOf(p)] - pages]
  {
  }

  lemma RescheduledLost(w: World, v: World)
    requires WorldOk(w) && Moves(w, Reschedule, v)
    ensures Lost(v) == Lost(w) && DeadTables(v) == DeadTables(w) && v.spaces == w.spaces && v.trees == w.trees
  {
    MoveLoses(w, Reschedule, v);
    MoveBuries(w, Reschedule, v);
  }

  lemma ExitBuries(w: World, c: nat, v: World, x: World)
    requires WorldOk(w) && Moves(w, Retire(c), v) && Moves(v, Reschedule, x)
    ensures LiveIn(w, c) && DeadTables(x) == DeadTables(w) + TreeOf(w.trees, RootOf(w.table[c].value))
  {
    hide WorldOk, Moves, DeadTables, TreeOf;
    ExitBuriesTree(w, c, v);
    MoveKeepsIsolation(w, Retire(c), v);
    MoveBuries(v, Reschedule, x);
  }

  lemma CtxKeepsFreeSlot(s: Sys, r: Regs)
    ensures FreeSlotFrom(WithCtx(s, r).table, 0) == FreeSlotFrom(s.table, 0)
  {
    FreeSlotSame(s.table, WithCtx(s, r).table, 0);
  }

  lemma {:induction false} FreeSlotSame(t: Table, u: Table, i: nat)
    requires i <= MAX_PROCESSES && forall j :: 0 <= j < MAX_PROCESSES ==> Reusable(t[j]) == Reusable(u[j])
    ensures FreeSlotFrom(t, i) == FreeSlotFrom(u, i)
    decreases MAX_PROCESSES - i
  {
    if i < MAX_PROCESSES {
      FreeSlotSame(t, u, i + 1);
    }
  }

  lemma CurrentSlot(s: Sys)
    requires SysOk(s) && s.current != 0
    ensures Current(s).Some? && InState(s.table, Current(s).value, Running)
  {
  }

  lemma RootNotZero(m: seq<byte>, lab: Labels, kernel: set<(nat, nat)>, pool: set<nat>, free: set<nat>, used: nat, pml4: nat)
    requires MachineOk(m, lab, kernel, pool, free, used) && IsRoot(lab, pml4 / PAGE_SIZE)
    ensures pml4 != 0
  {
    assert pml4 / PAGE_SIZE in lab.Keys;
  }

  /** The message that a call hands to the user: in SYS_RECV, the oldest one of the caller. */
  function Delivered(s: Sys, r: Regs): Option<Message> {
    if r.rax == SYS_RECV && s.current < QUEUES && s.queues[s.current] != [] then Some(s.queues[s.current][0]) else None
  }

  function AsSeq(m: Option<Message>): seq<Message> {
    if m.Some? then [m.value] else []
  }

  /** What SYS_RECV hands to the user is exactly what it takes from the caller's queue, and
      it hands nothing only when there is nothing. */
  lemma HandedIsTaken(s: Sys, r: Regs)
    requires SysOk(s) && s.current != 0 && s.current < QUEUES
    ensures r.rax == SYS_RECV ==> s.queues[s.current] == AsSeq(Delivered(s, r)) + Step(s, Call(r)).queues[s.current]
    ensures r.rax == SYS_RECV && Delivered(s, r).None? ==> s.queues[s.current] == []
    ensures r.rax != SYS_RECV ==> Delivered(s, r).None?
  {
    hide FindFrom, Blocks;
    CurrentSlot(s);
    if r.rax == SYS_RECV {
      if s.queues[s.current] != [] {
        ReceiveAnswers(s, r, Current(s).value);
      } else if r.arg2 == 1 {
        CallFails(s, r, Current(s).value);
      } else {
        ReceiveBlocks(s, r, Current(s).value);
        BlocksKeepsQueues(s, Current(s).value, r, s.table[Current(s).value].value.waitingFor, Step(s, Call(r)));
      }
    }
  }

  lemma BlocksKeepsQueues(s: Sys, c: nat, r: Regs, waitingFor: Option<nat>, n: Sys)
    requires Blocks(s, c, r, waitingFor, n)
    ensures n.queues == s.queues
  {
    hide Picked;
  }

  /** The processor together with the message queues. */
  class Kernel {
    const cpu: Cpu
    const ipc: IpcQueues

    ghost predicate Valid()
      reads cpu.user, cpu.user.procs, cpu.user.procs.slots, cpu.user.machine, cpu.user.machine.memory,
        cpu.user.machine.frames, cpu.user.machine.frames.bitmap, ipc.queues, ipc.repr
    {
      && ipc.Valid() && cpu.user.procs.Valid() && cpu.Settled(ipc.View())
      && cpu.user !in ipc.repr && cpu.user.procs !in ipc.repr && cpu.user.procs.slots !in ipc.repr
      && cpu.user.machine !in ipc.repr && cpu.user.machine.memory !in ipc.repr
      && cpu.user.machine.frames !in ipc.repr && cpu.user.machine.frames.bitmap !in ipc.repr
      && ipc.queues as object != cpu.user.machine.frames.bitmap && ipc.queues as object != cpu.user.procs.slots
      && ipc.queues as object != cpu.user.machine.memory
    }

    ghost function View(): Sys
      requires Valid()
      reads cpu.user, cpu.user.procs, cpu.user.procs.slots, cpu.user.machine, cpu.user.machine.memory,
        cpu.user.machine.frames, cpu.user.machine.frames.bitmap, ipc.queues, ipc.repr
    {
      cpu.With(ipc.View())
    }

    constructor (c: Cpu, q: IpcQueues)
      requires c.Valid() && q.Valid() && c.user.procs.current == 0 && c.user.procs.nextPid == 1
      requires c.user.procs.View() == seq(MAX_PROCESSES, _ => None) && q.View() == seq(QUEUES, _ => [])
      requires c.user !in q.repr && c.user.procs !in q.repr && c.user.procs.slots !in q.repr && c.user.machine !in q.repr
      requires c.user.machine.memory !in q.repr && c.user.machine.frames !in q.repr
      requires c.user.machine.frames.bitmap !in q.repr && q.queues as object != c.user.machine.frames.bitmap
      requires q.queues as object != c.user.procs.slots && q.queues as object != c.user.machine.memory
      ensures Valid() && cpu == c && ipc == q && View() == BOOT
    {
      cpu, ipc := c, q;
      new;
      BootOk();
    }

    /** `ipc::send`: queue the message, then wake the receiver. */
    method Send(to: nat, m: Message) returns (ok: bool)
      requires Valid()
      modifies ipc.repr, cpu.user.procs.slots
      ensures Valid() && View() == Sent(old(View()), to, m).0 && ok == Sent(old(View()), to, m).1
    {
      hide FindFrom, Cpu.Settled, IpcQueues.Valid, IpcQueues.View, SysOk, Current, Accepts, Pushed, Moves, Sent;
      ghost var s := View();
      cpu.SettledFacts(s.queues);
      SentSettled(s, to, m);
      SentParts(s, to, m);
      if to == 0 || to >= QUEUES {
        return false;
      }
      ok := ipc.Offer(to, m);
      if ok {
        cpu.Wake(to, s.queues, ipc.View(), m);
      }
    }

    /** The keyboard and mouse interrupts, whose handler sends in the name of the
        interrupted process and returns to it. */
    method Irq(fromKeyboard: bool, data: nat)
      requires Valid()
      modifies ipc.repr, cpu.user.procs.slots
      ensures Valid()
      ensures View() == Step(old(View()), if fromKeyboard then Event.Irq(KEYBOARD_PID, MSG_HARDWARE_INTERRUPT, data)
        else Event.Irq(MOUSE_PID, MSG_MOUSE_PACKET, data))
    {
      hide FindFrom, Sent;
      var current := cpu.user.procs.current;
      if fromKeyboard {
        var _ := Send(KEYBOARD_PID, Message(current, MSG_HARDWARE_INTERRUPT, data, 0, 0, 0, 0, 0));
      } else {
        var _ := Send(MOUSE_PID, Message(current, MSG_MOUSE_PACKET, data, 0, 0, 0, 0, 0));
      }
    }

    /** SYS_RECV; `received` is what the call copies to the user. */
    method Receive(r: Regs) returns (received: Option<Message>)
      requires Valid() && View().current != 0 && r.rax == SYS_RECV
      modifies ipc.repr, cpu.user.procs.slots, cpu.user.procs`current, cpu.user.machine`cr3
      ensures Valid() && View() == System.Receive(old(View()), r)
      ensures received == Delivered(old(View()), r)
      ensures var s, c := old(View()), Current(old(View())).value;
        received.None? && r.arg2 != 1 ==> IsCurrent(s, c) && Blocks(s, c, r, s.table[c].value.waitingFor, View())
    {
      hide FindFrom, Cpu.Settled, IpcQueues.Valid, IpcQueues.View, SysOk, System.Receive, SetRax, Blocks, IsCurrent;
      ghost var s := View();
      cpu.SettledFacts(s.queues);
      received := Take();
      ReceiveParts(s, r);
      Answer(r, received);
      if received.None? && r.arg2 != 1 {
        ReceiveBlocksNow(s, r);
      }
    }

    /** Takes the oldest message of the current process, if it has one. */
    method Take() returns (received: Option<Message>)
      requires Valid() && View().current != 0
      modifies ipc.repr
      ensures Valid()
      ensures var s := old(View());
        if s.current < QUEUES && s.queues[s.current] != [] then
          received == Some(s.queues[s.current][0]) && View() == s.(queues := s.queues[s.current := s.queues[s.current][1..]])
        else received == None && View() == s
    {
      hide FindFrom, Cpu.Settled, IpcQueues.Valid, IpcQueues.View, SysOk;
      ghost var s := View();
      cpu.SettledFacts(s.queues);
      received := None;
      if cpu.user.procs.current < QUEUES {
        received := ipc.TakeFrom(cpu.user.procs.current);
      }
      if received.Some? {
        PoppedOk(s);
        cpu.SettledAgain(s.queues, ipc.View());
      }
    }

    /** Ends SYS_RECV: returns the sender, reports an empty queue, or blocks and restarts the call. */
    method Answer(r: Regs, received: Option<Message>)
      requires Valid() && View().current != 0 && r.rax == SYS_RECV
      requires received.None? && View().current < QUEUES ==> View().queues[View().current] == []
      modifies cpu.user.procs.slots, cpu.user.procs`current, cpu.user.machine`cr3
      ensures Valid()
      ensures received.Some? ==> View() == SetRax(old(View()), received.value.sender)
      ensures received.None? ==>
        View() == if r.arg2 == 1 then SetRax(old(View()), U64_MAX) else System.Receive(old(View()), r)
    {
      hide FindFrom, Cpu.Settled, IpcQueues.Valid, IpcQueues.View, SysOk, System.Receive, SetRax;
      ghost var queues := ipc.View();
      if received.Some? {
        cpu.Return(received.value.sender, queues);
      } else if r.arg2 == 1 {
        cpu.Return(U64_MAX, queues);
      } else {
        cpu.WaitForMessage(r, queues);
      }
      assert ipc.View() == queues;
    }

    /** `syscall::handle` for the calls that concern scheduling and messages. */
    method SystemCall(regs: Regs) returns (received: Option<Message>)
      requires Valid() && View().current != 0 && !ReturnsAtOnce(regs.rax)
      modifies ipc.repr, cpu.user.procs.slots, cpu.user.procs`current, cpu.user.machine`cr3
      modifies cpu.user.machine.frames`used, cpu.user.machine.frames.bitmap
      ensures Valid() && View() == Step(old(View()), Call(regs)) && received == Delivered(old(View()), regs)
      ensures CallReclaims(WithCtx(old(View()), regs), regs, old(cpu.user.Spaces()), old(cpu.user.machine.frames.Free()),
        old(cpu.user.machine.frames.used), cpu.user.machine.frames.Free(), cpu.user.machine.frames.used)
    {
      hide FindFrom, Cpu.Settled, IpcQueues.Valid, IpcQueues.View, SysOk, Current, System.SystemCall, WithCtx, CallReclaims;
      ghost var s := View();
      cpu.SettledFrames(s.queues);
      CtxKeepsMemory(s, regs);
      ghost var queues := ipc.View();
      cpu.SaveContext(regs, queues);
      assert ipc.View() == queues;
      received := Handle(regs);
    }

    /** The call itself, once the frame is saved. */
    method Handle(regs: Regs) returns (received: Option<Message>)
      requires Valid() && View().current != 0
      modifies ipc.repr, cpu.user.procs.slots, cpu.user.procs`current, cpu.user.machine`cr3
      modifies cpu.user.machine.frames`used, cpu.user.machine.frames.bitmap
      ensures Valid() && View() == System.SystemCall(old(View()), regs) && received == Delivered(old(View()), regs)
      ensures CallReclaims(old(View()), regs, old(cpu.user.Spaces()), old(cpu.user.machine.frames.Free()),
        old(cpu.user.machine.frames.used), cpu.user.machine.frames.Free(), cpu.user.machine.frames.used)
    {
      hide FindFrom, Cpu.Settled, IpcQueues.Valid, IpcQueues.View, SysOk, SetRax, System.Schedule, Sent, System.Receive,
        System.WaitPid, Exit, ExitReclaims;
      cpu.SettledFrames(ipc.View());
      received := None;
      if regs.rax == SYS_SEND {
        var ok := Send(regs.arg1, Message(cpu.user.procs.current, regs.arg2, regs.arg3, regs.arg4, regs.arg5, regs.arg6, regs.arg7, 0));
        ghost var queues := ipc.View();
        cpu.Return(if ok then 0 else 1, queues);
        assert ipc.View() == queues;
      } else if regs.rax == SYS_RECV {
        received := Receive(regs);
      } else {
        Other(regs);
      }
    }

    method Other(regs: Regs)
      requires Valid() && View().current != 0 && regs.rax != SYS_SEND && regs.rax != SYS_RECV
      modifies cpu.user.procs.slots, cpu.user.procs`current, cpu.user.machine`cr3
      modifies cpu.user.machine.frames`used, cpu.user.machine.frames.bitmap
      ensures Valid() && View() == System.SystemCall(old(View()), regs)
      ensures CallReclaims(old(View()), regs, old(cpu.user.Spaces()), old(cpu.user.machine.frames.Free()),
        old(cpu.user.machine.frames.used), cpu.user.machine.frames.Free(), cpu.user.machine.frames.used)
    {
      hide FindFrom, Cpu.Settled, IpcQueues.Valid, IpcQueues.View, SysOk, System.SystemCall, CallReclaims;
      ghost var queues := ipc.View();
      cpu.OtherCall(regs, queues);
      assert ipc.View() == queues;
    }
  }

  lemma ScheduleKeepsOk(s: Sys)
    requires SysOk(s)
    ensures SysOk(System.Schedule(s))
  {
    ScheduleOk(s);
  }

  lemma ReceiveParts(s: Sys, r: Regs)
    ensures s.current < QUEUES && s.queues[s.current] != [] ==>
      System.Receive(s, r) ==
      SetRax(s.(queues := s.queues[s.current := s.queues[s.current][1..]]), s.queues[s.current][0].sender)
    ensures !(s.current < QUEUES && s.queues[s.current] != []) && r.arg2 == 1 ==> System.Receive(s, r) == SetRax(s, U64_MAX)
  {
    hide SetRax;
  }

  lemma ReceiveBlocksNow(s: Sys, r: Regs)
    requires SysOk(s) && s.current != 0 && r.rax == SYS_RECV && r.arg2 != 1
    requires s.current < QUEUES ==> s.queues[s.current] == []
    ensures var c := Current(s).value;
      Current(s).Some? && IsCurrent(s, c) && Blocks(s, c, r, s.table[c].value.waitingFor, System.Receive(s, r))
  {
    hide Blocks, FindFrom, System.Schedule, BlockedOn;
    CurrentSlot(s);
    BlockedPicks(s, Current(s).value, r, None);
  }

  lemma PoppedOk(s: Sys)
    requires SysOk(s) && 0 < s.current < QUEUES && s.queues[s.current] != []
    ensures SysOk(s.(queues := s.queues[s.current := s.queues[s.current][1..]]))
  {
    var u := s.(queues := s.queues[s.current := s.queues[s.current][1..]]);
    forall i | 0 <= i < MAX_PROCESSES
      ensures SlotOk(s.table[i], s.current, s.nextPid, u.queues)
    {
      if Holds(s.table, i, s.current) {
        FindHolds(s.table, i, s.current);
      }
    }
  }

  lemma SentParts(s: Sys, to: nat, m: Message)
    ensures to < QUEUES && !Accepts(s.queues[to], m) ==> s.queues[to := Pushed(s.queues[to], m)] == s.queues
    ensures to == 0 || to >= QUEUES || !Accepts(s.queues[to], m) ==> Sent(s, to, m) == (s, false)
    ensures 0 < to < QUEUES && Accepts(s.queues[to], m) ==> Sent(s, to, m).1
  {
  }

  /** Sending touches the receiver's state only. */
  lemma SentSettled(s: Sys, to: nat, m: Message)
    requires SysOk(s)
    ensures SysOk(Sent(s, to, m).0) && SameMemories(s.table, Sent(s, to, m).0.table)
    ensures Current(Sent(s, to, m).0) == Current(s)
    ensures s.current != 0 ==> Sent(s, to, m).0.table[Current(s).value] == s.table[Current(s).value]
  {
    SentOk(s, to, m);
    UnblockSameMemories(s.table, to);
    SameMemoriesSelf(s.table);
    if 0 < to < QUEUES && Accepts(s.queues[to], m) {
      UnblockOk(s, to, Pushed(s.queues[to], m));
    }
  }

  lemma YieldedMemories(s: Sys)
    requires Consistent(s) && (s.current != 0 ==> Current(s).Some?)
    ensures SameMemories(s.table, Yielded(s))
  {
  }

  lemma ScheduleParts(s: Sys)
    requires Consistent(s) && (s.current != 0 ==> Current(s).Some?)
    ensures match NextReadySlot(Yielded(s), s.current)
      case None => System.Schedule(s) == s.(table := Yielded(s), current := 0)
      case Some(j) =>
        && InState(Yielded(s), j, Ready) && Find(Yielded(s), Yielded(s)[j].value.pid) == Some(j)
        && System.Schedule(s) == s.(table := WithState(Yielded(s), j, Running), current := Yielded(s)[j].value.pid)
    ensures SameMemories(s.table, Yielded(s))
  {
    hide Yielded, Find, ScanReady;
    YieldedOk(s);
    YieldedMemories(s);
    match NextReadySlot(Yielded(s), s.current)
    case None =>
    case Some(j) => FindHolds(Yielded(s), j, Yielded(s)[j].value.pid);
  }

  lemma LiveRootAt(w: World, t: Table, j: nat, m: seq<byte>, lab: Labels)
    requires WorldOk(w) && w.spaces == SpacesOf(m, lab) && SameMemories(w.table, t) && InState(t, j, Ready)
    ensures IsRoot(lab, t[j].value.pml4 / PAGE_SIZE) && PageAligned(t[j].value.pml4)
  {
    hide Space;
    assert SameMemory(w.table[j], t[j]);
    OwnedRoot(w.table, j, m, lab, w.taken);
  }

  lemma RescheduleMoves(w: World, v: World)
    requires WorldOk(w) && SameMemories(w.table, v.table) && v == w.(table := v.table)
    ensures Moves(w, Reschedule, v) && WorldOk(v)
  {
    MoveKeepsIsolation(w, Reschedule, v);
  }

  lemma SameFindState(t: Table, u: Table, j: nat, pid: nat)
    requires Find(t, pid) == Some(j) && u == WithState(t, j, Running)
    ensures Find(u, pid) == Some(j)
  {
    SameFind(t, j, t[j].value.(state := Running), pid);
  }
}
