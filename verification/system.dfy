/** The scheduler, the message queues and the blocking system calls as one step
    system. Every gate is an interrupt gate, so each interrupt or system call is
    one atomic step on the process table, the current pid and the queues. */
module System {
  import opened Frames
  import opened PageTree
  import opened Vmas
  import opened Ipc
  import opened Processes

  const SYS_SEND: nat := 1
  const SYS_RECV: nat := 2
  const SYS_EXIT: nat := 3
  const SYS_YIELD: nat := 4
  const SYS_WAITPID: nat := 17
  const U64_MAX: nat := U64 - 1
  const QUEUES: nat := 64

  type Queues = q: seq<seq<Message>> | |q| == QUEUES witness seq(QUEUES, _ => [])

  datatype Sys = Sys(table: Table, current: nat, nextPid: nat, queues: Queues)

  /** What loading a program came to: not an ELF file, a failure after a pid was
      taken, or a process image. */
  datatype Outcome = Rejected | LoadFailed | Loaded(pml4: nat, vmas: seq<Vma>, heapBreak: nat, entry: nat)

  /** A step of the system. The registers are those of the interrupted process. */
  datatype Event =
    | Tick(regs: Regs)
    | Irq(to: nat, kind: nat, data: nat)
    | Call(regs: Regs)
    | MemoryCall(regs: Regs, rax: nat, vmas: seq<Vma>, heapBreak: nat)
    | Spawn(regs: Regs, outcome: Outcome)
    | Fault(regs: Regs, served: bool)

  // ---------- Pieces of a step ----------

  function Current(s: Sys): Option<nat> {
    if s.current == 0 then None else Find(s.table, s.current)
  }

  /** The interrupt frame of the current process. */
  function WithCtx(s: Sys, regs: Regs): Sys {
    match Current(s)
    case Some(i) => s.(table := Update(s.table, i, s.table[i].value.(ctx := regs)))
    case None => s
  }

  function SetRax(s: Sys, v: nat): Sys {
    match Current(s)
    case Some(i) => WithCtx(s, s.table[i].value.ctx.(rax := v))
    case None => s
  }

  /** Moves the saved rip back over the two-byte `int 0x80`, so that the call restarts. */
  function Rewound(rip: nat): nat {
    if rip >= 2 then rip - 2 else rip + U64 - 2
  }

  /** The table once the current process has given up the processor. */
  function Yielded(s: Sys): Table {
    match Current(s)
    case Some(i) => if s.table[i].value.state == Running then WithState(s.table, i, Ready) else s.table
    case None => s.table
  }

  function Schedule(s: Sys): Sys {
    var t := Yielded(s);
    match NextReadySlot(t, s.current)
    case Some(j) => s.(table := WithState(t, j, Running), current := t[j].value.pid)
    case None => s.(table := t, current := 0)
  }

  /** `ipc::send`: queue the message and wake the receiver. */
  function Sent(s: Sys, to: nat, m: Message): (Sys, bool) {
    if to == 0 || to >= QUEUES then (s, false)
    else if Accepts(s.queues[to], m) then
      (s.(queues := s.queues[to := Pushed(s.queues[to], m)], table := Unblock(s.table, to)), true)
    else (s, false)
  }

  /** Blocks the current process on a call with registers `r` that will restart. */
  function BlockedOn(s: Sys, r: Regs, waitingFor: Option<nat>): Sys {
    match Current(s)
    case Some(i) =>
      var p := s.table[i].value;
      s.(table := Update(s.table, i, p.(state := Blocked, ctx := r.(rip := Rewound(r.rip)),
        waitingFor := if waitingFor.Some? then waitingFor else p.waitingFor)))
    case None => s
  }

  function Receive(s: Sys, r: Regs): Sys {
    if s.current < QUEUES && s.queues[s.current] != [] then
      var q := s.queues[s.current];
      SetRax(s.(queues := s.queues[s.current := q[1..]]), q[0].sender)
    else if r.arg2 == 1 then SetRax(s, U64_MAX)
    else Schedule(BlockedOn(s, r, None))
  }

  function WaitPid(s: Sys, r: Regs): Sys {
    match Find(s.table, r.arg1)
    case None => SetRax(s, U64_MAX)
    case Some(i) =>
      var child := s.table[i].value;
      if child.state == Dead then
        SetRax(s.(table := WithState(s.table, i, Empty)), if child.exitCode.Some? then child.exitCode.value else 0)
      else Schedule(BlockedOn(s, r, Some(r.arg1)))
  }

  function Exit(s: Sys, code: nat): Sys {
    Schedule(s.(table := Exited(s.table, s.current, code)))
  }

  function SystemCall(s: Sys, r: Regs): Sys {
    if r.rax == SYS_SEND then
      var (sent, ok) := Sent(s, r.arg1, Message(s.current, r.arg2, r.arg3, r.arg4, r.arg5, r.arg6, r.arg7, 0));
      SetRax(sent, if ok then 0 else 1)
    else if r.rax == SYS_RECV then Receive(s, r)
    else if r.rax == SYS_EXIT then Exit(s, r.arg1)
    else if r.rax == SYS_YIELD then Schedule(s)
    else if r.rax == SYS_WAITPID then WaitPid(s, r)
    else SetRax(s, U64_MAX)
  }

  function NewProcess(pid: nat, parent: nat, o: Outcome): Process
    requires o.Loaded?
  {
    Process(pid, Ready, Regs(o.entry, 0, 0, 0, 0, 0, 0, 0, 0), o.pml4, o.vmas, o.heapBreak, parent, None, None)
  }

  function SpawnResult(s: Sys, o: Outcome): (Sys, nat) {
    match o
    case Rejected => (s, U64_MAX)
    case LoadFailed => (s.(nextPid := s.nextPid + 1), U64_MAX)
    case Loaded(_, _, _, _) =>
      (s.(nextPid := s.nextPid + 1, table := Installed(s.table, NewProcess(s.nextPid, s.current, o))),
       if FreeSlotFrom(s.table, 0).Some? then s.nextPid else U64_MAX)
  }

  function WithMemory(s: Sys, vmas: seq<Vma>, heapBreak: nat): Sys {
    match Current(s)
    case Some(i) => s.(table := Update(s.table, i, s.table[i].value.(vmas := vmas, heapBreak := heapBreak)))
    case None => s
  }

  function Step(s: Sys, ev: Event): Sys {
    match ev
    case Tick(r) => Schedule(WithCtx(s, r))
    case Irq(to, kind, data) => Sent(s, to, Message(s.current, kind, data, 0, 0, 0, 0, 0)).0
    case Call(r) => SystemCall(WithCtx(s, r), r)
    case MemoryCall(r, rax, vmas, heapBreak) => SetRax(WithMemory(WithCtx(s, r), vmas, heapBreak), rax)
    case Spawn(r, o) =>
      var (spawned, rax) := SpawnResult(WithCtx(s, r), o);
      SetRax(spawned, rax)
    case Fault(r, served) => if served then WithCtx(s, r) else Exit(WithCtx(s, r), U64_MAX)
  }

  /** The system calls, besides those above, that return to their caller at once. */
  predicate ReturnsAtOnce(rax: nat) {
    5 <= rax <= 16 || 18 <= rax <= 29
  }

  /** Calls and faults come from a running process; the first spawn is the kernel's own. */
  predicate Enabled(s: Sys, ev: Event) {
    match ev
    case Call(r) => s.current != 0 && !ReturnsAtOnce(r.rax)
    case MemoryCall(r, _, _, _) => s.current != 0 && ReturnsAtOnce(r.rax)
    case Fault(_, _) => s.current != 0
    case Tick(_) => true
    case Irq(_, _, _) => true
    case Spawn(_, _) => true
  }

  const BOOT: Sys := Sys(seq(MAX_PROCESSES, _ => None), 0, 1, seq(QUEUES, _ => []))

  // ---------- Invariants ----------

  predicate DistinctPids(t: Table) {
    forall i, j :: 0 <= i < j < MAX_PROCESSES && t[i].Some? && t[j].Some? ==> t[i].value.pid != t[j].value.pid
  }

  /** No wakeup is lost: a process blocked in receive has an empty queue. */
  predicate NoLostWakeup(p: Process, queues: Queues) {
    p.state == Blocked && p.ctx.rax == SYS_RECV && p.pid < QUEUES ==> queues[p.pid] == []
  }

  /** A blocked process restarts the call that it is blocked in. */
  predicate BlockedInCall(p: Process) {
    p.state == Blocked ==> p.ctx.rax == SYS_RECV || (p.ctx.rax == SYS_WAITPID && p.waitingFor == Some(p.ctx.arg1))
  }

  predicate SlotOk(slot: Slot, current: nat, nextPid: nat, queues: Queues) {
    slot.Some? ==>
      var p := slot.value;
      && 1 <= p.pid < nextPid
      && (p.state == Running ==> p.pid == current)
      && NoLostWakeup(p, queues)
      && BlockedInCall(p)
  }

  /** What holds even in the middle of a step. */
  ghost predicate Consistent(s: Sys) {
    && s.nextPid >= 1
    && DistinctPids(s.table)
    && forall i {:trigger s.table[i]} :: 0 <= i < MAX_PROCESSES ==> SlotOk(s.table[i], s.current, s.nextPid, s.queues)
  }

  /** The current process is the one that runs. */
  ghost predicate CurrentRuns(s: Sys) {
    s.current != 0 ==> Current(s).Some? && s.table[Current(s).value].value.state == Running
  }

  ghost predicate SysOk(s: Sys) {
    Consistent(s) && CurrentRuns(s)
  }

  lemma FindHolds(t: Table, i: nat, pid: nat)
    requires DistinctPids(t) && Holds(t, i, pid)
    ensures Find(t, pid) == Some(i)
  {
  }

  lemma BootOk()
    ensures SysOk(BOOT)
  {
  }

  /** Replacing one record by a consistent one with the same pid. */
  lemma UpdateOk(s: Sys, i: nat, p: Process)
    requires Consistent(s) && i < MAX_PROCESSES && s.table[i].Some?
    requires p.pid == s.table[i].value.pid && SlotOk(Some(p), s.current, s.nextPid, s.queues)
    ensures Consistent(s.(table := Update(s.table, i, p)))
    ensures forall pid :: Find(Update(s.table, i, p), pid) == Find(s.table, pid)
  {
    var t := Update(s.table, i, p);
    forall j, k | 0 <= j < k < MAX_PROCESSES && t[j].Some? && t[k].Some?
      ensures t[j].value.pid != t[k].value.pid
    {
      assert s.table[j].Some? && s.table[k].Some?;
    }
    forall pid
      ensures Find(t, pid) == Find(s.table, pid)
    {
      FindFromSame(s.table, t, pid, 0);
    }
  }

  lemma WithCtxOk(s: Sys, r: Regs)
    requires SysOk(s)
    ensures SysOk(WithCtx(s, r)) && Current(WithCtx(s, r)) == Current(s)
  {
    if Current(s).Some? {
      var i := Current(s).value;
      UpdateOk(s, i, s.table[i].value.(ctx := r));
    }
  }

  lemma SetRaxOk(s: Sys, v: nat)
    requires SysOk(s)
    ensures SysOk(SetRax(s, v))
  {
    if Current(s).Some? {
      WithCtxOk(s, s.table[Current(s).value].value.ctx.(rax := v));
    }
  }

  lemma YieldedOk(s: Sys)
    requires Consistent(s) && (s.current != 0 ==> Current(s).Some?)
    ensures Consistent(s.(table := Yielded(s)))
    ensures forall i :: 0 <= i < MAX_PROCESSES ==> !InState(Yielded(s), i, Running)
    ensures forall pid :: Find(Yielded(s), pid) == Find(s.table, pid)
  {
    if Current(s).Some? {
      var i := Current(s).value;
      UpdateOk(s, i, s.table[i].value.(state := Ready));
      forall j | InState(s.table, j, Running)
        ensures j == i
      {
        FindHolds(s.table, j, s.current);
      }
    }
  }

  lemma ScheduleOk(s: Sys)
    requires Consistent(s) && (s.current != 0 ==> Current(s).Some?)
    ensures SysOk(Schedule(s))
  {
    YieldedOk(s);
    var y := s.(table := Yielded(s));
    match NextReadySlot(y.table, s.current)
    case None =>
    case Some(j) =>
      var p := y.table[j].value;
      var idle := y.(current := p.pid);
      assert forall i {:trigger y.table[i]} :: 0 <= i < MAX_PROCESSES ==> !InState(y.table, i, Running);
      UpdateOk(idle, j, p.(state := Running));
      FindHolds(Schedule(s).table, j, p.pid);
  }

  lemma UnblockOk(s: Sys, to: nat, q: seq<Message>)
    requires Consistent(s) && 0 < to < QUEUES
    ensures Consistent(s.(queues := s.queues[to := q], table := Unblock(s.table, to)))
    ensures forall pid :: Find(Unblock(s.table, to), pid) == Find(s.table, pid)
    ensures forall i :: 0 <= i < MAX_PROCESSES && !InState(s.table, i, Blocked) ==> Unblock(s.table, to)[i] == s.table[i]
  {
    var t, queues := Unblock(s.table, to), s.queues[to := q];
    if Find(s.table, to).Some? && InState(s.table, Find(s.table, to).value, Blocked) {
      var i := Find(s.table, to).value;
      UpdateOk(s, i, s.table[i].value.(state := Ready));
    }
    forall i | 0 <= i < MAX_PROCESSES
      ensures SlotOk(t[i], s.current, s.nextPid, queues)
    {
      assert SlotOk(s.table[i], s.current, s.nextPid, s.queues);
      if Holds(s.table, i, to) {
        FindHolds(s.table, i, to);
      }
    }
  }

  lemma SentOk(s: Sys, to: nat, m: Message)
    requires SysOk(s)
    ensures SysOk(Sent(s, to, m).0)
  {
    if 0 < to < QUEUES && Accepts(s.queues[to], m) {
      UnblockOk(s, to, Pushed(s.queues[to], m));
    }
  }

  lemma BlockedOnOk(s: Sys, r: Regs, waitingFor: Option<nat>)
    requires SysOk(s) && s.current != 0
    requires (r.rax == SYS_RECV && (s.current < QUEUES ==> s.queues[s.current] == []))
      || (r.rax == SYS_WAITPID && waitingFor == Some(r.arg1))
    ensures Consistent(BlockedOn(s, r, waitingFor)) && Current(BlockedOn(s, r, waitingFor)).Some?
  {
    var i := Current(s).value;
    var p := s.table[i].value;
    UpdateOk(s, i, p.(state := Blocked, ctx := r.(rip := Rewound(r.rip)),
      waitingFor := if waitingFor.Some? then waitingFor else p.waitingFor));
  }

  lemma ReceiveOk(s: Sys, r: Regs)
    requires SysOk(s) && s.current != 0 && r.rax == SYS_RECV
    ensures SysOk(Receive(s, r))
  {
    if s.current < QUEUES && s.queues[s.current] != [] {
      var q := s.queues[s.current];
      var popped := s.(queues := s.queues[s.current := q[1..]]);
      forall i | 0 <= i < MAX_PROCESSES
        ensures SlotOk(s.table[i], s.current, s.nextPid, popped.queues)
      {
        if Holds(s.table, i, s.current) {
          FindHolds(s.table, i, s.current);
        }
      }
      SetRaxOk(popped, q[0].sender);
    } else if r.arg2 == 1 {
      SetRaxOk(s, U64_MAX);
    } else {
      BlockedOnOk(s, r, None);
      ScheduleOk(BlockedOn(s, r, None));
    }
  }

  lemma WaitPidOk(s: Sys, r: Regs)
    requires SysOk(s) && s.current != 0 && r.rax == SYS_WAITPID
    ensures SysOk(WaitPid(s, r))
  {
    match Find(s.table, r.arg1)
    case None => SetRaxOk(s, U64_MAX);
    case Some(i) =>
      var child := s.table[i].value;
      if child.state == Dead {
        UpdateOk(s, i, child.(state := Empty));
        SetRaxOk(s.(table := WithState(s.table, i, Empty)), if child.exitCode.Some? then child.exitCode.value else 0);
      } else {
        BlockedOnOk(s, r, Some(r.arg1));
        ScheduleOk(BlockedOn(s, r, Some(r.arg1)));
      }
  }

  lemma WakeWaitersOk(s: Sys, pid: nat)
    requires Consistent(s)
    ensures Consistent(s.(table := WakeWaiters(s.table, pid)))
    ensures forall q :: Find(WakeWaiters(s.table, pid), q) == Find(s.table, q)
  {
    var t := WakeWaiters(s.table, pid);
    forall i, j | 0 <= i < j < MAX_PROCESSES && t[i].Some? && t[j].Some?
      ensures t[i].value.pid != t[j].value.pid
    {
      assert s.table[i].Some? && s.table[j].Some?;
    }
    forall i | 0 <= i < MAX_PROCESSES
      ensures SlotOk(t[i], s.current, s.nextPid, s.queues)
    {
      assert SlotOk(s.table[i], s.current, s.nextPid, s.queues);
    }
    forall q
      ensures Find(t, q) == Find(s.table, q)
    {
      FindFromSame(s.table, t, q, 0);
    }
  }

  lemma ExitOk(s: Sys, code: nat)
    requires SysOk(s) && s.current != 0
    ensures SysOk(Exit(s, code))
  {
    WakeWaitersOk(s, s.current);
    var w := s.(table := WakeWaiters(s.table, s.current));
    var i := Current(s).value;
    var p := w.table[i].value;
    UpdateOk(w, i, p.(vmas := [], exitCode := Some(code), state := if AnyWaiter(s.table, s.current) then Dead else Empty));
    ScheduleOk(s.(table := Exited(s.table, s.current, code)));
  }

  lemma SpawnOk(s: Sys, o: Outcome)
    requires SysOk(s)
    ensures SysOk(SpawnResult(s, o).0)
  {
    var n := SpawnResult(s, o).0;
    assert forall i {:trigger s.table[i]} :: 0 <= i < MAX_PROCESSES ==> SlotOk(s.table[i], s.current, n.nextPid, s.queues);
    if o.Loaded? && FreeSlotFrom(s.table, 0).Some? {
      var f := FreeSlotFrom(s.table, 0).value;
      forall i, j | 0 <= i < j < MAX_PROCESSES && n.table[i].Some? && n.table[j].Some?
        ensures n.table[i].value.pid != n.table[j].value.pid
      {
        assert i == f || n.table[i] == s.table[i];
        assert j == f || n.table[j] == s.table[j];
      }
      if s.current != 0 {
        FindHolds(n.table, Current(s).value, s.current);
      }
    }
  }

  lemma SystemCallOk(s: Sys, r: Regs)
    requires SysOk(s) && s.current != 0
    ensures SysOk(SystemCall(s, r))
  {
    if r.rax == SYS_SEND {
      var m := Message(s.current, r.arg2, r.arg3, r.arg4, r.arg5, r.arg6, r.arg7, 0);
      SentOk(s, r.arg1, m);
      SetRaxOk(Sent(s, r.arg1, m).0, if Sent(s, r.arg1, m).1 then 0 else 1);
    } else if r.rax == SYS_RECV {
      ReceiveOk(s, r);
    } else if r.rax == SYS_EXIT {
      ExitOk(s, r.arg1);
    } else if r.rax == SYS_YIELD {
      ScheduleOk(s);
    } else if r.rax == SYS_WAITPID {
      WaitPidOk(s, r);
    } else {
      SetRaxOk(s, U64_MAX);
    }
  }

  lemma MemoryOk(s: Sys, vmas: seq<Vma>, heapBreak: nat)
    requires SysOk(s)
    ensures SysOk(WithMemory(s, vmas, heapBreak))
  {
    if Current(s).Some? {
      var i := Current(s).value;
      UpdateOk(s, i, s.table[i].value.(vmas := vmas, heapBreak := heapBreak));
    }
  }

  /** Every step keeps the invariant. */
  lemma StepOk(s: Sys, ev: Event)
    requires SysOk(s) && Enabled(s, ev)
    ensures SysOk(Step(s, ev))
  {
    match ev
    case Tick(r) =>
      WithCtxOk(s, r);
      ScheduleOk(WithCtx(s, r));
    case Irq(to, kind, data) =>
      SentOk(s, to, Message(s.current, kind, data, 0, 0, 0, 0, 0));
    case Call(r) =>
      WithCtxOk(s, r);
      SystemCallOk(WithCtx(s, r), r);
    case MemoryCall(r, rax, vmas, heapBreak) =>
      WithCtxOk(s, r);
      MemoryOk(WithCtx(s, r), vmas, heapBreak);
      SetRaxOk(WithMemory(WithCtx(s, r), vmas, heapBreak), rax);
    case Spawn(r, o) =>
      WithCtxOk(s, r);
      SpawnOk(WithCtx(s, r), o);
      SetRaxOk(SpawnResult(WithCtx(s, r), o).0, SpawnResult(WithCtx(s, r), o).1);
    case Fault(r, served) =>
      WithCtxOk(s, r);
      if !served {
        ExitOk(WithCtx(s, r), U64_MAX);
      }
  }

  // ---------- Runs ----------

  ghost predicate IsRun(run: seq<Sys>, evs: seq<Event>) {
    && |run| == |evs| + 1
    && forall i {:trigger run[i], evs[i]} :: 0 <= i < |evs| ==> Enabled(run[i], evs[i]) && run[i + 1] == Step(run[i], evs[i])
  }

  /** The invariant holds in every state of every run that starts well. */
  lemma {:induction false} RunOk(run: seq<Sys>, evs: seq<Event>, n: nat)
    requires IsRun(run, evs) && SysOk(run[0]) && n < |run|
    ensures SysOk(run[n])
  {
    if n > 0 {
      RunOk(run, evs, n - 1);
      assert run[n - 1 + 1] == Step(run[n - 1], evs[n - 1]);
      StepOk(run[n - 1], evs[n - 1]);
    }
  }

  /** No lost wakeup, over all runs from boot. */
  lemma NoWakeupIsLost(run: seq<Sys>, evs: seq<Event>, n: nat, i: nat)
    requires IsRun(run, evs) && run[0] == BOOT && n < |run|
    requires InState(run[n].table, i, Blocked)
    requires run[n].table[i].value.ctx.rax == SYS_RECV && run[n].table[i].value.pid < QUEUES
    ensures run[n].queues[run[n].table[i].value.pid] == []
  {
    BootOk();
    RunOk(run, evs, n);
    assert SlotOk(run[n].table[i], run[n].current, run[n].nextPid, run[n].queues);
  }

  /** Between steps the only running process is the current one; there is none when
      the kernel idles. */
  lemma RunningIsCurrent(run: seq<Sys>, evs: seq<Event>, n: nat, i: nat)
    requires IsRun(run, evs) && run[0] == BOOT && n < |run| && i < MAX_PROCESSES
    ensures InState(run[n].table, i, Running) <==> run[n].current != 0 && Holds(run[n].table, i, run[n].current)
  {
    BootOk();
    RunOk(run, evs, n);
    var s := run[n];
    assert SlotOk(s.table[i], s.current, s.nextPid, s.queues);
    if s.current != 0 && Holds(s.table, i, s.current) {
      FindHolds(s.table, i, s.current);
    }
  }
}
