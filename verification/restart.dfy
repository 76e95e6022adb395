/** What restarting a blocked call comes to: a woken receiver gets its message, and a
    parent woken by an exit gets the exit code, within 64 scheduler calls. */
module Restart {
  import opened Frames
  import opened PageTree
  import opened Vmas
  import opened Ipc
  import opened Processes
  import opened System
  import opened Progress
  import opened Calls

  /** The frame that a blocked call saves makes the process issue exactly that call again. */
  lemma RestartRepeatsCall(s: Sys, r: Regs, waitingFor: Option<nat>)
    requires Current(s).Some? && r.rip < U64
    ensures AfterTrap(BlockedOn(s, r, waitingFor).table[Current(s).value].value.ctx) == r
  {
  }

  /** The process in slot `i` runs again, with the frame that it had in `run[0]`. */
  predicate ResumedAt(run: seq<Sys>, i: nat, k: nat) {
    && 0 < k < |run| && SameProcess(run[0], run[k], i)
    && InState(run[k].table, i, Running) && run[k].current == run[k].table[i].value.pid
  }

  lemma TailIsRun(run: seq<Sys>, evs: seq<Event>)
    requires IsRun(run, evs) && evs != []
    ensures IsRun(run[1..], evs[1..]) && run[1] == Step(run[0], evs[0]) && Enabled(run[0], evs[0])
  {
    assert run[0 + 1] == Step(run[0], evs[0]);
    forall i | 0 <= i < |evs[1..]|
      ensures Enabled(run[1..][i], evs[1..][i]) && run[1..][i + 1] == Step(run[1..][i], evs[1..][i])
    {
      assert run[i + 1 + 1] == Step(run[i + 1], evs[i + 1]);
    }
  }

  /** A process that the first step woke runs again within 64 scheduler calls, and was
      Ready, and so not the current process, until then. */
  lemma Resumes(run: seq<Sys>, evs: seq<Event>, i: nat) returns (k: nat)
    requires IsRun(run, evs) && SysOk(run[0]) && evs != [] && SameProcess(run[0], run[1], i)
    requires InState(run[1].table, i, Ready) || InState(run[1].table, i, Running)
    requires SchedulerCalls(run[1..], evs[1..], |evs| - 1) >= MAX_PROCESSES
    ensures ResumedAt(run, i, k)
    ensures forall n :: 0 < n < k ==> InState(run[n].table, i, Ready) && SameProcess(run[0], run[n], i)
  {
    hide Step, SysOk, Enabled;
    TailIsRun(run, evs);
    RunOk(run, evs, 1);
    if InState(run[1].table, i, Running) {
      RunningHolds(run[1], i);
      return 1;
    }
    DispatchedWithin64(run[1..], evs[1..], i);
    var d: nat :| DispatchedAt(run[1..], i, d);
    k := d + 1;
    assert run[k] == run[1..][d];
    forall n | 0 < n < k
      ensures InState(run[n].table, i, Ready) && SameProcess(run[0], run[n], i)
    {
      assert run[n] == run[1..][n - 1];
    }
  }

  lemma RunningHolds(s: Sys, i: nat)
    requires SysOk(s) && InState(s.table, i, Running)
    ensures s.current == s.table[i].value.pid
  {
    assert SlotOk(s.table[i], s.current, s.nextPid, s.queues);
  }

  // ---------- A blocked process in one step ----------

  /** The slot keeps its process and its frame, and the process is still alive. */
  predicate Kept(a: Slot, b: Slot) {
    && a.Some? && b.Some? && b.value.pid == a.value.pid && b.value.ctx == a.value.ctx
    && (b.value.state == Blocked || b.value.state == Ready || b.value.state == Running)
  }

  predicate NotCurrent(s: Sys, i: nat) {
    i < MAX_PROCESSES && s.table[i].Some? && s.table[i].value.pid != s.current
  }

  lemma BlockedNotCurrent(s: Sys, i: nat)
    requires SysOk(s) && InState(s.table, i, Blocked)
    ensures NotCurrent(s, i) && Kept(s.table[i], s.table[i])
  {
    if s.table[i].value.pid == s.current {
      assert SlotOk(s.table[i], s.current, s.nextPid, s.queues);
      FindHolds(s.table, i, s.current);
    }
  }

  lemma CtxSpares(s: Sys, r: Regs, i: nat)
    requires NotCurrent(s, i)
    ensures WithCtx(s, r).table[i] == s.table[i] && WithCtx(s, r).current == s.current
  {
  }

  lemma RaxSpares(s: Sys, v: nat, i: nat)
    requires NotCurrent(s, i)
    ensures SetRax(s, v).table[i] == s.table[i]
  {
  }

  lemma ScheduleKept(s: Sys, i: nat)
    requires i < MAX_PROCESSES && Kept(s.table[i], s.table[i])
    ensures Kept(s.table[i], Schedule(s).table[i])
  {
    hide Find, StartSlot;
  }

  lemma BlockSpares(s: Sys, r: Regs, waitingFor: Option<nat>, i: nat)
    requires NotCurrent(s, i) && Kept(s.table[i], s.table[i])
    ensures Kept(s.table[i], Schedule(BlockedOn(s, r, waitingFor)).table[i])
  {
    hide Schedule;
    assert BlockedOn(s, r, waitingFor).table[i] == s.table[i];
    ScheduleKept(BlockedOn(s, r, waitingFor), i);
  }

  lemma SentKept(s: Sys, to: nat, m: Message, v: nat, i: nat)
    requires NotCurrent(s, i) && Kept(s.table[i], s.table[i])
    ensures Kept(s.table[i], Sent(s, to, m).0.table[i]) && Kept(s.table[i], SetRax(Sent(s, to, m).0, v).table[i])
  {
    hide SetRax, Find, Accepts, Pushed;
    RaxSpares(Sent(s, to, m).0, v, i);
  }

  lemma ExitKept(s: Sys, code: nat, i: nat)
    requires NotCurrent(s, i) && Kept(s.table[i], s.table[i])
    ensures Kept(s.table[i], Exit(s, code).table[i])
  {
    hide Schedule;
    var u := s.(table := Exited(s.table, s.current, code));
    assert Kept(s.table[i], u.table[i]);
    ScheduleKept(u, i);
  }

  lemma WaitKept(s: Sys, r: Regs, i: nat)
    requires NotCurrent(s, i) && Kept(s.table[i], s.table[i])
    ensures Kept(s.table[i], WaitPid(s, r).table[i])
  {
    hide Schedule, SetRax, BlockedOn;
    RaxSpares(s, U64_MAX, i);
    BlockSpares(s, r, Some(r.arg1), i);
    match Find(s.table, r.arg1)
    case None =>
    case Some(c) =>
      if s.table[c].value.state == Dead {
        var u := s.(table := WithState(s.table, c, Empty));
        RaxSpares(u, if s.table[c].value.exitCode.Some? then s.table[c].value.exitCode.value else 0, i);
      }
  }

  lemma ReceiveKept(s: Sys, r: Regs, i: nat)
    requires NotCurrent(s, i) && Kept(s.table[i], s.table[i])
    ensures Kept(s.table[i], Receive(s, r).table[i])
  {
    hide Schedule, SetRax, BlockedOn;
    RaxSpares(s, U64_MAX, i);
    BlockSpares(s, r, None, i);
    if s.current < QUEUES && s.queues[s.current] != [] {
      var q := s.queues[s.current];
      RaxSpares(s.(queues := s.queues[s.current := q[1..]]), q[0].sender, i);
    }
  }

  lemma CallKept(s: Sys, r: Regs, i: nat)
    requires NotCurrent(s, i) && Kept(s.table[i], s.table[i])
    ensures Kept(s.table[i], SystemCall(s, r).table[i])
  {
    hide Schedule, SetRax, Sent, Receive, Exit, WaitPid, Kept;
    if r.rax == SYS_SEND {
      var m := Message(s.current, r.arg2, r.arg3, r.arg4, r.arg5, r.arg6, r.arg7, 0);
      SentKept(s, r.arg1, m, if Sent(s, r.arg1, m).1 then 0 else 1, i);
    } else if r.rax == SYS_RECV {
      ReceiveKept(s, r, i);
    } else if r.rax == SYS_EXIT {
      ExitKept(s, r.arg1, i);
    } else if r.rax == SYS_YIELD {
      ScheduleKept(s, i);
    } else if r.rax == SYS_WAITPID {
      WaitKept(s, r, i);
    } else {
      RaxSpares(s, U64_MAX, i);
    }
  }

  lemma SpawnKept(s: Sys, o: Outcome, i: nat)
    requires NotCurrent(s, i) && Kept(s.table[i], s.table[i])
    ensures Kept(s.table[i], SetRax(SpawnResult(s, o).0, SpawnResult(s, o).1).table[i])
  {
    hide SetRax;
    assert SpawnResult(s, o).0.table[i] == s.table[i];
    RaxSpares(SpawnResult(s, o).0, SpawnResult(s, o).1, i);
  }

  lemma MemoryKept(s: Sys, rax: nat, vmas: seq<Vma>, heapBreak: nat, i: nat)
    requires NotCurrent(s, i) && Kept(s.table[i], s.table[i])
    ensures Kept(s.table[i], SetRax(WithMemory(s, vmas, heapBreak), rax).table[i])
  {
    hide SetRax;
    assert WithMemory(s, vmas, heapBreak).table[i] == s.table[i];
    RaxSpares(WithMemory(s, vmas, heapBreak), rax, i);
  }

  /** No step ends a blocked process or touches its frame. */
  lemma BlockedIsKept(s: Sys, ev: Event, i: nat)
    requires SysOk(s) && Enabled(s, ev) && InState(s.table, i, Blocked)
    ensures Kept(s.table[i], Step(s, ev).table[i])
  {
    hide SysOk, Schedule, WithCtx, SetRax, Sent, SystemCall, WithMemory, SpawnResult, Exit, Kept;
    BlockedNotCurrent(s, i);
    if !ev.Irq? {
      CtxSpares(s, ev.regs, i);
    }
    match ev
    case Tick(r) => ScheduleKept(WithCtx(s, r), i);
    case Irq(to, kind, data) => SentKept(s, to, Message(s.current, kind, data, 0, 0, 0, 0, 0), 0, i);
    case Call(r) => CallKept(WithCtx(s, r), r, i);
    case MemoryCall(r, rax, vmas, heapBreak) => MemoryKept(WithCtx(s, r), rax, vmas, heapBreak, i);
    case Spawn(r, o) => SpawnKept(WithCtx(s, r), o, i);
    case Fault(r, served) =>
      if !served {
        ExitKept(WithCtx(s, r), U64_MAX, i);
      }
  }

  // ---------- The waiting parent ----------

  /** The current process ends with this code: it exits, or a fault kills it. */
  predicate Ends(ev: Event, code: nat) {
    (ev.Call? && ev.regs.rax == SYS_EXIT && code == ev.regs.arg1) || (ev.Fault? && !ev.served && code == U64_MAX)
  }

  /** The restarted wait returns the code, and its caller keeps the processor. */
  predicate GetsCode(run: seq<Sys>, evs: seq<Event>, i: nat, k: nat, code: nat) {
    && k + 1 < |run| && k < |evs| && evs[k].Call?
    && InState(run[k + 1].table, i, Running) && run[k + 1].table[i].value.ctx == evs[k].regs.(rax := code)
  }

  /** The process in slot `i` restarts at step `k` the call in which it blocked. */
  predicate RestartsAt(run: seq<Sys>, evs: seq<Event>, i: nat, k: nat) {
    && 0 < k < |evs| && k < |run| && i < MAX_PROCESSES && run[0].table[i].Some?
    && Current(run[k]) == Some(i) && evs[k] == Call(AfterTrap(run[0].table[i].value.ctx))
  }

  /** No step from 1 up to `k` is a wait for `pid`. */
  ghost predicate NobodyWaited(evs: seq<Event>, pid: nat, k: nat) {
    forall n :: 0 < n < k && n < |evs| ==> !IsWaitFor(evs[n], pid)
  }

  /** A process blocked in a wait for `pid` when that process ends runs again within 64
      scheduler calls; and at whatever later step it restarts its call, after any ticks and
      interrupts, the call returns the code unless somebody waited for `pid` before. */
  lemma WaitingParentGetsCode(run: seq<Sys>, evs: seq<Event>, i: nat, code: nat)
    requires IsRun(run, evs) && SysOk(run[0]) && evs != [] && Ends(evs[0], code)
    requires InState(run[0].table, i, Blocked)
    requires run[0].table[i].value.ctx.rax == SYS_WAITPID && run[0].table[i].value.ctx.arg1 == run[0].current
    ensures SchedulerCalls(run[1..], evs[1..], |evs| - 1) >= MAX_PROCESSES ==> exists k: nat :: ResumedAt(run, i, k)
    ensures forall k: nat {:trigger RestartsAt(run, evs, i, k)} ::
      RestartsAt(run, evs, i, k) && NobodyWaited(evs, run[0].current, k) ==> GetsCode(run, evs, i, k, code)
  {
    hide Step, SysOk, Enabled, Ends, GetsCode, IsWaitFor, RestartsAt, DeadWith, SchedulerCalls, ResumedAt, NobodyWaited;
    TailIsRun(run, evs);
    EndHandsOff(run[0], evs[0], i, code);
    if SchedulerCalls(run[1..], evs[1..], |evs| - 1) >= MAX_PROCESSES {
      var k := Resumes(run, evs, i);
    }
    forall k: nat | RestartsAt(run, evs, i, k) && NobodyWaited(evs, run[0].current, k)
      ensures GetsCode(run, evs, i, k, code)
    {
      RestartedWait(run, evs, i, Current(run[0]).value, code, k);
    }
  }

  lemma DeadUntil(run: seq<Sys>, evs: seq<Event>, c: nat, pid: nat, code: nat, k: nat)
    requires IsRun(run, evs) && SysOk(run[0]) && 0 < k < |evs| && DeadWith(run[1], c, pid, code)
    requires NobodyWaited(evs, pid, k)
    ensures DeadWith(run[k], c, pid, code)
  {
    hide Step, SysOk, Enabled, IsWaitFor, DeadWith;
    TailIsRun(run, evs);
    RunOk(run, evs, 1);
    DeadThrough(run[1..], evs[1..], c, pid, code, k - 1);
    assert run[k] == run[1..][k - 1];
  }

  /** The step in which the parent restarts its wait. */
  lemma RestartedWait(run: seq<Sys>, evs: seq<Event>, i: nat, c: nat, code: nat, k: nat)
    requires IsRun(run, evs) && SysOk(run[0]) && RestartsAt(run, evs, i, k) && DeadWith(run[1], c, run[0].current, code)
    requires run[0].table[i].value.ctx.rax == SYS_WAITPID && run[0].table[i].value.ctx.arg1 == run[0].current
    requires NobodyWaited(evs, run[0].current, k)
    ensures GetsCode(run, evs, i, k, code)
  {
    hide Step, SysOk, Enabled, DeadWith;
    DeadUntil(run, evs, c, run[0].current, code, k);
    RunOk(run, evs, k);
    assert run[k + 1] == Step(run[k], evs[k]);
    CurrentIsSome(run[k], i);
    WaitReaps(run[k], evs[k].regs, c, run[0].current, code);
  }

  lemma CurrentIsSome(s: Sys, i: nat)
    requires SysOk(s) && Current(s) == Some(i)
    ensures s.current != 0 && InState(s.table, i, Running) && s.table[i].value.pid == s.current
  {
  }

  lemma EndHandsOff(s: Sys, ev: Event, i: nat, code: nat)
    requires SysOk(s) && Enabled(s, ev) && Ends(ev, code) && InState(s.table, i, Blocked)
    requires s.table[i].value.ctx.rax == SYS_WAITPID && s.table[i].value.ctx.arg1 == s.current
    ensures Current(s).Some?
    ensures var n := Step(s, ev);
      && DeadWith(n, Current(s).value, s.current, code)
      && SameProcess(s, n, i) && (InState(n.table, i, Ready) || InState(n.table, i, Running))
  {
    hide Step, Schedule;
    if ev.Call? {
      ExitHandsOff(s, ev.regs, i);
    } else {
      KillHandsOff(s, ev.regs, i);
    }
  }

  // ---------- The code that nobody waits for ----------

  lemma CtxKeepsWaiters(s: Sys, r: Regs, pid: nat)
    requires SysOk(s)
    ensures AnyWaiter(WithCtx(s, r).table, pid) <==> AnyWaiter(s.table, pid)
  {
    var n := WithCtx(s, r);
    assert forall i :: 0 <= i < MAX_PROCESSES ==> WaitsFor(n.table[i], pid) == WaitsFor(s.table[i], pid);
  }

  /** Without a waiter the slot is released at once, and with it the code. */
  lemma ExitUnawaited(u: Sys, code: nat)
    requires SysOk(u) && u.current != 0 && !AnyWaiter(u.table, u.current)
    ensures Gone(Exit(u, code), u.current)
  {
    hide Schedule, AnyWaiter, ScanReady;
    var c := Current(u).value;
    ExitOk(u, code);
    WakeWaitersOk(u, u.current);
    var e := u.(table := Exited(u.table, u.current, code));
    assert InState(e.table, c, Empty) && e.table[c].value.pid == u.current;
    ScheduleRevivesNobody(e, c);
    ExitKeepsNextPid(u, code);
    ReapedIsGone(Exit(u, code), c, u.current);
  }

  /** The exit code is kept for a later wait if and only if, when the process ends, some
      process is Blocked in a wait for it; otherwise no process with this pid is left. */
  lemma CodeKeptIff(s: Sys, ev: Event, code: nat)
    requires SysOk(s) && Enabled(s, ev) && Ends(ev, code)
    ensures Current(s).Some?
    ensures DeadWith(Step(s, ev), Current(s).value, s.current, code) <==> AnyWaiter(s.table, s.current)
    ensures Gone(Step(s, ev), s.current) <==> !AnyWaiter(s.table, s.current)
  {
    hide Exit, WithCtx, SysOk, AnyWaiter, WaitsFor, Gone, DeadWith, Step;
    var u := WithCtx(s, ev.regs);
    CtxKeepsWaiters(s, ev.regs, s.current);
    WithCtxOk(s, ev.regs);
    CtxKeepsQueues(s, ev.regs);
    EndsIsExit(s, ev, code);
    CurrentSome(s);
    if AnyWaiter(s.table, s.current) {
      var i := WaiterOf(u.table, s.current);
      ExitWoken(u, code, i);
    } else {
      ExitUnawaited(u, code);
    }
    DeadIsNotGone(Step(s, ev), Current(s).value, s.current, code);
  }

  lemma DeadIsNotGone(n: Sys, c: nat, pid: nat, code: nat)
    ensures !(DeadWith(n, c, pid, code) && Gone(n, pid))
  {
    if DeadWith(n, c, pid, code) {
      assert Holds(n.table, c, pid);
    }
  }

  lemma CurrentSome(s: Sys)
    requires SysOk(s) && s.current != 0
    ensures Current(s).Some? && Holds(s.table, Current(s).value, s.current)
  {
  }

  lemma WaiterOf(t: Table, pid: nat) returns (i: nat)
    requires AnyWaiter(t, pid)
    ensures i < MAX_PROCESSES && WaitsFor(t[i], pid)
  {
    i :| 0 <= i < MAX_PROCESSES && WaitsFor(t[i], pid);
  }

  lemma EndsIsExit(s: Sys, ev: Event, code: nat)
    requires Enabled(s, ev) && Ends(ev, code)
    ensures s.current != 0 && Step(s, ev) == Exit(WithCtx(s, ev.regs), code)
  {
    hide Exit, WithCtx;
  }

  /** A message wakes a parent out of its wait: it is Ready, and waits for nobody. */
  lemma MessageEndsWait(s: Sys, ev: Event, i: nat, pid: nat)
    requires SysOk(s) && ev.Irq? && i < MAX_PROCESSES && WaitsFor(s.table[i], pid) && ev.to == s.table[i].value.pid < QUEUES
    requires Accepts(s.queues[ev.to], Message(s.current, ev.kind, ev.data, 0, 0, 0, 0, 0))
    ensures var n := Step(s, ev);
      && n.current == s.current && SameProcess(s, n, i) && InState(n.table, i, Ready)
      && (AnyWaiter(n.table, pid) <==> exists j :: 0 <= j < MAX_PROCESSES && j != i && WaitsFor(s.table[j], pid))
  {
    hide Accepts, Pushed;
    FindHolds(s.table, i, ev.to);
    assert SlotOk(s.table[i], s.current, s.nextPid, s.queues);
    var n := Step(s, ev);
    assert n.table == WithState(s.table, i, Ready);
    forall j | 0 <= j < MAX_PROCESSES
      ensures WaitsFor(n.table[j], pid) <==> j != i && WaitsFor(s.table[j], pid)
    {
    }
  }

  /** The interleaving that loses the code: an interrupt handler sends to the only process
      that waits for the current one, and the current one ends before that process has
      restarted its wait. From then on no process with this pid is left. */
  lemma MessageLosesCode(run: seq<Sys>, evs: seq<Event>, i: nat, code: nat)
    requires IsRun(run, evs) && SysOk(run[0]) && |evs| >= 2 && evs[0].Irq? && Ends(evs[1], code)
    requires i < MAX_PROCESSES && WaitsFor(run[0].table[i], run[0].current)
    requires forall j :: 0 <= j < MAX_PROCESSES && j != i ==> !WaitsFor(run[0].table[j], run[0].current)
    requires evs[0].to == run[0].table[i].value.pid < QUEUES
    requires Accepts(run[0].queues[evs[0].to], Message(run[0].current, evs[0].kind, evs[0].data, 0, 0, 0, 0, 0))
    ensures InState(run[1].table, i, Ready)
    ensures forall k :: 2 <= k < |run| ==> Gone(run[k], run[0].current)
  {
    hide Step, SysOk, Enabled, Ends, Gone, AnyWaiter, WaitsFor, Accepts;
    assert run[0 + 1] == Step(run[0], evs[0]) && run[1 + 1] == Step(run[1], evs[1]) && Enabled(run[1], evs[1]);
    MessageEndsWait(run[0], evs[0], i, run[0].current);
    RunOk(run, evs, 1);
    CodeKeptIff(run[1], evs[1], code);
    forall k | 2 <= k < |run|
      ensures Gone(run[k], run[0].current)
    {
      GoneThrough(run, evs, run[0].current, 2, k);
    }
  }

  /** What a wait then comes to: the error value, or a block that no exit of the process
      ends, as long as its Empty slot still names it. */
  lemma WaitForGone(s: Sys, r: Regs, pid: nat)
    requires SysOk(s) && s.current != 0 && Gone(s, pid) && IsWaitFor(Call(r), pid)
    ensures var n, c := Step(s, Call(r)), Current(s).value;
      if Find(s.table, pid).None? then InState(n.table, c, Running) && n.table[c].value.ctx == r.(rax := U64_MAX)
      else InState(n.table, c, Blocked) && n.table[c].value.waitingFor == Some(pid)
  {
    hide Schedule, ScanReady, FindFrom;
    WithCtxOk(s, r);
    var u := WithCtx(s, r);
    assert Find(u.table, pid) == Find(s.table, pid) by {
      CtxFindsSame(s, r, pid);
    }
    if Find(s.table, pid).Some? {
      assert InState(s.table, Find(s.table, pid).value, Empty);
      BlockedOnOk(u, r, Some(pid));
      ScheduleRevivesNobody(BlockedOn(u, r, Some(pid)), Current(s).value);
    }
  }

  lemma CtxFindsSame(s: Sys, r: Regs, pid: nat)
    ensures Find(WithCtx(s, r).table, pid) == Find(s.table, pid)
  {
    FindFromSame(s.table, WithCtx(s, r).table, pid, 0);
  }

  // ---------- The woken receiver ----------

  /** The queue still starts with the message, or with a move of its sender that replaced it. */
  predicate Heads(q: seq<Message>, m: Message) {
    q != [] && q[0].sender == m.sender && (m.kind != MSG_MOUSE_MOVE ==> q[0] == m)
  }

  lemma PushKeepsHead(q: seq<Message>, m: Message, n: Message)
    requires Heads(q, m)
    ensures Heads(Pushed(q, n), m)
  {
  }

  /** The process `pid` itself calls SYS_RECV. */
  predicate Receives(s: Sys, ev: Event, pid: nat) {
    s.current == pid && ev.Call? && ev.regs.rax == SYS_RECV
  }

  /** Only a receive of its own takes messages from the queue of a process. */
  lemma OnlyReceivePops(s: Sys, ev: Event, pid: nat) returns (m: Message)
    requires SysOk(s) && Enabled(s, ev) && pid < QUEUES && !Receives(s, ev, pid)
    ensures Step(s, ev).queues[pid] == s.queues[pid] || Step(s, ev).queues[pid] == Pushed(s.queues[pid], m)
  {
    hide Schedule, WithCtx, SetRax, Sent, BlockedOn, WithMemory, Exited, SpawnResult, Pushed, SysOk;
    m := Message(0, 0, 0, 0, 0, 0, 0, 0);
    if !ev.Irq? {
      CtxKeepsQueues(s, ev.regs);
    }
    match ev
    case Tick(r) => ScheduleKeepsQueues(WithCtx(s, r));
    case Irq(to, kind, data) =>
      m := Message(s.current, kind, data, 0, 0, 0, 0, 0);
      SentPushes(s, to, m, pid);
    case Call(r) => m := CallOnlyPushes(WithCtx(s, r), r, pid);
    case MemoryCall(r, rax, vmas, heapBreak) => MemoryKeepsQueues(WithCtx(s, r), vmas, heapBreak, rax);
    case Spawn(r, o) => SpawnKeepsQueues(WithCtx(s, r), o);
    case Fault(r, served) => ScheduleKeepsQueues(WithCtx(s, r).(table := Exited(WithCtx(s, r).table, s.current, U64_MAX)));
  }

  lemma CtxKeepsQueues(s: Sys, r: Regs)
    ensures WithCtx(s, r).queues == s.queues && WithCtx(s, r).current == s.current
  {
  }

  lemma RaxKeepsQueues(s: Sys, v: nat)
    ensures SetRax(s, v).queues == s.queues
  {
  }

  lemma ScheduleKeepsQueues(s: Sys)
    ensures Schedule(s).queues == s.queues
  {
    hide NextReadySlot, Yielded;
  }

  lemma MemoryKeepsQueues(s: Sys, vmas: seq<Vma>, heapBreak: nat, v: nat)
    ensures SetRax(WithMemory(s, vmas, heapBreak), v).queues == s.queues
  {
    hide SetRax;
    RaxKeepsQueues(WithMemory(s, vmas, heapBreak), v);
  }

  lemma SpawnKeepsQueues(s: Sys, o: Outcome)
    ensures SetRax(SpawnResult(s, o).0, SpawnResult(s, o).1).queues == s.queues
  {
    hide SetRax, Installed;
    RaxKeepsQueues(SpawnResult(s, o).0, SpawnResult(s, o).1);
  }

  lemma SentPushes(s: Sys, to: nat, m: Message, pid: nat)
    requires pid < QUEUES
    ensures Sent(s, to, m).0.queues[pid] == s.queues[pid] || Sent(s, to, m).0.queues[pid] == Pushed(s.queues[pid], m)
  {
    hide Pushed, Accepts, Unblock;
  }

  lemma CallOnlyPushes(s: Sys, r: Regs, pid: nat) returns (m: Message)
    requires pid < QUEUES && (s.current != pid || r.rax != SYS_RECV)
    ensures SystemCall(s, r).queues[pid] == s.queues[pid] || SystemCall(s, r).queues[pid] == Pushed(s.queues[pid], m)
  {
    hide Schedule, SetRax, Sent, BlockedOn, Exited, Pushed;
    m := Message(s.current, r.arg2, r.arg3, r.arg4, r.arg5, r.arg6, r.arg7, 0);
    if r.rax == SYS_SEND {
      SentPushes(s, r.arg1, m, pid);
      RaxKeepsQueues(Sent(s, r.arg1, m).0, if Sent(s, r.arg1, m).1 then 0 else 1);
    } else {
      CallKeepsQueue(s, r, pid);
    }
  }

  lemma CallKeepsQueue(s: Sys, r: Regs, pid: nat)
    requires pid < QUEUES && (s.current != pid || r.rax != SYS_RECV) && r.rax != SYS_SEND
    ensures SystemCall(s, r).queues[pid] == s.queues[pid]
  {
    hide Schedule, SetRax, Exited;
    forall u: Sys, v: nat
      ensures SetRax(u, v).queues == u.queues
    {
      RaxKeepsQueues(u, v);
    }
    forall u: Sys
      ensures Schedule(u).queues == u.queues
    {
      ScheduleKeepsQueues(u);
    }
  }

  lemma HeadStaysOnce(s: Sys, ev: Event, pid: nat, m: Message)
    requires SysOk(s) && Enabled(s, ev) && pid < QUEUES && Heads(s.queues[pid], m) && !Receives(s, ev, pid)
    ensures Heads(Step(s, ev).queues[pid], m)
  {
    hide Step, SysOk, Enabled, Heads, Pushed;
    var e := OnlyReceivePops(s, ev, pid);
    PushKeepsHead(s.queues[pid], m, e);
  }

  lemma {:induction false} HeadStays(run: seq<Sys>, evs: seq<Event>, pid: nat, m: Message, n: nat)
    requires IsRun(run, evs) && SysOk(run[0]) && 0 < n < |run| && pid < QUEUES && Heads(run[1].queues[pid], m)
    requires forall j :: 0 < j < n ==> !Receives(run[j], evs[j], pid)
    ensures Heads(run[n].queues[pid], m)
  {
    hide Step, SysOk, Enabled, Heads, Receives;
    if n > 1 {
      HeadStays(run, evs, pid, m, n - 1);
      RunOk(run, evs, n - 1);
      assert run[n - 1 + 1] == Step(run[n - 1], evs[n - 1]) && Enabled(run[n - 1], evs[n - 1]);
      HeadStaysOnce(run[n - 1], evs[n - 1], pid, m);
    }
  }

  /** The restarted receive takes the message at the head and returns its sender. */
  predicate GetsMessage(run: seq<Sys>, evs: seq<Event>, i: nat, k: nat, pid: nat, m: Message) {
    && k + 1 < |run| && k < |evs| && evs[k].Call? && pid < QUEUES
    && Heads(run[k].queues[pid], m) && run[k + 1].queues[pid] == run[k].queues[pid][1..]
    && InState(run[k + 1].table, i, Running) && run[k + 1].table[i].value.ctx == evs[k].regs.(rax := m.sender)
  }

  /** A process blocked in receive to which a step brings the message `m` runs again within
      64 scheduler calls; and its first receive after that, at whatever later step and after
      any ticks and interrupts, takes that message (or, for a mouse move, a later move of the
      same sender that replaced it). The restarted call is such a receive. */
  lemma WokenReceiverGetsMessage(run: seq<Sys>, evs: seq<Event>, i: nat, m: Message)
    requires IsRun(run, evs) && SysOk(run[0]) && evs != []
    requires InState(run[0].table, i, Blocked) && run[0].table[i].value.ctx.rax == SYS_RECV
    requires run[0].table[i].value.pid < QUEUES && run[1].queues[run[0].table[i].value.pid] == [m]
    ensures SchedulerCalls(run[1..], evs[1..], |evs| - 1) >= MAX_PROCESSES ==> exists k: nat :: ResumedAt(run, i, k)
    ensures var pid := run[0].table[i].value.pid;
      && (forall k: nat {:trigger FirstReceive(run, evs, i, k, pid)} ::
            FirstReceive(run, evs, i, k, pid) ==> GetsMessage(run, evs, i, k, pid, m))
      && (forall k: nat {:trigger RestartsAt(run, evs, i, k)} ::
            RestartsAt(run, evs, i, k) && run[k].current == pid ==> Receives(run[k], evs[k], pid))
  {
    hide Step, SysOk, Enabled, Heads, Receive, SchedulerCalls, ResumedAt, FirstReceive, GetsMessage;
    var pid := run[0].table[i].value.pid;
    TailIsRun(run, evs);
    RunOk(run, evs, 1);
    MessageWakes(run[0], evs[0], i);
    if SchedulerCalls(run[1..], evs[1..], |evs| - 1) >= MAX_PROCESSES {
      var k := Resumes(run, evs, i);
    }
    forall k: nat | FirstReceive(run, evs, i, k, pid)
      ensures GetsMessage(run, evs, i, k, pid, m)
    {
      FirstReceiveTakes(run, evs, i, k, pid, m);
    }
  }

  /** The process `pid`, in slot `i`, makes its first receive since the first step. */
  ghost predicate FirstReceive(run: seq<Sys>, evs: seq<Event>, i: nat, k: nat, pid: nat) {
    && 0 < k < |evs| && k < |run| && Current(run[k]) == Some(i) && Receives(run[k], evs[k], pid)
    && forall n :: 0 < n < k ==> !Receives(run[n], evs[n], pid)
  }

  lemma FirstReceiveTakes(run: seq<Sys>, evs: seq<Event>, i: nat, k: nat, pid: nat, m: Message)
    requires IsRun(run, evs) && SysOk(run[0]) && evs != [] && pid < QUEUES && run[1].queues[pid] == [m]
    requires FirstReceive(run, evs, i, k, pid)
    ensures GetsMessage(run, evs, i, k, pid, m)
  {
    hide Step, SysOk, Enabled, Heads, Receive;
    SingleHeads(m);
    HeadStays(run, evs, pid, m, k);
    RunOk(run, evs, k);
    CurrentIsSome(run[k], i);
    assert run[k + 1] == Step(run[k], evs[k]);
    ReceiveTakes(run[k], evs[k].regs, i, m);
  }

  lemma SingleHeads(m: Message)
    ensures Heads([m], m)
  {
  }

  /** A step that fills the queue of a blocked receiver leaves it Ready or running, its call intact. */
  lemma MessageWakes(s: Sys, ev: Event, i: nat)
    requires SysOk(s) && Enabled(s, ev) && InState(s.table, i, Blocked)
    requires s.table[i].value.ctx.rax == SYS_RECV && s.table[i].value.pid < QUEUES
    requires Step(s, ev).queues[s.table[i].value.pid] != []
    ensures var n := Step(s, ev);
      SameProcess(s, n, i) && (InState(n.table, i, Ready) || InState(n.table, i, Running))
  {
    hide Step, SysOk, Enabled;
    BlockedIsKept(s, ev, i);
    StepOk(s, ev);
    if InState(Step(s, ev).table, i, Blocked) {
      StillAsleep(Step(s, ev), i);
    }
  }

  lemma StillAsleep(n: Sys, i: nat)
    requires SysOk(n) && InState(n.table, i, Blocked) && n.table[i].value.ctx.rax == SYS_RECV && n.table[i].value.pid < QUEUES
    ensures n.queues[n.table[i].value.pid] == []
  {
    assert SlotOk(n.table[i], n.current, n.nextPid, n.queues);
  }

  lemma ReceiveTakes(s: Sys, r: Regs, i: nat, m: Message)
    requires SysOk(s) && Current(s) == Some(i) && InState(s.table, i, Running) && s.current == s.table[i].value.pid
    requires r.rax == SYS_RECV && s.current < QUEUES && Heads(s.queues[s.current], m)
    ensures var n := Step(s, Call(r));
      && n.queues[s.current] == s.queues[s.current][1..]
      && InState(n.table, i, Running) && n.table[i].value.ctx == r.(rax := m.sender)
  {
    WithCtxOk(s, r);
  }
}
