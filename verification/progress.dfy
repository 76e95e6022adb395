/** What runs of the system achieve: round-robin fairness with a bound, and the
    hand-off of an exit code to a waiting parent. */
module Progress {
  import opened Frames
  import opened Vmas
  import opened Ipc
  import opened Processes
  import opened System

  // ---------- Fairness ----------

  /** The step calls the scheduler. */
  predicate Reschedules(s: Sys, ev: Event) {
    match ev
    case Tick(_) => true
    case Call(r) =>
      || r.rax == SYS_EXIT || r.rax == SYS_YIELD
      || (r.rax == SYS_RECV && (s.current >= QUEUES || s.queues[s.current] == []) && r.arg2 != 1)
      || (r.rax == SYS_WAITPID && Find(s.table, r.arg1).Some? && s.table[Find(s.table, r.arg1).value].value.state != Dead)
    case Fault(_, served) => !served
    case Irq(_, _, _) => false
    case MemoryCall(_, _, _, _) => false
    case Spawn(_, _) => false
  }

  lemma OffsetValue(start: nat, i: nat)
    requires i < MAX_PROCESSES
    ensures var a := start % MAX_PROCESSES; Offset(start, i) == if i >= a then i - a else i + MAX_PROCESSES - a
  {
    var a := start % MAX_PROCESSES;
    if i >= a {
      assert i + MAX_PROCESSES - a == MAX_PROCESSES + (i - a);
    }
  }

  lemma OffsetOfScan(start: nat, offset: nat)
    requires offset < MAX_PROCESSES
    ensures Offset(start, (start + offset) % MAX_PROCESSES) == offset
  {
    hide Offset;
    var a, j := start % MAX_PROCESSES, (start + offset) % MAX_PROCESSES;
    OffsetValue(start, j);
    SumMod(start, offset);
    assert j == if a + offset < MAX_PROCESSES then a + offset else a + offset - MAX_PROCESSES;
  }

  lemma SumMod(x: nat, y: nat)
    ensures (x + y) % MAX_PROCESSES == (x % MAX_PROCESSES + y) % MAX_PROCESSES
  {
  }

  lemma {:induction false} ScanStopsBy(t: Table, start: nat, offset: nat, i: nat)
    requires InState(t, i, Ready) && offset <= Offset(start, i)
    ensures ScanReady(t, start, offset).Some?
    ensures Offset(start, ScanReady(t, start, offset).value) <= Offset(start, i)
    decreases MAX_PROCESSES - offset
  {
    hide Offset;
    var j := (start + offset) % MAX_PROCESSES;
    OffsetOfScan(start, offset);
    OffsetValue(start, i);
    OffsetValue(start, j);
    if !InState(t, j, Ready) {
      ScanStopsBy(t, start, offset + 1, i);
    }
  }

  /** A pre-state of the scheduler in which slot `i` still waits for its turn. */
  ghost predicate Waiting(s: Sys, u: Sys, i: nat) {
    && i < MAX_PROCESSES
    && Consistent(u) && u.current == s.current && (u.current != 0 ==> Current(u).Some?)
    && StartSlot(u.table, u.current) == StartSlot(s.table, s.current)
    && InState(s.table, i, Ready) && InState(u.table, i, Ready)
    && u.table[i].value.pid == s.table[i].value.pid && u.table[i].value.ctx == s.table[i].value.ctx
  }

  /** Slot `i` kept its place in the queue or was dispatched. */
  ghost predicate Advanced(s: Sys, n: Sys, i: nat, closer: bool)
    requires InState(s.table, i, Ready)
  {
    && n.table[i].Some? && n.table[i].value.pid == s.table[i].value.pid && n.table[i].value.ctx == s.table[i].value.ctx
    && if n.table[i].value.state == Ready then
         if closer then Distance(n.table, n.current, i) < Distance(s.table, s.current, i)
         else Distance(n.table, n.current, i) == Distance(s.table, s.current, i)
       else n.table[i].value.state == Running && n.current == n.table[i].value.pid
  }

  /** The scheduler picks some ready slot, and will continue after it. */
  lemma SchedulePicks(u: Sys, i: nat) returns (j: nat)
    requires Consistent(u) && (u.current != 0 ==> Current(u).Some?) && InState(u.table, i, Ready)
    ensures InState(Yielded(u), i, Ready) && Yielded(u)[i].value.ctx == u.table[i].value.ctx
    ensures Yielded(u)[i].value.pid == u.table[i].value.pid
    ensures InState(Yielded(u), j, Ready)
    ensures Schedule(u) == u.(table := WithState(Yielded(u), j, Running), current := Yielded(u)[j].value.pid)
    ensures Offset(StartSlot(u.table, u.current), j) <= Offset(StartSlot(u.table, u.current), i)
    ensures StartSlot(Schedule(u).table, Schedule(u).current) == j + 1
  {
    hide ScanReady, Offset, FindFrom;
    YieldedOk(u);
    YieldKeepsPlaces(u, i);
    ScanStopsBy(Yielded(u), StartSlot(u.table, u.current), 0, i);
    j := NextReadySlot(Yielded(u), u.current).value;
    ScheduleOk(u);
    FindHolds(Schedule(u).table, j, Schedule(u).current);
  }

  lemma YieldKeepsPlaces(u: Sys, i: nat)
    requires Consistent(u) && (u.current != 0 ==> Current(u).Some?) && InState(u.table, i, Ready)
    ensures InState(Yielded(u), i, Ready) && Yielded(u)[i].value.ctx == u.table[i].value.ctx
    ensures Yielded(u)[i].value.pid == u.table[i].value.pid
    ensures StartSlot(Yielded(u), u.current) == StartSlot(u.table, u.current)
  {
    YieldedOk(u);
  }

  lemma ScheduleAdvances(s: Sys, u: Sys, i: nat)
    requires Waiting(s, u, i)
    ensures Advanced(s, Schedule(u), i, true)
  {
    hide Schedule, Yielded, StartSlot, Consistent, Current, Offset;
    var j := SchedulePicks(u, i);
    var n := Schedule(u);
    if j != i {
      OffsetFalls(StartSlot(u.table, u.current), j, i);
    }
  }

  lemma OffsetFalls(start: nat, j: nat, i: nat)
    requires i < MAX_PROCESSES && j < MAX_PROCESSES && i != j && Offset(start, j) <= Offset(start, i)
    ensures Offset(j + 1, i) < Offset(start, i)
  {
    hide Offset;
    OffsetValue(start, i);
    OffsetValue(start, j);
    OffsetValue(j + 1, i);
    assert (j + 1) % MAX_PROCESSES == if j == MAX_PROCESSES - 1 then 0 else j + 1;
  }

  // Each piece of a step leaves a waiting slot waiting.

  lemma CtxWaits(s: Sys, u: Sys, r: Regs, i: nat)
    requires SysOk(u) && Waiting(s, u, i)
    ensures SysOk(WithCtx(u, r)) && Waiting(s, WithCtx(u, r), i)
  {
    WithCtxOk(u, r);
    if Current(u).Some? {
      UpdateOk(u, Current(u).value, u.table[Current(u).value].value.(ctx := r));
    }
  }

  lemma RaxWaits(s: Sys, u: Sys, v: nat, i: nat)
    requires SysOk(u) && Waiting(s, u, i)
    ensures Waiting(s, SetRax(u, v), i)
  {
    if Current(u).Some? {
      CtxWaits(s, u, u.table[Current(u).value].value.ctx.(rax := v), i);
    }
  }

  lemma SentWaits(s: Sys, to: nat, m: Message, i: nat)
    requires SysOk(s) && InState(s.table, i, Ready)
    ensures SysOk(Sent(s, to, m).0) && Waiting(s, Sent(s, to, m).0, i)
  {
    SentOk(s, to, m);
    if 0 < to < QUEUES && Accepts(s.queues[to], m) {
      UnblockOk(s, to, Pushed(s.queues[to], m));
    }
  }

  lemma BlockedWaits(s: Sys, r: Regs, waitingFor: Option<nat>, i: nat)
    requires SysOk(s) && s.current != 0 && InState(s.table, i, Ready)
    requires (r.rax == SYS_RECV && (s.current < QUEUES ==> s.queues[s.current] == []))
      || (r.rax == SYS_WAITPID && waitingFor == Some(r.arg1))
    ensures Waiting(s, BlockedOn(s, r, waitingFor), i)
  {
    BlockedOnOk(s, r, waitingFor);
    var c := Current(s).value;
    var p := s.table[c].value;
    UpdateOk(s, c, p.(state := Blocked, ctx := r.(rip := Rewound(r.rip)),
      waitingFor := if waitingFor.Some? then waitingFor else p.waitingFor));
  }

  lemma ExitWaits(s: Sys, code: nat, i: nat)
    requires SysOk(s) && s.current != 0 && InState(s.table, i, Ready)
    ensures Waiting(s, s.(table := Exited(s.table, s.current, code)), i)
  {
    WakeWaitersOk(s, s.current);
    var w := s.(table := WakeWaiters(s.table, s.current));
    var c := Current(s).value;
    UpdateOk(w, c, w.table[c].value.(vmas := [], exitCode := Some(code),
      state := if AnyWaiter(s.table, s.current) then Dead else Empty));
  }

  lemma ReapWaits(s: Sys, child: nat, i: nat)
    requires SysOk(s) && InState(s.table, child, Dead) && InState(s.table, i, Ready)
    ensures SysOk(s.(table := WithState(s.table, child, Empty)))
    ensures Waiting(s, s.(table := WithState(s.table, child, Empty)), i)
  {
    UpdateOk(s, child, s.table[child].value.(state := Empty));
  }

  lemma PoppedWaits(s: Sys, i: nat)
    requires SysOk(s) && 0 < s.current < QUEUES && s.queues[s.current] != [] && InState(s.table, i, Ready)
    ensures var u := s.(queues := s.queues[s.current := s.queues[s.current][1..]]); SysOk(u) && Waiting(s, u, i)
  {
    var u := s.(queues := s.queues[s.current := s.queues[s.current][1..]]);
    forall j | 0 <= j < MAX_PROCESSES
      ensures SlotOk(s.table[j], s.current, s.nextPid, u.queues)
    {
      if Holds(s.table, j, s.current) {
        FindHolds(s.table, j, s.current);
      }
    }
  }

  lemma SpawnWaits(s: Sys, o: Outcome, i: nat)
    requires SysOk(s) && InState(s.table, i, Ready)
    ensures SysOk(SpawnResult(s, o).0) && Waiting(s, SpawnResult(s, o).0, i)
  {
    SpawnOk(s, o);
    var n := SpawnResult(s, o).0;
    if s.current != 0 {
      FindHolds(n.table, Current(s).value, s.current);
    } else {
      assert Find(n.table, 0).None? && Find(s.table, 0).None?;
    }
  }

  lemma MemoryWaits(s: Sys, vmas: seq<Vma>, heapBreak: nat, i: nat)
    requires SysOk(s) && InState(s.table, i, Ready)
    ensures SysOk(WithMemory(s, vmas, heapBreak)) && Waiting(s, WithMemory(s, vmas, heapBreak), i)
  {
    MemoryOk(s, vmas, heapBreak);
    if Current(s).Some? {
      UpdateOk(s, Current(s).value, s.table[Current(s).value].value.(vmas := vmas, heapBreak := heapBreak));
    }
  }

  lemma WaitsThenKept(s: Sys, n: Sys, i: nat)
    requires Waiting(s, n, i)
    ensures Advanced(s, n, i, false)
  {
  }

  /** A system call keeps a ready process ready, unless it dispatches it; a call that
      reschedules without dispatching it brings it strictly closer to its turn. */
  lemma CallAdvances(s: Sys, r: Regs, i: nat)
    requires SysOk(s) && s.current != 0 && InState(s.table, i, Ready)
    ensures Advanced(s, SystemCall(s, r), i, Reschedules(s, Call(r)))
  {
    hide Advanced, Waiting, SysOk, Schedule, BlockedOn, SetRax, Sent, Exited;
    if r.rax == SYS_SEND {
      var m := Message(s.current, r.arg2, r.arg3, r.arg4, r.arg5, r.arg6, r.arg7, 0);
      SentWaits(s, r.arg1, m, i);
      RaxWaits(s, Sent(s, r.arg1, m).0, if Sent(s, r.arg1, m).1 then 0 else 1, i);
      WaitsThenKept(s, SystemCall(s, r), i);
    } else if r.rax == SYS_RECV {
      if s.current < QUEUES && s.queues[s.current] != [] {
        PoppedWaits(s, i);
        var q := s.queues[s.current];
        RaxWaits(s, s.(queues := s.queues[s.current := q[1..]]), q[0].sender, i);
        WaitsThenKept(s, SystemCall(s, r), i);
      } else if r.arg2 == 1 {
        SelfWaits(s, i);
        RaxWaits(s, s, U64_MAX, i);
        WaitsThenKept(s, SystemCall(s, r), i);
      } else {
        BlockedWaits(s, r, None, i);
        ScheduleAdvances(s, BlockedOn(s, r, None), i);
      }
    } else if r.rax == SYS_EXIT {
      ExitWaits(s, r.arg1, i);
      ScheduleAdvances(s, s.(table := Exited(s.table, s.current, r.arg1)), i);
    } else if r.rax == SYS_YIELD {
      SelfWaits(s, i);
      ScheduleAdvances(s, s, i);
    } else if r.rax == SYS_WAITPID {
      WaitCallAdvances(s, r, i);
    } else {
      SelfWaits(s, i);
      RaxWaits(s, s, U64_MAX, i);
      WaitsThenKept(s, SystemCall(s, r), i);
    }
  }

  lemma SelfWaits(s: Sys, i: nat)
    requires SysOk(s) && InState(s.table, i, Ready)
    ensures Waiting(s, s, i)
  {
  }

  lemma WaitCallAdvances(s: Sys, r: Regs, i: nat)
    requires SysOk(s) && s.current != 0 && InState(s.table, i, Ready) && r.rax == SYS_WAITPID
    ensures Advanced(s, WaitPid(s, r), i, Reschedules(s, Call(r)))
  {
    hide Advanced, Waiting, SysOk, Schedule, BlockedOn, SetRax;
    match Find(s.table, r.arg1)
    case None =>
      SelfWaits(s, i);
      RaxWaits(s, s, U64_MAX, i);
      WaitsThenKept(s, WaitPid(s, r), i);
    case Some(c) =>
      if s.table[c].value.state == Dead {
        ReapWaits(s, c, i);
        var reaped := s.(table := WithState(s.table, c, Empty));
        var code := s.table[c].value.exitCode;
        RaxWaits(s, reaped, if code.Some? then code.value else 0, i);
        WaitsThenKept(s, WaitPid(s, r), i);
      } else {
        BlockedWaits(s, r, Some(r.arg1), i);
        ScheduleAdvances(s, BlockedOn(s, r, Some(r.arg1)), i);
      }
  }

  lemma SameAdvanced(s: Sys, u: Sys, n: Sys, i: nat, closer: bool)
    requires Waiting(s, u, i) && Advanced(u, n, i, closer)
    ensures Advanced(s, n, i, closer)
  {
  }

  /** In every step a ready process keeps its place, is dispatched, or (when the
      scheduler runs and picks another) moves strictly closer to its turn. */
  lemma StepAdvances(s: Sys, ev: Event, i: nat)
    requires SysOk(s) && Enabled(s, ev) && InState(s.table, i, Ready)
    ensures Advanced(s, Step(s, ev), i, Reschedules(s, ev))
  {
    hide Advanced, SysOk, Schedule, BlockedOn, SetRax, Sent, SystemCall, Exited, WithMemory;
    SelfWaits(s, i);
    if !ev.Irq? {
      CtxWaits(s, s, ev.regs, i);
      SelfWaits(WithCtx(s, ev.regs), i);
    }
    match ev
    case Tick(r) =>
      ScheduleAdvances(s, WithCtx(s, r), i);
    case Irq(to, kind, data) =>
      SentWaits(s, to, Message(s.current, kind, data, 0, 0, 0, 0, 0), i);
      WaitsThenKept(s, Step(s, ev), i);
    case Call(r) =>
      ContextOnly(s, r);
      CallAdvances(WithCtx(s, r), r, i);
      SameAdvanced(s, WithCtx(s, r), Step(s, ev), i, Reschedules(s, ev));
    case MemoryCall(r, rax, vmas, heapBreak) =>
      MemoryWaits(WithCtx(s, r), vmas, heapBreak, i);
      RaxWaits(WithCtx(s, r), WithMemory(WithCtx(s, r), vmas, heapBreak), rax, i);
      WaitsThenKept(WithCtx(s, r), Step(s, ev), i);
      SameAdvanced(s, WithCtx(s, r), Step(s, ev), i, false);
    case Spawn(r, o) =>
      SpawnWaits(WithCtx(s, r), o, i);
      RaxWaits(WithCtx(s, r), SpawnResult(WithCtx(s, r), o).0, SpawnResult(WithCtx(s, r), o).1, i);
      WaitsThenKept(WithCtx(s, r), Step(s, ev), i);
      SameAdvanced(s, WithCtx(s, r), Step(s, ev), i, false);
    case Fault(r, served) =>
      if served {
        WaitsThenKept(s, Step(s, ev), i);
      } else {
        ExitWaits(WithCtx(s, r), U64_MAX, i);
        ScheduleAdvances(WithCtx(s, r), WithCtx(s, r).(table := Exited(WithCtx(s, r).table, s.current, U64_MAX)), i);
        SameAdvanced(s, WithCtx(s, r), Step(s, ev), i, true);
      }
  }

  lemma ContextOnly(s: Sys, r: Regs)
    requires SysOk(s)
    ensures Reschedules(WithCtx(s, r), Call(r)) == Reschedules(s, Call(r)) && WithCtx(s, r).current == s.current
  {
    if Current(s).Some? {
      UpdateOk(s, Current(s).value, s.table[Current(s).value].value.(ctx := r));
    }
  }

  /** The number of scheduler calls in the first `n` steps. */
  ghost function SchedulerCalls(run: seq<Sys>, evs: seq<Event>, n: nat): nat
    requires n <= |evs| && |run| == |evs| + 1
  {
    if n == 0 then 0
    else SchedulerCalls(run, evs, n - 1) + (if Reschedules(run[n - 1], evs[n - 1]) then 1 else 0)
  }

  predicate SameProcess(s: Sys, n: Sys, i: nat) {
    && i < MAX_PROCESSES && s.table[i].Some? && n.table[i].Some?
    && n.table[i].value.pid == s.table[i].value.pid
    && n.table[i].value.ctx == s.table[i].value.ctx
  }

  /** The process in slot `i` stays ready, with its context untouched. */
  ghost predicate ReadyThrough(run: seq<Sys>, i: nat, n: nat)
    requires n < |run|
  {
    forall k {:trigger run[k]} :: 0 <= k <= n ==> InState(run[k].table, i, Ready) && SameProcess(run[0], run[k], i)
  }

  /** It waits up to step `k` and then runs, with its context untouched. */
  ghost predicate DispatchedAt(run: seq<Sys>, i: nat, k: nat) {
    && 0 < k < |run| && ReadyThrough(run, i, k - 1) && SameProcess(run[0], run[k], i)
    && InState(run[k].table, i, Running) && run[k].current == run[k].table[i].value.pid
  }

  lemma {:induction false} ReadyOrDispatched(run: seq<Sys>, evs: seq<Event>, i: nat, n: nat)
    requires IsRun(run, evs) && SysOk(run[0]) && n <= |evs| && InState(run[0].table, i, Ready)
    ensures ReadyThrough(run, i, n) || exists k: nat :: k <= n && DispatchedAt(run, i, k)
  {
    hide Step, SysOk, StartSlot, Distance;
    if n > 0 {
      ReadyOrDispatched(run, evs, i, n - 1);
      if ReadyThrough(run, i, n - 1) {
        RunOk(run, evs, n - 1);
        assert run[n - 1 + 1] == Step(run[n - 1], evs[n - 1]);
        StepAdvances(run[n - 1], evs[n - 1], i);
        assert SameProcess(run[0], run[n - 1], i);
        if !InState(run[n].table, i, Ready) {
          assert DispatchedAt(run, i, n);
        }
      }
    }
  }

  lemma {:induction false} WaitingBound(run: seq<Sys>, evs: seq<Event>, i: nat, n: nat)
    requires IsRun(run, evs) && SysOk(run[0]) && n <= |evs| && i < MAX_PROCESSES && ReadyThrough(run, i, n)
    ensures SchedulerCalls(run, evs, n) + Distance(run[n].table, run[n].current, i)
      <= Distance(run[0].table, run[0].current, i)
  {
    hide Step, SysOk, StartSlot, Reschedules, Distance;
    if n > 0 {
      WaitingBound(run, evs, i, n - 1);
      RunOk(run, evs, n - 1);
      assert InState(run[n - 1].table, i, Ready) && InState(run[n].table, i, Ready);
      assert run[n - 1 + 1] == Step(run[n - 1], evs[n - 1]);
      StepAdvances(run[n - 1], evs[n - 1], i);
    }
  }

  /** Bounded fairness: a ready process is dispatched, its pid and context
      untouched, by the time the scheduler has been called 64 times. */
  lemma DispatchedWithin64(run: seq<Sys>, evs: seq<Event>, i: nat)
    requires IsRun(run, evs) && SysOk(run[0]) && InState(run[0].table, i, Ready)
    requires SchedulerCalls(run, evs, |evs|) >= MAX_PROCESSES
    ensures exists k: nat :: DispatchedAt(run, i, k)
  {
    ReadyOrDispatched(run, evs, i, |evs|);
    if ReadyThrough(run, i, |evs|) {
      WaitingBound(run, evs, i, |evs|);
    }
  }

  /** The scheduler revives nobody: it only swaps Running and Ready. */
  lemma ScheduleRevivesNobody(s: Sys, i: nat)
    requires i < MAX_PROCESSES && !InState(s.table, i, Ready) && !InState(s.table, i, Running)
    ensures Schedule(s).table[i] == s.table[i]
  {
  }

  // ---------- Hand-off of an exit code ----------

  predicate DeadWith(s: Sys, j: nat, pid: nat, code: nat) {
    InState(s.table, j, Dead) && s.table[j].value.pid == pid && s.table[j].value.exitCode == Some(code)
  }

  predicate IsWaitFor(ev: Event, pid: nat) {
    ev.Call? && ev.regs.rax == SYS_WAITPID && ev.regs.arg1 == pid
  }

  /** No process with this pid is left, and none will come. */
  ghost predicate Gone(s: Sys, pid: nat) {
    pid < s.nextPid && forall i :: Holds(s.table, i, pid) ==> InState(s.table, i, Empty)
  }

  predicate Settled(a: Slot) {
    a.Some? && (a.value.state == Dead || a.value.state == Empty)
  }

  /** How a slot may change in a step that reaps nobody. */
  predicate Evolves(a: Slot, b: Slot, newPid: nat) {
    || (a.Some? && b.Some? && a.value.pid == b.value.pid && (Settled(a) ==> b == a))
    || (Reusable(a) && b.Some? && b.value.pid == newPid)
    || (a.None? && b.None?)
  }

  lemma CurrentUnsettled(s: Sys)
    requires SysOk(s) && s.current != 0
    ensures !Settled(s.table[Current(s).value])
  {
  }

  lemma PlainEvolves(s: Sys, r: Regs, j: nat, v: nat)
    requires SysOk(s) && j < MAX_PROCESSES
    ensures Evolves(s.table[j], WithCtx(s, r).table[j], s.nextPid)
    ensures Evolves(s.table[j], SetRax(s, v).table[j], s.nextPid)
  {
    if s.current != 0 {
      CurrentUnsettled(s);
    }
  }

  lemma ScheduleEvolves(s: Sys, u: Sys, j: nat)
    requires j < MAX_PROCESSES && Evolves(s.table[j], u.table[j], s.nextPid) && (Reusable(s.table[j]) ==> u.table[j] == s.table[j])
    ensures Evolves(s.table[j], Schedule(u).table[j], s.nextPid)
  {
    hide Find;
    if !InState(u.table, j, Ready) && !InState(u.table, j, Running) {
      ScheduleRevivesNobody(u, j);
    }
  }

  lemma WaitPidEvolves(s: Sys, r: Regs, j: nat)
    requires SysOk(s) && s.current != 0 && j < MAX_PROCESSES
    ensures Evolves(s.table[j], WaitPid(s, r).table[j], s.nextPid)
      || (InState(s.table, j, Dead) && s.table[j].value.pid == r.arg1 && WaitPid(s, r).table[j] == Some(s.table[j].value.(state := Empty)))
  {
    CurrentUnsettled(s);
    match Find(s.table, r.arg1)
    case None => PlainEvolves(s, r, j, U64_MAX);
    case Some(c) =>
      if s.table[c].value.state == Dead {
        UpdateOk(s, c, s.table[c].value.(state := Empty));
        var u := s.(table := WithState(s.table, c, Empty));
        var code := s.table[c].value.exitCode;
        PlainEvolves(u, r, j, if code.Some? then code.value else 0);
      } else {
        ScheduleEvolves(s, BlockedOn(s, r, Some(r.arg1)), j);
      }
  }

  lemma ExitEvolves(s: Sys, code: nat, j: nat)
    requires SysOk(s) && s.current != 0 && j < MAX_PROCESSES
    ensures Evolves(s.table[j], Exit(s, code).table[j], s.nextPid)
  {
    CurrentUnsettled(s);
    WakeWaitersOk(s, s.current);
    ScheduleEvolves(s, s.(table := Exited(s.table, s.current, code)), j);
  }

  lemma ReceiveEvolves(s: Sys, r: Regs, j: nat)
    requires SysOk(s) && s.current != 0 && j < MAX_PROCESSES
    ensures Evolves(s.table[j], Receive(s, r).table[j], s.nextPid)
  {
    CurrentUnsettled(s);
    if s.current < QUEUES && s.queues[s.current] != [] {
      var q := s.queues[s.current];
      assert Receive(s, r).table == SetRax(s, q[0].sender).table;
      PlainEvolves(s, r, j, q[0].sender);
    } else if r.arg2 == 1 {
      PlainEvolves(s, r, j, U64_MAX);
    } else {
      ScheduleEvolves(s, BlockedOn(s, r, None), j);
    }
  }

  lemma SendEvolves(s: Sys, to: nat, m: Message, v: nat, j: nat)
    requires SysOk(s) && j < MAX_PROCESSES
    ensures Evolves(s.table[j], Sent(s, to, m).0.table[j], s.nextPid)
    ensures Evolves(s.table[j], SetRax(Sent(s, to, m).0, v).table[j], s.nextPid)
  {
    SentOk(s, to, m);
    PlainEvolves(Sent(s, to, m).0, Regs(0, 0, 0, 0, 0, 0, 0, 0, 0), j, v);
  }

  lemma CallEvolves(s: Sys, r: Regs, j: nat)
    requires SysOk(s) && s.current != 0 && j < MAX_PROCESSES
    ensures Evolves(s.table[j], SystemCall(s, r).table[j], s.nextPid)
      || (InState(s.table, j, Dead) && IsWaitFor(Call(r), s.table[j].value.pid)
          && SystemCall(s, r).table[j] == Some(s.table[j].value.(state := Empty)))
  {
    hide Evolves, SysOk, Schedule, SetRax, Sent, Receive, WaitPid, Exit;
    if r.rax == SYS_SEND {
      var m := Message(s.current, r.arg2, r.arg3, r.arg4, r.arg5, r.arg6, r.arg7, 0);
      SendEvolves(s, r.arg1, m, if Sent(s, r.arg1, m).1 then 0 else 1, j);
    } else if r.rax == SYS_RECV {
      ReceiveEvolves(s, r, j);
    } else if r.rax == SYS_EXIT {
      ExitEvolves(s, r.arg1, j);
    } else if r.rax == SYS_YIELD {
      SelfEvolves(s, j);
      ScheduleEvolves(s, s, j);
    } else if r.rax == SYS_WAITPID {
      WaitPidEvolves(s, r, j);
    } else {
      PlainEvolves(s, r, j, U64_MAX);
    }
  }

  lemma SelfEvolves(s: Sys, j: nat)
    requires j < MAX_PROCESSES
    ensures Evolves(s.table[j], s.table[j], s.nextPid)
  {
  }

  /** A step changes a dead or released slot only by reaping it or by putting a
      process with a new pid into it, and a pid never moves. */
  lemma StepEvolves(s: Sys, ev: Event, j: nat)
    requires SysOk(s) && Enabled(s, ev) && j < MAX_PROCESSES
    ensures Step(s, ev).nextPid >= s.nextPid
    ensures Evolves(s.table[j], Step(s, ev).table[j], s.nextPid)
      || (InState(s.table, j, Dead) && IsWaitFor(ev, s.table[j].value.pid)
          && Step(s, ev).table[j] == Some(s.table[j].value.(state := Empty)))
  {
    hide Evolves, SysOk, Step;
    match ev
    case Tick(r) => TickEvolves(s, r, j);
    case Irq(to, kind, data) => IrqEvolves(s, to, kind, data, j);
    case Call(r) => HandledEvolves(s, r, j);
    case MemoryCall(r, rax, vmas, heapBreak) => MemoryEvolves(s, r, rax, vmas, heapBreak, j);
    case Spawn(r, o) => SpawnEvolves(s, r, o, j);
    case Fault(r, served) => FaultEvolves(s, r, served, j);
  }

  /** Saving the frame touches the running process only. */
  lemma CtxEvolves(s: Sys, r: Regs, j: nat)
    requires SysOk(s) && j < MAX_PROCESSES
    ensures SysOk(WithCtx(s, r)) && KeepsSlot(s.table[j], WithCtx(s, r).table[j])
    ensures WithCtx(s, r).nextPid == s.nextPid && WithCtx(s, r).current == s.current
  {
    WithCtxOk(s, r);
    if s.current != 0 {
      CurrentUnsettled(s);
    }
  }

  /** The slot keeps its process, and is the same if that one is dead or released. */
  predicate KeepsSlot(a: Slot, b: Slot) {
    && (a.None? <==> b.None?)
    && (a.Some? ==> a.value.pid == b.value.pid)
    && (Settled(a) || Settled(b) ==> b == a)
  }

  lemma KeptThenEvolves(a: Slot, b: Slot, c: Slot, newPid: nat)
    requires KeepsSlot(a, b) && Evolves(b, c, newPid)
    ensures Evolves(a, c, newPid)
  {
  }

  lemma TickEvolves(s: Sys, r: Regs, j: nat)
    requires SysOk(s) && j < MAX_PROCESSES
    ensures Step(s, Tick(r)).nextPid >= s.nextPid && Evolves(s.table[j], Step(s, Tick(r)).table[j], s.nextPid)
  {
    hide SysOk, WithCtx, Evolves, KeepsSlot;
    CtxEvolves(s, r, j);
    SelfEvolves(WithCtx(s, r), j);
    ScheduleEvolves(WithCtx(s, r), WithCtx(s, r), j);
    KeptThenEvolves(s.table[j], WithCtx(s, r).table[j], Schedule(WithCtx(s, r)).table[j], s.nextPid);
  }

  lemma IrqEvolves(s: Sys, to: nat, kind: nat, data: nat, j: nat)
    requires SysOk(s) && j < MAX_PROCESSES
    ensures var n := Step(s, Event.Irq(to, kind, data)); n.nextPid >= s.nextPid && Evolves(s.table[j], n.table[j], s.nextPid)
  {
    hide SysOk, Evolves;
    SendEvolves(s, to, Message(s.current, kind, data, 0, 0, 0, 0, 0), 0, j);
  }

  lemma HandledEvolves(s: Sys, r: Regs, j: nat)
    requires SysOk(s) && s.current != 0 && j < MAX_PROCESSES
    ensures Step(s, Call(r)).nextPid >= s.nextPid
    ensures Evolves(s.table[j], Step(s, Call(r)).table[j], s.nextPid)
      || (InState(s.table, j, Dead) && IsWaitFor(Call(r), s.table[j].value.pid)
          && Step(s, Call(r)).table[j] == Some(s.table[j].value.(state := Empty)))
  {
    hide SysOk, WithCtx, SystemCall, Evolves;
    CtxEvolves(s, r, j);
    var c := WithCtx(s, r);
    CallEvolves(c, r, j);
    CallKeepsNextPid(c, r);
    if Evolves(c.table[j], SystemCall(c, r).table[j], s.nextPid) {
      KeptThenEvolves(s.table[j], c.table[j], SystemCall(c, r).table[j], s.nextPid);
    }
  }

  lemma MemoryEvolves(s: Sys, r: Regs, rax: nat, vmas: seq<Vma>, heapBreak: nat, j: nat)
    requires SysOk(s) && s.current != 0 && j < MAX_PROCESSES
    ensures var n := Step(s, MemoryCall(r, rax, vmas, heapBreak));
      n.nextPid >= s.nextPid && Evolves(s.table[j], n.table[j], s.nextPid)
  {
    hide SysOk, WithCtx, WithMemory, SetRax, Evolves, KeepsSlot;
    CtxEvolves(s, r, j);
    var c := WithCtx(s, r);
    var u := WithMemory(c, vmas, heapBreak);
    MemoryKeepsSlot(c, vmas, heapBreak, j);
    PlainEvolves(u, r, j, rax);
    KeptThenEvolves(c.table[j], u.table[j], SetRax(u, rax).table[j], s.nextPid);
    KeptThenEvolves(s.table[j], c.table[j], SetRax(u, rax).table[j], s.nextPid);
    RaxKeepsNextPid(u, rax);
  }

  lemma RaxKeepsNextPid(s: Sys, v: nat)
    ensures SetRax(s, v).nextPid == s.nextPid
  {
  }

  lemma MemoryKeepsSlot(s: Sys, vmas: seq<Vma>, heapBreak: nat, j: nat)
    requires SysOk(s) && s.current != 0 && j < MAX_PROCESSES
    ensures var u := WithMemory(s, vmas, heapBreak);
      SysOk(u) && KeepsSlot(s.table[j], u.table[j]) && u.nextPid == s.nextPid
  {
    MemoryOk(s, vmas, heapBreak);
    CurrentUnsettled(s);
  }

  lemma SpawnEvolves(s: Sys, r: Regs, o: Outcome, j: nat)
    requires SysOk(s) && Enabled(s, Spawn(r, o)) && j < MAX_PROCESSES
    ensures var n := Step(s, Spawn(r, o)); n.nextPid >= s.nextPid && Evolves(s.table[j], n.table[j], s.nextPid)
  {
    hide SysOk, WithCtx, SpawnResult, SetRax, Evolves, KeepsSlot;
    CtxEvolves(s, r, j);
    var c := WithCtx(s, r);
    var (u, rax) := SpawnResult(c, o);
    InstallEvolves(c, o, r, rax, j);
    RaxKeepsNextPid(u, rax);
    KeptThenEvolves(s.table[j], c.table[j], SetRax(u, rax).table[j], s.nextPid);
  }

  /** A spawn fills a reusable slot with a new pid or leaves the slot alone. */
  lemma InstallEvolves(s: Sys, o: Outcome, r: Regs, rax: nat, j: nat)
    requires SysOk(s) && j < MAX_PROCESSES
    ensures var u := SpawnResult(s, o).0;
      u.nextPid >= s.nextPid && Evolves(s.table[j], SetRax(u, rax).table[j], s.nextPid)
  {
    SpawnOk(s, o);
    SpawnedSlot(s, o, j);
    var u := SpawnResult(s, o).0;
    PlainEvolves(u, r, j, rax);
    hide SysOk, SpawnResult, SetRax;
  }

  lemma SpawnedSlot(s: Sys, o: Outcome, j: nat)
    requires SysOk(s) && j < MAX_PROCESSES
    ensures var u := SpawnResult(s, o).0;
      && u.nextPid >= s.nextPid
      && (u.table[j] == s.table[j]
          || (Reusable(s.table[j]) && u.table[j].Some? && u.table[j].value.pid == s.nextPid && !Settled(u.table[j])))
  {
  }

  lemma FaultEvolves(s: Sys, r: Regs, served: bool, j: nat)
    requires SysOk(s) && s.current != 0 && j < MAX_PROCESSES
    ensures var n := Step(s, Fault(r, served)); n.nextPid >= s.nextPid && Evolves(s.table[j], n.table[j], s.nextPid)
  {
    hide SysOk, WithCtx, Exit, Evolves, KeepsSlot;
    CtxEvolves(s, r, j);
    var c := WithCtx(s, r);
    if served {
      SelfEvolves(c, j);
      KeptThenEvolves(s.table[j], c.table[j], c.table[j], s.nextPid);
    } else {
      ExitEvolves(c, U64_MAX, j);
      ExitKeepsNextPid(c, U64_MAX);
      KeptThenEvolves(s.table[j], c.table[j], Exit(c, U64_MAX).table[j], s.nextPid);
    }
  }

  lemma ExitKeepsNextPid(s: Sys, code: nat)
    ensures Exit(s, code).nextPid == s.nextPid
  {
  }

  lemma CallKeepsNextPid(s: Sys, r: Regs)
    ensures SystemCall(s, r).nextPid == s.nextPid
  {
  }

  /** The exit of a process that somebody waits for leaves it Dead with its code, and
      makes the waiter ready (or running) with its call intact, ready to restart. */
  lemma ExitHandsOff(s: Sys, r: Regs, i: nat)
    requires SysOk(s) && s.current != 0 && r.rax == SYS_EXIT
    requires InState(s.table, i, Blocked)
    requires s.table[i].value.ctx.rax == SYS_WAITPID && s.table[i].value.ctx.arg1 == s.current
    ensures var n := Step(s, Call(r));
      && DeadWith(n, Current(s).value, s.current, r.arg1)
      && SameProcess(s, n, i) && (InState(n.table, i, Ready) || InState(n.table, i, Running))
  {
    hide SysOk, WithCtx, Exit, Schedule;
    WaiterIsElsewhere(s, r, i);
    ExitWoken(WithCtx(s, r), r.arg1, i);
  }

  /** The same when a fault that is not served kills the process: the code is 2^64 - 1. */
  lemma KillHandsOff(s: Sys, r: Regs, i: nat)
    requires SysOk(s) && s.current != 0
    requires InState(s.table, i, Blocked)
    requires s.table[i].value.ctx.rax == SYS_WAITPID && s.table[i].value.ctx.arg1 == s.current
    ensures var n := Step(s, Fault(r, false));
      && DeadWith(n, Current(s).value, s.current, U64_MAX)
      && SameProcess(s, n, i) && (InState(n.table, i, Ready) || InState(n.table, i, Running))
  {
    hide SysOk, WithCtx, Exit, Schedule;
    WaiterIsElsewhere(s, r, i);
    ExitWoken(WithCtx(s, r), U64_MAX, i);
  }

  /** Saving the frame of the current process leaves one that waits for it alone. */
  lemma WaiterIsElsewhere(s: Sys, r: Regs, i: nat)
    requires SysOk(s) && s.current != 0 && InState(s.table, i, Blocked)
    requires s.table[i].value.ctx.rax == SYS_WAITPID && s.table[i].value.ctx.arg1 == s.current
    ensures var u := WithCtx(s, r);
      && SysOk(u) && u.current == s.current && Current(u) == Current(s)
      && u.table[i] == s.table[i] && WaitsFor(u.table[i], u.current)
  {
    WithCtxOk(s, r);
    assert SlotOk(s.table[i], s.current, s.nextPid, s.queues);
  }

  lemma ExitWoken(u: Sys, code: nat, i: nat)
    requires SysOk(u) && u.current != 0 && i < MAX_PROCESSES && WaitsFor(u.table[i], u.current)
    ensures var n := Exit(u, code);
      && DeadWith(n, Current(u).value, u.current, code)
      && SameProcess(u, n, i) && (InState(n.table, i, Ready) || InState(n.table, i, Running))
  {
    var c := Current(u).value;
    WakeWaitersOk(u, u.current);
    var e := u.(table := Exited(u.table, u.current, code));
    assert AnyWaiter(u.table, u.current);
    assert InState(e.table, c, Dead) && InState(e.table, i, Ready);
    ScheduleRevivesNobody(e, c);
    ScheduleKeepsReady(e, i);
  }

  lemma ScheduleKeepsReady(s: Sys, i: nat)
    requires InState(s.table, i, Ready)
    ensures SameProcess(s, Schedule(s), i)
    ensures InState(Schedule(s).table, i, Ready) || InState(Schedule(s).table, i, Running)
  {
  }

  lemma DeadStays(s: Sys, ev: Event, j: nat, pid: nat, code: nat)
    requires SysOk(s) && Enabled(s, ev) && DeadWith(s, j, pid, code) && !IsWaitFor(ev, pid)
    ensures DeadWith(Step(s, ev), j, pid, code)
  {
    hide Step, SysOk;
    StepEvolves(s, ev, j);
  }

  /** Waiting for a dead process returns its code at once and releases the slot. */
  lemma WaitReaps(s: Sys, r: Regs, j: nat, pid: nat, code: nat)
    requires SysOk(s) && s.current != 0 && DeadWith(s, j, pid, code) && IsWaitFor(Call(r), pid)
    ensures var n := Step(s, Call(r));
      && n.current == s.current && Current(n) == Current(s)
      && n.table[Current(s).value].value.ctx == r.(rax := code)
      && InState(n.table, Current(s).value, Running) && Gone(n, pid)
  {
    hide Step;
    WaitStep(s, r, j, pid, code);
    var u, c := WithCtx(s, r), Current(s).value;
    WithCtxOk(s, r);
    FindHolds(u.table, j, pid);
    var reaped := u.(table := WithState(u.table, j, Empty));
    UpdateOk(u, j, u.table[j].value.(state := Empty));
    UpdateOk(reaped, c, reaped.table[c].value.(ctx := r.(rax := code)));
    ReapedIsGone(Step(s, Call(r)), j, pid);
  }

  lemma WaitStep(s: Sys, r: Regs, j: nat, pid: nat, code: nat)
    requires SysOk(s) && s.current != 0 && DeadWith(s, j, pid, code) && IsWaitFor(Call(r), pid)
    ensures var u := WithCtx(s, r);
      Step(s, Call(r)) == SetRax(u.(table := WithState(u.table, j, Empty)), code)
  {
    hide SetRax;
    WithCtxOk(s, r);
    FindHolds(WithCtx(s, r).table, j, pid);
  }

  lemma ReapedIsGone(n: Sys, j: nat, pid: nat)
    requires Consistent(n) && Holds(n.table, j, pid) && InState(n.table, j, Empty) && pid < n.nextPid
    ensures Gone(n, pid)
  {
    forall i | Holds(n.table, i, pid)
      ensures InState(n.table, i, Empty)
    {
      FindHolds(n.table, i, pid);
      FindHolds(n.table, j, pid);
    }
  }

  lemma GoneStays(s: Sys, ev: Event, pid: nat)
    requires SysOk(s) && Enabled(s, ev) && Gone(s, pid)
    ensures Gone(Step(s, ev), pid)
  {
    hide Step, SysOk;
    var n := Step(s, ev);
    StepEvolves(s, ev, 0);
    forall i | Holds(n.table, i, pid)
      ensures InState(n.table, i, Empty)
    {
      StepEvolves(s, ev, i);
      assert Holds(s.table, i, pid) ==> InState(s.table, i, Empty);
    }
  }

  lemma {:induction false} DeadThrough(run: seq<Sys>, evs: seq<Event>, j: nat, pid: nat, code: nat, n: nat)
    requires IsRun(run, evs) && SysOk(run[0]) && n <= |evs| && DeadWith(run[0], j, pid, code)
    requires forall k :: 0 <= k < n ==> !IsWaitFor(evs[k], pid)
    ensures DeadWith(run[n], j, pid, code)
  {
    if n > 0 {
      DeadThrough(run, evs, j, pid, code, n - 1);
      RunOk(run, evs, n - 1);
      assert run[n - 1 + 1] == Step(run[n - 1], evs[n - 1]);
      DeadStays(run[n - 1], evs[n - 1], j, pid, code);
    }
  }

  lemma {:induction false} GoneThrough(run: seq<Sys>, evs: seq<Event>, pid: nat, m: nat, n: nat)
    requires IsRun(run, evs) && SysOk(run[0]) && m <= n <= |evs| && Gone(run[m], pid)
    ensures Gone(run[n], pid)
  {
    hide Step, SysOk, Gone;
    if m < n {
      GoneThrough(run, evs, pid, m, n - 1);
      RunOk(run, evs, n - 1);
      assert run[n - 1 + 1] == Step(run[n - 1], evs[n - 1]);
      GoneStays(run[n - 1], evs[n - 1], pid);
    }
  }

  /** The hand-off, over runs: from the exit on, the process stays Dead in its slot
      until the first wait for it at step `m`; that wait returns the code to its
      caller without giving up the processor, and no later wait ever finds it. */
  lemma CodeIsHandedOffOnce(run: seq<Sys>, evs: seq<Event>, j: nat, pid: nat, code: nat, m: nat)
    requires IsRun(run, evs) && SysOk(run[0]) && DeadWith(run[0], j, pid, code)
    requires m < |evs| && IsWaitFor(evs[m], pid) && forall k :: 0 <= k < m ==> !IsWaitFor(evs[k], pid)
    ensures forall k :: 0 <= k <= m ==> DeadWith(run[k], j, pid, code)
    ensures run[m + 1].current == run[m].current && Current(run[m + 1]).Some?
    ensures run[m + 1].table[Current(run[m + 1]).value].value.ctx == evs[m].regs.(rax := code)
    ensures forall k :: m < k < |run| ==> Gone(run[k], pid)
  {
    forall k | 0 <= k <= m
      ensures DeadWith(run[k], j, pid, code)
    {
      DeadThrough(run, evs, j, pid, code, k);
    }
    RunOk(run, evs, m);
    WaitReaps(run[m], evs[m].regs, j, pid, code);
    forall k | m < k < |run|
      ensures Gone(run[k], pid)
    {
      GoneThrough(run, evs, pid, m + 1, k);
    }
  }
}
