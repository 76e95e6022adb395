/** What each interrupt and system call does to the process table and the queues, slot
    by slot and field by field, and which process runs next. */
module Calls {
  import opened Frames
  import opened PageTree
  import opened Vmas
  import opened Ipc
  import opened Processes
  import opened System
  import opened Progress

  /** The registers that a trap instruction at the saved rip hands to the kernel. */
  function AfterTrap(ctx: Regs): Regs {
    ctx.(rip := (ctx.rip + 2) % U64)
  }

  // ---------- The next process ----------

  /** Counting round the table from slot `start`, slot `j` comes no later than slot `i`. */
  predicate NoLater(start: nat, j: nat, i: nat) {
    if j >= start then i < start || j <= i else j <= i < start
  }

  /** From the table `t` the first Ready slot, counting round from `start`, runs next and
      nothing else changes; with no Ready slot the kernel idles. */
  ghost predicate Picked(t: Table, start: nat, n: Sys) {
    if forall i: nat :: !InState(t, i, Ready) then n.current == 0 && n.table == t
    else exists j: nat ::
      && InState(t, j, Ready) && (forall i: nat :: InState(t, i, Ready) ==> NoLater(start, j, i))
      && n.current == t[j].value.pid && n.table == t[j := Some(t[j].value.(state := Running))]
  }

  /** The process in slot `c` gives up the processor and leaves the record `q`. */
  ghost predicate Leaves(s: Sys, c: nat, q: Process, n: Sys) {
    c < MAX_PROCESSES && Picked(s.table[c := Some(q)], c + 1, n) && n.queues == s.queues && n.nextPid == s.nextPid
  }

  lemma ScanNone(t: Table, start: nat, i: nat)
    requires ScanReady(t, start, 0).None?
    ensures !InState(t, i, Ready)
  {
    hide ScanReady;
    if InState(t, i, Ready) {
      ScanStopsBy(t, start, 0, i);
    }
  }

  lemma ScanFirst(t: Table, start: nat, i: nat)
    requires start <= MAX_PROCESSES && InState(t, i, Ready)
    ensures ScanReady(t, start, 0).Some? && NoLater(start, ScanReady(t, start, 0).value, i)
  {
    hide ScanReady, Offset;
    ScanStopsBy(t, start, 0, i);
    OffsetValue(start, i);
    OffsetValue(start, ScanReady(t, start, 0).value);
    assert start % MAX_PROCESSES == if start == MAX_PROCESSES then 0 else start;
  }

  lemma SchedulePicked(u: Sys)
    requires Consistent(u) && (u.current != 0 ==> Current(u).Some?)
    ensures Picked(Yielded(u), if Current(u).Some? then Current(u).value + 1 else 0, Schedule(u))
    ensures Schedule(u).queues == u.queues && Schedule(u).nextPid == u.nextPid
  {
    hide ScanReady, NoLater, FindFrom, Consistent;
    YieldedOk(u);
    NoProcessZero(u);
    var t, start := Yielded(u), if Current(u).Some? then Current(u).value + 1 else 0;
    assert StartSlot(t, u.current) == start;
    match ScanReady(t, start, 0)
    case None =>
      forall i: nat
        ensures !InState(t, i, Ready)
      {
        ScanNone(t, start, i);
      }
    case Some(j) =>
      forall i: nat | InState(t, i, Ready)
        ensures NoLater(start, j, i)
      {
        ScanFirst(t, start, i);
      }
  }

  lemma NoProcessZero(u: Sys)
    requires Consistent(u)
    ensures Find(u.table, 0).None?
  {
    assert forall i: nat :: i < MAX_PROCESSES ==> SlotOk(u.table[i], u.current, u.nextPid, u.queues);
    assert forall i: nat :: !Holds(u.table, i, 0);
  }

  /** The slot of the current process. */
  predicate IsCurrent(s: Sys, c: nat) {
    s.current != 0 && Holds(s.table, c, s.current)
  }

  lemma CurrentFacts(s: Sys, c: nat, r: Regs)
    requires SysOk(s) && IsCurrent(s, c)
    ensures Current(s) == Some(c) && s.table[c].value.state == Running
    ensures WithCtx(s, r) == s.(table := s.table[c := Some(s.table[c].value.(ctx := r))])
    ensures SysOk(WithCtx(s, r)) && Current(WithCtx(s, r)) == Some(c)
  {
    FindHolds(s.table, c, s.current);
    WithCtxOk(s, r);
  }

  // ---------- Giving up the processor ----------

  /** The timer and SYS_YIELD: the interrupted process becomes Ready with its frame saved,
      and stands behind every other Ready process. */
  lemma TickRotates(s: Sys, ev: Event, c: nat)
    requires SysOk(s) && IsCurrent(s, c) && (ev.Tick? || (ev.Call? && ev.regs.rax == SYS_YIELD))
    ensures Leaves(s, c, s.table[c].value.(state := Ready, ctx := ev.regs), Step(s, ev))
  {
    hide Picked, FindFrom, Schedule;
    CurrentFacts(s, c, ev.regs);
    var u := WithCtx(s, ev.regs);
    SchedulePicked(u);
    assert Yielded(u) == s.table[c := Some(s.table[c].value.(state := Ready, ctx := ev.regs))];
  }

  /** A tick while the kernel idles starts the first Ready process, if there is one. */
  lemma TickFromIdle(s: Sys, r: Regs)
    requires SysOk(s) && s.current == 0
    ensures Picked(s.table, 0, Step(s, Tick(r))) && Step(s, Tick(r)).queues == s.queues && Step(s, Tick(r)).nextPid == s.nextPid
  {
    hide Picked, FindFrom;
    SchedulePicked(s);
  }

  // ---------- Blocking calls ----------

  /** The call with registers `r` blocks the process in slot `c`: once it runs again, its
      trap instruction issues the same call; and the next Ready process runs. */
  ghost predicate Blocks(s: Sys, c: nat, r: Regs, waitingFor: Option<nat>, n: Sys) {
    && c < MAX_PROCESSES && s.table[c].Some? && n.table[c].Some?
    && var b := n.table[c].value;
      && b == s.table[c].value.(state := Blocked, ctx := b.ctx, waitingFor := waitingFor)
      && (r.rip < U64 ==> AfterTrap(b.ctx) == r)
      && Leaves(s, c, b, n)
  }

  lemma PickedKeeps(t: Table, start: nat, n: Sys, c: nat)
    requires Picked(t, start, n) && InState(t, c, Blocked)
    ensures n.table[c] == t[c]
  {
  }

  lemma BlockedPicks(s: Sys, c: nat, r: Regs, waitingFor: Option<nat>)
    requires SysOk(s) && IsCurrent(s, c)
    requires (r.rax == SYS_RECV && (s.current < QUEUES ==> s.queues[s.current] == []))
      || (r.rax == SYS_WAITPID && waitingFor == Some(r.arg1))
    ensures Blocks(s, c, r, if waitingFor.Some? then waitingFor else s.table[c].value.waitingFor,
      Schedule(BlockedOn(s, r, waitingFor)))
  {
    hide Picked, FindFrom, Schedule;
    CurrentFacts(s, c, r);
    BlockedOnOk(s, r, waitingFor);
    var u := BlockedOn(s, r, waitingFor);
    assert IsCurrent(u, c);
    FindHolds(u.table, c, s.current);
    SchedulePicked(u);
    assert Yielded(u) == u.table;
    PickedKeeps(u.table, c + 1, Schedule(u), c);
  }

  /** The frame that the process had before the call does not matter to `Blocks`. */
  lemma BlocksAnyCtx(s: Sys, c: nat, ctx: Regs, r: Regs, waitingFor: Option<nat>, n: Sys)
    requires c < MAX_PROCESSES && s.table[c].Some?
    requires Blocks(s.(table := s.table[c := Some(s.table[c].value.(ctx := ctx))]), c, r, waitingFor, n)
    ensures Blocks(s, c, r, waitingFor, n)
  {
    hide Picked;
    var u := s.(table := s.table[c := Some(s.table[c].value.(ctx := ctx))]);
    assert u.table[c := n.table[c]] == s.table[c := n.table[c]];
  }

  /** SYS_RECV on an empty queue, unless it only polls: the process blocks. */
  lemma ReceiveBlocks(s: Sys, r: Regs, c: nat)
    requires SysOk(s) && IsCurrent(s, c) && r.rax == SYS_RECV && r.arg2 != 1
    requires s.current < QUEUES ==> s.queues[s.current] == []
    ensures Blocks(s, c, r, s.table[c].value.waitingFor, Step(s, Call(r)))
  {
    hide Blocks, FindFrom, Schedule, BlockedOn;
    CurrentFacts(s, c, r);
    BlockedPicks(WithCtx(s, r), c, r, None);
    BlocksAnyCtx(s, c, r, r, s.table[c].value.waitingFor, Step(s, Call(r)));
  }

  /** SYS_WAITPID for a process that has not ended: the caller blocks and waits for it. */
  lemma WaitBlocks(s: Sys, r: Regs, c: nat, i: nat)
    requires SysOk(s) && IsCurrent(s, c) && r.rax == SYS_WAITPID
    requires Holds(s.table, i, r.arg1) && !InState(s.table, i, Dead)
    ensures Blocks(s, c, r, Some(r.arg1), Step(s, Call(r)))
  {
    hide Blocks, FindFrom, Schedule, BlockedOn;
    CurrentFacts(s, c, r);
    FindHolds(WithCtx(s, r).table, i, r.arg1);
    BlockedPicks(WithCtx(s, r), c, r, Some(r.arg1));
    BlocksAnyCtx(s, c, r, r, Some(r.arg1), Step(s, Call(r)));
  }

  // ---------- Calls that return at once ----------

  /** The process in slot `c` keeps the processor, with the registers of its call and `v` in rax. */
  predicate Answers(s: Sys, c: nat, r: Regs, v: nat, n: Sys) {
    && c < MAX_PROCESSES && s.table[c].Some? && n.current == s.current
    && n.table[c] == Some(s.table[c].value.(ctx := r.(rax := v)))
  }

  /** SYS_RECV with a message: the sender is the answer, and the message leaves the queue. */
  lemma ReceiveAnswers(s: Sys, r: Regs, c: nat)
    requires SysOk(s) && IsCurrent(s, c) && r.rax == SYS_RECV && s.current < QUEUES && s.queues[s.current] != []
    ensures var n := Step(s, Call(r));
      && Answers(s, c, r, s.queues[s.current][0].sender, n) && n.nextPid == s.nextPid
      && n.queues == s.queues[s.current := s.queues[s.current][1..]] && n.table == s.table[c := n.table[c]]
  {
    hide FindFrom;
    CurrentFacts(s, c, r);
  }

  /** Polling an empty queue, waiting for nobody, and unknown calls answer 2^64 - 1 and
      change nothing. */
  lemma CallFails(s: Sys, r: Regs, c: nat)
    requires SysOk(s) && IsCurrent(s, c)
    requires || (r.rax == SYS_RECV && r.arg2 == 1 && (s.current < QUEUES ==> s.queues[s.current] == []))
      || (r.rax == SYS_WAITPID && forall i :: !Holds(s.table, i, r.arg1))
      || r.rax == 0 || r.rax >= 30
    ensures var n := Step(s, Call(r));
      Answers(s, c, r, U64_MAX, n) && n == s.(table := s.table[c := n.table[c]])
  {
    hide FindFrom;
    CurrentFacts(s, c, r);
    assert Find(WithCtx(s, r).table, r.arg1).Some? ==> Holds(s.table, Find(WithCtx(s, r).table, r.arg1).value, r.arg1);
  }

  /** SYS_WAITPID for a Dead process: its code is the answer, and its slot is released. */
  lemma WaitAnswers(s: Sys, r: Regs, c: nat, i: nat)
    requires SysOk(s) && IsCurrent(s, c) && r.rax == SYS_WAITPID && Holds(s.table, i, r.arg1) && InState(s.table, i, Dead)
    ensures var n := Step(s, Call(r));
      && Answers(s, c, r, if s.table[i].value.exitCode.Some? then s.table[i].value.exitCode.value else 0, n)
      && n == s.(table := s.table[i := Some(s.table[i].value.(state := Empty))][c := n.table[c]])
  {
    hide FindFrom;
    CurrentFacts(s, c, r);
    FindHolds(WithCtx(s, r).table, i, r.arg1);
    ReapedOk(WithCtx(s, r), i, c);
  }

  lemma ReapedOk(s: Sys, i: nat, c: nat)
    requires SysOk(s) && IsCurrent(s, c) && InState(s.table, i, Dead)
    ensures Current(s.(table := WithState(s.table, i, Empty))) == Some(c)
  {
    UpdateOk(s, i, s.table[i].value.(state := Empty));
    FindHolds(s.table, c, s.current);
  }

  /** A memory call: its answer, its areas and its heap break are the process's own. */
  lemma MemoryAnswers(s: Sys, r: Regs, rax: nat, vmas: seq<Vma>, heapBreak: nat, c: nat)
    requires SysOk(s) && IsCurrent(s, c)
    ensures Step(s, MemoryCall(r, rax, vmas, heapBreak)) ==
      s.(table := s.table[c := Some(s.table[c].value.(ctx := r.(rax := rax), vmas := vmas, heapBreak := heapBreak))])
  {
    hide FindFrom;
    CurrentFacts(s, c, r);
    var u := WithCtx(s, r);
    MemoryOk(u, vmas, heapBreak);
    FindHolds(WithMemory(u, vmas, heapBreak).table, c, s.current);
  }

  /** A served fault saves the frame, and nothing else. */
  lemma ServedFaultReturns(s: Sys, r: Regs, c: nat)
    requires SysOk(s) && IsCurrent(s, c)
    ensures Step(s, Fault(r, true)) == s.(table := s.table[c := Some(s.table[c].value.(ctx := r))])
  {
    hide FindFrom, WithCtx, SysOk, Exit;
    CurrentFacts(s, c, r);
  }

  // ---------- Messages ----------

  /** A move that comes right after a queued move of the same sender. */
  predicate FollowsMove(q: seq<Message>, sender: nat, kind: nat) {
    q != [] && kind == MSG_MOUSE_MOVE && q[|q| - 1].kind == MSG_MOUSE_MOVE && q[|q| - 1].sender == sender
  }

  /** `q'` is `q` with the new message as its newest, in place of the move that it follows. */
  predicate Received(q: seq<Message>, sender: nat, kind: nat, args: seq<nat>, q': seq<Message>) {
    && q' != [] && |args| == 6
    && var m, rest := q'[|q'| - 1], q'[..|q'| - 1];
      && m.sender == sender && m.kind == kind
      && [m.arg1, m.arg2, m.arg3, m.arg4, m.arg5, m.arg6] == args
      && rest == if FollowsMove(q, sender, kind) then q[..|q| - 1] else q
  }

  predicate Full(q: seq<Message>, sender: nat, kind: nat) {
    |q| >= 64 && !FollowsMove(q, sender, kind)
  }

  /** The receiver, if it is blocked, becomes Ready; the other slots but `c` stay. */
  ghost predicate OnlyWakes(t: Table, to: nat, c: nat, u: Table) {
    forall i :: 0 <= i < MAX_PROCESSES && i != c ==>
      u[i] == if Holds(t, i, to) && InState(t, i, Blocked) then Some(t[i].value.(state := Ready)) else t[i]
  }

  /** The message goes to the queue of `to` and wakes it, or nothing happens: a receiver
      outside 1 to 63, or 64 messages queued already. */
  ghost predicate Delivers(s: Sys, to: nat, kind: nat, args: seq<nat>, c: nat, ok: bool, n: Sys) {
    && (ok <==> 0 < to < 64 && !Full(s.queues[to], s.current, kind))
    && (ok ==> Received(s.queues[to], s.current, kind, args, n.queues[to])
               && n.queues == s.queues[to := n.queues[to]] && OnlyWakes(s.table, to, c, n.table))
    && (!ok ==> n.queues == s.queues && forall i :: 0 <= i < MAX_PROCESSES && i != c ==> n.table[i] == s.table[i])
    && n.current == s.current && n.nextPid == s.nextPid
  }

  lemma PushReceived(q: seq<Message>, m: Message)
    ensures Accepts(q, m) <==> !Full(q, m.sender, m.kind)
    ensures Accepts(q, m) ==> Received(q, m.sender, m.kind, [m.arg1, m.arg2, m.arg3, m.arg4, m.arg5, m.arg6], Pushed(q, m))
  {
  }

  lemma UnblockWakes(s: Sys, to: nat, c: nat)
    requires SysOk(s)
    ensures OnlyWakes(s.table, to, c, Unblock(s.table, to))
  {
    hide FindFrom;
    forall i: nat | Holds(s.table, i, to)
      ensures Find(s.table, to) == Some(i)
    {
      FindHolds(s.table, i, to);
    }
  }

  lemma SentDelivers(s: Sys, to: nat, m: Message, c: nat)
    requires SysOk(s) && m.sender == s.current
    ensures Delivers(s, to, m.kind, [m.arg1, m.arg2, m.arg3, m.arg4, m.arg5, m.arg6], c, Sent(s, to, m).1, Sent(s, to, m).0)
  {
    hide Accepts, Pushed, Full, Received, OnlyWakes, Unblock, SysOk;
    UnblockWakes(s, to, c);
    if to < QUEUES {
      PushReceived(s.queues[to], m);
    }
  }

  /** The keyboard and mouse interrupts: the data word goes to the driver in the name of
      the interrupted process, whose own record stays. */
  lemma IrqDelivers(s: Sys, to: nat, kind: nat, data: nat)
    requires SysOk(s)
    ensures Delivers(s, to, kind, [data, 0, 0, 0, 0, 0], MAX_PROCESSES,
      0 < to < 64 && !Full(s.queues[to], s.current, kind), Step(s, Irq(to, kind, data)))
  {
    hide Sent, Delivers;
    SentDelivers(s, to, Message(s.current, kind, data, 0, 0, 0, 0, 0), MAX_PROCESSES);
    DeliversOk(s, to, kind, [data, 0, 0, 0, 0, 0], MAX_PROCESSES, Sent(s, to, Message(s.current, kind, data, 0, 0, 0, 0, 0)).1,
      Step(s, Irq(to, kind, data)));
  }

  lemma DeliversOk(s: Sys, to: nat, kind: nat, args: seq<nat>, c: nat, ok: bool, n: Sys)
    requires Delivers(s, to, kind, args, c, ok, n)
    ensures ok <==> 0 < to < 64 && !Full(s.queues[to], s.current, kind)
  {
    hide Full, Received;
  }

  /** SYS_SEND: receiver, kind and five words are the arguments in order; the answer is 0
      when the message was queued and 1 when it was not. */
  lemma SendDelivers(s: Sys, r: Regs, c: nat)
    requires SysOk(s) && IsCurrent(s, c) && r.rax == SYS_SEND
    ensures var n, ok := Step(s, Call(r)), 0 < r.arg1 < 64 && !Full(s.queues[r.arg1], s.current, r.arg2);
      && Answers(s, c, r, if ok then 0 else 1, n)
      && Delivers(s, r.arg1, r.arg2, [r.arg3, r.arg4, r.arg5, r.arg6, r.arg7, 0], c, ok, n)
  {
    hide FindFrom, Sent, Full, Received;
    CurrentFacts(s, c, r);
    var u, m := WithCtx(s, r), Message(s.current, r.arg2, r.arg3, r.arg4, r.arg5, r.arg6, r.arg7, 0);
    SentDelivers(u, r.arg1, m, c);
    SentOk(u, r.arg1, m);
    var (v, ok) := Sent(u, r.arg1, m);
    SenderStays(u, r.arg1, m, c);
    FindHolds(v.table, c, s.current);
  }

  /** A running process is not the receiver that a message wakes. */
  lemma SenderStays(s: Sys, to: nat, m: Message, c: nat)
    requires c < MAX_PROCESSES && s.table[c].Some? && s.table[c].value.state == Running
    ensures Sent(s, to, m).0.table[c] == s.table[c]
  {
    hide Accepts, Pushed;
  }

  // ---------- The end of a process ----------

  /** The table when the process in slot `c` ends: whoever waits for it becomes Ready, and
      its slot keeps the code, Dead for the one that waits or free for reuse. */
  ghost predicate Ended(t: Table, c: nat, code: nat, u: Table) {
    && c < MAX_PROCESSES && t[c].Some? && u[c].Some?
    && var pid, awaited := t[c].value.pid, exists i :: 0 <= i < MAX_PROCESSES && WaitsFor(t[i], t[c].value.pid);
      && u[c].value == t[c].value.(ctx := u[c].value.ctx, state := if awaited then Dead else Empty, vmas := [],
           exitCode := Some(code))
      && forall i :: 0 <= i < MAX_PROCESSES && i != c ==>
        u[i] == if WaitsFor(t[i], pid) then Some(t[i].value.(state := Ready, waitingFor := None)) else t[i]
  }

  /** SYS_EXIT, and a fault that is not served: the process ends with the code of the call
      or with 2^64 - 1, and the next Ready process runs. */
  lemma EndLeaves(s: Sys, ev: Event, code: nat, c: nat)
    requires SysOk(s) && IsCurrent(s, c)
    requires (ev.Call? && ev.regs.rax == SYS_EXIT && code == ev.regs.arg1) || (ev.Fault? && !ev.served && code == U64_MAX)
    ensures var n := Step(s, ev);
      exists t: Table :: Ended(s.table, c, code, t) && Picked(t, c + 1, n) && n.queues == s.queues && n.nextPid == s.nextPid
  {
    hide Picked, FindFrom, Schedule, Ended, Exited;
    CurrentFacts(s, c, ev.regs);
    var u := WithCtx(s, ev.regs);
    ExitPicks(u, c, code);
    assert Ended(s.table, c, code, Exited(u.table, s.current, code)) by {
      EndedAnyCtx(s.table, c, ev.regs, code, Exited(u.table, s.current, code));
    }
  }

  lemma EndedAnyCtx(t: Table, c: nat, ctx: Regs, code: nat, u: Table)
    requires c < MAX_PROCESSES && t[c].Some? && t[c].value.state == Running
    requires Ended(t[c := Some(t[c].value.(ctx := ctx))], c, code, u)
    ensures Ended(t, c, code, u)
  {
    var t' := t[c := Some(t[c].value.(ctx := ctx))];
    assert forall i :: 0 <= i < MAX_PROCESSES ==> WaitsFor(t'[i], t[c].value.pid) == WaitsFor(t[i], t[c].value.pid);
  }

  lemma ExitPicks(u: Sys, c: nat, code: nat)
    requires SysOk(u) && IsCurrent(u, c)
    ensures var t := Exited(u.table, u.current, code);
      && Ended(u.table, c, code, t) && Picked(t, c + 1, Exit(u, code))
      && Exit(u, code).queues == u.queues && Exit(u, code).nextPid == u.nextPid
  {
    hide Picked, FindFrom, Schedule;
    FindHolds(u.table, c, u.current);
    WakeWaitersOk(u, u.current);
    var t := Exited(u.table, u.current, code);
    var e := u.(table := t);
    var w := u.(table := WakeWaiters(u.table, u.current));
    UpdateOk(w, c, t[c].value);
    assert Current(e) == Some(c);
    SchedulePicked(e);
    assert Yielded(e) == t;
  }

  // ---------- A new process ----------

  /** The record of a process that has just been loaded: it starts at the entry point with
      all other registers zero, Ready, in the address space that was built for it. */
  predicate Starts(p: Process, pid: nat, parent: nat, pml4: nat, vmas: seq<Vma>, heapBreak: nat, entry: nat) {
    && p.pid == pid && p.state == Ready && p.parent == parent && p.exitCode == None && p.waitingFor == None
    && p.pml4 == pml4 && p.vmas == vmas && p.heapBreak == heapBreak
    && p.ctx.rip == entry && p.ctx.rax == 0
    && p.ctx.arg1 == p.ctx.arg2 == p.ctx.arg3 == p.ctx.arg4 == p.ctx.arg5 == p.ctx.arg6 == p.ctx.arg7 == 0
  }

  /** Slot `i` is the first that is free or Empty. */
  ghost predicate FirstFree(t: Table, i: nat) {
    && i < MAX_PROCESSES && (t[i].None? || t[i].value.state == Empty)
    && forall j :: 0 <= j < i ==> t[j].Some? && t[j].value.state != Empty
  }

  /** The loaded program is a process of its own in the first free slot, with the next pid. */
  ghost predicate Enrolled(t: Table, pid: nat, parent: nat, o: Outcome, i: nat, u: Table)
    requires o.Loaded?
  {
    && FirstFree(t, i) && u[i].Some? && Starts(u[i].value, pid, parent, o.pml4, o.vmas, o.heapBreak, o.entry)
    && u == t[i := u[i]]
  }

  lemma {:induction false} FreeIsFirst(t: Table, k: nat, i: nat)
    requires k <= MAX_PROCESSES && forall j :: 0 <= j < k ==> !Reusable(t[j])
    ensures FirstFree(t, i) <==> FreeSlotFrom(t, k) == Some(i)
    decreases MAX_PROCESSES - k
  {
    if k < MAX_PROCESSES && !Reusable(t[k]) {
      FreeIsFirst(t, k + 1, i);
    }
  }

  lemma InstalledEnrolls(t: Table, pid: nat, parent: nat, o: Outcome)
    requires o.Loaded?
    ensures var u := Installed(t, NewProcess(pid, parent, o));
      match FreeSlotFrom(t, 0)
      case Some(i) => Enrolled(t, pid, parent, o, i, u)
      case None => u == t && forall i: nat :: !FirstFree(t, i)
  {
    hide FreeSlotFrom, FirstFree;
    forall i: nat
      ensures FirstFree(t, i) <==> FreeSlotFrom(t, 0) == Some(i)
    {
      FreeIsFirst(t, 0, i);
    }
  }

  ghost predicate Joins(t: Table, pid: nat, parent: nat, o: Outcome, u: Table)
    requires o.Loaded?
  {
    exists i: nat :: Enrolled(t, pid, parent, o, i, u)
  }

  /** A spawn that loads a program: the new process waits in the first free slot, and the
      caller goes on with its pid in rax, or with 2^64 - 1 when the table is full. */
  ghost predicate Spawns(s: Sys, c: nat, r: Regs, o: Outcome, n: Sys)
    requires o.Loaded?
  {
    && n.nextPid == s.nextPid + 1 && n.queues == s.queues
    && c < MAX_PROCESSES
    && (forall i: nat :: FirstFree(s.table, i) ==>
         Answers(s, c, r, s.nextPid, n) && Enrolled(s.table[c := n.table[c]], s.nextPid, s.current, o, i, n.table))
    && ((forall i: nat :: !FirstFree(s.table, i)) ==>
         Answers(s, c, r, U64_MAX, n) && n.table == s.table[c := n.table[c]])
  }

  lemma SpawnStarts(s: Sys, r: Regs, o: Outcome, c: nat)
    requires SysOk(s) && IsCurrent(s, c) && o.Loaded?
    ensures Spawns(s, c, r, o, Step(s, Spawn(r, o)))
  {
    hide FindFrom, FirstFree, FreeSlotFrom, Starts, Installed, NewProcess;
    CurrentFacts(s, c, r);
    var u := WithCtx(s, r);
    InstalledEnrolls(u.table, s.nextPid, s.current, o);
    forall i: nat
      ensures FirstFree(s.table, i) <==> FreeSlotFrom(u.table, 0) == Some(i)
    {
      FreeIsFirst(u.table, 0, i);
      FirstFreeAnyCtx(s.table, c, u.table, i);
    }
    SpawnOk(u, o);
    var v := SpawnResult(u, o).0;
    SpawnerStays(u, o, c);
    FindHolds(v.table, c, s.current);
    forall i: nat | FirstFree(s.table, i)
      ensures Enrolled(s.table[c := Step(s, Spawn(r, o)).table[c]], s.nextPid, s.current, o, i, Step(s, Spawn(r, o)).table)
    {
      FirstFreeAnyCtx(s.table, c, s.table[c := Step(s, Spawn(r, o)).table[c]], i);
    }
  }

  lemma FirstFreeAnyCtx(t: Table, c: nat, u: Table, i: nat)
    requires InState(t, c, Running) && InState(u, c, Running) && u == t[c := u[c]]
    ensures FirstFree(t, i) <==> FirstFree(u, i)
  {
    forall j | 0 <= j < MAX_PROCESSES
      ensures t[j].Some? && t[j].value.state != Empty <==> u[j].Some? && u[j].value.state != Empty
    {
    }
  }

  lemma SpawnerStays(s: Sys, o: Outcome, c: nat)
    requires InState(s.table, c, Running)
    ensures SpawnResult(s, o).0.table[c] == s.table[c] && SpawnResult(s, o).0.current == s.current
  {
  }

  /** A program that is rejected, or fails to load, leaves no process; only a load that
      began spends a pid. */
  lemma SpawnFails(s: Sys, r: Regs, o: Outcome, c: nat)
    requires SysOk(s) && IsCurrent(s, c) && !o.Loaded?
    ensures var n := Step(s, Spawn(r, o));
      && Answers(s, c, r, U64_MAX, n) && n.queues == s.queues && n.table == s.table[c := n.table[c]]
      && n.nextPid == if o.Rejected? then s.nextPid else s.nextPid + 1
  {
    hide FindFrom;
    CurrentFacts(s, c, r);
  }

  /** The first program, which the kernel itself loads. */
  lemma FirstSpawnStarts(s: Sys, r: Regs, o: Outcome)
    requires SysOk(s) && s.current == 0 && o.Loaded?
    ensures var n := Step(s, Spawn(r, o));
      && n.nextPid == s.nextPid + 1 && n.queues == s.queues && n.current == 0
      && (forall i: nat :: FirstFree(s.table, i) ==> Enrolled(s.table, s.nextPid, 0, o, i, n.table))
      && ((forall i: nat :: !FirstFree(s.table, i)) ==> n.table == s.table)
  {
    hide FindFrom, FirstFree, FreeSlotFrom, Starts, Installed, NewProcess;
    InstalledEnrolls(s.table, s.nextPid, 0, o);
    forall i: nat
      ensures FirstFree(s.table, i) <==> FreeSlotFrom(s.table, 0) == Some(i)
    {
      FreeIsFirst(s.table, 0, i);
    }
  }
}
