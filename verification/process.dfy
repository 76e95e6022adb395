/** Process records, the process table as a value, and the class that holds it. */
module Processes {
  import opened Frames
  import opened Vmas

  const MAX_PROCESSES: nat := 64

  datatype ProcessState = Empty | Ready | Running | Blocked | Dead

  /** The saved user registers that the kernel reads or writes. */
  datatype Regs = Regs(rip: nat, rax: nat, arg1: nat, arg2: nat, arg3: nat, arg4: nat, arg5: nat, arg6: nat, arg7: nat)

  datatype Process = Process(
    pid: nat, state: ProcessState, ctx: Regs, pml4: nat, vmas: seq<Vma>, heapBreak: nat,
    parent: nat, exitCode: Option<nat>, waitingFor: Option<nat>)

  type Slot = Option<Process>

  type Table = t: seq<Slot> | |t| == MAX_PROCESSES witness seq(MAX_PROCESSES, _ => None)

  predicate Holds(t: Table, i: nat, pid: nat) {
    i < MAX_PROCESSES && t[i].Some? && t[i].value.pid == pid
  }

  predicate InState(t: Table, i: nat, s: ProcessState) {
    i < MAX_PROCESSES && t[i].Some? && t[i].value.state == s
  }

  function FindFrom(t: Table, pid: nat, i: nat): (r: Option<nat>)
    requires i <= MAX_PROCESSES
    ensures r.Some? ==> i <= r.value && Holds(t, r.value, pid) && forall j :: i <= j < r.value ==> !Holds(t, j, pid)
    ensures r.None? ==> forall j :: i <= j < MAX_PROCESSES ==> !Holds(t, j, pid)
    decreases MAX_PROCESSES - i
  {
    if i == MAX_PROCESSES then None
    else if Holds(t, i, pid) then Some(i)
    else FindFrom(t, pid, i + 1)
  }

  /** The slot that `get_process_mut` finds: the first with this pid. */
  function Find(t: Table, pid: nat): Option<nat> {
    FindFrom(t, pid, 0)
  }

  /** Tables that hold a pid in the same slots find it in the same slot. */
  lemma {:induction false} FindFromSame(t: Table, u: Table, pid: nat, i: nat)
    requires i <= MAX_PROCESSES && forall j :: 0 <= j < MAX_PROCESSES ==> Holds(t, j, pid) == Holds(u, j, pid)
    ensures FindFrom(t, pid, i) == FindFrom(u, pid, i)
    decreases MAX_PROCESSES - i
  {
    if i < MAX_PROCESSES {
      FindFromSame(t, u, pid, i + 1);
    }
  }

  function Update(t: Table, i: nat, p: Process): Table
    requires i < MAX_PROCESSES
  {
    t[i := Some(p)]
  }

  function WithState(t: Table, i: nat, s: ProcessState): Table
    requires i < MAX_PROCESSES && t[i].Some?
  {
    Update(t, i, t[i].value.(state := s))
  }

  // ---------- Round robin ----------

  function StartSlot(t: Table, cur: nat): (r: nat)
    ensures r <= MAX_PROCESSES
  {
    match Find(t, cur)
    case Some(i) => i + 1
    case None => 0
  }

  /** The first Ready slot in cyclic order from `start + offset`. */
  function ScanReady(t: Table, start: nat, offset: nat): (r: Option<nat>)
    requires offset <= MAX_PROCESSES
    ensures r.Some? ==> InState(t, r.value, Ready)
    decreases MAX_PROCESSES - offset
  {
    if offset == MAX_PROCESSES then None
    else
      var i := (start + offset) % MAX_PROCESSES;
      if InState(t, i, Ready) then Some(i) else ScanReady(t, start, offset + 1)
  }

  lemma ScanOnce(t: Table, start: nat, offset: nat)
    requires offset <= MAX_PROCESSES
    ensures ScanReady(t, start, offset) ==
      if offset == MAX_PROCESSES then None
      else if InState(t, (start + offset) % MAX_PROCESSES, Ready) then Some((start + offset) % MAX_PROCESSES)
      else ScanReady(t, start, offset + 1)
  {
  }

  function NextReadySlot(t: Table, cur: nat): Option<nat> {
    ScanReady(t, StartSlot(t, cur), 0)
  }

  /** How many slots a scan from `start` examines before it reaches slot `i`. */
  function Offset(start: nat, i: nat): (o: nat)
    ensures o < MAX_PROCESSES
  {
    (i + MAX_PROCESSES - start % MAX_PROCESSES) % MAX_PROCESSES
  }

  /** How many slots the scan after the current process examines before it reaches slot `i`. */
  function Distance(t: Table, cur: nat, i: nat): nat {
    Offset(StartSlot(t, cur), i)
  }

  // ---------- Waking ----------

  function UnblockedSlot(t: Table, i: nat): Table
    requires i < MAX_PROCESSES
  {
    if InState(t, i, Blocked) then WithState(t, i, Ready) else t
  }

  function Unblock(t: Table, pid: nat): Table {
    match Find(t, pid)
    case Some(i) => UnblockedSlot(t, i)
    case None => t
  }

  predicate WaitsFor(s: Slot, pid: nat) {
    s.Some? && s.value.state == Blocked && s.value.waitingFor == Some(pid)
  }

  function WokenSlot(s: Slot, pid: nat): Slot {
    if WaitsFor(s, pid) then Some(s.value.(state := Ready, waitingFor := None)) else s
  }

  /** Every process that waits for `pid` is made Ready. */
  function WakeWaiters(t: Table, pid: nat): Table {
    seq(MAX_PROCESSES, i requires 0 <= i < MAX_PROCESSES => WokenSlot(t[i], pid))
  }

  predicate AnyWaiter(t: Table, pid: nat) {
    exists i :: 0 <= i < MAX_PROCESSES && WaitsFor(t[i], pid)
  }

  /** The table after `pid` exits: waiters wake, the areas are dropped, and the slot is
      kept Dead for the waiter or released at once. */
  function Exited(t: Table, pid: nat, code: nat): Table {
    var woken := WakeWaiters(t, pid);
    match Find(woken, pid)
    case None => woken
    case Some(i) =>
      Update(woken, i, woken[i].value.(vmas := [], exitCode := Some(code),
        state := if AnyWaiter(t, pid) then Dead else Empty))
  }

  // ---------- Slots for new processes ----------

  predicate Reusable(s: Slot) {
    s.None? || s.value.state == Empty
  }

  function FreeSlotFrom(t: Table, i: nat): (r: Option<nat>)
    requires i <= MAX_PROCESSES
    ensures r.Some? ==> i <= r.value < MAX_PROCESSES && Reusable(t[r.value])
    decreases MAX_PROCESSES - i
  {
    if i == MAX_PROCESSES then None else if Reusable(t[i]) then Some(i) else FreeSlotFrom(t, i + 1)
  }

  function Installed(t: Table, p: Process): Table {
    match FreeSlotFrom(t, 0)
    case Some(i) => Update(t, i, p)
    case None => t
  }

  // ---------- The table in memory ----------

  class ProcessTable {
    const slots: array<Slot>
    var current: nat
    var nextPid: nat

    ghost predicate Valid() {
      slots.Length == MAX_PROCESSES
    }

    ghost function View(): Table
      requires Valid()
      reads slots
    {
      slots[..]
    }

    constructor ()
      ensures Valid() && fresh(slots) && current == 0 && nextPid == 1
      ensures View() == seq(MAX_PROCESSES, _ => None)
    {
      slots := new Slot[MAX_PROCESSES](_ => None);
      current, nextPid := 0, 1;
    }

    method GetProcess(pid: nat) returns (r: Option<nat>)
      requires Valid()
      ensures r == Find(View(), pid)
    {
      var i := 0;
      while i < MAX_PROCESSES
        invariant i <= MAX_PROCESSES && Find(View(), pid) == FindFrom(View(), pid, i)
      {
        match slots[i] {
          case Some(p) =>
            if p.pid == pid {
              return Some(i);
            }
          case None =>
        }
        i := i + 1;
      }
      return None;
    }

    method NextReady(cur: nat) returns (r: Option<nat>)
      requires Valid()
      ensures r.Some? <==> NextReadySlot(View(), cur).Some?
      ensures r.Some? ==> r == Some(View()[NextReadySlot(View(), cur).value].value.pid)
    {
      hide FindFrom, ScanReady;
      var found := GetProcess(cur);
      var start := if found.Some? then found.value + 1 else 0;
      var offset := 0;
      while offset < MAX_PROCESSES
        invariant offset <= MAX_PROCESSES
        invariant NextReadySlot(View(), cur) == ScanReady(View(), start, offset)
      {
        ScanOnce(View(), start, offset);
        var i := (start + offset) % MAX_PROCESSES;
        match slots[i] {
          case Some(p) =>
            if p.state == Ready {
              return Some(p.pid);
            }
          case None =>
        }
        offset := offset + 1;
      }
      ScanOnce(View(), start, offset);
      return None;
    }

    method SetState(i: nat, s: ProcessState)
      requires Valid() && i < MAX_PROCESSES && slots[i].Some?
      modifies slots
      ensures View() == WithState(old(View()), i, s)
    {
      slots[i] := Some(slots[i].value.(state := s));
    }

    method UnblockPid(pid: nat)
      requires Valid()
      modifies slots
      ensures View() == Unblock(old(View()), pid)
    {
      var found := GetProcess(pid);
      if found.Some? && slots[found.value].value.state == Blocked {
        SetState(found.value, Ready);
      }
    }

    method WakeWaitersOf(pid: nat) returns (any: bool)
      requires Valid()
      modifies slots
      ensures View() == WakeWaiters(old(View()), pid) && any == AnyWaiter(old(View()), pid)
    {
      any := false;
      for i := 0 to MAX_PROCESSES
        invariant forall j :: 0 <= j < i ==> slots[j] == WokenSlot(old(slots[j]), pid)
        invariant forall j :: i <= j < MAX_PROCESSES ==> slots[j] == old(slots[j])
        invariant any == exists j :: 0 <= j < i && WaitsFor(old(slots[j]), pid)
      {
        match slots[i] {
          case Some(p) =>
            if p.state == Blocked && p.waitingFor == Some(pid) {
              slots[i] := Some(p.(state := Ready, waitingFor := None));
              any := true;
            }
          case None =>
        }
      }
      assert any ==> AnyWaiter(old(View()), pid);
    }

    method Install(p: Process) returns (ok: bool)
      requires Valid()
      modifies slots
      ensures View() == Installed(old(View()), p) && ok == FreeSlotFrom(old(View()), 0).Some?
    {
      var i := 0;
      while i < MAX_PROCESSES
        invariant i <= MAX_PROCESSES && slots[..] == old(slots[..])
        invariant FreeSlotFrom(View(), 0) == FreeSlotFrom(View(), i)
      {
        if slots[i].None? || slots[i].value.state == Empty {
          slots[i] := Some(p);
          return true;
        }
        i := i + 1;
      }
      return false;
    }
  }
}
