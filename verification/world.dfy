/** Memory as a step system: what each kernel operation on user memory may change,
    and frame isolation over every run of such steps. */
module Worlds {
  import opened Bytes
  import opened Frames
  import opened PageTree
  import opened Vmas
  import opened Processes
  import opened Ownership

  /** Physical memory, the process table, the address spaces, the frames in use that
      are no page tables, and the page tables. */
  datatype World = World(m: seq<byte>, table: Table, spaces: Spaces, taken: set<nat>, trees: Trees)

  datatype Move =
    | Serve(c: nat, page: nat, g: nat)
    | ChangeAreas(c: nat, p: Process, pages: set<nat>)
    | Retire(c: nat)
    | Load(i: nat, p: Process)
    | Leak(root: nat)
    | Reschedule

  /** The bytes of frames in use before the step are the same after it. */
  ghost predicate SameBytes(m: seq<byte>, n: seq<byte>, frames: set<nat>) {
    |n| == |m| && forall a: nat {:trigger n[a]} :: a < |m| && a / PAGE_SIZE in frames ==> n[a] == m[a]
  }

  ghost predicate Zeroed(m: seq<byte>, g: nat) {
    forall a: nat {:trigger m[a]} :: a < |m| && a / PAGE_SIZE == g ==> m[a] == 0
  }

  ghost function SpaceOf(w: World, i: nat): map<nat, nat>
    requires i < MAX_PROCESSES && w.table[i].Some? && RootOf(w.table[i].value) in w.spaces
  {
    w.spaces[RootOf(w.table[i].value)]
  }

  ghost predicate LiveIn(w: World, i: nat) {
    i < MAX_PROCESSES && IsLive(w.table[i]) && RootOf(w.table[i].value) in w.spaces
  }

  /** Other address spaces keep their pages; new frames come from outside `taken`. */
  ghost predicate OnlyAdds(w: World, v: World, root: nat) {
    && w.taken <= v.taken && root !in w.spaces && root in v.spaces
    && (forall r :: r in w.spaces ==> r in v.spaces && v.spaces[r] == w.spaces[r])
    && (forall p {:trigger v.spaces[root][p]} :: p in v.spaces[root] ==> v.spaces[root][p] in v.taken - w.taken)
    && (forall p, q {:trigger v.spaces[root][p], v.spaces[root][q]} ::
        p in v.spaces[root] && q in v.spaces[root] && v.spaces[root][p] == v.spaces[root][q] ==> p == q)
  }

  ghost predicate Moves(w: World, move: Move, v: World) {
    match move
    case Serve(c, page, g) =>
      && LiveIn(w, c) && TouchedBy(w.table[c].value.vmas, page) && g !in w.taken
      && v.table == w.table && v.taken == w.taken + {g}
      && v.spaces == w.spaces[RootOf(w.table[c].value) := MapIn(SpaceOf(w, c), page, g)]
      && SameBytes(w.m, v.m, w.taken) && Zeroed(v.m, g)
      && Grew(w.trees, v.trees, RootOf(w.table[c].value))
    case ChangeAreas(c, p, pages) =>
      && LiveIn(w, c) && IsLive(Some(p)) && p.pml4 == w.table[c].value.pml4
      && (forall area :: area in p.vmas ==> AreaOk(area))
      && (forall page :: page in SpaceOf(w, c) && page !in pages ==> TouchedBy(p.vmas, page))
      && v.table == Update(w.table, c, p) && v.taken == w.taken && v.trees == w.trees
      && v.spaces == w.spaces[RootOf(p) := SpaceOf(w, c) - pages]
      && SameBytes(w.m, v.m, w.taken)
    case Retire(c) =>
      && LiveIn(w, c) && !IsLive(v.table[c])
      && (forall j :: 0 <= j < MAX_PROCESSES && j != c ==> SameMemory(w.table[j], v.table[j]))
      && v.spaces == w.spaces && v.taken == w.taken - SpaceOf(w, c).Values && v.m == w.m && v.trees == w.trees
    case Load(i, p) =>
      && i < MAX_PROCESSES && !IsLive(w.table[i]) && IsLive(Some(p)) && PageAligned(p.pml4)
      && (forall area :: area in p.vmas ==> AreaOk(area))
      && v.table == Update(w.table, i, p) && OnlyAdds(w, v, RootOf(p))
      && (forall page :: page in v.spaces[RootOf(p)] ==> TouchedBy(p.vmas, page))
      && SameBytes(w.m, v.m, w.taken) && AddsRoot(w.trees, w.spaces, v.trees, v.spaces, RootOf(p))
    case Leak(root) =>
      && v.table == w.table && w.taken <= v.taken && SameBytes(w.m, v.m, w.taken)
      && (forall r :: r in w.spaces ==> r in v.spaces && v.spaces[r] == w.spaces[r])
      && ((v.trees == w.trees && v.spaces == w.spaces) || AddsRoot(w.trees, w.spaces, v.trees, v.spaces, root))
    case Reschedule =>
      && (forall j :: 0 <= j < MAX_PROCESSES ==> SameMemory(w.table[j], v.table[j]))
      && v == w.(table := v.table)
  }

  ghost predicate WorldOk(w: World) {
    ProcessesOwn(w.table, w.spaces, w.taken) && Rooted(w.trees, w.spaces)
  }

  /** Every operation keeps frames isolated, and every table in a space. */
  lemma MoveKeepsIsolation(w: World, move: Move, v: World)
    requires WorldOk(w) && Moves(w, move, v)
    ensures WorldOk(v)
  {
    hide Rooted, Grew, AddsRoot;
    MoveKeepsRooted(w, move, v);
    match move
    case Serve(c, page, g) => OwnAfterMap(w.table, w.spaces, w.taken, c, page, g);
    case ChangeAreas(c, p, pages) => OwnAfterAreas(w.table, w.spaces, w.taken, c, pages, p);
    case Retire(c) => OwnAfterExit(w.table, w.spaces, w.taken, c, SpaceOf(w, c).Values, v.table);
    case Load(i, p) =>
      MoreSpaces(w, v);
      LoadIsolated(w, v, RootOf(p));
      OwnAfterInstall(w.table, v.spaces, v.taken, i, p);
    case Leak(_) => MoreSpaces(w, v);
    case Reschedule => OwnSameMemory(w.table, v.table, w.spaces, w.taken);
  }

  lemma MoveKeepsRooted(w: World, move: Move, v: World)
    requires WorldOk(w) && Moves(w, move, v)
    ensures Rooted(v.trees, v.spaces)
  {
    hide ProcessesOwn, SameMemory, SameBytes, Zeroed, Grew, AddsRoot, OwnsSpace, TouchedBy, AreaOk;
    match move
    case Serve(c, _, _) => GrewRooted(w.trees, w.spaces, v.trees, v.spaces, RootOf(w.table[c].value));
    case Load(_, p) => AddsRooted(w.trees, w.spaces, v.trees, v.spaces, RootOf(p));
    case Leak(root) =>
      if AddsRoot(w.trees, w.spaces, v.trees, v.spaces, root) {
        AddsRooted(w.trees, w.spaces, v.trees, v.spaces, root);
      }
    case ChangeAreas(_, _, _) =>
    case Retire(_) =>
    case Reschedule =>
  }

  lemma MoreSpaces(w: World, v: World)
    requires WorldOk(w) && w.taken <= v.taken
    requires forall r :: r in w.spaces ==> r in v.spaces && v.spaces[r] == w.spaces[r]
    ensures ProcessesOwn(w.table, v.spaces, v.taken)
  {
    var live := LiveRoots(w.table);
    assert forall r :: r in live ==> r in w.spaces && v.spaces[r] == w.spaces[r];
    assert Isolated(v.spaces, live, v.taken) by {
      assert forall r, p :: r in live && p in v.spaces[r] ==> v.spaces[r][p] == w.spaces[r][p];
    }
    hide Isolated;
    forall i | 0 <= i < MAX_PROCESSES && IsLive(w.table[i])
      ensures OwnsSpace(w.table[i].value, v.spaces)
    {
      assert OwnsSpace(w.table[i].value, w.spaces);
    }
  }

  lemma LoadIsolated(w: World, v: World, root: nat)
    requires WorldOk(w) && OnlyAdds(w, v, root)
    ensures root !in LiveRoots(w.table)
    ensures Isolated(v.spaces, LiveRoots(w.table) + {root}, v.taken)
  {
    var live := LiveRoots(w.table);
    assert forall r, p :: r in live && p in v.spaces[r] ==> v.spaces[r][p] == w.spaces[r][p] && w.spaces[r][p] in w.taken;
  }

  /** No operation changes a page or a byte of any process but the one it serves. */
  lemma MoveSparesOthers(w: World, move: Move, v: World, j: nat)
    requires WorldOk(w) && Moves(w, move, v) && LiveIn(w, j)
    requires move.Serve? || move.ChangeAreas? || move.Retire? ==> move.c != j
    ensures LiveIn(v, j) && RootOf(v.table[j].value) == RootOf(w.table[j].value) && SpaceOf(v, j) == SpaceOf(w, j)
    ensures SameBytes(w.m, v.m, SpaceOf(w, j).Values)
  {
    hide Rooted, Grew, AddsRoot, Zeroed, TouchedBy, AreaOk, OwnsSpace;
    assert RootOf(w.table[j].value) in LiveRoots(w.table);
    if move.Serve? || move.ChangeAreas? {
      if move.c < j {
        assert RootOf(w.table[move.c].value) != RootOf(w.table[j].value);
      } else {
        assert RootOf(w.table[j].value) != RootOf(w.table[move.c].value);
      }
    }
    if move.Reschedule? || move.Retire? {
      assert SameMemory(w.table[j], v.table[j]);
    }
    assert forall f :: f in SpaceOf(w, j).Values ==> f in w.taken;
  }

  ghost predicate IsMemoryRun(run: seq<World>, moves: seq<Move>) {
    && |run| == |moves| + 1
    && forall i {:trigger moves[i]} :: 0 <= i < |moves| ==> Moves(run[i], moves[i], run[i + 1])
  }

  lemma {:induction false} RunKeepsIsolation(run: seq<World>, moves: seq<Move>, n: nat)
    requires IsMemoryRun(run, moves) && WorldOk(run[0]) && n < |run|
    ensures WorldOk(run[n])
  {
    if n > 0 {
      RunKeepsIsolation(run, moves, n - 1);
      assert Moves(run[n - 1], moves[n - 1], run[n - 1 + 1]);
      MoveKeepsIsolation(run[n - 1], moves[n - 1], run[n]);
    }
  }

  /** Frame isolation over runs: in every state reached by any mix of loads, faults,
      sbrk, mmap, munmap and exits, two live pages have the same frame only if they
      are the same page of the same process. */
  lemma FramesNeverShared(run: seq<World>, moves: seq<Move>, n: nat, i: nat, j: nat, p: nat, q: nat)
    requires IsMemoryRun(run, moves) && WorldOk(run[0]) && n < |run|
    requires LiveIn(run[n], i) && LiveIn(run[n], j) && p in SpaceOf(run[n], i) && q in SpaceOf(run[n], j)
    ensures SpaceOf(run[n], i)[p] in run[n].taken
    ensures SpaceOf(run[n], i)[p] == SpaceOf(run[n], j)[q] <==> i == j && p == q
  {
    RunKeepsIsolation(run, moves, n);
    FrameIsOwnedOnce(run[n].table, run[n].spaces, run[n].taken, {}, {}, i, j, p, q);
  }
}
