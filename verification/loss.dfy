/** Frames that no process has any more: lost frames, which are in use but no page
    table and mapped by no live process, and dead page tables, whose address space no
    live process has. Which step adds which, and why none ever comes back. */
module Losses {
  import opened Bytes
  import opened Frames
  import opened PageTree
  import opened Translation
  import opened Mapping
  import opened Paging
  import opened Vmas
  import opened Processes
  import opened Ownership
  import opened Worlds

  ghost function FramesOf(spaces: Spaces, live: set<nat>): set<nat> {
    set r, p | r in live && r in spaces && p in spaces[r] :: spaces[r][p]
  }

  /** The frames mapped at some page of some live process. */
  ghost function LiveFrames(w: World): set<nat> {
    FramesOf(w.spaces, LiveRoots(w.table))
  }

  ghost function Lost(w: World): set<nat> {
    w.taken - LiveFrames(w)
  }

  ghost function FramesAt(space: map<nat, nat>, pages: set<nat>): set<nat> {
    set p | p in space && p in pages :: space[p]
  }

  /** What a step loses: the frame that a fault maps over, the frames of the pages
      unmapped, and of a load the frames that no live process ends up with. */
  ghost function LossOf(w: World, move: Move, v: World): set<nat>
    requires Moves(w, move, v)
  {
    match move
    case Serve(c, page, g) => FramesAt(SpaceOf(w, c), {page})
    case ChangeAreas(c, p, pages) => FramesAt(SpaceOf(w, c), pages)
    case Retire(c) => {}
    case Load(i, p) => v.taken - w.taken - v.spaces[RootOf(p)].Values
    case Leak(_) => v.taken - w.taken
    case Reschedule => {}
  }

  // ---------- One step ----------

  lemma UnmappedFrames(spaces: Spaces, live: set<nat>, taken: set<nat>, r: nat, pages: set<nat>)
    requires Isolated(spaces, live, taken) && r in live
    ensures r in spaces
    ensures FramesOf(spaces[r := spaces[r] - pages], live) == FramesOf(spaces, live) - FramesAt(spaces[r], pages)
  {
    var after := spaces[r := spaces[r] - pages];
    forall f
      ensures f in FramesOf(after, live) <==> f in FramesOf(spaces, live) - FramesAt(spaces[r], pages)
    {
      if s, p :| s in live && s in spaces && p in spaces[s] && spaces[s][p] == f {
        if s == r && p in pages {
          assert f in FramesAt(spaces[r], pages);
        } else {
          assert p in after[s] && after[s][p] == f;
        }
      }
      if s, p :| s in live && s in after && p in after[s] && after[s][p] == f {
        assert spaces[s][p] == f;
        assert f in FramesOf(spaces, live);
      }
    }
  }

  /** Mapping a page is unmapping it and adding the new frame. */
  lemma ServedFrames(spaces: Spaces, live: set<nat>, taken: set<nat>, r: nat, page: nat, g: nat)
    requires Isolated(spaces, live, taken) && r in live
    ensures r in spaces
    ensures FramesOf(spaces[r := MapIn(spaces[r], page, g)], live) == FramesOf(spaces, live) - FramesAt(spaces[r], {page}) + {g}
  {
    hide Isolated, FramesOf, FramesAt;
    UnmappedFrames(spaces, live, taken, r, {page});
    AddedFrame(spaces[r := spaces[r] - {page}], live, r, page, g);
    assert (spaces[r] - {page})[page := g] == MapIn(spaces[r], page, g);
    assert spaces[r := spaces[r] - {page}][r := MapIn(spaces[r], page, g)] == spaces[r := MapIn(spaces[r], page, g)];
  }

  lemma AddedFrame(spaces: Spaces, live: set<nat>, r: nat, page: nat, g: nat)
    requires r in live && r in spaces && page !in spaces[r]
    ensures FramesOf(spaces[r := MapIn(spaces[r], page, g)], live) == FramesOf(spaces, live) + {g}
  {
    var after := spaces[r := MapIn(spaces[r], page, g)];
    assert after[r][page] == g;
    forall f | f in FramesOf(spaces, live)
      ensures f in FramesOf(after, live)
    {
      var s, p :| s in live && s in spaces && p in spaces[s] && spaces[s][p] == f;
      assert p in after[s] && after[s][p] == f;
    }
  }

  lemma RetiredFrames(spaces: Spaces, live: set<nat>, taken: set<nat>, r: nat)
    requires Isolated(spaces, live, taken) && r in live
    ensures r in spaces && spaces[r].Values <= FramesOf(spaces, live)
    ensures FramesOf(spaces, live - {r}) == FramesOf(spaces, live) - spaces[r].Values
  {
    forall f
      ensures f in FramesOf(spaces, live - {r}) <==> f in FramesOf(spaces, live) - spaces[r].Values
    {
      if s, p :| s in live && s in spaces && p in spaces[s] && spaces[s][p] == f && s != r {
        assert s in live - {r};
      }
    }
  }

  lemma LoadedFrames(spaces: Spaces, after: Spaces, live: set<nat>, r: nat)
    requires live <= spaces.Keys && r in after
    requires forall s :: s in spaces ==> s in after && after[s] == spaces[s]
    ensures FramesOf(after, live + {r}) == FramesOf(spaces, live) + after[r].Values
  {
  }

  lemma KeptFrames(spaces: Spaces, after: Spaces, live: set<nat>)
    requires live <= spaces.Keys && forall s :: s in spaces ==> s in after && after[s] == spaces[s]
    ensures FramesOf(after, live) == FramesOf(spaces, live)
  {
  }

  lemma LiveInUse(w: World)
    requires WorldOk(w)
    ensures LiveFrames(w) <= w.taken
  {
  }

  lemma PageFrames(spaces: Spaces, live: set<nat>, r: nat, pages: set<nat>)
    requires r in live && r in spaces
    ensures FramesAt(spaces[r], pages) <= FramesOf(spaces, live)
  {
  }

  /** A step loses exactly `LossOf`, and these frames were not lost before. */
  lemma MoveLoses(w: World, move: Move, v: World)
    requires WorldOk(w) && Moves(w, move, v)
    ensures Lost(v) == Lost(w) + LossOf(w, move, v) && LossOf(w, move, v) !! Lost(w)
  {
    hide FramesOf, FramesAt, SameMemory, SameBytes, Zeroed, Isolated, OwnsSpace, TouchedBy, AreaOk, Rooted, Grew, AddsRoot;
    var live := LiveRoots(w.table);
    LiveInUse(w);
    IsolatedLive(w);
    match move
    case Serve(c, page, g) =>
      ServedFrames(w.spaces, live, w.taken, RootOf(w.table[c].value), page, g);
      PageFrames(w.spaces, live, RootOf(w.table[c].value), {page});
    case ChangeAreas(c, p, pages) =>
      SameLiveRoots(w.table, c, p);
      UnmappedFrames(w.spaces, live, w.taken, RootOf(p), pages);
      PageFrames(w.spaces, live, RootOf(p), pages);
    case Retire(c) =>
      RetiredRoots(w.table, c, v.table);
      RetiredFrames(w.spaces, live, w.taken, RootOf(w.table[c].value));
    case Load(i, p) =>
      InstalledRoots(w.table, i, p);
      LoadedFrames(w.spaces, v.spaces, live, RootOf(p));
    case Leak(_) => KeptFrames(w.spaces, v.spaces, live);
    case Reschedule => SameMemoryRoots(w.table, v.table);
  }

  lemma IsolatedLive(w: World)
    requires WorldOk(w)
    ensures Isolated(w.spaces, LiveRoots(w.table), w.taken) && LiveRoots(w.table) <= w.spaces.Keys && RootsDistinct(w.table)
  {
  }

  /** A step loses a frame in these cases and no other: a fault on a page that is
      mapped already, an unmapping of a mapped page, and a load that takes a frame
      and does not leave it in the address space of a process. An exit loses page
      tables only. */
  lemma LosesIff(w: World, move: Move, v: World)
    requires WorldOk(w) && Moves(w, move, v)
    ensures Lost(v) != Lost(w) <==> match move
      case Serve(c, page, _) => page in SpaceOf(w, c)
      case ChangeAreas(c, _, pages) => exists p :: p in SpaceOf(w, c) && p in pages
      case Load(_, p) => exists f :: f in v.taken - w.taken && f !in v.spaces[RootOf(p)].Values
      case Leak(_) => exists f :: f in v.taken - w.taken
      case _ => false
  {
    hide WorldOk, Lost;
    MoveLoses(w, move, v);
    if f :| f in LossOf(w, move, v) {
      assert f in Lost(v) && f !in Lost(w);
    }
    match move
    case Serve(c, page, _) =>
      assert page in SpaceOf(w, c) ==> SpaceOf(w, c)[page] in LossOf(w, move, v);
    case ChangeAreas(c, _, pages) =>
      if p :| p in SpaceOf(w, c) && p in pages {
        assert SpaceOf(w, c)[p] in LossOf(w, move, v);
      }
    case Load(_, p) =>
      if f :| f in v.taken - w.taken && f !in v.spaces[RootOf(p)].Values {
        assert f in LossOf(w, move, v);
      }
    case Leak(_) =>
      if f :| f in v.taken - w.taken {
        assert f in LossOf(w, move, v);
      }
    case _ =>
  }

  // ---------- Runs ----------

  /** For good: a frame that is lost in one state of a run is lost in every later one. */
  lemma {:induction false} LostForGood(run: seq<World>, moves: seq<Move>, i: nat, n: nat)
    requires IsMemoryRun(run, moves) && WorldOk(run[0]) && i <= n < |run|
    ensures Lost(run[i]) <= Lost(run[n])
  {
    hide Lost, WorldOk, Moves;
    if i < n {
      LostForGood(run, moves, i, n - 1);
      RunKeepsIsolation(run, moves, n - 1);
      assert Moves(run[n - 1], moves[n - 1], run[n - 1 + 1]);
      MoveLoses(run[n - 1], moves[n - 1], run[n]);
    }
  }

  /** How many frames the first `n` steps lose. */
  ghost function LossCount(run: seq<World>, moves: seq<Move>, n: nat): nat
    requires IsMemoryRun(run, moves) && n < |run|
  {
    if n == 0 then 0
    else LossCount(run, moves, n - 1) + |LossOf(run[n - 1], moves[n - 1], run[n - 1 + 1])|
  }

  /** The frames lost after a run are counted step by step: none is counted twice. */
  lemma {:induction false} LossesAddUp(run: seq<World>, moves: seq<Move>, n: nat)
    requires IsMemoryRun(run, moves) && WorldOk(run[0]) && n < |run|
    ensures |Lost(run[n])| == |Lost(run[0])| + LossCount(run, moves, n)
  {
    hide Lost, WorldOk, Moves, LossOf;
    if n > 0 {
      LossesAddUp(run, moves, n - 1);
      RunKeepsIsolation(run, moves, n - 1);
      assert Moves(run[n - 1], moves[n - 1], run[n - 1 + 1]);
      MoveLoses(run[n - 1], moves[n - 1], run[n]);
      SumSize(Lost(run[n - 1]), LossOf(run[n - 1], moves[n - 1], run[n]), Lost(run[n]));
    }
  }

  lemma SumSize(a: set<nat>, b: set<nat>, sum: set<nat>)
    requires a !! b && sum == a + b
    ensures |sum| == |a| + |b|
  {
  }

  // ---------- Page tables ----------

  ghost function TreeOf(trees: Trees, root: nat): set<nat> {
    set f | f in trees && trees[f] == root
  }

  /** The page tables of address spaces that no live process has. */
  ghost function DeadTables(w: World): set<nat> {
    set f | f in w.trees && w.trees[f] !in LiveRoots(w.table)
  }

  ghost function LiveTables(w: World): set<nat> {
    set f | f in w.trees && w.trees[f] in LiveRoots(w.table)
  }

  /** The page tables that a step leaves without a process: all those of a process that
      exits, and those that a load without a result has built. */
  ghost function BuriedBy(w: World, move: Move, v: World): set<nat> {
    match move
    case Retire(c) => if LiveIn(w, c) then TreeOf(w.trees, RootOf(w.table[c].value)) else {}
    case Leak(root) => if root in LiveRoots(w.table) then {} else v.trees.Keys - w.trees.Keys
    case _ => {}
  }

  /** A step that leaves the live roots as they are buries the new tables of a root that
      is not live. */
  lemma SameRootsBury(w: World, v: World, root: nat)
    requires LiveRoots(v.table) == LiveRoots(w.table) && Grew(w.trees, v.trees, root)
    ensures DeadTables(v) == DeadTables(w) + if root in LiveRoots(w.table) then {} else v.trees.Keys - w.trees.Keys
  {
    hide LiveRoots;
    forall f
      ensures f in DeadTables(v) <==>
        f in DeadTables(w) || (root !in LiveRoots(w.table) && f in v.trees.Keys - w.trees.Keys)
    {
      if f in w.trees {
        assert f in v.trees && v.trees[f] == w.trees[f];
      }
    }
  }

  lemma RetireBuries(w: World, v: World, root: nat)
    requires v.trees == w.trees && root in LiveRoots(w.table) && LiveRoots(v.table) == LiveRoots(w.table) - {root}
    ensures DeadTables(v) == DeadTables(w) + TreeOf(w.trees, root) && TreeOf(w.trees, root) !! DeadTables(w)
  {
    hide LiveRoots;
  }

  lemma LoadBuriesNothing(w: World, v: World, root: nat)
    requires Grew(w.trees, v.trees, root) && LiveRoots(v.table) == LiveRoots(w.table) + {root}
    requires root !in w.spaces && Rooted(w.trees, w.spaces)
    ensures DeadTables(v) == DeadTables(w)
  {
    hide LiveRoots;
    forall f
      ensures f in DeadTables(v) <==> f in DeadTables(w)
    {
      if f in w.trees {
        assert f in v.trees && v.trees[f] == w.trees[f] && w.trees[f] in w.spaces;
      }
    }
  }

  /** A step adds exactly `BuriedBy` to the dead tables; none of them was dead before. */
  lemma MoveBuries(w: World, move: Move, v: World)
    requires WorldOk(w) && Moves(w, move, v)
    ensures DeadTables(v) == DeadTables(w) + BuriedBy(w, move, v) && BuriedBy(w, move, v) !! DeadTables(w)
  {
    hide DeadTables, TreeOf, SameMemory, SameBytes, Zeroed, Isolated, OwnsSpace, TouchedBy, AreaOk, Rooted, Grew;
    IsolatedLive(w);
    GrewNothing(w.trees, 0);
    match move
    case Serve(c, _, _) =>
      assert RootOf(w.table[c].value) in LiveRoots(w.table);
      SameRootsBury(w, v, RootOf(w.table[c].value));
    case ChangeAreas(c, p, _) =>
      SameLiveRoots(w.table, c, p);
      SameDead(w, v);
    case Retire(c) =>
      RetiredRoots(w.table, c, v.table);
      RetireBuries(w, v, RootOf(w.table[c].value));
    case Load(i, p) =>
      InstalledRoots(w.table, i, p);
      LoadBuriesNothing(w, v, RootOf(p));
    case Leak(root) =>
      if v.trees == w.trees && v.spaces == w.spaces {
        SameDead(w, v);
        assert v.trees.Keys - w.trees.Keys == {};
      } else {
        SameRootsBury(w, v, root);
        NewIsNotDead(w, v);
      }
    case Reschedule =>
      SameMemoryRoots(w.table, v.table);
      SameDead(w, v);
  }

  lemma GrewNothing(trees: Trees, root: nat)
    ensures Grew(trees, trees, root)
  {
  }

  lemma SameDead(w: World, v: World)
    requires v.trees == w.trees && LiveRoots(v.table) == LiveRoots(w.table)
    ensures DeadTables(v) == DeadTables(w)
  {
    hide LiveRoots;
  }

  lemma NewIsNotDead(w: World, v: World)
    ensures v.trees.Keys - w.trees.Keys !! DeadTables(w)
  {
  }

  /** An exit buries the root table and every table below it. */
  lemma ExitBuriesTree(w: World, c: nat, v: World)
    requires WorldOk(w) && Moves(w, Retire(c), v)
    ensures LiveIn(w, c) && DeadTables(v) == DeadTables(w) + TreeOf(w.trees, RootOf(w.table[c].value))
    ensures RootOf(w.table[c].value) in TreeOf(w.trees, RootOf(w.table[c].value)) && TreeOf(w.trees, RootOf(w.table[c].value)) !! DeadTables(w)
  {
    hide DeadTables;
    MoveBuries(w, Retire(c), v);
  }

  /** So does a load whose space no process gets. */
  lemma LoadBuriesTree(w: World, root: nat, v: World)
    requires WorldOk(w) && Moves(w, Leak(root), v) && root !in w.spaces && root in v.spaces
    ensures DeadTables(v) == DeadTables(w) + TreeOf(v.trees, root) && root in TreeOf(v.trees, root) && TreeOf(v.trees, root) !! DeadTables(w)
  {
    hide DeadTables, ProcessesOwn;
    MoveBuries(w, Leak(root), v);
    LiveHasSpace(w, root);
    FreshTree(w, v, root);
  }

  lemma LiveHasSpace(w: World, root: nat)
    requires WorldOk(w) && root !in w.spaces
    ensures root !in LiveRoots(w.table)
  {
  }

  lemma FreshTree(w: World, v: World, root: nat)
    requires Rooted(w.trees, w.spaces) && root !in w.spaces && AddsRoot(w.trees, w.spaces, v.trees, v.spaces, root)
    ensures v.trees.Keys - w.trees.Keys == TreeOf(v.trees, root) && root in TreeOf(v.trees, root)
  {
    forall f
      ensures f in v.trees.Keys - w.trees.Keys <==> f in TreeOf(v.trees, root)
    {
      if f in w.trees {
        assert w.trees[f] in w.spaces;
      }
    }
  }

  /** For good: a root that no live process has, retired or never installed, is the root
      of no live process in any later state, and its tables stay. */
  lemma {:induction false} RootStaysDead(run: seq<World>, moves: seq<Move>, root: nat, i: nat, n: nat)
    requires IsMemoryRun(run, moves) && WorldOk(run[0]) && i <= n < |run|
    requires root in run[i].spaces && root !in LiveRoots(run[i].table)
    ensures root in run[n].spaces && root !in LiveRoots(run[n].table)
    ensures forall f :: f in TreeOf(run[i].trees, root) ==> f in TreeOf(run[n].trees, root)
  {
    hide WorldOk, Moves, LiveRoots;
    if i < n {
      RootStaysDead(run, moves, root, i, n - 1);
      RunKeepsIsolation(run, moves, n - 1);
      assert Moves(run[n - 1], moves[n - 1], run[n - 1 + 1]);
      DeadRootStep(run[n - 1], moves[n - 1], run[n], root);
    }
  }

  lemma DeadRootStep(w: World, move: Move, v: World, root: nat)
    requires WorldOk(w) && Moves(w, move, v) && root in w.spaces && root !in LiveRoots(w.table)
    ensures root in v.spaces && root !in LiveRoots(v.table)
    ensures forall f :: f in TreeOf(w.trees, root) ==> f in TreeOf(v.trees, root)
  {
    hide Rooted, SameMemory, SameBytes, Zeroed, Isolated, OwnsSpace, TouchedBy, AreaOk;
    IsolatedLive(w);
    match move
    case Serve(c, _, _) =>
    case ChangeAreas(c, p, _) => SameLiveRoots(w.table, c, p);
    case Retire(c) => RetiredRoots(w.table, c, v.table);
    case Load(i, p) => InstalledRoots(w.table, i, p);
    case Leak(_) =>
    case Reschedule => SameMemoryRoots(w.table, v.table);
  }

  /** Dead tables stay dead over every run. */
  lemma {:induction false} BuriedForGood(run: seq<World>, moves: seq<Move>, i: nat, n: nat)
    requires IsMemoryRun(run, moves) && WorldOk(run[0]) && i <= n < |run|
    ensures DeadTables(run[i]) <= DeadTables(run[n])
  {
    hide DeadTables, WorldOk, Moves;
    if i < n {
      BuriedForGood(run, moves, i, n - 1);
      RunKeepsIsolation(run, moves, n - 1);
      assert Moves(run[n - 1], moves[n - 1], run[n - 1 + 1]);
      MoveBuries(run[n - 1], moves[n - 1], run[n]);
    }
  }

  /** How many page tables the first `n` steps bury. */
  ghost function BurialCount(run: seq<World>, moves: seq<Move>, n: nat): nat
    requires |run| == |moves| + 1 && n < |run|
  {
    if n == 0 then 0
    else BurialCount(run, moves, n - 1) + |BuriedBy(run[n - 1], moves[n - 1], run[n - 1 + 1])|
  }

  /** The dead tables after a run are counted step by step: none is counted twice. */
  lemma {:induction false} BurialsAddUp(run: seq<World>, moves: seq<Move>, n: nat)
    requires IsMemoryRun(run, moves) && WorldOk(run[0]) && n < |run|
    ensures |DeadTables(run[n])| == |DeadTables(run[0])| + BurialCount(run, moves, n)
  {
    hide DeadTables, WorldOk, Moves, BuriedBy;
    if n > 0 {
      BurialsAddUp(run, moves, n - 1);
      RunKeepsIsolation(run, moves, n - 1);
      assert Moves(run[n - 1], moves[n - 1], run[n - 1 + 1]);
      MoveBuries(run[n - 1], moves[n - 1], run[n]);
      SumSize(DeadTables(run[n - 1]), BuriedBy(run[n - 1], moves[n - 1], run[n]), DeadTables(run[n]));
    }
  }

  /** Where the frames in use are: page tables of live processes, page tables of dead
      ones, frames mapped by live processes, and lost frames. */
  lemma FramesInUse(m: seq<byte>, lab: Labels, kernel: set<(nat, nat)>, pool: set<nat>, free: set<nat>, used: nat, w: World)
    requires MachineOk(m, lab, kernel, pool, free, used) && WorldOk(w)
    requires w.taken == pool - free - lab.Keys && w.trees == TreesOf(lab)
    ensures pool - free == LiveTables(w) + DeadTables(w) + LiveFrames(w) + Lost(w)
    ensures used == |LiveTables(w)| + |DeadTables(w)| + |LiveFrames(w)| + |Lost(w)|
  {
    hide MachineOk, Intact, WorldOk, LiveFrames, LiveRoots;
    MachineUsed(m, lab, kernel, pool, free, used);
    LiveInUse(w);
    assert LiveTables(w) + DeadTables(w) == lab.Keys;
    SumSize(LiveTables(w), DeadTables(w), lab.Keys);
    PartSizes(pool - free, lab.Keys, LiveFrames(w), Lost(w));
  }

  lemma PartSizes(inUse: set<nat>, tables: set<nat>, live: set<nat>, lost: set<nat>)
    requires tables <= inUse && live <= inUse - tables && lost == inUse - tables - live
    ensures inUse == tables + live + lost && |inUse| == |tables| + |live| + |lost|
  {
    SumSize(live, lost, inUse - tables);
    SumSize(tables, inUse - tables, inUse);
  }

  // ---------- An example ----------

  const OWNER: Process := Process(1, Running, Regs(0, 0, 0, 0, 0, 0, 0, 0, 0), PAGE_SIZE,
    [Vma(PAGE_SIZE, 2 * PAGE_SIZE, VmaFlags(true, false))], 0, 0, None, None)

  /** One process, whose only page is page 1 in frame `f`. */
  ghost function OnePage(f: nat): World {
    World([], seq(MAX_PROCESSES, i => if i == 0 then Some(OWNER) else None), map[1 := map[1 := f]], {f}, map[1 := 1])
  }

  lemma OnePageOk(f: nat)
    ensures LiveRoots(OnePage(f).table) == {1} && WorldOk(OnePage(f)) && LiveFrames(OnePage(f)) == {f}
    ensures FramesAt(SpaceOf(OnePage(f), 0), {1}) == {f} && TouchedBy(OWNER.vmas, 1)
  {
    hide PageDown, OwnsSpace, Isolated;
    PageRounding(PAGE_SIZE);
    var w := OnePage(f);
    assert Touches(OWNER.vmas[0], 1);
    assert IsLive(w.table[0]);
    assert LiveRoots(w.table) == {1};
    assert w.spaces[1][1] == f;
    OnePageIsolated(f);
    assert OwnsSpace(OWNER, w.spaces) by { OnePageOwned(f); }
  }

  lemma OnePageIsolated(f: nat)
    ensures Isolated(OnePage(f).spaces, {1}, {f})
  {
  }

  lemma OnePageOwned(f: nat)
    requires TouchedBy(OWNER.vmas, 1)
    ensures OwnsSpace(OWNER, OnePage(f).spaces)
  {
    hide TouchedBy;
  }

  /** Unmapping the page loses its frame 7, and so would a second fault on the page, which
      the handler would serve but no processor raises. */
  lemma OnePageLoses()
    ensures var w, q := OnePage(7), OWNER.(vmas := []);
      var v := w.(table := Update(w.table, 0, q), spaces := map[1 := map[]]);
      WorldOk(w) && Lost(w) == {} && Moves(w, ChangeAreas(0, q, {1}), v) && Lost(v) == {7}
    ensures var w, v := OnePage(7), OnePage(8).(taken := {7, 8});
      Moves(w, Serve(0, 1, 8), v) && Lost(v) == {7}
  {
    hide WorldOk, LiveFrames, TouchedBy, FramesAt;
    OnePageOk(7);
    var w, q := OnePage(7), OWNER.(vmas := []);
    var v := w.(table := Update(w.table, 0, q), spaces := map[1 := map[]]);
    assert w.spaces[1] - {1} == map[];
    MoveLoses(w, ChangeAreas(0, q, {1}), v);
    var u := OnePage(8).(taken := {7, 8});
    assert u.table == w.table && u.spaces[1] == MapIn(w.spaces[1], 1, 8);
    assert u.spaces == w.spaces[1 := MapIn(w.spaces[1], 1, 8)];
    MoveLoses(w, Serve(0, 1, 8), u);
  }
}
