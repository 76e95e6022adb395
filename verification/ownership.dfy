/** Who owns which frame: address spaces as maps from pages to frames, the frames
    taken from the pool, and isolation between live address spaces. */
module Ownership {
  import opened Bits
  import opened Bytes
  import opened Frames
  import opened PageTree
  import opened Translation
  import opened Mapping
  import opened Vmas
  import opened Processes

  type Spaces = map<nat, map<nat, nat>>

  ghost function SpacesOf(m: seq<byte>, lab: Labels): Spaces {
    map r | r in lab && lab[r].Pml4? :: Space(m, r)
  }

  /** Each page table of the user half, with the root of the space that it serves. */
  type Trees = map<nat, nat>

  ghost function TreesOf(lab: Labels): Trees {
    map f | f in lab :: lab[f].root
  }

  /** Every table serves a space, and the root of a space is a table of its own. */
  ghost predicate Rooted(trees: Trees, spaces: Spaces) {
    && (forall f {:trigger trees[f]} :: f in trees ==> trees[f] in spaces)
    && (forall r :: r in spaces ==> r in trees && trees[r] == r)
  }

  /** The space of `root` has gained tables, and no other space has. */
  ghost predicate Grew(trees: Trees, more: Trees, root: nat) {
    && (forall f :: f in trees ==> f in more && more[f] == trees[f])
    && (forall f {:trigger more[f]} :: f in more && f !in trees ==> more[f] == root)
  }

  /** The space of `root` has been added, with tables of its own. */
  ghost predicate AddsRoot(trees: Trees, spaces: Spaces, trees': Trees, spaces': Spaces, root: nat) {
    Grew(trees, trees', root) && root in trees' && trees'[root] == root && spaces'.Keys == spaces.Keys + {root}
  }

  lemma GrewTwice(a: Trees, b: Trees, c: Trees, root: nat)
    requires Grew(a, b, root) && Grew(b, c, root)
    ensures Grew(a, c, root)
  {
    forall f | f in a
      ensures f in c && c[f] == a[f]
    {
      assert b[f] == a[f];
    }
  }

  lemma AddsRooted(trees: Trees, spaces: Spaces, trees': Trees, spaces': Spaces, root: nat)
    requires Rooted(trees, spaces) && AddsRoot(trees, spaces, trees', spaces', root)
    ensures Rooted(trees', spaces')
  {
    forall r | r in spaces'
      ensures r in trees' && trees'[r] == r
    {
      if r != root {
        assert r in spaces && trees[r] == r;
      }
    }
  }

  lemma GrewRooted(trees: Trees, spaces: Spaces, trees': Trees, spaces': Spaces, root: nat)
    requires Rooted(trees, spaces) && Grew(trees, trees', root) && root in spaces && spaces'.Keys == spaces.Keys
    ensures AddsRoot(trees, spaces, trees', spaces', root) && Rooted(trees', spaces')
  {
    assert trees'[root] == trees[root];
    assert spaces.Keys + {root} == spaces.Keys;
    AddsRooted(trees, spaces, trees', spaces', root);
  }

  /** Every user page may be read and written by the process. */
  ghost predicate OpenPages(m: seq<byte>, lab: Labels) {
    forall r, p {:trigger Entries(m, r)[p]} :: IsRoot(lab, r) && p in Entries(m, r) ==> IsOpen(Entries(m, r)[p])
  }

  /** Every table serves a space, and every page of it is open to the process. */
  ghost predicate Grounded(m: seq<byte>, lab: Labels) {
    Rooted(TreesOf(lab), SpacesOf(m, lab)) && OpenPages(m, lab)
  }

  /** Each page of a live space is mapped to a frame in use that is no page table,
      and no two live pages share a frame. */
  ghost predicate Isolated(spaces: Spaces, live: set<nat>, taken: set<nat>) {
    && live <= spaces.Keys
    && (forall r, p {:trigger spaces[r][p]} :: r in live && p in spaces[r] ==> spaces[r][p] in taken)
    && (forall r, p, s, q {:trigger spaces[r][p], spaces[s][q]} ::
        r in live && p in spaces[r] && s in live && q in spaces[s] && spaces[r][p] == spaces[s][q] ==> r == s && p == q)
  }

  ghost function MapIn(space: map<nat, nat>, page: nat, f: nat): map<nat, nat> {
    space[page := f]
  }

  /** Mapping a frame that nothing owns yet, in place of whatever the page held. */
  lemma MapOwned(spaces: Spaces, live: set<nat>, taken: set<nat>, r: nat, page: nat, f: nat)
    requires Isolated(spaces, live, taken) && r in spaces && f !in taken
    ensures Isolated(spaces[r := MapIn(spaces[r], page, f)], live, taken + {f})
  {
    var after := spaces[r := MapIn(spaces[r], page, f)];
    forall s, p | s in live && p in after[s]
      ensures after[s][p] in taken + {f} && (s == r && p == page <==> after[s][p] == f || (s == r && p == page))
    {
      if !(s == r && p == page) {
        assert after[s][p] == spaces[s][p];
      }
    }
    forall s, p, t, q | s in live && p in after[s] && t in live && q in after[t] && after[s][p] == after[t][q]
      ensures s == t && p == q
    {
      if s == r && p == page {
        assert after[t][q] == f;
        assert t == r && q == page;
      } else if t == r && q == page {
      } else {
        assert spaces[s][p] == spaces[t][q];
      }
    }
  }

  lemma UnmapOwned(spaces: Spaces, live: set<nat>, taken: set<nat>, r: nat, pages: set<nat>)
    requires Isolated(spaces, live, taken) && r in spaces
    ensures Isolated(spaces[r := spaces[r] - pages], live, taken)
  {
    var after := spaces[r := spaces[r] - pages];
    assert forall s, p :: s in live && p in after[s] ==> p in spaces[s] && after[s][p] == spaces[s][p];
  }

  lemma NewSpaceOwned(spaces: Spaces, live: set<nat>, taken: set<nat>, r: nat)
    requires Isolated(spaces, live, taken) && r !in live
    ensures Isolated(spaces[r := map[]], live + {r}, taken)
  {
    var after := spaces[r := map[]];
    assert forall s, p :: s in live + {r} && p in after[s] ==> s in live && after[s][p] == spaces[s][p];
  }

  lemma FewerLive(spaces: Spaces, live: set<nat>, taken: set<nat>, fewer: set<nat>)
    requires Isolated(spaces, live, taken) && fewer <= live
    ensures Isolated(spaces, fewer, taken)
  {
  }

  lemma MoreTaken(spaces: Spaces, live: set<nat>, taken: set<nat>, more: set<nat>)
    requires Isolated(spaces, live, taken) && taken <= more
    ensures Isolated(spaces, live, more)
  {
  }

  // ---------- Reclamation ----------

  predicate Touches(v: Vma, page: nat) {
    PageDown(v.start) <= page * PAGE_SIZE < v.end
  }

  predicate TouchedBy(regions: seq<Vma>, page: nat) {
    exists v :: v in regions && Touches(v, page)
  }

  /** The distinct frames mapped at the pages of the areas. */
  ghost function AreaFrames(space: map<nat, nat>, regions: seq<Vma>): set<nat> {
    set p | p in space && TouchedBy(regions, p) :: space[p]
  }

  /** Retiring one space and freeing only frames that it maps leaves the others isolated. */
  lemma RetireOwned(spaces: Spaces, live: set<nat>, taken: set<nat>, r: nat, freed: set<nat>)
    requires Isolated(spaces, live, taken) && r in live
    requires forall f :: f in freed ==> exists p :: p in spaces[r] && spaces[r][p] == f
    ensures Isolated(spaces, live - {r}, taken - freed)
    ensures freed <= taken
    ensures forall s, p :: s in live && s != r && p in spaces[s] ==> spaces[s][p] !in freed
  {
  }

  // ---------- Processes and their address spaces ----------

  predicate IsLive(s: Slot) {
    s.Some? && (s.value.state == Ready || s.value.state == Running || s.value.state == Blocked)
  }

  function RootOf(p: Process): nat {
    p.pml4 / PAGE_SIZE
  }

  predicate AreaOk(v: Vma) {
    PageAligned(v.start) && PageAligned(v.end) && v.start <= v.end <= USER_TOP
  }

  ghost function LiveRoots(t: Table): set<nat> {
    set i | 0 <= i < MAX_PROCESSES && IsLive(t[i]) :: RootOf(t[i].value)
  }

  /** A live process has its own address space, all of whose pages lie in its areas. */
  ghost predicate OwnsSpace(p: Process, spaces: Spaces) {
    && PageAligned(p.pml4) && RootOf(p) in spaces
    && (forall v :: v in p.vmas ==> AreaOk(v))
    && (forall page {:trigger page in spaces[RootOf(p)]} :: page in spaces[RootOf(p)] ==> TouchedBy(p.vmas, page))
  }

  ghost predicate RootsDistinct(t: Table) {
    forall i, j :: 0 <= i < j < MAX_PROCESSES && IsLive(t[i]) && IsLive(t[j]) ==> RootOf(t[i].value) != RootOf(t[j].value)
  }

  /** Frame isolation between all live processes. */
  ghost predicate ProcessesOwn(t: Table, spaces: Spaces, taken: set<nat>) {
    && (forall i {:trigger t[i]} :: 0 <= i < MAX_PROCESSES && IsLive(t[i]) ==> OwnsSpace(t[i].value, spaces))
    && RootsDistinct(t)
    && Isolated(spaces, LiveRoots(t), taken)
  }

  /** Frame isolation spelled out: a frame mapped at a page of a live process is in
      use, is no page table, and is mapped at no other page of any live process. */
  lemma FrameIsOwnedOnce(t: Table, spaces: Spaces, pool: set<nat>, free: set<nat>, tables: set<nat>, i: nat, j: nat, p: nat, q: nat)
    requires ProcessesOwn(t, spaces, pool - free - tables)
    requires i < MAX_PROCESSES && j < MAX_PROCESSES && IsLive(t[i]) && IsLive(t[j])
    requires RootOf(t[i].value) in spaces && p in spaces[RootOf(t[i].value)]
    requires RootOf(t[j].value) in spaces && q in spaces[RootOf(t[j].value)]
    ensures spaces[RootOf(t[i].value)][p] in pool && spaces[RootOf(t[i].value)][p] !in free
    ensures spaces[RootOf(t[i].value)][p] !in tables
    ensures spaces[RootOf(t[i].value)][p] == spaces[RootOf(t[j].value)][q] <==> i == j && p == q
  {
    assert RootOf(t[i].value) in LiveRoots(t) && RootOf(t[j].value) in LiveRoots(t);
    if i < j {
      assert RootOf(t[i].value) != RootOf(t[j].value);
    } else if j < i {
      assert RootOf(t[j].value) != RootOf(t[i].value);
    }
  }

  /** Slots that agree on who is live, and where its memory is. */
  predicate SameMemory(a: Slot, b: Slot) {
    && IsLive(a) == IsLive(b)
    && (IsLive(a) ==> a.value.pml4 == b.value.pml4 && a.value.vmas == b.value.vmas)
  }

  lemma SameMemoryRoots(t: Table, u: Table)
    requires forall i :: 0 <= i < MAX_PROCESSES ==> SameMemory(t[i], u[i])
    ensures LiveRoots(u) == LiveRoots(t)
  {
    forall r
      ensures r in LiveRoots(u) <==> r in LiveRoots(t)
    {
      if i :| 0 <= i < MAX_PROCESSES && IsLive(t[i]) && RootOf(t[i].value) == r {
        assert SameMemory(t[i], u[i]);
        assert IsLive(u[i]) && RootOf(u[i].value) == r;
      }
      if i :| 0 <= i < MAX_PROCESSES && IsLive(u[i]) && RootOf(u[i].value) == r {
        assert SameMemory(t[i], u[i]);
        assert IsLive(t[i]) && RootOf(t[i].value) == r;
      }
    }
  }

  /** Scheduling and messages do not concern memory. */
  lemma OwnSameMemory(t: Table, u: Table, spaces: Spaces, taken: set<nat>)
    requires ProcessesOwn(t, spaces, taken)
    requires forall i :: 0 <= i < MAX_PROCESSES ==> SameMemory(t[i], u[i])
    ensures ProcessesOwn(u, spaces, taken)
  {
    hide Isolated;
    SameMemoryRoots(t, u);
    forall i, j | 0 <= i < j < MAX_PROCESSES && IsLive(u[i]) && IsLive(u[j])
      ensures RootOf(u[i].value) != RootOf(u[j].value)
    {
      assert SameMemory(t[i], u[i]) && SameMemory(t[j], u[j]);
    }
    forall i | 0 <= i < MAX_PROCESSES && IsLive(u[i])
      ensures OwnsSpace(u[i].value, spaces)
    {
      assert SameMemory(t[i], u[i]);
      assert OwnsSpace(t[i].value, spaces);
    }
  }

  lemma UserAreaPage(regions: seq<Vma>, addr: nat)
    requires Covered(regions, addr) && forall v :: v in regions ==> AreaOk(v)
    ensures IsUser(addr) && TouchedBy(regions, addr / PAGE_SIZE)
  {
    hide And;
    var v :| v in regions && v.Contains(addr);
    PageRounding(v.start);
    assert Touches(v, addr / PAGE_SIZE);
  }

  /** Mapping an unowned frame at a page of an area of process `i`. */
  lemma OwnAfterMap(t: Table, spaces: Spaces, taken: set<nat>, i: nat, page: nat, f: nat)
    requires ProcessesOwn(t, spaces, taken) && f !in taken
    requires i < MAX_PROCESSES && IsLive(t[i]) && TouchedBy(t[i].value.vmas, page)
    ensures RootOf(t[i].value) in spaces
    ensures ProcessesOwn(t, spaces[RootOf(t[i].value) := MapIn(spaces[RootOf(t[i].value)], page, f)], taken + {f})
  {
    var r := RootOf(t[i].value);
    assert OwnsSpace(t[i].value, spaces);
    var after := spaces[r := MapIn(spaces[r], page, f)];
    MapOwned(spaces, LiveRoots(t), taken, r, page, f);
    forall j | 0 <= j < MAX_PROCESSES && IsLive(t[j])
      ensures OwnsSpace(t[j].value, after)
    {
      assert OwnsSpace(t[j].value, spaces);
      if j < i {
        assert RootOf(t[j].value) != r;
      } else if i < j {
        assert RootOf(t[j].value) != r;
      }
    }
  }

  /** Changing the areas of process `i` and unmapping pages, as long as every page
      still mapped lies in an area. */
  lemma OwnAfterAreas(t: Table, spaces: Spaces, taken: set<nat>, i: nat, pages: set<nat>, p: Process)
    requires ProcessesOwn(t, spaces, taken) && i < MAX_PROCESSES && IsLive(t[i]) && IsLive(Some(p))
    requires p.pml4 == t[i].value.pml4 && forall v :: v in p.vmas ==> AreaOk(v)
    requires RootOf(p) in spaces
    requires forall page :: page in spaces[RootOf(p)] && page !in pages ==> TouchedBy(p.vmas, page)
    ensures ProcessesOwn(Update(t, i, p), spaces[RootOf(p) := spaces[RootOf(p)] - pages], taken)
  {
    var u, r := Update(t, i, p), RootOf(p);
    var after := spaces[r := spaces[r] - pages];
    UnmapOwned(spaces, LiveRoots(t), taken, r, pages);
    SameLiveRoots(t, i, p);
    forall j | 0 <= j < MAX_PROCESSES && IsLive(u[j])
      ensures OwnsSpace(u[j].value, after)
    {
      assert OwnsSpace(t[j].value, spaces);
      if j < i {
        assert RootOf(t[j].value) != r;
      } else if i < j {
        assert RootOf(t[j].value) != r;
      }
    }
    assert RootsDistinct(u) by {
      assert forall j :: 0 <= j < MAX_PROCESSES ==> IsLive(u[j]) == IsLive(t[j]) && (IsLive(t[j]) ==> RootOf(u[j].value) == RootOf(t[j].value));
    }
  }

  lemma SameLiveRoots(t: Table, i: nat, p: Process)
    requires i < MAX_PROCESSES && IsLive(t[i]) && IsLive(Some(p)) && RootOf(p) == RootOf(t[i].value)
    ensures LiveRoots(Update(t, i, p)) == LiveRoots(t)
  {
    var u := Update(t, i, p);
    forall r
      ensures r in LiveRoots(u) <==> r in LiveRoots(t)
    {
      if j :| 0 <= j < MAX_PROCESSES && IsLive(t[j]) && RootOf(t[j].value) == r {
        assert IsLive(u[j]) && RootOf(u[j].value) == r;
      }
      if j :| 0 <= j < MAX_PROCESSES && IsLive(u[j]) && RootOf(u[j].value) == r {
        assert IsLive(t[j]) && RootOf(t[j].value) == r;
      }
    }
  }

  /** No page of the process is mapped to one of these frames. */
  ghost predicate UsesNone(p: Process, spaces: Spaces, frames: set<nat>) {
    RootOf(p) in spaces ==> forall page {:trigger spaces[RootOf(p)][page]} :: page in spaces[RootOf(p)] ==>
      spaces[RootOf(p)][page] !in frames
  }

  lemma RetiredRoots(t: Table, i: nat, u: Table)
    requires RootsDistinct(t) && i < MAX_PROCESSES && IsLive(t[i])
    requires !IsLive(u[i]) && forall j :: 0 <= j < MAX_PROCESSES && j != i ==> SameMemory(t[j], u[j])
    ensures LiveRoots(u) == LiveRoots(t) - {RootOf(t[i].value)}
  {
    var r := RootOf(t[i].value);
    forall s | s in LiveRoots(u)
      ensures s in LiveRoots(t) - {r}
    {
      var j :| 0 <= j < MAX_PROCESSES && IsLive(u[j]) && RootOf(u[j].value) == s;
      assert SameMemory(t[j], u[j]);
      assert j != i && IsLive(t[j]) && RootOf(t[j].value) == s;
      if j < i {
        assert RootOf(t[j].value) != r;
      } else {
        assert RootOf(t[i].value) != RootOf(t[j].value);
      }
    }
    forall s | s in LiveRoots(t) - {r}
      ensures s in LiveRoots(u)
    {
      var j :| 0 <= j < MAX_PROCESSES && IsLive(t[j]) && RootOf(t[j].value) == s;
      assert SameMemory(t[j], u[j]);
      assert IsLive(u[j]) && RootOf(u[j].value) == s;
    }
  }

  /** The end of process `i`: it is no longer live, and the frames freed were its own. */
  lemma OwnAfterExit(t: Table, spaces: Spaces, taken: set<nat>, i: nat, freed: set<nat>, u: Table)
    requires ProcessesOwn(t, spaces, taken) && i < MAX_PROCESSES && IsLive(t[i])
    requires RootOf(t[i].value) in spaces
    requires forall f :: f in freed ==> exists p :: p in spaces[RootOf(t[i].value)] && spaces[RootOf(t[i].value)][p] == f
    requires !IsLive(u[i]) && forall j :: 0 <= j < MAX_PROCESSES && j != i ==> SameMemory(t[j], u[j])
    ensures ProcessesOwn(u, spaces, taken - freed)
    ensures freed <= taken
    ensures forall j :: 0 <= j < MAX_PROCESSES && j != i && IsLive(u[j]) ==> UsesNone(u[j].value, spaces, freed)
  {
    hide Isolated;
    var r := RootOf(t[i].value);
    RetireOwned(spaces, LiveRoots(t), taken, r, freed);
    RetiredRoots(t, i, u);
    FewerLive(spaces, LiveRoots(t) - {r}, taken - freed, LiveRoots(u));
    forall j, k | 0 <= j < k < MAX_PROCESSES && IsLive(u[j]) && IsLive(u[k])
      ensures RootOf(u[j].value) != RootOf(u[k].value)
    {
      assert SameMemory(t[j], u[j]) && SameMemory(t[k], u[k]);
    }
    forall j | 0 <= j < MAX_PROCESSES && IsLive(u[j])
      ensures OwnsSpace(u[j].value, spaces)
    {
      assert SameMemory(t[j], u[j]);
      assert OwnsSpace(t[j].value, spaces);
    }
    assert forall j :: 0 <= j < MAX_PROCESSES && IsLive(u[j]) ==> RootOf(u[j].value) in LiveRoots(u);
  }

  lemma InstalledRoots(t: Table, i: nat, p: Process)
    requires i < MAX_PROCESSES && !IsLive(t[i]) && IsLive(Some(p))
    ensures LiveRoots(Update(t, i, p)) == LiveRoots(t) + {RootOf(p)}
  {
    var u := Update(t, i, p);
    forall r
      ensures r in LiveRoots(u) <==> r in LiveRoots(t) + {RootOf(p)}
    {
      if j :| 0 <= j < MAX_PROCESSES && IsLive(t[j]) && RootOf(t[j].value) == r {
        assert IsLive(u[j]) && RootOf(u[j].value) == r;
      }
      assert IsLive(u[i]);
    }
  }

  /** A loaded process moves into a slot that no live process uses. */
  lemma OwnAfterInstall(t: Table, spaces: Spaces, taken: set<nat>, i: nat, p: Process)
    requires ProcessesOwn(t, spaces, taken) && i < MAX_PROCESSES && !IsLive(t[i])
    requires RootOf(p) !in LiveRoots(t) && OwnsSpace(p, spaces) && Isolated(spaces, LiveRoots(t) + {RootOf(p)}, taken)
    requires IsLive(Some(p))
    ensures ProcessesOwn(Update(t, i, p), spaces, taken)
  {
    hide Isolated;
    var u := Update(t, i, p);
    InstalledRoots(t, i, p);
    forall j, k | 0 <= j < k < MAX_PROCESSES && IsLive(u[j]) && IsLive(u[k])
      ensures RootOf(u[j].value) != RootOf(u[k].value)
    {
      assert j != i ==> RootOf(u[j].value) in LiveRoots(t);
      assert k != i ==> RootOf(u[k].value) in LiveRoots(t);
    }
    assert forall j :: 0 <= j < MAX_PROCESSES && j != i ==> u[j] == t[j];
  }
}
