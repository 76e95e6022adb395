/** Trees of page tables in flat memory: the walk, the ownership labels that keep
    trees from sharing tables, and the effect of the two writes that `map` makes. */
module Translation {
  import opened Bits
  import opened Bytes
  import opened Frames
  import opened PageTree

  /** Entry `i` of the table in frame `f`. */
  function Word(m: seq<byte>, f: nat, i: nat): nat {
    var at := f * PAGE_SIZE + i * 8;
    if at + 8 <= |m| then Le(m[at..at + 8]) else 0
  }

  /** The bytes that an entry of a level maps. */
  function PageBytes(level: nat): (size: nat)
    ensures size > 0
  {
    if level == 1 then 0x4000_0000 else if level == 2 then 0x20_0000 else PAGE_SIZE
  }

  /** The entry at which a walk ends, and its level. */
  datatype End = End(entry: nat, level: nat)

  predicate EndsWalk(e: nat, level: nat) {
    level == 3 || ((level == 1 || level == 2) && IsHuge(e))
  }

  /** The walk from the table `t` of the given level downwards, as the code makes it. */
  function Reach(m: seq<byte>, t: nat, va: nat, level: nat): Option<End>
    requires level < 4
    decreases 4 - level
  {
    var e := Word(m, t, Index(va, level));
    if !Present(e) then None
    else if EndsWalk(e, level) then Some(End(e, level))
    else Reach(m, FrameOf(e), va, level + 1)
  }

  /** The entry that the walk of an address finds. */
  function Lookup(m: seq<byte>, root: nat, va: nat): Option<End> {
    Reach(m, root, va, 0)
  }

  /** The physical address that the code reads out of an entry. */
  function EndAddr(x: End, va: nat): nat {
    Addr(x.entry) + va % PageBytes(x.level)
  }

  /** Address translation as the code makes it. */
  function Translate(m: seq<byte>, root: nat, va: nat): Option<nat> {
    match Lookup(m, root, va)
    case None => None
    case Some(x) => Some(EndAddr(x, va))
  }

  /** The place of a user-half table in the tree of one address space. */
  datatype Pos =
    | Pml4(root: nat)
    | Pdpt(root: nat, a: nat)
    | Pd(root: nat, a: nat, b: nat)
    | Pt(root: nat, a: nat, b: nat, c: nat)
    | Leaf(root: nat, a: nat, b: nat, c: nat, d: nat)
  {
    function Level(): nat {
      if Pml4? then 0 else if Pdpt? then 1 else if Pd? then 2 else if Pt? then 3 else 4
    }

    function Child(i: nat): Pos
      requires Level() < 4
    {
      match this
      case Pml4(r) => Pdpt(r, i)
      case Pdpt(r, a) => Pd(r, a, i)
      case Pd(r, a, b) => Pt(r, a, b, i)
      case Pt(r, a, b, c) => Leaf(r, a, b, c, i)
    }
  }

  type Labels = map<nat, Pos>

  /** The place that the walk of `va` from `root` visits at a level. */
  function PosAt(root: nat, va: nat, level: nat): (p: Pos)
    requires level <= 4
    ensures p.Level() == level && p.root == root
    ensures level < 4 ==> p.Child(Index(va, level)) == PosAt(root, va, level + 1)
    decreases 4 - level
  {
    var a, b, c, d := Index(va, 0), Index(va, 1), Index(va, 2), Index(va, 3);
    if level == 0 then Pml4(root)
    else if level == 1 then Pdpt(root, a)
    else if level == 2 then Pd(root, a, b)
    else if level == 3 then Pt(root, a, b, c)
    else Leaf(root, a, b, c, d)
  }

  predicate InMemory(m: seq<byte>, f: nat) {
    (f + 1) * PAGE_SIZE <= |m|
  }

  /** A present entry of a user-half table leads to the table labelled as its child,
      and restricts no access. */
  ghost predicate Linked(m: seq<byte>, lab: Labels, f: nat, i: nat)
    requires f in lab && lab[f].Level() < 3
  {
    var e := Word(m, f, i);
    Present(e) ==> !IsHuge(e) && IsOpen(e) && FrameOf(e) in lab && lab[FrameOf(e)] == lab[f].Child(i)
  }

  predicate UserSlot(p: Pos, i: nat) {
    i < 512 && (p.Pml4? ==> i < KERNEL_SLOT)
  }

  ghost predicate TreeOk(m: seq<byte>, lab: Labels) {
    && (forall f {:trigger lab[f]} :: f in lab ==>
        InMemory(m, f) && lab[f].Level() < 4 && (lab[f].Pml4? ==> lab[f].root == f))
    && (forall f, i {:trigger Word(m, f, i)} ::
        f in lab && UserSlot(lab[f], i) && lab[f].Level() < 3 ==> Linked(m, lab, f, i))
  }

  /** A present entry of a kernel-half table leads to a kernel table of the next level. */
  ghost predicate KernelLinked(m: seq<byte>, kernel: set<(nat, nat)>, level: nat, f: nat, i: nat) {
    var e := Word(m, f, i);
    Present(e) && !(level > 0 && IsHuge(e)) ==> (level + 1, FrameOf(e)) in kernel
  }

  /** The kernel half: tables paired with their level, closed under the walk,
      apart from every user-half table, and hung below every PML4. */
  ghost predicate KernelOk(m: seq<byte>, lab: Labels, kernel: set<(nat, nat)>) {
    && (forall k :: k in kernel ==> k.1 !in lab && InMemory(m, k.1))
    && (forall l: nat, f: nat, i: nat
          {:trigger Word(m, f, i), (l, f) in kernel} {:trigger KernelLinked(m, kernel, l, f, i)} ::
        (l, f) in kernel && l < 3 && i < 512 && (l == 0 ==> i >= KERNEL_SLOT) ==> KernelLinked(m, kernel, l, f, i))
    && (forall f, i {:trigger Word(m, f, i)} {:trigger KernelLinked(m, kernel, 0, f, i)} ::
        f in lab && lab[f].Pml4? && KERNEL_SLOT <= i < 512 ==> KernelLinked(m, kernel, 0, f, i))
  }

  /** The tables of `m` read the same in `n`, except perhaps entry `i` of `t`. */
  ghost predicate SameTables(m: seq<byte>, n: seq<byte>, frames: set<nat>, t: nat, i: nat) {
    && |n| == |m|
    && forall f, j {:trigger Word(n, f, j)} ::
      f in frames && j < 512 && !(f == t && j == i) ==> Word(n, f, j) == Word(m, f, j)
  }

  lemma IndexRange(va: nat)
    ensures forall l: nat {:trigger Index(va, l)} :: l < 4 ==> Index(va, l) < 512
    ensures IsUser(va) ==> Index(va, 0) < KERNEL_SLOT
    ensures Low(va) >= USER_TOP ==> Index(va, 0) >= KERNEL_SLOT
  {
    hide And;
    IndexValue(va);
    if IsUser(va) {
      PageFromSlots(va);
    }
    LowDigit(va, 0x80_0000_0000, 1);
  }

  /** The walk depends on the low 48 bits of an address only. */
  lemma {:induction false} WalkOfLow(m: seq<byte>, t: nat, va: nat, level: nat)
    requires level < 4
    ensures Reach(m, t, Low(va), level) == Reach(m, t, va, level)
    decreases 4 - level
  {
    hide And, Index, Word, Low;
    LowIndex(va);
    if level < 3 {
      WalkOfLow(m, FrameOf(Word(m, t, Index(va, level))), va, level + 1);
    }
  }

  /** A walk that never reads the changed entry is unchanged. */
  lemma {:induction false} WalkMisses(m: seq<byte>, n: seq<byte>, lab: Labels, t: nat, i: nat,
      root: nat, f: nat, va: nat, level: nat)
    requires TreeOk(m, lab) && SameTables(m, n, lab.Keys, t, i)
    requires IsUser(va) && level < 4 && f in lab && lab[f] == PosAt(root, va, level)
    requires t in lab ==> lab[t].Child(i) != PosAt(root, va, lab[t].Level() + 1)
    ensures Reach(n, f, va, level) == Reach(m, f, va, level)
    decreases 4 - level
  {
    hide And;
    IndexRange(va);
    var j := Index(va, level);
    assert !(f == t && j == i);
    assert Word(n, f, j) == Word(m, f, j);
    if level < 3 && Present(Word(m, f, j)) {
      assert Linked(m, lab, f, j);
      WalkMisses(m, n, lab, t, i, root, FrameOf(Word(m, f, j)), va, level + 1);
    }
  }

  /** Hanging a zeroed table below an absent entry changes no translation. */
  lemma {:induction false} WalkThroughLink(m: seq<byte>, n: seq<byte>, lab: Labels, t: nat, i: nat,
      root: nat, f: nat, va: nat, level: nat)
    requires TreeOk(m, lab) && SameTables(m, n, lab.Keys, t, i)
    requires t in lab && lab[t].Level() < 3 && !Present(Word(m, t, i))
    requires Present(Word(n, t, i)) && !IsHuge(Word(n, t, i))
    requires forall j :: 0 <= j < 512 ==> !Present(Word(n, FrameOf(Word(n, t, i)), j))
    requires IsUser(va) && level < 4 && f in lab && lab[f] == PosAt(root, va, level)
    ensures Reach(n, f, va, level) == Reach(m, f, va, level)
    decreases 4 - level
  {
    hide And;
    IndexRange(va);
    var j := Index(va, level);
    if f == t && j == i {
      var g := FrameOf(Word(n, t, i));
      assert !Present(Word(n, g, Index(va, level + 1)));
      assert Reach(n, g, va, level + 1) == None;
    } else {
      assert Word(n, f, j) == Word(m, f, j);
      if level < 3 && Present(Word(m, f, j)) {
        assert Linked(m, lab, f, j);
        WalkThroughLink(m, n, lab, t, i, root, FrameOf(Word(m, f, j)), va, level + 1);
      }
    }
  }

  /** Kernel-half walks read kernel tables only. */
  lemma {:induction false} KernelWalkSame(m: seq<byte>, n: seq<byte>, lab: Labels, kernel: set<(nat, nat)>,
      f: nat, va: nat, level: nat)
    requires KernelOk(m, lab, kernel)
    requires forall k: (nat, nat), j {:trigger Word(n, k.1, j)} :: k in kernel && j < 512 ==> Word(n, k.1, j) == Word(m, k.1, j)
    requires 0 < level < 4 && (level, f) in kernel
    ensures Reach(n, f, va, level) == Reach(m, f, va, level)
    decreases 4 - level
  {
    hide And;
    IndexRange(va);
    var j := Index(va, level);
    assert Word(n, (level, f).1, j) == Word(m, f, j);
    if level < 3 && Present(Word(m, f, j)) && !IsHuge(Word(m, f, j)) {
      assert KernelLinked(m, kernel, level, f, j);
      KernelWalkSame(m, n, lab, kernel, FrameOf(Word(m, f, j)), va, level + 1);
    }
  }

  // ---------- The path to a page ----------

  /** The table that the walk of a user address reaches at a level. */
  function TableAt(m: seq<byte>, root: nat, va: nat, level: nat): Option<nat>
    requires level < 4
  {
    if level == 0 then Some(root) else
    match TableAt(m, root, va, level - 1)
    case None => None
    case Some(t) =>
      var e := Word(m, t, Index(va, level - 1));
      if Present(e) then Some(FrameOf(e)) else None
  }

  /** The path exists in a well-formed tree as far as it is present, and the walk
      from the root continues from where the path has got to. */
  lemma {:induction false} PathLabels(m: seq<byte>, lab: Labels, root: nat, va: nat, level: nat)
    requires TreeOk(m, lab) && root in lab && lab[root].Pml4? && IsUser(va) && level < 4
    ensures var t := TableAt(m, root, va, level);
      if t.Some? then
        t.value in lab && lab[t.value] == PosAt(root, va, level)
        && Lookup(m, root, va) == Reach(m, t.value, va, level)
      else Lookup(m, root, va) == None
  {
    hide And;
    if level > 0 {
      PathLabels(m, lab, root, va, level - 1);
      IndexRange(va);
      var t := TableAt(m, root, va, level - 1);
      if t.Some? {
        assert Linked(m, lab, t.value, Index(va, level - 1));
      }
    }
  }

  /** A write below a level does not move the path above it. */
  lemma {:induction false} PathStable(m: seq<byte>, n: seq<byte>, lab: Labels, t: nat, i: nat,
      root: nat, va: nat, level: nat)
    requires TreeOk(m, lab) && SameTables(m, n, lab.Keys, t, i)
    requires root in lab && lab[root].Pml4? && IsUser(va) && level < 4
    requires t in lab ==> lab[t].Level() >= level
    ensures TableAt(n, root, va, level) == TableAt(m, root, va, level)
  {
    hide And, Index, TreeOk, Word, Reach, PosAt, Present, FrameOf;
    if level > 0 {
      PathStable(m, n, lab, t, i, root, va, level - 1);
      PathLabels(m, lab, root, va, level - 1);
      IndexRange(va);
      var f := TableAt(m, root, va, level - 1);
      if f.Some? {
        assert f.value in lab && lab[f.value].Level() == level - 1;
        assert Word(n, f.value, Index(va, level - 1)) == Word(m, f.value, Index(va, level - 1));
      }
    }
  }

  lemma {:induction false} PathSharedBySlots(m: seq<byte>, root: nat, va: nat, vb: nat, level: nat)
    requires level < 4 && forall l: nat :: l < level ==> Index(va, l) == Index(vb, l)
    ensures TableAt(m, root, va, level) == TableAt(m, root, vb, level)
  {
    hide Index, Word, And;
    if level > 0 {
      PathSharedBySlots(m, root, va, vb, level - 1);
    }
  }
}
