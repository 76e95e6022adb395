/** What the processor makes of the page tables (Intel SDM Volume 3A, section 4.5,
    tables 4-15 to 4-20, with 52 physical address bits): the reference that the walk
    of the kernel is compared with. */
module Hardware {
  import opened Bits
  import opened Bytes
  import opened Frames
  import opened PageTree
  import opened Translation
  import opened Mapping

  /** The bits of a page base below the page size, but above bit 11. In a huge entry
      bit 12 is the PAT bit, and the others are reserved. */
  function LowBase(e: nat, level: nat): nat {
    Addr(e) % PageBytes(level)
  }

  const PAT: nat := 0x1000

  /** The entry makes every access fault: bit 7 of a PML4 entry, or a reserved bit of
      the base of a huge page. */
  predicate IsReserved(e: nat, level: nat) {
    if level == 0 then IsHuge(e) else EndsWalk(e, level) && LowBase(e, level) != 0 && LowBase(e, level) != PAT
  }

  /** The page base: bits 51:12, 51:21 or 51:30 of the entry. */
  function HardwareBase(e: nat, level: nat): nat {
    Addr(e) - LowBase(e, level)
  }

  /** The walk of the processor from the table `t` of a level. */
  function HardwareWalk(m: seq<byte>, t: nat, va: nat, level: nat): Option<nat>
    requires level < 4
    decreases 4 - level
  {
    var e := Word(m, t, Index(va, level));
    if !Present(e) || IsReserved(e, level) then None
    else if EndsWalk(e, level) then Some(HardwareBase(e, level) + va % PageBytes(level))
    else HardwareWalk(m, FrameOf(e), va, level + 1)
  }

  function HardwareTranslate(m: seq<byte>, root: nat, va: nat): Option<nat> {
    HardwareWalk(m, root, va, 0)
  }

  /** The entry at which the walk ends has no base bit below its page size, and the
      PML4 entry does not have bit 7. */
  predicate ReadsAlike(m: seq<byte>, root: nat, va: nat) {
    match Lookup(m, root, va)
    case None => true
    case Some(x) => LowBase(x.entry, x.level) == 0 && !IsHuge(Word(m, root, Index(va, 0)))
  }

  lemma BaseOfPage(e: nat)
    ensures LowBase(e, 3) == 0
  {
    hide And;
    AddrField(e);
  }

  /** Below the root the processor ends at the same entry, and takes its base from it
      unless a reserved bit is set. */
  lemma {:induction false} WalksMeet(m: seq<byte>, t: nat, va: nat, level: nat)
    requires 0 < level < 4
    ensures HardwareWalk(m, t, va, level) ==
      match Reach(m, t, va, level)
      case None => None
      case Some(x) => if IsReserved(x.entry, x.level) then None else Some(HardwareAddr(x, va))
    ensures Reach(m, t, va, level).Some? ==> Reach(m, t, va, level).value.level > 0
    decreases 4 - level
  {
    hide And, Index, Word, Addr;
    var e := Word(m, t, Index(va, level));
    if level < 3 && Present(e) && !EndsWalk(e, level) {
      WalksMeet(m, FrameOf(e), va, level + 1);
    }
  }

  /** The physical address that the processor reads out of an entry. */
  function HardwareAddr(x: End, va: nat): nat {
    HardwareBase(x.entry, x.level) + va % PageBytes(x.level)
  }

  lemma BasesAgree(x: End, va: nat)
    requires x.level > 0
    ensures !IsReserved(x.entry, x.level) && HardwareAddr(x, va) == EndAddr(x, va) <==> LowBase(x.entry, x.level) == 0
  {
    hide And, Addr;
  }

  /** The lookup of the kernel gives what the processor would, if and only if the entry
      at which it ends has no base bit below its page size, and the PML4 entry does not
      have the reserved bit 7. */
  lemma LookupIsHardwareIff(m: seq<byte>, root: nat, va: nat)
    ensures Translate(m, root, va) == HardwareTranslate(m, root, va) <==> ReadsAlike(m, root, va)
  {
    hide And, Index, Word, LowBase, EndAddr, HardwareAddr, IsHuge, Addr;
    var e := Word(m, root, Index(va, 0));
    if Present(e) {
      WalksMeet(m, FrameOf(e), va, 1);
      if Lookup(m, root, va).Some? {
        BasesAgree(Lookup(m, root, va).value, va);
      }
    }
  }

  /** In the user half the two always agree. */
  lemma UserLookupIsHardware(m: seq<byte>, lab: Labels, root: nat, va: nat)
    requires TreeOk(m, lab) && IsRoot(lab, root) && IsUser(va)
    ensures Translate(m, root, va) == HardwareTranslate(m, root, va)
  {
    hide And, Index, TreeOk, Lookup, Translate, HardwareTranslate;
    LookupIsHardwareIff(m, root, va);
    LookupByPage(m, lab, root, va);
    if Lookup(m, root, va).Some? {
      BaseOfPage(Lookup(m, root, va).value.entry);
      RootEntryIsSmall(m, lab, root, va);
    }
  }

  lemma RootEntryIsSmall(m: seq<byte>, lab: Labels, root: nat, va: nat)
    requires TreeOk(m, lab) && IsRoot(lab, root) && IsUser(va) && Lookup(m, root, va).Some?
    ensures !IsHuge(Word(m, root, Index(va, 0)))
  {
    hide And, Index, Word;
    IndexRange(va);
    assert Linked(m, lab, root, Index(va, 0));
  }

  /** A present 2 MiB entry with the PAT bit, for a write-combining page: the lookup
      lands one page too high. */
  const PAT_ENTRY: nat := 0x20_0000 + PAT + HUGE + PRESENT

  lemma PatEntryDiffers(m: seq<byte>, root: nat, va: nat)
    requires Lookup(m, root, va) == Some(End(PAT_ENTRY, 2)) && !IsHuge(Word(m, root, Index(va, 0)))
    ensures Translate(m, root, va) == Some(0x20_1000 + va % 0x20_0000)
    ensures HardwareTranslate(m, root, va) == Some(0x20_0000 + va % 0x20_0000)
  {
    hide And, Index, Word, Reach, HardwareWalk;
    AddrField(PAT_ENTRY);
    HugeBit(PAT_ENTRY);
    LookupFromRoot(m, root, va);
    WalksMeet(m, FrameOf(Word(m, root, Index(va, 0))), va, 1);
  }

  lemma LookupFromRoot(m: seq<byte>, root: nat, va: nat)
    requires Lookup(m, root, va).Some? && !IsHuge(Word(m, root, Index(va, 0)))
    ensures var t := FrameOf(Word(m, root, Index(va, 0)));
      Lookup(m, root, va) == Reach(m, t, va, 1) && HardwareTranslate(m, root, va) == HardwareWalk(m, t, va, 1)
  {
    hide And, Index, Word;
  }

  // ---------- Access rights ----------

  /** What an entry allows: `write` and `user` are its bits 1 and 2, and bit 63 takes
      `execute` away. */
  datatype Access = Access(write: bool, user: bool, execute: bool)

  function EntryAccess(e: nat): Access {
    Access(IsWritable(e), IsForUser(e), IsExecutable(e))
  }

  /** The rights of an address: those that every entry on the walk grants. */
  function HardwareAccess(m: seq<byte>, t: nat, va: nat, level: nat): Option<Access>
    requires level < 4
    decreases 4 - level
  {
    var e := Word(m, t, Index(va, level));
    if !Present(e) || IsReserved(e, level) then None
    else if EndsWalk(e, level) then Some(EntryAccess(e))
    else
      match HardwareAccess(m, FrameOf(e), va, level + 1)
      case None => None
      case Some(a) => Some(Access(IsWritable(e) && a.write, IsForUser(e) && a.user, IsExecutable(e) && a.execute))
  }

  lemma {:induction false} AccessFromTable(m: seq<byte>, lab: Labels, root: nat, t: nat, va: nat, level: nat)
    requires TreeOk(m, lab) && IsUser(va) && level < 4 && t in lab && lab[t] == PosAt(root, va, level)
    ensures HardwareAccess(m, t, va, level) ==
      match Reach(m, t, va, level)
      case None => None
      case Some(x) => Some(EntryAccess(x.entry))
    decreases 4 - level
  {
    hide And, Index, Word, IsWritable, IsForUser, IsExecutable, Addr, LowBase;
    IndexRange(va);
    var e := Word(m, t, Index(va, level));
    if level == 3 {
      BaseOfPage(e);
    } else if Present(e) {
      assert Linked(m, lab, t, Index(va, level));
      AccessFromTable(m, lab, root, FrameOf(e), va, level + 1);
    }
  }

  /** The rights of a user address are those of its page-table entry: the tables above
      restrict nothing. */
  lemma AccessByPage(m: seq<byte>, lab: Labels, root: nat, va: nat)
    requires TreeOk(m, lab) && IsRoot(lab, root) && IsUser(va)
    ensures var p := va / PAGE_SIZE;
      HardwareAccess(m, root, va, 0) ==
        if p in Entries(m, root) then Some(EntryAccess(Entries(m, root)[p])) else None
  {
    hide And, Index, Word, TreeOk, Entries, HardwareAccess, EntryAccess;
    LookupByPage(m, lab, root, va);
    TreeRoot(m, lab, root);
    AccessFromTable(m, lab, root, root, va, 0);
  }

  /** A page that was mapped with `flags` grants exactly the accesses of these flags. */
  lemma MappedAccess(m: seq<byte>, lab: Labels, root: nat, va: nat, phys: nat, flags: nat)
    requires TreeOk(m, lab) && IsRoot(lab, root) && IsUser(va)
    requires PageAligned(phys) && phys < MAX_PHYS && ValidFlags(flags)
    requires va / PAGE_SIZE in Entries(m, root) && Entries(m, root)[va / PAGE_SIZE] == LeafEntry(phys, flags)
    ensures HardwareAccess(m, root, va, 0) == Some(EntryAccess(flags))
  {
    hide And, Or, TreeOk, Entries, HardwareAccess, IsWritable, IsForUser, IsExecutable, LeafEntry;
    AccessByPage(m, lab, root, va);
    LeafEntryFields(phys, flags);
  }
}
