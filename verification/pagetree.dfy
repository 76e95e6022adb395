/** Four-level page tables (Intel SDM Volume 3A, section 4.5) held as words in a
    flat byte memory, and the reasons why a tree of them refines a plain map
    from pages to frames. */
module PageTree {
  import opened Bits
  import opened Bytes
  import opened Frames

  const PRESENT: nat := 1
  const WRITABLE: nat := 2
  const USER: nat := 4
  const HUGE: nat := 0x80
  const NO_EXECUTE: nat := 0x8000_0000_0000_0000
  const ADDR_MASK: nat := 0x000F_FFFF_FFFF_F000
  const U64: nat := 0x1_0000_0000_0000_0000
  const MAX_PHYS: nat := 0x10_0000_0000_0000

  // The lower (user) canonical half: 2^35 pages, PML4 slots 0..255.
  const USER_TOP: nat := 0x8000_0000_0000
  const USER_PAGES: nat := 0x8_0000_0000
  const KERNEL_SLOT: nat := 256

  // ---------- Entries ----------

  predicate Present(e: nat) {
    And(e, PRESENT) != 0
  }

  predicate IsHuge(e: nat) {
    And(e, HUGE) != 0
  }

  predicate IsWritable(e: nat) {
    And(e, WRITABLE) != 0
  }

  predicate IsForUser(e: nat) {
    And(e, USER) != 0
  }

  predicate IsExecutable(e: nat) {
    And(e, NO_EXECUTE) == 0
  }

  /** The entry restricts neither writing, nor user access, nor execution. */
  predicate IsOpen(e: nat) {
    IsWritable(e) && IsForUser(e) && IsExecutable(e)
  }

  /** The physical address held in an entry. */
  function Addr(e: nat): nat {
    And(e, ADDR_MASK)
  }

  function FrameOf(e: nat): nat {
    Addr(e) / PAGE_SIZE
  }

  function TableEntry(table: nat): nat {
    Or(Or(Or(table, PRESENT), WRITABLE), USER)
  }

  function LeafEntry(phys: nat, flags: nat): nat {
    Or(Or(phys, flags), PRESENT)
  }

  predicate PageAligned(a: nat) {
    a % PAGE_SIZE == 0
  }

  /** Flags that stay clear of the address bits. */
  predicate ValidFlags(flags: nat) {
    flags < U64 && And(flags, ADDR_MASK) == 0
  }

  lemma MaskValues()
    ensures Pow2(1) == 2 && Pow2(3) == 8 && Pow2(7) == 128 && Pow2(12) == 4096
    ensures Pow2(40) == 0x100_0000_0000 && Pow2(52) == MAX_PHYS && Pow2(64) == U64
  {
    assert Pow2(8) == 256;
    assert Pow2(16) == 65536;
    assert Pow2(24) == 0x100_0000;
    assert Pow2(32) == 0x1_0000_0000;
  }

  lemma PresentBit(e: nat)
    ensures Present(e) <==> e % 2 == 1
  {
    MaskValues();
    AndLow(e, 1);
  }

  lemma HugeBit(e: nat)
    ensures IsHuge(e) <==> e / 128 % 2 == 1
  {
    MaskValues();
    AndField(e, 7, 1);
  }

  lemma RightsBits(e: nat)
    ensures IsWritable(e) <==> e / 2 % 2 == 1
    ensures IsForUser(e) <==> e / 4 % 2 == 1
    ensures e < NO_EXECUTE ==> IsExecutable(e)
  {
    hide And;
    MaskValues();
    assert Pow2(2) == 4;
    hide Pow2;
    AndField(e, 1, 1);
    AndField(e, 2, 1);
    HighBit(e);
  }

  lemma HighBit(e: nat)
    ensures e < NO_EXECUTE ==> IsExecutable(e)
  {
    assert Pow2(63) == NO_EXECUTE by { MaskValues(); }
    hide And, Pow2;
    assert Pow2(1) == 2 by { MaskValues(); }
    AndField(e, 63, 1);
  }

  lemma AddrField(e: nat)
    ensures Addr(e) == e / 4096 % 0x100_0000_0000 * 4096
    ensures FrameOf(e) == e / 4096 % 0x100_0000_0000
    ensures e == 0 ==> !Present(e)
  {
    MaskValues();
    AndField(e, 12, 40);
  }

  lemma {:induction false} OrBound(a: nat, b: nat, k: nat)
    requires a < Pow2(k) && b < Pow2(k)
    ensures Or(a, b) < Pow2(k)
    decreases k
  {
    if k > 0 {
      OrBound(a / 2, b / 2, k - 1);
      OrHalves(a, b);
    }
  }

  /** A fresh table is linked as a present, non-huge entry that leads to it and
      restricts no access. */
  lemma TableEntryFields(table: nat)
    requires PageAligned(table) && table < MAX_PHYS
    ensures Present(TableEntry(table)) && !IsHuge(TableEntry(table)) && IsOpen(TableEntry(table))
    ensures FrameOf(TableEntry(table)) == table / PAGE_SIZE && TableEntry(table) < U64
  {
    hide And, Or, TableEntry, IsOpen;
    var f := table / 4096;
    TableEntryValue(f);
    PresentBit(f * 4096 + 7);
    HugeBit(f * 4096 + 7);
    LowBitsOpen(f);
    AddrField(f * 4096 + 7);
  }

  lemma LowBitsOpen(f: nat)
    requires f * 4096 < MAX_PHYS
    ensures IsOpen(f * 4096 + 7)
  {
    hide And;
    var e := f * 4096 + 7;
    RightsBits(e);
    DivUnique(e, 2, f * 2048 + 3, 1);
    DivUnique(f * 2048 + 3, 2, f * 1024 + 1, 1);
    DivUnique(e, 4, f * 1024 + 1, 3);
    DivUnique(f * 1024 + 1, 2, f * 512, 1);
  }

  lemma TableEntryValue(f: nat)
    ensures TableEntry(f * 4096) == f * 4096 + 7
  {
    hide Or;
    OrLowBits(f);
  }

  lemma OrLowBits(f: nat)
    ensures Or(f * 4096, PRESENT) == f * 4096 + 1
    ensures Or(f * 4096 + 1, WRITABLE) == f * 4096 + 3
    ensures Or(f * 4096 + 3, USER) == f * 4096 + 7
  {
    hide Or;
    OrOne(f * 2048);
    OrTwo(f * 1024);
    OrFour(f * 512);
  }

  lemma OrOne(g: nat)
    ensures Or(2 * g, 1) == 2 * g + 1
  {
    hide Or;
    OrHalves(2 * g, 1);
    OrZero(g);
  }

  lemma OrTwo(g: nat)
    ensures Or(4 * g + 1, 2) == 4 * g + 3
  {
    hide Or;
    OrHalves(4 * g + 1, 2);
    assert (4 * g + 1) / 2 == 2 * g && (4 * g + 1) % 2 == 1;
    OrOne(g);
  }

  lemma OrFour(g: nat)
    ensures Or(8 * g + 3, 4) == 8 * g + 7
  {
    hide Or;
    OrHalves(8 * g + 3, 4);
    assert (8 * g + 3) / 2 == 4 * g + 1 && (8 * g + 3) % 2 == 1;
    OrTwo(g);
  }

  /** A leaf entry leads to the frame it was given, whatever its flags, and grants the
      accesses that its flags grant. */
  lemma LeafEntryFields(phys: nat, flags: nat)
    requires PageAligned(phys) && phys < MAX_PHYS && ValidFlags(flags)
    ensures Present(LeafEntry(phys, flags)) && LeafEntry(phys, flags) < U64
    ensures FrameOf(LeafEntry(phys, flags)) == phys / PAGE_SIZE
    ensures IsWritable(LeafEntry(phys, flags)) <==> IsWritable(flags)
    ensures IsForUser(LeafEntry(phys, flags)) <==> IsForUser(flags)
    ensures IsExecutable(LeafEntry(phys, flags)) <==> IsExecutable(flags)
  {
    hide And, Or;
    LeafEntryRights(phys, flags);
    var e := LeafEntry(phys, flags);
    MaskValues();
    OrBound(phys, flags, 64);
    OrBound(Or(phys, flags), PRESENT, 64);
    AndOrDistributes(Or(phys, flags), PRESENT, PRESENT);
    assert And(PRESENT, PRESENT) == 1 by { AndLow(1, 1); }
    AndOrDistributes(Or(phys, flags), PRESENT, ADDR_MASK);
    AndOrDistributes(phys, flags, ADDR_MASK);
    AddrField(PRESENT);
    AddrField(phys);
    OrZero(And(phys, ADDR_MASK));
  }

  lemma LeafEntryRights(phys: nat, flags: nat)
    requires PageAligned(phys) && phys < MAX_PHYS
    ensures IsWritable(LeafEntry(phys, flags)) <==> IsWritable(flags)
    ensures IsForUser(LeafEntry(phys, flags)) <==> IsForUser(flags)
    ensures IsExecutable(LeafEntry(phys, flags)) <==> IsExecutable(flags)
  {
    hide And, Or;
    RightsBits(phys);
    RightsBits(PRESENT);
    assert phys / 2 % 2 == 0 && phys / 4 % 2 == 0;
    EntryBit(phys, flags, WRITABLE);
    EntryBit(phys, flags, USER);
    EntryBit(phys, flags, NO_EXECUTE);
  }

  lemma EntryBit(phys: nat, flags: nat, bit: nat)
    requires And(phys, bit) == 0 && And(PRESENT, bit) == 0
    ensures And(LeafEntry(phys, flags), bit) == And(flags, bit)
  {
    hide And, Or;
    AndOrDistributes(Or(phys, flags), PRESENT, bit);
    AndOrDistributes(phys, flags, bit);
    OrZero(And(flags, bit));
  }

  // ---------- Addresses ----------

  /** The table index that a virtual address selects at a level (0 is the PML4). */
  function Index(va: nat, level: nat): nat
    requires level < 4
  {
    if level == 0 then And(va / 0x80_0000_0000, 0x1FF)
    else if level == 1 then And(va / 0x4000_0000, 0x1FF)
    else if level == 2 then And(va / 0x20_0000, 0x1FF)
    else And(va / 0x1000, 0x1FF)
  }

  lemma IndexValue(va: nat)
    ensures Index(va, 0) == va / 0x80_0000_0000 % 512
    ensures Index(va, 1) == va / 0x4000_0000 % 512
    ensures Index(va, 2) == va / 0x20_0000 % 512
    ensures Index(va, 3) == va / 0x1000 % 512
  {
    assert Pow2(9) == 512;
    AndLow(va / 0x80_0000_0000, 9);
    AndLow(va / 0x4000_0000, 9);
    AndLow(va / 0x20_0000, 9);
    AndLow(va / 0x1000, 9);
  }

  predicate IsUser(va: nat) {
    va < USER_TOP
  }

  /** An address of the kernel half: bit 47 is set, as in the sign-extended addresses
      from 0xFFFF_8000_0000_0000 up. */
  predicate IsKernel(va: nat) {
    va < U64 && Low(va) >= USER_TOP
  }

  /** The 48 bits of an address that select its page-table entries. */
  function Low(va: nat): nat {
    va % 0x1_0000_0000_0000
  }

  lemma LowDigit(va: nat, d: nat, c: nat)
    requires d > 0 && c * 512 * d == 0x1_0000_0000_0000
    ensures Low(va) / d % 512 == va / d % 512 && Low(va) % d == va % d
  {
    var q, low := va / 0x1_0000_0000_0000, Low(va);
    var x := low / d;
    calc {
      va;
      q * (c * 512 * d) + (x * d + low % d);
      { MulThree(q, c, d); }
      (q * (c * 512)) * d + x * d + low % d;
      (q * (c * 512) + x) * d + low % d;
    }
    DivUnique(va, d, q * (c * 512) + x, low % d);
    MulThree(q, c, 1);
    DivUnique(va / d, 512, q * c + x / 512, x % 512);
  }

  lemma MulThree(q: nat, c: nat, d: nat)
    ensures q * (c * 512 * d) == q * (c * 512) * d
    ensures q * (c * 512) == q * c * 512
  {
  }

  /** The walk reads the low 48 bits of an address only. */
  lemma LowIndex(va: nat)
    ensures forall l: nat {:trigger Index(va, l)} {:trigger Index(Low(va), l)} :: l < 4 ==> Index(Low(va), l) == Index(va, l)
    ensures Low(va) % PAGE_SIZE == va % PAGE_SIZE
    ensures Low(va) % 0x20_0000 == va % 0x20_0000 && Low(va) % 0x4000_0000 == va % 0x4000_0000
  {
    hide And, Low;
    LowDigit(va, 0x80_0000_0000, 1);
    LowDigit(va, 0x4000_0000, 512);
    LowDigit(va, 0x20_0000, 0x4_0000);
    LowDigit(va, 0x1000, 0x800_0000);
    IndexValue(va);
    IndexValue(Low(va));
  }

  predicate SameSlots(va: nat, vb: nat) {
    && Index(va, 0) == Index(vb, 0)
    && Index(va, 1) == Index(vb, 1)
    && Index(va, 2) == Index(vb, 2)
    && Index(va, 3) == Index(vb, 3)
  }

  /** The four slots and the page number of a user address determine each other. */
  lemma PageFromSlots(va: nat)
    requires IsUser(va)
    ensures va / PAGE_SIZE == ((Index(va, 0) * 512 + Index(va, 1)) * 512 + Index(va, 2)) * 512 + Index(va, 3)
    ensures Index(va, 0) < KERNEL_SLOT
  {
    hide And;
    IndexValue(va);
    var p := va / 4096;
    DivDiv(va, 4096, 0x200);
    DivDiv(va, 4096, 0x4_0000);
    DivDiv(va, 4096, 0x800_0000);
    SplitBy512(p);
  }

  lemma SplitBy512(p: nat)
    requires p < 0x8_0000_0000
    ensures p / 0x800_0000 < 256
    ensures p == ((p / 0x800_0000 % 512 * 512 + p / 0x4_0000 % 512) * 512 + p / 0x200 % 512) * 512 + p % 512
  {
    DivDiv(p, 512, 512);
    DivDiv(p, 512 * 512, 512);
    var q := p / 512;
    var r := q / 512;
    assert r == p / 0x4_0000 && r / 512 == p / 0x800_0000;
  }

  lemma IndexOfPage(va: nat)
    ensures Index(va, 0) == va / PAGE_SIZE / 0x800_0000 % 512
    ensures Index(va, 1) == va / PAGE_SIZE / 0x4_0000 % 512
    ensures Index(va, 2) == va / PAGE_SIZE / 0x200 % 512
    ensures Index(va, 3) == va / PAGE_SIZE % 512
  {
    hide And;
    IndexValue(va);
    DivDiv(va, 4096, 0x200);
    DivDiv(va, 4096, 0x4_0000);
    DivDiv(va, 4096, 0x800_0000);
  }

  /** Two user addresses select the same four slots exactly when they lie on the
      same page. */
  lemma SlotsDeterminePage(va: nat, vb: nat)
    requires IsUser(va) && IsUser(vb)
    ensures SameSlots(va, vb) <==> va / PAGE_SIZE == vb / PAGE_SIZE
  {
    PageFromSlots(va);
    PageFromSlots(vb);
    IndexOfPage(va);
    IndexOfPage(vb);
  }
}
