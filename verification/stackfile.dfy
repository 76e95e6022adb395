/** A small valid ELF file that the loader does not load whole: its only segment is
    one byte at the start of the topmost stack page. */
module StackFile {
  import opened Bits
  import opened Bytes
  import opened Frames
  import opened PageTree
  import opened Translation
  import opened Mapping
  import opened Vmas
  import opened Elf
  import opened ElfImage
  import opened Loader

  const SEGMENT: Phdr := Phdr(PT_LOAD, 6, 0, STACK_TOP - PAGE_SIZE, 0, 1, 1, PAGE_SIZE)
  const HEADER: Header := Header(STACK_TOP - PAGE_SIZE, EHDR_SIZE, PHDR_SIZE, 1)

  /** The bytes of the file: the ELF header, then one program header. */
  function ByteOf(i: nat): byte {
    match i
    case 0 => 0x7F case 1 => 0x45 case 2 => 0x4C case 3 => 0x46
    case 4 => 2 case 5 => 1 case 6 => 1
    case 16 => 2 case 18 => 62 case 20 => 1
    case 25 => 0xF0 case 26 => 0xFE case 27 => 0xFF case 28 => 0xFF case 29 => 0x7F
    case 32 => 64 case 52 => 64 case 54 => 56 case 56 => 1
    case 64 => 1 case 68 => 6
    case 81 => 0xF0 case 82 => 0xFE case 83 => 0xFF case 84 => 0xFF case 85 => 0x7F
    case 96 => 1 case 104 => 1 case 113 => 0x10
    case _ => 0
  }

  function File(): (data: seq<byte>)
    ensures |data| == EHDR_SIZE + PHDR_SIZE && forall i :: 0 <= i < |data| ==> data[i] == ByteOf(i)
  {
    seq(EHDR_SIZE + PHDR_SIZE, i requires 0 <= i => ByteOf(i))
  }

  lemma FieldStep(data: seq<byte>, at: nat, n: nat)
    requires 0 < n && at + n <= |data|
    ensures Field(data, at, n) == data[at] as nat + 256 * Field(data, at + 1, n - 1)
    ensures Field(data, at + n, 0) == 0
  {
    assert data[at..at + n][1..] == data[at + 1..at + n];
  }

  lemma Field2(data: seq<byte>, at: nat)
    requires at + 2 <= |data|
    ensures Field(data, at, 2) == data[at] as nat + 0x100 * data[at + 1] as nat
  {
    hide Field;
    FieldStep(data, at, 2);
    FieldStep(data, at + 1, 1);
  }

  lemma Field4(data: seq<byte>, at: nat)
    requires at + 4 <= |data|
    ensures Field(data, at, 4) == data[at] as nat + 0x100 * data[at + 1] as nat + 0x1_0000 * Field(data, at + 2, 2)
  {
    hide Field;
    FieldStep(data, at, 4);
    FieldStep(data, at + 1, 3);
  }

  lemma Field8(data: seq<byte>, at: nat)
    requires at + 8 <= |data|
    ensures Field(data, at, 8) == Field(data, at, 4) + 0x1_0000_0000 * Field(data, at + 4, 4)
  {
    hide Field;
    FieldStep(data, at, 8);
    FieldStep(data, at + 1, 7);
    FieldStep(data, at + 2, 6);
    FieldStep(data, at + 3, 5);
    Field4(data, at);
    Field2(data, at + 2);
  }

  /** The eight bytes of a field, two at a time. */
  lemma Field8Bytes(at: nat)
    requires at + 8 <= EHDR_SIZE + PHDR_SIZE
    ensures Field(File(), at, 8) ==
      ByteOf(at) as nat + 0x100 * ByteOf(at + 1) as nat + 0x1_0000 * ByteOf(at + 2) as nat
      + 0x100_0000 * ByteOf(at + 3) as nat + 0x1_0000_0000 * ByteOf(at + 4) as nat
      + 0x100_0000_0000 * ByteOf(at + 5) as nat + 0x1_0000_0000_0000 * ByteOf(at + 6) as nat
      + 0x100_0000_0000_0000 * ByteOf(at + 7) as nat
  {
    hide Field, File, ByteOf;
    Field8(File(), at);
    Field4(File(), at);
    Field4(File(), at + 4);
    Field2(File(), at + 2);
    Field2(File(), at + 6);
  }

  lemma HeaderParsed()
    ensures ParseHeader(File()) == Some(HEADER)
  {
    hide Field, File;
    Field2(File(), 16);
    Field2(File(), 54);
    Field2(File(), 56);
    Field8Bytes(24);
    Field8Bytes(32);
    assert File()[0..4] == [0x7F, 0x45, 0x4C, 0x46];
  }

  lemma SegmentParsed()
    ensures PhdrAt(File(), EHDR_SIZE) == SEGMENT
  {
    hide Field, File;
    Field4(File(), 64);
    Field2(File(), 66);
    Field4(File(), 68);
    Field2(File(), 70);
    Field8Bytes(72);
    Field8Bytes(80);
    Field8Bytes(88);
    Field8Bytes(96);
    Field8Bytes(104);
    Field8Bytes(112);
  }

  /** The file passes every check of the loader. */
  lemma FileIsOk()
    ensures FileOk(File()) && SegmentsOf(File()) == [SEGMENT] && ByteDisjoint([SEGMENT])
    ensures AllLoadable(File(), [SEGMENT])
  {
    hide ParseHeader, File, PhdrAt, ByteOf;
    HeaderParsed();
    SegmentParsed();
    assert EntryAt(HEADER, 0) == EHDR_SIZE;
    assert Elf.LoadSegments(File(), HEADER, 0) == [];
  }

  lemma FirstByteCovered(m: seq<byte>, lab: Labels, root: nat, data: seq<byte>, s: Phdr, n: nat)
    requires TreeOk(m, lab) && IsRoot(lab, root) && AllLoadable(data, [s])
    requires FinishedPages(Space(m, root), [s], n) && Overlaid(m, Space(m, root), data, [s], n)
    requires forall p :: p in Space(m, root) ==> (Space(m, root)[p] + 1) * PAGE_SIZE <= |m|
    requires ByteDisjoint([s]) && s.memsz > 0 && StackPage(s.vaddr / PAGE_SIZE, n)
    ensures ReadAt(m, root, s.vaddr) == Some(0)
  {
    hide TreeOk, Space, FinishedPages, Overlaid, ReadAt, ByteDisjoint, FileByte, StackPage, Loadable;
    ProgramBytes(m, lab, root, data, [s], n, 0, 0);
  }

  /** In the finished space of this file the byte reads as zero, and the memory is not
      the image of the file. */
  lemma FileNotWhole(m: seq<byte>, lab: Labels, root: nat, n: nat)
    requires TreeOk(m, lab) && IsRoot(lab, root) && 0 < n <= STACK_PAGES
    requires AllLoadable(File(), [SEGMENT]) && FinishedPages(Space(m, root), [SEGMENT], n)
    requires Overlaid(m, Space(m, root), File(), [SEGMENT], n)
    requires forall p :: p in Space(m, root) ==> (Space(m, root)[p] + 1) * PAGE_SIZE <= |m|
    ensures FileByte(File(), SEGMENT, 0) == 0x7F && ReadAt(m, root, SEGMENT.vaddr) == Some(0)
    ensures !ImageLoaded(m, Space(m, root), File(), [SEGMENT], 1, 0)
  {
    hide File, TreeOk, Space, FinishedPages, Overlaid, ReadAt, Image, ByteDisjoint, FileByte, StackPage, Loadable,
      Supplies, OnPage, Covers, ImageLoaded;
    FileIsOk();
    FirstByte(n);
    FirstByteCovered(m, lab, root, File(), SEGMENT, n);
    ImageWholeIff(m, Space(m, root), File(), [SEGMENT], n);
    assert Image(File(), [SEGMENT], 1, SEGMENT.vaddr) != 0;
  }

  lemma FirstByte(n: nat)
    requires n > 0 && AllLoadable(File(), [SEGMENT])
    ensures FileByte(File(), SEGMENT, 0) == 0x7F && StackPage(SEGMENT.vaddr / PAGE_SIZE, n)
    ensures Image(File(), [SEGMENT], 1, SEGMENT.vaddr) == 0x7F
  {
    hide File, SegStart, SegEnd;
    assert Supplies(SEGMENT, SEGMENT.vaddr) by {
      SegBounds(File(), SEGMENT);
    }
  }
}
