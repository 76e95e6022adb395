/** The memory image of an ELF file, byte by byte: a specification that knows
    nothing of pages being filled one at a time. */
module ElfImage {
  import opened Bits
  import opened Bytes
  import opened Frames
  import opened PageTree
  import opened Vmas
  import opened Elf

  function SegStart(s: Phdr): nat {
    PageDown(s.vaddr)
  }

  function SegEnd(s: Phdr): nat {
    PageUp(s.vaddr + s.memsz)
  }

  /** What the loader demands of a segment: file bytes within the file, and user
      addresses, so that no sum wraps around. */
  predicate Loadable(data: seq<byte>, s: Phdr) {
    s.offset + s.filesz <= |data| && s.vaddr + s.filesz < U64 && s.vaddr + s.memsz + PAGE_SIZE <= USER_TOP
  }

  predicate AllLoadable(data: seq<byte>, segs: seq<Phdr>) {
    forall i :: 0 <= i < |segs| ==> Loadable(data, segs[i])
  }

  lemma SegBounds(data: seq<byte>, s: Phdr)
    requires Loadable(data, s)
    ensures PageAligned(SegStart(s)) && PageAligned(SegEnd(s))
    ensures SegStart(s) <= s.vaddr < SegStart(s) + PAGE_SIZE
    ensures s.vaddr + s.memsz <= SegEnd(s) < s.vaddr + s.memsz + PAGE_SIZE && SegEnd(s) <= USER_TOP
  {
    hide And;
    PageRounding(s.vaddr);
    PageRounding(s.vaddr + s.memsz);
    assert SegEnd(s) <= USER_TOP;
  }

  predicate OnPage(s: Phdr, page: nat) {
    SegStart(s) <= page * PAGE_SIZE < SegEnd(s)
  }

  /** The segment supplies the byte at `a` from the file. */
  predicate Supplies(s: Phdr, a: nat) {
    s.vaddr <= a < s.vaddr + s.filesz && a < SegEnd(s)
  }

  /** The byte at `a` after the first `n` segments: the last one that supplies it
      wins, and a byte that none supplies is zero. */
  ghost function Image(data: seq<byte>, segs: seq<Phdr>, n: nat, a: nat): byte
    requires n <= |segs| && AllLoadable(data, segs)
  {
    if n == 0 then 0
    else if Supplies(segs[n - 1], a) then data[segs[n - 1].offset + (a - segs[n - 1].vaddr)]
    else Image(data, segs, n - 1, a)
  }

  /** No byte of a page is supplied before some segment covers the page. */
  lemma {:induction false} ImageUncovered(data: seq<byte>, segs: seq<Phdr>, n: nat, page: nat, a: nat)
    requires n <= |segs| && AllLoadable(data, segs)
    requires a / PAGE_SIZE == page && forall i :: 0 <= i < n ==> !OnPage(segs[i], page)
    ensures Image(data, segs, n, a) == 0
  {
    if n > 0 {
      ImageUncovered(data, segs, n - 1, page, a);
      SegBounds(data, segs[n - 1]);
      hide PageUp, PageDown;
      assert !OnPage(segs[n - 1], page);
    }
  }

  /** Segments whose memory ranges are pairwise disjoint, each with its file bytes
      inside its memory range. Pages may be shared. */
  ghost predicate ByteDisjoint(segs: seq<Phdr>) {
    && (forall i :: 0 <= i < |segs| ==> segs[i].filesz <= segs[i].memsz)
    && (forall i, j :: 0 <= i < j < |segs| ==>
        segs[i].vaddr + segs[i].memsz <= segs[j].vaddr || segs[j].vaddr + segs[j].memsz <= segs[i].vaddr)
  }

  lemma {:induction false} ImageUpTo(data: seq<byte>, segs: seq<Phdr>, n: nat, j: nat, i: nat)
    requires AllLoadable(data, segs) && ByteDisjoint(segs) && n <= |segs| && j < |segs| && i < segs[j].memsz
    ensures Image(data, segs, n, segs[j].vaddr + i) ==
      if j < n && i < segs[j].filesz && segs[j].offset + i < |data| then data[segs[j].offset + i] else 0
  {
    if n > 0 {
      ImageUpTo(data, segs, n - 1, j, i);
      SegBounds(data, segs[j]);
      hide PageUp, PageDown;
      if n - 1 != j {
        assert !Supplies(segs[n - 1], segs[j].vaddr + i);
      }
    }
  }

  /** For byte-disjoint segments the image is what the program headers promise:
      file bytes first, then zeros up to the memory size. */
  lemma ImageOfSegment(data: seq<byte>, segs: seq<Phdr>, j: nat, i: nat)
    requires AllLoadable(data, segs) && ByteDisjoint(segs) && j < |segs| && i < segs[j].memsz
    ensures i < segs[j].filesz ==> segs[j].offset + i < |data| && Image(data, segs, |segs|, segs[j].vaddr + i) == data[segs[j].offset + i]
    ensures i >= segs[j].filesz ==> Image(data, segs, |segs|, segs[j].vaddr + i) == 0
  {
    ImageUpTo(data, segs, |segs|, j, i);
  }
}
