/** ELF64 files: the header checks, the PT_LOAD program headers, and the memory
    image they describe (System V gABI, Chapter 5, "Program Header"). */
module Elf {
  import opened Bits
  import opened Bytes
  import opened Frames
  import opened PageTree
  import opened Vmas

  const EHDR_SIZE: nat := 64
  const PHDR_SIZE: nat := 56
  const PT_LOAD: nat := 1

  datatype Header = Header(entry: nat, phoff: nat, phentsize: nat, phnum: nat)

  datatype Phdr = Phdr(kind: nat, flags: nat, offset: nat, vaddr: nat, paddr: nat, filesz: nat, memsz: nat, align: nat)

  function Field(data: seq<byte>, at: nat, n: nat): nat
    requires at + n <= |data|
  {
    Le(data[at..at + n])
  }

  /** The header, or None when one of the checks rejects the file. */
  function ParseHeader(data: seq<byte>): Option<Header> {
    if |data| < EHDR_SIZE then None
    else if data[0..4] != [0x7F, 0x45, 0x4C, 0x46] then None
    else if data[4] != 2 then None
    else if data[5] != 1 then None
    else if Field(data, 16, 2) != 2 && Field(data, 16, 2) != 3 then None
    else Some(Header(Field(data, 24, 8), Field(data, 32, 8), Field(data, 54, 2), Field(data, 56, 2)))
  }

  function PhdrAt(data: seq<byte>, at: nat): Phdr
    requires at + PHDR_SIZE <= |data|
  {
    Phdr(Field(data, at, 4), Field(data, at + 4, 4), Field(data, at + 8, 8), Field(data, at + 16, 8),
         Field(data, at + 24, 8), Field(data, at + 32, 8), Field(data, at + 40, 8), Field(data, at + 48, 8))
  }

  function EntryAt(h: Header, i: nat): nat {
    h.phoff + i * h.phentsize
  }

  /** The table starts at `e_phoff`, and its entries are `e_phentsize` bytes apart. */
  lemma EntriesFollow(h: Header, i: nat)
    ensures EntryAt(h, 0) == h.phoff && EntryAt(h, i + 1) == EntryAt(h, i) + h.phentsize
  {
  }

  /** Every one of the first `n` entries that passes the length check, which is made
      with the entry size of the file, has the bytes of a program header. */
  predicate Readable(data: seq<byte>, h: Header, n: nat) {
    forall i: nat {:trigger EntryAt(h, i)} ::
      i < n && EntryAt(h, i) + h.phentsize <= |data| ==> EntryAt(h, i) + PHDR_SIZE <= |data|
  }

  /** The first `n` table entries, keeping the PT_LOAD ones that lie in the file. */
  function LoadSegments(data: seq<byte>, h: Header, n: nat): seq<Phdr>
    requires Readable(data, h, n)
  {
    if n == 0 then [] else
    var at := EntryAt(h, n - 1);
    LoadSegments(data, h, n - 1) +
    (if at + h.phentsize <= |data| && PhdrAt(data, at).kind == PT_LOAD then [PhdrAt(data, at)] else [])
  }

  predicate PhdrFits(p: Phdr) {
    && p.kind < 0x1_0000_0000 && p.flags < 0x1_0000_0000 && p.offset < U64 && p.vaddr < U64
    && p.paddr < U64 && p.filesz < U64 && p.memsz < U64 && p.align < U64
  }

  predicate HoldsField(data: seq<byte>, at: nat, n: nat, w: nat) {
    at + n <= |data| && data[at..at + n] == ToLe(w, n)
  }

  /** The file holds the encoding of `p` at `at`: each field little-endian at the
      offset that the gABI gives it. */
  predicate HoldsPhdr(data: seq<byte>, at: nat, p: Phdr) {
    && PhdrFits(p)
    && HoldsField(data, at, 4, p.kind) && HoldsField(data, at + 4, 4, p.flags)
    && HoldsField(data, at + 8, 8, p.offset) && HoldsField(data, at + 16, 8, p.vaddr)
    && HoldsField(data, at + 24, 8, p.paddr) && HoldsField(data, at + 32, 8, p.filesz)
    && HoldsField(data, at + 40, 8, p.memsz) && HoldsField(data, at + 48, 8, p.align)
  }

  function LoadOnly(ps: seq<Phdr>): seq<Phdr> {
    if ps == [] then [] else
    var p := ps[|ps| - 1];
    LoadOnly(ps[..|ps| - 1]) + (if p.kind == PT_LOAD then [p] else [])
  }

  lemma FieldRoundTrip(data: seq<byte>, at: nat, n: nat, w: nat)
    requires HoldsField(data, at, n, w) && w < Pow256(n)
    ensures Field(data, at, n) == w
  {
    LeRoundTrip(w, n);
  }

  lemma PhdrRoundTrip(data: seq<byte>, at: nat, p: Phdr)
    requires HoldsPhdr(data, at, p)
    ensures PhdrAt(data, at) == p
  {
    assert Pow256(4) == 0x1_0000_0000;
    assert Pow256(8) == U64;
    hide Le, ToLe, Field, Pow256;
    FieldRoundTrip(data, at, 4, p.kind);
    FieldRoundTrip(data, at + 4, 4, p.flags);
    FieldRoundTrip(data, at + 8, 8, p.offset);
    FieldRoundTrip(data, at + 16, 8, p.vaddr);
    FieldRoundTrip(data, at + 24, 8, p.paddr);
    FieldRoundTrip(data, at + 32, 8, p.filesz);
    FieldRoundTrip(data, at + 40, 8, p.memsz);
    FieldRoundTrip(data, at + 48, 8, p.align);
  }

  lemma EncodedReadable(data: seq<byte>, h: Header, ps: seq<Phdr>)
    requires forall i :: 0 <= i < |ps| ==> HoldsPhdr(data, EntryAt(h, i), ps[i])
    ensures Readable(data, h, |ps|)
  {
    hide EntryAt;
    forall i: nat | i < |ps| && EntryAt(h, i) + h.phentsize <= |data|
      ensures EntryAt(h, i) + PHDR_SIZE <= |data|
    {
      assert HoldsPhdr(data, EntryAt(h, i), ps[i]);
    }
  }

  /** Any file that holds the encoding of a program header table is read back as
      exactly the PT_LOAD headers of that table, in order. */
  lemma {:induction false} SegmentsRoundTrip(data: seq<byte>, h: Header, ps: seq<Phdr>)
    requires forall i :: 0 <= i < |ps| ==> HoldsPhdr(data, EntryAt(h, i), ps[i])
    requires forall i :: 0 <= i < |ps| ==> EntryAt(h, i) + h.phentsize <= |data|
    ensures Readable(data, h, |ps|)
    ensures LoadSegments(data, h, |ps|) == LoadOnly(ps)
  {
    hide PhdrFits, PhdrAt, EntryAt, HoldsPhdr;
    EncodedReadable(data, h, ps);
    if ps != [] {
      var n := |ps| - 1;
      SegmentsRoundTrip(data, h, ps[..n]);
      PhdrRoundTrip(data, EntryAt(h, n), ps[n]);
    }
  }

  lemma {:induction false} EntriesGrow(h: Header, i: nat, j: nat)
    requires i <= j
    ensures EntryAt(h, i) <= EntryAt(h, j)
    decreases j
  {
    hide EntryAt;
    if i < j {
      EntriesGrow(h, i, j - 1);
      EntriesFollow(h, j - 1);
    }
  }

  /** A table cut off by the end of the file is read up to the cut: no entry counts that does
      not lie in the file with its whole entry size. */
  lemma {:induction false} CutTable(data: seq<byte>, h: Header, k: nat, n: nat)
    requires Readable(data, h, n) && k <= n && EntryAt(h, k) + h.phentsize > |data|
    ensures Readable(data, h, k) && LoadSegments(data, h, n) == LoadSegments(data, h, k)
  {
    hide EntryAt, PhdrAt;
    if n > k {
      CutTable(data, h, k, n - 1);
      EntriesGrow(h, k, n - 1);
    }
  }

  /** A file is accepted if and only if it has the 64 bytes of a header that starts with the
      ELF magic number, is 64-bit and little-endian, and is an executable or a shared object. */
  lemma HeaderIff(data: seq<byte>)
    ensures ParseHeader(data).Some? <==>
      && |data| >= 64 && data[0] == 0x7F && data[1] == 0x45 && data[2] == 0x4C && data[3] == 0x46
      && data[4] == 2 && data[5] == 1 && (data[16] == 2 || data[16] == 3) && data[17] == 0
  {
    if |data| >= 64 {
      PairLe(data[16..18]);
      assert data[0..4] == [0x7F, 0x45, 0x4C, 0x46] <==>
        data[0..4][0] == 0x7F && data[0..4][1] == 0x45 && data[0..4][2] == 0x4C && data[0..4][3] == 0x46;
    }
  }

  lemma PairLe(s: seq<byte>)
    requires |s| == 2
    ensures var low: nat, high: nat := s[0], s[1]; Le(s) == low + 256 * high
  {
    var t := s[1..];
    assert t[1..] == [] && Le(t) == t[0] + 256 * Le(t[1..]);
  }

  /** The file holds this file header: magic number, class, byte order and type, and each
      field little-endian at the offset that the gABI gives it. */
  predicate HoldsHeader(data: seq<byte>, kind: nat, h: Header) {
    && |data| >= 64 && data[..6] == [0x7F, 0x45, 0x4C, 0x46, 2, 1]
    && h.entry < U64 && h.phoff < U64 && h.phentsize < 0x1_0000 && h.phnum < 0x1_0000
    && HoldsField(data, 16, 2, kind) && HoldsField(data, 24, 8, h.entry) && HoldsField(data, 32, 8, h.phoff)
    && HoldsField(data, 54, 2, h.phentsize) && HoldsField(data, 56, 2, h.phnum)
  }

  /** A file header is read back from its encoding. */
  lemma HeaderRoundTrip(data: seq<byte>, kind: nat, h: Header)
    requires HoldsHeader(data, kind, h) && (kind == 2 || kind == 3)
    ensures ParseHeader(data) == Some(h)
  {
    assert Pow256(2) == 0x1_0000;
    assert Pow256(8) == U64;
    assert data[0..4] == data[..6][..4] && data[4] == data[..6][4] && data[5] == data[..6][5];
    hide Le, ToLe, Field, Pow256;
    FieldRoundTrip(data, 16, 2, kind);
    FieldRoundTrip(data, 24, 8, h.entry);
    FieldRoundTrip(data, 32, 8, h.phoff);
    FieldRoundTrip(data, 54, 2, h.phentsize);
    FieldRoundTrip(data, 56, 2, h.phnum);
  }
}
