/** The kernel's reader of a FAT12 volume held in memory. */
module FatVolume {
  import opened Bits
  import opened Bytes
  import opened Frames
  import opened FatNames
  import opened FatTable
  import opened FatLayout
  import opened FatImage

  const BPB_BYTES: nat := 62

  function Half(image: seq<byte>, at: nat): nat
    requires at + 2 <= |image|
  {
    Le(image[at..at + 2])
  }

  function BytesPerSector(image: seq<byte>): nat
    requires BPB_BYTES <= |image|
  {
    Half(image, 11)
  }

  function FatSectors(image: seq<byte>): nat
    requires BPB_BYTES <= |image|
  {
    image[16] * Half(image, 22)
  }

  function RootEntries(image: seq<byte>): nat
    requires BPB_BYTES <= |image|
  {
    Half(image, 17)
  }

  function RootOffset(image: seq<byte>): nat
    requires BPB_BYTES <= |image|
  {
    Half(image, 14) * BytesPerSector(image) + FatSectors(image) * BytesPerSector(image)
  }

  function SectorsFor(bytes: nat, sector: nat): nat
    requires sector > 0
  {
    (bytes + (sector - 1)) / sector
  }

  function FirstDataSector(image: seq<byte>): nat
    requires BPB_BYTES <= |image| && BytesPerSector(image) > 0
  {
    Half(image, 14) + FatSectors(image) + SectorsFor(RootEntries(image) * 32, BytesPerSector(image))
  }

  datatype Entry = Entry(raw: Name, attr: byte, cluster: nat, size: nat)

  function ParseEntry(slot: seq<byte>): (e: Entry)
    requires |slot| == 32
    ensures |e.raw| == 11
  {
    Entry(slot[..11], slot[11], Le(slot[26..28]), Le(slot[28..32]))
  }

  /** The directory lies inside the image. */
  predicate HasRoot(image: seq<byte>) {
    && BPB_BYTES <= |image|
    && BytesPerSector(image) > 0
    && RootOffset(image) + 32 * RootEntries(image) <= |image|
  }

  function EntryAt(image: seq<byte>, i: nat): (e: Entry)
    requires HasRoot(image) && i < RootEntries(image)
    ensures |e.raw| == 11
  {
    var at := RootOffset(image) + 32 * i;
    ParseEntry(image[at..at + 32])
  }

  /** Deleted entries, volume labels and directories. */
  predicate Skipped(e: Entry)
    requires |e.raw| == 11
  {
    e.raw[0] == 0xE5 || And(e.attr, 0x08) != 0 || And(e.attr, 0x10) != 0
  }

  /** The files that the directory lists from slot `i` on, up to the first unused slot. */
  function LiveFrom(image: seq<byte>, i: nat): (es: seq<Entry>)
    requires HasRoot(image) && i <= RootEntries(image)
    ensures forall k :: 0 <= k < |es| ==> |es[k].raw| == 11
    decreases RootEntries(image) - i
  {
    if i == RootEntries(image) || EntryAt(image, i).raw[0] == 0 then []
    else if Skipped(EntryAt(image, i)) then LiveFrom(image, i + 1)
    else [EntryAt(image, i)] + LiveFrom(image, i + 1)
  }

  function Product(a: nat, b: nat): nat {
    a * b
  }

  function FileOffset(image: seq<byte>, cluster: nat): nat
    requires HasRoot(image) && cluster >= 2
  {
    Product(FirstDataSector(image) + Product(cluster - 2, image[13]), BytesPerSector(image))
  }

  /** The bytes that the volume stores for this entry lie inside the image. */
  predicate Stores(image: seq<byte>, e: Entry)
    requires HasRoot(image)
  {
    e.cluster >= 2 ==> FileOffset(image, e.cluster) + e.size <= |image|
  }

  predicate AllStored(image: seq<byte>, es: seq<Entry>)
    requires HasRoot(image)
  {
    forall k :: 0 <= k < |es| ==> |es[k].raw| == 11 && Stores(image, es[k])
  }

  /** Everything that the reader follows lies inside the image. */
  predicate Mountable(image: seq<byte>) {
    && HasRoot(image)
    && AllStored(image, LiveFrom(image, 0))
  }

  function FileBytes(image: seq<byte>, e: Entry): (data: seq<byte>)
    requires HasRoot(image) && e.cluster >= 2 && Stores(image, e)
    ensures |data| == e.size
  {
    image[FileOffset(image, e.cluster)..FileOffset(image, e.cluster) + e.size]
  }

  predicate Matches(e: Entry, q: Name)
    requires |e.raw| == 11
  {
    Display(e.raw) == q && e.cluster >= 2
  }

  /** The contents of the first listed file that shows the name `q` and has a data cluster. */
  function FirstMatch(image: seq<byte>, es: seq<Entry>, q: Name): Option<seq<byte>>
    requires HasRoot(image) && AllStored(image, es)
  {
    if es == [] then None
    else if Matches(es[0], q) then Some(FileBytes(image, es[0]))
    else FirstMatch(image, es[1..], q)
  }

  function Lookup(image: seq<byte>, q: Name): Option<seq<byte>>
    requires Mountable(image)
  {
    FirstMatch(image, LiveFrom(image, 0), q)
  }

  /** Scans the directory of the mounted image for an upper-case name. */
  method ReadVolume(image: seq<byte>, q: Name) returns (found: Option<seq<byte>>)
    requires Mountable(image)
    ensures found == Lookup(image, q)
  {
    hide And, Display, FileBytes, Stores, RootOffset, EntryAt, RootEntries, LiveFrom, FirstMatch, AllStored;
    var i: nat := 0;
    while i < RootEntries(image)
      invariant i <= RootEntries(image)
      invariant AllStored(image, LiveFrom(image, i))
      invariant Lookup(image, q) == FirstMatch(image, LiveFrom(image, i), q)
    {
      var e := EntryAt(image, i);
      ScanStep(image, i, q);
      if e.raw[0] == 0 {
        return None;
      }
      if !Skipped(e) {
        if Matches(e, q) {
          return Some(FileBytes(image, e));
        }
      }
      i := i + 1;
    }
    LiveEnd(image, q);
    return None;
  }

  lemma LiveStep(image: seq<byte>, i: nat)
    requires HasRoot(image) && i < RootEntries(image)
    ensures LiveFrom(image, i) ==
            if EntryAt(image, i).raw[0] == 0 then []
            else if Skipped(EntryAt(image, i)) then LiveFrom(image, i + 1)
            else [EntryAt(image, i)] + LiveFrom(image, i + 1)
  {
  }

  lemma LiveEnd(image: seq<byte>, q: Name)
    requires HasRoot(image)
    ensures LiveFrom(image, RootEntries(image)) == [] && AllStored(image, []) && FirstMatch(image, [], q) == None
  {
  }

  /** One step of a scan that looks for `q`. */
  lemma ScanStep(image: seq<byte>, i: nat, q: Name)
    requires HasRoot(image) && i < RootEntries(image) && AllStored(image, LiveFrom(image, i))
    ensures var e := EntryAt(image, i);
            if e.raw[0] == 0 then FirstMatch(image, LiveFrom(image, i), q) == None
            else if Skipped(e) then LiveFrom(image, i) == LiveFrom(image, i + 1)
            else
              && Stores(image, e) && AllStored(image, LiveFrom(image, i + 1))
              && LiveFrom(image, i) == [e] + LiveFrom(image, i + 1)
              && (FirstMatch(image, LiveFrom(image, i), q) ==
                  if Matches(e, q) then Some(FileBytes(image, e)) else FirstMatch(image, LiveFrom(image, i + 1), q))
  {
    hide And, FileBytes, Stores, RootOffset, EntryAt, RootEntries, FirstMatch, Matches, AllStored, Skipped;
    var e := EntryAt(image, i);
    if e.raw[0] == 0 {
      NoMatch(image, q);
    } else if !Skipped(e) {
      MatchStep(image, e, LiveFrom(image, i + 1), q);
    }
  }

  lemma NoMatch(image: seq<byte>, q: Name)
    requires HasRoot(image)
    ensures AllStored(image, []) && FirstMatch(image, [], q) == None
  {
  }

  lemma MatchStep(image: seq<byte>, e: Entry, more: seq<Entry>, q: Name)
    requires HasRoot(image) && AllStored(image, [e] + more)
    ensures |e.raw| == 11 && Stores(image, e) && AllStored(image, more)
    ensures FirstMatch(image, [e] + more, q) == if Matches(e, q) then Some(FileBytes(image, e)) else FirstMatch(image, more, q)
  {
    hide Display, FileBytes, Stores, RootOffset, RootEntries;
    var es := [e] + more;
    assert es[0] == e && es[1..] == more;
    assert forall k :: 0 <= k < |more| ==> more[k] == es[k + 1];
  }

  // ---------- Any volume ----------

  /** The BIOS parameter block, as far as the reader follows it. */
  datatype Bpb = Bpb(bytesPerSector: nat, sectorsPerCluster: byte, reserved: nat, fats: byte, rootEntries: nat, sectorsPerFat: nat)

  predicate HoldsHalf(image: seq<byte>, at: nat, w: nat) {
    at + 2 <= |image| && w < 0x1_0000 && image[at..at + 2] == ToLe(w, 2)
  }

  /** The image holds this block, at the offsets of the FAT specification (fatgen103, "Boot
      Sector and BPB Structure"). */
  predicate HoldsBpb(image: seq<byte>, b: Bpb) {
    && BPB_BYTES <= |image|
    && HoldsHalf(image, 11, b.bytesPerSector) && image[13] == b.sectorsPerCluster && HoldsHalf(image, 14, b.reserved)
    && image[16] == b.fats && HoldsHalf(image, 17, b.rootEntries) && HoldsHalf(image, 22, b.sectorsPerFat)
  }

  lemma HalfRoundTrip(image: seq<byte>, at: nat, w: nat)
    requires HoldsHalf(image, at, w)
    ensures Half(image, at) == w
  {
    assert Pow256(2) == 0x1_0000;
    LeRoundTrip(w, 2);
  }

  lemma BpbRead(image: seq<byte>, b: Bpb)
    requires HoldsBpb(image, b)
    ensures BytesPerSector(image) == b.bytesPerSector && RootEntries(image) == b.rootEntries
    ensures Half(image, 14) == b.reserved && FatSectors(image) == b.fats * b.sectorsPerFat
  {
    hide Half;
    HalfRoundTrip(image, 11, b.bytesPerSector);
    HalfRoundTrip(image, 14, b.reserved);
    HalfRoundTrip(image, 17, b.rootEntries);
    HalfRoundTrip(image, 22, b.sectorsPerFat);
  }

  lemma Distributes(x: nat, y: nat, z: nat)
    ensures x * z + y * z == (x + y) * z
  {
  }

  /** On any volume the directory follows the reserved sectors and the tables, it takes the
      fewest sectors that hold its entries, and the clusters follow it, numbered from 2. */
  lemma VolumeLayout(image: seq<byte>, b: Bpb, root: nat, cluster: nat)
    requires HoldsBpb(image, b) && HasRoot(image) && cluster >= 2
    requires root * b.bytesPerSector >= 32 * b.rootEntries > (root - 1) * b.bytesPerSector || root == b.rootEntries == 0
    ensures RootEntries(image) == b.rootEntries
    ensures RootOffset(image) == (b.reserved + b.fats * b.sectorsPerFat) * b.bytesPerSector
    ensures FileOffset(image, cluster) ==
      (b.reserved + b.fats * b.sectorsPerFat + root + (cluster - 2) * b.sectorsPerCluster) * b.bytesPerSector
  {
    BpbRead(image, b);
    hide BytesPerSector, FatSectors, RootEntries, Half, HoldsHalf, SectorsFor;
    Distributes(b.reserved, FatSectors(image), b.bytesPerSector);
    FewestSectors(b.rootEntries * 32, b.bytesPerSector, root);
  }

  lemma FewestSectors(bytes: nat, sector: nat, n: nat)
    requires sector > 0
    requires n * sector >= bytes > (n - 1) * sector || n == bytes == 0
    ensures SectorsFor(bytes, sector) == n
  {
    var r := bytes + (sector - 1) - n * sector;
    assert (n - 1) * sector == n * sector - sector;
    DivUnique(bytes + (sector - 1), sector, n, r);
  }

  /** The entry in slot `i` is a file with a data cluster that shows the name `q`: no slot up
      to it is unused, and it is not deleted, no volume label (bit 3) and no directory (bit 4). */
  predicate ShowsFile(image: seq<byte>, i: nat, q: Name)
    requires HasRoot(image)
  {
    && i < RootEntries(image)
    && (forall j :: 0 <= j <= i ==> EntryAt(image, j).raw[0] != 0)
    && var e := EntryAt(image, i);
      e.raw[0] != 0xE5 && e.attr / 8 % 2 == 0 && e.attr / 16 % 2 == 0 && Display(e.raw) == q && e.cluster >= 2
  }

  lemma SkippedIff(e: Entry)
    requires |e.raw| == 11
    ensures Skipped(e) <==> e.raw[0] == 0xE5 || e.attr / 8 % 2 == 1 || e.attr / 16 % 2 == 1
  {
    assert Pow2(1) == 2 && Pow2(3) == 8 && Pow2(4) == 16;
    hide And;
    AndField(e.attr, 3, 1);
    AndField(e.attr, 4, 1);
  }

  lemma {:induction false} MatchFrom(image: seq<byte>, k: nat, q: Name, i: nat)
    requires HasRoot(image) && k <= RootEntries(image) && AllStored(image, LiveFrom(image, k))
    requires forall j :: 0 <= j < k ==> EntryAt(image, j).raw[0] != 0
    ensures k <= i && ShowsFile(image, i, q) && (forall j :: k <= j < i ==> !ShowsFile(image, j, q)) ==>
      Stores(image, EntryAt(image, i)) && FirstMatch(image, LiveFrom(image, k), q) == Some(FileBytes(image, EntryAt(image, i)))
    ensures FirstMatch(image, LiveFrom(image, k), q).Some? ==> exists j :: k <= j < RootEntries(image) && ShowsFile(image, j, q)
    decreases RootEntries(image) - k
  {
    hide Display, FileBytes, Stores, RootOffset, EntryAt, RootEntries, LiveFrom, FirstMatch, AllStored, Skipped;
    if k == RootEntries(image) {
      LiveEnd(image, q);
    } else {
      ScanStep(image, k, q);
      var e := EntryAt(image, k);
      SkippedIff(e);
      if e.raw[0] != 0 {
        MatchFrom(image, k + 1, q, i);
        assert ShowsFile(image, k, q) <==> !Skipped(e) && Matches(e, q);
      }
    }
  }

  lemma MatchAnywhere(image: seq<byte>, q: Name, i: nat)
    requires Mountable(image)
    ensures ShowsFile(image, i, q) && (forall j :: 0 <= j < i ==> !ShowsFile(image, j, q)) ==>
      Stores(image, EntryAt(image, i)) && Lookup(image, q) == Some(FileBytes(image, EntryAt(image, i)))
    ensures Lookup(image, q).Some? ==> exists j: nat :: ShowsFile(image, j, q)
  {
    hide ShowsFile, FileBytes, Stores, RootOffset, EntryAt, RootEntries, LiveFrom, FirstMatch, AllStored;
    MatchFrom(image, 0, q, i);
  }

  /** Reading a name from any volume gives the bytes of the first entry that shows it, found by
      its cluster and size, and nothing if and only if there is no such entry. */
  lemma LookupIsFirst(image: seq<byte>, q: Name)
    requires Mountable(image)
    ensures Lookup(image, q).Some? <==> exists i: nat :: ShowsFile(image, i, q)
    ensures forall i: nat :: ShowsFile(image, i, q) && (forall j :: 0 <= j < i ==> !ShowsFile(image, j, q)) ==>
      Stores(image, EntryAt(image, i)) && Lookup(image, q) == Some(FileBytes(image, EntryAt(image, i)))
  {
    hide HasRoot, LiveFrom, AllStored, Lookup, FileBytes, Stores, EntryAt, Display, RootEntries;
    forall i: nat
      ensures ShowsFile(image, i, q) && (forall j :: 0 <= j < i ==> !ShowsFile(image, j, q)) ==>
        Stores(image, EntryAt(image, i)) && Lookup(image, q) == Some(FileBytes(image, EntryAt(image, i)))
    {
      MatchAnywhere(image, q, i);
    }
    MatchAnywhere(image, q, 0);
    if i: nat :| ShowsFile(image, i, q) {
      var first := FirstShown(image, q, i);
    }
  }

  lemma {:induction false} FirstShown(image: seq<byte>, q: Name, i: nat) returns (first: nat)
    requires HasRoot(image) && ShowsFile(image, i, q)
    ensures ShowsFile(image, first, q) && forall j :: 0 <= j < first ==> !ShowsFile(image, j, q)
  {
    hide ShowsFile;
    if j: nat :| j < i && ShowsFile(image, j, q) {
      first := FirstShown(image, q, j);
    } else {
      first := i;
    }
  }
}
