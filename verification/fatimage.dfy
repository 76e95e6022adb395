/** The builder of the 1.44 MB FAT12 image. */
module FatImage {
  import opened Bytes
  import opened FatTable
  import opened FatNames
  import opened FatLayout

  const ATTR_ARCHIVE: byte := 0x20
  const ATTR_VOLUME: byte := 0x08
  const FAT_AT: nat := 512
  const ROOT_AT: nat := 9728
  const DATA_AT: nat := 16896
  const IMAGE_BYTES: nat := 1474560

  function VolumeLabel(): (s: seq<byte>)
    ensures |s| == 11
  {
    [72, 85, 83, 69, 89, 78, 70, 83, 32, 32, 32]
  }

  /** The BIOS parameter block, bytes 11 to 36 of the boot sector. */
  function ParameterBlock(): (s: seq<byte>)
    ensures |s| == 25
  {
    ToLe(SECTOR, 2) + [1] + ToLe(1, 2) + [2] + ToLe(ROOT_ENTRIES, 2) + ToLe(2880, 2) + [0xF0] + ToLe(9, 2)
    + ToLe(18, 2) + ToLe(2, 2) + ToLe(0, 4) + ToLe(0, 4)
  }

  function ExtendedBlock(): (s: seq<byte>)
    ensures |s| == 26
  {
    [0, 0, 0x29] + ToLe(0x12345678, 4) + VolumeLabel() + [70, 65, 84, 49, 50, 32, 32, 32]
  }

  function BootSector(): (s: seq<byte>)
    ensures |s| == SECTOR
  {
    [0xEB, 0x3C, 0x90] + [77, 83, 87, 73, 78, 52, 46, 49] + ParameterBlock() + ExtendedBlock()
    + Zeros(448) + [0x55, 0xAA]
  }

  function LabelBytes(): (s: seq<byte>)
    ensures |s| == 32
  {
    VolumeLabel() + [ATTR_VOLUME] + Zeros(20)
  }

  /** The 32-byte directory record of a file. */
  function DirBytes(raw: Name, cluster: nat, size: nat): (s: seq<byte>)
    requires |raw| == 11
    ensures |s| == 32
  {
    raw + [ATTR_ARCHIVE] + Zeros(10) + Tail(cluster, size)
  }

  /** Time, date, first cluster and size. */
  function Tail(cluster: nat, size: nat): (s: seq<byte>)
    ensures |s| == 10
  {
    ToLe(0, 2) + ToLe(0, 2) + ToLe(cluster, 2) + ToLe(size, 4)
  }

  function RecordOf(files: seq<File>, i: nat): (s: seq<byte>)
    requires i < |files|
    ensures |s| == 32
  {
    DirBytes(Packed(files[i].name), Start(files, i), |files[i].data|)
  }

  /** The directory slot of the `i`-th file; the label takes the first one. */
  function Slot(root: seq<byte>, i: nat): (s: seq<byte>)
    requires |root| == ROOT_BYTES && i < ROOT_ENTRIES - 1
    ensures |s| == 32
  {
    root[32 * i + 32..32 * i + 64]
  }

  ghost predicate RootOf(root: seq<byte>, files: seq<File>) {
    && |root| == ROOT_BYTES
    && |files| < ROOT_ENTRIES
    && root[..32] == LabelBytes()
    && (forall i :: 0 <= i < |files| ==> Slot(root, i) == RecordOf(files, i))
    && (forall p :: 32 * (|files| + 1) <= p < ROOT_BYTES ==> root[p] == 0)
  }

  ghost predicate DataOf(data: seq<byte>, files: seq<File>) {
    && |data| == DATA_BYTES
    && forall p :: 0 <= p < DATA_BYTES ==> data[p] == DataAt(files, p)
  }

  /** The image of a list of files, byte for byte. */
  ghost predicate IsImage(image: seq<byte>, files: seq<File>) {
    && |image| == IMAGE_BYTES
    && image[..FAT_AT] == BootSector()
    && TableOf(image[FAT_AT..FAT_AT + FAT_BYTES], files)
    && image[FAT_AT + FAT_BYTES..ROOT_AT] == image[FAT_AT..FAT_AT + FAT_BYTES]
    && RootOf(image[ROOT_AT..DATA_AT], files)
    && DataOf(image[DATA_AT..], files)
  }

  /** Overwrites part of a buffer. */
  method Overwrite(a: array<byte>, at: nat, s: seq<byte>)
    requires at + |s| <= a.Length
    modifies a
    ensures Stored(old(a[..]), at, s, a[..])
  {
    forall k | 0 <= k < |s| {
      a[at + k] := s[k];
    }
  }

  /** Links the clusters of one file and marks the last of them. */
  method FillChain(fat: array<byte>, start: nat, count: nat) returns (current: nat)
    requires fat.Length == FAT_BYTES && count >= 1 && start + count <= FAT_ENTRIES
    modifies fat
    ensures current == start + count
    ensures forall n :: 0 <= n < FAT_ENTRIES ==>
              GetEntry(fat[..], n) ==
              if start <= n < start + count then Link(start, count, n) else GetEntry(old(fat[..]), n)
  {
    hide SetEntry, GetEntry;
    current := start;
    for i := 0 to count - 1
      invariant current == start + i
      invariant forall n :: 0 <= n < FAT_ENTRIES ==>
                  GetEntry(fat[..], n) == if start <= n < start + i then n + 1 else GetEntry(old(fat[..]), n)
    {
      ghost var before := fat[..];
      var nextCluster := current + 1;
      StoreNext(fat, current, nextCluster);
      forall n | 0 <= n < FAT_ENTRIES
        ensures GetEntry(fat[..], n) == if n == current then nextCluster else GetEntry(before, n)
      {
        SetThenGet(before, current, nextCluster, n);
      }
      current := nextCluster;
    }
    ghost var before := fat[..];
    StoreEnd(fat, current);
    forall n | 0 <= n < FAT_ENTRIES
      ensures GetEntry(fat[..], n) == if n == current then END_OF_CHAIN else GetEntry(before, n)
    {
      SetThenGet(before, current, END_OF_CHAIN, n);
    }
    current := current + 1;
  }

  /** Writes the directory record of a file into a slot that is still zero. */
  method WriteRecord(root: array<byte>, at: nat, raw: Name, cluster: nat, size: nat)
    requires |raw| == 11 && at + 32 <= root.Length
    requires forall p :: at <= p < at + 32 ==> root[p] == 0
    modifies root
    ensures Stored(old(root[..]), at, DirBytes(raw, cluster, size), root[..])
  {
    hide Tail;
    Overwrite(root, at, raw);
    root[at + 11] := ATTR_ARCHIVE;
    Overwrite(root, at + 22, Tail(cluster, size));
  }

  lemma TableGrows(was: seq<byte>, now: seq<byte>, files: seq<File>, f: File)
    requires Fits(files + [f]) && TableOf(was, files) && |now| == FAT_BYTES
    requires forall n :: 0 <= n < FAT_ENTRIES ==>
               var start := 2 + TotalClusters(files);
               GetEntry(now, n) ==
               if start <= n < start + Clusters(f) then Link(start, Clusters(f), n) else GetEntry(was, n)
    ensures TableOf(now, files + [f])
  {
    hide GetEntry, Clusters;
    var more := files + [f];
    assert more[..|more| - 1] == files;
  }

  lemma RootGrows(was: seq<byte>, now: seq<byte>, files: seq<File>, f: File)
    requires Fits(files + [f]) && RootOf(was, files)
    requires Stored(was, 32 * (|files| + 1), RecordOf(files + [f], |files|), now)
    ensures RootOf(now, files + [f])
  {
    hide LabelBytes, Packed, TotalClusters, Clusters, Slot, DirBytes, Stored;
    var more, m := files + [f], |files|;
    SlotsAfter(was, now, m, RecordOf(more, m));
    forall i | 0 <= i < m
      ensures Slot(now, i) == RecordOf(more, i)
    {
      assert more[..i] == files[..i];
    }
  }

  lemma SlotsAfter(was: seq<byte>, now: seq<byte>, m: nat, s: seq<byte>)
    requires |was| == ROOT_BYTES && |s| == 32 && m < ROOT_ENTRIES - 1 && Stored(was, 32 * (m + 1), s, now)
    ensures |now| == ROOT_BYTES && Slot(now, m) == s
    ensures forall i :: 0 <= i < m ==> Slot(now, i) == Slot(was, i)
    ensures now[..32] == was[..32]
    ensures forall p :: 32 * (m + 2) <= p < ROOT_BYTES ==> now[p] == was[p]
  {
    forall i | 0 <= i < m
      ensures Slot(now, i) == Slot(was, i)
    {
      SliceKept(was, 32 * (m + 1), s, now, 32 * i + 32, 32 * i + 64);
    }
    StoredSlice(was, 32 * (m + 1), s, now);
    SliceKept(was, 32 * (m + 1), s, now, 0, 32);
  }

  lemma StoredSlice(was: seq<byte>, at: nat, s: seq<byte>, now: seq<byte>)
    requires Stored(was, at, s, now)
    ensures now[at..at + |s|] == s
  {
  }

  lemma SliceKept(was: seq<byte>, at: nat, s: seq<byte>, now: seq<byte>, lo: nat, hi: nat)
    requires Stored(was, at, s, now) && lo <= hi <= at
    ensures now[lo..hi] == was[lo..hi]
  {
  }

  lemma DataGrows(was: seq<byte>, now: seq<byte>, files: seq<File>, f: File)
    requires Fits(files + [f]) && DataOf(was, files)
    requires Stored(was, TotalClusters(files) * SECTOR, f.data, now)
    ensures DataOf(now, files + [f])
  {
    var more := files + [f];
    forall p | 0 <= p < DATA_BYTES
      ensures now[p] == DataAt(more, p)
    {
      LastData(files, f, p);
      hide DataAt, TotalClusters, Fits;
    }
  }

  lemma LastData(files: seq<File>, f: File, p: nat)
    ensures var at := TotalClusters(files) * SECTOR;
            DataAt(files + [f], p) == if at <= p < at + |f.data| then f.data[p - at] else DataAt(files, p)
  {
    hide TotalClusters;
    var more, m := files + [f], |files|;
    assert more[..m] == files && more[m] == f;
  }

  /** Adds one file: its chain, its directory record and its bytes. */
  method AddFile(fat: array<byte>, root: array<byte>, data: array<byte>, current: nat, entryOffset: nat, cursor: nat,
      ghost files: seq<File>, f: File)
    returns (afterLast: nat)
    requires fat != root && root != data && fat != data
    requires Fits(files + [f])
    requires TableOf(fat[..], files) && RootOf(root[..], files) && DataOf(data[..], files)
    requires current == 2 + TotalClusters(files) && entryOffset == 32 * (|files| + 1)
    requires cursor == TotalClusters(files) * SECTOR
    modifies fat, root, data
    ensures TableOf(fat[..], files + [f]) && RootOf(root[..], files + [f]) && DataOf(data[..], files + [f])
    ensures afterLast == current + Clusters(f)
  {
    ghost var fat0, root0, data0 := fat[..], root[..], data[..];
    Added(root0, files, f);
    hide TotalClusters, Clusters, EntryOf, GetEntry, DataAt, DirBytes, Packed, RecordOf;
    hide TableOf, RootOf, DataOf, Stored;
    afterLast := FillChain(fat, current, Clusters(f));
    TableGrows(fat0, fat[..], files, f);
    WriteRecord(root, entryOffset, Packed(f.name), current, |f.data|);
    RootGrows(root0, root[..], files, f);
    Overwrite(data, cursor, f.data);
    DataGrows(data0, data[..], files, f);
  }

  lemma Added(root: seq<byte>, files: seq<File>, f: File)
    requires Fits(files + [f]) && RootOf(root, files)
    ensures TotalClusters(files) + Clusters(f) <= DATA_SECTORS
    ensures RecordOf(files + [f], |files|) == DirBytes(Packed(f.name), 2 + TotalClusters(files), |f.data|)
    ensures |files| < ROOT_ENTRIES - 1 && |root| == ROOT_BYTES
    ensures forall p :: 32 * (|files| + 1) <= p < 32 * (|files| + 2) ==> root[p] == 0
    ensures TotalClusters(files) * SECTOR + |f.data| <= DATA_BYTES
  {
    hide LabelBytes, Slot, RecordOf;
    assert (files + [f])[..|files|] == files;
    RecordAdded(files, f);
  }

  lemma RecordAdded(files: seq<File>, f: File)
    ensures RecordOf(files + [f], |files|) == DirBytes(Packed(f.name), 2 + TotalClusters(files), |f.data|)
  {
    hide DirBytes, Packed, TotalClusters;
    var more, m := files + [f], |files|;
    assert more[..m] == files;
    assert Start(more, m) == 2 + TotalClusters(files);
    hide Start;
    assert more[m] == f;
  }

  /** Builds the whole image: one pass over the files with running cursors. */
  method CreateFat12Floppy(files: seq<File>) returns (image: seq<byte>)
    requires Fits(files)
    ensures IsImage(image, files)
  {
    var fat, root, data := EmptyAreas();
    var current, cursor, entryOffset := 2, 0, 32;
    for i := 0 to |files|
      invariant TableOf(fat[..], files[..i]) && RootOf(root[..], files[..i]) && DataOf(data[..], files[..i])
      invariant current == 2 + TotalClusters(files[..i]) && entryOffset == 32 * (i + 1)
      invariant cursor == TotalClusters(files[..i]) * SECTOR
    {
      var f := files[i];
      PrefixFits(files, i);
      assert files[..i] + [f] == files[..i + 1];
      hide TableOf, RootOf, DataOf;
      current := AddFile(fat, root, data, current, entryOffset, cursor, files[..i], f);
      assert files[..i + 1][..i] == files[..i];
      entryOffset := entryOffset + 32;
      cursor := cursor + Clusters(f) * SECTOR;
    }
    assert files[..|files|] == files;
    image := BootSector() + fat[..] + fat[..] + root[..] + data[..];
    Assembled(image, fat[..], root[..], data[..], files);
  }

  method EmptyAreas() returns (fat: array<byte>, root: array<byte>, data: array<byte>)
    ensures fresh(fat) && fresh(root) && fresh(data) && fat != root && root != data && fat != data
    ensures TableOf(fat[..], []) && RootOf(root[..], []) && DataOf(data[..], [])
  {
    fat := new byte[FAT_BYTES](_ => 0);
    fat[0], fat[1], fat[2] := 0xF0, 0xFF, 0xFF;
    root := new byte[ROOT_BYTES](_ => 0);
    Overwrite(root, 0, VolumeLabel());
    root[11] := ATTR_VOLUME;
    data := new byte[DATA_BYTES](_ => 0);
    EmptyTable(fat[..]);
  }

  lemma EmptyTable(fat: seq<byte>)
    requires |fat| == FAT_BYTES && fat[..3] == [0xF0, 0xFF, 0xFF]
    requires forall k :: 3 <= k < FAT_BYTES ==> fat[k] == 0
    ensures TableOf(fat, [])
  {
    assert fat[0] == 0xF0 && fat[1] == 0xFF && fat[2] == 0xFF;
    forall n | 0 <= n < FAT_ENTRIES
      ensures GetEntry(fat, n) == EntryOf([], n)
    {
      assert n >= 2 ==> EntryOffset(n) >= 3;
    }
  }

  lemma PrefixFits(files: seq<File>, i: nat)
    requires Fits(files) && i < |files|
    ensures Fits(files[..i + 1]) && TotalClusters(files[..i + 1]) == TotalClusters(files[..i]) + Clusters(files[i])
  {
    StartWithin(files, i);
    StartsGrow(files, i, i + 1);
  }

  lemma Assembled(image: seq<byte>, fat: seq<byte>, root: seq<byte>, data: seq<byte>, files: seq<File>)
    requires TableOf(fat, files) && RootOf(root, files) && DataOf(data, files)
    requires image == BootSector() + fat + fat + root + data
    ensures IsImage(image, files)
  {
    hide BootSector, EntryOf, GetEntry, DataAt, RecordOf, LabelBytes;
    assert |fat| == FAT_BYTES && |root| == ROOT_BYTES && |data| == DATA_BYTES;
    hide TableOf, RootOf, DataOf;
    assert image[..FAT_AT] == BootSector();
    assert image[FAT_AT..FAT_AT + FAT_BYTES] == fat && image[FAT_AT + FAT_BYTES..ROOT_AT] == fat;
    assert image[ROOT_AT..DATA_AT] == root && image[DATA_AT..] == data;
  }
}
