/** The kernel reads back exactly what the image builder packed. */
module FatRoundTrip {
  import opened Bits
  import opened Bytes
  import opened Frames
  import opened FatNames
  import opened FatTable
  import opened FatLayout
  import opened FatImage
  import opened FatVolume

  lemma SliceOfSlice(s: seq<byte>, lo: nat, hi: nat, a: nat, b: nat)
    requires lo <= hi <= |s| && a <= b <= hi - lo
    ensures s[lo..hi][a..b] == s[lo + a..lo + b]
  {
    var mid := s[lo..hi];
    assert forall k :: a <= k < b ==> mid[k] == s[lo + k];
  }

  lemma BlockInBoot()
    ensures BootSector()[11..36] == ParameterBlock()
  {
    hide ParameterBlock, ExtendedBlock, Zeros;
  }

  lemma HalfValues()
    ensures Le(ToLe(SECTOR, 2)) == SECTOR && Le(ToLe(1, 2)) == 1 && Le(ToLe(ROOT_ENTRIES, 2)) == ROOT_ENTRIES
    ensures Le(ToLe(9, 2)) == 9
  {
    assert Pow256(2) == 65536;
    hide Pow256, ToLe, Le;
    LeRoundTrip(SECTOR, 2);
    LeRoundTrip(1, 2);
    LeRoundTrip(ROOT_ENTRIES, 2);
    LeRoundTrip(9, 2);
  }

  lemma BlockFields()
    ensures var b := ParameterBlock();
            && b[..2] == ToLe(SECTOR, 2) && b[2] == 1 && b[3..5] == ToLe(1, 2) && b[5] == 2
            && b[6..8] == ToLe(ROOT_ENTRIES, 2) && b[8..10] == ToLe(2880, 2) && b[10] == 0xF0 && b[11..13] == ToLe(9, 2)
            && b[13..15] == ToLe(18, 2) && b[15..17] == ToLe(2, 2)
  {
    hide ToLe;
  }

  /** The reader's geometry of a built image is the builder's. */
  lemma Geometry(image: seq<byte>)
    requires |image| == IMAGE_BYTES && image[..FAT_AT] == BootSector()
    ensures BytesPerSector(image) == SECTOR && image[13] == 1 && RootEntries(image) == ROOT_ENTRIES
    ensures RootOffset(image) == ROOT_AT && FirstDataSector(image) == 33 && HasRoot(image)
  {
    hide BootSector, ParameterBlock, ToLe, Le;
    BlockInBoot();
    BlockFields();
    HalfValues();
    SliceOfSlice(image, 0, FAT_AT, 11, 36);
    assert image[11..36] == ParameterBlock();
    SliceOfSlice(image, 11, 36, 0, 2);
    SliceOfSlice(image, 11, 36, 3, 5);
    SliceOfSlice(image, 11, 36, 6, 8);
    SliceOfSlice(image, 11, 36, 11, 13);
    assert image[13] == image[11..36][2] && image[16] == image[11..36][5];
  }

  /** A built image is a 1.44 MB floppy: its parameter block, 2880 sectors of which 18 make a
      track on each of two sides, the media byte in the block and in both tables, and the
      boot signature. */
  lemma FloppyFormat(image: seq<byte>, files: seq<File>)
    requires IsImage(image, files)
    ensures |image| == 2880 * 512 && HoldsBpb(image, Bpb(512, 1, 1, 2, 224, 9))
    ensures HoldsHalf(image, 19, 2880) && image[21] == 0xF0 && HoldsHalf(image, 24, 18) && HoldsHalf(image, 26, 2)
    ensures GetEntry(image[512..5120], 0) == 0xFF0 && GetEntry(image[512..5120], 1) == 0xFFF
    ensures image[5120..9728] == image[512..5120] && image[510] == 0x55 && image[511] == 0xAA
  {
    hide BootSector, ParameterBlock, ToLe, GetEntry, RootOf, DataOf;
    BlockInBoot();
    BlockFields();
    SignatureInBoot();
    SliceOfSlice(image, 0, FAT_AT, 11, 36);
    assert image[11..36] == ParameterBlock();
    SliceOfSlice(image, 11, 36, 0, 2);
    SliceOfSlice(image, 11, 36, 3, 5);
    SliceOfSlice(image, 11, 36, 6, 8);
    SliceOfSlice(image, 11, 36, 8, 10);
    SliceOfSlice(image, 11, 36, 11, 13);
    SliceOfSlice(image, 11, 36, 13, 15);
    SliceOfSlice(image, 11, 36, 15, 17);
    assert image[13] == image[11..36][2] && image[16] == image[11..36][5] && image[21] == image[11..36][10];
    assert image[510] == image[..FAT_AT][510] && image[511] == image[..FAT_AT][511];
    assert EntryOf(files, 0) == 0xFF0 && EntryOf(files, 1) == 0xFFF;
  }

  lemma SignatureInBoot()
    ensures BootSector()[510] == 0x55 && BootSector()[511] == 0xAA
  {
    hide ParameterBlock, ExtendedBlock, Zeros;
  }

  /** A record written by the builder is parsed to the same fields. */
  lemma RecordParsed(raw: Name, cluster: nat, size: nat)
    requires |raw| == 11 && cluster < 0x1_0000 && size < 0x1_0000_0000
    ensures ParseEntry(DirBytes(raw, cluster, size)) == Entry(raw, ATTR_ARCHIVE, cluster, size)
  {
    hide ToLe, Le, Zeros, Tail, DirBytes;
    var s := DirBytes(raw, cluster, size);
    RecordParts(raw, cluster, size);
    SliceOfSlice(s, 22, 32, 4, 6);
    SliceOfSlice(s, 22, 32, 6, 10);
    TailParsed(cluster, size);
  }

  lemma RecordParts(raw: Name, cluster: nat, size: nat)
    requires |raw| == 11
    ensures var s := DirBytes(raw, cluster, size);
            s[..11] == raw && s[11] == ATTR_ARCHIVE && s[22..32] == Tail(cluster, size)
  {
    hide Tail, Zeros;
  }

  lemma TailParsed(cluster: nat, size: nat)
    requires cluster < 0x1_0000 && size < 0x1_0000_0000
    ensures Le(Tail(cluster, size)[4..6]) == cluster && Le(Tail(cluster, size)[6..10]) == size
  {
    hide ToLe, Le;
    assert Pow256(2) == 0x1_0000 && Pow256(4) == 0x1_0000_0000;
    hide Pow256;
    LeRoundTrip(cluster, 2);
    LeRoundTrip(size, 4);
    assert Tail(cluster, size)[4..6] == ToLe(cluster, 2) && Tail(cluster, size)[6..10] == ToLe(size, 4);
  }

  function EntryFor(files: seq<File>, i: nat): (e: Entry)
    requires i < |files|
    ensures |e.raw| == 11
  {
    Entry(Packed(files[i].name), ATTR_ARCHIVE, Start(files, i), |files[i].data|)
  }

  /** A packed name never looks like an unused or a deleted entry. */
  lemma PackedIsLive(n: Name)
    requires Plain(n)
    ensures 0 < Packed(n)[0] < 128
  {
    hide FirstDot;
    var u := Upper(n);
    assert Packed(n)[0] == Field(BeforeDot(u), 8)[0];
    assert |BeforeDot(u)| > 0 ==> Field(BeforeDot(u), 8)[0] == u[0];
  }

  lemma ArchiveIsListed()
    ensures And(ATTR_ARCHIVE, 0x08) == 0 && And(ATTR_ARCHIVE, 0x10) == 0 && And(ATTR_VOLUME, 0x08) != 0
  {
    hide And;
    assert Pow2(3) == 8 && Pow2(4) == 16 && Pow2(1) == 2;
    AndField(ATTR_ARCHIVE, 3, 1);
    AndField(ATTR_ARCHIVE, 4, 1);
    AndField(ATTR_VOLUME, 3, 1);
  }

  /** The directory slots of a built image: the label, the files in order, and an unused slot. */
  lemma SlotOfImage(image: seq<byte>, files: seq<File>, i: nat)
    requires Fits(files) && IsImage(image, files) && HasRoot(image) && i < RootEntries(image) == ROOT_ENTRIES
    requires RootOffset(image) == ROOT_AT
    ensures i == 0 ==> EntryAt(image, i).raw == VolumeLabel() && EntryAt(image, i).attr == ATTR_VOLUME
    ensures 0 < i <= |files| ==> EntryAt(image, i) == EntryFor(files, i - 1)
    ensures i == |files| + 1 ==> EntryAt(image, i).raw[0] == 0
  {
    hide RootOffset, RootEntries, BootSector, TotalClusters, Clusters, HasRoot, TableOf, DataOf, DirBytes, Packed,
      VolumeLabel, RecordOf, LabelBytes, Zeros, Slot;
    var root := image[ROOT_AT..DATA_AT];
    SliceOfSlice(image, ROOT_AT, DATA_AT, 32 * i, 32 * i + 32);
    if i == 0 {
      LabelParsed();
    } else if i <= |files| {
      SlotParsed(root, files, i - 1);
    } else if i == |files| + 1 {
      assert root[32 * i..32 * i + 32][0] == 0;
    }
  }

  lemma LabelParsed()
    ensures ParseEntry(LabelBytes()).raw == VolumeLabel() && ParseEntry(LabelBytes()).attr == ATTR_VOLUME
  {
    hide VolumeLabel, Zeros, Le;
  }

  lemma SlotParsed(root: seq<byte>, files: seq<File>, i: nat)
    requires Fits(files) && RootOf(root, files) && i < |files|
    ensures ParseEntry(root[32 * (i + 1)..32 * (i + 1) + 32]) == EntryFor(files, i)
  {
    hide DirBytes, Packed, LabelBytes, TotalClusters, Clusters, Le, ParseEntry;
    StartWithin(files, i);
    assert root[32 * (i + 1)..32 * (i + 1) + 32] == Slot(root, i) == RecordOf(files, i);
    SizeWithin(files, i);
    RecordParsed(Packed(files[i].name), Start(files, i), |files[i].data|);
  }

  lemma SizeWithin(files: seq<File>, i: nat)
    requires Fits(files) && i < |files|
    ensures (Start(files, i) - 2) * SECTOR + |files[i].data| <= DATA_BYTES
  {
    StartWithin(files, i);
  }

  /** The reader lists exactly the builder's files, in order. */
  lemma {:induction false} LiveOfImage(image: seq<byte>, files: seq<File>, i: nat)
    requires Fits(files) && IsImage(image, files) && HasRoot(image) && RootEntries(image) == ROOT_ENTRIES
    requires RootOffset(image) == ROOT_AT && 1 <= i <= |files| + 1
    ensures LiveFrom(image, i) ==
            seq(|files| + 1 - i, k requires 0 <= k < |files| + 1 - i => EntryFor(files, i - 1 + k))
    decreases |files| + 1 - i
  {
    hide RootOffset, HasRoot, EntryFor, EntryAt, TotalClusters, And, IsImage, RootEntries, LiveFrom;
    if i < ROOT_ENTRIES {
      SlotOfImage(image, files, i);
      LiveStep(image, i);
    } else {
      LiveEnd(image, []);
    }
    if i <= |files| {
      LiveOfImage(image, files, i + 1);
      FileIsListed(files, i - 1);
    }
  }

  lemma FileIsListed(files: seq<File>, i: nat)
    requires Fits(files) && i < |files|
    ensures !Skipped(EntryFor(files, i)) && EntryFor(files, i).raw[0] != 0 && EntryFor(files, i).cluster >= 2
  {
    hide And, Packed;
    PackedIsLive(files[i].name);
    ArchiveIsListed();
  }

  /** The first file from the `i`-th on whose packed name is shown as `q`. */
  function FirstNamed(files: seq<File>, i: nat, q: Name): Option<seq<byte>>
    requires i <= |files|
    decreases |files| - i
  {
    if i == |files| then None
    else if Display(Packed(files[i].name)) == q then Some(files[i].data)
    else FirstNamed(files, i + 1, q)
  }

  lemma BytesOfFile(image: seq<byte>, files: seq<File>, i: nat)
    requires Fits(files) && IsImage(image, files) && i < |files|
    requires HasRoot(image) && BytesPerSector(image) == SECTOR && image[13] == 1 && FirstDataSector(image) == 33
    ensures Stores(image, EntryFor(files, i)) && EntryFor(files, i).cluster >= 2
    ensures FileBytes(image, EntryFor(files, i)) == files[i].data
  {
    hide BootSector, TableOf, RootOf, HasRoot, FirstDataSector, BytesPerSector, TotalClusters, Packed;
    SizeWithin(files, i);
    var at := (Start(files, i) - 2) * SECTOR;
    assert FileOffset(image, Start(files, i)) == DATA_AT + at;
    forall k | 0 <= k < |files[i].data|
      ensures image[DATA_AT + at + k] == files[i].data[k]
    {
      DataInFile(files, i, k);
      assert image[DATA_AT..][at + k] == DataAt(files, at + k);
    }
    SliceIs(image, DATA_AT + at, files[i].data);
  }

  lemma SliceIs(image: seq<byte>, at: nat, s: seq<byte>)
    requires at + |s| <= |image| && forall k :: 0 <= k < |s| ==> image[at + k] == s[k]
    ensures image[at..at + |s|] == s
  {
  }

  lemma {:induction false} MatchInImage(image: seq<byte>, files: seq<File>, es: seq<Entry>, i: nat, q: Name)
    requires Fits(files) && IsImage(image, files) && i <= |files|
    requires HasRoot(image) && BytesPerSector(image) == SECTOR && image[13] == 1 && FirstDataSector(image) == 33
    requires |es| == |files| - i && forall k :: 0 <= k < |es| ==> es[k] == EntryFor(files, i + k)
    ensures AllStored(image, es) && FirstMatch(image, es, q) == FirstNamed(files, i, q)
    decreases |files| - i
  {
    hide IsImage, HasRoot, BytesPerSector, FirstDataSector, Stores, FileBytes, Display, Packed, Start;
    if i < |files| {
      BytesOfFile(image, files, i);
      assert es[0] == EntryFor(files, i + 0);
      MatchInImage(image, files, es[1..], i + 1, q);
      assert forall k :: 0 < k < |es| ==> es[k] == es[1..][k - 1];
    }
  }

  /** The reader lists the files of a built image in order, with their sizes. */
  lemma ListingOfImage(image: seq<byte>, files: seq<File>)
    requires Fits(files) && IsImage(image, files)
    ensures HasRoot(image) && LiveFrom(image, 0) == seq(|files|, k requires 0 <= k < |files| => EntryFor(files, k))
  {
    Geometry(image);
    SlotOfImage(image, files, 0);
    LabelIsSkipped(EntryAt(image, 0));
    hide RootOffset, EntryAt, TotalClusters, IsImage, RootEntries, LiveFrom, EntryFor, HasRoot, Skipped;
    LiveStep(image, 0);
    LiveOfImage(image, files, 1);
  }

  lemma LabelIsSkipped(e: Entry)
    requires |e.raw| == 11 && e.raw == VolumeLabel() && e.attr == ATTR_VOLUME
    ensures Skipped(e) && e.raw[0] != 0
  {
    hide And;
    ArchiveIsListed();
  }

  /** The writer and reader round trip: looking up any name in the image that the builder
      packed gives the bytes of the first file shown under that name, or nothing. */
  lemma RoundTrip(image: seq<byte>, files: seq<File>, q: Name)
    requires Fits(files) && IsImage(image, files)
    ensures Mountable(image) && Lookup(image, q) == FirstNamed(files, 0, q)
  {
    Geometry(image);
    ListingOfImage(image, files);
    var es := LiveFrom(image, 0);
    hide IsImage, LiveFrom, FirstMatch, EntryFor, BytesPerSector, FirstDataSector, HasRoot, TotalClusters;
    MatchInImage(image, files, es, 0, q);
  }

  /** A name is missing exactly when no packed name is shown as it. */
  lemma {:induction false} MissingIffNotShown(files: seq<File>, i: nat, q: Name)
    requires i <= |files|
    ensures FirstNamed(files, i, q) == None <==>
            forall j :: i <= j < |files| ==> Display(Packed(files[j].name)) != q
    decreases |files| - i
  {
    hide Display, Packed;
    if i < |files| {
      MissingIffNotShown(files, i + 1, q);
    }
  }

  /** A name that is not an 8.3 name is found in no image, whatever was packed into it. */
  lemma LongNameIsMissing(image: seq<byte>, files: seq<File>, q: Name)
    requires Fits(files) && IsImage(image, files) && !Short(q)
    ensures Mountable(image) && Lookup(image, Upper(q)) == None
  {
    RoundTrip(image, files, Upper(q));
    UpperShort(q);
    hide Mountable, IsImage, Display, Packed, Short, Fits, Upper;
    forall j | 0 <= j < |files|
      ensures Display(Packed(files[j].name)) != Upper(q)
    {
      ShownIsShort(files[j].name);
    }
    MissingIffNotShown(files, 0, Upper(q));
  }

  /** Every file can be read back under its own name. */
  ghost predicate AllReadBack(image: seq<byte>, files: seq<File>)
    requires Mountable(image)
  {
    forall i :: 0 <= i < |files| ==> Lookup(image, Upper(files[i].name)) == Some(files[i].data)
  }

  /** All names are 8.3 names, and files that agree in name up to letter case agree in contents. */
  predicate NamesTellApart(files: seq<File>) {
    && (forall i :: 0 <= i < |files| ==> Short(files[i].name))
    && (forall i, j :: 0 <= i < |files| && 0 <= j < |files| && Upper(files[i].name) == Upper(files[j].name) ==>
          files[i].data == files[j].data)
  }

  /** Every file can be read back under its own name if and only if all names are 8.3 names
      and no two files of the same name, up to letter case, differ. */
  lemma EveryFileReadsBackIff(image: seq<byte>, files: seq<File>)
    requires Fits(files) && IsImage(image, files)
    ensures Mountable(image) && (AllReadBack(image, files) <==> NamesTellApart(files))
  {
    RoundTrip(image, files, []);
    hide Mountable, IsImage, Display, Packed, Short, Fits, Lookup, Upper;
    if AllReadBack(image, files) {
      forall i | 0 <= i < |files|
        ensures Short(files[i].name)
      {
        if !Short(files[i].name) {
          LongNameIsMissing(image, files, files[i].name);
        }
      }
    }
    if NamesTellApart(files) {
      forall i | 0 <= i < |files|
        ensures Lookup(image, Upper(files[i].name)) == Some(files[i].data)
      {
        RoundTrip(image, files, Upper(files[i].name));
        NameFindsFile(files, 0, i);
      }
    }
  }

  lemma {:induction false} NameFindsFile(files: seq<File>, from: nat, i: nat)
    requires from <= i < |files| && NamesTellApart(files)
    ensures FirstNamed(files, from, Upper(files[i].name)) == Some(files[i].data)
    decreases i - from
  {
    hide Display, Packed, Short, Upper;
    assert Short(files[from].name);
    NameSurvives(files[from].name);
    if from < i {
      NameFindsFile(files, from + 1, i);
    }
  }
}
