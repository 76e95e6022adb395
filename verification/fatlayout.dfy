/** Where the image builder puts each file of a FAT12 floppy, and the cluster
    chains that its table then holds. */
module FatLayout {
  import opened Bytes
  import opened FatTable
  import opened FatNames

  datatype File = File(name: Name, data: seq<byte>)

  const SECTOR: nat := 512
  const ROOT_ENTRIES: nat := 224
  const ROOT_BYTES: nat := 7168
  const DATA_SECTORS: nat := 2847
  const DATA_BYTES: nat := 1457664

  /** The clusters reserved for a file: an empty file still owns one. */
  function Clusters(f: File): (c: nat)
    ensures c >= 1 && |f.data| <= c * SECTOR
    ensures c * SECTOR < |f.data| + SECTOR || c == 1
  {
    var c := (|f.data| + SECTOR - 1) / SECTOR;
    if c == 0 then 1 else c
  }

  function TotalClusters(files: seq<File>): nat {
    if files == [] then 0 else TotalClusters(files[..|files| - 1]) + Clusters(files[|files| - 1])
  }

  /** The first cluster of the `i`-th file. */
  function Start(files: seq<File>, i: nat): nat
    requires i <= |files|
  {
    2 + TotalClusters(files[..i])
  }

  predicate Plain(n: Name) {
    forall k :: 0 <= k < |n| ==> 0 < n[k] < 128
  }

  /** The directory has room besides the label entry, and the data area holds every cluster. */
  predicate Fits(files: seq<File>) {
    && |files| < ROOT_ENTRIES
    && TotalClusters(files) <= DATA_SECTORS
    && forall i :: 0 <= i < |files| ==> Plain(files[i].name)
  }

  lemma {:induction false} StartsGrow(files: seq<File>, i: nat, j: nat)
    requires i < j <= |files|
    ensures Start(files, i) + Clusters(files[i]) <= Start(files, j)
    ensures j == i + 1 ==> Start(files, j) == Start(files, i) + Clusters(files[i])
    decreases j
  {
    assert files[..j][..j - 1] == files[..j - 1];
    if i + 1 < j {
      StartsGrow(files, i, j - 1);
    }
  }

  lemma StartWithin(files: seq<File>, i: nat)
    requires i < |files|
    ensures 2 <= Start(files, i) && Start(files, i) + Clusters(files[i]) <= 2 + TotalClusters(files)
  {
    StartsGrow(files, i, |files|);
    assert files[..|files|] == files;
  }

  /** The entry of a chain that occupies `count` clusters from `start`. */
  function Link(start: nat, count: nat, n: nat): nat {
    if n + 1 < start + count then n + 1 else END_OF_CHAIN
  }

  /** Entry `n` of the table for these files. */
  function EntryOf(files: seq<File>, n: nat): nat {
    if n == 0 then 0xFF0
    else if n == 1 then END_OF_CHAIN
    else if files == [] then 0
    else
      var rest, last := files[..|files| - 1], files[|files| - 1];
      var start := 2 + TotalClusters(rest);
      if start <= n < start + Clusters(last) then Link(start, Clusters(last), n) else EntryOf(rest, n)
  }

  lemma {:induction false} EntryInFile(files: seq<File>, i: nat, n: nat)
    requires i < |files| && Start(files, i) <= n < Start(files, i) + Clusters(files[i])
    ensures EntryOf(files, n) == Link(Start(files, i), Clusters(files[i]), n)
    decreases |files|
  {
    var last := |files| - 1;
    var rest := files[..last];
    if i < last {
      StartsGrow(files, i, last);
      assert rest[..i] == files[..i];
      EntryInFile(rest, i, n);
    }
  }

  /** Entries past the last file are free. */
  lemma {:induction false} EntryPastFiles(files: seq<File>, n: nat)
    requires n >= 2 + TotalClusters(files)
    ensures EntryOf(files, n) == 0
  {
    if files != [] {
      EntryPastFiles(files[..|files| - 1], n);
    }
  }

  ghost predicate TableOf(fat: seq<byte>, files: seq<File>) {
    && |fat| == FAT_BYTES
    && forall n :: 0 <= n < FAT_ENTRIES ==> GetEntry(fat, n) == EntryOf(files, n)
  }

  /** `cs` is a complete chain of the table: every cluster leads to the next and the last one ends it. */
  ghost predicate IsChain(fat: seq<byte>, cs: seq<nat>)
    requires |fat| == FAT_BYTES
  {
    && cs != []
    && (forall k :: 0 <= k < |cs| ==> cs[k] < FAT_ENTRIES)
    && (forall k :: 0 <= k < |cs| - 1 ==> GetEntry(fat, cs[k]) == cs[k + 1])
    && GetEntry(fat, cs[|cs| - 1]) == END_OF_CHAIN
  }

  function Run(start: nat, count: nat): (cs: seq<nat>)
    ensures |cs| == count
    ensures forall k :: 0 <= k < count ==> cs[k] == start + k
  {
    seq(count, k requires 0 <= k < count => start + k)
  }

  /** Decoding the table from a file's first cluster gives exactly its consecutive clusters. */
  lemma ChainOfFile(fat: seq<byte>, files: seq<File>, i: nat, cs: seq<nat>)
    requires Fits(files) && TableOf(fat, files) && i < |files|
    ensures (IsChain(fat, cs) && cs[0] == Start(files, i)) <==> cs == Run(Start(files, i), Clusters(files[i]))
  {
    var start, count := Start(files, i), Clusters(files[i]);
    StartWithin(files, i);
    forall n | start <= n < start + count
      ensures GetEntry(fat, n) == Link(start, count, n)
    {
      EntryInFile(files, i, n);
    }
    hide EntryOf, GetEntry, TotalClusters, Start, Clusters, TableOf, Fits;
    if IsChain(fat, cs) && cs[0] == start {
      ChainIsRun(fat, start, count, cs, |cs| - 1);
      assert cs[|cs| - 1] == start + |cs| - 1;
      assert |cs| == count by {
        assert GetEntry(fat, start + |cs| - 1) == Link(start, count, start + |cs| - 1);
      }
    }
    if cs == Run(start, count) {
      assert forall k :: 0 <= k < |cs| ==> GetEntry(fat, cs[k]) == Link(start, count, start + k);
    }
  }

  lemma {:induction false} ChainIsRun(fat: seq<byte>, start: nat, count: nat, cs: seq<nat>, k: nat)
    requires |fat| == FAT_BYTES && count >= 1 && start + count <= FAT_ENTRIES
    requires forall n {:trigger GetEntry(fat, n)} :: start <= n < start + count ==>
               GetEntry(fat, n) == Link(start, count, n)
    requires IsChain(fat, cs) && cs[0] == start && k < |cs|
    ensures k < count && forall j :: 0 <= j <= k ==> cs[j] == start + j
    decreases k
  {
    hide GetEntry;
    if k > 0 {
      ChainIsRun(fat, start, count, cs, k - 1);
      assert GetEntry(fat, cs[k - 1]) == cs[k] == Link(start, count, start + k - 1);
    }
  }

  /** Chains of different files share no cluster. */
  lemma ChainsDisjoint(files: seq<File>, i: nat, j: nat)
    requires i < |files| && j < |files| && i != j
    ensures forall c :: !(c in Run(Start(files, i), Clusters(files[i])) && c in Run(Start(files, j), Clusters(files[j])))
  {
    StartsGrow(files, if i < j then i else j, if i < j then j else i);
  }

  /** The byte at offset `p` of the data area. */
  function DataAt(files: seq<File>, p: nat): byte {
    if files == [] then 0
    else
      var rest, last := files[..|files| - 1], files[|files| - 1];
      var at := TotalClusters(rest) * SECTOR;
      if at <= p < at + |last.data| then last.data[p - at] else DataAt(rest, p)
  }

  lemma {:induction false} DataInFile(files: seq<File>, i: nat, k: nat)
    requires i < |files| && k < |files[i].data|
    ensures DataAt(files, (Start(files, i) - 2) * SECTOR + k) == files[i].data[k]
    decreases |files|
  {
    var last := |files| - 1;
    var rest := files[..last];
    if i < last {
      StartsGrow(files, i, last);
      assert rest[..i] == files[..i];
      DataInFile(rest, i, k);
    }
  }

  lemma {:induction false} DataPastFiles(files: seq<File>, p: nat)
    requires p >= TotalClusters(files) * SECTOR
    ensures DataAt(files, p) == 0
  {
    if files != [] {
      DataPastFiles(files[..|files| - 1], p);
    }
  }
}
