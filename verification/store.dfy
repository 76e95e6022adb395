/** The layered file store in Live RAM mode: files written since boot and names
    deleted since boot, over a read-only FAT12 image. */
module FileStores {
  import opened Bytes
  import opened Frames
  import opened FatNames
  import opened FatLayout
  import opened FatImage
  import opened FatVolume
  import opened FatRoundTrip

  datatype Listed = Listed(name: Name, size: nat)

  const U32: nat := 0x1_0000_0000

  /** The layers, as values. */
  datatype Layers = Layers(image: Option<seq<byte>>, overlay: seq<File>, deleted: seq<Name>)

  function IndexOf(overlay: seq<File>, key: Name): (i: nat)
    ensures i <= |overlay|
    ensures i < |overlay| ==> overlay[i].name == key
    ensures forall k :: 0 <= k < i ==> overlay[k].name != key
  {
    if overlay == [] || overlay[0].name == key then 0 else 1 + IndexOf(overlay[1..], key)
  }

  function Without(overlay: seq<File>, key: Name): seq<File> {
    if overlay == [] then []
    else (if overlay[0].name == key then [] else [overlay[0]]) + Without(overlay[1..], key)
  }

  function Undeleted(deleted: seq<Name>, key: Name): seq<Name> {
    if deleted == [] then []
    else (if deleted[0] == key then [] else [deleted[0]]) + Undeleted(deleted[1..], key)
  }

  function FromOverlay(overlay: seq<File>, key: Name): Option<seq<byte>> {
    var i := IndexOf(overlay, key);
    if i < |overlay| then Some(overlay[i].data) else None
  }

  ghost predicate LayersOk(l: Layers) {
    && (l.image.Some? ==> Mountable(l.image.value))
    && (forall i, j :: 0 <= i < j < |l.overlay| ==> l.overlay[i].name != l.overlay[j].name)
    && (forall i :: 0 <= i < |l.overlay| ==> Upper(l.overlay[i].name) == l.overlay[i].name)
  }

  /** Tombstones first, then written files, then the image. */
  function ReadKey(l: Layers, key: Name): Option<seq<byte>>
    requires l.image.Some? ==> Mountable(l.image.value)
  {
    if key in l.deleted then None
    else if FromOverlay(l.overlay, key).Some? then FromOverlay(l.overlay, key)
    else if l.image.Some? then Lookup(l.image.value, key)
    else None
  }

  /** Every name that some layer knows. */
  ghost function Known(l: Layers): set<Name>
    requires l.image.Some? ==> Mountable(l.image.value)
  {
    (set i | 0 <= i < |l.overlay| :: l.overlay[i].name)
    + (if l.image.Some? then ShownNames(LiveFrom(l.image.value, 0)) else {})
  }

  ghost function ShownNames(es: seq<Entry>): set<Name>
    requires forall k :: 0 <= k < |es| ==> |es[k].raw| == 11
  {
    set k | 0 <= k < |es| :: Display(es[k].raw)
  }

  /** The simple map that the layers stand for: upper-case names to contents. */
  ghost function View(l: Layers): map<Name, seq<byte>>
    requires LayersOk(l)
  {
    map k | k in Known(l) && Upper(k) == k && ReadKey(l, k).Some? :: ReadKey(l, k).value
  }

  lemma {:induction false} MatchIsShown(image: seq<byte>, es: seq<Entry>, q: Name)
    requires HasRoot(image) && AllStored(image, es)
    ensures FirstMatch(image, es, q).Some? ==> q in ShownNames(es)
  {
    hide HasRoot, FileBytes, Stores, Display;
    if es != [] {
      MatchIsShown(image, es[1..], q);
      if Matches(es[0], q) {
        assert Display(es[0].raw) in ShownNames(es);
      } else if q in ShownNames(es[1..]) {
        var k :| 0 <= k < |es[1..]| && Display(es[1..][k].raw) == q;
        assert es[k + 1] == es[1..][k];
      }
    }
  }

  /** The map has a file exactly when reading its name finds one. */
  lemma ViewIsRead(l: Layers, key: Name)
    requires LayersOk(l)
    ensures key in View(l) <==> Upper(key) == key && ReadKey(l, key).Some?
    ensures key in View(l) ==> ReadKey(l, key) == Some(View(l)[key])
  {
    if l.image.Some? {
      MatchIsShown(l.image.value, LiveFrom(l.image.value, 0), key);
    }
    hide Mountable, Display, Upper, FirstMatch, LiveFrom;
    if FromOverlay(l.overlay, key).Some? {
      var i := IndexOf(l.overlay, key);
      assert l.overlay[i].name == key;
    }
  }

  /** Two layer stacks that read alike stand for the same map. */
  lemma ViewsAgree(l: Layers, m: map<Name, seq<byte>>)
    requires LayersOk(l)
    requires forall k :: k in m <==> Upper(k) == k && ReadKey(l, k).Some?
    requires forall k :: k in m ==> ReadKey(l, k) == Some(m[k])
    ensures View(l) == m
  {
    forall k
      ensures k in View(l) <==> k in m
      ensures k in View(l) ==> View(l)[k] == m[k]
    {
      ViewIsRead(l, k);
    }
  }

  function Written(l: Layers, key: Name, data: seq<byte>): Layers {
    var i := IndexOf(l.overlay, key);
    Layers(l.image,
           if i < |l.overlay| then l.overlay[i := File(key, data)] else l.overlay + [File(key, data)],
           Undeleted(l.deleted, key))
  }

  function Removed(l: Layers, key: Name): Layers {
    Layers(l.image, Without(l.overlay, key), if key in l.deleted then l.deleted else l.deleted + [key])
  }

  lemma {:induction false} UndeletedNames(deleted: seq<Name>, key: Name, k: Name)
    ensures k in Undeleted(deleted, key) <==> k in deleted && k != key
  {
    if deleted != [] {
      UndeletedNames(deleted[1..], key, k);
      assert k in deleted <==> k == deleted[0] || k in deleted[1..];
    }
  }

  lemma {:induction false} WithoutFiles(overlay: seq<File>, key: Name, f: File)
    ensures f in Without(overlay, key) <==> f in overlay && f.name != key
  {
    if overlay != [] {
      WithoutFiles(overlay[1..], key, f);
      assert f in overlay <==> f == overlay[0] || f in overlay[1..];
    }
  }

  lemma {:induction false} WithoutIsDistinct(overlay: seq<File>, key: Name)
    requires forall i, j :: 0 <= i < j < |overlay| ==> overlay[i].name != overlay[j].name
    ensures var w := Without(overlay, key); forall i, j :: 0 <= i < j < |w| ==> w[i].name != w[j].name
  {
    if overlay != [] {
      WithoutIsDistinct(overlay[1..], key);
      var w, rest := Without(overlay, key), Without(overlay[1..], key);
      forall j | 0 <= j < |rest|
        ensures rest[j].name != overlay[0].name
      {
        WithoutFiles(overlay[1..], key, rest[j]);
        var k :| 0 <= k < |overlay[1..]| && overlay[1..][k] == rest[j];
        assert overlay[1..][k] == overlay[k + 1];
      }
      if overlay[0].name != key {
        assert w == [overlay[0]] + rest;
        assert forall i :: 0 < i < |w| ==> w[i] == rest[i - 1];
      }
    }
  }

  lemma HeadRead(f: File, rest: seq<File>, k: Name)
    ensures FromOverlay([f] + rest, k) == if f.name == k then Some(f.data) else FromOverlay(rest, k)
  {
    assert ([f] + rest)[1..] == rest;
  }

  lemma {:induction false} WithoutRead(overlay: seq<File>, key: Name, k: Name)
    ensures FromOverlay(Without(overlay, key), k) == if k == key then None else FromOverlay(overlay, k)
  {
    if overlay != [] {
      WithoutRead(overlay[1..], key, k);
      assert overlay == [overlay[0]] + overlay[1..];
      HeadRead(overlay[0], overlay[1..], k);
      HeadRead(overlay[0], Without(overlay[1..], key), k);
      hide FromOverlay;
      assert overlay[0].name == key ==> Without(overlay, key) == Without(overlay[1..], key);
    }
  }

  /** An index with these properties is the one that the search finds. */
  lemma IndexIs(overlay: seq<File>, key: Name, i: nat)
    requires i <= |overlay| && (i < |overlay| ==> overlay[i].name == key)
    requires forall k :: 0 <= k < i ==> overlay[k].name != key
    ensures IndexOf(overlay, key) == i
  {
    hide IndexOf;
    var found := IndexOf(overlay, key);
    assert found == i;
  }

  lemma OverlayAfterWrite(l: Layers, key: Name, data: seq<byte>, k: Name)
    ensures FromOverlay(Written(l, key, data).overlay, k) ==
            if k == key then Some(data) else FromOverlay(l.overlay, k)
  {
    hide IndexOf, Undeleted;
    var w := Written(l, key, data).overlay;
    var i, at := IndexOf(l.overlay, k), IndexOf(l.overlay, key);
    if k == key || i < |l.overlay| {
      IndexIs(w, k, i);
    } else {
      IndexIs(w, k, |w|);
    }
  }

  lemma WrittenRead(l: Layers, key: Name, data: seq<byte>, k: Name)
    requires LayersOk(l)
    ensures ReadKey(Written(l, key, data), k) == if k == key then Some(data) else ReadKey(l, k)
  {
    hide Mountable, Undeleted, IndexOf, FromOverlay;
    UndeletedNames(l.deleted, key, k);
    OverlayAfterWrite(l, key, data, k);
  }

  /** Writing is map update. */
  lemma WriteIsUpdate(l: Layers, key: Name, data: seq<byte>)
    requires LayersOk(l) && Upper(key) == key
    ensures LayersOk(Written(l, key, data))
    ensures View(Written(l, key, data)) == View(l)[key := data]
  {
    var w := Written(l, key, data);
    assert LayersOk(w) by {
      hide Mountable, Upper;
    }
    hide LayersOk, Written, ReadKey, View, Upper;
    forall k
      ensures k in View(l)[key := data] <==> Upper(k) == k && ReadKey(w, k).Some?
      ensures k in View(l)[key := data] ==> ReadKey(w, k) == Some(View(l)[key := data][k])
    {
      ViewIsRead(l, k);
      WrittenRead(l, key, data, k);
    }
    ViewsAgree(w, View(l)[key := data]);
  }

  /** Deleting is map removal. */
  lemma RemoveIsRemoval(l: Layers, key: Name)
    requires LayersOk(l)
    ensures LayersOk(Removed(l, key))
    ensures View(Removed(l, key)) == View(l) - {key}
  {
    var r := Removed(l, key);
    RemovedOk(l, key);
    hide LayersOk, Removed, ReadKey, View, Upper;
    forall k
      ensures k in View(l) - {key} <==> Upper(k) == k && ReadKey(r, k).Some?
      ensures k in View(l) - {key} ==> ReadKey(r, k) == Some((View(l) - {key})[k])
    {
      ViewIsRead(l, k);
      RemovedRead(l, key, k);
    }
    ViewsAgree(r, View(l) - {key});
  }

  lemma RemovedOk(l: Layers, key: Name)
    requires LayersOk(l)
    ensures LayersOk(Removed(l, key))
  {
    hide Mountable, Upper;
    WithoutIsDistinct(l.overlay, key);
    var w := Without(l.overlay, key);
    forall i | 0 <= i < |w|
      ensures Upper(w[i].name) == w[i].name
    {
      WithoutFiles(l.overlay, key, w[i]);
    }
  }

  lemma RemovedRead(l: Layers, key: Name, k: Name)
    requires LayersOk(l)
    ensures LayersOk(Removed(l, key))
    ensures ReadKey(Removed(l, key), k) == if k == key then None else ReadKey(l, k)
  {
    hide Mountable, Upper;
    RemovedOk(l, key);
    WithoutRead(l.overlay, key, k);
  }

  /** The image part of a listing: the live entries that were not deleted since boot. */
  function ListImage(es: seq<Entry>, deleted: seq<Name>): seq<Listed>
    requires forall k :: 0 <= k < |es| ==> |es[k].raw| == 11
  {
    if es == [] then []
    else
      (if Display(es[0].raw) in deleted then [] else [Listed(Display(es[0].raw), es[0].size)])
      + ListImage(es[1..], deleted)
  }

  function ListedAt(list: seq<Listed>, name: Name): (i: nat)
    ensures i <= |list|
    ensures i < |list| ==> list[i].name == name
    ensures forall k :: 0 <= k < i ==> list[k].name != name
  {
    if list == [] || list[0].name == name then 0 else 1 + ListedAt(list[1..], name)
  }

  /** One written file merged into a listing; the size is cut to 32 bits. */
  function MergeOne(list: seq<Listed>, f: File, deleted: seq<Name>): seq<Listed> {
    if f.name in deleted then list
    else
      var i, item := ListedAt(list, f.name), Listed(f.name, |f.data| % U32);
      if i < |list| then list[i := item] else list + [item]
  }

  function Merged(list: seq<Listed>, overlay: seq<File>, deleted: seq<Name>): seq<Listed> {
    if overlay == [] then list
    else MergeOne(Merged(list, overlay[..|overlay| - 1], deleted), overlay[|overlay| - 1], deleted)
  }

  function ImageEntries(image: Option<seq<byte>>): (es: seq<Entry>)
    requires image.Some? ==> Mountable(image.value)
    ensures forall k :: 0 <= k < |es| ==> |es[k].raw| == 11
  {
    if image.Some? then LiveFrom(image.value, 0) else []
  }

  /** Image entries have distinct upper-case names and a data cluster. */
  ghost predicate WellNamed(es: seq<Entry>)
    requires forall k :: 0 <= k < |es| ==> |es[k].raw| == 11
  {
    && (forall k :: 0 <= k < |es| ==>
          es[k].cluster >= 2 && es[k].size < U32 && Upper(Display(es[k].raw)) == Display(es[k].raw))
    && (forall j, k :: 0 <= j < k < |es| ==> Display(es[j].raw) != Display(es[k].raw))
  }

  predicate DistinctNames(list: seq<Listed>) {
    forall i, j :: 0 <= i < j < |list| ==> list[i].name != list[j].name
  }

  /** The list holds each name of the map once, with its size, and nothing else. */
  ghost predicate ListsExactly(list: seq<Listed>, sizes: map<Name, nat>) {
    && DistinctNames(list)
    && forall n, size :: Listed(n, size) in list <==> n in sizes && sizes[n] == size
  }

  ghost function SizesOf(view: map<Name, seq<byte>>): map<Name, nat> {
    map k | k in view :: |view[k]| % U32
  }

  lemma {:induction false} ListedIff(image: seq<byte>, es: seq<Entry>, deleted: seq<Name>, n: Name, size: nat)
    requires HasRoot(image) && AllStored(image, es) && WellNamed(es)
    ensures Listed(n, size) in ListImage(es, deleted) <==>
            n !in deleted && FirstMatch(image, es, n).Some? && |FirstMatch(image, es, n).value| == size
  {
    hide HasRoot, Stores, Display, Upper, FileOffset;
    if es != [] {
      ListedIff(image, es[1..], deleted, n, size);
      var head := Display(es[0].raw);
      var rest := ListImage(es[1..], deleted);
      assert Listed(n, size) in ListImage(es, deleted) <==>
             Listed(n, size) in rest || (head !in deleted && Listed(n, size) == Listed(head, es[0].size));
      MatchIsShown(image, es[1..], n);
      assert n == head ==> n !in ShownNames(es[1..]);
    }
  }

  lemma {:induction false} ImageNamesDistinct(es: seq<Entry>, deleted: seq<Name>)
    requires (forall k :: 0 <= k < |es| ==> |es[k].raw| == 11) && WellNamed(es)
    ensures DistinctNames(ListImage(es, deleted))
    ensures forall k :: 0 <= k < |ListImage(es, deleted)| ==> ListImage(es, deleted)[k].name in ShownNames(es)
  {
    hide Display, Upper;
    if es != [] {
      var rest := es[1..];
      ImageNamesDistinct(rest, deleted);
      forall n | n in ShownNames(rest)
        ensures n in ShownNames(es) && n != Display(es[0].raw)
      {
        var k :| 0 <= k < |rest| && Display(rest[k].raw) == n;
        assert rest[k] == es[k + 1];
      }
      assert Display(es[0].raw) in ShownNames(es);
    }
  }

  lemma ImageLists(l: Layers)
    requires LayersOk(l) && l.overlay == [] && WellNamed(ImageEntries(l.image))
    ensures ListsExactly(ListImage(ImageEntries(l.image), l.deleted), SizesOf(View(l)))
  {
    var es := ImageEntries(l.image);
    ImageNamesDistinct(es, l.deleted);
    hide Mountable, LiveFrom, FirstMatch, Upper, WellNamed, ListImage, View, Display, DistinctNames, ReadKey, LayersOk;
    forall n, size
      ensures Listed(n, size) in ListImage(es, l.deleted) <==> n in SizesOf(View(l)) && SizesOf(View(l))[n] == size
    {
      ViewIsRead(l, n);
      BaseRead(l, n, size);
    }
  }

  lemma BaseRead(l: Layers, n: Name, size: nat)
    requires LayersOk(l) && l.overlay == [] && WellNamed(ImageEntries(l.image))
    ensures Listed(n, size) in ListImage(ImageEntries(l.image), l.deleted) <==>
            ReadKey(l, n).Some? && Upper(n) == n && |ReadKey(l, n).value| % U32 == size
    ensures ReadKey(l, n).Some? ==> Upper(n) == n
  {
    hide LiveFrom, FirstMatch, Upper, WellNamed, Display;
    if l.image.Some? {
      var es := LiveFrom(l.image.value, 0);
      ListedIff(l.image.value, es, l.deleted, n, size);
      ImageMatch(l.image.value, es, n);
      hide ListImage;
    }
  }

  /** In a well-named image, what is found has an upper-case name and less than 2^32 bytes. */
  lemma {:induction false} ImageMatch(image: seq<byte>, es: seq<Entry>, n: Name)
    requires HasRoot(image) && AllStored(image, es) && WellNamed(es)
    ensures FirstMatch(image, es, n).Some? ==> Upper(n) == n && |FirstMatch(image, es, n).value| < U32
  {
    hide HasRoot, Stores, Display, Upper, FileOffset;
    if es != [] {
      ImageMatch(image, es[1..], n);
    }
  }

  lemma MergeLists(list: seq<Listed>, sizes: map<Name, nat>, f: File, deleted: seq<Name>)
    requires ListsExactly(list, sizes) && f.name !in deleted
    ensures ListsExactly(MergeOne(list, f, deleted), sizes[f.name := |f.data| % U32])
  {
    hide ListedAt;
    var i, item := ListedAt(list, f.name), Listed(f.name, |f.data| % U32);
    var after, more := MergeOne(list, f, deleted), sizes[f.name := |f.data| % U32];
    forall n, size
      ensures Listed(n, size) in after <==> n in more && more[n] == size
    {
      MemberAfter(list, i, item, Listed(n, size));
    }
  }

  lemma MemberAfter(list: seq<Listed>, i: nat, item: Listed, x: Listed)
    requires i <= |list| && DistinctNames(list)
    requires forall k :: 0 <= k < i ==> list[k].name != item.name
    requires i < |list| ==> list[i].name == item.name
    ensures var after := if i < |list| then list[i := item] else list + [item];
            x in after <==> x == item || (x in list && x.name != item.name)
  {
    var after := if i < |list| then list[i := item] else list + [item];
    assert after[i] == item;
    if x in list && x.name != item.name {
      var k :| 0 <= k < |list| && list[k] == x;
      assert after[k] == x;
    }
    if x in after && x != item {
      var k :| 0 <= k < |after| && after[k] == x;
      assert k != i && list[k] == x;
    }
  }

  /** Merging one more written file keeps listing exactly what can be read. */
  lemma {:induction false} OverlayLists(l: Layers, i: nat)
    requires LayersOk(l) && WellNamed(ImageEntries(l.image)) && i <= |l.overlay|
    ensures var part := Layers(l.image, l.overlay[..i], l.deleted);
            && LayersOk(part)
            && ListsExactly(Merged(ListImage(ImageEntries(l.image), l.deleted), l.overlay[..i], l.deleted),
                            SizesOf(View(part)))
    decreases i
  {
    hide LayersOk, WellNamed, ListImage, ImageEntries, ListsExactly, SizesOf, View, MergeOne;
    PartOk(l, i);
    var part := Layers(l.image, l.overlay[..i], l.deleted);
    if i == 0 {
      ImageLists(part);
    } else {
      OverlayLists(l, i - 1);
      var fewer, f := Layers(l.image, l.overlay[..i - 1], l.deleted), l.overlay[i - 1];
      assert l.overlay[..i][..i - 1] == l.overlay[..i - 1];
      PartGrows(l, fewer, part, i);
      var list := Merged(ListImage(ImageEntries(l.image), l.deleted), l.overlay[..i - 1], l.deleted);
      if f.name in l.deleted {
        assert MergeOne(list, f, l.deleted) == list by {
          MergeSkips(list, f, l.deleted);
        }
      } else {
        MergeLists(list, SizesOf(View(fewer)), f, l.deleted);
      }
    }
  }

  lemma MergeSkips(list: seq<Listed>, f: File, deleted: seq<Name>)
    requires f.name in deleted
    ensures MergeOne(list, f, deleted) == list
  {
  }

  lemma PartOk(l: Layers, i: nat)
    requires LayersOk(l) && i <= |l.overlay|
    ensures LayersOk(Layers(l.image, l.overlay[..i], l.deleted))
    ensures l.image.Some? ==> Mountable(l.image.value)
  {
    hide Mountable, Upper;
  }

  lemma PartGrows(l: Layers, fewer: Layers, part: Layers, i: nat)
    requires LayersOk(l) && 0 < i <= |l.overlay|
    requires fewer == Layers(l.image, l.overlay[..i - 1], l.deleted) && LayersOk(fewer)
    requires part == Layers(l.image, l.overlay[..i], l.deleted) && LayersOk(part)
    requires l.image.Some? ==> Mountable(l.image.value)
    ensures var f := l.overlay[i - 1];
            SizesOf(View(part)) ==
            if f.name in l.deleted then SizesOf(View(fewer)) else SizesOf(View(fewer))[f.name := |f.data| % U32]
  {
    hide LayersOk, View, Upper, Mountable, FirstMatch, ReadKey;
    var f := l.overlay[i - 1];
    var after := if f.name in l.deleted then View(fewer) else View(fewer)[f.name := f.data];
    forall k
      ensures k in after <==> Upper(k) == k && ReadKey(part, k).Some?
      ensures k in after ==> ReadKey(part, k) == Some(after[k])
    {
      ViewIsRead(fewer, k);
      SnocRead(l, fewer, part, i, k);
    }
    ViewsAgree(part, after);
    SizesUpdate(View(fewer), f);
  }

  lemma SizesUpdate(view: map<Name, seq<byte>>, f: File)
    ensures SizesOf(view[f.name := f.data]) == SizesOf(view)[f.name := |f.data| % U32]
  {
  }

  lemma SnocRead(l: Layers, fewer: Layers, part: Layers, i: nat, k: Name)
    requires LayersOk(l) && 0 < i <= |l.overlay|
    requires fewer == Layers(l.image, l.overlay[..i - 1], l.deleted)
    requires part == Layers(l.image, l.overlay[..i], l.deleted)
    ensures var f := l.overlay[i - 1];
            && ReadKey(part, k) == (if k == f.name && k !in l.deleted then Some(f.data) else ReadKey(fewer, k))
            && Upper(f.name) == f.name
  {
    hide IndexOf, Mountable, Upper, Lookup;
    var f, at := l.overlay[i - 1], IndexOf(fewer.overlay, k);
    IndexIs(part.overlay, k, if k == f.name then i - 1 else if at < i - 1 then at else i);
  }

  /** What the image contributes at boot: each packed file under the name that is shown for it. */
  lemma BuiltImageIsWellNamed(image: seq<byte>, files: seq<File>)
    requires Fits(files) && IsImage(image, files)
    ensures Mountable(image)
    ensures WellNamed(LiveFrom(image, 0)) <==>
            forall j, k :: 0 <= j < k < |files| ==> Display(Packed(files[j].name)) != Display(Packed(files[k].name))
  {
    hide IsImage, LiveFrom, Mountable, EntryFor, Display, Packed, Fits, Upper, GoodEntry;
    RoundTrip(image, files, []);
    ListingOfImage(image, files);
    var es := LiveFrom(image, 0);
    forall k | 0 <= k < |files|
      ensures GoodEntry(es[k], files[k].name)
    {
      EntryIsGood(files, k);
    }
    NamesAgree(es, files);
  }

  predicate GoodEntry(e: Entry, n: Name) {
    e.cluster >= 2 && e.size < U32 && e.raw == Packed(n) && Upper(Display(e.raw)) == Display(e.raw)
  }

  lemma NamesAgree(es: seq<Entry>, files: seq<File>)
    requires |es| == |files| && forall k :: 0 <= k < |es| ==> |es[k].raw| == 11 && GoodEntry(es[k], files[k].name)
    ensures WellNamed(es) <==>
            forall j, k :: 0 <= j < k < |files| ==> Display(Packed(files[j].name)) != Display(Packed(files[k].name))
  {
    hide Display, Packed, Upper;
  }

  lemma EntryIsGood(files: seq<File>, k: nat)
    requires Fits(files) && k < |files|
    ensures GoodEntry(EntryFor(files, k), files[k].name)
  {
    hide Display, Packed, TotalClusters, Upper, Clusters, Fits;
    SizeWithin(files, k);
    ShownInUpperCase(files[k].name);
  }

  /** At boot the map holds exactly the packed files, under the names that are shown for them. */
  lemma BootContents(image: seq<byte>, files: seq<File>, k: Name)
    requires Fits(files) && IsImage(image, files)
    ensures var l := Layers(Some(image), [], []);
            && LayersOk(l)
            && (k in View(l) <==> Upper(k) == k && FirstNamed(files, 0, k).Some?)
            && (k in View(l) ==> FirstNamed(files, 0, k) == Some(View(l)[k]))
  {
    hide Mountable, Lookup, FirstNamed, View, Upper, IsImage, Fits;
    RoundTrip(image, files, k);
    var l := Layers(Some(image), [], []);
    ViewIsRead(l, k);
  }

  lemma ShownInUpperCase(n: Name)
    ensures Upper(Display(Packed(n))) == Display(Packed(n))
  {
    hide FirstDot, Display, Packed, Trim, Prefix;
    DisplayOfPacked(n);
    var u := Upper(n);
    var base, ext := Prefix(BeforeDot(u), 8), Prefix(BeforeDot(AfterDot(u)), 3);
    PrefixIsPart(BeforeDot(u), 8);
    PrefixIsPart(BeforeDot(AfterDot(u)), 3);
    TrimIsPart(base);
    TrimIsPart(ext);
    assert AllUpper(u);
    JoinedUpper(Trim(base), Trim(ext));
  }

  ghost predicate AllUpper(s: Name) {
    forall c :: c in s ==> UpperByte(c) == c
  }

  lemma JoinedUpper(base: Name, ext: Name)
    requires AllUpper(base) && AllUpper(ext)
    ensures Upper(base) == base && Upper(base + [DOT] + ext) == base + [DOT] + ext
  {
  }

  lemma PrefixIsPart(s: Name, width: nat)
    ensures forall c :: c in Prefix(s, width) ==> c in s
  {
  }

  lemma TrimIsPart(s: Name)
    ensures forall c :: c in Trim(s) ==> c in s
  {
    hide TrimEnd, TrimStart;
    TrimEndFacts(s);
    TrimStartFacts(TrimEnd(s));
  }

  /** Lists the image part: one pass over its directory. */
  method ListVolume(volume: seq<byte>, deleted: seq<Name>) returns (files: seq<Listed>)
    requires HasRoot(volume)
    ensures files == ListImage(LiveFrom(volume, 0), deleted)
  {
    hide Display, RootOffset, EntryAt, RootEntries, LiveFrom, ListImage, Skipped;
    files := [];
    NothingListed(deleted);
    var i: nat := 0;
    while i < RootEntries(volume)
      invariant i <= RootEntries(volume)
      invariant ListImage(LiveFrom(volume, 0), deleted) == files + ListImage(LiveFrom(volume, i), deleted)
    {
      var e := EntryAt(volume, i);
      LiveStep(volume, i);
      if e.raw[0] == 0 {
        return;
      }
      if !Skipped(e) {
        ListStep(e, LiveFrom(volume, i + 1), deleted);
        if Display(e.raw) !in deleted {
          files := files + [Listed(Display(e.raw), e.size)];
        }
      }
      i := i + 1;
    }
    LiveEnd(volume, []);
  }

  /** The kernel's store: two growing layers over the mounted image. */
  class FileStore {
    const image: Option<seq<byte>>
    var overlay: seq<File>
    var deleted: seq<Name>

    ghost function AsLayers(): Layers
      reads this
    {
      Layers(image, overlay, deleted)
    }

    ghost predicate Valid()
      reads this
    {
      LayersOk(AsLayers())
    }

    /** The store as a map from upper-case names to contents. */
    ghost function Contents(): map<Name, seq<byte>>
      reads this
      requires Valid()
    {
      View(AsLayers())
    }

    /** What the store holds under a name, in whatever case it is written. */
    ghost function Found(n: Name): Option<seq<byte>>
      reads this
      requires Valid()
    {
      if Upper(n) in Contents() then Some(Contents()[Upper(n)]) else None
    }

    constructor (image: Option<seq<byte>>)
      requires image.Some? ==> Mountable(image.value)
      ensures Valid() && AsLayers() == Layers(image, [], [])
    {
      this.image := image;
      overlay, deleted := [], [];
    }

    method WriteFile(filename: Name, data: seq<byte>)
      requires Valid()
      modifies this
      ensures Valid() && Contents() == old(Contents())[Upper(filename) := data]
      ensures forall n: Name :: Found(n) == if SameName(n, filename) then Some(data) else old(Found(n))
    {
      hide LayersOk, View, Upper, Undeleted, IndexOf, SameName;
      forall n: Name
        ensures SameName(n, filename) <==> Upper(n) == Upper(filename)
      {
        SameNameIff(n, filename);
      }
      var key := Upper(filename);
      UpperTwice(filename);
      WriteIsUpdate(AsLayers(), key, data);
      deleted := Undeleted(deleted, key);
      var i := IndexOf(overlay, key);
      if i < |overlay| {
        overlay := overlay[i := File(key, data)];
      } else {
        overlay := overlay + [File(key, data)];
      }
    }

    method ReadFile(filename: Name) returns (found: Option<seq<byte>>)
      requires Valid()
      ensures found == if Upper(filename) in Contents() then Some(Contents()[Upper(filename)]) else None
      ensures forall n: Name :: SameName(n, filename) ==> found == Found(n)
    {
      forall n: Name | SameName(n, filename)
        ensures Upper(n) == Upper(filename)
      {
        SameNameIff(n, filename);
      }
      var key := Upper(filename);
      UpperTwice(filename);
      ViewIsRead(AsLayers(), key);
      hide LayersOk, View, Upper, IndexOf, SameName;
      if key in deleted {
        return None;
      }
      var i := IndexOf(overlay, key);
      if i < |overlay| {
        return Some(overlay[i].data);
      }
      if image.Some? {
        found := ReadVolume(image.value, key);
      } else {
        found := None;
      }
    }

    method DeleteFile(filename: Name) returns (existed: bool)
      requires Valid()
      modifies this
      ensures Valid() && (existed <==> Upper(filename) in old(Contents()))
      ensures Contents() == old(Contents()) - {Upper(filename)}
      ensures existed <==> old(Found(filename)).Some?
      ensures forall n: Name :: Found(n) == if SameName(n, filename) then None else old(Found(n))
    {
      hide LayersOk, View, Upper, Without, SameName;
      forall n: Name
        ensures SameName(n, filename) <==> Upper(n) == Upper(filename)
      {
        SameNameIff(n, filename);
      }
      var key := Upper(filename);
      UpperTwice(filename);
      var found := ReadFile(key);
      if found == None {
        return false;
      }
      RemoveIsRemoval(AsLayers(), key);
      overlay := Without(overlay, key);
      if key !in deleted {
        deleted := deleted + [key];
      }
      return true;
    }

    /** Lists the image, then merges the written files into that list. */
    method ListFiles() returns (files: seq<Listed>)
      requires Valid()
      ensures files == Merged(ListImage(ImageEntries(image), deleted), overlay, deleted)
      ensures WellNamed(ImageEntries(image)) ==> ListsExactly(files, SizesOf(Contents()))
    {
      files := [];
      NothingListed(deleted);
      if image.Some? {
        files := ListVolume(image.value, deleted);
      }
      for i := 0 to |overlay|
        invariant files == Merged(ListImage(ImageEntries(image), deleted), overlay[..i], deleted)
      {
        hide ListImage, ImageEntries, MergeOne, LayersOk;
        assert overlay[..i + 1][..i] == overlay[..i];
        files := MergeOne(files, overlay[i], deleted);
      }
      assert overlay[..|overlay|] == overlay;
      hide ListImage, ImageEntries, Merged, LayersOk, WellNamed, ListsExactly, SizesOf, View;
      if WellNamed(ImageEntries(image)) {
        OverlayLists(AsLayers(), |overlay|);
      }
    }
  }

  lemma NothingListed(deleted: seq<Name>)
    ensures ListImage([], deleted) == []
  {
  }

  lemma ListStep(e: Entry, rest: seq<Entry>, deleted: seq<Name>)
    requires |e.raw| == 11 && forall k :: 0 <= k < |rest| ==> |rest[k].raw| == 11
    ensures ListImage([e] + rest, deleted) ==
            (if Display(e.raw) in deleted then [] else [Listed(Display(e.raw), e.size)]) + ListImage(rest, deleted)
  {
    hide Display;
    assert ([e] + rest)[1..] == rest;
  }
}
