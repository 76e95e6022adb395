/** The packed 12-bit table of a FAT12 volume (fatgen103, "FAT Type
    Determination"): two entries share three bytes. */
module FatTable {
  import opened Bits
  import opened Bytes

  const END_OF_CHAIN: nat := 0xFFF
  const FAT_BYTES: nat := 4608
  const FAT_ENTRIES: nat := 3072

  function EntryOffset(n: nat): nat {
    n + n / 2
  }

  /** The entry held in its two bytes. */
  function Joined(n: nat, low: nat, high: nat): nat {
    if n % 2 == 0 then low + high % 16 * 256 else low / 16 + high * 16
  }

  /** The standard decoding of entry `n`. */
  function GetEntry(fat: seq<byte>, n: nat): nat
    requires |fat| == FAT_BYTES && n < FAT_ENTRIES
  {
    Joined(n, fat[EntryOffset(n)], fat[EntryOffset(n) + 1])
  }

  /** The `i`-th half byte of the table, the low half of each byte first. */
  function Nibble(fat: seq<byte>, i: nat): nat
    requires |fat| == FAT_BYTES && i < 2 * FAT_BYTES
  {
    if i % 2 == 0 then fat[i / 2] % 16 else fat[i / 2] / 16
  }

  /** The entries of the table are packed without gaps: entry `n` is made of the three half
      bytes from the `3 * n`-th on, the least significant first. */
  lemma EntryIsThreeNibbles(fat: seq<byte>, n: nat)
    requires |fat| == FAT_BYTES && n < FAT_ENTRIES
    ensures GetEntry(fat, n) == Nibble(fat, 3 * n) + 16 * Nibble(fat, 3 * n + 1) + 256 * Nibble(fat, 3 * n + 2)
  {
    var k := n / 2;
    if n % 2 == 0 {
      DivUnique(3 * n, 2, 3 * k, 0);
      DivUnique(3 * n + 1, 2, 3 * k, 1);
      DivUnique(3 * n + 2, 2, 3 * k + 1, 0);
    } else {
      DivUnique(3 * n, 2, 3 * k + 1, 1);
      DivUnique(3 * n + 1, 2, 3 * k + 2, 0);
      DivUnique(3 * n + 2, 2, 3 * k + 2, 1);
    }
  }

  /** The two bytes that the image builder stores for entry `n`. */
  function LowByte(was: nat, n: nat, v: nat): nat {
    if n % 2 == 0 then And(v, 0xFF) else Or(And(was, 0x0F), And(v * 16, 0xF0))
  }

  function HighByte(was: nat, n: nat, v: nat): nat {
    if n % 2 == 0 then Or(And(was, 0xF0), And(v / 256, 0x0F)) else And(v / 16, 0xFF)
  }

  lemma StoredLow(was: nat, n: nat, v: nat)
    requires was < 256 && v <= 0xFFF
    ensures LowByte(was, n, v) == if n % 2 == 0 then v % 256 else v % 16 * 16 + was % 16
    ensures LowByte(was, n, v) < 256
  {
    hide And, Or;
    MaskLow(v);
    MaskLow(was);
    MaskHigh(v * 16);
    assert v * 16 / 16 == v;
    OrNibbles(v % 16, was % 16);
  }

  lemma StoredHigh(was: nat, n: nat, v: nat)
    requires was < 256 && v <= 0xFFF
    ensures HighByte(was, n, v) == if n % 2 == 0 then was / 16 * 16 + v / 256 else v / 16
    ensures HighByte(was, n, v) < 256
  {
    hide And, Or;
    MaskLow(v / 256);
    MaskLow(v / 16);
    MaskHigh(was);
    assert was / 16 % 16 == was / 16 && v / 256 % 16 == v / 256 && v / 16 % 256 == v / 16;
    OrNibbles(was / 16, v / 256);
  }

  lemma MaskLow(x: nat)
    ensures And(x, 0x0F) == x % 16 && And(x, 0xFF) == x % 256
  {
    hide And;
    assert Pow2(4) == 16 && Pow2(8) == 256;
    AndLow(x, 4);
    AndLow(x, 8);
  }

  lemma MaskHigh(x: nat)
    ensures And(x, 0xF0) == x / 16 % 16 * 16
  {
    hide And;
    assert Pow2(4) == 16;
    AndField(x, 4, 4);
  }

  lemma OrNibbles(high: nat, low: nat)
    requires low < 16
    ensures Or(high * 16, low) == high * 16 + low && Or(low, high * 16) == high * 16 + low
  {
    hide Or;
    assert Pow2(4) == 16;
    OrDisjoint(high, 4, low);
    OrCommutes(low, high * 16);
  }

  /** The table after the builder stores `v` as entry `n`. */
  function SetEntry(fat: seq<byte>, n: nat, v: nat): (after: seq<byte>)
    requires |fat| == FAT_BYTES && n < FAT_ENTRIES && v <= 0xFFF
    ensures |after| == FAT_BYTES
  {
    var o := EntryOffset(n);
    StoredLow(fat[o], n, v);
    StoredHigh(fat[o + 1], n, v);
    fat[o := LowByte(fat[o], n, v)][o + 1 := HighByte(fat[o + 1], n, v)]
  }

  /** Storing one entry changes that entry and no other, although neighbours share a byte. */
  lemma SetThenGet(fat: seq<byte>, n: nat, v: nat, k: nat)
    requires |fat| == FAT_BYTES && n < FAT_ENTRIES && v <= 0xFFF && k < FAT_ENTRIES
    ensures GetEntry(SetEntry(fat, n, v), k) == if k == n then v else GetEntry(fat, k)
  {
    var o := EntryOffset(n);
    var low, high := LowByte(fat[o], n, v), HighByte(fat[o + 1], n, v);
    StoredLow(fat[o], n, v);
    StoredHigh(fat[o + 1], n, v);
    hide And, Or, LowByte, HighByte, Joined, EntryOffset;
    OffsetsApart(n, k);
    SameEntry(n, low, high, fat[o], fat[o + 1], v);
    if k + 1 == n {
      NeighbourBelow(n, fat[EntryOffset(k)], fat[o], low, v);
    } else if k == n + 1 {
      NeighbourAbove(n, fat[o + 1], high, fat[EntryOffset(k) + 1], v);
    }
  }

  lemma OffsetsApart(n: nat, k: nat)
    ensures k + 1 < n ==> EntryOffset(k) + 1 < EntryOffset(n)
    ensures n + 1 < k ==> EntryOffset(n) + 1 < EntryOffset(k)
    ensures k + 1 == n ==> EntryOffset(n) == EntryOffset(k) + (if n % 2 == 0 then 2 else 1)
    ensures k == n + 1 ==> EntryOffset(k) == EntryOffset(n) + (if n % 2 == 0 then 1 else 2)
  {
  }

  lemma SameEntry(n: nat, low: nat, high: nat, was: nat, wasHigh: nat, v: nat)
    requires was < 256 && wasHigh < 256 && v <= 0xFFF
    requires low == if n % 2 == 0 then v % 256 else v % 16 * 16 + was % 16
    requires high == if n % 2 == 0 then wasHigh / 16 * 16 + v / 256 else v / 16
    ensures Joined(n, low, high) == v
  {
  }

  lemma NeighbourBelow(n: nat, a: nat, was: nat, low: nat, v: nat)
    requires n > 0 && was < 256 && v <= 0xFFF
    requires low == if n % 2 == 0 then v % 256 else v % 16 * 16 + was % 16
    ensures n % 2 == 1 ==> Joined(n - 1, a, low) == Joined(n - 1, a, was)
  {
  }

  lemma NeighbourAbove(n: nat, was: nat, high: nat, b: nat, v: nat)
    requires was < 256 && v <= 0xFFF
    requires high == if n % 2 == 0 then was / 16 * 16 + v / 256 else v / 16
    ensures n % 2 == 0 ==> Joined(n + 1, high, b) == Joined(n + 1, was, b)
  {
  }

  /** Stores the number of the next cluster, in place. */
  method StoreNext(fat: array<byte>, n: nat, v: nat)
    requires fat.Length == FAT_BYTES && n < FAT_ENTRIES && v <= 0xFFF
    modifies fat
    ensures fat[..] == SetEntry(old(fat[..]), n, v)
  {
    hide And, Or;
    var o := n + n / 2;
    StoredLow(fat[o], n, v);
    StoredHigh(fat[o + 1], n, v);
    if n % 2 == 0 {
      fat[o] := And(v, 0xFF);
      fat[o + 1] := Or(And(fat[o + 1], 0xF0), And(v / 256, 0x0F));
    } else {
      fat[o] := Or(And(fat[o], 0x0F), And(v * 16, 0xF0));
      fat[o + 1] := And(v / 16, 0xFF);
    }
  }

  /** Stores the end-of-chain mark, in place. */
  method StoreEnd(fat: array<byte>, n: nat)
    requires fat.Length == FAT_BYTES && n < FAT_ENTRIES
    modifies fat
    ensures fat[..] == SetEntry(old(fat[..]), n, END_OF_CHAIN)
  {
    hide And, Or;
    var o := n + n / 2;
    StoredLow(fat[o], n, END_OF_CHAIN);
    StoredHigh(fat[o + 1], n, END_OF_CHAIN);
    EndMarkBytes();
    if n % 2 == 0 {
      fat[o] := 0xFF;
      fat[o + 1] := Or(And(fat[o + 1], 0xF0), 0x0F);
    } else {
      fat[o] := Or(And(fat[o], 0x0F), 0xF0);
      fat[o + 1] := 0xFF;
    }
  }

  /** The constants that the builder writes for the mark are its masked bytes. */
  lemma EndMarkBytes()
    ensures And(END_OF_CHAIN, 0xFF) == 0xFF && And(END_OF_CHAIN / 16, 0xFF) == 0xFF
    ensures And(END_OF_CHAIN / 256, 0x0F) == 0x0F && And(END_OF_CHAIN * 16, 0xF0) == 0xF0
  {
    hide And;
    MaskLow(END_OF_CHAIN);
    MaskLow(END_OF_CHAIN / 16);
    MaskLow(END_OF_CHAIN / 256);
    MaskHigh(END_OF_CHAIN * 16);
  }
}
