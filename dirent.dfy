/** The 32-byte directory slots of a FAT directory (thinfat_dir.c): short-name
    entries and long-name (VFAT) fragments, and the size of the FAT16 root area. */
module DirEntry {
  import opened Common
  import opened Bytes

  const SlotSize: nat := 32
  /** A sector holds 16 slots. */
  const SlotsPerSector: nat := 16

  const AttrHidden: u8 := 0x02
  const AttrSystem: u8 := 0x04
  /** The attribute value that marks a long-name fragment. */
  const AttrLongFileName: u8 := 0x0F

  /** `attr & (HIDDEN | SYSTEM)` is non-zero. */
  predicate HiddenOrSystem(attr: u8)
  {
    (attr / 2) % 2 == 1 || (attr / 4) % 2 == 1
  }

  /** The attribute of a long-name fragment has the hidden and system bits set. */
  lemma LongNameIsHidden()
    ensures HiddenOrSystem(AttrLongFileName)
  {
  }

  /** thinfat_dir_entry_t: the attribute byte, the 11-byte short name (the source
      adds a NUL after it), the first cluster and the size in bytes. */
  datatype Entry = Entry(attr: u8, name: seq<u8>, ciHead: u32, size: u32)

  /** thinfat_decode_dir_entry on the slot at byte `o`: the first cluster joins the
      high word at 20 and the low word at 26. */
  function DecodeEntry(src: seq<u8>, o: nat): (e: Entry)
    requires o + SlotSize <= |src|
    ensures |e.name| == 11
  {
    Entry(ReadU8(src, o + 11), src[o..o + 11], ReadU16(src, o + 20) * 0x1_0000 + ReadU16(src, o + 26), ReadU32(src, o + 28))
  }

  /** The on-disk image of a short entry, with the creation and write stamps zero:
      the reference layout the decoder reads. */
  function EncodeEntry(e: Entry): (r: seq<u8>)
    requires |e.name| == 11
    ensures |r| == SlotSize
  {
    e.name + [e.attr] + Zeros(8) + LittleEndian(e.ciHead / 0x1_0000, 2) + Zeros(4)
      + LittleEndian(e.ciHead % 0x1_0000, 2) + LittleEndian(e.size, 4)
  }

  function Zeros(n: nat): (r: seq<u8>)
    ensures |r| == n && forall i :: 0 <= i < n ==> r[i] == 0
  {
    seq(n, i => 0)
  }

  /** The decoder reads only the 32 bytes of its slot. */
  lemma DecodeEntryLocal(src: seq<u8>, o: nat)
    requires o + SlotSize <= |src|
    ensures DecodeEntry(src, o) == DecodeEntry(src[o..o + SlotSize], 0)
  {
    var s := src[o..o + SlotSize];
    assert s[0..11] == src[o..o + 11];
    assert s[11] == src[o + 11];
    assert s[20] == src[o + 20] && s[21] == src[o + 21];
    assert s[26] == src[o + 26] && s[27] == src[o + 27];
    assert s[28] == src[o + 28] && s[29] == src[o + 29] && s[30] == src[o + 30] && s[31] == src[o + 31];
  }

  /** Decoding the image of an entry gives the entry back. */
  lemma DecodeEncodeEntry(e: Entry)
    requires |e.name| == 11
    ensures DecodeEntry(EncodeEntry(e), 0) == e
  {
    var r := EncodeEntry(e);
    var hi := LittleEndian(e.ciHead / 0x1_0000, 2);
    var lo := LittleEndian(e.ciHead % 0x1_0000, 2);
    var sz := LittleEndian(e.size, 4);
    assert r[0..11] == e.name;
    assert r[11] == e.attr;
    assert r[20] == hi[0] && r[21] == hi[1];
    assert r[26] == lo[0] && r[27] == lo[1];
    assert r[28] == sz[0] && r[29] == sz[1] && r[30] == sz[2] && r[31] == sz[3];
    DecodeEncodeU16(e.ciHead / 0x1_0000);
    DecodeEncodeU16(e.ciHead % 0x1_0000);
    DecodeEncodeU32(e.size);
    assert ReadU16(r, 20) == ReadU16(hi, 0);
    assert ReadU16(r, 26) == ReadU16(lo, 0);
    assert ReadU32(r, 28) == ReadU32(sz, 0);
  }

  /** thinfat_lfn_entry_t: the ordinal byte (0x40 marks the last fragment, the low
      five bits its position), the checksum of the short name, and 13 UTF-16 units
      (the source adds a NUL unit after them). */
  datatype Lfn = Lfn(order: u8, checksum: u8, partial: seq<u16>)

  /** Where the 13 name units of a fragment lie: five at 1, six at 14, two at 28. */
  const LfnOffsets: seq<nat> := [1, 3, 5, 7, 9, 14, 16, 18, 20, 22, 24, 28, 30]

  /** The fragment in the slot at `o`, as a value. */
  function LfnAt(src: seq<u8>, o: nat): (l: Lfn)
    requires o + SlotSize <= |src|
    ensures |l.partial| == 13
  {
    Lfn(src[o], src[o + 13], seq(13, j requires 0 <= j < 13 => ReadU16(src, o + LfnOffsets[j])))
  }

  /** The unit offsets are increasing and two bytes apart at least, so the units do
      not overlap, and none touches the ordinal (0), the attribute (11), the type
      (12), the checksum (13) or the always-zero cluster word (26, 27). */
  lemma LfnOffsetsLayout()
    ensures |LfnOffsets| == 13
    ensures forall j :: 0 <= j < 13 ==> 1 <= LfnOffsets[j] && LfnOffsets[j] + 2 <= SlotSize
    ensures forall j :: 0 <= j < 12 ==> LfnOffsets[j] + 2 <= LfnOffsets[j + 1]
    ensures forall j :: 0 <= j < 13 ==> LfnOffsets[j] + 1 < 11 || (14 <= LfnOffsets[j] && LfnOffsets[j] + 1 < 26) || 28 <= LfnOffsets[j]
  {
  }

  /** The three runs of units: five at 1, six at 14 and two at 28, two bytes apart. */
  lemma LfnOffsetsRuns()
    ensures forall i :: 0 <= i < 5 ==> LfnOffsets[i] == i * 2 + 1
    ensures forall i :: 0 <= i < 6 ==> LfnOffsets[i + 5] == i * 2 + 14
    ensures forall i :: 0 <= i < 2 ==> LfnOffsets[i + 11] == i * 2 + 28
  {
  }

  /** thinfat_decode_lfn_entry: the three copying loops, one per run of units. */
  method DecodeLfnEntry(src: seq<u8>, o: nat) returns (l: Lfn)
    requires o + SlotSize <= |src|
    ensures l == LfnAt(src, o)
  {
    var partial := new u16[13];
    LfnOffsetsRuns();
    for i := 0 to 5
      invariant forall j :: 0 <= j < i ==> partial[j] == ReadU16(src, o + LfnOffsets[j])
    {
      partial[i] := ReadU16(src, o + i * 2 + 1);
    }
    for i := 0 to 6
      invariant forall j :: 0 <= j < 5 + i ==> partial[j] == ReadU16(src, o + LfnOffsets[j])
    {
      partial[i + 5] := ReadU16(src, o + i * 2 + 14);
    }
    for i := 0 to 2
      invariant forall j :: 0 <= j < 11 + i ==> partial[j] == ReadU16(src, o + LfnOffsets[j])
    {
      partial[i + 11] := ReadU16(src, o + i * 2 + 28);
    }
    l := Lfn(src[o], src[o + 13], partial[..]);
  }

  /** thinfat_root_sector_count: the FAT16 root area in whole sectors. */
  function RootSectorCount(rootEntryCount: u16): (r: nat)
    ensures r * SectorSize >= rootEntryCount * SlotSize
    ensures r == 0 || (r - 1) * SectorSize < rootEntryCount * SlotSize
    ensures r <= 4096
  {
    (rootEntryCount * 32 + SectorSize - 1) / SectorSize
  }

  /** The root area holds every root entry and wastes less than one sector; with
      the usual 512 entries it is 32 sectors. */
  lemma RootSectorCountExample()
    ensures RootSectorCount(512) == 32
    ensures RootSectorCount(0) == 0
    ensures RootSectorCount(1) == 1
  {
  }
}
