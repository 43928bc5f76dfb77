/** Volume recognition (thinfat.c): the MBR partition scan, BPB validation and the
    derived geometry, and the FAT16/FAT32 classification by cluster count. */
module Volume {
  import opened Common
  import opened Bytes

  /** The volume fields of thinfat_t. `siRoot` is the end of the FAT region read by the
      cache's mirroring rule; the source uses it without declaring or assigning it. */
  datatype Volume = Volume(
    fatType: FatType,
    clusterShift: nat,
    tableRedundancy: u8,
    scReserved: u32,
    rootEntryCount: u16,
    scVolumeSize: u32,
    scTableSize: u32,
    ciRoot: u32,
    siData: u32,
    siHidden: u32,
    ciCurrentDir: u32,
    siRoot: u32)

  // ---------------------------------------------------------------- classification

  /** `(sc_volume_size - si_data) >> cluster_shift`, with the subtraction wrapping. */
  function ClusterCount(volumeSize: u32, dataStart: u32, shift: nat): nat
  {
    Shr(Wrap32(volumeSize - dataStart), shift)
  }

  function TypeOfCount(count: nat): FatType
  {
    if count < 4085 then Unknown
    else if count < 65525 then Fat16
    else Fat32
  }

  /** thinfat_determine_type. */
  function DetermineType(volumeSize: u32, dataStart: u32, shift: nat): FatType
  {
    TypeOfCount(ClusterCount(volumeSize, dataStart, shift))
  }

  /** The classification follows the thresholds 4085 and 65525 and never goes down
      as the cluster count grows. */
  lemma DetermineTypeMonotone(c1: nat, c2: nat)
    requires c1 <= c2
    ensures TypeCode(TypeOfCount(c1)) <= TypeCode(TypeOfCount(c2))
    ensures TypeOfCount(c1) == Unknown <==> c1 < 4085
    ensures TypeOfCount(c1) == Fat16 <==> 4085 <= c1 < 65525
    ensures TypeOfCount(c1) == Fat32 <==> 65525 <= c1
  {
  }

  /** When `dataStart <= volumeSize` no wrap occurs, and the count is the number of
      whole clusters between sector `dataStart` and sector `volumeSize`. The data start
      is absolute (it includes the hidden sectors) while the volume size counts from
      the partition start, so this is the cluster count of the partition only when it
      starts at sector 0. */
  lemma ClusterCountInVolume(volumeSize: u32, dataStart: u32, shift: nat)
    requires dataStart <= volumeSize
    ensures ClusterCount(volumeSize, dataStart, shift) * Pow2(shift) <= volumeSize - dataStart
    ensures volumeSize - dataStart < (ClusterCount(volumeSize, dataStart, shift) + 1) * Pow2(shift)
  {
    assert Wrap32(volumeSize - dataStart) == volumeSize - dataStart;
    ShrBounds(volumeSize - dataStart, shift);
  }

  /** The classification as written subtracts the absolute data start from the
      partition-relative volume size. A FAT16 partition at sector 2048 with 112 sectors
      of metadata and 6000 one-sector clusters is classified as unrecognised, and a
      100000-sector partition starting far beyond its own size wraps round to FAT32. */
  lemma HiddenSectorsSkewClassification()
    ensures DetermineType(2048 + 112 + 6000 - 2048, 2048 + 112, 0) == Unknown
    ensures TypeOfCount(6000) == Fat16
    ensures DetermineType(100000, 4000112, 0) == Fat32
  {
    assert Wrap32(6112 - 2160) == 3952;
    assert Wrap32(100000 - 4000112) == 0x1_0000_0000 - 3900112;
  }

  // ---------------------------------------------------------------- cluster shift

  /** Loop state (remaining value, shift) of the shifting loop over BPB_SecPerClus
      after n iterations, as the source writes it: the loop runs while the low bit is
      clear. */
  function ShiftLoopState(v: nat, n: nat): (nat, nat)
  {
    if n == 0 then (v, 0)
    else
      var (w, k) := ShiftLoopState(v, n - 1);
      if w % 2 == 0 then (w / 2, k + 1) else (w, k)
  }

  /** With BPB_SecPerClus == 0 the loop as written never stops: after any number of
      iterations the value is still 0, so its low bit is still clear. */
  lemma {:induction false} ZeroSecPerClusNeverStops(n: nat)
    ensures ShiftLoopState(0, n) == (0, n)
    ensures ShiftLoopState(0, n).0 % 2 == 0
  {
    if n > 0 { ZeroSecPerClusNeverStops(n - 1); }
  }

  /** The odd part and the number of trailing zero bits of a positive value: what the
      shifting loop leaves in BPB_SecPerClus and in cluster_shift. */
  function OddPart(v: nat): (r: (nat, nat))
    requires v > 0
    ensures r.0 % 2 == 1
    ensures r.0 * Pow2(r.1) == v
    decreases v
  {
    if v % 2 == 1 then (v, 0)
    else
      var (o, k) := OddPart(v / 2);
      assert o * Pow2(k + 1) == 2 * (o * Pow2(k));
      (o, k + 1)
  }

  predicate IsPowerOfTwo(v: nat)
  {
    v > 0 && OddPart(v).0 == 1
  }

  /** Every power of two is recognised, with its exponent as the shift. */
  lemma {:induction false} PowerOfTwoRecognised(k: nat)
    ensures IsPowerOfTwo(Pow2(k))
    ensures OddPart(Pow2(k)).1 == k
  {
    if k > 0 {
      PowerOfTwoRecognised(k - 1);
      assert Pow2(k) / 2 == Pow2(k - 1);
    }
  }

  /** A recognised value is exactly 2 to the shift. */
  lemma PowerOfTwoShift(v: nat)
    requires IsPowerOfTwo(v)
    ensures Pow2(OddPart(v).1) == v
  {
  }

  // ---------------------------------------------------------------- BPB

  /** First sector of the data region: hidden + reserved + the FAT copies + the FAT16
      root directory rounded up to whole sectors, all modulo 2^32. */
  function DataStart(hidden: u32, reserved: u32, tableSize: u32, redundancy: u8, rootEntries: u16): u32
  {
    Wrap32(hidden + reserved + tableSize * redundancy + (rootEntries * 32 + SectorSize - 1) / SectorSize)
  }

  /** The worked example of a FAT32 volume: partition at 2048, 32 reserved sectors,
      two FATs of 1024 sectors, no FAT16 root entries. */
  lemma DataStartExample()
    ensures DataStart(2048, 32, 1024, 2, 0) == 4128
  {
  }

  /** Without overflow the data start is the plain sum, the root directory taking
      the least number of whole sectors that holds its 32-byte entries. */
  lemma DataStartNoOverflow(hidden: u32, reserved: u32, tableSize: u32, redundancy: u8, rootEntries: u16)
    requires hidden + reserved + tableSize * redundancy + (rootEntries * 32 + 511) / 512 < 0x1_0000_0000
    ensures var rootSectors := DataStart(hidden, reserved, tableSize, redundancy, rootEntries) - hidden - reserved - tableSize * redundancy;
      rootSectors * 512 >= rootEntries * 32 && (rootSectors - 1) * 512 < rootEntries * 32
  {
    var bytes := rootEntries * 32 + 511;
    var d := bytes / 512;
    assert d * 512 <= bytes < d * 512 + 512;
    assert DataStart(hidden, reserved, tableSize, redundancy, rootEntries) == hidden + reserved + tableSize * redundancy + d;
  }

  /** The completion of the BPB read (thinfat_read_parameter_block_callback): the checks
      in source order, then the fields in source order. With BPB_SecPerClus == 0 the
      source loops forever; this definition rejects it with ErrorBpb instead. */
  function BpbStep(v: Volume, bpb: seq<u8>): (r: (Result, Volume))
    requires |bpb| == SectorSize
    ensures r.0 == Ok || r.0 == ErrorSignature || r.0 == ErrorBpb
    ensures r.0 == ErrorSignature <==> ReadU16(bpb, 510) != 0xAA55
    ensures r.0 == ErrorSignature ==> r.1 == v
    ensures ReadU16(bpb, 510) == 0xAA55 && ReadU16(bpb, 11) != 512 ==> r == (ErrorBpb, v)
    ensures r.0 == Ok <==> ReadU16(bpb, 510) == 0xAA55 && ReadU16(bpb, 11) == 512 && IsPowerOfTwo(bpb[13])
    ensures r.0 == ErrorBpb && ReadU16(bpb, 11) == 512 ==> r.1 == v.(clusterShift := r.1.clusterShift)
    ensures r.0 == Ok ==> Pow2(r.1.clusterShift) == bpb[13] && r.1.clusterShift <= 7
    ensures r.0 == Ok ==> r.1.siHidden == v.siHidden && r.1.siRoot == v.siRoot
  {
    if ReadU16(bpb, 510) != 0xAA55 then (ErrorSignature, v)
    else if ReadU16(bpb, 11) != SectorSize then (ErrorBpb, v)
    else if bpb[13] == 0 then (ErrorBpb, v.(clusterShift := 0))
    else
      var (odd, shift) := OddPart(bpb[13]);
      if odd != 1 then (ErrorBpb, v.(clusterShift := shift))
      else
        PowerOfTwoShift(bpb[13]);
        ShiftBound(bpb[13]);
        (Ok, ParsedVolume(v, bpb, shift))
  }

  /** The fields a valid BPB assigns, in source order, given the cluster shift. */
  function ParsedVolume(v: Volume, bpb: seq<u8>, shift: nat): (w: Volume)
    requires |bpb| == SectorSize
    ensures w.siHidden == v.siHidden && w.siRoot == v.siRoot && w.clusterShift == shift
  {
    var volumeSize16 := ReadU16(bpb, 19);
    var tableSize16 := ReadU16(bpb, 22);
    var volumeSize := if volumeSize16 == 0 then ReadU32(bpb, 32) else volumeSize16;
    var tableSize := if tableSize16 == 0 then ReadU32(bpb, 36) else tableSize16;
    var dataStart := DataStart(v.siHidden, ReadU16(bpb, 14), tableSize, bpb[16], ReadU16(bpb, 17));
    var fatType := DetermineType(volumeSize, dataStart, shift);
    var root := ReadU32(bpb, 44);
    v.(
      clusterShift := shift,
      scReserved := ReadU16(bpb, 14),
      tableRedundancy := bpb[16],
      rootEntryCount := ReadU16(bpb, 17),
      scVolumeSize := volumeSize,
      scTableSize := tableSize,
      ciRoot := root,
      siData := dataStart,
      fatType := fatType,
      ciCurrentDir := if fatType == Fat32 then root else 0)
  }

  lemma ShiftBound(v: u8)
    requires IsPowerOfTwo(v)
    ensures OddPart(v).1 <= 7
  {
    var k := OddPart(v).1;
    if k > 7 {
      Pow2Small();
      Pow2Monotone(8, k);
    }
  }

  /** The 16-bit size fields fall back to their 32-bit counterparts when zero. */
  lemma BpbSizeFallback(v: Volume, bpb: seq<u8>)
    requires |bpb| == SectorSize
    requires BpbStep(v, bpb).0 == Ok
    ensures var w := BpbStep(v, bpb).1;
      && w.scVolumeSize == (if ReadU16(bpb, 19) == 0 then ReadU32(bpb, 32) else ReadU16(bpb, 19))
      && w.scTableSize == (if ReadU16(bpb, 22) == 0 then ReadU32(bpb, 36) else ReadU16(bpb, 22))
      && w.scReserved == ReadU16(bpb, 14) && w.tableRedundancy == bpb[16]
      && w.rootEntryCount == ReadU16(bpb, 17) && w.ciRoot == ReadU32(bpb, 44)
  {
  }

  /** After a successful parse the data start, the type and the current directory
      agree with each other: the type is the classification of the cluster count
      between data start and volume end, and the current directory is the root
      cluster on FAT32 and the fixed root region (cluster 0) otherwise. */
  lemma BpbGeometry(v: Volume, bpb: seq<u8>)
    requires |bpb| == SectorSize
    requires BpbStep(v, bpb).0 == Ok
    ensures var w := BpbStep(v, bpb).1;
      && w.siData == DataStart(v.siHidden, w.scReserved, w.scTableSize, w.tableRedundancy, w.rootEntryCount)
      && w.fatType == DetermineType(w.scVolumeSize, w.siData, w.clusterShift)
      && w.ciCurrentDir == (if w.fatType == Fat32 then w.ciRoot else 0)
  {
  }

  // ---------------------------------------------------------------- MBR

  predicate IsFatPartitionType(t: u8)
  {
    t == 0x04 || t == 0x06 || t == 0x0B || t == 0x0C || t == 0x0E
  }

  function PartitionType(mbr: seq<u8>, i: nat): u8
    requires |mbr| == SectorSize && i < 4
  {
    ReadU8(mbr, 446 + i * 16 + 4)
  }

  function PartitionStart(mbr: seq<u8>, i: nat): u32
    requires |mbr| == SectorSize && i < 4
  {
    ReadU32(mbr, 446 + i * 16 + 8)
  }

  /** The first record, at index `from` or later, whose type byte names a FAT volume. */
  function FirstFatPartition(mbr: seq<u8>, from: nat): (r: Option<nat>)
    requires |mbr| == SectorSize && from <= 4
    ensures r.Some? ==> from <= r.value < 4 && IsFatPartitionType(PartitionType(mbr, r.value))
    ensures r.Some? ==> forall j :: from <= j < r.value ==> !IsFatPartitionType(PartitionType(mbr, j))
    ensures r.None? <==> forall j :: from <= j < 4 ==> !IsFatPartitionType(PartitionType(mbr, j))
    decreases 4 - from
  {
    if from == 4 then None
    else if IsFatPartitionType(PartitionType(mbr, from)) then Some(from)
    else FirstFatPartition(mbr, from + 1)
  }

  /** The worked example: a good signature and a type-0x0C record 0 starting at
      sector 2048 select that partition. */
  lemma MbrExample(mbr: seq<u8>)
    requires |mbr| == SectorSize && ReadU16(mbr, 510) == 0xAA55
    requires mbr[450] == 0x0C
    requires mbr[454..458] == [0x00, 0x08, 0x00, 0x00]
    ensures FirstFatPartition(mbr, 0) == Some(0)
    ensures PartitionStart(mbr, 0) == 2048
  {
    assert mbr[455] == mbr[454..458][1];
    assert mbr[454] == 0 && mbr[456] == 0 && mbr[457] == mbr[454..458][3];
  }

  // ---------------------------------------------------------------- the filesystem object

  /** The volume part of thinfat_t, written in place by the two mount completions. */
  class Filesystem {
    var fatType: FatType
    var clusterShift: nat
    var tableRedundancy: u8
    var scReserved: u32
    var rootEntryCount: u16
    var scVolumeSize: u32
    var scTableSize: u32
    var ciRoot: u32
    var siData: u32
    var siHidden: u32
    var ciCurrentDir: u32
    var siRoot: u32
    const dev: Device

    function View(): Volume
      reads this
    {
      Volume(fatType, clusterShift, tableRedundancy, scReserved, rootEntryCount, scVolumeSize,
             scTableSize, ciRoot, siData, siHidden, ciCurrentDir, siRoot)
    }

    /** thinfat_initialize records the device and assigns nothing else; the model
        starts the volume fields at zero. With `siRoot` zero no sector is ever a FAT
        sector to mirror, and only the scan and recognition assign the other fields. */
    constructor (dev: Device)
      ensures this.dev == dev
      ensures View() == Volume(Unknown, 0, 0, 0, 0, 0, 0, 0, 0, 0, 0, 0)
    {
      this.dev := dev;
      fatType, clusterShift, tableRedundancy, scReserved := Unknown, 0, 0, 0;
      rootEntryCount, scVolumeSize, scTableSize, ciRoot := 0, 0, 0, 0;
      siData, siHidden, ciCurrentDir, siRoot := 0, 0, 0, 0;
    }

    /** thinfat_read_mbr_callback: on a good signature, the first FAT record in index
        order gives the hidden-sector offset and the BPB read is issued there. */
    method ReadMbrCallback(mbr: seq<u8>) returns (res: Result)
      requires |mbr| == SectorSize
      modifies this`siHidden, dev
      ensures ReadU16(mbr, 510) != 0xAA55 ==> res == ErrorSignature
      ensures ReadU16(mbr, 510) == 0xAA55 && FirstFatPartition(mbr, 0).None? ==> res == NoPartition
      ensures res != Ok ==> siHidden == old(siHidden) && dev.log == old(dev.log)
      ensures res == Ok <==> ReadU16(mbr, 510) == 0xAA55 && FirstFatPartition(mbr, 0).Some?
      ensures res == Ok ==> siHidden == PartitionStart(mbr, FirstFatPartition(mbr, 0).value)
      ensures res == Ok ==> dev.log == old(dev.log) + [ReadSector(siHidden)]
    {
      if ReadU16(mbr, 510) != 0xAA55 {
        return ErrorSignature;
      }
      var i := 0;
      while i < 4
        invariant 0 <= i <= 4
        invariant forall j :: 0 <= j < i ==> !IsFatPartitionType(PartitionType(mbr, j))
      {
        var partitionType := ReadU8(mbr, 446 + i * 16 + 4);
        if IsFatPartitionType(partitionType) {
          siHidden := ReadU32(mbr, 446 + i * 16 + 8);
          res := dev.Submit(ReadSector(siHidden));
          return;
        }
        i := i + 1;
      }
      return NoPartition;
    }

    /** thinfat_read_parameter_block_callback: validate the BPB and derive the
        geometry, writing the fields one after another as the source does. */
    method ReadParameterBlockCallback(bpb: seq<u8>) returns (res: Result)
      requires |bpb| == SectorSize
      modifies this
      ensures (res, View()) == BpbStep(old(View()), bpb)
    {
      if ReadU16(bpb, 510) != 0xAA55 {
        return ErrorSignature;
      }
      if ReadU16(bpb, 11) != SectorSize {
        return ErrorBpb;
      }
      var secPerClus := CountClusterShift(ReadU8(bpb, 13));
      if secPerClus != 1 {
        return ErrorBpb;
      }
      AssignGeometry(bpb);
      return Ok;
    }

    /** The shifting loop: cluster_shift counts the low zero bits of BPB_SecPerClus,
        and the odd part that remains is returned. The source's loop tests only the
        low bit and so never stops on 0; this one stops there. */
    method CountClusterShift(secPerClus: u8) returns (odd: nat)
      modifies this`clusterShift
      ensures secPerClus == 0 ==> odd == 0 && clusterShift == 0
      ensures secPerClus > 0 ==> OddPart(secPerClus) == (odd, clusterShift)
    {
      odd := secPerClus;
      clusterShift := 0;
      while odd != 0 && odd % 2 == 0
        invariant secPerClus == 0 ==> odd == 0 && clusterShift == 0
        invariant secPerClus > 0 ==> odd > 0 && OddPart(secPerClus) == (OddPart(odd).0, OddPart(odd).1 + clusterShift)
        decreases odd
      {
        clusterShift := clusterShift + 1;
        odd := odd / 2;
      }
    }

    /** The field writes that follow a valid cluster size, in source order. */
    method AssignGeometry(bpb: seq<u8>)
      requires |bpb| == SectorSize
      modifies this
      ensures View() == ParsedVolume(old(View()), bpb, old(clusterShift))
    {
      ghost var w := ParsedVolume(View(), bpb, clusterShift);
      scReserved := ReadU16(bpb, 14);
      tableRedundancy := ReadU8(bpb, 16);
      rootEntryCount := ReadU16(bpb, 17);
      scVolumeSize := ReadU16(bpb, 19);
      scTableSize := ReadU16(bpb, 22);
      if scVolumeSize == 0 {
        scVolumeSize := ReadU32(bpb, 32);
      }
      if scTableSize == 0 {
        scTableSize := ReadU32(bpb, 36);
      }
      assert scVolumeSize == w.scVolumeSize && scTableSize == w.scTableSize;
      ciRoot := ReadU32(bpb, 44);
      siData := DataStart(siHidden, scReserved, scTableSize, tableRedundancy, rootEntryCount);
      assert siData == w.siData;
      fatType := DetermineType(scVolumeSize, siData, clusterShift);
      assert fatType == w.fatType;
      if fatType == Fat32 {
        ciCurrentDir := ciRoot;
      } else {
        ciCurrentDir := 0;
      }
    }
  }
}
