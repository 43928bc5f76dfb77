/** Next-cluster lookup in the file allocation table (thinfat_table.c). The table
    has a sector cache of its own; a lookup reads the table sector that holds the
    entry and, on completion, decodes the entry and hands the next cluster on. */
module Table {
  import opened Common
  import opened Bytes
  import opened Volume
  import opened Cache

  datatype TableState = Idle | Lookup

  /** Table entries per sector: 512 shifted right by the type's enumerator value,
      so 256 two-byte entries on FAT16 and 128 four-byte entries on FAT32. */
  function EntriesPerSector(t: FatType): (r: nat)
    ensures r == Shr(SectorSize, TypeCode(t))
    ensures t == Fat16 ==> r == 256
    ensures t == Fat32 ==> r == 128
  {
    match t
    case Unknown => 512
    case Fat16 => 256
    case Fat32 => 128
  }

  /** Bytes per table entry as the completion decodes it: four on FAT32, two otherwise. */
  function EntryWidth(t: FatType): nat
  {
    if t == Fat32 then 4 else 2
  }

  /** The absolute sector that holds the entry of cluster `c`: the first FAT starts
      right after the reserved area (the sum is modulo 2^32). */
  function TableSector(v: Volume, c: u32): u32
  {
    Wrap32(v.siHidden + v.scReserved + c / EntriesPerSector(v.fatType))
  }

  /** The byte offset of the entry of cluster `c` inside its sector. */
  function EntryOffset(t: FatType, c: u32): (r: nat)
    ensures r + EntryWidth(t) <= SectorSize
  {
    (c * EntryWidth(t)) % SectorSize
  }

  /** The completion's decoding of the entry of cluster `c` from its table sector:
      FAT32 entries are taken whole; FAT16 values from 0xFFF7 up (bad cluster and
      end of chain) become the invalid-cluster sentinel. */
  function DecodeEntry(t: FatType, sector: seq<u8>, c: u32): (r: u32)
    requires |sector| == SectorSize
    ensures t != Fat32 ==> (IsClusterValid(r) <==> ReadU16(sector, EntryOffset(t, c)) < 0xFFF7)
    ensures t != Fat32 ==> (IsClusterValid(r) ==> r == ReadU16(sector, EntryOffset(t, c)))
    ensures t != Fat32 && !IsClusterValid(r) ==> r == InvalidCluster
    ensures t == Fat32 ==> r == ReadU32(sector, EntryOffset(t, c))
  {
    if t == Fat32 then
      ReadU32(sector, EntryOffset(t, c))
    else
      var raw := ReadU16(sector, EntryOffset(t, c));
      if raw >= 0xFFF7 then InvalidCluster else raw
  }

  // ---------------------------------------------------------------- properties

  /** On FAT16 and FAT32 the sector chosen by the lookup and the offset used by the
      completion together address entry `c` of the table seen as one byte array:
      sector index times 512 plus offset is `c` times the entry width. */
  lemma EntryPlacement(t: FatType, c: u32)
    requires t != Unknown
    ensures (c / EntriesPerSector(t)) * SectorSize + EntryOffset(t, c) == c * EntryWidth(t)
    ensures EntryOffset(t, c) == (c % EntriesPerSector(t)) * EntryWidth(t)
  {
    var q := c / EntriesPerSector(t);
    var r := c % EntriesPerSector(t);
    if t == Fat32 {
      assert c as int == q * 128 + r;
      assert c * 4 == q * 512 + r * 4;
      SectorSplit(c * 4, q, r * 4);
    } else {
      assert c as int == q * 256 + r;
      assert c * 2 == q * 512 + r * 2;
      SectorSplit(c * 2, q, r * 2);
    }
  }

  /** A byte position splits uniquely into a sector index and an offset below 512. */
  lemma SectorSplit(x: nat, q: nat, r: nat)
    requires x == q * 512 + r && r < 512
    ensures x % 512 == r && x / 512 == q
  {
  }

  /** Given the first FAT as one byte array, the entry the completion decodes from
      the sector the lookup reads is the little-endian value stored at byte `c`
      times the entry width, with the FAT16 end-of-chain range mapped to the sentinel. */
  lemma {:induction false} LookupReadsEntry(t: FatType, image: seq<u8>, c: u32)
    requires t != Unknown
    requires (c / EntriesPerSector(t) + 1) * SectorSize <= |image|
    ensures var q := c / EntriesPerSector(t);
      var sector := image[q * SectorSize..(q + 1) * SectorSize];
      && c * EntryWidth(t) + EntryWidth(t) <= |image|
      && (t == Fat32 ==> DecodeEntry(t, sector, c) == ReadU32(image, c * 4))
      && (t == Fat16 ==> DecodeEntry(t, sector, c) == (if ReadU16(image, c * 2) >= 0xFFF7 then InvalidCluster else ReadU16(image, c * 2)))
  {
    var q := c / EntriesPerSector(t);
    var base := q * SectorSize;
    var sector := image[base..base + SectorSize];
    var off := EntryOffset(t, c);
    EntryPlacement(t, c);
    assert base + off == c * EntryWidth(t);
    assert sector[off] == image[base + off];
    assert sector[off + 1] == image[base + off + 1];
    if t == Fat32 {
      assert sector[off + 2] == image[base + off + 2];
      assert sector[off + 3] == image[base + off + 3];
      assert ReadU32(sector, off) == ReadU32(image, c * 4);
    } else {
      assert ReadU16(sector, off) == ReadU16(image, c * 2);
    }
  }

  /** FAT32 entries are compared whole against the sentinel, so an entry whose
      four reserved high bits are set ends the chain whatever its low 28 bits say. */
  lemma Fat32HighBitsEndChain(sector: seq<u8>, c: u32)
    requires |sector| == SectorSize
    requires ReadU32(sector, EntryOffset(Fat32, c)) >= 0x1000_0000
    ensures !IsClusterValid(DecodeEntry(Fat32, sector, c))
  {
  }

  // ---------------------------------------------------------------- the table object

  /** thinfat_table_t: the lookup in progress (client, its event, the cluster whose
      entry is wanted) and the table's own sector cache. */
  class TableWalker {
    var state: TableState
    var client: object?
    var event: Event
    var ciTarget: u32
    const parent: Filesystem
    const cache: SectorCache

    /** thinfat_table_init: idle, with a fresh empty cache on the same device. */
    constructor (parent: Filesystem, dev: Device)
      ensures state == Idle && this.parent == parent
      ensures fresh(cache) && fresh(cache.data) && cache.Valid()
      ensures cache.View() == InitialSlot() && cache.parent == parent && cache.dev == dev
    {
      this.parent := parent;
      state := Idle;
      cache := new SectorCache(parent, dev);
      client := null;
      event := NoEvent;
      ciTarget := 0;
    }

    /** thinfat_table_lookup: remember who asked, then read the entry's table
        sector through the cache with the table as the cache's client. The state
        is left as it was (the source does not mark the lookup as in progress). */
    method Lookup(client: object?, ciTarget: u32, event: Event) returns (reply: Reply)
      requires cache.Valid()
      modifies this, cache, cache.dev
      ensures this.client == client && this.event == event && this.ciTarget == ciTarget
      ensures state == old(state)
      ensures var o := ReadSingle(old(cache.View()), cache.data[..], this, TableSector(parent.View(), ciTarget), TableLookup);
        cache.View() == o.slot && cache.dev.log == old(cache.dev.log) + o.issued && reply == o.reply
    {
      var si := Wrap32(parent.siHidden + parent.scReserved + ciTarget / EntriesPerSector(parent.fatType));
      this.client := client;
      this.event := event;
      this.ciTarget := ciTarget;
      reply := cache.CachedReadSingle(this, si, TableLookup);
    }

    /** thinfat_table_callback: the cache has delivered the table sector; decode the
        wanted entry and pass it on to the remembered client with its remembered
        event. Any other tag only returns to idle (the source's function has no
        return value on that path; OK is assumed). */
    method Callback(ev: Event) returns (reply: Reply, ciNext: u32)
      requires cache.Valid()
      modifies this
      ensures state == Idle
      ensures client == old(client) && event == old(event) && ciTarget == old(ciTarget)
      ensures ev == TableLookup ==> ciNext == DecodeEntry(parent.fatType, cache.data[..], ciTarget)
      ensures ev == TableLookup ==> reply == Deliver(client, event, InvalidSector)
      ensures ev != TableLookup ==> reply == Return(Ok) && ciNext == InvalidCluster
    {
      state := Idle;
      if ev != TableLookup {
        return Return(Ok), InvalidCluster;
      }
      var sector := cache.data[..];
      // four bytes per entry on FAT32, two otherwise, within the table sector
      var off := EntryOffset(parent.fatType, ciTarget);
      if parent.fatType == Fat32 {
        ciNext := ReadU32(sector, off);
      } else {
        ciNext := ReadU16(sector, off);
        if ciNext >= 0xFFF7 {
          ciNext := InvalidCluster;
        }
      }
      reply := Deliver(client, event, InvalidSector);
    }
  }
}
