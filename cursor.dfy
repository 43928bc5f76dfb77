/** The cluster cursor (thinfat_blk.c): a position inside a cluster chain, or the
    fixed FAT16 root region (cluster 0), as a current cluster and a sector offset
    from the start of the chain. Seeking forward follows the chain one table lookup
    per cluster; reading streams sectors one at a time through the cursor's own
    cache and asks the client after each one whether to go on. */
module Cursor {
  import opened Common
  import opened Volume
  import opened Cache
  import opened Bytes
  import Table

  datatype BlkState = Idle | Seeking | Reading

  /** The fields of thinfat_blk_t, without the caches. */
  datatype CursorView = CursorView(state: BlkState, client: object?, ciHead: u32, ciCurrent: u32,
                                   soCurrent: u32, event: Event, soSeek: u32, scRead: u32)

  /** What a cursor step does next: answer at once, or read a sector through the
      table cache (a chain lookup) or through the cursor's own cache (data). */
  datatype Move =
    | Answer(reply: Reply)
    | TableRead(sector: u32)
    | DataRead(sector: u32)

  /** thinfat_ctos: the first sector of cluster `ci`, with the cluster shift as the
      shift (the source names it ctos_shift); every step is modulo 2^32, so cluster
      0 and 1 wrap around. */
  function Ctos(v: Volume, ci: u32): u32
  {
    Wrap32(Wrap32(ci - 2) * Pow2(v.clusterShift) + v.siData)
  }

  /** thinfat_stoc: the cluster that holds sector `si`. */
  function Stoc(v: Volume, si: u32): u32
  {
    Wrap32(Shr(Wrap32(si - v.siData), v.clusterShift) + 2)
  }

  /** Cluster index of a sector offset: `so >> shift`. */
  function ClusterIndex(v: Volume, so: nat): nat
  {
    Shr(so, v.clusterShift)
  }

  // ---------------------------------------------------------------- steps

  /** thinfat_blk_init: idle, nothing open. */
  function InitialCursor(): (c: CursorView)
    ensures c.state == Idle && c.client == null
  {
    CursorView(Idle, null, 0, 0, 0, NoEvent, 0, 0)
  }

  /** thinfat_blk_open: position at the start of the chain from `ci`, unless busy. */
  function OpenStep(c: CursorView, ci: u32): (r: (Result, CursorView))
    ensures c.state != Idle <==> r.0 == BlkBusy
    ensures c.state != Idle ==> r.1 == c
    ensures c.state == Idle ==> r.0 == Ok && r.1 == c.(ciHead := ci, ciCurrent := ci, soCurrent := 0)
  {
    if c.state != Idle then (BlkBusy, c)
    else (Ok, c.(ciHead := ci, ciCurrent := ci, soCurrent := 0))
  }

  /** thinfat_blk_rewind: back to the start of the chain, unless busy. */
  function RewindStep(c: CursorView): (r: (Result, CursorView))
    ensures c.state != Idle <==> r.0 == BlkBusy
    ensures c.state != Idle ==> r.1 == c
    ensures c.state == Idle ==> r.0 == Ok && r.1 == c.(ciCurrent := c.ciHead, soCurrent := 0)
  {
    if c.state != Idle then (BlkBusy, c)
    else (Ok, c.(ciCurrent := c.ciHead, soCurrent := 0))
  }

  /** thinfat_blk_seek: move to sector offset `soSeek`. In the root region, within
      the current cluster, or into the first cluster it answers at once; otherwise
      it restarts from the head when moving backward, records the request and
      looks up the next cluster of the current one. */
  function SeekStep(c: CursorView, v: Volume, client: object?, soSeek: u32, event: Event): (CursorView, Move)
  {
    var k := v.clusterShift;
    if c.state != Idle then (c, Answer(Return(BlkBusy)))
    else if c.ciCurrent == 0 then (c.(soCurrent := soSeek), Answer(Deliver(client, event, soSeek)))
    else if Shr(soSeek, k) == Shr(c.soCurrent, k) then (c.(soCurrent := soSeek), Answer(Deliver(client, event, soSeek)))
    else if Shr(soSeek, k) == 0 then (c.(soCurrent := soSeek, ciCurrent := c.ciHead), Answer(Deliver(client, event, soSeek)))
    else
      var from := if soSeek < c.soCurrent then c.(soCurrent := 0, ciCurrent := c.ciHead) else c;
      var w := from.(state := Seeking, event := event, client := client, soSeek := soSeek);
      (w, TableRead(Table.TableSector(v, w.ciCurrent)))
  }

  /** A busy cursor refuses; a seek that ends at once (the root region, the same
      cluster, the first cluster) lands on the target offset and hands it to the
      client; otherwise it records the request, restarts from the head when going
      backward, and looks up the next cluster of a position in an earlier cluster
      than the target's. A seek never reads data. */
  lemma SeekStepFacts(c: CursorView, v: Volume, client: object?, soSeek: u32, event: Event)
    ensures var r := SeekStep(c, v, client, soSeek, event);
      && (c.state != Idle ==> r == (c, Answer(Return(BlkBusy))))
      && (c.state == Idle && r.1.Answer? ==>
            r.1.reply == Deliver(client, event, soSeek) && r.0.soCurrent == soSeek && r.0.state == Idle)
      && (c.state == Idle && r.1.Answer? ==>
            r.0.ciCurrent == (if c.ciCurrent != 0 && ClusterIndex(v, soSeek) != ClusterIndex(v, c.soCurrent) then c.ciHead else c.ciCurrent))
      && (c.state == Idle ==>
            (r.1.Answer? <==> c.ciCurrent == 0 || ClusterIndex(v, soSeek) == ClusterIndex(v, c.soCurrent) || ClusterIndex(v, soSeek) == 0))
      && !r.1.DataRead?
      && (r.1.TableRead? ==>
            && r.0 == c.(state := Seeking, event := event, client := client, soSeek := soSeek,
                         soCurrent := r.0.soCurrent, ciCurrent := r.0.ciCurrent)
            && r.1.sector == Table.TableSector(v, r.0.ciCurrent)
            && ClusterIndex(v, r.0.soCurrent) < ClusterIndex(v, soSeek)
            && (soSeek < c.soCurrent ==> r.0.soCurrent == 0 && r.0.ciCurrent == c.ciHead)
            && (soSeek >= c.soCurrent ==> r.0.soCurrent == c.soCurrent && r.0.ciCurrent == c.ciCurrent))
  {
    var k := v.clusterShift;
    if c.state == Idle && c.ciCurrent != 0 && Shr(soSeek, k) != Shr(c.soCurrent, k) && Shr(soSeek, k) != 0 {
      if soSeek < c.soCurrent {
        ShrMonotone(0, soSeek, k);
      } else {
        ShrMonotone(c.soCurrent, soSeek, k);
      }
    }
  }

  /** The lookup completion (THINFAT_BLK_EVENT_LOOKUP) given the decoded entry of the
      current cluster: step to that cluster, one cluster further on, and either go
      on seeking for the remembered client or report the end of the chain. */
  function LookupDone(c: CursorView, v: Volume, entry: u32): (r: (CursorView, Move))
    ensures var stepped := c.(ciCurrent := entry, soCurrent := Wrap32(c.soCurrent + Pow2(v.clusterShift)), state := Idle);
      && (IsClusterValid(entry) ==> r == SeekStep(stepped, v, c.client, c.soSeek, c.event))
      && (!IsClusterValid(entry) ==> r == (stepped, Answer(Return(Eof))))
  {
    var stepped := c.(ciCurrent := entry, soCurrent := Wrap32(c.soCurrent + Pow2(v.clusterShift)), state := Idle);
    if IsClusterValid(entry) then SeekStep(stepped, v, c.client, c.soSeek, c.event)
    else (stepped, Answer(Return(Eof)))
  }

  /** The sector the cursor reads: its offset inside the current cluster added to
      the cluster's first sector (modulo 2^32). */
  function CurrentSector(c: CursorView, v: Volume): u32
  {
    Wrap32(Ctos(v, c.ciCurrent) + LowBits(c.soCurrent, v.clusterShift))
  }

  /** thinfat_blk_read_each_sector: start streaming `scRead` sectors to `client`
      from the current position, unless busy. */
  function ReadEachSectorStep(c: CursorView, v: Volume, client: object?, scRead: u32, event: Event): (r: (CursorView, Move))
    ensures c.state != Idle ==> r == (c, Answer(Return(BlkBusy)))
    ensures c.state == Idle ==>
      r == (c.(state := Reading, event := event, scRead := scRead, client := client), DataRead(CurrentSector(c, v)))
  {
    if c.state != Idle then (c, Answer(Return(BlkBusy)))
    else (c.(state := Reading, event := event, scRead := scRead, client := client), DataRead(CurrentSector(c, v)))
  }

  /** The data-read completion (THINFAT_BLK_EVENT_READ_SINGLE), given what the client
      answered when handed the sector: on OK count the sector and, while sectors
      remain, move one sector on with the cursor itself as the seek's client; ABORT
      ends the stream with OK; any other answer is passed up. */
  function ReadSingleDone(c: CursorView, v: Volume, self: object?, clientResult: Result): (r: (CursorView, Move))
    ensures clientResult != Ok ==> r == (c.(state := Idle), Answer(Return(if clientResult == Abort then Ok else clientResult)))
    ensures clientResult == Ok && c.scRead == 1 ==> r == (c.(state := Idle, scRead := 0), Answer(Return(Ok)))
    ensures clientResult == Ok && c.scRead != 1 ==>
      r == SeekStep(c.(state := Idle, scRead := Wrap32(c.scRead - 1)), v, self, Wrap32(c.soCurrent + 1), BlkReadSingleLookup)
  {
    var idle := c.(state := Idle);
    if clientResult == Ok then
      var counted := idle.(scRead := Wrap32(c.scRead - 1));
      if counted.scRead > 0 then SeekStep(counted, v, self, Wrap32(c.soCurrent + 1), BlkReadSingleLookup)
      else (counted, Answer(Return(Ok)))
    else
      (idle, Answer(Return(if clientResult == Abort then Ok else clientResult)))
  }

  /** The completion of the seek to the next sector (THINFAT_BLK_EVENT_READ_SINGLE_LOOKUP):
      read on with the remembered client, count and event. */
  function ReadSingleLookupDone(c: CursorView, v: Volume): (r: (CursorView, Move))
    ensures r == ReadEachSectorStep(c.(state := Idle), v, c.client, c.scRead, c.event)
    ensures r.1.DataRead? && r.0.client == c.client && r.0.event == c.event && r.0.scRead == c.scRead
  {
    ReadEachSectorStep(c.(state := Idle), v, c.client, c.scRead, c.event)
  }

  // ---------------------------------------------------------------- properties

  /** On a data region that does not wrap, a cluster id of at least 2 survives the
      trip to its first sector and back. */
  lemma CtosStocRoundTrip(v: Volume, ci: u32)
    requires ci >= 2
    requires (ci - 2) * Pow2(v.clusterShift) + v.siData < 0x1_0000_0000
    ensures Stoc(v, Ctos(v, ci)) == ci
  {
    var k := v.clusterShift;
    var q := ci - 2;
    var x := q * Pow2(k);
    CtosNoWrap(v, ci);
    SmallWrap(Ctos(v, ci) - v.siData);
    MulSucc(q, Pow2(k));
    ShrUnique(x, k, q);
    SmallWrap(q + 2);
  }

  /** Without wrap-around a cluster's first sector is the plain sum. */
  lemma CtosNoWrap(v: Volume, ci: u32)
    requires ci >= 2
    requires (ci - 2) * Pow2(v.clusterShift) + v.siData < 0x1_0000_0000
    ensures Ctos(v, ci) == (ci - 2) * Pow2(v.clusterShift) + v.siData
  {
    assert Wrap32(ci - 2) == ci - 2;
  }

  /** Without wrap-around a sector's cluster is its distance from the data region,
      shifted, plus 2. */
  lemma StocNoWrap(v: Volume, si: u32)
    requires v.siData <= si && Shr(si - v.siData, v.clusterShift) + 2 < 0x1_0000_0000
    ensures Stoc(v, si) == Shr(si - v.siData, v.clusterShift) + 2
  {
    assert Wrap32(si - v.siData) == si - v.siData;
  }

  /** A sector in the data region maps to its cluster and back to the first sector
      of that cluster: the sector minus its offset inside the cluster. */
  lemma StocCtosRoundTrip(v: Volume, si: u32)
    requires v.siData <= si && si - v.siData + 2 < 0x1_0000_0000
    ensures Ctos(v, Stoc(v, si)) == si - LowBits(si - v.siData, v.clusterShift)
  {
    var k := v.clusterShift;
    var x := si - v.siData;
    var q := Shr(x, k);
    var low := LowBits(x, k);
    assert q * Pow2(k) + low == x;
    StocNoWrap(v, si);
    CtosNoWrap(v, q + 2);
  }

  /** Every sector the cursor reads lies in its current cluster. */
  lemma ReadStaysInCluster(c: CursorView, v: Volume)
    requires c.ciCurrent >= 2
    requires (c.ciCurrent - 2 + 1) * Pow2(v.clusterShift) + v.siData < 0x1_0000_0000
    ensures Stoc(v, CurrentSector(c, v)) == c.ciCurrent
  {
    var k := v.clusterShift;
    var m := c.ciCurrent - 2;
    var low := LowBits(c.soCurrent, k);
    MulSucc(m, Pow2(k));
    CtosNoWrap(v, c.ciCurrent);
    SmallWrap(Ctos(v, c.ciCurrent) + low);
    assert CurrentSector(c, v) == m * Pow2(k) + v.siData + low;
    StocWithinCluster(v, m, low);
  }

  /** Every sector of the cluster at index `m` of the data region maps back to it. */
  lemma StocWithinCluster(v: Volume, m: nat, low: nat)
    requires low < Pow2(v.clusterShift) && m + 2 < 0x1_0000_0000
    requires (m + 1) * Pow2(v.clusterShift) + v.siData < 0x1_0000_0000
    ensures m * Pow2(v.clusterShift) + v.siData + low < 0x1_0000_0000
    ensures Stoc(v, m * Pow2(v.clusterShift) + v.siData + low) == m + 2
  {
    var k := v.clusterShift;
    var si := m * Pow2(k) + v.siData + low;
    assert si < 0x1_0000_0000 by {
      MulSucc(m, Pow2(k));
    }
    ClusterOfOffset(m, low, k);
    StocNoWrap(v, si);
  }

  /** Offset `low` into cluster index `m` shifts back to `m`. */
  lemma ClusterOfOffset(m: nat, low: nat, k: nat)
    requires low < Pow2(k)
    ensures Shr(m * Pow2(k) + low, k) == m
  {
    MulSucc(m, Pow2(k));
    ShrUnique(m * Pow2(k) + low, k, m);
  }

  /** Streaming on past the end of a cluster without a seek reads the same
      cluster again: offsets one cluster apart give the same sector. */
  lemma ReadCyclesInCluster(c: CursorView, v: Volume)
    requires c.soCurrent + Pow2(v.clusterShift) < 0x1_0000_0000
    ensures CurrentSector(c, v) == CurrentSector(c.(soCurrent := c.soCurrent + Pow2(v.clusterShift)), v)
  {
    LowBitsPeriodic(c.soCurrent, v.clusterShift);
  }

  /** The fixed FAT16 root region is read at cluster 0, whose first sector comes out
      two clusters below the data region (modulo 2^32). */
  lemma RootRegionAddress(v: Volume)
    ensures Ctos(v, 0) == Wrap32(v.siData - 2 * Pow2(v.clusterShift))
  {
    assert Wrap32(0 - 2) == 0x1_0000_0000 - 2;
    assert Wrap32(0 - 2) * Pow2(v.clusterShift) + v.siData
      == 0x1_0000_0000 * Pow2(v.clusterShift) + (v.siData - 2 * Pow2(v.clusterShift));
    WrapMultiple(Pow2(v.clusterShift), v.siData - 2 * Pow2(v.clusterShift));
  }

  lemma WrapMultiple(m: nat, x: int)
    ensures Wrap32(0x1_0000_0000 * m + x) == Wrap32(x)
  {
  }

  /** The cluster reached from `ci` by following `n` table entries. */
  function Follow(fat: u32 -> u32, ci: u32, n: nat): u32
    decreases n
  {
    if n == 0 then ci else Follow(fat, fat(ci), n - 1)
  }

  /** The seek continued for up to `n` further lookups, each completion seeing the
      entry `fat` gives for the current cluster. */
  function Resume(c: CursorView, v: Volume, fat: u32 -> u32, n: nat): (CursorView, Move)
    decreases n
  {
    var r := LookupDone(c, v, fat(c.ciCurrent));
    if r.1.TableRead? && n > 0 then Resume(r.0, v, fat, n - 1) else r
  }

  /** A seek started by thinfat_blk_seek over a chain of valid, non-zero clusters
      reaches its target after exactly as many lookups as cluster boundaries lie
      between the position and the target: it then stands `d` clusters further
      along the chain, at the target offset, and answers the client that asked. */
  lemma {:induction false} SeekRun(c: CursorView, v: Volume, fat: u32 -> u32, d: nat)
    requires c.state == Seeking && c.ciCurrent != 0
    requires d >= 1 && ClusterIndex(v, c.soSeek) == ClusterIndex(v, c.soCurrent) + d
    requires c.soCurrent + d * Pow2(v.clusterShift) < 0x1_0000_0000
    requires forall i :: 1 <= i <= d ==> Follow(fat, c.ciCurrent, i) != 0 && IsClusterValid(Follow(fat, c.ciCurrent, i))
    ensures var r := Resume(c, v, fat, d - 1);
      && r.1 == Answer(Deliver(c.client, c.event, c.soSeek))
      && r.0 == c.(state := Idle, ciCurrent := Follow(fat, c.ciCurrent, d), soCurrent := c.soSeek)
    ensures forall n :: 0 <= n < d - 1 ==> Resume(c, v, fat, n).1.TableRead?
    decreases d
  {
    var P := Pow2(v.clusterShift);
    var entry := fat(c.ciCurrent);
    assert Follow(fat, c.ciCurrent, 1) == entry;
    LookupStep(c, v, entry, d);
    if d > 1 {
      var next := c.(ciCurrent := entry, soCurrent := c.soCurrent + P);
      forall i | 1 <= i <= d - 1
        ensures Follow(fat, entry, i) != 0 && IsClusterValid(Follow(fat, entry, i))
      {
        assert Follow(fat, c.ciCurrent, i + 1) == Follow(fat, entry, i);
      }
      MulSucc(d - 1, P);
      SeekRun(next, v, fat, d - 1);
      assert Follow(fat, entry, d - 1) == Follow(fat, c.ciCurrent, d);
      forall n | 0 <= n < d - 1
        ensures Resume(c, v, fat, n).1.TableRead?
      {
        if n > 0 {
          assert Resume(c, v, fat, n) == Resume(next, v, fat, n - 1);
        }
      }
    }
  }

  /** One lookup completion of a seek that is `d` clusters short of its target:
      the cursor moves one cluster on, and either answers (the last cluster) or
      looks up the next one. */
  lemma LookupStep(c: CursorView, v: Volume, entry: u32, d: nat)
    requires c.state == Seeking && entry != 0 && IsClusterValid(entry)
    requires d >= 1 && ClusterIndex(v, c.soSeek) == ClusterIndex(v, c.soCurrent) + d
    requires c.soCurrent + d * Pow2(v.clusterShift) < 0x1_0000_0000
    ensures var so1 := c.soCurrent + Pow2(v.clusterShift);
      && so1 < 0x1_0000_0000 && ClusterIndex(v, so1) == ClusterIndex(v, c.soCurrent) + 1
      && (d == 1 ==> LookupDone(c, v, entry)
                     == (c.(state := Idle, ciCurrent := entry, soCurrent := c.soSeek), Answer(Deliver(c.client, c.event, c.soSeek))))
      && (d > 1 ==> LookupDone(c, v, entry)
                    == (c.(ciCurrent := entry, soCurrent := so1), TableRead(Table.TableSector(v, entry))))
  {
    var k := v.clusterShift;
    var P := Pow2(k);
    var so1 := c.soCurrent + P;
    assert so1 < 0x1_0000_0000 by {
      MulMonotone(1, d, P);
    }
    SmallWrap(so1);
    ShrStep(c.soCurrent, k);
    var stepped := c.(ciCurrent := entry, soCurrent := so1, state := Idle);
    assert LookupDone(c, v, entry) == SeekStep(stepped, v, c.client, c.soSeek, c.event);
    if d > 1 {
      FarTarget(c.soCurrent, c.soSeek, k, d);
    }
  }

  /** A target two or more clusters ahead lies past the start of the next cluster. */
  lemma FarTarget(so: nat, t: nat, k: nat, d: nat)
    requires d >= 2 && Shr(t, k) == Shr(so, k) + d
    ensures t >= so + Pow2(k)
  {
    var P := Pow2(k);
    var q := Shr(so, k);
    ShrBounds(t, k);
    ShrBounds(so, k);
    MulMonotone(q + 2, Shr(t, k), P);
    MulSucc(q + 1, P);
  }

  /** A stream that crosses a cluster boundary seeks with the cursor itself as the
      client and the read-on tag as the event, and those replace the fields that
      held the original client and its event. */
  lemma StreamCrossingReplacesClient(c: CursorView, v: Volume, self: object?)
    requires c.state == Reading && c.ciCurrent != 0 && c.scRead > 1
    requires ClusterIndex(v, c.soCurrent + 1) == ClusterIndex(v, c.soCurrent) + 1
    requires c.soCurrent + 1 < 0x1_0000_0000
    ensures var r := ReadSingleDone(c, v, self, Ok);
      && r.1.TableRead?
      && r.0.client == self && r.0.event == BlkReadSingleLookup
  {
    assert Wrap32(c.soCurrent + 1) == c.soCurrent + 1;
  }

  // ---------------------------------------------------------------- the cursor object

  /** The effect of a move on the two caches it may go through: which slot changes,
      the device requests issued, and the reply that comes back. */
  datatype Effect = Effect(table: Slot, data: Slot, issued: seq<Request>, reply: Reply)

  function Perform(m: Move, self: object?, table: Slot, tableData: seq<u8>, data: Slot, dataData: seq<u8>): (e: Effect)
    ensures m.Answer? ==> e == Effect(table, data, [], m.reply)
    ensures m.TableRead? ==> e.data == data
    ensures m.DataRead? ==> e.table == table
  {
    match m
    case Answer(reply) => Effect(table, data, [], reply)
    case TableRead(s) =>
      var o := ReadSingle(table, tableData, self, s, BlkLookup);
      Effect(o.slot, data, o.issued, o.reply)
    case DataRead(s) =>
      var o := ReadSingle(data, dataData, self, s, BlkReadSingle);
      Effect(table, o.slot, o.issued, o.reply)
  }

  /** thinfat_blk_t with its own cache for data and the filesystem's table cache
      for chain lookups; both talk to the same device. */
  class ClusterCursor {
    var state: BlkState
    var client: object?
    var ciHead: u32
    var ciCurrent: u32
    var soCurrent: u32
    var event: Event
    var soSeek: u32
    var scRead: u32
    const parent: Filesystem
    const cache: SectorCache
    const tableCache: SectorCache

    predicate Valid()
      reads this, cache, tableCache
    {
      cache.Valid() && tableCache.Valid() && cache != tableCache && cache.dev == tableCache.dev
    }

    function View(): CursorView
      reads this
    {
      CursorView(state, client, ciHead, ciCurrent, soCurrent, event, soSeek, scRead)
    }

    /** thinfat_blk_init: idle, with a fresh cache of its own. */
    constructor (parent: Filesystem, tableCache: SectorCache)
      requires tableCache.Valid()
      ensures Valid() && fresh(cache) && fresh(cache.data)
      ensures View() == InitialCursor() && cache.View() == InitialSlot()
      ensures this.parent == parent && this.tableCache == tableCache && cache.dev == tableCache.dev
    {
      state := Idle;
      cache := new SectorCache(parent, tableCache.dev);
      this.parent := parent;
      this.tableCache := tableCache;
      client := null;
      ciHead, ciCurrent, soCurrent := 0, 0, 0;
      event := NoEvent;
      soSeek, scRead := 0, 0;
    }

    /** thinfat_blk_open. */
    method Open(ci: u32) returns (res: Result)
      modifies this
      ensures (res, View()) == OpenStep(old(View()), ci)
    {
      if state != Idle {
        return BlkBusy;
      }
      ciHead := ci;
      ciCurrent := ci;
      soCurrent := 0;
      return Ok;
    }

    /** thinfat_blk_rewind. */
    method Rewind() returns (res: Result)
      modifies this
      ensures (res, View()) == RewindStep(old(View()))
    {
      if state != Idle {
        return BlkBusy;
      }
      ciCurrent := ciHead;
      soCurrent := 0;
      return Ok;
    }

    /** thinfat_blk_start_lookup: read the table sector holding the entry of the
        current cluster through the table cache. */
    method StartLookup() returns (reply: Reply)
      requires Valid()
      modifies tableCache, tableCache.dev
      ensures var o := ReadSingle(old(tableCache.View()), tableCache.data[..], this, Table.TableSector(parent.View(), ciCurrent), BlkLookup);
        tableCache.View() == o.slot && tableCache.dev.log == old(tableCache.dev.log) + o.issued && reply == o.reply
    {
      var si := Wrap32(parent.siHidden + parent.scReserved + ciCurrent / Table.EntriesPerSector(parent.fatType));
      reply := tableCache.CachedReadSingle(this, si, BlkLookup);
    }

    /** thinfat_blk_seek. */
    method Seek(client: object?, soSeek: u32, event: Event) returns (reply: Reply)
      requires Valid()
      modifies this, tableCache, tableCache.dev
      ensures var r := SeekStep(old(View()), parent.View(), client, soSeek, event);
        var e := Perform(r.1, this, old(tableCache.View()), tableCache.data[..], cache.View(), cache.data[..]);
        View() == r.0 && tableCache.View() == e.table && tableCache.dev.log == old(tableCache.dev.log) + e.issued && reply == e.reply
    {
      var k := parent.clusterShift;
      ghost var spec := SeekStep(View(), parent.View(), client, soSeek, event);
      if state != Idle {
        return Return(BlkBusy);
      }
      if ciCurrent == 0 {
        soCurrent := soSeek;
        return Deliver(client, event, soSeek);
      }
      if Shr(soSeek, k) == Shr(soCurrent, k) {
        soCurrent := soSeek;
        return Deliver(client, event, soSeek);
      } else if Shr(soSeek, k) == 0 {
        soCurrent := soSeek;
        ciCurrent := ciHead;
        return Deliver(client, event, soSeek);
      }
      if soSeek < soCurrent {
        soCurrent := 0;
        ciCurrent := ciHead;
      }
      state := Seeking;
      this.event := event;
      this.client := client;
      this.soSeek := soSeek;
      assert spec == (View(), TableRead(Table.TableSector(parent.View(), ciCurrent)));
      reply := StartLookup();
    }

    /** thinfat_blk_read_each_sector. */
    method ReadEachSector(client: object?, scRead: u32, event: Event) returns (reply: Reply)
      requires Valid()
      modifies this, cache, cache.dev
      ensures var r := ReadEachSectorStep(old(View()), parent.View(), client, scRead, event);
        var e := Perform(r.1, this, tableCache.View(), tableCache.data[..], old(cache.View()), cache.data[..]);
        View() == r.0 && cache.View() == e.data && cache.dev.log == old(cache.dev.log) + e.issued && reply == e.reply
    {
      if state != Idle {
        return Return(BlkBusy);
      }
      var si := Wrap32(Ctos(parent.View(), ciCurrent) + LowBits(soCurrent, parent.clusterShift));
      assert si == CurrentSector(View(), parent.View());
      state := Reading;
      this.event := event;
      this.scRead := scRead;
      this.client := client;
      reply := cache.CachedReadSingle(this, si, BlkReadSingle);
    }

    /** thinfat_blk_callback for the lookup completion: the table cache holds the
        sector with the current cluster's entry. */
    method LookupCallback() returns (reply: Reply)
      requires Valid()
      modifies this, tableCache, tableCache.dev
      ensures var r := LookupDone(old(View()), parent.View(), Table.DecodeEntry(parent.fatType, tableCache.data[..], old(ciCurrent)));
        var e := Perform(r.1, this, old(tableCache.View()), tableCache.data[..], cache.View(), cache.data[..]);
        View() == r.0 && tableCache.View() == e.table && tableCache.dev.log == old(tableCache.dev.log) + e.issued && reply == e.reply
    {
      ghost var entry := Table.DecodeEntry(parent.fatType, tableCache.data[..], ciCurrent);
      var sector := tableCache.data[..];
      if parent.fatType == Fat32 {
        ciCurrent := ReadU32(sector, (ciCurrent * 4) % SectorSize);
      } else {
        ciCurrent := ReadU16(sector, (ciCurrent * 2) % SectorSize);
        if ciCurrent >= 0xFFF7 {
          ciCurrent := InvalidCluster;
        }
      }
      assert ciCurrent == entry;
      soCurrent := Wrap32(soCurrent + Pow2(parent.clusterShift));
      state := Idle;
      if IsClusterValid(ciCurrent) {
        reply := Seek(client, soSeek, event);
      } else {
        reply := Return(Eof);
      }
    }

    /** thinfat_blk_callback for the data-read completion; the sector has been handed
        to the remembered client, which answered `clientResult`. */
    method ReadSingleCallback(clientResult: Result) returns (reply: Reply)
      requires Valid()
      modifies this, tableCache, tableCache.dev
      ensures var r := ReadSingleDone(old(View()), parent.View(), this, clientResult);
        var e := Perform(r.1, this, old(tableCache.View()), tableCache.data[..], cache.View(), cache.data[..]);
        View() == r.0 && tableCache.View() == e.table && tableCache.dev.log == old(tableCache.dev.log) + e.issued && reply == e.reply
    {
      state := Idle;
      if clientResult == Ok {
        scRead := Wrap32(scRead - 1);
        if scRead > 0 {
          reply := Seek(this, Wrap32(soCurrent + 1), BlkReadSingleLookup);
          return;
        }
      } else {
        return Return(if clientResult == Abort then Ok else clientResult);
      }
      reply := Return(Ok);
    }

    /** thinfat_blk_callback for the completion of the seek to the next sector. */
    method ReadSingleLookupCallback() returns (reply: Reply)
      requires Valid()
      modifies this, cache, cache.dev
      ensures var r := ReadSingleLookupDone(old(View()), parent.View());
        var e := Perform(r.1, this, tableCache.View(), tableCache.data[..], old(cache.View()), cache.data[..]);
        View() == r.0 && cache.View() == e.data && cache.dev.log == old(cache.dev.log) + e.issued && reply == e.reply
    {
      state := Idle;
      reply := ReadEachSector(client, scRead, event);
    }
  }
}
