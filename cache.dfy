/** The single-sector write-back cache (thinfat_cache.c). A cache holds one sector.
    A read of the held sector is answered at once; any other read first writes a
    dirty sector back (with its FAT mirrors when it belongs to the table area) and
    then reads the requested one. */
module Cache {
  import opened Common
  import opened Volume

  datatype CacheState = Invalid | Clean | Dirty

  /** The bookkeeping part of thinfat_cache_t; the sector buffer is kept apart. */
  datatype Slot = Slot(state: CacheState, client: object?, event: Event, siCached: u32, siReplace: u32)

  /** What one cache step leaves behind: the new bookkeeping, the device requests
      it issued in order, and what it does for its client. */
  datatype Outcome = Outcome(slot: Slot, issued: seq<Request>, reply: Reply)

  /** The slot thinfat_cache_init leaves: nothing cached, nothing to replace. */
  function InitialSlot(): (c: Slot)
    ensures c.state == Invalid && c.client == null
    ensures !IsSectorValid(c.siCached) && !IsSectorValid(c.siReplace)
  {
    Slot(Invalid, null, NoEvent, InvalidSector, InvalidSector)
  }

  /** The cache answers a read of `si` from its buffer. */
  predicate Holds(c: Slot, si: u32)
  {
    c.state != Invalid && c.siCached == si
  }

  /** thinfat_cached_read_single on the bookkeeping. */
  function ReadSingle(c: Slot, data: seq<u8>, client: object?, si: u32, event: Event): Outcome
  {
    match c.state
    case Invalid =>
      Outcome(c.(event := event, client := client), [ReadSector(si)], Pending)
    case Clean =>
      if c.siCached == si then Outcome(c, [], Deliver(client, event, si))
      else Outcome(c.(event := event, client := client), [ReadSector(si)], Pending)
    case Dirty =>
      if c.siCached == si then Outcome(c, [], Deliver(client, event, si))
      else Outcome(c.(event := event, siReplace := si, client := client), [WriteSector(c.siCached, data)], Pending)
  }

  /** A hit is delivered at once and changes nothing; a miss remembers the client
      and its event and issues one request, the write-back of the held sector when
      it is dirty and the read of `si` otherwise. A request never changes the state
      or the held sector. */
  lemma ReadSingleFacts(c: Slot, data: seq<u8>, client: object?, si: u32, event: Event)
    ensures var o := ReadSingle(c, data, client, si, event);
      && (Holds(c, si) <==> o.issued == [])
      && o.slot.state == c.state && o.slot.siCached == c.siCached
      && (Holds(c, si) ==> o.slot == c && o.reply == Deliver(client, event, si))
      && (!Holds(c, si) ==> o.reply == Pending && o.slot.client == client && o.slot.event == event)
      && (!Holds(c, si) && c.state != Dirty ==> o.issued == [ReadSector(si)] && o.slot.siReplace == c.siReplace)
      && (!Holds(c, si) && c.state == Dirty ==> o.issued == [WriteSector(c.siCached, data)] && o.slot.siReplace == si)
  {
  }

  /** The FAT copy that follows table sector `s`, when the write-back of `s` must be
      repeated there: `s` lies between the end of the reserved area and the root
      directory, and so does `s` plus one table length (both sums modulo 2^32). */
  function MirrorNext(v: Volume, s: u32): (r: Option<u32>)
    ensures r.Some? ==> Wrap32(v.siHidden + v.scReserved) <= s < v.siRoot && r.value < v.siRoot
    ensures r.Some? && s as int + v.scTableSize < 0x1_0000_0000 ==> r.value == s + v.scTableSize
  {
    if Wrap32(v.siHidden + v.scReserved) <= s < v.siRoot && Wrap32(s + v.scTableSize) < v.siRoot then
      Some(Wrap32(s + v.scTableSize))
    else
      None
  }

  /** Completion of a device read (THINFAT_CACHE_EVENT_READ): sector `s` is now held
      clean and the remembered client gets its remembered event. */
  function ReadDone(c: Slot, s: u32): (o: Outcome)
    ensures o.slot.state == Clean && o.slot.siCached == s && Holds(o.slot, s)
    ensures o.slot.client == c.client && o.slot.event == c.event && o.slot.siReplace == c.siReplace
    ensures o.issued == [] && o.reply == Deliver(c.client, c.event, s)
  {
    Outcome(c.(siCached := s, state := Clean), [], Deliver(c.client, c.event, s))
  }

  /** Completion of a device write of sector `s` (THINFAT_CACHE_EVENT_WRITE): first
      the next FAT mirror is written; after the last one the sector to replace is
      read, or, when it is the held one, the slot turns clean; with nothing to
      replace the slot is emptied. The remembered client is told in both last cases. */
  function WriteDone(c: Slot, v: Volume, data: seq<u8>, s: u32): (o: Outcome)
    ensures MirrorNext(v, s).Some? ==> o == Outcome(c, [WriteSector(MirrorNext(v, s).value, data)], Pending)
    ensures MirrorNext(v, s).None? && IsSectorValid(c.siReplace) && c.siReplace != c.siCached ==>
      o == Outcome(c, [ReadSector(c.siReplace)], Pending)
    ensures MirrorNext(v, s).None? && IsSectorValid(c.siReplace) && c.siReplace == c.siCached ==>
      o.slot == c.(state := Clean) && o.issued == [] && o.reply == Deliver(c.client, c.event, s)
    ensures MirrorNext(v, s).None? && !IsSectorValid(c.siReplace) ==>
      o.slot.state == Invalid && !IsSectorValid(o.slot.siCached) && o.issued == [] && o.reply == Deliver(c.client, c.event, s)
    ensures o.slot.client == c.client && o.slot.event == c.event && o.slot.siReplace == c.siReplace
  {
    if Wrap32(v.siHidden + v.scReserved) <= s < v.siRoot && Wrap32(s + v.scTableSize) < v.siRoot then
      Outcome(c, [WriteSector(Wrap32(s + v.scTableSize), data)], Pending)
    else if IsSectorValid(c.siReplace) then
      if c.siReplace == c.siCached then Outcome(c.(state := Clean), [], Deliver(c.client, c.event, s))
      else Outcome(c, [ReadSector(c.siReplace)], Pending)
    else
      Outcome(c.(siCached := InvalidSector, state := Invalid), [], Deliver(c.client, c.event, s))
  }

  /** thinfat_cache_callback: dispatch on the completion tag; any other tag returns
      THINFAT_RESULT_OK and changes nothing. */
  function Completion(c: Slot, v: Volume, data: seq<u8>, event: Event, s: u32): (o: Outcome)
    ensures event == CacheRead ==> o == ReadDone(c, s)
    ensures event == CacheWrite ==> o == WriteDone(c, v, data, s)
    ensures event != CacheRead && event != CacheWrite ==> o == Outcome(c, [], Return(Ok))
  {
    match event
    case CacheRead => ReadDone(c, s)
    case CacheWrite => WriteDone(c, v, data, s)
    case _ => Outcome(c, [], Return(Ok))
  }

  // ---------------------------------------------------------------- properties

  /** A sector that has been read in is answered from the cache, and answering it
      changes nothing, so the next read of it is answered again. */
  lemma FilledSectorHits(c: Slot, data: seq<u8>, s: u32, client: object?, event: Event)
    ensures var filled := ReadDone(c, s).slot;
      && ReadSingle(filled, data, client, s, event) == Outcome(filled, [], Deliver(client, event, s))
      && ReadSingle(ReadSingle(filled, data, client, s, event).slot, data, client, s, event)
         == ReadSingle(filled, data, client, s, event)
  {
  }

  /** A miss on a cache that is not dirty is one device read away from delivering
      the requested sector to the client that asked, with its own event. */
  lemma CleanMissDelivers(c: Slot, data: seq<u8>, client: object?, si: u32, event: Event)
    requires c.state != Dirty && !Holds(c, si)
    ensures var miss := ReadSingle(c, data, client, si, event);
      && miss.issued == [ReadSector(si)]
      && ReadDone(miss.slot, si).reply == Deliver(client, event, si)
      && Holds(ReadDone(miss.slot, si).slot, si)
  {
  }

  /** A miss on a dirty cache writes the held sector back; once the last write of
      it completes (no further mirror), the requested sector is read, and its
      completion delivers it, clean, to the client that asked. */
  lemma DirtyMissDelivers(c: Slot, v: Volume, data: seq<u8>, client: object?, si: u32, event: Event, last: u32)
    requires c.state == Dirty && !Holds(c, si) && IsSectorValid(si)
    requires MirrorNext(v, last).None?
    ensures var miss := ReadSingle(c, data, client, si, event);
      var back := WriteDone(miss.slot, v, data, last);
      && miss.issued == [WriteSector(c.siCached, data)]
      && back.issued == [ReadSector(si)] && back.reply == Pending
      && ReadDone(back.slot, si).reply == Deliver(client, event, si)
      && ReadDone(back.slot, si).slot.state == Clean && Holds(ReadDone(back.slot, si).slot, si)
  {
  }

  /** A write-back with something to replace never reports to the client before the
      replacement is in: while mirrors remain it writes the next one, and the slot
      stays as it was. */
  lemma MirrorWriteKeepsSlot(c: Slot, v: Volume, data: seq<u8>, s: u32)
    requires MirrorNext(v, s).Some?
    ensures WriteDone(c, v, data, s).slot == c && WriteDone(c, v, data, s).reply == Pending
    ensures |WriteDone(c, v, data, s).issued| == 1 && WriteDone(c, v, data, s).issued[0].WriteSector?
  {
  }

  /** The sectors the successive write completions of sector `s` go on to write,
      for a volume whose table length is positive and whose sums do not wrap; with a
      zero table length the chain does not end (ZeroTableLengthRewritesItself). */
  function MirrorChain(v: Volume, s: u32): (r: seq<u32>)
    requires v.scTableSize > 0 && v.siRoot as int + v.scTableSize < 0x1_0000_0000
    ensures forall i :: 0 <= i < |r| ==> r[i] < v.siRoot
    decreases v.siRoot as int - s
  {
    match MirrorNext(v, s)
    case None => []
    case Some(n) => [n] + MirrorChain(v, n)
  }

  /** No sector lies below a root boundary of zero, so on a volume whose `siRoot` is
      still the starting zero a write-back is never repeated on a FAT copy. */
  lemma NoMirrorBelowZeroRoot(v: Volume, s: u32)
    requires v.siRoot == 0
    ensures MirrorNext(v, s) == None
  {
  }

  /** With a table length of zero, which BPB validation lets through when both
      FAT-size fields are zero, the completed write of a FAT sector issues the same
      write again and leaves the slot as it was, so the write-back never ends. */
  lemma ZeroTableLengthRewritesItself(c: Slot, v: Volume, data: seq<u8>, s: u32)
    requires v.scTableSize == 0 && Wrap32(v.siHidden + v.scReserved) <= s < v.siRoot
    ensures MirrorNext(v, s) == Some(s)
    ensures WriteDone(c, v, data, s) == Outcome(c, [WriteSector(s, data)], Pending)
  {
  }

  /** From a table sector `s` that lies `remaining` whole table lengths, and not
      one more, before the root directory, the write completions go on to write
      exactly `remaining` more copies, one table length apart. */
  lemma {:induction false} MirrorChainSteps(v: Volume, s: u32, remaining: nat)
    requires v.scTableSize > 0 && v.siRoot as int + v.scTableSize < 0x1_0000_0000
    requires v.siHidden as int + v.scReserved <= s
    requires s as int + remaining * v.scTableSize < v.siRoot as int <= s as int + (remaining + 1) * v.scTableSize
    ensures |MirrorChain(v, s)| == remaining
    ensures forall i :: 0 <= i < remaining ==> MirrorChain(v, s)[i] as int == s as int + (i + 1) * v.scTableSize
    decreases remaining
  {
    var ts := v.scTableSize as int;
    assert Wrap32(v.siHidden + v.scReserved) == v.siHidden as int + v.scReserved;
    if remaining == 0 {
      assert MirrorNext(v, s).None?;
    } else {
      var n := s as int + ts;
      assert (remaining - 1) * ts + ts == remaining * ts;
      assert remaining * ts + ts == (remaining + 1) * ts;
      MulMonotone(1, remaining, ts);
      assert n < v.siRoot as int;
      assert MirrorNext(v, s) == Some(n as u32);
      MirrorChainSteps(v, n as u32, remaining - 1);
      var rest := MirrorChain(v, n as u32);
      var chain := MirrorChain(v, s);
      assert chain == [n as u32] + rest;
      forall i | 0 <= i < remaining
        ensures chain[i] as int == s as int + (i + 1) * ts
      {
        if i > 0 {
          assert chain[i] == rest[i - 1];
          assert (i - 1 + 1) * ts + ts == (i + 1) * ts;
        }
      }
    }
  }

  /** On a volume laid out as reserved area, then `redundancy` FAT copies of
      `scTableSize` sectors, then the root directory, writing back sector `off` of
      copy `k` (counting from 1) writes the same sector of every later copy, in order. */
  lemma MirrorChainCoversCopies(v: Volume, k: nat, redundancy: nat, off: nat)
    requires v.scTableSize > 0 && v.siRoot as int + v.scTableSize < 0x1_0000_0000
    requires 1 <= k <= redundancy && off < v.scTableSize
    requires v.siRoot as int == v.siHidden + v.scReserved + redundancy * v.scTableSize
    ensures var s := v.siHidden + v.scReserved + (k - 1) * v.scTableSize + off;
      && 0 <= s < 0x1_0000_0000
      && |MirrorChain(v, s)| == redundancy - k
      && forall i :: 0 <= i < redundancy - k ==> MirrorChain(v, s)[i] as int == s + (i + 1) * v.scTableSize
  {
    var ts := v.scTableSize as int;
    var s := v.siHidden + v.scReserved + (k - 1) * ts + off;
    var remaining := redundancy - k;
    CopyArithmetic(k, redundancy, ts);
    Window(s, v.siHidden + v.scReserved, (k - 1) * ts, remaining * ts, redundancy * ts, ts, off);
    MirrorChainSteps(v, s as u32, remaining);
  }

  /** Sector `off` of a copy lies one copy length before the sector it mirrors to. */
  lemma Window(s: int, base: int, a: int, b: int, c: int, ts: int, off: int)
    requires s == base + a + off && 0 <= off < ts && a + b + ts == c
    ensures s + b < base + c <= s + b + ts
  {
  }

  lemma CopyArithmetic(k: nat, redundancy: nat, ts: nat)
    requires 1 <= k <= redundancy
    ensures (k - 1) * ts + (redundancy - k) * ts + ts == redundancy * ts
    ensures (redundancy - k + 1) * ts == (redundancy - k) * ts + ts
    ensures (k - 1) * ts >= 0
  {
  }

  // ---------------------------------------------------------------- the cache object

  /** thinfat_cache_t: the bookkeeping, the 512-byte sector buffer, the filesystem
      whose geometry decides the mirrors, and the device it talks to. The device
      fills `data` itself before it reports a read completion. */
  class SectorCache {
    var state: CacheState
    var client: object?
    var event: Event
    var siCached: u32
    var siReplace: u32
    const data: array<u8>
    const parent: Filesystem
    const dev: Device

    predicate Valid()
    {
      data.Length == SectorSize
    }

    function View(): Slot
      reads this
    {
      Slot(state, client, event, siCached, siReplace)
    }

    /** thinfat_cache_init. */
    constructor (parent: Filesystem, dev: Device)
      ensures Valid() && fresh(data)
      ensures View() == InitialSlot()
      ensures this.parent == parent && this.dev == dev
    {
      client := null;
      this.parent := parent;
      state := Invalid;
      siCached := InvalidSector;
      siReplace := InvalidSector;
      event := NoEvent;
      data := new u8[SectorSize];
      this.dev := dev;
    }

    /** thinfat_cached_read_single. */
    method CachedReadSingle(client: object?, si: u32, event: Event) returns (reply: Reply)
      requires Valid()
      modifies this, dev
      ensures var o := ReadSingle(old(View()), data[..], client, si, event);
        View() == o.slot && dev.log == old(dev.log) + o.issued && reply == o.reply
    {
      match state
      case Invalid =>
        this.event := event;
        this.client := client;
        var _ := dev.Submit(ReadSector(si));
        reply := Pending;
      case Clean =>
        if siCached == si {
          reply := Deliver(client, event, si);
        } else {
          this.event := event;
          this.client := client;
          var _ := dev.Submit(ReadSector(si));
          reply := Pending;
        }
      case Dirty =>
        if siCached == si {
          reply := Deliver(client, event, si);
        } else {
          this.event := event;
          siReplace := si;
          this.client := client;
          var _ := dev.Submit(WriteSector(siCached, data[..]));
          reply := Pending;
        }
    }

    /** thinfat_cache_callback. */
    method Callback(ev: Event, s: u32) returns (reply: Reply)
      requires Valid()
      modifies this, dev
      ensures var o := Completion(old(View()), parent.View(), data[..], ev, s);
        View() == o.slot && dev.log == old(dev.log) + o.issued && reply == o.reply
    {
      match ev
      case CacheRead =>
        siCached := s;
        state := Clean;
        reply := Deliver(client, event, s);
      case CacheWrite =>
        if Wrap32(parent.siHidden + parent.scReserved) <= s < parent.siRoot {
          var next := Wrap32(s + parent.scTableSize);
          if next < parent.siRoot {
            var _ := dev.Submit(WriteSector(next, data[..]));
            return Pending;
          }
        }
        if IsSectorValid(siReplace) {
          if siReplace == siCached {
            state := Clean;
            return Deliver(client, event, s);
          }
          var _ := dev.Submit(ReadSector(siReplace));
          return Pending;
        }
        siCached := InvalidSector;
        state := Invalid;
        reply := Deliver(client, event, s);
      case _ =>
        reply := Return(Ok);
    }
  }
}
