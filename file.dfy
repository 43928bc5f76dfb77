/** The file stream (thinfat_file.c): a read or write request of `advance` bytes at
    byte `position`, planned into sector counts and served one sector callback at a
    time. Whole sectors go straight between the device and the caller's buffer;
    the partial sectors at either end pass through the cursor's cache, where the
    request's bytes are copied out of (read) or merged into (write) the sector. */
module File {
  import opened Common
  import opened Volume
  import opened Cache
  import Cursor

  /** The bookkeeping fields of thinfat_file_t. The caller's buffer is kept apart;
      `bufferAt` is how far into it the `buffer` pointer has moved. `event` and
      `scRead` are used by the source without being declared in thinfat_file.h. */
  datatype FileView = FileView(client: object?, event: Event, counter: u32, advance: u32,
                               position: u32, size: u32, bufferAt: nat, scRead: u32)

  /** What a data callback is handed through its `void *` parameter: nothing (the
      stream has ended), a null slot to fill with the buffer for the next sector,
      or the sector that has just been read. */
  datatype Hand = Finished | Ask | Filled(sector: seq<u8>)

  /** Where a callback points the cursor for its next sector: into the caller's
      buffer at an offset, or at the cache's sector buffer. */
  datatype Buffer = User(offset: nat) | CacheData

  /** What a request leads to: a reply of the layers below, or a call of the
      cursor's read_each_cluster or write_each_cluster, which are declared in
      thinfat_blk.h without a body and are therefore returned as values. */
  datatype Next =
    | Done(reply: Reply)
    | ReadEachCluster(sc: u32, event: Event)
    | WriteEachCluster(sc: u32, event: Event)

  // ---------------------------------------------------------------- byte windows

  /** `dst` with the bytes from `at` on replaced by `src`: the effect of memcpy. */
  function Splice(dst: seq<u8>, at: nat, src: seq<u8>): seq<u8>
    requires at + |src| <= |dst|
  {
    dst[..at] + src + dst[at + |src|..]
  }

  /** A splice keeps the length, puts `src` in the window and leaves every byte
      outside the window as it was. */
  lemma SpliceFacts(dst: seq<u8>, at: nat, src: seq<u8>)
    requires at + |src| <= |dst|
    ensures var r := Splice(dst, at, src);
      && |r| == |dst| && r[at..at + |src|] == src
      && (forall i :: 0 <= i < at ==> r[i] == dst[i])
      && (forall i :: at + |src| <= i < |dst| ==> r[i] == dst[i])
  {
  }

  // ---------------------------------------------------------------- planning

  /** The clamp of thinfat_file_read: no more than `size - position` bytes, the
      difference taken modulo 2^32. */
  function ReadLength(position: u32, size: u32, length: u32): u32
  {
    var room := Wrap32(size - position);
    if length > room then room else length
  }

  /** Inside the file the clamped read ends at the end of the file at the latest and
      is the requested length when that fits. From a position past the end the
      difference wraps to a large number, so the request is cut only to that
      number and is not refused. */
  lemma ReadLengthClamps(position: u32, size: u32, length: u32)
    ensures ReadLength(position, size, length) <= length
    ensures position <= size ==> position + ReadLength(position, size, length) <= size
    ensures position + length <= size ==> ReadLength(position, size, length) == length
    ensures position > size ==>
      ReadLength(position, size, length) == (if length > 0x1_0000_0000 - (position - size) then 0x1_0000_0000 - (position - size) else length)
  {
    if position <= size {
      SmallWrap(size - position);
    } else {
      assert Wrap32(size - position) == 0x1_0000_0000 - (position - size);
    }
  }

  /** `(position % 512 + length + 511) / 512` in 32-bit arithmetic: the number of
      sectors a request touches. */
  function SectorSpan(position: u32, length: u32): u32
  {
    Wrap32(position % 512 + length + 511) / 512
  }

  /** Without wrap-around the span is the ceiling of the touched bytes over 512:
      enough sectors for all of them and not one more. */
  lemma SectorSpanIsCeiling(position: u32, length: u32)
    requires position % 512 + length + 511 < 0x1_0000_0000
    ensures SectorSpan(position, length) == Ceil512(position % 512 + length)
  {
    SmallWrap(position % 512 + length + 511);
  }

  /** The ceiling of `x` over 512. */
  function Ceil512(x: nat): (r: nat)
    ensures r * 512 >= x && (r == 0 || (r - 1) * 512 < x)
  {
    (x + 511) / 512
  }

  /** The sector count of a read is taken from the length before the clamp: a
      request of 1024 bytes on a 100-byte file counts two sectors although one
      holds all it can return. */
  lemma ReadCountIgnoresClamp()
    ensures ReadLength(0, 100, 1024) == 100
    ensures SectorSpan(0, 1024) == 2 && SectorSpan(0, 100) == 1
  {
    SmallWrap(100);
    assert ReadLength(0, 100, 1024) == 100;
    SmallWrap(1535);
    Split512(1535, 2, 511);
    SmallWrap(611);
    Split512(611, 1, 99);
  }

  /** Near 2^32 the sum wraps and the span collapses: reading the largest length
      from an unaligned position counts no sector at all. */
  lemma SectorSpanWraps()
    ensures SectorSpan(1, 0xFFFF_FFFF) == 0
  {
  }

  /** The unclamped span is never smaller than the ceiling of what the clamped read
      has to deliver, so the cursor is asked for enough sectors. */
  lemma ReadCountCovers(position: u32, size: u32, length: u32)
    requires position % 512 + length + 511 < 0x1_0000_0000
    ensures Ceil512(position % 512 + ReadLength(position, size, length)) <= SectorSpan(position, length)
  {
    ReadLengthClamps(position, size, length);
    SectorSpanIsCeiling(position, length);
  }

  /** 2^32 is a multiple of 512, so reducing modulo 2^32 keeps the offset in the
      sector. */
  lemma WrapMod512(x: nat)
    ensures Wrap32(x) % 512 == x % 512
  {
    var q := x / 0x1_0000_0000;
    var w := Wrap32(x);
    var m := q * 0x80_0000 + w / 512;
    assert x == q * 0x1_0000_0000 + w;
    assert w == (w / 512) * 512 + w % 512;
    assert x == m * 512 + w % 512;
    Split512(x, m, w % 512);
  }

  /** A number splits uniquely into whole sectors and an offset below 512. */
  lemma Split512(x: int, q: int, r: int)
    requires x == q * 512 + r && 0 <= r < 512
    ensures x % 512 == r && x / 512 == q
  {
  }

  /** The test of thinfat_file_read for the direct path: the request starts and
      ends on a sector boundary (the end computed modulo 2^32). */
  predicate WholeSectors(position: u32, length: u32)
  {
    !(position % 512 > 0 || Wrap32(position + length) % 512 > 0)
  }

  /** The direct path is taken exactly when both ends of the request are multiples
      of 512; the wrap-around of the end does not change that. */
  lemma WholeSectorsIff(position: u32, length: u32)
    ensures WholeSectors(position, length) <==> position % 512 == 0 && (position + length) % 512 == 0
  {
    WrapMod512(position + length);
  }

  /** thinfat_file_write's count: the span, less one when the request ends inside a
      sector (modulo 2^32, as the source's decrement is). */
  function WriteSectorCount(position: u32, length: u32): u32
  {
    var sc := SectorSpan(position, length);
    if Wrap32(position + length) % 512 > 0 then Wrap32(sc - 1) else sc
  }

  /** Without wrap-around the write count is the floor of the touched bytes over
      512: the sectors the request covers to their end. */
  lemma WriteSectorCountIsFloor(position: u32, length: u32)
    requires position % 512 + length + 511 < 0x1_0000_0000
    ensures WriteSectorCount(position, length) == (position % 512 + length) / 512
  {
    var x := position % 512 + length;
    var q, r := x / 512, x % 512;
    SectorSpanIsCeiling(position, length);
    WrapMod512(position + length);
    assert position == (position / 512) * 512 + position % 512;
    Split512(position + length, position / 512 + q, r);
    if r > 0 {
      Split512(x + 511, q + 1, r - 1);
      SmallWrap(Ceil512(x) - 1);
    } else {
      Split512(x + 511, q, 511);
    }
  }

  /** What thinfat_file_write does: write whole clusters from an aligned position,
      or read one sector first, either to merge the head of the request
      (WRITE_PREPARE) or, when no sector is covered to its end, to merge the whole
      request (WRITE_FINISH). */
  datatype WritePath = ClusterWrite(sc: u32) | SectorRead(event: Event)

  function WritePlan(position: u32, length: u32): WritePath
  {
    var sc := WriteSectorCount(position, length);
    if sc > 0 then
      if position % 512 == 0 then ClusterWrite(sc) else SectorRead(FileWritePrepare)
    else SectorRead(FileWriteFinish)
  }

  /** The three ways a write goes, by the number of whole sectors it covers. */
  lemma WritePlanCases(position: u32, length: u32)
    requires position % 512 + length + 511 < 0x1_0000_0000
    ensures var n := (position % 512 + length) / 512;
      && (n > 0 && position % 512 == 0 ==> WritePlan(position, length) == ClusterWrite(n))
      && (n > 0 && position % 512 > 0 ==> WritePlan(position, length) == SectorRead(FileWritePrepare))
      && (n == 0 ==> WritePlan(position, length) == SectorRead(FileWriteFinish))
  {
    WriteSectorCountIsFloor(position, length);
  }

  // ---------------------------------------------------------------- the data callbacks

  /** The bytes of the request that lie in the current sector: up to the sector's
      end, and no more than remain. Both the read callback and the write finish
      take this many. */
  function SectorShare(f: FileView): (a: u32)
    ensures a <= f.advance && f.position % 512 + a <= 512
  {
    var a := 512 - f.position % 512;
    if a > f.advance then f.advance else a
  }

  /** The bookkeeping after `a` bytes: the buffer pointer, the position and the
      counter move on by `a` (the last two modulo 2^32), the remainder falls by it. */
  function Advanced(f: FileView, a: u32): FileView
    requires a <= f.advance
  {
    f.(bufferAt := f.bufferAt + a, advance := f.advance - a,
       position := Wrap32(f.position + a), counter := Wrap32(f.counter + a))
  }

  /** The hand-off of the caller's buffer as thinfat_file_read_callback writes it
      for a null slot: whenever the position is aligned, whatever remains. */
  function HandoffAsWritten(f: FileView): Buffer
  {
    if f.position % 512 == 0 then User(f.bufferAt) else CacheData
  }

  /** The hand-off the model uses for a null slot: the caller's buffer only when
      the position is aligned and a whole sector remains, the rule the callback
      itself applies after every sector. */
  function Handoff(f: FileView): (b: Buffer)
    ensures b.User? ==> f.position % 512 == 0 && b.offset + SectorSize <= f.bufferAt + f.advance
  {
    if f.position % 512 == 0 && f.advance >= 512 then User(f.bufferAt) else CacheData
  }

  /** One step of the read callback: its new bookkeeping, the bytes it copies into
      the caller's buffer at the old `bufferAt`, its reply and where it points the
      next sector. */
  datatype ReadEffect = ReadEffect(view: FileView, copy: seq<u8>, reply: Reply, point: Option<Buffer>)

  function ReadStep(f: FileView, hand: Hand): (e: ReadEffect)
    requires hand.Filled? ==> |hand.sector| == SectorSize
    ensures |e.copy| <= f.advance
  {
    match hand
    case Finished => ReadEffect(f, [], Deliver(f.client, f.event, InvalidSector), None)
    case Ask => ReadEffect(f, [], Return(Ok), Some(Handoff(f)))
    case Filled(sector) =>
      var g := DataStep(f);
      ReadEffect(g, ShareCopy(f, sector), Return(Ok), Some(NextBuffer(g)))
  }

  /** The bookkeeping of a data callback, which does not depend on the sector's
      contents. */
  function DataStep(f: FileView): FileView
  {
    Advanced(f, SectorShare(f))
  }

  /** The bytes a data callback copies out of the sector: the request's share,
      from the position's offset on, unless a whole aligned sector was read into
      the caller's buffer in place. */
  function ShareCopy(f: FileView, sector: seq<u8>): (r: seq<u8>)
    requires |sector| == SectorSize
    ensures |r| <= SectorShare(f)
  {
    var off := f.position % 512;
    if off == 0 && f.advance >= 512 then [] else sector[off..off + SectorShare(f)]
  }

  /** Where a data callback points the next sector: the caller's buffer while a
      whole sector remains. */
  function NextBuffer(g: FileView): Buffer
  {
    if g.advance >= 512 then User(g.bufferAt) else CacheData
  }

  /** The end of the stream leaves the bookkeeping alone and calls the client back,
      pointing it at the counter, which holds the bytes delivered. A null slot is
      answered with the hand-off and nothing else. */
  lemma ReadEndAndAsk(f: FileView)
    ensures ReadStep(f, Finished) == ReadEffect(f, [], Deliver(f.client, f.event, InvalidSector), None)
    ensures ReadStep(f, Ask).view == f && ReadStep(f, Ask).point == Some(Handoff(f))
  {
  }

  /** A data callback takes the request's share of the sector: no more than
      remains, no more than the rest of the sector when the position is unaligned,
      and it stops only at the end of the request or of the sector. The position
      and the counter rise by that share, the remainder falls by it, so the counter
      plus the remainder stays the same. The share is copied out of the sector,
      except for a whole aligned sector, which was read into the caller's buffer in
      place. The next hand-off is the one a null slot would get. */
  lemma ReadFilledFacts(f: FileView, sector: seq<u8>)
    requires |sector| == SectorSize
    ensures var e := ReadStep(f, Filled(sector));
      var a := SectorShare(f);
      var off := f.position % 512;
      && e.view == Advanced(f, a) && e.reply == Return(Ok)
      && a <= f.advance && (off > 0 ==> a <= 512 - off)
      && (a == f.advance || off + a == 512)
      && Wrap32(e.view.counter + e.view.advance) == Wrap32(f.counter + f.advance)
      && e.copy == (if off == 0 && f.advance >= 512 then [] else sector[off..off + a])
      && e.point == Some(Handoff(e.view))
  {
    CounterPlusRemainder(f.counter, f.advance, SectorShare(f));
    NextBufferIsHandoff(f);
  }

  /** After a data callback that stops short of the end of the request, the
      position is on a sector boundary. */
  lemma ShareEndsAligned(f: FileView)
    requires SectorShare(f) < f.advance
    ensures f.position % 512 + SectorShare(f) == 512 && DataStep(f).position % 512 == 0
  {
    var a := SectorShare(f);
    WrapMod512(f.position + a);
    assert f.position == (f.position / 512) * 512 + f.position % 512;
    Split512(f.position + a, f.position / 512 + 1, 0);
  }

  /** The buffer a data callback points the next sector at is the one the hand-off
      rule chooses for the new bookkeeping. */
  lemma NextBufferIsHandoff(f: FileView)
    ensures NextBuffer(DataStep(f)) == Handoff(DataStep(f))
  {
    if SectorShare(f) < f.advance {
      ShareEndsAligned(f);
    }
  }

  /** Moving `a` from the remainder to the counter keeps their sum modulo 2^32. */
  lemma CounterPlusRemainder(counter: u32, advance: u32, a: u32)
    requires a <= advance
    ensures Wrap32(Wrap32(counter + a) + (advance - a)) == Wrap32(counter + advance)
  {
    WrapTwice(counter, a, advance - a);
  }

  /** With the caller's buffer holding `bufferAt + advance` bytes at least, every
      step keeps that so, and every hand-off of the caller's buffer leaves room for
      the whole sector the cursor will read into it. */
  lemma ReadStepKeepsRoom(f: FileView, hand: Hand, n: nat)
    requires hand.Filled? ==> |hand.sector| == SectorSize
    requires f.bufferAt + f.advance <= n
    ensures var e := ReadStep(f, hand);
      && e.view.bufferAt + e.view.advance <= n
      && (e.point.Some? && e.point.value.User? ==> e.point.value.offset + SectorSize <= n)
  {
    if hand.Filled? {
      ReadFilledFacts(f, hand.sector);
    }
  }

  /** The hand-off as written lets a whole sector land in a buffer that is too
      small: a 100-byte read at position 0 points the cursor at the caller's
      100-byte buffer for a 512-byte sector. */
  lemma HandoffAsWrittenOverruns()
    ensures var f := FileView(null, NoEvent, 0, 100, 0, 100, 0, 1);
      HandoffAsWritten(f) == User(0) && f.bufferAt + f.advance < 0 + SectorSize
      && Handoff(f) == CacheData
  {
  }

  /** The bookkeeping after `n` data callbacks. */
  function ReadRun(f: FileView, n: nat): FileView
    decreases n
  {
    if n == 0 then f else ReadRun(DataStep(f), n - 1)
  }

  /** As many data callbacks as the request touches sectors deliver all of it:
      together they move the bookkeeping as one advance by the whole request
      would, so the remainder reaches zero, the counter rises by the request's
      length and the buffer pointer and position move past it. */
  lemma {:induction false} ReadRunDrains(f: FileView, n: nat)
    requires n == Ceil512(f.position % 512 + f.advance)
    ensures ReadRun(f, n) == Advanced(f, f.advance)
    decreases n
  {
    if n == 0 {
      SmallWrap(f.position);
      SmallWrap(f.counter);
    } else {
      var a := SectorShare(f);
      var g := DataStep(f);
      assert ReadRun(f, n) == ReadRun(g, n - 1);
      if a == f.advance {
        // the request ends in this sector
        CeilOne(f.position % 512 + f.advance);
        assert ReadRun(g, 0) == g;
      } else {
        ShareEndsAligned(f);
        CeilStep(g.advance);
        ReadRunDrains(g, n - 1);
        AdvancedTwice(f, a, g.advance);
      }
    }
  }

  /** Two advances are one advance by their sum. */
  lemma AdvancedTwice(f: FileView, a: u32, b: u32)
    requires a + b <= f.advance
    ensures Advanced(Advanced(f, a), b) == Advanced(f, a + b)
  {
    WrapTwice(f.counter, a, b);
    WrapTwice(f.position, a, b);
  }

  /** A request inside one sector touches one sector. */
  lemma CeilOne(x: nat)
    requires 0 < x <= 512
    ensures Ceil512(x) == 1
  {
    Split512(x + 511, 1, x - 1);
  }

  /** A sector more is one more in the ceiling. */
  lemma CeilStep(y: nat)
    ensures Ceil512(512 + y) == Ceil512(y) + 1
  {
    Split512(y + 511, (y + 511) / 512, (y + 511) % 512);
    Split512(512 + y + 511, (y + 511) / 512 + 1, (y + 511) % 512);
  }

  /** Adding in two steps modulo 2^32 is adding once. */
  lemma WrapTwice(x: nat, a: nat, b: nat)
    ensures Wrap32(Wrap32(x + a) + b) == Wrap32(x + a + b)
  {
    var s := x + a;
    assert s == (s / 0x1_0000_0000) * 0x1_0000_0000 + Wrap32(s);
  }

  /** The count of bytes the write finish takes from the caller's buffer and the
      bookkeeping it leaves: position and counter move on, the remainder and the
      buffer pointer are not touched (the source leaves its decrement commented
      out). */
  function FinishStep(f: FileView): FileView
  {
    var a := SectorShare(f);
    f.(position := Wrap32(f.position + a), counter := Wrap32(f.counter + a))
  }

  /** The write finish copies the smaller of the rest of the sector and the
      remainder, starting at the position's offset in the sector, and the window
      stays inside the sector. */
  lemma FinishFacts(f: FileView)
    ensures var a := SectorShare(f);
      && a == (if 512 - f.position % 512 <= f.advance then 512 - f.position % 512 else f.advance)
      && f.position % 512 + a <= SectorSize
      && FinishStep(f).counter == Wrap32(f.counter + a) && FinishStep(f).advance == f.advance
      && FinishStep(f).bufferAt == f.bufferAt
  {
  }

  // ---------------------------------------------------------------- the file object

  /** thinfat_file_t: the request in progress over the file's own cursor. */
  class FileStream {
    var client: object?
    var event: Event
    var counter: u32
    var advance: u32
    var position: u32
    var size: u32
    var user: array<u8>
    var bufferAt: nat
    var scRead: u32
    const parent: Filesystem
    const blk: Cursor.ClusterCursor

    /** The `buffer` pointer and the bytes still to move stay inside the caller's
        buffer. */
    predicate Valid()
      reads this
    {
      bufferAt + advance <= user.Length
    }

    function View(): FileView
      reads this
    {
      FileView(client, event, counter, advance, position, size, bufferAt, scRead)
    }

    /** A stream over the cursor `blk` for a file of `size` bytes, at its start.
        thinfat_file_init and thinfat_file_open have no body in the source, so the
        other fields start neutral. */
    constructor (parent: Filesystem, blk: Cursor.ClusterCursor, size: u32)
      ensures Valid() && this.parent == parent && this.blk == blk
      ensures View() == FileView(null, NoEvent, 0, 0, 0, size, 0, 0)
    {
      this.parent := parent;
      this.blk := blk;
      this.size := size;
      client := null;
      event := NoEvent;
      counter, advance, position := 0, 0, 0;
      user := new u8[0];
      bufferAt := 0;
      scRead := 0;
    }

    /** thinfat_file_read: clamp the length, count the sectors it touches (before
        the clamp), reset the counter, and start either the direct cluster read at
        the cursor's current sector or, for a request with a partial sector at
        either end, a read through the cursor's cache with no sector of its own
        (the source passes THINFAT_INVALID_SECTOR) and READ_PREPARE. */
    method Read(client: object?, buf: array<u8>, length: u32, event: Event) returns (next: Next)
      requires blk.Valid()
      requires ReadLength(position, size, length) <= buf.Length
      modifies this, blk.cache, blk.cache.dev
      ensures Valid() && user == buf
      ensures View() == old(View()).(client := client, event := event, counter := 0, bufferAt := 0,
        advance := ReadLength(old(position), size, length), scRead := SectorSpan(old(position), length))
      ensures WholeSectors(position, advance) ==>
        && next == ReadEachCluster(Cursor.CurrentSector(blk.View(), parent.View()), FileRead)
        && blk.cache.View() == old(blk.cache.View()) && blk.cache.dev.log == old(blk.cache.dev.log)
      ensures !WholeSectors(position, advance) ==>
        var o := ReadSingle(old(blk.cache.View()), blk.cache.data[..], this, InvalidSector, FileReadPrepare);
        blk.cache.View() == o.slot && blk.cache.dev.log == old(blk.cache.dev.log) + o.issued && next == Done(o.reply)
    {
      ghost var slot, log := blk.cache.View(), blk.cache.dev.log;
      var scRead := Wrap32(position % 512 + length + 511) / 512;
      // the low bits of the cursor's offset added to its cluster's first sector
      var siRead := Cursor.CurrentSector(blk.View(), parent.View());
      var n := ReadLength(position, size, length);
      advance := n;
      user := buf;
      bufferAt := 0;
      this.scRead := scRead;
      counter := 0;
      this.event := event;
      this.client := client;
      if position % 512 > 0 || Wrap32(position + n) % 512 > 0 {
        assert !WholeSectors(position, advance);
        assert blk.cache.View() == slot && blk.cache.dev.log == log;
        var reply := blk.cache.CachedReadSingle(this, InvalidSector, FileReadPrepare);
        next := Done(reply);
      } else {
        // the source passes the sector where the callee's count is expected
        next := ReadEachCluster(siRead, FileRead);
      }
    }

    /** thinfat_file_read_callback for one hand-off: report the counter at the end
        of the stream, point a null slot at the buffer for the next sector, or take
        the request's share of the sector just read. */
    method ReadCallback(hand: Hand) returns (reply: Reply, point: Option<Buffer>)
      requires Valid()
      requires hand.Filled? ==> |hand.sector| == SectorSize
      modifies this, user
      ensures Valid() && user == old(user)
      ensures var e := ReadStep(old(View()), hand);
        && View() == e.view && reply == e.reply && point == e.point
        && user[..] == Splice(old(user[..]), old(bufferAt), e.copy)
    {
      if hand.Finished? {
        return Deliver(client, event, InvalidSector), None;
      }
      if hand.Ask? {
        // the corrected hand-off: see HandoffAsWritten for the source's test
        if position % 512 == 0 && advance >= 512 {
          point := Some(User(bufferAt));
        } else {
          point := Some(CacheData);
        }
        return Return(Ok), point;
      }
      point := TakeShare(hand.sector);
      reply := Return(Ok);
    }

    /** The data branch of thinfat_file_read_callback: copy the request's share of
        the sector into the caller's buffer unless it is already there, move the
        bookkeeping on, and choose the buffer for the next sector. */
    method TakeShare(sector: seq<u8>) returns (point: Option<Buffer>)
      requires Valid() && |sector| == SectorSize
      modifies this, user
      ensures Valid() && user == old(user)
      ensures View() == Advanced(old(View()), SectorShare(old(View()))) && point == Some(NextBuffer(View()))
      ensures user[..] == Splice(old(user[..]), old(bufferAt), ShareCopy(old(View()), sector))
    {
      var a := CopyShare(sector);
      bufferAt := bufferAt + a;
      advance := advance - a;
      position := Wrap32(position + a);
      counter := Wrap32(counter + a);
      if advance >= 512 {
        point := Some(User(bufferAt));
      } else {
        point := Some(CacheData);
      }
    }

    /** The copy of thinfat_file_read_callback: the share of the sector goes to the
        `buffer` pointer from the position's offset on; a whole aligned sector is
        not copied, as the cursor read it into the caller's buffer in place. */
    method CopyShare(sector: seq<u8>) returns (a: u32)
      requires Valid() && |sector| == SectorSize
      modifies user
      ensures a == SectorShare(View())
      ensures user[..] == Splice(old(user[..]), bufferAt, ShareCopy(View(), sector))
    {
      if position % 512 > 0 {
        a := 512 - position % 512;
        if a > advance {
          a := advance;
        }
        CopyInto(user, bufferAt, sector[position % 512..position % 512 + a]);
      } else {
        a := 512;
        if a > advance {
          a := advance;
          CopyInto(user, bufferAt, sector[..a]);
        }
      }
    }

    /** thinfat_file_write: reset the counter, take the length as it is (no clamp
        against the file size, no cluster allocation), and go the way WritePlan
        says: whole clusters through the cursor, or one sector read first. */
    method Write(client: object?, buf: array<u8>, length: u32, event: Event) returns (next: Next)
      requires blk.Valid() && blk.parent == parent
      requires length <= buf.Length
      modifies this, blk, blk.cache, blk.cache.dev
      ensures Valid() && user == buf
      ensures View() == old(View()).(client := client, event := event, counter := 0, bufferAt := 0, advance := length)
      ensures WritePlan(position, length).ClusterWrite? ==>
        && next == WriteEachCluster(WritePlan(position, length).sc, FileWrite)
        && blk.View() == old(blk.View()) && blk.cache.View() == old(blk.cache.View())
        && blk.cache.dev.log == old(blk.cache.dev.log)
      ensures WritePlan(position, length).SectorRead? ==>
        var r := Cursor.ReadEachSectorStep(old(blk.View()), parent.View(), this, 1, WritePlan(position, length).event);
        var e := Cursor.Perform(r.1, blk, blk.tableCache.View(), blk.tableCache.data[..], old(blk.cache.View()), blk.cache.data[..]);
        blk.View() == r.0 && blk.cache.View() == e.data && blk.cache.dev.log == old(blk.cache.dev.log) + e.issued && next == Done(e.reply)
    {
      ghost var plan := WritePlan(position, length);
      ghost var v0, c0, l0 := blk.View(), blk.cache.View(), blk.cache.dev.log;
      var scWrite := WriteCount(position, length);
      advance := length;
      counter := 0;
      user := buf;
      bufferAt := 0;
      this.event := event;
      this.client := client;
      if scWrite > 0 && position % 512 == 0 {
        return WriteEachCluster(scWrite, FileWrite);
      }
      // one sector first: to merge the head of the request, or all of it
      var ev := FileWriteFinish;
      if scWrite > 0 {
        ev := FileWritePrepare;
      }
      assert ev == plan.event && plan == WritePlan(position, length);
      assert blk.View() == v0 && blk.cache.View() == c0 && blk.cache.dev.log == l0;
      var reply := blk.ReadEachSector(this, 1, ev);
      next := Done(reply);
    }

    /** The count of thinfat_file_write: the span, decremented when the request
        ends inside a sector. */
    static method WriteCount(position: u32, length: u32) returns (scWrite: u32)
      ensures scWrite == WriteSectorCount(position, length)
    {
      scWrite := Wrap32(position % 512 + length + 511) / 512;
      if Wrap32(position + length) % 512 > 0 {
        scWrite := Wrap32(scWrite - 1);
      }
    }

    /** thinfat_file_write_finish_callback on the sector the cursor read into its
        cache: merge the request's share of the sector at the position's offset,
        move position and counter on, and report the counter to the client. The
        source then calls thinfat_cache_touch, which has no body; the cache's
        bookkeeping is left as it is. */
    method WriteFinishCallback() returns (reply: Reply)
      requires Valid() && blk.cache.Valid() && user != blk.cache.data
      modifies this, blk.cache.data
      ensures Valid() && user == old(user) && View() == FinishStep(old(View()))
      ensures blk.cache.data[..] ==
        Splice(old(blk.cache.data[..]), old(position) % 512, user[old(bufferAt)..old(bufferAt) + SectorShare(old(View()))])
      ensures reply == Deliver(client, event, InvalidSector)
    {
      var a := 512 - position % 512;
      if a > advance {
        a := advance;
      }
      CopyInto(blk.cache.data, position % 512, user[bufferAt..bufferAt + a]);
      position := Wrap32(position + a);
      counter := Wrap32(counter + a);
      reply := Deliver(client, event, InvalidSector);
    }
  }

  /** memcpy into an array. */
  method CopyInto(dst: array<u8>, at: nat, src: seq<u8>)
    requires at + |src| <= dst.Length
    modifies dst
    ensures dst[..] == Splice(old(dst[..]), at, src)
  {
    forall i | 0 <= i < |src| {
      dst[at + i] := src[i];
    }
    assert dst[..] == Splice(old(dst[..]), at, src);
  }
}
