/** Directory scanning (thinfat_dir.c): a traversal streams the sectors of a
    directory through the cluster cursor, and each delivered sector is scanned as
    16 slots of 32 bytes, in order, to list it, to find a short name, or to match
    a long name fragment by fragment. */
module Dir {
  import opened Common
  import opened Bytes
  import opened Volume
  import opened DirEntry
  import Cursor

  /** A wide character: the build insists on a 16-bit wchar_t holding UCS-2. */
  type WChar = u16

  /** thinfat_wstrlen as a value: the index of the first NUL. */
  function WStrLen(s: seq<WChar>): (r: nat)
    requires 0 in s
    ensures r < |s| && s[r] == 0
  {
    if s[0] == 0 then 0
    else
      assert 0 in s[1..] by {
        var k :| 0 <= k < |s| && s[k] == 0;
        assert s[1..][k - 1] == 0;
      }
      1 + WStrLen(s[1..])
  }

  /** The length counts the units before the first NUL, none of which is NUL. */
  lemma {:induction false} WStrLenStops(s: seq<WChar>)
    requires 0 in s
    ensures forall i :: 0 <= i < WStrLen(s) ==> s[i] != 0
  {
    if s[0] != 0 {
      assert 0 in s[1..] by {
        var k :| 0 <= k < |s| && s[k] == 0;
        assert s[1..][k - 1] == 0;
      }
      WStrLenStops(s[1..]);
    }
  }

  /** The target length the matcher compares against, in 32 bits, stays within
      the target. */
  lemma TargetLength(t: seq<WChar>)
    requires 0 in t
    ensures Wrap32(WStrLen(t)) <= WStrLen(t) < |t|
  {
  }

  /** thinfat_wstrlen: count units up to the terminator. */
  method Wstrlen(str: seq<WChar>) returns (ret: nat)
    requires 0 in str
    ensures ret == WStrLen(str)
  {
    ret := 0;
    WStrLenStops(str);
    while str[ret] != 0
      invariant ret <= WStrLen(str)
      invariant forall i :: 0 <= i < ret ==> str[i] != 0
      decreases WStrLen(str) - ret
    {
      ret := ret + 1;
    }
  }

  // ---------------------------------------------------------------- slots

  /** The short-entry view of slot `i` of a directory sector. */
  function SlotEntry(sector: seq<u8>, i: nat): (e: Entry)
    requires |sector| == SectorSize && i < SlotsPerSector
    ensures |e.name| == 11 && e.name[0] == sector[i * SlotSize]
  {
    DecodeEntry(sector, i * SlotSize)
  }

  /** The long-name fragment view of slot `i` of a directory sector. */
  function SlotLfn(sector: seq<u8>, i: nat): (l: Lfn)
    requires |sector| == SectorSize && i < SlotsPerSector
    ensures |l.partial| == 13
  {
    LfnAt(sector, i * SlotSize)
  }

  /** A first byte of 0x00 (never used) or 0xE5 (deleted) marks a free slot; the
      scans pass over it and go on. */
  predicate IsFree(lead: u8)
  {
    lead == 0x00 || lead == 0xE5
  }

  /** A short entry the searches may report: in use, not starting with 0x05, and
      neither hidden nor system. A long-name slot (attribute 0x0F) has both of
      those bits and is never one. */
  predicate Candidate(e: Entry)
    requires |e.name| == 11
  {
    !IsFree(e.name[0]) && e.name[0] != 0x05 && !HiddenOrSystem(e.attr)
  }

  /** The 0x40 bit of a fragment's ordinal: the last fragment of a name. */
  predicate IsLast(order: u8)
  {
    (order / 0x40) % 2 == 1
  }

  /** The client told of an entry: who, with which event, and the entry. */
  datatype Hit = Hit(client: object?, event: Event, entry: Entry)

  // ---------------------------------------------------------------- listing

  /** One line of a directory listing. */
  datatype Line =
    | LfnLine(ordinal: u8, last: bool)
    | ShortLine(name: seq<u8>, ciHead: u32, size: u32)

  /** What the dump prints for slot `i`: a long-name fragment by its ordinal (without
      the 0x40 bit when it is set), a short entry not starting with 0x05 by name,
      first cluster and size, and nothing for a free slot. */
  function LineOf(sector: seq<u8>, i: nat): seq<Line>
    requires |sector| == SectorSize && i < SlotsPerSector
  {
    var e := SlotEntry(sector, i);
    var lead := e.name[0];
    if IsFree(lead) then []
    else if e.attr == AttrLongFileName then
      if IsLast(lead) then [LfnLine(lead % 0x40, true)] else [LfnLine(lead, false)]
    else if lead != 0x05 then [ShortLine(e.name, e.ciHead, e.size)]
    else []
  }

  /** The lines for the first `n` slots, in slot order. */
  function Listing(sector: seq<u8>, n: nat): (r: seq<Line>)
    requires |sector| == SectorSize && n <= SlotsPerSector
    ensures |r| <= n
    decreases n
  {
    if n == 0 then [] else Listing(sector, n - 1) + LineOf(sector, n - 1)
  }

  /** A sector whose slots are all free lists nothing: free slots are skipped, not
      taken as the end of the directory, and print no line. */
  lemma {:induction false} FreeSectorListsNothing(sector: seq<u8>, n: nat)
    requires |sector| == SectorSize && n <= SlotsPerSector
    requires forall i :: 0 <= i < n ==> IsFree(sector[i * SlotSize])
    ensures Listing(sector, n) == []
    decreases n
  {
    if n > 0 {
      FreeSectorListsNothing(sector, n - 1);
      assert IsFree(SlotEntry(sector, n - 1).name[0]);
    }
  }

  /** A visible short entry stored in slot `i` is listed with the name, first
      cluster and size that were stored. */
  lemma StoredEntryListed(sector: seq<u8>, i: nat, e: Entry)
    requires |sector| == SectorSize && i < SlotsPerSector && |e.name| == 11
    requires sector[i * SlotSize..i * SlotSize + SlotSize] == EncodeEntry(e)
    requires !IsFree(e.name[0]) && e.name[0] != 0x05 && e.attr != AttrLongFileName
    ensures LineOf(sector, i) == [ShortLine(e.name, e.ciHead, e.size)]
  {
    DecodeEntryLocal(sector, i * SlotSize);
    DecodeEncodeEntry(e);
  }

  // ---------------------------------------------------------------- short-name search

  /** Slot `i` holds a candidate whose 11 name bytes are those of the target. */
  predicate SlotMatches(sector: seq<u8>, target: seq<u8>, i: nat)
    requires |sector| == SectorSize && i < SlotsPerSector && |target| >= 11
  {
    var e := SlotEntry(sector, i);
    Candidate(e) && e.name == target[..11]
  }

  /** The first matching slot from `i` on. */
  function FirstMatch(sector: seq<u8>, target: seq<u8>, i: nat): (r: Option<nat>)
    requires |sector| == SectorSize && i <= SlotsPerSector && |target| >= 11
    ensures r.Some? ==> i <= r.value < SlotsPerSector
    decreases SlotsPerSector - i
  {
    if i == SlotsPerSector then None
    else if SlotMatches(sector, target, i) then Some(i)
    else FirstMatch(sector, target, i + 1)
  }

  /** No slot from `lo` up to `hi` matches the target. */
  predicate NoMatchBetween(sector: seq<u8>, target: seq<u8>, lo: nat, hi: nat)
    requires |sector| == SectorSize && hi <= SlotsPerSector && |target| >= 11
  {
    forall k :: lo <= k < hi ==> !SlotMatches(sector, target, k)
  }

  /** The search from slot `i` reports a matching slot with no match between `i`
      and it, or nothing when no slot from `i` on matches. */
  lemma {:induction false} FirstMatchIsFirst(sector: seq<u8>, target: seq<u8>, i: nat)
    requires |sector| == SectorSize && i <= SlotsPerSector && |target| >= 11
    ensures var r := FirstMatch(sector, target, i);
      && (r.Some? ==> SlotMatches(sector, target, r.value) && NoMatchBetween(sector, target, i, r.value))
      && (r.None? ==> NoMatchBetween(sector, target, i, SlotsPerSector))
    decreases SlotsPerSector - i
  {
    if i < SlotsPerSector && !SlotMatches(sector, target, i) {
      FirstMatchIsFirst(sector, target, i + 1);
      var hi := match FirstMatch(sector, target, i + 1) case Some(k) => k case None => SlotsPerSector;
      NoMatchExtend(sector, target, i, hi);
    }
  }

  lemma NoMatchExtend(sector: seq<u8>, target: seq<u8>, i: nat, hi: nat)
    requires |sector| == SectorSize && i < hi <= SlotsPerSector && |target| >= 11
    requires !SlotMatches(sector, target, i) && NoMatchBetween(sector, target, i + 1, hi)
    ensures NoMatchBetween(sector, target, i, hi)
  {
  }

  /** Conversely, a matching slot `k` with no match from `i` up to it is the one
      the search from `i` reports. */
  lemma {:induction false} FirstMatchAt(sector: seq<u8>, target: seq<u8>, i: nat, k: nat)
    requires |sector| == SectorSize && i <= k < SlotsPerSector && |target| >= 11
    requires SlotMatches(sector, target, k) && NoMatchBetween(sector, target, i, k)
    ensures FirstMatch(sector, target, i) == Some(k)
    decreases k - i
  {
    if i < k {
      NoMatchSplit(sector, target, i, k);
      FirstMatchAt(sector, target, i + 1, k);
      assert FirstMatch(sector, target, i) == FirstMatch(sector, target, i + 1);
    }
  }

  lemma NoMatchSplit(sector: seq<u8>, target: seq<u8>, i: nat, hi: nat)
    requires |sector| == SectorSize && i < hi <= SlotsPerSector && |target| >= 11
    requires NoMatchBetween(sector, target, i, hi)
    ensures !SlotMatches(sector, target, i) && NoMatchBetween(sector, target, i + 1, hi)
  {
  }

  /** What the find callback does with a delivered sector (None: the end of the
      stream): forward the end to the client, report the first match and abort the
      stream, or go on. */
  function FindResult(client: object?, event: Event, target: seq<u8>, entries: Option<seq<u8>>): (Reply, Option<Hit>)
    requires |target| >= 11
    requires entries.Some? ==> |entries.value| == SectorSize
  {
    if entries.None? then (Deliver(client, event, InvalidSector), None)
    else match FirstMatch(entries.value, target, 0)
      case Some(k) => (Return(Abort), Some(Hit(client, event, SlotEntry(entries.value, k))))
      case None => (Return(Ok), None)
  }

  /** A long-name slot never matches a short-name search. */
  lemma FragmentsNeverMatch(sector: seq<u8>, target: seq<u8>, i: nat)
    requires |sector| == SectorSize && i < SlotsPerSector && |target| >= 11
    requires SlotEntry(sector, i).attr == AttrLongFileName
    ensures !SlotMatches(sector, target, i)
  {
  }

  /** A visible entry stored under the target's name in slot `k`, with no earlier
      slot matching, is the one the search reports. */
  lemma StoredEntryFound(sector: seq<u8>, target: seq<u8>, k: nat, e: Entry)
    requires |sector| == SectorSize && k < SlotsPerSector && |target| >= 11 && |e.name| == 11
    requires sector[k * SlotSize..k * SlotSize + SlotSize] == EncodeEntry(e)
    requires Candidate(e) && e.name == target[..11]
    requires NoMatchBetween(sector, target, 0, k)
    ensures FirstMatch(sector, target, 0) == Some(k)
    ensures FindResult(null, DirFind, target, Some(sector)) == (Return(Abort), Some(Hit(null, DirFind, e)))
  {
    DecodeEntryLocal(sector, k * SlotSize);
    DecodeEncodeEntry(e);
    assert SlotEntry(sector, k) == e;
    assert SlotMatches(sector, target, k);
    FirstMatchAt(sector, target, 0, k);
  }

  // ---------------------------------------------------------------- long-name matching

  /** The long-name search state kept across slots and sectors: the number of
      target units matched so far (256: the whole target matched) and the checksum
      of the previous fragment. */
  datatype Matcher = Matcher(nc: u32, checksum: u8)

  /** The first name unit a fragment covers: 13 times its position minus 13, in
      unsigned 32-bit arithmetic. */
  function FragmentStart(order: u8): u32
  {
    if order % 32 == 0 then 0x1_0000_0000 - 13 else 13 * (order % 32) - 13
  }

  /** Target unit `ic + q` in unsigned 32-bit arithmetic, for a unit `q` of a
      fragment. */
  function UnitIndex(ic: u32, q: nat): u32
    requires q < 13
  {
    if ic + q < 0x1_0000_0000 then ic + q else ic + q - 0x1_0000_0000
  }

  /** Both are the source's unsigned 32-bit sums. */
  lemma ModularIndices(order: u8, ic: u32, q: nat)
    requires q < 13
    ensures FragmentStart(order) == Wrap32(13 * (order % 32) - 13)
    ensures UnitIndex(ic, q) == Wrap32(ic + q)
  {
  }

  /** Unit `q` of a fragment starting at target unit `ic` is compared (it lies
      below the target's length `n`) and agrees with the target. */
  predicate Agrees(partial: seq<u16>, t: seq<WChar>, n: u32, ic: u32, q: nat)
    requires |partial| == 13 && n <= |t| && q < 13
  {
    UnitIndex(ic, q) < n && t[UnitIndex(ic, q)] == partial[q]
  }

  /** The comparison loop from unit `j` on: how far the fragment's units agree with
      the target at the fragment's start, never past the target's length `n`. */
  function MatchLen(partial: seq<u16>, t: seq<WChar>, n: u32, ic: u32, j: nat): (r: nat)
    requires |partial| == 13 && n <= |t| && j <= 13
    ensures j <= r <= 13
    decreases 13 - j
  {
    if j < 13 && Agrees(partial, t, n, ic, j) then MatchLen(partial, t, n, ic, j + 1)
    else j
  }

  /** The comparison stops at the first unit that does not agree: every unit from
      `j` up to where it stops agrees, and the one it stops at, if any, does not. */
  lemma {:induction false} MatchLenStops(partial: seq<u16>, t: seq<WChar>, n: u32, ic: u32, j: nat)
    requires |partial| == 13 && n <= |t| && j <= 13
    ensures var r := MatchLen(partial, t, n, ic, j);
      && (forall q :: j <= q < r ==> Agrees(partial, t, n, ic, q))
      && (r < 13 ==> !Agrees(partial, t, n, ic, r))
    decreases 13 - j
  {
    if j < 13 && Agrees(partial, t, n, ic, j) {
      MatchLenStops(partial, t, n, ic, j + 1);
    }
  }

  /** One long-name fragment: restart the count at a last fragment, on a checksum
      change, or after a complete match; add the units that agree; a count equal
      to the target length becomes 256; keep the fragment's checksum. */
  function LfnStep(m: Matcher, l: Lfn, t: seq<WChar>, n: u32): Matcher
    requires |l.partial| == 13 && n <= |t|
  {
    var base := if IsLast(l.order) || l.checksum != m.checksum || m.nc > 255 then 0 else m.nc;
    var nc := base + MatchLen(l.partial, t, n, FragmentStart(l.order), 0);
    Matcher(if nc == n then 256 else nc, l.checksum)
  }

  /** A fragment leaves its checksum in the matcher, and after a restart the count
      is at most the 13 units of the fragment, unless it completed the target. */
  lemma LfnStepBounds(m: Matcher, l: Lfn, t: seq<WChar>, n: u32)
    requires |l.partial| == 13 && n <= |t|
    ensures var r := LfnStep(m, l, t, n);
      && r.checksum == l.checksum
      && (IsLast(l.order) || l.checksum != m.checksum || m.nc > 255 ==> r.nc <= 13 || r.nc == 256)
  {
  }

  /** The outcome of scanning slots for a long name. */
  datatype Scan = Continue(m: Matcher) | Found(m: Matcher, entry: Entry)

  /** One slot of the long-name scan: free slots change nothing, fragments feed the
      matcher, and a candidate short entry is reported (with the count reset) when
      the count says the whole target matched; otherwise the count is kept. */
  function LongSlotStep(m: Matcher, sector: seq<u8>, i: nat, t: seq<WChar>, n: u32): Scan
    requires |sector| == SectorSize && i < SlotsPerSector && n <= |t|
  {
    var e := SlotEntry(sector, i);
    if !IsFree(e.name[0]) && e.attr == AttrLongFileName then Continue(LfnStep(m, SlotLfn(sector, i), t, n))
    else if Candidate(e) && m.nc > 255 then Found(m.(nc := 0), e)
    else Continue(m)
  }

  /** What one slot does to the long-name scan: a candidate short entry is reported
      exactly when the count says the whole target matched, and is otherwise passed
      over with the count kept; a report resets the count and carries the slot's
      entry, which is a candidate. */
  lemma LongSlotStepFacts(m: Matcher, sector: seq<u8>, i: nat, t: seq<WChar>, n: u32)
    requires |sector| == SectorSize && i < SlotsPerSector && n <= |t|
    ensures var r := LongSlotStep(m, sector, i, t, n);
      && (Candidate(SlotEntry(sector, i)) ==> (r.Found? <==> m.nc > 255))
      && (Candidate(SlotEntry(sector, i)) && r.Continue? ==> r.m == m)
      && (r.Found? ==> r.m == m.(nc := 0) && r.entry == SlotEntry(sector, i) && Candidate(r.entry))
  {
    if !IsFree(SlotEntry(sector, i).name[0]) && SlotEntry(sector, i).attr == AttrLongFileName {
      LongNameIsHidden();
    }
  }

  /** The long-name scan of slots `i` to 15, stopping at the first report. */
  function LongScan(m: Matcher, sector: seq<u8>, i: nat, t: seq<WChar>, n: u32): Scan
    requires |sector| == SectorSize && i <= SlotsPerSector && n <= |t|
    decreases SlotsPerSector - i
  {
    if i == SlotsPerSector then Continue(m)
    else match LongSlotStep(m, sector, i, t, n)
      case Found(m', e) => Found(m', e)
      case Continue(m') => LongScan(m', sector, i + 1, t, n)
  }

  /** The scan reports the short entry of one of the slots it went over, and nothing
      when the sector holds no candidate from slot `i` on. */
  lemma {:induction false} LongScanReportsSlot(m: Matcher, sector: seq<u8>, i: nat, t: seq<WChar>, n: u32)
    requires |sector| == SectorSize && i <= SlotsPerSector && n <= |t|
    ensures var r := LongScan(m, sector, i, t, n);
      r.Found? ==> r.m.nc == 0 && |r.entry.name| == 11 && Candidate(r.entry) && exists k :: i <= k < SlotsPerSector && r.entry == SlotEntry(sector, k)
    decreases SlotsPerSector - i
  {
    if i < SlotsPerSector {
      var step := LongSlotStep(m, sector, i, t, n);
      LongSlotStepFacts(m, sector, i, t, n);
      if step.Continue? {
        LongScanReportsSlot(step.m, sector, i + 1, t, n);
      }
    }
  }

  /** What the long-name callback does with a delivered sector. */
  function LongResult(client: object?, event: Event, m: Matcher, t: seq<WChar>, entries: Option<seq<u8>>): (Reply, Option<Hit>, Matcher)
    requires 0 in t
    requires entries.Some? ==> |entries.value| == SectorSize
  {
    if entries.None? then (Deliver(client, event, InvalidSector), None, m)
    else match LongScan(m, entries.value, 0, t, Wrap32(WStrLen(t)))
      case Found(m', e) => (Return(Abort), Some(Hit(client, event, e)), m')
      case Continue(m') => (Return(Ok), None, m')
  }

  // ---------------------------------------------------------------- what the matcher recognises

  /** Unit `p` of a stored long name: the name, a NUL, then 0xFFFF padding. */
  function NameUnit(name: seq<u16>, p: nat): u16
  {
    if p < |name| then name[p] else if p == |name| then 0 else 0xFFFF
  }

  /** The number of fragments a name of this length is stored in. */
  function FragmentCount(name: seq<u16>): (r: nat)
    ensures |name| <= 255 ==> r <= 20
    ensures 1 <= |name| ==> 1 <= r && 13 * (r - 1) < |name| <= 13 * r
  {
    (|name| + 12) / 13
  }

  /** Fragment `k` of `count`, as stored: ordinal `k`, with 0x40 on the last. */
  function Fragment(name: seq<u16>, cs: u8, k: nat, count: nat): (l: Lfn)
    requires 1 <= k <= count <= 20
    ensures |l.partial| == 13
  {
    Lfn(if k == count then k + 0x40 else k, cs, FragmentUnits(name, 13 * (k - 1)))
  }

  /** The 13 stored units from `lo` on. */
  function FragmentUnits(name: seq<u16>, lo: nat): (r: seq<u16>)
    ensures |r| == 13 && forall q :: 0 <= q < 13 ==> r[q] == NameUnit(name, lo + q)
  {
    seq<u16>(13, (q: int) requires 0 <= q < 13 => NameUnit(name, lo + q))
  }

  /** The fragments of a name in directory order: the last one first, down to 1. */
  function Fragments(name: seq<u16>, cs: u8): (r: seq<Lfn>)
    requires 1 <= |name| <= 255
    ensures |r| == FragmentCount(name)
    ensures forall i :: 0 <= i < |r| ==> r[i] == Fragment(name, cs, FragmentCount(name) - i, FragmentCount(name))
  {
    seq(FragmentCount(name), i requires 0 <= i < FragmentCount(name) => Fragment(name, cs, FragmentCount(name) - i, FragmentCount(name)))
  }

  /** The matcher after a run of fragments, in order. */
  function Feed(m: Matcher, frags: seq<Lfn>, t: seq<WChar>, n: u32): Matcher
    requires forall i :: 0 <= i < |frags| ==> |frags[i].partial| == 13
    requires n <= |t|
    decreases |frags|
  {
    if frags == [] then m else LfnStep(Feed(m, frags[..|frags| - 1], t, n), frags[|frags| - 1], t, n)
  }

  /** How far the target exceeds position `lo`. */
  function Excess(n: nat, lo: nat): nat
  {
    if n > lo then n - lo else 0
  }

  /** Target unit `p` equals stored unit `p`. */
  predicate UnitMatches(name: seq<u16>, t: seq<WChar>, p: nat)
  {
    p < |t| && t[p] == NameUnit(name, p)
  }

  /** The `c` target units from `lo` on equal the stored ones. */
  predicate RunMatches(name: seq<u16>, t: seq<WChar>, lo: nat, c: nat)
  {
    forall p: nat :: lo <= p < lo + c ==> UnitMatches(name, t, p)
  }

  /** Target unit `p` lies within the first `cap` stored units and equals the
      stored unit. */
  predicate UnitAgrees(name: seq<u16>, cap: nat, t: seq<WChar>, p: nat)
  {
    p < cap && UnitMatches(name, t, p)
  }

  /** From `lo` on, every target unit agrees. */
  predicate AgreeFrom(name: seq<u16>, cap: nat, t: seq<WChar>, n: nat, lo: nat)
  {
    forall p: nat :: lo <= p < n ==> UnitAgrees(name, cap, t, p)
  }

  /** The ordinal, start and units of stored fragment `k`. */
  lemma FragmentHeader(name: seq<u16>, cs: u8, k: nat, count: nat)
    requires 1 <= k <= count <= 20
    ensures var l := Fragment(name, cs, k, count);
      && (IsLast(l.order) <==> k == count)
      && FragmentStart(l.order) == 13 * (k - 1)
      && l.partial == FragmentUnits(name, 13 * (k - 1)) && l.checksum == cs
  {
    var l := Fragment(name, cs, k, count);
    assert l.order % 32 == k;
  }

  /** The comparison of a stored fragment starting at unit `lo` with the target:
      the units that agree are at most the `c` target units the fragment covers,
      and at most the name units it holds (the NUL after the name agrees with no
      target unit); they are all `c` exactly when those target units equal the
      stored ones. */
  lemma FragmentUnitsAgree(name: seq<u16>, t: seq<WChar>, n: u32, lo: nat)
    requires 1 <= |name| <= 255 && 0 < n <= |t| && lo < |name|
    requires forall p :: 0 <= p < n ==> t[p] != 0
    ensures var j := MatchLen(FragmentUnits(name, lo), t, n, lo, 0);
      var c := Excess(n, lo) - Excess(n, lo + 13);
      && j <= c
      && j <= Excess(|name|, lo) - Excess(|name|, lo + 13)
      && (j == c <==> RunMatches(name, t, lo, c))
  {
    var units := FragmentUnits(name, lo);
    var j := MatchLen(units, t, n, lo, 0);
    MatchWithinTarget(units, t, n, lo, j);
    MatchWithinName(name, t, n, lo, j);
    MatchComplete(name, t, n, lo, j);
  }

  lemma MatchWithinTarget(units: seq<u16>, t: seq<WChar>, n: u32, lo: nat, j: nat)
    requires |units| == 13 && n <= |t| && lo < 255
    requires j == MatchLen(units, t, n, lo, 0)
    ensures j <= Excess(n, lo) - Excess(n, lo + 13)
  {
    MatchLenStops(units, t, n, lo, 0);
    if j > 0 {
      assert Agrees(units, t, n, lo, j - 1);
      SmallWrap(lo + (j - 1));
    }
  }

  lemma MatchWithinName(name: seq<u16>, t: seq<WChar>, n: u32, lo: nat, j: nat)
    requires 1 <= |name| <= 255 && n <= |t| && lo < |name|
    requires forall p :: 0 <= p < n ==> t[p] != 0
    requires j == MatchLen(FragmentUnits(name, lo), t, n, lo, 0)
    ensures j <= Excess(|name|, lo) - Excess(|name|, lo + 13)
  {
    var units := FragmentUnits(name, lo);
    MatchLenStops(units, t, n, lo, 0);
    var q := |name| - lo;
    if q < 13 {
      SmallWrap(lo + q);
      assert !Agrees(units, t, n, lo, q);
    }
  }

  lemma MatchComplete(name: seq<u16>, t: seq<WChar>, n: u32, lo: nat, j: nat)
    requires n <= |t| && lo < 255
    requires j == MatchLen(FragmentUnits(name, lo), t, n, lo, 0)
    ensures var c := Excess(n, lo) - Excess(n, lo + 13);
      j == c <==> RunMatches(name, t, lo, c)
  {
    var units := FragmentUnits(name, lo);
    var c := Excess(n, lo) - Excess(n, lo + 13);
    MatchLenStops(units, t, n, lo, 0);
    MatchWithinTarget(units, t, n, lo, j);
    if j < c {
      MatchStops(name, t, n, lo, j);
      assert !(lo <= lo + j < lo + c ==> UnitMatches(name, t, lo + j));
    } else {
      MatchRun(name, t, n, lo, c);
    }
  }

  /** The unit where the comparison stops differs from the stored one. */
  lemma MatchStops(name: seq<u16>, t: seq<WChar>, n: u32, lo: nat, j: nat)
    requires n <= |t| && lo < 255 && j < 13 && lo + j < n
    requires !Agrees(FragmentUnits(name, lo), t, n, lo, j)
    ensures !UnitMatches(name, t, lo + j)
  {
    SmallWrap(lo + j);
  }

  /** Units that the comparison found agreeing equal the stored ones. */
  lemma MatchRun(name: seq<u16>, t: seq<WChar>, n: u32, lo: nat, c: nat)
    requires n <= |t| && lo < 255 && c <= 13
    requires forall q :: 0 <= q < c ==> Agrees(FragmentUnits(name, lo), t, n, lo, q)
    ensures RunMatches(name, t, lo, c)
  {
    var units := FragmentUnits(name, lo);
    forall p: nat | lo <= p < lo + c
      ensures UnitMatches(name, t, p)
    {
      assert Agrees(units, t, n, lo, p - lo);
      SmallWrap(p);
    }
  }


  /** Agreement from `lo`, at one unit. */
  lemma AgreeAt(name: seq<u16>, cap: nat, t: seq<WChar>, n: nat, lo: nat, p: nat)
    requires n <= |t| && AgreeFrom(name, cap, t, n, lo) && lo <= p < n
    ensures UnitAgrees(name, cap, t, p)
  {
  }

  /** One unit that lies past the fragments or differs rules agreement out. */
  lemma DisagreeAt(name: seq<u16>, cap: nat, t: seq<WChar>, n: nat, lo: nat, p: nat)
    requires n <= |t| && lo <= p < n && (p >= cap || t[p] != NameUnit(name, p))
    ensures !AgreeFrom(name, cap, t, n, lo)
  {
    assert !(lo <= p < n ==> UnitAgrees(name, cap, t, p));
  }

  /** Agreement from `lo` splits into the units of the fragment there and
      agreement from the next fragment on. */
  lemma AgreeSplit(name: seq<u16>, cap: nat, t: seq<WChar>, n: nat, lo: nat)
    requires n <= |t| && lo + 13 <= cap
    ensures var c := Excess(n, lo) - Excess(n, lo + 13);
      AgreeFrom(name, cap, t, n, lo) <==>
        AgreeFrom(name, cap, t, n, lo + 13) && RunMatches(name, t, lo, c)
  {
    var c := Excess(n, lo) - Excess(n, lo + 13);
    assert (n > lo ==> lo + c <= n) && (n <= lo ==> c == 0) && (lo + 13 <= cap);
    if AgreeFrom(name, cap, t, n, lo) {
      AgreeTail(name, cap, t, n, lo);
      AgreeHead(name, cap, t, n, lo, c);
    }
    if AgreeFrom(name, cap, t, n, lo + 13) && RunMatches(name, t, lo, c) {
      AgreeJoin(name, cap, t, n, lo, c);
    }
  }

  lemma AgreeTail(name: seq<u16>, cap: nat, t: seq<WChar>, n: nat, lo: nat)
    requires n <= |t| && AgreeFrom(name, cap, t, n, lo)
    ensures AgreeFrom(name, cap, t, n, lo + 13)
  {
    forall p: nat | lo + 13 <= p < n
      ensures UnitAgrees(name, cap, t, p)
    {
      AgreeAt(name, cap, t, n, lo, p);
    }
  }

  lemma AgreeHead(name: seq<u16>, cap: nat, t: seq<WChar>, n: nat, lo: nat, c: nat)
    requires n <= |t| && (n > lo ==> lo + c <= n) && (n <= lo ==> c == 0)
    requires AgreeFrom(name, cap, t, n, lo)
    ensures RunMatches(name, t, lo, c)
  {
    forall p: nat | lo <= p < lo + c
      ensures UnitMatches(name, t, p)
    {
      AgreeAt(name, cap, t, n, lo, p);
    }
  }

  lemma AgreeJoin(name: seq<u16>, cap: nat, t: seq<WChar>, n: nat, lo: nat, c: nat)
    requires n <= |t| && lo + 13 <= cap && (n <= lo ==> c == 0)
    requires n > lo ==> (n >= lo + 13 ==> c == 13) && (n < lo + 13 ==> lo + c == n)
    requires AgreeFrom(name, cap, t, n, lo + 13)
    requires RunMatches(name, t, lo, c)
    ensures AgreeFrom(name, cap, t, n, lo)
  {
    forall p: nat | lo <= p < n
      ensures UnitAgrees(name, cap, t, p)
    {
      if p < lo + 13 {
        assert p < lo + c;
      } else {
        assert lo + 13 <= p < n;
      }
    }
  }

  /** Fragment `k` of a name, given what the fragments above it left in the matcher:
      the count stays at most the excess of the target (and of the name) over the
      fragment's start, reaching it exactly when every unit from there agrees. At
      fragment 1 that means the whole target, and the count becomes 256. */
  lemma FragmentStep(name: seq<u16>, cs: u8, t: seq<WChar>, n: u32, k: nat, m: Matcher)
    requires 1 <= |name| <= 255 && 0 < n <= |t|
    requires forall p :: 0 <= p < n ==> t[p] != 0
    requires 1 <= k <= FragmentCount(name)
    requires k < FragmentCount(name) ==>
      && m.checksum == cs && m.nc <= Excess(n, 13 * k) && m.nc <= Excess(|name|, 13 * k)
      && (m.nc == Excess(n, 13 * k) <==> AgreeFrom(name, 13 * FragmentCount(name), t, n, 13 * k))
    ensures var r := LfnStep(m, Fragment(name, cs, k, FragmentCount(name)), t, n);
      var lo := 13 * (k - 1);
      && r.checksum == cs
      && (k > 1 ==> r.nc <= Excess(n, lo) && r.nc <= Excess(|name|, lo)
                    && (r.nc == Excess(n, lo) <==> AgreeFrom(name, 13 * FragmentCount(name), t, n, lo)))
      && (k == 1 ==> (r.nc == 256 <==> AgreeFrom(name, 13 * FragmentCount(name), t, n, 0)) && (r.nc != 256 ==> r.nc <= 255))
  {
    var F := FragmentCount(name);
    var l := Fragment(name, cs, k, F);
    var lo := 13 * (k - 1);
    var hi := lo + 13;
    FragmentHeader(name, cs, k, F);
    var base := if IsLast(l.order) || l.checksum != m.checksum || m.nc > 255 then 0 else m.nc;
    // the count carried in from the fragments above
    if k == F {
      assert base == 0 && Excess(|name|, hi) == 0;
      assert hi == 13 * F;
      if n > hi {
        DisagreeAt(name, 13 * F, t, n, hi, hi);
      }
      assert base == Excess(n, hi) <==> AgreeFrom(name, 13 * F, t, n, hi);
    } else {
      assert hi == 13 * k;
      assert base == m.nc;
    }
    assert base <= Excess(n, hi) && base <= Excess(|name|, hi);
    assert base == Excess(n, hi) <==> AgreeFrom(name, 13 * F, t, n, hi);
    // the units of this fragment
    var j := MatchLen(l.partial, t, n, lo, 0);
    FragmentUnitsAgree(name, t, n, lo);
    AgreeSplit(name, 13 * F, t, n, lo);
    var nc := base + j;
    assert nc <= Excess(n, lo) && nc <= Excess(|name|, lo);
    assert nc == Excess(n, lo) <==> AgreeFrom(name, 13 * F, t, n, lo);
    assert LfnStep(m, l, t, n) == Matcher(if nc == n then 256 else nc, cs);
  }

  /** The matcher after the first `i` fragments of a name in directory order. */
  lemma {:induction false} FeedInvariant(name: seq<u16>, cs: u8, t: seq<WChar>, n: u32, m: Matcher, i: nat)
    requires 1 <= |name| <= 255 && 0 < n <= |t|
    requires forall p :: 0 <= p < n ==> t[p] != 0
    requires 1 <= i <= FragmentCount(name)
    ensures var F := FragmentCount(name);
      var r := Feed(m, Fragments(name, cs)[..i], t, n);
      var lo := 13 * (F - i);
      && (i < F ==> r.checksum == cs && r.nc <= Excess(n, lo) && r.nc <= Excess(|name|, lo)
                    && (r.nc == Excess(n, lo) <==> AgreeFrom(name, 13 * F, t, n, lo)))
      && (i == F ==> (r.nc == 256 <==> AgreeFrom(name, 13 * F, t, n, 0)) && (r.nc != 256 ==> r.nc <= 255))
    decreases i
  {
    var F := FragmentCount(name);
    var frags := Fragments(name, cs);
    var k := F - i + 1;
    assert frags[..i][..i - 1] == frags[..i - 1];
    assert frags[..i][i - 1] == Fragment(name, cs, k, F);
    if i == 1 {
      assert frags[..0] == [];
      FragmentStep(name, cs, t, n, k, m);
    } else {
      FeedInvariant(name, cs, t, n, m, i - 1);
      assert 13 * (F - (i - 1)) == 13 * k;
      FragmentStep(name, cs, t, n, k, Feed(m, frags[..i - 1], t, n));
    }
  }

  /** With an empty target every fragment completes the match. */
  lemma {:induction false} EmptyTargetFeed(name: seq<u16>, cs: u8, t: seq<WChar>, m: Matcher, i: nat)
    requires 1 <= |name| <= 255
    requires 1 <= i <= FragmentCount(name)
    ensures Feed(m, Fragments(name, cs)[..i], t, 0).nc == 256
    decreases i
  {
    var frags := Fragments(name, cs);
    assert frags[..i][..i - 1] == frags[..i - 1];
    if i == 1 {
      assert frags[..0] == [];
      assert IsLast(frags[0].order);
    } else {
      EmptyTargetFeed(name, cs, t, m, i - 1);
    }
  }

  /** Agreement from the start is the target being a prefix of the name: past the
      name lies its NUL, which no target unit equals. */
  lemma AgreeMeansPrefix(name: seq<u16>, t: seq<WChar>, n: nat)
    requires 1 <= |name| <= 255 && n <= |t|
    requires forall p :: 0 <= p < n ==> t[p] != 0
    ensures AgreeFrom(name, 13 * FragmentCount(name), t, n, 0) <==> n <= |name| && t[..n] == name[..n]
  {
    var F := FragmentCount(name);
    if |name| < n {
      DisagreeAt(name, 13 * F, t, n, 0, |name|);
    }
    if AgreeFrom(name, 13 * F, t, n, 0) {
      forall p: nat | 0 <= p < n
        ensures t[..n][p] == name[..n][p]
      {
        AgreeAt(name, 13 * F, t, n, 0, p);
      }
    }
    if n <= |name| && t[..n] == name[..n] {
      forall p: nat | 0 <= p < n
        ensures UnitAgrees(name, 13 * F, t, p)
      {
        assert t[..n][p] == name[..n][p];
      }
    }
  }

  /** What the long-name search recognises: after the fragments of a stored name
      (same checksum, last fragment first), whatever state it started from, the
      count signals a match, so that the short entry that follows is reported,
      exactly when the target is a prefix of the name, not only when it is the
      whole name. */
  lemma LongNameMatch(name: seq<u16>, cs: u8, target: seq<WChar>, m: Matcher)
    requires 1 <= |name| <= 255
    requires 0 in target && |target| <= 0x1_0000_0000
    ensures var n := WStrLen(target);
      Feed(m, Fragments(name, cs), target, n).nc > 255 <==> n <= |name| && target[..n] == name[..n]
  {
    var n := WStrLen(target);
    var F := FragmentCount(name);
    var frags := Fragments(name, cs);
    assert frags[..F] == frags;
    if n == 0 {
      EmptyTargetFeed(name, cs, target, m, F);
    } else {
      WStrLenStops(target);
      FeedInvariant(name, cs, target, n, m, F);
      AgreeMeansPrefix(name, target, n);
    }
  }

  // ---------------------------------------------------------------- the directory object

  /** The sectors a traversal streams: the root area's sector count when the
      directory starts at the volume's root cluster, otherwise as many as the chain
      holds (the largest count). */
  function ScanLength(v: Volume, ciHead: u32): (r: u32)
    ensures ciHead == v.ciRoot ==> r * SectorSize >= v.rootEntryCount * SlotSize
    ensures ciHead == v.ciRoot ==> r == 0 || (r - 1) * SectorSize < v.rootEntryCount * SlotSize
    ensures ciHead != v.ciRoot ==> r == 0xFFFF_FFFF
  {
    if ciHead == v.ciRoot then RootSectorCount(v.rootEntryCount) else 0xFFFF_FFFF
  }

  /** thinfat_dir_t: the client and event of the current search, its targets (the
      source keeps one untyped pointer for both), the long-name matcher state and
      the directory's cluster cursor. */
  class Directory {
    var client: object?
    var event: Event
    var targetShort: seq<u8>
    var targetLong: seq<WChar>
    var ncMatched: u32
    var checksum: u8
    const parent: Filesystem
    const blk: Cursor.ClusterCursor

    /** A directory over the cursor `blk`; thinfat_dir_init is declared but has no
        body in the source, so every field starts neutral. */
    constructor (parent: Filesystem, blk: Cursor.ClusterCursor)
      ensures this.parent == parent && this.blk == blk
      ensures client == null && event == NoEvent && ncMatched == 0 && checksum == 0
      ensures targetShort == [] && targetLong == [0]
    {
      this.parent := parent;
      this.blk := blk;
      client := null;
      event := NoEvent;
      targetShort := [];
      targetLong := [0];
      ncMatched := 0;
      checksum := 0;
    }

    /** thinfat_dir_traverse: choose the sector count, rewind the cursor (its result
        is not looked at) and stream the directory to this object with `ev`. */
    method Traverse(ev: Event) returns (reply: Reply)
      requires blk.Valid() && blk.parent == parent
      modifies blk, blk.cache, blk.cache.dev
      ensures var rw := Cursor.RewindStep(old(blk.View()));
        var r := Cursor.ReadEachSectorStep(rw.1, parent.View(), this, ScanLength(parent.View(), old(blk.ciHead)), ev);
        var e := Cursor.Perform(r.1, blk, blk.tableCache.View(), blk.tableCache.data[..], old(blk.cache.View()), blk.cache.data[..]);
        blk.View() == r.0 && blk.cache.View() == e.data && blk.cache.dev.log == old(blk.cache.dev.log) + e.issued && reply == e.reply
    {
      var scRead: u32;
      if blk.ciHead == parent.ciRoot {
        scRead := RootSectorCount(parent.rootEntryCount);
      } else {
        scRead := 0xFFFF_FFFF;
      }
      var _ := blk.Rewind();
      reply := blk.ReadEachSector(this, scRead, ev);
    }

    /** thinfat_dir_dump. */
    method Dump(client: object?, event: Event) returns (reply: Reply)
      requires blk.Valid() && blk.parent == parent
      modifies this`client, this`event, blk, blk.cache, blk.cache.dev
      ensures this.client == client && this.event == event
      ensures var rw := Cursor.RewindStep(old(blk.View()));
        var r := Cursor.ReadEachSectorStep(rw.1, parent.View(), this, ScanLength(parent.View(), old(blk.ciHead)), DirDump);
        var e := Cursor.Perform(r.1, blk, blk.tableCache.View(), blk.tableCache.data[..], old(blk.cache.View()), blk.cache.data[..]);
        blk.View() == r.0 && blk.cache.View() == e.data && blk.cache.dev.log == old(blk.cache.dev.log) + e.issued && reply == e.reply
    {
      this.client := client;
      this.event := event;
      reply := Traverse(DirDump);
    }

    /** thinfat_dir_find: an 11-byte short name, padded as stored. */
    method Find(client: object?, name: seq<u8>, event: Event) returns (reply: Reply)
      requires blk.Valid() && blk.parent == parent
      modifies this`client, this`event, this`targetShort, blk, blk.cache, blk.cache.dev
      ensures this.client == client && this.event == event && targetShort == name
      ensures var rw := Cursor.RewindStep(old(blk.View()));
        var r := Cursor.ReadEachSectorStep(rw.1, parent.View(), this, ScanLength(parent.View(), old(blk.ciHead)), DirFind);
        var e := Cursor.Perform(r.1, blk, blk.tableCache.View(), blk.tableCache.data[..], old(blk.cache.View()), blk.cache.data[..]);
        blk.View() == r.0 && blk.cache.View() == e.data && blk.cache.dev.log == old(blk.cache.dev.log) + e.issued && reply == e.reply
    {
      this.client := client;
      this.event := event;
      targetShort := name;
      reply := Traverse(DirFind);
    }

    /** thinfat_dir_find_by_longname: a NUL-terminated wide name; the count starts at 0. */
    method FindByLongname(client: object?, name: seq<WChar>, event: Event) returns (reply: Reply)
      requires blk.Valid() && blk.parent == parent
      modifies this`client, this`event, this`targetLong, this`ncMatched, blk, blk.cache, blk.cache.dev
      ensures this.client == client && this.event == event && targetLong == name && ncMatched == 0
      ensures var rw := Cursor.RewindStep(old(blk.View()));
        var r := Cursor.ReadEachSectorStep(rw.1, parent.View(), this, ScanLength(parent.View(), old(blk.ciHead)), DirFindByLongname);
        var e := Cursor.Perform(r.1, blk, blk.tableCache.View(), blk.tableCache.data[..], old(blk.cache.View()), blk.cache.data[..]);
        blk.View() == r.0 && blk.cache.View() == e.data && blk.cache.dev.log == old(blk.cache.dev.log) + e.issued && reply == e.reply
    {
      this.client := client;
      this.event := event;
      targetLong := name;
      ncMatched := 0;
      reply := Traverse(DirFindByLongname);
    }

    /** thinfat_dir_dump_callback: list the sector's slots. */
    method DumpCallback(entries: Option<seq<u8>>) returns (reply: Reply, lines: seq<Line>)
      requires entries.Some? ==> |entries.value| == SectorSize
      ensures entries.None? ==> reply == Deliver(client, event, InvalidSector) && lines == []
      ensures entries.Some? ==> reply == Return(Ok) && lines == Listing(entries.value, SlotsPerSector)
    {
      if entries.None? {
        return Deliver(client, event, InvalidSector), [];
      }
      lines := DumpSector(entries.value);
      reply := Return(Ok);
    }

    /** The slot loop of the dump callback: the lines of the whole sector. */
    static method DumpSector(sector: seq<u8>) returns (lines: seq<Line>)
      requires |sector| == SectorSize
      ensures lines == Listing(sector, SlotsPerSector)
    {
      lines := [];
      for i := 0 to SlotsPerSector
        invariant lines == Listing(sector, i)
      {
        var line := DumpSlot(sector, i);
        lines := lines + line;
      }
    }

    /** The body of the dump callback's loop for slot `i`: the line it prints, if any. */
    static method DumpSlot(sector: seq<u8>, i: nat) returns (line: seq<Line>)
      requires |sector| == SectorSize && i < SlotsPerSector
      ensures line == LineOf(sector, i)
    {
      var entry := DecodeEntry(sector, i * SlotSize);
      assert entry == SlotEntry(sector, i);
      var lead := entry.name[0];
      line := [];
      if lead != 0x00 && lead != 0xE5 {
        if entry.attr == AttrLongFileName {
          if (lead / 0x40) % 2 == 1 {
            line := [LfnLine(lead % 0x40, true)];
          } else {
            line := [LfnLine(lead, false)];
          }
        } else if lead != 0x05 {
          line := [ShortLine(entry.name, entry.ciHead, entry.size)];
        }
      }
    }

    /** thinfat_dir_find_callback: the slot-by-slot search for the short name. */
    method FindCallback(entries: Option<seq<u8>>) returns (reply: Reply, hit: Option<Hit>)
      requires |targetShort| >= 11
      requires entries.Some? ==> |entries.value| == SectorSize
      ensures (reply, hit) == FindResult(client, event, targetShort, entries)
    {
      if entries.None? {
        return Deliver(client, event, InvalidSector), None;
      }
      var sector := entries.value;
      var k := FindSector(sector, targetShort);
      if k.Some? {
        var entry := DecodeEntry(sector, k.value * SlotSize);
        return Return(Abort), Some(Hit(client, event, entry));
      }
      return Return(Ok), None;
    }

    /** The find callback's loop over the 16 slots of a sector, up to the first
        visible entry under the target's name. */
    static method FindSector(sector: seq<u8>, target: seq<u8>) returns (k: Option<nat>)
      requires |target| >= 11 && |sector| == SectorSize
      ensures k == FirstMatch(sector, target, 0)
    {
      ghost var goal := FirstMatch(sector, target, 0);
      for i := 0 to SlotsPerSector
        invariant FirstMatch(sector, target, i) == goal
      {
        var same := ShortSlot(sector, target, i);
        if same {
          return Some(i);
        }
      }
      return None;
    }

    /** The body of the find callback's loop for slot `i`: whether it is a visible
        entry under the target's name. */
    static method ShortSlot(sector: seq<u8>, target: seq<u8>, i: nat) returns (same: bool)
      requires |target| >= 11 && |sector| == SectorSize && i < SlotsPerSector
      ensures same <==> SlotMatches(sector, target, i)
    {
      var entry := DecodeEntry(sector, i * SlotSize);
      assert entry == SlotEntry(sector, i);
      same := false;
      var lead := entry.name[0];
      if lead != 0x00 && lead != 0x05 && lead != 0xE5 {
        if !HiddenOrSystem(entry.attr) {
          same := SameName(entry.name, target);
        }
      }
    }

    /** The comparison loop of the find callback: the 11 name bytes, up to the
        first that differs. */
    static method SameName(name: seq<u8>, target: seq<u8>) returns (same: bool)
      requires |name| == 11 && |target| >= 11
      ensures same <==> name == target[..11]
    {
      var j := 0;
      while j < 11 && name[j] == target[j]
        invariant 0 <= j <= 11
        invariant forall q :: 0 <= q < j ==> name[q] == target[q]
      {
        j := j + 1;
      }
      if j < 11 {
        assert name[j] != target[..11][j];
      }
      same := j == 11;
    }

    /** thinfat_dir_find_by_longname_callback: feed fragments to the matcher and
        report the short entry that follows a complete match. */
    method FindByLongnameCallback(entries: Option<seq<u8>>) returns (reply: Reply, hit: Option<Hit>)
      requires 0 in targetLong
      requires entries.Some? ==> |entries.value| == SectorSize
      modifies this`ncMatched, this`checksum
      ensures (reply, hit, Matcher(ncMatched, checksum)) == LongResult(client, event, old(Matcher(ncMatched, checksum)), targetLong, entries)
    {
      if entries.None? {
        return Deliver(client, event, InvalidSector), None;
      }
      var found, m := LongSector(Matcher(ncMatched, checksum), targetLong, entries.value);
      ncMatched, checksum := m.nc, m.checksum;
      if found.Some? {
        return Return(Abort), Some(Hit(client, event, found.value));
      }
      return Return(Ok), None;
    }

    /** The slot loop of the long-name callback, on the matcher's value: the entry
        reported, if any, and the matcher afterwards. */
    static method LongSector(m0: Matcher, t: seq<WChar>, sector: seq<u8>) returns (found: Option<Entry>, m: Matcher)
      requires 0 in t && |sector| == SectorSize
      ensures LongScan(m0, sector, 0, t, Wrap32(WStrLen(t))) == if found.Some? then Found(m, found.value) else Continue(m)
    {
      ghost var n := Wrap32(WStrLen(t));
      TargetLength(t);
      ghost var goal := LongScan(m0, sector, 0, t, n);
      m := m0;
      for i := 0 to SlotsPerSector
        invariant LongScan(m, sector, i, t, n) == goal
      {
        found, m := LongSlot(m, t, sector, i);
        if found.Some? {
          return;
        }
      }
      found := None;
    }

    /** The body of the long-name callback's loop for slot `i`: the entry to
        report, if any, and the matcher update. */
    static method LongSlot(m0: Matcher, t: seq<WChar>, sector: seq<u8>, i: nat) returns (found: Option<Entry>, m: Matcher)
      requires 0 in t && |sector| == SectorSize && i < SlotsPerSector
      ensures LongSlotStep(m0, sector, i, t, Wrap32(WStrLen(t))) == if found.Some? then Found(m, found.value) else Continue(m)
      ensures LongScan(m0, sector, i, t, Wrap32(WStrLen(t)))
        == if found.Some? then Found(m, found.value) else LongScan(m, sector, i + 1, t, Wrap32(WStrLen(t)))
    {
      var entry := DecodeEntry(sector, i * SlotSize);
      assert entry == SlotEntry(sector, i);
      var lead := entry.name[0];
      found, m := None, m0;
      if lead != 0x00 && lead != 0xE5 {
        if entry.attr == AttrLongFileName {
          var lfn := DecodeLfnEntry(sector, i * SlotSize);
          assert lfn == SlotLfn(sector, i);
          LongNameIsHidden();
          m := FeedFragment(m0, t, lfn);
        } else if !HiddenOrSystem(entry.attr) && lead != 0x05 {
          if m.nc > 255 {
            m := m.(nc := 0);
            found := Some(entry);
          }
        }
      }
    }

    /** The fragment branch of the long-name callback: the resets, the comparison
        loop and the count update. */
    static method FeedFragment(m0: Matcher, t: seq<WChar>, lfn: Lfn) returns (m: Matcher)
      requires 0 in t && |lfn.partial| == 13
      ensures m == LfnStep(m0, lfn, t, Wrap32(WStrLen(t)))
    {
      var nc := m0.nc;
      if (lfn.order / 0x40) % 2 == 1 {
        nc := 0;
      } else if lfn.checksum != m0.checksum {
        nc := 0;
      } else if nc > 255 {
        nc := 0;
      }
      assert nc == if IsLast(lfn.order) || lfn.checksum != m0.checksum || m0.nc > 255 then 0 else m0.nc;
      // 13 * (order & 0x1F) - 13 in unsigned 32-bit arithmetic (ModularIndices)
      var icMatch := FragmentStart(lfn.order);
      var len := Wstrlen(t);
      var ncTarget := Wrap32(len);
      var j := MatchFragment(lfn.partial, t, ncTarget, icMatch);
      nc := nc + j;
      if nc == ncTarget {
        nc := 256;
      }
      m := Matcher(nc, lfn.checksum);
    }

    /** The comparison loop of the fragment branch. */
    static method MatchFragment(partial: seq<u16>, t: seq<WChar>, ncTarget: u32, icMatch: u32) returns (j: nat)
      requires |partial| == 13 && ncTarget <= |t|
      ensures j == MatchLen(partial, t, ncTarget, icMatch, 0)
    {
      j := 0;
      // the unit index icMatch + j is the unsigned 32-bit sum (ModularIndices)
      while j < 13 && UnitIndex(icMatch, j) < ncTarget
        invariant 0 <= j <= 13
        invariant MatchLen(partial, t, ncTarget, icMatch, j) == MatchLen(partial, t, ncTarget, icMatch, 0)
      {
        if t[UnitIndex(icMatch, j)] != partial[j] {
          break;
        }
        j := j + 1;
      }
    }

    /** thinfat_dir_callback: dispatch a delivered sector (None: the stream ended)
        by the traversal's tag; any other tag answers OK. */
    method Callback(ev: Event, entries: Option<seq<u8>>) returns (reply: Reply, hit: Option<Hit>, lines: seq<Line>)
      requires ev == DirFind ==> |targetShort| >= 11
      requires ev == DirFindByLongname ==> 0 in targetLong
      requires entries.Some? ==> |entries.value| == SectorSize
      modifies this`ncMatched, this`checksum
      ensures ev != DirFindByLongname ==> ncMatched == old(ncMatched) && checksum == old(checksum)
      ensures ev == DirDump ==>
        && hit == None
        && (if entries.None? then reply == Deliver(client, event, InvalidSector) && lines == []
            else reply == Return(Ok) && lines == Listing(entries.value, SlotsPerSector))
      ensures ev == DirFind ==> lines == [] && (reply, hit) == FindResult(client, event, targetShort, entries)
      ensures ev == DirFindByLongname ==>
        && lines == []
        && (reply, hit, Matcher(ncMatched, checksum)) == LongResult(client, event, old(Matcher(ncMatched, checksum)), targetLong, entries)
      ensures ev != DirDump && ev != DirFind && ev != DirFindByLongname ==> reply == Return(Ok) && hit == None && lines == []
    {
      hit, lines := None, [];
      if ev == DirDump {
        reply, lines := DumpCallback(entries);
      } else if ev == DirFind {
        reply, hit := FindCallback(entries);
      } else if ev == DirFindByLongname {
        reply, hit := FindByLongnameCallback(entries);
      } else {
        reply := Return(Ok);
      }
    }
  }
}
