/** Shared vocabulary of the FAT engine: fixed-width integers, the constants of
    thinfat_common.h, result codes, completion events, and the abstract block device
    that records the read and write requests it is given. */
module Common {

  type u8 = x: int | 0 <= x < 0x100
  type u16 = x: int | 0 <= x < 0x1_0000
  type u32 = x: int | 0 <= x < 0x1_0000_0000

  /** The configured sector size; every buffer handed around is one sector. */
  const SectorSize: nat := 512

  /** Clusters at or above this value end a chain (THINFAT_INVALID_CLUSTER). */
  const InvalidCluster: u32 := 0x0FFF_FFF7

  /** The "no sector" marker. The source uses THINFAT_INVALID_SECTOR without defining
      it; the model takes the all-ones 32-bit value. */
  const InvalidSector: u32 := 0xFFFF_FFFF

  predicate IsClusterValid(c: u32) { c < InvalidCluster }

  predicate IsSectorValid(s: u32) { s != InvalidSector }

  /** Reduction to 32 bits: what C unsigned arithmetic on uint32_t does. */
  function Wrap32(x: int): u32 { x % 0x1_0000_0000 }

  /** A value that fits in 32 bits is its own residue. */
  lemma SmallWrap(x: int)
    requires 0 <= x < 0x1_0000_0000
    ensures Wrap32(x) == x
  {
  }

  function Pow2(k: nat): (r: nat)
    ensures r >= 1
  {
    if k == 0 then 1 else 2 * Pow2(k - 1)
  }

  /** `x >> k` on an unsigned value: k halvings. */
  function Shr(x: nat, k: nat): (r: nat)
    ensures r <= x
  {
    if k == 0 then x else Shr(x / 2, k - 1)
  }

  /** `x >> k` splits x into whole multiples of 2^k and a remainder below 2^k. */
  lemma {:induction false} ShrBounds(x: nat, k: nat)
    ensures Shr(x, k) * Pow2(k) <= x < (Shr(x, k) + 1) * Pow2(k)
  {
    if k > 0 {
      ShrBounds(x / 2, k - 1);
      var q := Shr(x / 2, k - 1);
      assert q * Pow2(k - 1) <= x / 2 < (q + 1) * Pow2(k - 1);
      assert q * Pow2(k) == 2 * (q * Pow2(k - 1));
      assert (q + 1) * Pow2(k) == 2 * ((q + 1) * Pow2(k - 1));
    }
  }

  /** The quotient by 2^k is characterised by those bounds. */
  lemma ShrUnique(x: nat, k: nat, q: nat)
    requires q * Pow2(k) <= x < (q + 1) * Pow2(k)
    ensures Shr(x, k) == q
  {
    ShrBounds(x, k);
    var s := Shr(x, k);
    if s < q {
      MulMonotone(s + 1, q, Pow2(k));
    } else if s > q {
      MulMonotone(q + 1, s, Pow2(k));
    }
  }

  /** Adding 2^k moves `x >> k` up by exactly one. */
  lemma ShrStep(x: nat, k: nat)
    ensures Shr(x + Pow2(k), k) == Shr(x, k) + 1
  {
    ShrBounds(x, k);
    var q := Shr(x, k);
    assert (q + 1) * Pow2(k) == q * Pow2(k) + Pow2(k);
    assert (q + 2) * Pow2(k) == (q + 1) * Pow2(k) + Pow2(k);
    ShrUnique(x + Pow2(k), k, q + 1);
  }

  /** `x >> k` is monotone in x. */
  lemma ShrMonotone(x: nat, y: nat, k: nat)
    requires x <= y
    ensures Shr(x, k) <= Shr(y, k)
  {
    ShrBounds(x, k);
    ShrBounds(y, k);
  }

  /** `x & ((1 << k) - 1)`: the part of x below 2^k. */
  function LowBits(x: nat, k: nat): (r: nat)
    ensures r < Pow2(k)
    ensures Shr(x, k) * Pow2(k) + r == x
  {
    ShrBounds(x, k);
    x - Shr(x, k) * Pow2(k)
  }

  /** The low bits repeat with period 2^k. */
  lemma LowBitsPeriodic(x: nat, k: nat)
    ensures LowBits(x + Pow2(k), k) == LowBits(x, k)
  {
    ShrStep(x, k);
    MulSucc(Shr(x, k), Pow2(k));
  }

  lemma MulSucc(q: nat, p: nat)
    ensures (q + 1) * p == q * p + p
  {
  }

  lemma MulMonotone(a: nat, b: nat, c: nat)
    requires a <= b
    ensures a * c <= b * c
  {
  }

  lemma {:induction false} Pow2Add(a: nat, b: nat)
    ensures Pow2(a + b) == Pow2(a) * Pow2(b)
  {
    if a > 0 { Pow2Add(a - 1, b); }
  }

  lemma {:induction false} Pow2Monotone(a: nat, b: nat)
    requires a <= b
    ensures Pow2(a) <= Pow2(b)
  {
    if a < b { Pow2Monotone(a, b - 1); }
  }

  lemma Pow2Small()
    ensures Pow2(0) == 1 && Pow2(1) == 2 && Pow2(2) == 4 && Pow2(3) == 8
    ensures Pow2(4) == 16 && Pow2(5) == 32 && Pow2(6) == 64 && Pow2(7) == 128
    ensures Pow2(8) == 256
  {
    assert Pow2(1) == 2 * Pow2(0);
    assert Pow2(8) == 2 * Pow2(7) == 4 * Pow2(6) == 8 * Pow2(5) == 16 * Pow2(4) == 32 * Pow2(3);
  }

  datatype Option<T> = None | Some(value: T)

  /** Result codes (thinfat_result_t plus the codes the core returns without declaring:
      ABORT, EOF and BLK_BUSY). */
  datatype Result =
    | Ok
    | PhyError
    | PhyBusy
    | ErrorSignature
    | NoPartition
    | ErrorBpb
    | Abort
    | Eof
    | BlkBusy

  datatype FatType = Unknown | Fat16 | Fat32

  /** The enumerator value of thinfat_type_t, used as a shift amount by the table code. */
  function TypeCode(t: FatType): nat
  {
    match t
    case Unknown => 0
    case Fat16 => 1
    case Fat32 => 2
  }

  /** Completion tags. The source dispatches on integer event numbers; here each
      component's tags are constructors of one datatype, and a client's own events
      are carried by UserEvent. */
  datatype Event =
    | NoEvent
    | CacheRead
    | CacheWrite
    | TableLookup
    | BlkLookup
    | BlkReadSingle
    | BlkReadSingleLookup
    | DirDump
    | DirFind
    | DirFindByLongname
    | FileReadPrepare
    | FileRead
    | FileWritePrepare
    | FileWrite
    | FileWriteFinish
    | UserEvent(n: nat)

  /** A request handed to the block device. */
  datatype Request =
    | ReadSector(sector: u32)
    | WriteSector(sector: u32, contents: seq<u8>)

  /** What a step does next for its client: call it back at once with
      (client, event, sector) and return what that call returns, return at once
      with a result of its own, or wait for a device completion it has requested. */
  datatype Reply =
    | Deliver(client: object?, event: Event, sector: u32)
    | Return(result: Result)
    | Pending

  /** The block device seen from the core: it accepts single-sector requests and
      records them in order. Completions are delivered by calling the components'
      completion step methods. */
  class Device {
    var log: seq<Request>

    constructor ()
      ensures log == []
    {
      log := [];
    }

    method Submit(r: Request) returns (res: Result)
      modifies this
      ensures log == old(log) + [r]
      ensures res == Ok
    {
      log := log + [r];
      res := Ok;
    }
  }
}
