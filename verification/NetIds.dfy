/** Ranges of network IDs and the allocator over one (pkg/vnid, pkg/vnid/netid). */
module NetIds {
  import opened Prelude
  import opened Word32

  /** A VXLAN network identifier is 24 bits wide (section 5 of RFC 7348). */
  const MAX_VNID: uint32 := 0xFF_FFFF
  const MIN_VNID: uint32 := 10
  const GLOBAL_VNID: uint32 := 0

  datatype NetIDRange = NetIDRange(base: uint32, size: uint32) {
    /** Whether an ID is in the range, and its offset there. */
    function Contains(netid: uint32): (bool, uint32) {
      if netid >= base && Sub(netid, base) < size then (true, Sub(netid, base)) else (false, 0)
    }

    predicate Holds(v: uint32) {
      base <= v < base + size
    }
  }

  datatype RangeError = BaseTooSmall | SizeZero | ExceedsMax

  /** `NewNetIDRange`, with the wrapping subtraction and addition of uint32. */
  function NewNetIDRange(min: uint32, max: uint32): Result<NetIDRange, RangeError> {
    var size := Add(Sub(max, min), 1);
    if min < MIN_VNID then Err(BaseTooSmall)
    else if size == 0 then Err(SizeZero)
    else if Sub(Add(min, size), 1) > MAX_VNID then Err(ExceedsMax)
    else Ok(NetIDRange(min, size))
  }

  /** The range check wraps: besides the proper ranges inside [10, 2^24-1] it accepts every range
      whose maximum lies at least two below its minimum. */
  lemma RangeAcceptedIff(min: uint32, max: uint32)
    ensures NewNetIDRange(min, max).Ok? <==> min >= MIN_VNID && max <= MAX_VNID && min != max + 1
    ensures NewNetIDRange(min, max).Ok? ==>
      (min <= max <==> forall v: uint32 :: NewNetIDRange(min, max).value.Holds(v) <==> min <= v <= max)
  {
    if NewNetIDRange(min, max).Ok? && min > max {
      assert NewNetIDRange(min, max).value.Holds(min);
    }
  }

  datatype AllocError = Full | NotInRange | Allocated

  /** An ID the pool may hand out next; `None` when it is exhausted. */
  ghost predicate Pick(range: NetIDRange, taken: set<uint32>, pick: Option<uint32>) {
    match pick
    case Some(v) => range.Holds(v) && v !in taken
    case None => forall v: uint32 :: range.Holds(v) ==> v in taken
  }

  /** IDs of a range over a pool of offsets; the pool itself may pick any free offset. */
  class Allocator {
    const range: NetIDRange
    var offsets: set<nat>

    ghost predicate Valid()
      reads this
    {
      && range.base + range.size <= WORD
      && forall o :: o in offsets ==> o < range.size
    }

    /** The IDs handed out. */
    ghost function Taken(): set<uint32>
      requires Valid()
      reads this
      ensures forall v: uint32 :: v in Taken() <==> v >= range.base && v - range.base in offsets
    {
      IdsAt(offsets, range.base)
    }

    constructor (range: NetIDRange)
      requires range.base + range.size <= WORD
      ensures Valid() && this.range == range && Taken() == {}
    {
      this.range := range;
      this.offsets := {};
    }

    method Free() returns (count: int)
      requires Valid()
      ensures count == range.size - |Taken()|
    {
      SameCardinality(offsets, range.base);
      count := range.size - |offsets|;
    }

    method Allocate(id: uint32) returns (r: Result<(), AllocError>)
      requires Valid()
      modifies this
      ensures Valid()
      ensures r == if !range.Holds(id) then Err(NotInRange)
                   else if id in old(Taken()) then Err(Allocated) else Ok(())
      ensures Taken() == if r.Ok? then old(Taken()) + {id} else old(Taken())
    {
      var (ok, offset) := range.Contains(id);
      if !ok {
        return Err(NotInRange);
      }
      if offset in offsets {
        return Err(Allocated);
      }
      offsets := offsets + {offset as nat};
      r := Ok(());
    }

    method AllocateNext() returns (r: Result<uint32, AllocError>)
      requires Valid()
      modifies this
      ensures Valid()
      ensures Pick(range, old(Taken()), if r.Ok? then Some(r.value) else None)
      ensures r.Err? ==> r.error == Full
      ensures Taken() == if r.Ok? then old(Taken()) + {r.value} else old(Taken())
    {
      if o :| 0 <= o < range.size && o !in offsets {
        offsets := offsets + {o};
        r := Ok(range.base + o);
      } else {
        forall v: uint32 | range.Holds(v) ensures v in Taken() {
          assert v - range.base in offsets;
        }
        r := Err(Full);
      }
    }

    method Release(id: uint32)
      requires Valid()
      modifies this
      ensures Valid() && Taken() == old(Taken()) - {id}
    {
      var (ok, offset) := range.Contains(id);
      if ok {
        offsets := offsets - {offset as nat};
      }
    }

    method Has(id: uint32) returns (b: bool)
      requires Valid()
      ensures b <==> id in Taken()
    {
      var (ok, offset) := range.Contains(id);
      b := ok && offset in offsets;
    }
  }

  ghost predicate Fits(offsets: set<nat>, base: uint32) {
    forall o :: o in offsets ==> base + o < WORD
  }

  /** The IDs at the given offsets. */
  ghost function IdsAt(offsets: set<nat>, base: uint32): (ids: set<uint32>)
    requires Fits(offsets, base)
    ensures forall v: uint32 :: v in ids <==> v >= base && v - base in offsets
  {
    set o | o in offsets :: base + o
  }

  lemma {:induction false} SameCardinality(offsets: set<nat>, base: uint32)
    requires Fits(offsets, base)
    ensures |IdsAt(offsets, base)| == |offsets|
    decreases offsets
  {
    if o :| o in offsets {
      SameCardinality(offsets - {o}, base);
      assert IdsAt(offsets, base) == IdsAt(offsets - {o}, base) + {base + o};
    }
  }
}
