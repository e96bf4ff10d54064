/** Capacity rounding and the capacity limit, over 64-bit signed integers. */
module Capacity {

  const MIB: int := 0x10_0000
  const GIB: int := 0x4000_0000
  const MAX_STORAGE_CAPACITY: int := 0x100_0000_0000
  const INT64_MIN: int := -0x8000_0000_0000_0000
  const INT64_MAX: int := 0x7fff_ffff_ffff_ffff

  /** The largest request whose rounding does not overflow 64 bits. */
  const MAX_REQUEST: int := 0x8000_0000_0000_0000 - MIB

  predicate IsInt64(x: int) {
    INT64_MIN <= x <= INT64_MAX
  }

  /** Two's-complement wrap-around of an exact result. */
  function Wrap64(x: int): int {
    (x - INT64_MIN) % 0x1_0000_0000_0000_0000 + INT64_MIN
  }

  /** `fixCapacity`: at least one GiB, rounded up to a whole MiB; the shift left may wrap. */
  function FixCapacity(request: int): int {
    var c := if request < GIB then GIB else request;
    if c % MIB != 0 then Wrap64((c / MIB + 1) * MIB) else c
  }

  /** The capacities the driver can record: whole MiB in [1 GiB, 1 TiB). */
  predicate CapacityOk(c: int) {
    GIB <= c < MAX_STORAGE_CAPACITY && c % MIB == 0
  }

  /** The check both create and expand make after rounding. */
  predicate WithinLimit(request: int) {
    FixCapacity(request) < MAX_STORAGE_CAPACITY
  }

  /** The rounded request is the least whole-MiB amount covering the request and one GiB. */
  lemma FixCapacityIsLeast(request: int)
    requires request <= MAX_REQUEST
    ensures FixCapacity(request) % MIB == 0
    ensures FixCapacity(request) >= request && FixCapacity(request) >= GIB
    ensures forall c :: c % MIB == 0 && c >= request && c >= GIB ==> FixCapacity(request) <= c
    ensures IsInt64(request) ==> IsInt64(FixCapacity(request))
  {
    var c := if request < GIB then GIB else request;
    if c % MIB != 0 {
      var up := (c / MIB + 1) * MIB;
      assert c / MIB + 1 <= 0x800_0000_0000 - 1 by {
        assert c <= MAX_REQUEST - 1;
        assert MAX_REQUEST == (0x800_0000_0000 - 1) * MIB;
      }
      assert up <= MAX_REQUEST;
      assert FixCapacity(request) == up;
      forall d | d % MIB == 0 && d >= request && d >= GIB
        ensures up <= d
      {
        assert d == (d / MIB) * MIB;
        assert d / MIB > c / MIB;
      }
    }
  }

  /** Rounding is monotone and idempotent where it does not overflow. */
  lemma FixCapacityMonotone(x: int, y: int)
    requires x <= y <= MAX_REQUEST
    ensures FixCapacity(x) <= FixCapacity(y)
    ensures FixCapacity(FixCapacity(x)) == FixCapacity(x)
  {
    FixCapacityIsLeast(x);
    FixCapacityIsLeast(y);
  }

  /** Every request above the bound wraps to the least 64-bit integer. */
  lemma FixCapacityOverflow(request: int)
    requires MAX_REQUEST < request <= INT64_MAX
    ensures FixCapacity(request) == INT64_MIN
  {
    assert MAX_REQUEST == (0x800_0000_0000 - 1) * MIB;
    assert request / MIB == 0x800_0000_0000 - 1;
    assert request % MIB != 0;
  }

  /**
    * The capacity check over all 64-bit requests: it passes exactly for requests up to
    * 2^40 - 2^20, and, because of the overflow, for those above 2^63 - 2^20 too.
    */
  lemma WithinLimitExactly(request: int)
    requires IsInt64(request)
    ensures WithinLimit(request) <==>
            request <= MAX_STORAGE_CAPACITY - MIB || request > MAX_REQUEST
  {
    if request > MAX_REQUEST {
      FixCapacityOverflow(request);
    } else {
      FixCapacityIsLeast(request);
      assert (MAX_STORAGE_CAPACITY - MIB) % MIB == 0;
    }
  }

  /** What passes the check without overflow is a capacity the driver can record. */
  lemma AcceptedCapacityOk(request: int)
    requires request <= MAX_REQUEST
    ensures WithinLimit(request) <==> CapacityOk(FixCapacity(request))
  {
    FixCapacityIsLeast(request);
  }
}
