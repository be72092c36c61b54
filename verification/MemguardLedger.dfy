/** The ledger of native/memguard/memguard.c: a table of allocation records beside running
    counters, and the three routines that read and change it under the mutex. */
module MemguardLedger {
  import opened Options
  import opened Numbers

  const MAX_GPUS := 32
  const MAX_ALLOCS := 65536

  /** cudaErrorMemoryAllocation. */
  const CUDA_OOM := 2

  datatype Kind = Device | Managed | Pinned | Mlock

  datatype Record = Record(ptr: nat, size: nat, device: int, kind: Kind, used: bool)

  /** The counters: one per GPU, and HOST for pinned and locked memory. */
  const HOST := MAX_GPUS

  function Pool(kind: Kind, device: int): (q: nat)
    ensures q == HOST <==> kind in {Pinned, Mlock}
    ensures q < HOST ==> (0 <= device < MAX_GPUS ==> q == device) && (!(0 <= device < MAX_GPUS) ==> q == 0)
    ensures q <= HOST
  {
    if kind.Device? || kind.Managed? then (if 0 <= device < MAX_GPUS then device else 0) else HOST
  }

  /** The table and, per counter, the active bytes and their peak. */
  datatype Ledger = Ledger(records: seq<Record>, active: seq<nat>, peak: seq<nat>)

  predicate WellFormed(l: Ledger) {
    && |l.active| == |l.peak| == HOST + 1
    && (forall q :: 0 <= q <= HOST ==> l.active[q] < U64)
  }

  /** allocation_allowed's test: the request fits what the limit leaves. */
  predicate Allows(limit: Option<nat>, active: nat, size: nat) {
    limit.None? || size <= limit.value - Min(active, limit.value)
  }

  function FirstFree(records: seq<Record>): (i: nat)
    ensures i <= |records|
    ensures forall j :: 0 <= j < i ==> records[j].used
    ensures i < |records| ==> !records[i].used
  {
    if records == [] || !records[0].used then 0 else 1 + FirstFree(records[1..])
  }

  function FirstOf(records: seq<Record>, ptr: nat): (i: nat)
    ensures i <= |records|
    ensures forall j :: 0 <= j < i ==> !(records[j].used && records[j].ptr == ptr)
    ensures i < |records| ==> records[i].used && records[i].ptr == ptr
  {
    if records == [] || (records[0].used && records[0].ptr == ptr) then 0 else 1 + FirstOf(records[1..], ptr)
  }

  /** record_allocation after a successful allocation. */
  function Recorded(l: Ledger, ptr: nat, kind: Kind, device: int, size: nat): Ledger
    requires WellFormed(l)
  {
    var i, q := FirstFree(l.records), Pool(kind, device);
    var sum := (l.active[q] + size) % U64;
    Ledger(if i < |l.records| then l.records[i := Record(ptr, size, device, kind, true)] else l.records,
           l.active[q := sum], l.peak[q := Max(l.peak[q], sum)])
  }

  /** record_free after a successful free. */
  function Released(l: Ledger, ptr: nat): Ledger
    requires WellFormed(l)
  {
    var i := FirstOf(l.records, ptr);
    if i == |l.records| then l
    else
      var rec := l.records[i];
      var q := Pool(rec.kind, rec.device);
      l.(records := l.records[i := rec.(used := false)],
         active := l.active[q := if l.active[q] >= rec.size then l.active[q] - rec.size else 0])
  }

  lemma RecordedWellFormed(l: Ledger, ptr: nat, kind: Kind, device: int, size: nat)
    requires WellFormed(l)
    ensures WellFormed(Recorded(l, ptr, kind, device, size))
  {
  }

  lemma ReleasedWellFormed(l: Ledger, ptr: nat)
    requires WellFormed(l)
    ensures WellFormed(Released(l, ptr))
  {
  }

  /** The static variables of the library. */
  class Guard {
    const records: array<Record>
    const deviceActive: array<nat>
    const devicePeak: array<nat>
    const deviceLimit: array<nat>
    const deviceLimitSet: array<bool>
    var hostActive: nat
    var hostPeak: nat
    var hostLimit: nat
    var hostLimitSet: bool

    ghost predicate Valid()
      reads this, records, deviceActive, devicePeak, deviceLimit, deviceLimitSet
    {
      && records.Length == MAX_ALLOCS
      && deviceActive.Length == devicePeak.Length == deviceLimit.Length == deviceLimitSet.Length == MAX_GPUS
      && deviceActive != devicePeak && deviceActive != deviceLimit && devicePeak != deviceLimit
      && WellFormed(View())
    }

    ghost function View(): Ledger
      reads this, records, deviceActive, devicePeak
    {
      Ledger(records[..], deviceActive[..] + [hostActive], devicePeak[..] + [hostPeak])
    }

    ghost function Limit(q: nat): Option<nat>
      requires q <= HOST && Valid()
      reads this, records, deviceActive, devicePeak, deviceLimit, deviceLimitSet
    {
      if q == HOST then (if hostLimitSet then Some(hostLimit) else None)
      else if deviceLimitSet[q] then Some(deviceLimit[q]) else None
    }

    /** Static storage starts zeroed and without limits. */
    constructor ()
      ensures Valid() && fresh(records) && fresh(deviceActive) && fresh(devicePeak)
      ensures forall j :: 0 <= j < MAX_ALLOCS ==> !View().records[j].used
      ensures forall q :: 0 <= q <= HOST ==> View().active[q] == 0 && Limit(q).None?
    {
      records := new Record[MAX_ALLOCS](i => Record(0, 0, 0, Device, false));
      deviceActive := new nat[MAX_GPUS](i => 0);
      devicePeak := new nat[MAX_GPUS](i => 0);
      deviceLimit := new nat[MAX_GPUS](i => 0);
      deviceLimitSet := new bool[MAX_GPUS](i => false);
      hostActive, hostPeak, hostLimit, hostLimitSet := 0, 0, 0, false;
    }

    /** The GPU a device number charges. */
    ghost function Gpu(device: int): (g: nat)
      ensures g < MAX_GPUS
    {
      if 0 <= device < MAX_GPUS then device else 0
    }

    /** What a request of some bytes meets: the GPU's own variables for device and managed memory, the host's
        for pinned and locked memory. A request that asks for nothing is allowed even over the limit. */
    ghost predicate Admits(kind: Kind, device: int, size: nat)
      requires Valid()
      reads this, records, deviceActive, devicePeak, deviceLimit, deviceLimitSet
    {
      match kind
      case Device => !deviceLimitSet[Gpu(device)] || size == 0 || deviceActive[Gpu(device)] + size <= deviceLimit[Gpu(device)]
      case Managed => !deviceLimitSet[Gpu(device)] || size == 0 || deviceActive[Gpu(device)] + size <= deviceLimit[Gpu(device)]
      case Pinned => !hostLimitSet || size == 0 || hostActive + size <= hostLimit
      case Mlock => !hostLimitSet || size == 0 || hostActive + size <= hostLimit
    }

    method AllocationAllowed(kind: Kind, device: int, size: nat) returns (allowed: bool)
      requires Valid()
      ensures allowed <==> Admits(kind, device, size)
      ensures allowed == Allows(Limit(Pool(kind, device)), View().active[Pool(kind, device)], size)
    {
      var active, limit, limited;
      if kind == Device || kind == Managed {
        var d := if device < 0 || device >= MAX_GPUS then 0 else device;
        active, limit, limited := deviceActive[d], deviceLimit[d], deviceLimitSet[d];
      } else {
        active, limit, limited := hostActive, hostLimit, hostLimitSet;
      }
      allowed := !limited || size <= limit - (if active > limit then limit else active);
    }

    /** Record i is the first that is not in use. */
    ghost predicate FirstUnused(i: nat)
      requires i < records.Length
      reads records
    {
      !records[i].used && forall j :: 0 <= j < i ==> records[j].used
    }

    lemma FirstUnusedIs()
      requires Valid()
      ensures forall k: nat :: k < MAX_ALLOCS ==> (FirstUnused(k) <==> k == FirstFree(records[..]))
      ensures FirstFree(records[..]) < MAX_ALLOCS ==> FirstUnused(FirstFree(records[..]))
    {
    }

    method RecordAllocation(ptr: nat, kind: Kind, device: int, size: nat, result: int)
      requires Valid()
      modifies this, records, deviceActive, devicePeak
      ensures Valid() && hostLimit == old(hostLimit) && hostLimitSet == old(hostLimitSet)
      ensures View() == if result == 0 && ptr != 0 then Recorded(old(View()), ptr, kind, device, size)
                        else old(View())
      ensures var ok := result == 0 && ptr != 0;
              && (ok && kind in {Device, Managed} ==>
                    && var sum := (old(deviceActive[Gpu(device)]) + size) % U64;
                    && deviceActive[..] == old(deviceActive[..])[Gpu(device) := sum]
                    && devicePeak[..] == old(devicePeak[..])[Gpu(device) := Max(old(devicePeak[Gpu(device)]), sum)])
              && (ok && kind in {Pinned, Mlock} ==>
                    hostActive == (old(hostActive) + size) % U64 && hostPeak == Max(old(hostPeak), hostActive))
              && (!(ok && kind in {Device, Managed}) ==> deviceActive[..] == old(deviceActive[..]) && devicePeak[..] == old(devicePeak[..]))
              && (!(ok && kind in {Pinned, Mlock}) ==> hostActive == old(hostActive) && hostPeak == old(hostPeak))
      ensures forall i :: 0 <= i < MAX_ALLOCS && old(FirstUnused(i)) && result == 0 && ptr != 0 ==>
                && records[i] == Record(ptr, size, device, kind, true)
                && forall j :: 0 <= j < MAX_ALLOCS && j != i ==> records[j] == old(records[j])
      ensures (result != 0 || ptr == 0 || forall i :: 0 <= i < MAX_ALLOCS ==> !old(FirstUnused(i))) ==>
                records[..] == old(records[..])
    {
      hide FirstFree, FirstUnused;
      FirstUnusedIs();
      if result == 0 && ptr != 0 {
        RecordedWellFormed(View(), ptr, kind, device, size);
        Store(Record(ptr, size, device, kind, true));
        Charge(Pool(kind, device), size);
      }
    }

    /** The counter and peak update of record_allocation. */
    method Charge(q: nat, size: nat)
      requires Valid() && q <= HOST
      modifies this, deviceActive, devicePeak
      ensures Valid() && hostLimit == old(hostLimit) && hostLimitSet == old(hostLimitSet)
      ensures var sum := (old(View()).active[q] + size) % U64;
              View() == old(View()).(active := old(View()).active[q := sum],
                                     peak := old(View()).peak[q := Max(old(View()).peak[q], sum)])
      ensures q < MAX_GPUS ==>
                && var sum := (old(deviceActive[q]) + size) % U64;
                && deviceActive[..] == old(deviceActive[..])[q := sum]
                && devicePeak[..] == old(devicePeak[..])[q := Max(old(devicePeak[q]), sum)]
                && hostActive == old(hostActive) && hostPeak == old(hostPeak)
      ensures q == HOST ==>
                && hostActive == (old(hostActive) + size) % U64 && hostPeak == Max(old(hostPeak), hostActive)
                && deviceActive[..] == old(deviceActive[..]) && devicePeak[..] == old(devicePeak[..])
    {
      ghost var active := View().active;
      if q < MAX_GPUS {
        deviceActive[q] := (deviceActive[q] + size) % U64;
        if deviceActive[q] > devicePeak[q] {
          devicePeak[q] := deviceActive[q];
        }
        assert View().active == active[q := deviceActive[q]];
      } else {
        hostActive := (hostActive + size) % U64;
        if hostActive > hostPeak {
          hostPeak := hostActive;
        }
        assert View().active == active[q := hostActive];
      }
    }

    /** The slot loop of record_allocation. */
    method Store(r: Record)
      requires Valid()
      modifies records
      ensures Valid()
      ensures var i := FirstFree(old(records[..]));
              records[..] == if i < MAX_ALLOCS then old(records[..])[i := r] else old(records[..])
    {
      for i := 0 to MAX_ALLOCS
        invariant records[..] == old(records[..])
        invariant FirstFree(records[..]) == i + FirstFree(records[i..])
      {
        if !records[i].used {
          records[i] := r;
          return;
        }
        assert records[i..][1..] == records[i + 1..];
      }
    }

    /** Record i is the first in use for an address. */
    ghost predicate FirstUse(i: nat, ptr: nat)
      requires i < records.Length
      reads records
    {
      && records[i].used && records[i].ptr == ptr
      && forall j :: 0 <= j < i ==> !(records[j].used && records[j].ptr == ptr)
    }

    /** A difference that stops at zero. */
    function Less(a: nat, b: nat): nat {
      if a >= b then a - b else 0
    }

    /** The counter update of record_free. */
    method Discharge(kind: Kind, device: int, size: nat)
      requires Valid()
      modifies this, deviceActive
      ensures Valid() && hostLimit == old(hostLimit) && hostLimitSet == old(hostLimitSet) && hostPeak == old(hostPeak)
      ensures var q := Pool(kind, device);
              View() == old(View()).(active := old(View()).active[q := Less(old(View()).active[q], size)])
      ensures kind in {Device, Managed} ==>
                && hostActive == old(hostActive)
                && deviceActive[..] == old(deviceActive[..])[Gpu(device) := Less(old(deviceActive[Gpu(device)]), size)]
      ensures kind in {Pinned, Mlock} ==>
                deviceActive[..] == old(deviceActive[..]) && hostActive == Less(old(hostActive), size)
    {
      ghost var active, peak := View().active, View().peak;
      assert active[HOST] == hostActive && forall d :: 0 <= d < MAX_GPUS ==> active[d] == deviceActive[d];
      if kind == Device || kind == Managed {
        var d := if device >= 0 && device < MAX_GPUS then device else 0;
        deviceActive[d] := if deviceActive[d] >= size then deviceActive[d] - size else 0;
        assert View().active == active[d := deviceActive[d]] && deviceActive[d] < U64;
      } else {
        hostActive := if hostActive >= size then hostActive - size else 0;
        assert View().active == active[HOST := hostActive] && hostActive < U64;
      }
      assert View().peak == peak && |View().active| == HOST + 1;
    }

    method RecordFree(ptr: nat, result: int)
      requires Valid()
      modifies this, records, deviceActive
      ensures Valid() && hostLimit == old(hostLimit) && hostLimitSet == old(hostLimitSet)
      ensures View() == if result == 0 then Released(old(View()), ptr) else old(View())
      ensures forall i :: 0 <= i < MAX_ALLOCS && old(FirstUse(i, ptr)) && result == 0 ==>
                && !records[i].used && (forall j :: 0 <= j < MAX_ALLOCS && j != i ==> records[j] == old(records[j]))
                && var rec := old(records[i]);
                && (rec.kind in {Device, Managed} ==>
                      && hostActive == old(hostActive)
                      && deviceActive[..] == old(deviceActive[..])[Gpu(rec.device) := Less(old(deviceActive[Gpu(rec.device)]), rec.size)])
                && (rec.kind in {Pinned, Mlock} ==>
                      deviceActive[..] == old(deviceActive[..]) && hostActive == Less(old(hostActive), rec.size))
      ensures (result != 0 || forall i :: 0 <= i < MAX_ALLOCS ==> !old(FirstUse(i, ptr))) ==>
                records[..] == old(records[..]) && deviceActive[..] == old(deviceActive[..]) && hostActive == old(hostActive)
    {
      hide FirstOf, FirstUse;
      ghost var before := View();
      FirstUseIs(FirstOf(records[..], ptr), ptr);
      var i := FindUse(ptr);
      if i < MAX_ALLOCS && result == 0 {
        var rec := records[i];
        records[i] := rec.(used := false);
        assert View() == before.(records := before.records[i := rec.(used := false)]);
        Discharge(rec.kind, rec.device, rec.size);
        assert View() == Released(before, ptr);
      }
    }

    /** The slot loop of record_free. */
    method FindUse(ptr: nat) returns (i: nat)
      requires Valid()
      ensures i == FirstOf(records[..], ptr)
    {
      i := 0;
      while i < MAX_ALLOCS && !(records[i].used && records[i].ptr == ptr)
        invariant 0 <= i <= MAX_ALLOCS
        invariant FirstOf(records[..], ptr) == i + FirstOf(records[i..], ptr)
      {
        assert records[i..][1..] == records[i + 1..];
        i := i + 1;
      }
    }

    lemma FirstUseIs(i: nat, ptr: nat)
      requires Valid() && i == FirstOf(records[..], ptr)
      ensures forall k: nat :: k < MAX_ALLOCS ==> (FirstUse(k, ptr) <==> k == i)
      ensures i < MAX_ALLOCS ==> FirstUse(i, ptr)
    {
    }

    /** runtime_allocate outside any other wrapper: what the real allocator answers is anything. */
    method RuntimeAllocate(kind: Kind, device: int, size: nat) returns (result: int, ptr: nat)
      requires Valid() && size < U64
      modifies this, records, deviceActive, devicePeak
      ensures Valid() && hostLimit == old(hostLimit) && hostLimitSet == old(hostLimitSet)
      ensures !old(Admits(kind, device, size)) ==> result == CUDA_OOM && ptr == 0 && View() == old(View())
      ensures View() == old(View()) || (result == 0 && ptr != 0 && View() == Recorded(old(View()), ptr, kind, device, size))
      ensures forall q :: 0 <= q <= HOST && Limit(q).Some? && old(View()).active[q] <= Limit(q).value ==>
                View().active[q] <= Limit(q).value
    {
      hide FirstFree;
      var allowed := AllocationAllowed(kind, device, size);
      if !allowed {
        return CUDA_OOM, 0;
      }
      result, ptr := *, *;
      RecordAllocation(ptr, kind, device, size, result);
    }
  }
}
