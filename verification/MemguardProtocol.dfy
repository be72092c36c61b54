/** The wrappers of native/memguard/memguard.c run by many threads: each asks under the mutex,
    drops it, makes the real call, then takes the mutex again to record what came back. */
module MemguardProtocol {
  import opened Options
  import opened Numbers
  import opened MemguardLedger

  datatype Alloc = Alloc(ptr: nat, pool: nat, size: nat)

  /** One wrapper call, between its critical sections. */
  datatype Call =
    | Idle
    | Asked(kind: Kind, device: int, size: nat)
    | Held(kind: Kind, device: int, size: nat, ptr: nat, ok: bool)
    | Releasing(ptr: nat)

  /** calls[2t] is thread t's CUDA call and calls[2t + 1] its mlock or munlock, which may run inside
      the CUDA call because those two wrappers do not look at forwarding_depth; CUDA calls nested in
      another wrapper pass straight through and need no lane. live holds what the driver and the
      kernel hold for the process; spilled what met a full table; wrapped the counters whose addition
      ever overflowed. */
  datatype World = World(limits: seq<Option<nat>>, ledger: Ledger, calls: seq<Call>,
                         live: seq<Alloc>, spilled: seq<Alloc>, wrapped: set<nat>)

  datatype Step =
    | Check(lane: nat, kind: Kind, device: int, size: nat)
    | Return(lane: nat, ptr: nat, ok: bool)
    | Book(lane: nat)
    | Free(lane: nat, ptr: nat, rest: Option<Alloc>)
    | Forget(lane: nat)
    | Expire(ptr: nat)

  // What a table slot, a call or a pending request stands for.

  function OfRecord(r: Record): Option<Alloc> {
    if r.used then Some(Alloc(r.ptr, Pool(r.kind, r.device), r.size)) else None
  }

  function OfHeld(c: Call): Option<Alloc> {
    if c.Held? && c.ok && c.ptr != 0 then Some(Alloc(c.ptr, Pool(c.kind, c.device), c.size)) else None
  }

  /** Allowed but not recorded yet. */
  function OfPending(c: Call): Option<Alloc> {
    if c.Asked? || c.Held? then Some(Alloc(0, Pool(c.kind, c.device), c.size)) else None
  }

  function Some1(a: Option<Alloc>): seq<Alloc> {
    match a case None => [] case Some(x) => [x]
  }

  function Gather<T>(s: seq<T>, f: T -> Option<Alloc>): seq<Alloc> {
    if s == [] then []
    else Gather(s[..|s| - 1], f) + Some1(f(s[|s| - 1]))
  }

  function Sum(s: seq<Alloc>, q: nat): nat {
    if s == [] then 0 else Sum(s[..|s| - 1], q) + (if s[|s| - 1].pool == q then s[|s| - 1].size else 0)
  }

  function Table(w: World): seq<Alloc> { Gather(w.ledger.records, OfRecord) }
  function HeldNow(w: World): seq<Alloc> { Gather(w.calls, OfHeld) }
  function Pending(w: World, q: nat): nat { Sum(Gather(w.calls, OfPending), q) }

  function FirstKey(s: seq<Alloc>, ptr: nat): (i: nat)
    ensures i <= |s| && (i < |s| ==> s[i].ptr == ptr)
    ensures forall j :: 0 <= j < i ==> s[j].ptr != ptr
  {
    if s == [] || s[0].ptr == ptr then 0 else 1 + FirstKey(s[1..], ptr)
  }

  function Drop(s: seq<Alloc>, ptr: nat): seq<Alloc> {
    var i := FirstKey(s, ptr);
    if i < |s| then s[..i] + s[i + 1..] else s
  }

  /** The live allocation a release of ptr addresses. */
  function Gone(s: seq<Alloc>, ptr: nat): Option<Alloc> {
    var i := FirstKey(s, ptr);
    if i < |s| then Some(s[i]) else None
  }

  /** What a release may leave live: nothing, or at most as much of the same pool as there was. munlock of a
      shorter range leaves the rest locked, munlock of memory that CUDA pinned leaves all of it, and a handle
      released while it is mapped stays until it is unmapped. */
  predicate PartOf(rest: Option<Alloc>, whole: Option<Alloc>) {
    rest.Some? ==> whole.Some? && rest.value.pool == whole.value.pool && rest.value.size <= whole.value.size
  }

  // Steps.

  predicate Enabled(w: World, s: Step) {
    match s
    case Check(lane, kind, device, size) =>
      lane < |w.calls| && w.calls[lane].Idle? && size < U64 && (kind.Mlock? <==> lane % 2 == 1)
    case Return(lane, ptr, ok) => lane < |w.calls| && w.calls[lane].Asked?
    case Book(lane) => lane < |w.calls| && w.calls[lane].Held?
    case Free(lane, ptr, rest) => lane < |w.calls| && w.calls[lane].Idle? && PartOf(rest, Gone(w.live, ptr))
    case Forget(lane) => lane < |w.calls| && w.calls[lane].Releasing?
    case Expire(ptr) => true
  }

  predicate Shape(w: World) {
    && WellFormed(w.ledger) && |w.limits| == HOST + 1
    && forall i :: 0 <= i < |w.calls| && (w.calls[i].Asked? || w.calls[i].Held?) ==>
         (w.calls[i].kind.Mlock? <==> i % 2 == 1) && w.calls[i].size < U64
  }

  function Do(w: World, s: Step): (v: World)
    requires Shape(w) && Enabled(w, s)
    ensures Shape(v) && v.limits == w.limits && |v.calls| == |w.calls|
  {
    match s
    case Check(lane, kind, device, size) =>
      var q := Pool(kind, device);
      if Allows(w.limits[q], w.ledger.active[q], size) then w.(calls := w.calls[lane := Asked(kind, device, size)])
      else w
    case Return(lane, ptr, ok) =>
      var c := w.calls[lane];
      var h := Held(c.kind, c.device, c.size, ptr, ok);
      w.(calls := w.calls[lane := h], live := w.live + Some1(OfHeld(h)))
    case Book(lane) => Booked(w, lane)
    case Free(lane, ptr, rest) =>
      w.(calls := w.calls[lane := Releasing(ptr)], live := Drop(w.live, ptr) + Some1(rest))
    case Forget(lane) =>
      ReleasedWellFormed(w.ledger, w.calls[lane].ptr);
      w.(calls := w.calls[lane := Idle], ledger := Released(w.ledger, w.calls[lane].ptr))
    case Expire(ptr) => w.(live := Drop(w.live, ptr))
  }

  function Booked(w: World, lane: nat): (v: World)
    requires Shape(w) && lane < |w.calls| && w.calls[lane].Held?
    ensures Shape(v) && v.limits == w.limits && |v.calls| == |w.calls|
  {
    var c := w.calls[lane];
    if OfHeld(c).None? then w.(calls := w.calls[lane := Idle])
    else
      var q := Pool(c.kind, c.device);
      RecordedWellFormed(w.ledger, c.ptr, c.kind, c.device, c.size);
      w.(calls := w.calls[lane := Idle],
         ledger := Recorded(w.ledger, c.ptr, c.kind, c.device, c.size),
         spilled := if FirstFree(w.ledger.records) < |w.ledger.records| then w.spilled else w.spilled + Some1(OfHeld(c)),
         wrapped := if w.ledger.active[q] + c.size < U64 then w.wrapped else w.wrapped + {q})
  }

  ghost predicate Runs(w: World, steps: seq<Step>)
    requires Shape(w)
    decreases |steps|
  {
    steps == [] || (Enabled(w, steps[0]) && Runs(Do(w, steps[0]), steps[1..]))
  }

  function After(w: World, steps: seq<Step>): (v: World)
    requires Shape(w) && Runs(w, steps)
    ensures Shape(v) && v.limits == w.limits && |v.calls| == |w.calls|
    decreases |steps|
  {
    if steps == [] then w else After(Do(w, steps[0]), steps[1..])
  }

  /** The library just loaded, threads threads idle. */
  ghost predicate Initial(w: World, threads: nat) {
    && Shape(w) && |w.calls| == 2 * threads
    && (forall i :: 0 <= i < |w.calls| ==> w.calls[i].Idle?)
    && (forall i :: 0 <= i < |w.ledger.records| ==> !w.ledger.records[i].used)
    && (forall q :: 0 <= q <= HOST ==> w.ledger.active[q] == 0)
    && w.live == w.spilled == [] && w.wrapped == {}
  }

  // Sums and gathered sequences.

  lemma {:induction false} SumAdd(a: seq<Alloc>, b: seq<Alloc>, q: nat)
    ensures Sum(a + b, q) == Sum(a, q) + Sum(b, q)
  {
    if b == [] {
      assert a + b == a;
    } else {
      assert (a + b)[..|a + b| - 1] == a + b[..|b| - 1];
      SumAdd(a, b[..|b| - 1], q);
    }
  }

  lemma {:induction false} SumDrop(s: seq<Alloc>, i: nat, q: nat)
    requires i < |s|
    ensures Sum(s, q) == Sum(s[..i] + s[i + 1..], q) + Sum([s[i]], q)
    ensures multiset(s) == multiset(s[..i] + s[i + 1..]) + multiset{s[i]}
  {
    SumAdd(s[..i], s[i + 1..], q);
    SumAdd(s[..i], [s[i]], q);
    SumAdd(s[..i] + [s[i]], s[i + 1..], q);
    assert s == s[..i] + [s[i]] + s[i + 1..];
  }

  lemma Cancel(m: multiset<Alloc>, n: multiset<Alloc>, x: Alloc)
    requires m + multiset{x} <= n + multiset{x}
    ensures m <= n
  {
    forall y | y in m ensures m[y] <= n[y] {
      assert (m + multiset{x})[y] <= (n + multiset{x})[y];
    }
  }

  /** What is counted with multiplicity bounds what it weighs. */
  lemma {:induction false} SumWithin(a: seq<Alloc>, b: seq<Alloc>, q: nat)
    requires multiset(a) <= multiset(b)
    ensures Sum(a, q) <= Sum(b, q)
    decreases |a|
  {
    if a != [] {
      var x, rest := a[|a| - 1], a[..|a| - 1];
      assert a == rest + [x];
      assert multiset(a) == multiset(rest) + multiset{x};
      assert multiset(b)[x] > 0;
      assert x in b;
      var i :| 0 <= i < |b| && b[i] == x;
      SumDrop(b, i, q);
      Cancel(multiset(rest), multiset(b[..i] + b[i + 1..]), x);
      SumWithin(rest, b[..i] + b[i + 1..], q);
      SumAdd(rest, [x], q);
    }
  }

  lemma {:induction false} GatherSet<T>(s: seq<T>, i: nat, x: T, f: T -> Option<Alloc>)
    requires i < |s|
    ensures multiset(Gather(s[i := x], f)) + multiset(Some1(f(s[i]))) == multiset(Gather(s, f)) + multiset(Some1(f(x)))
  {
    var n := |s| - 1;
    if i == n {
      assert s[i := x][..n] == s[..n];
      Swap(multiset(Gather(s[..n], f)), multiset(Some1(f(x))), multiset(Some1(f(s[i]))));
    } else {
      assert s[i := x][..n] == s[..n][i := x];
      GatherSet(s[..n], i, x, f);
      Shift(multiset(Gather(s[..n][i := x], f)), multiset(Some1(f(s[i]))), multiset(Gather(s[..n], f)),
            multiset(Some1(f(x))), multiset(Some1(f(s[n]))));
    }
  }

  lemma GatherSame<T>(s: seq<T>, i: nat, x: T, f: T -> Option<Alloc>)
    requires i < |s| && f(s[i]) == f(x)
    ensures multiset(Gather(s[i := x], f)) == multiset(Gather(s, f))
  {
    hide Gather;
    GatherSet(s, i, x, f);
    var m, n, o := multiset(Gather(s[i := x], f)), multiset(Gather(s, f)), multiset(Some1(f(x)));
    forall a ensures m[a] == n[a] {
      assert (m + o)[a] == (n + o)[a];
    }
  }

  lemma Swap(a: multiset<Alloc>, b: multiset<Alloc>, c: multiset<Alloc>)
    ensures a + b + c == a + c + b
  {
  }

  lemma Shift(a: multiset<Alloc>, b: multiset<Alloc>, c: multiset<Alloc>, d: multiset<Alloc>, e: multiset<Alloc>)
    requires a + b == c + d
    ensures a + e + b == c + e + d
  {
    Swap(a, e, b);
    Swap(c, e, d);
  }

  lemma SumNone(q: nat)
    ensures Sum([], q) == 0
  {
  }

  function Weight(a: Option<Alloc>, q: nat): nat {
    if a.Some? && a.value.pool == q then a.value.size else 0
  }

  lemma {:induction false} GatherSum<T>(s: seq<T>, i: nat, x: T, f: T -> Option<Alloc>, q: nat)
    requires i < |s|
    ensures Sum(Gather(s[i := x], f), q) + Weight(f(s[i]), q) == Sum(Gather(s, f), q) + Weight(f(x), q)
  {
    var n := |s| - 1;
    GatherLast(s, f, q);
    GatherLast(s[i := x], f, q);
    if i == n {
      assert s[i := x][..n] == s[..n];
    } else {
      assert s[i := x][..n] == s[..n][i := x];
      GatherSum(s[..n], i, x, f, q);
    }
  }

  lemma SumPush(s: seq<Alloc>, a: Alloc, q: nat)
    ensures Sum(s + [a], q) == Sum(s, q) + Weight(Some(a), q)
  {
    SumAdd(s, [a], q);
  }

  lemma GatherLast<T>(s: seq<T>, f: T -> Option<Alloc>, q: nat)
    requires s != []
    ensures Sum(Gather(s, f), q) == Sum(Gather(s[..|s| - 1], f), q) + Weight(f(s[|s| - 1]), q)
  {
    SumAdd(Gather(s[..|s| - 1], f), Some1(f(s[|s| - 1])), q);
  }

  lemma {:induction false} GatherNone<T>(s: seq<T>, f: T -> Option<Alloc>)
    requires forall i :: 0 <= i < |s| ==> f(s[i]).None?
    ensures Gather(s, f) == []
  {
    if s != [] {
      GatherNone(s[..|s| - 1], f);
    }
  }
}
