/** What every interleaving of the wrappers keeps: how far a counter can pass its limit, that counters
    agree with the table, and that they cover what is still allocated. */
module MemguardSafety {
  import opened Options
  import opened Numbers
  import opened MemguardLedger
  import opened MemguardProtocol

  // Limits.

  /** How many calls can ask a counter at once: a GPU counter once per thread, the host counter twice. */
  function Askers(threads: nat, q: nat): nat {
    if q == HOST then 2 * threads else threads
  }

  /** One limit per asker among the first lanes lanes. */
  function Room(lanes: nat, q: nat, limit: nat): nat {
    if lanes == 0 then 0 else Room(lanes - 1, q, limit) + (if q == HOST || lanes % 2 == 1 then limit else 0)
  }

  lemma {:induction false} RoomIs(threads: nat, q: nat, limit: nat)
    ensures Room(2 * threads, q, limit) == Askers(threads, q) * limit
  {
    if threads > 0 {
      RoomIs(threads - 1, q, limit);
      Times(Askers(threads - 1, q), limit);
    }
  }

  lemma Times(m: nat, k: nat)
    ensures (m + 1) * k == m * k + k && (m + 2) * k == m * k + k + k
  {
  }

  ghost predicate Asks(c: Call, q: nat) {
    (c.Asked? || c.Held?) && Pool(c.kind, c.device) == q
  }

  /** A counter plus what was allowed against it and not recorded yet. */
  function Exposure(w: World, q: nat): nat
    requires Shape(w) && q <= HOST
  {
    w.ledger.active[q] + Pending(w, q)
  }

  /** The invariant behind the bound: no single request passed the limit, and all together stay under
      one limit per asker. */
  ghost predicate WithinLimit(w: World, q: nat, limit: nat)
    requires Shape(w) && q <= HOST
  {
    && (forall i :: 0 <= i < |w.calls| && Asks(w.calls[i], q) ==> w.calls[i].size <= limit)
    && Exposure(w, q) <= Room(|w.calls|, q, limit)
  }

  /** Requests of one limit each add up to one limit per asker, and one less with a lane to spare. */
  lemma {:induction false} PendingBound(calls: seq<Call>, q: nat, limit: nat, spare: nat)
    requires q <= HOST && spare <= |calls|
    requires forall i :: 0 <= i < |calls| && Asks(calls[i], q) ==> calls[i].size <= limit
    requires forall i :: 0 <= i < |calls| && Asks(calls[i], q) ==> (calls[i].kind.Mlock? <==> i % 2 == 1)
    requires spare < |calls| ==> calls[spare].Idle? && (q == HOST || spare % 2 == 0)
    ensures Sum(Gather(calls, OfPending), q) + (if spare < |calls| then limit else 0) <= Room(|calls|, q, limit)
  {
    hide Sum, Gather;
    if calls == [] {
      GatherNone(calls, OfPending);
      SumNone(q);
    } else {
      var n := |calls| - 1;
      PendingBound(calls[..n], q, limit, if spare < n then spare else n);
      GatherLast(calls, OfPending, q);
    }
  }

  lemma PendingSet(w: World, lane: nat, c: Call, q: nat)
    requires lane < |w.calls|
    ensures Sum(Gather(w.calls[lane := c], OfPending), q) + (if Asks(w.calls[lane], q) then w.calls[lane].size else 0)
         == Pending(w, q) + (if Asks(c, q) then c.size else 0)
  {
    GatherSum(w.calls, lane, c, OfPending, q);
  }

  lemma LimitStep(w: World, s: Step, q: nat, limit: nat)
    requires Shape(w) && Enabled(w, s) && q <= HOST && w.limits[q] == Some(limit)
    requires WithinLimit(w, q, limit)
    ensures WithinLimit(Do(w, s), q, limit)
  {
    hide Sum, Gather, FirstFree, FirstOf, FirstKey, Room, Drop;
    if !s.Expire? {
      var v := Do(w, s);
      PendingSet(w, s.lane, v.calls[s.lane], q);
      assert v.calls == w.calls[s.lane := v.calls[s.lane]];
      if s.Check? && Asks(v.calls[s.lane], q) {
        PendingBound(w.calls, q, limit, s.lane);
      }
    }
  }

  /** For every interleaving, a limited counter plus what was allowed and not yet recorded stays within
      one limit per asker: with one thread a GPU never passes its limit. */
  lemma {:induction false} LimitHolds(w: World, steps: seq<Step>, q: nat, limit: nat)
    requires Shape(w) && Runs(w, steps) && q <= HOST && w.limits[q] == Some(limit)
    requires WithinLimit(w, q, limit)
    ensures WithinLimit(After(w, steps), q, limit)
    decreases |steps|
  {
    if steps != [] {
      LimitStep(w, steps[0], q, limit);
      LimitHolds(Do(w, steps[0]), steps[1..], q, limit);
    }
  }

  lemma FirewallLimit(w: World, threads: nat, steps: seq<Step>, q: nat, limit: nat)
    requires Initial(w, threads) && Runs(w, steps) && q <= HOST && w.limits[q] == Some(limit)
    ensures var v := After(w, steps);
            Exposure(v, q) <= Askers(threads, q) * limit
  {
    GatherNone(w.calls, OfPending);
    LimitHolds(w, steps, q, limit);
    RoomIs(threads, q, limit);
  }

  // The bound is reached.

  function Ask(lane: nat, q: nat, limit: nat): Step {
    Check(lane, if lane % 2 == 1 then Mlock else if q == HOST then Pinned else Device, q, limit)
  }

  /** One request of the whole limit on every lane that can ask counter q, before any is recorded. */
  function AskAll(lanes: nat, q: nat, limit: nat): seq<Step> {
    if lanes == 0 then []
    else if q == HOST || lanes % 2 == 1 then AskAll(lanes - 1, q, limit) + [Ask(lanes - 1, q, limit)]
    else AskAll(lanes - 1, q, limit)
  }

  lemma {:induction false} RunsAppend(w: World, steps: seq<Step>, s: Step)
    requires Shape(w) && Runs(w, steps) && Enabled(After(w, steps), s)
    ensures Runs(w, steps + [s]) && After(w, steps + [s]) == Do(After(w, steps), s)
    decreases |steps|
  {
    if steps == [] {
      assert steps + [s] == [s];
    } else {
      assert (steps + [s])[1..] == steps[1..] + [s];
      RunsAppend(Do(w, steps[0]), steps[1..], s);
    }
  }

  lemma AskOne(w: World, s: Step, q: nat, limit: nat)
    requires Shape(w) && s.Check? && Enabled(w, s) && s.size == limit && Pool(s.kind, s.device) == q
    requires w.limits[q] == Some(limit) && w.ledger.active[q] == 0
    ensures var v := Do(w, s);
            && v.calls == w.calls[s.lane := Asked(s.kind, s.device, limit)] && v.ledger == w.ledger
            && Pending(v, q) == Pending(w, q) + limit
  {
    hide Sum, Gather;
    PendingSet(w, s.lane, Asked(s.kind, s.device, limit), q);
  }

  ghost predicate IdleFrom(w: World, lane: nat) {
    forall i :: lane <= i < |w.calls| ==> w.calls[i].Idle?
  }

  lemma AskNext(w: World, steps: seq<Step>, lane: nat, q: nat, limit: nat)
    requires Shape(w) && Runs(w, steps) && q <= HOST && w.limits[q] == Some(limit) && limit < U64
    requires lane < |w.calls| && (q == HOST || lane % 2 == 0)
    requires IdleFrom(After(w, steps), lane) && After(w, steps).ledger.active[q] == 0
    ensures Runs(w, steps + [Ask(lane, q, limit)])
    ensures var u, v := After(w, steps), After(w, steps + [Ask(lane, q, limit)]);
            IdleFrom(v, lane + 1) && v.ledger == u.ledger && Pending(v, q) == Pending(u, q) + limit
  {
    hide Sum, Gather, Runs, After, Do, Allows;
    var u, s := After(w, steps), Ask(lane, q, limit);
    assert u.calls[lane].Idle?;
    AskOne(u, s, q, limit);
    RunsAppend(w, steps, s);
  }

  lemma {:induction false} AskAllReaches(w: World, lanes: nat, q: nat, limit: nat)
    requires Shape(w) && IdleFrom(w, 0) && lanes <= |w.calls|
    requires q <= HOST && w.ledger.active[q] == 0 && w.limits[q] == Some(limit) && limit < U64
    ensures Runs(w, AskAll(lanes, q, limit))
    ensures var v := After(w, AskAll(lanes, q, limit));
            IdleFrom(v, lanes) && v.ledger == w.ledger && Pending(v, q) == Room(lanes, q, limit)
  {
    hide Sum, Gather, Do, Shape, Allows;
    if lanes == 0 {
      GatherNone(w.calls, OfPending);
      SumNone(q);
    } else {
      AskAllReaches(w, lanes - 1, q, limit);
      if q == HOST || lanes % 2 == 1 {
        AskNext(w, AskAll(lanes - 1, q, limit), lanes - 1, q, limit);
      }
    }
  }

  /** The bound of FirewallLimit cannot be lowered: some run meets it with equality. So one thread can
      hold twice the host limit, through mlock inside a pinned allocation. */
  lemma LimitReached(w: World, threads: nat, q: nat, limit: nat)
    requires Initial(w, threads) && q <= HOST && w.limits[q] == Some(limit) && limit < U64
    ensures exists steps :: Runs(w, steps) && Exposure(After(w, steps), q) == Askers(threads, q) * limit
  {
    hide Askers, Room, Sum, Gather, Runs, After;
    AskAllReaches(w, 2 * threads, q, limit);
    RoomIs(threads, q, limit);
    var steps := AskAll(2 * threads, q, limit);
    assert Runs(w, steps) && Exposure(After(w, steps), q) == Askers(threads, q) * limit;
  }

  // Counters and table.

  /** The counter is what the table's used records and the allocations that met a full table weigh. */
  ghost predicate Balanced(w: World, q: nat)
    requires Shape(w) && q <= HOST
  {
    q !in w.wrapped ==> w.ledger.active[q] == Sum(Table(w), q) + Sum(w.spilled, q)
  }

  lemma BookTable(w: World, lane: nat)
    requires Shape(w) && lane < |w.calls| && w.calls[lane].Held? && OfHeld(w.calls[lane]).Some?
    ensures var v := Booked(w, lane); var a := OfHeld(w.calls[lane]).value;
            && multiset(Table(v)) + multiset(v.spilled) == multiset(Table(w)) + multiset(w.spilled) + multiset{a}
            && forall q :: Sum(Table(v), q) + Sum(v.spilled, q) == Sum(Table(w), q) + Sum(w.spilled, q) + Weight(Some(a), q)
  {
    hide Sum, Gather, FirstFree, FirstOf, FirstKey, Drop;
    var v, a := Booked(w, lane), OfHeld(w.calls[lane]).value;
    var i := FirstFree(w.ledger.records);
    if i < |w.ledger.records| {
      GatherSet(w.ledger.records, i, v.ledger.records[i], OfRecord);
      Swap(multiset(Table(w)), multiset{a}, multiset(w.spilled));
      forall q ensures Sum(Table(v), q) == Sum(Table(w), q) + Weight(Some(a), q) {
        GatherSum(w.ledger.records, i, v.ledger.records[i], OfRecord, q);
      }
    } else {
      forall q ensures Sum(v.spilled, q) == Sum(w.spilled, q) + Weight(Some(a), q) {
        SumPush(w.spilled, a, q);
      }
    }
  }

  /** The record record_free takes out of the table, if any. */
  function Removed(w: World, lane: nat): Option<Alloc>
    requires lane < |w.calls| && w.calls[lane].Releasing?
  {
    var i := FirstOf(w.ledger.records, w.calls[lane].ptr);
    if i < |w.ledger.records| then OfRecord(w.ledger.records[i]) else None
  }

  lemma ForgetTable(w: World, lane: nat)
    requires Shape(w) && lane < |w.calls| && w.calls[lane].Releasing?
    ensures var v := Do(w, Forget(lane));
            && multiset(Table(v)) + multiset(Some1(Removed(w, lane))) == multiset(Table(w))
            && forall q :: Sum(Table(v), q) + Weight(Removed(w, lane), q) == Sum(Table(w), q)
  {
    hide Sum, Gather, FirstFree, FirstOf, FirstKey, Drop, Pool, Shape;
    var i := FirstOf(w.ledger.records, w.calls[lane].ptr);
    if i < |w.ledger.records| {
      ClearSlot(w.ledger.records, i, w.ledger.records[i].(used := false));
    }
  }

  lemma ClearSlot(records: seq<Record>, i: nat, r: Record)
    requires i < |records| && !r.used
    ensures multiset(Gather(records[i := r], OfRecord)) + multiset(Some1(OfRecord(records[i])))
         == multiset(Gather(records, OfRecord))
    ensures forall q :: Sum(Gather(records[i := r], OfRecord), q) + Weight(OfRecord(records[i]), q)
                     == Sum(Gather(records, OfRecord), q)
  {
    hide Sum, Gather, Pool;
    GatherSet(records, i, r, OfRecord);
    forall q ensures Sum(Gather(records[i := r], OfRecord), q) + Weight(OfRecord(records[i]), q)
                  == Sum(Gather(records, OfRecord), q)
    {
      GatherSum(records, i, r, OfRecord, q);
    }
  }

  lemma BalanceStep(w: World, s: Step, q: nat)
    requires Shape(w) && Enabled(w, s) && q <= HOST && Balanced(w, q)
    ensures Balanced(Do(w, s), q)
  {
    hide Sum, Gather, FirstFree, FirstOf, FirstKey, Drop;
    if s.Book? && OfHeld(w.calls[s.lane]).Some? {
      BookTable(w, s.lane);
    } else if s.Forget? {
      ForgetTable(w, s.lane);
    }
  }

  lemma {:induction false} BalanceHolds(w: World, steps: seq<Step>, q: nat)
    requires Shape(w) && Runs(w, steps) && q <= HOST && Balanced(w, q)
    ensures Balanced(After(w, steps), q)
    decreases |steps|
  {
    if steps != [] {
      BalanceStep(w, steps[0], q);
      BalanceHolds(Do(w, steps[0]), steps[1..], q);
    }
  }

  lemma {:induction false} LimitedNeverWraps(w: World, steps: seq<Step>, q: nat, limit: nat)
    requires Shape(w) && Runs(w, steps) && q <= HOST && w.limits[q] == Some(limit)
    requires WithinLimit(w, q, limit) && Room(|w.calls|, q, limit) < U64 && q !in w.wrapped
    ensures q !in After(w, steps).wrapped
    decreases |steps|
  {
    hide Sum, Gather, Room, FirstFree, FirstOf, FirstKey, Drop, Allows;
    if steps != [] {
      var s := steps[0];
      LimitStep(w, s, q, limit);
      if s.Book? {
        PendingSet(w, s.lane, Idle, q);
      }
      LimitedNeverWraps(Do(w, s), steps[1..], q, limit);
    }
  }

  lemma SmallLimitNeverWraps(w: World, threads: nat, steps: seq<Step>, q: nat, limit: nat)
    requires Initial(w, threads) && Runs(w, steps) && q <= HOST && w.limits[q] == Some(limit)
    requires Askers(threads, q) * limit < U64
    ensures q !in After(w, steps).wrapped
  {
    hide Sum, Gather, Runs, After, Room, Askers;
    GatherNone(w.calls, OfPending);
    SumNone(q);
    RoomIs(threads, q, limit);
    LimitedNeverWraps(w, steps, q, limit);
  }

  /** In every run a counter equals its used records plus what met a full table, as long as no addition
      to it overflowed; then record_free's saturating subtraction never saturates. A limited counter
      whose askers' limits fit in 64 bits never overflows. */
  lemma LedgerAgrees(w: World, threads: nat, steps: seq<Step>, q: nat)
    requires Initial(w, threads) && Runs(w, steps) && q <= HOST
    requires q !in After(w, steps).wrapped || (w.limits[q].Some? && Askers(threads, q) * w.limits[q].value < U64)
    ensures var v := After(w, steps);
            && v.ledger.active[q] == Sum(Table(v), q) + Sum(v.spilled, q)
            && forall lane :: 0 <= lane < |v.calls| && v.calls[lane].Releasing? ==>
                 Weight(Removed(v, lane), q) <= v.ledger.active[q]
  {
    hide Sum, Gather, Runs, After, FirstFree, FirstOf, FirstKey, Askers, Enabled, Weight;
    GatherNone(w.ledger.records, OfRecord);
    SumNone(q);
    BalanceHolds(w, steps, q);
    if w.limits[q].Some? && Askers(threads, q) * w.limits[q].value < U64 {
      SmallLimitNeverWraps(w, threads, steps, q, w.limits[q].value);
    }
    var v := After(w, steps);
    forall lane | 0 <= lane < |v.calls| && v.calls[lane].Releasing?
      ensures Weight(Removed(v, lane), q) <= v.ledger.active[q]
    {
      ForgetTable(v, lane);
    }
  }

  /** An addition that overflows is the one thing that breaks the agreement: it does, whenever it happens. */
  lemma WrapBreaks(w: World, lane: nat, q: nat)
    requires Shape(w) && Enabled(w, Book(lane)) && OfHeld(w.calls[lane]).Some? && q == OfHeld(w.calls[lane]).value.pool
    requires q <= HOST && w.ledger.active[q] == Sum(Table(w), q) + Sum(w.spilled, q)
    ensures var v := Do(w, Book(lane));
            v.ledger.active[q] == Sum(Table(v), q) + Sum(v.spilled, q) <==> w.ledger.active[q] + w.calls[lane].size < U64
  {
    hide Sum, Gather, FirstFree, FirstOf, FirstKey, Drop;
    BookTable(w, lane);
  }

  // Coverage.

  /** Every allocation still held by the process is recorded, met a full table, or is about to be recorded. */
  ghost predicate Covered(w: World) {
    multiset(w.live) <= multiset(Table(w)) + multiset(w.spilled) + multiset(HeldNow(w))
  }

  ghost predicate HasKey(s: seq<Alloc>, ptr: nat) {
    exists i :: 0 <= i < |s| && s[i].ptr == ptr
  }

  ghost predicate Distinct(s: seq<Alloc>) {
    forall i, j :: 0 <= i < j < |s| ==> s[i].ptr != s[j].ptr
  }

  ghost predicate BeingReleased(w: World, ptr: nat) {
    exists i :: 0 <= i < |w.calls| && w.calls[i] == Releasing(ptr)
  }

  /** What is asked of the environment: a key is live once, and, when strict, a release is whole and its key
      is not handed out again between the real free and the record_free that follows. */
  ghost predicate Fair(w: World, s: Step, strict: bool) {
    && (s.Return? && s.ok && s.ptr != 0 ==> !HasKey(w.live, s.ptr) && (strict ==> !BeingReleased(w, s.ptr)))
    && (s.Free? && strict ==> s.rest.None?)
  }

  ghost predicate FairRun(w: World, steps: seq<Step>, strict: bool)
    requires Shape(w) && Runs(w, steps)
    decreases |steps|
  {
    steps == [] || (Fair(w, steps[0], strict) && FairRun(Do(w, steps[0]), steps[1..], strict))
  }

  ghost predicate Tidy(w: World) {
    && Distinct(w.live)
    && forall i :: 0 <= i < |w.calls| && w.calls[i].Releasing? ==> !HasKey(w.live, w.calls[i].ptr)
  }

  lemma DropTidy(s: seq<Alloc>, ptr: nat)
    requires Distinct(s)
    ensures Distinct(Drop(s, ptr)) && !HasKey(Drop(s, ptr), ptr) && multiset(Drop(s, ptr)) <= multiset(s)
    ensures forall p :: HasKey(Drop(s, ptr), p) ==> HasKey(s, p)
  {
    hide FirstKey;
    var i, d := FirstKey(s, ptr), Drop(s, ptr);
    if i < |s| {
      RemoveAt(s, i);
      Untouched(s, i, d);
    }
  }

  lemma RemoveAt(s: seq<Alloc>, i: nat)
    requires i < |s|
    ensures var d := s[..i] + s[i + 1..];
            multiset(d) <= multiset(s) && forall j :: 0 <= j < |d| ==> d[j] == s[if j < i then j else j + 1]
  {
    assert s == s[..i] + [s[i]] + s[i + 1..];
  }

  lemma Untouched(s: seq<Alloc>, i: nat, d: seq<Alloc>)
    requires Distinct(s) && i < |s| && |d| == |s| - 1
    requires forall j :: 0 <= j < |d| ==> d[j] == s[if j < i then j else j + 1]
    ensures Distinct(d) && !HasKey(d, s[i].ptr) && forall p :: HasKey(d, p) ==> HasKey(s, p)
  {
  }

  lemma TidyStep(w: World, s: Step)
    requires Shape(w) && Enabled(w, s) && Fair(w, s, true) && Tidy(w)
    ensures Tidy(Do(w, s))
  {
    if s.Free? || s.Expire? {
      DropTidy(w.live, s.ptr);
    }
  }

  lemma NoKey(s: seq<Alloc>, a: Alloc)
    requires !HasKey(s, a.ptr)
    ensures multiset(s)[a] == 0
  {
    assert a !in s;
  }

  /** Taking one copy of x out of what covers keeps the cover exactly when a copy was to spare. */
  lemma TakeOne(live: multiset<Alloc>, table: multiset<Alloc>, less: multiset<Alloc>, x: Alloc,
                spilled: multiset<Alloc>, held: multiset<Alloc>)
    requires live <= table + spilled + held && less + multiset{x} == table
    ensures live <= less + spilled + held <==> live[x] < (table + spilled + held)[x]
  {
    var before, after := table + spilled + held, less + spilled + held;
    assert after[x] == before[x] - 1;
    forall y | y != x ensures after[y] == before[y] {
      assert table[y] == less[y];
    }
  }

  /** Without fairness: record_free keeps the cover exactly when the record it takes is not the only one
      left for an allocation that is live. */
  lemma ForgetKeepsCover(w: World, lane: nat)
    requires Shape(w) && Enabled(w, Forget(lane)) && Covered(w)
    ensures Covered(Do(w, Forget(lane))) <==>
              Removed(w, lane).None? ||
              multiset(w.live)[Removed(w, lane).value]
                < (multiset(Table(w)) + multiset(w.spilled) + multiset(HeldNow(w)))[Removed(w, lane).value]
  {
    hide Sum, Gather, FirstFree, FirstOf, FirstKey, Drop;
    var v := Do(w, Forget(lane));
    GatherSame(w.calls, lane, Idle, OfHeld);
    ForgetTable(w, lane);
    if Removed(w, lane).Some? {
      TakeOne(multiset(w.live), multiset(Table(w)), multiset(Table(v)), Removed(w, lane).value,
              multiset(w.spilled), multiset(HeldNow(w)));
    }
  }

  lemma CoverNeedsNone(w: World, lane: nat)
    requires Shape(w) && Enabled(w, Forget(lane)) && Covered(w) && Removed(w, lane).Some?
    requires !HasKey(w.live, w.calls[lane].ptr)
    ensures Covered(Do(w, Forget(lane)))
  {
    hide Sum, Gather, FirstFree, FirstOf, FirstKey, Drop;
    ForgetKeepsCover(w, lane);
    NoKey(w.live, Removed(w, lane).value);
    var x, m := Removed(w, lane).value, multiset(Table(w)) + multiset(w.spilled) + multiset(HeldNow(w));
    assert multiset(w.live)[x] < m[x] by {
      ForgetTable(w, lane);
      assert multiset(Table(w))[x] > 0;
    }
  }

  /** An allocation enters what is live and what is about to be recorded together, then moves from there
      to the table. */
  lemma CoverMove(w: World, s: Step)
    requires Shape(w) && Enabled(w, s) && (s.Return? || s.Book?) && Covered(w)
    ensures Covered(Do(w, s))
  {
    hide Sum, Gather, FirstFree, FirstOf, FirstKey, Drop;
    var v := Do(w, s);
    var c := v.calls[s.lane];
    assert v.calls == w.calls[s.lane := c];
    var known := multiset(Table(w)) + multiset(w.spilled);
    if OfHeld(w.calls[s.lane]) == OfHeld(c) {
      GatherSame(w.calls, s.lane, c, OfHeld);
    } else {
      GatherSet(w.calls, s.lane, c, OfHeld);
      if s.Return? {
        Enter(multiset(w.live), known, multiset(HeldNow(w)), multiset(HeldNow(v)), OfHeld(c).value);
      } else {
        BookTable(w, s.lane);
        Move(multiset(w.live), known, multiset(HeldNow(w)), multiset(HeldNow(v)), OfHeld(w.calls[s.lane]).value);
      }
    }
  }

  lemma Enter(live: multiset<Alloc>, known: multiset<Alloc>, held: multiset<Alloc>, more: multiset<Alloc>, a: Alloc)
    requires live <= known + held && more == held + multiset{a}
    ensures live + multiset{a} <= known + more
  {
    assert known + more == (known + held) + multiset{a};
  }

  lemma Move(live: multiset<Alloc>, known: multiset<Alloc>, held: multiset<Alloc>, less: multiset<Alloc>, a: Alloc)
    requires live <= known + held && less + multiset{a} == held
    ensures live <= known + multiset{a} + less
  {
    assert known + held == known + multiset{a} + less;
  }

  lemma CoverStep(w: World, s: Step)
    requires Shape(w) && Enabled(w, s) && Fair(w, s, true) && Tidy(w) && Covered(w)
    ensures Covered(Do(w, s))
  {
    hide Sum, Gather, FirstFree, FirstOf, FirstKey, Drop;
    if s.Forget? {
      assert s == Forget(s.lane);
      ForgetKeepsCover(w, s.lane);
      if Removed(w, s.lane).Some? {
        CoverNeedsNone(w, s.lane);
      }
      return;
    }
    if s.Expire? || s.Free? {
      DropTidy(w.live, s.ptr);
    }
    if s.Return? || s.Book? {
      CoverMove(w, s);
    } else if s.Free? {
      GatherSame(w.calls, s.lane, Releasing(s.ptr), OfHeld);
    } else if s.Check? {
      GatherSame(w.calls, s.lane, Asked(s.kind, s.device, s.size), OfHeld);
    }
  }

  lemma {:induction false} CoverHolds(w: World, steps: seq<Step>)
    requires Shape(w) && Runs(w, steps) && FairRun(w, steps, true) && Tidy(w) && Covered(w)
    ensures Covered(After(w, steps))
    decreases |steps|
  {
    if steps != [] {
      TidyStep(w, steps[0]);
      CoverStep(w, steps[0]);
      CoverHolds(Do(w, steps[0]), steps[1..]);
    }
  }

  /** In a strictly fair run, whose releases are whole, every counter that did not overflow, with what is
      about to be recorded, covers the bytes still allocated, although async frees leave stale records under
      addresses that come back. */
  lemma LiveBytesCovered(w: World, threads: nat, steps: seq<Step>, q: nat)
    requires Initial(w, threads) && Runs(w, steps) && FairRun(w, steps, true) && q <= HOST
    ensures var v := After(w, steps);
            q !in v.wrapped ==> Sum(v.live, q) <= v.ledger.active[q] + Sum(HeldNow(v), q)
  {
    GatherNone(w.ledger.records, OfRecord);
    CoverHolds(w, steps);
    BalanceHolds(w, steps, q);
    var v := After(w, steps);
    SumWithin(v.live, Table(v) + v.spilled + HeldNow(v), q);
    SumAdd(Table(v) + v.spilled, HeldNow(v), q);
    SumAdd(Table(v), v.spilled, q);
  }

  // Coverage in bytes, with partial releases and without fairness.

  /** What is recorded, met a full table or is about to be recorded, beyond what is live. */
  function Surplus(w: World, q: nat): int {
    Sum(Table(w), q) + Sum(w.spilled, q) + Sum(HeldNow(w), q) - Sum(w.live, q)
  }

  function Gain(w: World, s: Step, q: nat): int
    requires Enabled(w, s)
  {
    match s
    case Free(lane, ptr, rest) => Weight(Gone(w.live, ptr), q) - Weight(rest, q)
    case Forget(lane) => 0 - Weight(Removed(w, lane), q)
    case Expire(ptr) => Weight(Gone(w.live, ptr), q)
    case _ => 0
  }

  lemma SumGone(s: seq<Alloc>, ptr: nat, q: nat)
    ensures Sum(Drop(s, ptr), q) == Sum(s, q) - Weight(Gone(s, ptr), q)
  {
    hide Sum, FirstKey;
    var i := FirstKey(s, ptr);
    if i < |s| {
      SumDrop(s, i, q);
      SumPush([], s[i], q);
      SumNone(q);
      assert [] + [s[i]] == [s[i]];
    }
  }

  lemma SumSome(s: seq<Alloc>, a: Option<Alloc>, q: nat)
    ensures Sum(s + Some1(a), q) == Sum(s, q) + Weight(a, q)
  {
    hide Sum;
    if a.Some? {
      SumPush(s, a.value, q);
    } else {
      assert s + Some1(a) == s;
    }
  }

  lemma HeldSet(w: World, lane: nat, c: Call, q: nat)
    requires lane < |w.calls|
    ensures Sum(Gather(w.calls[lane := c], OfHeld), q) + Weight(OfHeld(w.calls[lane]), q)
         == Sum(HeldNow(w), q) + Weight(OfHeld(c), q)
  {
    GatherSum(w.calls, lane, c, OfHeld, q);
  }

  lemma SurplusStep(w: World, s: Step, q: nat)
    requires Shape(w) && Enabled(w, s)
    ensures Surplus(Do(w, s), q) == Surplus(w, q) + Gain(w, s, q)
  {
    hide Sum, Gather, FirstFree, FirstOf, FirstKey, Drop, Gone, Allows;
    match s
    case Check(lane, kind, device, size) => HeldSet(w, lane, Asked(kind, device, size), q);
    case Return(lane, ptr, ok) =>
      var c := w.calls[lane];
      var h := Held(c.kind, c.device, c.size, ptr, ok);
      HeldSet(w, lane, h, q);
      SumSome(w.live, OfHeld(h), q);
    case Book(lane) =>
      HeldSet(w, lane, Idle, q);
      if OfHeld(w.calls[lane]).Some? {
        BookTable(w, lane);
      }
    case Free(lane, ptr, rest) =>
      HeldSet(w, lane, Releasing(ptr), q);
      SumGone(w.live, ptr, q);
      SumSome(Drop(w.live, ptr), rest, q);
    case Forget(lane) =>
      HeldSet(w, lane, Idle, q);
      ForgetTable(w, lane);
    case Expire(ptr) => SumGone(w.live, ptr, q);
  }

  /** A record_free takes no more of counter q than is to spare. */
  ghost predicate TakesSpare(w: World, s: Step, q: nat) {
    s.Forget? && Enabled(w, s) ==> Weight(Removed(w, s.lane), q) <= Surplus(w, q)
  }

  lemma StepCovers(w: World, s: Step, q: nat)
    requires Shape(w) && Enabled(w, s) && Surplus(w, q) >= 0
    ensures Surplus(Do(w, s), q) >= 0 <==> TakesSpare(w, s, q)
  {
    hide Surplus, Gone, Removed;
    SurplusStep(w, s, q);
  }

  /** A release and its record_free keep the cover if and only if the record taken stands for no more than
      what the release returned and what was to spare. */
  lemma ReleaseCovers(w: World, lane: nat, ptr: nat, rest: Option<Alloc>, q: nat)
    requires Shape(w) && Enabled(w, Free(lane, ptr, rest))
    ensures var u := Do(w, Free(lane, ptr, rest));
            Surplus(Do(u, Forget(lane)), q) >= 0 <==>
              Weight(Removed(u, lane), q) <= Surplus(w, q) + Weight(Gone(w.live, ptr), q) - Weight(rest, q)
  {
    hide Surplus, Gone, Removed, Weight;
    var u := Do(w, Free(lane, ptr, rest));
    SurplusStep(w, Free(lane, ptr, rest), q);
    SurplusStep(u, Forget(lane), q);
  }

  ghost predicate AlwaysCovered(w: World, steps: seq<Step>, q: nat)
    requires Shape(w) && Runs(w, steps)
    decreases |steps|
  {
    Surplus(w, q) >= 0 && (steps == [] || AlwaysCovered(Do(w, steps[0]), steps[1..], q))
  }

  ghost predicate AlwaysSpare(w: World, steps: seq<Step>, q: nat)
    requires Shape(w) && Runs(w, steps)
    decreases |steps|
  {
    steps == [] || (TakesSpare(w, steps[0], q) && AlwaysSpare(Do(w, steps[0]), steps[1..], q))
  }

  lemma {:induction false} RunCovers(w: World, steps: seq<Step>, q: nat)
    requires Shape(w) && Runs(w, steps) && Surplus(w, q) >= 0
    ensures AlwaysCovered(w, steps, q) <==> AlwaysSpare(w, steps, q)
    decreases |steps|
  {
    hide Surplus, TakesSpare;
    if steps != [] {
      StepCovers(w, steps[0], q);
      if TakesSpare(w, steps[0], q) {
        RunCovers(Do(w, steps[0]), steps[1..], q);
      } else {
        NotCovered(Do(w, steps[0]), steps[1..], q);
      }
    }
  }

  lemma NotCovered(w: World, steps: seq<Step>, q: nat)
    requires Shape(w) && Runs(w, steps) && Surplus(w, q) < 0
    ensures !AlwaysCovered(w, steps, q)
  {
  }

  /** In every run, with partial releases, reused keys and no fairness: the bytes live stay covered
      throughout if and only if every record_free takes no more than is to spare; and while the counter has
      not overflowed, to be covered is to be at most the counter and what is about to be recorded. */
  lemma CoveredExactly(w: World, threads: nat, steps: seq<Step>, q: nat)
    requires Initial(w, threads) && Runs(w, steps) && q <= HOST
    ensures AlwaysCovered(w, steps, q) <==> AlwaysSpare(w, steps, q)
    ensures var v := After(w, steps);
            q !in v.wrapped ==> (Surplus(v, q) >= 0 <==> Sum(v.live, q) <= v.ledger.active[q] + Sum(HeldNow(v), q))
  {
    hide Sum, Gather, Runs, After, AlwaysCovered, AlwaysSpare;
    GatherNone(w.ledger.records, OfRecord);
    GatherNone(w.calls, OfHeld);
    SumNone(q);
    RunCovers(w, steps, q);
    BalanceHolds(w, steps, q);
  }
}
