/** Two runs on which live bytes are not covered: the window between a real free and the record_free after
    it, in which the driver may hand the same address to another thread, and a release of less than was
    recorded. */
module MemguardRace {
  import opened Options
  import opened Numbers
  import opened MemguardLedger
  import opened MemguardProtocol
  import opened MemguardSafety

  /** A run so far: its steps, each keeping a key live at most once, and where it ends. */
  ghost predicate Reaches(w: World, steps: seq<Step>, v: World)
    requires Shape(w)
  {
    Runs(w, steps) && FairRun(w, steps, false) && After(w, steps) == v
  }

  lemma {:induction false} Extend(w: World, steps: seq<Step>, v: World, s: Step)
    requires Shape(w) && Reaches(w, steps, v) && Shape(v) && Enabled(v, s) && Fair(v, s, false)
    ensures Reaches(w, steps + [s], Do(v, s))
    decreases |steps|
  {
    if steps == [] {
      assert steps + [s] == [s];
      assert [s][1..] == [];
    } else {
      assert (steps + [s])[1..] == steps[1..] + [s];
      Extend(Do(w, steps[0]), steps[1..], v, s);
    }
  }

  lemma Start(w: World)
    requires Shape(w)
    ensures Reaches(w, [], w)
  {
  }

  function Charged(v: World, ptr: nat, size: nat): World
    requires Shape(v)
  {
    RecordedWellFormed(v.ledger, ptr, Device, 0, size);
    v.(ledger := Recorded(v.ledger, ptr, Device, 0, size), live := v.live + [Alloc(ptr, 0, size)])
  }

  /** One whole allocation on GPU 0. */
  lemma Grab(w: World, steps: seq<Step>, v: World, lane: nat, ptr: nat, size: nat) returns (more: seq<Step>)
    requires Shape(w) && Reaches(w, steps, v) && Shape(v)
    requires lane < |v.calls| && lane % 2 == 0 && v.calls[lane].Idle? && Allows(v.limits[0], v.ledger.active[0], size)
    requires ptr != 0 && !HasKey(v.live, ptr) && v.ledger.active[0] + size < U64
    requires FirstFree(v.ledger.records) < |v.ledger.records|
    ensures Reaches(w, more, Charged(v, ptr, size))
  {
    hide FirstFree, FirstOf, FirstKey, Runs, After, FairRun, Sum, Gather;
    var asked := v.(calls := v.calls[lane := Asked(Device, 0, size)]);
    var h := Held(Device, 0, size, ptr, true);
    var held := v.(calls := v.calls[lane := h], live := v.live + [Alloc(ptr, 0, size)]);
    Extend(w, steps, v, Check(lane, Device, 0, size));
    Extend(w, steps + [Check(lane, Device, 0, size)], asked, Return(lane, ptr, true));
    assert asked.calls[lane := h] == held.calls;
    more := steps + [Check(lane, Device, 0, size)] + [Return(lane, ptr, true)];
    Extend(w, more, held, Book(lane));
    assert held.calls[lane := Idle] == v.calls;
    assert Do(held, Book(lane)) == Charged(v, ptr, size);
    more := more + [Book(lane)];
  }

  /** Free at the driver. */
  lemma Let(w: World, steps: seq<Step>, v: World, s: Step) returns (more: seq<Step>, u: World)
    requires Shape(w) && Reaches(w, steps, v) && Shape(v) && Enabled(v, s) && !s.Return?
    ensures more == steps + [s] && u == Do(v, s) && Reaches(w, more, u)
  {
    Extend(w, steps, v, s);
    more, u := steps + [s], Do(v, s);
  }

  /** Thread 0 holds one byte at address 1, in the first slot, and a bytes at address 2, in the second. */
  lemma TwoBlocks(w: World, a: nat) returns (steps: seq<Step>, v: World)
    requires Initial(w, 2) && |w.ledger.records| >= 2 && (w.limits[0].None? || a + 1 <= w.limits[0].value) && a + 1 < U64
    ensures Reaches(w, steps, v) && Shape(v)
    ensures v.calls == w.calls && v.limits == w.limits && v.live == [Alloc(1, 0, 1), Alloc(2, 0, a)]
    ensures |v.ledger.records| >= 2 && v.ledger.active[0] == a + 1
    ensures v.ledger.records[0] == Record(1, 1, 0, Device, true) && v.ledger.records[1] == Record(2, a, 0, Device, true)
  {
    hide Runs, After, FairRun, Sum, Gather, FirstOf, FirstFree, Reaches;
    Start(w);
    assert !w.ledger.records[0].used;
    steps := Grab(w, [], w, 0, 1, 1);
    var v1 := Charged(w, 1, 1);
    assert v1.live == [Alloc(1, 0, 1)] && v1.ledger.records[0].ptr == 1 && v1.ledger.active[0] == 1;
    assert !v1.ledger.records[1].used;
    steps := Grab(w, steps, v1, 0, 2, a);
    v := Charged(v1, 2, a);
  }

  /** The first block is free again, its slot too, and the driver has just freed the second. */
  lemma Prepare(w: World, a: nat) returns (steps: seq<Step>, v: World)
    requires Initial(w, 2) && |w.ledger.records| >= 2 && (w.limits[0].None? || a + 1 <= w.limits[0].value) && a + 1 < U64
    ensures Reaches(w, steps, v) && Shape(v)
    ensures v.calls == w.calls[0 := Releasing(2)] && v.limits == w.limits && v.live == []
    ensures |v.ledger.records| >= 2 && v.ledger.active[0] == a
    ensures !v.ledger.records[0].used && v.ledger.records[1] == Record(2, a, 0, Device, true)
  {
    hide FirstKey, Runs, After, FairRun, Sum, Gather, FirstOf, FirstFree, Reaches;
    var v2;
    steps, v2 := TwoBlocks(w, a);
    assert v2.live[0].ptr == 1 && FirstKey(v2.live, 1) == 0;
    steps, v := Let(w, steps, v2, Free(0, 1, None));
    assert v.live == [Alloc(2, 0, a)];
    steps, v := Let(w, steps, v, Forget(0));
    assert v.calls == w.calls && v.ledger.active[0] == a && !v.ledger.records[0].used;
    assert v.live[0].ptr == 2 && FirstKey(v.live, 2) == 0;
    steps, v := Let(w, steps, v, Free(0, 2, None));
  }

  /** Thread 0 frees an address of a bytes; before its record_free, thread 1 gets the same address with b
      bytes and records it in an earlier slot. record_free then takes thread 1's record: nothing is in
      flight, b bytes are live, and the counter says a. So it covers them exactly when b <= a. */
  lemma ReuseRace(w: World, a: nat, b: nat) returns (steps: seq<Step>, v: World)
    requires Initial(w, 2) && |w.ledger.records| >= 2 && (w.limits[0].None? || a + b + 1 <= w.limits[0].value) && a + b + 1 < U64
    ensures Reaches(w, steps, v) && Shape(v) && IdleFrom(v, 0)
    ensures v.ledger.active[0] == a && Sum(v.live, 0) == b
  {
    hide FirstKey, Runs, After, FairRun, Sum, Gather, FirstOf, FirstFree, Reaches;
    var v3, v4;
    steps, v3 := Prepare(w, a);
    steps := Grab(w, steps, v3, 2, 2, b);
    v4 := Charged(v3, 2, b);
    assert v4.ledger.records[0] == Record(2, b, 0, Device, true) && v4.ledger.active[0] == a + b;
    steps, v := Let(w, steps, v4, Forget(0));
    assert v.calls == w.calls;
    assert v.live == [] + [Alloc(2, 0, b)];
    SumPush([], Alloc(2, 0, b), 0);
    SumNone(0);
  }

  /** munlock of a shorter range than was locked: the kernel keeps b of a bytes locked, record_free takes the
      whole record. One thread, the key live once, nothing in flight; the counter says 0. */
  lemma PartialUnlock(w: World, a: nat, b: nat) returns (steps: seq<Step>, v: World)
    requires Initial(w, 1) && |w.ledger.records| >= 1 && b <= a < U64
    requires w.limits[HOST].None? || a <= w.limits[HOST].value
    ensures Reaches(w, steps, v) && Shape(v) && IdleFrom(v, 0)
    ensures v.ledger.active[HOST] == 0 && Sum(v.live, HOST) == b
  {
    hide FirstKey, Runs, After, FairRun, Sum, Gather, FirstOf, FirstFree, Reaches;
    Start(w);
    assert !w.ledger.records[0].used;
    var rest := Alloc(4097, HOST, b);
    steps, v := Let(w, [], w, Check(1, Mlock, -1, a));
    assert !HasKey(v.live, 1);
    Extend(w, steps, v, Return(1, 1, true));
    steps, v := steps + [Return(1, 1, true)], Do(v, Return(1, 1, true));
    assert v.live == [Alloc(1, HOST, a)];
    steps, v := Let(w, steps, v, Book(1));
    assert v.ledger.active[HOST] == a && v.ledger.records[0] == Record(1, a, -1, Mlock, true) && v.live[0].ptr == 1;
    assert FirstKey(v.live, 1) == 0;
    steps, v := Let(w, steps, v, Free(1, 1, Some(rest)));
    assert v.live == [] + [rest];
    assert FirstOf(v.ledger.records, 1) == 0;
    steps, v := Let(w, steps, v, Forget(1));
    SumPush([], rest, HOST);
    SumNone(HOST);
  }
}
