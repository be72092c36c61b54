/** The file lock around the capability record, go/cmd/ggrun/backend_capabilities.go: any number of
    processes that acquire it, read the record, write it back changed, and release it. */
module CapabilityLock {
  import opened Options

  const STALE_AFTER: int := 120_000_000_000

  datatype Flag = Flag(reason: string, hasValue: bool)

  /** The parts of the record that persist functions change. */
  datatype Record = Record(disabled: map<string, Flag>, cpu: Option<string>, sparse: Option<string>)

  const EMPTY := Record(map[], None, None)

  /** What one persist call adds. */
  datatype Update = Disable(flag: string, why: Flag) | Cpu(mmap: string) | Sparse(lookup: string)

  function Apply(r: Record, u: Update): Record {
    match u
    case Disable(flag, why) => r.(disabled := r.disabled[flag := why])
    case Cpu(mmap) => r.(cpu := Some(mmap))
    case Sparse(lookup) => r.(sparse := Some(lookup))
  }

  function Replay(r: Record, us: seq<Update>): Record {
    if us == [] then r else Apply(Replay(r, us[..|us| - 1]), us[|us| - 1])
  }

  /** Where a persist call stands. */
  datatype Phase =
    | Idle
    | Trying(update: Update, deadline: int)
    | Blocked(update: Update, deadline: int)
    | SawStale(update: Update, deadline: int)
    | Holding(update: Update)
    | Loaded(update: Update, seen: Record)
    | Cleared(update: Update, seen: Record)
    | Finished
    | Crashed

  datatype Lock = Lock(created: int, owner: nat)

  /** file is None when there is no record of this scope to read. written lists the updates whose write
      succeeded. */
  datatype World = World(now: int, lock: Option<Lock>, file: Option<Record>, procs: seq<Phase>, written: seq<Update>)

  datatype Step =
    | Tick(d: nat)
    | Begin(p: nat, update: Update, timeout: nat)
    | Create(p: nat)
    | Look(p: nat)
    | RemoveStale(p: nat)
    | Load(p: nat, ok: bool)
    | Clear(p: nat)
    | Write(p: nat, ok: bool)
    | Release(p: nat)
    | Crash(p: nat)

  predicate Critical(ph: Phase) {
    ph.Holding? || ph.Loaded? || ph.Cleared? || ph.Finished?
  }

  predicate Enabled(w: World, s: Step) {
    if s.Tick? then true
    else
      s.p < |w.procs| &&
      var ph := w.procs[s.p];
      match s
      case Begin(_, _, _) => ph.Idle?
      case Create(_) => ph.Trying?
      case Look(_) => ph.Blocked?
      case RemoveStale(_) => ph.SawStale?
      case Load(_, _) => ph.Holding?
      case Clear(_) => ph.Loaded?
      case Write(_, _) => ph.Loaded? || ph.Cleared?
      case Release(_) => ph.Finished?
      case Crash(_) => !ph.Crashed?
  }

  /** What loadBackendCapabilityRecord answers when it can read: the record, or an empty one if there is
      none of this scope. When it cannot, it answers an empty one whatever the file holds. */
  function Current(file: Option<Record>): Record {
    if file.Some? then file.value else EMPTY
  }

  function To(w: World, p: nat, ph: Phase): World
    requires p < |w.procs|
  {
    w.(procs := w.procs[p := ph])
  }

  /** One step. On Windows, and only there, a write first removes the record it replaces: Clear. */
  function Do(w: World, s: Step): (v: World)
    requires Enabled(w, s)
    ensures |v.procs| == |w.procs|
  {
    match s
    case Tick(d) => w.(now := w.now + d)
    case Begin(p, update, timeout) => To(w, p, Trying(update, w.now + timeout))
    case Create(p) =>
      var ph := w.procs[p];
      if w.lock.None? then To(w, p, Holding(ph.update)).(lock := Some(Lock(w.now, p)))
      else To(w, p, Blocked(ph.update, ph.deadline))
    case Look(p) =>
      var ph := w.procs[p];
      if Aged(w) then To(w, p, SawStale(ph.update, ph.deadline))
      else if w.now > ph.deadline then To(w, p, Idle)
      else To(w, p, Trying(ph.update, ph.deadline))
    case RemoveStale(p) => To(w, p, Trying(w.procs[p].update, w.procs[p].deadline)).(lock := None)
    case Load(p, ok) => To(w, p, Loaded(w.procs[p].update, if ok then Current(w.file) else EMPTY))
    case Clear(p) => To(w, p, Cleared(w.procs[p].update, w.procs[p].seen)).(file := None)
    case Write(p, ok) =>
      var ph := w.procs[p];
      if ok then To(w, p, Finished).(file := Some(Apply(ph.seen, ph.update)), written := w.written + [ph.update])
      else To(w, p, Finished)
    case Release(p) => To(w, p, Idle).(lock := None)
    case Crash(p) => To(w, p, Crashed)
  }

  /** The lock file is older than the age at which a waiter removes it. */
  predicate Aged(w: World) {
    w.lock.Some? && w.now - w.lock.value.created > STALE_AFTER
  }

  ghost predicate Runs(w: World, steps: seq<Step>)
    decreases |steps|
  {
    steps == [] || (Enabled(w, steps[0]) && Runs(Do(w, steps[0]), steps[1..]))
  }

  function After(w: World, steps: seq<Step>): World
    requires Runs(w, steps)
    decreases |steps|
  {
    if steps == [] then w else After(Do(w, steps[0]), steps[1..])
  }

  ghost predicate Initial(w: World) {
    && w.lock.None? && w.written == []
    && forall p :: 0 <= p < |w.procs| ==> w.procs[p].Idle?
  }

  /** A waiter that finds a lock of no great age gives up once its time is over, and before that tries
      again; neither touches the lock or the record. */
  lemma GivesUp(w: World, p: nat)
    requires Enabled(w, Look(p)) && (w.lock.Some? ==> w.now <= w.lock.value.created + STALE_AFTER)
    ensures var v := Do(w, Look(p));
            && v.lock == w.lock && v.file == w.file
            && (v.procs[p].Idle? <==> w.now > w.procs[p].deadline)
            && (v.procs[p].Trying? <==> w.now <= w.procs[p].deadline)
  {
  }

  /** So a call that finds the lock taken gives up if and only if more than its timeout has passed since it
      began. */
  lemma TimesOut(w: World, p: nat, update: Update, timeout: nat, d: nat)
    requires Enabled(w, Begin(p, update, timeout)) && w.lock.Some? && w.now + d <= w.lock.value.created + STALE_AFTER
    ensures var blocked := Do(Do(w, Begin(p, update, timeout)), Create(p));
            && Enabled(blocked, Look(p)) && Enabled(Do(blocked, Tick(d)), Look(p))
            && (Do(Do(blocked, Tick(d)), Look(p)).procs[p].Idle? <==> d > timeout)
  {
  }

  // Mutual exclusion.

  /** Every process between acquire and release holds the lock file; so there is at most one. */
  ghost predicate Exclusive(w: World) {
    forall p :: 0 <= p < |w.procs| && Critical(w.procs[p]) ==> w.lock.Some? && w.lock.value.owner == p
  }

  /** No process is between acquire and release under the lock file there is. */
  predicate Abandoned(w: World) {
    w.lock.Some? && w.lock.value.owner < |w.procs| ==> !Critical(w.procs[w.lock.value.owner])
  }

  /** What decides mutual exclusion: a stale removal finds the lock abandoned. */
  predicate TakesAbandoned(w: World, s: Step) {
    s.RemoveStale? ==> Abandoned(w)
  }

  /** A step keeps mutual exclusion if and only if it is no removal of a lock somebody is working under. */
  lemma StepExclusive(w: World, s: Step)
    requires Enabled(w, s) && Exclusive(w)
    ensures Exclusive(Do(w, s)) <==> TakesAbandoned(w, s)
  {
    if s.RemoveStale? && !Abandoned(w) {
      var owner := w.lock.value.owner;
      assert Critical(Do(w, s).procs[owner]);
    }
  }

  ghost predicate AlwaysExclusive(w: World, steps: seq<Step>)
    requires Runs(w, steps)
    decreases |steps|
  {
    Exclusive(w) && (steps == [] || AlwaysExclusive(Do(w, steps[0]), steps[1..]))
  }

  ghost predicate Always(w: World, steps: seq<Step>, holds: (World, Step) -> bool)
    requires Runs(w, steps)
    decreases |steps|
  {
    steps == [] || (holds(w, steps[0]) && Always(Do(w, steps[0]), steps[1..], holds))
  }

  /** A run keeps mutual exclusion throughout if and only if every stale removal in it takes an abandoned
      lock. */
  lemma {:induction false} RunExclusive(w: World, steps: seq<Step>)
    requires Runs(w, steps) && Exclusive(w)
    ensures AlwaysExclusive(w, steps) <==> Always(w, steps, TakesAbandoned)
    ensures Always(w, steps, TakesAbandoned) ==> Exclusive(After(w, steps))
    decreases |steps|
  {
    if steps != [] {
      StepExclusive(w, steps[0]);
      if TakesAbandoned(w, steps[0]) {
        RunExclusive(Do(w, steps[0]), steps[1..]);
      } else {
        assert !Exclusive(Do(w, steps[0]));
      }
    }
  }

  // No lost update.

  /** The record is what there was at first with every successful write applied. */
  ghost predicate Kept(w: World, base: Record) {
    Current(w.file) == Replay(base, w.written)
  }

  /** Two records are alike but for what an update sets. */
  predicate AlikeBut(a: Record, b: Record, u: Update) {
    match u
    case Disable(flag, _) => a.disabled - {flag} == b.disabled - {flag} && a.cpu == b.cpu && a.sparse == b.sparse
    case Cpu(_) => a.disabled == b.disabled && a.sparse == b.sparse
    case Sparse(_) => a.disabled == b.disabled && a.cpu == b.cpu
  }

  lemma ApplyAlike(a: Record, b: Record, u: Update)
    ensures Apply(a, u) == Apply(b, u) <==> AlikeBut(a, b, u)
  {
    if u.Disable? {
      var x, y := a.disabled[u.flag := u.why], b.disabled[u.flag := u.why];
      assert a.disabled - {u.flag} == x - {u.flag} && b.disabled - {u.flag} == y - {u.flag};
      assert x == (x - {u.flag})[u.flag := u.why] && y == (y - {u.flag})[u.flag := u.why];
    }
  }

  lemma ReplayMore(r: Record, us: seq<Update>, u: Update)
    ensures Replay(r, us + [u]) == Apply(Replay(r, us), u)
  {
    assert (us + [u])[..|us|] == us;
  }

  /** A successful write loses nothing if and only if what its process read is the record, but for what
      the write sets anyway. */
  lemma WriteKeeps(w: World, p: nat, base: Record)
    requires p < |w.procs| && w.procs[p].Loaded? && Kept(w, base)
    ensures Kept(Do(w, Write(p, true)), base) <==> AlikeBut(w.procs[p].seen, Current(w.file), w.procs[p].update)
  {
    hide Replay, Apply, AlikeBut;
    ReplayMore(base, w.written, w.procs[p].update);
    ApplyAlike(w.procs[p].seen, Current(w.file), w.procs[p].update);
  }

  /** What decides that, when the lock is read under: the read succeeds, or the record holds nothing but
      what the update sets. */
  predicate ReadsRecord(w: World, s: Step) {
    s.Load? && s.p < |w.procs| && w.procs[s.p].Holding? ==> s.ok || AlikeBut(EMPTY, Current(w.file), w.procs[s.p].update)
  }

  lemma AlikeSelf(r: Record, u: Update)
    ensures AlikeBut(r, r, u)
  {
  }

  /** After one process acquired the lock, a read decides: with the record kept so far, reading and then
      writing keeps it if and only if the read succeeded or the record held nothing but what is set. */
  lemma ReadDecides(w: World, p: nat, ok: bool, base: Record)
    requires Enabled(w, Load(p, ok)) && Kept(w, base)
    ensures Kept(Do(Do(w, Load(p, ok)), Write(p, true)), base) <==> ReadsRecord(w, Load(p, ok))
  {
    hide Replay, Apply, AlikeBut;
    AlikeSelf(Current(w.file), w.procs[p].update);
    WriteKeeps(Do(w, Load(p, ok)), p, base);
  }

  /** Where the record is removed before it is replaced, success keeps what a write without that keeps;
      a failure or a crash in between keeps the record if and only if it was empty. */
  lemma ClearDecides(w: World, p: nat, base: Record)
    requires p < |w.procs| && w.procs[p].Loaded? && Kept(w, base)
    ensures Do(Do(w, Clear(p)), Write(p, true)) == Do(w, Write(p, true))
    ensures Kept(Do(Do(w, Clear(p)), Write(p, false)), base) <==> Current(w.file) == EMPTY
    ensures Kept(Do(Do(w, Clear(p)), Crash(p)), base) <==> Current(w.file) == EMPTY
  {
    hide Replay, Apply;
  }

  /** What decides that in a run: no write fails and no process crashes between removing the record and
      replacing it. */
  predicate Replaces(w: World, s: Step) {
    (s.Crash? || (s.Write? && !s.ok)) && s.p < |w.procs| ==> !w.procs[s.p].Cleared?
  }

  predicate NoneCleared(w: World) {
    forall p :: 0 <= p < |w.procs| ==> !w.procs[p].Cleared?
  }

  /** The record is complete but while it is being replaced, and whoever is about to write read all of it
      that its write does not set. */
  ghost predicate Complete(w: World, base: Record) {
    && (NoneCleared(w) ==> Kept(w, base))
    && forall p :: 0 <= p < |w.procs| && (w.procs[p].Loaded? || w.procs[p].Cleared?) ==>
         AlikeBut(w.procs[p].seen, Replay(base, w.written), w.procs[p].update)
  }

  lemma StepKeeps(w: World, s: Step, base: Record)
    requires Enabled(w, s) && Exclusive(w) && Complete(w, base) && ReadsRecord(w, s) && Replaces(w, s)
    ensures Complete(Do(w, s), base)
  {
    hide Replay, Apply, AlikeBut;
    if s.Write? && s.ok {
      ReplayMore(base, w.written, w.procs[s.p].update);
      ApplyAlike(w.procs[s.p].seen, Replay(base, w.written), w.procs[s.p].update);
    } else if s.Load? {
      assert NoneCleared(w);
      AlikeSelf(Current(w.file), w.procs[s.p].update);
    } else if s.Write? {
      assert NoneCleared(w);
    } else if s.Clear? {
      assert Do(w, s).procs[s.p].Cleared?;
    } else if NoneCleared(Do(w, s)) && !s.Tick? {
      assert forall p :: 0 <= p < |w.procs| && p != s.p ==> Do(w, s).procs[p] == w.procs[p];
    }
  }

  lemma {:induction false} RunKeeps(w: World, steps: seq<Step>, base: Record)
    requires Runs(w, steps) && Exclusive(w) && Complete(w, base)
    requires Always(w, steps, TakesAbandoned) && Always(w, steps, ReadsRecord) && Always(w, steps, Replaces)
    ensures Complete(After(w, steps), base)
    decreases |steps|
  {
    hide Complete, Do;
    if steps != [] {
      StepExclusive(w, steps[0]);
      StepKeeps(w, steps[0], base);
      RunKeeps(Do(w, steps[0]), steps[1..], base);
    }
  }

  predicate NeverClears(w: World, s: Step) {
    !s.Clear?
  }

  /** Elsewhere than on Windows no record is ever removed. */
  lemma {:induction false} NothingCleared(w: World, steps: seq<Step>)
    requires Runs(w, steps) && NoneCleared(w) && Always(w, steps, NeverClears)
    ensures Always(w, steps, Replaces) && NoneCleared(After(w, steps))
    decreases |steps|
  {
    if steps != [] {
      NothingCleared(Do(w, steps[0]), steps[1..]);
    }
  }

  /** What makes every successful write last: reads succeed, or fail on a record that holds nothing but
      what is being set; and either no write removes the record first, or every one that does replaces
      it. */
  ghost predicate ReadsAndReplaces(w: World, steps: seq<Step>)
    requires Runs(w, steps)
  {
    Always(w, steps, ReadsRecord) && (Always(w, steps, NeverClears) || (Always(w, steps, Replaces) && NoneCleared(After(w, steps))))
  }

  /** Whatever the interleaving, crashes, stale removals and failing writes included: if every stale
      removal takes an abandoned lock, no two processes are between acquire and release; and if the run
      reads and replaces the record as ReadsAndReplaces says, no successful write is lost. */
  lemma LockProtects(w: World, steps: seq<Step>)
    requires Initial(w) && Runs(w, steps) && Always(w, steps, TakesAbandoned)
    ensures var v := After(w, steps);
            forall p, q :: 0 <= p < q < |v.procs| ==> !(Critical(v.procs[p]) && Critical(v.procs[q]))
    ensures ReadsAndReplaces(w, steps) ==> Current(After(w, steps).file) == Replay(Current(w.file), After(w, steps).written)
  {
    RunExclusive(w, steps);
    if ReadsAndReplaces(w, steps) {
      if Always(w, steps, NeverClears) {
        NothingCleared(w, steps);
      }
      RunKeeps(w, steps, Current(w.file));
    }
  }

  // Locks that stay young.

  predicate StaysYoung(w: World, s: Step) {
    !Aged(w)
  }

  lemma {:induction false} YoungTakesNone(w: World, steps: seq<Step>)
    requires Runs(w, steps) && Always(w, steps, StaysYoung)
    requires forall p :: 0 <= p < |w.procs| ==> !w.procs[p].SawStale?
    ensures Always(w, steps, TakesAbandoned)
    decreases |steps|
  {
    if steps != [] {
      YoungTakesNone(Do(w, steps[0]), steps[1..]);
    }
  }

  /** While no lock file gets two minutes old nothing stale is removed, so LockProtects applies: with reads
      that succeed there is at most one process between acquire and release and no lost update. */
  lemma YoungLockProtects(w: World, steps: seq<Step>)
    requires Initial(w) && Runs(w, steps) && Always(w, steps, StaysYoung)
    ensures var v := After(w, steps);
            && (forall p, q :: 0 <= p < q < |v.procs| ==> !(Critical(v.procs[p]) && Critical(v.procs[q])))
            && (ReadsAndReplaces(w, steps) ==> Current(v.file) == Replay(Current(w.file), v.written))
  {
    YoungTakesNone(w, steps);
    LockProtects(w, steps);
  }

  /** The last update of a kind that a sequence of writes holds decides what the record says. */
  lemma {:induction false} ReplayHolds(r: Record, us: seq<Update>, i: nat)
    requires i < |us|
    ensures us[i].Disable? ==> us[i].flag in Replay(r, us).disabled
    ensures us[i].Disable? && (forall j :: i < j < |us| ==> !(us[j].Disable? && us[j].flag == us[i].flag)) ==>
              us[i].flag in Replay(r, us).disabled && Replay(r, us).disabled[us[i].flag] == us[i].why
    ensures us[i].Cpu? && (forall j :: i < j < |us| ==> !us[j].Cpu?) ==> Replay(r, us).cpu == Some(us[i].mmap)
    ensures us[i].Sparse? && (forall j :: i < j < |us| ==> !us[j].Sparse?) ==> Replay(r, us).sparse == Some(us[i].lookup)
  {
    var n := |us| - 1;
    if i < n {
      ReplayHolds(r, us[..n], i);
    }
  }

  /** A run so far, and where it ends. */
  ghost predicate Reaches(w: World, steps: seq<Step>, v: World) {
    Runs(w, steps) && After(w, steps) == v
  }

  lemma {:induction false} Extend(w: World, steps: seq<Step>, v: World, s: Step)
    requires Reaches(w, steps, v) && Enabled(v, s)
    ensures Reaches(w, steps + [s], Do(v, s))
    decreases |steps|
  {
    if steps == [] {
      assert steps + [s] == [s];
      assert [s][1..] == [];
    } else {
      assert (steps + [s])[1..] == steps[1..] + [s];
      Extend(Do(w, steps[0]), steps[1..], v, s);
    }
  }

  lemma More(w: World, steps: seq<Step>, v: World, s: Step) returns (steps': seq<Step>, v': World)
    requires Reaches(w, steps, v) && Enabled(v, s)
    ensures v' == Do(v, s) && Reaches(w, steps', v')
  {
    Extend(w, steps, v, s);
    steps', v' := steps + [s], Do(v, s);
  }

  /** A process crashed holding the lock, and two others saw it stale before either removed it. */
  lemma BothSawStale(w: World, a: Update, b: Update, c: Update) returns (steps: seq<Step>, v: World)
    requires Initial(w) && |w.procs| == 3
    ensures Reaches(w, steps, v) && v.file == w.file && v.written == [] && |v.procs| == 3
    ensures v.procs[0] == SawStale(a, v.now) && v.procs[1] == SawStale(b, v.now)
  {
    hide Runs, After;
    assert Reaches(w, [], w) by {
      Nothing(w);
    }
    steps, v := More(w, [], w, Begin(2, c, 0));
    steps, v := More(w, steps, v, Create(2));
    steps, v := More(w, steps, v, Crash(2));
    steps, v := More(w, steps, v, Tick(STALE_AFTER + 1));
    steps, v := More(w, steps, v, Begin(0, a, 0));
    steps, v := More(w, steps, v, Create(0));
    steps, v := More(w, steps, v, Look(0));
    steps, v := More(w, steps, v, Begin(1, b, 0));
    steps, v := More(w, steps, v, Create(1));
    steps, v := More(w, steps, v, Look(1));
  }

  lemma Nothing(w: World)
    ensures Reaches(w, [], w)
  {
  }

  /** The age matters. The slower waiter removes the fresh lock of the faster one, so both are between
      acquire and release at once, both read the same record, and the first write is lost. */
  lemma StaleLockStolen(w: World, a: Update, b: Update, c: Update)
      returns (steps: seq<Step>, v: World, more: seq<Step>, last: World)
    requires Initial(w) && |w.procs| == 3
    ensures Reaches(w, steps, v) && |v.procs| == 3 && Critical(v.procs[0]) && Critical(v.procs[1])
    ensures Reaches(w, more, last) && last.written == [a, b] && last.file == Some(Apply(Current(w.file), b))
  {
    hide Runs, After, Reaches;
    steps, v := BothSawStale(w, a, b, c);
    steps, v := More(w, steps, v, RemoveStale(0));
    steps, v := More(w, steps, v, Create(0));
    steps, v := More(w, steps, v, RemoveStale(1));
    steps, v := More(w, steps, v, Create(1));
    more, last := More(w, steps, v, Load(0, true));
    more, last := More(w, more, last, Load(1, true));
    more, last := More(w, more, last, Write(0, true));
    more, last := More(w, more, last, Write(1, true));
  }

  /** Reading matters too. Two persist calls one after the other, each alone with a fresh lock, the second
      unable to read: the first write is lost unless the second sets the very same thing. */
  lemma UnreadableRecordLost(w: World, a: Update, b: Update) returns (steps: seq<Step>, v: World)
    requires Initial(w) && |w.procs| == 1
    ensures Reaches(w, steps, v) && v.written == [a, b] && v.file == Some(Apply(EMPTY, b))
    ensures Current(v.file) == Replay(Current(w.file), [a, b]) <==> AlikeBut(EMPTY, Apply(Current(w.file), a), b)
  {
    hide Runs, After, Reaches, AlikeBut;
    ReplayMore(Current(w.file), [], a);
    ReplayMore(Current(w.file), [a], b);
    ApplyAlike(EMPTY, Apply(Current(w.file), a), b);
    assert [] + [a] == [a] && [a] + [b] == [a, b];
    Nothing(w);
    steps, v := More(w, [], w, Begin(0, a, 0));
    steps, v := More(w, steps, v, Create(0));
    steps, v := More(w, steps, v, Load(0, true));
    steps, v := More(w, steps, v, Write(0, true));
    steps, v := More(w, steps, v, Release(0));
    steps, v := More(w, steps, v, Begin(0, b, 0));
    steps, v := More(w, steps, v, Create(0));
    steps, v := More(w, steps, v, Load(0, false));
    steps, v := More(w, steps, v, Write(0, true));
  }

  /** So does replacing. On Windows a single process whose rename fails loses the record it read. */
  lemma ReplacedRecordLost(w: World, a: Update) returns (steps: seq<Step>, v: World)
    requires Initial(w) && |w.procs| == 1
    ensures Reaches(w, steps, v) && v.written == [] && v.file == None
    ensures Current(v.file) == Replay(Current(w.file), []) <==> Current(w.file) == EMPTY
  {
    hide Runs, After, Reaches;
    Nothing(w);
    steps, v := More(w, [], w, Begin(0, a, 0));
    steps, v := More(w, steps, v, Create(0));
    steps, v := More(w, steps, v, Load(0, true));
    steps, v := More(w, steps, v, Clear(0));
    steps, v := More(w, steps, v, Write(0, false));
  }
}
