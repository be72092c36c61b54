/** The budget of one admission, go/cmd/ggrun/launch_work.go: how many weight-reading starts it may make
    and how long each may take. */
module AdmissionWork {
  import opened Options
  import opened Numbers
  import opened CalibrationCost

  const MAX_CONVERGING := 4

  /** A granted start: when it was granted, the timeout configured for it, and the one it got. */
  datatype Grant = Grant(start: int, configured: int, timeout: int)

  datatype Work = Work(started: int, deadline: int, ceiling: int, maxLoads: nat, loads: nat,
                       converging: nat, admitted: bool)

  function NewWork(now: int, window: int, ceiling: int, maxLoads: nat): (w: Work)
    ensures w.deadline == now + window && w.maxLoads == maxLoads && w.ceiling <= window && (ceiling > 0 ==> w.ceiling <= ceiling)
    ensures w.ceiling == ceiling || w.ceiling == window
    ensures w.loads == w.converging == 0 && !w.admitted && (window > 0 ==> w.ceiling > 0)
  {
    Work(now, now + window, if ceiling <= 0 || ceiling > window then window else ceiling, maxLoads, 0, 0, false)
  }

  /** beginLoad: the timeout of the start it grants. */
  function LoadTimeout(w: Work, now: int, configured: int): (timeout: int)
    ensures timeout <= w.deadline - now && (w.ceiling > 0 ==> timeout <= w.ceiling) && (configured > 0 ==> timeout <= configured)
    ensures timeout in {w.deadline - now, w.ceiling, configured}
    ensures w.deadline - now > 0 ==> timeout > 0
  {
    var remaining := w.deadline - now;
    var t := if w.ceiling > 0 then Min(remaining, w.ceiling) else remaining;
    if configured > 0 then Min(t, configured) else t
  }

  predicate Grants(w: Work, now: int) {
    w.loads < w.maxLoads && w.deadline - now >= MIN_USEFUL_LOAD_WINDOW
  }

  /** What callers do with an admission, in any order, while time passes. */
  datatype Op = Tick(nat) | BeginLoad(configured: int) | GrantConverging | GrantAdmitted

  /** An admission, the clock, and the starts it granted. */
  datatype State = State(work: Work, now: int, grants: seq<Grant>)

  function Step(s: State, op: Op): State {
    var w := s.work;
    match op
    case Tick(d) => s.(now := s.now + d)
    case BeginLoad(configured) =>
      if Grants(w, s.now) then
        s.(work := w.(loads := w.loads + 1), grants := s.grants + [Grant(s.now, configured, LoadTimeout(w, s.now, configured))])
      else s
    case GrantConverging =>
      if w.converging >= MAX_CONVERGING then s
      else s.(work := w.(converging := w.converging + 1, maxLoads := w.maxLoads + 1))
    case GrantAdmitted =>
      if w.admitted then s
      else s.(work := w.(admitted := true, maxLoads := if w.loads >= w.maxLoads then w.loads + 1 else w.maxLoads))
  }

  function Run(s: State, ops: seq<Op>): State
    decreases |ops|
  {
    if ops == [] then s else Run(Step(s, ops[0]), ops[1..])
  }

  predicate Bounded(s: State, initial: nat) {
    var w := s.work;
    && |s.grants| == w.loads <= w.maxLoads <= initial + w.converging + (if w.admitted then 1 else 0)
    && w.converging <= MAX_CONVERGING
    && forall i :: 0 <= i < |s.grants| ==> InWindow(s.grants[i], w.deadline, w.ceiling)
  }

  /** A start that got a positive timeout within the window, its own ceiling and what was configured. */
  predicate InWindow(g: Grant, deadline: int, ceiling: int) {
    && g.timeout > 0 && g.start + MIN_USEFUL_LOAD_WINDOW <= deadline && g.start + g.timeout <= deadline
    && (ceiling > 0 ==> g.timeout <= ceiling) && (g.configured > 0 ==> g.timeout <= g.configured)
  }

  lemma {:induction false} RunBounded(s: State, ops: seq<Op>, initial: nat)
    requires Bounded(s, initial) && (s.work.ceiling > 0 || s.work.deadline <= s.now)
    ensures Bounded(Run(s, ops), initial)
    ensures Run(s, ops).work.deadline == s.work.deadline && Run(s, ops).work.ceiling == s.work.ceiling
    decreases |ops|
  {
    if ops != [] {
      RunBounded(Step(s, ops[0]), ops[1..], initial);
    }
  }

  /** Whatever order loads and grants come in, an admission starts at most its allowance, four converging
      starts and one admitted start, and every granted timeout is positive, no longer than the ceiling of one
      start and what was configured for it, and ends by the deadline fixed when the admission began. */
  lemma AnyOrder(now: int, window: int, ceiling: int, maxLoads: nat, ops: seq<Op>)
    ensures var s := Run(State(NewWork(now, window, ceiling, maxLoads), now, []), ops);
            && |s.grants| <= maxLoads + MAX_CONVERGING + 1
            && forall i :: 0 <= i < |s.grants| ==>
                 InWindow(s.grants[i], now + window, if ceiling <= 0 || ceiling > window then window else ceiling)
  {
    RunBounded(State(NewWork(now, window, ceiling, maxLoads), now, []), ops, maxLoads);
  }

  function Loads(n: nat): seq<Op> {
    if n == 0 then [] else [BeginLoad(0)] + Loads(n - 1)
  }

  /** With converging and admitted grants in between, given time, the whole allowance can be used. */
  lemma {:induction false} LoadsUse(s: State, n: nat, ops: seq<Op>) returns (t: State)
    requires s.work.deadline - s.now >= MIN_USEFUL_LOAD_WINDOW && s.work.loads + n <= s.work.maxLoads
    ensures Run(s, Loads(n) + ops) == Run(t, ops)
    ensures t.work == s.work.(loads := s.work.loads + n) && t.now == s.now && |t.grants| == |s.grants| + n
    decreases n
  {
    if n == 0 {
      assert Loads(n) + ops == ops;
      t := s;
    } else {
      t := LoadsUse(Step(s, BeginLoad(0)), n - 1, ops);
      assert (Loads(n) + ops)[1..] == Loads(n - 1) + ops;
    }
  }

  function Converge(n: nat): seq<Op> {
    if n == 0 then [] else [GrantConverging] + Converge(n - 1)
  }

  /** The state after n converging grants. */
  function Converged(s: State, n: nat): State {
    s.(work := s.work.(converging := s.work.converging + n, maxLoads := s.work.maxLoads + n))
  }

  lemma ConvergeStep(s: State, n: nat)
    requires n > 0 && s.work.converging < MAX_CONVERGING
    ensures Converged(Step(s, GrantConverging), n - 1) == Converged(s, n)
    ensures Step(s, GrantConverging).work.converging == s.work.converging + 1
  {
  }

  lemma RunFirst(s: State, op: Op, rest: seq<Op>, more: seq<Op>)
    ensures Run(s, ([op] + rest) + more) == Run(Step(s, op), rest + more)
  {
    assert (([op] + rest) + more)[0] == op && (([op] + rest) + more)[1..] == rest + more;
  }

  lemma {:induction false} ConvergeUse(s: State, n: nat, ops: seq<Op>)
    requires s.work.converging + n <= MAX_CONVERGING
    ensures Run(s, Converge(n) + ops) == Run(Converged(s, n), ops)
    decreases n
  {
    hide Step, Run;
    if n == 0 {
      assert Converge(n) + ops == ops && Converged(s, n) == s;
    } else {
      hide Converged;
      ConvergeStep(s, n);
      RunFirst(s, GrantConverging, Converge(n - 1), ops);
      ConvergeUse(Step(s, GrantConverging), n - 1, ops);
    }
  }

  /** The bound of AnyOrder is met: four converging grants, every load, then the admitted start. */
  lemma AllowanceReached(now: int, window: int, ceiling: int, maxLoads: nat)
    requires window >= MIN_USEFUL_LOAD_WINDOW
    ensures exists ops :: |Run(State(NewWork(now, window, ceiling, maxLoads), now, []), ops).grants|
                            == maxLoads + MAX_CONVERGING + 1
  {
    hide Converge, Loads, Run;
    var s := State(NewWork(now, window, ceiling, maxLoads), now, []);
    var last := [GrantAdmitted, BeginLoad(0)];
    var ops := Converge(4) + (Loads(maxLoads + 4) + last);
    ConvergeUse(s, 4, Loads(maxLoads + 4) + last);
    var u := Converged(s, 4);
    var t := LoadsUse(u, maxLoads + 4, last);
    LastStart(t);
    assert |Run(s, ops).grants| == maxLoads + MAX_CONVERGING + 1;
  }

  lemma LastStart(t: State)
    requires t.work.loads >= t.work.maxLoads && !t.work.admitted && t.work.deadline - t.now >= MIN_USEFUL_LOAD_WINDOW
    ensures |Run(t, [GrantAdmitted, BeginLoad(0)]).grants| == |t.grants| + 1
  {
    var ops := [GrantAdmitted, BeginLoad(0)];
    assert ops[1..] == [BeginLoad(0)] && [BeginLoad(0)][1..] == [];
    var u := Step(t, GrantAdmitted);
    assert Run(t, ops) == Run(u, [BeginLoad(0)]);
    assert Run(u, [BeginLoad(0)]) == Run(Step(u, BeginLoad(0)), []);
  }

  class Admission {
    const started: int
    const deadline: int
    const ceiling: int
    var maxLoads: nat
    var loads: nat
    var convergingLoads: nat
    var admittedStartGranted: bool

    function View(): Work
      reads this
    {
      Work(started, deadline, ceiling, maxLoads, loads, convergingLoads, admittedStartGranted)
    }

    constructor (now: int, window: int, perStart: int, allowance: nat)
      ensures View() == NewWork(now, window, perStart, allowance)
    {
      started, deadline := now, now + window;
      ceiling := if perStart <= 0 || perStart > window then window else perStart;
      maxLoads, loads, convergingLoads, admittedStartGranted := allowance, 0, 0, false;
    }

    method BeginLoad(now: int, configured: int, ghost history: seq<Grant>) returns (timeout: Option<int>)
      modifies this`loads
      ensures Step(State(old(View()), now, history), Op.BeginLoad(configured))
           == State(View(), now, if timeout.Some? then history + [Grant(now, configured, timeout.value)] else history)
      ensures timeout.Some? <==> old(loads) < maxLoads && now + MIN_USEFUL_LOAD_WINDOW <= deadline
      ensures timeout.Some? ==> timeout.value in {deadline - now, ceiling, configured}
      ensures timeout.Some? ==> InWindow(Grant(now, configured, timeout.value), deadline, ceiling) || ceiling < 0
    {
      if loads >= maxLoads {
        return None;
      }
      var remaining := deadline - now;
      if remaining < MIN_USEFUL_LOAD_WINDOW {
        return None;
      }
      var t := remaining;
      if ceiling > 0 && ceiling < t {
        t := ceiling;
      }
      if configured > 0 && configured < t {
        t := configured;
      }
      loads := loads + 1;
      return Some(t);
    }

    method GrantConvergingLoad(now: int, ghost history: seq<Grant>) returns (granted: bool)
      modifies this`convergingLoads, this`maxLoads
      ensures Step(State(old(View()), now, history), GrantConverging) == State(View(), now, history)
      ensures granted <==> old(convergingLoads) < MAX_CONVERGING
      ensures maxLoads == old(maxLoads) + (if granted then 1 else 0)
    {
      if convergingLoads >= MAX_CONVERGING {
        return false;
      }
      convergingLoads, maxLoads := convergingLoads + 1, maxLoads + 1;
      return true;
    }

    method GrantAdmittedStart(now: int, ghost history: seq<Grant>) returns (granted: bool)
      modifies this`admittedStartGranted, this`maxLoads
      ensures Step(State(old(View()), now, history), GrantAdmitted) == State(View(), now, history)
      ensures granted <==> !old(admittedStartGranted)
      ensures maxLoads == if granted then Max(old(maxLoads), loads + 1) else old(maxLoads)
    {
      if admittedStartGranted {
        return false;
      }
      admittedStartGranted := true;
      if loads >= maxLoads {
        maxLoads := loads + 1;
      }
      return true;
    }
  }

}
