/** The calibration controller, runCalibration of go/cmd/ggrun/calibrate.go, against processes, a clock
    and a workload that may answer anything. */
module Calibration {
  import opened Options
  import opened Numbers
  import opened CommandText
  import opened CalibrationCost
  import opened CalibrationDecision

  /** A main-model server process and the argv it was started with. */
  datatype Process = Process(id: nat, argv: Argv)

  /** One launch: what runCalibration is given. prompt and restoreTime describe the environment: whether
      every stop, start, admission, measurement and helper keeps its bound, and how long putting the
      baseline back takes. */
  datatype Launch = Launch(mode: Mode, baseline: Process, candidates: seq<Candidate>, timeout: int,
                           sizeBytes: nat, isMoE: bool, oracle: bool, baselineLoad: int, loadObserved: bool,
                           previous: Option<Decision>, wide: char -> bool, prompt: bool, restoreTime: int)
  {
    function Ceiling(): int { StartupTimeout(sizeBytes, isMoE) }
    function Cap(): int { RestartWindow(Ceiling()) }
    function Restore(): int { PricedLoad(baselineLoad, loadObserved, Ceiling()) }
    function Floor(): int { RestoreFloor(Restore()) }

    /** An hour and four failures when asked for, twenty minutes and three otherwise. */
    function Budget(): (b: int)
      ensures (mode == On ==> b == 3600 * SECOND) && (mode == Auto ==> b == 1200 * SECOND)
    {
      if mode == On then 60 * MINUTE else 20 * MINUTE
    }

    function MaxFailures(): (n: nat)
      ensures (mode == On ==> n == 4) && (mode == Auto ==> n == 3)
    {
      if mode == On then 4 else 3
    }

    /** The environment keeps its bounds and a restoration takes no longer than it is priced at. */
    predicate InBounds() {
      prompt && restoreTime <= Floor() && baselineLoad <= Ceiling()
    }
  }

  datatype Started = Ready(process: Process) | Refused(budget: bool, stable: bool, loadedWeights: bool, kind: string)

  datatype Benched = Measured(result: Result) | OutOfBudget | Failed

  datatype Advice = NoAdvice | Selected(name: string) | Fatal

  /** What runCalibration returns. */
  datatype Handed = Handed(process: Option<Process>, args: Argv, pending: Option<Decision>)

  datatype Verdict = Next | Stop | Done(handed: Handed)

  class Controller {
    const launch: Launch

    // The environment.
    var now: int
    var running: set<Process>

    // The experiment.
    var exp: Experiment
    var candidates: seq<Candidate>
    var workload: nat
    var curP: Option<Process>
    var measurements: seq<Measurement>
    var failures: nat
    var stableAdmissionFailed: bool
    var stableFailureClass: string
    var admissionInconclusive: bool
    var exactCandidateStarted: bool
    var budgetExhausted: bool
    var unaffordable: bool

    // History the contracts speak of.
    ghost var stopped: bool
    ghost var advised: bool
    ghost var refusedByAdvisor: bool
    ghost var winnerTried: bool
    /** Argvs whose exact start was attempted, in order. */
    ghost var attempts: seq<Argv>
    /** How many candidates the loop took up. */
    ghost var considered: nat
    /** Whether a stop reported failure. */
    ghost var stopFailed: bool
    /** Whether the baseline was measured. */
    ghost var baselined: bool
    /** What the advisor selected. */
    ghost var advice: Option<string>
    /** The measurement that was to serve. */
    ghost var chosen: Measurement
    /** Argvs restarted, in order. */
    ghost var restarts: seq<Argv>
    /** Whether the last wait found the server idle, and how many workloads ran. */
    ghost var idle: bool
    ghost var workloads: nat
    /** What the last measurement came to, and what the advisor answered. */
    ghost var bench: Benched
    ghost var answer: Advice
    /** How many candidates the memory oracle was asked about. */
    ghost var screened: nat
    /** What measuring the baseline came to, and the finalists its bottlenecks named. */
    ghost var baselineBench: Option<Benched>
    ghost var redirected: seq<Candidate>

    constructor (l: Launch, clock: int, live: set<Process>)
      requires live <= {l.baseline}
      ensures launch == l && now == clock && running == live && Fresh()
    {
      launch, now, running := l, clock, live;
      exp, candidates, workload := Experiment(clock, clock, clock), l.candidates, 0;
      curP, measurements, failures := Some(l.baseline), [], 0;
      stableAdmissionFailed, stableFailureClass := false, "";
      admissionInconclusive, exactCandidateStarted, budgetExhausted, unaffordable := false, false, false, false;
      stopped, advised, refusedByAdvisor, winnerTried := false, false, false, false;
      attempts, considered, stopFailed, baselined := [], 0, false, false;
      advice := None;
      bench, answer := Failed, NoAdvice;
      restarts, idle, workloads, screened, baselineBench, redirected := [], false, 0, 0, None, [];
      chosen := Measurement("", l.baseline.argv, Result(0.0, 0.0, 0.0, 0.0, 0.0, 0, 0, 0, 0, 0), 0.0);
    }

    /** As constructed: at most the baseline is live and nothing was tried. */
    ghost predicate Fresh()
      reads this
    {
      && running <= {launch.baseline} && curP == Some(launch.baseline) && failures == 0 && measurements == []
      && !stableAdmissionFailed && stableFailureClass == "" && !admissionInconclusive
      && !exactCandidateStarted && !budgetExhausted && !unaffordable
      && !stopped && !advised && !refusedByAdvisor && !winnerTried
      && attempts == [] && advice.None? && considered == 0 && !stopFailed && !baselined
      && candidates == launch.candidates && baselineBench.None? && redirected == []
    }

    // Effects. Any time may pass unless the environment is prompt, and any process may exit meanwhile.

    method Pass(limit: Option<int>)
      modifies this`now, this`running
      ensures old(now) <= now && running <= old(running)
      ensures launch.prompt && limit.Some? ==> now <= Max(old(now), limit.value)
    {
      var later: int := *;
      var left: set<Process> := *;
      if later > now {
        now := if launch.prompt && limit.Some? then Max(now, Min(later, limit.value)) else later;
      }
      running := running * left;
    }

    method IsRunning(p: Process) returns (alive: bool)
      modifies this`now, this`running
      ensures old(now) == now && running <= old(running) && (alive <==> p in running)
    {
      var left: set<Process> := *;
      running := running * left;
      alive := p in running;
    }

    /** stopCalibrationProcessAndWait: false when the process survived or its memory did not come back. */
    method StopAndWait(p: Process) returns (ok: bool)
      modifies this`now, this`running, this`stopFailed
      ensures stopFailed == (old(stopFailed) || !ok)
      ensures old(now) <= now && running <= old(running) && (ok ==> p !in running)
      ensures launch.prompt ==> now <= old(now) + RELEASE_COST
    {
      Pass(Some(now + RELEASE_COST));
      ok := *;
      if ok {
        running := running - {p};
      }
      stopFailed := stopFailed || !ok;
    }

    method StartExact(args: Argv, timeout: int) returns (r: Started)
      requires running == {}
      modifies this`now, this`running, this`attempts
      ensures attempts == old(attempts) + [args]
      ensures old(now) <= now
      ensures r.Ready? ==> running <= {r.process}
      ensures r.Refused? ==> running == {}
      ensures launch.prompt ==> now <= Max(old(now), old(now) + timeout + (if r.Refused? then RELEASE_COST else 0))
    {
      r := *;
      Pass(Some(now + timeout + (if r.Refused? then RELEASE_COST else 0)));
      if r.Ready? {
        running := {r.process};
      }
      attempts := attempts + [args];
    }

    method Restart(args: Argv, window: int) returns (p: Option<Process>)
      requires running == {} && window > 0
      modifies this`now, this`running, this`restarts
      ensures old(now) <= now && restarts == old(restarts) + [args]
      ensures p.Some? ==> running == {p.value}
      ensures p.None? ==> running == {}
      ensures launch.prompt ==> now <= old(now) + window + (if p.None? then RELEASE_COST else 0)
      ensures launch.prompt && args == launch.baseline.argv && launch.restoreTime <= window ==>
                p.Some? && now <= old(now) + Max(0, launch.restoreTime)
    {
      p := *;
      restarts := restarts + [args];
      if launch.prompt && args == launch.baseline.argv && launch.restoreTime <= window {
        var q: Process := *;
        p := Some(q);
        Pass(Some(now + launch.restoreTime));
      } else {
        Pass(Some(now + window + (if p.None? then RELEASE_COST else 0)));
      }
      if p.Some? {
        running := {p.value};
      }
    }

    method WaitIdle(until: int) returns (quiet: bool)
      requires until - now > TOO_LATE
      modifies this`now, this`running, this`idle
      ensures old(now) <= now && running <= old(running) && idle == quiet
      ensures launch.prompt ==> now <= Max(old(now), until)
    {
      Pass(Some(until));
      quiet := *;
      idle := quiet;
    }

    /** Time is too short for a measurement that must end by a deadline, or by that of the experiment. */
    predicate Late(at: int, deadline: Option<int>)
      reads this`exp
    {
      exp.Remaining(at) <= TOO_LATE || (deadline.Some? && deadline.value - at <= TOO_LATE)
    }

    /** A workload is run only on an idle server and with time left. */
    method RunWorkload(deadline: Option<int>) returns (b: Benched)
      requires idle && (if deadline.Some? then deadline.value else exp.deadline) - now > TOO_LATE
      modifies this`now, this`running, this`workloads
      ensures old(now) <= now && running <= old(running) && workloads == old(workloads) + 1
      ensures launch.prompt && deadline.Some? ==> now <= Max(old(now), deadline.value)
    {
      Pass(deadline);
      workloads := workloads + 1;
      b := *;
    }

    /** prescreen: the oracle is asked only while the baseline runs and the experiment is affordable. */
    method Prescreen(cost: Cost) returns (refused: bool)
      requires curP.Some? && launch.oracle && cost.Affordable(exp.Remaining(now))
      modifies this`now, this`running, this`screened
      ensures old(now) <= now && running <= old(running) && screened == old(screened) + 1
    {
      Pass(None);
      screened := screened + 1;
      refused := *;
    }

    /** maybeOptimizeCalibration: no main model runs beside the helper, whose query ends by the deadline. */
    method Advise() returns (advice: Advice)
      requires running == {} && exp.Remaining(now) >= ADVISOR_BOUND
      modifies this`now, this`running, this`answer
      ensures old(now) <= now && running == {} && answer == advice
      ensures launch.prompt ==> now <= exp.deadline + HELPER_RELEASE_WAIT + RELEASE_COST
    {
      Pass(Some(exp.deadline + HELPER_RELEASE_WAIT + RELEASE_COST));
      advice := *;
      answer := advice;
    }

    // The controller.

    /** A process, if any is live, is the one given; nothing is live without one. */
    ghost predicate Holds(p: Option<Process>)
      reads this`running
    {
      running <= (if p.Some? then {p.value} else {})
    }

    /** A candidate of that name beside the default. */
    ghost predicate Planned(name: string)
      reads this`candidates
    {
      exists i :: 1 <= i < |candidates| && candidates[i].name == name
    }

    /** Between candidates: the baseline has not been touched, or nothing is live. */
    ghost predicate Searching()
      reads this
    {
      && |candidates| >= 2 && measurements != []
      && measurements[0].name == DEFAULT && measurements[0].args == launch.baseline.argv && measurements[0].score == 1.0 && Scored(measurements)
      && (launch.mode == Auto ==> |measurements| <= 2) && (|measurements| > 1 ==> Planned(measurements[1].name))
      && (curP == Some(launch.baseline) || curP == None) && Holds(curP)
      && (stopped <==> curP == None) && (|measurements| > 1 ==> stopped)
      && exp.emergency == exp.deadline + launch.Cap()
      && !advised && advice.None? && !refusedByAdvisor && !winnerTried
    }

    /** Once the baseline is down its restoration still fits. */
    ghost predicate Slack()
      reads this
    {
      launch.prompt && stopped ==> now <= LatestRestoring(exp, launch.Restore())
    }

    /** Nothing, or the process with the argv it was started with and nothing else live, and after a stop a
        process that was just started or seen running; and a pending decision only with the measured argv of
        the winner it names. */
    ghost predicate Right(h: Handed)
      reads this
    {
      && Holds(h.process) && (stopped ==> Just(h.process))
      && (h.process.Some? ==> h.process.value.argv == h.args)
      && (h.pending.Some? ==>
            && h.process.Some?
            && (exists i :: 0 <= i < |measurements| && measurements[i].name == h.pending.value.winner
                            && measurements[i].args == h.args && measurements[i].score >= 0.97)
            && (h.pending.value.outcome == Unmeasured ==>
                  h.pending.value.winner == DEFAULT && h.args == launch.baseline.argv && h.pending.value.attempts > 0))
    }

    /** In a prompt environment a launch whose baseline was stopped is left with a server, unless the
        advisor's helper could not be released, by the emergency deadline; and by the optimization
        deadline plus what a restoration takes beyond its priced load, unless a winner or the advisor was
        tried. */
    ghost predicate InTime(h: Handed)
      reads this
    {
      launch.InBounds() && stopped ==>
        && (h.process.None? ==> refusedByAdvisor)
        && now <= exp.emergency
        && (!winnerTried && !advised ==> now <= exp.deadline + Excess(launch.restoreTime, launch.Restore()))
    }

    /** A measurement is given up only late or on a busy server. */
    method Bench(deadline: Option<int>) returns (b: Benched)
      modifies this`now, this`running, this`idle, this`workloads, this`bench
      ensures old(now) <= now && running <= old(running)
      ensures launch.prompt && deadline.Some? ==> now <= Max(old(now), deadline.value)
      ensures bench == b
      ensures workloads == old(workloads) + 1 ||
              (b == OutOfBudget && (Late(old(now), deadline) || Late(now, deadline) || !idle))
    {
      var until := if deadline.Some? then Min(exp.deadline, deadline.value) else exp.deadline;
      if until - now <= TOO_LATE {
        b, bench := OutOfBudget, OutOfBudget;
        return;
      }
      var quiet := WaitIdle(until);
      if !quiet {
        b, bench := OutOfBudget, OutOfBudget;
        return;
      }
      var remaining := if deadline.Some? then deadline.value - now else exp.Remaining(now);
      if remaining <= TOO_LATE {
        b, bench := OutOfBudget, OutOfBudget;
        return;
      }
      b := RunWorkload(deadline);
      bench := b;
    }

    /** Exactly that process is live, just started or seen running; nothing if there is none. */
    ghost predicate Just(p: Option<Process>)
      reads this`running
    {
      running == if p.Some? then {p.value} else {}
    }

    ghost predicate Restartable(at: int, keep: int, floor: int)
      reads this`exp
    {
      exp.ServiceWindow(at, launch.Cap(), keep, floor) >= MIN_USEFUL_LOAD_WINDOW
    }

    method RestoreService(args: Argv, keep: int, floor: int) returns (p: Option<Process>)
      requires running == {}
      modifies this`now, this`running, this`restarts
      ensures old(now) <= now && Just(p)
      ensures restarts == if Restartable(old(now), keep, floor) then old(restarts) + [args] else old(restarts)
      ensures var window := exp.ServiceWindow(old(now), launch.Cap(), keep, floor);
              if window < MIN_USEFUL_LOAD_WINDOW then p.None? && now == old(now)
              else
                launch.prompt ==>
                  && now <= old(now) + window + (if p.None? then RELEASE_COST else 0)
                  && (args == launch.baseline.argv && launch.restoreTime <= window ==>
                        p.Some? && now <= old(now) + Max(0, launch.restoreTime))
    {
      var window := exp.ServiceWindow(now, launch.Cap(), keep, floor);
      if window < MIN_USEFUL_LOAD_WINDOW {
        return None;
      }
      p := Restart(args, window);
    }

    /** Put the measured baseline back. */
    method RestoreBaseline() returns (p: Option<Process>)
      requires running == {} && exp.emergency == exp.deadline + launch.Cap()
      modifies this`now, this`running, this`restarts
      ensures old(now) <= now && Just(p)
      ensures restarts == old(restarts) + [launch.baseline.argv] || (p.None? && restarts == old(restarts))
      ensures launch.InBounds() ==> p.Some? && now <= old(now) + Max(0, launch.restoreTime)
    {
      p := RestoreService(launch.baseline.argv, 0, launch.Floor());
    }

    method AfterFailedRelease(p: Process) returns (h: Handed)
      requires Holds(Some(p)) && stopped && !winnerTried && !advised && Slack()
      requires exp.emergency == exp.deadline + launch.Cap()
      modifies this`now, this`running, this`restarts
      ensures old(now) <= now && Right(h) && InTime(h) && h.pending.None?
    {
      var alive := IsRunning(p);
      if alive {
        return Handed(Some(p), p.argv, None);
      }
      var restored := RestoreBaseline();
      if restored.None? {
        return Handed(None, launch.baseline.argv, None);
      }
      return Handed(restored, restored.value.argv, None);
    }

    /** A probe is part of the price exactly if neither an oracle nor cached evidence spares it, and a second
        release if the baseline still runs. */
    function Price(cand: Candidate): (c: Cost)
      reads this
      ensures c.load == c.restore == launch.Restore()
      ensures c.admission == if launch.oracle || cand.cachedEvidence then ORACLE_ADMISSION_COST else launch.Restore()
      ensures c.release == if curP.Some? then 2 * RELEASE_COST else RELEASE_COST
      ensures 4 * c.workload <= 5 * workload < 4 * c.workload + 4
    {
      EstimateChallengerCost(CostInputs(launch.baselineLoad, launch.loadObserved, workload, launch.Ceiling(),
                                        !launch.oracle && !cand.cachedEvidence, curP.Some?))
    }

    method NoteStable(kind: string)
      modifies this`stableAdmissionFailed, this`stableFailureClass
      ensures stableAdmissionFailed && stableFailureClass == if old(stableFailureClass) == "" then kind else old(stableFailureClass)
    {
      stableAdmissionFailed := true;
      if stableFailureClass == "" {
        stableFailureClass := kind;
      }
    }

    method OutOfTime() returns (v: Verdict)
      modifies this`admissionInconclusive, this`budgetExhausted
      ensures v == Stop && budgetExhausted && admissionInconclusive
    {
      admissionInconclusive, budgetExhausted := true, true;
      v := Stop;
    }

    /** The failure budget bounds starts that read weights. */
    method Charge() returns (v: Verdict)
      modifies this`failures
      ensures failures == old(failures) + 1
      ensures v == if failures >= launch.MaxFailures() then Stop else Next
    {
      failures := failures + 1;
      v := if failures >= launch.MaxFailures() then Stop else Next;
    }

    /** The checks of one turn of the candidate loop before anything is stopped. */
    method Gate(cand: Candidate, cost: Cost) returns (v: Option<Verdict>)
      requires Searching() && Slack()
      modifies this`now, this`running, this`stableAdmissionFailed, this`stableFailureClass,
               this`admissionInconclusive, this`budgetExhausted, this`unaffordable, this`screened
      ensures old(now) <= now && Searching() && Slack()
      ensures v.Some? ==> !v.value.Done?
      ensures v == Some(Next) ==> Print(cand.args) == Print(launch.baseline.argv) || stableAdmissionFailed
      ensures v == Some(Stop) ==>
                budgetExhausted && (exp.Remaining(now) <= TOO_LATE || !cost.Affordable(exp.Remaining(now)))
      ensures old(stableAdmissionFailed) ==> stableAdmissionFailed
      ensures old(stableFailureClass) != "" ==> stableFailureClass == old(stableFailureClass)
      ensures old(budgetExhausted) ==> budgetExhausted
      ensures exp.Remaining(old(now)) <= TOO_LATE ==> v == Some(Stop)
      ensures v.None? ==> exp.Remaining(now) > TOO_LATE && cost.Affordable(exp.Remaining(now))
      ensures v.None? && old(curP).Some? && launch.oracle ==> screened == old(screened) + 1
      ensures unaffordable == (old(unaffordable) || (v == Some(Stop) && exp.Remaining(now) > TOO_LATE))
    {
      hide Score, Print, StartupTimeout, PricedLoad;
      if exp.Remaining(now) <= TOO_LATE {
        var late := OutOfTime();
        return Some(late);
      }
      if Print(cand.args) == Print(launch.baseline.argv) {
        return Some(Next);
      }
      var rejected: bool := *;
      if rejected {
        NoteStable("cached-memory-rejection");
        return Some(Next);
      }
      if curP.Some? && launch.oracle && cost.Affordable(exp.Remaining(now)) {
        var refused := Prescreen(cost);
        if refused {
          var kind: string := *;
          NoteStable(kind);
          return Some(Next);
        }
      }
      if exp.Remaining(now) > TOO_LATE && cost.Affordable(exp.Remaining(now)) {
        return None;
      }
      unaffordable := unaffordable || exp.Remaining(now) > TOO_LATE;
      var late := OutOfTime();
      return Some(late);
    }

    /** At most one more failure, and the search goes on only below the failure budget. */
    ghost predicate Charged(before: nat, v: Verdict)
      reads this`failures
    {
      failures == before || (failures == before + 1 && (v.Next? ==> failures < launch.MaxFailures()))
    }

    /** Why a candidate left no measurement and the search came to v: it prints like the baseline's argv, was
        refused, or could not be measured; and a search stops only out of time, at the failure budget, or
        after the one measurement of automatic mode. */
    ghost predicate Accounted(v: Verdict, cand: Candidate, tried: bool, before: nat)
      reads this
    {
      match v
      case Done(_) => stopFailed
      case Next =>
        && (tried || Print(cand.args) == Print(launch.baseline.argv) || stableAdmissionFailed)
        && (tried && |measurements| == before ==> stableAdmissionFailed || admissionInconclusive)
      case Stop =>
        && (budgetExhausted || failures >= launch.MaxFailures() || (launch.mode == Auto && |measurements| == before + 1))
        && (tried && |measurements| == before ==> stableAdmissionFailed || admissionInconclusive)
    }

    /** One turn of the candidate loop. */
    method TryCandidate(cand: Candidate) returns (v: Verdict)
      requires Searching() && Slack() && (launch.mode == Auto ==> |measurements| == 1) && Planned(cand.name)
      modifies this`now, this`running, this`attempts, this`measurements, this`failures, this`stableAdmissionFailed,
               this`stableFailureClass, this`admissionInconclusive, this`exactCandidateStarted, this`budgetExhausted,
               this`stopFailed, this`restarts, this`idle, this`workloads, this`bench, this`stopped, this`curP,
               this`screened, this`unaffordable
      ensures Charged(old(failures), v)
      ensures old(now) <= now
      ensures v.Done? ==> Right(v.handed) && InTime(v.handed) && v.handed.pending.None? && stopped
      ensures !v.Done? ==> Searching() && Slack()
      ensures launch.mode == Auto ==> |measurements| == 1 || (!v.Next? && |measurements| == 2)
      ensures attempts == old(attempts) || attempts == old(attempts) + [cand.args]
      ensures Accounted(v, cand, attempts != old(attempts), |old(measurements)|)
      ensures Appended(old(measurements), cand)
    {
      hide Right, InTime, Score, StartupTimeout, PricedLoad, Inflate, Print, EstimateChallengerCost;
      var cost := Price(cand);
      var gate := Gate(cand, cost);
      if gate.Some? {
        return gate.value;
      }
      v := Displace(cand, cost);
    }

    /** Stop the baseline if it still serves, and admit the candidate in its place. */
    method Displace(cand: Candidate, cost: Cost) returns (v: Verdict)
      requires Searching() && Slack() && (launch.mode == Auto ==> |measurements| == 1)
      requires cost == Price(cand) && cost.Affordable(exp.Remaining(now)) && Planned(cand.name)
      modifies this`now, this`running, this`attempts, this`measurements, this`failures, this`stableAdmissionFailed,
               this`stableFailureClass, this`admissionInconclusive, this`exactCandidateStarted, this`budgetExhausted,
               this`stopFailed, this`restarts, this`idle, this`workloads, this`bench, this`stopped, this`curP
      ensures Charged(old(failures), v)
      ensures old(now) <= now
      ensures v.Done? ==> Right(v.handed) && InTime(v.handed) && v.handed.pending.None? && stopped
      ensures !v.Done? ==> Searching() && Slack()
      ensures launch.mode == Auto ==> |measurements| == 1 || (!v.Next? && |measurements| == 2)
      ensures attempts == (if v.Done? && attempts == old(attempts) then old(attempts) else old(attempts) + [cand.args])
      ensures Accounted(v, cand, attempts != old(attempts), |old(measurements)|)
      ensures Appended(old(measurements), cand)
    {
      hide Right, InTime, Score, StartupTimeout, PricedLoad, Inflate, Print;
      ghost var inputs := CostInputs(launch.baselineLoad, launch.loadObserved, workload, launch.Ceiling(),
                                     !launch.oracle && !cand.cachedEvidence, curP.Some?);
      ghost var before := now;
      if curP.Some? {
        var ok := StopAndWait(curP.value);
        stopped := true;
        if !ok {
          var h := AfterFailedRelease(curP.value);
          return Done(h);
        }
        curP := None;
      }
      if launch.prompt {
        ChallengerFits(exp, inputs, launch.timeout, before, now);
      }
      v := Admit(cand, cost);
    }

    /** Room for everything the candidate still has to pay for. */
    ghost predicate Fits(cost: Cost)
      reads this
    {
      && cost.restore == launch.Restore() && cost.workload >= 0 && cost.admission + cost.load >= 0
      && (launch.prompt ==> now + cost.admission + cost.load + cost.workload + cost.Reserve() <= exp.deadline)
    }

    /** From the exact start of a candidate to the release of its process. */
    method Admit(cand: Candidate, cost: Cost) returns (v: Verdict)
      requires Searching() && curP == None && (launch.mode == Auto ==> |measurements| == 1) && Fits(cost) && Planned(cand.name)
      modifies this`now, this`running, this`attempts, this`measurements, this`failures, this`stableAdmissionFailed,
               this`stableFailureClass, this`admissionInconclusive, this`exactCandidateStarted, this`budgetExhausted,
               this`stopFailed, this`restarts, this`idle, this`workloads, this`bench
      ensures Charged(old(failures), v)
      ensures old(now) <= now
      ensures v.Done? ==> Right(v.handed) && InTime(v.handed) && v.handed.pending.None? && stopped
      ensures !v.Done? ==> Searching() && Slack()
      ensures launch.mode == Auto ==> |measurements| == 1 || (!v.Next? && |measurements| == 2)
      ensures attempts == old(attempts) + [cand.args]
      ensures Accounted(v, cand, true, |old(measurements)|) && Appended(old(measurements), cand)
    {
      hide Right, InTime, Scored, Appended, Planned, Charged, Better, StartupTimeout, PricedLoad, Print, Inflate;
      ghost var before := measurements;
      Unappended(cand);
      var timeout := BoundedTimeout(launch.timeout, exp.Until(now, cost.workload + cost.Reserve()));
      var r := StartExact(cand.args, timeout);
      if r.Refused? {
        v := NoteRefusal(r);
      } else {
        v := Measure(cand, r.process, cost);
      }
      StaysScored(before, cand);
    }

    /** What was appended leaves the default in front, the scores in order, and a planned challenger second. */
    lemma StaysScored(before: seq<Measurement>, cand: Candidate)
      requires before != [] && Scored(before) && Appended(before, cand) && Planned(cand.name)
      requires |before| > 1 ==> Planned(before[1].name)
      ensures measurements != [] && measurements[0] == before[0] && Scored(measurements)
      ensures |measurements| > 1 ==> Planned(measurements[1].name)
      ensures |before| <= |measurements| <= |before| + 1
    {
    }

    method NoteRefusal(r: Started) returns (v: Verdict)
      requires r.Refused?
      modifies this`stableAdmissionFailed, this`stableFailureClass, this`admissionInconclusive, this`budgetExhausted,
               this`failures
      ensures !v.Done? && (r.budget ==> v == Stop && budgetExhausted && failures == old(failures))
      ensures Charged(old(failures), v)
      ensures !r.budget ==> failures == old(failures) + (if r.loadedWeights then 1 else 0)
      ensures !r.budget && !r.loadedWeights ==> v == Next
      ensures stableAdmissionFailed || admissionInconclusive
      ensures !r.budget && r.stable ==> stableAdmissionFailed && admissionInconclusive == old(admissionInconclusive)
      ensures !r.budget && r.stable ==> stableFailureClass == if old(stableFailureClass) == "" then r.kind else old(stableFailureClass)
      ensures !r.budget && !r.stable ==> admissionInconclusive && stableAdmissionFailed == old(stableAdmissionFailed)
      ensures v.Stop? ==> budgetExhausted || failures >= launch.MaxFailures()
    {
      if r.budget {
        v := OutOfTime();
        return;
      }
      if r.stable {
        NoteStable(r.kind);
      } else {
        admissionInconclusive := true;
      }
      if !r.loadedWeights {
        return Next;
      }
      v := Charge();
    }

    /** Nothing was measured, or the candidate, under its name and with its exact argv. */
    ghost predicate Appended(before: seq<Measurement>, cand: Candidate)
      reads this`measurements
    {
      || measurements == before
      || (|measurements| == |before| + 1 && measurements[..|before|] == before && measurements[|before|].name == cand.name
          && measurements[|before|].args == cand.args && before != []
          && Rated(measurements[|before|], before[0].result))
    }

    lemma Unappended(cand: Candidate)
      ensures Appended(measurements, cand)
    {
    }

    /** What was measured of a candidate, scored against the baseline. */
    method Record(cand: Candidate, args: Argv, result: Result)
      requires measurements != [] && args == cand.args
      modifies this`measurements
      ensures |measurements| == |old(measurements)| + 1 && Appended(old(measurements), cand)
      ensures measurements[|old(measurements)|].result == result
    {
      hide Score;
      measurements := measurements + [Measurement(cand.name, args, result, Score(result, measurements[0].result))];
    }

    /** A candidate is up: measure it if it is the exact one, and release it. */
    method Measure(cand: Candidate, p: Process, cost: Cost) returns (v: Verdict)
      requires stopped && Holds(Some(p)) && measurements != [] && cost.restore == launch.Restore()
      requires !winnerTried && !advised && exp.emergency == exp.deadline + launch.Cap()
      requires launch.prompt ==> now <= exp.deadline - cost.Reserve()
      modifies this`now, this`running, this`stopFailed, this`measurements, this`failures, this`stableAdmissionFailed,
               this`stableFailureClass, this`admissionInconclusive, this`exactCandidateStarted, this`budgetExhausted,
               this`restarts, this`idle, this`workloads, this`bench
      ensures Charged(old(failures), v)
      ensures old(now) <= now
      ensures v.Done? ==> Right(v.handed) && InTime(v.handed) && v.handed.pending.None?
      ensures !v.Done? ==> running == {} && Slack()
      ensures Accounted(v, cand, true, |old(measurements)|) && Appended(old(measurements), cand)
      ensures launch.mode == Auto && v.Next? ==> measurements == old(measurements)
      ensures exactCandidateStarted == (old(exactCandidateStarted) || cand.args == p.argv)
      ensures cand.args != p.argv ==> measurements == old(measurements) && stableAdmissionFailed
      ensures cand.args == p.argv ==> (|measurements| > |old(measurements)| <==> bench.Measured?)
      ensures cand.args == p.argv && bench.OutOfBudget? ==> v.Done? || (v == Stop && budgetExhausted)
      ensures !v.Done? ==> failures == old(failures) + if cand.args != p.argv || bench.Failed? then 1 else 0
    {
      hide Right, InTime, Appended, StartupTimeout, PricedLoad, Format;
      Unappended(cand);
      if Format(launch.wide, cand.args) != Format(launch.wide, p.argv) {
        NoteStable("memory-recovery-rewrote-argv");
        v := Release(p);
        if v.Next? {
          v := Charge();
        }
        return;
      }
      FormatInjective(launch.wide, cand.args, p.argv);
      exactCandidateStarted := true;
      v := MeasureExact(cand, p, cost);
    }

    /** The workload of the exact candidate, and its release. */
    method MeasureExact(cand: Candidate, p: Process, cost: Cost) returns (v: Verdict)
      requires stopped && Holds(Some(p)) && measurements != [] && cost.restore == launch.Restore()
      requires !winnerTried && !advised && exp.emergency == exp.deadline + launch.Cap()
      requires launch.prompt ==> now <= exp.deadline - cost.Reserve()
      requires cand.args == p.argv && exactCandidateStarted
      modifies this`now, this`running, this`stopFailed, this`measurements, this`failures, this`stableAdmissionFailed,
               this`admissionInconclusive, this`budgetExhausted, this`restarts, this`idle, this`workloads, this`bench
      ensures Charged(old(failures), v)
      ensures old(now) <= now
      ensures v.Done? ==> Right(v.handed) && InTime(v.handed) && v.handed.pending.None?
      ensures !v.Done? ==> running == {} && Slack()
      ensures Accounted(v, cand, true, |old(measurements)|) && Appended(old(measurements), cand)
      ensures launch.mode == Auto && v.Next? ==> measurements == old(measurements)
      ensures (|measurements| > |old(measurements)| <==> bench.Measured?)
      ensures bench.OutOfBudget? ==> v.Done? || (v == Stop && budgetExhausted)
      ensures !v.Done? ==> failures == old(failures) + if bench.Failed? then 1 else 0
    {
      hide Right, InTime, Appended, StartupTimeout, PricedLoad, Format;
      Unappended(cand);
      var b := Bench(Some(exp.deadline - cost.Reserve()));
      match b {
        case Measured(result) =>
          Record(cand, p.argv, result);
          v := Release(p);
          if v.Next? && launch.mode == Auto {
            v := Stop;
          }
        case OutOfBudget =>
          admissionInconclusive := true;
          v := Release(p);
          if v.Next? {
            budgetExhausted, v := true, Stop;
          }
        case Failed =>
          admissionInconclusive := true;
          v := Release(p);
          if v.Next? {
            v := Charge();
          }
      }
    }

    /** Stop a candidate; when that fails, hand back whatever can serve. */
    method Release(p: Process) returns (v: Verdict)
      requires Holds(Some(p)) && stopped && !winnerTried && !advised
      requires exp.emergency == exp.deadline + launch.Cap()
      requires launch.prompt ==> now <= exp.deadline - RELEASE_COST - launch.Restore()
      modifies this`now, this`running, this`stopFailed, this`restarts
      ensures old(now) <= now && (v.Done? ==> stopFailed)
      ensures v.Next? ==> running == {} && Slack()
      ensures !v.Next? ==> v.Done? && Right(v.handed) && InTime(v.handed) && v.handed.pending.None?
    {
      var ok := StopAndWait(p);
      if ok {
        return Next;
      }
      var alive := IsRunning(p);
      if alive {
        return Done(Handed(Some(p), p.argv, None));
      }
      var h := AfterFailedRelease(p);
      return Done(h);
    }

    /** Automatic mode ran out of time. */
    predicate OutOfBudgetInAuto()
      reads this`budgetExhausted
    {
      launch.mode == Auto && budgetExhausted
    }

    /** A search without a measured challenger says nothing to record: it was not cut off, and not every
        candidate was refused for good before it started. */
    predicate Worthless()
      reads this`budgetExhausted, this`stableAdmissionFailed, this`admissionInconclusive, this`exactCandidateStarted
    {
      !OutOfBudgetInAuto() && (!stableAdmissionFailed || admissionInconclusive || exactCandidateStarted)
    }

    /** A decision about a search without a measured challenger: the first finalist stays unmeasured when
        automatic mode ran out of time, and is unavailable when admission refused for good. */
    ghost predicate Undecided(d: Decision)
      reads this
    {
      && |candidates| >= 2 && d.winner == DEFAULT && d.finalist == candidates[1].name && !Worthless()
      && (OutOfBudgetInAuto() ==> d.outcome == Unmeasured && d.failureClass == if unaffordable then "restore-budget" else "elapsed-budget")
      && (!OutOfBudgetInAuto() ==> d.failureClass == stableFailureClass && (d.finalist != DEFAULT ==> d.outcome == Unavailable))
    }

    /** No challenger was measured: keep or restore the baseline. */
    method FinishUnmeasured() returns (h: Handed)
      requires Searching() && Slack() && |measurements| == 1
      modifies this`now, this`running, this`curP, this`restarts
      ensures Right(h) && InTime(h) && (!stopped ==> h.process == Some(launch.baseline))
      ensures h.pending.Some? ==> Undecided(h.pending.value)
      ensures h.pending.None? ==> h.process.None? || h.args != launch.baseline.argv || Worthless()
    {
      hide Format, Decide, Rated, StartupTimeout, PricedLoad, Inflate;
      if curP == None {
        var restored := RestoreBaseline();
        if restored.None? {
          return Handed(None, launch.baseline.argv, None);
        }
        curP := restored;
        var args := restored.value.argv;
        if Format(launch.wide, args) != Format(launch.wide, launch.baseline.argv) {
          return Handed(curP, args, None);
        }
        FormatInjective(launch.wide, args, launch.baseline.argv);
      }
      DecisionMeans(measurements[0], candidates, measurements);
      var pending := Decide(measurements[0], candidates, measurements);
      var outcome := Classify(launch.mode, budgetExhausted, stableAdmissionFailed, admissionInconclusive, exactCandidateStarted);
      match outcome {
        case BudgetBound =>
          pending := MarkUnmeasured(pending, launch.previous);
          if unaffordable {
            pending := pending.(failureClass := "restore-budget");
          }
        case Retry =>
          return Handed(curP, launch.baseline.argv, None);
        case AdmissionOnly =>
          pending := pending.(failureClass := stableFailureClass);
      }
      return Handed(curP, launch.baseline.argv, Some(pending));
    }

    method Compare() returns (best: Measurement)
      requires measurements != []
      ensures best == Best(measurements)
    {
      hide Better;
      best := measurements[0];
      for i := 1 to |measurements|
        invariant best == Best(measurements[..i])
      {
        assert measurements[..i + 1][..i] == measurements[..i];
        if Better(measurements[i], best) {
          best := measurements[i];
        }
      }
      assert measurements[..|measurements|] == measurements;
    }

    /** The advisor may move the choice to a measured near-tie of the winner. */
    method Choose() returns (best: Measurement, fatal: bool)
      requires Searching() && curP == None && Slack() && |measurements| > 1
      modifies this`now, this`running, this`advised, this`advice, this`refusedByAdvisor, this`answer
      ensures old(now) <= now && running == {} && (fatal <==> refusedByAdvisor)
      ensures fatal <==> advised && answer.Fatal?
      ensures advice == if advised && answer.Selected? then Some(answer.name) else None
      ensures advised <==> launch.mode == On && measurements[0].result.parallel <= 1 && exp.Remaining(old(now)) >= ADVISOR_BOUND
      ensures best == Pick(measurements, advice) && Serves(best, measurements, advice) && (!advised ==> advice.None?)
      ensures best.score >= Best(measurements).score * 0.97 >= 0.97
      ensures launch.prompt ==> now <= if advised then exp.deadline + HELPER_RELEASE_WAIT + RELEASE_COST
                                                  else LatestRestoring(exp, launch.Restore())
    {
      hide Better, StartupTimeout, PricedLoad;
      fatal := false;
      best := Compare();
      if launch.mode == On && measurements[0].result.parallel <= 1 && exp.Remaining(now) >= ADVISOR_BOUND {
        var said := Advise();
        advised := true;
        if said.Fatal? {
          refusedByAdvisor, fatal := true, true;
        } else if said.Selected? {
          advice := Some(said.name);
          best := NearTie(said.name, best);
        }
      }
      PickScore(measurements, advice);
      PickServes(measurements, advice);
    }

    /** The first measurement of that name, if and only if it scores within three percent of the winner. */
    method NearTie(name: string, best: Measurement) returns (chosen: Measurement)
      ensures chosen == NearTied(measurements, name, best)
    {
      for i := 0 to |measurements|
        invariant forall j :: 0 <= j < i ==> measurements[j].name != name
      {
        if measurements[i].name == name {
          return if measurements[i].score >= best.score * 0.97 then measurements[i] else best;
        }
      }
      return best;
    }

    /** Restart the winner in a window that leaves room for the baseline, and the baseline if that fails. */
    method Serve(best: Measurement) returns (failed: bool)
      requires running == {} && exp.emergency == exp.deadline + launch.Cap() && !winnerTried
      requires launch.prompt ==> now <= if advised then exp.deadline + HELPER_RELEASE_WAIT + RELEASE_COST
                                                  else LatestRestoring(exp, launch.Restore())
      modifies this`now, this`running, this`curP, this`winnerTried, this`restarts
      ensures Just(curP) && winnerTried == (best.name != DEFAULT) && (failed ==> winnerTried)
      ensures winnerTried && Restartable(old(now), launch.Floor() + RELEASE_COST, 0) ==> old(restarts) + [best.args] <= restarts
      ensures curP.Some? ==> restarts != []
      ensures curP.Some? ==> restarts[|restarts| - 1] == if winnerTried && !failed then best.args else launch.baseline.argv
      ensures launch.InBounds() ==>
                && curP.Some? && now <= exp.emergency
                && (!winnerTried && !advised ==> now <= exp.deadline + Excess(launch.restoreTime, launch.Restore()))
    {
      failed := false;
      curP := None;
      if best.name != DEFAULT {
        winnerTried := true;
        curP := RestoreService(best.args, launch.Floor() + RELEASE_COST, 0);
        failed := curP.None?;
      }
      if curP == None {
        curP := RestoreBaseline();
      }
    }

    /** What is handed back once something serves for best, or for the baseline after a failed restart. */
    method Conclude(winner: Measurement, failed: bool) returns (h: Handed)
      requires |candidates| >= 2 && |measurements| > 1 && Just(curP) && winner == chosen && winner in measurements
      requires winner.score >= 0.97 && Serves(winner, measurements, advice) && (!advised ==> advice.None?)
      requires (failed ==> winnerTried) && Planned(measurements[1].name)
      requires measurements[0].name == DEFAULT && measurements[0].args == launch.baseline.argv && measurements[0].score == 1.0
      ensures Right(h) && Explained(h) && h.process == curP
    {
      hide Format, Decide, Serves, Scored, InTime;
      var best := if failed then measurements[0] else winner;
      if curP == None {
        return Handed(None, best.args, None);
      }
      var args := curP.value.argv;
      if Format(launch.wide, args) != Format(launch.wide, best.args) {
        return Handed(curP, args, None);
      }
      FormatInjective(launch.wide, args, best.args);
      DecisionMeans(best, candidates, measurements);
      var pending := Decide(best, candidates, measurements);
      if failed {
        if launch.mode != Auto {
          return Handed(curP, launch.baseline.argv, None);
        }
        pending := MarkUnmeasured(pending, launch.previous).(failureClass := "winner-restart");
        return Handed(curP, launch.baseline.argv, Some(pending));
      }
      return Handed(curP, best.args, Some(pending));
    }

    /** A challenger was measured: put the winner, or failing that the baseline, into service. */
    method FinishMeasured() returns (h: Handed)
      requires Searching() && Slack() && |measurements| > 1
      modifies this`now, this`running, this`curP, this`advised, this`advice, this`refusedByAdvisor, this`answer,
               this`winnerTried, this`chosen, this`restarts
      ensures Right(h) && InTime(h) && Explained(h)
    {
      hide Best, Scored, Pick, Serves, Undecided, Worthless, StartupTimeout, PricedLoad, Inflate;
      var best, fatal := Choose();
      chosen := best;
      if fatal {
        return Handed(None, launch.baseline.argv, None);
      }
      var failed := Serve(best);
      h := Conclude(best, failed);
    }

    /** The baseline is measured in place, without a deadline. */
    method MeasureBaseline() returns (b: Benched, ghost began: int)
      modifies this`now, this`running, this`exp, this`workload, this`idle, this`workloads, this`bench
      ensures old(now) <= now && running <= old(running)
      ensures exp.emergency == exp.deadline + launch.Cap() && exp.deadline == old(now) + launch.Budget()
      ensures old(now) <= began && workload == now - began
    {
      exp := NewExperiment(now, launch.Budget(), launch.Cap());
      if launch.mode == Auto {
        Pass(None);
      }
      var start := now;
      began := start;
      b := Bench(None);
      workload := now - start;
    }

    /** The search is over: every candidate was taken up, or it ran out of time or failures, or automatic
        mode has its one measurement. */
    ghost predicate Finished()
      reads this
    {
      considered == |candidates| - 1 || budgetExhausted || failures >= launch.MaxFailures() ||
      (launch.mode == Auto && |measurements| == 2)
    }

    /** The candidate loop: something to hand back, or a finished search. */
    method Search() returns (early: Option<Handed>)
      requires Searching() && Slack() && |measurements| == 1 && failures == 0 && considered == 0
      modifies this`now, this`running, this`attempts, this`measurements, this`failures, this`stableAdmissionFailed,
               this`stableFailureClass, this`admissionInconclusive, this`exactCandidateStarted, this`budgetExhausted,
               this`stopFailed, this`restarts, this`idle, this`workloads, this`bench, this`stopped, this`curP,
               this`screened, this`unaffordable, this`considered
      ensures early.Some? ==> stopFailed && early.value.pending.None?
      ensures early.None? ==> Finished()
      ensures failures <= launch.MaxFailures() && (launch.mode == Auto ==> |measurements| <= 2)
      ensures early.Some? ==> Right(early.value) && InTime(early.value) && stopped
      ensures early.None? ==> Searching() && Slack()
    {
      hide Right, InTime, Scored, Appended, StartupTimeout, PricedLoad;
      var i := 1;
      while i < |candidates|
        invariant 1 <= i <= |candidates| && Searching() && Slack() && failures < launch.MaxFailures()
        invariant launch.mode == Auto ==> |measurements| == 1
        invariant considered == i - 1
      {
        considered := considered + 1;
        var v := TryCandidate(candidates[i]);
        if v.Done? {
          return Some(v.handed);
        }
        if v.Stop? {
          break;
        }
        i := i + 1;
      }
      early := None;
    }

    /** Why no decision is pending, if none is; and what a pending one is about. */
    ghost predicate Explained(h: Handed)
      reads this
    {
      match h.pending
      case None =>
        || stopFailed || refusedByAdvisor || h.process.None?
        || (|measurements| == 1 && (h.args != launch.baseline.argv || Worthless()))
        || (|measurements| > 1 && (h.args != chosen.args ||
              (winnerTried && (launch.mode == On || h.args != launch.baseline.argv))))
      case Some(d) =>
        if |measurements| <= 1 then Undecided(d)
        else
          && d.finalist == measurements[1].name
          && if d.outcome == Unmeasured then winnerTried
             else
               && d.winner == chosen.name && h.args == chosen.args && Serves(chosen, measurements, advice)
               && (!advised ==> advice.None?)
               && d.outcome == (if d.winner == d.finalist then Promoted else BaselineWon)
    }

    /** From the measured baseline on. */
    method Explore(result: Result) returns (h: Handed)
      requires |candidates| >= 2 && Holds(Some(launch.baseline)) && curP == Some(launch.baseline) && failures == 0
      requires !stopped && !advised && advice.None? && !refusedByAdvisor && !winnerTried && considered == 0 && !stopFailed
      requires exp.emergency == exp.deadline + launch.Cap()
      modifies this`now, this`running, this`attempts, this`measurements, this`failures, this`stableAdmissionFailed,
               this`stableFailureClass, this`admissionInconclusive, this`exactCandidateStarted, this`budgetExhausted,
               this`stopFailed, this`restarts, this`idle, this`workloads, this`bench, this`stopped, this`curP,
               this`screened, this`unaffordable, this`considered, this`advised, this`advice, this`refusedByAdvisor,
               this`answer, this`winnerTried, this`chosen, this`baselined
      ensures Right(h) && InTime(h) && (!stopped ==> h.process == Some(launch.baseline))
      ensures baselined && Explained(h) && (stopFailed || Finished())
      ensures failures <= launch.MaxFailures() && (launch.mode == Auto ==> |measurements| <= 2)
    {
      hide Right, InTime, Best, Scored, Serves, Undecided, Worthless, StartupTimeout, PricedLoad;
      FirstScored(Measurement(DEFAULT, launch.baseline.argv, result, 1.0));
      measurements := [Measurement(DEFAULT, launch.baseline.argv, result, 1.0)];
      baselined := true;
      var early := Search();
      if early.Some? {
        return early.value;
      }
      if |measurements| < 2 {
        h := FinishUnmeasured();
      } else {
        h := FinishMeasured();
      }
    }

    lemma Untouched()
      requires !stopped && running <= {launch.baseline}
      ensures Right(Handed(Some(launch.baseline), launch.baseline.argv, None))
      ensures InTime(Handed(Some(launch.baseline), launch.baseline.argv, None))
    {
    }

    /** runCalibration: whatever stops, starts, benches and the advisor answer. */
    method RunCalibration() returns (h: Handed)
      requires Fresh()
      modifies this
      ensures Right(h) && InTime(h)
      ensures !stopped ==> h.process == Some(launch.baseline)
      ensures if baselined then Explained(h) && (stopFailed || Finished())
              else h == Handed(Some(launch.baseline), launch.baseline.argv, None)
      ensures baselined <==> |launch.candidates| >= 2 && baselineBench.Some? && baselineBench.value.Measured?
      ensures |launch.candidates| >= 2 ==> baselineBench.Some?
      ensures candidates == Redirected(launch.candidates, redirected)
      ensures |redirected| <= if launch.mode == Auto then 2 else 0
      ensures failures <= launch.MaxFailures() && (launch.mode == Auto ==> |measurements| <= 2)
    {
      hide Explained, Finished, Right, InTime, StartupTimeout, PricedLoad;
      candidates := launch.candidates;
      if |candidates| < 2 {
        Untouched();
        return Handed(Some(launch.baseline), launch.baseline.argv, None);
      }
      var b, _ := MeasureBaseline();
      baselineBench := Some(b);
      if !b.Measured? {
        Untouched();
        return Handed(Some(launch.baseline), launch.baseline.argv, None);
      }
      h := Challenge(b.result);
    }

    /** With a measured baseline: name the finalists, and search. */
    method Challenge(result: Result) returns (h: Handed)
      requires |candidates| >= 2 && Holds(Some(launch.baseline)) && curP == Some(launch.baseline) && failures == 0
      requires !stopped && !advised && advice.None? && !refusedByAdvisor && !winnerTried && considered == 0 && !stopFailed
      requires exp.emergency == exp.deadline + launch.Cap() && redirected == []
      modifies this`now, this`running, this`attempts, this`measurements, this`failures, this`stableAdmissionFailed,
               this`stableFailureClass, this`admissionInconclusive, this`exactCandidateStarted, this`budgetExhausted,
               this`stopFailed, this`restarts, this`idle, this`workloads, this`bench, this`stopped, this`curP,
               this`screened, this`unaffordable, this`considered, this`advised, this`advice, this`refusedByAdvisor,
               this`answer, this`winnerTried, this`chosen, this`baselined,
               this`candidates, this`redirected
      ensures Right(h) && InTime(h) && (!stopped ==> h.process == Some(launch.baseline))
      ensures baselined && Explained(h) && (stopFailed || Finished())
      ensures failures <= launch.MaxFailures() && (launch.mode == Auto ==> |measurements| <= 2)
      ensures candidates == Redirected(old(candidates), redirected)
      ensures |redirected| <= if launch.mode == Auto then 2 else 0
    {
      hide Explained, Finished, Right, InTime, StartupTimeout, PricedLoad;
      if launch.mode == Auto {
        Redirect();
      }
      h := Explore(result);
    }

    /** The measured bottlenecks of the baseline may move another finalist to the front, twice. */
    method Redirect()
      requires |candidates| >= 2 && redirected == []
      modifies this`candidates, this`redirected
      ensures |candidates| >= 2 && |redirected| <= 2 && candidates == Redirected(old(candidates), redirected)
    {
      for turn := 0 to 2
        invariant |candidates| >= 2 && |redirected| <= turn && candidates == Redirected(old(candidates), redirected)
      {
        var found: Option<Candidate> := *;
        if found.Some? {
          ghost var more := redirected + [found.value];
          assert more[..|redirected|] == redirected;
          redirected := more;
          candidates := Prioritize(candidates, found.value);
        }
      }
    }
  }

  /** Candidates after some finalists were put first, one after the other. */
  function Redirected(cands: seq<Candidate>, found: seq<Candidate>): seq<Candidate> {
    if found == [] then cands else Prioritize(Redirected(cands, found[..|found| - 1]), found[|found| - 1])
  }
}
