/** The clock and the prices of an optimization experiment: go/cmd/ggrun/calibrate_cost.go and the
    durations of calibrate.go, launch_work.go and main.go it uses. Durations are whole nanoseconds. */
module CalibrationCost {
  import opened Numbers

  const SECOND: int := 1_000_000_000
  const MINUTE: int := 60 * SECOND
  const RELEASE_COST: int := 60 * SECOND
  const ORACLE_ADMISSION_COST: int := 30 * SECOND
  /** How long the advisor's helper may take to let go of its memory. */
  const HELPER_RELEASE_WAIT: int := 30 * SECOND
  const ADVISOR_BOUND: int := 5 * MINUTE + HELPER_RELEASE_WAIT + RELEASE_COST
  const MIN_USEFUL_LOAD_WINDOW: int := SECOND
  /** remaining <= 3s ends the search and refuses a measurement. */
  const TOO_LATE: int := 3 * SECOND

  /** time.Duration(float64(d) * 1.25). */
  function Inflate(d: int): (r: int)
    requires d >= 0
    ensures 4 * r <= 5 * d < 4 * r + 4
  {
    d * 5 / 4
  }

  /** autoStartupTimeout of a model of sizeBytes bytes. */
  function StartupTimeout(sizeBytes: nat, isMoE: bool): (r: int)
    ensures r >= 480 * SECOND
    ensures isMoE && sizeBytes > 0x19_0000_0000 ==> r == 30 * MINUTE
    ensures !(isMoE && sizeBytes > 0x19_0000_0000) ==>
              var s := r / SECOND - 480; r == (480 + s) * SECOND && 850 * s * 0x10_0000 <= sizeBytes < 850 * (s + 1) * 0x10_0000
  {
    if isMoE && sizeBytes > 100 * 1024 * 1024 * 1024 then 1800 * SECOND
    else (480 + 2 * sizeBytes / (1700 * 1024 * 1024)) * SECOND
  }

  function RestartWindow(ceiling: int): int { 2 * ceiling }

  /** calibrationExperiment: fixed when the experiment starts. */
  datatype Experiment = Experiment(started: int, deadline: int, emergency: int) {
    function Remaining(now: int): int { deadline - now }
    function Until(now: int, reserve: int): int { Remaining(now) - reserve }

    /** A restart's window: what the emergency deadline leaves beside keep, up to the cap; but no less than a
        positive floor, as far as the cap allows. */
    function ServiceWindow(now: int, cap: int, keep: int, floor: int): (w: int)
      ensures w <= cap
      ensures now + keep + w <= emergency || (floor > 0 && w <= Max(floor, MIN_USEFUL_LOAD_WINDOW))
      ensures w in {cap, emergency - now - keep, floor, MIN_USEFUL_LOAD_WINDOW}
      ensures w >= Min(cap, emergency - now - keep)
      ensures floor > Min(cap, emergency - now - keep) > 0 ==> w >= Min(Max(floor, MIN_USEFUL_LOAD_WINDOW), cap)
    {
      var window := Min(cap, emergency - now - keep);
      if floor > 0 && window < floor then Min(Max(floor, MIN_USEFUL_LOAD_WINDOW), cap) else window
    }
  }

  function NewExperiment(now: int, budget: int, grace: int): Experiment {
    Experiment(now, now + budget, now + budget + grace)
  }

  datatype CostInputs = CostInputs(baselineLoad: int, baselineLoadObserved: bool, baselineWorkload: nat,
                                   ceiling: nat, probeNeeded: bool, baselineRunning: bool)

  datatype Cost = Cost(admission: int, load: int, workload: int, release: int, restore: int) {
    function Total(): int { admission + load + workload + release + restore }
    predicate Affordable(remaining: int) { Total() <= remaining }
    function Reserve(): int { RELEASE_COST + restore }
  }

  /** The load an experiment is priced at. */
  function PricedLoad(baselineLoad: int, observed: bool, ceiling: nat): (r: int)
    ensures 0 <= r
    ensures baselineLoad <= ceiling ==> 4 * r <= 5 * ceiling
    ensures observed && baselineLoad > 0 ==> 4 * r <= 5 * baselineLoad < 4 * r + 4
    ensures !(observed && baselineLoad > 0) ==> 4 * r <= 5 * ceiling < 4 * r + 4
  {
    Inflate(if !observed || baselineLoad <= 0 then ceiling else baselineLoad)
  }

  function EstimateChallengerCost(inputs: CostInputs): (c: Cost)
    ensures c.load == c.restore == PricedLoad(inputs.baselineLoad, inputs.baselineLoadObserved, inputs.ceiling)
    ensures c.admission == (if inputs.probeNeeded then c.load else ORACLE_ADMISSION_COST)
    ensures c.release == RELEASE_COST + (if inputs.baselineRunning then RELEASE_COST else 0)
    ensures 4 * c.workload <= 5 * inputs.baselineWorkload < 4 * c.workload + 4
  {
    var load := PricedLoad(inputs.baselineLoad, inputs.baselineLoadObserved, inputs.ceiling);
    Cost(if inputs.probeNeeded then load else ORACLE_ADMISSION_COST, load, Inflate(inputs.baselineWorkload),
         if inputs.baselineRunning then 2 * RELEASE_COST else RELEASE_COST, load)
  }

  /** boundedCalibrationTimeout. */
  function BoundedTimeout(configured: int, remaining: int): (t: int)
    ensures t <= remaining && (configured > 0 ==> t <= configured) && (t == remaining || t == configured)
  {
    if configured <= 0 || configured > remaining then remaining else configured
  }

  /** The baseline's priced restoration: its admission and its load. */
  function RestoreFloor(restore: int): int { ORACLE_ADMISSION_COST + restore }

  /** A challenger that was affordable when the baseline stop began, and whose stop took no longer than
      its price, gets its whole admission and load, or the configured timeout if that is shorter; if it
      uses all its time and then runs its workload, the release and restoration still fit. */
  lemma ChallengerFits(exp: Experiment, inputs: CostInputs, configured: int, before: int, after: int)
    requires var cost := EstimateChallengerCost(inputs); cost.Affordable(exp.Remaining(before))
    requires before <= after <= before + (if inputs.baselineRunning then RELEASE_COST else 0)
    ensures var cost := EstimateChallengerCost(inputs);
            var timeout := BoundedTimeout(configured, exp.Until(after, cost.workload + cost.Reserve()));
            && timeout >= (if configured > 0 then Min(configured, cost.admission + cost.load) else cost.admission + cost.load)
            && after + timeout + cost.workload + RELEASE_COST + cost.restore <= exp.deadline
  {
  }

  /** After a winner restart was tried in its window and failed, its release included, the baseline's
      window is its priced restoration or a whole restart window, and ends by the emergency deadline. */
  lemma WinnerLeavesRestoration(exp: Experiment, cap: int, floor: int, tried: int, failed: int)
    requires cap >= floor > 0
    requires var window := exp.ServiceWindow(tried, cap, floor + RELEASE_COST, 0);
             window >= MIN_USEFUL_LOAD_WINDOW && tried <= failed <= tried + window + RELEASE_COST
    ensures floor <= exp.ServiceWindow(failed, cap, 0, floor) <= cap
    ensures failed + exp.ServiceWindow(failed, cap, 0, floor) <= exp.emergency
  {
  }

  // When the baseline is back.

  /** How long the steps of one challenger took, from the affordability check on: the baseline's stop, the
      start, the workload and the release. */
  datatype Course = Course(checked: int, stop: int, start: int, work: int, release: int) {
    function Up(): int { checked + stop + start }
    /** When restoring the baseline can begin. */
    function RestoringAt(): int { Up() + work + release }
  }

  /** Every step stays within what it is given: releases their price, the start its timeout, and the
      workload, which runs only if enough time is left, the deadline that keeps the reserve. */
  predicate WithinPrice(exp: Experiment, inputs: CostInputs, configured: int, c: Course) {
    var cost := EstimateChallengerCost(inputs);
    var until := exp.deadline - cost.Reserve();
    && cost.Affordable(exp.Remaining(c.checked))
    && 0 <= c.stop <= (if inputs.baselineRunning then RELEASE_COST else 0)
    && 0 <= c.start <= BoundedTimeout(configured, exp.Until(c.checked + c.stop, cost.workload + cost.Reserve()))
    && 0 <= c.work && (c.work > 0 ==> until - c.Up() > TOO_LATE && c.Up() + c.work <= until)
    && 0 <= c.release <= RELEASE_COST
  }

  /** The latest moment at which restoring the baseline begins. */
  function LatestRestoring(exp: Experiment, restore: int): int {
    exp.deadline - restore
  }

  /** What a restoration takes beyond its priced load. */
  function Excess(restoreTime: int, restore: int): int {
    Max(0, restoreTime - restore)
  }

  lemma RestoringBegins(exp: Experiment, inputs: CostInputs, configured: int, c: Course)
    requires WithinPrice(exp, inputs, configured, c)
    ensures c.RestoringAt() <= LatestRestoring(exp, EstimateChallengerCost(inputs).restore)
  {
  }

  /** A course that uses all of it: the workload runs until only the reserve is left. */
  function FullCourse(exp: Experiment, inputs: CostInputs): Course {
    var cost := EstimateChallengerCost(inputs);
    var checked := exp.deadline - cost.Total() - TOO_LATE - 1;
    Course(checked, 0, 0, exp.deadline - cost.Reserve() - checked, RELEASE_COST)
  }

  lemma FullCourseWithin(exp: Experiment, inputs: CostInputs, configured: int)
    ensures WithinPrice(exp, inputs, configured, FullCourse(exp, inputs))
    ensures FullCourse(exp, inputs).RestoringAt() == LatestRestoring(exp, EstimateChallengerCost(inputs).restore)
  {
  }

  /** The baseline is back by the deadline whatever an affordable challenger within its bounds does. */
  ghost predicate AlwaysBack(exp: Experiment, inputs: CostInputs, configured: int, restoreTime: int) {
    forall c :: WithinPrice(exp, inputs, configured, c) ==> c.RestoringAt() + restoreTime <= exp.deadline
  }

  /** It is if and only if a restoration takes no longer than the priced load. */
  lemma BackByDeadline(exp: Experiment, inputs: CostInputs, configured: int, restoreTime: int)
    ensures AlwaysBack(exp, inputs, configured, restoreTime) <==> restoreTime <= EstimateChallengerCost(inputs).restore
  {
    hide WithinPrice;
    var restore := EstimateChallengerCost(inputs).restore;
    FullCourseWithin(exp, inputs, configured);
    if restoreTime <= restore {
      forall c | WithinPrice(exp, inputs, configured, c) ensures c.RestoringAt() + restoreTime <= exp.deadline {
        RestoringBegins(exp, inputs, configured, c);
      }
    } else {
      assert FullCourse(exp, inputs).RestoringAt() + restoreTime > exp.deadline;
    }
  }

  /** The promise fails for a restoration that takes exactly what the controller itself prices it at, its
      admission included: some challenger within its bounds leaves the baseline back that admission late. */
  lemma PricedRestorationLate(exp: Experiment, inputs: CostInputs, configured: int)
    ensures var floor := RestoreFloor(EstimateChallengerCost(inputs).restore);
            && !AlwaysBack(exp, inputs, configured, floor)
            && Excess(floor, EstimateChallengerCost(inputs).restore) == ORACLE_ADMISSION_COST
            && exists c :: WithinPrice(exp, inputs, configured, c) &&
                 c.RestoringAt() + floor == exp.deadline + ORACLE_ADMISSION_COST
  {
    hide WithinPrice;
    FullCourseWithin(exp, inputs, configured);
    BackByDeadline(exp, inputs, configured, RestoreFloor(EstimateChallengerCost(inputs).restore));
  }

  /** It fails without any slack in the clock as well: an experiment priced to the last nanosecond whose
      steps all take their price. */
  lemma PricedToTheEnd(exp: Experiment, inputs: CostInputs, checked: int, restoreTime: int)
    requires inputs.baselineRunning && EstimateChallengerCost(inputs).Total() == exp.Remaining(checked)
    ensures var cost := EstimateChallengerCost(inputs);
            var c := Course(checked, RELEASE_COST, cost.admission + cost.load, cost.workload, RELEASE_COST);
            && (cost.workload > TOO_LATE ==> WithinPrice(exp, inputs, 0, c))
            && c.RestoringAt() == LatestRestoring(exp, cost.restore)
            && (c.RestoringAt() + restoreTime <= exp.deadline <==> restoreTime <= cost.restore)
  {
  }
}
