/** What the calibration controller measures, compares and records: the pure parts of
    go/cmd/ggrun/calibrate.go. */
module CalibrationDecision {
  import opened Options
  import opened CommandText

  datatype Mode = Auto | On

  /** A planned placement, with the argv it builds. */
  datatype Candidate = Candidate(name: string, args: Argv, cachedEvidence: bool)

  /** The measured workload of one process. worst is the slowest confirmation sample, turn the makespan. */
  datatype Result = Result(turn: real, worst: real, prompt: real, gen: real, mixed: real,
                           samples: nat, lanes: int, promptBytes: int, genTokens: int, parallel: int)

  datatype Measurement = Measurement(name: string, args: Argv, result: Result, score: real)

  datatype FinalistOutcome = Unavailable | Promoted | BaselineWon | Unmeasured

  datatype Decision = Decision(winner: string, finalist: string, outcome: FinalistOutcome,
                               failureClass: string, attempts: nat)

  const DEFAULT := "default"

  /** Two results of one workload: both with confirmation samples or both without, over as many lanes, and
      with samples from the same prompts to as many tokens. */
  predicate SameWorkload(r: Result, base: Result) {
    && (r.samples > 0 <==> base.samples > 0) && r.lanes == base.lanes
    && (r.samples > 0 ==> r.promptBytes == base.promptBytes && r.genTokens == base.genTokens)
  }

  /** calibrationScore: the baseline's makespan over the candidate's, when the two ran the same workload. */
  function Score(r: Result, base: Result): (s: real)
    ensures SameWorkload(r, base) && r.turn > 0.0 && base.turn > 0.0 ==> s > 0.0 && s * r.turn == base.turn
    ensures !(SameWorkload(r, base) && r.turn > 0.0 && base.turn > 0.0) ==> s == 0.0
  {
    if (r.samples > 0) != (base.samples > 0) || r.lanes != base.lanes ||
       (r.samples > 0 && (r.promptBytes != base.promptBytes || r.genTokens != base.genTokens)) ||
       base.turn <= 0.0 || r.turn <= 0.0
    then 0.0
    else base.turn / r.turn
  }

  predicate PhaseHolds(candidate: real, current: real) {
    current > 0.0 ==> candidate >= current * 0.95
  }

  /** calibrationCandidateBetter. */
  predicate Better(candidate: Measurement, current: Measurement) {
    && candidate.score > 0.0 && current.score > 0.0
    && candidate.score > current.score * 1.03
    && PhaseHolds(candidate.result.prompt, current.result.prompt)
    && PhaseHolds(candidate.result.gen, current.result.gen)
    && PhaseHolds(candidate.result.mixed, current.result.mixed)
    && (candidate.result.samples > 0 ==> candidate.result.worst <= current.result.worst)
  }

  /** The winner of the comparison loop. */
  function Best(ms: seq<Measurement>): (b: Measurement)
    requires ms != []
    ensures b in ms
    ensures b == ms[0] || b.score > ms[0].score * 1.03
  {
    var n := |ms| - 1;
    if n == 0 then ms[0]
    else
      var b := Best(ms[..n]);
      if Better(ms[n], b) then ms[n] else b
  }

  /** Where the first measurement of a name stands, or the number of measurements. */
  function FirstNamed(ms: seq<Measurement>, name: string): (i: nat)
    ensures i <= |ms| && (i < |ms| ==> ms[i].name == name)
    ensures forall j :: 0 <= j < i ==> ms[j].name != name
  {
    if ms == [] || ms[0].name == name then 0 else 1 + FirstNamed(ms[1..], name)
  }

  /** The first measurement of the advisor's name if it reaches 97 percent of the winner's score, else the
      winner. */
  function NearTied(ms: seq<Measurement>, name: string, best: Measurement): Measurement {
    var i := FirstNamed(ms, name);
    if i < |ms| && ms[i].score >= best.score * 0.97 then ms[i] else best
  }

  /** The measurement that is to serve, with or without an advisor's selection. */
  function Pick(ms: seq<Measurement>, advice: Option<string>): (m: Measurement)
    requires ms != []
    ensures m in ms
  {
    if advice.Some? then NearTied(ms, advice.value, Best(ms)) else Best(ms)
  }

  /** The choice is never more than three percent below the comparison's winner; and it is slower than the
      measured default if and only if the advisor names a measurement in that band below the default. */
  lemma PickScore(ms: seq<Measurement>, advice: Option<string>)
    requires ms != [] && ms[0].score > 0.0
    ensures Pick(ms, advice).score >= Best(ms).score * 0.97
    ensures Pick(ms, advice).score < ms[0].score <==>
              advice.Some? && FirstNamed(ms, advice.value) < |ms| &&
              Best(ms).score * 0.97 <= ms[FirstNamed(ms, advice.value)].score < ms[0].score
  {
    hide Best, FirstNamed;
    var b := Best(ms).score;
    assert b >= ms[0].score > 0.0;
    assert b >= b * 0.97;
  }

  /** That happens: with any measurement of 0.97 to 1 beside the default, an advisor that names it has the
      slower one served. */
  lemma SlowerServed(base: Measurement, other: Measurement)
    requires base.name == DEFAULT && base.score == 1.0 && other.name != DEFAULT && 0.97 <= other.score < 1.0
    ensures Best([base, other]) == base && Pick([base, other], Some(other.name)) == other
  {
    var ms := [base, other];
    assert ms[..1] == [base] && !Better(other, base);
    assert ms[1..] == [other];
    assert FirstNamed(ms, other.name) == 1 + FirstNamed([other], other.name);
  }

  // What winning means, in makespans, phases and samples.

  /** A measurement's score is how many times faster than the baseline it is, and zero if the two cannot be
      compared. */
  predicate Rated(m: Measurement, base: Result) {
    if SameWorkload(m.result, base) && m.result.turn > 0.0 && base.turn > 0.0
    then m.score > 0.0 && m.score * m.result.turn == base.turn
    else m.score == 0.0
  }

  /** Measurements as the candidate loop appends them, the default's first. */
  predicate Scored(ms: seq<Measurement>) {
    ms != [] && ms[0].score == 1.0 && forall i :: 1 <= i < |ms| ==> Rated(ms[i], ms[0].result)
  }

  lemma FirstScored(m: Measurement)
    requires m.score == 1.0
    ensures Scored([m])
  {
  }

  /** More than three percent faster on the same workload, no phase slower by more than five percent, and
      the slowest sample no slower. */
  predicate Improves(r: Result, on: Result) {
    && SameWorkload(r, on) && 0.0 < r.turn && r.turn * 1.03 < on.turn
    && KeepsPhases(r, on, 0.95)
    && (r.samples > 0 ==> r.worst <= on.worst)
  }

  /** Every phase that was measured keeps at least this part of its speed. */
  predicate KeepsPhases(r: Result, on: Result, part: real) {
    && (on.prompt > 0.0 ==> r.prompt >= on.prompt * part)
    && (on.gen > 0.0 ==> r.gen >= on.gen * part)
    && (on.mixed > 0.0 ==> r.mixed >= on.mixed * part)
  }

  lemma FasterScore(s: real, t: real, s': real, t': real, base: real)
    requires t > 0.0 && t' > 0.0 && s > 0.0 && s' > 0.0 && base > 0.0 && s * t == base && s' * t' == base
    ensures s > s' * 1.03 <==> t * 1.03 < t'
    ensures s >= s' * 0.97 <==> t * 0.97 <= t'
  {
    Scaled(s, s' * 1.03, t);
    Scaled(t', t * 1.03, s');
    assert (s' * 1.03) * t == s' * (t * 1.03);
    Scaled(s, s' * 0.97, t);
    Scaled(t', t * 0.97, s');
    assert (s' * 0.97) * t == s' * (t * 0.97);
  }

  lemma Scaled(a: real, b: real, x: real)
    requires x > 0.0
    ensures a > b <==> a * x > b * x
    ensures a >= b <==> a * x >= b * x
  {
  }

  /** The test of the comparison loop compares measurements, not just scores. */
  lemma BetterMeans(c: Measurement, current: Measurement, base: Measurement)
    requires base.score == 1.0 && Rated(c, base.result)
    requires current == base || (Rated(current, base.result) && current.score > 0.0)
    ensures Better(c, current) <==> Improves(c.result, current.result)
  {
    var b := base.result.turn;
    if c.score > 0.0 && b > 0.0 {
      FasterScore(c.score, c.result.turn, current.score, current.result.turn, b);
    }
  }

  /** Measurement w wins: it improves on the winner of those before it, and none after it improves on it. */
  ghost predicate Wins(ms: seq<Measurement>, w: nat)
    decreases w
  {
    && w < |ms| && (forall i :: w < i < |ms| ==> !Improves(ms[i].result, ms[w].result))
    && (w == 0 || exists v :: 0 <= v < w && Wins(ms[..w], v) && Improves(ms[w].result, ms[v].result))
  }

  lemma {:induction false} OneWins(ms: seq<Measurement>, w: nat, v: nat)
    requires Wins(ms, w) && Wins(ms, v)
    ensures w == v
    decreases w + v, w
  {
    if w < v {
      var u :| 0 <= u < v && Wins(ms[..v], u) && Improves(ms[v].result, ms[u].result);
      assert ms[..v][..w] == ms[..w];
      OneWins(ms[..v], w, u);
    } else if v < w {
      OneWins(ms, v, w);
    }
  }

  /** One measurement more. */
  lemma WinsMore(ms: seq<Measurement>, v: nat)
    requires |ms| >= 2 && Wins(ms[..|ms| - 1], v)
    ensures Wins(ms, if Improves(ms[|ms| - 1].result, ms[v].result) then |ms| - 1 else v)
  {
    hide Improves;
    var n := |ms| - 1;
    assert ms[..n][..v] == ms[..v];
  }

  /** The loop finds the winner. */
  lemma {:induction false} BestWins(ms: seq<Measurement>) returns (w: nat)
    requires Scored(ms)
    ensures w < |ms| && Wins(ms, w) && Best(ms) == ms[w]
    ensures w > 0 ==> ms[w].score > 0.0
  {
    hide Better, Improves, Wins;
    var n := |ms| - 1;
    if n == 0 {
      w := 0;
      Alone(ms);
    } else {
      var v := BestWins(ms[..n]);
      BetterMeans(ms[n], ms[v], ms[0]);
      WinsMore(ms, v);
      w := if Better(ms[n], ms[v]) then n else v;
      BetterPositive(ms[n], ms[v]);
    }
  }

  lemma Alone(ms: seq<Measurement>)
    requires |ms| == 1
    ensures Wins(ms, 0)
  {
  }

  lemma BetterPositive(c: Measurement, current: Measurement)
    ensures Better(c, current) ==> c.score > 0.0
  {
  }

  /** One challenger beside the default is chosen if and only if it improves on it. */
  lemma OneChallenger(base: Measurement, c: Measurement)
    requires Scored([base, c])
    ensures Best([base, c]) != base <==> Improves(c.result, base.result)
  {
    var ms := [base, c];
    assert ms[..1] == [base] && ms[1] == c;
    BetterMeans(c, base, base);
  }

  /** What phases keep after n challengers each took the place of the one before. */
  function PartKept(n: nat): (f: real)
    ensures 0.0 < f <= 1.0 && (n == 1 ==> f == 0.95) && (n >= 2 ==> f < 0.95)
  {
    if n == 0 then 1.0 else PartKept(n - 1) * 0.95
  }

  /** A winner other than the default ran its workload more than three percent faster, its slowest sample is
      no slower, and its phases keep at least 0.95 to the number of challengers. */
  lemma {:induction false} WinnerImproves(ms: seq<Measurement>, w: nat)
    requires Wins(ms, w)
    ensures w > 0 ==>
              && SameWorkload(ms[w].result, ms[0].result) && 0.0 < ms[w].result.turn
              && ms[w].result.turn * 1.03 < ms[0].result.turn
              && (ms[w].result.samples > 0 ==> ms[w].result.worst <= ms[0].result.worst)
    ensures KeepsPhases(ms[w].result, ms[0].result, PartKept(w))
    decreases w
  {
    if w > 0 {
      var v :| 0 <= v < w && Wins(ms[..w], v) && Improves(ms[w].result, ms[v].result);
      WinnerImproves(ms[..w], v);
      PhasesChain(ms[w].result, ms[v].result, ms[0].result, v, w);
    }
  }

  lemma PhasesChain(r: Result, on: Result, base: Result, v: nat, w: nat)
    requires v < w && KeepsPhases(r, on, 0.95) && KeepsPhases(on, base, PartKept(v))
    ensures KeepsPhases(r, base, PartKept(w))
  {
    hide PartKept;
    PhaseChain(r.prompt, on.prompt, base.prompt, v, w);
    PhaseChain(r.gen, on.gen, base.gen, v, w);
    PhaseChain(r.mixed, on.mixed, base.mixed, v, w);
  }

  lemma PhaseChain(r: real, on: real, base: real, v: nat, w: nat)
    requires v < w && (on > 0.0 ==> r >= on * 0.95) && (base > 0.0 ==> on >= base * PartKept(v))
    ensures base > 0.0 ==> r >= base * PartKept(w)
  {
    hide PartKept;
    if base > 0.0 {
      PartFalls(v, w);
      Shrunk(base, PartKept(v), PartKept(w));
    }
  }

  lemma Shrunk(base: real, part: real, less: real)
    requires base > 0.0 && part > 0.0 && less <= part * 0.95
    ensures base * part > 0.0 && base * less <= (base * part) * 0.95
  {
    Scaled(part * 0.95, less, base);
  }

  lemma {:induction false} PartFalls(v: nat, w: nat)
    requires v < w
    ensures PartKept(w) <= PartKept(v) * 0.95
  {
    if v + 1 < w {
      PartFalls(v, w - 1);
    }
  }

  /** The i-th of challengers that each just improve on the one before, by four percent, at the full cost in
      phases. */
  function Falling(i: nat): Measurement {
    if i == 0 then Measurement(DEFAULT, [], Result(1.0, 1.0, 1.0, 1.0, 1.0, 0, 1, 0, 0, 1), 1.0)
    else
      var m := Falling(i - 1);
      var r := m.result;
      Measurement("", [], r.(turn := r.turn / 1.04, prompt := r.prompt * 0.95, gen := r.gen * 0.95, mixed := r.mixed * 0.95),
                  m.score * 1.04)
  }

  lemma {:induction false} FallingIs(i: nat)
    ensures var m := Falling(i); var r := m.result;
            && r.samples == 0 && r.lanes == 1 && r.turn > 0.0 && m.score > 0.0 && m.score * r.turn == 1.0
            && r.prompt == r.gen == r.mixed == PartKept(i)
  {
    if i > 0 {
      FallingIs(i - 1);
      var m := Falling(i - 1);
      SameProduct(m.score, m.result.turn);
    }
  }

  lemma SameProduct(a: real, b: real)
    ensures (a * 1.04) * (b / 1.04) == a * b
  {
  }

  lemma {:induction false} FallingWins(n: nat)
    ensures var ms := seq(n + 1, i requires 0 <= i => Falling(i)); Scored(ms) && Best(ms) == Falling(n)
  {
    hide Falling, PartKept, Better, Improves;
    var ms := seq(n + 1, i requires 0 <= i => Falling(i));
    FallingScored(n);
    if n > 0 {
      FallingWins(n - 1);
      assert ms[..n] == seq(n, i requires 0 <= i => Falling(i));
      FallingImproves(n);
      BetterMeans(ms[n], ms[n - 1], ms[0]);
    }
  }

  lemma FallingScored(n: nat)
    ensures var ms := seq(n + 1, i requires 0 <= i => Falling(i));
            Scored(ms) && (n > 0 ==> Rated(ms[n - 1], ms[0].result) && ms[n - 1].score > 0.0)
  {
    forall i: nat | i <= n ensures Rated(Falling(i), Falling(0).result) && Falling(i).score > 0.0 {
      FallingIs(i);
    }
  }

  lemma FallingImproves(n: nat)
    requires n > 0
    ensures Improves(Falling(n).result, Falling(n - 1).result)
  {
    FallingIs(n - 1);
    FallingIs(n);
  }

  /** The winner keeps 95 percent of every phase of the default, whatever was measured, if and only if there
      is no more than one challenger: each is only compared with the one it replaces. */
  lemma PhasesHeld(n: nat)
    ensures (forall ms: seq<Measurement> :: Scored(ms) && |ms| == n + 1 ==> KeepsPhases(Best(ms).result, ms[0].result, 0.95)) <==> n <= 1
  {
    hide Best, Scored;
    if n <= 1 {
      forall ms: seq<Measurement> | Scored(ms) && |ms| == n + 1 ensures KeepsPhases(Best(ms).result, ms[0].result, 0.95) {
        var w := BestWins(ms);
        WinnerImproves(ms, w);
      }
    } else {
      var ms := seq(n + 1, i requires 0 <= i => Falling(i));
      FallingWins(n);
      FallingIs(n);
      FallingIs(0);
      assert !KeepsPhases(Best(ms).result, ms[0].result, 0.95);
    }
  }

  /** Measurement i is within three percent of w. */
  predicate NearTo(ms: seq<Measurement>, i: nat, w: nat)
    requires i < |ms| && w < |ms|
  {
    i == w || (SameWorkload(ms[i].result, ms[0].result) && 0.0 < ms[i].result.turn && 0.0 < ms[0].result.turn
               && ms[i].result.turn * 0.97 <= ms[w].result.turn)
  }

  /** What is to serve: the winner, or the first measurement of the name the advisor selects if that is
      within three percent of the winner. */
  ghost predicate Serves(m: Measurement, ms: seq<Measurement>, advice: Option<string>) {
    exists w :: 0 <= w < |ms| && Wins(ms, w) &&
      m == (var i := if advice.Some? then FirstNamed(ms, advice.value) else |ms|;
            if i < |ms| && NearTo(ms, i, w) then ms[i] else ms[w])
  }

  lemma PickServes(ms: seq<Measurement>, advice: Option<string>)
    requires Scored(ms)
    ensures Serves(Pick(ms, advice), ms, advice)
  {
    hide Wins, Best, FirstNamed;
    var w := BestWins(ms);
    WinnerImproves(ms, w);
    if advice.Some? && FirstNamed(ms, advice.value) < |ms| {
      NearScore(ms, FirstNamed(ms, advice.value), w);
    }
  }

  lemma NearScore(ms: seq<Measurement>, i: nat, w: nat)
    requires Scored(ms) && i < |ms| && w < |ms| && (w > 0 ==> ms[w].score > 0.0)
    ensures ms[i] == ms[w] || (ms[i].score >= ms[w].score * 0.97 <==> NearTo(ms, i, w))
  {
    var b := ms[0].result.turn;
    if i != w && ms[i].score > 0.0 && b > 0.0 {
      FasterScore(ms[i].score, ms[i].result.turn, ms[w].score, ms[w].result.turn, b);
    }
  }

  predicate Named(ms: seq<Measurement>, name: string) {
    exists i :: 0 <= i < |ms| && ms[i].name == name
  }

  /** The candidate the decision is about: the one measured, else the one planned first. */
  function Finalist(cands: seq<Candidate>, ms: seq<Measurement>): string
    requires |cands| >= 2 && ms != []
  {
    if |ms| >= 2 && exists i :: 1 <= i < |cands| && cands[i].name == ms[1].name then ms[1].name else cands[1].name
  }

  /** scopedCalibrationDecision and annotateOptimizationDecision. */
  function Decide(best: Measurement, cands: seq<Candidate>, ms: seq<Measurement>): Decision
    requires |cands| >= 2 && ms != []
  {
    var finalist := Finalist(cands, ms);
    Decision(best.name, finalist,
             if !Named(ms, finalist) then Unavailable else if best.name == finalist then Promoted else BaselineWon,
             "", 0)
  }

  /** With a measured challenger that was planned the decision is about it, and promotes it or not; without
      one it is about the candidate planned first, which is unavailable. */
  lemma DecisionMeans(best: Measurement, cands: seq<Candidate>, ms: seq<Measurement>)
    requires |cands| >= 2 && ms != []
    ensures var d := Decide(best, cands, ms);
            && d.winner == best.name && d.outcome != Unmeasured && d.attempts == 0 && d.failureClass == ""
            && (|ms| == 1 ==> d.finalist == cands[1].name && (d.finalist != ms[0].name ==> d.outcome == Unavailable))
            && (|ms| > 1 && (exists i :: 1 <= i < |cands| && cands[i].name == ms[1].name) ==>
                  && d.finalist == ms[1].name
                  && d.outcome == if best.name == ms[1].name then Promoted else BaselineWon)
  {
  }

  /** markFinalistUnmeasured. */
  function MarkUnmeasured(d: Decision, prev: Option<Decision>): Decision {
    d.(winner := DEFAULT, outcome := Unmeasured, failureClass := "elapsed-budget",
       attempts := if prev.Some? && prev.value.finalist == d.finalist && prev.value.outcome == Unmeasured
                   then prev.value.attempts + 1 else 1)
  }

  /** What n launches in a row record that all run out of time on the same finalist. */
  function Repeated(d: Decision, prev: Option<Decision>, n: nat): Option<Decision> {
    if n == 0 then prev else Some(MarkUnmeasured(d, Repeated(d, prev, n - 1)))
  }

  /** The attempts are counted across launches, and begin again for another finalist or outcome. */
  lemma {:induction false} AttemptsCount(d: Decision, prev: Option<Decision>, n: nat)
    requires n > 0
    ensures Repeated(d, prev, n).Some? && Repeated(d, prev, n).value.winner == DEFAULT
    ensures Repeated(d, prev, n).value.outcome == Unmeasured && Repeated(d, prev, n).value.finalist == d.finalist
    ensures Repeated(d, prev, n).value.attempts ==
            n + (if prev.Some? && prev.value.finalist == d.finalist && prev.value.outcome == Unmeasured
                 then prev.value.attempts else 0)
    decreases n
  {
    if n > 1 {
      AttemptsCount(d, prev, n - 1);
    }
  }

  datatype SearchOutcome = Retry | BudgetBound | AdmissionOnly

  /** classifyUnmeasuredSearch. */
  function Classify(mode: Mode, budgetExhausted: bool, stableAdmissionFailed: bool,
                    admissionInconclusive: bool, exactCandidateStarted: bool): SearchOutcome {
    if budgetExhausted && mode == Auto then BudgetBound
    else if !stableAdmissionFailed || admissionInconclusive || exactCandidateStarted then Retry
    else AdmissionOnly
  }

  /** prioritizeCalibrationFinalist: the baseline first, a named finalist second, then the others. */
  function Prioritize(cands: seq<Candidate>, finalist: Candidate): (out: seq<Candidate>)
    ensures |cands| >= 2 ==> |out| >= 2 && out[0] == cands[0]
    ensures |cands| >= 2 && finalist.name != "" ==> out[1] == finalist && out[2..] == Others(cands[1..], finalist.name)
  {
    if |cands| < 2 || finalist.name == "" then cands
    else [cands[0], finalist] + Others(cands[1..], finalist.name)
  }

  function Others(cands: seq<Candidate>, name: string): seq<Candidate> {
    if cands == [] then [] else (if cands[0].name == name then [] else [cands[0]]) + Others(cands[1..], name)
  }

  lemma {:induction false} OthersSplit(a: seq<Candidate>, b: seq<Candidate>, name: string)
    ensures Others(a + b, name) == Others(a, name) + Others(b, name)
  {
    if a == [] {
      assert a + b == b;
    } else {
      assert (a + b)[1..] == a[1..] + b;
      OthersSplit(a[1..], b, name);
    }
  }

  /** The others are the candidates of another name, each once and in their order: candidate i is at the
      place that counts those before it. */
  lemma OthersKeepOrder(cands: seq<Candidate>, name: string, i: nat)
    requires i < |cands|
    ensures var at := |Others(cands[..i], name)|;
            if cands[i].name == name then |Others(cands[..i + 1], name)| == at
            else |Others(cands[..i + 1], name)| == at + 1 && at < |Others(cands, name)| && Others(cands, name)[at] == cands[i]
  {
    assert cands[..i + 1] == cands[..i] + [cands[i]];
    OthersSplit(cands[..i], [cands[i]], name);
    assert cands == cands[..i + 1] + cands[i + 1..];
    OthersSplit(cands[..i + 1], cands[i + 1..], name);
  }

  /** fmt.Sprintf("%v", args). */
  function Print(args: Argv): string {
    "[" + Spaced(args) + "]"
  }

  function Spaced(args: Argv): string {
    if args == [] then "" else if |args| == 1 then args[0] else args[0] + " " + Spaced(args[1..])
  }

  /** An argument cut at every space. */
  function Words(arg: string): (r: seq<string>)
    ensures r != []
  {
    if arg == "" then [""]
    else if arg[0] == ' ' then [""] + Words(arg[1..])
    else [[arg[0]] + Words(arg[1..])[0]] + Words(arg[1..])[1..]
  }

  function AllWords(args: Argv): seq<string> {
    if args == [] then [] else Words(args[0]) + AllWords(args[1..])
  }

  lemma {:induction false} WordsJoin(x: string, y: string)
    ensures Words(x + " " + y) == Words(x) + Words(y)
  {
    if x == "" {
      assert x + " " + y == [' '] + y;
    } else {
      assert (x + " " + y)[1..] == x[1..] + " " + y;
      WordsJoin(x[1..], y);
    }
  }

  lemma {:induction false} WordsSpaced(args: Argv)
    requires args != []
    ensures Words(Spaced(args)) == AllWords(args)
  {
    if |args| == 1 {
      assert AllWords(args[1..]) == [];
    } else {
      WordsSpaced(args[1..]);
      WordsJoin(args[0], Spaced(args[1..]));
    }
  }

  lemma {:induction false} SpacedWords(arg: string)
    ensures Spaced(Words(arg)) == arg
  {
    if arg != "" {
      var rest := Words(arg[1..]);
      SpacedWords(arg[1..]);
      if arg[0] == ' ' {
        assert ([""] + rest)[1..] == rest;
      } else {
        assert ([[arg[0]] + rest[0]] + rest[1..])[1..] == rest[1..];
      }
    }
  }

  lemma {:induction false} WordsWhole(arg: string)
    requires ' ' !in arg
    ensures Words(arg) == [arg]
  {
    if arg != "" {
      WordsWhole(arg[1..]);
      assert [arg[0]] + arg[1..] == arg;
    }
  }

  lemma {:induction false} AllWordsWhole(args: Argv)
    requires forall i :: 0 <= i < |args| ==> ' ' !in args[i]
    ensures AllWords(args) == args
  {
    if args != [] {
      WordsWhole(args[0]);
      AllWordsWhole(args[1..]);
    }
  }

  /** Two commands print alike exactly if they are the same once every argument is cut at its spaces; so
      printing tells commands apart whose arguments hold no space. */
  lemma PrintTells(a: Argv, b: Argv)
    requires a != [] && b != []
    ensures Print(a) == Print(b) <==> AllWords(a) == AllWords(b)
    ensures (forall arg :: arg in a + b ==> ' ' !in arg) ==> (Print(a) == Print(b) <==> a == b)
  {
    WordsSpaced(a);
    WordsSpaced(b);
    SpacedWords(Spaced(a));
    SpacedWords(Spaced(b));
    assert Print(a)[1..|Print(a)| - 1] == Spaced(a) && Print(b)[1..|Print(b)| - 1] == Spaced(b);
    if forall arg :: arg in a + b ==> ' ' !in arg {
      AllWordsWhole(a);
      AllWordsWhole(b);
    }
  }

  /** Every command of two arguments or more prints like another one. */
  lemma PrintCollides(args: Argv)
    requires |args| >= 2
    ensures [Spaced(args)] != args && Print([Spaced(args)]) == Print(args)
  {
    assert |[Spaced(args)]| != |args|;
  }
}
