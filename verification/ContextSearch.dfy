/** The search for an automatic context, largestFittingContext and interpolateFittingContext of
    go/cmd/ggrun/preflight.go, over an oracle that may answer anything or nothing. */
module ContextSearch {
  import opened Options

  const MIN_RAISE_CONTEXT := 131072
  const STEP := 1024
  const ATTEMPTS := 4

  /** The MiB each CUDA device has left; negative when short. */
  type Slack = map<int, real>

  datatype Probe = Probe(ctx: int, slack: Slack)

  predicate Fits(p: Probe) {
    forall d <- p.slack :: p.slack[d] >= 0.0
  }

  /** What Go's map answers for a missing device. */
  function At(s: Slack, d: int): real {
    if d in s then s[d] else 0.0
  }

  function PerToken(lo: Probe, hi: Probe, d: int): real
    requires lo.ctx < hi.ctx
  {
    (At(lo.slack, d) - At(hi.slack, d)) / (hi.ctx - lo.ctx) as real
  }

  /** The last context at which the line of d through lo and hi is not yet short. */
  function Reaches(lo: Probe, hi: Probe, d: int): int
    requires lo.ctx < hi.ctx && PerToken(lo, hi, d) > 0.0
  {
    lo.ctx + (At(lo.slack, d) / PerToken(lo, hi, d)).Floor
  }

  predicate Short(p: Probe, d: int) {
    d in p.slack && p.slack[d] < 0.0
  }

  lemma ShortSlopes(lo: Probe, hi: Probe, d: int)
    requires lo.ctx < hi.ctx && Fits(lo) && Short(hi, d)
    ensures PerToken(lo, hi, d) > 0.0 && Reaches(lo, hi, d) >= lo.ctx
  {
    var a, n := At(lo.slack, d) - hi.slack[d], (hi.ctx - lo.ctx) as real;
    Positive(a, n);
    Quotient(At(lo.slack, d), PerToken(lo, hi, d));
  }

  lemma Positive(a: real, n: real)
    requires a > 0.0 && n > 0.0
    ensures a / n > 0.0
  {
  }

  lemma Quotient(s: real, p: real)
    requires s >= 0.0 && p > 0.0
    ensures s / p >= 0.0 && (s / p).Floor >= 0
  {
  }

  /** c is the largest multiple of 1,024 below hi at which every device short at hi is still on the
      non-negative side of its line. */
  ghost predicate Interpolates(lo: Probe, hi: Probe, c: int)
    requires lo.ctx < hi.ctx && Fits(lo)
  {
    && c % STEP == 0 && c < hi.ctx
    && (forall d | Short(hi, d) :: Below(lo, hi, d, c))
    && forall k :: k % STEP == 0 && k < hi.ctx && (forall d | Short(hi, d) :: Below(lo, hi, d, k)) ==> k <= c
  }

  ghost predicate Below(lo: Probe, hi: Probe, d: int, c: int)
    requires lo.ctx < hi.ctx && Fits(lo) && Short(hi, d)
  {
    ShortSlopes(lo, hi, d);
    c <= Reaches(lo, hi, d)
  }

  /** interpolateFittingContext. Its early return for a line that does not fall is never taken: lo fits. */
  method Interpolate(lo: Probe, hi: Probe) returns (next: int)
    requires 0 <= lo.ctx < hi.ctx && Fits(lo)
    ensures Interpolates(lo, hi, next)
  {
    var best := hi.ctx - 1;
    var left := hi.slack.Keys;
    while exists d :: d in left
      decreases |left|
      invariant left <= hi.slack.Keys
      invariant lo.ctx <= best < hi.ctx
      invariant forall d | Short(hi, d) && d !in left :: Below(lo, hi, d, best)
      invariant best == hi.ctx - 1 || exists d | Short(hi, d) :: !Below(lo, hi, d, best + 1)
    {
      var d :| d in left;
      left := left - {d};
      var short := hi.slack[d];
      if short < 0.0 {
        ShortSlopes(lo, hi, d);
        var perToken := (At(lo.slack, d) - short) / (hi.ctx - lo.ctx) as real;
        assert perToken > 0.0;
        var reach := lo.ctx + (At(lo.slack, d) / perToken).Floor;
        if reach < best {
          best := reach;
          assert !Below(lo, hi, d, best + 1);
        }
      }
    }
    next := best / STEP * STEP;
    forall k | k % STEP == 0 && k < hi.ctx && (forall d | Short(hi, d) :: Below(lo, hi, d, k))
      ensures k <= next
    {
      if best != hi.ctx - 1 {
        var d :| Short(hi, d) && !Below(lo, hi, d, best + 1);
        assert Below(lo, hi, d, k);
      }
      assert k <= best;
    }
  }

  /** An oracle: what it answers at each context, if it answers. */
  type Oracle = int -> Option<Slack>

  predicate Answered(oracle: Oracle, p: Probe) {
    oracle(p.ctx) == Some(p.slack)
  }

  /** The slack of every device falls or rises along one line between the smallest context and start. */
  ghost predicate Straight(oracle: Oracle, start: Probe) {
    && Answered(oracle, start)
    && (forall c :: MIN_RAISE_CONTEXT <= c <= start.ctx ==> oracle(c).Some? && oracle(c).value.Keys == start.slack.Keys)
    && forall d <- start.slack :: exists a: real, b: real :: OnLine(oracle, start, d, a, b)
  }

  ghost predicate OnLine(oracle: Oracle, start: Probe, d: int, a: real, b: real) {
    forall c :: MIN_RAISE_CONTEXT <= c <= start.ctx ==> oracle(c).Some? && At(oracle(c).value, d) == a - b * c as real
  }

  ghost predicate FitsAt(oracle: Oracle, c: int) {
    oracle(c).Some? && Fits(Probe(c, oracle(c).value))
  }

  /** The largest multiple of 1,024 in range at which every device fits. */
  ghost predicate Largest(oracle: Oracle, start: Probe, c: int) {
    && MIN_RAISE_CONTEXT <= c < start.ctx && c % STEP == 0 && FitsAt(oracle, c)
    && forall k :: MIN_RAISE_CONTEXT <= k < start.ctx && k % STEP == 0 && FitsAt(oracle, k) ==> k <= c
  }

  // Lines.

  lemma Slope(a: real, b: real, lo: int, hi: int)
    requires lo < hi
    ensures ((a - b * lo as real) - (a - b * hi as real)) / (hi - lo) as real == b
  {
    var n := (hi - lo) as real;
    assert (a - b * lo as real) - (a - b * hi as real) == b * n;
    Cancel(b, n);
  }

  lemma Cancel(b: real, n: real)
    requires n > 0.0
    ensures b * n / n == b
  {
  }

  /** s - p * k is non-negative exactly up to k = floor(s / p). */
  lemma UpToFloor(s: real, p: real, k: int)
    requires p > 0.0
    ensures s - p * k as real >= 0.0 <==> k <= (s / p).Floor
  {
    var q := s / p;
    assert s == q * p;
    if k as real <= q {
      Scale(k as real, q, p);
      assert k <= q.Floor;
    } else {
      ScaleStrict(q, k as real, p);
      assert k > q.Floor;
    }
  }

  lemma Scale(x: real, y: real, p: real)
    requires x <= y && p > 0.0
    ensures p * x <= p * y
  {
  }

  lemma ScaleStrict(x: real, y: real, p: real)
    requires x < y && p > 0.0
    ensures p * x < p * y
  {
  }

  /** The three answers of a straight device: at lo, at c and at start. */
  lemma ThreePoints(s0: real, s1: real, s2: real, a: real, b: real, x: int, c: int, y: int)
    requires x < y && x <= c < y
    requires s0 == a - b * x as real && s1 == a - b * c as real && s2 == a - b * y as real && s0 >= 0.0
    ensures (s0 - s2) / (y - x) as real == b
    ensures s2 >= 0.0 ==> s1 >= 0.0
    ensures b > 0.0 ==> (s1 >= 0.0 <==> c <= x + (s0 / b).Floor)
  {
    Slope(a, b, x, y);
    if b > 0.0 {
      UpToFloor(s0, b, c - x);
      Expand(a, b, x, c);
    }
    if b >= 0.0 {
      Grows(b, c, y);
    } else {
      Grows(-b, x, c);
    }
  }

  /** Between two contexts of a straight device its slack lies above the smaller end, and a device that
      gets short reaches exactly as far as the interpolation says. */
  lemma OneLine(oracle: Oracle, start: Probe, lo: Probe, d: int, c: int)
    requires Straight(oracle, start) && Answered(oracle, lo) && Fits(lo) && d in start.slack
    requires MIN_RAISE_CONTEXT <= lo.ctx < start.ctx && lo.ctx <= c < start.ctx
    ensures At(oracle(c).value, d) >= 0.0 <==> (Short(start, d) ==> Below(lo, start, d, c))
  {
    var a: real, b: real :| OnLine(oracle, start, d, a, b);
    ThreePoints(At(lo.slack, d), At(oracle(c).value, d), At(start.slack, d), a, b, lo.ctx, c, start.ctx);
    if Short(start, d) {
      ShortSlopes(lo, start, d);
    }
  }

  lemma Expand(a: real, b: real, lo: int, c: int)
    ensures a - b * c as real == (a - b * lo as real) - b * (c - lo) as real
  {
  }

  lemma Grows(b: real, x: int, y: int)
    requires b >= 0.0 && x <= y
    ensures b * x as real <= b * y as real
  {
  }

  lemma FitsBelow(oracle: Oracle, start: Probe, lo: Probe, c: int)
    requires Straight(oracle, start) && Answered(oracle, lo) && Fits(lo)
    requires MIN_RAISE_CONTEXT <= lo.ctx < start.ctx && lo.ctx <= c < start.ctx
    ensures FitsAt(oracle, c) <==> forall d | Short(start, d) :: Below(lo, start, d, c)
  {
    forall d | d in start.slack
      ensures At(oracle(c).value, d) >= 0.0 <==> (Short(start, d) ==> Below(lo, start, d, c))
    {
      OneLine(oracle, start, lo, d, c);
    }
    var s := oracle(c).value;
    assert forall d <- s :: s[d] == At(s, d);
    if FitsAt(oracle, c) {
      forall d | Short(start, d) ensures Below(lo, start, d, c) {
        assert d in s && s[d] >= 0.0;
      }
    }
  }

  /** On straight lines one interpolation from any fitting answer names the largest fitting context. */
  lemma LineDecides(oracle: Oracle, start: Probe, lo: Probe, next: int)
    requires Straight(oracle, start) && Answered(oracle, lo) && Fits(lo) && lo.ctx % STEP == 0
    requires MIN_RAISE_CONTEXT <= lo.ctx < start.ctx && Interpolates(lo, start, next)
    ensures next >= lo.ctx && Largest(oracle, start, next)
  {
    assert forall d | Short(start, d) :: Below(lo, start, d, lo.ctx) by {
      forall d | Short(start, d) ensures Below(lo, start, d, lo.ctx) {
        ShortSlopes(lo, start, d);
      }
    }
    FitsBelow(oracle, start, lo, next);
    forall k | MIN_RAISE_CONTEXT <= k < start.ctx && k % STEP == 0 && FitsAt(oracle, k) ensures k <= next {
      if k > next {
        FitsBelow(oracle, start, lo, k);
      }
    }
  }

  method Check(oracle: Oracle, ctx: int) returns (p: Probe, ok: bool)
    ensures p.ctx == ctx && (ok <==> oracle(ctx).Some?) && (ok ==> Answered(oracle, p))
  {
    var answer := oracle(ctx);
    ok := answer.Some?;
    p := Probe(ctx, if ok then answer.value else map[]);
  }

  /** largestFittingContext, and the contexts it asked about. No context is asked twice, so taking the
      oracle to be a function loses nothing. */
  method LargestFitting(start: Probe, oracle: Oracle) returns (found: Probe, ok: bool, asked: seq<int>)
    requires MIN_RAISE_CONTEXT < start.ctx && !Fits(start)
    ensures ok ==> Answered(oracle, found) && Fits(found) && found.ctx in asked
    ensures ok ==> MIN_RAISE_CONTEXT <= found.ctx < start.ctx && found.ctx % STEP == 0
    ensures !ok <==> !(oracle(MIN_RAISE_CONTEXT).Some? && Fits(Probe(MIN_RAISE_CONTEXT, oracle(MIN_RAISE_CONTEXT).value)))
    ensures |asked| <= ATTEMPTS + 1 && forall i, j :: 0 <= i < j < |asked| ==> asked[i] != asked[j]
    ensures ok && Straight(oracle, start) ==> Largest(oracle, start, found.ctx) && |asked| <= 2
  {
    var lo, hi := start, start;
    lo, ok := Check(oracle, MIN_RAISE_CONTEXT);
    asked := [MIN_RAISE_CONTEXT];
    if !ok || !Fits(lo) {
      return lo, false, asked;
    }
    var attempt := 0;
    while attempt < ATTEMPTS
      invariant 0 <= attempt <= ATTEMPTS && |asked| <= attempt + 1
      invariant Answered(oracle, lo) && Fits(lo) && lo.ctx in asked && lo.ctx % STEP == 0
      invariant MIN_RAISE_CONTEXT <= lo.ctx < hi.ctx <= start.ctx && !Fits(hi)
      invariant forall i :: 0 <= i < |asked| ==> asked[i] <= lo.ctx || asked[i] >= hi.ctx
      invariant forall i, j :: 0 <= i < j < |asked| ==> asked[i] != asked[j]
      invariant Straight(oracle, start) ==> hi == start && |asked| <= 2
      invariant Straight(oracle, start) && attempt > 0 ==> Largest(oracle, start, lo.ctx)
    {
      var next := Interpolate(lo, hi);
      if Straight(oracle, start) {
        LineDecides(oracle, start, lo, next);
      }
      if next <= lo.ctx {
        break;
      }
      var p, answered := Check(oracle, next);
      asked := asked + [next];
      if !answered {
        break;
      }
      if Fits(p) {
        lo := p;
      } else {
        hi := p;
      }
      attempt := attempt + 1;
    }
    return lo, true, asked;
  }
}
