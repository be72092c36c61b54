/** The memory rows of go/cmd/ggrun/preflight.go: merging them, the two measures of whether they fit, and
    reconciling, saving and reloading measured evidence. */
module PreflightRows {

  /** A row's name: a CUDA device by index, the host, or anything else a backend prints. */
  datatype Name = Cuda(index: int) | Host | Other(text: string)

  /** MiB by component; a backend may report a negative remainder. */
  datatype Amounts = Amounts(model: int, context: int, compute: int, unaccounted: int) {
    function Total(): int { model + context + compute + unaccounted }
    function Plus(o: Amounts): (r: Amounts)
      ensures r.model - o.model == model && r.context - o.context == context
      ensures r.compute - o.compute == compute && r.unaccounted - o.unaccounted == unaccounted
    {
      Amounts(model + o.model, context + o.context, compute + o.compute, unaccounted + o.unaccounted)
    }
    predicate NonNegative() { model >= 0 && context >= 0 && compute >= 0 && unaccounted >= 0 }
  }

  const NOTHING := Amounts(0, 0, 0, 0)

  datatype Row = Row(name: Name, mb: Amounts)

  predicate OneRowEach(rows: seq<Row>) {
    forall i, j :: 0 <= i < j < |rows| ==> rows[i].name != rows[j].name
  }

  /** What all rows of a name hold together. */
  function SumFor(rows: seq<Row>, name: Name): Amounts {
    if rows == [] then NOTHING
    else
      var last := rows[|rows| - 1];
      var before := SumFor(rows[..|rows| - 1], name);
      if last.name == name then before.Plus(last.mb) else before
  }

  predicate HasRow(rows: seq<Row>, name: Name) {
    exists i :: 0 <= i < |rows| && rows[i].name == name
  }

  function Flatten(groups: seq<seq<Row>>): seq<Row> {
    if groups == [] then [] else Flatten(groups[..|groups| - 1]) + groups[|groups| - 1]
  }

  // Merging.

  /** The state of the merge after some rows: names in the order they first came, one sum each. */
  ghost predicate MergedSoFar(seen: seq<Row>, order: seq<Name>, byName: map<Name, Amounts>) {
    && (forall n :: n in byName <==> HasRow(seen, n))
    && (forall n <- byName :: byName[n] == SumFor(seen, n))
    && (forall n <- order :: n in byName) && (forall n <- byName :: n in order)
    && (forall i, j :: 0 <= i < j < |order| ==> order[i] != order[j])
  }

  lemma SeenOneMore(seen: seq<Row>, r: Row)
    ensures forall n :: HasRow(seen + [r], n) <==> HasRow(seen, n) || n == r.name
    ensures forall n :: SumFor(seen + [r], n) == if n == r.name then SumFor(seen, n).Plus(r.mb) else SumFor(seen, n)
    ensures !HasRow(seen, r.name) ==> SumFor(seen, r.name) == NOTHING
  {
    var more := seen + [r];
    assert more[..|seen|] == seen && more[|seen|] == r;
    forall n ensures HasRow(more, n) <==> HasRow(seen, n) || n == r.name {
      if HasRow(seen, n) {
        var i :| 0 <= i < |seen| && seen[i].name == n;
        assert more[i].name == n;
      }
    }
    if !HasRow(seen, r.name) {
      SumNone(seen, r.name);
    }
  }

  lemma {:induction false} SumNone(rows: seq<Row>, name: Name)
    requires !HasRow(rows, name)
    ensures SumFor(rows, name) == NOTHING
  {
    if rows != [] {
      assert !HasRow(rows[..|rows| - 1], name);
      SumNone(rows[..|rows| - 1], name);
    }
  }

  lemma SumOne(r: Row, name: Name)
    ensures SumFor([r], name) == if r.name == name then r.mb else Amounts(0, 0, 0, 0)
  {
    assert [r][..0] == [];
  }

  /** Sums go by name, row by row, and do not depend on how the rows are grouped. */
  lemma {:induction false} SumAdds(a: seq<Row>, b: seq<Row>, name: Name)
    ensures SumFor(a + b, name) == SumFor(a, name).Plus(SumFor(b, name))
  {
    hide SumFor;
    if b == [] {
      assert a + b == a;
      assert SumFor([], name) == NOTHING by {
        SumNone([], name);
      }
    } else {
      var rest, last := b[..|b| - 1], b[|b| - 1];
      SumAdds(a, rest, name);
      SumLast(a + b, name);
      SumLast(b, name);
      LastAppended(a, b);
      var x, y := SumFor(a, name), SumFor(rest, name);
      assert x.Plus(y).Plus(last.mb) == x.Plus(y.Plus(last.mb));
    }
  }

  lemma LastAppended(a: seq<Row>, b: seq<Row>)
    requires b != []
    ensures (a + b)[..|a + b| - 1] == a + b[..|b| - 1] && (a + b)[|a + b| - 1] == b[|b| - 1]
  {
  }

  lemma SumLast(s: seq<Row>, name: Name)
    requires s != []
    ensures var before := SumFor(s[..|s| - 1], name);
            SumFor(s, name) == if s[|s| - 1].name == name then before.Plus(s[|s| - 1].mb) else before
  {
  }

  /** mergePreflightDevices: one row per name that came, holding everything that came under it. */
  method Merge(groups: seq<seq<Row>>) returns (out: seq<Row>)
    ensures OneRowEach(out)
    ensures forall n :: HasRow(out, n) <==> HasRow(Flatten(groups), n)
    ensures forall i :: 0 <= i < |out| ==> out[i].mb == SumFor(Flatten(groups), out[i].name)
  {
    var order: seq<Name> := [];
    var byName: map<Name, Amounts> := map[];
    ghost var seen: seq<Row> := [];
    for g := 0 to |groups|
      invariant seen == Flatten(groups[..g])
      invariant MergedSoFar(seen, order, byName)
    {
      var group := groups[g];
      ghost var start := seen;
      for k := 0 to |group|
        invariant seen == start + group[..k]
        invariant MergedSoFar(seen, order, byName)
      {
        order, byName := AddRow(order, byName, group[k], seen);
        seen := seen + [group[k]];
        assert start + group[..k] + [group[k]] == start + group[..k + 1];
      }
      assert groups[..g + 1][..g] == groups[..g] && group[..|group|] == group;
    }
    assert groups[..|groups|] == groups;
    out := seq(|order|, i requires 0 <= i < |order| && order[i] in byName => Row(order[i], byName[order[i]]));
    assert forall i :: 0 <= i < |out| ==> out[i].name == order[i];
  }

  method AddRow(order: seq<Name>, byName: map<Name, Amounts>, d: Row, ghost seen: seq<Row>)
    returns (order': seq<Name>, byName': map<Name, Amounts>)
    requires MergedSoFar(seen, order, byName)
    ensures MergedSoFar(seen + [d], order', byName')
  {
    hide HasRow, SumFor;
    SeenOneMore(seen, d);
    order' := if d.name in byName then order else order + [d.name];
    var merged := if d.name in byName then byName[d.name] else NOTHING;
    byName' := byName[d.name := merged.Plus(d.mb)];
  }

  // Fitting.

  datatype Gpu = Gpu(index: int, free: nat)

  predicate DistinctGpus(gpus: seq<Gpu>) {
    forall i, j :: 0 <= i < j < |gpus| ==> gpus[i].index != gpus[j].index
  }

  function Get(m: map<int, int>, k: int): int {
    if k in m then m[k] else 0
  }

  /** How far a row is over what a GPU has free. */
  function Deficit(mb: Amounts, g: Gpu, overhead: map<int, int>, growth: map<int, int>): (d: int)
    ensures d + g.free == mb.model + mb.context + mb.compute + mb.unaccounted
                          + (if g.index in overhead then overhead[g.index] else 0) + (if g.index in growth then growth[g.index] else 0)
  {
    mb.Total() + Get(overhead, g.index) + Get(growth, g.index) - g.free
  }

  /** Row d lies on GPU g. */
  predicate On(d: Row, g: Gpu) {
    d.name == Cuda(g.index)
  }

  ghost predicate Attained(devs: seq<Row>, gpus: seq<Gpu>, overhead: map<int, int>, growth: map<int, int>, dev: int, mb: int) {
    exists a, b | 0 <= a < |devs| && 0 <= b < |gpus| ::
      On(devs[a], gpus[b]) && gpus[b].index == dev && Deficit(devs[a].mb, gpus[b], overhead, growth) == mb
  }

  /** The worst over the pairs (i, j) looked at so far: rows before i, and of row i the GPUs before j. */
  ghost predicate WorstSoFar(devs: seq<Row>, gpus: seq<Gpu>, overhead: map<int, int>, growth: map<int, int>,
                             i: nat, j: nat, dev: int, worst: int) {
    && worst >= 0
    && (forall a, b :: 0 <= a < |devs| && 0 <= b < |gpus| && (a < i || (a == i && b < j)) && On(devs[a], gpus[b]) ==>
          Deficit(devs[a].mb, gpus[b], overhead, growth) <= worst)
    && (worst == 0 ==> dev == -1)
    && (worst > 0 ==> Attained(devs, gpus, overhead, growth, dev, worst))
  }

  /** preflightWorstDeficit: row by row. */
  method WorstDeficit(devs: seq<Row>, gpus: seq<Gpu>, overhead: map<int, int>, growth: map<int, int>)
    returns (dev: int, worst: int)
    ensures WorstSoFar(devs, gpus, overhead, growth, |devs|, 0, dev, worst)
  {
    hide Deficit, WorstSoFar;
    dev, worst := -1, 0;
    NothingWorse(devs, gpus, overhead, growth);
    for i := 0 to |devs|
      invariant WorstSoFar(devs, gpus, overhead, growth, i, 0, dev, worst)
    {
      if devs[i].name.Cuda? {
        for j := 0 to |gpus|
          invariant WorstSoFar(devs, gpus, overhead, growth, i, j, dev, worst)
        {
          WorstNext(devs, gpus, overhead, growth, i, j, dev, worst);
          if gpus[j].index == devs[i].name.index {
            var deficit := Deficit(devs[i].mb, gpus[j], overhead, growth);
            if deficit > worst {
              dev, worst := gpus[j].index, deficit;
            }
          }
        }
      }
      WorstRow(devs, gpus, overhead, growth, i, dev, worst);
    }
  }

  lemma NothingWorse(devs: seq<Row>, gpus: seq<Gpu>, overhead: map<int, int>, growth: map<int, int>)
    ensures WorstSoFar(devs, gpus, overhead, growth, 0, 0, -1, 0)
  {
  }

  /** One pair more. */
  lemma WorstNext(devs: seq<Row>, gpus: seq<Gpu>, overhead: map<int, int>, growth: map<int, int>,
                  i: nat, j: nat, dev: int, worst: int)
    requires i < |devs| && j < |gpus| && WorstSoFar(devs, gpus, overhead, growth, i, j, dev, worst)
    ensures var deficit := Deficit(devs[i].mb, gpus[j], overhead, growth);
            if On(devs[i], gpus[j]) && deficit > worst
            then WorstSoFar(devs, gpus, overhead, growth, i, j + 1, gpus[j].index, deficit)
            else WorstSoFar(devs, gpus, overhead, growth, i, j + 1, dev, worst)
  {
    hide Deficit;
  }

  /** A whole row done, or a row that lies on no GPU. */
  lemma WorstRow(devs: seq<Row>, gpus: seq<Gpu>, overhead: map<int, int>, growth: map<int, int>,
                 i: nat, dev: int, worst: int)
    requires i < |devs|
    requires WorstSoFar(devs, gpus, overhead, growth, i, if devs[i].name.Cuda? then |gpus| else 0, dev, worst)
    ensures WorstSoFar(devs, gpus, overhead, growth, i + 1, 0, dev, worst)
  {
    hide Deficit;
  }

  lemma NoRows()
    ensures forall n :: !HasRow([], n)
  {
  }

  /** What preflightDeviceSlack reports for a GPU with rows. */
  function SlackOf(devs: seq<Row>, g: Gpu, overhead: map<int, int>, growth: map<int, int>): int {
    -Deficit(SumFor(devs, Cuda(g.index)), g, overhead, growth)
  }

  /** preflightDeviceSlack: summed per device. */
  method DeviceSlack(devs: seq<Row>, gpus: seq<Gpu>, overhead: map<int, int>, growth: map<int, int>)
    returns (out: map<int, int>)
    requires DistinctGpus(gpus)
    ensures forall k :: k in out <==> HasRow(devs, Cuda(k)) && exists j :: 0 <= j < |gpus| && gpus[j].index == k
    ensures forall j :: 0 <= j < |gpus| && gpus[j].index in out ==> out[gpus[j].index] == SlackOf(devs, gpus[j], overhead, growth)
  {
    hide HasRow, SumFor;
    assert devs[..0] == [];
    NoRows();
    var required: map<int, int> := map[];
    for i := 0 to |devs|
      invariant forall k :: k in required <==> HasRow(devs[..i], Cuda(k))
      invariant forall k <- required :: required[k] == SumFor(devs[..i], Cuda(k)).Total()
    {
      SeenOneMore(devs[..i], devs[i]);
      assert devs[..i + 1] == devs[..i] + [devs[i]];
      if devs[i].name.Cuda? {
        var k := devs[i].name.index;
        required := required[k := Get(required, k) + devs[i].mb.Total()];
      }
    }
    assert devs[..|devs|] == devs;
    out := map[];
    for j := 0 to |gpus|
      invariant forall k :: k in out <==> k in required && exists b :: 0 <= b < j && gpus[b].index == k
      invariant forall b :: 0 <= b < j && gpus[b].index in out ==>
                  out[gpus[b].index] == SlackOf(devs, gpus[b], overhead, growth)
    {
      var g := gpus[j];
      if g.index in required {
        out := out[g.index := g.free - required[g.index] - Get(overhead, g.index) - Get(growth, g.index)];
      }
    }
  }

  /** Every device with rows has slack, the test of the context search. */
  ghost predicate AllSlack(devs: seq<Row>, gpus: seq<Gpu>, overhead: map<int, int>, growth: map<int, int>) {
    forall j :: 0 <= j < |gpus| && HasRow(devs, Cuda(gpus[j].index)) ==> SlackOf(devs, gpus[j], overhead, growth) >= 0
  }

  /** With one row per device the worst deficit is exactly the largest negative slack. */
  lemma MeasuresAgree(devs: seq<Row>, gpus: seq<Gpu>, overhead: map<int, int>, growth: map<int, int>, dev: int, worst: int)
    requires OneRowEach(devs) && WorstSoFar(devs, gpus, overhead, growth, |devs|, 0, dev, worst)
    ensures worst == 0 <==> AllSlack(devs, gpus, overhead, growth)
    ensures forall j :: 0 <= j < |gpus| && HasRow(devs, Cuda(gpus[j].index)) ==>
              -SlackOf(devs, gpus[j], overhead, growth) <= worst
    ensures worst > 0 ==> exists j | 0 <= j < |gpus| ::
              gpus[j].index == dev && HasRow(devs, Cuda(dev)) && worst == -SlackOf(devs, gpus[j], overhead, growth)
  {
    forall i, j | 0 <= i < |devs| && 0 <= j < |gpus| && On(devs[i], gpus[j])
      ensures Deficit(devs[i].mb, gpus[j], overhead, growth) == -SlackOf(devs, gpus[j], overhead, growth)
    {
      OnlyRow(devs, i);
    }
    forall j | 0 <= j < |gpus| && HasRow(devs, Cuda(gpus[j].index))
      ensures -SlackOf(devs, gpus[j], overhead, growth) <= worst
    {
      var i :| 0 <= i < |devs| && devs[i].name == Cuda(gpus[j].index);
      assert On(devs[i], gpus[j]);
    }
    if worst > 0 {
      var i, j :| 0 <= i < |devs| && 0 <= j < |gpus| && On(devs[i], gpus[j]) && gpus[j].index == dev &&
        Deficit(devs[i].mb, gpus[j], overhead, growth) == worst;
      assert HasRow(devs, Cuda(dev));
    }
  }

  lemma {:induction false} OnlyRow(devs: seq<Row>, i: nat)
    requires OneRowEach(devs) && i < |devs|
    ensures SumFor(devs, devs[i].name) == devs[i].mb
  {
    var rest := devs[..|devs| - 1];
    if i == |devs| - 1 {
      SumNone(rest, devs[i].name);
    } else {
      OnlyRow(rest, i);
    }
  }

  /** Merging first makes the row-by-row measure the summed one: the rows of one device may come in any
      number and order, with any signs. */
  lemma MergedMeasuresAgree(groups: seq<seq<Row>>, merged: seq<Row>, gpus: seq<Gpu>, overhead: map<int, int>,
                            growth: map<int, int>, dev: int, worst: int)
    requires OneRowEach(merged) && (forall n :: HasRow(merged, n) <==> HasRow(Flatten(groups), n))
    requires forall i :: 0 <= i < |merged| ==> merged[i].mb == SumFor(Flatten(groups), merged[i].name)
    requires WorstSoFar(merged, gpus, overhead, growth, |merged|, 0, dev, worst)
    ensures worst == 0 <==> AllSlack(Flatten(groups), gpus, overhead, growth)
    ensures worst > 0 ==> exists j | 0 <= j < |gpus| ::
              gpus[j].index == dev && worst == -SlackOf(Flatten(groups), gpus[j], overhead, growth)
    ensures forall j :: 0 <= j < |gpus| && HasRow(Flatten(groups), Cuda(gpus[j].index)) ==>
              -SlackOf(Flatten(groups), gpus[j], overhead, growth) <= worst
  {
    MeasuresAgree(merged, gpus, overhead, growth, dev, worst);
    forall j | 0 <= j < |gpus| && HasRow(merged, Cuda(gpus[j].index))
      ensures SlackOf(merged, gpus[j], overhead, growth) == SlackOf(Flatten(groups), gpus[j], overhead, growth)
    {
      var i :| 0 <= i < |merged| && merged[i].name == Cuda(gpus[j].index);
      OnlyRow(merged, i);
    }
  }

  /** Without merging, slack rules out a deficit on a device, whatever is free, exactly when no single row
      of the device exceeds their sum. */
  lemma SlackRulesOut(devs: seq<Row>, k: int)
    ensures (forall g: Gpu, overhead: map<int, int>, growth: map<int, int> ::
               g.index == k && SlackOf(devs, g, overhead, growth) >= 0 ==> NoneOver(devs, g, overhead, growth))
            <==> forall i :: 0 <= i < |devs| && devs[i].name == Cuda(k) ==> devs[i].mb.Total() <= SumFor(devs, Cuda(k)).Total()
  {
    var sum := SumFor(devs, Cuda(k)).Total();
    var g, overhead: map<int, int> := Gpu(k, 0), map[k := -sum];
    assert SlackOf(devs, g, overhead, map[]) == 0;
    if NoneOver(devs, g, overhead, map[]) {
      forall i | 0 <= i < |devs| && devs[i].name == Cuda(k) ensures devs[i].mb.Total() <= sum {
        assert On(devs[i], g);
        assert Deficit(devs[i].mb, g, overhead, map[]) <= 0;
      }
    }
  }

  /** That happens: of two rows of one device, the second below zero, the first exceeds what is free by any
      amount while their sum just fits. */
  lemma RowHidden(g: Gpu, over: int)
    requires over > 0
    ensures var devs := [Row(Cuda(g.index), Amounts(g.free + over, 0, 0, 0)), Row(Cuda(g.index), Amounts(0, 0, 0, -over))];
            SlackOf(devs, g, map[], map[]) == 0 && Deficit(devs[0].mb, g, map[], map[]) == over
  {
    var devs := [Row(Cuda(g.index), Amounts(g.free + over, 0, 0, 0)), Row(Cuda(g.index), Amounts(0, 0, 0, -over))];
    assert devs[..1] == [devs[0]] && [devs[0]][..0] == [];
    assert SumFor([devs[0]], Cuda(g.index)) == devs[0].mb;
    assert SumFor(devs, Cuda(g.index)) == devs[0].mb.Plus(devs[1].mb);
  }

  ghost predicate NoneOver(devs: seq<Row>, g: Gpu, overhead: map<int, int>, growth: map<int, int>) {
    forall i :: 0 <= i < |devs| && On(devs[i], g) ==> Deficit(devs[i].mb, g, overhead, growth) <= 0
  }

  /** Rows that never go below zero are such rows. */
  lemma {:induction false} NonNegativeRowsWithin(devs: seq<Row>, k: int, i: nat)
    requires forall j :: 0 <= j < |devs| && devs[j].name == Cuda(k) ==> devs[j].mb.Total() >= 0
    requires i < |devs| && devs[i].name == Cuda(k)
    ensures devs[i].mb.Total() <= SumFor(devs, Cuda(k)).Total()
  {
    var rest := devs[..|devs| - 1];
    if i < |rest| {
      NonNegativeRowsWithin(rest, k, i);
    } else {
      SumNonNegative(rest, k);
    }
  }

  lemma {:induction false} SumNonNegative(devs: seq<Row>, k: int)
    requires forall j :: 0 <= j < |devs| && devs[j].name == Cuda(k) ==> devs[j].mb.Total() >= 0
    ensures SumFor(devs, Cuda(k)).Total() >= 0
  {
    if devs != [] {
      SumNonNegative(devs[..|devs| - 1], k);
    }
  }
}
