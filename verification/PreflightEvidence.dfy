/** Measured allocation evidence in go/cmd/ggrun/preflight.go: reconciling parsed rows with measured
    peaks, persisting them in bytes, and reading them back. */
module PreflightEvidence {
  import opened Options
  import opened Numbers
  import opened PreflightRows

  const MIB := 0x10_0000
  /** Rows of this many MiB no longer fit 64 bits of bytes. */
  const TOO_LARGE := 0x1000_0000_0000

  /** bytesToMiBCeil, in 64-bit arithmetic. */
  function MiBCeil(bytes: nat): nat {
    if bytes == 0 then 0 else (bytes + MIB - 1) % U64 / MIB
  }

  /** uint64(max(mb, 0)) * 1024 * 1024. */
  function BytesOf(mb: int): nat {
    (if mb > 0 then mb else 0) * MIB % U64
  }

  lemma CeilCovers(bytes: nat)
    requires bytes < U64
    ensures MiBCeil(bytes) * MIB >= bytes <==> bytes + MIB - 1 < U64 || bytes == 0
    ensures bytes + MIB - 1 < U64 ==> MiBCeil(bytes) * MIB < bytes + MIB && MiBCeil(bytes) < TOO_LARGE
  {
  }

  /** A size in MiB comes back from its bytes exactly when it fits them and is not negative. */
  lemma MiBSurvives(mb: int)
    ensures MiBCeil(BytesOf(mb)) == mb <==> 0 <= mb < TOO_LARGE
  {
    if 0 < mb < TOO_LARGE {
      assert BytesOf(mb) == mb * MIB;
      assert mb * MIB + MIB - 1 < U64;
    }
  }

  datatype Bytes = Bytes(model: nat, context: nat, compute: nat, unaccounted: nat) {
    /** The 64-bit sum. */
    function Total(): nat { (model + context + compute + unaccounted) % U64 }
  }

  /** A device's measured peak, and what the contained process held at most on the host. */
  datatype Peak = Peak(index: int, bytes: nat)
  datatype Summary = Summary(devices: seq<Peak>, hostPeak: nat)

  // Reconciling.

  /** The index byName ends up with: the last row of a name, or the length. */
  function LastRow(rows: seq<Row>, name: Name): (i: nat)
    ensures i <= |rows| && (i < |rows| <==> HasRow(rows, name))
    ensures i < |rows| ==> rows[i].name == name
    ensures forall k :: i < k < |rows| ==> rows[k].name != name
  {
    if rows == [] then 0
    else
      var n := |rows| - 1;
      if rows[n].name == name then n
      else
        var i := LastRow(rows[..n], name);
        assert HasRow(rows, name) <==> HasRow(rows[..n], name);
        if i == n then n + 1 else i
  }

  /** A row of that name, grown to the peak if it is below, or a new one. */
  function Raised(rows: seq<Row>, name: Name, peak: nat): seq<Row> {
    var i := LastRow(rows, name);
    if i == |rows| then rows + [Row(name, Amounts(0, 0, 0, peak))]
    else
      var more := peak - rows[i].mb.Total();
      if more > 0 then rows[i := Row(name, rows[i].mb.(unaccounted := rows[i].mb.unaccounted + more))] else rows
  }

  function RaisedAll(rows: seq<Row>, peaks: seq<Peak>): seq<Row> {
    if peaks == [] then rows
    else
      var last := peaks[|peaks| - 1];
      Raised(RaisedAll(rows, peaks[..|peaks| - 1]), Cuda(last.index), MiBCeil(last.bytes))
  }

  function Reconciled(parsed: seq<Row>, s: Summary): seq<Row> {
    var devices := RaisedAll(parsed, s.devices);
    if MiBCeil(s.hostPeak) > 0 then Raised(devices, Host, MiBCeil(s.hostPeak)) else devices
  }

  ghost predicate Indexed(rows: seq<Row>, byName: map<Name, nat>) {
    && (forall n :: n in byName <==> HasRow(rows, n))
    && forall n <- byName :: byName[n] == LastRow(rows, n)
  }

  lemma AppendIndex(rows: seq<Row>, r: Row)
    ensures forall n :: LastRow(rows + [r], n) == if n == r.name then |rows| else if HasRow(rows, n) then LastRow(rows, n) else |rows| + 1
    ensures forall n :: HasRow(rows + [r], n) <==> HasRow(rows, n) || n == r.name
  {
    assert (rows + [r])[..|rows|] == rows;
    SeenOneMore(rows, r);
  }

  lemma {:induction false} SameNamesSameIndex(rows: seq<Row>, more: seq<Row>, n: Name)
    requires |rows| == |more| && forall i :: 0 <= i < |rows| ==> rows[i].name == more[i].name
    ensures LastRow(rows, n) == LastRow(more, n) && (HasRow(rows, n) <==> HasRow(more, n))
  {
    if rows != [] {
      SameNamesSameIndex(rows[..|rows| - 1], more[..|more| - 1], n);
    }
  }

  lemma NothingIndexed()
    ensures Indexed([], map[])
  {
  }

  method RaiseRow(devices: seq<Row>, byName: map<Name, nat>, name: Name, peak: nat)
    returns (more: seq<Row>, byName': map<Name, nat>)
    requires Indexed(devices, byName)
    ensures more == Raised(devices, name, peak) && Indexed(more, byName')
  {
    hide LastRow, HasRow;
    if name !in byName {
      more := devices + [Row(name, Amounts(0, 0, 0, peak))];
      AppendIndex(devices, Row(name, Amounts(0, 0, 0, peak)));
      byName' := byName[name := |devices|];
    } else {
      var i := byName[name];
      more, byName' := devices, byName;
      var unexplained := peak - devices[i].mb.Total();
      if unexplained > 0 {
        more := devices[i := Row(name, devices[i].mb.(unaccounted := devices[i].mb.unaccounted + unexplained))];
      }
      forall n ensures LastRow(devices, n) == LastRow(more, n) && (HasRow(devices, n) <==> HasRow(more, n)) {
        SameNamesSameIndex(devices, more, n);
      }
    }
  }

  /** reconcileGuardedDevices. */
  method Reconcile(parsed: seq<Row>, s: Summary) returns (devices: seq<Row>)
    ensures devices == Reconciled(parsed, s)
  {
    hide LastRow, HasRow, Raised, MiBCeil;
    devices := parsed;
    var byName: map<Name, nat> := map[];
    NothingIndexed();
    assert parsed[..0] == [];
    for i := 0 to |parsed|
      invariant Indexed(parsed[..i], byName)
    {
      AppendIndex(parsed[..i], parsed[i]);
      assert parsed[..i + 1] == parsed[..i] + [parsed[i]];
      byName := byName[parsed[i].name := i];
    }
    assert parsed[..|parsed|] == parsed;
    for i := 0 to |s.devices|
      invariant devices == RaisedAll(parsed, s.devices[..i]) && Indexed(devices, byName)
    {
      assert s.devices[..i + 1][..i] == s.devices[..i];
      devices, byName := RaiseRow(devices, byName, Cuda(s.devices[i].index), MiBCeil(s.devices[i].bytes));
    }
    assert s.devices[..|s.devices|] == s.devices;
    if MiBCeil(s.hostPeak) > 0 {
      devices, byName := RaiseRow(devices, byName, Host, MiBCeil(s.hostPeak));
    }
  }

  /** rows grew into more: the old rows keep their place, name and labelled parts, and none is lower. */
  ghost predicate Grown(rows: seq<Row>, more: seq<Row>) {
    && |rows| <= |more|
    && forall i :: 0 <= i < |rows| ==>
         more[i].name == rows[i].name && more[i].mb == rows[i].mb.(unaccounted := more[i].mb.unaccounted)
         && more[i].mb.unaccounted >= rows[i].mb.unaccounted
  }

  ghost predicate Covers(rows: seq<Row>, name: Name, mb: int) {
    exists i :: 0 <= i < |rows| && rows[i].name == name && rows[i].mb.Total() >= mb
  }

  lemma RaisedGrows(rows: seq<Row>, name: Name, peak: nat)
    ensures Grown(rows, Raised(rows, name, peak)) && Covers(Raised(rows, name, peak), name, peak)
    ensures forall i :: 0 <= i < |rows| ==>
              Raised(rows, name, peak)[i].mb.Total() ==
              if rows[i].name == name && (forall j :: i < j < |rows| ==> rows[j].name != name)
              then Max(rows[i].mb.Total(), peak) else rows[i].mb.Total()
    ensures Raised(rows, name, peak)[|rows|..] == if HasRow(rows, name) then [] else [Row(name, Amounts(0, 0, 0, peak))]
    ensures OneRowEach(rows) ==> OneRowEach(Raised(rows, name, peak))
    ensures forall n :: HasRow(Raised(rows, name, peak), n) <==> HasRow(rows, n) || n == name
  {
    var i, out := LastRow(rows, name), Raised(rows, name, peak);
    if i == |rows| {
      AppendIndex(rows, out[i]);
      assert out[i].name == name;
    } else {
      assert out[i].name == name && out[i].mb.Total() >= peak;
      forall n ensures HasRow(out, n) <==> HasRow(rows, n) {
        SameNamesSameIndex(rows, out, n);
      }
    }
  }

  lemma CoversGrown(rows: seq<Row>, more: seq<Row>, name: Name, mb: int)
    requires Grown(rows, more) && Covers(rows, name, mb)
    ensures Covers(more, name, mb)
  {
    var i :| 0 <= i < |rows| && rows[i].name == name && rows[i].mb.Total() >= mb;
    assert more[i].name == name;
  }

  /** What reconciling adds to the names there are. */
  ghost predicate Measures(peaks: seq<Peak>, n: Name) {
    exists k :: 0 <= k < |peaks| && n == Cuda(peaks[k].index)
  }

  lemma {:induction false} RaisedAllGrows(rows: seq<Row>, peaks: seq<Peak>)
    ensures Grown(rows, RaisedAll(rows, peaks))
    ensures forall k :: 0 <= k < |peaks| ==> Covers(RaisedAll(rows, peaks), Cuda(peaks[k].index), MiBCeil(peaks[k].bytes))
    ensures OneRowEach(rows) ==> OneRowEach(RaisedAll(rows, peaks))
    ensures forall n :: HasRow(RaisedAll(rows, peaks), n) <==> HasRow(rows, n) || Measures(peaks, n)
  {
    hide Raised, Covers, HasRow, MiBCeil;
    if peaks != [] {
      var m := |peaks| - 1;
      var before := RaisedAll(rows, peaks[..m]);
      RaisedAllGrows(rows, peaks[..m]);
      RaisedGrows(before, Cuda(peaks[m].index), MiBCeil(peaks[m].bytes));
      forall k | 0 <= k < m
        ensures Covers(RaisedAll(rows, peaks), Cuda(peaks[k].index), MiBCeil(peaks[k].bytes))
      {
        assert peaks[..m][k] == peaks[k];
        CoversGrown(before, RaisedAll(rows, peaks), Cuda(peaks[k].index), MiBCeil(peaks[k].bytes));
      }
      forall n ensures Measures(peaks, n) <==> Measures(peaks[..m], n) || n == Cuda(peaks[m].index) {
        if Measures(peaks[..m], n) {
          var k :| 0 <= k < m && n == Cuda(peaks[..m][k].index);
          assert n == Cuda(peaks[k].index);
        }
      }
    }
  }

  /** After reconciling no parsed row is lower or relabelled, and every measured peak, the host's too, is
      covered by a row of its device. */
  lemma ReconciledCovers(parsed: seq<Row>, s: Summary)
    ensures var out := Reconciled(parsed, s);
            && Grown(parsed, out) && (OneRowEach(parsed) ==> OneRowEach(out))
            && (forall k :: 0 <= k < |s.devices| ==> Covers(out, Cuda(s.devices[k].index), MiBCeil(s.devices[k].bytes)))
            && (MiBCeil(s.hostPeak) > 0 ==> Covers(out, Host, MiBCeil(s.hostPeak)))
            && (forall n :: HasRow(out, n) <==> HasRow(parsed, n) || Measures(s.devices, n) || (n == Host && MiBCeil(s.hostPeak) > 0))
  {
    hide Raised, Covers, HasRow, MiBCeil, RaisedAll;
    var devices, out := RaisedAll(parsed, s.devices), Reconciled(parsed, s);
    RaisedAllGrows(parsed, s.devices);
    if MiBCeil(s.hostPeak) > 0 {
      RaisedGrows(devices, Host, MiBCeil(s.hostPeak));
      forall k | 0 <= k < |s.devices| ensures Covers(out, Cuda(s.devices[k].index), MiBCeil(s.devices[k].bytes)) {
        CoversGrown(devices, out, Cuda(s.devices[k].index), MiBCeil(s.devices[k].bytes));
      }
    }
  }

  // Persisting and reloading.

  function RowBytes(mb: Amounts): Bytes {
    Bytes(BytesOf(mb.model), BytesOf(mb.context), BytesOf(mb.compute), BytesOf(mb.unaccounted))
  }

  function RowMiB(b: Bytes): Amounts {
    Amounts(MiBCeil(b.model), MiBCeil(b.context), MiBCeil(b.compute), MiBCeil(b.unaccounted))
  }

  const NO_BYTES := Bytes(0, 0, 0, 0)

  /** A device of a persisted plan: its ID, its measured peak, and its rows in bytes. */
  datatype Entry = Entry(id: Name, peak: nat, bytes: Bytes)

  /** A summary's device map before any row is written into it. */
  function Unlabelled(peaks: seq<Peak>): map<int, Entry> {
    if peaks == [] then map[]
    else
      var last := peaks[|peaks| - 1];
      Unlabelled(peaks[..|peaks| - 1])[last.index := Entry(Cuda(last.index), last.bytes, NO_BYTES)]
  }

  function PeakOf(peaks: seq<Peak>, k: int): nat {
    if peaks == [] then 0
    else if peaks[|peaks| - 1].index == k then peaks[|peaks| - 1].bytes
    else PeakOf(peaks[..|peaks| - 1], k)
  }

  lemma {:induction false} UnlabelledKeys(peaks: seq<Peak>)
    ensures forall k :: k in Unlabelled(peaks) <==> Measures(peaks, Cuda(k))
    ensures forall k :: k in Unlabelled(peaks) ==> Unlabelled(peaks)[k] == Entry(Cuda(k), PeakOf(peaks, k), NO_BYTES)
    ensures forall k :: k !in Unlabelled(peaks) ==> PeakOf(peaks, k) == 0
  {
    if peaks != [] {
      var m := |peaks| - 1;
      UnlabelledKeys(peaks[..m]);
      forall k ensures Measures(peaks, Cuda(k)) <==> Measures(peaks[..m], Cuda(k)) || k == peaks[m].index {
        if Measures(peaks[..m], Cuda(k)) {
          var j :| 0 <= j < m && Cuda(k) == Cuda(peaks[..m][j].index);
          assert Cuda(k) == Cuda(peaks[j].index);
        }
      }
    }
  }

  /** The entry of a CUDA row: what was measured of the device, if anything, with the row's bytes. */
  function Labelled(before: map<int, Entry>, k: int, mb: Amounts): Entry {
    Entry(Cuda(k), if k in before then before[k].peak else 0, RowBytes(mb))
  }

  /** The device entries of a plan: those measured, overwritten by the rows of CUDA devices in turn. */
  function PlanDevices(rows: seq<Row>, peaks: seq<Peak>): map<int, Entry> {
    if rows == [] then Unlabelled(peaks)
    else
      var last := rows[|rows| - 1];
      var before := PlanDevices(rows[..|rows| - 1], peaks);
      if last.name.Cuda? then before[last.name.index := Labelled(before, last.name.index, last.mb)] else before
  }

  function HostRowBytes(rows: seq<Row>): Bytes {
    var i := LastRow(rows, Host);
    if i < |rows| then RowBytes(rows[i].mb) else NO_BYTES
  }

  /** What a process held beyond the accounted host rows is kept as unaccounted. */
  function WithPeak(host: Bytes, peak: nat): Bytes {
    if peak > host.Total() then host.(unaccounted := (host.unaccounted + (peak - host.Total())) % U64) else host
  }

  /** The host's bytes come to the larger of what its row accounts for and what was held, with its labelled
      parts as they were. */
  lemma WithPeakHolds(host: Bytes, peak: nat)
    requires peak < U64
    ensures var b := WithPeak(host, peak);
            && b.Total() == Max(host.Total(), peak)
            && b.model == host.model && b.context == host.context && b.compute == host.compute
            && (peak <= host.Total() ==> b == host)
  {
    var labelled, u := host.model + host.context + host.compute, host.unaccounted;
    if peak > host.Total() {
      ModSum(labelled, u + (peak - host.Total()));
      ModSum(peak - host.Total(), labelled + u);
    }
  }

  lemma ModSum(a: int, b: int)
    ensures (a + b % U64) % U64 == (a + b) % U64
  {
    assert a + b == a + b % U64 + U64 * (b / U64);
    ModTimes(a + b % U64, b / U64);
  }

  lemma ModTimes(a: int, k: int)
    ensures (a + U64 * k) % U64 == a % U64
  {
  }

  /** guardedPlanDevices. */
  method GuardedPlan(rows: seq<Row>, s: Summary) returns (devices: map<int, Entry>, host: Bytes)
    ensures devices == PlanDevices(rows, s.devices) && host == WithPeak(HostRowBytes(rows), s.hostPeak)
  {
    devices := Unlabelled(s.devices);
    host := NO_BYTES;
    for i := 0 to |rows|
      invariant devices == PlanDevices(rows[..i], s.devices) && host == HostRowBytes(rows[..i])
    {
      AppendIndex(rows[..i], rows[i]);
      assert rows[..i + 1] == rows[..i] + [rows[i]] && rows[..i + 1][..i] == rows[..i];
      match rows[i].name {
        case Host => host := RowBytes(rows[i].mb);
        case Cuda(k) => devices := devices[k := Labelled(devices, k, rows[i].mb)];
        case Other(_) =>
      }
    }
    assert rows[..|rows|] == rows;
    if s.hostPeak > host.Total() {
      host := host.(unaccounted := (host.unaccounted + (s.hostPeak - host.Total())) % U64);
    }
  }

  /** loadMemoryEvidence of a plan whose devices are listed in some order: refused unless it was found, at
      the guarded level, and measured something. */
  method Load(found: bool, guarded: bool, listed: seq<Entry>, host: Bytes) returns (rows: Option<seq<Row>>)
    ensures rows == if found && guarded && Loaded(listed, host) != [] then Some(Loaded(listed, host)) else None
  {
    assert |Loaded(listed, host)| == |listed| + (if host.Total() > 0 then 1 else 0);
    if !found || !guarded || (|listed| == 0 && host.Total() == 0) {
      return None;
    }
    var devices: seq<Row> := [];
    for i := 0 to |listed|
      invariant devices == seq(i, k requires 0 <= k < i <= |listed| => Row(listed[k].id, RowMiB(listed[k].bytes)))
    {
      devices := devices + [Row(listed[i].id, RowMiB(listed[i].bytes))];
    }
    if host.Total() > 0 {
      devices := devices + [Row(Host, RowMiB(host))];
    }
    assert devices == Loaded(listed, host);
    assert |devices| > 0;
    return Some(devices);
  }

  function Loaded(listed: seq<Entry>, host: Bytes): seq<Row> {
    seq(|listed|, k requires 0 <= k < |listed| => Row(listed[k].id, RowMiB(listed[k].bytes))) +
    (if host.Total() > 0 then [Row(Host, RowMiB(host))] else [])
  }

  /** The list holds the entries of the map and nothing else. */
  ghost predicate Lists(listed: seq<Entry>, devices: map<int, Entry>) {
    && (forall k <- devices :: devices[k] in listed)
    && (forall e <- listed :: exists k :: k in devices && devices[k] == e)
  }

  /** Rows a launch measures: not negative and within 64 bits of bytes. */
  predicate Sane(mb: Amounts) {
    mb.NonNegative() && mb.Total() < TOO_LARGE
  }

  lemma SaneRowSurvives(mb: Amounts)
    requires Sane(mb)
    ensures RowMiB(RowBytes(mb)) == mb && RowBytes(mb).Total() == mb.Total() * MIB
  {
    hide MiBCeil, BytesOf;
    Exact(mb.model);
    Exact(mb.context);
    Exact(mb.compute);
    Exact(mb.unaccounted);
    assert mb.Total() * MIB == mb.model * MIB + mb.context * MIB + mb.compute * MIB + mb.unaccounted * MIB;
    assert mb.Total() * MIB < U64;
  }

  lemma Exact(mb: int)
    requires 0 <= mb < TOO_LARGE
    ensures BytesOf(mb) == mb * MIB && MiBCeil(BytesOf(mb)) == mb
  {
    hide MiBCeil;
    MiBSurvives(mb);
  }

  /** Every measured device and every CUDA row has an entry, under its own ID and with its measured peak;
      the rows' bytes are the entries' bytes. */
  lemma {:induction false} PlanDevicesAre(rows: seq<Row>, peaks: seq<Peak>)
    requires OneRowEach(rows)
    ensures forall k :: k in PlanDevices(rows, peaks) <==> HasRow(rows, Cuda(k)) || Measures(peaks, Cuda(k))
    ensures forall k :: k in PlanDevices(rows, peaks) ==>
              PlanDevices(rows, peaks)[k].id == Cuda(k) && PlanDevices(rows, peaks)[k].peak == PeakOf(peaks, k)
    ensures forall k :: k !in PlanDevices(rows, peaks) ==> PeakOf(peaks, k) == 0
    ensures forall i :: 0 <= i < |rows| && rows[i].name.Cuda? ==>
              rows[i].name.index in PlanDevices(rows, peaks) &&
              PlanDevices(rows, peaks)[rows[i].name.index].bytes == RowBytes(rows[i].mb)
  {
    hide RowBytes;
    UnlabelledKeys(peaks);
    if rows != [] {
      hide HasRow, Measures;
      var n := |rows| - 1;
      PlanDevicesAre(rows[..n], peaks);
      SeenOneMore(rows[..n], rows[n]);
      assert rows[..n] + [rows[n]] == rows;
    }
  }

  /** Evidence read back is evidence measured: reconciled rows that are persisted and reloaded yield, for
      every CUDA device and for the host, the same MiB by component, and no other rows. */
  lemma ReloadIsMeasured(parsed: seq<Row>, s: Summary, listed: seq<Entry>)
    requires OneRowEach(parsed) && s.hostPeak < TOO_LARGE * MIB - MIB
    requires forall r <- Reconciled(parsed, s) :: Sane(r.mb)
    requires Lists(listed, PlanDevices(Reconciled(parsed, s), s.devices))
    ensures var out := Reconciled(parsed, s);
            var back := Loaded(listed, WithPeak(HostRowBytes(out), s.hostPeak));
            && (forall r <- back :: r in out && !r.name.Other?)
            && (forall r <- out :: r.name.Cuda? || (r.name.Host? && r.mb.Total() > 0) ==> r in back)
  {
    hide LastRow, MiBCeil, RowBytes, RowMiB, PlanDevices, OneRowEach, Reconciled, HostRowBytes, WithPeak;
    var out := Reconciled(parsed, s);
    ReconciledCovers(parsed, s);
    PlanDevicesAre(out, s.devices);
    HostSurvives(out, s.hostPeak);
    var host := WithPeak(HostRowBytes(out), s.hostPeak);
    var back := Loaded(listed, host);
    forall r | r in back ensures r in out && !r.name.Other? {
      var i :| 0 <= i < |back| && back[i] == r;
      if i < |listed| {
        assert listed[i] in listed;
        var k :| k in PlanDevices(out, s.devices) && PlanDevices(out, s.devices)[k] == listed[i];
        DeviceSurvives(out, s.devices, k);
      }
    }
    forall r | r in out && (r.name.Cuda? || (r.name.Host? && r.mb.Total() > 0)) ensures r in back {
      var i :| 0 <= i < |out| && out[i] == r;
      if r.name.Cuda? {
        var k := r.name.index;
        var j :| 0 <= j < |listed| && listed[j] == PlanDevices(out, s.devices)[k];
        SaneRowSurvives(r.mb);
        assert back[j] == r;
      } else {
        SameRow(out, i, LastRow(out, Host));
        assert back[|listed|] == r;
      }
    }
  }

  lemma SameRow(rows: seq<Row>, i: nat, j: nat)
    requires OneRowEach(rows) && i < |rows| && j < |rows| && rows[i].name == rows[j].name
    ensures i == j
  {
  }

  lemma DeviceSurvives(out: seq<Row>, peaks: seq<Peak>, k: int)
    requires OneRowEach(out) && (forall r <- out :: Sane(r.mb)) && k in PlanDevices(out, peaks)
    requires forall n :: Measures(peaks, n) ==> HasRow(out, n)
    ensures Row(Cuda(k), RowMiB(PlanDevices(out, peaks)[k].bytes)) in out
  {
    PlanDevicesAre(out, peaks);
    var i :| 0 <= i < |out| && out[i].name == Cuda(k);
    SaneRowSurvives(out[i].mb);
    assert out[i] == Row(Cuda(k), RowMiB(PlanDevices(out, peaks)[k].bytes));
  }

  /** The host's accounted bytes already cover the peak its row was raised to. */
  lemma HostSurvives(out: seq<Row>, peak: nat)
    requires OneRowEach(out) && (forall r <- out :: Sane(r.mb)) && peak < TOO_LARGE * MIB - MIB
    requires MiBCeil(peak) > 0 ==> Covers(out, Host, MiBCeil(peak))
    ensures var host, i := WithPeak(HostRowBytes(out), peak), LastRow(out, Host);
            if i < |out| then RowMiB(host) == out[i].mb && host.Total() == out[i].mb.Total() * MIB
            else host.Total() == 0
  {
    hide LastRow, MiBCeil, RowBytes, RowMiB, OneRowEach;
    var i := LastRow(out, Host);
    if MiBCeil(peak) > 0 {
      var j :| 0 <= j < |out| && out[j].name == Host && out[j].mb.Total() >= MiBCeil(peak);
      assert HasRow(out, Host);
      SameRow(out, i, j);
    }
    var total := if i < |out| then out[i].mb.Total() else 0;
    PeakWithin(total, peak);
    if i < |out| {
      SaneRowSurvives(out[i].mb);
    }
  }

  lemma PeakWithin(total: int, peak: nat)
    requires total >= MiBCeil(peak) && peak < TOO_LARGE * MIB - MIB
    ensures peak <= total * MIB
  {
    CeilCovers(peak);
  }
}
