/** The serving watch, waitForShutdownCrashOrWedge of go/cmd/ggrun/backend_watchdog.go: how it puts log
    lines together from chunks, and when it kills the backend. Strings are bytes. */
module ServingWatch {
  import opened Options

  // Lines.

  const CARRY := 4096

  function Newline(s: string): (i: nat)
    ensures i <= |s| && (i < |s| ==> s[i] == '\n')
    ensures forall j :: 0 <= j < i ==> s[j] != '\n'
  {
    if s == "" || s[0] == '\n' then 0 else 1 + Newline(s[1..])
  }

  /** The lines of s that end in a newline. */
  function Lines(s: string): seq<string>
    decreases |s|
  {
    var i := Newline(s);
    if i == |s| then [] else [s[..i]] + Lines(s[i + 1..])
  }

  /** What follows the last newline. */
  function Tail(s: string): string
    decreases |s|
  {
    var i := Newline(s);
    if i == |s| then s else Tail(s[i + 1..])
  }

  function Last(s: string): string {
    if |s| > CARRY then s[|s| - CARRY..] else s
  }

  /** The carry after some chunks, and the lines tested on the way. */
  function Carry(chunks: seq<string>): string {
    if chunks == [] then "" else Last(Tail(Carry(chunks[..|chunks| - 1]) + chunks[|chunks| - 1]))
  }

  function Tested(chunks: seq<string>): seq<string> {
    if chunks == [] then []
    else Tested(chunks[..|chunks| - 1]) + Lines(Carry(chunks[..|chunks| - 1]) + chunks[|chunks| - 1])
  }

  function Joined(chunks: seq<string>): string {
    if chunks == [] then "" else Joined(chunks[..|chunks| - 1]) + chunks[|chunks| - 1]
  }

  lemma {:induction false} NewlineIn(a: string, b: string)
    ensures Newline(a + b) == if Newline(a) < |a| then Newline(a) else |a| + Newline(b)
  {
    if a == "" {
      assert a + b == b;
    } else if a[0] != '\n' {
      assert (a + b)[1..] == a[1..] + b;
      NewlineIn(a[1..], b);
    }
  }

  lemma Slices(t: string, b: string, k: nat)
    requires k <= |b|
    ensures (t + b)[..|t| + k] == t + b[..k] && (t + b)[|t| + k..] == b[k..]
  {
  }

  lemma FrontSlices(t: string, b: string, k: nat)
    requires k <= |t|
    ensures (t + b)[..k] == t[..k] && (t + b)[k..] == t[k..] + b
  {
  }

  lemma OneLine(s: string)
    requires Newline(s) < |s|
    ensures var rest := s[Newline(s) + 1..]; Lines(s) == [s[..Newline(s)]] + Lines(rest) && Tail(s) == Tail(rest)
  {
  }

  lemma EmptyLine()
    ensures Newline("") == 0 && Tail("") == ""
  {
  }

  lemma NoLine(s: string)
    requires Newline(s) == |s|
    ensures Lines(s) == [] && Tail(s) == s
  {
  }

  lemma Chain(a: seq<string>, b: seq<string>, c: seq<string>)
    ensures a + b + c == a + (b + c)
  {
  }

  lemma {:induction false} LinesAppend(a: string, b: string)
    ensures Lines(a + b) == Lines(a) + Lines(Tail(a) + b) && Tail(a + b) == Tail(Tail(a) + b)
    decreases |a|
  {
    hide Lines, Tail, Newline;
    var i := Newline(a);
    if i == |a| {
      NoLine(a);
    } else {
      NewlineIn(a, b);
      FrontSlices(a, b, i);
      FrontSlices(a, b, i + 1);
      OneLine(a);
      OneLine(a + b);
      LinesAppend(a[i + 1..], b);
      Chain([a[..i]], Lines(a[i + 1..]), Lines(Tail(a) + b));
    }
  }

  lemma {:induction false} TailPlain(s: string)
    ensures Newline(Tail(s)) == |Tail(s)|
    decreases |s|
  {
    var i := Newline(s);
    if i < |s| {
      TailPlain(s[i + 1..]);
    }
  }

  /** An unfinished line continued by text without a newline, or by text with one. */
  lemma Continued(t: string, b: string)
    requires Newline(t) == |t|
    ensures Newline(b) == |b| ==> Lines(t + b) == [] && Tail(t + b) == t + b
    ensures Newline(b) < |b| ==>
              var rest := b[Newline(b) + 1..];
              Lines(t + b) == [t + b[..Newline(b)]] + Lines(rest) && Tail(t + b) == Tail(rest)
  {
    hide Lines, Tail, Newline;
    NewlineIn(t, b);
    var n := Newline(b);
    if n == |b| {
      NoLine(t + b);
    } else {
      Slices(t, b, n);
      Slices(t, b, n + 1);
      OneLine(t + b);
    }
  }

  /** A line as tested: the line, or at least its last 4,096 bytes when it is longer. */
  ghost predicate SeenAs(line: string, tested: string) {
    && |tested| <= |line| && tested == line[|line| - |tested|..]
    && (tested == line || (|line| > CARRY && |tested| >= CARRY))
  }

  ghost predicate AllSeen(lines: seq<string>, tested: seq<string>) {
    |lines| == |tested| && forall i :: 0 <= i < |lines| ==> SeenAs(lines[i], tested[i])
  }

  lemma LastOfMore(t: string, b: string)
    ensures Last(Last(t) + b) == Last(t + b)
  {
    if |t| > CARRY {
      assert t + b == t[..|t| - CARRY] + (Last(t) + b);
    }
  }

  /** One poll from a carry that is the end of the unfinished line. */
  lemma PollSees(t: string, b: string)
    requires Newline(t) == |t|
    ensures AllSeen(Lines(t + b), Lines(Last(t) + b)) && Last(Tail(Last(t) + b)) == Last(Tail(t + b))
  {
    hide Lines, Tail, Newline, Last;
    var v := Last(t);
    EndPlain(t);
    Continued(t, b);
    Continued(v, b);
    LastOfMore(t, b);
    var n := Newline(b);
    if n < |b| {
      LastSeen(t, b[..n]);
    }
  }

  lemma EndPlain(t: string)
    requires Newline(t) == |t|
    ensures Newline(Last(t)) == |Last(t)|
  {
    if |t| > CARRY {
      assert t == t[..|t| - CARRY] + Last(t);
      NewlineIn(t[..|t| - CARRY], Last(t));
    }
  }

  lemma LastSeen(t: string, b: string)
    ensures SeenAs(t + b, Last(t) + b)
  {
    if |t| > CARRY {
      assert t + b == t[..|t| - CARRY] + (Last(t) + b);
    }
  }

  /** However the log is split into chunks, every finished line of up to 4,096 bytes is tested once,
      whole and in order, and of a longer one at least its last 4,096 bytes. */
  lemma {:induction false} ChunksDoNotMatter(chunks: seq<string>)
    ensures AllSeen(Lines(Joined(chunks)), Tested(chunks)) && Carry(chunks) == Last(Tail(Joined(chunks)))
  {
    if chunks != [] {
      var n := |chunks| - 1;
      var log := Joined(chunks[..n]);
      ChunksDoNotMatter(chunks[..n]);
      LinesAppend(log, chunks[n]);
      TailPlain(log);
      PollSees(Tail(log), chunks[n]);
    }
  }

  /** So two splits of one log whose lines fit the carry test the same lines. */
  lemma SameLinesTested(a: seq<string>, b: seq<string>)
    requires Joined(a) == Joined(b) && forall l <- Lines(Joined(a)) :: |l| <= CARRY
    ensures Tested(a) == Tested(b)
  {
    ChunksDoNotMatter(a);
    ChunksDoNotMatter(b);
    var lines := Lines(Joined(a));
    forall i | 0 <= i < |lines| ensures Tested(a)[i] == Tested(b)[i] {
      assert lines[i] in lines;
    }
  }

  lemma {:induction false} PlainLine(w: string)
    requires Newline(w) == |w|
    ensures Newline(w + "\n") == |w| && Lines(w + "\n") == [w] && Tail(w) == w && Lines(w) == []
  {
    NewlineIn(w, "\n");
    assert (w + "\n")[..|w|] == w && (w + "\n")[|w| + 1..] == "";
  }

  lemma TestedOne(chunk: string)
    ensures Tested([chunk]) == Lines(chunk) && Carry([chunk]) == Last(Tail(chunk)) && Joined([chunk]) == chunk
  {
    hide Lines, Tail, Newline, Last;
    assert [chunk][..0] == [] && "" + chunk == chunk;
  }

  lemma TestedTwo(a: string, b: string)
    ensures Tested([a, b]) == Lines(a) + Lines(Last(Tail(a)) + b) && Joined([a, b]) == a + b
  {
    hide Lines, Tail, Newline, Last;
    TestedOne(a);
    assert [a, b][..1] == [a];
  }

  /** Where a chunk ends inside a line matters exactly when what is carried exceeds the bound. */
  lemma SplitPoint(w: string, k: nat)
    requires k <= |w| && forall i :: 0 <= i < |w| ==> w[i] != '\n'
    ensures Tested([w[..k], w[k..] + "\n"]) == [Last(w[..k]) + w[k..]]
    ensures Tested([w[..k], w[k..] + "\n"]) == [w] <==> k <= CARRY
  {
    hide Lines, Tail, Newline;
    var a, b := w[..k], w[k..];
    TestedTwo(a, b + "\n");
    PlainLine(a);
    PlainLine(Last(a) + b);
    assert Last(a) + (b + "\n") == Last(a) + b + "\n";
    assert a + b == w;
    assert Lines(a) == [];
  }

  /** In any log: a longer line is tested whole when the log comes in one chunk, and only its end when a
      chunk ends right before its newline. */
  lemma LongLineDepends(pre: string, l: string, post: string)
    requires Tail(pre) == "" && |l| > CARRY && Newline(l) == |l|
    ensures var log := pre + (l + ("\n" + post));
            && Joined([log]) == log && Joined([pre + l, "\n" + post]) == log
            && Tested([log]) == Lines(pre) + [l] + Lines(post)
            && Tested([pre + l, "\n" + post]) == Lines(pre) + [Last(l)] + Lines(post)
            && Last(l) != l
  {
    hide Lines, Tail, Newline, Tested, Joined, Last;
    EndPlain(l);
    WholeLine(pre, l, post);
    UnfinishedLine(pre, l);
    FirstLine(Last(l), post);
    TestedOne(pre + (l + ("\n" + post)));
    TestedTwo(pre + l, "\n" + post);
    Chain2(pre, l, "\n" + post);
    Chain(Lines(pre), [Last(l)], Lines(post));
    Shorter(l);
  }

  lemma Shorter(l: string)
    requires |l| > CARRY
    ensures Last(l) != l
  {
    assert |Last(l)| == CARRY;
  }

  lemma Chain2(a: string, b: string, c: string)
    ensures a + b + c == a + (b + c)
  {
  }

  lemma WholeLine(pre: string, l: string, post: string)
    requires Tail(pre) == "" && Newline(l) == |l|
    ensures Lines(pre + (l + ("\n" + post))) == Lines(pre) + [l] + Lines(post)
  {
    hide Lines, Tail, Newline;
    LinesAppend(pre, l + ("\n" + post));
    assert "" + (l + ("\n" + post)) == l + ("\n" + post);
    FirstLine(l, post);
    Chain(Lines(pre), [l], Lines(post));
  }

  lemma UnfinishedLine(pre: string, l: string)
    requires Tail(pre) == "" && Newline(l) == |l|
    ensures Lines(pre + l) == Lines(pre) && Tail(pre + l) == l
  {
    hide Lines, Tail, Newline;
    LinesAppend(pre, l);
    assert "" + l == l;
    NoLine(l);
    assert Lines(pre) + [] == Lines(pre);
  }

  lemma FirstLine(l: string, post: string)
    requires Newline(l) == |l|
    ensures Lines(l + ("\n" + post)) == [l] + Lines(post)
  {
    hide Lines;
    var s := l + ("\n" + post);
    NewlineIn(l, "\n" + post);
    OneLine(s);
    Slices(l, "\n" + post, 0);
    Slices(l, "\n" + post, 1);
    assert ("\n" + post)[1..] == post && l + "" == l;
  }

  /** Every finished line has its place in the log. */
  lemma {:induction false} LineStands(s: string, i: nat) returns (pre: string, post: string)
    requires i < |Lines(s)|
    ensures s == pre + (Lines(s)[i] + ("\n" + post)) && Tail(pre) == ""
    ensures Newline(Lines(s)[i]) == |Lines(s)[i]|
    decreases |s|
  {
    hide Lines, Tail, Newline;
    var n := Newline(s);
    if n == |s| {
      NoLine(s);
    }
    OneLine(s);
    HeadPlain(s);
    var head, rest := s[..n], s[n + 1..];
    if i == 0 {
      EmptyLine();
      pre, post := "", rest;
      assert "" + s == s;
    } else {
      LaterLine(head, Lines(rest), i);
      var inner;
      inner, post := LineStands(rest, i - 1);
      pre := head + ("\n" + inner);
      Stands(head, inner);
      StandsLater(s, head, rest, inner, Lines(rest)[i - 1], post);
    }
  }

  lemma HeadPlain(s: string)
    requires Newline(s) < |s|
    ensures var n := Newline(s); s == s[..n] + ("\n" + s[n + 1..]) && Newline(s[..n]) == n
  {
    hide Newline;
    var n := Newline(s);
    CutAt(s, n);
    NewlineIn(s[..n], "\n" + s[n + 1..]);
  }

  lemma CutAt(s: string, n: nat)
    requires n < |s| && s[n] == '\n'
    ensures s == s[..n] + ("\n" + s[n + 1..])
  {
  }

  lemma LaterLine(x: string, ls: seq<string>, i: nat)
    requires 0 < i < |[x] + ls|
    ensures ([x] + ls)[i] == ls[i - 1]
  {
  }

  /** A line found further on, seen from the line before. */
  lemma StandsLater(s: string, head: string, rest: string, inner: string, l: string, post: string)
    requires s == head + ("\n" + rest) && rest == inner + (l + ("\n" + post))
    ensures s == head + ("\n" + inner) + (l + ("\n" + post))
  {
    Regroup(head, "\n", inner, l + ("\n" + post));
  }

  lemma Regroup(a: string, b: string, c: string, d: string)
    ensures a + (b + c) + d == a + (b + (c + d))
  {
  }

  lemma Stands(head: string, inner: string)
    requires Newline(head) == |head| && Tail(inner) == ""
    ensures Tail(head + ("\n" + inner)) == ""
  {
    hide Tail, Lines;
    Continued(head, "\n" + inner);
    assert ("\n" + inner)[1..] == inner;
  }

  /** Over all logs: what is tested is independent of the split if and only if every finished line fits the
      carry. */
  lemma SplitsAgree(log: string)
    ensures (forall a, b :: Joined(a) == log && Joined(b) == log ==> Tested(a) == Tested(b))
            <==> forall l <- Lines(log) :: |l| <= CARRY
  {
    hide Lines, Tail, Newline, Tested, Joined, Last;
    if forall l <- Lines(log) :: |l| <= CARRY {
      forall a, b | Joined(a) == log && Joined(b) == log ensures Tested(a) == Tested(b) {
        SameLinesTested(a, b);
      }
    } else {
      var l :| l in Lines(log) && |l| > CARRY;
      var i :| 0 <= i < |Lines(log)| && Lines(log)[i] == l;
      var pre, post := LineStands(log, i);
      LongLineDepends(pre, l, post);
      OneDiffers(Lines(pre), l, Last(l), Lines(post));
      assert Joined([log]) == log && Joined([pre + l, "\n" + post]) == log;
    }
  }

  lemma OneDiffers(a: seq<string>, x: string, y: string, b: seq<string>)
    requires x != y
    ensures a + [x] + b != a + [y] + b
  {
    assert (a + [x] + b)[|a|] == x && (a + [y] + b)[|a|] == y;
  }

  // The kill rule.

  /** What one poll of a running backend sees: the new log text; if it holds a fatal line, when that was
      noticed and the ticks read then; whether /health answered; the ticks read after that and when; and
      the time of the final check. */
  datatype Poll = Poll(chunk: string, noticed: int, atNotice: Option<nat>, answers: bool, ticks: Option<nat>,
                       readAt: int, checkedAt: int)

  datatype Tick = Signal | Gone | Alive(poll: Poll)

  datatype Outcome = Shutdown | Died | Killed | Watching

  function OrZero(t: Option<nat>): nat {
    if t.Some? then t.value else 0
  }

  /** The chunks of the polls. */
  function Chunks(polls: seq<Poll>): seq<string> {
    if polls == [] then [] else Chunks(polls[..|polls| - 1]) + [polls[|polls| - 1].chunk]
  }

  /** A fatal line completed at poll k, given what had been carried to it. */
  ghost predicate FatalAt(polls: seq<Poll>, k: nat, fatal: string -> bool) {
    k < |polls| && HasFatal(Lines(Carry(Chunks(polls[..k])) + polls[k].chunk), fatal)
  }

  /** A fatal line was completed at poll j, and /health has been silent since. */
  ghost predicate Open(polls: seq<Poll>, j: nat, fatal: string -> bool) {
    FatalAt(polls, j, fatal) && forall k :: j <= k < |polls| ==> !polls[k].answers
  }

  /** `from` is the first such poll. */
  ghost predicate Silent(polls: seq<Poll>, from: nat, fatal: string -> bool) {
    Open(polls, from, fatal) && forall j: nat :: j < from ==> !Open(polls, j, fatal)
  }

  /** The ticks read before those of poll k, a failed reading counting as 0: when the line was noticed, then
      at every poll. */
  function Before(polls: seq<Poll>, from: nat, k: nat): nat
    requires from <= k < |polls|
  {
    OrZero(if k == from then polls[from].atNotice else polls[k - 1].ticks)
  }

  /** The CPU ticks of poll k differ from those read before, or could not be read. */
  ghost predicate Moved(polls: seq<Poll>, from: nat, k: nat) {
    from <= k < |polls| && polls[k].ticks != Some(Before(polls, from, k))
  }

  /** Since then the ticks have not moved: since they last did, or since the line was noticed. */
  ghost predicate QuietSince(polls: seq<Poll>, from: nat, since: int) {
    || (from < |polls| && since == polls[from].noticed && forall k: nat :: !Moved(polls, from, k))
    || exists q: nat | Moved(polls, from, q) :: since == polls[q].readAt && forall k: nat :: k > q ==> !Moved(polls, from, k)
  }

  /** What the watch kills for, told on the polls: a fatal line, silence since, and ticks that did not move at
      the last poll, nor for confirmAfter up to its check. */
  ghost predicate Overdue(polls: seq<Poll>, fatal: string -> bool, confirmAfter: int) {
    exists from: nat, since: int ::
      Silent(polls, from, fatal) && QuietSince(polls, from, since) && !Moved(polls, from, |polls| - 1) &&
      polls[|polls| - 1].checkedAt - since >= confirmAfter
  }

  /** The locals of the loop. */
  datatype State = State(carry: string, pending: bool, since: int, last: nat)

  const START := State("", false, 0, 0)

  predicate HasFatal(lines: seq<string>, fatal: string -> bool) {
    exists l <- lines :: fatal(l)
  }

  /** The state once the new text is read. */
  function Noticed(s: State, p: Poll, fatal: string -> bool): State {
    var text := s.carry + p.chunk;
    var t := s.(carry := Last(Tail(text)));
    if !s.pending && HasFatal(Lines(text), fatal) then t.(pending := true, since := p.noticed, last := OrZero(p.atNotice))
    else t
  }

  predicate Kills(s: State, p: Poll, fatal: string -> bool, confirmAfter: int) {
    var t := Noticed(s, p, fatal);
    t.pending && !p.answers && p.ticks == Some(t.last) && p.checkedAt - t.since >= confirmAfter
  }

  /** The state after a poll that does not kill. */
  function Next(s: State, p: Poll, fatal: string -> bool): State {
    var t := Noticed(s, p, fatal);
    if !t.pending then t
    else if p.answers then t.(pending := false)
    else if p.ticks != Some(t.last) then t.(last := OrZero(p.ticks), since := p.readAt)
    else t
  }

  function Fold(polls: seq<Poll>, fatal: string -> bool): State {
    if polls == [] then START else Next(Fold(polls[..|polls| - 1], fatal), polls[|polls| - 1], fatal)
  }

  /** Nothing was overdue before poll n. */
  ghost predicate QuietUntil(polls: seq<Poll>, n: nat, fatal: string -> bool, confirmAfter: int) {
    forall k: nat :: k <= n <= |polls| ==> !Overdue(polls[..k], fatal, confirmAfter)
  }

  /** The loop over a run of ticks: it ends at the first signal, exit or killing poll. */
  method WaitForShutdownCrashOrWedge(run: seq<Tick>, fatal: string -> bool, confirmAfter: int)
    returns (out: Outcome, polls: seq<Poll>)
    ensures |polls| <= |run| && forall k :: 0 <= k < |polls| ==> run[k] == Alive(polls[k])
    ensures QuietUntil(polls, if out == Killed && polls != [] then |polls| - 1 else |polls|, fatal, confirmAfter)
    ensures match out
            case Shutdown => |polls| < |run| && run[|polls|] == Signal
            case Died => |polls| < |run| && run[|polls|] == Gone
            case Watching => |polls| == |run|
            case Killed => Overdue(polls, fatal, confirmAfter)
  {
    hide Fold, Lines, Tail, Last, HasFatal, QuietUntil, Overdue;
    var carry, pending := "", false;
    var fatalSince: int, lastTicks: nat := 0, 0;
    polls := [];
    NothingFolded(fatal, confirmAfter);
    for i := 0 to |run|
      invariant |polls| == i && forall k :: 0 <= k < i ==> run[k] == Alive(polls[k])
      invariant Fold(polls, fatal) == State(carry, pending, fatalSince, lastTicks)
      invariant QuietUntil(polls, i, fatal, confirmAfter)
    {
      if run[i] == Signal {
        return Shutdown, polls;
      }
      if run[i] == Gone {
        return Died, polls;
      }
      var p := run[i].poll;
      FoldMore(polls, p, fatal, confirmAfter);
      KillMeans(polls, p, fatal, confirmAfter);
      polls := polls + [p];
      var text := carry + p.chunk;
      carry := Last(Tail(text));
      if !pending {
        if !HasFatal(Lines(text), fatal) {
          continue;
        }
        pending, fatalSince, lastTicks := true, p.noticed, OrZero(p.atNotice);
      }
      if p.answers {
        pending := false;
        continue;
      }
      if p.ticks != Some(lastTicks) {
        lastTicks, fatalSince := OrZero(p.ticks), p.readAt;
        continue;
      }
      if p.checkedAt - fatalSince >= confirmAfter {
        return Killed, polls;
      }
    }
    return Watching, polls;
  }

  lemma NothingFolded(fatal: string -> bool, confirmAfter: int)
    ensures Fold([], fatal) == START && QuietUntil([], 0, fatal, confirmAfter)
  {
    assert forall from: nat :: !Silent([], from, fatal);
  }

  lemma FoldMore(polls: seq<Poll>, p: Poll, fatal: string -> bool, confirmAfter: int)
    requires QuietUntil(polls, |polls|, fatal, confirmAfter)
    ensures Fold(polls + [p], fatal) == Next(Fold(polls, fatal), p, fatal)
    ensures QuietUntil(polls + [p], |polls|, fatal, confirmAfter)
    ensures !Overdue(polls + [p], fatal, confirmAfter) ==> QuietUntil(polls + [p], |polls| + 1, fatal, confirmAfter)
  {
    hide Next, Overdue;
    var more := polls + [p];
    assert more[..|polls|] == polls && more[..|more|] == more;
    assert forall k: nat :: k <= |polls| ==> more[..k] == polls[..k];
  }

  lemma {:induction false} CarryFolds(polls: seq<Poll>, fatal: string -> bool)
    ensures Fold(polls, fatal).carry == Carry(Chunks(polls))
  {
    if polls != [] {
      var n := |polls| - 1;
      CarryFolds(polls[..n], fatal);
      assert Chunks(polls)[..n] == Chunks(polls[..n]) by {
        ChunkCount(polls[..n]);
      }
    }
  }

  lemma {:induction false} ChunkCount(polls: seq<Poll>)
    ensures |Chunks(polls)| == |polls|
  {
    if polls != [] {
      ChunkCount(polls[..|polls| - 1]);
    }
  }

  /** A fatal line is completed at some poll exactly if one is among the lines tested of the log's chunks. */
  lemma {:induction false} FatalTested(polls: seq<Poll>, fatal: string -> bool)
    ensures (exists k: nat :: FatalAt(polls, k, fatal)) <==> HasFatal(Tested(Chunks(polls)), fatal)
  {
    hide Lines, Carry;
    if polls == [] {
      assert forall k: nat :: !FatalAt(polls, k, fatal);
    } else {
      var n := |polls| - 1;
      FatalTested(polls[..n], fatal);
      ChunkCount(polls);
      ChunkCount(polls[..n]);
      assert Chunks(polls)[..n] == Chunks(polls[..n]);
      assert forall k: nat :: k < n ==> polls[..n][..k] == polls[..k];
      assert forall k: nat :: k < n ==> (FatalAt(polls, k, fatal) <==> FatalAt(polls[..n], k, fatal));
      assert forall k: nat :: FatalAt(polls, k, fatal) ==> k <= n;
      assert forall k: nat :: FatalAt(polls[..n], k, fatal) ==> FatalAt(polls, k, fatal);
      var more := Lines(Carry(Chunks(polls[..n])) + polls[n].chunk);
      assert Tested(Chunks(polls)) == Tested(Chunks(polls[..n])) + more;
      EitherFatal(Tested(Chunks(polls[..n])), more, fatal);
      assert FatalAt(polls, n, fatal) <==> HasFatal(more, fatal);
    }
  }

  lemma EitherFatal(a: seq<string>, b: seq<string>, fatal: string -> bool)
    ensures HasFatal(a + b, fatal) <==> HasFatal(a, fatal) || HasFatal(b, fatal)
  {
    forall l | l in a || l in b ensures l in a + b {
    }
  }

  /** What a poll makes of an open fatal line. */
  lemma OpenStep(polls: seq<Poll>, fatal: string -> bool)
    requires polls != []
    ensures var n := |polls| - 1;
            forall j: nat :: Open(polls, j, fatal) <==>
              !polls[n].answers && if j == n then FatalAt(polls, n, fatal) else j < n && Open(polls[..n], j, fatal)
    ensures var before := polls[..|polls| - 1]; forall j: nat :: Open(before, j, fatal) ==> j < |before|
  {
    hide HasFatal, Lines;
    var n := |polls| - 1;
    assert forall j: nat :: j <= n ==> polls[..n][..j] == polls[..j];
  }

  /** A line is pending exactly if one is open. */
  lemma {:induction false} PendingOpen(polls: seq<Poll>, fatal: string -> bool)
    ensures Fold(polls, fatal).pending <==> exists j: nat :: Open(polls, j, fatal)
  {
    hide HasFatal, Lines, Tail, Last, Open;
    if polls == [] {
      NoneOpen(fatal);
    } else {
      var n := |polls| - 1;
      PendingOpen(polls[..n], fatal);
      OpenStep(polls, fatal);
      CarryFolds(polls[..n], fatal);
      if Fold(polls, fatal).pending {
        if Fold(polls[..n], fatal).pending {
          var j: nat :| Open(polls[..n], j, fatal);
          assert Open(polls, j, fatal);
        } else {
          assert Open(polls, n, fatal);
        }
      }
    }
  }

  lemma NoneOpen(fatal: string -> bool)
    ensures forall j: nat :: !Open([], j, fatal)
  {
  }

  lemma {:induction false} FirstOpen(polls: seq<Poll>, j: nat, fatal: string -> bool) returns (from: nat)
    requires Open(polls, j, fatal)
    ensures Silent(polls, from, fatal)
  {
    hide Open;
    if exists i: nat :: i < j && Open(polls, i, fatal) {
      var i: nat :| i < j && Open(polls, i, fatal);
      from := FirstOpen(polls, i, fatal);
    } else {
      from := j;
    }
  }

  lemma QuietStep(polls: seq<Poll>, from: nat)
    requires from < |polls| - 1
    ensures var n := |polls| - 1;
            forall since :: QuietSince(polls, from, since) <==>
              if Moved(polls, from, n) then since == polls[n].readAt else QuietSince(polls[..n], from, since)
  {
    var n := |polls| - 1;
    assert forall k: nat :: k < n ==> (Moved(polls, from, k) <==> Moved(polls[..n], from, k));
    assert forall k: nat :: k >= n ==> !Moved(polls[..n], from, k);
    assert forall k: nat :: k > n ==> !Moved(polls, from, k);
  }

  lemma QuietBegins(polls: seq<Poll>, from: nat)
    requires from == |polls| - 1
    ensures forall since :: QuietSince(polls, from, since) <==>
              since == if Moved(polls, from, from) then polls[from].readAt else polls[from].noticed
  {
    assert forall k: nat :: Moved(polls, from, k) ==> k == from;
  }

  /** While a line is pending the locals hold what the polls say: the last ticks and since when they have
      been quiet. */
  lemma {:induction false} PendingHolds(polls: seq<Poll>, from: nat, fatal: string -> bool)
    requires Silent(polls, from, fatal)
    ensures var n := |polls| - 1; var s := Fold(polls, fatal);
            && s.pending && s.last == OrZero(polls[n].ticks)
            && Noticed(Fold(polls[..n], fatal), polls[n], fatal).pending
            && Noticed(Fold(polls[..n], fatal), polls[n], fatal).last == Before(polls, from, n)
            && forall since :: QuietSince(polls, from, since) <==> since == s.since
  {
    hide HasFatal, Lines, Tail, Last, Open, QuietSince;
    var n := |polls| - 1;
    PendingOpen(polls, fatal);
    PendingOpen(polls[..n], fatal);
    OpenStep(polls, fatal);
    if from < n {
      PendingHolds(polls[..n], from, fatal);
      QuietStep(polls, from);
    } else {
      CarryFolds(polls[..n], fatal);
      QuietBegins(polls, from);
      assert forall j: nat :: Open(polls[..n], j, fatal) ==> Open(polls, j, fatal);
      assert !Fold(polls[..n], fatal).pending;
    }
  }

  /** The loop kills at a poll if and only if a fatal line is overdue there. */
  lemma KillMeans(polls: seq<Poll>, p: Poll, fatal: string -> bool, confirmAfter: int)
    ensures Kills(Fold(polls, fatal), p, fatal, confirmAfter) <==> Overdue(polls + [p], fatal, confirmAfter)
  {
    hide HasFatal, Lines, Tail, Last, Open, QuietSince, Fold;
    var all := polls + [p];
    assert all[..|polls|] == polls;
    FoldOne(polls, p, fatal);
    PendingOpen(all, fatal);
    if Fold(all, fatal).pending {
      var j: nat :| Open(all, j, fatal);
      var from := FirstOpen(all, j, fatal);
      PendingHolds(all, from, fatal);
      OpenStep(all, fatal);
      assert QuietSince(all, from, Fold(all, fatal).since);
    }
  }

  lemma FoldOne(polls: seq<Poll>, p: Poll, fatal: string -> bool)
    ensures Fold(polls + [p], fatal) == Next(Fold(polls, fatal), p, fatal)
  {
    assert (polls + [p])[..|polls|] == polls;
  }

  /** Once a fatal line is noticed, polls that stay silent with the ticks read at that moment end in a kill
      at the first check confirmAfter later. */
  lemma {:induction false} SilenceKills(before: seq<Poll>, silent: seq<Poll>, fatal: string -> bool, confirmAfter: int)
    requires silent != [] && !Fold(before, fatal).pending && Noticed(Fold(before, fatal), silent[0], fatal).pending
    requires silent[0].atNotice.Some?
    requires forall k :: 0 <= k < |silent| ==> !silent[k].answers && silent[k].ticks == silent[0].atNotice
    requires silent[|silent| - 1].checkedAt - silent[0].noticed >= confirmAfter
    ensures Kills(Fold(before + silent[..|silent| - 1], fatal), silent[|silent| - 1], fatal, confirmAfter)
  {
    hide Fold, Lines, Tail, Last, HasFatal;
    var n := |silent| - 1;
    if n > 0 {
      StaysPending(before, silent[..n], fatal);
    } else {
      assert before + silent[..n] == before;
    }
  }

  lemma {:induction false} StaysPending(before: seq<Poll>, silent: seq<Poll>, fatal: string -> bool)
    requires silent != [] && !Fold(before, fatal).pending && Noticed(Fold(before, fatal), silent[0], fatal).pending
    requires silent[0].atNotice.Some?
    requires forall k :: 0 <= k < |silent| ==> !silent[k].answers && silent[k].ticks == silent[0].atNotice
    ensures var s := Fold(before + silent, fatal);
            s.pending && s.since == silent[0].noticed && s.last == silent[0].atNotice.value
  {
    hide Lines, Tail, Last, HasFatal;
    var n := |silent| - 1;
    assert (before + silent)[..|before| + n] == before + silent[..n];
    if n > 0 {
      StaysPending(before, silent[..n], fatal);
    } else {
      assert before + silent[..n] == before;
    }
  }
}
