/** WorkflowNoTimeoutScript itself, and the statements about it a caller relies on. */
module WorkflowScript {
  import opened Text
  import opened WorkflowLexer
  import opened WorkflowRewrite
  import opened WorkflowIdempotent
  import opened WorkflowEdits

  /** What WorkflowNoTimeoutScript returns for a script. */
  function NoTimeout(script: string): string {
    Rewrite('\0', script)
  }

  // ---- Positions of a call's parts ----

  /** Arguments after the second. */
  function Others(args: seq<string>): string {
    if |args| <= 2 then "" else "," + Join(args[2..])
  }

  lemma JoinTwo(args: seq<string>)
    requires |args| >= 2
    ensures Join(args) == args[0] + "," + (args[1] + Others(args))
  {
    assert args[1..][1..] == args[2..];
    if |args| > 2 {
      Assoc(args[1], ",", Join(args[2..]));
    }
  }

  lemma RewrittenTwo(args: seq<string>)
    requires |args| >= 2
    ensures Join(RewriteArgs(args)) == args[0] + "," + (RewriteOptions(args[1]) + Others(args))
  {
    var made := RewriteArgs(args);
    JoinTwo(made);
    assert |args| > 2 ==> made[2..] == args[2..];
  }

  /** The commas of a call with options stand around its second argument. */
  lemma SecondArgument(args: seq<string>, base: nat)
    requires |args| >= 2
    ensures var commas := CommasAt(args, base);
      && commas != [] && commas[0] == base + |args[0]|
      && (|commas| > 1 <==> |args| > 2)
      && (|commas| > 1 ==> commas[1] == base + |args[0]| + 1 + |args[1]|)
  {
  }

  /** The edit for one call whose arguments begin at base, if it needs one. */
  datatype Change = Keep | Change(start: nat, end: nat, text: string)

  function TheChange(args: seq<string>, base: nat): Change
    requires args != []
  {
    if |args| == 1 then Change(base + |args[0]|, base + |args[0]|, ", " + OBJECT)
    else OptionsEdit(args[1], base + |args[0]| + 1)
  }

  /** The edit, made in the argument text, gives the rewritten arguments. */
  lemma ChangeRewrites(args: seq<string>)
    requires args != []
    ensures Makes(Join(args), TheChange(args, 0), Join(RewriteArgs(args)))
  {
    hide HasStall, SpaceLen, TrimmedLen;
    if |args| == 1 {
      assert RewriteArgs(args)[1..] == [" " + OBJECT];
      Assoc(args[0], ",", " " + OBJECT);
      Assoc(",", " ", OBJECT);
      assert Join(args)[..|args[0]|] == args[0] && Join(args)[|args[0]|..] == "";
    } else {
      JoinTwo(args);
      RewrittenTwo(args);
      OptionsChange(args[0] + ",", args[1], Others(args));
    }
  }

  /** The edit of an options argument that begins at `at`. */
  function OptionsEdit(arg: string, at: nat): Change {
    var lead, end := SpaceLen(arg), TrimmedLen(arg);
    if lead >= end then Change(at + lead, at + lead, OBJECT)
    else WrapEdit(at + lead, at + end, TrimSpace(arg[lead..end]))
  }

  function WrapEdit(start: nat, end: nat, expr: string): Change {
    if HasStall(expr) then Keep else Change(start, end, Wrap(expr))
  }

  lemma OptionsChange(v: string, arg: string, w: string)
    ensures Makes(v + (arg + w), OptionsEdit(arg, |v|), v + (RewriteOptions(arg) + w))
  {
    hide TrimSpace, SpaceLen, TrimmedLen, HasStall, Wrap, Makes;
    var lead, end := SpaceLen(arg), TrimmedLen(arg);
    if lead >= end {
      ChangeInside(v, arg, w, lead, lead, OBJECT);
    } else if !HasStall(TrimSpace(arg[lead..end])) {
      ChangeInside(v, arg, w, lead, end, Wrap(TrimSpace(arg[lead..end])));
    } else {
      NoChange(v + (arg + w));
    }
  }

  lemma ChangeShift(args: seq<string>, base: nat)
    requires args != []
    ensures TheChange(args, base) == Shift(TheChange(args, 0), base)
  {
  }

  function Shift(c: Change, offset: nat): Change {
    if c.Keep? then c else Change(c.start + offset, c.end + offset, c.text)
  }

  /** Making the change in `before` gives `after`. */
  predicate Makes(before: string, c: Change, after: string) {
    match c
    case Keep => after == before
    case Change(start, end, text) =>
      start <= end <= |before| && after == before[..start] + text + before[end..]
  }

  lemma NoChange(t: string)
    ensures Makes(t, Keep, t)
  {
  }

  lemma ChangeInside(v: string, arg: string, w: string, lead: nat, stop: nat, text: string)
    requires lead <= stop <= |arg|
    ensures Makes(v + (arg + w), Change(|v| + lead, |v| + stop, text), v + ((arg[..lead] + text + arg[stop..]) + w))
  {
    var t := v + (arg + w);
    assert t[..|v| + lead] == v + arg[..lead];
    assert t[|v| + stop..] == arg[stop..] + w;
    Assoc(arg[..lead] + text, arg[stop..], w);
    Assoc(v, arg[..lead] + text, arg[stop..] + w);
    Assoc(v, arg[..lead], text);
  }

  // ---- Following the rewriter through the script ----

  /** The piece of the script at i. */
  function PieceAt(script: string, i: nat): Piece
    requires i < |script|
  {
    NextPiece(LastNonSpace('\0', script[..i]), script[i..])
  }

  /** The rewritten text from i on. */
  function Tail(script: string, i: nat): string
    requires i <= |script|
  {
    Rewrite(LastNonSpace('\0', script[..i]), script[i..])
  }

  lemma {:induction false} LastNonSpaceOf(prev: char, v: string, w: string)
    ensures LastNonSpace(prev, v + w) == LastNonSpace(LastNonSpace(prev, v), w)
    decreases |w|
  {
    if w == [] {
      assert v + w == v;
    } else {
      assert (v + w)[..|v + w| - 1] == v + w[..|w| - 1];
      if IsSpace(w[|w| - 1]) {
        LastNonSpaceOf(prev, v, w[..|w| - 1]);
        assert TrimmedLen(w) == TrimmedLen(w[..|w| - 1]);
        assert TrimmedLen(v + w) == TrimmedLen(v + w[..|w| - 1]);
      }
    }
  }

  lemma Slices(s: string, i: nat, j: nat)
    requires i <= j <= |s|
    ensures s[..j] == s[..i] + s[i..j] && s[i..][..j - i] == s[i..j] && s[i..][j - i..] == s[j..]
  {
  }

  lemma TailText(script: string, i: nat, j: nat)
    requires i < j <= |script| && PieceAt(script, i) == Text(j - i)
    ensures Tail(script, i) == script[i..j] + Tail(script, j)
  {
    hide Wrap, TrimmedLen, BlockEnd;
    Slices(script, i, j);
    LastNonSpaceOf('\0', script[..i], script[i..j]);
  }

  /** Where head, inside and rest stand in the script. */
  predicate Lies(script: string, i: nat, head: string, inside: string, rest: string) {
    var base, close := i + |head|, i + |head| + |inside|;
    && close < |script| && script[i..base] == head && script[base..close] == inside
    && script[close] == ')' && script[close + 1..] == rest
  }

  lemma LiesAt(script: string, i: nat, head: string, inside: string, rest: string)
    requires i <= |script| && script[i..] == head + (inside + ")" + rest)
    ensures Lies(script, i, head, inside, rest)
  {
    var base, close := i + |head|, i + |head| + |inside|;
    var t := script[i..];
    Slices(script, i, base);
    assert t[..|head|] == head && t[|head|..] == inside + ")" + rest;
    Slices(script, base, close);
    Slices(script, base, close + 1);
    var u := script[base..];
    assert u[..|inside|] == inside && u[|inside|] == ')' && u[|inside| + 1..] == rest;
  }

  /** The parts of a call piece lie where the index arithmetic expects them. */
  lemma CallLies(script: string, i: nat, c: Piece)
    requires i < |script| && c == PieceAt(script, i) && c.Call?
    ensures |CallHead(script[i..], c.gap)| == |AGENT| + c.gap + 1
    ensures Lies(script, i, CallHead(script[i..], c.gap), Join(c.args), c.rest)
  {
    CallText(script[i..], c);
    LiesAt(script, i, CallHead(script[i..], c.gap), Join(c.args), c.rest);
  }

  /** A call in terms of positions. */
  lemma CallAt(script: string, i: nat, c: Piece, base: nat, close: nat)
    requires i < |script| && c == PieceAt(script, i) && c.Call? && c.args != []
    requires base == i + |AGENT| + c.gap + 1 && close == base + |Join(c.args)|
    ensures close < |script| && script[base..close] == Join(c.args) && script[close] == ')'
    ensures script[i..base] == CallHead(script[i..], c.gap) && script[close + 1..] == c.rest
  {
    hide NextPiece, Scan;
    CallLies(script, i, c);
  }

  /** The rewriter's output for a call. */
  lemma TailAtCall(script: string, i: nat, c: Piece, base: nat, close: nat)
    requires i < |script| && c == PieceAt(script, i) && c.Call? && c.args != []
    requires i <= base <= close < |script| && script[close] == ')' && script[close + 1..] == c.rest
    requires script[i..base] == CallHead(script[i..], c.gap)
    ensures Tail(script, i) == script[i..base] + (Join(RewriteArgs(c.args)) + ")") + Tail(script, close + 1)
  {
    TailOfCall(script, i, c);
    TailAfterClose(script, close);
    Assoc(script[i..base], Join(RewriteArgs(c.args)) + ")", Rewrite(')', c.rest));
  }

  lemma TailOfCall(script: string, i: nat, c: Piece)
    requires i < |script| && c == PieceAt(script, i) && c.Call? && c.args != []
    ensures Tail(script, i)
         == CallHead(script[i..], c.gap) + (Join(RewriteArgs(c.args)) + ")" + Rewrite(')', c.rest))
  {
  }

  lemma TailAfterClose(script: string, close: nat)
    requires close < |script| && script[close] == ')'
    ensures Tail(script, close + 1) == Rewrite(')', script[close + 1..])
  {
    AfterClose(script, close);
  }

  function Add(edits: seq<Edit>, c: Change): seq<Edit> {
    if c.Keep? then edits else edits + [Edit(c.start, c.end, c.text)]
  }

  lemma AfterClose(script: string, close: nat)
    requires close < |script| && script[close] == ')'
    ensures LastNonSpace('\0', script[..close + 1]) == ')'
  {
    assert script[..close + 1][close] == ')';
  }

  /** Recording a call's edit splices the rewritten call behind what was there. */
  lemma SpliceCall(script: string, edits: seq<Edit>, i: nat, base: nat, close: nat, ch: Change, made: string)
    requires i < base <= close < |script| && InOrder(edits, i + 1)
    requires script[close] == ')' && Makes(script[base..close], ch, made)
    ensures InOrder(Add(edits, Shift(ch, base)), close + 2)
    ensures Splice(script, Add(edits, Shift(ch, base)), close + 1)
         == Splice(script, edits, i) + (script[i..base] + (made + ")"))
  {
    hide Splice, InOrder, Makes;
    if ch.Keep? {
      SpliceKept(script, edits, i, base, close, made);
    } else {
      SpliceChanged(script, edits, i, base, close, ch, made);
    }
  }

  lemma SpliceKept(script: string, edits: seq<Edit>, i: nat, base: nat, close: nat, made: string)
    requires i < base <= close < |script| && InOrder(edits, i + 1)
    requires script[close] == ')' && Makes(script[base..close], Keep, made)
    ensures InOrder(edits, close + 2)
    ensures Splice(script, edits, close + 1) == Splice(script, edits, i) + (script[i..base] + (made + ")"))
  {
    hide Splice;
    InOrderMore(edits, i + 1, close + 2);
    SpliceFurther(script, edits, i, close + 1);
    assert script[i..close + 1] == script[i..base] + (made + ")");
  }

  lemma SpliceChanged(script: string, edits: seq<Edit>, i: nat, base: nat, close: nat, ch: Change, made: string)
    requires i < base <= close < |script| && InOrder(edits, i + 1) && ch.Change?
    requires script[close] == ')' && Makes(script[base..close], ch, made)
    ensures InOrder(Add(edits, Shift(ch, base)), close + 2)
    ensures Splice(script, Add(edits, Shift(ch, base)), close + 1)
         == Splice(script, edits, i) + (script[i..base] + (made + ")"))
  {
    hide Splice, InOrder;
    var before, inside := Splice(script, edits, i), script[base..close];
    var s, e := ch.start + base, ch.end + base;
    InOrderMore(edits, i + 1, s);
    SpliceFurther(script, edits, i, s);
    SpliceAdd(script, edits, Edit(s, e, ch.text), close + 1);
    assert script[i..s] == script[i..base] + inside[..ch.start];
    assert script[e..close + 1] == inside[ch.end..] + ")";
    SevenPieces(before, script[i..base], inside[..ch.start], ch.text, inside[ch.end..], ")");
  }

  lemma SpliceAdd(script: string, edits: seq<Edit>, e: Edit, i: nat)
    requires e.start <= e.end < i <= |script| && InOrder(edits, e.start)
    ensures InOrder(edits + [e], i + 1) && InOrder(edits, e.start + 1)
    ensures Splice(script, edits + [e], i) == Splice(script, edits, e.start) + e.text + script[e.end..i]
  {
    assert (edits + [e])[..|edits|] == edits;
    InOrderMore(edits, e.start, e.start + 1);
  }

  lemma SevenPieces(v: string, a: string, b: string, c: string, d: string, e: string)
    ensures v + (a + b) + c + (d + e) == v + (a + ((b + c + d) + e))
  {
    Assoc(v, a, b);
    FivePieces(v + a, b, c, d, e);
    Assoc(v, a, (b + c + d) + e);
  }

  lemma FivePieces(a: string, b: string, c: string, d: string, e: string)
    ensures a + b + c + (d + e) == a + ((b + c + d) + e)
  {
    Assoc(a, b, c);
    Assoc(b + c, d, e);
    Assoc(a, b + c, d + e);
  }

  // ---- The method ----

  /** The end of the identifier at i. */
  method SkipIdent(s: string, i: nat) returns (j: nat)
    requires i < |s|
    ensures j == i + 1 + IdentLen(s[i + 1..])
  {
    j := i + 1;
    while j < |s| && IsIdentPart(s[j])
      invariant i + 1 <= j <= |s|
      invariant i + 1 + IdentLen(s[i + 1..]) == j + IdentLen(s[j..])
    {
      assert s[j..][1..] == s[j + 1..];
      j := j + 1;
    }
  }

  /** The edit for a call with options. */
  method EditOptions(script: string, at: nat, secondEnd: nat) returns (ch: Change)
    requires 0 < at <= secondEnd < |script| && !IsSpace(script[secondEnd]) && !IsSpace(script[at - 1])
    ensures ch == OptionsEdit(script[at..secondEnd], at)
  {
    hide OptionsEdit;
    var secondStart := SkipJSSpace(script, at);
    var trimmedEnd := TrimJSSpaceBack(script, secondEnd);
    OptionsLie(script, at, secondEnd, secondStart, trimmedEnd);
    if secondStart >= trimmedEnd {
      return Change(secondStart, secondStart, OBJECT);
    }
    ch := EditExpr(secondStart, trimmedEnd, TrimSpace(script[secondStart..trimmedEnd]));
  }

  lemma OptionsLie(script: string, at: nat, end: nat, start: nat, stop: nat)
    requires 0 < at <= end < |script| && !IsSpace(script[end]) && !IsSpace(script[at - 1])
    requires start == at + SpaceLen(script[at..]) && stop == TrimmedLen(script[..end])
    ensures start >= stop ==> OptionsEdit(script[at..end], at) == Change(start, start, OBJECT)
    ensures stop <= end
    ensures start < stop ==>
              OptionsEdit(script[at..end], at) == WrapEdit(start, stop, TrimSpace(script[start..stop]))
  {
    hide WrapEdit, TrimSpace, SpaceLen, TrimmedLen;
    var arg := script[at..end];
    ArgumentTrims(script, at, end, arg);
    var lead, last := SpaceLen(arg), TrimmedLen(arg);
    if lead < last {
      SubSlice(script, at, end, lead, last);
    }
  }

  method EditExpr(start: nat, end: nat, expr: string) returns (ch: Change)
    ensures ch == WrapEdit(start, end, expr)
  {
    if !HasStall(expr) {
      return Change(start, end, Wrap(expr));
    }
    ch := Keep;
  }

  /** The edit for one call. */
  method EditCall(script: string, open: nat, close: nat, commas: seq<nat>, ghost args: seq<string>) returns (ch: Change)
    requires open < close < |script| && args != [] && commas == CommasAt(args, open + 1)
    requires script[open + 1..close] == Join(args) && script[close] == ')'
    ensures ch == TheChange(args, open + 1)
  {
    hide OptionsEdit;
    if |commas| == 0 {
      return Change(close, close, ", " + OBJECT);
    }
    ArgumentLies(script, open, close, args);
    var secondEnd := if |commas| > 1 then commas[1] else close;
    ch := EditOptions(script, commas[0] + 1, secondEnd);
  }

  lemma SubSlice(s: string, at: nat, end: nat, i: nat, j: nat)
    requires at <= end <= |s| && i <= j <= end - at
    ensures s[at..end][i..j] == s[at + i..at + j]
  {
    var u, v := s[at..end][i..j], s[at + i..at + j];
    assert |u| == |v|;
    assert forall k :: 0 <= k < |u| ==> u[k] == s[at + i + k] == v[k];
  }

  lemma ArgumentLies(script: string, open: nat, close: nat, args: seq<string>)
    requires open < close < |script| && |args| >= 2
    requires script[open + 1..close] == Join(args) && script[close] == ')'
    ensures var commas := CommasAt(args, open + 1); var at := open + 1 + |args[0]| + 1;
      && commas != [] && commas[0] + 1 == at && (|commas| > 1 <==> |args| > 2)
      && (var end := if |commas| > 1 then commas[1] else close;
          && end == at + |args[1]| < |script| && script[at..end] == args[1]
          && !IsSpace(script[end]) && !IsSpace(script[at - 1]))
  {
    hide CommasAt;
    SecondArgument(args, open + 1);
    JoinTwo(args);
    ArgumentSlice(script, open + 1, close, args[0], args[1], Others(args));
    if |args| > 2 {
      assert Others(args)[0] == ',';
    }
  }

  lemma ArgumentSlice(script: string, base: nat, close: nat, a: string, b: string, w: string)
    requires base <= close < |script| && script[base..close] == a + "," + (b + w)
    ensures var at := base + |a| + 1;
      && at + |b| + |w| == close && script[at - 1] == ',' && script[at..at + |b|] == b
      && (w != "" ==> script[at + |b|] == w[0])
  {
    var inside := script[base..close];
    assert inside[|a|] == ',';
    assert inside[|a| + 1..] == b + w;
    assert inside[|a| + 1..|a| + 1 + |b|] == (b + w)[..|b|] == b;
    assert w != "" ==> inside[|a| + 1 + |b|] == (b + w)[|b|];
  }

  /** Skipping and trimming white space in the script stays inside the second argument. */
  lemma ArgumentTrims(script: string, at: nat, end: nat, arg: string)
    requires 0 < at <= end < |script| && script[at..end] == arg
    requires !IsSpace(script[end]) && !IsSpace(script[at - 1])
    ensures SpaceLen(script[at..]) == SpaceLen(arg)
    ensures SpaceLen(arg) >= TrimmedLen(arg) <==> at + SpaceLen(arg) >= TrimmedLen(script[..end])
    ensures SpaceLen(arg) < TrimmedLen(arg) ==> TrimmedLen(script[..end]) == at + TrimmedLen(arg)
  {
    hide SpaceLen, TrimmedLen;
    var lead, stop := SpaceLen(arg), TrimmedLen(arg);
    assert script[at..] == arg[..lead] + (arg[lead..] + script[end..]);
    assert (arg[lead..] + script[end..])[0] == if lead < |arg| then arg[lead] else script[end];
    SpaceLenOf(arg[..lead], arg[lead..] + script[end..]);
    assert script[..end] == (script[..at] + arg[..stop]) + arg[stop..];
    assert forall k :: 0 <= k < |arg[stop..]| ==> IsSpace(arg[stop..][k]);
    TrimmedLenOf(script[..at] + arg[..stop], arg[stop..]);
  }

  /** The identifier case of the rewriter's loop in terms of positions. */
  lemma IdentHere(script: string, i: nat, j: nat)
    requires i < j <= |script| && IsIdentStart(script[i]) && j == i + 1 + IdentLen(script[i + 1..])
    ensures PieceAt(script, i) ==
      if script[i..j] == AGENT && LastNonSpace('\0', script[..i]) != '.' then CallPiece(script[j..])
      else Text(j - i)
  {
    Slices(script, i, i + 1);
    Slices(script, i, j);
  }

  lemma CallHere(script: string, j: nat, open: nat)
    requires j <= open <= |script| && open == j + SpaceLen(script[j..])
    ensures CallPiece(script[j..]) ==
      if open < |script| && script[open] == '(' then
        match Scan(script[open + 1..], TOP)
        case Unclosed => Text(|AGENT|)
        case Closed(args, brace, bracket, rest) => Call(open - j, args, brace, bracket, rest)
      else Text(|AGENT|)
  {
    hide Scan, SpaceLen;
    if open < |script| {
      assert script[j..][open - j] == script[open];
      Slices(script, j, open + 1);
    }
  }

  /** A recognised call is replaced by its rewritten form. */
  method RewriteCall(script: string, edits: seq<Edit>, ghost i: nat, open: nat, close: nat, commas: seq<nat>,
                     ghost args: seq<string>)
    returns (more: seq<Edit>)
    requires i <= open < close < |script| && InOrder(edits, i + 1) && args != []
    requires commas == CommasAt(args, open + 1) && script[open + 1..close] == Join(args) && script[close] == ')'
    ensures InOrder(more, close + 2)
    ensures Splice(script, more, close + 1)
         == Splice(script, edits, i) + (script[i..open + 1] + (Join(RewriteArgs(args)) + ")"))
  {
    hide Join, TheChange, RewriteArgs, CommasAt, Splice;
    var ch := EditCall(script, open, close, commas, args);
    ChangeRewrites(args);
    ChangeShift(args, open + 1);
    SpliceCall(script, edits, i, open + 1, close, TheChange(args, 0), Join(RewriteArgs(args)));
    more := Add(edits, ch);
  }

  /** The identifier script[i..j] is agent: the rewritten call it begins, if it begins one. */
  method RewriteAgent(script: string, edits: seq<Edit>, i: nat, j: nat)
    returns (hit: bool, more: seq<Edit>, next: nat, ghost made: string)
    requires i < |script| && IsIdentStart(script[i]) && InOrder(edits, i + 1)
    requires j == i + 1 + IdentLen(script[i + 1..]) && j <= |script|
    requires script[i..j] == AGENT && LastNonSpace('\0', script[..i]) != '.'
    ensures hit ==> i < next <= |script| && InOrder(more, next + 1)
    ensures hit ==> Splice(script, more, next) == Splice(script, edits, i) + made
    ensures hit ==> Tail(script, i) == made + Tail(script, next)
    ensures !hit ==> PieceAt(script, i) == Text(j - i)
  {
    hide Scan, Splice, Join, RewriteArgs, CommasAt, Tail, PieceAt, CallPiece, InOrder, IdentLen, SpaceLen;
    IdentHere(script, i, j);
    hit, more, next, made := false, [], 0, "";
    var open := SkipJSSpace(script, j);
    CallHere(script, j, open);
    if open < |script| && script[open] == '(' {
      var close, commas, ok := ScanJSCall(script, open);
      if ok {
        ghost var c := PieceAt(script, i);
        CallAt(script, i, c, open + 1, open + 1 + |Join(c.args)|);
        TailAtCall(script, i, c, open + 1, close);
        more := RewriteCall(script, edits, i, open, close, commas, c.args);
        return true, more, close + 1, script[i..open + 1] + (Join(RewriteArgs(c.args)) + ")");
      }
    }
  }

  /** An identifier: the rewritten call it begins, or just the identifier; `made` is what the
      rewriter puts there. */
  method RewriteIdent(script: string, edits: seq<Edit>, i: nat)
    returns (more: seq<Edit>, next: nat, ghost made: string)
    requires i < |script| && IsIdentStart(script[i]) && InOrder(edits, i + 1)
    ensures i < next <= |script| && InOrder(more, next + 1)
    ensures Splice(script, more, next) == Splice(script, edits, i) + made
    ensures Tail(script, i) == made + Tail(script, next)
  {
    hide Scan, Splice, Join, RewriteArgs, CommasAt, Tail, PieceAt, CallPiece, InOrder, SpaceLen;
    var j := SkipIdent(script, i);
    IdentHere(script, i, j);
    var prev := PreviousNonSpace(script, i);
    if script[i..j] == AGENT && prev != '.' {
      var hit;
      hit, more, next, made := RewriteAgent(script, edits, i, j);
      if hit {
        return;
      }
    }
    TailText(script, i, j);
    SpliceFurther(script, edits, i, j);
    more, next, made := edits, j, script[i..j];
  }

  method WorkflowNoTimeoutScript(script: string) returns (out: string)
    ensures out == NoTimeout(script)
  {
    var edits: seq<Edit> := [];
    var i := 0;
    while i < |script|
      invariant i <= |script| && InOrder(edits, i + 1)
      invariant Splice(script, edits, i) + Tail(script, i) == NoTimeout(script)
    {
      ghost var done := Splice(script, edits, i);
      if IsIdentStart(script[i]) {
        ghost var made;
        edits, i, made := RewriteIdent(script, edits, i);
        Assoc(done, made, Tail(script, i));
      } else {
        var j := SkipToken(script, i);
        TailText(script, i, j);
        SpliceFurther(script, edits, i, j);
        Assoc(done, script[i..j], Tail(script, j));
        i := j;
      }
    }
    out := ApplyEdits(script, edits);
  }

  /** Running the rewriter on its own output changes nothing exactly when every call without
      options closes its braces and brackets, for scripts whose wrapped options do not end in
      a line comment. */
  lemma PatchingTwice(script: string)
    requires AllCommentFree(Calls('\0', script))
    ensures NoTimeout(NoTimeout(script)) == NoTimeout(script) <==> AllBalanced(Calls('\0', script))
  {
    Twice('\0', script);
  }
}
