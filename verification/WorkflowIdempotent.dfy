/** The law clientkit/workflow.go states for itself: patching is idempotent. */
module WorkflowIdempotent {
  import opened Text
  import opened WorkflowLexer
  import opened WorkflowRewrite
  import opened WorkflowTwice

  predicate AllCommentFree(cs: seq<Piece>)
    requires forall c <- cs :: c.Call?
  {
    forall c <- cs :: CommentFree(c)
  }

  predicate AllBalanced(cs: seq<Piece>)
    requires forall c <- cs :: c.Call?
  {
    forall c <- cs :: Balanced(c)
  }

  // ---- What rewriting keeps of the text ----

  /** t begins with `agent`, white space and an opening parenthesis. */
  predicate OpensCall(t: string, gap: nat) {
    && |AGENT| + gap + 1 <= |t| && t[..|AGENT|] == AGENT
    && gap == SpaceLen(t[|AGENT|..]) && t[|AGENT| + gap] == '('
  }

  lemma CallText(t: string, c: Piece)
    requires |t| >= |AGENT| && t[..|AGENT|] == AGENT && c == CallPiece(t[|AGENT|..]) && c.Call?
    ensures OpensCall(t, c.gap) && c.args != []
    ensures t == CallHead(t, c.gap) + CallBody(c.args, c.rest)
    ensures Scan(CallBody(c.args, c.rest), TOP) == Closed(c.args, c.brace, c.bracket, c.rest)
  {
    var inside := t[|AGENT|..][c.gap + 1..];
    SkipTwice(t, |AGENT|, c.gap + 1);
    ScanText(inside, TOP);
  }

  lemma SkipTwice(t: string, i: nat, j: nat)
    requires i + j <= |t|
    ensures t == t[..i + j] + t[i..][j..]
  {
  }

  /** Rewriting keeps the first byte. */
  lemma HeadKept(prev: char, t: string)
    requires t != []
    ensures Rewrite(prev, t) != [] && Rewrite(prev, t)[0] == t[0]
  {
    match NextPiece(prev, t)
    case Text(n) =>
    case Call(gap, _, _, _, _) => CallText(t, NextPiece(prev, t));
  }

  lemma {:induction false} IdentLocal(w: string, r: string)
    requires forall i :: 0 <= i < |w| ==> IsIdentPart(w[i])
    requires r != [] ==> !IsIdentPart(r[0])
    ensures IdentLen(w + r) == |w|
  {
    if w == [] {
      assert w + r == r;
    } else {
      assert (w + r)[1..] == w[1..] + r;
      IdentLocal(w[1..], r);
    }
  }

  lemma {:induction false} IdentShape(t: string)
    ensures forall i :: 0 <= i < IdentLen(t) ==> IsIdentPart(t[i])
    ensures IdentLen(t) < |t| ==> !IsIdentPart(t[IdentLen(t)])
  {
    if t != [] && IsIdentPart(t[0]) {
      IdentShape(t[1..]);
    }
  }

  /** White space stays, and so does the byte after it; if that opens a parenthesis, what
      follows the parenthesis is rewritten on its own. */
  lemma {:induction false} GapKept(prev: char, t: string)
    ensures var g := SpaceLen(t); var r := Rewrite(prev, t);
      && SpaceLen(r) == g && (g < |t| <==> g < |r|) && (g < |t| ==> r[g] == t[g])
      && (g < |t| && t[g] == '(' ==> r[g + 1..] == Rewrite('(', t[g + 1..]))
    decreases |t|
  {
    hide Rewrite, Tok;
    if t != [] && IsSpace(t[0]) {
      ByteKept(prev, t);
      assert LastNonSpace(prev, t[..1]) == prev;
      GapKept(prev, t[1..]);
    } else if t != [] {
      HeadKept(prev, t);
      if t[0] == '(' {
        ByteKept(prev, t);
        assert LastNonSpace(prev, t[..1]) == '(';
      }
    } else {
      NothingRewritten(prev);
    }
  }

  /** White space and an opening parenthesis are tokens of one byte. */
  lemma ByteKept(prev: char, t: string)
    requires t != [] && (IsSpace(t[0]) || t[0] == '(')
    ensures var rest := Rewrite(LastNonSpace(prev, t[..1]), t[1..]);
      Rewrite(prev, t) == t[..1] + rest && Rewrite(prev, t)[1..] == rest
  {
    hide Wrap, TrimSpace, StringEnd, LineEnd, BlockEnd, LastNonSpace;
    assert Tok(t) == 1;
    assert NextPiece(prev, t) == Text(1);
  }

  lemma NothingRewritten(prev: char)
    ensures Rewrite(prev, "") == ""
  {
  }

  // ---- The call scanner stays in step with the rewriter ----

  /** A scan closes over a rewritten text exactly if it closes over the original. */
  lemma {:induction false} InStep(prev: char, t: string, d: Depth)
    requires d.paren >= 1 && AllCommentFree(Calls(prev, t))
    ensures Scan(Rewrite(prev, t), d).Closed? <==> Scan(t, d).Closed?
    decreases |t|
  {
    if t != [] {
      match NextPiece(prev, t)
      case Text(n) =>
        var p := LastNonSpace(prev, t[..n]);
        if t[n..] != [] {
          HeadKept(p, t[n..]);
        }
        if IsIdentStart(t[0]) {
          InStep(p, t[n..], d);
          InStepIdent(t, n, Rewrite(p, t[n..]), d);
        } else {
          var d' := if n > 1 then d else Move(t[0], d);
          if d'.paren >= 1 {
            InStep(p, t[n..], d');
          }
          InStepToken(t, n, Rewrite(p, t[n..]), d, d');
        }
      case Call(_, _, _, _, rest) =>
        var c := NextPiece(prev, t);
        assert Calls(prev, t) == [c] + Calls(')', rest);
        InStepBoth(prev, t, c, d);
        InStep(')', rest, DepthAfter(c, d));
    }
  }

  lemma InStepBoth(prev: char, t: string, c: Piece, d: Depth)
    requires d.paren >= 1 && t != [] && c == NextPiece(prev, t) && c.Call? && CommentFree(c)
    ensures DepthAfter(c, d).paren >= 1
    ensures Scan(t, d).Closed? <==> Scan(c.rest, DepthAfter(c, d)).Closed?
    ensures Scan(Rewrite(prev, t), d).Closed? <==> Scan(Rewrite(')', c.rest), DepthAfter(c, d)).Closed?
  {
    CallText(t, c);
    InStepCall(t, c, d, c.args, c.rest);
    InStepCall(t, c, d, RewriteArgs(c.args), Rewrite(')', c.rest));
  }

  lemma InStepToken(t: string, n: nat, r: string, d: Depth, d': Depth)
    requires d.paren >= 1 && t != [] && n == Tok(t) && d' == if n > 1 then d else Move(t[0], d)
    requires t[n..] == [] <==> r == []
    requires r != [] ==> r[0] == t[n]
    requires d'.paren >= 1 ==> (Scan(r, d').Closed? <==> Scan(t[n..], d').Closed?)
    ensures Scan(t[..n] + r, d).Closed? <==> Scan(t, d).Closed?
  {
    var w := t[..n];
    assert t == w + t[n..];
    if r != [] {
      TokLocal(w, t[n..], r);
    } else {
      assert w + r == t;
    }
    assert (w + r)[n..] == r;
    OneToken(t, d);
    OneToken(w + r, d);
  }

  lemma OneToken(t: string, d: Depth)
    requires d.paren >= 1 && t != []
    ensures var n := Tok(t); var d' := if n > 1 then d else Move(t[0], d);
      Scan(t, d).Closed? <==> d'.paren == 0 || Scan(t[n..], d').Closed?
  {
    hide Tok;
  }

  lemma InStepIdent(t: string, n: nat, r: string, d: Depth)
    requires d.paren >= 1 && t != [] && IsIdentStart(t[0]) && n == 1 + IdentLen(t[1..])
    requires t[n..] == [] <==> r == []
    requires r != [] ==> r[0] == t[n]
    requires Scan(r, d).Closed? <==> Scan(t[n..], d).Closed?
    ensures Scan(t[..n] + r, d).Closed? <==> Scan(t, d).Closed?
  {
    hide Scan, Walk, Tok, IdentLen;
    var w := t[..n];
    assert t == w + t[n..];
    IdentPlain(t, n);
    if r == [] {
      assert w + r == t;
    } else {
      PlainWalk(w, t[n], d, 1);
      WalkThenScan(w, d, t[n..]);
      WalkThenScan(w, d, r);
    }
  }

  lemma IdentPlain(t: string, n: nat)
    requires t != [] && IsIdentStart(t[0]) && 1 <= n <= 1 + IdentLen(t[1..])
    ensures Plain(t[..n])
  {
    hide IdentLen;
    IdentShape(t[1..]);
    assert forall i :: 1 <= i < n ==> t[i] == t[1..][i - 1];
  }

  /** The depth after a call's closing parenthesis. */
  function DepthAfter(c: Piece, d: Depth): Depth
    requires c.Call?
  {
    match Inside(c.args, d)
    case Reach(inner) => Move(')', inner)
    case Fail => d
  }

  /** A call inside the scanned text brings the scanner to the same depth after its closing
      parenthesis, rewritten or not. */
  lemma InStepCall(t: string, c: Piece, d: Depth, args: seq<string>, r: string)
    requires d.paren >= 1 && c.Call? && c.args != [] && OpensCall(t, c.gap) && OptionsFree(c.args)
    requires Scan(CallBody(c.args, c.rest), TOP) == Closed(c.args, c.brace, c.bracket, c.rest)
    requires args == c.args || args == RewriteArgs(c.args)
    ensures DepthAfter(c, d).paren >= 1
    ensures Scan(CallHead(t, c.gap) + CallBody(args, r), d).Closed? <==> Scan(r, DepthAfter(c, d)).Closed?
  {
    ArgsInside(c.args, c.brace, c.bracket, c.rest, d);
    RewrittenInside(c.args, c.brace, c.bracket, c.rest, d);
    ThroughCall(t, c.gap, args, r, d, Inside(c.args, d).depth);
  }

  /** Walking a call's arguments one parenthesis further in. */
  function Inside(args: seq<string>, d: Depth): Walked {
    Walk(Join(args), ')', d.(paren := d.paren + 1), 1)
  }

  lemma ArgsInside(args: seq<string>, b: nat, k: nat, rest: string, d: Depth)
    requires args != [] && d.paren >= 1
    requires Scan(CallBody(args, rest), TOP) == Closed(args, b, k, rest)
    ensures Inside(args, d).Reach? && Inside(args, d).depth.paren == d.paren + 1
  {
    hide Scan, Walk;
    var e := d.(paren := d.paren + 1);
    ArgsDeep(args, b, k, rest, e);
    WalkLowerFloor(Join(args), ')', e, e.paren, 1);
  }

  lemma RewrittenInside(args: seq<string>, b: nat, k: nat, rest: string, d: Depth)
    requires args != [] && d.paren >= 1 && OptionsFree(args)
    requires Scan(CallBody(args, rest), TOP) == Closed(args, b, k, rest)
    ensures Inside(RewriteArgs(args), d) == Inside(args, d)
  {
    hide Scan, Walk, Wrap, TrimSpace, SpaceLen, TrimmedLen, EndsInLineComment;
    var e := d.(paren := d.paren + 1);
    ArgsDeep(args, b, k, rest, e);
    RewrittenDeep(args, b, k, rest, e);
    SameLowered(Join(args), Join(RewriteArgs(args)), e);
  }

  lemma SameLowered(w: string, v: string, e: Depth)
    requires e.paren >= 1 && Walk(w, ')', e, e.paren).Reach?
    requires Walk(v, ')', e, e.paren) == Walk(w, ')', e, e.paren)
    ensures Walk(v, ')', e, 1) == Walk(w, ')', e, 1)
  {
    WalkLowerFloor(w, ')', e, e.paren, 1);
    WalkLowerFloor(v, ')', e, e.paren, 1);
  }

  lemma ThroughCall(t: string, gap: nat, args: seq<string>, rest: string, d: Depth, inner: Depth)
    requires d.paren >= 1 && OpensCall(t, gap)
    requires Inside(args, d) == Reach(inner) && inner.paren == d.paren + 1
    ensures Scan(CallHead(t, gap) + CallBody(args, rest), d).Closed?
            <==> Scan(rest, Move(')', inner)).Closed?
  {
    var head := CallHead(t, gap);
    HeadWalks(t, gap, (Join(args) + [')'])[0], d);
    WalkCompose(head, Join(args), ')', d, 1);
    Assoc(Join(args), ")", rest);
    Assoc(head, Join(args), ")" + rest);
    ThroughClose(head + Join(args), rest, d, inner);
  }

  lemma ThroughClose(w: string, rest: string, d: Depth, inner: Depth)
    requires d.paren >= 1 && Walk(w, ')', d, 1) == Reach(inner) && inner.paren > 1
    ensures Scan(w + (")" + rest), d).Closed? <==> Scan(rest, Move(')', inner)).Closed?
  {
    WalkThenScan(w, d, ")" + rest);
    assert Tok(")" + rest) == 1;
    assert (")" + rest)[1..] == rest;
  }

  lemma HeadWalks(t: string, gap: nat, h: char, d: Depth)
    requires OpensCall(t, gap)
    ensures Walk(CallHead(t, gap), h, d, 1) == Reach(d.(paren := d.paren + 1))
  {
    var w := t[..|AGENT| + gap];
    assert forall i :: |AGENT| <= i < |w| ==> w[i] == t[|AGENT|..][i - |AGENT|];
    assert forall i :: 0 <= i < |AGENT| ==> w[i] == AGENT[i];
    PlainWalk(w, '(', d, 1);
    AddMark(w, '(', h, d, 1, d);
    assert CallHead(t, gap) == w + ['('];
  }

  // ---- The second pass ----

  /** The rewriter finds the same text pieces in its output. */
  lemma TextKept(prev: char, t: string, n: nat)
    requires t != [] && NextPiece(prev, t) == Text(n) && AllCommentFree(Calls(prev, t))
    ensures NextPiece(prev, Rewrite(prev, t)) == Text(n)
  {
    hide RewriteArgs, TrimmedLen, LineEnd;
    var p := LastNonSpace(prev, t[..n]);
    var w, r := t[..n], Rewrite(p, t[n..]);
    assert t == w + t[n..];
    if t[n..] != [] {
      HeadKept(p, t[n..]);
    } else {
      assert w + r == t;
    }
    if !IsIdentStart(t[0]) {
      if t[n..] != [] {
        TokLocal(w, t[n..], r);
      }
    } else {
      IdentShape(t[1..]);
      IdentKept(t, w, r);
      if w == AGENT && prev != '.' && t[n..] != [] {
        assert (w + r)[n..] == r;
        GapKept(p, t[n..]);
        StillNoCall(p, t[n..]);
      }
    }
  }

  lemma IdentKept(t: string, w: string, r: string)
    requires w != [] && w <= t && |w| <= 1 + IdentLen(t[1..])
    requires |w| < |t| ==> r != [] && r[0] == t[|w|]
    requires |w| == |t| ==> r == []
    requires |w| == 1 + IdentLen(t[1..])
    ensures IdentLen((w + r)[1..]) == IdentLen(t[1..])
  {
    IdentShape(t[1..]);
    assert (w + r)[1..] == w[1..] + r;
    assert forall i :: 0 <= i < |w[1..]| ==> w[1..][i] == t[1..][i];
    assert |w| < |t| ==> t[|w|] == t[1..][|w| - 1];
    IdentLocal(w[1..], r);
  }

  lemma StillNoCall(p: char, t: string)
    requires CallPiece(t).Text? && AllCommentFree(Calls(p, t))
    ensures CallPiece(Rewrite(p, t)).Text?
  {
    GapKept(p, t);
    var g := SpaceLen(t);
    if g < |t| && t[g] == '(' {
      CallsAfterGap(p, t);
      InStep('(', t[g + 1..], TOP);
    }
  }

  lemma {:induction false} CallsAfterGap(p: char, t: string)
    requires var g := SpaceLen(t); g < |t| && t[g] == '('
    ensures Calls(p, t) == Calls('(', t[SpaceLen(t) + 1..])
    decreases |t|
  {
    assert Tok(t) == 1;
    if IsSpace(t[0]) {
      assert LastNonSpace(p, t[..1]) == p;
      CallsAfterGap(p, t[1..]);
      assert t[1..][SpaceLen(t[1..]) + 1..] == t[SpaceLen(t) + 1..];
    } else {
      assert LastNonSpace(p, t[..1]) == '(';
    }
  }

  /** In the output of the rewriter a rewritten call is a call again: with the rewritten
      arguments when it was balanced, and with a single argument otherwise. */
  lemma CallKept(prev: char, t: string)
    requires t != [] && NextPiece(prev, t).Call? && CommentFree(NextPiece(prev, t))
    ensures var c := NextPiece(prev, t);
      NextPiece(prev, Rewrite(prev, t))
      == c.(args := if Balanced(c) then RewriteArgs(c.args) else [Join(RewriteArgs(c.args))],
            rest := Rewrite(')', c.rest))
  {
    var c := NextPiece(prev, t);
    var args, r := RewriteArgs(c.args), Rewrite(')', c.rest);
    CallText(t, c);
    AgentAgain(t, c.gap, CallHead(t, c.gap) + CallBody(args, r));
    Rescan(c, r);
    CallAgain(prev, CallHead(t, c.gap) + CallBody(args, r), c.gap, CallBody(args, r));
  }

  lemma CallAgain(prev: char, u: string, gap: nat, body: string)
    requires prev != '.' && OpensCall(u, gap) && IsIdentStart(u[0]) && 1 + IdentLen(u[1..]) == |AGENT|
    requires u == CallHead(u, gap) + body && Scan(body, TOP).Closed?
    ensures var s := Scan(body, TOP);
      NextPiece(prev, u) == Call(gap, s.args, s.brace, s.bracket, s.rest)
  {
    SkipTwice(u, |AGENT|, gap + 1);
    assert u[|AGENT|..][gap + 1..] == body;
  }

  lemma Rescan(c: Piece, r: string)
    requires c.Call? && c.args != [] && CommentFree(c)
    requires Scan(CallBody(c.args, c.rest), TOP) == Closed(c.args, c.brace, c.bracket, c.rest)
    ensures Scan(CallBody(RewriteArgs(c.args), r), TOP)
         == Closed(if Balanced(c) then RewriteArgs(c.args) else [Join(RewriteArgs(c.args))], c.brace, c.bracket, r)
  {
    ScanWalks(CallBody(c.args, c.rest), TOP);
    if |c.args| == 1 {
      assert c.args == [c.args[0]];
      RescanBare(c.args[0], c.brace, c.bracket, r);
    } else {
      RescanOptions(c.args, c.brace, c.bracket, c.rest, r);
    }
  }

  lemma AgentAgain(t: string, gap: nat, u: string)
    requires OpensCall(t, gap)
    requires CallHead(t, gap) <= u
    ensures OpensCall(u, gap) && IsIdentStart(u[0]) && 1 + IdentLen(u[1..]) == |AGENT|
  {
    hide IdentLen, SpaceLen;
    var head := CallHead(t, gap);
    assert u[..|AGENT|] == head[..|AGENT|] == AGENT;
    SameGap(t[|AGENT|..], u[|AGENT|..], gap);
    AgentIdent(u);
  }

  /** A gap and the parenthesis after it, in front of anything. */
  lemma SameGap(after: string, follow: string, gap: nat)
    requires gap == SpaceLen(after) < |after| && after[gap] == '(' && gap < |follow|
    requires forall i :: 0 <= i <= gap ==> follow[i] == after[i]
    ensures SpaceLen(follow) == gap
  {
    hide SpaceLen;
    assert follow == follow[..gap] + follow[gap..];
    SpaceLenOf(follow[..gap], follow[gap..]);
  }

  /** `agent` in front of white space or a parenthesis is the whole identifier. */
  lemma AgentIdent(u: string)
    requires |u| > |AGENT| && u[..|AGENT|] == AGENT && !IsIdentPart(u[|AGENT|])
    ensures IsIdentStart(u[0]) && 1 + IdentLen(u[1..]) == |AGENT|
  {
    assert u[1..] == AGENT[1..] + u[|AGENT|..];
    IdentLocal(AGENT[1..], u[|AGENT|..]);
  }

  /** Running the rewriter on its own output changes nothing exactly if every call without
      options closes its braces and brackets; otherwise it adds options a second time. */
  lemma {:induction false} Twice(prev: char, t: string)
    requires AllCommentFree(Calls(prev, t))
    ensures |Rewrite(prev, Rewrite(prev, t))| >= |Rewrite(prev, t)|
    ensures Rewrite(prev, Rewrite(prev, t)) == Rewrite(prev, t) <==> AllBalanced(Calls(prev, t))
    decreases |t|
  {
    if t != [] {
      var u := Rewrite(prev, t);
      HeadKept(prev, t);
      match NextPiece(prev, t)
      case Text(n) =>
        var p := LastNonSpace(prev, t[..n]);
        TextKept(prev, t, n);
        Twice(p, t[n..]);
        assert u[..n] == t[..n] && u[n..] == Rewrite(p, t[n..]);
        SamePrefix(t[..n], Rewrite(p, u[n..]), u[n..]);
      case Call(gap, args, b, k, rest) =>
        var c := NextPiece(prev, t);
        CallKept(prev, t);
        assert Calls(prev, t)[1..] == Calls(')', rest);
        Twice(')', rest);
        CallTwice(prev, t, c);
    }
  }

  lemma SamePrefix(w: string, a: string, b: string)
    ensures w + a == w + b <==> a == b
  {
    assert (w + a)[|w|..] == a && (w + b)[|w|..] == b;
  }

  lemma CallTwice(prev: char, t: string, c: Piece)
    requires t != [] && c == NextPiece(prev, t) && c.Call?
    requires NextPiece(prev, Rewrite(prev, t))
      == c.(args := if Balanced(c) then RewriteArgs(c.args) else [Join(RewriteArgs(c.args))],
            rest := Rewrite(')', c.rest))
    requires |Rewrite(')', Rewrite(')', c.rest))| >= |Rewrite(')', c.rest)|
    ensures |Rewrite(prev, Rewrite(prev, t))| >= |Rewrite(prev, t)|
    ensures Rewrite(prev, Rewrite(prev, t)) == Rewrite(prev, t) <==>
              Balanced(c) && Rewrite(')', Rewrite(')', c.rest)) == Rewrite(')', c.rest)
  {
    hide Rewrite, Join, RewriteArgs, CallBody, NextPiece, CallHead;
    var u, r := Rewrite(prev, t), Rewrite(')', c.rest);
    var args := RewriteArgs(c.args);
    var args' := if Balanced(c) then args else [Join(args)];
    CallRewritten(prev, t, c);
    CallRewritten(prev, u, c.(args := args', rest := r));
    SamePrefix(CallHead(t, c.gap), CallBody(RewriteArgs(args'), Rewrite(')', r)), CallBody(args, r));
    if Balanced(c) {
      ArgsSettled(c.args);
      SameBody(args, Rewrite(')', r), r);
    } else {
      LongerBody(args, Rewrite(')', r), r);
    }
  }

  lemma CallRewritten(prev: char, t: string, c: Piece)
    requires t != [] && c == NextPiece(prev, t) && c.Call?
    ensures Rewrite(prev, t) == CallHead(t, c.gap) + CallBody(RewriteArgs(c.args), Rewrite(')', c.rest))
    ensures Rewrite(prev, t) != [] && CallHead(Rewrite(prev, t), c.gap) == CallHead(t, c.gap)
  {
    hide RewriteArgs, Join;
    CallText(t, c);
    var u := Rewrite(prev, t);
    assert |CallHead(t, c.gap)| == |AGENT| + c.gap + 1 <= |u|;
    assert u[..|AGENT| + c.gap + 1] == CallHead(t, c.gap);
  }

  lemma SameBody(args: seq<string>, s: string, r: string)
    ensures CallBody(args, s) == CallBody(args, r) <==> s == r
    ensures |CallBody(args, s)| - |CallBody(args, r)| == |s| - |r|
  {
    hide Join;
    SamePrefix(Join(args) + ")", s, r);
  }

  lemma LongerBody(args: seq<string>, s: string, r: string)
    requires |s| >= |r|
    ensures |CallBody(RewriteArgs([Join(args)]), s)| > |CallBody(args, r)|
  {
    var x := Join(args);
    assert RewriteArgs([x])[1..] == [" " + OBJECT];
    assert Join(RewriteArgs([x])) == x + "," + (" " + OBJECT);
  }

  lemma ArgsSettled(args: seq<string>)
    requires args != []
    ensures RewriteArgs(RewriteArgs(args)) == RewriteArgs(args)
  {
    hide RewriteOptions, HasStall;
    if |args| == 1 {
      ObjectHasStall("", "");
      assert "" + OBJECT + "" == OBJECT;
      SettledOptions(" ", OBJECT, "");
      assert " " + OBJECT + "" == " " + OBJECT;
    } else {
      OptionsSettled(args[1]);
    }
  }
}
