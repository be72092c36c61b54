/** Why options that end in a line comment are excluded from the idempotence law: the text put
    behind them becomes part of the comment, and the call loses its closing parenthesis. */
module WorkflowComment {
  import opened Text
  import opened WorkflowLexer
  import opened WorkflowRewrite
  import opened WorkflowTwice
  import opened WorkflowIdempotent
  import opened WorkflowScript

  predicate NoNewlineIn(x: string) {
    forall i :: 0 <= i < |x| ==> x[i] != '\n'
  }

  lemma {:induction false} LineEndSkips(w: string, x: string, r: string)
    requires NoNewlineIn(w) && NoNewlineIn(x)
    ensures LineEnd(w + (x + r)) == LineEnd(w + r) + |x|
  {
    if w != [] {
      assert (w + (x + r))[1..] == w[1..] + (x + r);
      assert (w + r)[1..] == w[1..] + r;
      LineEndSkips(w[1..], x, r);
    } else {
      assert w + (x + r) == x + r && w + r == r;
      if x != [] {
        assert (x + r)[1..] == x[1..] + r;
        LineEndSkips(w, x[1..], r);
        assert w + (x[1..] + r) == x[1..] + r;
      }
    }
  }

  lemma {:induction false} NoNewlineBefore(w: string)
    requires LineEnd(w) == |w| && (w != [] ==> w[|w| - 1] != '\n')
    ensures NoNewlineIn(w)
  {
    if w != [] {
      if |w| > 1 {
        assert w[1..][|w| - 2] == w[|w| - 1];
      }
      NoNewlineBefore(w[1..]);
      assert forall i :: 1 <= i < |w| ==> w[i] == w[1..][i - 1];
    }
  }

  /** Text without a newline, put behind an unfinished line comment, changes nothing for the
      scanner: it is comment. */
  lemma {:induction false} Swallowed(core: string, x: string, z: string, h: char, d: Depth, floor: nat)
    requires EndsInLineComment(core) && NoNewlineIn(x) && IsOther(h)
    requires Walk(core + z, h, d, floor).Reach?
    ensures Walk(core + (x + z), h, d, floor) == Walk(core + z, h, d, floor)
    decreases |core|
  {
    var n := Tok(core);
    if n == |core| {
      SwallowToken(core, x, z, h);
    } else {
      var v, u := core[..n], core[n..];
      assert core == v + u;
      KeepToken(v, u, z, h);
      KeepToken(v, u, x + z, h);
      Swallowed(u, x, z, h, if n > 1 then d else Move(core[0], d), floor);
    }
  }

  /** The comment itself grows by x. */
  lemma SwallowToken(core: string, x: string, z: string, h: char)
    requires EndsInLineComment(core) && Tok(core) == |core| && NoNewlineIn(x)
    ensures |core| <= Tok((core + z) + [h]) && 1 < |core|
    ensures Tok((core + (x + z)) + [h]) == Tok((core + z) + [h]) + |x|
    ensures var k := Tok((core + z) + [h]);
      k <= |core + z| ==> (core + (x + z))[k + |x|..] == (core + z)[k..]
  {
    var c := core[2..];
    CommentOnly(core);
    LineEndSkips(c, x, z + [h]);
    LineEndAtLeast(c, z + [h]);
    Assoc(core, z, [h]);
    Assoc(core, x + z, [h]);
    Assoc(x, z, [h]);
    DropFront(core, z + [h], 2);
    DropFront(core, x + (z + [h]), 2);
    var k := Tok((core + z) + [h]);
    if k <= |core + z| {
      DropPast(core, x, z, k - |core|);
    }
  }

  lemma DropPast(core: string, x: string, z: string, m: nat)
    requires m <= |z|
    ensures (core + (x + z))[|core| + m + |x|..] == (core + z)[|core| + m..]
  {
    assert (core + (x + z))[|core| + m + |x|..] == z[m..];
    assert (core + z)[|core| + m..] == z[m..];
  }

  lemma KeepToken(v: string, u: string, y: string, h: char)
    requires v != [] && u != [] && Tok(v + u) == |v|
    ensures Tok(((v + u) + y) + [h]) == |v| && ((v + u) + y)[|v|..] == u + y
  {
    Assoc(v + u, y, [h]);
    Assoc(v, u, y + [h]);
    SameStart(v, u, y + [h]);
    Assoc(v, u, y);
  }

  predicate IsOther(h: char) {
    h == ',' || h == ')'
  }

  lemma {:induction false} LineEndAtLeast(w: string, r: string)
    requires NoNewlineIn(w)
    ensures LineEnd(w + r) >= |w|
  {
    if w != [] {
      assert (w + r)[1..] == w[1..] + r;
      LineEndAtLeast(w[1..], r);
    }
  }

  /** A token that ends before u ends there whatever comes after u. */
  lemma SameStart(v: string, u: string, r: string)
    requires v != [] && u != [] && Tok(v + u) == |v|
    ensures Tok(v + (u + r)) == |v|
  {
    TokLocal(v, u, u + r);
  }

  const WRAP_TAIL := ")" + "," + " " + OBJECT + ")"

  lemma WrapTail(expr: string, z: string)
    ensures Wrap(expr) + z == WRAP_HEAD + (expr + (WRAP_TAIL + z))
  {
    RightNested(WRAP_HEAD + expr, ")", ",", " ", OBJECT, ")");
    Assoc(WRAP_HEAD + expr, WRAP_TAIL, z);
    Assoc(WRAP_HEAD, expr, WRAP_TAIL + z);
  }

  lemma RightNested(w: string, a: string, b: string, c: string, d: string, e: string)
    ensures w + a + b + c + d + e == w + (a + b + c + d + e)
  {
    Assoc(w, a, b);
    Assoc(w, a + b, c);
    Assoc(w, a + b + c, d);
    Assoc(w, a + b + c + d, e);
  }

  /** The blanks behind an unfinished line comment do not matter as long as a newline ends it. */
  lemma {:induction false} BlanksAlike(core: string, y: string, z: string, h: char, d: Depth, floor: nat)
    requires EndsInLineComment(core) && Blank(y) && Blank(z) && '\n' in z
    requires Walk(core + y, h, d, floor).Reach?
    ensures Walk(core + z, h, d, floor) == Walk(core + y, h, d, floor)
    ensures '\n' in y
    decreases |core|
  {
    var n := Tok(core);
    if n == |core| {
      CommentToken(core, y, h);
      CommentToken(core, z, h);
    } else {
      var v, u := core[..n], core[n..];
      assert core == v + u;
      KeepToken(v, u, y, h);
      KeepToken(v, u, z, h);
      BlanksAlike(u, y, z, h, if n > 1 then d else Move(core[0], d), floor);
    }
  }

  /** A comment and blanks are walked over, unless no newline keeps the comment from what follows. */
  lemma CommentToken(core: string, y: string, h: char)
    requires EndsInLineComment(core) && Tok(core) == |core| && Blank(y)
    ensures '\n' in y ==> forall d, floor :: Walk(core + y, h, d, floor) == Reach(d)
    ensures '\n' !in y ==> Tok((core + y) + [h]) > |core + y|
  {
    CommentLength(core, y, [h]);
    Assoc(core, y, [h]);
    var n := Tok((core + y) + [h]);
    if '\n' in y {
      forall d, floor ensures Walk(core + y, h, d, floor) == Reach(d) {
        assert (core + y)[n..] == y[n - |core|..];
        PlainWalk(y[n - |core|..], h, d, floor);
      }
    }
  }

  /** Such a comment runs to the first newline behind it. */
  lemma CommentLength(core: string, y: string, r: string)
    requires EndsInLineComment(core) && Tok(core) == |core| && r != []
    ensures 1 < |core| && Tok(core + (y + r)) == |core| + LineEnd(y + r)
    ensures '\n' in y ==> LineEnd(y + r) <= |y|
    ensures '\n' !in y ==> LineEnd(y + r) >= |y| + 1
  {
    hide LineEnd, BlockEnd, StringEnd;
    CommentOnly(core);
    LineEndSkips("", core[2..], y + r);
    assert "" + (core[2..] + (y + r)) == core[2..] + (y + r) && "" + (y + r) == y + r;
    DropFront(core, y + r, 2);
    LineEndWithin(y, r);
  }

  lemma CommentOnly(core: string)
    requires EndsInLineComment(core) && Tok(core) == |core|
    ensures StartsLineComment(core) && NoNewlineIn(core[2..])
  {
    var c := core[2..];
    assert |core| > 2 ==> c[|core| - 3] == core[|core| - 1];
    NoNewlineBefore(c);
  }

  lemma {:induction false} LineEndWithin(y: string, r: string)
    requires r != []
    ensures '\n' in y ==> LineEnd(y + r) <= |y|
    ensures '\n' !in y ==> LineEnd(y + r) >= |y| + 1
  {
    if y == [] {
      assert y + r == r;
    } else {
      assert (y + r)[1..] == y[1..] + r;
      LineEndWithin(y[1..], r);
    }
  }

  /** Two of the parentheses opened by the wrapping stay open. */
  lemma WrappedComment(a: string, core: string, z: string, h: char)
    requires Blank(a) && Blank(z) && EndsInLineComment(core) && IsOther(h)
    requires Walk(core + z, h, TOP, 1).Reach?
    ensures Walk(a + (Wrap(core) + z), h, TOP, 1).Reach?
    ensures Walk(a + (Wrap(core) + z), h, TOP, 1).depth.paren == Walk(core + z, h, TOP, 1).depth.paren + 2
  {
    hide EndsInLineComment, Wrap, Walk, Tok;
    var d3 := Depth(3, 0, 0);
    WalkDeeper(core + z, h, TOP, 1, 2, d3);
    WalkLowerFloor(core + z, h, d3, 3, 1);
    Swallowed(core, WRAP_TAIL, z, h, d3, 1);
    WrapTail(core, z);
    WrapHeadWalk((core + (WRAP_TAIL + z) + [h])[0], TOP, 1);
    WalkCompose(WRAP_HEAD, core + (WRAP_TAIL + z), h, TOP, 1);
    BlankPrefix(a, Wrap(core) + z, h, TOP, 1);
  }

  /** Without a newline to end it the comment runs on into the text behind. */
  lemma {:induction false} RunsOver(core: string, x: string, y: string, inner: string, h: char, d: Depth)
    requires EndsInLineComment(core) && NoNewlineIn(y) && inner != []
    requires Walk(core + x, h, d, 1).Reach?
    ensures var s := Scan(core + (y + inner), d); s.Closed? ==> |s.args[0]| > |core + y|
    decreases |core|
  {
    hide Scan;
    var n := Tok(core);
    if n == |core| {
      CommentRunsOver(core, y, inner, d);
    } else {
      var v, u := core[..n], core[n..];
      assert core == v + u;
      KeepToken(v, u, x, h);
      SameStart(v, u, y + inner);
      Assoc(v, u, y + inner);
      var d' := if n > 1 then d else Move(core[0], d);
      ScanStep(v, d, u + (y + inner), n, d');
      assert v[n..] + (u + (y + inner)) == u + (y + inner) && v[..n] == v;
      RunsOver(u, x, y, inner, h, d');
    }
  }

  lemma CommentRunsOver(core: string, y: string, inner: string, d: Depth)
    requires EndsInLineComment(core) && Tok(core) == |core| && NoNewlineIn(y) && inner != []
    ensures var s := Scan(core + (y + inner), d); s.Closed? ==> |s.args[0]| > |core + y|
  {
    hide LineEnd, EndsInLineComment;
    CommentLength(core, y, inner);
    var t := core + (y + inner);
    assert |t[..Tok(t)]| > |core + y|;
  }

  /** The white space that stays behind rewritten options. */
  function Behind(arg: string): string {
    arg[TrimmedLen(arg)..]
  }

  lemma CommentIsText(core: string)
    requires EndsInLineComment(core)
    ensures core != ""
  {
  }

  lemma BehindBlank(arg: string)
    ensures Blank(Behind(arg)) && Blank(arg[..SpaceLen(arg)])
  {
  }

  /** The blanks strings.TrimSpace takes off what Core leaves. */
  lemma CoreTrims(arg: string) returns (l: string, y: string)
    requires Core(arg) != ""
    ensures Blank(l) && Blank(y)
    ensures arg == arg[..SpaceLen(arg)] + (l + (TrimSpace(Core(arg)) + y))
    ensures TrimSpace(Core(arg)) == Core(arg) ==> y == Behind(arg)
  {
    hide Core, TrimSpace, SpaceLen, TrimmedLen;
    var core := TrimSpace(Core(arg));
    BehindBlank(arg);
    CoreParts(arg);
    if core == Core(arg) {
      l, y := "", Behind(arg);
      assert "" + (core + y) == core + y;
    } else {
      var r;
      l, r := TrimParts(Core(arg));
      y := r + Behind(arg);
      Assoc(l + core, r, Behind(arg));
      Assoc(l, core, y);
    }
  }

  /** What the options of a call with such a comment are made of. */
  lemma CommentedOptions(arg: string, h: char) returns (a: string, core: string, y: string)
    requires !Wrappable(arg) && Walk(arg, h, TOP, 1).Reach?
    ensures Blank(a) && Blank(y) && Blank(Behind(arg)) && core == TrimSpace(Core(arg)) && EndsInLineComment(core)
    ensures core != "" && RewriteOptions(arg) == a + (Wrap(core) + Behind(arg))
    ensures Walk(core + y, h, TOP, 1) == Walk(arg, h, TOP, 1)
    ensures core == Core(arg) ==> y == Behind(arg)
  {
    hide Walk, EndsInLineComment, Wrap, HasStall, RewriteOptions, SpaceLen, TrimmedLen, Core, TrimSpace, Blank;
    a, core := arg[..SpaceLen(arg)], TrimSpace(Core(arg));
    CommentIsText(core);
    BehindBlank(arg);
    CoreParts(arg);
    var l;
    l, y := CoreTrims(arg);
    BlankPrefix(a, l + (core + y), h, TOP, 1);
    BlankPrefix(l, core + y, h, TOP, 1);
  }

  /** A call whose options are wrapped and end in a line comment is not read back. When the newline that
      ends the comment stays, as it does unless vertical tabs or form feeds stand behind it, a closing
      parenthesis the scanner finds is one of the text after the call. */
  lemma CommentLosesClose(args: seq<string>, b: nat, k: nat, rest: string, r: string)
    requires |args| >= 2 && !OptionsFree(args)
    requires Scan(CallBody(args, rest), TOP) == Closed(args, b, k, rest)
    ensures var s := Scan(CallBody(RewriteArgs(args), r), TOP);
            s.Closed? ==> s.args != RewriteArgs(args)
    ensures var s := Scan(CallBody(RewriteArgs(args), r), TOP);
            s.Closed? && ('\n' in Behind(args[1]) || TrimSpace(Core(args[1])) == Core(args[1])) ==> |s.rest| < |r|
  {
    hide RewriteOptions, Wrappable, Scan, Walk, Core, TrimSpace, EndsInLineComment;
    var arg, tail := args[1], args[1..];
    ScanWalks(CallBody(args, rest), TOP);
    ScanWalks(CallBody(tail, rest), TOP);
    var h := if |args| == 2 then ')' else ',';
    var a, core, y := CommentedOptions(arg, h);
    if '\n' in Behind(arg) {
      BlanksAlike(core, y, Behind(arg), h, TOP, 1);
      WrappedComment(a, core, Behind(arg), h);
      var e := Walk(RewriteOptions(arg), h, TOP, 1).depth;
      StaysOpen(args, tail[1..], b, k, rest, r, RewriteOptions(arg), e);
      CloseKept(RewriteArgs(args), r);
    } else {
      if core == Core(arg) {
        BlanksAlike(core, y, "\n", h, TOP, 1);
      }
      OptionsRunOver(args, a, core, y, h, r);
    }
  }

  /** Arguments read back are followed by their closing parenthesis. */
  lemma CloseKept(made: seq<string>, r: string)
    ensures var s := Scan(CallBody(made, r), TOP); s.Closed? && s.args == made ==> s.rest == r
  {
    var s := Scan(CallBody(made, r), TOP);
    if s.Closed? && s.args == made {
      ScanText(CallBody(made, r), TOP);
      SamePrefix(Join(made) + ")", s.rest, r);
    }
  }

  lemma OptionsRunOver(args: seq<string>, a: string, core: string, y: string, h: char, r: string)
    requires |args| >= 2 && Walk(args[0], ',', TOP, 1) == Reach(TOP)
    requires Blank(a) && core != "" && EndsInLineComment(core) && Walk(core + y, h, TOP, 1).Reach?
    requires Blank(Behind(args[1])) && '\n' !in Behind(args[1])
    requires RewriteOptions(args[1]) == a + (Wrap(core) + Behind(args[1]))
    ensures var s := Scan(CallBody(RewriteArgs(args), r), TOP); s.Closed? ==> s.args != RewriteArgs(args)
  {
    hide RewriteOptions, Walk, Scan, EndsInLineComment, Behind, Wrap, Join, Blank;
    var made, z := RewriteArgs(args), Behind(args[1]);
    var inner := if |args| == 2 then ")" + r else "," + CallBody(args[2..], r);
    SecondBegins(made, r, inner);
    WrappedRunsOver(a, core, y, z, inner, h);
  }

  lemma WrappedRunsOver(a: string, core: string, y: string, z: string, inner: string, h: char)
    requires Blank(a) && core != "" && EndsInLineComment(core) && Walk(core + y, h, TOP, 1).Reach?
    requires Blank(z) && '\n' !in z && inner != ""
    ensures var options := a + (Wrap(core) + z);
            Scan(options + inner, TOP).Closed? ==> |Scan(options + inner, TOP).args[0]| > |options|
  {
    hide Walk, Scan, EndsInLineComment, Blank;
    WrapHeadWalk(core[0], TOP, 1);
    var d3 := Depth(3, 0, 0);
    WalkDeeper(core + y, h, TOP, 1, 2, d3);
    WalkLowerFloor(core + y, h, d3, 3, 1);
    RunsOver(core, y, WRAP_TAIL + z, inner, h, d3);
    RunOverText(a, core, z, inner);
    BlankPrefix(a, WRAP_HEAD, core[0], TOP, 1);
    WalkThenScan(a + WRAP_HEAD, TOP, core + ((WRAP_TAIL + z) + inner));
  }

  lemma RunOverText(a: string, core: string, z: string, inner: string)
    ensures var y := WRAP_TAIL + z;
            a + (Wrap(core) + z) + inner == (a + WRAP_HEAD) + (core + (y + inner)) &&
            |a + (Wrap(core) + z)| == |a + WRAP_HEAD| + |core + y|
  {
    hide Wrap;
    WrapTail(core, z);
    Parts(a, WRAP_HEAD, core, WRAP_TAIL + z, inner);
  }

  lemma Parts(a: string, b: string, c: string, d: string, e: string)
    ensures a + (b + (c + d)) + e == (a + b) + (c + (d + e))
  {
    Assoc(a, b, c + d);
    Assoc(a + b, c + d, e);
    Assoc(c, d, e);
  }

  lemma SecondBegins(made: seq<string>, r: string, inner: string)
    requires |made| >= 2 && Walk(made[0], ',', TOP, 1) == Reach(TOP)
    requires inner == if |made| == 2 then ")" + r else "," + CallBody(made[2..], r)
    ensures var s := Scan(CallBody(made, r), TOP); var t := Scan(made[1] + inner, TOP);
            s.Closed? ==> t.Closed? && |s.args| >= 2 && s.args[1] == t.args[0]
  {
    hide Walk;
    SecondText(made, r, inner);
    var t := made[1] + inner;
    WalkThenScan(made[0], TOP, "," + t);
    assert Tok("," + t) == 1 && ("," + t)[1..] == t;
  }

  lemma SecondText(made: seq<string>, r: string, inner: string)
    requires |made| >= 2
    requires inner == if |made| == 2 then ")" + r else "," + CallBody(made[2..], r)
    ensures CallBody(made, r) == made[0] + ("," + (made[1] + inner))
  {
    JoinRest(made, r);
    Assoc(made[0], ",", CallBody(made[1..], r));
    if |made| == 2 {
      assert made[1..] == [made[1]];
      Assoc(made[1], ")", r);
    } else {
      assert made[1..][1..] == made[2..];
      JoinRest(made[1..], r);
      Assoc(made[1], ",", CallBody(made[2..], r));
    }
  }

  lemma StaysOpen(args: seq<string>, others: seq<string>, b: nat, k: nat, rest: string, r: string,
                  options: string, e: Depth)
    requires |args| >= 2 && others == args[2..] && RewriteArgs(args)[1] == options
    requires Walk(args[0], ',', TOP, 1) == Reach(TOP)
    requires others != [] ==> Scan(CallBody(others, rest), TOP) == Closed(others, b, k, rest)
    requires Walk(options, if others == [] then ')' else ',', TOP, 1) == Reach(e) && e.paren == 3
    ensures var s := Scan(CallBody(RewriteArgs(args), r), TOP);
      s.Closed? ==> |s.rest| < |r|
  {
    hide RewriteOptions;
    var made := RewriteArgs(args);
    var inner := if others == [] then ")" + r else "," + CallBody(others, r);
    if others == [] {
      StillOpen("", r, e, e);
      assert "" + (")" + r) == ")" + r;
      assert Join(made[1..]) == options;
      Assoc(options, ")", r);
    } else {
      ArgsDeep(others, b, k, rest, e);
      WalkLowerFloor(Join(others), ')', e, 3, 1);
      StillOpen(Join(others), r, e, Walk(Join(others), ')', e, 3).depth);
      Assoc(Join(others), ")", r);
      CommaOpen(CallBody(others, r), e);
      assert made[1..][1..] == others;
      JoinRest(made[1..], r);
      Assoc(options, ",", CallBody(others, r));
    }
    WalkThenScan(options, TOP, inner);
    assert CallBody(made[1..], r) == options + inner;
    JoinRest(made, r);
    Assoc(args[0], ",", CallBody(made[1..], r));
    WalkThenScan(args[0], TOP, "," + CallBody(made[1..], r));
    OwnComma(CallBody(made[1..], r));
  }

  lemma StillOpen(w: string, r: string, d: Depth, e: Depth)
    requires d.paren >= 1 && Walk(w, ')', d, 1) == Reach(e) && e.paren == 3
    ensures var s := Scan(w + (")" + r), d); s.Closed? ==> |s.rest| < |r|
  {
    WalkThenScan(w, d, ")" + r);
    assert Tok(")" + r) == 1;
    assert (")" + r)[1..] == r;
  }

  lemma CommaOpen(t: string, e: Depth)
    requires e.paren == 3
    ensures Scan("," + t, e) == Prepend(",", Scan(t, e))
  {
    hide StringEnd, LineEnd, BlockEnd, Prepend;
    assert Tok("," + t) == 1;
    assert ("," + t)[1..] == t && ("," + t)[..1] == ",";
  }

  lemma OwnComma(t: string)
    ensures Scan("," + t, TOP).Closed? <==> Scan(t, TOP).Closed?
    ensures Scan(t, TOP).Closed? ==> Scan("," + t, TOP).rest == Scan(t, TOP).rest
  {
    assert Tok("," + t) == 1;
    assert ("," + t)[1..] == t;
  }

  // ---- A script the second pass changes ----

  const OPEN := AGENT + "("

  lemma AgentPiece(prev: char, body: string)
    requires prev != '.'
    ensures NextPiece(prev, OPEN + body) ==
      match Scan(body, TOP)
      case Unclosed => Text(|AGENT|)
      case Closed(args, b, k, rest) => Call(0, args, b, k, rest)
  {
    hide Scan;
    var u, after := OPEN + body, "(" + body;
    Assoc(AGENT, "(", body);
    assert u[1..] == AGENT[1..] + after;
    IdentLocal(AGENT[1..], after);
    assert u[..|AGENT|] == AGENT && u[|AGENT|..] == after;
    assert after[0] == '(' && after[1..] == body;
    assert SpaceLen(after) == 0;
  }

  lemma AgentCall(prev: char, args: seq<string>, b: nat, k: nat, rest: string)
    requires prev != '.' && args != []
    requires Scan(CallBody(args, rest), TOP) == Closed(args, b, k, rest)
    ensures Rewrite(prev, OPEN + CallBody(args, rest)) == OPEN + CallBody(RewriteArgs(args), Rewrite(')', rest))
  {
    hide Scan, NextPiece;
    AgentPiece(prev, CallBody(args, rest));
    assert CallHead(OPEN + CallBody(args, rest), 0) == OPEN;
  }

  /** An `agent(` that is no call is text, and what follows it is rewritten on its own. */
  lemma AgentText(prev: char, body: string)
    requires prev != '.' && Scan(body, TOP).Unclosed?
    ensures Rewrite(prev, OPEN + body) == OPEN + Rewrite('(', body)
  {
    AgentPiece(prev, body);
    var t := "(" + body;
    Assoc(AGENT, "(", body);
    assert (OPEN + body)[..|AGENT|] == AGENT && (OPEN + body)[|AGENT|..] == t;
    assert LastNonSpace(prev, AGENT) == 't';
    assert Tok(t) == 1 && t[1..] == body && t[..1] == "(";
    assert LastNonSpace('t', "(") == '(';
    Assoc(AGENT, "(", Rewrite('(', body));
  }

  lemma PlainArg(w: string, rest: string)
    requires Plain(w)
    ensures Scan(CallBody([w], rest), TOP) == Closed([w], 0, 0, rest)
  {
    PlainWalk(w, ')', TOP, 1);
    CloseArg(w, rest, TOP, 0, 0);
  }

  const INNER := OPEN + "x" + ")"
  const NOTE := "b" + "//\n"

  lemma NoStall(t: string)
    requires Solid(t) && |t| < |NEEDLE|
    ensures !HasStall(t)
  {
    assert Compact(t) == t;
  }

  lemma NoteWalk()
    ensures Walk(NOTE, ')', TOP, 1) == Reach(TOP)
    ensures Core(NOTE) == "b//" && TrimSpace("b//") == "b//"
    ensures !HasStall("b//") && EndsInLineComment("b//")
  {
    hide HasStall;
    PlainWalk("b", '/', TOP, 1);
    WalkCompose("b", "//\n", ')', TOP, 1);
    var t := "//\n" + [')'];
    assert t[2..] == "\n)";
    assert Tok(t) == 3;
    assert NOTE == "b//\n" && NOTE[..3] == "b//";
    assert TrimmedLen("b//") == 3;
    assert "b//"[1..] == "//";
    assert Tok("//") == 2;
    NoStall("b//");
  }

  lemma InnerWalk()
    ensures Walk(INNER, ',', TOP, 1) == Reach(TOP)
  {
    PlainWalk(AGENT, '(', TOP, 1);
    AddMark(AGENT, '(', 'x', TOP, 1, TOP);
    AddPlain(OPEN, "x", ')', TOP, 1, Depth(2, 0, 0));
    AddMark(OPEN + "x", ')', ',', TOP, 1, Depth(2, 0, 0));
  }

  lemma OuterScan()
    ensures Scan(CallBody([INNER, NOTE], ""), TOP) == Closed([INNER, NOTE], 0, 0, "")
  {
    hide Walk;
    InnerWalk();
    NoteWalk();
    CloseArg(NOTE, "", TOP, 0, 0);
    CommaArg(INNER, NOTE + ")" + "", TOP);
    var args := [INNER, NOTE];
    assert args[1..] == [NOTE];
    JoinRest(args, "");
    assert [INNER] + [NOTE] == args;
  }

  /** `agent(agent(x),b//<newline>)`: the first pass wraps the options of the outer call, whose
      parenthesis is then lost, so that the second pass finds the inner call instead. */
  lemma CommentBreaksIdempotence()
    ensures var script := OPEN + CallBody([INNER, NOTE], "");
      NoTimeout(NoTimeout(script)) != NoTimeout(script)
  {
    hide Tok, RewriteOptions, Join, HasStall, TrimSpace, SpaceLen, TrimmedLen, NextPiece;
    var args := [INNER, NOTE];
    OuterScan();
    NoteWalk();
    CommentLosesClose(args, 0, 0, "", "");
    AgentCall('\0', args, 0, 0, "");
    var body := CallBody(RewriteArgs(args), "");
    AgentText('\0', body);
    var options := RewriteOptions(NOTE);
    assert RewriteArgs(args) == [INNER, options];
    var rest := "," + options + ")" + "";
    assert body == OPEN + CallBody(["x"], rest) by {
      assert [INNER, options][1..] == [options];
      InnerFirst(options);
    }
    PlainArg("x", rest);
    AgentCall('(', ["x"], 0, 0, rest);
    SecondDiffers(rest, Rewrite(')', rest));
  }

  lemma InnerFirst(options: string)
    ensures CallBody([INNER, options], "") == OPEN + CallBody(["x"], "," + options + ")" + "")
  {
    assert [INNER, options][1..] == [options];
    JoinRest([INNER, options], "");
    Assoc(INNER, ",", options + ")" + "");
    Assoc(OPEN + "x", ")", "," + (options + ")" + ""));
    Assoc(OPEN, "x", ")" + ("," + (options + ")" + "")));
    Assoc("x", ")", "," + (options + ")" + ""));
    Assoc(",", options, ")" + "");
    Assoc(options, ")", "");
    Assoc("," + options, ")", "");
  }

  lemma SecondDiffers(rest: string, rest': string)
    ensures OPEN + (OPEN + CallBody(RewriteArgs(["x"]), rest')) != OPEN + (OPEN + CallBody(["x"], rest))
  {
    assert RewriteArgs(["x"])[1..] == [" " + OBJECT];
    var a, c := CallBody(RewriteArgs(["x"]), rest'), CallBody(["x"], rest);
    assert a[1] == ',' && c[1] == ')';
    assert (OPEN + (OPEN + a))[2 * |OPEN| + 1] == a[1];
    assert (OPEN + (OPEN + c))[2 * |OPEN| + 1] == c[1];
  }

  /** `agent([)`, or any plain text behind the bracket: no comment, but the bracket is left open, so the
      second pass adds the options once more. */
  lemma OpenBracketTwice(w: string)
    requires Plain(w)
    ensures var script := OPEN + CallBody(["[" + w], "");
            AllCommentFree(Calls('\0', script)) && NoTimeout(NoTimeout(script)) != NoTimeout(script)
  {
    hide Scan, NextPiece, Rewrite;
    var args, d := ["[" + w], Depth(1, 0, 1);
    var script := OPEN + CallBody(args, "");
    MarkWalk('[', (w + [')'])[0], TOP, 1);
    WalkCompose("[", w, ')', TOP, 1);
    PlainWalk(w, ')', d, 1);
    CloseArg("[" + w, "", TOP, 0, 1);
    AgentPiece('\0', CallBody(args, ""));
    var c := Call(0, args, 0, 1, "");
    assert Calls('\0', script) == [c] + Calls(')', "") == [c];
    assert !Balanced([c][0]);
    PatchingTwice(script);
  }
}
