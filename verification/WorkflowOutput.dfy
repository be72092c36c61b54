/** What a rewritten script holds, told on its text: every call carries the limit, and its options are the
    original ones under it. */
module WorkflowOutput {
  import opened Text
  import opened WorkflowLexer
  import opened WorkflowRewrite
  import opened WorkflowTwice
  import opened WorkflowIdempotent
  import opened WorkflowScript
  import opened WorkflowComment

  predicate Spaces(w: string) {
    forall i :: 0 <= i < |w| ==> w[i] in {' ', '\t', '\r', '\n'}
  }

  /** White space with vertical tabs and form feeds. */
  predicate Blanks(w: string) {
    forall i :: 0 <= i < |w| ==> w[i] in {' ', '\t', '\r', '\n', '\U{0B}', '\U{0C}'}
  }

  /** The limit is written in a text, whatever white space stands between. */
  predicate Carries(text: string) {
    Contains(Compact(text), "stallMs:2147483647")
  }

  /** An argument is white space l, an expression core between further blanks x and y, and white space r. */
  predicate Consists(arg: string, l: string, x: string, core: string, y: string, r: string) {
    && arg == l + (x + core + y) + r && Spaces(l) && Spaces(r) && Blanks(x) && Blanks(y)
    && (core != "" ==> !Blanks(core[..1]) && !Blanks(core[|core| - 1..]))
    && var inside := x + core + y;
    && (inside != "" ==> !Spaces(inside[..1]) && !Spaces(inside[|inside| - 1..]))
  }

  /** What becomes of such an argument: white space gets the limit, an expression that carries it stays, and
      any other is put under it. */
  function Limiting(l: string, x: string, core: string, y: string, r: string): string {
    if x + core + y == "" then l + r + "{ stallMs: 2147483647 }"
    else if Carries(core) then l + (x + core + y) + r
    else l + "Object.assign({}, (" + core + "), { stallMs: 2147483647 })" + r
  }

  ghost predicate MadeFrom(arg: string, made: string) {
    exists l, x, core, y, r :: Consists(arg, l, x, core, y, r) && made == Limiting(l, x, core, y, r)
  }

  /** The arguments of a rewritten call. */
  ghost predicate Limited(args: seq<string>, made: seq<string>) {
    && args != [] && |made| == (if |args| == 1 then 2 else |args|)
    && made[0] == args[0] && Carries(made[1])
    && (if |args| == 1 then made[1] == " { stallMs: 2147483647 }" else MadeFrom(args[1], made[1]) && made[2..] == args[2..])
  }

  lemma WrapText(core: string)
    ensures Wrap(core) == "Object.assign({}, (" + core + "), { stallMs: 2147483647 })"
  {
    HeadText();
    TailText();
    RightNested(WRAP_HEAD + core, ")", ",", " ", OBJECT, ")");
  }

  lemma HeadText()
    ensures WRAP_HEAD == "Object.assign({}, ("
  {
  }

  lemma TailText()
    ensures ")" + "," + " " + OBJECT + ")" == "), { stallMs: 2147483647 })"
  {
    assert OBJECT == "{ stallMs: 2147483647 }";
  }

  lemma TrimEnds(t: string)
    ensures var core := TrimSpace(t); core != "" ==> !Blanks(core[..1]) && !Blanks(core[|core| - 1..])
  {
    var core := TrimSpace(t);
    if core != "" {
      assert !IsGoSpace(core[..1][0]) && !IsGoSpace(core[|core| - 1..][0]);
    }
  }

  lemma EdgesSpaced(arg: string)
    ensures Spaces(arg[..SpaceLen(arg)]) && Spaces(arg[TrimmedLen(arg)..])
    ensures var core := Core(arg); core != "" ==> !Spaces(core[..1]) && !Spaces(core[|core| - 1..])
  {
    hide SpaceLen, TrimmedLen;
    var core := Core(arg);
    if core != "" {
      assert !IsSpace(core[..1][0]) && !IsSpace(core[|core| - 1..][0]);
    }
  }

  /** An argument that is not all white space, in its parts. */
  lemma OptionsParts(arg: string) returns (l: string, x: string, core: string, y: string, r: string)
    requires Core(arg) != ""
    ensures Consists(arg, l, x, core, y, r) && core == TrimSpace(Core(arg)) && x + core + y == Core(arg)
    ensures RewriteOptions(arg) == if HasStall(core) then arg else l + Wrap(core) + r
  {
    hide HasStall, Wrap, Core, TrimSpace, SpaceLen, TrimmedLen;
    l, core, r := arg[..SpaceLen(arg)], TrimSpace(Core(arg)), arg[TrimmedLen(arg)..];
    x, y := TrimParts(Core(arg));
    TrimEnds(Core(arg));
    EdgesSpaced(arg);
    CoreParts(arg);
    Settling(arg);
    Assoc(l, Core(arg), r);
    Assoc(l, Wrap(core), r);
  }

  lemma Settling(arg: string)
    ensures Core(arg) != "" && HasStall(TrimSpace(Core(arg))) ==> RewriteOptions(arg) == arg
  {
    hide HasStall, TrimSpace, Wrap;
  }

  lemma LimitingIs(l: string, x: string, core: string, y: string, r: string)
    requires x + core + y != ""
    ensures Limiting(l, x, core, y, r) == if HasStall(core) then l + (x + core + y) + r else l + Wrap(core) + r
  {
    hide HasStall, Carries, Wrap;
    StallCarries(core);
    WrapText(core);
  }

  lemma LimitingNothing(arg: string)
    ensures Limiting(arg, "", "", "", "") == arg + OBJECT
  {
    ObjectText(arg);
    assert arg + "" == arg;
  }

  /** The rewritten options, told on the text. */
  lemma OptionsText(arg: string)
    ensures MadeFrom(arg, RewriteOptions(arg)) && Carries(RewriteOptions(arg))
  {
    hide HasStall, Wrap, RewriteOptions, Core, TrimSpace, Carries, Limiting;
    if Core(arg) == "" {
      EmptyOptions(arg);
      ObjectText(arg);
      LimitingNothing(arg);
      assert Consists(arg, arg, "", "", "", "");
    } else {
      var l, x, core, y, r := OptionsParts(arg);
      OptionsLimited(arg, l, x, core, y, r);
    }
  }

  lemma OptionsLimited(arg: string, l: string, x: string, core: string, y: string, r: string)
    requires arg == l + (x + core + y) + r && x + core + y != ""
    requires RewriteOptions(arg) == if HasStall(core) then arg else l + Wrap(core) + r
    ensures RewriteOptions(arg) == Limiting(l, x, core, y, r) && Carries(RewriteOptions(arg))
  {
    hide HasStall, Wrap, RewriteOptions, Carries, Limiting;
    LimitingIs(l, x, core, y, r);
    if HasStall(core) {
      StallCarries(core);
      CarriesMore(l + x, core, y + r);
      assert arg == l + x + core + (y + r);
    } else {
      WrapCarries(l, core, r);
    }
  }

  lemma ObjectText(arg: string)
    ensures OBJECT == "{ stallMs: 2147483647 }" && Carries(arg + OBJECT)
  {
    hide Compact;
    ObjectHasStall(arg, "");
    StallCarries(arg + OBJECT);
    assert arg + OBJECT + "" == arg + OBJECT;
  }

  lemma WrapCarries(l: string, core: string, r: string)
    ensures Carries(l + Wrap(core) + r)
  {
    hide Compact;
    var v, w := l + (WRAP_HEAD + core + ")" + "," + " "), ")" + r;
    ObjectHasStall(v, w);
    StallCarries(v + OBJECT + w);
    WrapParts(l, WRAP_HEAD + core + ")" + "," + " ", OBJECT, r);
  }

  lemma WrapParts(l: string, head: string, made: string, r: string)
    ensures l + (head + made + ")") + r == l + head + made + (")" + r)
  {
    Assoc(l, head + made, ")");
    Assoc(l, head, made);
    Assoc(l + head + made, ")", r);
  }

  /** A text carries the limit if a part of it does. */
  lemma CarriesMore(v: string, t: string, w: string)
    requires Carries(t)
    ensures Carries(v + t + w)
  {
    CompactAppend(v, t);
    CompactAppend(v + t, w);
    ContainsMore(Compact(v), Compact(t), Compact(w), "stallMs:2147483647");
  }

  lemma ContainsMore(v: string, t: string, w: string, part: string)
    requires Contains(t, part)
    ensures Contains(v + t + w, part)
  {
    var i :| 0 <= i <= |t| && part <= t[i..];
    assert (v + t + w)[|v| + i..] == t[i..] + w;
  }

  lemma StallCarries(text: string)
    ensures HasStall(text) <==> Carries(text)
  {
    assert NEEDLE == "stallMs:2147483647";
  }

  lemma ArgsLimited(args: seq<string>)
    requires args != []
    ensures Limited(args, RewriteArgs(args))
  {
    hide RewriteOptions, Carries, MadeFrom;
    if |args| == 1 {
      ObjectText(" ");
      assert " " + OBJECT == " { stallMs: 2147483647 }";
    } else {
      OptionsText(args[1]);
      assert RewriteArgs(args)[2..] == args[2..];
    }
  }

  /** A rewritten text holds the calls of the original, rewritten, in their order. */
  lemma {:induction false} CallsKept(prev: char, t: string)
    requires AllCommentFree(Calls(prev, t))
    ensures var cs, ds := Calls(prev, t), Calls(prev, Rewrite(prev, t));
            |ds| == |cs| && forall i :: 0 <= i < |cs| ==>
              ds[i].args == if Balanced(cs[i]) then RewriteArgs(cs[i].args) else [Join(RewriteArgs(cs[i].args))]
    decreases |t|
  {
    hide RewriteArgs, Join, Balanced, CommentFree, NextPiece, LastNonSpace, CallHead, CallBody;
    if t != [] {
      var u := Rewrite(prev, t);
      HeadKept(prev, t);
      match NextPiece(prev, t)
      case Text(n) =>
        var p := LastNonSpace(prev, t[..n]);
        TextKept(prev, t, n);
        CallsKept(p, t[n..]);
        assert u[..n] == t[..n] && u[n..] == Rewrite(p, t[n..]);
      case Call(gap, args, b, k, rest) =>
        CallKept(prev, t);
        assert Calls(prev, t)[1..] == Calls(')', rest);
        CallsKept(')', rest);
    }
  }

  /** Every balanced call of a script is found again in the rewritten one, with its first argument and those
      after the second as they were, and a second one that carries the limit: the original options if they
      carry it, otherwise those under it. */
  lemma EveryCallLimited(script: string)
    requires AllCommentFree(Calls('\0', script))
    ensures var cs, ds := Calls('\0', script), Calls('\0', NoTimeout(script));
            |ds| == |cs| && forall i :: 0 <= i < |cs| && Balanced(cs[i]) ==> Limited(cs[i].args, ds[i].args)
  {
    hide Limited, RewriteArgs, Calls;
    CallsKept('\0', script);
    forall args: seq<string> | args != [] ensures Limited(args, RewriteArgs(args)) {
      ArgsLimited(args);
    }
  }

  // Which calls there are.

  /** agent, white space and a parenthesis begin the text, and the call closes. */
  ghost predicate BeginsCall(t: string) {
    exists gap: string, body: string ::
      Spaces(gap) && t == "agent" + gap + "(" + body && Scan(body, TOP).Closed?
  }

  lemma OpensText(t: string, gap: string, body: string)
    requires Spaces(gap) && t == "agent" + gap + "(" + body
    ensures OpensCall(t, |gap|) && t[|AGENT|..][|gap| + 1..] == body
  {
    hide SpaceLen;
    var after := gap + ("(" + body);
    assert t == "agent" + after;
    assert t[|AGENT|..] == after && t[..|AGENT|] == AGENT;
    SpaceLenOf(gap, "(" + body);
    assert after[|gap| + 1..] == body;
  }

  lemma CallFound(prev: char, t: string, gap: string, body: string)
    requires Spaces(gap) && t == "agent" + gap + "(" + body && Scan(body, TOP).Closed?
    ensures NextPiece(prev, t).Call? <==> prev != '.'
  {
    hide Scan, SpaceLen, IdentLen;
    OpensText(t, gap, body);
    AgentIdent(t);
  }

  lemma CallBegins(t: string)
    requires |t| >= |AGENT| && t[..|AGENT|] == AGENT && CallPiece(t[|AGENT|..]).Call?
    ensures BeginsCall(t)
  {
    hide Scan;
    var after := t[|AGENT|..];
    var g := CallPiece(after).gap;
    var gap, body := after[..g], after[g + 1..];
    assert after == gap + "(" + body;
    Assoc("agent", gap, "(" + body);
    Assoc("agent" + gap, "(", body);
    Assoc(gap, "(", body);
    assert t == t[..|AGENT|] + after;
    assert Spaces(gap) && t == "agent" + gap + "(" + body;
  }

  /** A call is taken for one exactly if it begins there and no dot stands before it, white space aside. */
  lemma CallIff(prev: char, t: string)
    requires t != []
    ensures NextPiece(prev, t).Call? <==> prev != '.' && BeginsCall(t)
  {
    hide Scan, SpaceLen, IdentLen, CallPiece;
    if BeginsCall(t) {
      var gap: string, body: string :| Spaces(gap) && t == "agent" + gap + "(" + body && Scan(body, TOP).Closed?;
      CallFound(prev, t, gap, body);
    }
    if NextPiece(prev, t).Call? {
      CallBegins(t);
    }
  }

  lemma {:induction false} AfterDot(z: string, r: string)
    requires Spaces(z) && (r != "" ==> !IsIdentPart(r[0]))
    ensures Rewrite('.', z + ("agent" + r)) == z + ("agent" + Rewrite('t', r))
  {
    hide Rewrite, Tok, IdentLen;
    var name, made := "agent" + r, "agent" + Rewrite('t', r);
    if z == "" {
      MethodName(r);
      assert "" + name == name && "" + made == made;
    } else {
      AfterDot(z[1..], r);
      var t := z + name;
      ByteKept('.', t);
      assert LastNonSpace('.', t[..1]) == '.';
      assert t[1..] == z[1..] + name && t[..1] == z[..1];
      assert z[..1] + (z[1..] + made) == z + made;
    }
  }

  /** A method called agent is left alone, white space behind its dot or not: only what follows its name is
      rewritten. */
  lemma MethodKept(prev: char, z: string, r: string)
    requires Spaces(z) && (r != "" ==> !IsIdentPart(r[0]))
    ensures Rewrite(prev, "." + (z + ("agent" + r))) == "." + (z + ("agent" + Rewrite('t', r)))
  {
    hide Rewrite, IdentLen;
    AfterDot(z, r);
    DotByte(prev, z + ("agent" + r));
  }

  lemma DotByte(prev: char, t: string)
    ensures Rewrite(prev, "." + t) == "." + Rewrite('.', t)
  {
    var u := "." + t;
    assert Tok(u) == 1 && u[..1] == "." && u[1..] == t;
    assert NextPiece(prev, u) == Text(1);
    assert LastNonSpace(prev, ".") == '.';
  }

  lemma MethodName(r: string)
    requires r != "" ==> !IsIdentPart(r[0])
    ensures Rewrite('.', "agent" + r) == "agent" + Rewrite('t', r)
  {
    hide Scan;
    var t := "agent" + r;
    assert t[1..] == "gent" + r;
    IdentLocal("gent", r);
    assert t[..5] == "agent" && t[5..] == r;
    assert NextPiece('.', t) == Text(5);
    assert LastNonSpace('.', "agent") == 't';
  }
}
