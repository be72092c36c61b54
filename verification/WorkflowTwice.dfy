/** Rewriting a rewritten script: which calls the second pass sees, and when it leaves
    the text as it is. */
module WorkflowTwice {
  import opened WorkflowLexer
  import opened WorkflowRewrite

  // ---- What a scanned call consists of ----

  /** The arguments are the text up to the closing parenthesis. */
  lemma {:induction false} ScanText(t: string, d: Depth)
    requires Scan(t, d).Closed?
    ensures t == Join(Scan(t, d).args) + ")" + Scan(t, d).rest
    decreases |t|
  {
    hide Tok;
    var n := Tok(t);
    if n == 1 && t[0] == ')' && d.paren <= 1 {
      assert t == "" + ")" + t[1..];
    } else if n == 1 && t[0] == ',' && d == TOP {
      ScanText(t[1..], d);
      var u := Scan(t[1..], d);
      assert ([""] + u.args)[1..] == u.args;
      assert t == ("" + "," + Join(u.args)) + ")" + u.rest;
    } else {
      var d' := if n > 1 then d else Move(t[0], d);
      var u := Scan(t[n..], d');
      ScanText(t[n..], d');
      StretchText(t, n, u.args, u.rest);
    }
  }

  /** Each argument walks from comma to comma. */
  lemma {:induction false} ScanWalks(t: string, d: Depth)
    requires d.paren >= 1 && Scan(t, d).Closed?
    ensures var s := Scan(t, d);
      && (|s.args| == 1 ==> Walk(s.args[0], ')', d, 1) == Reach(Depth(1, s.brace, s.bracket)))
      && (|s.args| > 1 ==>
            && Walk(s.args[0], ',', d, 1) == Reach(TOP)
            && Scan(Join(s.args[1..]) + ")" + s.rest, TOP) == s.(args := s.args[1..]))
    decreases |t|
  {
    hide Join;
    var s := Scan(t, d);
    var n := Tok(t);
    if n == 1 && t[0] == ')' && d.paren <= 1 {
    } else if n == 1 && t[0] == ',' && d == TOP {
      assert s.args[1..] == Scan(t[1..], d).args;
      ScanText(t[1..], d);
    } else {
      var d' := if n > 1 then d else Move(t[0], d);
      var u := Scan(t[n..], d');
      ScanWalks(t[n..], d');
      ScanText(t[n..], d');
      assert s.args == [t[..n] + u.args[0]] + u.args[1..];
      assert s.args[1..] == u.args[1..];
      FirstByte(t, n, u.args, u.rest);
      StretchWalk(t, n, u.args[0], if |u.args| == 1 then ')' else ',', d);
    }
  }

  lemma StretchText(t: string, n: nat, args: seq<string>, rest: string)
    requires n <= |t| && args != [] && t[n..] == Join(args) + ")" + rest
    ensures t == Join([t[..n] + args[0]] + args[1..]) + ")" + rest
  {
    StretchFirst(t[..n], args);
    assert t == t[..n] + t[n..];
    Assoc(t[..n] + Join(args), ")", rest);
    Assoc(Join(args), ")", rest);
    Assoc(t[..n], Join(args), ")" + rest);
  }

  lemma StretchFirst(v: string, args: seq<string>)
    requires args != []
    ensures Join([v + args[0]] + args[1..]) == v + Join(args)
  {
    var more := [v + args[0]] + args[1..];
    if |args| > 1 {
      assert more[1..] == args[1..];
      Assoc(v + args[0], ",", Join(args[1..]));
      Assoc(args[0], ",", Join(args[1..]));
      Assoc(v, args[0], "," + Join(args[1..]));
    }
  }

  /** Where the first argument ends, and the byte there. */
  lemma FirstByte(t: string, n: nat, args: seq<string>, rest: string)
    requires n <= |t| && args != [] && t[n..] == Join(args) + ")" + rest
    ensures var w := args[0];
      && n + |w| < |t| && t[n..n + |w|] == w
      && t[n + |w|] == (if |args| == 1 then ')' else ',')
  {
    var w := args[0];
    var z := if |args| == 1 then ")" + rest else "," + (Join(args[1..]) + ")" + rest);
    if |args| == 1 {
      Assoc(w, ")", rest);
    } else {
      JoinRest(args, rest);
      Assoc(w, ",", Join(args[1..]) + ")" + rest);
    }
    assert t[n..] == w + z;
    assert t[n..][|w|] == z[0];
    assert t[n..][..|w|] == w;
  }

  /** A token in front of a walk. */
  lemma StretchWalk(t: string, n: nat, w: string, h: char, d: Depth)
    requires t != [] && n == Tok(t) && |w| < |t| - n && t[n..n + |w|] == w && t[n + |w|] == h
    requires !(n == 1 && t[0] == ')' && d.paren <= 1) && !(n == 1 && t[0] == ',' && d == TOP)
    requires h == ')' || h == ','
    ensures Walk(t[..n] + w, h, d, 1) == Walk(w, h, if n > 1 then d else Move(t[0], d), 1)
  {
    var v := t[..n];
    assert t == v + t[n..];
    TokLocal(v, t[n..], w + [h]);
    Assoc(v, w, [h]);
    assert (v + w)[n..] == w;
  }

  /** A last argument closes the call. */
  lemma CloseArg(arg: string, rest: string, d: Depth, b: nat, k: nat)
    requires d.paren >= 1 && Walk(arg, ')', d, 1) == Reach(Depth(1, b, k))
    ensures Scan(arg + ")" + rest, d) == Closed([arg], b, k, rest)
  {
    Assoc(arg, ")", rest);
    WalkThenScan(arg, d, ")" + rest);
    assert Tok(")" + rest) == 1;
    assert (")" + rest)[1..] == rest;
    assert arg + "" == arg;
  }

  /** An argument and its comma. */
  lemma CommaArg(arg: string, more: string, d: Depth)
    requires d.paren >= 1 && Walk(arg, ',', d, 1) == Reach(TOP) && Scan(more, TOP).Closed?
    ensures Scan(arg + "," + more, d) == Scan(more, TOP).(args := [arg] + Scan(more, TOP).args)
  {
    Assoc(arg, ",", more);
    WalkThenScan(arg, d, "," + more);
    assert Tok("," + more) == 1;
    assert ("," + more)[1..] == more;
    assert arg + "" == arg;
    assert [""] + Scan(more, TOP).args != [];
    assert ([""] + Scan(more, TOP).args)[1..] == Scan(more, TOP).args;
  }

  /** What a call's arguments are does not depend on the text after the call. */
  lemma {:induction false} OtherRest(args: seq<string>, b: nat, k: nat, rest: string, rest': string)
    requires args != [] && Scan(Join(args) + ")" + rest, TOP) == Closed(args, b, k, rest)
    ensures Scan(Join(args) + ")" + rest', TOP) == Closed(args, b, k, rest')
    decreases |args|
  {
    ScanWalks(Join(args) + ")" + rest, TOP);
    if |args| == 1 {
      CloseArg(args[0], rest', TOP, b, k);
    } else {
      OtherRest(args[1..], b, k, rest, rest');
      CommaArg(args[0], Join(args[1..]) + ")" + rest', TOP);
      JoinRest(args, rest');
      assert [args[0]] + args[1..] == args;
    }
  }

  lemma JoinRest(args: seq<string>, rest: string)
    requires |args| > 1
    ensures Join(args) + ")" + rest == args[0] + "," + (Join(args[1..]) + ")" + rest)
  {
    Assoc(args[0] + ",", Join(args[1..]), ")" + rest);
    Assoc(args[0] + "," + Join(args[1..]), ")", rest);
    Assoc(Join(args[1..]), ")", rest);
  }

  // ---- Scanning a rewritten call ----

  /** A rewritten call with options has the rewritten arguments and closes where it did. */
  lemma RescanOptions(args: seq<string>, b: nat, k: nat, rest: string, rest': string)
    requires |args| >= 2 && OptionsFree(args)
    requires Scan(Join(args) + ")" + rest, TOP) == Closed(args, b, k, rest)
    ensures Scan(Join(RewriteArgs(args)) + ")" + rest', TOP) == Closed(RewriteArgs(args), b, k, rest')
  {
    hide Scan, Wrap, HasStall, LineEnd;
    var made := RewriteArgs(args);
    var tail := args[1..];
    var tail' := tail[0 := RewriteOptions(tail[0])];
    assert made[1..] == tail';
    ScanWalks(Join(args) + ")" + rest, TOP);
    ScanWalks(Join(tail) + ")" + rest, TOP);
    if |args| == 2 {
      OptionsWalk(tail[0], ')', TOP, 1);
      CloseArg(tail'[0], rest', TOP, b, k);
      assert tail' == [tail'[0]];
    } else {
      OptionsWalk(tail[0], ',', TOP, 1);
      OtherRest(tail[1..], b, k, rest, rest');
      CommaArg(tail'[0], Join(tail[1..]) + ")" + rest', TOP);
      assert tail'[1..] == tail[1..];
      JoinRest(tail', rest');
      assert [tail'[0]] + tail[1..] == tail';
    }
    CommaArg(args[0], Join(tail') + ")" + rest', TOP);
    JoinRest(made, rest');
    assert [args[0]] + tail' == made;
  }

  /** A rewritten call without options gets them as a second argument if it leaves nothing
      open; otherwise they vanish into its only argument. */
  lemma RescanBare(arg: string, b: nat, k: nat, rest': string)
    requires Walk(arg, ')', TOP, 1) == Reach(Depth(1, b, k))
    ensures b == 0 && k == 0 ==>
              Scan(Join(RewriteArgs([arg])) + ")" + rest', TOP) == Closed(RewriteArgs([arg]), b, k, rest')
    ensures !(b == 0 && k == 0) ==>
              Scan(Join(RewriteArgs([arg])) + ")" + rest', TOP)
              == Closed([Join(RewriteArgs([arg]))], b, k, rest')
  {
    var d := Depth(1, b, k);
    WalkFollower(arg, ')', ',', TOP, 1);
    var made := RewriteArgs([arg]);
    assert made[1..] == [" " + OBJECT];
    assert Join(made[1..]) == " " + OBJECT;
    JoinRest(made, rest');
    if d == TOP {
      AddPlain("", " ", '{', TOP, 1, TOP);
      AddObject(" ", ')', TOP, 1, TOP);
      assert "" + " " == " ";
      CloseArg(" " + OBJECT, rest', TOP, 0, 0);
      CommaArg(arg, " " + OBJECT + ")" + rest', TOP);
    } else {
      AddInsertion(arg, ')', TOP, 1, d);
      Assoc(arg + ",", " ", OBJECT);
      CloseArg(Join(made), rest', TOP, b, k);
    }
  }

  // ---- A rewritten call inside a larger scan ----

  /** Inside a larger call the arguments return to the parenthesis depth they began at. */
  lemma {:induction false} ArgsDeep(args: seq<string>, b: nat, k: nat, rest: string, e: Depth)
    requires args != [] && e.paren >= 2
    requires Scan(Join(args) + ")" + rest, TOP) == Closed(args, b, k, rest)
    ensures Walk(Join(args), ')', e, e.paren).Reach?
    ensures Walk(Join(args), ')', e, e.paren).depth.paren == e.paren
    decreases |args|
  {
    var e' := FirstDeep(args, b, k, rest, e);
    if |args| > 1 {
      ArgsDeep(args[1..], b, k, rest, e');
      CommaWalk(args[0], Join(args[1..]), e, e');
    }
  }

  lemma CommaWalk(v: string, w: string, e: Depth, e': Depth)
    requires e.paren >= 2 && Walk(v, ',', e, e.paren) == Reach(e') && e'.paren == e.paren
    ensures Walk(v + "," + w, ')', e, e.paren) == Walk(w, ')', e', e.paren)
  {
    AddMark(v, ',', (w + [')'])[0], e, e.paren, e');
    WalkCompose(v + ",", w, ')', e, e.paren);
  }

  lemma FirstDeep(args: seq<string>, b: nat, k: nat, rest: string, e: Depth) returns (e': Depth)
    requires args != [] && e.paren >= 2
    requires Scan(Join(args) + ")" + rest, TOP) == Closed(args, b, k, rest)
    ensures e'.paren == e.paren
    ensures Walk(args[0], if |args| == 1 then ')' else ',', e, e.paren) == Reach(e')
    ensures |args| > 1 ==> Scan(Join(args[1..]) + ")" + rest, TOP) == Closed(args[1..], b, k, rest)
  {
    ScanWalks(Join(args) + ")" + rest, TOP);
    var h := if |args| == 1 then ')' else ',';
    WalkDeeper(args[0], h, TOP, 1, e.paren - 1, e);
    e' := Walk(args[0], h, e, e.paren).depth;
  }

  /** There, rewritten arguments have the effect of the original ones. */
  lemma RewrittenDeep(args: seq<string>, b: nat, k: nat, rest: string, e: Depth)
    requires args != [] && e.paren >= 2 && OptionsFree(args)
    requires Scan(Join(args) + ")" + rest, TOP) == Closed(args, b, k, rest)
    ensures Walk(Join(RewriteArgs(args)), ')', e, e.paren) == Walk(Join(args), ')', e, e.paren)
  {
    var e' := FirstDeep(args, b, k, rest, e);
    if |args| == 1 {
      assert args == [args[0]];
      BareDeep(args[0], e, e');
    } else {
      OptionsDeep(args[1..], b, k, rest, e');
      CommaWalk(args[0], Join(args[1..]), e, e');
      CommaWalk(args[0], Join(RewriteArgs(args)[1..]), e, e');
      assert RewriteArgs(args)[1..] == args[1..][0 := RewriteOptions(args[1])];
    }
  }

  lemma BareDeep(arg: string, e: Depth, e': Depth)
    requires e.paren >= 2 && e'.paren == e.paren && Walk(arg, ')', e, e.paren) == Reach(e')
    ensures Walk(Join(RewriteArgs([arg])), ')', e, e.paren) == Reach(e')
  {
    assert RewriteArgs([arg])[1..] == [" " + OBJECT];
    WalkFollower(arg, ')', ',', e, e.paren);
    AddInsertion(arg, ')', e, e.paren, e');
    Assoc(arg + ",", " ", OBJECT);
  }

  lemma OptionsDeep(args: seq<string>, b: nat, k: nat, rest: string, e: Depth)
    requires args != [] && e.paren >= 2
    requires Wrappable(args[0])
    requires Scan(Join(args) + ")" + rest, TOP) == Closed(args, b, k, rest)
    ensures Walk(Join(args[0 := RewriteOptions(args[0])]), ')', e, e.paren) == Walk(Join(args), ')', e, e.paren)
  {
    var e' := FirstDeep(args, b, k, rest, e);
    var made := args[0 := RewriteOptions(args[0])];
    OptionsWalk(args[0], if |args| == 1 then ')' else ',', e, e.paren);
    if |args| > 1 {
      assert made[1..] == args[1..];
      CommaWalk(args[0], Join(args[1..]), e, e');
      CommaWalk(made[0], Join(args[1..]), e, e');
    }
  }
}
