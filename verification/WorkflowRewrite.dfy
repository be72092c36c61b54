/** What WorkflowNoTimeoutScript computes (clientkit/workflow.go:141-208), defined on the text
    still to be read, and how its insertions read to the scanner. */
module WorkflowRewrite {
  import opened Text
  import opened WorkflowLexer

  /** MaxTimeoutMS of clientkit/profile.go. */
  const NAME := "stallMs:"
  const LIMIT := "2147483647"
  const NEEDLE := NAME + LIMIT
  const OBJECT := "{" + " " + NAME + " " + LIMIT + " " + "}"

  predicate IsIdentStart(c: char) {
    c == '_' || c == '$' || 'a' <= c <= 'z' || 'A' <= c <= 'Z'
  }

  predicate IsIdentPart(c: char) {
    IsIdentStart(c) || '0' <= c <= '9'
  }

  function IdentLen(t: string): (n: nat)
    ensures n <= |t|
  {
    if t == [] || !IsIdentPart(t[0]) then 0 else 1 + IdentLen(t[1..])
  }

  function SpaceLen(t: string): (n: nat)
    ensures n <= |t|
    ensures forall i :: 0 <= i < n ==> IsSpace(t[i])
    ensures n < |t| ==> !IsSpace(t[n])
  {
    if t == [] || !IsSpace(t[0]) then 0 else 1 + SpaceLen(t[1..])
  }

  /** Length of t without its trailing white space. */
  function TrimmedLen(t: string): (n: nat)
    ensures n <= |t|
    ensures forall i :: n <= i < |t| ==> IsSpace(t[i])
    ensures n > 0 ==> !IsSpace(t[n - 1])
  {
    if t == [] || !IsSpace(t[|t| - 1]) then |t| else TrimmedLen(t[..|t| - 1])
  }

  /** The last byte that is not white space, or `prev` when w has none. */
  function LastNonSpace(prev: char, w: string): char {
    if TrimmedLen(w) == 0 then prev else w[TrimmedLen(w) - 1]
  }

  /** The text with blanks, tabs and line ends removed. */
  function Compact(t: string): (r: string)
    ensures forall i :: 0 <= i < |r| ==> !IsSpace(r[i])
    ensures (forall i :: 0 <= i < |t| ==> !IsSpace(t[i])) ==> r == t
  {
    if t == [] then "" else (if IsSpace(t[0]) then "" else t[..1]) + Compact(t[1..])
  }

  predicate HasStall(expr: string) {
    Contains(Compact(expr), NEEDLE)
  }

  const WRAP_HEAD := "Object.assign" + "(" + "{" + "}" + "," + " " + "("

  function Wrap(expr: string): string {
    WRAP_HEAD + expr + ")" + "," + " " + OBJECT + ")"
  }

  /** The second argument without the white space around it. */
  function Core(arg: string): string {
    var lead := SpaceLen(arg);
    if lead >= TrimmedLen(arg) then "" else arg[lead..TrimmedLen(arg)]
  }

  function RewriteOptions(arg: string): string {
    var lead, end := SpaceLen(arg), TrimmedLen(arg);
    if lead >= end then arg[..lead] + OBJECT + arg[lead..]
    else if HasStall(TrimSpace(arg[lead..end])) then arg
    else arg[..lead] + Wrap(TrimSpace(arg[lead..end])) + arg[end..]
  }

  function RewriteArgs(args: seq<string>): (r: seq<string>)
    requires args != []
    ensures r != []
  {
    if |args| == 1 then [args[0], " " + OBJECT] else args[1 := RewriteOptions(args[1])]
  }

  // ---- Reading a script piece by piece ----

  datatype Piece =
    | Text(len: nat)
    | Call(gap: nat, args: seq<string>, brace: nat, bracket: nat, rest: string)

  const AGENT := "agent"

  /** What the text after an `agent` identifier makes of it. */
  function CallPiece(after: string): (p: Piece)
    ensures p.Call? ==> p.gap < |after| && after[p.gap] == '(' && p.args != [] && |p.rest| < |after|
  {
    var gap := SpaceLen(after);
    if gap < |after| && after[gap] == '(' then
      match Scan(after[gap + 1..], TOP)
      case Unclosed => Text(|AGENT|)
      case Closed(args, brace, bracket, rest) => Call(gap, args, brace, bracket, rest)
    else Text(|AGENT|)
  }

  /** The piece at the head of t, after text whose last non-space byte is prev. */
  function NextPiece(prev: char, t: string): (p: Piece)
    requires t != []
    ensures p.Text? ==> 1 <= p.len <= |t|
    ensures p.Call? ==> p.args != [] && |p.rest| < |t|
  {
    if !IsIdentStart(t[0]) then Text(Tok(t))
    else
      var n := 1 + IdentLen(t[1..]);
      if t[..n] == AGENT && prev != '.' then CallPiece(t[n..]) else Text(n)
  }

  /** The rewritten text. */
  function Rewrite(prev: char, t: string): string
    decreases |t|
  {
    if t == [] then ""
    else match NextPiece(prev, t)
      case Text(n) => t[..n] + Rewrite(LastNonSpace(prev, t[..n]), t[n..])
      case Call(gap, args, _, _, rest) =>
        CallHead(t, gap) + CallBody(RewriteArgs(args), Rewrite(')', rest))
  }

  /** Arguments, the closing parenthesis and the text after it. */
  function CallBody(args: seq<string>, rest: string): string {
    Join(args) + ")" + rest
  }

  /** `agent`, its gap and the opening parenthesis. */
  function CallHead(t: string, gap: nat): string {
    if |AGENT| + gap + 1 <= |t| then t[..|AGENT| + gap + 1] else t
  }

  /** The calls the rewriter recognises, in order. */
  function Calls(prev: char, t: string): (cs: seq<Piece>)
    ensures forall c <- cs :: c.Call? && c.args != []
    decreases |t|
  {
    if t == [] then []
    else match NextPiece(prev, t)
      case Text(n) => Calls(LastNonSpace(prev, t[..n]), t[n..])
      case Call(_, _, _, _, rest) => [NextPiece(prev, t)] + Calls(')', rest)
  }

  /** A call without options leaves no brace or bracket open. */
  predicate Balanced(c: Piece)
    requires c.Call?
  {
    |c.args| == 1 ==> c.brace == 0 && c.bracket == 0
  }

  /** The options argument does not get wrapped, or does not end in a line comment. */
  predicate Wrappable(arg: string) {
    Core(arg) != "" && !HasStall(TrimSpace(Core(arg))) ==> !EndsInLineComment(TrimSpace(Core(arg)))
  }

  predicate OptionsFree(args: seq<string>) {
    |args| >= 2 ==> Wrappable(args[1])
  }

  predicate CommentFree(c: Piece)
    requires c.Call?
  {
    OptionsFree(c.args)
  }

  // ---- Inserted text is transparent to the scanner ----

  lemma AddMark(v: string, c: char, h: char, d: Depth, floor: nat, e: Depth)
    requires Walk(v, c, d, floor) == Reach(e)
    requires c in "(){}[]," && !(c == ')' && e.paren <= floor) && !(c == ',' && e == TOP)
    ensures Walk(v + [c], h, d, floor) == Reach(Move(c, e))
  {
    assert ([c] + [h])[0] == c;
    WalkCompose(v, [c], h, d, floor);
    MarkWalk(c, h, e, floor);
  }

  lemma AddPlain(v: string, w: string, h: char, d: Depth, floor: nat, e: Depth)
    requires w != [] && Plain(w) && Walk(v, w[0], d, floor) == Reach(e)
    ensures Walk(v + w, h, d, floor) == Reach(e)
  {
    assert (w + [h])[0] == w[0];
    WalkCompose(v, w, h, d, floor);
    PlainWalk(w, h, e, floor);
  }

  /** Adding `{ stallMs: N }` leaves the counters as they were. */
  lemma AddObject(v: string, h: char, d: Depth, floor: nat, e: Depth)
    requires floor >= 1 && Walk(v, '{', d, floor) == Reach(e)
    ensures Walk(v + OBJECT, h, d, floor) == Reach(e)
  {
    hide Walk;
    assert (OBJECT + [h])[0] == '{';
    WalkCompose(v, OBJECT, h, d, floor);
    var b := Move('{', e);
    MarkWalk('{', ' ', e, floor);
    AddPlain("{", " ", 's', e, floor, b);
    AddPlain("{" + " ", NAME, ' ', e, floor, b);
    AddPlain("{" + " " + NAME, " ", '2', e, floor, b);
    AddPlain("{" + " " + NAME + " ", LIMIT, ' ', e, floor, b);
    AddPlain("{" + " " + NAME + " " + LIMIT, " ", '}', e, floor, b);
    AddMark("{" + " " + NAME + " " + LIMIT + " ", '}', h, e, floor, b);
  }

  /** Adding `, { stallMs: N }` where a comma is not the call's own. */
  lemma AddInsertion(v: string, h: char, d: Depth, floor: nat, e: Depth)
    requires floor >= 1 && Walk(v, ',', d, floor) == Reach(e) && e != TOP
    ensures Walk(v + "," + " " + OBJECT, h, d, floor) == Reach(e)
  {
    AddMark(v, ',', ' ', d, floor, e);
    AddPlain(v + ",", " ", '{', d, floor, e);
    AddObject(v + "," + " ", h, d, floor, e);
  }

  /** `Object.assign({}, (` opens two parentheses. */
  lemma WrapHeadWalk(h: char, d: Depth, floor: nat)
    requires floor >= 1 && d.paren >= floor
    ensures Walk(WRAP_HEAD, h, d, floor) == Reach(d.(paren := d.paren + 2))
  {
    PlainWalk("Object.assign", '(', d, floor);
    HeadWalk("Object.assign", h, d, floor);
  }

  lemma HeadWalk(name: string, h: char, d: Depth, floor: nat)
    requires floor >= 1 && d.paren >= floor && Walk(name, '(', d, floor) == Reach(d)
    ensures Walk(name + "(" + "{" + "}" + "," + " " + "(", h, d, floor) == Reach(d.(paren := d.paren + 2))
  {
    var e := Move('(', d);
    AddMark(name, '(', '{', d, floor, d);
    AddMark(name + "(", '{', '}', d, floor, e);
    AddMark(name + "(" + "{", '}', ',', d, floor, Move('{', e));
    AddMark(name + "(" + "{" + "}", ',', ' ', d, floor, e);
    AddPlain(name + "(" + "{" + "}" + ",", " ", '(', d, floor, e);
    AddMark(name + "(" + "{" + "}" + "," + " ", '(', h, d, floor, e);
  }

  /** A wrapped expression reaches the depth the bare one reached. */
  lemma WrapWalk(expr: string, h: char, d: Depth, floor: nat)
    requires floor >= 1 && d.paren >= floor && Walk(expr, ')', d, floor).Reach?
    ensures Walk(Wrap(expr), h, d, floor) == Walk(expr, ')', d, floor)
  {
    var d2 := d.(paren := d.paren + 2);
    var e := Walk(expr, ')', d, floor).depth;
    WrapHeadWalk((expr + [')'])[0], d, floor);
    WalkDeeper(expr, ')', d, floor, 2, d2);
    WalkLowerFloor(expr, ')', d2, floor + 2, floor);
    WalkCompose(WRAP_HEAD, expr, ')', d, floor);
    var v := WRAP_HEAD + expr;
    AddMark(v, ')', ',', d, floor, e.(paren := e.paren + 2));
    AddInsertion(v + ")", ')', d, floor, e.(paren := e.paren + 1));
    AddMark(v + ")" + "," + " " + OBJECT, ')', h, d, floor, e.(paren := e.paren + 1));
  }

  // ---- Trimming ----

  lemma TrimParts(t: string) returns (a: string, z: string)
    ensures Blank(a) && Blank(z) && t == a + TrimSpace(t) + z
  {
    if TrimSpace(t) == "" {
      a, z := t, "";
      forall i | 0 <= i < |t| ensures IsGoSpace(t[i]) {
        assert i < GoSpaceLen(t) ==> t[..GoSpaceLen(t)][i] == t[i];
        assert i >= GoTrimmedLen(t) ==> t[GoTrimmedLen(t)..][i - GoTrimmedLen(t)] == t[i];
      }
    } else {
      a, z := t[..GoSpaceLen(t)], t[GoTrimmedLen(t)..];
    }
  }

  /** Trimming an expression changes no depth, unless it ends in a line comment; y is more
      white space after it. */
  lemma TrimWalk(core: string, y: string, h: char, d: Depth, floor: nat)
    requires Walk(core + y, h, d, floor).Reach? && Blank(y) && Harmless(h)
    requires !EndsInLineComment(TrimSpace(core))
    ensures Walk(TrimSpace(core), ')', d, floor) == Walk(core + y, h, d, floor)
  {
    var a, z := TrimParts(core);
    Assoc(a + TrimSpace(core), z, y);
    Assoc(a, TrimSpace(core), z + y);
    BlankPrefix(a, TrimSpace(core) + (z + y), h, d, floor);
    DropTail(TrimSpace(core), z + y, h, ')', d, floor);
  }

  lemma BlankPrefix(a: string, w: string, h: char, d: Depth, floor: nat)
    requires Blank(a)
    ensures Walk(a + w, h, d, floor) == Walk(w, h, d, floor)
  {
    PlainWalk(a, (w + [h])[0], d, floor);
    WalkCompose(a, w, h, d, floor);
  }

  // ---- The options argument ----

  /** The rewritten options argument takes the scanner where the original one did. */
  lemma OptionsWalk(arg: string, h: char, d: Depth, floor: nat)
    requires floor >= 1 && d.paren >= floor && Walk(arg, h, d, floor).Reach? && Harmless(h)
    requires Wrappable(arg)
    ensures Walk(RewriteOptions(arg), h, d, floor) == Walk(arg, h, d, floor)
  {
    hide Tok, SpaceLen, TrimmedLen;
    if Core(arg) == "" {
      EmptyOptions(arg);
      PlainWalk(arg, h, d, floor);
      PlainWalk(arg, '{', d, floor);
      AddObject(arg, h, d, floor, d);
    } else if !HasStall(TrimSpace(Core(arg))) {
      CoreParts(arg);
      WrappedWalk(arg[..SpaceLen(arg)], Core(arg), arg[TrimmedLen(arg)..], h, d, floor);
    }
  }

  lemma CoreParts(arg: string)
    requires Core(arg) != ""
    ensures arg == arg[..SpaceLen(arg)] + (Core(arg) + arg[TrimmedLen(arg)..])
    ensures !HasStall(TrimSpace(Core(arg))) ==>
              RewriteOptions(arg) == arg[..SpaceLen(arg)] + (Wrap(TrimSpace(Core(arg))) + arg[TrimmedLen(arg)..])
  {
    Assoc(arg[..SpaceLen(arg)], Wrap(TrimSpace(Core(arg))), arg[TrimmedLen(arg)..]);
    Rejoin(arg, SpaceLen(arg), TrimmedLen(arg));
  }

  lemma Rejoin(t: string, i: nat, j: nat)
    requires i < j <= |t|
    ensures t == t[..i] + (t[i..j] + t[j..])
  {
  }

  lemma EmptyOptions(arg: string)
    requires Core(arg) == ""
    ensures Blank(arg) && (forall i :: 0 <= i < |arg| ==> IsSpace(arg[i]))
    ensures RewriteOptions(arg) == arg + OBJECT
  {
    assert arg[..SpaceLen(arg)] == arg ==> arg[SpaceLen(arg)..] == "";
  }

  lemma WrappedWalk(a: string, core: string, z: string, h: char, d: Depth, floor: nat)
    requires floor >= 1 && d.paren >= floor && Harmless(h)
    requires Walk(a + (core + z), h, d, floor).Reach? && !EndsInLineComment(TrimSpace(core))
    requires forall i :: 0 <= i < |a| ==> IsSpace(a[i])
    requires forall i :: 0 <= i < |z| ==> IsSpace(z[i])
    ensures Walk(a + (Wrap(TrimSpace(core)) + z), h, d, floor) == Walk(a + (core + z), h, d, floor)
  {
    hide Walk, TrimSpace, EndsInLineComment;
    var expr := TrimSpace(core);
    var g := (z + [h])[0];
    BlankPrefix(a, core + z, h, d, floor);
    TrimWalk(core, z, h, d, floor);
    WrapWalk(expr, g, d, floor);
    PlainWalk(z, h, Walk(expr, ')', d, floor).depth, floor);
    WalkCompose(Wrap(expr), z, h, d, floor);
    BlankPrefix(a, Wrap(expr) + z, h, d, floor);
  }

  // ---- Rewriting options twice ----

  lemma {:induction false} CompactAppend(a: string, b: string)
    ensures Compact(a + b) == Compact(a) + Compact(b)
  {
    if a == [] {
      assert a + b == b;
    } else {
      assert (a + b)[1..] == a[1..] + b;
      assert (a + b)[..1] == a[..1];
      CompactAppend(a[1..], b);
      Assoc(if IsSpace(a[0]) then "" else a[..1], Compact(a[1..]), Compact(b));
    }
  }

  lemma {:induction false} SpaceLenOf(a: string, b: string)
    requires forall i :: 0 <= i < |a| ==> IsSpace(a[i])
    requires b != [] ==> !IsSpace(b[0])
    ensures SpaceLen(a + b) == |a|
  {
    if a == [] {
      assert a + b == b;
    } else {
      assert (a + b)[1..] == a[1..] + b;
      SpaceLenOf(a[1..], b);
    }
  }

  lemma {:induction false} TrimmedLenOf(a: string, z: string)
    requires forall i :: 0 <= i < |z| ==> IsSpace(z[i])
    requires a != [] ==> !IsSpace(a[|a| - 1])
    ensures TrimmedLen(a + z) == |a|
  {
    if z == [] {
      assert a + z == a;
    } else {
      assert (a + z)[..|a + z| - 1] == a + z[..|z| - 1];
      TrimmedLenOf(a, z[..|z| - 1]);
    }
  }

  predicate Solid(v: string) {
    forall i :: 0 <= i < |v| ==> !IsSpace(v[i])
  }

  lemma {:induction false} CompactSolid(v: string, w: string)
    requires Solid(w)
    ensures Compact(v + w) == Compact(v) + w
    decreases |w|
  {
    if w == [] {
      assert v + w == v;
    } else {
      CompactAppend(v, w);
      CompactSolid("", w[1..]);
      assert "" + w[1..] == w[1..];
      assert w == w[..1] + w[1..];
    }
  }

  lemma CompactSpace(v: string)
    ensures Compact(v + " ") == Compact(v)
  {
    CompactAppend(v, " ");
    assert Compact(" ") == "";
  }

  lemma CompactSpread(v: string, open: string, name: string, limit: string, close: string)
    requires Solid(open) && Solid(name) && Solid(limit) && Solid(close)
    ensures Compact(v + open + " " + name + " " + limit + " " + close)
            == Compact(v) + open + name + limit + close
  {
    CompactSolid(v, open);
    CompactSpace(v + open);
    CompactSolid(v + open + " ", name);
    CompactSpace(v + open + " " + name);
    CompactSolid(v + open + " " + name + " ", limit);
    CompactSpace(v + open + " " + name + " " + limit);
    CompactSolid(v + open + " " + name + " " + limit + " ", close);
  }

  lemma StallFound(v: string, open: string, name: string, limit: string, close: string, w: string)
    requires Solid(open) && Solid(name) && Solid(limit) && Solid(close)
    ensures Contains(Compact(v + (open + " " + name + " " + limit + " " + close) + w), name + limit)
  {
    CompactSpread(v, open, name, limit, close);
    Spread(v, open, name, limit, close);
    CompactAppend(v + (open + " " + name + " " + limit + " " + close), w);
    NeedleInside(Compact(v) + open, name, limit, close + Compact(w));
    Assoc(Compact(v) + open + name + limit, close, Compact(w));
  }

  lemma Spread(v: string, open: string, name: string, limit: string, close: string)
    ensures v + open + " " + name + " " + limit + " " + close
            == v + (open + " " + name + " " + limit + " " + close)
  {
    Assoc(v, open, " ");
    Assoc(v, open + " ", name);
    Assoc(v, open + " " + name, " ");
    Assoc(v, open + " " + name + " ", limit);
    Assoc(v, open + " " + name + " " + limit, " ");
    Assoc(v, open + " " + name + " " + limit + " ", close);
  }

  lemma NeedleInside(v: string, name: string, limit: string, w: string)
    ensures Contains(v + name + limit + w, name + limit)
  {
    assert (v + name + limit + w)[|v|..] == name + limit + w;
  }

  lemma ObjectHasStall(v: string, w: string)
    ensures HasStall(v + OBJECT + w)
  {
    StallFound(v, "{", NAME, LIMIT, "}", w);
  }

  /** The rewriter finds nothing left to do in options it has rewritten. */
  lemma OptionsSettled(arg: string)
    ensures RewriteOptions(RewriteOptions(arg)) == RewriteOptions(arg)
  {
    hide Compact, Contains;
    var lead, end := SpaceLen(arg), TrimmedLen(arg);
    if Core(arg) == "" {
      EmptyOptions(arg);
      ObjectHasStall("", "");
      assert "" + OBJECT + "" == OBJECT;
      SettledOptions(arg, OBJECT, "");
      assert arg + OBJECT == arg + OBJECT + "";
    } else if !HasStall(TrimSpace(arg[lead..end])) {
      var expr := TrimSpace(arg[lead..end]);
      ObjectHasStall(WRAP_HEAD + expr + ")" + "," + " ", ")");
      assert Wrap(expr)[0] == 'O';
      SettledOptions(arg[..lead], Wrap(expr), arg[end..]);
    }
  }

  lemma SettledOptions(a: string, w: string, z: string)
    requires forall i :: 0 <= i < |a| ==> IsSpace(a[i])
    requires forall i :: 0 <= i < |z| ==> IsSpace(z[i])
    requires w != [] && !IsGoSpace(w[0]) && !IsGoSpace(w[|w| - 1]) && HasStall(w)
    ensures RewriteOptions(a + w + z) == a + w + z
  {
    var arg := a + w + z;
    assert arg == a + (w + z);
    SpaceLenOf(a, w + z);
    TrimmedLenOf(a + w, z);
    assert arg[|a|..|a + w|] == w;
    assert TrimSpace(w) == w;
  }

}
