/** The lexical view that clientkit/workflow.go has of a script: strings, templates and
    comments are single tokens, every other byte is a token of its own.  Everything is
    defined on the text still to be read, so a token depends on nothing before it. */
module WorkflowLexer {
  import opened Text

  /** Nesting counters of scanJSCall. */
  datatype Depth = Depth(paren: nat, brace: nat, bracket: nat)

  /** What scanning a call finds: the argument texts between its own commas, the braces and
      brackets still open at its closing parenthesis, and the text after that parenthesis. */
  datatype Scanned =
    | Unclosed
    | Closed(args: seq<string>, brace: nat, bracket: nat, rest: string)

  datatype Walked = Fail | Reach(depth: Depth)

  const TOP := Depth(1, 0, 0)

  predicate IsQuote(c: char) {
    c == '\'' || c == '"' || c == '`'
  }

  /** Length consumed after an opening quote, closing quote included. */
  function StringEnd(t: string, quote: char): (n: nat)
    ensures n <= |t|
  {
    if t == [] then 0
    else if t[0] == '\\' then (if |t| == 1 then 1 else 2 + StringEnd(t[2..], quote))
    else if t[0] == quote then 1
    else 1 + StringEnd(t[1..], quote)
  }

  /** Length consumed after `//`, newline included. */
  function LineEnd(t: string): (n: nat)
    ensures n <= |t|
  {
    if t == [] then 0 else if t[0] == '\n' then 1 else 1 + LineEnd(t[1..])
  }

  predicate StartsBlockEnd(t: string) {
    |t| >= 2 && t[0] == '*' && t[1] == '/'
  }

  /** Length consumed after an opening block comment, its end included. */
  function BlockEnd(t: string): (n: nat)
    ensures n <= |t|
  {
    if t == [] then 0 else if StartsBlockEnd(t) then 2 else 1 + BlockEnd(t[1..])
  }

  predicate StartsLineComment(t: string) {
    |t| >= 2 && t[0] == '/' && t[1] == '/'
  }

  predicate StartsBlockComment(t: string) {
    |t| >= 2 && t[0] == '/' && t[1] == '*'
  }

  /** Length of the first token. */
  function Tok(t: string): (n: nat)
    requires t != []
    ensures 1 <= n <= |t|
  {
    if IsQuote(t[0]) then 1 + StringEnd(t[1..], t[0])
    else if StartsLineComment(t) then 2 + LineEnd(t[2..])
    else if StartsBlockComment(t) then 2 + BlockEnd(t[2..])
    else 1
  }

  /** The counters after one delimiter byte. */
  function Move(c: char, d: Depth): Depth {
    match c
    case '(' => d.(paren := d.paren + 1)
    case ')' => d.(paren := if d.paren > 0 then d.paren - 1 else 0)
    case '{' => d.(brace := d.brace + 1)
    case '}' => d.(brace := if d.brace > 0 then d.brace - 1 else 0)
    case '[' => d.(bracket := d.bracket + 1)
    case ']' => d.(bracket := if d.bracket > 0 then d.bracket - 1 else 0)
    case _ => d
  }

  function Prepend(w: string, s: Scanned): (r: Scanned)
  {
    match s
    case Unclosed => Unclosed
    case Closed(args, b, k, rest) =>
      if args == [] then Closed([w], b, k, rest) else Closed([w + args[0]] + args[1..], b, k, rest)
  }

  /** Scanning from inside a call at depth d. */
  function Scan(t: string, d: Depth): (r: Scanned)
    ensures r.Closed? ==> r.args != [] && |r.rest| < |t|
    decreases |t|
  {
    if t == [] then Unclosed
    else
      var n := Tok(t);
      if n > 1 then Prepend(t[..n], Scan(t[n..], d))
      else if t[0] == ')' && d.paren <= 1 then Closed([""], d.brace, d.bracket, t[1..])
      else if t[0] == ',' && d == TOP then
        match Scan(t[1..], d)
        case Unclosed => Unclosed
        case Closed(args, b, k, rest) => Closed([""] + args, b, k, rest)
      else Prepend(t[..1], Scan(t[1..], Move(t[0], d)))
  }

  /** The depth after w, when w consists of whole tokens (h is the byte after it), never
      closes below `floor` open parentheses and holds no comma of the call itself. */
  function Walk(w: string, h: char, d: Depth, floor: nat): (r: Walked)
    decreases |w|
  {
    if w == [] then Reach(d)
    else
      var n := Tok(w + [h]);
      if n > |w| then Fail
      else if n > 1 then Walk(w[n..], h, d, floor)
      else if w[0] == ')' && d.paren <= floor then Fail
      else if w[0] == ',' && d == TOP then Fail
      else Walk(w[1..], h, Move(w[0], d), floor)
  }

  function Join(args: seq<string>): string {
    if args == [] then "" else if |args| == 1 then args[0] else args[0] + "," + Join(args[1..])
  }

  /** The last token is a `//` comment whose newline is missing. */
  predicate EndsInLineComment(w: string)
    decreases |w|
  {
    w != [] &&
    var n := Tok(w);
    if n == |w| then StartsLineComment(w) && w[|w| - 1] != '\n' else EndsInLineComment(w[n..])
  }

  /** A byte that cannot turn a preceding slash into a comment. */
  predicate Harmless(c: char) {
    c != '/' && c != '*'
  }

  // ---- Tokens do not depend on what follows them ----

  lemma {:induction false} StringEndLocal(w: string, quote: char, r: string, r': string)
    requires r != [] && StringEnd(w + r, quote) <= |w|
    ensures StringEnd(w + r', quote) == StringEnd(w + r, quote)
    ensures w != [] && StringEnd(w + r, quote) >= 1 && w[StringEnd(w + r, quote) - 1] == quote
  {
    assert w == [] ==> w + r == r;
    if w == [] {
    } else if w[0] == '\\' {
      assert (w + r)[2..] == w[2..] + r;
      assert (w + r')[2..] == w[2..] + r';
      StringEndLocal(w[2..], quote, r, r');
    } else if w[0] != quote {
      assert (w + r)[1..] == w[1..] + r;
      assert (w + r')[1..] == w[1..] + r';
      StringEndLocal(w[1..], quote, r, r');
    }
  }

  lemma {:induction false} LineEndLocal(w: string, r: string, r': string)
    requires r != [] && LineEnd(w + r) <= |w|
    ensures LineEnd(w + r') == LineEnd(w + r)
  {
    assert w == [] ==> w + r == r;
    if w == [] {
    } else if w[0] != '\n' {
      assert (w + r)[1..] == w[1..] + r;
      assert (w + r')[1..] == w[1..] + r';
      LineEndLocal(w[1..], r, r');
    }
  }

  lemma {:induction false} BlockEndLocal(w: string, r: string, r': string)
    requires r != [] && BlockEnd(w + r) <= |w|
    ensures BlockEnd(w + r') == BlockEnd(w + r)
    ensures w != [] && BlockEnd(w + r) >= 1 && w[BlockEnd(w + r) - 1] == '/'
  {
    assert w == [] ==> w + r == r;
    if w == [] {
    } else if !StartsBlockEnd(w + r) {
      assert (w + r)[1..] == w[1..] + r;
      assert (w + r')[1..] == w[1..] + r';
      BlockEndLocal(w[1..], r, r');
      assert |w| >= 2;
      assert (w + r)[1] == w[1] == (w + r')[1];
    } else {
      assert |w| >= 2;
      assert (w + r)[1] == w[1] == (w + r')[1];
    }
  }

  lemma TokLocal(w: string, r: string, r': string)
    requires w != [] && r != [] && r' != [] && Tok(w + r) <= |w|
    requires Harmless(r'[0]) || r'[0] == r[0]
    ensures Tok(w + r') == Tok(w + r)
  {
    var t, t' := w + r, w + r';
    assert t[0] == w[0] == t'[0];
    if IsQuote(w[0]) {
      assert t[1..] == w[1..] + r && t'[1..] == w[1..] + r';
      StringEndLocal(w[1..], w[0], r, r');
    } else if |w| == 1 {
      assert t[1] == r[0] && t'[1] == r'[0];
    } else {
      assert t[1] == w[1] == t'[1];
      assert t[2..] == w[2..] + r && t'[2..] == w[2..] + r';
      if StartsLineComment(t) {
        LineEndLocal(w[2..], r, r');
      } else if StartsBlockComment(t) {
        BlockEndLocal(w[2..], r, r');
      }
    }
  }

  // ---- Composing and moving walks ----

  /** One token that neither ends the call nor separates its arguments. */
  lemma ScanStep(w: string, d: Depth, r: string, n: nat, d': Depth)
    requires w != [] && n == Tok(w + r) <= |w|
    requires n == 1 ==> !(w[0] == ')' && d.paren <= 1) && !(w[0] == ',' && d == TOP)
    requires d' == if n > 1 then d else Move(w[0], d)
    ensures Scan(w + r, d) == Prepend(w[..n], Scan(w[n..] + r, d'))
  {
    hide Tok, Prepend, Move;
    assert (w + r)[n..] == w[n..] + r;
    assert (w + r)[..n] == w[..n];
  }

  lemma PrependNothing(s: Scanned)
    requires s.Closed? ==> s.args != []
    ensures Prepend("", s) == s
  {
    if s.Closed? {
      assert "" + s.args[0] == s.args[0] && [s.args[0]] + s.args[1..] == s.args;
    }
  }

  lemma {:induction false} WalkThenScan(w: string, d: Depth, r: string)
    requires r != [] && Walk(w, r[0], d, 1).Reach?
    ensures Scan(w + r, d) == Prepend(w, Scan(r, Walk(w, r[0], d, 1).depth))
    decreases |w|
  {
    hide Tok, Scan, Prepend, Move;
    if w == [] {
      assert w + r == r;
      PrependNothing(Scan(r, d));
    } else {
      var n := Tok(w + [r[0]]);
      TokLocal(w, [r[0]], r);
      var d' := if n > 1 then d else Move(w[0], d);
      ScanStep(w, d, r, n, d');
      WalkThenScan(w[n..], d', r);
      assert w == w[..n] + w[n..];
      PrependTwice(w[..n], w[n..], Scan(r, Walk(w, r[0], d, 1).depth));
    }
  }

  lemma PrependTwice(v: string, w: string, s: Scanned)
    ensures Prepend(v, Prepend(w, s)) == Prepend(v + w, s)
  {
    if s.Closed? && s.args != [] {
      assert v + (w + s.args[0]) == v + w + s.args[0];
    }
  }

  lemma {:induction false} WalkCompose(v: string, w: string, h: char, d: Depth, floor: nat)
    requires Walk(v, (w + [h])[0], d, floor).Reach?
    ensures Walk(v + w, h, d, floor) == Walk(w, h, Walk(v, (w + [h])[0], d, floor).depth, floor)
    decreases |v|
  {
    if v == [] {
      assert v + w == w;
    } else {
      var g := (w + [h])[0];
      var n := Tok(v + [g]);
      TokLocal(v, [g], w + [h]);
      assert (v + w) + [h] == v + (w + [h]);
      assert (v + w)[n..] == v[n..] + w;
      WalkCompose(v[n..], w, h, if n > 1 then d else Move(v[0], d), floor);
    }
  }

  /** The byte after a walk matters only if it can extend a slash. */
  lemma {:induction false} WalkFollower(w: string, h: char, h': char, d: Depth, floor: nat)
    requires Walk(w, h, d, floor).Reach? && (Harmless(h') || h == h')
    ensures Walk(w, h', d, floor) == Walk(w, h, d, floor)
    decreases |w|
  {
    if w != [] {
      var n := Tok(w + [h]);
      TokLocal(w, [h], [h']);
      WalkFollower(w[n..], h, h', if n > 1 then d else Move(w[0], d), floor);
    }
  }

  /** A walk can be repeated under more open parentheses, where no comma belongs to the call;
      with the same braces and brackets it has the same effect on them. */
  lemma {:induction false} WalkDeeper(w: string, h: char, d: Depth, floor: nat, more: nat, e: Depth)
    requires more >= 1 && floor >= 1 && d.paren >= floor && e.paren == d.paren + more
    requires Walk(w, h, d, floor).Reach?
    ensures Walk(w, h, e, floor + more).Reach?
    ensures Walk(w, h, e, floor + more).depth.paren == Walk(w, h, d, floor).depth.paren + more
    ensures Walk(w, h, d, floor).depth.paren >= floor
    ensures e.brace == d.brace && e.bracket == d.bracket ==>
              Walk(w, h, e, floor + more).depth.brace == Walk(w, h, d, floor).depth.brace &&
              Walk(w, h, e, floor + more).depth.bracket == Walk(w, h, d, floor).depth.bracket
    decreases |w|
  {
    if w != [] {
      var n := Tok(w + [h]);
      if n > 1 {
        WalkDeeper(w[n..], h, d, floor, more, e);
      } else {
        WalkDeeper(w[1..], h, Move(w[0], d), floor, more, Move(w[0], e));
      }
    }
  }

  /** A lower floor allows no less. */
  lemma {:induction false} WalkLowerFloor(w: string, h: char, d: Depth, floor: nat, low: nat)
    requires low <= floor && Walk(w, h, d, floor).Reach?
    ensures Walk(w, h, d, low) == Walk(w, h, d, floor)
    decreases |w|
  {
    if w != [] {
      var n := Tok(w + [h]);
      WalkLowerFloor(w[n..], h, if n > 1 then d else Move(w[0], d), floor, low);
    }
  }

  /** Bytes that are tokens of their own and leave the counters alone. */
  predicate Plain(w: string) {
    forall i :: 0 <= i < |w| ==> w[i] !in "'\"`/(){}[],"
  }

  lemma {:induction false} PlainWalk(w: string, h: char, d: Depth, floor: nat)
    requires Plain(w)
    ensures Walk(w, h, d, floor) == Reach(d)
    decreases |w|
  {
    if w != [] {
      assert w[0] !in "'\"`/(){}[],";
      assert Tok(w + [h]) == 1;
      PlainWalk(w[1..], h, d, floor);
    }
  }

  /** One delimiter byte. */
  lemma MarkWalk(c: char, h: char, d: Depth, floor: nat)
    requires c in "(){}[]," && !(c == ')' && d.paren <= floor) && !(c == ',' && d == TOP)
    ensures Walk([c], h, d, floor) == Reach(Move(c, d))
  {
    assert ([c] + [h])[0] == c;
    assert Tok([c] + [h]) == 1;
    assert [c][1..] == [];
  }

  /** White space at the end of a walk can be dropped unless a line comment runs into it. */
  lemma {:induction false} DropTail(w: string, z: string, h: char, h': char, d: Depth, floor: nat)
    requires Blank(z) && Harmless(h') && !EndsInLineComment(w)
    requires Walk(w + z, h, d, floor).Reach?
    ensures Walk(w, h', d, floor) == Walk(w + z, h, d, floor)
    decreases |w|
  {
    hide EndsInLineComment, StringEnd;
    if w == [] {
      assert w + z == z;
      PlainWalk(z, h, d, floor);
    } else {
      var n := Tok((w + z) + [h]);
      DropTailToken(w, z, h, h');
      DropTail(w[n..], z, h, h', if n > 1 then d else Move(w[0], d), floor);
    }
  }

  lemma DropTailToken(w: string, z: string, h: char, h': char)
    requires w != [] && Blank(z) && Harmless(h') && !EndsInLineComment(w)
    requires Tok((w + z) + [h]) <= |w + z|
    ensures Tok((w + z) + [h]) <= |w| && Tok(w + [h']) == Tok((w + z) + [h])
    ensures var n := Tok((w + z) + [h]);
            (w + z)[n..] == w[n..] + z && !EndsInLineComment(w[n..])
  {
    var rest := z + [h];
    Assoc(w, z, [h]);
    TokenEndsBeforeBlank(w, z, h);
    TokLocal(w, rest, [h']);
    TailKeepsToken(w, rest);
    DropFront(w, z, Tok((w + z) + [h]));
  }

  lemma Assoc(a: string, b: string, c: string)
    ensures (a + b) + c == a + (b + c)
  {
  }

  lemma DropFront(a: string, b: string, n: nat)
    requires n <= |a|
    ensures (a + b)[n..] == a[n..] + b
  {
  }

  lemma TailKeepsToken(w: string, rest: string)
    requires w != [] && rest != [] && Tok(w + rest) <= |w| && !EndsInLineComment(w)
    ensures !EndsInLineComment(w[Tok(w + rest)..])
  {
    hide LineEnd;
    var n := Tok(w + rest);
    if n < |w| {
      var v, u := w[..n], w[n..];
      assert w == v + u;
      Assoc(v, u, rest);
      TokLocal(v, u + rest, u);
      assert Tok(w) == n;
    }
  }

  lemma TokenEndsBeforeBlank(w: string, z: string, h: char)
    requires w != [] && Blank(z) && !EndsInLineComment(w)
    requires Tok(w + (z + [h])) <= |w + z|
    ensures Tok(w + (z + [h])) <= |w|
  {
    var t := w + (z + [h]);
    var n := Tok(t);
    assert t == (w + z) + [h];
    assert t[1..] == (w + z)[1..] + [h];
    assert forall k :: |w| <= k < |w + z| ==> IsGoSpace((w + z)[k]);
    assert |w| == 1 ==> t[1..] == z + [h];
    if IsQuote(t[0]) {
      StringEndLocal((w + z)[1..], t[0], [h], [h]);
      assert (w + z)[n - 1] == t[0];
    } else if n > 1 {
      LongToken(t);
      CommentEndsBeforeBlank(w, z, h);
    }
  }

  lemma LongToken(t: string)
    requires t != [] && !IsQuote(t[0]) && Tok(t) > 1
    ensures |t| >= 2 && (StartsLineComment(t) || StartsBlockComment(t)) && !IsGoSpace(t[1])
  {
  }

  lemma CommentEndsBeforeBlank(w: string, z: string, h: char)
    requires |w| >= 2 && Blank(z) && !EndsInLineComment(w) && !IsQuote(w[0])
    requires 1 < Tok(w + (z + [h])) <= |w + z|
    ensures Tok(w + (z + [h])) <= |w|
  {
    hide LineEnd, BlockEnd;
    var t := w + (z + [h]);
    var n := Tok(t);
    assert t == (w + z) + [h];
    assert forall k :: |w| <= k < |w + z| ==> IsGoSpace((w + z)[k]);
    assert t[1] == w[1] && t[2..] == (w + z)[2..] + [h];
    if StartsBlockComment(t) {
      BlockEndLocal((w + z)[2..], [h], [h]);
      assert (w + z)[n - 1] == '/';
    } else {
      assert t[2..] == w[2..] + (z + [h]);
      if LineEnd(t[2..]) > |w[2..]| {
        NoNewline(w[2..], z + [h]);
      }
    }
  }

  lemma {:induction false} NoNewline(w: string, r: string)
    requires LineEnd(w + r) > |w|
    ensures LineEnd(w) == |w| && (w != [] ==> w[|w| - 1] != '\n')
  {
    if w != [] {
      assert (w + r)[1..] == w[1..] + r;
      NoNewline(w[1..], r);
    }
  }
}
