/** What the rewriter takes for names, strings, comments and delimiters, told on the text it reads. */
module WorkflowTokens {
  import opened Text
  import opened WorkflowLexer
  import opened WorkflowRewrite
  import opened WorkflowTwice
  import opened WorkflowIdempotent

  // Names.

  predicate NameChar(c: char) {
    'a' <= c <= 'z' || 'A' <= c <= 'Z' || '0' <= c <= '9' || c in {'_', '$'}
  }

  /** A name other than agent stays, even if agent is a part of it. */
  lemma NameKept(prev: char, name: string, r: string)
    requires name != "" && name != "agent" && !('0' <= name[0] <= '9') && forall i :: 0 <= i < |name| ==> NameChar(name[i])
    requires r == "" || !NameChar(r[0])
    ensures Rewrite(prev, name + r) == name + Rewrite(name[|name| - 1], r)
  {
    var t := name + r;
    assert t[1..] == name[1..] + r;
    IdentLocal(name[1..], r);
    assert t[..|name|] == name && t[|name|..] == r;
    assert NextPiece(prev, t) == Piece.Text(|name|);
    assert TrimmedLen(name) == |name|;
  }

  // Strings and comments.

  /** Text between quotes: a quote or a backslash only behind a backslash. */
  predicate Inside(body: string, quote: char) {
    body == "" ||
    if body[0] == '\\' then |body| >= 2 && Inside(body[2..], quote) else body[0] != quote && Inside(body[1..], quote)
  }

  lemma {:induction false} StringLength(body: string, quote: char, r: string)
    requires quote in {'\'', '"', '`'} && Inside(body, quote)
    ensures StringEnd(body + ([quote] + r), quote) == |body| + 1
  {
    var t := body + ([quote] + r);
    if body == "" {
      assert t == [quote] + r;
    } else if body[0] == '\\' {
      assert t[2..] == body[2..] + ([quote] + r);
      StringLength(body[2..], quote, r);
    } else {
      assert t[1..] == body[1..] + ([quote] + r);
      StringLength(body[1..], quote, r);
    }
  }

  lemma {:induction false} LineLength(x: string, r: string)
    requires '\n' !in x
    ensures LineEnd(x + ("\n" + r)) == |x| + 1
  {
    var t := x + ("\n" + r);
    if x == "" {
      assert t == "\n" + r;
    } else {
      assert t[1..] == x[1..] + ("\n" + r);
      LineLength(x[1..], r);
    }
  }

  predicate NoBlockEnd(x: string) {
    forall i :: 0 <= i < |x| - 1 ==> !(x[i] == '*' && x[i + 1] == '/')
  }

  lemma {:induction false} BlockLength(x: string, r: string)
    requires NoBlockEnd(x)
    ensures BlockEnd(x + ("*/" + r)) == |x| + 2
  {
    var t := x + ("*/" + r);
    if x == "" {
      assert t == "*/" + r;
    } else {
      assert t[1..] == x[1..] + ("*/" + r);
      assert t[0] == x[0] && t[1] == if |x| > 1 then x[1] else '*';
      assert forall i :: 0 <= i < |x[1..]| ==> x[1..][i] == x[i + 1];
      BlockLength(x[1..], r);
    }
  }

  /** A string, a template, or a comment with its end. */
  ghost predicate IsToken(t: string) {
    || (exists q, body :: q in {'\'', '"', '`'} && Inside(body, q) && t == [q] + body + [q])
    || (exists x :: '\n' !in x && t == "//" + x + "\n")
    || (exists x :: NoBlockEnd(x) && t == "/*" + x + "*/")
  }

  lemma TokenLength(t: string, r: string)
    requires IsToken(t)
    ensures Tok(t + r) == |t| > 1 && !IsIdentStart((t + r)[0])
  {
    hide StringEnd, LineEnd, BlockEnd, Inside;
    var u := t + r;
    if q, body :| q in {'\'', '"', '`'} && Inside(body, q) && t == [q] + body + [q] {
      StringLength(body, q, r);
      assert u[0] == q && u[1..] == body + ([q] + r);
    } else if x :| '\n' !in x && t == "//" + x + "\n" {
      LineLength(x, r);
      assert u[0] == '/' && u[1] == '/' && u[2..] == x + ("\n" + r);
    } else {
      var x :| NoBlockEnd(x) && t == "/*" + x + "*/";
      BlockLength(x, r);
      assert u[0] == '/' && u[1] == '*' && u[2..] == x + ("*/" + r);
    }
  }

  /** Strings, templates and comments stay as they are, whatever they hold, and hold no delimiter of a call. */
  lemma TokenKept(prev: char, t: string, r: string, d: Depth)
    requires IsToken(t)
    ensures Rewrite(prev, t + r) == t + Rewrite(LastNonSpace(prev, t), r)
    ensures Scan(t + r, d) == Prepend(t, Scan(r, d))
  {
    hide Tok, IsToken;
    TokenLength(t, r);
    var u := t + r;
    assert u[..|t|] == t && u[|t|..] == r;
  }

  // Delimiters.

  /** A comma divides arguments. */
  lemma CommaDivides(a: string, b: string, r: string)
    requires Plain(a) && Plain(b)
    ensures Scan(a + "," + (b + ")" + r), TOP) == Closed([a, b], 0, 0, r)
  {
    PlainWalk(a, ',', TOP, 1);
    PlainWalk(b, ')', TOP, 1);
    CloseArg(b, r, TOP, 0, 0);
    CommaArg(a, b + ")" + r, TOP);
    assert [a] + [b] == [a, b];
  }

  /** One between parentheses, braces or brackets does not, and neither does a parenthesis closed inside end
      the call. */
  lemma CommaInside(open: char, close: char, a: string, b: string, r: string)
    requires Plain(a) && Plain(b) && (open, close) in {('(', ')'), ('{', '}'), ('[', ']')}
    ensures Scan([open] + a + "," + b + [close] + ")" + r, TOP) == Closed([[open] + a + "," + b + [close]], 0, 0, r)
  {
    hide Walk, Scan;
    var d := Move(open, TOP);
    var v := [open] + a;
    var h := (a + ",")[0];
    MarkWalk(open, h, TOP, 1);
    assert (a + [','])[0] == h;
    WalkCompose([open], a, ',', TOP, 1);
    PlainWalk(a, ',', d, 1);
    AddMark(v, ',', (b + [close])[0], TOP, 1, d);
    WalkCompose(v + ",", b, close, TOP, 1);
    PlainWalk(b, close, d, 1);
    AddMark(v + "," + b, close, ')', TOP, 1, d);
    CloseArg(v + "," + b + [close], r, TOP, 0, 0);
  }
}
