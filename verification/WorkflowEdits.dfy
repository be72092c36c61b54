/** The skipping loops, the call scanner and the right-to-left application of edits in
    clientkit/workflow.go, each proved against its function. */
module WorkflowEdits {
  import opened Text
  import opened WorkflowLexer
  import opened WorkflowRewrite

  datatype Edit = Edit(start: nat, end: nat, text: string)

  // ---- Lexing by index ----

  /** skipJSQuoted; skipJSTemplate is the same loop for a backtick. */
  method SkipJSQuoted(s: string, i: nat, quote: char) returns (j: nat)
    requires i < |s|
    ensures j == i + 1 + StringEnd(s[i + 1..], quote)
  {
    j := i + 1;
    while j < |s|
      invariant i + 1 <= j <= |s| + 1
      invariant i + 1 + StringEnd(s[i + 1..], quote)
             == if j <= |s| then j + StringEnd(s[j..], quote) else |s|
    {
      if s[j] == '\\' {
        assert j + 1 < |s| ==> s[j..][2..] == s[j + 2..];
        j := j + 2;
      } else if s[j] == quote {
        return j + 1;
      } else {
        assert s[j..][1..] == s[j + 1..];
        j := j + 1;
      }
    }
    j := |s|;
  }

  method SkipJSSpace(s: string, i: nat) returns (j: nat)
    requires i <= |s|
    ensures j == i + SpaceLen(s[i..])
  {
    j := i;
    while j < |s| && IsSpace(s[j])
      invariant i <= j <= |s|
      invariant i + SpaceLen(s[i..]) == j + SpaceLen(s[j..])
    {
      assert s[j..][1..] == s[j + 1..];
      j := j + 1;
    }
  }

  method TrimJSSpaceBack(s: string, i: nat) returns (j: nat)
    requires i <= |s|
    ensures j == TrimmedLen(s[..i])
  {
    j := i;
    while j > 0 && IsSpace(s[j - 1])
      invariant 0 <= j <= i
      invariant TrimmedLen(s[..i]) == TrimmedLen(s[..j])
    {
      assert s[..j][..j - 1] == s[..j - 1];
      j := j - 1;
    }
  }

  /** The byte before i that is not white space, NUL when there is none. */
  method PreviousNonSpace(s: string, i: nat) returns (c: char)
    requires i <= |s|
    ensures c == LastNonSpace('\0', s[..i])
  {
    var j := i;
    while j > 0
      invariant 0 <= j <= i
      invariant TrimmedLen(s[..i]) == TrimmedLen(s[..j])
    {
      if !IsSpace(s[j - 1]) {
        return s[j - 1];
      }
      assert s[..j][..j - 1] == s[..j - 1];
      j := j - 1;
    }
    c := '\0';
  }

  /** The end of the token at i that is neither an identifier nor a single byte's worth. */
  method SkipToken(s: string, i: nat) returns (j: nat)
    requires i < |s|
    ensures j == i + Tok(s[i..])
  {
    assert s[i..][1..] == s[i + 1..];
    if s[i] == '\'' || s[i] == '"' || s[i] == '`' {
      j := SkipJSQuoted(s, i, s[i]);
    } else if i + 1 < |s| && s[i..i + 2] == "//" {
      assert s[i..][2..] == s[i + 2..];
      j := i + 2 + LineEnd(s[i + 2..]);
    } else if i + 1 < |s| && s[i..i + 2] == "/*" {
      assert s[i..][2..] == s[i + 2..];
      j := i + 2 + BlockEnd(s[i + 2..]);
    } else {
      j := i + 1;
    }
  }

  /** Where the call's own commas stand when its arguments begin at base. */
  function CommasAt(args: seq<string>, base: nat): seq<nat> {
    if |args| <= 1 then [] else [base + |args[0]|] + CommasAt(args[1..], base + |args[0]| + 1)
  }

  lemma PrependCommas(w: string, u: Scanned, base: nat)
    requires u.Closed? && u.args != []
    ensures CommasAt(Prepend(w, u).args, base) == CommasAt(u.args, base + |w|)
  {
    assert Prepend(w, u).args[1..] == u.args[1..];
  }

  /** v, scanned from further on, finds what u finds once `commas` are put in front. */
  predicate Agree(u: Scanned, base: nat, commas: seq<nat>, v: Scanned, further: nat) {
    && (u.Closed? <==> v.Closed?)
    && (u.Closed? ==> u.rest == v.rest && CommasAt(u.args, base) == commas + CommasAt(v.args, further))
  }

  lemma AgreeOn(u: Scanned, base: nat, commas: seq<nat>, v: Scanned, i: nat, found: seq<nat>, w: Scanned, j: nat)
    requires Agree(u, base, commas, v, i) && Agree(v, i, found, w, j)
    ensures Agree(u, base, commas + found, w, j)
  {
  }

  lemma ScanOpens(t: string, d: Depth, n: nat, d': Depth)
    requires t != [] && n == Tok(t) && d' == if n == 1 then Move(t[0], d) else d
    requires d.paren >= 1 && d'.paren >= 1
    ensures var v := Scan(t[n..], d');
      Scan(t, d) == if n == 1 && t[0] == ',' && d == TOP
                    then (if v.Closed? then v.(args := [""] + v.args) else v)
                    else Prepend(t[..n], v)
  {
    hide Tok, Prepend;
  }

  /** One turn of the scanner's loop that does not end the call. */
  lemma ScanTurn(t: string, d: Depth, n: nat, d': Depth, base: nat)
    requires t != [] && n == Tok(t) && d' == if n == 1 then Move(t[0], d) else d
    requires d.paren >= 1 && d'.paren >= 1
    ensures Agree(Scan(t, d), base, if n == 1 && t[0] == ',' && d == TOP then [base] else [],
                  Scan(t[n..], d'), base + n)
  {
    hide Tok, Scan, Move;
    ScanOpens(t, d, n, d');
    var v := Scan(t[n..], d');
    if v.Closed? {
      if n == 1 && t[0] == ',' && d == TOP {
        assert ([""] + v.args)[1..] == v.args;
      } else {
        PrependCommas(t[..n], v, base);
      }
    }
  }

  /** The counters after one byte (the inner switch of the loop). */
  method Count(c: char, paren: nat, brace: nat, bracket: nat) returns (p: nat, b: nat, k: nat)
    requires paren >= 1
    ensures Depth(p, b, k) == Move(c, Depth(paren, brace, bracket))
  {
    p, b, k := paren, brace, bracket;
    match c {
      case '(' => p := p + 1;
      case ')' => p := p - 1;
      case '{' => b := b + 1;
      case '}' => if b > 0 { b := b - 1; }
      case '[' => k := k + 1;
      case ']' => if k > 0 { k := k - 1; }
      case _ =>
    }
  }

  lemma Turn(s: string, i: nat, d: Depth, j: nat, d': Depth) returns (w: Scanned)
    requires i < |s| && j == i + Tok(s[i..]) && d' == if j == i + 1 then Move(s[i], d) else d
    requires d.paren >= 1 && d'.paren >= 1
    ensures w == Scan(s[j..], d')
    ensures Agree(Scan(s[i..], d), i, if j == i + 1 && s[i] == ',' && d == TOP then [i] else [], w, j)
  {
    hide Tok, Scan, Agree;
    w := Scan(s[j..], d');
    assert s[i..][j - i..] == s[j..];
    ScanTurn(s[i..], d, j - i, d', i);
  }

  lemma ClosesHere(s: string, i: nat, d: Depth)
    requires i < |s| && s[i] == ')' && d.paren == 1
    ensures Scan(s[i..], d) == Closed([""], d.brace, d.bracket, s[i + 1..])
  {
    assert s[i..][1..] == s[i + 1..];
  }

  method ScanJSCall(s: string, open: nat) returns (close: nat, commas: seq<nat>, ok: bool)
    requires open < |s|
    ensures var u := Scan(s[open + 1..], TOP);
      && (ok <==> u.Closed?)
      && (ok ==> commas == CommasAt(u.args, open + 1) && close == |s| - |u.rest| - 1)
  {
    hide Scan, Tok;
    ghost var u := Scan(s[open + 1..], TOP);
    var paren: nat, brace: nat, bracket: nat := 1, 0, 0;
    commas := [];
    var i := open + 1;
    ghost var v := u;
    while i < |s|
      invariant open + 1 <= i <= |s| && paren >= 1
      invariant v == Scan(s[i..], Depth(paren, brace, bracket))
      invariant Agree(u, open + 1, commas, v, i)
    {
      ghost var d := Depth(paren, brace, bracket);
      ghost var found, more := commas, [];
      var j := SkipToken(s, i);
      if j == i + 1 {
        if s[i] == ')' && paren == 1 {
          ClosesHere(s, i, d);
          return i, commas, true;
        }
        if s[i] == ',' && paren == 1 && brace == 0 && bracket == 0 {
          commas := commas + [i];
          more := [i];
        }
        paren, brace, bracket := Count(s[i], paren, brace, bracket);
      }
      ghost var w := Turn(s, i, d, j, Depth(paren, brace, bracket));
      assert more == if j == i + 1 && s[i] == ',' && d == TOP then [i] else [];
      AgreeOn(u, open + 1, found, v, i, more, w, j);
      assert commas == found + more;
      v := w;
      i := j;
    }
    close, commas, ok := 0, [], false;
  }

  // ---- Edits ----

  /** Edits of the text before `limit`, in order and apart from each other. */
  predicate InOrder(edits: seq<Edit>, limit: nat) {
    edits == [] ||
    var e := edits[|edits| - 1];
    e.start <= e.end < limit && InOrder(edits[..|edits| - 1], e.start)
  }

  /** s[..i] with every edit made at once: the text between the edits, in order, and the
      replacement texts in their places. */
  function Splice(s: string, edits: seq<Edit>, i: nat): string
    requires i <= |s| && InOrder(edits, i + 1)
  {
    if edits == [] then s[..i]
    else
      var e := edits[|edits| - 1];
      InOrderMore(edits[..|edits| - 1], e.start, e.start + 1);
      Splice(s, edits[..|edits| - 1], e.start) + e.text + s[e.end..i]
  }

  lemma InOrderMore(edits: seq<Edit>, limit: nat, more: nat)
    requires InOrder(edits, limit) && limit <= more
    ensures InOrder(edits, more)
  {
  }

  /** Edits before i do not touch the text after it. */
  lemma SpliceFurther(s: string, edits: seq<Edit>, i: nat, j: nat)
    requires i <= j <= |s| && InOrder(edits, i + 1)
    ensures InOrder(edits, j + 1)
    ensures Splice(s, edits, j) == Splice(s, edits, i) + s[i..j]
  {
    InOrderMore(edits, i + 1, j + 1);
    if edits == [] {
      assert s[..j] == s[..i] + s[i..j];
    } else {
      var e := edits[|edits| - 1];
      assert s[e.end..j] == s[e.end..i] + s[i..j];
      Assoc(Splice(s, edits[..|edits| - 1], e.start) + e.text, s[e.end..i], s[i..j]);
    }
  }

  function Reverse(edits: seq<Edit>): (r: seq<Edit>)
    ensures |r| == |edits| && forall k :: 0 <= k < |r| ==> r[k] == edits[|edits| - 1 - k]
  {
    if edits == [] then [] else [edits[|edits| - 1]] + Reverse(edits[..|edits| - 1])
  }

  /** The loop that applies the edits, the last one first. */
  method ApplyEdits(script: string, edits: seq<Edit>) returns (out: string)
    requires InOrder(edits, |script| + 1)
    ensures out == Splice(script, edits, |script|)
  {
    var sorted := Reverse(edits);
    out := script;
    ghost var left, from: nat, tail := edits, |script|, "";
    assert script[..|script|] == script;
    for k := 0 to |sorted|
      invariant left == edits[..|edits| - k] && from <= |script| && InOrder(left, from + 1)
      invariant out == script[..from] + tail
      invariant Splice(script, edits, |script|) == Splice(script, left, from) + tail
    {
      var e := sorted[k];
      assert e == left[|left| - 1];
      assert out[e.end..] == script[e.end..from] + tail;
      assert out[..e.start] == script[..e.start];
      out := out[..e.start] + e.text + out[e.end..];
      ghost var before := Splice(script, left[..|left| - 1], e.start);
      Assoc(before + e.text, script[e.end..from], tail);
      Assoc(before, e.text, script[e.end..from] + tail);
      Assoc(script[..e.start], e.text, script[e.end..from] + tail);
      tail := e.text + (script[e.end..from] + tail);
      InOrderMore(left[..|left| - 1], e.start, e.start + 1);
      left, from := left[..|left| - 1], e.start;
    }
  }

  /** sort.Slice by descending start can only have given this order: any arrangement of the
      edits in which later starts come first is the reversal. */
  lemma {:induction false} SortedIsReversed(edits: seq<Edit>, sorted: seq<Edit>, limit: nat)
    requires InOrder(edits, limit) && multiset(sorted) == multiset(edits)
    requires forall i, j :: 0 <= i < j < |sorted| ==> sorted[i].start >= sorted[j].start
    ensures sorted == Reverse(edits)
  {
    if edits == [] {
      assert |multiset(sorted)| == 0;
    } else {
      LastComesFirst(edits, sorted, limit);
      SortedIsReversed(edits[..|edits| - 1], sorted[1..], edits[|edits| - 1].start);
    }
  }

  lemma LastComesFirst(edits: seq<Edit>, sorted: seq<Edit>, limit: nat)
    requires edits != [] && InOrder(edits, limit) && multiset(sorted) == multiset(edits)
    requires forall i, j :: 0 <= i < j < |sorted| ==> sorted[i].start >= sorted[j].start
    ensures sorted != [] && sorted[0] == edits[|edits| - 1]
    ensures multiset(sorted[1..]) == multiset(edits[..|edits| - 1])
  {
    var e, before := edits[|edits| - 1], edits[..|edits| - 1];
    assert edits == before + [e];
    StartsBefore(before, e.start);
    var i := IndexIn(sorted, e);
    assert sorted[0] in edits by { assert sorted[0] in multiset(sorted); }
    DropOne(sorted, before);
  }

  lemma DropOne(sorted: seq<Edit>, before: seq<Edit>)
    requires sorted != [] && multiset(sorted) == multiset(before + [sorted[0]])
    ensures multiset(sorted[1..]) == multiset(before)
  {
    assert sorted == [sorted[0]] + sorted[1..];
    assert multiset(sorted[1..]) == multiset(sorted) - multiset{sorted[0]};
    assert multiset(before) == multiset(before + [sorted[0]]) - multiset{sorted[0]};
  }

  lemma IndexIn(s: seq<Edit>, e: Edit) returns (i: nat)
    requires e in multiset(s)
    ensures i < |s| && s[i] == e
  {
    i :| 0 <= i < |s| && s[i] == e;
  }

  lemma {:induction false} StartsBefore(edits: seq<Edit>, limit: nat)
    requires InOrder(edits, limit)
    ensures forall x <- edits :: x.start < limit
  {
    if edits != [] {
      StartsBefore(edits[..|edits| - 1], edits[|edits| - 1].start);
      assert edits == edits[..|edits| - 1] + [edits[|edits| - 1]];
    }
  }
}
