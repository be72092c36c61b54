/** How go/cmd/ggrun/main.go renders an argument vector for POSIX shells, the form used wherever two
    configurations are compared, and a reader for it. */
module CommandText {
  import opened Options

  type Argv = seq<string>

  /** A character shellQuote leaves alone. Beyond ASCII, wide decides what counts as a letter or digit. */
  predicate Safe(wide: char -> bool, c: char) {
    'a' <= c <= 'z' || 'A' <= c <= 'Z' || '0' <= c <= '9' || c in "@%_+=:,./-" || (c as int >= 128 && wide(c))
  }

  /** strings.ReplaceAll(arg, "'", "'\\''"). */
  function Escape(arg: string): string {
    if arg == "" then "" else (if arg[0] == '\'' then "'\\''" else [arg[0]]) + Escape(arg[1..])
  }

  function ShellQuote(wide: char -> bool, arg: string): string {
    if arg == "" then "''"
    else if forall c :: c in arg ==> Safe(wide, c) then arg
    else "'" + Escape(arg) + "'"
  }

  /** formatCommand. */
  function Format(wide: char -> bool, args: Argv): string {
    if args == [] then ""
    else if |args| == 1 then ShellQuote(wide, args[0])
    else ShellQuote(wide, args[0]) + " " + Format(wide, args[1..])
  }

  // A reader for the text: word splitting and quote removal of the POSIX shell command language
  // (sections 2.2 and 2.6.7). Outside quotes it accepts safe characters only.

  /** The rest of the word at the start of s, and what follows it. */
  function Word(wide: char -> bool, s: string): (r: Option<(string, string)>)
    ensures r.Some? ==> |r.value.1| <= |s|
    decreases |s|
  {
    if s == "" || s[0] == ' ' then Some(("", s))
    else if s[0] == '\'' then Quoted(wide, s[1..])
    else if s[0] == '\\' then (if |s| < 2 then None else Before([s[1]], Word(wide, s[2..])))
    else if Safe(wide, s[0]) then Before([s[0]], Word(wide, s[1..]))
    else None
  }

  /** The same from inside single quotes. */
  function Quoted(wide: char -> bool, s: string): (r: Option<(string, string)>)
    ensures r.Some? ==> |r.value.1| <= |s|
    decreases |s|
  {
    if s == "" then None
    else if s[0] == '\'' then Word(wide, s[1..])
    else Before([s[0]], Quoted(wide, s[1..]))
  }

  function Before(head: string, r: Option<(string, string)>): Option<(string, string)> {
    if r.None? then None else Some((head + r.value.0, r.value.1))
  }

  function Words(wide: char -> bool, s: string): Option<Argv>
    decreases |s|
  {
    if s == "" then Some([])
    else if s[0] == ' ' then Words(wide, s[1..])
    else
      var w := Word(wide, s);
      if w.None? || |w.value.1| == |s| then None
      else
        var rest := Words(wide, w.value.1);
        if rest.None? then None else Some([w.value.0] + rest.value)
  }

  predicate Ends(rest: string) {
    rest == "" || rest[0] == ' '
  }

  lemma {:induction false} ReadSafe(wide: char -> bool, arg: string, rest: string)
    requires forall c :: c in arg ==> Safe(wide, c)
    requires Ends(rest)
    ensures Word(wide, arg + rest) == Some((arg, rest))
  {
    if arg == "" {
      assert arg + rest == rest;
    } else {
      assert (arg + rest)[1..] == arg[1..] + rest && (arg + rest)[0] == arg[0] && arg[0] in arg;
      ReadSafe(wide, arg[1..], rest);
      assert [arg[0]] + arg[1..] == arg;
    }
  }

  /** A quote inside quotes: close, an escaped quote, reopen. */
  lemma ReadBreak(wide: char -> bool, tail: string)
    ensures Quoted(wide, "'\\''" + tail) == Before("'", Quoted(wide, tail))
  {
    var s, t, u := "'\\''" + tail, "\\''" + tail, "'" + tail;
    assert s[1..] == t && t[2..] == u && u[1..] == tail;
    assert Quoted(wide, s) == Word(wide, t);
    assert Word(wide, t) == Before([t[1]], Word(wide, u));
    assert Word(wide, u) == Quoted(wide, tail);
  }

  lemma {:induction false} ReadEscaped(wide: char -> bool, arg: string, rest: string)
    requires Ends(rest)
    ensures Quoted(wide, Escape(arg) + "'" + rest) == Some((arg, rest))
  {
    if arg == "" {
      assert (Escape(arg) + "'" + rest)[1..] == rest;
    } else {
      ReadEscaped(wide, arg[1..], rest);
      var tail := Escape(arg[1..]) + "'" + rest;
      if arg[0] == '\'' {
        ReadBreak(wide, tail);
        assert Escape(arg) + "'" + rest == "'\\''" + tail;
      } else {
        var s := Escape(arg) + "'" + rest;
        assert s == [arg[0]] + tail;
        assert s[1..] == tail && s[0] == arg[0];
      }
      assert [arg[0]] + arg[1..] == arg;
    }
  }

  lemma ReadQuoted(wide: char -> bool, arg: string, rest: string)
    requires Ends(rest)
    ensures Word(wide, ShellQuote(wide, arg) + rest) == Some((arg, rest))
    ensures |ShellQuote(wide, arg)| > 0 && ShellQuote(wide, arg)[0] != ' '
  {
    hide Quoted;
    if arg != "" && forall c :: c in arg ==> Safe(wide, c) {
      ReadSafe(wide, arg, rest);
      assert arg[0] in arg;
    } else {
      ReadEscaped(wide, arg, rest);
      OpenQuote(wide, Escape(arg), rest);
    }
  }

  lemma OpenQuote(wide: char -> bool, inside: string, rest: string)
    ensures Word(wide, "'" + inside + "'" + rest) == Quoted(wide, inside + "'" + rest)
    ensures "'" + "" + "'" == "''"
  {
    hide Quoted;
    var s := "'" + inside + "'" + rest;
    assert s[0] == '\'' && s[1..] == inside + "'" + rest;
  }

  /** A rendered command reads back as the very arguments it was rendered from. */
  lemma {:induction false} FormatReadsBack(wide: char -> bool, args: Argv)
    ensures Words(wide, Format(wide, args)) == Some(args)
    decreases |args|
  {
    if |args| == 1 {
      ReadQuoted(wide, args[0], "");
      assert ShellQuote(wide, args[0]) + "" == ShellQuote(wide, args[0]);
      assert [args[0]] + [] == args;
    } else if |args| > 1 {
      var rest := " " + Format(wide, args[1..]);
      ReadQuoted(wide, args[0], rest);
      assert Format(wide, args) == ShellQuote(wide, args[0]) + rest;
      FormatReadsBack(wide, args[1..]);
      assert rest[1..] == Format(wide, args[1..]);
      assert [args[0]] + args[1..] == args;
    }
  }

  /** So configurations that render the same are the same. */
  lemma FormatInjective(wide: char -> bool, a: Argv, b: Argv)
    requires Format(wide, a) == Format(wide, b)
    ensures a == b
  {
    FormatReadsBack(wide, a);
    FormatReadsBack(wide, b);
  }

  // Text that is not quoted.

  lemma Shorter(head: char, r: Option<(string, string)>, w: string)
    requires w != ""
    ensures Before([head], r).Some? && Before([head], r).value.0 == w ==> head == w[0] && r.Some? && r.value.0 == w[1..]
  {
    if r.Some? {
      assert ([head] + r.value.0)[1..] == r.value.0;
    }
  }

  function From(kv: string, tail: string, j: nat): string
    requires j <= |kv|
  {
    (kv + (" " + tail))[j..]
  }

  lemma FromIs(kv: string, tail: string, j: nat)
    requires j <= |kv|
    ensures From(kv, tail, j) != "" && From(kv, tail, j)[0] == if j < |kv| then kv[j] else ' '
    ensures j < |kv| ==> From(kv, tail, j)[1..] == From(kv, tail, j + 1)
    ensures j + 1 < |kv| ==> From(kv, tail, j)[2..] == From(kv, tail, j + 2)
    ensures j < |kv| ==> |From(kv, tail, j)| >= 2 && From(kv, tail, j)[1] == if j + 1 < |kv| then kv[j + 1] else ' '
  {
  }

  /** A word that lost a quote or a backslash on its way never comes to the text it is read from. */
  lemma {:induction false} NeverWhole(wide: char -> bool, kv: string, tail: string, j: nat, o: nat, quoted: bool)
    requires o < j <= |kv| && ' ' !in kv[..j]
    ensures var r := if quoted then Quoted(wide, From(kv, tail, j)) else Word(wide, From(kv, tail, j));
            r.Some? ==> r.value.0 != kv[o..]
    decreases |kv| - j
  {
    hide From, Before;
    FromIs(kv, tail, j);
    assert kv[..j][o] == kv[o];
    var s := From(kv, tail, j);
    assert kv[o..][1..] == kv[o + 1..];
    if j < |kv| && kv[j] != ' ' {
      assert kv[..j + 1] == kv[..j] + [kv[j]];
      NeverWhole(wide, kv, tail, j + 1, o, !quoted);
      NeverWhole(wide, kv, tail, j + 1, o + 1, quoted);
      Shorter(s[0], if quoted then Quoted(wide, s[1..]) else Word(wide, s[1..]), kv[o..]);
      Shorter(s[1], Word(wide, s[2..]), kv[o..]);
      if j + 1 < |kv| && kv[j + 1] != ' ' {
        assert kv[..j + 2] == kv[..j + 1] + [kv[j + 1]];
        NeverWhole(wide, kv, tail, j + 2, o + 1, false);
      }
    } else if quoted {
      Shorter(s[0], Quoted(wide, s[1..]), kv[o..]);
    }
  }

  /** Text that reads as itself needs no quoting. */
  lemma {:induction false} ReadsWhole(wide: char -> bool, kv: string, tail: string, j: nat)
    requires j <= |kv| && ' ' !in kv[..j]
    requires var r := Word(wide, From(kv, tail, j)); r.Some? && r.value.0 == kv[j..]
    ensures forall i :: j <= i < |kv| ==> Safe(wide, kv[i])
    decreases |kv| - j
  {
    hide From, Before;
    FromIs(kv, tail, j);
    var s := From(kv, tail, j);
    if j < |kv| {
      assert kv[j..][1..] == kv[j + 1..];
      Shorter(s[0], Word(wide, s[1..]), kv[j..]);
      Shorter(s[1], Word(wide, s[2..]), kv[j..]);
      if kv[j] != ' ' {
        assert kv[..j + 1] == kv[..j] + [kv[j]];
        NeverWhole(wide, kv, tail, j + 1, j, true);
        if j + 1 < |kv| && kv[j + 1] != ' ' {
          assert kv[..j + 2] == kv[..j + 1] + [kv[j + 1]];
          NeverWhole(wide, kv, tail, j + 2, j + 1, false);
        }
        if s[0] != '\'' && s[0] != '\\' {
          ReadsWhole(wide, kv, tail, j + 1);
        }
      }
    }
  }

  /** An argument is written as it is exactly if it has characters and none needs quoting: among ASCII, only
      letters, digits and ten signs do not. */
  lemma LeftBare(wide: char -> bool, arg: string)
    ensures ShellQuote(wide, arg) == arg <==>
              arg != "" && forall c :: c in arg ==>
                if c as int >= 128 then wide(c)
                else 'a' <= c <= 'z' || 'A' <= c <= 'Z' || '0' <= c <= '9' || c in {'@', '%', '_', '+', '=', ':', ',', '.', '/', '-'}
  {
    EscapeLonger(arg);
  }

  lemma {:induction false} EscapeLonger(arg: string)
    ensures |Escape(arg)| >= |arg|
  {
    if arg != "" {
      EscapeLonger(arg[1..]);
    }
  }
}
