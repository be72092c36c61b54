/** The PowerShell form of a command, go/cmd/ggrun/command_display.go, and what PowerShell reads from it. */
module PowerShellText {
  import opened Options
  import opened CommandText

  /** U+0027 and U+2018 to U+201B all quote. */
  predicate IsQuote(c: char) {
    c == '\'' || '\U{2018}' <= c <= '\U{201B}'
  }

  function Doubled(s: string): string {
    if s == "" then "" else (if IsQuote(s[0]) then [s[0], s[0]] else [s[0]]) + Doubled(s[1..])
  }

  function Literal(s: string): string {
    "'" + Doubled(s) + "'"
  }

  /** powerShellLiteral. */
  method PowerShellLiteral(s: string) returns (b: string)
    ensures b == Literal(s)
  {
    b := "'";
    for i := 0 to |s|
      invariant b + Doubled(s[i..]) == "'" + Doubled(s)
    {
      assert s[i..][1..] == s[i + 1..];
      if IsQuote(s[i]) {
        b := b + [s[i]];
      }
      b := b + [s[i]];
    }
    b := b + "'";
  }

  predicate Alphanumeric(c: char) {
    'a' <= c <= 'z' || 'A' <= c <= 'Z' || '0' <= c <= '9' || c == '-'
  }

  /** Characters PowerShell hands to a native command unquoted. */
  predicate Bare(c: char) {
    Alphanumeric(c) || c in "_.+=:/\\"
  }

  predicate IsBare(a: string) {
    && a != "" && a != "-" && a != "--"
    && forall c <- a :: if a[0] == '-' then Alphanumeric(c) else Bare(c)
  }

  /** powerShellArg: what an argument is written as. */
  function Arg(a: string): string {
    if a == "--%" then "@(" + Literal(a) + ")"
    else if IsBare(a) then a
    else Literal(a)
  }

  function Args(args: Argv): string {
    if args == [] then "" else if |args| == 1 then Arg(args[0]) else Arg(args[0]) + " " + Args(args[1..])
  }

  // Reading it back.

  /** The quotation marks of PowerShell's verbatim strings. */
  predicate Quotes(c: char) {
    c in {'\'', '\U{2018}', '\U{2019}', '\U{201A}', '\U{201B}'}
  }

  /** A verbatim string after its opening quote: its text and what follows. A quote inside is doubled. */
  function ReadLiteral(s: string): (r: Option<(string, string)>)
    ensures r.Some? ==> |r.value.1| < |s|
  {
    if s == "" then None
    else if Quotes(s[0]) then
      if |s| > 1 && Quotes(s[1]) then Before([s[1]], ReadLiteral(s[2..])) else Some(("", s[1..]))
    else Before([s[0]], ReadLiteral(s[1..]))
  }

  function BareLength(s: string): (n: nat)
    ensures n <= |s|
  {
    if s == "" || !Bare(s[0]) then 0 else 1 + BareLength(s[1..])
  }

  /** One argument: an array of one verbatim string, a verbatim string, or a bare word. */
  function ReadArg(s: string): (r: Option<(string, string)>)
    ensures r.Some? ==> |r.value.1| < |s|
  {
    if "@('" <= s then
      var r := ReadLiteral(s[3..]);
      if r.Some? && ")" <= r.value.1 then Some((r.value.0, r.value.1[1..])) else None
    else if s != "" && Quotes(s[0]) then ReadLiteral(s[1..])
    else if BareLength(s) > 0 then Some((s[..BareLength(s)], s[BareLength(s)..]))
    else None
  }

  function ReadArgs(s: string): Option<Argv>
    decreases |s|
  {
    var r := ReadArg(s);
    if r.None? then None
    else if r.value.1 == "" then Some([r.value.0])
    else if r.value.1[0] != ' ' then None
    else
      var rest := ReadArgs(r.value.1[1..]);
      if rest.None? then None else Some([r.value.0] + rest.value)
  }

  /** Text that cannot continue a literal or a bare word. */
  predicate Stops(rest: string) {
    rest == "" || (!Quotes(rest[0]) && !Bare(rest[0]))
  }

  lemma {:induction false} ReadDoubled(s: string, rest: string)
    requires rest == "" || !Quotes(rest[0])
    ensures ReadLiteral(Doubled(s) + ("'" + rest)) == Some((s, rest))
  {
    hide ReadLiteral;
    if s == "" {
      assert Doubled(s) + ("'" + rest) == "'" + rest;
      ReadEnd(rest);
    } else {
      var tail := Doubled(s[1..]) + ("'" + rest);
      ReadDoubled(s[1..], rest);
      assert [s[0]] + s[1..] == s;
      if IsQuote(s[0]) {
        ReadPair(s[0], tail);
        Assoc([s[0], s[0]], Doubled(s[1..]), "'" + rest);
      } else {
        ReadPlain(s[0], tail);
        Assoc([s[0]], Doubled(s[1..]), "'" + rest);
      }
    }
  }

  lemma Assoc(a: string, b: string, c: string)
    ensures a + b + c == a + (b + c)
  {
  }

  lemma ReadEnd(rest: string)
    requires rest == "" || !Quotes(rest[0])
    ensures ReadLiteral("'" + rest) == Some(("", rest))
  {
    assert ("'" + rest)[1..] == rest;
  }

  lemma ReadPair(c: char, tail: string)
    requires IsQuote(c)
    ensures ReadLiteral([c, c] + tail) == Before([c], ReadLiteral(tail))
  {
    assert ([c, c] + tail)[2..] == tail;
  }

  lemma ReadPlain(c: char, tail: string)
    requires !IsQuote(c)
    ensures ReadLiteral([c] + tail) == Before([c], ReadLiteral(tail))
  {
    assert ([c] + tail)[1..] == tail;
  }

  lemma {:induction false} BareWord(a: string, rest: string)
    requires (forall c <- a :: Bare(c)) && Stops(rest)
    ensures BareLength(a + rest) == |a|
  {
    if a == "" {
      assert a + rest == rest;
    } else {
      assert (a + rest)[1..] == a[1..] + rest && a[0] in a;
      BareWord(a[1..], rest);
    }
  }

  lemma ReadBack(a: string, rest: string)
    requires Stops(rest)
    ensures ReadArg(Arg(a) + rest) == Some((a, rest)) && Arg(a) != ""
  {
    hide Doubled, ReadLiteral, BareLength;
    if a == "--%" {
      ReadArray(a, rest);
    } else if IsBare(a) {
      ReadBare(a, rest);
    } else {
      ReadQuoted(a, rest);
    }
  }

  /** An argument is written as it is exactly if it has characters, is no lone dash or two, and consists of
      letters, digits and dashes, or without a dash in front of seven more signs too. */
  lemma LeftBare(a: string)
    ensures Arg(a) == a <==>
              && a != "" && a != "-" && a != "--"
              && forall c :: c in a ==> 'a' <= c <= 'z' || 'A' <= c <= 'Z' || '0' <= c <= '9' || c == '-' ||
                                        (a[0] != '-' && c in {'_', '.', '+', '=', ':', '/', '\\'})
  {
    hide Doubled;
    DoubledLonger(a);
    assert a == "--%" ==> a[2] in a && !Alphanumeric(a[2]);
    if !IsBare(a) {
      assert |Arg(a)| > |a|;
    }
  }

  lemma {:induction false} DoubledLonger(s: string)
    ensures |Doubled(s)| >= |s|
  {
    if s != "" {
      DoubledLonger(s[1..]);
    }
  }

  lemma ReadBare(a: string, rest: string)
    requires IsBare(a) && Stops(rest)
    ensures ReadArg(a + rest) == Some((a, rest))
  {
    hide BareLength;
    BareWord(a, rest);
    assert a[0] in a;
    assert (a + rest)[0] == a[0] && Bare(a[0]);
    assert (a + rest)[..|a|] == a && (a + rest)[|a|..] == rest;
  }

  lemma ReadQuoted(a: string, rest: string)
    requires Stops(rest)
    ensures ReadArg(Literal(a) + rest) == Some((a, rest))
  {
    hide Doubled, ReadLiteral, BareLength;
    ReadDoubled(a, rest);
    var s := Literal(a) + rest;
    assert s[0] == '\'' && s[1..] == Doubled(a) + ("'" + rest);
  }

  lemma ReadArray(a: string, rest: string)
    requires Stops(rest)
    ensures ReadArg("@(" + Literal(a) + ")" + rest) == Some((a, rest))
  {
    hide Doubled, ReadLiteral, BareLength;
    ReadDoubled(a, ")" + rest);
    var s := "@(" + Literal(a) + ")" + rest;
    assert "@('" <= s && s[3..] == Doubled(a) + ("'" + (")" + rest));
    assert (")" + rest)[1..] == rest;
  }

  lemma ArgsStep(args: Argv)
    requires |args| > 1
    ensures Args(args) == Arg(args[0]) + (" " + Args(args[1..]))
  {
    hide Arg;
  }

  lemma ReadStep(a: string, more: string)
    ensures var rest := ReadArgs(more);
            ReadArgs(Arg(a) + (" " + more)) == if rest.None? then None else Some([a] + rest.value)
  {
    hide Arg, ReadArg, ReadArgs;
    ReadBack(a, " " + more);
    SpaceThen(Arg(a) + (" " + more), a, " " + more);
    assert (" " + more)[1..] == more;
  }

  lemma SpaceThen(s: string, a: string, tail: string)
    requires ReadArg(s) == Some((a, tail)) && tail != "" && tail[0] == ' '
    ensures var rest := ReadArgs(tail[1..]);
            ReadArgs(s) == if rest.None? then None else Some([a] + rest.value)
  {
    hide ReadArg;
  }

  lemma ReadLast(a: string)
    ensures ReadArgs(Arg(a)) == Some([a])
  {
    hide Arg, ReadArg;
    ReadBack(a, "");
    assert Arg(a) + "" == Arg(a);
  }

  /** The argument list reads back as the very arguments it was written from. */
  lemma {:induction false} ArgsReadBack(args: Argv)
    requires args != []
    ensures ReadArgs(Args(args)) == Some(args)
    decreases |args|
  {
    hide Arg, ReadArg, ReadArgs;
    if |args| == 1 {
      ReadLast(args[0]);
      assert args == [args[0]];
    } else {
      ArgsStep(args);
      ReadStep(args[0], Args(args[1..]));
      ArgsReadBack(args[1..]);
      assert [args[0]] + args[1..] == args;
    }
  }

  // The whole command.

  /** An assignment as strings.Cut splits it: at the first equals sign, if there is one. */
  function Key(kv: string): string {
    if kv == "" || kv[0] == '=' then "" else [kv[0]] + Key(kv[1..])
  }

  function Value(kv: string): string {
    if kv == "" then "" else if kv[0] == '=' then kv[1..] else Value(kv[1..])
  }

  function Env(env: seq<string>): string {
    if env == [] then "" else Env1(env[0]) + Env(env[1..])
  }

  function Env1(kv: string): string {
    "$env:" + Key(kv) + "=" + Literal(Value(kv)) + "; "
  }

  function Call(args: Argv): string {
    if args == [] then "" else "& " + Args(args)
  }

  /** strings.Join(words, " "). */
  function Joined(words: seq<string>): string {
    if words == [] then "" else if |words| == 1 then words[0] else words[0] + " " + Joined(words[1..])
  }

  /** displayCommandFor: PowerShell on Windows outside MSYS, and everywhere else the comparison form after
      the raw assignments. */
  function Display(wide: char -> bool, goos: string, msystem: string, env: seq<string>, args: Argv): string {
    if goos != "windows" || msystem != "" then (if env == [] then "" else Joined(env) + " ") + Format(wide, args)
    else Env(env) + Call(args)
  }

  method DisplayCommand(wide: char -> bool, goos: string, msystem: string, env: seq<string>, args: Argv) returns (b: string)
    ensures b == Display(wide, goos, msystem, env, args)
  {
    hide Key, Value, Literal, Args, Format, Joined, Env, Env1;
    if goos != "windows" || msystem != "" {
      var s := Format(wide, args);
      if |env| > 0 {
        return Joined(env) + " " + s;
      }
      assert "" + s == s;
      return s;
    }
    b := Assignments(env);
    if args != [] {
      b := b + ("& " + Args(args));
    } else {
      assert b + "" == b;
    }
  }

  method Assignments(env: seq<string>) returns (b: string)
    ensures b == Env(env)
  {
    hide Key, Value, Literal, Args;
    b := "";
    for i := 0 to |env|
      invariant b + Env(env[i..]) == Env(env)
    {
      var literal := PowerShellLiteral(Value(env[i]));
      EnvStep(b, env[i..]);
      assert env[i..][1..] == env[i + 1..];
      b := b + ("$env:" + Key(env[i]) + "=" + literal + "; ");
    }
    assert env[|env|..] == [];
  }

  lemma EnvStep(b: string, env: seq<string>)
    requires env != []
    ensures b + Env(env) == b + Env1(env[0]) + Env(env[1..])
  {
    hide Env1;
  }

  /** Assignments in front, then the call: what PowerShell sets and what it runs. */
  function ReadCommand(s: string): Option<(seq<(string, string)>, Argv)>
    decreases |s|
  {
    if s == "" then Some(([], []))
    else if "& " <= s then
      var r := ReadArgs(s[2..]);
      if r.None? then None else Some(([], r.value))
    else if "$env:" <= s then
      var k := Key(s[5..]);
      var after := Value(s[5..]);
      if !("'" <= after) || |after| >= |s| then None
      else
        var v := ReadLiteral(after[1..]);
        if v.None? || !("; " <= v.value.1) then None
        else
          var rest := ReadCommand(v.value.1[2..]);
          if rest.None? then None else Some(([(k, v.value.0)] + rest.value.0, rest.value.1))
    else None
  }

  lemma {:induction false} CutAgain(kv: string, rest: string)
    ensures Key(Key(kv) + "=" + rest) == Key(kv) && Value(Key(kv) + "=" + rest) == rest
  {
    if kv == "" || kv[0] == '=' {
      assert ("" + "=" + rest)[1..] == rest;
    } else {
      CutAgain(kv[1..], rest);
      assert (Key(kv) + "=" + rest)[1..] == Key(kv[1..]) + "=" + rest;
    }
  }

  /** Each assignment as it is set. */
  function Pairs(env: seq<string>): seq<(string, string)> {
    if env == [] then [] else [(Key(env[0]), Value(env[0]))] + Pairs(env[1..])
  }

  /** A variable's name, of letters, digits and underscores, and its value. */
  predicate IsAssignment(kv: string) {
    '=' in kv && Key(kv) != "" && forall c <- Key(kv) :: c == '_' || (Alphanumeric(c) && c != '-')
  }

  predicate AllSafe(wide: char -> bool, s: string) {
    forall c :: c in s ==> Safe(wide, c)
  }

  function Prefixed(wide: char -> bool, env: seq<string>, args: Argv): string {
    if env == [] then Format(wide, args) else env[0] + (" " + Prefixed(wide, env[1..], args))
  }

  lemma {:induction false} PrefixedIs(wide: char -> bool, env: seq<string>, args: Argv)
    requires env != []
    ensures Joined(env) + " " + Format(wide, args) == Prefixed(wide, env, args)
  {
    hide Format;
    if |env| == 1 {
      assert env[1..] == [];
      assert env[0] + " " + Format(wide, args) == env[0] + (" " + Format(wide, args));
    } else {
      PrefixedIs(wide, env[1..], args);
      var rest := Joined(env[1..]);
      Assoc(env[0] + " ", rest, " " + Format(wide, args));
      Assoc(env[0], " ", rest + (" " + Format(wide, args)));
      Assoc(rest, " ", Format(wide, args));
      Assoc(env[0] + " " + rest, " ", Format(wide, args));
    }
  }

  lemma AssignmentSafe(wide: char -> bool, kv: string)
    requires IsAssignment(kv)
    ensures kv != "" && kv[0] != ' ' && (AllSafe(wide, kv) <==> AllSafe(wide, Value(kv)))
  {
    CutIs(kv);
    var k := Key(kv);
    assert kv == k + "=" + Value(kv) && kv[0] == k[0] && k[0] in k;
    if AllSafe(wide, kv) {
      forall c | c in Value(kv) ensures Safe(wide, c) {
        assert c in kv;
      }
    }
  }

  lemma WordsStep(wide: char -> bool, kv: string, tail: string)
    requires kv != "" && kv[0] != ' '
    ensures AllSafe(wide, kv) ==>
              Words(wide, kv + (" " + tail)) == if Words(wide, tail).None? then None else Some([kv] + Words(wide, tail).value)
    ensures !AllSafe(wide, kv) ==>
              Words(wide, kv + (" " + tail)).None? || Words(wide, kv + (" " + tail)).value == [] ||
              Words(wide, kv + (" " + tail)).value[0] != kv
  {
    hide Word, AllSafe;
    var t := kv + (" " + tail);
    assert t[0] == kv[0];
    if AllSafe(wide, kv) {
      ReadSafeWord(wide, kv, " " + tail);
      assert (" " + tail)[1..] == tail && |" " + tail| < |t|;
    } else {
      WholeIsSafe(wide, kv, tail);
    }
  }

  lemma ReadSafeWord(wide: char -> bool, kv: string, rest: string)
    requires AllSafe(wide, kv) && rest != "" && rest[0] == ' '
    ensures Word(wide, kv + rest) == Some((kv, rest))
  {
    ReadSafe(wide, kv, rest);
  }

  lemma WholeIsSafe(wide: char -> bool, kv: string, tail: string)
    ensures var r := Word(wide, kv + (" " + tail)); r.Some? && r.value.0 == kv ==> AllSafe(wide, kv)
  {
    hide Word;
    var t := kv + (" " + tail);
    assert t[0..] == t && kv[0..] == kv;
    var r := Word(wide, t);
    if r.Some? && r.value.0 == kv {
      ReadsWhole(wide, kv, tail, 0);
    }
  }

  lemma SameHead(a: string, x: Argv, y: Argv)
    ensures [a] + x == [a] + y <==> x == y
  {
    assert ([a] + x)[1..] == x && ([a] + y)[1..] == y;
  }

  lemma {:induction false} PrefixReadsBack(wide: char -> bool, env: seq<string>, args: Argv)
    requires forall kv <- env :: IsAssignment(kv)
    ensures Words(wide, Prefixed(wide, env, args)) == Some(env + args) <==> forall kv <- env :: AllSafe(wide, Value(kv))
  {
    hide Words, IsAssignment, AllSafe, Value, Format;
    if env == [] {
      FormatReadsBack(wide, args);
      assert env + args == args;
    } else {
      var tail := Prefixed(wide, env[1..], args);
      assert env[0] in env;
      AssignmentSafe(wide, env[0]);
      WordsStep(wide, env[0], tail);
      PrefixReadsBack(wide, env[1..], args);
      assert env + args == [env[0]] + (env[1..] + args);
      if AllSafe(wide, env[0]) && Words(wide, tail).Some? {
        SameHead(env[0], Words(wide, tail).value, env[1..] + args);
      }
      assert (forall kv <- env :: AllSafe(wide, Value(kv))) <==>
               AllSafe(wide, Value(env[0])) && forall kv <- env[1..] :: AllSafe(wide, Value(kv));
    }
  }

  /** Off Windows and under MSYS the displayed command splits back into its assignments and arguments if and
      only if no value holds a character that would need quoting, since assignments are written raw. */
  lemma PosixReadsBack(wide: char -> bool, goos: string, msystem: string, env: seq<string>, args: Argv)
    requires goos != "windows" || msystem != ""
    requires forall kv <- env :: IsAssignment(kv)
    ensures Words(wide, Display(wide, goos, msystem, env, args)) == Some(env + args) <==>
              forall kv <- env :: forall c <- Value(kv) :: Safe(wide, c)
  {
    hide Words, IsAssignment, Format, Joined, Value;
    PrefixReadsBack(wide, env, args);
    if env == [] {
      assert "" + Format(wide, args) == Format(wide, args);
    } else {
      PrefixedIs(wide, env, args);
    }
    assert forall kv <- env :: AllSafe(wide, Value(kv)) <==> forall c <- Value(kv) :: Safe(wide, c);
  }

  /** A value with a space in it is displayed as two words. */
  lemma ValueSplits(wide: char -> bool)
    ensures Words(wide, Display(wide, "linux", "", ["A=b c"], [])) == Some(["A=b", "c"])
  {
    hide Safe;
    assert Joined(["A=b c"]) + " " + "" == "A=b" + (" " + "c ");
    assert AllSafe(wide, "A=b") && AllSafe(wide, "c") by {
      SafeHere(wide);
    }
    WordsStep(wide, "A=b", "c ");
    assert "c" + (" " + "") == "c ";
    WordsStep(wide, "c", "");
    assert Words(wide, "") == Some([]);
    assert ["A=b"] + (["c"] + []) == ["A=b", "c"];
  }

  lemma SafeHere(wide: char -> bool)
    ensures AllSafe(wide, "A=b") && AllSafe(wide, "c")
  {
  }

  /** A displayed command reads back: the variables it sets, split at the first equals sign, and the
      arguments it passes. */
  lemma {:induction false} CommandReadsBack(env: seq<string>, args: Argv)
    ensures ReadCommand(Env(env) + Call(args)) == Some((Pairs(env), args))
    decreases |env|
  {
    hide ReadCommand, Env1, Call, Key, Value;
    if env == [] {
      ReadCall(args);
      assert "" + Call(args) == Call(args);
    } else {
      CommandReadsBack(env[1..], args);
      ReadOne(env[0], Env(env[1..]) + Call(args));
      assert Env(env) + Call(args) == Env1(env[0]) + (Env(env[1..]) + Call(args));
    }
  }

  /** On Windows outside MSYS the displayed command is that one. */
  lemma DisplayReadsBack(wide: char -> bool, env: seq<string>, args: Argv)
    ensures ReadCommand(Display(wide, "windows", "", env, args)) == Some((Pairs(env), args))
  {
    hide ReadCommand, Env, Call, Format;
    CommandReadsBack(env, args);
  }

  /** The first equals sign divides an assignment; without one it is all name. */
  lemma {:induction false} CutIs(kv: string)
    ensures '=' !in Key(kv) && kv == if '=' in kv then Key(kv) + "=" + Value(kv) else Key(kv) + Value(kv)
    ensures '=' !in kv ==> Value(kv) == ""
  {
    if kv != "" && kv[0] != '=' {
      var k, v := Key(kv[1..]), Value(kv[1..]);
      CutIs(kv[1..]);
      assert kv == [kv[0]] + kv[1..] && Key(kv) == [kv[0]] + k && Value(kv) == v;
      assert '=' in kv <==> '=' in kv[1..];
      Assoc([kv[0]], k, "=" + v);
      Assoc([kv[0]], k, v);
      Assoc(k, "=", v);
      Assoc([kv[0]] + k, "=", v);
    }
  }

  lemma ReadCall(args: Argv)
    ensures ReadCommand(Call(args)) == Some(([], args))
  {
    hide Args, ReadArgs;
    if args != [] {
      ArgsReadBack(args);
      assert Call(args)[2..] == Args(args);
    }
  }

  lemma ReadOne(kv: string, rest: string)
    ensures var r := ReadCommand(rest);
            ReadCommand(Env1(kv) + rest) ==
            if r.None? then None else Some(([(Key(kv), Value(kv))] + r.value.0, r.value.1))
  {
    hide Key, Value, Doubled, ReadLiteral, ReadCommand;
    var k, v, tail := Key(kv), Value(kv), "; " + rest;
    var after := Literal(v) + tail;
    var s := Env1(kv) + rest;
    assert s == "$env:" + (k + "=" + after);
    CutAgain(kv, after);
    assert s[5..] == k + "=" + after;
    ReadDoubled(v, tail);
    assert after[1..] == Doubled(v) + ("'" + tail);
    assert tail[2..] == rest;
    assert "$env:" <= s && "'" <= after && "; " <= tail;
    ReadAssignment(s, k, v, after, tail);
  }

  lemma ReadAssignment(s: string, k: string, v: string, after: string, tail: string)
    requires "$env:" <= s && Key(s[5..]) == k && Value(s[5..]) == after && |after| < |s|
    requires "'" <= after && ReadLiteral(after[1..]) == Some((v, tail)) && "; " <= tail
    ensures var r := ReadCommand(tail[2..]);
            ReadCommand(s) == if r.None? then None else Some(([(k, v)] + r.value.0, r.value.1))
  {
    hide Key, Value, ReadLiteral, ReadArgs;
    assert s[0] == '$';
  }
}
