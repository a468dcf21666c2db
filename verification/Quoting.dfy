/** Windows command lines (src/win32.cpp), and the Microsoft C runtime rules that take them apart. */
module Quoting {
  import opened Wire

  function Slashes(n: nat): (s: string)
    ensures |s| == n && forall i :: 0 <= i < n ==> s[i] == '\\'
  {
    seq(n, _ => '\\')
  }

  /** What is still to be written for `rest` when `slashes` backslashes are pending. */
  function Escape(rest: string, slashes: nat): string
  {
    if rest == "" then Slashes(2 * slashes)
    else if rest[0] == '\\' then Escape(rest[1..], slashes + 1)
    else Slashes(if rest[0] == '"' then 2 * slashes + 1 else slashes) + [rest[0]] + Escape(rest[1..], 0)
  }

  function Quoted(arg: string): (q: string)
    ensures q != "" && q[0] == '"'
  {
    "\"" + Escape(arg, 0) + "\""
  }

  method QuoteArgument(arg: string) returns (r: Outcome<string>)
    ensures r == if '\0' in arg then Throws else Ok(Quoted(arg))
  {
    if '\0' in arg { return Throws; }
    var result, slashes := "\"", 0;
    for i := 0 to |arg|
      invariant result + Escape(arg[i..], slashes) == "\"" + Escape(arg, 0)
    {
      var c := arg[i];
      assert arg[i..][0] == c && arg[i..][1..] == arg[i + 1..];
      if c == '\\' { slashes := slashes + 1; continue; }
      ghost var before := result;
      result := result + Slashes(if c == '"' then 2 * slashes + 1 else slashes);
      result := result + [c];
      ghost var lead := Slashes(if c == '"' then 2 * slashes + 1 else slashes);
      assert before + (lead + [c] + Escape(arg[i + 1..], 0)) == result + Escape(arg[i + 1..], 0);
      slashes := 0;
    }
    assert arg[|arg|..] == "";
    result := result + Slashes(2 * slashes);
    return Ok(result + "\"");
  }

  function Joined(args: seq<string>): string
  {
    if args == [] then "" else " " + Quoted(args[0]) + Joined(args[1..])
  }

  function CommandLine(program: string, args: seq<string>): string { Quoted(program) + Joined(args) }

  const COMMAND_LIMIT := 32767

  predicate HasNul(words: seq<string>) { exists w :: w in words && '\0' in w }

  /** The command line as `run_process` builds it, argument by argument. */
  method BuildCommand(program: string, args: seq<string>) returns (r: Outcome<string>)
    ensures HasNul([program] + args) ==> r == Throws
    ensures !HasNul([program] + args) ==>
              r == if |CommandLine(program, args)| >= 32767 then Throws else Ok(CommandLine(program, args))
  {
    var command := QuoteArgument(program);
    if command.Throws? { assert program in [program] + args; return Throws; }
    var line := command.value;
    for i := 0 to |args|
      invariant '\0' !in program && forall j :: 0 <= j < i ==> '\0' !in args[j]
      invariant line + Joined(args[i..]) == CommandLine(program, args)
    {
      var q := QuoteArgument(args[i]);
      if q.Throws? { assert args[i] in [program] + args; return Throws; }
      assert args[i..][0] == args[i] && args[i..][1..] == args[i + 1..];
      assert line + (" " + q.value + Joined(args[i + 1..])) == line + " " + q.value + Joined(args[i + 1..]);
      line := line + " " + q.value;
    }
    assert args[|args|..] == [];
    assert line == CommandLine(program, args);
    if |line| >= COMMAND_LIMIT { return Throws; }
    return Ok(line);
  }

  // ----- the documented argument rules

  predicate Blank(c: char) { c == ' ' || c == '\t' }

  /** One argument and the rest of the line; `slashes` backslashes have been seen and not yet judged. */
  function ParseArg(s: string, quoted: bool, slashes: nat): (string, string)
    decreases |s|
  {
    if s == "" then (Slashes(slashes), "")
    else if s[0] == '\\' then ParseArg(s[1..], quoted, slashes + 1)
    else if s[0] == '"' then
      if slashes % 2 == 1 then Prefix(Slashes(slashes / 2) + "\"", ParseArg(s[1..], quoted, 0))
      else if quoted && |s| > 1 && s[1] == '"' then Prefix(Slashes(slashes / 2) + "\"", ParseArg(s[2..], quoted, 0))
      else Prefix(Slashes(slashes / 2), ParseArg(s[1..], !quoted, 0))
    else if Blank(s[0]) && !quoted then (Slashes(slashes), s)
    else Prefix(Slashes(slashes) + [s[0]], ParseArg(s[1..], quoted, 0))
  }

  function Prefix(p: string, r: (string, string)): (string, string) { (p + r.0, r.1) }

  lemma {:induction false} ParseArgShrinks(s: string, quoted: bool, slashes: nat)
    ensures |ParseArg(s, quoted, slashes).1| <= |s|
    ensures s != "" && !Blank(s[0]) ==> |ParseArg(s, quoted, slashes).1| < |s|
    decreases |s|
  {
    if s != "" {
      ParseArgShrinks(s[1..], quoted, slashes + 1);
      ParseArgShrinks(s[1..], quoted, 0);
      ParseArgShrinks(s[1..], !quoted, 0);
      if |s| > 1 { ParseArgShrinks(s[2..], quoted, 0); }
    }
  }

  /** The arguments on a line: blanks separate them. */
  function ParseArgs(s: string): seq<string>
    decreases |s|
  {
    if s == "" then []
    else if Blank(s[0]) then ParseArgs(s[1..])
    else
      ParseArgShrinks(s, false, 0);
      var (arg, rest) := ParseArg(s, false, 0);
      [arg] + ParseArgs(rest)
  }

  /** The program name: quotation marks are dropped and shield blanks; nothing escapes. */
  function ParseProgram(s: string, quoted: bool): (string, string)
  {
    if s == "" then ("", "")
    else if s[0] == '"' then ParseProgram(s[1..], !quoted)
    else if Blank(s[0]) && !quoted then ("", s)
    else Prefix([s[0]], ParseProgram(s[1..], quoted))
  }

  function ParseCommandLine(s: string): seq<string>
  {
    var (program, rest) := ParseProgram(s, false);
    [program] + ParseArgs(rest)
  }

  // ----- arguments come back

  lemma {:induction false} ParseSlashes(n: nat, s: string, quoted: bool, slashes: nat)
    ensures ParseArg(Slashes(n) + s, quoted, slashes) == ParseArg(s, quoted, slashes + n)
  {
    if n == 0 {
      assert Slashes(0) + s == s;
    } else {
      assert (Slashes(n) + s)[1..] == Slashes(n - 1) + s;
      ParseSlashes(n - 1, s, quoted, slashes + 1);
    }
  }

  /** The line after an argument: nothing, or a blank. */
  predicate EndsWord(tail: string) { tail == "" || Blank(tail[0]) }

  lemma {:induction false} ParseClosing(k: nat, tail: string)
    requires EndsWord(tail)
    ensures ParseArg(Slashes(2 * k) + ("\"" + tail), true, 0) == (Slashes(k), tail)
  {
    ParseSlashes(2 * k, "\"" + tail, true, 0);
    assert ("\"" + tail)[1..] == tail;
    assert ParseArg(tail, false, 0) == ("", tail);
    assert 2 * k / 2 == k && Slashes(k) + "" == Slashes(k);
  }

  lemma {:induction false} ParseLiteral(k: nat, c: char, more: string)
    requires c != '\\'
    ensures var lead := if c == '"' then 2 * k + 1 else k;
            ParseArg(Slashes(lead) + ([c] + more), true, 0) == Prefix(Slashes(k) + [c], ParseArg(more, true, 0))
  {
    var lead := if c == '"' then 2 * k + 1 else k;
    ParseSlashes(lead, [c] + more, true, 0);
    assert ([c] + more)[1..] == more;
  }

  lemma {:induction false} ParseEscaped(rest: string, k: nat, tail: string)
    requires EndsWord(tail)
    ensures ParseArg(Escape(rest, k) + ("\"" + tail), true, 0) == (Slashes(k) + rest, tail)
    decreases |rest|
  {
    hide ParseArg;
    if rest == "" {
      ParseClosing(k, tail);
      assert Slashes(k) + rest == Slashes(k);
    } else if rest[0] == '\\' {
      ParseEscaped(rest[1..], k + 1, tail);
      assert Slashes(k + 1) + rest[1..] == Slashes(k) + rest;
    } else {
      var c, more := rest[0], Escape(rest[1..], 0) + ("\"" + tail);
      var lead := if c == '"' then 2 * k + 1 else k;
      ParseLiteral(k, c, more);
      ParseEscaped(rest[1..], 0, tail);
      assert Escape(rest, k) + ("\"" + tail) == Slashes(lead) + ([c] + more);
      assert (Slashes(k) + [c]) + (Slashes(0) + rest[1..]) == Slashes(k) + rest;
    }
  }

  lemma {:induction false} ParseQuoted(arg: string, tail: string)
    requires EndsWord(tail)
    ensures ParseArg(Quoted(arg) + tail, false, 0) == (arg, tail)
  {
    ParseEscaped(arg, 0, tail);
    assert (Quoted(arg) + tail)[1..] == Escape(arg, 0) + ("\"" + tail);
    assert Slashes(0) + arg == arg && Slashes(0) + (Slashes(0) + arg) == arg;
  }

  lemma {:induction false} JoinedEndsWord(args: seq<string>)
    ensures EndsWord(Joined(args))
  {
  }

  /** Every list of arguments comes back from its quoted and joined form. */
  lemma {:induction false} ParseUndoesJoin(args: seq<string>)
    ensures ParseArgs(Joined(args)) == args
  {
    hide ParseArg, Quoted;
    if args != [] {
      var line := Quoted(args[0]) + Joined(args[1..]);
      assert Joined(args)[1..] == line;
      JoinedEndsWord(args[1..]);
      ParseQuoted(args[0], Joined(args[1..]));
      ParseUndoesJoin(args[1..]);
      assert Joined(args)[0] == ' ' && line[0] == '"';
      assert args == [args[0]] + args[1..];
    }
  }

  // ----- the program name comes back unless it holds a quotation mark or ends in a backslash

  predicate PlainProgram(program: string)
  {
    '"' !in program && (program == "" || program[|program| - 1] != '\\')
  }

  /** The backslashes that quoting adds to a name without quotation marks. */
  function Added(rest: string, slashes: nat): nat
  {
    if rest == "" then slashes else if rest[0] == '\\' then Added(rest[1..], slashes + 1) else Added(rest[1..], 0)
  }

  lemma {:induction false} EscapeOfPlain(rest: string, k: nat)
    requires '"' !in rest
    ensures Escape(rest, k) == Slashes(k) + rest + Slashes(Added(rest, k))
    decreases |rest|
  {
    if rest == "" {
      assert Slashes(2 * k) == Slashes(k) + "" + Slashes(k);
    } else if rest[0] == '\\' {
      EscapeOfPlain(rest[1..], k + 1);
      assert Slashes(k + 1) + rest[1..] == Slashes(k) + rest;
    } else {
      EscapeOfPlain(rest[1..], 0);
      assert Slashes(k) + [rest[0]] + (Slashes(0) + rest[1..] + Slashes(Added(rest, k))) ==
             Slashes(k) + rest + Slashes(Added(rest, k));
    }
  }

  lemma {:induction false} AddedIsZero(rest: string, k: nat)
    ensures Added(rest, k) == 0 <==> if rest == "" then k == 0 else rest[|rest| - 1] != '\\'
    decreases |rest|
  {
    if rest != "" {
      AddedIsZero(rest[1..], if rest[0] == '\\' then k + 1 else 0);
    }
  }

  lemma {:induction false} ProgramCopies(name: string, tail: string)
    requires '"' !in name && EndsWord(tail)
    ensures ParseProgram(name + ("\"" + tail), true) == (name, tail)
  {
    if name == "" {
      assert name + ("\"" + tail) == "\"" + tail && ("\"" + tail)[1..] == tail;
      assert tail == "" ==> ParseProgram(tail, false) == ("", tail);
    } else {
      assert (name + ("\"" + tail))[1..] == name[1..] + ("\"" + tail);
      ProgramCopies(name[1..], tail);
      assert [name[0]] + name[1..] == name;
    }
  }

  lemma {:induction false} ProgramDropsQuotes(s: string, quoted: bool)
    ensures '"' !in ParseProgram(s, quoted).0
    decreases |s|
  {
    if s != "" {
      ProgramDropsQuotes(s[1..], quoted);
      ProgramDropsQuotes(s[1..], !quoted);
    }
  }

  lemma {:induction false} ParsePlainProgram(program: string, tail: string)
    requires '"' !in program && EndsWord(tail)
    ensures ParseProgram(Quoted(program) + tail, false) == (program + Slashes(Added(program, 0)), tail)
  {
    hide Escape, Added;
    var name := program + Slashes(Added(program, 0));
    EscapeOfPlain(program, 0);
    assert Escape(program, 0) == name;
    assert (Quoted(program) + tail)[1..] == name + ("\"" + tail);
    ProgramCopies(name, tail);
  }

  /**
   * The runtime rebuilds the program name and every argument exactly when the name holds no
   * quotation mark and does not end in a backslash; the arguments may hold anything.
   */
  lemma CommandLineReadsBack(program: string, args: seq<string>)
    ensures ParseCommandLine(CommandLine(program, args)) == [program] + args <==> PlainProgram(program)
  {
    JoinedEndsWord(args);
    var parsed := ParseCommandLine(CommandLine(program, args));
    if '"' in program {
      ProgramDropsQuotes(CommandLine(program, args), false);
      assert parsed[0] != ([program] + args)[0];
    } else {
      ParsePlainProgram(program, Joined(args));
      ParseUndoesJoin(args);
      AddedIsZero(program, 0);
      assert parsed == [program + Slashes(Added(program, 0))] + args;
      if Added(program, 0) == 0 {
        assert program + Slashes(0) == program;
      } else {
        assert |parsed[0]| != |program|;
      }
    }
  }
}
