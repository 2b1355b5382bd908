/**
 Building a Windows service command line and reading it back. The reader follows "Parsing C command-line
 arguments" of the Microsoft C runtime: backslashes are literal unless they precede a double quote mark,
 2n of them before a quote mark stand for n and leave it a delimiter, 2n + 1 stand for n and a literal quote
 mark, and inside quotes two quote marks in a row are one literal mark. For the program name, quote marks
 only group and backslashes mean nothing.
 */
module WindowsQuoting {
  import opened Collections

  function Backslashes(n: nat): string {
    if n == 0 then "" else Backslashes(n - 1) + ['\\']
  }

  // ---------- writing ----------

  /** What the loop writes for the rest of an argument after `n` backslashes it has not written yet. */
  function QuotedRest(arg: string, n: nat): string {
    if arg == "" then Backslashes(2 * n) + ['"']
    else if arg[0] == '\\' then QuotedRest(arg[1..], n + 1)
    else if arg[0] == '"' then Backslashes(2 * n + 1) + ['"'] + QuotedRest(arg[1..], 0)
    else Backslashes(n) + [arg[0]] + QuotedRest(arg[1..], 0)
  }

  function Quoted(arg: string): string {
    ['"'] + QuotedRest(arg, 0)
  }

  method QuoteWindowsArg(arg: string) returns (r: string)
    ensures r == Quoted(arg)
  {
    if arg == "" {
      assert Backslashes(0) + ['"'] == ['"'];
      return "\"\"";
    }
    r := ['"'];
    var backslashes := 0;
    for i := 0 to |arg|
      invariant r + QuotedRest(arg[i..], backslashes) == Quoted(arg)
    {
      var c := arg[i];
      assert arg[i..][0] == c && arg[i..][1..] == arg[i + 1..];
      if c == '\\' {
        backslashes := backslashes + 1;
      } else if c == '"' {
        Concat4(r, Backslashes(2 * backslashes + 1), [c], QuotedRest(arg[i + 1..], 0));
        r := r + Backslashes(backslashes * 2 + 1) + [c];
        backslashes := 0;
      } else {
        Concat4(r, Backslashes(backslashes), [c], QuotedRest(arg[i + 1..], 0));
        if backslashes > 0 {
          r := r + Backslashes(backslashes);
        }
        r := r + [c];
        backslashes := 0;
      }
    }
    assert arg[|arg|..] == "";
    Concat4(r, [], Backslashes(2 * backslashes), ['"']);
    if backslashes > 0 {
      r := r + Backslashes(backslashes * 2);
    }
    r := r + ['"'];
  }

  lemma Concat4(a: string, b: string, c: string, d: string)
    ensures a + (b + c + d) == a + b + c + d
    ensures b == [] ==> a + b == a && b + c + d == c + d && a + (c + d) == a + c + d
  {
  }

  function JoinQuoted(args: seq<string>): string {
    if args == [] then "" else [' '] + Quoted(args[0]) + JoinQuoted(args[1..])
  }

  method WindowsServiceCommandLine(exe: string, args: seq<string>) returns (line: string)
    ensures line == Quoted(exe) + JoinQuoted(args)
    ensures ParseCommandLine(line) == [exe] + args <==> IsPlainPath(exe)
  {
    RoundTripIff(exe, args);
    line := QuoteWindowsArg(exe);
    assert args[0..] == args;
    for i := 0 to |args|
      invariant line + JoinQuoted(args[i..]) == Quoted(exe) + JoinQuoted(args)
    {
      assert args[i..][0] == args[i] && args[i..][1..] == args[i + 1..];
      var quoted := QuoteWindowsArg(args[i]);
      Concat4(line, [' '], quoted, JoinQuoted(args[i + 1..]));
      line := line + [' '] + quoted;
    }
    assert args[|args|..] == [] && line + "" == line;
  }

  // ---------- reading ----------

  predicate IsBlank(c: char) {
    c == ' ' || c == '\t'
  }

  /** The program name: text up to a blank outside quotes; the marks are left out. And what follows it. */
  function ProgramName(s: string, inQuotes: bool): (string, string) {
    if s == "" then ("", "")
    else if s[0] == '"' then ProgramName(s[1..], !inQuotes)
    else if IsBlank(s[0]) && !inQuotes then ("", s)
    else
      var (name, rest) := ProgramName(s[1..], inQuotes);
      ([s[0]] + name, rest)
  }

  /** The arguments of `s`, reading from between two of them. */
  function Arguments(s: string): seq<string>
    decreases |s|, 1
  {
    if s == "" then []
    else if IsBlank(s[0]) then Arguments(s[1..])
    else Argument(s, false, 0, "")
  }

  /** The arguments from inside one that has `sofar` and then `n` backslashes still to be interpreted. */
  function Argument(s: string, inQuotes: bool, n: nat, sofar: string): seq<string>
    decreases |s|, 0
  {
    if s == "" then [sofar + Backslashes(n)]
    else if s[0] == '\\' then Argument(s[1..], inQuotes, n + 1, sofar)
    else if s[0] == '"' then
      var text := sofar + Backslashes(n / 2);
      if n % 2 == 1 then Argument(s[1..], inQuotes, 0, text + ['"'])
      else if inQuotes && |s| > 1 && s[1] == '"' then Argument(s[2..], inQuotes, 0, text + ['"'])
      else Argument(s[1..], !inQuotes, 0, text)
    else if IsBlank(s[0]) && !inQuotes then [sofar + Backslashes(n)] + Arguments(s[1..])
    else Argument(s[1..], inQuotes, 0, sofar + Backslashes(n) + [s[0]])
  }

  function ParseCommandLine(line: string): seq<string> {
    var (name, rest) := ProgramName(line, false);
    [name] + Arguments(rest)
  }

  // ---------- round trip ----------

  lemma {:induction false} BackslashesCons(n: nat)
    ensures |Backslashes(n)| == n && (n > 0 ==> Backslashes(n) == ['\\'] + Backslashes(n - 1))
  {
    if n > 0 {
      BackslashesCons(n - 1);
    }
  }

  // Reading one character.

  lemma StepBackslash(rest: string, inQuotes: bool, n: nat, sofar: string)
    ensures Argument(['\\'] + rest, inQuotes, n, sofar) == Argument(rest, inQuotes, n + 1, sofar)
  {
    assert (['\\'] + rest)[1..] == rest;
  }

  lemma StepLiteralMark(rest: string, n: nat, sofar: string)
    ensures Argument(['"'] + rest, true, 2 * n + 1, sofar) == Argument(rest, true, 0, sofar + Backslashes(n) + ['"'])
  {
    Halves(n);
    assert (['"'] + rest)[1..] == rest;
  }

  lemma Halves(n: nat)
    ensures 2 * n / 2 == n && 2 * n % 2 == 0 && (2 * n + 1) / 2 == n && (2 * n + 1) % 2 == 1
  {
  }

  lemma StepClosingMark(rest: string, n: nat, sofar: string)
    requires EndsArgument(rest)
    ensures Argument(['"'] + rest, true, 2 * n, sofar) == Argument(rest, false, 0, sofar + Backslashes(n))
  {
    Halves(n);
    var all := ['"'] + rest;
    assert all[0] == '"' && all[1..] == rest;
    assert rest != "" ==> all[1] == rest[0];
  }

  lemma StepPlain(c: char, rest: string, n: nat, sofar: string)
    requires c != '\\' && c != '"'
    ensures Argument([c] + rest, true, n, sofar) == Argument(rest, true, 0, sofar + Backslashes(n) + [c])
  {
    assert ([c] + rest)[1..] == rest;
  }

  // Rearranging text.

  lemma Regroup(a: string, b: string, c: string, d: string)
    ensures a + b + (c + d) == a + b + c + d && a + (b + c + d) == a + b + c + d
    ensures a + (b + c) + d == a + b + c + d && a + b + c + d == a + (b + (c + d))
  {
  }

  lemma Empty(a: string)
    ensures a + "" == a && "" + a == a && Backslashes(0) == ""
  {
  }

  /** Reading a run of backslashes only counts them. */
  lemma {:induction false} ReadBackslashes(k: nat, rest: string, n: nat, sofar: string)
    ensures Argument(Backslashes(k) + rest, true, n, sofar) == Argument(rest, true, n + k, sofar)
    decreases k
  {
    if k == 0 {
      Empty(rest);
    } else {
      var tail := Backslashes(k - 1) + rest;
      BackslashesCons(k);
      Regroup(['\\'], Backslashes(k - 1), rest, "");
      Empty(rest);
      assert Backslashes(k) + rest == ['\\'] + tail;
      StepBackslash(tail, true, n, sofar);
      ReadBackslashes(k - 1, rest, n + 1, sofar);
    }
  }

  /** `tail` ends the argument before it: it is the end of the line or starts with a blank. */
  predicate EndsArgument(tail: string) {
    tail == "" || IsBlank(tail[0])
  }

  /** Reading what was written for the rest of an argument gives that rest and leaves the quotes. */
  lemma {:induction false} ReadRest(arg: string, n: nat, sofar: string, tail: string)
    requires EndsArgument(tail)
    ensures Argument(QuotedRest(arg, n) + tail, true, 0, sofar)
        == Argument(tail, false, 0, sofar + Backslashes(n) + arg)
    decreases |arg|
  {
    var held := sofar + Backslashes(n);
    if arg == "" {
      Regroup(Backslashes(2 * n), ['"'], tail, "");
      Empty(tail);
      Empty(held);
      ReadBackslashes(2 * n, ['"'] + tail, 0, sofar);
      StepClosingMark(tail, n, sofar);
    } else {
      SplitHead(arg);
      var c, more := arg[0], QuotedRest(arg[1..], 0) + tail;
      if c == '\\' {
        ReadRest(arg[1..], n + 1, sofar, tail);
        HoldOneMore(sofar, n, arg);
      } else if c == '"' {
        TextThenRest(Backslashes(2 * n + 1), c, QuotedRest(arg[1..], 0), tail);
        ReadBackslashes(2 * n + 1, [c] + more, 0, sofar);
        StepLiteralMark(more, n, sofar);
        ReadRest(arg[1..], 0, held + [c], tail);
        TakeOne(held, arg);
      } else {
        TextThenRest(Backslashes(n), c, QuotedRest(arg[1..], 0), tail);
        ReadBackslashes(n, [c] + more, 0, sofar);
        StepPlain(c, more, n, sofar);
        ReadRest(arg[1..], 0, held + [c], tail);
        TakeOne(held, arg);
      }
    }
  }

  lemma TextThenRest(a: string, c: char, rest: string, tail: string)
    ensures a + [c] + rest + tail == a + ([c] + (rest + tail))
  {
  }

  lemma HoldOneMore(sofar: string, n: nat, arg: string)
    requires arg != "" && arg[0] == '\\'
    ensures sofar + Backslashes(n + 1) + arg[1..] == sofar + Backslashes(n) + arg
  {
  }

  lemma TakeOne(held: string, arg: string)
    requires arg != ""
    ensures held + [arg[0]] + Backslashes(0) + arg[1..] == held + arg
  {
  }

  lemma {:induction false} ReadArguments(args: seq<string>)
    ensures Arguments(JoinQuoted(args)) == args && EndsArgument(JoinQuoted(args))
  {
    if args != [] {
      var arg, tail := args[0], JoinQuoted(args[1..]);
      ReadArguments(args[1..]);
      ReadOneArgument(arg, tail);
      SplitHead(args);
    }
  }

  lemma ReadOneArgument(arg: string, tail: string)
    requires EndsArgument(tail)
    ensures Arguments([' '] + Quoted(arg) + tail) == [arg] + Arguments(tail) && EndsArgument([' '] + Quoted(arg) + tail)
  {
    var body := QuotedRest(arg, 0) + tail;
    OpeningMark(body);
    LineShape(arg, tail);
    ReadRest(arg, 0, "", tail);
    Empty("");
    Empty(arg);
    ArgumentEnds(tail, arg);
  }

  lemma LineShape(arg: string, tail: string)
    ensures [' '] + Quoted(arg) + tail == [' '] + (['"'] + (QuotedRest(arg, 0) + tail))
  {
  }

  /** A blank, then a quote mark: an argument begins, inside quotes. */
  lemma OpeningMark(body: string)
    ensures Arguments([' '] + (['"'] + body)) == Argument(body, true, 0, "")
  {
    var marked := ['"'] + body;
    assert ([' '] + marked)[1..] == marked && marked[1..] == body;
    Empty("");
    assert Arguments([' '] + marked) == Arguments(marked);
    assert Arguments(marked) == Argument(marked, false, 0, "");
  }

  lemma ArgumentEnds(tail: string, arg: string)
    requires EndsArgument(tail)
    ensures Argument(tail, false, 0, arg) == [arg] + Arguments(tail)
  {
    Empty(arg);
    if tail == "" {
      assert [arg] + [] == [arg];
    }
  }

  /** A program name that survives: no quote mark in it and no backslash at its end. */
  predicate IsPlainPath(exe: string) {
    '"' !in exe && (exe != "" ==> exe[|exe| - 1] != '\\')
  }

  /** The backslashes at the end of an argument that was preceded by `n` more. */
  function Trailing(arg: string, n: nat): nat {
    if arg == "" then n else if arg[0] == '\\' then Trailing(arg[1..], n + 1) else Trailing(arg[1..], 0)
  }

  lemma {:induction false} TrailingIsZeroIff(arg: string, n: nat)
    ensures Trailing(arg, n) == 0 <==> if arg == "" then n == 0 else arg[|arg| - 1] != '\\'
  {
    if arg != "" {
      TrailingIsZeroIff(arg[1..], if arg[0] == '\\' then n + 1 else 0);
    }
  }

  lemma {:induction false} BackslashesAdd(a: nat, b: nat)
    ensures Backslashes(a + b) == Backslashes(a) + Backslashes(b)
  {
    if b > 0 {
      BackslashesAdd(a, b - 1);
    }
  }

  /** Without a quote mark, quoting adds only the doubled backslashes at the end and the closing mark. */
  lemma {:induction false} QuotedRestOfPlain(arg: string, n: nat)
    requires '"' !in arg
    ensures QuotedRest(arg, n) == Backslashes(n) + arg + Backslashes(Trailing(arg, n)) + ['"']
  {
    if arg == "" {
      BackslashesAdd(n, n);
      Empty(Backslashes(n));
    } else if arg[0] == '\\' {
      QuotedRestOfPlain(arg[1..], n + 1);
      HoldOneMore("", n, arg);
      Empty(Backslashes(n + 1));
      Empty(Backslashes(n));
    } else {
      QuotedRestOfPlain(arg[1..], 0);
      var k := Backslashes(Trailing(arg[1..], 0));
      Regroup(Backslashes(n) + [arg[0]], Backslashes(0) + arg[1..], k, ['"']);
      Regroup(Backslashes(n), [arg[0]], Backslashes(0), arg[1..]);
      TakeOne(Backslashes(n), arg);
    }
  }

  lemma {:induction false} ReadName(text: string, tail: string)
    requires '"' !in text && EndsArgument(tail)
    ensures ProgramName(text + ['"'] + tail, true) == (text, tail)
  {
    if text == "" {
      assert text + ['"'] + tail == ['"'] + tail && (['"'] + tail)[1..] == tail;
    } else {
      var all := text + ['"'] + tail;
      ReadName(text[1..], tail);
      assert all[0] == text[0] && all[1..] == text[1..] + ['"'] + tail;
      assert [text[0]] + text[1..] == text;
    }
  }

  lemma {:induction false} NameHasNoMark(s: string, inQuotes: bool)
    ensures '"' !in ProgramName(s, inQuotes).0
  {
    if s != "" {
      NameHasNoMark(s[1..], if s[0] == '"' then !inQuotes else inQuotes);
    }
  }

  lemma BackslashesHaveNoMark(n: nat)
    ensures '"' !in Backslashes(n)
  {
  }

  /** For a program name without a quote mark, only backslashes at its end are read back doubled. */
  lemma PlainNameReadsBack(exe: string, args: seq<string>)
    requires '"' !in exe
    ensures ParseCommandLine(Quoted(exe) + JoinQuoted(args)) == [exe + Backslashes(Trailing(exe, 0))] + args
  {
    QuotedRestOfPlain(exe, 0);
    Empty(exe);
    BackslashesHaveNoMark(Trailing(exe, 0));
    ReadArguments(args);
    ReadQuotedName(exe + Backslashes(Trailing(exe, 0)), JoinQuoted(args));
  }

  lemma ReadQuotedName(text: string, tail: string)
    requires '"' !in text && EndsArgument(tail)
    ensures ProgramName(['"'] + (text + ['"']) + tail, false) == (text, tail)
  {
    var line := ['"'] + (text + ['"']) + tail;
    ReadName(text, tail);
    assert line[1..] == text + ['"'] + tail;
  }

  /**
   Round trip, for every program name and all arguments, empty ones, blanks, quote marks and runs of
   backslashes included: the command line is read back as written exactly when the program name holds no
   quote mark and does not end in a backslash.
   */
  lemma RoundTripIff(exe: string, args: seq<string>)
    ensures ParseCommandLine(Quoted(exe) + JoinQuoted(args)) == [exe] + args <==> IsPlainPath(exe)
  {
    var line := Quoted(exe) + JoinQuoted(args);
    assert ([exe] + args)[0] == exe && ParseCommandLine(line)[0] == ProgramName(line, false).0;
    if '"' in exe {
      NameHasNoMark(line, false);
    } else {
      PlainNameReadsBack(exe, args);
      TrailingIsZeroIff(exe, 0);
      BackslashesCons(Trailing(exe, 0));
      Empty(exe);
      var k := Trailing(exe, 0);
      assert |exe + Backslashes(k)| == |exe| + k;
      assert ([exe + Backslashes(k)] + args)[0] == exe + Backslashes(k);
    }
  }

  /** Whatever the program name, no argument after it is ever damaged when the name has no quote mark. */
  lemma ArgumentsSurvive(exe: string, args: seq<string>)
    requires '"' !in exe
    ensures ParseCommandLine(Quoted(exe) + JoinQuoted(args))[1..] == args
  {
    PlainNameReadsBack(exe, args);
  }
}
