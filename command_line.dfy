/**
 * `create_argc_argv` (engine_win32.cpp): the process command line split into
 * arguments following Microsoft's "Parsing C command-line arguments" rules.
 * The command line is a NUL-terminated string; position `|s|` of the model
 * string holds its terminator.
 */
module CommandLine {

  /** `is_whitespace`: only space and tab separate arguments. */
  predicate IsWhitespace(c: char)
  {
    c == ' ' || c == '\t'
  }

  /** A C string: no NUL before its terminator. */
  predicate NoNul(s: string)
  {
    forall k :: 0 <= k < |s| ==> s[k] != '\0'
  }

  /** The character under a cursor: the terminator sits at `|s|`. */
  function At(s: string, i: nat): char
    requires i <= |s|
  {
    if i < |s| then s[i] else '\0'
  }

  function Backslashes(n: nat): (r: string)
    ensures |r| == n && forall k :: 0 <= k < n ==> r[k] == '\\'
  {
    seq(n, _ => '\\')
  }

  // ---- the scans ----

  /** Where `eat_whitespaces` stops: the end of the run of spaces and tabs at `i`. */
  function SkipWhitespace(s: string, i: nat): (j: nat)
    requires i <= |s|
    ensures i <= j <= |s|
    ensures forall k :: i <= k < j ==> IsWhitespace(s[k])
    ensures j == |s| || !IsWhitespace(s[j])
    decreases |s| - i
  {
    if i < |s| && IsWhitespace(s[i]) then SkipWhitespace(s, i + 1) else i
  }

  /** The end of the run of backslashes at `i`. */
  function BackslashEnd(s: string, i: nat): (j: nat)
    requires i <= |s|
    ensures i <= j <= |s|
    ensures forall k :: i <= k < j ==> s[k] == '\\'
    ensures j == |s| || s[j] != '\\'
    decreases |s| - i
  {
    if i < |s| && s[i] == '\\' then BackslashEnd(s, i + 1) else i
  }

  /** The search for the matching quotation mark: the first `"` at or after `i`, or the terminator. */
  function QuoteEnd(s: string, i: nat): (j: nat)
    requires i <= |s|
    ensures i <= j <= |s|
    ensures forall k :: i <= k < j ==> s[k] != '"'
    ensures j == |s| || s[j] == '"'
    decreases |s| - i
  {
    if i < |s| && s[i] != '"' then QuoteEnd(s, i + 1) else i
  }

  /** The search finds the terminator exactly when no quotation mark follows. */
  lemma QuoteEndUnpaired(s: string, i: nat)
    requires i <= |s|
    ensures QuoteEnd(s, i) == |s| <==> '"' !in s[i..]
  {
    var j := QuoteEnd(s, i);
    if j < |s| {
      assert s[i..][j - i] == '"';
    } else {
      forall c | c in s[i..] ensures c != '"' {
        var k :| 0 <= k < |s[i..]| && s[i..][k] == c;
        assert s[i + k] == c;
      }
    }
  }

  // ---- the program name ----

  /**
   * The first argument, copied from `acc` on: characters up to the first
   * space or tab, where a span between quotation marks is copied without
   * them and keeps its whitespace.  The scan ends on the terminator too,
   * and an unmatched quotation mark copies the rest of the line.
   */
  function ProgramName(s: string, i: nat, acc: string): (r: (string, nat))
    requires i <= |s|
    ensures i <= r.1 <= |s|
    ensures r.1 == |s| || IsWhitespace(s[r.1])
    ensures |r.0| <= |acc| + r.1 - i
    decreases |s| - i
  {
    if i == |s| || IsWhitespace(s[i]) then (acc, i)
    else if s[i] == '"' then
      var close := QuoteEnd(s, i + 1);
      if close == |s| then (acc + s[i + 1..], |s|)
      else ProgramName(s, close + 1, acc + s[i + 1..close])
    else ProgramName(s, i + 1, acc + [s[i]])
  }

  // ---- the other arguments ----

  /**
   * One argument after the program name, from `acc` on, with `literal` the
   * state of `whitespace_as_literal`: it ends on the terminator, or on a
   * space or tab outside quotation marks.  A run of 2n backslashes before a
   * `"` gives n backslashes and the quotation mark is then read as one; a
   * run of 2n+1 gives n backslashes and a literal `"`; other backslashes
   * are literal.  A `"` toggles the mode and is dropped, except an opening
   * one that no later `"` matches, which is kept.
   */
  function Argument(s: string, i: nat, literal: bool, acc: string): (r: (string, nat, bool))
    requires i <= |s|
    ensures i <= r.1 <= |s|
    ensures r.1 == |s| || (!r.2 && IsWhitespace(s[r.1]))
    ensures i < |s| && (literal || !IsWhitespace(s[i])) ==> i < r.1
    ensures |r.0| <= |acc| + r.1 - i
    decreases |s| - i
  {
    if i == |s| || (!literal && IsWhitespace(s[i])) then (acc, i, literal)
    else if s[i] == '\\' then
      var k := BackslashEnd(s, i);
      var count := k - i;
      if k < |s| && s[k] == '"' then
        if count % 2 == 1 then Argument(s, k + 1, literal, acc + Backslashes(count / 2) + ['"'])
        else Argument(s, k, literal, acc + Backslashes(count / 2))
      else Argument(s, k, literal, acc + Backslashes(count))
    else if s[i] == '"' then
      var unpaired := !literal && QuoteEnd(s, i + 1) == |s|;
      Argument(s, i + 1, !literal, if unpaired then acc + ['"'] else acc)
    else Argument(s, i + 1, literal, acc + [s[i]])
  }

  /** The arguments from a cursor that `eat_whitespaces` has just moved. */
  function OtherArguments(s: string, i: nat, literal: bool): (r: seq<string>)
    requires i <= |s| && (i == |s| || !IsWhitespace(s[i]))
    decreases |s| - i
  {
    if i == |s| then []
    else
      var arg := Argument(s, i, literal, []);
      [arg.0] + OtherArguments(s, SkipWhitespace(s, arg.1), arg.2)
  }

  /** The whole command line: the program name, then the other arguments. */
  function ParseCommandLine(s: string): (argv: seq<string>)
    ensures |argv| >= 1
  {
    var name := ProgramName(s, 0, []);
    [name.0] + OtherArguments(s, SkipWhitespace(s, name.1), false)
  }

  // ---- the quoting rules ----

  lemma {:induction false} BackslashEndAt(s: string, i: nat, j: nat)
    requires i <= j <= |s| && (j == |s| || s[j] != '\\')
    requires forall k :: i <= k < j ==> s[k] == '\\'
    ensures BackslashEnd(s, i) == j
    decreases j - i
  {
    if i < j {
      BackslashEndAt(s, i + 1, j);
    }
  }

  /** 2n backslashes before a `"` give n backslashes, and the `"` is then read as a quotation mark. */
  lemma EvenBackslashes(s: string, i: nat, n: nat, literal: bool, acc: string)
    requires 0 < n && i + 2 * n < |s| && s[i + 2 * n] == '"'
    requires forall k :: i <= k < i + 2 * n ==> s[k] == '\\'
    ensures Argument(s, i, literal, acc) == Argument(s, i + 2 * n, literal, acc + Backslashes(n))
  {
    BackslashEndAt(s, i, i + 2 * n);
  }

  /** 2n+1 backslashes before a `"` give n backslashes and a literal `"`, and the mode stays. */
  lemma OddBackslashes(s: string, i: nat, n: nat, literal: bool, acc: string)
    requires i + 2 * n + 1 < |s| && s[i + 2 * n + 1] == '"'
    requires forall k :: i <= k < i + 2 * n + 1 ==> s[k] == '\\'
    ensures Argument(s, i, literal, acc) == Argument(s, i + 2 * n + 2, literal, acc + Backslashes(n) + ['"'])
  {
    BackslashEndAt(s, i, i + 2 * n + 1);
  }

  /** Backslashes that no `"` follows are copied as they are. */
  lemma LiteralBackslashes(s: string, i: nat, j: nat, literal: bool, acc: string)
    requires i < j <= |s| && (j == |s| || (s[j] != '\\' && s[j] != '"'))
    requires forall k :: i <= k < j ==> s[k] == '\\'
    ensures Argument(s, i, literal, acc) == Argument(s, j, literal, acc + Backslashes(j - i))
  {
    BackslashEndAt(s, i, j);
  }

  /**
   * A `"` switches the mode and is dropped, except an opening one with no
   * `"` after it, which is kept.
   */
  lemma QuotationMark(s: string, i: nat, literal: bool, acc: string)
    requires i < |s| && s[i] == '"'
    ensures literal ==> Argument(s, i, literal, acc) == Argument(s, i + 1, false, acc)
    ensures !literal && '"' in s[i + 1..] ==> Argument(s, i, literal, acc) == Argument(s, i + 1, true, acc)
    ensures !literal && '"' !in s[i + 1..] ==> Argument(s, i, literal, acc) == Argument(s, i + 1, true, acc + ['"'])
  {
    QuoteEndUnpaired(s, i + 1);
  }

  // ---- the imperative splitter ----

  /** `eat_whitespaces`. */
  method EatWhitespaces(s: string, i: nat) returns (j: nat)
    requires i <= |s|
    ensures j == SkipWhitespace(s, i)
  {
    j := i;
    while IsWhitespace(At(s, j))
      invariant i <= j <= |s| && SkipWhitespace(s, j) == SkipWhitespace(s, i)
      decreases |s| - j
    {
      j := j + 1;
    }
  }

  /** The search for a matching quotation mark, stopping on the terminator. */
  method FindQuote(s: string, i: nat) returns (j: nat)
    requires i <= |s| && NoNul(s)
    ensures j == QuoteEnd(s, i)
  {
    j := i;
    while At(s, j) != '"' && At(s, j) != '\0'
      invariant i <= j <= |s| && QuoteEnd(s, j) == QuoteEnd(s, i)
      decreases |s| - j
    {
      j := j + 1;
    }
  }

  /** The program name loop, with its quoted spans. */
  method ScanProgramName(s: string) returns (name: string, rcursor: nat)
    requires NoNul(s)
    ensures (name, rcursor) == ProgramName(s, 0, [])
  {
    name := [];
    rcursor := 0;
    while !IsWhitespace(At(s, rcursor)) && At(s, rcursor) != '\0'
      invariant rcursor <= |s| && ProgramName(s, rcursor, name) == ProgramName(s, 0, [])
      decreases |s| - rcursor
    {
      if s[rcursor] == '"' {
        var rcopy := FindQuote(s, rcursor + 1);
        assert rcopy == |s| ==> s[rcursor + 1..rcopy] == s[rcursor + 1..];
        name := name + s[rcursor + 1..rcopy];
        rcursor := if rcopy < |s| then rcopy + 1 else rcopy;
      } else {
        name := name + [s[rcursor]];
        rcursor := rcursor + 1;
      }
    }
  }

  /** The loop that writes `count` backslashes. */
  method EmitBackslashes(arg: string, count: nat) returns (r: string)
    ensures r == arg + Backslashes(count)
  {
    r := arg;
    var i := 0;
    while i != count
      invariant i <= count && r == arg + Backslashes(i)
    {
      r := r + ['\\'];
      i := i + 1;
    }
  }

  /** A run of backslashes at `rcursor`, and the quotation mark it may escape. */
  method ScanBackslashes(s: string, rcursor0: nat, literal: bool, arg0: string) returns (arg: string, rcursor: nat)
    requires rcursor0 < |s| && s[rcursor0] == '\\' && NoNul(s)
    ensures rcursor0 < rcursor <= |s|
    ensures Argument(s, rcursor, literal, arg) == Argument(s, rcursor0, literal, arg0)
  {
    var rcopy := rcursor0;
    while At(s, rcopy) == '\\'
      invariant rcursor0 <= rcopy <= |s| && BackslashEnd(s, rcopy) == BackslashEnd(s, rcursor0)
      decreases |s| - rcopy
    {
      rcopy := rcopy + 1;
    }
    var count := rcopy - rcursor0;
    if At(s, rcopy) == '"' {
      arg := EmitBackslashes(arg0, count / 2);
      rcursor := rcopy;
      if count % 2 == 1 {
        arg := arg + ['"'];
        rcursor := rcursor + 1;
      }
    } else {
      arg := EmitBackslashes(arg0, count);
      rcursor := rcopy;
    }
  }

  /** A quotation mark at `rcursor`: it toggles the mode, and an unmatched opening one is kept. */
  method ScanQuote(s: string, rcursor: nat, literal0: bool, arg0: string) returns (arg: string, literal: bool)
    requires rcursor < |s| && s[rcursor] == '"' && NoNul(s)
    ensures Argument(s, rcursor + 1, literal, arg) == Argument(s, rcursor, literal0, arg0)
  {
    arg := arg0;
    if !literal0 {
      var rcopy := FindQuote(s, rcursor + 1);
      if At(s, rcopy) == '\0' {
        arg := arg + ['"'];
      }
    }
    literal := !literal0;
  }

  /** The inner loop of `create_argc_argv`: one argument. */
  method ScanArgument(s: string, start: nat, literal0: bool) returns (arg: string, rcursor: nat, literal: bool)
    requires start <= |s| && NoNul(s)
    ensures (arg, rcursor, literal) == Argument(s, start, literal0, [])
  {
    arg, rcursor, literal := [], start, literal0;
    while (literal || !IsWhitespace(At(s, rcursor))) && At(s, rcursor) != '\0'
      invariant start <= rcursor <= |s|
      invariant Argument(s, rcursor, literal, arg) == Argument(s, start, literal0, [])
      decreases |s| - rcursor
    {
      if s[rcursor] == '\\' {
        arg, rcursor := ScanBackslashes(s, rcursor, literal, arg);
      } else if s[rcursor] == '"' {
        arg, literal := ScanQuote(s, rcursor, literal, arg);
        rcursor := rcursor + 1;
      } else {
        arg := arg + [s[rcursor]];
        rcursor := rcursor + 1;
      }
    }
  }

  /** `create_argc_argv` on the command line `s`: `argc` NUL-terminated arguments. */
  method CreateArgcArgv(s: string) returns (argc: nat, argv: seq<string>)
    requires NoNul(s)
    ensures argv == ParseCommandLine(s) && argc == |argv|
  {
    var name, rcursor := ScanProgramName(s);
    argc := 1;
    argv := [name];
    rcursor := EatWhitespaces(s, rcursor);
    var literal := false;
    while At(s, rcursor) != '\0'
      invariant rcursor <= |s| && (rcursor == |s| || !IsWhitespace(s[rcursor]))
      invariant argv + OtherArguments(s, rcursor, literal) == ParseCommandLine(s)
      invariant argc == |argv|
      decreases |s| - rcursor
    {
      var arg;
      ghost var from := rcursor;
      arg, rcursor, literal := ScanArgument(s, rcursor, literal);
      assert from < rcursor;
      argv := argv + [arg];
      argc := argc + 1;
      rcursor := EatWhitespaces(s, rcursor);
    }
  }

  // ---- the buffers ----

  /** The bytes `create_argc_argv` writes to `g_argv_data`: each argument and its NUL. */
  function Footprint(argv: seq<string>): (n: nat)
    ensures n >= |argv|
  {
    if argv == [] then 0 else |argv[0]| + 1 + Footprint(argv[1..])
  }

  lemma {:induction false} OtherArgumentsBound(s: string, i: nat, literal: bool)
    requires i <= |s| && (i == |s| || !IsWhitespace(s[i]))
    ensures Footprint(OtherArguments(s, i, literal)) <= |s| - i + 1
    ensures 2 * |OtherArguments(s, i, literal)| <= |s| - i + 1
    ensures i == |s| ==> OtherArguments(s, i, literal) == []
    decreases |s| - i
  {
    if i < |s| {
      var arg := Argument(s, i, literal, []);
      var j := SkipWhitespace(s, arg.1);
      OtherArgumentsBound(s, j, arg.2);
      var argv := OtherArguments(s, i, literal);
      assert argv[1..] == OtherArguments(s, j, arg.2);
    }
  }

  /**
   * The arguments and their terminators take at most one byte more than the
   * command line, and there are at most `|s| / 2 + 1` of them: a command
   * line shorter than 4095 characters fits `g_argv_data[4096]` and
   * `g_argv_ptr_data[2048]`.
   */
  lemma {:induction false} ArgvFits(s: string)
    ensures Footprint(ParseCommandLine(s)) <= |s| + 1
    ensures |ParseCommandLine(s)| <= |s| / 2 + 1
    ensures |s| < 4095 ==> Footprint(ParseCommandLine(s)) <= 4096 && |ParseCommandLine(s)| <= 2048
  {
    var name := ProgramName(s, 0, []);
    var j := SkipWhitespace(s, name.1);
    OtherArgumentsBound(s, j, false);
    var argv := ParseCommandLine(s);
    assert argv[1..] == OtherArguments(s, j, false);
  }

  // ---- quoting round trip ----

  /** An argument that can be written between quotation marks as it is. */
  predicate Plain(a: string)
  {
    '"' !in a && '\\' !in a && '\0' !in a
  }

  /** A program name and arguments written out, each between quotation marks, separated by spaces. */
  function Quoted(a: string): string
  {
    ['"'] + a + ['"']
  }

  function JoinArguments(args: seq<string>): (r: string)
    ensures args == [] <==> r == []
    ensures args != [] ==> r[0] == ' '
  {
    if args == [] then [] else [' '] + Quoted(args[0]) + JoinArguments(args[1..])
  }

  function CommandLineOf(name: string, args: seq<string>): string
  {
    Quoted(name) + JoinArguments(args)
  }

  lemma {:induction false} QuoteEndAt(s: string, i: nat, j: nat)
    requires i <= j < |s| && s[j] == '"'
    requires forall k :: i <= k < j ==> s[k] != '"'
    ensures QuoteEnd(s, i) == j
    decreases j - i
  {
    if i < j {
      QuoteEndAt(s, i + 1, j);
    }
  }

  /** Between quotation marks, characters other than `"` and `\` are copied as they are. */
  lemma {:induction false} LiteralRun(s: string, i: nat, j: nat, acc: string)
    requires i <= j <= |s|
    requires forall k :: i <= k < j ==> s[k] != '"' && s[k] != '\\'
    ensures Argument(s, i, true, acc) == Argument(s, j, true, acc + s[i..j])
    decreases j - i
  {
    if i < j {
      LiteralRun(s, i + 1, j, acc + [s[i]]);
      assert acc + [s[i]] + s[i + 1..j] == acc + s[i..j];
    } else {
      assert acc + s[i..j] == acc;
    }
  }

  /** A quoted plain argument at `i`, followed by a space or the end, reads back as itself. */
  lemma QuotedArgument(s: string, i: nat, a: string)
    requires Plain(a) && i + |a| + 2 <= |s| && s[i..i + |a| + 2] == Quoted(a)
    requires i + |a| + 2 == |s| || IsWhitespace(s[i + |a| + 2])
    ensures Argument(s, i, false, []) == (a, i + |a| + 2, false)
  {
    var e := i + |a| + 1;
    assert s[i] == Quoted(a)[0];
    assert s[e] == Quoted(a)[|a| + 1];
    forall k | i + 1 <= k < e ensures s[k] != '"' && s[k] != '\\' && s[k] == a[k - i - 1] {
      assert s[k] == Quoted(a)[k - i];
    }
    QuoteEndAt(s, i + 1, e);
    LiteralRun(s, i + 1, e, []);
    assert [] + s[i + 1..e] == a;
    assert Argument(s, e, true, a) == Argument(s, e + 1, false, a);
    assert Argument(s, e + 1, false, a) == (a, e + 1, false);
    assert Argument(s, i, false, []) == Argument(s, i + 1, true, []);
  }

  lemma SplitSuffix(s: string, i: nat, x: string, y: string)
    requires i <= |s| && s[i..] == x + y
    ensures i + |x| <= |s| && s[i..i + |x|] == x && s[i + |x|..] == y
  {
    assert s[i..][..|x|] == x;
    assert s[i..][|x|..] == y;
  }

  /** The layout of one joined argument at `i`. */
  lemma JoinedLayout(s: string, i: nat, a: string, rest: string)
    requires i <= |s| && s[i..] == [' '] + Quoted(a) + rest
    ensures i + |a| + 3 <= |s| && s[i] == ' ' && s[i + 1..i + |a| + 3] == Quoted(a) && s[i + |a| + 3..] == rest
  {
    SplitSuffix(s, i, [' '] + Quoted(a), rest);
    SplitSuffix(s, i, [' '], Quoted(a) + rest);
    SplitSuffix(s, i + 1, Quoted(a), rest);
    assert s[i..][0] == ' ';
  }

  /** One joined argument at `i` reads back as itself, and the cursor lands on the next one. */
  lemma JoinedStep(s: string, i: nat, a: string, rest: string)
    requires i <= |s| && s[i..] == [' '] + Quoted(a) + rest && Plain(a)
    requires rest == [] || rest[0] == ' '
    ensures i + |a| + 3 <= |s| && s[i + |a| + 3..] == rest
    ensures SkipWhitespace(s, i) == i + 1 && s[i + 1] == '"'
    ensures Argument(s, i + 1, false, []).0 == a
    ensures Argument(s, i + 1, false, []).1 == i + |a| + 3
    ensures !Argument(s, i + 1, false, []).2
  {
    var e := i + |a| + 3;
    JoinedLayout(s, i, a, rest);
    assert s[i + 1] == '"' by { assert s[i + 1..e][0] == Quoted(a)[0]; }
    if e < |s| {
      assert s[e] == ' ' by { assert s[e..][0] == s[e]; }
    }
    QuotedArgument(s, i + 1, a);
  }

  /** One argument read at `i + 1`, followed by the arguments after it. */
  lemma JoinedCons(s: string, i: nat, a: string, e: nat, tail: seq<string>)
    requires i + 1 < e <= |s| && SkipWhitespace(s, i) == i + 1 && s[i + 1] == '"'
    requires Argument(s, i + 1, false, []).0 == a
    requires Argument(s, i + 1, false, []).1 == e
    requires !Argument(s, i + 1, false, []).2
    requires OtherArguments(s, SkipWhitespace(s, e), false) == tail
    ensures OtherArguments(s, SkipWhitespace(s, i), false) == [a] + tail
  {
  }

  lemma JoinedNil(s: string, i: nat)
    requires i <= |s| && s[i..] == []
    ensures OtherArguments(s, SkipWhitespace(s, i), false) == []
  {
    assert i == |s| by { assert |s[i..]| == 0; }
  }

  lemma {:induction false} JoinedArguments(s: string, i: nat, args: seq<string>)
    requires i <= |s| && s[i..] == JoinArguments(args)
    requires forall k :: 0 <= k < |args| ==> Plain(args[k])
    ensures OtherArguments(s, SkipWhitespace(s, i), false) == args
    decreases args
  {
    if args == [] {
      JoinedNil(s, i);
    } else {
      var e := i + |args[0]| + 3;
      JoinedStep(s, i, args[0], JoinArguments(args[1..]));
      JoinedArguments(s, e, args[1..]);
      JoinedCons(s, i, args[0], e, args[1..]);
      assert args == [args[0]] + args[1..];
    }
  }

  /**
   * Splitting undoes joining: a program name and arguments without `"`, `\`
   * or NUL, each written between quotation marks and separated by single
   * spaces, split back into exactly that `argv`.
   */
  /** A program name between quotation marks, followed by a space or the end, is copied without them. */
  lemma QuotedName(s: string, name: string)
    requires Plain(name) && |name| + 2 <= |s| && s[..|name| + 2] == Quoted(name)
    requires |name| + 2 == |s| || IsWhitespace(s[|name| + 2])
    ensures ProgramName(s, 0, []).0 == name && ProgramName(s, 0, []).1 == |name| + 2
  {
    var e := |name| + 2;
    forall k | 1 <= k < e - 1 ensures s[k] != '"' && s[k] == name[k - 1] {
      assert s[k] == Quoted(name)[k];
    }
    assert s[0] == Quoted(name)[0] && s[e - 1] == Quoted(name)[e - 1];
    QuoteEndAt(s, 1, e - 1);
    assert [] + s[1..e - 1] == name;
    assert ProgramName(s, 0, []) == ProgramName(s, e, [] + s[1..e - 1]);
  }

  /**
   * Splitting undoes joining: a program name and arguments without `"`, `\`
   * or NUL, each written between quotation marks and separated by single
   * spaces, split back into exactly that `argv`.
   */
  lemma QuotedRoundTrip(name: string, args: seq<string>)
    requires Plain(name) && forall k :: 0 <= k < |args| ==> Plain(args[k])
    ensures ParseCommandLine(CommandLineOf(name, args)) == [name] + args
  {
    var s := CommandLineOf(name, args);
    var e := |name| + 2;
    assert s[..e] == Quoted(name);
    assert s[e..] == JoinArguments(args);
    if e < |s| {
      assert s[e] == JoinArguments(args)[0];
    }
    QuotedName(s, name);
    JoinedArguments(s, e, args);
  }

  // ---- the program-name loop as written ----

  /** Where the program-name loop as written ends: on whitespace, or past the terminator. */
  datatype NameScan = NameEnd(name: string, cursor: nat) | ReadsPastEnd

  /**
   * The program-name loop as written: it tests only for whitespace, and its
   * search for the closing quotation mark only for `"`, so both go on past
   * the terminator when they reach it.
   */
  function ProgramNameAsWritten(s: string, i: nat, acc: string): (r: NameScan)
    requires i <= |s|
    ensures r.NameEnd? ==> i <= r.cursor < |s| && IsWhitespace(s[r.cursor])
    decreases |s| - i
  {
    if IsWhitespace(At(s, i)) then NameEnd(acc, i)
    else if i == |s| then ReadsPastEnd
    else if s[i] == '"' then
      var close := QuoteEnd(s, i + 1);
      if close == |s| then ReadsPastEnd
      else ProgramNameAsWritten(s, close + 1, acc + s[i + 1..close])
    else ProgramNameAsWritten(s, i + 1, acc + [s[i]])
  }

  /**
   * The loop as written reads past the terminator exactly when the name,
   * with its quoted spans, runs to the end of the command line; otherwise
   * it agrees with the scan that stops on the terminator.
   */
  lemma {:induction false} NameOverrun(s: string, i: nat, acc: string)
    requires i <= |s|
    ensures ProgramNameAsWritten(s, i, acc).ReadsPastEnd? <==> ProgramName(s, i, acc).1 == |s|
    ensures ProgramNameAsWritten(s, i, acc).NameEnd? ==>
      ProgramNameAsWritten(s, i, acc).name == ProgramName(s, i, acc).0 &&
      ProgramNameAsWritten(s, i, acc).cursor == ProgramName(s, i, acc).1
    decreases |s| - i
  {
    if i < |s| && !IsWhitespace(s[i]) {
      if s[i] == '"' {
        var close := QuoteEnd(s, i + 1);
        if close < |s| {
          NameOverrun(s, close + 1, acc + s[i + 1..close]);
        }
      } else {
        NameOverrun(s, i + 1, acc + [s[i]]);
      }
    }
  }

  /** A command line holding only the quoted program name, as for a start without arguments, is read past its end. */
  lemma NoArgumentsOverrun(name: string)
    requires Plain(name)
    ensures ProgramNameAsWritten(CommandLineOf(name, []), 0, []).ReadsPastEnd?
    ensures ParseCommandLine(CommandLineOf(name, [])) == [name]
  {
    var s := CommandLineOf(name, []);
    assert s[..|name| + 2] == Quoted(name);
    QuotedName(s, name);
    NameOverrun(s, 0, []);
    QuotedRoundTrip(name, []);
  }
}
