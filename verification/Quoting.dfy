/** Windows command-line quoting and the parser it has to survive
    (agent-rust/src/platform/winquote.rs). Strings are sequences of Unicode scalars. */
module Quoting {

  // ---------------------------------------------------------------- quoting

  predicate ForcesQuotes(c: char) {
    c == ' ' || c == '\t' || c == '\n' || c == '\U{000B}' || c == '\"'
  }

  predicate NeedsQuotes(arg: string) {
    arg == "" || exists i :: 0 <= i < |arg| && ForcesQuotes(arg[i])
  }

  function Slashes(n: nat): (s: string)
    ensures |s| == n && forall i :: 0 <= i < n ==> s[i] == '\\'
  {
    if n == 0 then "" else Slashes(n - 1) + "\\"
  }

  /** What is still to be written once `pending` backslashes have been read but not written and
      `rest` is left to read, closing quote included. */
  function Tail(rest: string, pending: nat): string {
    if rest == "" then Slashes(2 * pending) + "\""
    else if rest[0] == '\\' then Tail(rest[1..], pending + 1)
    else if rest[0] == '\"' then Slashes(2 * pending + 1) + "\"" + Tail(rest[1..], 0)
    else Slashes(pending) + [rest[0]] + Tail(rest[1..], 0)
  }

  function Quoted(arg: string): string {
    if NeedsQuotes(arg) then "\"" + Tail(arg, 0) else arg
  }

  /** `quote_command_line`: the quoted arguments joined by single spaces. */
  function CommandLine(args: seq<string>): string {
    if |args| == 0 then ""
    else if |args| == 1 then Quoted(args[0])
    else Quoted(args[0]) + " " + CommandLine(args[1..])
  }

  method QuoteArg(arg: string) returns (out: string)
    ensures out == Quoted(arg)
  {
    if !NeedsQuotes(arg) {
      return arg;
    }
    out := "\"";
    var backslashes := 0;
    for i := 0 to |arg|
      invariant backslashes >= 0
      invariant out + Tail(arg[i..], backslashes) == Quoted(arg)
    {
      assert arg[i..][1..] == arg[i + 1..];
      ghost var before := out;
      if arg[i] == '\\' {
        backslashes := backslashes + 1;
      } else if arg[i] == '\"' {
        out := out + Slashes(backslashes * 2 + 1) + "\"";
        assert out + Tail(arg[i + 1..], 0) == before + Tail(arg[i..], backslashes);
        backslashes := 0;
      } else {
        out := out + Slashes(backslashes) + [arg[i]];
        assert out + Tail(arg[i + 1..], 0) == before + Tail(arg[i..], backslashes);
        backslashes := 0;
      }
    }
    out := out + Slashes(backslashes * 2) + "\"";
  }

  // ---------------------------------------------------------------- what is written, character by character

  /** Backslashes only, up to a quote or the end. */
  predicate RunsIntoQuote(s: string) {
    s == "" || s[0] == '\"' || (s[0] == '\\' && RunsIntoQuote(s[1..]))
  }

  /** The argument with one backslash in front of every quote and of every backslash that only other
      backslashes separate from a quote or from the end. */
  function Escaped(s: string): string {
    if s == "" then ""
    else if s[0] == '\"' || (s[0] == '\\' && RunsIntoQuote(s[1..])) then ['\\', s[0]] + Escaped(s[1..])
    else [s[0]] + Escaped(s[1..])
  }

  lemma {:induction false} TailEscapes(s: string, pending: nat)
    ensures Tail(s, pending) == Slashes(if RunsIntoQuote(s) then 2 * pending else pending) + Escaped(s) + "\""
    decreases |s|
  {
    if s != "" {
      var next := if s[0] == '\\' then pending + 1 else 0;
      TailEscapes(s[1..], next);
      var n := if RunsIntoQuote(s) then 2 * pending else pending;
      var e := Escaped(s[1..]);
      TailUnfolds(s, pending);
      MoreSlashes(n);
      hide Tail, Slashes;
      if s[0] == '\\' {
        var one := if RunsIntoQuote(s) then "\\\\" else "\\";
        Reassociate(Slashes(n), one, e, "\"");
      } else {
        var one := if s[0] == '\"' then "\\\"" else [s[0]];
        assert "" + e == e;
        Reassociate(Slashes(n), one, e, "\"");
      }
    }
  }

  lemma MoreSlashes(n: nat)
    ensures Slashes(n + 1) == Slashes(n) + "\\" && Slashes(n + 2) == Slashes(n) + "\\\\"
  {
  }

  lemma Reassociate(a: string, b: string, c: string, d: string)
    ensures a + (b + c) + d == a + b + (c + d) && a + b + c + d == a + (b + c) + d
  {
  }

  lemma TailUnfolds(s: string, pending: nat)
    requires s != ""
    ensures Slashes(0) == ""
    ensures Tail(s, pending) ==
            if s[0] == '\\' then Tail(s[1..], pending + 1)
            else if s[0] == '\"' then Slashes(2 * pending) + "\\\"" + Tail(s[1..], 0)
            else Slashes(pending) + [s[0]] + Tail(s[1..], 0)
  {
    assert Slashes(2 * pending + 1) + "\"" == Slashes(2 * pending) + "\\\"";
  }

  /** The counting loop writes what could be decided at each character alone: quotes around the escaped
      argument, and nothing at all where an argument can stand for itself, which is if and only if it
      is not empty and free of spaces, tabs, line feeds, vertical tabs and quotes. */
  lemma QuotedIs(arg: string)
    ensures var plain := arg != "" && forall i :: 0 <= i < |arg| ==>
                           arg[i] != ' ' && arg[i] != '\t' && arg[i] != '\n' && arg[i] != '\U{000B}' && arg[i] != '\"';
            Quoted(arg) == (if plain then arg else "\"" + Escaped(arg) + "\"") && (Quoted(arg) == arg <==> plain)
  {
    TailEscapes(arg, 0);
    assert Slashes(0) + Escaped(arg) == Escaped(arg);
    EscapedNotShorter(arg);
  }

  lemma {:induction false} EscapedNotShorter(s: string)
    ensures |Escaped(s)| >= |s|
  {
    if s != "" {
      EscapedNotShorter(s[1..]);
    }
  }

  /** A line of one argument is that argument, quoted; otherwise, wherever the line is cut, there is one
      space in between. */
  lemma {:induction false} JoinedBySpaces(a: seq<string>, b: seq<string>)
    requires a != [] && b != []
    ensures CommandLine([]) == "" && (|a| == 1 ==> CommandLine(a) == Quoted(a[0]))
    ensures CommandLine(a + b) == CommandLine(a) + " " + CommandLine(b)
    decreases |a|
  {
    if |a| > 1 {
      assert (a + b)[1..] == a[1..] + b;
      JoinedBySpaces(a[1..], b);
    } else {
      assert (a + b)[1..] == b;
    }
  }

  // ---------------------------------------------------------------- parsing

  /** Quoting state of a scan. `Closing` is used by the CRT reading only: the previous character
      was an unescaped quote that closed the region unless another quote follows at once. */
  datatype Mode = Outside | Inside | Closing

  /** A scan of a command line, one character at a time: finished arguments, text of the current
      one, backslashes read but not yet interpreted, whether an argument has been started, the
      quoting state, and how often the doubled-quote rule has applied. */
  datatype Scan = Scan(args: seq<string>, current: string, slashes: nat, started: bool, mode: Mode, pairs: nat)

  function Fresh(args: seq<string>): Scan {
    Scan(args, "", 0, false, Outside, 0)
  }

  function Push(st: Scan, text: string): Scan {
    st.(current := st.current + text, started := true)
  }

  /** Backslashes that no quote follows are literal. */
  function Flush(st: Scan): Scan {
    st.(current := st.current + Slashes(st.slashes), slashes := 0)
  }

  function EndArgument(st: Scan): Scan {
    if st.started then st.(args := st.args + [st.current], current := "", started := false, mode := Outside)
    else st.(mode := Outside)
  }

  /** A quote: after an odd number of backslashes it is literal, otherwise it switches quoting.
      With `doubled` (the CRT's extra rule) a second quote right after a closing one is literal
      and stays inside the region. */
  function OnQuote(doubled: bool, st: Scan): Scan {
    var half := st.(current := st.current + Slashes(st.slashes / 2), slashes := 0, started := true);
    if st.slashes % 2 == 1 then Push(half, "\"").(mode := if st.mode == Inside then Inside else Outside)
    else match st.mode
         case Outside => half.(mode := Inside)
         case Inside => half.(mode := if doubled then Closing else Outside)
         case Closing => Push(half, "\"").(mode := Inside, pairs := st.pairs + 1)
  }

  function Step(doubled: bool, st: Scan, c: char): Scan {
    if c == '\"' then OnQuote(doubled, st)
    else if c == '\\' then
      st.(slashes := st.slashes + 1, started := true, mode := if st.mode == Inside then Inside else Outside)
    else if (c == ' ' || c == '\t') && st.mode != Inside then EndArgument(Flush(st))
    else Push(Flush(st), [c]).(mode := if st.mode == Inside then Inside else Outside)
  }

  function Scanned(doubled: bool, line: string, st: Scan): Scan {
    if line == "" then st else Scanned(doubled, line[1..], Step(doubled, st, line[0]))
  }

  function Finish(st: Scan): seq<string> {
    if st.started then st.args + [Flush(st).current] else st.args
  }

  function Parse(doubled: bool, line: string): seq<string> {
    Finish(Scanned(doubled, line, Fresh([])))
  }

  /** What the plain reading makes of the rest of a line. */
  function Rest(line: string, i: nat, st: Scan): seq<string>
    requires i <= |line|
  {
    Finish(Scanned(false, line[i..], st))
  }

  lemma Advance(line: string, i: nat, st: Scan)
    requires i < |line|
    ensures Rest(line, i, st) == Rest(line, i + 1, Step(false, st, line[i]))
  {
    assert line[i..][1..] == line[i + 1..];
  }

  /** Interpreting a run of backslashes early, as the reference parser does on peeking a character
      that is neither a backslash nor a quote, changes nothing. */
  lemma FlushEarly(line: string, i: nat, st: Scan)
    requires i <= |line| && (i < |line| ==> line[i] != '\\' && line[i] != '\"')
    ensures Rest(line, i, Flush(st)) == Rest(line, i, st)
  {
    assert Flush(Flush(st)) == Flush(st) by {
      assert Flush(st).current + Slashes(0) == Flush(st).current;
    }
  }

  /** The parser's variables, with a run of `slashes` backslashes just read. */
  function ParserState(args: seq<string>, current: string, slashes: nat, started: bool, inQuotes: bool): Scan {
    Scan(args, current, slashes, started, if inQuotes then Inside else Outside, 0)
  }

  /** One step of the plain scan in the parser's variables. */
  lemma StepOfParser(args: seq<string>, current: string, started: bool, inQuotes: bool, c: char)
    ensures Step(false, ParserState(args, current, 0, started, inQuotes), c) ==
            if c == '\"' then ParserState(args, current, 0, true, !inQuotes)
            else if c == '\\' then ParserState(args, current, 1, true, inQuotes)
            else if (c == ' ' || c == '\t') && !inQuotes then
              if started then ParserState(args + [current], "", 0, false, false) else ParserState(args, current, 0, false, false)
            else ParserState(args, current + [c], 0, true, inQuotes)
  {
    assert current + Slashes(0) == current;
  }

  /** The same after a run of backslashes. */
  lemma StepOfRun(args: seq<string>, current: string, slashes: nat, inQuotes: bool)
    ensures Step(false, ParserState(args, current, slashes, true, inQuotes), '\\')
         == ParserState(args, current, slashes + 1, true, inQuotes)
    ensures Step(false, ParserState(args, current, slashes, true, inQuotes), '\"') ==
            if slashes % 2 == 1 then ParserState(args, current + Slashes(slashes / 2) + "\"", 0, true, inQuotes)
            else ParserState(args, current + Slashes(slashes / 2), 0, true, !inQuotes)
  {
  }

  /** `parse_command_line`, the reference parser: no doubled-quote rule, and a peeking inner loop
      that swallows a whole run of backslashes before deciding what it means. */
  method ParseCommandLine(line: string) returns (args: seq<string>)
    ensures args == Parse(false, line)
  {
    hide Step, Rest, Slashes;
    args := [];
    var current, started, inQuotes := "", false, false;
    var i := 0;
    WholeLine(line);
    while i < |line|
      invariant 0 <= i <= |line|
      invariant Rest(line, i, ParserState(args, current, 0, started, inQuotes)) == Parse(false, line)
    {
      var c := line[i];
      Advance(line, i, ParserState(args, current, 0, started, inQuotes));
      StepOfParser(args, current, started, inQuotes, c);
      i := i + 1;
      if (c == ' ' || c == '\t') && !inQuotes {
        if started {
          args := args + [current];
          current, started := "", false;
        }
      } else if c == '\\' {
        var slashes := 1;
        started := true;
        while i < |line| && line[i] == '\\'
          invariant 0 <= i <= |line| && slashes >= 1
          invariant Rest(line, i, ParserState(args, current, slashes, true, inQuotes)) == Parse(false, line)
        {
          Advance(line, i, ParserState(args, current, slashes, true, inQuotes));
          StepOfRun(args, current, slashes, inQuotes);
          i := i + 1;
          slashes := slashes + 1;
        }
        if i < |line| && line[i] == '\"' {
          Advance(line, i, ParserState(args, current, slashes, true, inQuotes));
          StepOfRun(args, current, slashes, inQuotes);
          i := i + 1;
          current := current + Slashes(slashes / 2);
          if slashes % 2 == 1 {
            current := current + "\"";
          } else {
            inQuotes := !inQuotes;
          }
        } else {
          FlushEarly(line, i, ParserState(args, current, slashes, true, inQuotes));
          current := current + Slashes(slashes);
        }
      } else if c == '\"' {
        started := true;
        inQuotes := !inQuotes;
      } else {
        started := true;
        current := current + [c];
      }
    }
    EndOfLine(line, args, current, started, inQuotes);
    if started {
      args := args + [current];
    }
  }

  lemma WholeLine(line: string)
    ensures Rest(line, 0, ParserState([], "", 0, false, false)) == Parse(false, line)
  {
    assert line[0..] == line;
  }

  lemma EndOfLine(line: string, args: seq<string>, current: string, started: bool, inQuotes: bool)
    ensures Rest(line, |line|, ParserState(args, current, 0, started, inQuotes)) == if started then args + [current] else args
  {
    assert current + Slashes(0) == current;
  }

  // ---------------------------------------------------------------- the round trip

  lemma {:induction false} ScanAppend(doubled: bool, a: string, b: string, st: Scan)
    ensures Scanned(doubled, a + b, st) == Scanned(doubled, b, Scanned(doubled, a, st))
    decreases |a|
  {
    if a == "" {
      assert a + b == b;
    } else {
      assert (a + b)[1..] == a[1..] + b;
      ScanAppend(doubled, a[1..], b, Step(doubled, st, a[0]));
    }
  }

  lemma ScanOne(doubled: bool, c: char, st: Scan)
    ensures Scanned(doubled, [c], st) == Step(doubled, st, c)
  {
    assert [c][1..] == "";
  }

  /** Inside quotes a run of backslashes is only counted. */
  lemma {:induction false} ScanSlashes(doubled: bool, n: nat, st: Scan)
    requires st.mode == Inside && st.started
    ensures Scanned(doubled, Slashes(n), st) == st.(slashes := st.slashes + n)
    decreases n
  {
    if n > 0 {
      ScanSlashes(doubled, n - 1, st);
      ScanAppend(doubled, Slashes(n - 1), "\\", st);
      ScanOne(doubled, '\\', st.(slashes := st.slashes + n - 1));
    }
  }

  /** `n` backslashes and one more character, inside quotes. */
  lemma ScanSlashesThen(doubled: bool, n: nat, c: char, rest: string, st: Scan)
    requires st.mode == Inside && st.started && st.slashes == 0
    ensures Scanned(doubled, Slashes(n) + [c] + rest, st)
         == Scanned(doubled, rest, Step(doubled, st.(slashes := n), c))
  {
    ScanAppend(doubled, Slashes(n) + [c], rest, st);
    ScanAppend(doubled, Slashes(n), [c], st);
    ScanSlashes(doubled, n, st);
    ScanOne(doubled, c, st.(slashes := n));
  }

  /** An argument has been read: `text` is its value and the scan is outside quotes. */
  ghost predicate Holding(st: Scan, args: seq<string>, text: string) {
    st.args == args && st.started && st.mode != Inside && st.current + Slashes(st.slashes) == text && st.pairs == 0
  }

  /** The closing quote after `2n` backslashes, an escaped quote after `2n + 1`, any other character
      after `n`. */
  lemma StepAfterSlashes(doubled: bool, n: nat, c: char, st: Scan)
    requires st.mode == Inside && st.started
    ensures Step(doubled, st.(slashes := 2 * n), '\"')
         == st.(current := st.current + Slashes(n), slashes := 0, mode := if doubled then Closing else Outside)
    ensures Step(doubled, st.(slashes := 2 * n + 1), '\"') == st.(current := st.current + Slashes(n) + "\"", slashes := 0)
    ensures c != '\"' && c != '\\' ==>
              Step(doubled, st.(slashes := n), c) == st.(current := st.current + Slashes(n) + [c], slashes := 0)
  {
    assert (2 * n) / 2 == n && (2 * n + 1) / 2 == n;
  }

  lemma Regroup(a: string, b: string, c: string, d: string)
    ensures a + b + (c + d) == a + (b + c) + d == a + b + c + d
  {
  }

  /** The key invariant: scanning what the quoting loop still has to write yields the pending
      backslashes followed by the unread characters, and leaves the quoted region. */
  lemma {:induction false} TailScans(doubled: bool, s: string, pending: nat, st: Scan)
    requires st.mode == Inside && st.started && st.slashes == 0 && st.pairs == 0
    ensures Holding(Scanned(doubled, Tail(s, pending), st), st.args, st.current + Slashes(pending) + s)
    decreases |s|
  {
    hide Step;
    if s == "" {
      StepAfterSlashes(doubled, pending, ' ', st);
      assert Slashes(2 * pending) + "\"" == Slashes(2 * pending) + ['\"'] + "";
      ScanSlashesThen(doubled, 2 * pending, '\"', "", st);
    } else {
      assert s == [s[0]] + s[1..];
      Regroup(st.current, Slashes(pending), [s[0]], s[1..]);
      if s[0] == '\\' {
        TailScans(doubled, s[1..], pending + 1, st);
      } else {
        var slashes := if s[0] == '\"' then 2 * pending + 1 else pending;
        StepAfterSlashes(doubled, pending, s[0], st);
        ScanSlashesThen(doubled, slashes, s[0], Tail(s[1..], 0), st);
        var st' := Step(doubled, st.(slashes := slashes), s[0]);
        TailScans(doubled, s[1..], 0, st');
        assert st'.current + Slashes(0) == st'.current;
      }
    }
  }

  /** Text that needs no quotes is read back verbatim. */
  lemma {:induction false} PlainScans(doubled: bool, s: string, args: seq<string>, before: string, st: Scan)
    requires forall i :: 0 <= i < |s| ==> !ForcesQuotes(s[i])
    requires Holding(st, args, before)
    ensures Holding(Scanned(doubled, s, st), args, before + s)
    decreases |s|
  {
    if s == "" {
      assert before + s == before;
    } else {
      var st' := Step(doubled, st, s[0]);
      assert st'.current + Slashes(st'.slashes) == before + [s[0]];
      PlainScans(doubled, s[1..], args, before + [s[0]], st');
      assert before + [s[0]] + s[1..] == before + s;
    }
  }

  /** One quoted argument is read back as exactly that argument. */
  lemma QuotedScans(doubled: bool, arg: string, args: seq<string>)
    ensures Holding(Scanned(doubled, Quoted(arg), Fresh(args)), args, arg)
  {
    if NeedsQuotes(arg) {
      var st := Fresh(args).(started := true, mode := Inside);
      assert Step(doubled, Fresh(args), '\"') == st;
      assert Quoted(arg)[1..] == Tail(arg, 0);
      TailScans(doubled, arg, 0, st);
      assert "" + Slashes(0) + arg == arg;
    } else {
      var st := Step(doubled, Fresh(args), arg[0]);
      assert st.current + Slashes(st.slashes) == [arg[0]];
      PlainScans(doubled, arg[1..], args, [arg[0]], st);
      assert [arg[0]] + arg[1..] == arg;
    }
  }

  /** The space between two arguments ends the first one. */
  lemma SpaceEnds(doubled: bool, st: Scan, args: seq<string>, text: string)
    requires Holding(st, args, text)
    ensures Step(doubled, st, ' ') == Fresh(args + [text])
  {
  }

  lemma {:induction false} LineScans(doubled: bool, args: seq<string>, before: seq<string>)
    ensures Finish(Scanned(doubled, CommandLine(args), Fresh(before))) == before + args
    decreases |args|
  {
    if |args| == 1 {
      QuotedScans(doubled, args[0], before);
    } else if |args| > 1 {
      var rest := CommandLine(args[1..]);
      var st := Scanned(doubled, Quoted(args[0]), Fresh(before));
      QuotedScans(doubled, args[0], before);
      ScanAppend(doubled, Quoted(args[0]) + " ", rest, Fresh(before));
      ScanAppend(doubled, Quoted(args[0]), " ", Fresh(before));
      ScanOne(doubled, ' ', st);
      SpaceEnds(doubled, st, before, args[0]);
      LineScans(doubled, args[1..], before + [args[0]]);
      assert before + [args[0]] + args[1..] == before + args;
    }
  }

  /** For every list of strings and under either reading of `""`, the parser gives back exactly
      the list that was quoted. */
  lemma RoundTrip(doubled: bool, args: seq<string>)
    ensures Parse(doubled, CommandLine(args)) == args
  {
    LineScans(doubled, args, []);
  }

  /** The call site: the line is the parameter tail of a program name that needs no quotes. */
  lemma RoundTripAfterProgram(doubled: bool, prog: string, args: seq<string>)
    requires !NeedsQuotes(prog)
    ensures Parse(doubled, prog + " " + CommandLine(args)) == [prog] + args
  {
    QuotedScans(doubled, prog, []);
    var st := Scanned(doubled, prog, Fresh([]));
    ScanAppend(doubled, prog + " ", CommandLine(args), Fresh([]));
    ScanAppend(doubled, prog, " ", Fresh([]));
    ScanOne(doubled, ' ', st);
    SpaceEnds(doubled, st, [], prog);
    assert [] + [prog] == [prog];
    LineScans(doubled, args, [prog]);
  }

  // ---------------------------------------------------------------- the doubled-quote rule

  /** The plain scan of the first `n` characters of a line. */
  function PlainScan(line: string, n: nat): Scan
    requires n <= |line|
  {
    Scanned(false, line[..n], Fresh([]))
  }

  /** A bare `""` inside a quoted region starts at `i`: two quotes, neither escaped, the first of
      which closes a region that the plain reading is in. */
  predicate BarePairAt(line: string, i: nat)
    requires i < |line|
  {
    && line[i] == '\"' && i + 1 < |line| && line[i + 1] == '\"'
    && PlainScan(line, i).mode == Inside && PlainScan(line, i).slashes % 2 == 0
  }

  /** How many of them start within the first `n` characters. */
  function BarePairs(line: string, n: nat): nat
    requires n <= |line|
  {
    if n == 0 then 0 else BarePairs(line, n - 1) + if BarePairAt(line, n - 1) then 1 else 0
  }

  function TotalLength(args: seq<string>): nat {
    if args == [] then 0 else TotalLength(args[..|args| - 1]) + |args[|args| - 1]|
  }

  lemma TotalLengthSnoc(args: seq<string>, a: string)
    ensures TotalLength(args + [a]) == TotalLength(args) + |a|
  {
    assert (args + [a])[..|args|] == args;
  }

  /** The CRT scan `s` and the plain scan `t` of one line run in lockstep; `s` has collected one
      more character per application of the rule. */
  ghost predicate Lockstep(s: Scan, t: Scan) {
    && s.slashes == t.slashes && s.started == t.started
    && (s.mode == Inside <==> t.mode == Inside) && t.mode != Closing
    && (s.mode == Closing ==> s.slashes == 0)
    && (!s.started ==> s.current == "" && t.current == "" && s.slashes == 0)
    && TotalLength(s.args) + |s.current| == TotalLength(t.args) + |t.current| + s.pairs
    && (s.pairs == 0 ==> s.args == t.args && s.current == t.current)
  }

  lemma LockstepQuote(s: Scan, t: Scan)
    requires Lockstep(s, t)
    ensures Lockstep(OnQuote(true, s), OnQuote(false, t))
  {
    assert s.slashes == 0 ==> s.current + Slashes(s.slashes / 2) == s.current;
  }

  lemma LockstepEnd(s: Scan, t: Scan)
    requires Lockstep(s, t) && s.mode != Inside
    ensures Lockstep(EndArgument(Flush(s)), EndArgument(Flush(t)))
  {
    TotalLengthSnoc(s.args, Flush(s).current);
    TotalLengthSnoc(t.args, Flush(t).current);
    assert s.current + Slashes(0) == s.current && t.current + Slashes(0) == t.current;
  }

  lemma LockstepStep(s: Scan, t: Scan, c: char)
    requires Lockstep(s, t)
    ensures Lockstep(Step(true, s, c), Step(false, t, c))
  {
    if c == '\"' {
      LockstepQuote(s, t);
    } else if (c == ' ' || c == '\t') && s.mode != Inside {
      LockstepEnd(s, t);
    }
  }

  lemma {:induction false} LockstepRun(line: string, s: Scan, t: Scan)
    requires Lockstep(s, t)
    ensures Lockstep(Scanned(true, line, s), Scanned(false, line, t))
    decreases |line|
  {
    if line != "" {
      LockstepStep(s, t, line[0]);
      LockstepRun(line[1..], Step(true, s, line[0]), Step(false, t, line[0]));
    }
  }

  lemma ScanSnoc(doubled: bool, line: string, n: nat)
    requires n < |line|
    ensures Scanned(doubled, line[..n + 1], Fresh([])) == Step(doubled, Scanned(doubled, line[..n], Fresh([])), line[n])
  {
    assert line[..n + 1] == line[..n] + [line[n]];
    ScanAppend(doubled, line[..n], [line[n]], Fresh([]));
    ScanOne(doubled, line[n], Scanned(doubled, line[..n], Fresh([])));
  }

  /** The CRT rule applies at the second quote of each bare pair and nowhere else. */
  lemma {:induction false} RuleAppliesAtPairs(line: string, n: nat)
    requires n <= |line|
    ensures var s := Scanned(true, line[..n], Fresh([]));
            s.pairs + (if s.mode == Closing && n < |line| && line[n] == '\"' then 1 else 0) == BarePairs(line, n)
    decreases n
  {
    hide EndArgument, Flush;
    if n > 0 {
      RuleAppliesAtPairs(line, n - 1);
      LockstepRun(line[..n - 1], Fresh([]), Fresh([]));
      ScanSnoc(true, line, n - 1);
      PairsOfStep(Scanned(true, line[..n - 1], Fresh([])), line[n - 1]);
    }
  }

  lemma PairsOfStep(s: Scan, c: char)
    requires s.mode == Closing ==> s.slashes == 0
    ensures var s' := Step(true, s, c);
            && (s'.mode == Closing <==> c == '\"' && s.mode == Inside && s.slashes % 2 == 0)
            && s'.pairs == s.pairs + if c == '\"' && s.mode == Closing then 1 else 0
  {
  }

  /** On any line the CRT reading yields exactly one extra character per bare `""` inside a quoted
      region; hence the two readings agree if and only if there is no such pair. */
  lemma ReadingsAgreeIff(line: string)
    ensures TotalLength(Parse(true, line)) == TotalLength(Parse(false, line)) + BarePairs(line, |line|)
    ensures Parse(true, line) == Parse(false, line) <==> forall i: nat | i < |line| :: !BarePairAt(line, i)
  {
    LockstepRun(line, Fresh([]), Fresh([]));
    var s, t := Scanned(true, line, Fresh([])), Scanned(false, line, Fresh([]));
    TotalLengthSnoc(s.args, Flush(s).current);
    TotalLengthSnoc(t.args, Flush(t).current);
    assert line[..|line|] == line;
    RuleAppliesAtPairs(line, |line|);
    NoPairsIff(line, |line|);
  }

  lemma {:induction false} NoPairsIff(line: string, n: nat)
    requires n <= |line|
    ensures BarePairs(line, n) == 0 <==> forall i: nat | i < n :: !BarePairAt(line, i)
    decreases n
  {
    if n > 0 {
      NoPairsIff(line, n - 1);
    }
  }

  /** The quoting never emits a bare `""` inside a quoted region. */
  lemma QuotingEmitsNoPair(args: seq<string>)
    ensures var line := CommandLine(args);
            (forall i: nat | i < |line| :: !BarePairAt(line, i)) && Parse(true, line) == Parse(false, line)
  {
    RoundTrip(true, args);
    RoundTrip(false, args);
    ReadingsAgreeIff(CommandLine(args));
  }

  /** The CRT's own way to write a quote inside a quoted region: twice. */
  function Doubled(s: string): string {
    if s == "" then "" else OneDoubled(s[0]) + Doubled(s[1..])
  }

  function WithoutQuotes(s: string): string {
    if s == "" then "" else (if s[0] == '\"' then "" else [s[0]]) + WithoutQuotes(s[1..])
  }

  function OneDoubled(c: char): string {
    if c == '\"' then "\"\"" else [c]
  }

  function OneRead(doubled: bool, c: char): string {
    if c == '\"' && !doubled then "" else [c]
  }

  function Read(doubled: bool, s: string): string {
    if doubled then s else WithoutQuotes(s)
  }

  /** Inside a quoted region, having read `text` more than `st`. */
  ghost predicate Has(end: Scan, st: Scan, text: string) {
    end.mode == Inside && end.started && end.slashes == 0 && end.args == st.args && end.current == st.current + text
  }

  lemma {:induction false} DoubledScans(doubled: bool, s: string, st: Scan)
    requires st.mode == Inside && st.started && st.slashes == 0 && forall i :: 0 <= i < |s| ==> s[i] != '\\'
    ensures Has(Scanned(doubled, Doubled(s), st), st, Read(doubled, s))
    decreases |s|
  {
    hide Step;
    if s == "" {
      assert st.current + "" == st.current;
    } else {
      var mid := Scanned(doubled, OneDoubled(s[0]), st);
      ScanAppend(doubled, OneDoubled(s[0]), Doubled(s[1..]), st);
      ScanFirst(doubled, s[0], st);
      DoubledScans(doubled, s[1..], mid);
      assert [s[0]] + s[1..] == s;
      hide Scanned;
      Joined(st.current, OneRead(doubled, s[0]), Read(doubled, s[1..]));
    }
  }

  lemma Joined(a: string, b: string, c: string)
    ensures a + b + c == a + (b + c)
  {
  }

  /** A doubled quote, or any other character, inside a quoted region. */
  lemma ScanFirst(doubled: bool, c: char, st: Scan)
    requires st.mode == Inside && st.started && st.slashes == 0 && c != '\\'
    ensures Has(Scanned(doubled, OneDoubled(c), st), st, OneRead(doubled, c))
  {
    assert st.current + Slashes(0) == st.current && st.current + "" == st.current;
    if c == '\"' {
      ScanAppend(doubled, "\"", "\"", st);
      ScanOne(doubled, '\"', st);
      ScanOne(doubled, '\"', Step(doubled, st, '\"'));
      hide Scanned;
      assert OneDoubled(c) == "\"" + "\"";
    } else {
      ScanOne(doubled, c, st);
    }
  }

  /** What the rule is: quotes that are doubled inside a quoted region are read back by the CRT and
      vanish under the plain reading. */
  lemma DoubledQuotesRead(s: string)
    requires forall i :: 0 <= i < |s| ==> s[i] != '\\'
    ensures Parse(true, "\"" + Doubled(s) + "\"") == [s]
    ensures Parse(false, "\"" + Doubled(s) + "\"") == [WithoutQuotes(s)]
  {
    DoubledLine(true, s);
    DoubledLine(false, s);
  }

  lemma DoubledLine(doubled: bool, s: string)
    requires forall i :: 0 <= i < |s| ==> s[i] != '\\'
    ensures Parse(doubled, "\"" + Doubled(s) + "\"") == [Read(doubled, s)]
  {
    var st := Fresh([]).(started := true, mode := Inside);
    assert Step(doubled, Fresh([]), '\"') == st;
    hide Doubled, Read;
    ScanOne(doubled, '\"', Fresh([]));
    ScanAppend(doubled, "\"" + Doubled(s), "\"", Fresh([]));
    ScanAppend(doubled, "\"", Doubled(s), Fresh([]));
    DoubledScans(doubled, s, st);
    var end := Scanned(doubled, Doubled(s), st);
    ScanOne(doubled, '\"', end);
    hide Scanned;
    ClosesRegion(doubled, end, Read(doubled, s));
  }

  lemma ClosesRegion(doubled: bool, end: Scan, text: string)
    requires Has(end, Fresh([]), text)
    ensures Finish(Step(doubled, end, '\"')) == [text]
  {
    assert end.current + Slashes(0) == end.current && "" + text == text;
    assert end.current + Slashes(0) + Slashes(0) == end.current;
  }

  /** The two readings do differ elsewhere, for example on the line `"a""b"`. */
  lemma ReadingsDiffer()
    ensures Parse(true, "\"a\"\"b\"") != Parse(false, "\"a\"\"b\"")
  {
    var line := "\"a\"\"b\"";
    assert line[..2][1..] == "a" && line[..2][1..][1..] == "";
    assert PlainScan(line, 2) == Step(false, Step(false, Fresh([]), '\"'), 'a');
    assert BarePairAt(line, 2);
    ReadingsAgreeIff(line);
  }
}
