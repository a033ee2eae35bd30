/** The child's command line (logger-child/src/main.cpp) and the arguments the agent passes
    (agent-rust/src/child.rs). */
module ChildArgs {
  import opened Basics

  datatype Values = Values(utc: string, rssBytes: string, logFile: string)

  const UTC := "--utc"
  const RSS_BYTES := "--rss-bytes"
  const LOG_FILE := "--log-file"

  // ---------------------------------------------------------------- what the code does

  predicate IsFlag(arg: string) {
    arg == UTC || arg == RSS_BYTES || arg == LOG_FILE
  }

  function Assign(v: Values, flag: string, value: string): Values {
    if flag == UTC then v.(utc := value)
    else if flag == RSS_BYTES then v.(rssBytes := value)
    else if flag == LOG_FILE then v.(logFile := value)
    else v
  }

  /** The flag/value loop: the values it leaves, and the argument it stopped at, if any. */
  function Scan(args: seq<string>, v: Values): (Values, Option<string>)
    decreases |args|
  {
    if args == [] then (v, None)
    else if IsFlag(args[0]) && |args| > 1 then Scan(args[2..], Assign(v, args[0], args[1]))
    else (v, Some(args[0]))
  }

  /** `parse`: the values, and the error message if it fails. */
  function Parsed(args: seq<string>, v: Values, defaultLog: string): (Values, Option<string>) {
    var (v', stop) := Scan(args, v);
    if stop.Some? then (v', Some("unknown or incomplete argument: " + stop.value))
    else if v'.utc == "" || v'.rssBytes == "" then (v', Some("--utc and --rss-bytes are required"))
    else (v'.(logFile := if v'.logFile == "" then defaultLog else v'.logFile), None)
  }

  class Options {
    var utc: string
    var rssBytes: string
    var logFile: string

    constructor ()
      ensures Value() == Values("", "", "")
    {
      utc, rssBytes, logFile := "", "", "";
    }

    function Value(): Values
      reads this
    {
      Values(utc, rssBytes, logFile)
    }
  }

  /** What follows the program name, which may itself be missing. */
  function Arguments(argv: seq<string>): seq<string> {
    if argv == [] then [] else argv[1..]
  }

  method Parse(argv: seq<string>, options: Options, defaultLog: string) returns (error: Option<string>)
    modifies options
    ensures (options.Value(), error) == Parsed(Arguments(argv), old(options.Value()), defaultLog)
  {
    var i := 1;
    while i < |argv|
      invariant i >= 1 && (argv != [] ==> i <= |argv|)
      invariant i <= |argv| ==> Scan(argv[i..], options.Value()) == Scan(Arguments(argv), old(options.Value()))
      invariant argv == [] ==> options.Value() == old(options.Value())
    {
      var arg, hasValue := argv[i], i + 1 < |argv|;
      assert hasValue ==> argv[i..][1] == argv[i + 1] && argv[i..][2..] == argv[i + 2..];
      if arg == UTC && hasValue {
        options.utc := argv[i + 1];
        i := i + 1;
      } else if arg == RSS_BYTES && hasValue {
        options.rssBytes := argv[i + 1];
        i := i + 1;
      } else if arg == LOG_FILE && hasValue {
        options.logFile := argv[i + 1];
        i := i + 1;
      } else {
        return Some("unknown or incomplete argument: " + arg);
      }
      i := i + 1;
    }
    if options.utc == "" || options.rssBytes == "" {
      return Some("--utc and --rss-bytes are required");
    }
    if options.logFile == "" {
      options.logFile := defaultLog;
    }
    return None;
  }

  // ---------------------------------------------------------------- what it accepts

  /** The flags there are. */
  predicate Known(arg: string) {
    arg == "--utc" || arg == "--rss-bytes" || arg == "--log-file"
  }

  /** Pairs of a known flag and a value. */
  predicate Paired(args: seq<string>) {
    |args| % 2 == 0 && forall i :: 0 <= i < |args| && i % 2 == 0 ==> Known(args[i])
  }

  /** The value of the last occurrence of `flag` in flag position, or nothing. */
  function LastValue(args: seq<string>, flag: string): string
    requires |args| % 2 == 0
  {
    if args == [] then ""
    else if args[|args| - 2] == flag then args[|args| - 1]
    else LastValue(args[..|args| - 2], flag)
  }

  lemma {:induction false} ScanAppend(args: seq<string>, flag: string, value: string, v: Values)
    requires Paired(args)
    ensures Scan(args + [flag, value], v) ==
            if IsFlag(flag) then (Assign(Scan(args, v).0, flag, value), None) else (Scan(args, v).0, Some(flag))
    ensures Scan(args, v).1 == None
    decreases |args|
  {
    var all := args + [flag, value];
    if args == [] {
      assert all[0] == flag && all[1] == value && all[2..] == [];
    } else {
      assert all[0] == args[0] && all[1] == args[1] && all[2..] == args[2..] + [flag, value];
      assert forall i :: 0 <= i < |args| - 2 ==> args[2..][i] == args[i + 2];
      ScanAppend(args[2..], flag, value, Assign(v, args[0], args[1]));
    }
  }

  /** Well-paired arguments are consumed, and each value is the last one given for its flag. */
  lemma {:induction false} ScanTakesLast(args: seq<string>)
    requires Paired(args)
    ensures Scan(args, Values("", "", "")) ==
            (Values(LastValue(args, UTC), LastValue(args, RSS_BYTES), LastValue(args, LOG_FILE)), None)
    decreases |args|
  {
    if args != [] {
      var n := |args| - 2;
      var init := args[..n];
      assert args == init + [args[n], args[n + 1]];
      assert Paired(init);
      ScanTakesLast(init);
      ScanAppend(init, args[n], args[n + 1], Values("", "", ""));
      assert IsFlag(args[n]);
    }
  }

  lemma {:induction false} ScanAcceptsPairsOnly(args: seq<string>, v: Values)
    ensures Scan(args, v).1 == None <==> Paired(args)
    decreases |args|
  {
    if args != [] && IsFlag(args[0]) && |args| > 1 {
      var rest := args[2..];
      ScanAcceptsPairsOnly(rest, Assign(v, args[0], args[1]));
      assert forall i :: 0 <= i < |rest| ==> rest[i] == args[i + 2];
      assert Paired(rest) ==> forall i :: 2 <= i < |args| && i % 2 == 0 ==> args[i] == rest[i - 2];
    } else if args != [] {
      assert !IsFlag(args[0]) ==> !Paired(args);
    }
  }

  /** Accepted are exactly the lists of known flag/value pairs whose last --utc and --rss-bytes values
      are not empty; the result is each flag's last value, with the default for a missing log. */
  lemma AcceptsExactly(args: seq<string>, defaultLog: string)
    ensures Parsed(args, Values("", "", ""), defaultLog).1 == None
       <==> Paired(args) && LastValue(args, "--utc") != "" && LastValue(args, "--rss-bytes") != ""
    ensures var (v, error) := Parsed(args, Values("", "", ""), defaultLog);
            error == None ==>
              && v.utc == LastValue(args, "--utc") && v.rssBytes == LastValue(args, "--rss-bytes")
              && v.logFile == (if LastValue(args, "--log-file") == "" then defaultLog else LastValue(args, "--log-file"))
  {
    ScanAcceptsPairsOnly(args, Values("", "", ""));
    if Paired(args) {
      ScanTakesLast(args);
    }
  }

  /** Everything up to `k` are known flags with values, and `k` is where that ends. */
  predicate StopsAt(args: seq<string>, k: nat) {
    && k < |args| && Paired(args[..k]) && (!Known(args[k]) || k + 1 == |args|)
  }

  lemma StopsLater(args: seq<string>, k: nat)
    requires |args| > 1 && Known(args[0]) && StopsAt(args[2..], k)
    ensures StopsAt(args, k + 2) && args[k + 2] == args[2..][k]
  {
    hide Known;
    var rest := args[2..];
    forall i | 0 <= i < k + 2 && i % 2 == 0 ensures Known(args[..k + 2][i]) {
      if i >= 2 {
        assert args[i] == rest[..k][i - 2] && (i - 2) % 2 == 0;
      }
    }
  }

  lemma {:induction false} ScanStops(args: seq<string>, v: Values)
    ensures match Scan(args, v).1
            case None => true
            case Some(arg) => exists k: nat :: k < |args| && StopsAt(args, k) && arg == args[k]
    decreases |args|
  {
    hide StopsAt;
    if args != [] && IsFlag(args[0]) && |args| > 1 {
      ScanStops(args[2..], Assign(v, args[0], args[1]));
      if Scan(args, v).1.Some? {
        var k: nat :| k < |args[2..]| && StopsAt(args[2..], k) && Scan(args, v).1.value == args[2..][k];
        StopsLater(args, k);
      }
    } else if args != [] {
      StopsAtOnce(args);
    }
  }

  lemma StopsAtOnce(args: seq<string>)
    requires args != [] && (!Known(args[0]) || |args| == 1)
    ensures StopsAt(args, 0)
  {
  }

  /** Which error is reported: the first argument in flag position that is not a known flag with a value,
      by name; if there is none, that the time and the memory are required. */
  lemma ErrorsExactly(args: seq<string>, defaultLog: string)
    ensures var error := Parsed(args, Values("", "", ""), defaultLog).1;
            && (Paired(args) ==> error == None || error == Some("--utc and --rss-bytes are required"))
            && (!Paired(args) ==> exists k: nat :: k < |args| && StopsAt(args, k) && error == Some("unknown or incomplete argument: " + args[k]))
  {
    ScanAcceptsPairsOnly(args, Values("", "", ""));
    ScanStops(args, Values("", "", ""));
    hide Scan, Paired, Known;
  }

  // ---------------------------------------------------------------- what the agent passes

  datatype Pair = Pair(flag: string, value: string)

  /** `build_args` */
  function BuildArgs(utc: string, rssBytes: string, logFile: string): seq<string> {
    [UTC, utc, RSS_BYTES, rssBytes, LOG_FILE, logFile]
  }

  function Flatten(pairs: seq<Pair>): (args: seq<string>)
    ensures |args| == 2 * |pairs|
  {
    if pairs == [] then []
    else Flatten(pairs[..|pairs| - 1]) + [pairs[|pairs| - 1].flag, pairs[|pairs| - 1].value]
  }

  /** If `flag` is given once, its value is found wherever it stands. */
  lemma {:induction false} LastValueOfOnly(pairs: seq<Pair>, k: nat)
    requires k < |pairs| && forall i :: 0 <= i < |pairs| && i != k ==> pairs[i].flag != pairs[k].flag
    ensures LastValue(Flatten(pairs), pairs[k].flag) == pairs[k].value
    decreases |pairs|
  {
    var n := |pairs| - 1;
    var args := Flatten(pairs);
    assert args[..|args| - 2] == Flatten(pairs[..n]);
    if k < n {
      LastValueOfOnly(pairs[..n], k);
    }
  }

  /** The child recovers the agent's values, in whatever order the three pairs arrive. */
  lemma RecoversAgentValues(utc: string, rssBytes: string, logFile: string, pairs: seq<Pair>, defaultLog: string)
    requires utc != "" && rssBytes != "" && logFile != ""
    requires |pairs| == 3
    requires Pair(UTC, utc) in pairs && Pair(RSS_BYTES, rssBytes) in pairs && Pair(LOG_FILE, logFile) in pairs
    ensures Parsed(Flatten(pairs), Values("", "", ""), defaultLog) == (Values(utc, rssBytes, logFile), None)
  {
    var a :| 0 <= a < 3 && pairs[a] == Pair(UTC, utc);
    var b :| 0 <= b < 3 && pairs[b] == Pair(RSS_BYTES, rssBytes);
    var c :| 0 <= c < 3 && pairs[c] == Pair(LOG_FILE, logFile);
    FlagsDiffer();
    RecoversFrom(pairs, a, b, c, defaultLog);
  }

  lemma RecoversFrom(pairs: seq<Pair>, a: nat, b: nat, c: nat, defaultLog: string)
    requires |pairs| == 3 && a < 3 && b < 3 && c < 3 && a != b && b != c && a != c
    requires pairs[a].flag == UTC && pairs[b].flag == RSS_BYTES && pairs[c].flag == LOG_FILE
    requires pairs[a].value != "" && pairs[b].value != "" && pairs[c].value != ""
    ensures Parsed(Flatten(pairs), Values("", "", ""), defaultLog)
         == (Values(pairs[a].value, pairs[b].value, pairs[c].value), None)
  {
    hide Flatten, LastValue, Paired, Parsed;
    FlagsDiffer();
    assert forall p <- pairs :: p == pairs[a] || p == pairs[b] || p == pairs[c];
    PairsArePaired(pairs);
    LastValueOfOnly(pairs, a);
    LastValueOfOnly(pairs, b);
    LastValueOfOnly(pairs, c);
    AcceptsExactly(Flatten(pairs), defaultLog);
  }

  lemma {:induction false} PairsArePaired(pairs: seq<Pair>)
    requires forall p <- pairs :: Known(p.flag)
    ensures Paired(Flatten(pairs))
  {
    if pairs != [] {
      var init, last := pairs[..|pairs| - 1], pairs[|pairs| - 1];
      assert last in pairs;
      PairsArePaired(init);
    }
  }

  lemma FlagsDiffer()
    ensures UTC != RSS_BYTES && RSS_BYTES != LOG_FILE && UTC != LOG_FILE
  {
    assert |UTC| == 5 && |RSS_BYTES| == 11 && |LOG_FILE| == 10;
  }

  /** In particular from the order the agent uses. */
  lemma RecoversBuildArgs(utc: string, rssBytes: string, logFile: string, defaultLog: string)
    requires utc != "" && rssBytes != "" && logFile != ""
    ensures BuildArgs(utc, rssBytes, logFile) == ["--utc", utc, "--rss-bytes", rssBytes, "--log-file", logFile]
    ensures Parsed(BuildArgs(utc, rssBytes, logFile), Values("", "", ""), defaultLog) == (Values(utc, rssBytes, logFile), None)
  {
    var pairs := [Pair(UTC, utc), Pair(RSS_BYTES, rssBytes), Pair(LOG_FILE, logFile)];
    var one, two := [Pair(UTC, utc)], [Pair(UTC, utc), Pair(RSS_BYTES, rssBytes)];
    assert pairs[..2] == two && two[..1] == one && one[..0] == [];
    assert Flatten(one) == [UTC, utc];
    assert Flatten(two) == [UTC, utc, RSS_BYTES, rssBytes];
    assert BuildArgs(utc, rssBytes, logFile) == Flatten(pairs);
    RecoversAgentValues(utc, rssBytes, logFile, pairs, defaultLog);
  }
}
