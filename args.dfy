/** src/args.rs: the command-line parser. Arguments are strings; a path
    argument is kept as the string it was given. */
module Args {
  import opened Results

  /** The level filter of the logging library, in its own order. */
  datatype LevelFilter = Off | Error | Warn | Info | Debug | Trace

  function LevelRank(l: LevelFilter): nat {
    match l
    case Off => 0
    case Error => 1
    case Warn => 2
    case Info => 3
    case Debug => 4
    case Trace => 5
  }

  function LevelName(l: LevelFilter): string {
    match l
    case Off => "Off"
    case Error => "Error"
    case Warn => "Warn"
    case Info => "Info"
    case Debug => "Debug"
    case Trace => "Trace"
  }

  /** `Verbosity`; the default is `Warn`. */
  datatype Verbosity = Warn | Info | Debug | Trace

  const DefaultVerbosity: Verbosity := Verbosity.Warn

  function VerbosityName(v: Verbosity): string {
    match v
    case Warn => "Warn"
    case Info => "Info"
    case Debug => "Debug"
    case Trace => "Trace"
  }

  /** The position of a verbosity in its declaration order. */
  function VerbosityRank(v: Verbosity): nat {
    match v
    case Warn => 0
    case Info => 1
    case Debug => 2
    case Trace => 3
  }

  /** The level digit `-v` accepts for each verbosity. */
  function Digit(v: Verbosity): string {
    match v
    case Warn => "0"
    case Info => "1"
    case Debug => "2"
    case Trace => "3"
  }

  /** `From<Verbosity> for LevelFilter`: each verbosity becomes the filter
      of the same name; the order is kept, starting at `Warn`, so logging is
      never switched off and errors and warnings are always shown. */
  function ToLevelFilter(v: Verbosity): (r: LevelFilter)
    ensures LevelName(r) == VerbosityName(v)
    ensures LevelRank(r) == VerbosityRank(v) + LevelRank(LevelFilter.Warn)
  {
    match v
    case Warn => LevelFilter.Warn
    case Info => LevelFilter.Info
    case Debug => LevelFilter.Debug
    case Trace => LevelFilter.Trace
  }

  /** The value of `-v`: exactly the four digits are levels. */
  function LevelOf(s: string): (r: Option<Verbosity>)
    ensures r.Some? <==> s in {"0", "1", "2", "3"}
    ensures r.Some? ==> Digit(r.value) == s
  {
    if s == "0" then Some(Verbosity.Warn)
    else if s == "1" then Some(Verbosity.Info)
    else if s == "2" then Some(Verbosity.Debug)
    else if s == "3" then Some(Verbosity.Trace)
    else None
  }

  lemma LevelOfDigit(v: Verbosity)
    ensures LevelOf(Digit(v)) == Some(v)
  {
  }

  /** `Args`; the default has no paths, verbosity `Warn` and no files. */
  datatype Args = Args(configFile: Option<string>, logFile: Option<string>,
                       verbosity: Verbosity, files: seq<string>)

  const DefaultArgs: Args := Args(None, None, DefaultVerbosity, [])

  datatype Cli = Help | Version | Health(category: Option<string>) | Options(args: Args)

  /** `Cli::default()`. */
  const DefaultCli: Cli := Options(DefaultArgs)

  datatype CliError =
    | MissingPath(option: string)
    | InvalidLevel(option: string)
    | MissingLevel(option: string)
    | UnexpectedArgument(arg: string)

  predicate StartsWithDash(s: string) {
    |s| > 0 && s[0] == '-'
  }

  predicate StartsWithDashDash(s: string) {
    |s| >= 2 && s[..2] == "--"
  }

  /** The options the parser knows. */
  const KnownOptions: set<string> :=
    {"-h", "--help", "-V", "--version", "--health", "-c", "--config", "-l", "--log", "-v"}

  /** An argument the parser appends to `files`. */
  predicate IsFile(s: string) {
    s !in KnownOptions && !StartsWithDashDash(s)
  }

  /** What the parser does with the arguments still to come, given the
      options gathered so far. */
  function ParseFrom(args: Args, rest: seq<string>): Result<Cli, CliError>
    decreases |rest|
  {
    if rest == [] then Ok(Options(args))
    else
      var arg := rest[0];
      var tail := rest[1..];
      if arg == "-h" || arg == "--help" then Ok(Help)
      else if arg == "-V" || arg == "--version" then Ok(Version)
      else if arg == "--health" then
        Ok(Health(if tail != [] && !StartsWithDash(tail[0]) then Some(tail[0]) else None))
      else if arg == "-c" || arg == "--config" then
        if tail == [] then Err(MissingPath(arg))
        else ParseFrom(args.(configFile := Some(tail[0])), tail[1..])
      else if arg == "-l" || arg == "--log" then
        if tail == [] then Err(MissingPath(arg))
        else ParseFrom(args.(logFile := Some(tail[0])), tail[1..])
      else if arg == "-v" then
        if tail == [] then Err(MissingLevel(arg))
        else match LevelOf(tail[0])
          case None => Err(InvalidLevel(arg))
          case Some(level) => ParseFrom(args.(verbosity := level), tail[1..])
      else if StartsWithDashDash(arg) then Err(UnexpectedArgument(arg))
      else ParseFrom(args.(files := args.files + [arg]), tail)
  }

  /** `Cli::parse`: skips the program name, then reads the arguments left
      to right, returning early on help, version, health and errors. */
  method Parse(argv: seq<string>) returns (r: Result<Cli, CliError>)
    ensures r == ParseFrom(DefaultArgs, if argv == [] then [] else argv[1..])
  {
    var rest := if argv == [] then [] else argv[1..];
    var args := DefaultArgs;
    var i := 0;
    while i < |rest|
      invariant 0 <= i <= |rest|
      invariant ParseFrom(args, rest[i..]) == ParseFrom(DefaultArgs, rest)
      decreases |rest| - i
    {
      var arg := rest[i];
      assert rest[i..][1..] == rest[i + 1..];
      i := i + 1;
      if arg == "-h" || arg == "--help" {
        return Ok(Help);
      } else if arg == "-V" || arg == "--version" {
        return Ok(Version);
      } else if arg == "--health" {
        var next := None;
        if i < |rest| && !StartsWithDash(rest[i]) {
          next := Some(rest[i]);
        }
        return Ok(Health(next));
      } else if arg == "-c" || arg == "--config" {
        if i < |rest| {
          assert rest[i..][1..] == rest[i + 1..];
          args := args.(configFile := Some(rest[i]));
          i := i + 1;
        } else {
          return Err(MissingPath(arg));
        }
      } else if arg == "-l" || arg == "--log" {
        if i < |rest| {
          assert rest[i..][1..] == rest[i + 1..];
          args := args.(logFile := Some(rest[i]));
          i := i + 1;
        } else {
          return Err(MissingPath(arg));
        }
      } else if arg == "-v" {
        if i < |rest| {
          assert rest[i..][1..] == rest[i + 1..];
          var level := LevelOf(rest[i]);
          if level.None? {
            return Err(InvalidLevel(arg));
          }
          args := args.(verbosity := level.value);
          i := i + 1;
        } else {
          return Err(MissingLevel(arg));
        }
      } else if StartsWithDashDash(arg) {
        return Err(UnexpectedArgument(arg));
      } else {
        args := args.(files := args.files + [arg]);
      }
    }
    r := Ok(Options(args));
  }

  // ---------------------------------------------------------------------
  // Properties of the parser

  /** No arguments after the program name give the default options. */
  lemma NoArguments(args: Args)
    ensures ParseFrom(args, []) == Ok(Options(args))
    ensures DefaultArgs.configFile == None && DefaultArgs.logFile == None
    ensures DefaultArgs.verbosity == Verbosity.Warn && DefaultArgs.files == []
  {
  }

  /** Plain arguments are all appended to `files`, in order. */
  lemma {:induction false} FilesInOrder(args: Args, files: seq<string>)
    requires forall i :: 0 <= i < |files| ==> IsFile(files[i])
    ensures ParseFrom(args, files) == Ok(Options(args.(files := args.files + files)))
    decreases |files|
  {
    if files != [] {
      FilesInOrder(args.(files := args.files + [files[0]]), files[1..]);
      assert args.files + [files[0]] + files[1..] == args.files + files;
    } else {
      assert args.files + files == args.files;
    }
  }

  /** Plain arguments before an option are gathered and then the option is
      read: results continue from the gathered files. */
  lemma {:induction false} FilesThen(args: Args, files: seq<string>, rest: seq<string>)
    requires forall i :: 0 <= i < |files| ==> IsFile(files[i])
    ensures ParseFrom(args, files + rest) == ParseFrom(args.(files := args.files + files), rest)
    decreases |files|
  {
    if files != [] {
      assert (files + rest)[1..] == files[1..] + rest;
      FilesThen(args.(files := args.files + [files[0]]), files[1..], rest);
      assert args.files + [files[0]] + files[1..] == args.files + files;
    } else {
      assert args.files + files == args.files;
      assert files + rest == rest;
    }
  }

  /** Help and version end the parse at once, whatever follows and whatever
      files came before. */
  lemma HelpAndVersionStop(args: Args, files: seq<string>, flag: string, rest: seq<string>)
    requires forall i :: 0 <= i < |files| ==> IsFile(files[i])
    requires flag in {"-h", "--help", "-V", "--version"}
    ensures ParseFrom(args, files + [flag] + rest)
            == if flag in {"-h", "--help"} then Ok(Help) else Ok(Version)
  {
    assert files + [flag] + rest == files + ([flag] + rest);
    FilesThen(args, files, [flag] + rest);
  }

  /** `--health` takes the following argument only when it does not start
      with `-`, and ends the parse. */
  lemma HealthArgument(args: Args, rest: seq<string>)
    ensures ParseFrom(args, ["--health"] + rest)
            == Ok(Health(if rest != [] && !StartsWithDash(rest[0]) then Some(rest[0]) else None))
  {
    assert (["--health"] + rest)[1..] == rest;
  }

  /** `-c`/`--config` and `-l`/`--log` take the next argument whatever it
      looks like, and fail when there is none. */
  lemma PathOptions(args: Args, option: string, rest: seq<string>)
    requires option in {"-c", "--config", "-l", "--log"}
    ensures rest == [] ==> ParseFrom(args, [option] + rest) == Err(MissingPath(option))
    ensures rest != [] && option in {"-c", "--config"} ==>
              ParseFrom(args, [option] + rest) == ParseFrom(args.(configFile := Some(rest[0])), rest[1..])
    ensures rest != [] && option in {"-l", "--log"} ==>
              ParseFrom(args, [option] + rest) == ParseFrom(args.(logFile := Some(rest[0])), rest[1..])
  {
    assert ([option] + rest)[1..] == rest;
  }

  /** A later `-c` overrides an earlier one. */
  lemma ConfigLastWins(args: Args, p: string, q: string, rest: seq<string>)
    ensures ParseFrom(args, ["-c", p, "--config", q] + rest)
            == ParseFrom(args.(configFile := Some(q)), rest)
  {
    var all := ["-c", p, "--config", q] + rest;
    assert all[1..][1..] == ["--config", q] + rest;
    assert (["--config", q] + rest)[1..][1..] == rest;
    assert args.(configFile := Some(p)).(configFile := Some(q)) == args.(configFile := Some(q));
  }

  /** `-v` accepts exactly the four digits. */
  lemma LevelOption(args: Args, rest: seq<string>)
    ensures rest == [] ==> ParseFrom(args, ["-v"] + rest) == Err(MissingLevel("-v"))
    ensures rest != [] && LevelOf(rest[0]).None? ==>
              ParseFrom(args, ["-v"] + rest) == Err(InvalidLevel("-v"))
    ensures rest != [] && LevelOf(rest[0]).Some? ==>
              ParseFrom(args, ["-v"] + rest)
              == ParseFrom(args.(verbosity := LevelOf(rest[0]).value), rest[1..])
  {
    assert (["-v"] + rest)[1..] == rest;
  }

  /** Any other argument starting with `--`, bare `--` included, is an
      error; any other argument, `-x` and `-` included, is a file. */
  lemma OtherArguments(args: Args, arg: string, rest: seq<string>)
    requires arg !in KnownOptions
    ensures StartsWithDashDash(arg) ==> ParseFrom(args, [arg] + rest) == Err(UnexpectedArgument(arg))
    ensures !StartsWithDashDash(arg) ==>
              ParseFrom(args, [arg] + rest) == ParseFrom(args.(files := args.files + [arg]), rest)
  {
    assert ([arg] + rest)[1..] == rest;
  }

  /** What options parsed from `rest` can make of `args`: its files keep
      their places and gain only arguments of `rest` that do not start
      with `--`, and each path is the one it had or one that follows its
      option in `rest`. */
  predicate Follows(args: Args, rest: seq<string>, r: Args) {
    && |args.files| <= |r.files| && r.files[..|args.files|] == args.files
    && (forall f :: f in r.files[|args.files|..] ==> f in rest && !StartsWithDashDash(f))
    && (r.configFile == args.configFile
        || exists i :: 0 <= i < |rest| - 1 && rest[i] in {"-c", "--config"} && r.configFile == Some(rest[i + 1]))
    && (r.logFile == args.logFile
        || exists i :: 0 <= i < |rest| - 1 && rest[i] in {"-l", "--log"} && r.logFile == Some(rest[i + 1]))
  }

  /** A successful parse keeps the files gathered earlier and adds only
      arguments it read, none of them starting with `--`; its paths are the
      ones it started with or values given to the path options. */
  lemma {:induction false} ParsedOptions(args: Args, rest: seq<string>)
    requires ParseFrom(args, rest).Ok? && ParseFrom(args, rest).value.Options?
    ensures Follows(args, rest, ParseFrom(args, rest).value.args)
    decreases |rest|
  {
    if rest != [] {
      var arg := rest[0];
      var tail := rest[1..];
      if arg == "-c" || arg == "--config" || arg == "-l" || arg == "--log" || arg == "-v" {
        var next := tail[1..];
        var args' := if arg in {"-c", "--config"} then args.(configFile := Some(tail[0]))
                     else if arg in {"-l", "--log"} then args.(logFile := Some(tail[0]))
                     else args.(verbosity := LevelOf(tail[0]).value);
        assert ParseFrom(args, rest) == ParseFrom(args', next);
        ParsedOptions(args', next);
        assert next == rest[2..];
        OptionStep(args, args', rest, ParseFrom(args, rest).value.args);
      } else {
        var args' := args.(files := args.files + [arg]);
        assert ParseFrom(args, rest) == ParseFrom(args', tail);
        ParsedOptions(args', tail);
        FileStep(args, rest, ParseFrom(args, rest).value.args);
      }
    } else {
      assert ParseFrom(args, rest).value.args == args;
    }
  }

  /** An option and its value, in front of arguments that `r` follows. */
  lemma OptionStep(args: Args, args': Args, rest: seq<string>, r: Args)
    requires |rest| >= 2 && args'.files == args.files
    requires args'.configFile == args.configFile
             || (rest[0] in {"-c", "--config"} && args'.configFile == Some(rest[1]))
    requires args'.logFile == args.logFile
             || (rest[0] in {"-l", "--log"} && args'.logFile == Some(rest[1]))
    requires Follows(args', rest[2..], r)
    ensures Follows(args, rest, r)
  {
    var next := rest[2..];
    forall f | f in r.files[|args.files|..] ensures f in rest {
      assert f in next;
    }
    if r.configFile != args'.configFile {
      var i :| 0 <= i < |next| - 1 && next[i] in {"-c", "--config"} && r.configFile == Some(next[i + 1]);
      assert rest[i + 2] == next[i] && rest[i + 3] == next[i + 1];
    } else if r.configFile != args.configFile {
      assert rest[0] in {"-c", "--config"} && r.configFile == Some(rest[1]);
    }
    if r.logFile != args'.logFile {
      var i :| 0 <= i < |next| - 1 && next[i] in {"-l", "--log"} && r.logFile == Some(next[i + 1]);
      assert rest[i + 2] == next[i] && rest[i + 3] == next[i + 1];
    } else if r.logFile != args.logFile {
      assert rest[0] in {"-l", "--log"} && r.logFile == Some(rest[1]);
    }
  }

  /** A file argument in front of arguments that `r` follows. */
  lemma FileStep(args: Args, rest: seq<string>, r: Args)
    requires rest != [] && !StartsWithDashDash(rest[0])
    requires Follows(args.(files := args.files + [rest[0]]), rest[1..], r)
    ensures Follows(args, rest, r)
  {
    var args' := args.(files := args.files + [rest[0]]);
    var tail := rest[1..];
    assert r.files[..|args.files|] == r.files[..|args'.files|][..|args.files|];
    forall f | f in r.files[|args.files|..] ensures f in rest && !StartsWithDashDash(f) {
      var k :| |args.files| <= k < |r.files| && r.files[k] == f;
      if k == |args.files| {
        assert f == args'.files[k];
      } else {
        assert f in r.files[|args'.files|..];
      }
    }
    if r.configFile != args.configFile {
      var i :| 0 <= i < |tail| - 1 && tail[i] in {"-c", "--config"} && r.configFile == Some(tail[i + 1]);
      assert rest[i + 1] == tail[i] && rest[i + 2] == tail[i + 1];
    }
    if r.logFile != args.logFile {
      var i :| 0 <= i < |tail| - 1 && tail[i] in {"-l", "--log"} && r.logFile == Some(tail[i + 1]);
      assert rest[i + 1] == tail[i] && rest[i + 2] == tail[i + 1];
    }
  }

}
