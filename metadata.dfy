/** src/metadata.rs: where configuration lives. The platform base
    directories are inputs; `local_config_dirs` walks the ancestors of the
    current directory; `Metadata` holds the configuration and log file paths
    in two write-once cells. */
module Metadata {
  import opened Results
  import opened Fs

  const PackageName: string := "tissue"
  /** `concat!('.', CARGO_PKG_NAME)`. */
  const ConfigDirName: string := ".tissue"
  const GitMarker: string := ".git"

  /** `config_dir()`: the platform configuration directory plus the package name. */
  function ConfigDir(baseConfigDir: Path): Path {
    Join(baseConfigDir, PackageName)
  }

  /** `cache_dir()`. */
  function CacheDir(baseCacheDir: Path): Path {
    Join(baseCacheDir, PackageName)
  }

  function DefaultConfigFile(baseConfigDir: Path): Path {
    Join(ConfigDir(baseConfigDir), "config.toml")
  }

  function DefaultLogFile(baseCacheDir: Path): Path {
    Join(CacheDir(baseCacheDir), PackageName + ".log")
  }

  /** The default files sit in the package's directory below each base
      directory. */
  lemma DefaultFiles(baseConfigDir: Path, baseCacheDir: Path)
    ensures DefaultConfigFile(baseConfigDir) == baseConfigDir + ["tissue", "config.toml"]
    ensures DefaultLogFile(baseCacheDir) == baseCacheDir + ["tissue", "tissue.log"]
  {
    assert PackageName + ".log" == "tissue.log";
  }

  // ---------------------------------------------------------------------
  // Local configuration directories

  predicate HasGit(fs: FileSystem, p: Path) {
    fs.pathExists(Join(p, GitMarker))
  }

  predicate HasConfigDir(fs: FileSystem, p: Path) {
    fs.isDir(Join(p, ConfigDirName))
  }

  function Parent(p: Path): Path
    requires p != []
  {
    p[..|p| - 1]
  }

  /** The ancestors the walk records, starting at `ancestor` itself and
      going up: a git root is recorded and ends the walk, any other ancestor
      is recorded when it holds a `.tissue` directory. */
  function Recorded(ancestor: Path, fs: FileSystem): seq<Path>
    decreases |ancestor|
  {
    if HasGit(fs, ancestor) then [ancestor]
    else (if HasConfigDir(fs, ancestor) then [ancestor] else [])
         + (if ancestor == [] then [] else Recorded(Parent(ancestor), fs))
  }

  /** What `local_config_dirs` returns: each recorded ancestor joined with
      `.tissue`. */
  function Located(cwd: Path, fs: FileSystem): seq<Path> {
    JoinEach(Recorded(cwd, fs), ConfigDirName)
  }

  /** Each path joined with `name`, in order. */
  function JoinEach(paths: seq<Path>, name: string): (r: seq<Path>)
    ensures |r| == |paths| && forall i :: 0 <= i < |paths| ==> r[i] == paths[i] + [name]
  {
    seq(|paths|, i requires 0 <= i < |paths| => Join(paths[i], name))
  }

  /** `local_config_dirs`: the ancestor walk with its early `break`. */
  method LocalConfigDirs(cwd: Path, fs: FileSystem) returns (dirs: seq<Path>)
    ensures dirs == Located(cwd, fs)
  {
    var found: seq<Path> := [];
    var ancestor := cwd;
    while true
      invariant Walk(found, ancestor, fs) == Walk([], cwd, fs)
      decreases |ancestor|
    {
      if HasGit(fs, ancestor) {
        found := found + [ancestor];
        break;
      }
      if HasConfigDir(fs, ancestor) {
        found := found + [ancestor];
      }
      if ancestor == [] {
        break;
      }
      ancestor := Parent(ancestor);
    }
    WalkRecorded([], cwd, fs);
    dirs := JoinEach(found, ConfigDirName);
  }

  /** The walk as the loop performs it, with the paths recorded so far in
      `found`. */
  function Walk(found: seq<Path>, ancestor: Path, fs: FileSystem): seq<Path>
    decreases |ancestor|
  {
    if HasGit(fs, ancestor) then found + [ancestor]
    else
      var found' := if HasConfigDir(fs, ancestor) then found + [ancestor] else found;
      if ancestor == [] then found' else Walk(found', Parent(ancestor), fs)
  }

  /** The loop's walk appends to `found` exactly what `Recorded` lists. */
  lemma {:induction false} WalkRecorded(found: seq<Path>, ancestor: Path, fs: FileSystem)
    ensures Walk(found, ancestor, fs) == found + Recorded(ancestor, fs)
    decreases |ancestor|
  {
    if !HasGit(fs, ancestor) && ancestor != [] {
      var found' := if HasConfigDir(fs, ancestor) then found + [ancestor] else found;
      WalkRecorded(found', Parent(ancestor), fs);
    }
  }

  /** `chain` lists ancestors of `cwd`, each strictly shorter (further up)
      than the one before. */
  predicate AncestorChain(cwd: Path, chain: seq<Path>) {
    && (forall i :: 0 <= i < |chain| ==> |chain[i]| <= |cwd| && chain[i] == cwd[..|chain[i]|])
    && (forall i, j :: 0 <= i < j < |chain| ==> |chain[i]| > |chain[j]|)
  }

  /** Every recorded path is an ancestor of the start, and they come
      innermost first. */
  lemma {:induction false} RecordedAncestors(cwd: Path, fs: FileSystem)
    ensures AncestorChain(cwd, Recorded(cwd, fs))
    decreases |cwd|
  {
    if !HasGit(fs, cwd) && cwd != [] {
      var up := Parent(cwd);
      RecordedAncestors(up, fs);
      var tail := Recorded(up, fs);
      var head := if HasConfigDir(fs, cwd) then [cwd] else [];
      ChainExtend(cwd, head, tail);
    }
  }

  lemma ChainExtend(cwd: Path, head: seq<Path>, tail: seq<Path>)
    requires cwd != [] && AncestorChain(Parent(cwd), tail)
    requires head == [] || head == [cwd]
    ensures AncestorChain(cwd, head + tail)
  {
    var up := Parent(cwd);
    var r := head + tail;
    forall i | 0 <= i < |r| ensures |r[i]| <= |cwd| && r[i] == cwd[..|r[i]|] {
      if i >= |head| {
        assert r[i] == tail[i - |head|];
        assert cwd[..|r[i]|] == up[..|r[i]|];
      }
    }
    forall i, j | 0 <= i < j < |r| ensures |r[i]| > |r[j]| {
      assert r[j] == tail[j - |head|];
      if i >= |head| {
        assert r[i] == tail[i - |head|];
      }
    }
  }

  /** No ancestor strictly between `cwd[..l]` and `cwd` (inclusive of `cwd`)
      holds `.git`. */
  predicate NoGitBelow(cwd: Path, fs: FileSystem, l: nat)
    requires l <= |cwd|
  {
    forall l' :: l < l' <= |cwd| ==> !HasGit(fs, cwd[..l'])
  }

  /** The ancestor `cwd[..l]` is recorded exactly when no ancestor below it
      is a git root and it is a git root itself or holds `.tissue`. */
  lemma {:induction false} RecordedIff(cwd: Path, fs: FileSystem, l: nat)
    requires l <= |cwd|
    ensures cwd[..l] in Recorded(cwd, fs) <==>
              NoGitBelow(cwd, fs, l) && (HasGit(fs, cwd[..l]) || HasConfigDir(fs, cwd[..l]))
    decreases |cwd|
  {
    RecordedAncestors(cwd, fs);
    var r := Recorded(cwd, fs);
    if l == |cwd| {
      assert cwd[..l] == cwd;
      if !HasGit(fs, cwd) && cwd != [] {
        RecordedAncestors(Parent(cwd), fs);
        assert cwd !in Recorded(Parent(cwd), fs);
      }
    } else {
      assert cwd[..l] != cwd;
      if HasGit(fs, cwd) {
        assert !NoGitBelow(cwd, fs, l) by {
          assert cwd[..|cwd|] == cwd;
        }
      } else {
        var up := Parent(cwd);
        RecordedIff(up, fs, l);
        assert up[..l] == cwd[..l];
        assert NoGitBelow(cwd, fs, l) <==> NoGitBelow(up, fs, l) by {
          assert cwd[..|cwd|] == cwd;
          forall l' | l < l' <= |up| ensures up[..l'] == cwd[..l'] { }
        }
      }
    }
  }

  /** A git root, when one is met, is the last entry: nothing above it is
      recorded, so at most one entry comes from a git root. */
  lemma {:induction false} GitRootLast(cwd: Path, fs: FileSystem)
    ensures forall i :: 0 <= i < |Recorded(cwd, fs)| && HasGit(fs, Recorded(cwd, fs)[i]) ==>
              i == |Recorded(cwd, fs)| - 1
    decreases |cwd|
  {
    if !HasGit(fs, cwd) && cwd != [] {
      GitRootLast(Parent(cwd), fs);
      var head := if HasConfigDir(fs, cwd) then [cwd] else [];
      var r := Recorded(cwd, fs);
      assert r == head + Recorded(Parent(cwd), fs);
      forall i | 0 <= i < |r| && HasGit(fs, r[i]) ensures i == |r| - 1 {
        if i >= |head| {
          assert r[i] == Recorded(Parent(cwd), fs)[i - |head|];
        }
      }
    }
  }

  /** Every located directory is a recorded ancestor joined with `.tissue`,
      the git root included even when it has no `.tissue` directory. */
  lemma LocatedEntries(cwd: Path, fs: FileSystem)
    ensures |Located(cwd, fs)| == |Recorded(cwd, fs)|
    ensures forall i :: 0 <= i < |Located(cwd, fs)| ==>
              Located(cwd, fs)[i] == Recorded(cwd, fs)[i] + [".tissue"]
  {
  }

  /** The walk from `/repo/sub/work`, with `/repo/.git` and
      `/repo/sub/.tissue`, yields `/repo/sub/.tissue` then `/repo/.tissue`. */
  lemma LocatedExample(fs: FileSystem)
    requires forall p :: fs.pathExists(p) <==> p == ["repo", ".git"] || p == ["repo", "sub", ".tissue"]
    requires forall p :: fs.isDir(p) <==> p == ["repo", "sub", ".tissue"] || p == ["repo", ".git"]
    ensures Located(["repo", "sub", "work"], fs) == [["repo", "sub", ".tissue"], ["repo", ".tissue"]]
  {
    var cwd := ["repo", "sub", "work"];
    assert Parent(cwd) == ["repo", "sub"];
    assert Parent(["repo", "sub"]) == ["repo"];
    assert Recorded(["repo"], fs) == [["repo"]];
    assert Recorded(["repo", "sub"], fs) == [["repo", "sub"], ["repo"]];
    assert Recorded(cwd, fs) == [["repo", "sub"], ["repo"]];
    var located := Located(cwd, fs);
    assert |located| == 2;
    assert located[0] == ["repo", "sub", ".tissue"];
    assert located[1] == ["repo", ".tissue"];
  }

  // ---------------------------------------------------------------------
  // The two write-once path cells

  datatype MetadataError =
    | CannotOverrideConfigFile(path: Path)
    | CannotOverrideLogFile(path: Path)

  /** `Metadata`: each `OnceCell` is `None` until a `set_*` or the first
      getter fills it; after that it never changes. */
  class Metadata {
    var configFile: Option<Path>
    var logFile: Option<Path>
    /** The platform's base directories (`choose_base_strategy`). */
    const baseConfigDir: Path
    const baseCacheDir: Path

    /** `Metadata::load`: both cells start empty. */
    constructor Load(baseConfigDir: Path, baseCacheDir: Path)
      ensures configFile == None && logFile == None
      ensures this.baseConfigDir == baseConfigDir && this.baseCacheDir == baseCacheDir
    {
      this.baseConfigDir := baseConfigDir;
      this.baseCacheDir := baseCacheDir;
      configFile := None;
      logFile := None;
    }

    /** `config_file`: the stored path, or the default, which is stored. */
    method ConfigFile() returns (p: Path)
      modifies this`configFile
      ensures p == old(configFile).GetOr(DefaultConfigFile(baseConfigDir))
      ensures configFile == Some(p)
    {
      if configFile.None? {
        configFile := Some(DefaultConfigFile(baseConfigDir));
      }
      p := configFile.value;
    }

    /** `log_file`. */
    method LogFile() returns (p: Path)
      modifies this`logFile
      ensures p == old(logFile).GetOr(DefaultLogFile(baseCacheDir))
      ensures logFile == Some(p)
    {
      if logFile.None? {
        logFile := Some(DefaultLogFile(baseCacheDir));
      }
      p := logFile.value;
    }

    /** `set_config_file`: fills an empty cell; a filled one is left as it
        is and the rejected path is reported. */
    method SetConfigFile(path: Path) returns (r: Result<(), MetadataError>)
      modifies this`configFile
      ensures old(configFile).None? ==> r == Ok(()) && configFile == Some(path)
      ensures old(configFile).Some? ==>
                r == Err(CannotOverrideConfigFile(path)) && configFile == old(configFile)
    {
      if configFile.None? {
        configFile := Some(path);
        r := Ok(());
      } else {
        r := Err(CannotOverrideConfigFile(path));
      }
    }

    /** `set_log_file`. */
    method SetLogFile(path: Path) returns (r: Result<(), MetadataError>)
      modifies this`logFile
      ensures old(logFile).None? ==> r == Ok(()) && logFile == Some(path)
      ensures old(logFile).Some? ==> r == Err(CannotOverrideLogFile(path)) && logFile == old(logFile)
    {
      if logFile.None? {
        logFile := Some(path);
        r := Ok(());
      } else {
        r := Err(CannotOverrideLogFile(path));
      }
    }
  }

  /** The start of the program's run: a path given on the command line is
      set before anything reads the cells, so the getters return it; without
      one they return the defaults. */
  method ResolvePaths(configArg: Option<Path>, logArg: Option<Path>,
                      baseConfigDir: Path, baseCacheDir: Path)
    returns (configFile: Path, logFile: Path)
    ensures configFile == configArg.GetOr(DefaultConfigFile(baseConfigDir))
    ensures logFile == logArg.GetOr(DefaultLogFile(baseCacheDir))
  {
    var metadata := new Metadata.Load(baseConfigDir, baseCacheDir);
    if configArg.Some? {
      var _ := metadata.SetConfigFile(configArg.value);
    }
    if logArg.Some? {
      var _ := metadata.SetLogFile(logArg.value);
    }
    logFile := metadata.LogFile();
    configFile := metadata.ConfigFile();
  }

  /** Once a getter has produced the default, a later override is refused
      and the getter keeps returning the default. */
  method OverrideAfterRead(path: Path, baseConfigDir: Path, baseCacheDir: Path)
    returns (first: Path, override: Result<(), MetadataError>, second: Path)
    ensures first == DefaultConfigFile(baseConfigDir) && second == first
    ensures override == Err(CannotOverrideConfigFile(path))
  {
    var metadata := new Metadata.Load(baseConfigDir, baseCacheDir);
    first := metadata.ConfigFile();
    override := metadata.SetConfigFile(path);
    second := metadata.ConfigFile();
  }

  /** A second `set` is refused and the first value stays. */
  method SecondSetRefused(p: Path, q: Path, baseConfigDir: Path, baseCacheDir: Path)
    returns (first: Result<(), MetadataError>, second: Result<(), MetadataError>, logFile: Path)
    ensures first == Ok(()) && second == Err(CannotOverrideLogFile(q)) && logFile == p
  {
    var metadata := new Metadata.Load(baseConfigDir, baseCacheDir);
    first := metadata.SetLogFile(p);
    second := metadata.SetLogFile(q);
    logFile := metadata.LogFile();
  }
}
