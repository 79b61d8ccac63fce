/** src/config.rs: the global configuration, its decoding from the
    configuration file, and `Config::load`, which picks the file's contents,
    the default, or an error by the outcome of reading the file, and then
    always loads the syntax configuration. Mode and key binding come from
    src/lib.rs. */
module Config {
  import opened Results
  import opened Toml
  import opened Fs
  import Editor
  import Syntax

  datatype Mode = Normal | Insert | Visual

  datatype KeyBinding = KeyBinding

  datatype Config = Config(
    theme: Option<string>,
    keys: map<Mode, KeyBinding>,
    editor: Editor.EditorConfig,
    syntax: Syntax.SyntaxConfig)

  /** The derived default. */
  const Default: Config := Config(None, map[], Editor.Default, Syntax.Default)

  /** The keys the file may hold; `keys` and `syntax` are skipped fields,
      so naming them in the file is an unknown key. */
  const Fields: set<string> := {"theme", "editor"}

  predicate WellTyped(m: map<string, Value>) {
    && ("theme" in m ==> m["theme"].Str?)
    && ("editor" in m ==> Editor.Decode(m["editor"]).Ok?)
  }

  /** Decoding the configuration file: a table with accepted keys whose
      `theme` is a string and whose `editor` decodes; a missing `theme` is
      `None`, a missing `editor` the editor default; the skipped fields take
      their defaults. */
  function Decode(v: Value): (r: Result<Config, Error>)
    ensures r.Ok? <==> v.Table? && v.entries.Keys <= Fields && WellTyped(v.entries)
    ensures !v.Table? ==> r == Err(ExpectedTable)
    ensures v.Table? && !(v.entries.Keys <= Fields) ==> r == Err(UnknownFields(v.entries.Keys - Fields))
    ensures r.Ok? ==>
              var m := v.entries;
              && r.value.theme == (if "theme" in m then Some(m["theme"].s) else None)
              && r.value.editor == (if "editor" in m then Editor.Decode(m["editor"]).value else Editor.Default)
              && r.value.keys == map[]
              && r.value.syntax == Syntax.Default
  {
    if !v.Table? then Err(ExpectedTable)
    else
      var m := v.entries;
      var known :- CheckKnown(m, Fields);
      var theme :- FieldOptString(m, "theme");
      var editor :- if "editor" in m then Editor.Decode(m["editor"]) else Ok(Editor.Default);
      Ok(Config(theme, map[], editor, Syntax.Default))
  }

  /** The file a user would write for `c`. */
  function Encode(c: Config): (r: Value)
    ensures r.Table? && r.entries.Keys <= Fields
  {
    Table((if c.theme.Some? then map["theme" := Str(c.theme.value)] else map[])
          + map["editor" := Editor.Encode(c.editor)])
  }

  /** A configuration with the skipped fields at their defaults is read
      back from its file. */
  lemma DecodeEncode(c: Config)
    requires c.keys == map[] && c.syntax == Syntax.Default
    ensures Decode(Encode(c)) == Ok(c)
  {
    Editor.DecodeEncode(c.editor);
    var m := Encode(c).entries;
    assert m["editor"] == Editor.Encode(c.editor);
  }

  /** An empty file is the default configuration. */
  lemma EmptyIsDefault()
    ensures Decode(EmptyTable) == Ok(Default)
  {
  }

  /** `Config::load`. `fs.read` gives the outcome of reading the file,
      `parse` stands for the TOML parser; the remaining arguments are what
      the syntax load needs. */
  method Load(path: Path, cwd: Path, fs: FileSystem, baseConfigDir: Path,
              parse: string -> Result<Value, Error>, builtin: Value)
    returns (r: Result<Config, Error>)
    ensures fs.read(path).OtherIoError? ==> r == Err(IoError(fs.read(path).kind))
    ensures fs.read(path).Contents? && parse(fs.read(path).text).Err? ==>
              r == Err(parse(fs.read(path).text).error)
    ensures fs.read(path).Contents? && parse(fs.read(path).text).Ok?
            && Decode(parse(fs.read(path).text).value).Err? ==>
              r == Err(Decode(parse(fs.read(path).text).value).error)
    ensures (fs.read(path).NotFound?
             || (fs.read(path).Contents? && parse(fs.read(path).text).Ok?
                 && Decode(parse(fs.read(path).text).value).Ok?))
            && Syntax.Load(cwd, fs, baseConfigDir, parse, builtin).Err? ==>
              r == Err(Syntax.Load(cwd, fs, baseConfigDir, parse, builtin).error)
    ensures fs.read(path).Contents? && parse(fs.read(path).text).Ok?
            && Decode(parse(fs.read(path).text).value).Ok?
            && Syntax.Load(cwd, fs, baseConfigDir, parse, builtin).Ok? ==>
              r == Ok(Decode(parse(fs.read(path).text).value).value
                        .(syntax := Syntax.Load(cwd, fs, baseConfigDir, parse, builtin).value))
    ensures r.Ok? ==>
              && Syntax.Load(cwd, fs, baseConfigDir, parse, builtin) == Ok(r.value.syntax)
              && (fs.read(path).NotFound? ==> r.value == Default.(syntax := r.value.syntax))
              && (fs.read(path).Contents? ==>
                    parse(fs.read(path).text).Ok?
                    && Decode(parse(fs.read(path).text).value)
                       == Ok(r.value.(syntax := Syntax.Default)))
    ensures fs.read(path).NotFound? && Syntax.Load(cwd, fs, baseConfigDir, parse, builtin).Ok? ==>
              r == Ok(Default.(syntax := Syntax.Load(cwd, fs, baseConfigDir, parse, builtin).value))
  {
    var config: Config;
    match fs.read(path) {
      case Contents(text) =>
        var value :- parse(text);
        config :- Decode(value);
      case NotFound =>
        config := Default;
      case OtherIoError(kind) =>
        return Err(IoError(kind));
    }
    var syntax :- Syntax.Load(cwd, fs, baseConfigDir, parse, builtin);
    config := config.(syntax := syntax);
    r := Ok(config);
  }
}
