/** src/config/language.rs: one language of the syntax configuration.
    The record uses kebab-case keys, rejects unknown keys, and gives every
    missing key the value of the record's default. */
module Language {
  import opened Results
  import opened Toml

  datatype LanguageConfig = LanguageConfig(
    name: string,
    fileTypes: seq<string>,
    roots: seq<string>,
    languageServer: Option<string>,
    debugger: Option<string>)

  /** The derived default: empty name and lists, no programs. */
  const Default: LanguageConfig := LanguageConfig("", [], [], None, None)

  /** The accepted keys. */
  const Fields: set<string> := {"name", "file-types", "roots", "language-server", "debugger"}

  /** Every accepted key that is present holds a value of its field's type. */
  predicate WellTyped(m: map<string, Value>) {
    && ("name" in m ==> m["name"].Str?)
    && ("file-types" in m ==> IsStringArray(m["file-types"]))
    && ("roots" in m ==> IsStringArray(m["roots"]))
    && ("language-server" in m ==> m["language-server"].Str?)
    && ("debugger" in m ==> m["debugger"].Str?)
  }

  /** Decoding a value into a `LanguageConfig`: it succeeds exactly on a
      table whose keys are all accepted and whose fields are well typed;
      each field is then the key's value, or its default when absent. */
  function Decode(v: Value): (r: Result<LanguageConfig, Error>)
    ensures r.Ok? <==> v.Table? && v.entries.Keys <= Fields && WellTyped(v.entries)
    ensures !v.Table? ==> r == Err(ExpectedTable)
    ensures v.Table? && !(v.entries.Keys <= Fields) ==> r == Err(UnknownFields(v.entries.Keys - Fields))
    ensures r.Ok? ==>
              var m := v.entries;
              && r.value.name == (if "name" in m then m["name"].s else Default.name)
              && r.value.fileTypes == (if "file-types" in m then Strings(m["file-types"]) else Default.fileTypes)
              && r.value.roots == (if "roots" in m then Strings(m["roots"]) else Default.roots)
              && r.value.languageServer == (if "language-server" in m then Some(m["language-server"].s) else None)
              && r.value.debugger == (if "debugger" in m then Some(m["debugger"].s) else None)
  {
    if !v.Table? then Err(ExpectedTable)
    else
      var m := v.entries;
      var known :- CheckKnown(m, Fields);
      var name :- FieldString(m, "name", Default.name);
      var fileTypes :- FieldStrings(m, "file-types");
      var roots :- FieldStrings(m, "roots");
      var languageServer :- FieldOptString(m, "language-server");
      var debugger :- FieldOptString(m, "debugger");
      Ok(LanguageConfig(name, fileTypes, roots, languageServer, debugger))
  }

  function OptionalEntry(key: string, value: Option<string>): map<string, Value> {
    if value.Some? then map[key := Str(value.value)] else map[]
  }

  /** The table a configuration file would hold for `c`; an absent
      program is left out. */
  function Encode(c: LanguageConfig): (r: Value)
    ensures r.Table? && r.entries.Keys <= Fields
  {
    Table(map["name" := Str(c.name), "file-types" := StringArray(c.fileTypes),
              "roots" := StringArray(c.roots)]
          + OptionalEntry("language-server", c.languageServer)
          + OptionalEntry("debugger", c.debugger))
  }

  /** Every configuration is read back from its table. */
  lemma DecodeEncode(c: LanguageConfig)
    ensures Decode(Encode(c)) == Ok(c)
  {
    var m := Encode(c).entries;
    assert m["name"] == Str(c.name);
    assert m["file-types"] == StringArray(c.fileTypes);
    assert m["roots"] == StringArray(c.roots);
  }

  /** An empty table is the default configuration. */
  lemma EmptyIsDefault()
    ensures Decode(EmptyTable) == Ok(Default)
  {
  }

  /** Present string programs decode to `Some`. */
  lemma ProgramsPresent(m: map<string, Value>, server: string, debugger: string)
    requires m == map["language-server" := Str(server), "debugger" := Str(debugger)]
    ensures Decode(Table(m)) == Ok(Default.(languageServer := Some(server), debugger := Some(debugger)))
  {
  }
}
