/** src/config/editor.rs: the editor section. Kebab-case keys, unknown
    keys rejected, every missing key taken from the hand-written default. */
module Editor {
  import opened Results
  import opened Toml

  datatype EditorConfig = EditorConfig(autoPairs: bool, lineNumber: string, mouse: bool)

  /** `EditorConfig::default()`. */
  const Default: EditorConfig := EditorConfig(true, "absolute", true)

  const Fields: set<string> := {"auto-pairs", "line-number", "mouse"}

  predicate WellTyped(m: map<string, Value>) {
    && ("auto-pairs" in m ==> m["auto-pairs"].Boolean?)
    && ("line-number" in m ==> m["line-number"].Str?)
    && ("mouse" in m ==> m["mouse"].Boolean?)
  }

  /** Decoding succeeds exactly on a table with accepted, well-typed keys;
      each missing key falls back to its own default, independently of the
      others. */
  function Decode(v: Value): (r: Result<EditorConfig, Error>)
    ensures r.Ok? <==> v.Table? && v.entries.Keys <= Fields && WellTyped(v.entries)
    ensures !v.Table? ==> r == Err(ExpectedTable)
    ensures v.Table? && !(v.entries.Keys <= Fields) ==> r == Err(UnknownFields(v.entries.Keys - Fields))
    ensures r.Ok? ==>
              var m := v.entries;
              && r.value.autoPairs == (if "auto-pairs" in m then m["auto-pairs"].b else Default.autoPairs)
              && r.value.lineNumber == (if "line-number" in m then m["line-number"].s else Default.lineNumber)
              && r.value.mouse == (if "mouse" in m then m["mouse"].b else Default.mouse)
  {
    if !v.Table? then Err(ExpectedTable)
    else
      var m := v.entries;
      var known :- CheckKnown(m, Fields);
      var autoPairs :- FieldBool(m, "auto-pairs", Default.autoPairs);
      var lineNumber :- FieldString(m, "line-number", Default.lineNumber);
      var mouse :- FieldBool(m, "mouse", Default.mouse);
      Ok(EditorConfig(autoPairs, lineNumber, mouse))
  }

  function Encode(c: EditorConfig): (r: Value)
    ensures r.Table? && r.entries.Keys == Fields
  {
    Table(map["auto-pairs" := Boolean(c.autoPairs), "line-number" := Str(c.lineNumber),
              "mouse" := Boolean(c.mouse)])
  }

  lemma DecodeEncode(c: EditorConfig)
    ensures Decode(Encode(c)) == Ok(c)
  {
  }

  /** The default is pairs on, absolute line numbers, mouse on, and an
      empty table decodes to it. */
  lemma EmptyIsDefault()
    ensures Default.autoPairs && Default.lineNumber == "absolute" && Default.mouse
    ensures Decode(EmptyTable) == Ok(Default)
  {
  }

  /** Setting only `mouse` keeps the other two defaults. */
  lemma OnlyMouse(mouse: bool)
    ensures Decode(Table(map["mouse" := Boolean(mouse)])) == Ok(Default.(mouse := mouse))
  {
  }
}
