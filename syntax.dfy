/** src/config/syntax.rs, apart from the merge itself: the syntax
    configuration record, its decoding, and the load pipeline that reads
    every `syntax.toml` in order of precedence and folds them together with
    the built-in configuration last. */
module Syntax {
  import opened Results
  import opened Toml
  import opened Fs
  import Metadata
  import Merge
  import Language

  datatype SyntaxConfig = SyntaxConfig(languages: seq<Language.LanguageConfig>)

  /** The derived default: no languages. */
  const Default: SyntaxConfig := SyntaxConfig([])

  const FileName: string := "syntax.toml"

  /** The depth the load fold passes to every merge. */
  const MergeDepth: nat := 3

  /** The key the `languages` field is read from. */
  const LanguageKey: string := "language"

  /** Decoding a sequence of languages stops at the first element that does
      not decode. */
  function DecodeLanguages(items: seq<Value>): (r: Result<seq<Language.LanguageConfig>, Error>)
    ensures r.Ok? <==> forall i :: 0 <= i < |items| ==> Language.Decode(items[i]).Ok?
    ensures r.Ok? ==> |r.value| == |items| &&
                      forall i :: 0 <= i < |items| ==> Language.Decode(items[i]) == Ok(r.value[i])
    ensures r.Err? ==> exists j :: 0 <= j < |items| && Language.Decode(items[j]).Err?
                                   && r == Err(Language.Decode(items[j]).error)
                                   && forall i :: 0 <= i < j ==> Language.Decode(items[i]).Ok?
  {
    if items == [] then Ok([])
    else
      var first :- Language.Decode(items[0]);
      var rest :- DecodeLanguages(items[1..]);
      assert forall i :: 1 <= i < |items| ==> items[i] == items[1..][i - 1];
      Ok([first] + rest)
  }

  /** Decoding the merged value: it must be a table holding an array under
      `language`; other keys are ignored. */
  function Decode(v: Value): (r: Result<SyntaxConfig, Error>)
    ensures !v.Table? ==> r == Err(ExpectedTable)
    ensures v.Table? && LanguageKey !in v.entries ==> r == Err(MissingField(LanguageKey))
    ensures v.Table? && LanguageKey in v.entries && !v.entries[LanguageKey].Array? ==>
              r == Err(InvalidType(LanguageKey))
    ensures r.Ok? <==> v.Table? && LanguageKey in v.entries && v.entries[LanguageKey].Array?
                       && DecodeLanguages(v.entries[LanguageKey].items).Ok?
    ensures r.Ok? ==> r.value.languages == DecodeLanguages(v.entries[LanguageKey].items).value
  {
    if !v.Table? then Err(ExpectedTable)
    else if LanguageKey !in v.entries then Err(MissingField(LanguageKey))
    else if !v.entries[LanguageKey].Array? then Err(InvalidType(LanguageKey))
    else
      var languages :- DecodeLanguages(v.entries[LanguageKey].items);
      Ok(SyntaxConfig(languages))
  }

  /** Keys other than `language` play no part in decoding. */
  lemma DecodeIgnoresOtherKeys(m: map<string, Value>, k: string, x: Value)
    requires k != LanguageKey
    ensures Decode(Table(m[k := x])) == Decode(Table(m))
  {
    assert (LanguageKey in m[k := x]) == (LanguageKey in m);
    if LanguageKey in m {
      assert m[k := x][LanguageKey] == m[LanguageKey];
    }
  }

  // ---------------------------------------------------------------------
  // The load pipeline

  /** The candidate files in order of precedence: each local configuration
      directory, innermost first, then the global configuration directory,
      each joined with `syntax.toml`. */
  function SourceFiles(cwd: Path, fs: FileSystem, baseConfigDir: Path): (r: seq<Path>)
    ensures |r| == |Metadata.Located(cwd, fs)| + 1
    ensures forall i :: 0 <= i < |Metadata.Located(cwd, fs)| ==>
              r[i] == Metadata.Located(cwd, fs)[i] + [FileName]
    ensures r[|r| - 1] == Metadata.ConfigDir(baseConfigDir) + [FileName]
  {
    var dirs := Metadata.Located(cwd, fs) + [Metadata.ConfigDir(baseConfigDir)];
    seq(|dirs|, i requires 0 <= i < |dirs| => Join(dirs[i], FileName))
  }

  /** The texts of the files that could be read, in order; a file that
      cannot be read, for whatever reason, is skipped. */
  function Readable(files: seq<Path>, fs: FileSystem): (r: seq<string>)
    ensures |r| <= |files|
    ensures forall t :: t in r ==> exists i :: 0 <= i < |files| && fs.read(files[i]) == Contents(t)
    ensures forall i :: 0 <= i < |files| && fs.read(files[i]).Contents? ==> fs.read(files[i]).text in r
  {
    if files == [] then []
    else
      var rest := Readable(files[1..], fs);
      assert forall i :: 1 <= i < |files| ==> files[i] == files[1..][i - 1];
      assert forall t :: t in rest ==> exists i :: 1 <= i < |files| && fs.read(files[i]) == Contents(t) by {
        forall t | t in rest ensures exists i :: 1 <= i < |files| && fs.read(files[i]) == Contents(t) {
          var i :| 0 <= i < |files[1..]| && fs.read(files[1..][i]) == Contents(t);
          assert fs.read(files[i + 1]) == Contents(t);
        }
      }
      match fs.read(files[0])
      case Contents(text) => [text] + rest
      case _ => rest
  }

  /** One more file adds its text at the end when it can be read: the texts
      keep the order of their files. */
  lemma {:induction false} ReadableSnoc(files: seq<Path>, f: Path, fs: FileSystem)
    ensures Readable(files + [f], fs)
         == Readable(files, fs) + (if fs.read(f).Contents? then [fs.read(f).text] else [])
    decreases |files|
  {
    var last := if fs.read(f).Contents? then [fs.read(f).text] else [];
    if files == [] {
      ReadableCons([f], fs);
      assert [f][1..] == [];
    } else {
      var t := files + [f];
      assert t[0] == files[0] && t[1..] == files[1..] + [f];
      var head := if fs.read(files[0]).Contents? then [fs.read(files[0]).text] else [];
      calc {
        Readable(t, fs);
        { ReadableCons(t, fs); }
        head + Readable(files[1..] + [f], fs);
        { ReadableSnoc(files[1..], f, fs); }
        head + (Readable(files[1..], fs) + last);
        (head + Readable(files[1..], fs)) + last;
        { ReadableCons(files, fs); }
        Readable(files, fs) + last;
      }
    }
  }

  lemma ReadableCons(files: seq<Path>, fs: FileSystem)
    requires files != []
    ensures Readable(files, fs)
         == (if fs.read(files[0]).Contents? then [fs.read(files[0]).text] else []) + Readable(files[1..], fs)
  {
  }

  /** Collecting the parse results: all of them when every text parses,
      otherwise the error of the first text that does not. */
  function ParseAll(texts: seq<string>, parse: string -> Result<Value, Error>): (r: Result<seq<Value>, Error>)
    ensures r.Ok? <==> forall i :: 0 <= i < |texts| ==> parse(texts[i]).Ok?
    ensures r.Ok? ==> |r.value| == |texts| &&
                      forall i :: 0 <= i < |texts| ==> parse(texts[i]) == Ok(r.value[i])
    ensures r.Err? ==> exists j :: 0 <= j < |texts| && parse(texts[j]).Err? && r == Err(parse(texts[j]).error)
                                   && forall i :: 0 <= i < j ==> parse(texts[i]).Ok?
  {
    if texts == [] then Ok([])
    else
      var first :- parse(texts[0]);
      var rest :- ParseAll(texts[1..], parse);
      assert forall i :: 1 <= i < |texts| ==> texts[i] == texts[1..][i - 1];
      Ok([first] + rest)
  }

  /** The fold of the values with `toml_merge(acc, x, 3)`. */
  function FoldMerge(acc: Value, xs: seq<Value>): Value
    decreases |xs|
  {
    if xs == [] then acc else FoldMerge(Merge.Merged(acc, xs[0], MergeDepth), xs[1..])
  }

  /** `SyntaxConfig::load`: read and parse the sources, add the built-in
      configuration after them, fold from the empty table, and decode.
      `parse` stands for the TOML parser and `builtin` for the parsed
      built-in `syntax.toml`. */
  function Load(cwd: Path, fs: FileSystem, baseConfigDir: Path,
                parse: string -> Result<Value, Error>, builtin: Value): Result<SyntaxConfig, Error>
  {
    var values :- ParseAll(Readable(SourceFiles(cwd, fs, baseConfigDir), fs), parse);
    Decode(FoldMerge(EmptyTable, values + [builtin]))
  }

  /** `SyntaxConfig::load_default`: the built-in configuration alone. The
      source panics when it does not decode; callers must rule that out. */
  function LoadDefault(builtin: Value): (r: SyntaxConfig)
    requires Decode(builtin).Ok?
    ensures Decode(builtin) == Ok(r)
  {
    Decode(builtin).value
  }

  // ---------------------------------------------------------------------
  // Properties of the pipeline

  /** Folding one more value merges it onto the fold of the others. */
  lemma {:induction false} FoldMergeSnoc(acc: Value, xs: seq<Value>, x: Value)
    ensures FoldMerge(acc, xs + [x]) == Merge.Merged(FoldMerge(acc, xs), x, MergeDepth)
    decreases |xs|
  {
    if xs == [] {
      assert [x][1..] == [];
    } else {
      assert (xs + [x])[1..] == xs[1..] + [x];
      FoldMergeSnoc(Merge.Merged(acc, xs[0], MergeDepth), xs[1..], x);
    }
  }

  /** The first value folded onto the empty seed is taken as it is. */
  lemma FoldMergeFirst(x: Value, xs: seq<Value>)
    ensures FoldMerge(EmptyTable, [x] + xs) == FoldMerge(x, xs)
  {
    Merge.EmptyTableIdentity(x, MergeDepth);
    assert ([x] + xs)[1..] == xs;
  }

  /** The load succeeds only when every readable source parses; it then
      decodes the merge of the built-in configuration onto the fold of the
      sources, the built-in coming last. A parse failure is the error of the
      first readable source that does not parse. */
  lemma LoadShape(cwd: Path, fs: FileSystem, baseConfigDir: Path,
                  parse: string -> Result<Value, Error>, builtin: Value)
    ensures var texts := Readable(SourceFiles(cwd, fs, baseConfigDir), fs);
            var parsed := ParseAll(texts, parse);
            && (parsed.Ok? ==> Load(cwd, fs, baseConfigDir, parse, builtin)
                               == Decode(Merge.Merged(FoldMerge(EmptyTable, parsed.value), builtin, MergeDepth)))
            && (parsed.Err? ==> exists j :: 0 <= j < |texts| && parse(texts[j]).Err?
                                  && Load(cwd, fs, baseConfigDir, parse, builtin) == Err(parse(texts[j]).error))
  {
    var parsed := ParseAll(Readable(SourceFiles(cwd, fs, baseConfigDir), fs), parse);
    if parsed.Ok? {
      FoldMergeSnoc(EmptyTable, parsed.value, builtin);
    }
  }

  /** With no readable source the result is the decoded built-in
      configuration. */
  lemma NoSourcesGiveBuiltin(cwd: Path, fs: FileSystem, baseConfigDir: Path,
                             parse: string -> Result<Value, Error>, builtin: Value)
    requires forall i :: 0 <= i < |SourceFiles(cwd, fs, baseConfigDir)| ==>
               !fs.read(SourceFiles(cwd, fs, baseConfigDir)[i]).Contents?
    ensures Load(cwd, fs, baseConfigDir, parse, builtin) == Decode(builtin)
  {
    var texts := Readable(SourceFiles(cwd, fs, baseConfigDir), fs);
    NothingReadable(SourceFiles(cwd, fs, baseConfigDir), fs);
    assert ParseAll(texts, parse) == Ok([]);
    Merge.EmptyTableIdentity(builtin, MergeDepth);
    assert [] + [builtin] == [builtin];
    assert FoldMerge(EmptyTable, [builtin]) == builtin by {
      assert [builtin][1..] == [];
    }
  }

  lemma {:induction false} NothingReadable(files: seq<Path>, fs: FileSystem)
    requires forall i :: 0 <= i < |files| ==> !fs.read(files[i]).Contents?
    ensures Readable(files, fs) == []
    decreases |files|
  {
    if files != [] {
      NothingReadable(files[1..], fs);
    }
  }

  /** A readable source that fails to parse makes the whole load fail,
      even when a later source or the built-in would be fine. */
  lemma FirstSourceParseError(cwd: Path, fs: FileSystem, baseConfigDir: Path,
                              parse: string -> Result<Value, Error>, builtin: Value, e: Error)
    requires var texts := Readable(SourceFiles(cwd, fs, baseConfigDir), fs);
             texts != [] && parse(texts[0]) == Err(e)
    ensures Load(cwd, fs, baseConfigDir, parse, builtin) == Err(e)
  {
  }

  /** An unreadable file leaves the collected texts as they were. */
  lemma {:induction false} UnreadableSkipped(files: seq<Path>, fs: FileSystem, k: nat)
    requires k < |files| && !fs.read(files[k]).Contents?
    ensures Readable(files, fs) == Readable(files[..k] + files[k + 1..], fs)
    decreases |files|
  {
    if k > 0 {
      var rest := files[..k] + files[k + 1..];
      assert rest[0] == files[0];
      assert rest[1..] == files[1..][..k - 1] + files[1..][k..];
      UnreadableSkipped(files[1..], fs, k - 1);
    } else {
      assert files[..k] + files[k + 1..] == files[1..];
    }
  }

  /** Two sources naming one language: the more specific (earlier) source's
      string fields survive the fold while the later source's arrays replace
      the earlier ones. Shown for a language entry met at depth one, as the
      entries inside `language` are in the load fold. */
  lemma LanguageEntryMerge(early: map<string, Value>, late: map<string, Value>, k: string)
    requires k in early && k in late
    ensures early[k].Str? && late[k].Str? ==>
              Merge.Merged(Table(early), Table(late), 1).entries[k] == early[k]
    ensures early[k].Array? && late[k].Array? ==>
              Merge.Merged(Table(early), Table(late), 1).entries[k] == late[k]
  {
    Merge.TableMerge(early, late, 1);
  }
}
