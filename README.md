# tissue configuration core, modelled in Dafny

`tissue` is a terminal text editor in its early stages. This project models the part of it
that does real work before the editor starts:

- the command-line parser;
- the write-once configuration and log file paths, and the walk that finds local `.tissue`
  directories up to the enclosing git root;
- the TOML value model and the depth-bounded `toml_merge`, which folds every `syntax.toml`,
  from the most specific to the built-in one, into one value;
- the serde decoding rules of the `Config`, `EditorConfig`, `LanguageConfig` and
  `SyntaxConfig` records;
- `Config::load`, which branches on the outcome of reading the configuration file;
- the pure pieces of `--health`: the category mapping, the cell format rule, the stable sort
  by name, the language lookup and the suggestions.

Modules, one per file:

- `Results`: Option and Result.
- `Fs`: paths as component sequences, and an abstract file system of `exists`, `is_dir` and
  `read_to_string` outcomes.
- `Toml`: values and field decoders.
- `Merge`: `toml_merge`.
- `Metadata`: src/metadata.rs.
- `Args`: src/args.rs.
- `Language`, `Editor`, `Syntax`, `Config`: src/config/*.rs and src/config.rs.
- `Health`: src/health.rs.

Where the source mutates state, the model does too.

- `Merge.TomlMerge` runs the source's loops, in `Merge.MergeArrays` and `Merge.MergeTables`:
  they remove, push and re-insert, and are proved to compute the recursive specification
  `Merge.Merged`.
- `Metadata.LocalConfigDirs` runs the ancestor loop with its early `break`.
- `Args.Parse` runs the argument loop with its early returns.
- `Health.CheckLanguages` runs the output loop, in `Health.WriteListing`.
- `Metadata.Metadata` is a class with two write-once cells.

Behaviour of the merge worth knowing:

- Elements of the accumulator array that no element of the other array names are kept, at the
  front of the result (`Merge.UnmatchedElementKept`, `Merge.ArrayMergeUnique`).
- Merging a value with itself is not the identity: unnamed array elements are appended a
  second time (`Merge.SelfMergeDuplicatesUnnamed`).

`toml::Value` has no null, so the model's `Toml.Value` has none either.

## Model

| member | source | states |
|---|---|---|
| Merge.Merged | src/config/syntax.rs:50-101 | The specification of `toml_merge` as a recursive function. Two arrays or two tables below the depth limit are merged one level down with the arguments swapped, two of the same kind at depth 0 give the first, and any other pairing gives the second. Its properties are the `Merge` lemmas below. |
| Merge.TomlMerge | src/config/syntax.rs:50-101 | The merge computes `Merged(a, b, depth)`: the two container branches defer to the loops below, one level down, and any other pairing gives `b`. |
| Merge.MergeArrays | src/config/syntax.rs:54-74 | The array loop, which removes the matching element and pushes the merge, computes `MergeItems`. Its invariant keeps the working array equal to a partial fold. |
| Merge.MergeTables | src/config/syntax.rs:81-94 | The table loop, which removes and re-inserts each left key, computes `MergeEntries`. Its invariant keeps the right map equal to the entries handled so far. |
| Merge.MergeDepthZero | src/config/syntax.rs:75-76 | At depth 0, two arrays or two tables give the first argument; any other pairing gives the second. |
| Merge.MergeMismatch | src/config/syntax.rs:99 | Any pairing other than array/array or table/table gives the second value unchanged, at every depth. |
| Merge.TableMerge | src/config/syntax.rs:81-97 | Below the depth limit, the result's keys are the union. One-side keys keep their value. A shared key holds `Merged(b[k], a[k], depth-1)`, with the arguments swapped. |
| Merge.MergeEntries | src/config/syntax.rs:83-93 | The merged table's keys are exactly the union of both key sets. |
| Merge.SharedScalarKeepsFirst | src/config/syntax.rs:84-87 | A shared key whose values are not containers of one kind keeps the first table's value. |
| Merge.SharedContainerAtLastLevel | src/config/syntax.rs:95-96 | At depth 1, a shared key holding two arrays or two tables takes the second table's value whole. |
| Merge.EmptyTableIdentity | src/config/syntax.rs:45-47 | Merging any value onto the empty seed table at depth > 0 gives that value back. |
| Merge.MergeItemStep | src/config/syntax.rs:57-71 | One loop step has two outcomes. An unnamed element, or one whose name no working element has, is appended unchanged. Otherwise the first working element with that name is removed and `Merged(match, element, d)` is appended. |
| Merge.Position | src/config/syntax.rs:62-65 | Finds the first index whose element has the given string name, or none when there is none. |
| Merge.MergeItemsLength | src/config/syntax.rs:56-74 | The merged array has between \|b\| and \|b\| + \|a\| elements. |
| Merge.MergeItemsNoMatch | src/config/syntax.rs:57-71 | When no element finds a match, the result is the working array followed by all of the first array. Nothing is dropped. |
| Merge.ArrayMergeUnique | src/config/syntax.rs:54-74 | With unique names on each side, the result is the unmatched elements of `b`, in order, followed by each element of `a`, in order, merged with its namesake in `b`. |
| Merge.MergeItemsSplit | src/config/syntax.rs:57-71 | The generalised loop invariant behind `ArrayMergeUnique`. |
| Merge.MergedKeepsName | src/config/syntax.rs:81-99 | Merging two tables with the same string name keeps that name. |
| Merge.MatchesAppendedElement | src/config/syntax.rs:62-66 | A match is searched in the working array, including elements appended earlier in the same loop. |
| Merge.UnmatchedElementKept | src/config/syntax.rs:54-74 | A worked case: the accumulator's unmatched `go` entry stays, at the front. |
| Merge.SelfMergeDuplicatesUnnamed | src/config/syntax.rs:57-71 | Merging an array of one unnamed element with itself gives two copies. |
| Merge.LanguageFoldExample | src/config/syntax.rs:27 | The worked fold step. The earlier source's `language-server` survives, and the later source's `file-types` array replaces the earlier one. |
| Syntax.Decode | src/config/syntax.rs:7-11 | Decoding needs a table with an array under `language`. Otherwise the errors are ExpectedTable, MissingField or InvalidType. On success the languages are the decoded elements. |
| Syntax.DecodeLanguages | src/config/syntax.rs:9-10 | Succeeds exactly when every element decodes, with elementwise results. The error is that of the first failing element. |
| Syntax.DecodeIgnoresOtherKeys | src/config/syntax.rs:7-8 | Keys other than `language` do not affect decoding. |
| Syntax.SourceFiles | src/config/syntax.rs:15-18 | The candidates are the local directories, innermost first, then the global configuration directory. Each is joined with `syntax.toml`. |
| Syntax.Load | src/config/syntax.rs:14-30 | `SyntaxConfig::load`, defined as the pipeline: read the candidate files, parse every readable text, put the built-in value after them, fold from the empty table with `Merged(acc, x, 3)`, and decode. Its contract is stated by `Syntax.LoadShape`, `Syntax.NoSourcesGiveBuiltin` and `Syntax.FirstSourceParseError`. |
| Syntax.Readable | src/config/syntax.rs:19-23 | Keeps only texts of files that could be read, and the text of every such file is kept. There are no more texts than files. |
| Syntax.ReadableSnoc | src/config/syntax.rs:19-23 | The texts keep the order of their files: one more file adds its text at the end exactly when it can be read. |
| Syntax.ParseAll | src/config/syntax.rs:24 | Gives Ok exactly when every readable text parses, with the values in order. Otherwise it gives the error of the first text that does not parse. |
| Syntax.LoadShape | src/config/syntax.rs:14-30 | When every text parses, the load decodes the built-in value merged onto the fold of the sources at depth 3, so the built-in comes last. Otherwise it fails with some text's parse error. |
| Syntax.FoldMergeSnoc | src/config/syntax.rs:27 | Folding one more value is one more `Merged(acc, x, 3)`. |
| Syntax.FoldMergeFirst | src/config/syntax.rs:27 | The first value folded onto the empty table is taken unchanged. |
| Syntax.NoSourcesGiveBuiltin | src/config/syntax.rs:14-30 | With none of the candidate files readable, the load is the decoded built-in value. |
| Syntax.FirstSourceParseError | src/config/syntax.rs:24 | A first readable source that fails to parse fails the whole load with its error. |
| Syntax.UnreadableSkipped | src/config/syntax.rs:19-23 | Removing an unreadable file does not change the collected texts. |
| Syntax.LanguageEntryMerge | src/config/syntax.rs:81-99 | Inside a language entry at depth 1, the earlier source's string fields win and the later source's arrays win. |
| Syntax.LoadDefault | src/config/syntax.rs:32-36 | The result is the decoded built-in value, which the source requires to decode. |
| Metadata.LocalConfigDirs | src/metadata.rs:112-132 | The loop with its `break` returns `Located(cwd, fs)`, the recorded ancestors each joined with `.tissue`. |
| Metadata.WalkRecorded | src/metadata.rs:117-125 | The walk as the loop performs it, with the paths found so far, ends with those paths followed by exactly the recorded ancestors. A `.git` ancestor is recorded and ends the walk, another one is recorded when it holds `.tissue`, and the walk stops after the root. |
| Metadata.RecordedAncestors | src/metadata.rs:117 | Every recorded path is an ancestor of the current directory, innermost first, each strictly above the one before. |
| Metadata.RecordedIff | src/metadata.rs:117-125 | An ancestor is recorded iff no ancestor strictly below it (the current directory included) is a git root, and it is either a git root or holds `.tissue`. |
| Metadata.GitRootLast | src/metadata.rs:119-121 | Any recorded git root is the last entry, so at most one entry comes from a git root. |
| Metadata.LocatedEntries | src/metadata.rs:127 | Entry i is recorded ancestor i joined with `.tissue`, the git root included. |
| Metadata.LocatedExample | src/metadata.rs:112-132 | From `/repo/sub/work`, with `/repo/.git` and `/repo/sub/.tissue`, the result is `/repo/sub/.tissue` then `/repo/.tissue`. |
| Metadata.DefaultFiles | src/metadata.rs:84-109 | The default files are `<config>/tissue/config.toml` and `<cache>/tissue/tissue.log`. |
| Metadata.Metadata.Load | src/metadata.rs:15-17 | Both cells start empty. |
| Metadata.Metadata.ConfigFile | src/metadata.rs:20-27 | Returns the stored path, or stores and returns the default. The cell is set afterwards. |
| Metadata.Metadata.LogFile | src/metadata.rs:30-37 | Returns the stored path, or stores and returns the default. The cell is set afterwards. |
| Metadata.Metadata.SetConfigFile | src/metadata.rs:44-54 | An empty cell takes the path and the call gives Ok. A set cell is unchanged and the call gives CannotOverrideConfigFile(path). |
| Metadata.Metadata.SetLogFile | src/metadata.rs:61-68 | An empty cell takes the path and the call gives Ok. A set cell is unchanged and the call gives CannotOverrideLogFile(path). |
| Metadata.ResolvePaths | src/main.rs:96-104 | A path given on the command line is what the getter returns later; without one, the getter returns the default. |
| Metadata.OverrideAfterRead | src/metadata.rs:20-27 | After a getter has stored the default, a set is refused and the getter still returns the default. |
| Metadata.SecondSetRefused | src/metadata.rs:61-68 | A second set is refused and the first path stays. |
| Args.ParseFrom | src/args.rs:52-83 | The argument parser as a recursive function, with the branches in the source's order: help, version, health, the path options, the level option, other `--` arguments as errors, and anything else as a file. Its properties are the `Args` lemmas below. |
| Args.Parse | src/args.rs:48-88 | The loop skips the program name and computes `ParseFrom(DefaultArgs, rest)`. |
| Args.NoArguments | src/args.rs:24-30 | No arguments give Options with no paths, verbosity Warn and no files. |
| Args.FilesInOrder | src/args.rs:81 | Plain arguments, including `-x` and `-`, are appended to files in order. |
| Args.FilesThen | src/args.rs:81 | Plain arguments before an option are gathered, and parsing goes on from the rest. |
| Args.HelpAndVersionStop | src/args.rs:54-55 | `-h`/`--help` and `-V`/`--version` give Help or Version, whatever follows. |
| Args.HealthArgument | src/args.rs:56-59 | `--health` takes the next argument only when it does not start with `-`, then returns. |
| Args.PathOptions | src/args.rs:60-67 | `-c`/`--config` and `-l`/`--log` take the next argument unconditionally. A missing one is MissingPath(option). |
| Args.ConfigLastWins | src/args.rs:60-63 | A later config option overwrites an earlier one. |
| Args.LevelOption | src/args.rs:68-79 | `-v` with a digit 0-3 sets the level. Any other value is InvalidLevel and a missing value is MissingLevel. |
| Args.OtherArguments | src/args.rs:80-81 | Any other argument starting with `--`, bare `--` included, is UnexpectedArgument. Anything else is a file. |
| Args.ParsedOptions | src/args.rs:48-88 | A successful parse keeps earlier files and adds only arguments it read, none starting with `--`. Its paths are the initial ones or values that follow a path option. |
| Args.LevelOf | src/args.rs:70-75 | Exactly "0"-"3" are levels, and each maps back to its digit. |
| Args.LevelOfDigit | src/args.rs:70-75 | Each verbosity is read back from its digit. |
| Args.ToLevelFilter | src/args.rs:13-22 | Each verbosity maps to the level filter of the same name, in order from Warn. |
| Config.Decode | src/config.rs:14-26 | Only `theme` and `editor` are accepted. Otherwise the error is UnknownFields. A missing theme is None and a missing editor is the editor default. `keys` is empty and `syntax` is the default. |
| Config.DecodeEncode | src/config.rs:14-26 | A configuration with the skipped fields at their defaults is read back from its table. |
| Config.EmptyIsDefault | src/config.rs:15 | An empty table decodes to `Config::default()`. |
| Config.Load | src/config.rs:29-39 | A file that is read, parses and decodes gives that configuration with the syntax load in place, or the syntax load's error. A parse or decode error is returned as is. NotFound gives the default with the syntax load, or its error. Any other read error is an IoError. |
| Language.Decode | src/config/language.rs:3-11 | Succeeds exactly on a table with the five kebab-case keys, all well typed. Otherwise the error is ExpectedTable, or UnknownFields for an unknown key. Each field is the key's value, or its default when absent. Programs decode to Some. |
| Language.DecodeEncode | src/config/language.rs:3-11 | Every language configuration is read back from its table. |
| Language.EmptyIsDefault | src/config/language.rs:3-4 | An empty table decodes to the default. |
| Language.ProgramsPresent | src/config/language.rs:9-10 | String programs decode to Some. |
| Editor.Decode | src/config/editor.rs:3-9 | Succeeds exactly on a table with accepted and well-typed keys. Each missing key falls back to its own default. |
| Editor.DecodeEncode | src/config/editor.rs:3-9 | Every editor configuration is read back from its table. |
| Editor.EmptyIsDefault | src/config/editor.rs:11-19 | The default is auto pairs on, absolute line numbers and mouse on. An empty table decodes to it. |
| Editor.OnlyMouse | src/config/editor.rs:4 | Setting only `mouse` keeps the other two defaults. |
| Health.CategoryOf | src/health.rs:15-24 | None and "all" give All, "clipboard" gives Clipboard and "languages" gives Languages. Any other string s gives Language(s). |
| Health.CategoryOfArg | src/health.rs:15-24 | Every category whose name is not reserved is reached from its argument. |
| Health.AllByName | src/health.rs:18 | "all" is the same as no category. |
| Health.Format | src/health.rs:60-68 | Every cell is exactly w wide. A value shorter than w-2 is padded. A longer one is cut to w-2 characters, followed by "…" and a space. |
| Health.FormatCutsAtBoundary | src/health.rs:63 | A value of exactly w-2 characters is cut as well. |
| Health.ProgramCell | src/health.rs:70-76 | A program on PATH gets a green tick, a missing one a red cross, and an absent one a yellow "None". |
| Health.LineWidths | src/health.rs:78-106 | Every listing line is three columns wide. |
| Health.ColumnWidth | src/health.rs:57-58 | The column width is the terminal's columns, or 80, divided by the three headings and rounded down: 26 without a terminal. |
| Health.Shown | src/health.rs:84-91 | The listing shows the loaded languages, or the built-in ones when the load fails. |
| Health.CheckLanguages | src/health.rs:50-109 | The output is the heading line, then one line per language, sorted by name. |
| Health.WriteHeadings | src/health.rs:78-82 | The heading loop writes one bold cell per heading, in order: `HeadingLine(w)`. |
| Health.WriteListing | src/health.rs:93-106 | After the heading line, the loop writes each language of the sorted configuration as its name cell and its two program cells. |
| Health.CheckAll | src/health.rs:42-44 | Writes the same listing as `check_languages`. |
| Health.ListingUnique | src/health.rs:42-44 | The listing is unique, so `check_all` and `check_languages` agree. |
| Health.ListingOrdered | src/health.rs:93 | Listed names are sorted and are a permutation of the languages. Languages sharing a name keep their order, so the sort is stable. |
| Health.SortByName | src/health.rs:93 | The sort by name keeps the length. Ordered, permutation and stability are its partner lemma `Health.SortByNameCorrect`. |
| Health.SortByNameCorrect | src/health.rs:93 | The sort is ordered, a permutation, and stable. |
| Health.LexLeTotal | src/health.rs:93 | String order is total. |
| Health.LexLeTransitive | src/health.rs:93 | String order is transitive. |
| Health.LexLeAntisymmetric | src/health.rs:93 | String order is antisymmetric. |
| Health.Find | src/health.rs:125 | Gives the first language whose name equals the query, or none. |
| Health.Suggestions | src/health.rs:132-136 | The suggestions are the names starting with the query's first character; every such name is suggested. |
| Health.SuggestionsSnoc | src/health.rs:132-136 | Suggestions keep load order. |
| Health.SuggestionLines | src/health.rs:138-146 | Zero suggestions print nothing, one prints "Did you mean X ?", and more print the names joined by ", ". |
| Health.ProgramStatus | src/health.rs:151-165 | A program on PATH is shown in green, a missing one with "(Not Found)" in red, and none as a yellow "None". |
| Health.CheckLanguage | src/health.rs:111-171 | A found language gives its two program lines. Otherwise the output is "Language 'q' not found" and the suggestions. The query must not be empty unless it is found. |
| Health.Check | src/health.rs:29-38 | All and Languages write the listing, and Language(q) writes `check_language(q)`. |

## Left out

- TOML text parsing and the embedded built-in `syntax.toml` are parameters. The parser is a function from text to a value or an error; the built-in is an already parsed value.
- serde's other encodings (a record decoded from an array, positionally) are not modelled; records decode from tables only.
- Which error serde reports when a table has several problems is abstracted. Unknown keys are reported first, as a set, and then the first wrongly typed field in declaration order.
- File system effects are not modelled: `create_dir_all` in the getters and setters (including the directory created at the file path itself by `set_*`), and the directory probes beyond the abstract `exists`/`is_dir`/`read` outcomes.
- `current_dir` is a parameter, and so are the platform base directories (`choose_base_strategy`).
- `main.rs` orchestration is left out: the logger setup, the async entry point, `App::run` and the "press ENTER" fallback on a bad configuration.
- `Metadata.ResolvePaths` models only the part of it that sets and reads the two path cells.
- Terminal output is left out: colours are abstract cell tags, and stderr messages on the syntax load fallback are not modelled. The terminal width is a parameter, and `which` is a parameter `onPath`.
- `check_clipboard` is `todo!()` in the source. `Health.Check` therefore requires a category other than Clipboard.
- `Health.Format`: counts characters, not bytes. The source cuts at a byte index; for ASCII input the two agree, but the tick, cross and ellipsis are multi-byte, so the model does not capture how those cells are cut. It requires a column width of at least 2, below which the source's subtraction underflows.
- `Health.SortByName`: the library's stable sort is modelled as an insertion sort on a sequence, not as an in-place update of the vector.
- `Health.CheckLanguage`: the requirement that the query be non-empty when it is not found stands for the panic of `unwrap` on an empty query.
- `Merge.ArrayMergeUnique`: the full characterisation of the array merge is stated only when names are unique on each side. With duplicate names only the length bounds, the no-match case and the worked examples are stated.
- `Args.Parse`: the final `for_each` after the loop has nothing left to consume, so it is not modelled.
- Paths are sequences of components. Joining and taking the parent are the only path operations, and normalisation is not modelled.
