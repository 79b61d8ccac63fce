/** src/health.rs: the `--health` report. The terminal is abstracted: a
    report is a sequence of lines, each a sequence of coloured cells; the
    terminal width, the program lookup on `PATH` and the inputs of the
    syntax load are parameters. */
module Health {
  import opened Results
  import opened Toml
  import opened Fs
  import Language
  import Syntax

  // ---------------------------------------------------------------------
  // Categories

  datatype HealthCategory = All | Clipboard | Languages | Language(name: string)

  /** `From<Option<String>> for HealthCategory`. */
  function CategoryOf(s: Option<string>): (r: HealthCategory)
    ensures r == All <==> s == None || s == Some("all")
    ensures r == Clipboard <==> s == Some("clipboard")
    ensures r == Languages <==> s == Some("languages")
    ensures r.Language? <==> s.Some? && s.value !in ReservedNames
    ensures r.Language? ==> r.name == s.value
  {
    match s
    case None => All
    case Some(name) =>
      if name == "all" then All
      else if name == "clipboard" then Clipboard
      else if name == "languages" then Languages
      else Language(name)
  }

  /** The category names that do not name a language. */
  const ReservedNames: set<string> := {"all", "clipboard", "languages"}

  /** The argument that selects a category. */
  function ArgOf(c: HealthCategory): Option<string> {
    match c
    case All => None
    case Clipboard => Some("clipboard")
    case Languages => Some("languages")
    case Language(name) => Some(name)
  }

  /** Every category is reached from its argument, except a language that
      carries a reserved name. */
  lemma CategoryOfArg(c: HealthCategory)
    requires c.Language? ==> c.name !in ReservedNames
    ensures CategoryOf(ArgOf(c)) == c
  {
  }

  /** `Some("all")` is the same as giving no category. */
  lemma AllByName()
    ensures CategoryOf(Some("all")) == CategoryOf(None)
  {
  }

  // ---------------------------------------------------------------------
  // String order

  /** `str::cmp`: lexicographic order, a proper prefix first. Over
      characters it agrees with the byte order of the UTF-8 encoding. */
  predicate LexLe(a: string, b: string)
    decreases |a|
  {
    if a == [] then true
    else if b == [] then false
    else if a[0] < b[0] then true
    else if a[0] > b[0] then false
    else LexLe(a[1..], b[1..])
  }

  lemma {:induction false} LexLeTotal(a: string, b: string)
    ensures LexLe(a, b) || LexLe(b, a)
    decreases |a|
  {
    if a != [] && b != [] && a[0] == b[0] {
      LexLeTotal(a[1..], b[1..]);
    }
  }

  lemma {:induction false} LexLeAntisymmetric(a: string, b: string)
    requires LexLe(a, b) && LexLe(b, a)
    ensures a == b
    decreases |a|
  {
    if a != [] && b != [] {
      LexLeAntisymmetric(a[1..], b[1..]);
      assert a == [a[0]] + a[1..] && b == [b[0]] + b[1..];
    }
  }

  lemma {:induction false} LexLeTransitive(a: string, b: string, c: string)
    requires LexLe(a, b) && LexLe(b, c)
    ensures LexLe(a, c)
    decreases |a|
  {
    if a != [] && b != [] && c != [] && a[0] == b[0] && b[0] == c[0] {
      LexLeTransitive(a[1..], b[1..], c[1..]);
    }
  }

  // ---------------------------------------------------------------------
  // The sort by name

  type LanguageConfig = Language.LanguageConfig

  predicate SortedByName(s: seq<LanguageConfig>) {
    forall i, j :: 0 <= i < j < |s| ==> LexLe(s[i].name, s[j].name)
  }

  /** Inserts `x` after every element whose name is not greater than its
      own, so it follows the equal names already there. */
  function Insert(s: seq<LanguageConfig>, x: LanguageConfig): (r: seq<LanguageConfig>)
    ensures |r| == |s| + 1
  {
    if s == [] then [x]
    else if LexLe(s[0].name, x.name) then [s[0]] + Insert(s[1..], x)
    else [x] + s
  }

  /** `sort_by(|a, b| a.name.cmp(&b.name))`: a stable sort, written as an
      insertion sort. */
  function SortByName(s: seq<LanguageConfig>): (r: seq<LanguageConfig>)
    ensures |r| == |s|
    decreases |s|
  {
    if s == [] then [] else Insert(SortByName(s[..|s| - 1]), s[|s| - 1])
  }

  /** The elements of `s` with name `n`, in their order. */
  function WithName(s: seq<LanguageConfig>, n: string): seq<LanguageConfig>
    decreases |s|
  {
    if s == [] then []
    else (if s[0].name == n then [s[0]] else []) + WithName(s[1..], n)
  }

  lemma {:induction false} InsertMultiset(s: seq<LanguageConfig>, x: LanguageConfig)
    ensures multiset(Insert(s, x)) == multiset(s) + multiset{x}
    decreases |s|
  {
    if s != [] && LexLe(s[0].name, x.name) {
      InsertMultiset(s[1..], x);
      assert s == [s[0]] + s[1..];
    }
  }

  lemma {:induction false} InsertSorted(s: seq<LanguageConfig>, x: LanguageConfig)
    requires SortedByName(s)
    ensures SortedByName(Insert(s, x))
    decreases |s|
  {
    if s != [] {
      if LexLe(s[0].name, x.name) {
        InsertSorted(s[1..], x);
        InsertMultiset(s[1..], x);
        var t := Insert(s[1..], x);
        forall j | 0 <= j < |t| ensures LexLe(s[0].name, t[j].name) {
          InsertBelow(s, x, t, j);
        }
        assert Insert(s, x) == [s[0]] + t;
      } else {
        LexLeTotal(s[0].name, x.name);
        forall j | 0 <= j < |s| ensures LexLe(x.name, s[j].name) {
          if j > 0 {
            LexLeTransitive(x.name, s[0].name, s[j].name);
          }
        }
      }
    }
  }

  lemma InsertBelow(s: seq<LanguageConfig>, x: LanguageConfig, t: seq<LanguageConfig>, j: nat)
    requires SortedByName(s) && s != [] && LexLe(s[0].name, x.name)
    requires multiset(t) == multiset(s[1..]) + multiset{x} && j < |t|
    ensures LexLe(s[0].name, t[j].name)
  {
    assert t[j] in multiset(t);
    if t[j] != x {
      assert t[j] in multiset(s[1..]);
      var k :| 0 <= k < |s[1..]| && s[1..][k] == t[j];
      assert s[k + 1] == t[j];
    }
  }

  lemma {:induction false} WithNameInsert(s: seq<LanguageConfig>, x: LanguageConfig, n: string)
    requires SortedByName(s)
    ensures WithName(Insert(s, x), n) == WithName(s, n) + (if x.name == n then [x] else [])
    decreases |s|
  {
    if s == [] {
      assert WithName([x], n) == (if x.name == n then [x] else []) + WithName([], n);
    } else if LexLe(s[0].name, x.name) {
      var t := Insert(s[1..], x);
      assert Insert(s, x) == [s[0]] + t;
      assert ([s[0]] + t)[0] == s[0] && ([s[0]] + t)[1..] == t;
      var head := if s[0].name == n then [s[0]] else [];
      var last := if x.name == n then [x] else [];
      calc {
        WithName(Insert(s, x), n);
        head + WithName(t, n);
        { WithNameInsert(s[1..], x, n); }
        head + (WithName(s[1..], n) + last);
        (head + WithName(s[1..], n)) + last;
        WithName(s, n) + last;
      }
    } else {
      assert ([x] + s)[1..] == s;
      if x.name == n {
        NoneWithName(s, n);
      }
    }
  }

  /** A sorted sequence whose first name is greater than `n` has no element
      named `n`. */
  lemma {:induction false} NoneWithName(s: seq<LanguageConfig>, n: string)
    requires SortedByName(s) && s != [] && !LexLe(s[0].name, n)
    ensures WithName(s, n) == []
    decreases |s|
  {
    LexLeRefl(n);
    if |s| > 1 {
      assert LexLe(s[0].name, s[1].name);
      if LexLe(s[1].name, n) {
        LexLeTransitive(s[0].name, s[1].name, n);
      }
      NoneWithName(s[1..], n);
    }
  }

  lemma {:induction false} LexLeRefl(a: string)
    ensures LexLe(a, a)
    decreases |a|
  {
    if a != [] {
      LexLeRefl(a[1..]);
    }
  }

  lemma {:induction false} WithNameSnoc(s: seq<LanguageConfig>, x: LanguageConfig, n: string)
    ensures WithName(s + [x], n) == WithName(s, n) + (if x.name == n then [x] else [])
    decreases |s|
  {
    if s == [] {
      assert WithName([x], n) == (if x.name == n then [x] else []) + WithName([], n);
    } else {
      var t := s + [x];
      assert t[0] == s[0] && t[1..] == s[1..] + [x];
      var head := if s[0].name == n then [s[0]] else [];
      var last := if x.name == n then [x] else [];
      calc {
        WithName(t, n);
        head + WithName(s[1..] + [x], n);
        { WithNameSnoc(s[1..], x, n); }
        head + (WithName(s[1..], n) + last);
        (head + WithName(s[1..], n)) + last;
        WithName(s, n) + last;
      }
    }
  }

  /** The sort orders by name, keeps every element, and is stable: the
      elements sharing a name keep their relative order. */
  lemma {:induction false} SortByNameCorrect(s: seq<LanguageConfig>)
    ensures SortedByName(SortByName(s))
    ensures multiset(SortByName(s)) == multiset(s)
    ensures forall n :: WithName(SortByName(s), n) == WithName(s, n)
    decreases |s|
  {
    if s != [] {
      var init := s[..|s| - 1];
      var x := s[|s| - 1];
      SortByNameCorrect(init);
      InsertSorted(SortByName(init), x);
      InsertMultiset(SortByName(init), x);
      assert s == init + [x];
      forall n ensures WithName(SortByName(s), n) == WithName(s, n) {
        WithNameInsert(SortByName(init), x, n);
        WithNameSnoc(init, x, n);
      }
    }
  }

  // ---------------------------------------------------------------------
  // Cells and lines

  function Max(a: nat, b: nat): nat {
    if a >= b then a else b
  }

  function Spaces(n: nat): (r: string)
    ensures |r| == n && forall i :: 0 <= i < n ==> r[i] == ' '
  {
    seq(n, i => ' ')
  }

  /** `{:width$}`: left-aligned, padded with spaces to at least `w`
      characters, never cut. */
  function Pad(v: string, w: nat): (r: string)
    ensures |r| == Max(|v|, w)
    ensures r[..|v|] == v && forall i :: |v| <= i < |r| ==> r[i] == ' '
  {
    if |v| < w then v + Spaces(w - |v|) else v
  }

  /** The `format` closure over a column of width `w`: a value of at least
      `w - 2` characters is cut to `w - 2` and gets an ellipsis, then the
      cell is padded to `w`. Every cell is exactly `w` wide. */
  function Format(v: string, w: nat): (r: string)
    requires w >= 2
    ensures |r| == w
    ensures |v| < w - 2 ==> r == v + Spaces(w - |v|)
    ensures |v| >= w - 2 ==> r == v[..w - 2] + "…" + " "
  {
    if |v| >= w - 2 then Pad(v[..w - 2] + "…", w) else Pad(v, w)
  }

  /** A value of exactly `w - 2` characters would fit with room to spare,
      but it is cut all the same: its cell ends in an ellipsis, not in
      padding. */
  lemma FormatCutsAtBoundary(v: string, w: nat)
    requires w >= 2 && |v| == w - 2
    ensures Format(v, w) == v + "…" + " "
    ensures Format(v, w) != v + Spaces(2)
  {
    assert (v + Spaces(2))[w - 2] == ' ';
    assert Format(v, w)[w - 2] == '…';
  }

  datatype Colour = Heading | Plain | Green | Red | Yellow

  datatype Cell = Cell(text: string, colour: Colour)

  type Line = seq<Cell>

  /** The column headings. */
  const Headings: seq<string> := ["Language", "LSP", "DAP"]

  /** The `check_program` closure: a program found on `PATH` is ticked in
      green, a missing one crossed in red, an absent one is "None" in
      yellow. */
  function ProgramCell(name: Option<string>, w: nat, onPath: string -> bool): (r: Cell)
    requires w >= 2
    ensures |r.text| == w
    ensures name.None? ==> r == Cell(Format("None", w), Yellow)
    ensures name.Some? && onPath(name.value) ==> r == Cell(Format("✓ " + name.value, w), Green)
    ensures name.Some? && !onPath(name.value) ==> r == Cell(Format("✘ " + name.value, w), Red)
  {
    match name
    case None => Cell(Format("None", w), Yellow)
    case Some(n) =>
      if onPath(n) then Cell(Format("✓ " + n, w), Green) else Cell(Format("✘ " + n, w), Red)
  }

  function HeadingLine(w: nat): (r: Line)
    requires w >= 2
    ensures |r| == |Headings|
  {
    seq(|Headings|, j requires 0 <= j < |Headings| => Cell(Format(Headings[j], w), Heading))
  }

  function LanguageLine(l: LanguageConfig, w: nat, onPath: string -> bool): (r: Line)
    requires w >= 2
    ensures |r| == 3 && r[0] == Cell(Format(l.name, w), Plain)
  {
    [Cell(Format(l.name, w), Plain), ProgramCell(l.languageServer, w, onPath),
     ProgramCell(l.debugger, w, onPath)]
  }

  function TextWidth(line: Line): nat {
    if line == [] then 0 else |line[0].text| + TextWidth(line[1..])
  }

  lemma TextWidthOfThree(line: Line)
    requires |line| == 3
    ensures TextWidth(line) == |line[0].text| + |line[1].text| + |line[2].text|
  {
    var t := line[1..];
    assert t[0] == line[1];
    assert t[1..][0] == line[2];
    assert t[1..][1..] == [];
    assert TextWidth(t[1..]) == |line[2].text| + TextWidth(t[1..][1..]);
  }

  /** Every line of the listing is three columns wide. */
  lemma LineWidths(l: LanguageConfig, w: nat, onPath: string -> bool)
    requires w >= 2
    ensures TextWidth(HeadingLine(w)) == 3 * w
    ensures TextWidth(LanguageLine(l, w, onPath)) == 3 * w
  {
    TextWidthOfThree(HeadingLine(w));
    TextWidthOfThree(LanguageLine(l, w, onPath));
  }

  // ---------------------------------------------------------------------
  // The report

  /** What the health check depends on: the inputs of the syntax load, the
      terminal's width when it has one, and which programs are on `PATH`. */
  datatype Environment = Environment(
    cwd: Path,
    fs: FileSystem,
    baseConfigDir: Path,
    parse: string -> Result<Value, Error>,
    builtin: Value,
    terminalColumns: Option<nat>,
    onPath: string -> bool)

  /** `column_width`: the terminal's columns, or 80, shared by the headings. */
  function ColumnWidth(env: Environment): (r: nat)
    ensures env.terminalColumns.None? ==> r == 26
    ensures var columns := env.terminalColumns.GetOr(80);
            r * |Headings| <= columns < (r + 1) * |Headings|
  {
    env.terminalColumns.GetOr(80) / |Headings|
  }

  function Loaded(env: Environment): Result<Syntax.SyntaxConfig, Error> {
    Syntax.Load(env.cwd, env.fs, env.baseConfigDir, env.parse, env.builtin)
  }

  /** The load succeeds, or the built-in configuration it falls back to
      decodes. */
  predicate CanShow(env: Environment) {
    Loaded(env).Ok? || Syntax.Decode(env.builtin).Ok?
  }

  /** The languages the report shows: the loaded ones, or the built-in ones
      when the load fails. */
  function Shown(env: Environment): (r: seq<LanguageConfig>)
    requires CanShow(env)
    ensures Loaded(env).Ok? ==> r == Loaded(env).value.languages
    ensures Loaded(env).Err? ==> Syntax.Decode(env.builtin) == Ok(Syntax.SyntaxConfig(r))
  {
    if Loaded(env).Ok? then Loaded(env).value.languages
    else Syntax.LoadDefault(env.builtin).languages
  }

  /** The listing `check_languages` writes for `languages`: the heading
      line, then one line per language in name order. */
  predicate IsListing(languages: seq<LanguageConfig>, w: nat, onPath: string -> bool, out: seq<Line>)
    requires w >= 2
  {
    var sorted := SortByName(languages);
    && |out| == |sorted| + 1
    && out[0] == HeadingLine(w)
    && forall i :: 0 <= i < |sorted| ==> out[i + 1] == LanguageLine(sorted[i], w, onPath)
  }

  predicate IsLanguagesReport(env: Environment, out: seq<Line>)
    requires ColumnWidth(env) >= 2 && CanShow(env)
  {
    IsListing(Shown(env), ColumnWidth(env), env.onPath, out)
  }

  /** The loop over the headings. */
  method WriteHeadings(w: nat) returns (heading: Line)
    requires w >= 2
    ensures heading == HeadingLine(w)
  {
    heading := [];
    for k := 0 to |Headings|
      invariant heading == seq(k, j requires 0 <= j < k => Cell(Format(Headings[j], w), Heading))
    {
      heading := heading + [Cell(Format(Headings[k], w), Heading)];
    }
  }

  /** The listing loop: the headings, then the languages sorted by name,
      one line each. */
  method WriteListing(languages: seq<LanguageConfig>, w: nat, onPath: string -> bool) returns (out: seq<Line>)
    requires w >= 2
    ensures IsListing(languages, w, onPath, out)
  {
    var heading := WriteHeadings(w);
    out := [heading];
    var sorted := SortByName(languages);
    for i := 0 to |sorted|
      invariant |out| == i + 1 && out[0] == HeadingLine(w)
      invariant forall j :: 0 <= j < i ==> out[j + 1] == LanguageLine(sorted[j], w, onPath)
    {
      out := out + [LanguageLine(sorted[i], w, onPath)];
    }
  }

  /** `check_languages`: the listing of the languages shown, in a column
      width taken from the terminal. */
  method CheckLanguages(env: Environment) returns (out: seq<Line>)
    requires ColumnWidth(env) >= 2 && CanShow(env)
    ensures IsLanguagesReport(env, out)
  {
    out := WriteListing(Shown(env), ColumnWidth(env), env.onPath);
  }

  /** `check_all`: the languages listing and nothing else. */
  method CheckAll(env: Environment) returns (out: seq<Line>)
    requires ColumnWidth(env) >= 2 && CanShow(env)
    ensures IsLanguagesReport(env, out)
  {
    out := CheckLanguages(env);
  }

  /** The listing is determined by the languages, so `check_all` and
      `check_languages` write the same lines. */
  lemma ListingUnique(languages: seq<LanguageConfig>, w: nat, onPath: string -> bool, a: seq<Line>, b: seq<Line>)
    requires w >= 2
    requires IsListing(languages, w, onPath, a) && IsListing(languages, w, onPath, b)
    ensures a == b
  {
    var sorted := SortByName(languages);
    forall i | 0 <= i < |a| ensures a[i] == b[i] {
      if i > 0 {
        assert a[i] == LanguageLine(sorted[i - 1], w, onPath);
      }
    }
  }

  /** The listed names are in order and are exactly the languages given,
      those sharing a name in their original order. */
  lemma ListingOrdered(languages: seq<LanguageConfig>, w: nat, onPath: string -> bool, out: seq<Line>)
    requires w >= 2
    requires IsListing(languages, w, onPath, out)
    ensures NamesListed(SortByName(languages), w, out)
    ensures SortedByName(SortByName(languages))
    ensures multiset(SortByName(languages)) == multiset(languages)
    ensures forall n :: WithName(SortByName(languages), n) == WithName(languages, n)
  {
    var sorted := SortByName(languages);
    forall i | 1 <= i < |out| ensures |out[i]| > 0 && out[i][0] == Cell(Format(sorted[i - 1].name, w), Plain) {
      assert out[i] == LanguageLine(sorted[i - 1], w, onPath);
    }
    SortByNameCorrect(languages);
  }

  /** Line `i` of the listing starts with the name of `sorted[i - 1]`. */
  predicate NamesListed(sorted: seq<LanguageConfig>, w: nat, out: seq<Line>)
    requires w >= 2
  {
    |out| == |sorted| + 1 &&
    forall i :: 1 <= i < |out| ==> |out[i]| > 0 && out[i][0] == Cell(Format(sorted[i - 1].name, w), Plain)
  }

  // ---------------------------------------------------------------------
  // One language

  /** `iter().find(|l| l.name == language)`: the first language so named. */
  function Find(langs: seq<LanguageConfig>, query: string): (r: Option<nat>)
    ensures r.Some? ==> r.value < |langs| && langs[r.value].name == query
                        && forall j :: 0 <= j < r.value ==> langs[j].name != query
    ensures r.None? ==> forall j :: 0 <= j < |langs| ==> langs[j].name != query
  {
    if langs == [] then None
    else if langs[0].name == query then Some(0)
    else
      match Find(langs[1..], query)
      case None => None
      case Some(p) => Some(p + 1)
  }

  predicate StartsWithChar(s: string, c: char) {
    |s| > 0 && s[0] == c
  }

  /** The names starting with `c`, in load order. */
  function Suggestions(langs: seq<LanguageConfig>, c: char): (r: seq<string>)
    ensures |r| <= |langs|
    ensures forall s :: s in r ==> StartsWithChar(s, c)
    ensures forall i :: 0 <= i < |langs| && StartsWithChar(langs[i].name, c) ==> langs[i].name in r
    ensures forall s :: s in r ==> exists i :: 0 <= i < |langs| && langs[i].name == s
  {
    if langs == [] then []
    else
      var rest := Suggestions(langs[1..], c);
      assert forall i :: 1 <= i < |langs| ==> langs[i] == langs[1..][i - 1];
      assert forall s :: s in rest ==> exists i :: 1 <= i < |langs| && langs[i].name == s by {
        forall s | s in rest ensures exists i :: 1 <= i < |langs| && langs[i].name == s {
          var i :| 0 <= i < |langs[1..]| && langs[1..][i].name == s;
          assert langs[i + 1].name == s;
        }
      }
      (if StartsWithChar(langs[0].name, c) then [langs[0].name] else []) + rest
  }

  /** The suggestions keep load order: a language added at the end adds its
      name at the end. */
  lemma {:induction false} SuggestionsSnoc(langs: seq<LanguageConfig>, l: LanguageConfig, c: char)
    ensures Suggestions(langs + [l], c)
            == Suggestions(langs, c) + (if StartsWithChar(l.name, c) then [l.name] else [])
    decreases |langs|
  {
    if langs == [] {
      assert Suggestions([l], c) == (if StartsWithChar(l.name, c) then [l.name] else []) + Suggestions([], c);
    } else {
      assert (langs + [l])[1..] == langs[1..] + [l];
      SuggestionsSnoc(langs[1..], l, c);
    }
  }

  /** `join(", ")`. */
  function JoinWith(ss: seq<string>, sep: string): string
    decreases |ss|
  {
    if ss == [] then ""
    else if |ss| == 1 then ss[0]
    else ss[0] + sep + JoinWith(ss[1..], sep)
  }

  /** The hint after a failed lookup: nothing, one name, or the list. */
  function SuggestionLines(suggestions: seq<string>): (r: seq<Line>)
    ensures suggestions == [] <==> r == []
    ensures |suggestions| == 1 ==>
              r == [[Cell("Did you mean ", Plain), Cell(suggestions[0], Yellow), Cell(" ?", Plain)]]
    ensures |suggestions| > 1 ==>
              r == [[Cell("Did you mean one of these: ", Plain), Cell(JoinWith(suggestions, ", "), Yellow),
                     Cell(" ?", Plain)]]
  {
    if |suggestions| == 0 then []
    else if |suggestions| == 1 then
      [[Cell("Did you mean ", Plain), Cell(suggestions[0], Yellow), Cell(" ?", Plain)]]
    else
      [[Cell("Did you mean one of these: ", Plain), Cell(JoinWith(suggestions, ", "), Yellow),
        Cell(" ?", Plain)]]
  }

  /** A program of the found language: its name in green when it is on
      `PATH`, with "(Not Found)" in red when not, "None" in yellow when the
      language names none. */
  function ProgramStatus(name: Option<string>, onPath: string -> bool): (r: Cell)
    ensures name.None? ==> r == Cell("None", Yellow)
    ensures name.Some? ==> (r.colour == Green <==> onPath(name.value))
    ensures name.Some? && onPath(name.value) ==> r.text == name.value
    ensures name.Some? && !onPath(name.value) ==> r == Cell(name.value + " (Not Found)", Red)
  {
    match name
    case None => Cell("None", Yellow)
    case Some(n) => if onPath(n) then Cell(n, Green) else Cell(n + " (Not Found)", Red)
  }

  /** `check_language`: the query must not be empty unless a language of
      that name exists, since the suggestions start from its first
      character. */
  function CheckLanguage(env: Environment, query: string): (r: seq<Line>)
    requires CanShow(env)
    requires query != "" || Find(Shown(env), query).Some?
    ensures Find(Shown(env), query).Some? ==>
              var l := Shown(env)[Find(Shown(env), query).value];
              r == [[Cell("Language-server : ", Plain), ProgramStatus(l.languageServer, env.onPath)],
                    [Cell("Debug-adapter   : ", Plain), ProgramStatus(l.debugger, env.onPath)]]
    ensures Find(Shown(env), query).None? ==>
              r == [[Cell("Language '" + query + "' not found", Red)]]
                   + SuggestionLines(Suggestions(Shown(env), query[0]))
  {
    var languages := Shown(env);
    match Find(languages, query)
    case Some(i) =>
      var l := languages[i];
      [[Cell("Language-server : ", Plain), ProgramStatus(l.languageServer, env.onPath)],
       [Cell("Debug-adapter   : ", Plain), ProgramStatus(l.debugger, env.onPath)]]
    case None =>
      [[Cell("Language '" + query + "' not found", Red)]] + SuggestionLines(Suggestions(languages, query[0]))
  }

  /** `Health::check`. The clipboard check is not written yet in the
      source, so that category is excluded. */
  method Check(category: HealthCategory, env: Environment) returns (out: seq<Line>)
    requires category != Clipboard && CanShow(env)
    requires (category.All? || category.Languages?) ==> ColumnWidth(env) >= 2
    requires category.Language? ==> category.name != "" || Find(Shown(env), category.name).Some?
    ensures (category.All? || category.Languages?) ==> IsLanguagesReport(env, out)
    ensures category.Language? ==> out == CheckLanguage(env, category.name)
  {
    match category {
      case All =>
        out := CheckAll(env);
      case Languages =>
        out := CheckLanguages(env);
      case Language(name) =>
        out := CheckLanguage(env, name);
    }
  }
}
