/**
  Finding the real package of each language for each template, and writing the table of them
  (tools/generate_language_packages.py), against the views of the archives of a base.
 */
module LanguagePackages {
  import opened Common
  import opened Text
  import opened Resolver
  import opened Archive
  import opened Conformance
  import opened LanguageTable

  const HUNSPELL: string := "hunspell-"
  const MYSPELL: string := "myspell-"

  /** Script codes whose packages use the code of a locale instead. */
  const CODE_OVERRIDE: map<string, string> := map["zh-hans" := "zh-cn", "zh-hant" := "zh-tw"]

  /** Languages whose spelling is checked by another technology. */
  const TECHNOLOGY: map<string, seq<string>> := map["fi" := ["voikko-fi", "libenchant-2-voikko", "libreoffice-voikko"]]

  /** Why a package was chosen, or why none was. */
  datatype How =
    | Exact
    | BehindProvides
    | ScriptCode
    | BehindScriptCode
    | HomeCountry
    | Baseline
    | OnlyVariant
    | Instead(how: How)
    | OtherTechnology
    | NoSpelling
    | NoPackage

  /**
    What the rules take from elsewhere: the country of the region named after a language, and
    the wording of each reason for a template and language.
   */
  datatype Rules = Rules(home: string -> Option<string>, describe: (How, string, string) -> string)

  /** The element of a set that has one. */
  function TheOnly<T(==)>(s: set<T>): (x: T)
    requires |s| == 1
    ensures s == {x}
  {
    SingletonIsUnique(s);
    var x :| x in s;
    x
  }

  lemma SingletonIsUnique<T>(s: set<T>)
    requires |s| == 1
    ensures forall x, y :: x in s && y in s ==> x == y
    ensures forall x :: x in s ==> s == {x}
  {
    forall x | x in s
      ensures s == {x}
    {
      SubsetSize({x}, s);
      assert s == {x} + (s - {x});
    }
  }

  predicate IsVariantChar(c: char) {
    'a' <= c <= 'z' || '0' <= c <= '9'
  }

  /** The stem, a hyphen and a suffix of small letters and digits. */
  predicate IsVariant(stem: string, name: string) {
    stem + "-" < name && forall i :: |stem| < i < |name| ==> IsVariantChar(name[i])
  }

  function RealVariants(v: View, stem: string): set<string> {
    set n | n in v.names && IsVariant(stem, n)
  }

  /** resolve_regional_variant */
  function ResolveRegional(rules: Rules, v: View, prefix: string, lang: string): Option<(string, How)> {
    var code := if lang in CODE_OVERRIDE then prefix + CODE_OVERRIDE[lang] else "";
    if lang in CODE_OVERRIDE && code in v.names then Some((code, ScriptCode))
    else if lang in CODE_OVERRIDE && code in v.virtual && |v.virtual[code]| == 1 then
      Some((TheOnly(v.virtual[code]), BehindScriptCode))
    else
      var variants := RealVariants(v, prefix + lang);
      var home := rules.home(lang);
      if variants == {} then None
      else if home.Some? && home.value != "" && prefix + lang + "-" + home.value in variants then
        Some((prefix + lang + "-" + home.value, HomeCountry))
      else if lang == "en" && prefix + "en-us" in variants then Some((prefix + "en-us", Baseline))
      else if |variants| == 1 then Some((TheOnly(variants), OnlyVariant))
      else None
  }

  /** resolve_one */
  function ResolveOne(rules: Rules, v: View, prefix: string, lang: string): Option<(string, How)> {
    var exact := prefix + lang;
    if exact in v.names then Some((exact, Exact))
    else if exact in v.virtual then
      if |v.virtual[exact]| == 1 then Some((TheOnly(v.virtual[exact]), BehindProvides)) else None
    else ResolveRegional(rules, v, prefix, lang)
  }

  /** Where a pattern first occurs; the length if it does not. */
  function PatternAt(s: string, pattern: string): (i: nat)
    ensures i <= |s|
  {
    if s == [] || pattern <= s then 0 else 1 + PatternAt(s[1..], pattern)
  }

  /** template.split("${LANG}")[0] and [1] */
  function PrefixOf(template: string): string {
    template[..PatternAt(template, LANG)]
  }

  function SuffixOf(template: string): string {
    if Contains(template, LANG) && PatternAt(template, LANG) + |LANG| <= |template| then
      var rest := template[PatternAt(template, LANG) + |LANG|..];
      rest[..PatternAt(rest, LANG)]
    else ""
  }

  /** resolve_template; the error is a technology whose packages the archive no longer has. */
  function ResolveTemplate(rules: Rules, v: View, template: string, lang: string): Result<Row, string> {
    var prefix, suffix := PrefixOf(template), SuffixOf(template);
    match ResolveOne(rules, v, prefix, lang)
    case Some((name, how)) => Ok(Found([name + suffix], rules.describe(how, template, lang)))
    case None =>
      if prefix != HUNSPELL then Ok(Nothing(rules.describe(NoPackage, template, lang)))
      else
        match ResolveOne(rules, v, MYSPELL, lang)
        case Some((name, how)) => Ok(Found([name + suffix], rules.describe(Instead(how), template, lang)))
        case None =>
          if lang !in TECHNOLOGY then Ok(Nothing(rules.describe(NoSpelling, template, lang)))
          else if exists i :: 0 <= i < |TECHNOLOGY[lang]| && !Installable(v, TECHNOLOGY[lang][i]) then Err(lang)
          else Ok(Found(TECHNOLOGY[lang], rules.describe(OtherTechnology, template, lang)))
  }

  // ------------------------------------------------- what is found is real

  lemma ResolveOneIsReal(rules: Rules, v: View, prefix: string, lang: string)
    requires ProvidersAreNames(v)
    ensures ResolveOne(rules, v, prefix, lang).Some? ==> ResolveOne(rules, v, prefix, lang).value.0 in v.names
  {
  }

  /** Every package written for the language, if any is, is one the archive has or provides. */
  ghost predicate WritesInstallable(rules: Rules, v: View, template: string, lang: string) {
    match ResolveTemplate(rules, v, template, lang)
    case Ok(Found(packages, _)) => AllInstallable(v, packages)
    case _ => true
  }

  /** Nothing is appended to what was found, so what is written is real. */
  lemma FoundIsInstallable(rules: Rules, v: View, template: string, lang: string)
    requires ProvidersAreNames(v) && SuffixOf(template) == ""
    ensures WritesInstallable(rules, v, template, lang)
  {
    ResolveOneIsReal(rules, v, PrefixOf(template), lang);
    ResolveOneIsReal(rules, v, MYSPELL, lang);
    assert forall name: string :: name + "" == name;
  }

  /** An archive with the package before the suffix, and nothing else: the suffix is appended unchecked. */
  lemma SuffixIsNotChecked(rules: Rules, template: string, lang: string) returns (v: View)
    requires SuffixOf(template) != ""
    ensures ProvidersAreNames(v) && v.names == {PrefixOf(template) + lang}
    ensures !WritesInstallable(rules, v, template, lang)
  {
    var name := PrefixOf(template) + lang;
    v := View({name}, map[]);
    assert |name + SuffixOf(template)| > |name|;
    assert [name + SuffixOf(template)][0] == name + SuffixOf(template);
  }

  /**
    Whatever the archive, the packages written for a template are real: this holds exactly for the
    templates with nothing between their placeholder and the next one or the end.
   */
  lemma InstallableExactlyWithoutSuffix(rules: Rules, template: string, lang: string)
    ensures (forall v: View :: ProvidersAreNames(v) ==> WritesInstallable(rules, v, template, lang)) <==>
            SuffixOf(template) == ""
  {
    if SuffixOf(template) == "" {
      forall v: View | ProvidersAreNames(v)
        ensures WritesInstallable(rules, v, template, lang)
      {
        FoundIsInstallable(rules, v, template, lang);
      }
    } else {
      var v := SuffixIsNotChecked(rules, template, lang);
    }
  }

  /** One of the templates of bases/ubuntu/packages.map is of the kind that is not safe. */
  lemma BasePackageHasSuffix()
    ensures var template := "language-pack-" + LANG + "-base";
            IsHandled(template) && IsTemplate(template) && SuffixOf(template) == "-base"
  {
    assert IsPlain("language-pack-") && IsPlain("-base");
    PlainIsTemplate("language-pack-", "-base");
    SplitAtLanguage("language-pack-", "-base");
    assert KNOWN_PREFIXES[4] == "language-pack-" && "language-pack-" <= "language-pack-" + LANG + "-base";
  }

  lemma PlainIsTemplate(a: string, rest: string)
    requires IsPlain(a) && IsPlain(rest)
    ensures IsTemplate(a + LANG + rest)
  {
    var s := a + LANG + rest;
    forall i | 0 <= i < |s|
      ensures !IsSpace(s[i]) && s[i] != '#' && s[i] != '=' && s[i] != '/'
    {
      assert s[i] in a || s[i] in LANG || s[i] in rest;
    }
  }

  lemma {:induction false} PatternComesAfter(a: string, rest: string)
    requires '$' !in a
    ensures PatternAt(a + LANG + rest, LANG) == |a| && Contains(a + LANG + rest, LANG)
  {
    var s := a + LANG + rest;
    if a == [] {
      assert LANG <= s;
    } else {
      assert s[0] == a[0] && LANG[0] == '$';
      PatternComesAfter(a[1..], rest);
      assert s[1..] == a[1..] + LANG + rest;
    }
  }

  lemma {:induction false} NoPattern(s: string)
    requires !Contains(s, LANG)
    ensures PatternAt(s, LANG) == |s|
  {
    if s != [] {
      NoPattern(s[1..]);
    }
  }

  lemma {:induction false} NoDollarNoPattern(s: string)
    requires '$' !in s
    ensures !Contains(s, LANG)
  {
    assert LANG[0] == '$';
    PrefixHas(LANG, s, '$');
    if s != [] {
      NoDollarNoPattern(s[1..]);
    }
  }

  /** Split at its placeholder, a template falls into what is before and what is after it. */
  lemma SplitAtLanguage(a: string, rest: string)
    requires '$' !in a && '$' !in rest
    ensures PrefixOf(a + LANG + rest) == a && SuffixOf(a + LANG + rest) == rest
  {
    PatternComesAfter(a, rest);
    NoDollarNoPattern(rest);
    NoPattern(rest);
    assert (a + LANG + rest)[|a| + |LANG|..] == rest;
  }

  // ------------------------------------------- the table and plain substitution

  /** What follows the first placeholder. */
  function AfterLanguage(template: string): string {
    if PatternAt(template, LANG) + |LANG| <= |template| then template[PatternAt(template, LANG) + |LANG|..] else ""
  }

  predicate OnePlaceholder(template: string) {
    Contains(template, LANG) && !Contains(AfterLanguage(template), LANG)
  }

  lemma Regroup(a: string, b: string, c: string, d: string)
    ensures a + (b + c + d) == a + b + c + d
  {}

  lemma {:induction false} ReplaceSplits(s: string, word: string)
    requires Contains(s, LANG)
    ensures PatternAt(s, LANG) + |LANG| <= |s|
    ensures Replace(s, LANG, word) == PrefixOf(s) + word + Replace(AfterLanguage(s), LANG, word)
  {
    if LANG <= s {
      assert PrefixOf(s) + word == word;
    } else {
      var tail := s[1..];
      ReplaceSplits(tail, word);
      assert PrefixOf(s) == [s[0]] + PrefixOf(tail) && AfterLanguage(s) == AfterLanguage(tail);
      Regroup([s[0]], PrefixOf(tail), word, Replace(AfterLanguage(s), LANG, word));
    }
  }

  /**
    When the archive has the package named by what is before the placeholder and the language, that
    is the one found; it is then plain substitution exactly if the template has one placeholder.
   */
  lemma SubstitutionWins(rules: Rules, v: View, template: string, lang: string)
    requires Contains(template, LANG) && lang != "" && PrefixOf(template) + lang in v.names
    ensures match ResolveTemplate(rules, v, template, lang)
            case Ok(Found(packages, _)) =>
              && packages == [PrefixOf(template) + lang + SuffixOf(template)]
              && (packages[0] == Replace(template, LANG, lang) <==> OnePlaceholder(template))
            case _ => false
  {
    var rest := AfterLanguage(template);
    ReplaceSplits(template, lang);
    if Contains(rest, LANG) {
      ReplaceSplits(rest, lang);
      assert |Replace(rest, LANG, lang)| > |SuffixOf(template)|;
    } else {
      NoPattern(rest);
      ReplaceNothing(rest, LANG, lang);
      assert SuffixOf(template) == rest;
    }
  }

  // ------------------------------------------------------------- the table

  /** The rows of one language: one for all suites if they agree, or one for each. */
  predicate AllAgree(rows: seq<Row>) {
    rows != [] && forall i :: 0 <= i < |rows| ==> rows[i] == rows[0]
  }

  /** Suites in order, each with the row the rules give for it. */
  function BySuite(rules: Rules, archives: string -> View, suites: seq<string>, template: string,
                   lang: string): Result<seq<Row>, string> {
    if suites == [] then Ok([])
    else
      match BySuite(rules, archives, Init(suites), template, lang)
      case Err(e) => Err(e)
      case Ok(rows) =>
        match ResolveTemplate(rules, archives(Last(suites)), template, lang)
        case Err(e) => Err(e)
        case Ok(row) => Ok(rows + [row])
  }

  lemma {:induction false} BySuiteRows(rules: Rules, archives: string -> View, suites: seq<string>, template: string,
                                       lang: string)
    ensures match BySuite(rules, archives, suites, template, lang)
            case Ok(rows) =>
              |rows| == |suites| && forall i :: 0 <= i < |suites| ==>
                  ResolveTemplate(rules, archives(suites[i]), template, lang) == Ok(rows[i])
            case Err(_) =>
              exists i :: 0 <= i < |suites| && ResolveTemplate(rules, archives(suites[i]), template, lang).Err?
  {
    if suites != [] {
      BySuiteRows(rules, archives, Init(suites), template, lang);
      if BySuite(rules, archives, Init(suites), template, lang).Err? {
        var i :| 0 <= i < |Init(suites)| && ResolveTemplate(rules, archives(Init(suites)[i]), template, lang).Err?;
        assert suites[i] == Init(suites)[i];
      }
    }
  }

  /** A table answers for a language when looking it up on any suite gives the row of that suite. */
  ghost predicate Answers(table: map<string, Row>, lang: string, suites: seq<string>, rows: seq<Row>) {
    |rows| == |suites| && forall i :: 0 <= i < |suites| ==>
      KeyFor(lang, suites[i], table) in table && table[KeyFor(lang, suites[i], table)] == rows[i]
  }

  /** All keys of a table are for these languages. */
  predicate KeysOf(table: map<string, Row>, langs: set<string>) {
    forall key :: key in table ==> Before(key, '@') in langs
  }

  predicate AreSuites(suites: seq<string>) {
    Distinct(suites) && forall i :: 0 <= i < |suites| ==> suites[i] != ""
  }

  /** A language, bare or on one of the suites. */
  predicate IsKeyOf(lang: string, suites: seq<string>, key: string) {
    key == lang || exists i :: 0 <= i < |suites| && key == lang + "@" + suites[i]
  }

  lemma KeyTellsLanguage(lang: string, suite: string)
    requires '@' !in lang
    ensures Before(lang, '@') == lang && Before(lang + "@" + suite, '@') == lang
            && After(lang + "@" + suite, '@') == suite
  {
    CharAtNone(lang, '@');
    assert lang + "@" + suite == lang + ['@'] + suite;
    CharAtUnique(lang, '@', suite);
  }

  /** Suites that agree share the bare key. */
  lemma OneKeyAnswers(lang: string, suites: seq<string>, rows: seq<Row>)
    requires AreSuites(suites) && '@' !in lang && |rows| == |suites| && AllAgree(rows)
    ensures Answers(map[lang := rows[0]], lang, suites, rows) && KeysOf(map[lang := rows[0]], {lang})
  {
    KeyTellsLanguage(lang, "");
    forall i | 0 <= i < |suites|
      ensures KeyFor(lang, suites[i], map[lang := rows[0]]) == lang
    {
      assert |lang + "@" + suites[i]| > |lang|;
    }
  }

  /** The rows of one language in the table of a template. */
  method RowsFor(lang: string, suites: seq<string>, rows: seq<Row>) returns (table: map<string, Row>)
    requires AreSuites(suites) && '@' !in lang && |rows| == |suites|
    ensures Answers(table, lang, suites, rows) && KeysOf(table, {lang})
    ensures forall key :: key in table ==> IsKeyOf(lang, suites, key) && table[key] in rows
    ensures AllAgree(rows) <==> lang in table
    ensures AllAgree(rows) ==> |table| == 1
  {
    if AllAgree(rows) {
      table := map[lang := rows[0]];
      OneKeyAnswers(lang, suites, rows);
      return;
    }
    table := map[];
    var i := 0;
    while i < |suites|
      invariant 0 <= i <= |suites|
      invariant forall j :: 0 <= j < i ==> HasRow(table, lang, suites[j], rows[j])
      invariant forall key :: key in table ==> IsRowOfSome(lang, suites, rows, key, table[key])
    {
      forall j | 0 <= j < i
        ensures lang + "@" + suites[j] != lang + "@" + suites[i]
      {
        KeyTellsLanguage(lang, suites[j]);
        KeyTellsLanguage(lang, suites[i]);
      }
      table := table[lang + "@" + suites[i] := rows[i]];
      i := i + 1;
    }
    forall key | key in table
      ensures Before(key, '@') == lang && key != lang
    {
      var j :| 0 <= j < |suites| && key == lang + "@" + suites[j];
      KeyTellsLanguage(lang, suites[j]);
    }
    assert forall j :: 0 <= j < |suites| ==> HasRow(table, lang, suites[j], rows[j]);
  }

  predicate HasRow(table: map<string, Row>, lang: string, suite: string, row: Row) {
    lang + "@" + suite in table && table[lang + "@" + suite] == row
  }

  predicate IsRowOfSome(lang: string, suites: seq<string>, rows: seq<Row>, key: string, row: Row)
    requires |rows| == |suites|
  {
    exists j :: 0 <= j < |suites| && key == lang + "@" + suites[j] && row == rows[j]
  }

  /** Adding the rows of another language changes no answer. */
  lemma AnswersStay(table: map<string, Row>, more: map<string, Row>, lang: string, other: string, suites: seq<string>,
                    rows: seq<Row>)
    requires AreSuites(suites) && '@' !in lang && '@' !in other && lang != other
    requires Answers(table, lang, suites, rows) && KeysOf(more, {other})
    ensures Answers(table + more, lang, suites, rows)
  {
    forall i | 0 <= i < |suites|
      ensures KeyFor(lang, suites[i], table + more) == KeyFor(lang, suites[i], table)
      ensures KeyFor(lang, suites[i], table) !in more
    {
      KeyTellsLanguage(lang, suites[i]);
    }
  }

  lemma AnswersArrive(table: map<string, Row>, more: map<string, Row>, lang: string, langs: set<string>,
                      suites: seq<string>, rows: seq<Row>)
    requires AreSuites(suites) && '@' !in lang && lang !in langs
    requires KeysOf(table, langs) && Answers(more, lang, suites, rows)
    ensures Answers(table + more, lang, suites, rows)
  {
    forall i | 0 <= i < |suites|
      ensures KeyFor(lang, suites[i], table + more) == KeyFor(lang, suites[i], more)
    {
      KeyTellsLanguage(lang, suites[i]);
    }
  }

  // -------------------------------------------------------------- generating

  /** Everything generate_for_base works from; an archive is the amd64 view of a suite. */
  datatype Inputs = Inputs(rules: Rules, templates: seq<string>, codes: seq<string>, suites: seq<string>,
                           archives: string -> View)

  datatype GenerateError = UnhandledTemplate(template: string) | StaleTechnology(lang: string)

  const KNOWN_PREFIXES: seq<string> :=
      [HUNSPELL, "libreoffice-l10n-", "firefox-esr-l10n-", "language-pack-gnome-", "language-pack-"]

  predicate IsHandled(template: string) {
    exists i :: 0 <= i < |KNOWN_PREFIXES| && StartsWith(template, KNOWN_PREFIXES[i])
  }

  ghost predicate ValidInputs(inp: Inputs) {
    && Distinct(inp.templates) && Distinct(inp.codes) && AreSuites(inp.suites)
    && forall i :: 0 <= i < |inp.codes| ==> '@' !in inp.codes[i]
  }

  function RowsOf(inp: Inputs, template: string, lang: string): Result<seq<Row>, string> {
    BySuite(inp.rules, inp.archives, inp.suites, template, lang)
  }

  /** A key of the table is for one of these languages, and its row is one the rules give for it. */
  ghost predicate KeyIsFor(inp: Inputs, template: string, lang: string, key: string, row: Row) {
    && RowsOf(inp, template, lang).Ok? && row in RowsOf(inp, template, lang).value
    && IsKeyOf(lang, inp.suites, key)
  }

  /** Each of these languages is answered on every suite, with a single key exactly when all suites agree. */
  ghost predicate AnswersAll(inp: Inputs, template: string, langs: set<string>, table: map<string, Row>) {
    forall lang :: lang in langs ==> AnswersOne(inp, template, lang, table)
  }

  ghost predicate AnswersOne(inp: Inputs, template: string, lang: string, table: map<string, Row>) {
    && RowsOf(inp, template, lang).Ok?
    && Answers(table, lang, inp.suites, RowsOf(inp, template, lang).value)
    && (lang in table <==> AllAgree(RowsOf(inp, template, lang).value))
  }

  /** The table has no key but those of these languages. */
  ghost predicate NothingElse(inp: Inputs, template: string, langs: set<string>, table: map<string, Row>) {
    forall key :: key in table ==>
      Before(key, '@') in langs && KeyIsFor(inp, template, Before(key, '@'), key, table[key])
  }

  /** The rows of a template for some languages. */
  ghost predicate GeneratedFor(inp: Inputs, template: string, langs: set<string>, table: map<string, Row>) {
    AnswersAll(inp, template, langs, table) && NothingElse(inp, template, langs, table)
  }

  lemma AnswersOneMore(inp: Inputs, template: string, langs: set<string>, table: map<string, Row>,
                       lang: string, more: map<string, Row>, l: string)
    requires AreSuites(inp.suites) && '@' !in l && '@' !in lang && lang !in langs
    requires KeysOf(table, langs) && KeysOf(more, {lang})
    requires if l == lang then AnswersOne(inp, template, l, more) else AnswersOne(inp, template, l, table)
    ensures AnswersOne(inp, template, l, table + more)
  {
    CharAtNone(l, '@');
    var rows := RowsOf(inp, template, l).value;
    if l == lang {
      AnswersArrive(table, more, l, langs, inp.suites, rows);
      assert l !in table;
    } else {
      AnswersStay(table, more, l, lang, inp.suites, rows);
      assert l !in more;
    }
  }

  lemma AnswersAllMore(inp: Inputs, template: string, langs: set<string>, table: map<string, Row>, lang: string,
                       more: map<string, Row>)
    requires AreSuites(inp.suites) && NoAt(langs) && '@' !in lang && lang !in langs
    requires KeysOf(table, langs) && KeysOf(more, {lang})
    requires AnswersAll(inp, template, langs, table) && AnswersOne(inp, template, lang, more)
    ensures AnswersAll(inp, template, langs + {lang}, table + more)
  {
    forall l | l in langs + {lang}
      ensures AnswersOne(inp, template, l, table + more)
    {
      AnswersOneMore(inp, template, langs, table, lang, more, l);
    }
  }

  predicate NoAt(langs: set<string>) {
    forall lang :: lang in langs ==> '@' !in lang
  }

  lemma NothingElseMore(inp: Inputs, template: string, langs: set<string>, table: map<string, Row>,
                        langs': set<string>, more: map<string, Row>)
    requires NothingElse(inp, template, langs, table) && NothingElse(inp, template, langs', more)
    ensures NothingElse(inp, template, langs + langs', table + more)
  {}

  lemma GeneratedOneMore(inp: Inputs, template: string, langs: set<string>, table: map<string, Row>, lang: string,
                         more: map<string, Row>)
    requires AreSuites(inp.suites) && NoAt(langs) && '@' !in lang && lang !in langs
    requires GeneratedFor(inp, template, langs, table) && GeneratedFor(inp, template, {lang}, more)
    ensures GeneratedFor(inp, template, langs + {lang}, table + more)
  {
    AnswersAllMore(inp, template, langs, table, lang, more);
    NothingElseMore(inp, template, langs, table, {lang}, more);
  }

  /** What RowsFor makes of the rows of a language is the table of that one language. */
  lemma GeneratedOne(inp: Inputs, template: string, lang: string, rows: seq<Row>, table: map<string, Row>)
    requires RowsOf(inp, template, lang) == Ok(rows)
    requires Answers(table, lang, inp.suites, rows) && KeysOf(table, {lang})
    requires forall key :: key in table ==> IsKeyOf(lang, inp.suites, key) && table[key] in rows
    requires AllAgree(rows) <==> lang in table
    ensures GeneratedFor(inp, template, {lang}, table)
  {
    assert AnswersOne(inp, template, lang, table);
    forall key | key in table
      ensures Before(key, '@') == lang && KeyIsFor(inp, template, lang, key, table[key])
    {
    }
  }

  /** The body of the loop over languages: the rows of one more language join the table. */
  method AddLanguage(inp: Inputs, template: string, ghost langs: set<string>, table: map<string, Row>, lang: string)
    returns (r: Result<map<string, Row>, GenerateError>)
    requires AreSuites(inp.suites) && NoAt(langs) && '@' !in lang && lang !in langs
    requires GeneratedFor(inp, template, langs, table)
    ensures r.Ok? ==> GeneratedFor(inp, template, langs + {lang}, r.value)
    ensures r.Err? ==> r.error.StaleTechnology? && RowsOf(inp, template, lang).Err?
  {
    var rows := RowsOf(inp, template, lang);
    if rows.Err? {
      return Err(StaleTechnology(lang));
    }
    BySuiteRows(inp.rules, inp.archives, inp.suites, template, lang);
    var more := RowsFor(lang, inp.suites, rows.value);
    GeneratedOne(inp, template, lang, rows.value, more);
    GeneratedOneMore(inp, template, langs, table, lang, more);
    r := Ok(table + more);
  }

  /** The loop over languages for one template. */
  method GenerateTemplate(inp: Inputs, template: string) returns (r: Result<map<string, Row>, GenerateError>)
    requires ValidInputs(inp)
    ensures r.Ok? ==> GeneratedFor(inp, template, Elements(inp.codes), r.value)
    ensures r.Err? ==> r.error.StaleTechnology? && exists lang :: lang in inp.codes && RowsOf(inp, template, lang).Err?
  {
    var table: map<string, Row> := map[];
    ghost var langs: set<string> := {};
    var i := 0;
    while i < |inp.codes|
      invariant 0 <= i <= |inp.codes| && langs == Elements(inp.codes[..i]) && NoAt(langs)
      invariant GeneratedFor(inp, template, langs, table)
    {
      DistinctStep(inp.codes, i);
      var more := AddLanguage(inp, template, langs, table, inp.codes[i]);
      if more.Err? {
        return more;
      }
      table := more.value;
      langs := langs + {inp.codes[i]};
      i := i + 1;
    }
    assert inp.codes[..i] == inp.codes;
    r := Ok(table);
  }

  ghost predicate IsGenerated(inp: Inputs, table: map<string, map<string, Row>>) {
    && table.Keys == Elements(inp.templates)
    && forall template :: template in table ==> GeneratedFor(inp, template, Elements(inp.codes), table[template])
  }

  /** generate_for_base, up to the text: a table that answers every question, or the reason there is none. */
  method GenerateForBase(inp: Inputs) returns (r: Result<map<string, map<string, Row>>, GenerateError>)
    requires ValidInputs(inp)
    ensures r.Ok? ==> IsGenerated(inp, r.value)
    ensures r.Err? ==>
              match r.error
              case UnhandledTemplate(template) => template in inp.templates && !IsHandled(template)
              case StaleTechnology(_) =>
                exists template, lang ::
                  template in inp.templates && lang in inp.codes && RowsOf(inp, template, lang).Err?
  {
    if i :| 0 <= i < |inp.templates| && !IsHandled(inp.templates[i]) {
      return Err(UnhandledTemplate(inp.templates[i]));
    }
    var table: map<string, map<string, Row>> := map[];
    var i := 0;
    while i < |inp.templates|
      invariant 0 <= i <= |inp.templates|
      invariant table.Keys == Elements(inp.templates[..i])
      invariant forall template :: template in table ==>
                GeneratedFor(inp, template, Elements(inp.codes), table[template])
    {
      var rows := GenerateTemplate(inp, inp.templates[i]);
      if rows.Err? {
        return Err(rows.error);
      }
      table := table[inp.templates[i] := rows.value];
      assert inp.templates[..i + 1] == inp.templates[..i] + [inp.templates[i]];
      i := i + 1;
    }
    assert inp.templates[..i] == inp.templates;
    r := Ok(table);
  }

  // ---------------------------------------------- what can be printed and read

  /** Names an index can list: words without the format's punctuation. */
  ghost predicate PrintableView(v: View) {
    ProvidersAreNames(v) && forall n :: n in v.names ==> IsPackageName(n)
  }

  /** Comments and reasons fit on a line; a reason is read back, so it has no comment sign either. */
  ghost predicate PrintableWording(rules: Rules, template: string, lang: string) {
    && (forall how :: IsPhrase(rules.describe(how, template, lang)))
    && '#' !in rules.describe(NoSpelling, template, lang) && '#' !in rules.describe(NoPackage, template, lang)
  }

  /** Templates, codes and suites that the file can name, and archives and wording it can hold. */
  ghost predicate PrintableInputs(inp: Inputs) {
    && (forall i :: 0 <= i < |inp.templates| ==> IsTemplate(inp.templates[i]) && ':' !in SuffixOf(inp.templates[i]))
    && (forall i :: 0 <= i < |inp.codes| ==> IsToken(inp.codes[i]))
    && (forall i :: 0 <= i < |inp.suites| ==> IsToken(inp.suites[i]) && PrintableView(inp.archives(inp.suites[i])))
    && (forall i, j :: 0 <= i < |inp.templates| && 0 <= j < |inp.codes| ==>
          PrintableWording(inp.rules, inp.templates[i], inp.codes[j]))
  }

  lemma {:induction false} PlaceholderHasDollar(s: string)
    requires '$' !in s
    ensures !Contains(s, ARCH)
  {
    assert '$' in ARCH;
    PrefixHas(ARCH, s, '$');
    if s != [] {
      PlaceholderHasDollar(s[1..]);
    }
  }

  predicate IsPlain(s: string) {
    forall i :: 0 <= i < |s| ==> IsVariantChar(s[i]) || s[i] == '-'
  }

  lemma PlainIsPackageName(s: string)
    requires s != "" && IsPlain(s)
    ensures IsPackageName(s) && !Contains(s, ARCH)
  {
    PlaceholderHasDollar(s);
    assert UNAVAILABLE[11] == ':';
    PrefixHas(UNAVAILABLE, s, ':');
  }

  lemma TechnologyIsPlain(lang: string, i: nat)
    requires lang in TECHNOLOGY && i < |TECHNOLOGY[lang]|
    ensures IsPackageName(TECHNOLOGY[lang][i]) && !Contains(TECHNOLOGY[lang][i], ARCH)
  {
    assert IsPlain("voikko-fi");
    assert IsPlain("libenchant-2-voikko");
    assert IsPlain("libreoffice-voikko");
    PlainIsPackageName(TECHNOLOGY[lang][i]);
  }

  /** A package name stays one with the end of a template after it. */
  lemma AppendedIsPackageName(name: string, template: string)
    requires IsPackageName(name) && IsTemplate(template) && ':' !in SuffixOf(template)
    ensures IsPackageName(name + SuffixOf(template))
  {
    var suffix := SuffixOf(template);
    assert forall i :: 0 <= i < |suffix| ==> suffix[i] in template;
    assert UNAVAILABLE[|UNAVAILABLE| - 1] == ':';
    assert |name| < |UNAVAILABLE| <= |name + suffix| ==> (name + suffix)[|UNAVAILABLE| - 1] in suffix;
  }

  /** A row found against a printable view can be printed and read. */
  lemma RowIsPrintable(rules: Rules, v: View, template: string, lang: string)
    requires PrintableView(v) && PrintableWording(rules, template, lang)
    requires IsTemplate(template) && ':' !in SuffixOf(template)
    ensures ResolveTemplate(rules, v, template, lang).Ok? ==>
            IsPrintable(ResolveTemplate(rules, v, template, lang).value)
  {
    ResolveOneIsReal(rules, v, PrefixOf(template), lang);
    ResolveOneIsReal(rules, v, MYSPELL, lang);
    match ResolveOne(rules, v, PrefixOf(template), lang)
    case Some((name, _)) => AppendedIsPackageName(name, template);
    case None =>
      match ResolveOne(rules, v, MYSPELL, lang) {
        case Some((name, _)) => AppendedIsPackageName(name, template);
        case None =>
          if lang in TECHNOLOGY {
            forall i | 0 <= i < |TECHNOLOGY[lang]|
              ensures IsPackageName(TECHNOLOGY[lang][i])
            {
              TechnologyIsPlain(lang, i);
            }
          }
      }
  }

  // ------------------------------------------------------------ main results

  /** The blocks print this table, one for each template. */
  ghost predicate BlocksOf(inp: Inputs, table: map<string, map<string, Row>>, blocks: seq<Block>) {
    && table.Keys == Elements(inp.templates) && |blocks| == |inp.templates|
    && forall i :: 0 <= i < |blocks| ==>
         ValidBlock(blocks[i]) && blocks[i].template == inp.templates[i] && blocks[i].rows == table[inp.templates[i]]
  }

  lemma TokenWithSuite(lang: string, suite: string)
    requires IsToken(lang) && IsToken(suite)
    ensures IsToken(lang + "@" + suite)
  {
    var key := lang + "@" + suite;
    assert forall i :: 0 <= i < |lang| ==> key[i] == lang[i];
    assert key[|lang|] == '@';
    assert forall i :: 0 <= i < |suite| ==> key[|lang| + 1 + i] == suite[i];
  }

  /** Every row of a generated table is one the rules gave on some suite. */
  lemma RowCameFromSuite(inp: Inputs, template: string, lang: string, row: Row) returns (i: nat)
    requires RowsOf(inp, template, lang).Ok? && row in RowsOf(inp, template, lang).value
    ensures i < |inp.suites| && ResolveTemplate(inp.rules, inp.archives(inp.suites[i]), template, lang) == Ok(row)
  {
    var rows := RowsOf(inp, template, lang).value;
    BySuiteRows(inp.rules, inp.archives, inp.suites, template, lang);
    i :| 0 <= i < |rows| && rows[i] == row;
  }

  lemma KeyIsToken(inp: Inputs, lang: string, key: string)
    requires IsToken(lang) && (forall i :: 0 <= i < |inp.suites| ==> IsToken(inp.suites[i]))
             && IsKeyOf(lang, inp.suites, key)
    ensures IsToken(key)
  {
    if key != lang {
      var i :| 0 <= i < |inp.suites| && key == lang + "@" + inp.suites[i];
      TokenWithSuite(lang, inp.suites[i]);
    }
  }

  lemma GeneratedIsPrintable(inp: Inputs, template: string, rows: map<string, Row>)
    requires PrintableInputs(inp) && template in inp.templates
    requires GeneratedFor(inp, template, Elements(inp.codes), rows)
    ensures PrintableRows(rows)
  {
    forall key | key in rows
      ensures IsToken(key) && IsPrintable(rows[key])
    {
      var lang := Before(key, '@');
      assert lang in Elements(inp.codes) && KeyIsFor(inp, template, lang, key, rows[key]);
      KeyIsToken(inp, lang, key);
      var i := RowCameFromSuite(inp, template, lang, rows[key]);
      RowIsPrintable(inp.rules, inp.archives(inp.suites[i]), template, lang);
    }
  }

  /** A lookup in a table that was read back: the packages of this template for this language on this suite. */
  ghost predicate LooksUp(m: LanguageMap, inp: Inputs, template: string, lang: string, suite: string) {
    && template in m && KeyFor(lang, suite, m[template]) in m[template]
    && match ResolveTemplate(inp.rules, inp.archives(suite), template, lang)
       case Ok(row) => m[template][KeyFor(lang, suite, m[template])] == EntryOf(row)
       case Err(_) => false
  }

  ghost predicate LooksUpAll(m: LanguageMap, inp: Inputs) {
    forall t, c, i :: 0 <= t < |inp.templates| && 0 <= c < |inp.codes| && 0 <= i < |inp.suites| ==>
      LooksUp(m, inp, inp.templates[t], inp.codes[c], inp.suites[i])
  }

  lemma BlocksArePrintable(inp: Inputs, table: map<string, map<string, Row>>, blocks: seq<Block>)
    requires PrintableInputs(inp) && IsGenerated(inp, table) && BlocksOf(inp, table, blocks)
    ensures PrintableBlocks(blocks)
  {
    forall i | 0 <= i < |blocks|
      ensures PrintableRows(blocks[i].rows) && IsTemplate(blocks[i].template)
    {
      assert inp.templates[i] in table;
      GeneratedIsPrintable(inp, inp.templates[i], table[inp.templates[i]]);
    }
  }

  lemma RowLooksUp(m: LanguageMap, inp: Inputs, template: string, rows: map<string, Row>, lang: string, i: nat)
    requires AnswersOne(inp, template, lang, rows) && i < |inp.suites|
    requires template in m && m[template] == Entries(rows)
    ensures LooksUp(m, inp, template, lang, inp.suites[i])
  {
    BySuiteRows(inp.rules, inp.archives, inp.suites, template, lang);
    assert m[template].Keys == rows.Keys;
  }

  lemma BlockLooksUp(inp: Inputs, table: map<string, map<string, Row>>, blocks: seq<Block>, t: nat, lang: string,
                     i: nat)
    requires Distinct(inp.templates) && BlocksOf(inp, table, blocks) && t < |blocks| && i < |inp.suites|
    requires inp.templates[t] in table && AnswersOne(inp, inp.templates[t], lang, table[inp.templates[t]])
    ensures LooksUp(TableOf(blocks), inp, inp.templates[t], lang, inp.suites[i])
  {
    var rows := table[inp.templates[t]];
    BySuiteRows(inp.rules, inp.archives, inp.suites, inp.templates[t], lang);
    assert KeyFor(lang, inp.suites[i], rows) in rows;
    TableHasBlock(blocks, t);
    RowLooksUp(TableOf(blocks), inp, inp.templates[t], rows, lang, i);
  }

  lemma AnswersEveryCode(inp: Inputs, table: map<string, map<string, Row>>, template: string, code: string)
    requires IsGenerated(inp, table) && template in inp.templates && code in inp.codes
    ensures template in table && AnswersOne(inp, template, code, table[template])
  {
    assert template in Elements(inp.templates) && code in Elements(inp.codes);
    assert GeneratedFor(inp, template, Elements(inp.codes), table[template]);
  }

  lemma TableLooksUp(inp: Inputs, table: map<string, map<string, Row>>, blocks: seq<Block>)
    requires ValidInputs(inp) && IsGenerated(inp, table) && BlocksOf(inp, table, blocks)
    ensures LooksUpAll(TableOf(blocks), inp)
  {
    forall t, c, i | 0 <= t < |inp.templates| && 0 <= c < |inp.codes| && 0 <= i < |inp.suites|
      ensures LooksUp(TableOf(blocks), inp, inp.templates[t], inp.codes[c], inp.suites[i])
    {
      AnswersEveryCode(inp, table, inp.templates[t], inp.codes[c]);
      BlockLooksUp(inp, table, blocks, t, inp.codes[c], i);
    }
  }

  /** The printed table, read back, answers every lookup with what the rules gave for that suite. */
  lemma PrintedAnswers(inp: Inputs, table: map<string, map<string, Row>>, header: seq<string>, blocks: seq<Block>)
    requires ValidInputs(inp) && PrintableInputs(inp) && IsGenerated(inp, table) && BlocksOf(inp, table, blocks)
             && IsHeader(header)
    ensures Load(RenderText(header, blocks)).Ok? && LooksUpAll(Load(RenderText(header, blocks)).value, inp)
  {
    BlocksArePrintable(inp, table, blocks);
    PrintedTableReadsBack(header, blocks);
    TableLooksUp(inp, table, blocks);
  }

  /**
    The whole of generate_language_packages: whatever it writes, load_language_package_map reads
    it and every (template, language, suite) lookup finds the packages, or the absence of any,
    that the rules give for that suite, although suites that agree share one key.
   */
  method GenerateFile(inp: Inputs, header: seq<string>) returns (r: Result<string, GenerateError>)
    requires ValidInputs(inp) && PrintableInputs(inp) && IsHeader(header)
    ensures r.Ok? ==> Load(r.value).Ok? && LooksUpAll(Load(r.value).value, inp)
    ensures r.Err? && r.error.UnhandledTemplate? ==> r.error.template in inp.templates && !IsHandled(r.error.template)
  {
    var table := GenerateForBase(inp);
    if table.Err? {
      return Err(table.error);
    }
    forall i | 0 <= i < |inp.templates|
      ensures inp.templates[i] in table.value
    {
      assert inp.templates[i] in Elements(inp.templates);
    }
    var text;
    ghost var blocks;
    text, blocks := RenderMapFile(header, inp.templates, table.value);
    PrintedAnswers(inp, table.value, header, blocks);
    r := Ok(text);
  }

  /** The base is checked against the archives its language table was generated from. */
  ghost predicate SameArchives(b: Base, inp: Inputs) {
    && b.codes == inp.codes && b.suites == inp.suites && b.languages.Some? && LooksUpAll(b.languages.value, inp)
    && forall i :: 0 <= i < |b.suites| ==> b.archives(b.suites[i], "amd64") == inp.archives(b.suites[i])
  }

  /**
    Every package written for this language on this suite is in the suite's archive, with the
    architecture in place of its placeholder if what follows the language has one.
   */
  ghost predicate WrittenIsThere(inp: Inputs, template: string, code: string, suite: string) {
    match ResolveTemplate(inp.rules, inp.archives(suite), template, code)
    case Ok(Found(packages, _)) => AllInstallable(inp.archives(suite), InArch(packages, "amd64"))
    case _ => true
  }

  ghost predicate AllWrittenAreThere(inp: Inputs, template: string, codes: seq<string>, suite: string) {
    forall k :: 0 <= k < |codes| ==> WrittenIsThere(inp, template, codes[k], suite)
  }

  lemma AllWrittenSplits(inp: Inputs, template: string, codes: seq<string>, suite: string)
    requires codes != []
    ensures AllWrittenAreThere(inp, template, codes, suite) <==>
            WrittenIsThere(inp, template, codes[0], suite) && AllWrittenAreThere(inp, template, codes[1..], suite)
  {
    assert forall k :: 0 < k < |codes| ==> codes[k] == codes[1..][k - 1];
    assert forall k :: 0 <= k < |codes[1..]| ==> codes[1..][k] == codes[k + 1];
  }

  lemma LookupOf(b: Base, inp: Inputs, template: string, code: string, i: nat)
    requires SameArchives(b, inp) && template in inp.templates && code in inp.codes && i < |b.suites|
    ensures LooksUp(b.languages.value, inp, template, code, b.suites[i])
  {
    var t :| 0 <= t < |inp.templates| && inp.templates[t] == template;
    var c :| 0 <= c < |inp.codes| && inp.codes[c] == code;
    assert LooksUp(b.languages.value, inp, inp.templates[t], inp.codes[c], inp.suites[i]);
  }

  lemma CodeIsClean(b: Base, inp: Inputs, template: string, code: string, role: string, i: nat)
    requires SameArchives(b, inp) && template in inp.templates && code in inp.codes
    requires i < |b.suites| && b.suites[i] != "" && Covers(b.languages, template)
    ensures Clean(CheckCode(b, template, code, role, b.suites[i], "amd64")) <==>
            WrittenIsThere(inp, template, code, b.suites[i])
  {
    var suite := b.suites[i];
    LookupOf(b, inp, template, code, i);
    match ResolveTemplate(inp.rules, inp.archives(suite), template, code)
    case Err(_) =>
    case Ok(Nothing(_)) =>
    case Ok(Found(packages, _)) => CheckAllClean(b, InArch(packages, "amd64"), role, suite, "amd64");
  }

  lemma {:induction false} CodesAreClean(b: Base, inp: Inputs, template: string, codes: seq<string>, role: string,
                                         i: nat)
    requires SameArchives(b, inp) && template in inp.templates
             && (forall k :: 0 <= k < |codes| ==> codes[k] in inp.codes)
    requires i < |b.suites| && b.suites[i] != "" && Covers(b.languages, template)
    ensures Clean(CheckCodes(b, template, codes, role, b.suites[i], "amd64")) <==>
            AllWrittenAreThere(inp, template, codes, b.suites[i])
  {
    if codes != [] {
      CodeIsClean(b, inp, template, codes[0], role, i);
      CodesAreClean(b, inp, template, codes[1..], role, i);
      CleanAppend(CheckCode(b, template, codes[0], role, b.suites[i], "amd64"),
                  CheckCodes(b, template, codes[1..], role, b.suites[i], "amd64"));
      AllWrittenSplits(inp, template, codes, b.suites[i]);
    }
  }

  /**
    Checked against the same archives, a template of a generated table has nothing missing and
    nothing uncovered on a suite exactly when every package written for it is in that archive.
   */
  lemma GeneratedIsCleanExactly(b: Base, inp: Inputs, template: string, role: string, i: nat)
    requires ValidInputs(inp) && SameArchives(b, inp)
    requires template in inp.templates && Contains(template, LANG) && i < |b.suites|
    ensures Clean(CheckTemplate(b, template, role, b.suites[i], "amd64")) <==>
            AllWrittenAreThere(inp, template, inp.codes, b.suites[i])
  {
    if inp.codes == [] {
      assert CheckTemplate(b, template, role, b.suites[i], "amd64") == [];
    } else {
      LookupOf(b, inp, template, inp.codes[0], i);
      CodesAreClean(b, inp, template, b.codes, role, i);
    }
  }

  /** The resolver never meets a stale entry of a generated table, and names what was written. */
  lemma {:induction false} GeneratedExpands(b: Base, inp: Inputs, template: string, i: nat, t: Target,
                                            codes: seq<string>)
    requires ValidInputs(inp) && SameArchives(b, inp)
    requires template in inp.templates && Contains(template, LANG) && i < |b.suites|
    requires Matches(b, t) && t.suite == b.suites[i] && forall k :: 0 <= k < |codes| ==> codes[k] in inp.codes
    ensures ForCodes(t, template, codes).Ok?
    ensures AllInstallable(b.archives(t.suite, "amd64"), ForCodes(t, template, codes).value) <==>
            AllWrittenAreThere(inp, template, codes, b.suites[i])
  {
    if codes != [] {
      var v := b.archives(t.suite, "amd64");
      LookupOf(b, inp, template, codes[0], i);
      GeneratedExpands(b, inp, template, i, t, codes[1..]);
      InstallableAppend(v, PackagesFor(t, template, codes[0]).value, ForCodes(t, template, codes[1..]).value);
      assert AllInstallable(v, PackagesFor(t, template, codes[0]).value) <==>
             WrittenIsThere(inp, template, codes[0], t.suite);
      AllWrittenSplits(inp, template, codes, t.suite);
    }
  }

  /** No package of the archive has the placeholder of the architecture in its name. */
  ghost predicate ValidView(v: View) {
    ProvidersAreNames(v) && forall n :: n in v.names ==> !Contains(n, ARCH)
  }

  /** A template with nothing after the language names what is there. */
  lemma RowIsGood(inp: Inputs, template: string, lang: string, suite: string)
    requires ValidView(inp.archives(suite)) && SuffixOf(template) == ""
    ensures WrittenIsThere(inp, template, lang, suite)
  {
    var v := inp.archives(suite);
    FoundIsInstallable(inp.rules, v, template, lang);
    match ResolveTemplate(inp.rules, v, template, lang)
    case Err(_) =>
    case Ok(Nothing(_)) =>
    case Ok(Found(packages, how)) =>
      forall i | 0 <= i < |packages|
        ensures Replace(packages[i], ARCH, "amd64") == packages[i]
      {
        PackageIsPlain(inp.rules, v, template, lang, i);
        ReplaceNothing(packages[i], ARCH, "amd64");
      }
  }

  lemma PackageIsPlain(rules: Rules, v: View, template: string, lang: string, i: nat)
    requires ValidView(v) && SuffixOf(template) == ""
    requires ResolveTemplate(rules, v, template, lang).Ok? && ResolveTemplate(rules, v, template, lang).value.Found?
    requires i < |ResolveTemplate(rules, v, template, lang).value.packages|
    ensures !Contains(ResolveTemplate(rules, v, template, lang).value.packages[i], ARCH)
  {
    ResolveOneIsReal(rules, v, PrefixOf(template), lang);
    ResolveOneIsReal(rules, v, MYSPELL, lang);
    assert forall name: string :: name + "" == name;
    if ResolveOne(rules, v, PrefixOf(template), lang).None? && ResolveOne(rules, v, MYSPELL, lang).None? {
      TechnologyIsPlain(lang, i);
    }
  }

  /**
    Whatever else the base has: a template with nothing after the language has nothing missing and
    nothing uncovered on any suite, and the resolver expands it, for any of the languages, to
    packages the archive has or provides.
   */
  lemma GeneratedIsClean(b: Base, inp: Inputs, template: string, role: string, i: nat, t: Target)
    requires ValidInputs(inp) && SameArchives(b, inp)
    requires template in inp.templates && Contains(template, LANG) && SuffixOf(template) == "" && i < |b.suites|
    requires ValidView(inp.archives(b.suites[i])) && Matches(b, t) && t.suite == b.suites[i]
    ensures Clean(CheckTemplate(b, template, role, b.suites[i], "amd64"))
    ensures ExpandTemplate(t, template).Ok?
    ensures AllInstallable(b.archives(t.suite, "amd64"), ExpandTemplate(t, template).value)
  {
    forall code
      ensures WrittenIsThere(inp, template, code, b.suites[i])
    {
      RowIsGood(inp, template, code, b.suites[i]);
    }
    GeneratedIsCleanExactly(b, inp, template, role, i);
    GeneratedExpands(b, inp, template, i, t, t.codes);
  }
}
