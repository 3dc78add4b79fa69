/**
  Checking the package maps of a base against the archives it installs from
  (tools/packages_map_conformance.py: `check_base`), and what a clean report means for
  `resolve_packages`.
 */
module Conformance {
  import opened Common
  import opened Text
  import opened Resolver
  import opened Archive

  /** A base as check_base sees it; an archive is a view for each suite and architecture. */
  datatype Base = Base(packages: PackageMap, languages: Option<LanguageMap>, suites: seq<string>, codes: seq<string>,
                       archives: (string, string) -> View)

  /** The entries of the report's four lists. */
  datatype Finding =
    | Missing(role: string, package: string, suite: string, arch: string)
    | ProvidesOnly(role: string, package: string, suite: string, arch: string)
    | NotApplicable(role: string, template: string, code: string, suite: string, reason: string)
    | Uncovered(role: string, template: string, code: string, suite: string)

  function ArchesFor(templates: seq<string>): seq<string> {
    if exists i :: 0 <= i < |templates| && Contains(templates[i], ARCH) then ["amd64", "arm64"] else ["amd64"]
  }

  function ExpandPlain(template: string, codes: seq<string>, arch: string): seq<string> {
    if Contains(template, LANG)
    then seq(|codes|, i requires 0 <= i < |codes| => Substitute(template, codes[i], arch))
    else [Replace(template, ARCH, arch)]
  }

  /** The suites a key of packages.map is checked on: its own, or all that have no key of their own. */
  predicate IsTarget(b: Base, key: string, suite: string) {
    && suite in b.suites
    && if After(key, '@') != "" then suite == After(key, '@') else Before(key, '@') + "@" + suite !in b.packages
  }

  /** check_one */
  function CheckOne(b: Base, package: string, role: string, suite: string, arch: string): seq<Finding> {
    var v := b.archives(suite, arch);
    if package in v.names then []
    else if package in v.virtual then [ProvidesOnly(role, package, suite, arch)]
    else [Missing(role, package, suite, arch)]
  }

  function CheckAll(b: Base, names: seq<string>, role: string, suite: string, arch: string): seq<Finding> {
    if names == [] then []
    else CheckOne(b, names[0], role, suite, arch) + CheckAll(b, names[1..], role, suite, arch)
  }

  /** One language of a template that the language table covers. */
  function CheckCode(b: Base, template: string, code: string, role: string, suite: string, arch: string): seq<Finding>
    requires Covers(b.languages, template)
  {
    var table := b.languages.value[template];
    var key := if code + "@" + suite in table then code + "@" + suite else code;
    if key !in table then [Uncovered(role, template, code, suite)]
    else
      match table[key]
      case Unavailable(reason) => [NotApplicable(role, template, code, suite, reason)]
      case Packages(names) => CheckAll(b, InArch(names, arch), role, suite, arch)
  }

  function CheckCodes(b: Base, template: string, codes: seq<string>, role: string, suite: string,
                      arch: string): seq<Finding>
    requires Covers(b.languages, template)
  {
    if codes == [] then []
    else CheckCode(b, template, codes[0], role, suite, arch) + CheckCodes(b, template, codes[1..], role, suite, arch)
  }

  function CheckTemplate(b: Base, template: string, role: string, suite: string, arch: string): seq<Finding> {
    if Covers(b.languages, template) then CheckCodes(b, template, b.codes, role, suite, arch)
    else CheckAll(b, ExpandPlain(template, b.codes, arch), role, suite, arch)
  }

  /** The combinations check_base looks at. */
  predicate Visits(b: Base, key: string, suite: string, arch: string, template: string) {
    && key in b.packages && b.packages[key].Packages? && IsTarget(b, key, suite)
    && arch in ArchesFor(b.packages[key].names) && template in b.packages[key].names
  }

  /** A finding belongs in the report when some visited combination gives rise to it. */
  ghost predicate Found(b: Base, f: Finding) {
    exists key, suite, arch, template ::
      Visits(b, key, suite, arch, template) && f in CheckTemplate(b, template, key, suite, arch)
  }

  ghost predicate FoundFor(b: Base, key: string, suites: seq<string>, f: Finding) {
    exists suite, arch, template ::
      suite in suites && Visits(b, key, suite, arch, template) && f in CheckTemplate(b, template, key, suite, arch)
  }

  ghost predicate FoundOn(b: Base, key: string, suite: string, arches: seq<string>, f: Finding) {
    exists arch, template ::
      arch in arches && Visits(b, key, suite, arch, template) && f in CheckTemplate(b, template, key, suite, arch)
  }

  // ------------------------------------------------------------ the algorithm

  method CheckTemplates(b: Base, templates: seq<string>, key: string, suite: string, arch: string)
    returns (findings: seq<Finding>)
    ensures forall f :: f in findings <==> exists t :: t in templates && f in CheckTemplate(b, t, key, suite, arch)
  {
    findings := [];
    var i := 0;
    while i < |templates|
      invariant 0 <= i <= |templates|
      invariant forall f :: f in findings <==>
                exists t :: t in templates[..i] && f in CheckTemplate(b, t, key, suite, arch)
    {
      assert templates[..i + 1] == templates[..i] + [templates[i]];
      findings := findings + CheckTemplate(b, templates[i], key, suite, arch);
      i := i + 1;
    }
    assert templates[..i] == templates;
  }

  method CheckSuite(b: Base, key: string, suite: string) returns (findings: seq<Finding>)
    requires key in b.packages && b.packages[key].Packages? && IsTarget(b, key, suite)
    ensures forall f :: f in findings <==> FoundOn(b, key, suite, ArchesFor(b.packages[key].names), f)
  {
    var templates := b.packages[key].names;
    var arches := ArchesFor(templates);
    findings := [];
    var i := 0;
    while i < |arches|
      invariant 0 <= i <= |arches|
      invariant forall f :: f in findings <==> FoundOn(b, key, suite, arches[..i], f)
    {
      assert arches[..i + 1] == arches[..i] + [arches[i]];
      var more := CheckTemplates(b, templates, key, suite, arches[i]);
      ghost var was := findings;
      findings := findings + more;
      forall f
        ensures f in findings <==> FoundOn(b, key, suite, arches[..i + 1], f)
      {
        FoundOnAppend(b, key, suite, arches[..i], arches[i], f);
      }
      i := i + 1;
    }
    assert arches[..i] == arches;
  }

  lemma FoundOnAppend(b: Base, key: string, suite: string, arches: seq<string>, arch: string, f: Finding)
    requires key in b.packages && b.packages[key].Packages? && IsTarget(b, key, suite)
    requires arch in ArchesFor(b.packages[key].names)
    ensures FoundOn(b, key, suite, arches + [arch], f) <==>
            FoundOn(b, key, suite, arches, f)
            || exists t :: t in b.packages[key].names && f in CheckTemplate(b, t, key, suite, arch)
  {
    if t :| t in b.packages[key].names && f in CheckTemplate(b, t, key, suite, arch) {
      assert arch in arches + [arch] && Visits(b, key, suite, arch, t);
    }
  }

  method CheckKey(b: Base, key: string) returns (findings: seq<Finding>)
    requires key in b.packages && b.packages[key].Packages?
    ensures forall f :: f in findings <==> FoundFor(b, key, b.suites, f)
  {
    findings := [];
    var i := 0;
    while i < |b.suites|
      invariant 0 <= i <= |b.suites|
      invariant forall f :: f in findings <==> FoundFor(b, key, b.suites[..i], f)
    {
      var suite := b.suites[i];
      assert b.suites[..i + 1] == b.suites[..i] + [suite];
      if IsTarget(b, key, suite) {
        var more := CheckSuite(b, key, suite);
        findings := findings + more;
      }
      i := i + 1;
    }
    assert b.suites[..i] == b.suites;
  }

  /** check_base: the report lists exactly what the visited combinations give rise to. */
  method CheckBase(b: Base) returns (findings: seq<Finding>)
    ensures forall f :: f in findings <==> Found(b, f)
  {
    findings := [];
    var todo := b.packages.Keys;
    while todo != {}
      invariant todo <= b.packages.Keys
      invariant forall f :: f in findings <==>
                exists key :: key in b.packages.Keys - todo && FoundFor(b, key, b.suites, f)
      decreases todo
    {
      var key :| key in todo;
      todo := todo - {key};
      if b.packages[key].Packages? && b.packages[key].names != [] {
        var more := CheckKey(b, key);
        findings := findings + more;
      }
    }
    forall f
      ensures f in findings <==> Found(b, f)
    {
      if Found(b, f) {
        var key, suite, arch, template :|
          Visits(b, key, suite, arch, template) && f in CheckTemplate(b, template, key, suite, arch);
        assert suite in b.suites && FoundFor(b, key, b.suites, f);
      }
    }
  }

  // --------------------------------------------- what a clean report means

  ghost predicate IsReport(b: Base, findings: seq<Finding>) {
    forall f :: f in findings <==> Found(b, f)
  }

  /** Nothing missing and nothing uncovered. */
  predicate Clean(findings: seq<Finding>) {
    forall i :: 0 <= i < |findings| ==> !findings[i].Missing? && !findings[i].Uncovered?
  }

  /** What the report of a base says, whatever the order of its findings. */
  ghost predicate CleanReport(b: Base) {
    forall f :: Found(b, f) ==> !f.Missing? && !f.Uncovered?
  }

  lemma ReportIsClean(b: Base, findings: seq<Finding>)
    requires IsReport(b, findings)
    ensures Clean(findings) <==> CleanReport(b)
  {
    assert forall i :: 0 <= i < |findings| ==> Found(b, findings[i]);
  }

  lemma CombinationIsClean(b: Base, key: string, suite: string, arch: string, template: string)
    requires CleanReport(b) && Visits(b, key, suite, arch, template)
    ensures Clean(CheckTemplate(b, template, key, suite, arch))
  {
    var fs := CheckTemplate(b, template, key, suite, arch);
    forall i | 0 <= i < |fs|
      ensures !fs[i].Missing? && !fs[i].Uncovered?
    {
      assert Found(b, fs[i]);
    }
  }

  predicate AllInstallable(v: View, names: seq<string>) {
    forall i :: 0 <= i < |names| ==> Installable(v, names[i])
  }

  lemma {:induction false} CheckAllClean(b: Base, names: seq<string>, role: string, suite: string, arch: string)
    ensures Clean(CheckAll(b, names, role, suite, arch)) <==> AllInstallable(b.archives(suite, arch), names)
  {
    if names != [] {
      var one, rest := CheckOne(b, names[0], role, suite, arch), CheckAll(b, names[1..], role, suite, arch);
      CheckAllClean(b, names[1..], role, suite, arch);
      CleanAppend(one, rest);
      assert one != [] ==> one[0].ProvidesOnly? || one[0].Missing?;
      assert Clean(one) <==> Installable(b.archives(suite, arch), names[0]);
      assert forall i :: 1 <= i < |names| ==> names[i] == names[1..][i - 1];
      assert forall i :: 0 <= i < |names[1..]| ==> names[1..][i] == names[i + 1];
    }
  }

  lemma CleanAppend(a: seq<Finding>, b: seq<Finding>)
    ensures Clean(a + b) <==> Clean(a) && Clean(b)
  {
    assert forall i :: 0 <= i < |a| ==> (a + b)[i] == a[i];
    assert forall i :: 0 <= i < |b| ==> (a + b)[|a| + i] == b[i];
  }

  lemma {:induction false} CheckCodesClean(b: Base, template: string, codes: seq<string>, code: string,
                                           role: string, suite: string, arch: string)
    requires Covers(b.languages, template) && code in codes && Clean(CheckCodes(b, template, codes, role, suite, arch))
    ensures Clean(CheckCode(b, template, code, role, suite, arch))
  {
    CleanAppend(CheckCode(b, template, codes[0], role, suite, arch),
                CheckCodes(b, template, codes[1..], role, suite, arch));
    if code != codes[0] {
      CheckCodesClean(b, template, codes[1..], code, role, suite, arch);
    }
  }

  lemma CleanIsCovered(b: Base, template: string, code: string, role: string, suite: string, arch: string)
    requires Covers(b.languages, template)
    ensures var table := b.languages.value[template];
            Clean(CheckCode(b, template, code, role, suite, arch)) ==> code + "@" + suite in table || code in table
  {
    var fs := CheckCode(b, template, code, role, suite, arch);
    assert fs == [Uncovered(role, template, code, suite)] ==> fs[0].Uncovered?;
  }

  /** The resolver is asked for what the report is about: a suite of the base and known languages, on amd64. */
  predicate Matches(b: Base, t: Target) {
    && t.packages == b.packages && t.languages == b.languages
    && t.suite in b.suites && t.suite != "" && t.arch == "amd64"
    && forall i :: 0 <= i < |t.codes| ==> t.codes[i] in b.codes
  }

  /** One language of a visited template expands, and to installable packages. */
  lemma LanguageChecked(b: Base, t: Target, key: string, template: string, code: string)
    requires Matches(b, t) && code in b.codes && Contains(template, LANG)
    requires Clean(CheckTemplate(b, template, key, t.suite, t.arch))
    ensures PackagesFor(t, template, code).Ok?
    ensures AllInstallable(b.archives(t.suite, t.arch), PackagesFor(t, template, code).value)
  {
    if Covers(b.languages, template) {
      CheckCodesClean(b, template, b.codes, code, key, t.suite, t.arch);
      var table := b.languages.value[template];
      var k := KeyFor(code, t.suite, table);
      CleanIsCovered(b, template, code, key, t.suite, t.arch);
      if table[k].Packages? {
        CheckAllClean(b, InArch(table[k].names, t.arch), key, t.suite, t.arch);
      }
    } else {
      CheckAllClean(b, ExpandPlain(template, b.codes, t.arch), key, t.suite, t.arch);
      var i :| 0 <= i < |b.codes| && b.codes[i] == code;
      assert ExpandPlain(template, b.codes, t.arch)[i] == Substitute(template, code, t.arch);
    }
  }

  lemma {:induction false} CodesChecked(b: Base, t: Target, key: string, template: string, codes: seq<string>)
    requires Matches(b, t) && (forall i :: 0 <= i < |codes| ==> codes[i] in b.codes) && Contains(template, LANG)
    requires Clean(CheckTemplate(b, template, key, t.suite, t.arch))
    ensures ForCodes(t, template, codes).Ok?
            && AllInstallable(b.archives(t.suite, t.arch), ForCodes(t, template, codes).value)
  {
    if codes != [] {
      LanguageChecked(b, t, key, template, codes[0]);
      CodesChecked(b, t, key, template, codes[1..]);
    }
  }

  lemma {:induction false} TemplatesChecked(b: Base, t: Target, key: string, templates: seq<string>)
    requires Matches(b, t)
    requires forall i :: 0 <= i < |templates| ==> Clean(CheckTemplate(b, templates[i], key, t.suite, t.arch))
    ensures ExpandTemplates(t, templates).Ok?
    ensures AllInstallable(b.archives(t.suite, t.arch), ExpandTemplates(t, templates).value)
  {
    if templates != [] {
      var template := templates[0];
      if Contains(template, LANG) {
        CodesChecked(b, t, key, template, t.codes);
      } else {
        CheckAllClean(b, ExpandPlain(template, b.codes, t.arch), key, t.suite, t.arch);
        assert ExpandPlain(template, b.codes, t.arch)[0] == Replace(template, ARCH, t.arch);
      }
      TemplatesChecked(b, t, key, templates[1..]);
    }
  }

  /** The key the resolver looks a role up by is one check_base checks on that suite. */
  lemma RoleIsVisited(b: Base, t: Target, role: string)
    requires Matches(b, t) && '@' !in role && KeyFor(role, t.suite, t.packages) in t.packages
    ensures IsTarget(b, KeyFor(role, t.suite, t.packages), t.suite)
  {
    if KeyFor(role, t.suite, t.packages) == role {
      CharAtNone(role, '@');
    } else {
      assert role + "@" + t.suite == role + ['@'] + t.suite;
      CharAtUnique(role, '@', t.suite);
    }
  }

  /**
    An item that is skipped, or one whose entry check_base looks at on this suite.  Every mapped
    role is one; the key of another suite's entry, given as an item, is not.
   */
  predicate Mapped(b: Base, t: Target, item: Ref) {
    var key := KeyFor(item.name, t.suite, t.packages);
    Skipped(t, item) || (key in t.packages && IsTarget(b, key, t.suite))
  }

  /** An item that this base declares it cannot serve, on this suite. */
  predicate DeclaredUnavailable(t: Target, item: Ref, reason: string) {
    && !Skipped(t, item) && KeyFor(item.name, t.suite, t.packages) in t.packages
    && t.packages[KeyFor(item.name, t.suite, t.packages)] == Unavailable(reason)
  }

  /** What a resolution may be after a clean report: the declared refusal, or installable packages. */
  ghost predicate Sound(b: Base, t: Target, items: seq<Ref>, r: Result<seq<string>, Refusal>) {
    match r
    case Ok(names) =>
      && AllInstallable(b.archives(t.suite, t.arch), names)
      && (t.refuseUnavailable ==> forall i, reason :: 0 <= i < |items| ==> !DeclaredUnavailable(t, items[i], reason))
    case Err(UnavailableHere(role, reason)) =>
      t.refuseUnavailable
      && exists i :: 0 <= i < |items| && items[i].name == role && DeclaredUnavailable(t, items[i], reason)
    case Err(StaleTable(_, _)) => false
  }

  lemma ItemChecked(b: Base, t: Target, item: Ref)
    requires CleanReport(b) && Matches(b, t) && Mapped(b, t, item)
    ensures Sound(b, t, [item], ExpandItem(t, item))
  {
    assert [item][0] == item;
    if !Skipped(t, item) {
      var key := KeyFor(item.name, t.suite, t.packages);
      match t.packages[key] {
        case Unavailable(reason) =>
          assert DeclaredUnavailable(t, item, reason);
        case Packages(templates) =>
          forall i | 0 <= i < |templates|
            ensures Clean(CheckTemplate(b, templates[i], key, t.suite, t.arch))
          {
            assert Visits(b, key, t.suite, t.arch, templates[i]);
            CombinationIsClean(b, key, t.suite, t.arch, templates[i]);
          }
          TemplatesChecked(b, t, key, templates);
      }
    }
  }

  lemma {:induction false} ItemsChecked(b: Base, t: Target, items: seq<Ref>)
    requires CleanReport(b) && Matches(b, t)
    requires forall i :: 0 <= i < |items| ==> Mapped(b, t, items[i])
    ensures Sound(b, t, items, Expand(t, items))
  {
    if items != [] {
      ItemChecked(b, t, items[0]);
      ItemsChecked(b, t, items[1..]);
      assert forall i :: 1 <= i < |items| ==> items[i] == items[1..][i - 1];
      assert forall i :: 0 <= i < |items[1..]| ==> items[1..][i] == items[i + 1];
      assert [items[0]][0] == items[0];
    }
  }

  /**
    If the report says nothing is missing and nothing uncovered, resolving any mapped items for
    any live-capable suite, on amd64 and in any of the checked languages, either refuses an item
    that the base declares unavailable, with the declared reason, or names only packages the
    archive has or provides; it never meets a stale language table.
   */
  lemma CleanReportMeansInstallable(b: Base, findings: seq<Finding>, t: Target, items: seq<Ref>)
    requires IsReport(b, findings) && Clean(findings) && Matches(b, t)
    requires forall i :: 0 <= i < |items| ==> Mapped(b, t, items[i])
    ensures Sound(b, t, items, Resolve(t, items))
  {
    ReportIsClean(b, findings);
    ResolutionIsSound(b, t, items);
  }

  lemma ResolutionIsSound(b: Base, t: Target, items: seq<Ref>)
    requires CleanReport(b) && Matches(b, t) && forall i :: 0 <= i < |items| ==> Mapped(b, t, items[i])
    ensures Sound(b, t, items, Resolve(t, items))
  {
    ItemsChecked(b, t, items);
    if Expand(t, items).Ok? {
      var names, r := Expand(t, items).value, Resolve(t, items).value;
      AppendNewElements([], names);
      forall i | 0 <= i < |r|
        ensures Installable(b.archives(t.suite, t.arch), r[i])
      {
        assert r[i] in Elements(r);
        assert r[i] in names;
      }
    }
  }

  // ----------------------------------------- exactly what a clean report covers

  /** The packages check_base looks for, for one language of a covered template. */
  function CodeNames(languages: Option<LanguageMap>, template: string, code: string, suite: string,
                     arch: string): seq<string>
    requires Covers(languages, template)
  {
    var table := languages.value[template];
    var key := if code + "@" + suite in table then code + "@" + suite else code;
    if key in table && table[key].Packages? then InArch(table[key].names, arch) else []
  }

  function CodesNames(languages: Option<LanguageMap>, template: string, codes: seq<string>, suite: string,
                      arch: string): seq<string>
    requires Covers(languages, template)
  {
    if codes == [] then []
    else CodeNames(languages, template, codes[0], suite, arch)
         + CodesNames(languages, template, codes[1..], suite, arch)
  }

  function CheckedNames(b: Base, template: string, suite: string, arch: string): seq<string> {
    if Covers(b.languages, template) then CodesNames(b.languages, template, b.codes, suite, arch)
    else ExpandPlain(template, b.codes, arch)
  }

  /** The table has an entry for every language of every template that check_base looks at. */
  ghost predicate NothingUncovered(b: Base) {
    forall key, suite, arch, template, code ::
      Visits(b, key, suite, arch, template) && Covers(b.languages, template) && code in b.codes ==>
        HasLanguage(b, template, code, suite)
  }

  predicate HasLanguage(b: Base, template: string, code: string, suite: string)
    requires Covers(b.languages, template)
  {
    code in b.languages.value[template] || code + "@" + suite in b.languages.value[template]
  }

  /** The package is one that some visited combination on this suite and architecture expands to. */
  ghost predicate Expected(b: Base, suite: string, arch: string, p: string) {
    exists key, template :: Visits(b, key, suite, arch, template) && p in CheckedNames(b, template, suite, arch)
  }

  lemma CodeCleanExactly(b: Base, template: string, code: string, role: string, suite: string, arch: string)
    requires Covers(b.languages, template)
    ensures Clean(CheckCode(b, template, code, role, suite, arch)) <==>
            HasLanguage(b, template, code, suite)
            && AllInstallable(b.archives(suite, arch), CodeNames(b.languages, template, code, suite, arch))
  {
    var fs := CheckCode(b, template, code, role, suite, arch);
    CleanIsCovered(b, template, code, role, suite, arch);
    if HasLanguage(b, template, code, suite) {
      CheckAllClean(b, CodeNames(b.languages, template, code, suite, arch), role, suite, arch);
    }
  }

  lemma InstallableAppend(v: View, a: seq<string>, b: seq<string>)
    ensures AllInstallable(v, a + b) <==> AllInstallable(v, a) && AllInstallable(v, b)
  {
    assert forall i :: 0 <= i < |a| ==> (a + b)[i] == a[i];
    assert forall i :: 0 <= i < |b| ==> (a + b)[|a| + i] == b[i];
  }

  lemma {:induction false} CodesCleanExactly(b: Base, template: string, codes: seq<string>, role: string,
                                             suite: string, arch: string)
    requires Covers(b.languages, template)
    ensures Clean(CheckCodes(b, template, codes, role, suite, arch)) <==>
            (forall code :: code in codes ==> HasLanguage(b, template, code, suite))
            && AllInstallable(b.archives(suite, arch), CodesNames(b.languages, template, codes, suite, arch))
  {
    if codes != [] {
      CodeCleanExactly(b, template, codes[0], role, suite, arch);
      CodesCleanExactly(b, template, codes[1..], role, suite, arch);
      CleanAppend(CheckCode(b, template, codes[0], role, suite, arch),
                  CheckCodes(b, template, codes[1..], role, suite, arch));
      InstallableAppend(b.archives(suite, arch), CodeNames(b.languages, template, codes[0], suite, arch),
                        CodesNames(b.languages, template, codes[1..], suite, arch));
      assert forall code :: code in codes <==> code == codes[0] || code in codes[1..];
    }
  }

  /** No finding for a template: every language has its entry, and every package it expands to is there. */
  lemma TemplateCleanExactly(b: Base, template: string, role: string, suite: string, arch: string)
    ensures Clean(CheckTemplate(b, template, role, suite, arch)) <==>
            (Covers(b.languages, template) ==> forall code :: code in b.codes ==> HasLanguage(b, template, code, suite))
            && AllInstallable(b.archives(suite, arch), CheckedNames(b, template, suite, arch))
  {
    if Covers(b.languages, template) {
      CodesCleanExactly(b, template, b.codes, role, suite, arch);
    } else {
      CheckAllClean(b, ExpandPlain(template, b.codes, arch), role, suite, arch);
    }
  }

  /** The report is clean exactly when nothing is uncovered and everything expected is in its archive. */
  lemma CleanReportExactly(b: Base)
    ensures CleanReport(b) <==>
            NothingUncovered(b)
            && forall suite, arch, p :: Expected(b, suite, arch, p) ==> Installable(b.archives(suite, arch), p)
  {
    if CleanReport(b) {
      forall key, suite, arch, template | Visits(b, key, suite, arch, template)
        ensures Clean(CheckTemplate(b, template, key, suite, arch))
      {
        CombinationIsClean(b, key, suite, arch, template);
      }
      CombinationsSay(b);
    } else {
      var f :| Found(b, f) && (f.Missing? || f.Uncovered?);
      var key, suite, arch, template :|
          Visits(b, key, suite, arch, template) && f in CheckTemplate(b, template, key, suite, arch);
      TemplateCleanExactly(b, template, key, suite, arch);
      if NothingUncovered(b) {
        assert !AllInstallable(b.archives(suite, arch), CheckedNames(b, template, suite, arch));
        var names := CheckedNames(b, template, suite, arch);
        var i :| 0 <= i < |names| && !Installable(b.archives(suite, arch), names[i]);
        assert Expected(b, suite, arch, names[i]);
      }
    }
  }

  lemma CombinationsSay(b: Base)
    requires forall key, suite, arch, template :: Visits(b, key, suite, arch, template) ==>
               Clean(CheckTemplate(b, template, key, suite, arch))
    ensures NothingUncovered(b)
    ensures forall suite, arch, p :: Expected(b, suite, arch, p) ==> Installable(b.archives(suite, arch), p)
  {
    forall key, suite, arch, template, code |
      Visits(b, key, suite, arch, template) && Covers(b.languages, template) && code in b.codes
      ensures HasLanguage(b, template, code, suite)
    {
      TemplateCleanExactly(b, template, key, suite, arch);
    }
    forall suite, arch, p | Expected(b, suite, arch, p)
      ensures Installable(b.archives(suite, arch), p)
    {
      var key, template :| Visits(b, key, suite, arch, template) && p in CheckedNames(b, template, suite, arch);
      TemplateCleanExactly(b, template, key, suite, arch);
    }
  }

  /** An item whose entry meets no stale table and gives only packages the report looks for on this suite. */
  ghost predicate IsCheckedFor(b: Base, t: Target, item: Ref)
    requires HasEntry(t, item)
  {
    EntryFor(t, item).Packages? ==>
      && (forall template :: template in EntryFor(t, item).names ==> !TemplateRefuses(t, template))
      && (forall p :: ItemGives(t, item, p) ==> Expected(b, t.suite, t.arch, p))
  }

  /** With a clean report, an item that is checked for resolves soundly. */
  lemma CheckedForIsSound(b: Base, t: Target, item: Ref)
    requires CleanReport(b) && Matches(b, t) && HasEntry(t, item) && IsCheckedFor(b, t, item)
    ensures Sound(b, t, [item], Resolve(t, [item]))
  {
    assert [item][0] == item;
    CleanReportExactly(b);
    match EntryFor(t, item)
    case Unavailable(reason) =>
      assert DeclaredUnavailable(t, item, reason);
      assert [item][1..] == [];
      if t.refuseUnavailable {
        assert ExpandItem(t, item) == Err(UnavailableHere(item.name, reason));
        assert Expand(t, [item]) == Err(UnavailableHere(item.name, reason));
      } else {
        assert Expand(t, [item]) == Ok([] + []);
        assert AppendNew<string>([], [] + []) == [];
      }
    case Packages(_) =>
      ResolutionIsExact(t, [item], item.name);
      assert !ItemRefuses(t, item);
      var names := Resolve(t, [item]).value;
      forall i | 0 <= i < |names|
        ensures Installable(b.archives(t.suite, t.arch), names[i])
      {
        ResolutionIsExact(t, [item], names[i]);
        assert ItemGives(t, item, names[i]);
      }
  }

  /** The archive that has exactly what check_base looks for. */
  ghost function ExpectedView(b: Base, suite: string, arch: string): View {
    View(set key, template, p | key in b.packages && b.packages[key].Packages? && template in b.packages[key].names
                                && p in CheckedNames(b, template, suite, arch)
                                && Visits(b, key, suite, arch, template) :: p, map[])
  }

  lemma ExpectedViewHas(b: Base, suite: string, arch: string, p: string)
    ensures Installable(ExpectedView(b, suite, arch), p) <==> Expected(b, suite, arch, p)
  {}

  /** Nothing but the verdict on a package depends on the archives. */
  lemma ExpectedElsewhere(b: Base, archives: (string, string) -> View, suite: string, arch: string, p: string)
    ensures Expected(b, suite, arch, p) <==> Expected(b.(archives := archives), suite, arch, p)
  {
    var b' := b.(archives := archives);
    assert forall key, template :: Visits(b, key, suite, arch, template) == Visits(b', key, suite, arch, template);
    assert forall template :: CheckedNames(b, template, suite, arch) == CheckedNames(b', template, suite, arch);
  }

  /** Whatever the archives, a clean report vouches for the item. */
  ghost predicate AlwaysSound(b: Base, t: Target, item: Ref) {
    forall archives: (string, string) -> View :: CleanReport(b.(archives := archives)) ==>
      Sound(b.(archives := archives), t, [item], Resolve(t, [item]))
  }

  /** The condition suffices: none of it depends on the archives. */
  lemma CheckedForSuffices(b: Base, t: Target, item: Ref)
    requires Matches(b, t) && HasEntry(t, item) && IsCheckedFor(b, t, item)
    ensures AlwaysSound(b, t, item)
  {
    forall archives: (string, string) -> View | CleanReport(b.(archives := archives))
      ensures Sound(b.(archives := archives), t, [item], Resolve(t, [item]))
    {
      forall p | ItemGives(t, item, p) && EntryFor(t, item).Packages?
        ensures Expected(b.(archives := archives), t.suite, t.arch, p)
      {
        ExpectedElsewhere(b, archives, t.suite, t.arch, p);
      }
      CheckedForIsSound(b.(archives := archives), t, item);
    }
  }

  /** Archives with exactly what check_base looks for give a clean report. */
  lemma ExpectedViewsAreClean(b: Base, archives: (string, string) -> View)
    requires NothingUncovered(b) && forall suite, arch :: archives(suite, arch) == ExpectedView(b, suite, arch)
    ensures CleanReport(b.(archives := archives))
  {
    var b' := b.(archives := archives);
    assert forall key, suite, arch, template ::
           Visits(b, key, suite, arch, template) == Visits(b', key, suite, arch, template);
    assert forall template, code, suite | Covers(b.languages, template) ::
        HasLanguage(b, template, code, suite) == HasLanguage(b', template, code, suite);
    forall suite, arch, p | Expected(b', suite, arch, p)
      ensures Installable(b'.archives(suite, arch), p)
    {
      ExpectedElsewhere(b, archives, suite, arch, p);
      ExpectedViewHas(b, suite, arch, p);
    }
    CleanReportExactly(b');
  }

  /** The condition is needed: those archives have nothing else. */
  lemma CheckedForIsNeeded(b: Base, t: Target, item: Ref)
    requires NothingUncovered(b) && Matches(b, t) && HasEntry(t, item) && AlwaysSound(b, t, item)
    ensures IsCheckedFor(b, t, item)
  {
    var archives: (string, string) -> View := (suite, arch) => ExpectedView(b, suite, arch);
    ExpectedViewsAreClean(b, archives);
    assert Sound(b.(archives := archives), t, [item], Resolve(t, [item]));
    if EntryFor(t, item).Packages? {
      assert Resolve(t, [item]).Ok?;
      ResolutionIsExact(t, [item], item.name);
      assert item in [item];
      forall p | ItemGives(t, item, p)
        ensures Expected(b, t.suite, t.arch, p)
      {
        ResolutionIsExact(t, [item], p);
        ExpectedViewHas(b, t.suite, t.arch, p);
      }
    }
  }

  /**
    A clean report vouches for an item with an entry, whatever the archives have, exactly when the
    resolution meets no stale table and every package the item stands for on the suite is one that
    a visited combination expands to; a base with an uncovered language never has a clean report.
   */
  lemma CoveredExactly(b: Base, t: Target, item: Ref)
    requires Matches(b, t) && HasEntry(t, item)
    ensures AlwaysSound(b, t, item) <==> (NothingUncovered(b) ==> IsCheckedFor(b, t, item))
  {
    if !NothingUncovered(b) {
      forall archives: (string, string) -> View
        ensures !CleanReport(b.(archives := archives))
      {
        UncoveredElsewhere(b, archives);
      }
    } else if IsCheckedFor(b, t, item) {
      CheckedForSuffices(b, t, item);
    } else if AlwaysSound(b, t, item) {
      CheckedForIsNeeded(b, t, item);
    }
  }

  lemma UncoveredElsewhere(b: Base, archives: (string, string) -> View)
    requires !NothingUncovered(b)
    ensures !CleanReport(b.(archives := archives))
  {
    var b' := b.(archives := archives);
    var key, suite, arch, template, code :|
      Visits(b, key, suite, arch, template) && Covers(b.languages, template) && code in b.codes
      && !HasLanguage(b, template, code, suite);
    assert Visits(b', key, suite, arch, template) && !HasLanguage(b', template, code, suite);
    CleanReportExactly(b');
  }

  /** Every mapped role is one the report vouches for. */
  lemma MappedIsCheckedFor(b: Base, t: Target, item: Ref)
    requires NothingUncovered(b) && Matches(b, t) && HasEntry(t, item) && Mapped(b, t, item)
    ensures IsCheckedFor(b, t, item)
  {
    forall archives: (string, string) -> View | CleanReport(b.(archives := archives))
      ensures Sound(b.(archives := archives), t, [item], Resolve(t, [item]))
    {
      assert IsTarget(b.(archives := archives), KeyFor(item.name, t.suite, t.packages), t.suite);
      ResolutionIsSound(b.(archives := archives), t, [item]);
    }
    CoveredExactly(b, t, item);
  }

  /** A mapped item that stands for one concrete package. */
  lemma StandsForOne(t: Target, key: string, package: string)
    requires KeyFor(key, t.suite, t.packages) == key && key in t.packages && t.packages[key] == Packages([package])
    requires !Contains(package, LANG) && Replace(package, ARCH, t.arch) == package
    ensures Resolve(t, [Plain(key)]).Ok? && package in Resolve(t, [Plain(key)]).value
  {
    assert [package] + [] == [package];
    assert ExpandTemplates(t, [package]) == Ok([package]);
    assert Expand(t, [Plain(key)]) == Ok([package]);
    AppendNewElements([], [package]);
    assert package in Elements(AppendNew([], [package]));
  }

  /** A base with a single entry for a single package, which is there wherever check_base looks. */
  lemma ReportsNothing(b: Base, key: string, package: string)
    requires b.packages == map[key := Packages([package])]
    requires !Contains(package, LANG) && !Contains(package, ARCH) && Replace(package, ARCH, "amd64") == package
    requires forall suite :: IsTarget(b, key, suite) ==> package in b.archives(suite, "amd64").names
    ensures IsReport(b, [])
  {
    assert [package][0] == package && ArchesFor([package]) == ["amd64"];
    forall k, suite, arch, template | Visits(b, k, suite, arch, template)
      ensures CheckTemplate(b, template, k, suite, arch) == []
    {
      assert k == key && template == package && arch == "amd64";
      assert ExpandPlain(package, b.codes, "amd64") == [package];
      assert CheckAll(b, [package], key, suite, "amd64") == [];
    }
  }

  /** An entry for one suite, asked for by its key on another, is out of reach of the report. */
  lemma OtherSuitesEntryIsNotChecked() returns (b: Base, t: Target, item: Ref)
    ensures Matches(b, t) && KeyFor(item.name, t.suite, t.packages) in t.packages && !Mapped(b, t, item)
    ensures IsReport(b, []) && Clean([])
    ensures !Sound(b, t, [item], Resolve(t, [item]))
  {
    var packages := map["x@a" := Packages(["p"])];
    b := Base(packages, None, ["a", "b"], [], (suite, arch) => if suite == "a" then View({"p"}, map[]) else EMPTY_VIEW);
    t := Target(packages, None, "base", "b", "amd64", [], true);
    item := Plain("x@a");
    assert "x@a" == "x" + ['@'] + "a";
    CharAtUnique("x", '@', "a");
    ReportsNothing(b, "x@a", "p");
    assert |"x@a" + "@" + "b"| != |"x@a"|;
    StandsForOne(t, "x@a", "p");
  }
}
