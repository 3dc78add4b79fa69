/**
  Expanding abstract package names to the concrete packages of a base
  (tools/render_manifest.py: `resolve_packages`), from package maps that have been loaded.
 */
module Resolver {
  import opened Common
  import opened Text

  /** A value of packages.map or language-packages.map: packages, or the reason there are none. */
  datatype Entry = Packages(names: seq<string>) | Unavailable(reason: string)

  type PackageMap = map<string, Entry>

  /** For each language template, the entry of each language, or of a language on one suite. */
  type LanguageMap = map<string, map<string, Entry>>

  /** An abstract name, possibly wanted on some bases only. */
  datatype Ref = Plain(name: string) | OnlyOn(name: string, bases: seq<string>)

  /** What a resolution is made for; the empty suite stands for none. */
  datatype Target = Target(packages: PackageMap, languages: Option<LanguageMap>, base: string, suite: string,
                           arch: string, codes: seq<string>, refuseUnavailable: bool)

  datatype Refusal = UnavailableHere(role: string, reason: string) | StaleTable(template: string, code: string)

  const LANG: string := "${LANG}"
  const ARCH: string := "${ARCH}"

  /** A key with a suite takes precedence over the bare one. */
  function KeyFor<T>(name: string, suite: string, table: map<string, T>): string {
    if suite != "" && name + "@" + suite in table then name + "@" + suite else name
  }

  function Substitute(template: string, code: string, arch: string): string {
    Replace(Replace(template, LANG, code), ARCH, arch)
  }

  function InArch(names: seq<string>, arch: string): (r: seq<string>)
    ensures |r| == |names| && forall i :: 0 <= i < |names| ==> r[i] == Replace(names[i], ARCH, arch)
  {
    seq(|names|, i requires 0 <= i < |names| => Replace(names[i], ARCH, arch))
  }

  /** The language table has the packages of this template. */
  predicate Covers(languages: Option<LanguageMap>, template: string) {
    Contains(template, LANG) && languages.Some? && template in languages.value
  }

  /** The packages of one language for a template, by the table if it covers the template. */
  function PackagesFor(t: Target, template: string, code: string): Result<seq<string>, Refusal> {
    if t.languages.Some? && template in t.languages.value then
      var table := t.languages.value[template];
      var key := KeyFor(code, t.suite, table);
      if key !in table then Err(StaleTable(template, code))
      else if table[key].Unavailable? then Ok([])
      else Ok(InArch(table[key].names, t.arch))
    else Ok([Substitute(template, code, t.arch)])
  }

  function ForCodes(t: Target, template: string, codes: seq<string>): Result<seq<string>, Refusal> {
    if codes == [] then Ok([])
    else
      match PackagesFor(t, template, codes[0])
      case Err(e) => Err(e)
      case Ok(names) =>
        match ForCodes(t, template, codes[1..])
        case Err(e) => Err(e)
        case Ok(rest) => Ok(names + rest)
  }

  function ExpandTemplate(t: Target, template: string): Result<seq<string>, Refusal> {
    if Contains(template, LANG) then ForCodes(t, template, t.codes)
    else Ok([Replace(template, ARCH, t.arch)])
  }

  function ExpandTemplates(t: Target, templates: seq<string>): Result<seq<string>, Refusal> {
    if templates == [] then Ok([])
    else
      match ExpandTemplate(t, templates[0])
      case Err(e) => Err(e)
      case Ok(names) =>
        match ExpandTemplates(t, templates[1..])
        case Err(e) => Err(e)
        case Ok(rest) => Ok(names + rest)
  }

  /** An item that is meant for other bases only is passed over. */
  predicate Skipped(t: Target, item: Ref) {
    item.OnlyOn? && item.bases != [] && t.base !in item.bases
  }

  /** Everything one item stands for, in order and with repetitions; an unknown name stands for itself. */
  function ExpandItem(t: Target, item: Ref): Result<seq<string>, Refusal> {
    if Skipped(t, item) then Ok([])
    else
      var key := KeyFor(item.name, t.suite, t.packages);
      if key !in t.packages then Ok([item.name])
      else
        match t.packages[key]
        case Unavailable(reason) => if t.refuseUnavailable then Err(UnavailableHere(item.name, reason)) else Ok([])
        case Packages(templates) => ExpandTemplates(t, templates)
  }

  function Expand(t: Target, items: seq<Ref>): Result<seq<string>, Refusal> {
    if items == [] then Ok([])
    else
      match ExpandItem(t, items[0])
      case Err(e) => Err(e)
      case Ok(names) =>
        match Expand(t, items[1..])
        case Err(e) => Err(e)
        case Ok(rest) => Ok(names + rest)
  }

  /** The names no map knows, which are taken to be concrete. */
  function Unmapped(t: Target, items: seq<Ref>): seq<string> {
    if items == [] then []
    else (if Skipped(t, items[0]) || KeyFor(items[0].name, t.suite, t.packages) in t.packages then []
          else [items[0].name])
         + Unmapped(t, items[1..])
  }

  /** The concrete packages of a list of items: the first occurrences of what they expand to. */
  function Resolve(t: Target, items: seq<Ref>): Result<seq<string>, Refusal> {
    match Expand(t, items)
    case Err(e) => Err(e)
    case Ok(names) => Ok(AppendNew([], names))
  }

  // ------------------------------------------------------------ the algorithm

  /** The packages so far with what an expansion adds, or its refusal. */
  function Added(concrete: seq<string>, expansion: Result<seq<string>, Refusal>): Result<seq<string>, Refusal> {
    match expansion
    case Err(e) => Err(e)
    case Ok(names) => Ok(AppendNew(concrete, names))
  }

  /** The loop over language codes, adding to the list of packages as it goes. */
  method AddCodes(t: Target, template: string, concrete: seq<string>) returns (r: Result<seq<string>, Refusal>)
    ensures r == Added(concrete, ForCodes(t, template, t.codes))
  {
    var out := concrete;
    var i := 0;
    while i < |t.codes|
      invariant 0 <= i <= |t.codes|
      invariant match ForCodes(t, template, t.codes[i..])
                case Err(e) => ForCodes(t, template, t.codes) == Err(e)
                case Ok(rest) => ForCodes(t, template, t.codes).Ok?
                                 && AppendNew(out, rest) == AppendNew(concrete, ForCodes(t, template, t.codes).value)
    {
      assert t.codes[i..][1..] == t.codes[i + 1..] && t.codes[i..][0] == t.codes[i];
      var names := PackagesFor(t, template, t.codes[i]);
      if names.Err? {
        return Err(names.error);
      }
      if ForCodes(t, template, t.codes[i + 1..]).Ok? {
        AppendNewSplit(out, names.value, ForCodes(t, template, t.codes[i + 1..]).value);
      }
      out := AppendItems(out, names.value);
      i := i + 1;
    }
    r := Ok(out);
  }

  method AddTemplates(t: Target, templates: seq<string>, concrete: seq<string>)
    returns (r: Result<seq<string>, Refusal>)
    ensures r == Added(concrete, ExpandTemplates(t, templates))
  {
    var out := concrete;
    var i := 0;
    while i < |templates|
      invariant 0 <= i <= |templates|
      invariant match ExpandTemplates(t, templates[i..])
                case Err(e) => ExpandTemplates(t, templates) == Err(e)
                case Ok(rest) => ExpandTemplates(t, templates).Ok?
                                 && AppendNew(out, rest) == AppendNew(concrete, ExpandTemplates(t, templates).value)
    {
      var template := templates[i];
      assert templates[i..][1..] == templates[i + 1..] && templates[i..][0] == template;
      if ExpandTemplate(t, template).Ok? && ExpandTemplates(t, templates[i + 1..]).Ok? {
        AppendNewSplit(out, ExpandTemplate(t, template).value, ExpandTemplates(t, templates[i + 1..]).value);
      }
      if Contains(template, LANG) {
        var added := AddCodes(t, template, out);
        if added.Err? {
          return Err(added.error);
        }
        out := added.value;
      } else {
        out := AppendItems(out, [Replace(template, ARCH, t.arch)]);
      }
      i := i + 1;
    }
    r := Ok(out);
  }

  /** The body of the loop over items: the packages so far, with what this item adds. */
  method AddItem(t: Target, item: Ref, concrete: seq<string>) returns (r: Result<seq<string>, Refusal>)
    ensures r == Added(concrete, ExpandItem(t, item))
  {
    if Skipped(t, item) {
      return Ok(concrete);
    }
    var key := KeyFor(item.name, t.suite, t.packages);
    if key !in t.packages {
      var added := AppendItems(concrete, [item.name]);
      return Ok(added);
    }
    match t.packages[key]
    case Unavailable(reason) =>
      r := if t.refuseUnavailable then Err(UnavailableHere(item.name, reason)) else Ok(concrete);
    case Packages(templates) =>
      r := AddTemplates(t, templates, concrete);
  }

  /** resolve_packages */
  method ResolvePackages(t: Target, items: seq<Ref>) returns (r: Result<(seq<string>, seq<string>), Refusal>)
    ensures r == match Resolve(t, items)
                 case Err(e) => Err(e)
                 case Ok(concrete) => Ok((concrete, Unmapped(t, items)))
  {
    var concrete: seq<string>, unmapped: seq<string> := [], [];
    var i := 0;
    while i < |items|
      invariant 0 <= i <= |items|
      invariant unmapped + Unmapped(t, items[i..]) == Unmapped(t, items)
      invariant match Expand(t, items[i..])
                case Err(e) => Expand(t, items) == Err(e)
                case Ok(rest) =>
                  Expand(t, items).Ok? && AppendNew(concrete, rest) == AppendNew([], Expand(t, items).value)
    {
      var item := items[i];
      assert items[i..][1..] == items[i + 1..] && items[i..][0] == item;
      if ExpandItem(t, item).Ok? && Expand(t, items[i + 1..]).Ok? {
        AppendNewSplit(concrete, ExpandItem(t, item).value, Expand(t, items[i + 1..]).value);
      }
      var added := AddItem(t, item, concrete);
      if added.Err? {
        return Err(added.error);
      }
      concrete := added.value;
      if !Skipped(t, item) && KeyFor(item.name, t.suite, t.packages) !in t.packages {
        unmapped := unmapped + [item.name];
      }
      i := i + 1;
    }
    assert unmapped + [] == unmapped;
    r := Ok((concrete, unmapped));
  }

  // ------------------------------------------------------------- properties

  lemma {:induction false} ExpandAppend(t: Target, a: seq<Ref>, b: seq<Ref>)
    ensures Expand(t, a + b) ==
            match Expand(t, a)
            case Err(e) => Err(e)
            case Ok(x) => match Expand(t, b)
                          case Err(e) => Err(e)
                          case Ok(y) => Ok(x + y)
  {
    if a == [] {
      assert a + b == b;
      assert Expand(t, b).Ok? ==> [] + Expand(t, b).value == Expand(t, b).value;
    } else {
      assert (a + b)[0] == a[0] && (a + b)[1..] == a[1..] + b;
      ExpandAppend(t, a[1..], b);
      match ExpandItem(t, a[0])
      case Err(_) =>
      case Ok(names) =>
        if Expand(t, a[1..]).Ok? && Expand(t, b).Ok? {
          assert names + (Expand(t, a[1..]).value + Expand(t, b).value) ==
                 names + Expand(t, a[1..]).value + Expand(t, b).value;
        }
    }
  }

  /**
    Resolving two lists together refuses exactly when resolving one of them does, with the first
    refusal; otherwise it yields the first list's packages and then those of the second that are
    new, so its packages are the union.
   */
  lemma ResolveAppend(t: Target, a: seq<Ref>, b: seq<Ref>)
    ensures Resolve(t, a + b).Err? <==> Resolve(t, a).Err? || Resolve(t, b).Err?
    ensures Resolve(t, a).Err? ==> Resolve(t, a + b) == Resolve(t, a)
    ensures Resolve(t, a + b).Ok? ==>
              var (x, y, z) := (Resolve(t, a).value, Resolve(t, b).value, Resolve(t, a + b).value);
              z == AppendNew(x, y) && Elements(z) == Elements(x) + Elements(y)
  {
    ExpandAppend(t, a, b);
    if Expand(t, a).Ok? && Expand(t, b).Ok? {
      var x, y := Expand(t, a).value, Expand(t, b).value;
      AppendNewSplit([], x, y);
      AppendNewAssociative(AppendNew([], x), [], y);
      AppendNewElements(AppendNew([], x), AppendNew([], y));
    }
  }

  /** The packages are what the items expand to, each once, in the order of first mention. */
  lemma ResolveKeepsFirst(t: Target, items: seq<Ref>)
    requires Resolve(t, items).Ok?
    ensures IsDeduplication(Expand(t, items).value, Resolve(t, items).value)
  {
    FirstOccurrences(Expand(t, items).value);
  }

  // ---------------------------------------------- what a resolution contains

  /** The table covers the template but not this language, bare or on the suite. */
  predicate IsStale(t: Target, template: string, code: string) {
    Covers(t.languages, template) && code !in t.languages.value[template]
    && (t.suite == "" || code + "@" + t.suite !in t.languages.value[template])
  }

  /** The package is one that a language template stands for in this language. */
  ghost predicate CodeGives(t: Target, template: string, code: string, p: string) {
    if Covers(t.languages, template) then
      var table := t.languages.value[template];
      var key := KeyFor(code, t.suite, table);
      key in table && table[key].Packages? && exists n :: n in table[key].names && p == Replace(n, ARCH, t.arch)
    else p == Substitute(template, code, t.arch)
  }

  ghost predicate TemplateGives(t: Target, template: string, p: string) {
    if Contains(template, LANG) then exists code :: code in t.codes && CodeGives(t, template, code, p)
    else p == Replace(template, ARCH, t.arch)
  }

  /** The entry of a mapped item that is not passed over. */
  predicate HasEntry(t: Target, item: Ref) {
    !Skipped(t, item) && KeyFor(item.name, t.suite, t.packages) in t.packages
  }

  function EntryFor(t: Target, item: Ref): Entry
    requires HasEntry(t, item)
  {
    t.packages[KeyFor(item.name, t.suite, t.packages)]
  }

  /** The package is one that the item stands for. */
  ghost predicate ItemGives(t: Target, item: Ref, p: string) {
    !Skipped(t, item) &&
    if HasEntry(t, item) then
      EntryFor(t, item).Packages?
      && exists template :: template in EntryFor(t, item).names && TemplateGives(t, template, p)
    else p == item.name
  }

  ghost predicate TemplateRefuses(t: Target, template: string) {
    exists code :: code in t.codes && IsStale(t, template, code)
  }

  /** The item cannot be had here, or needs a language that its table has not been generated for. */
  ghost predicate ItemRefuses(t: Target, item: Ref) {
    HasEntry(t, item) &&
    match EntryFor(t, item)
    case Unavailable(_) => t.refuseUnavailable
    case Packages(templates) => exists template :: template in templates && TemplateRefuses(t, template)
  }

  lemma CodeIsExact(t: Target, template: string, code: string, p: string)
    requires Contains(template, LANG)
    ensures PackagesFor(t, template, code).Err? <==> IsStale(t, template, code)
    ensures PackagesFor(t, template, code).Ok? ==>
              (p in PackagesFor(t, template, code).value <==> CodeGives(t, template, code, p))
  {
    if Covers(t.languages, template) && PackagesFor(t, template, code).Ok? {
      var table := t.languages.value[template];
      var key := KeyFor(code, t.suite, table);
      if table[key].Packages? {
        var names := table[key].names;
        assert forall n :: n in names ==> exists i :: 0 <= i < |names| && names[i] == n;
      }
    }
  }

  lemma {:induction false} CodesAreExact(t: Target, template: string, codes: seq<string>, p: string)
    requires Contains(template, LANG)
    ensures ForCodes(t, template, codes).Err? <==> exists code :: code in codes && IsStale(t, template, code)
    ensures ForCodes(t, template, codes).Ok? ==>
              (p in ForCodes(t, template, codes).value <==>
               exists code :: code in codes && CodeGives(t, template, code, p))
  {
    if codes != [] {
      CodeIsExact(t, template, codes[0], p);
      CodesAreExact(t, template, codes[1..], p);
      assert forall c :: c in codes <==> c == codes[0] || c in codes[1..];
    }
  }

  lemma TemplateIsExact(t: Target, template: string, p: string)
    ensures ExpandTemplate(t, template).Err? <==> TemplateRefuses(t, template)
    ensures ExpandTemplate(t, template).Ok? ==>
            (p in ExpandTemplate(t, template).value <==> TemplateGives(t, template, p))
  {
    if Contains(template, LANG) {
      CodesAreExact(t, template, t.codes, p);
    }
  }

  lemma {:induction false} TemplatesAreExact(t: Target, templates: seq<string>, p: string)
    ensures ExpandTemplates(t, templates).Err? <==> exists x :: x in templates && TemplateRefuses(t, x)
    ensures ExpandTemplates(t, templates).Ok? ==>
              (p in ExpandTemplates(t, templates).value <==> exists x :: x in templates && TemplateGives(t, x, p))
  {
    if templates != [] {
      TemplateIsExact(t, templates[0], p);
      TemplatesAreExact(t, templates[1..], p);
      assert forall x :: x in templates <==> x == templates[0] || x in templates[1..];
    }
  }

  lemma ItemIsExact(t: Target, item: Ref, p: string)
    ensures ExpandItem(t, item).Err? <==> ItemRefuses(t, item)
    ensures ExpandItem(t, item).Ok? ==> (p in ExpandItem(t, item).value <==> ItemGives(t, item, p))
  {
    if HasEntry(t, item) && EntryFor(t, item).Packages? {
      TemplatesAreExact(t, EntryFor(t, item).names, p);
    }
  }

  lemma {:induction false} ItemsAreExact(t: Target, items: seq<Ref>, p: string)
    ensures Expand(t, items).Err? <==> exists x :: x in items && ItemRefuses(t, x)
    ensures Expand(t, items).Ok? ==> (p in Expand(t, items).value <==> exists x :: x in items && ItemGives(t, x, p))
  {
    if items != [] {
      ItemIsExact(t, items[0], p);
      ItemsAreExact(t, items[1..], p);
      assert forall x :: x in items <==> x == items[0] || x in items[1..];
    }
  }

  /**
    resolve_packages refuses exactly when some item cannot be had or meets a stale table, and
    otherwise names exactly the packages that some item stands for.
   */
  lemma ResolutionIsExact(t: Target, items: seq<Ref>, p: string)
    ensures Resolve(t, items).Err? <==> exists x :: x in items && ItemRefuses(t, x)
    ensures Resolve(t, items).Ok? ==> (p in Resolve(t, items).value <==> exists x :: x in items && ItemGives(t, x, p))
  {
    ItemsAreExact(t, items, p);
    if Resolve(t, items).Ok? {
      AppendNewElements([], Expand(t, items).value);
      assert p in Resolve(t, items).value <==> p in Elements(Resolve(t, items).value);
      assert p in Expand(t, items).value <==> p in Elements(Expand(t, items).value);
    }
  }
}
