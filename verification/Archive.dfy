/** What an archive offers, read from its Packages indexes (tools/packages_map_conformance.py). */
module Archive {
  import opened Common
  import opened Text

  /** The real package names, and for each provided name the packages that provide it. */
  datatype View = View(names: set<string>, virtual: map<string, set<string>>)

  const EMPTY_VIEW: View := View({}, map[])

  predicate Installable(v: View, package: string) {
    package in v.names || package in v.virtual
  }

  /** Whatever provides something is itself a package. */
  ghost predicate ProvidersAreNames(v: View) {
    forall p :: p in v.virtual ==> v.virtual[p] != {} && v.virtual[p] <= v.names
  }

  const PACKAGE: string := "Package: "
  const PROVIDES: string := "Provides: "

  /** Up to the first space or parenthesis. */
  function Token(s: string): string {
    if s == [] || IsSpace(s[0]) || s[0] == '(' then [] else [s[0]] + Token(s[1..])
  }

  function TokensOf(items: seq<string>): set<string> {
    set i | i in items && Token(Strip(i)) != [] :: Token(Strip(i))
  }

  /** The names a Provides line lists. */
  function ProvidedBy(line: string): set<string>
    requires StartsWith(line, PROVIDES)
  {
    TokensOf(SplitChar(line[|PROVIDES|..], ','))
  }

  function Providers(v: View, p: string): set<string> {
    if p in v.virtual then v.virtual[p] else {}
  }

  function AddProvider(v: View, provided: set<string>, package: string): View {
    v.(virtual := map p | p in v.virtual.Keys + provided :: Providers(v, p) + (if p in provided then {package} else {}))
  }

  /** One line of an index, inside the stanza of `current`. */
  function ParseLine(v: View, current: string, line: string): (View, string) {
    if StartsWith(line, PACKAGE) then
      var package := Strip(line[|PACKAGE|..]);
      (v.(names := v.names + {package}), package)
    else if StartsWith(line, PROVIDES) && current != "" then
      (AddProvider(v, ProvidedBy(line), current), current)
    else
      (v, current)
  }

  function ParseLines(v: View, current: string, lines: seq<string>): (View, string) {
    if lines == [] then (v, current)
    else
      var (v', current') := ParseLines(v, current, Init(lines));
      ParseLine(v', current', Last(lines))
  }

  /** parse_packages_index: `names` and `virtual`, its dictionary `provides`, accumulate over several indexes. */
  method ParsePackagesIndex(text: string, v: View) returns (v': View)
    ensures v' == ParseLines(v, "", SplitLines(text)).0
    ensures ProvidersAreNames(v) ==> ProvidersAreNames(v')
  {
    var lines := SplitLines(text);
    var current := "";
    v' := v;
    var i := 0;
    while i < |lines|
      invariant 0 <= i <= |lines|
      invariant (v', current) == ParseLines(v, "", lines[..i])
    {
      var line := lines[i];
      assert Init(lines[..i + 1]) == lines[..i];
      if StartsWith(line, PACKAGE) {
        current := Strip(line[|PACKAGE|..]);
        v' := v'.(names := v'.names + {current});
      } else if StartsWith(line, PROVIDES) && current != "" {
        v' := AddProvider(v', ProvidedBy(line), current);
      }
      i := i + 1;
    }
    assert lines[..i] == lines;
    if ProvidersAreNames(v) {
      ParseKeepsProviders(v, lines);
    }
  }

  lemma {:induction false} ParseKeepsProviders(v: View, lines: seq<string>)
    requires ProvidersAreNames(v)
    ensures var (v', current) := ParseLines(v, "", lines);
            ProvidersAreNames(v') && (current != "" ==> current in v'.names)
  {
    if lines != [] {
      ParseKeepsProviders(v, Init(lines));
    }
  }

  /** The package whose stanza the last of these lines is in, or nothing before the first. */
  function StanzaOf(lines: seq<string>): string {
    if lines == [] then ""
    else if StartsWith(Last(lines), PACKAGE) then Strip(Last(lines)[|PACKAGE|..])
    else StanzaOf(Init(lines))
  }

  predicate NamesPackage(line: string, package: string) {
    StartsWith(line, PACKAGE) && Strip(line[|PACKAGE|..]) == package
  }

  /** Line i, in the stanza of q, says that q provides p. */
  predicate SaysProvides(lines: seq<string>, i: nat, p: string, q: string)
    requires i < |lines|
  {
    StartsWith(lines[i], PROVIDES) && q != "" && StanzaOf(lines[..i]) == q && p in ProvidedBy(lines[i])
  }

  ghost predicate IsNamed(lines: seq<string>, p: string) {
    exists i :: 0 <= i < |lines| && NamesPackage(lines[i], p)
  }

  ghost predicate IsProvided(lines: seq<string>, p: string, q: string) {
    exists i :: 0 <= i < |lines| && SaysProvides(lines, i, p, q)
  }

  lemma IsNamedInit(lines: seq<string>, p: string)
    requires lines != []
    ensures IsNamed(lines, p) <==> IsNamed(Init(lines), p) || NamesPackage(Last(lines), p)
  {
    assert forall i :: 0 <= i < |lines| - 1 ==> Init(lines)[i] == lines[i];
  }

  lemma IsProvidedInit(lines: seq<string>, p: string, q: string)
    requires lines != []
    ensures IsProvided(lines, p, q) <==> IsProvided(Init(lines), p, q) || SaysProvides(lines, |lines| - 1, p, q)
  {
    forall i | 0 <= i < |lines| - 1
      ensures SaysProvides(Init(lines), i, p, q) == SaysProvides(lines, i, p, q)
    {
      assert Init(lines)[..i] == lines[..i];
    }
  }

  lemma {:induction false} CurrentIsStanza(v: View, lines: seq<string>)
    ensures ParseLines(v, "", lines).1 == StanzaOf(lines)
  {
    if lines != [] {
      CurrentIsStanza(v, Init(lines));
    }
  }

  /** The view holds what it held before and what the lines of the index say, and nothing else. */
  lemma {:induction false} ParseSaysWhatLinesSay(v: View, lines: seq<string>, p: string, q: string)
    ensures var v' := ParseLines(v, "", lines).0;
            && (p in v'.names <==> p in v.names || IsNamed(lines, p))
            && (q in Providers(v', p) <==> q in Providers(v, p) || IsProvided(lines, p, q))
  {
    if lines != [] {
      var before := Init(lines);
      ParseSaysWhatLinesSay(v, before, p, q);
      CurrentIsStanza(v, before);
      IsNamedInit(lines, p);
      IsProvidedInit(lines, p, q);
      assert lines[..|lines| - 1] == before;
      StepSaysWhatLineSays(ParseLines(v, "", before).0, StanzaOf(before), Last(lines), p, q);
    }
  }

  lemma StepSaysWhatLineSays(v: View, current: string, line: string, p: string, q: string)
    ensures var v' := ParseLine(v, current, line).0;
            && (p in v'.names <==> p in v.names || NamesPackage(line, p))
            && (q in Providers(v', p) <==>
                q in Providers(v, p)
                    || (StartsWith(line, PROVIDES) && q != "" && current == q && p in ProvidedBy(line)))
  {
    if StartsWith(line, PACKAGE) {
      assert line[1] == 'a';
    }
  }
}
