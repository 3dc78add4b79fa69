/**
  The file language-packages.map: printed by tools/generate_language_packages.py
  (`render_map_file`) and read by tools/render_manifest.py (`load_language_package_map`).
 */
module LanguageTable {
  import opened Common
  import opened Text
  import opened Resolver

  /** What was found for a language, with how it was found, or why nothing was. */
  datatype Row = Found(packages: seq<string>, how: string) | Nothing(reason: string)

  function EntryOf(row: Row): Entry {
    match row
    case Found(packages, _) => Packages(packages)
    case Nothing(reason) => Unavailable(reason)
  }

  const UNAVAILABLE: string := "unavailable:"

  // ---------------------------------------------------------------- printing

  function Comment(how: string): string {
    if how == "" then "" else "  # " + how
  }

  function RowLine(template: string, key: string, row: Row): string {
    template + "/" + key + " = " +
    match row
    case Nothing(reason) => UNAVAILABLE + " " + reason
    case Found(packages, how) => JoinWords(packages) + Comment(how)
  }

  /** The rows of one template, in the order they are printed in. */
  datatype Block = Block(template: string, rows: map<string, Row>, order: seq<string>)

  ghost predicate ValidBlock(b: Block) {
    Distinct(b.order) && Elements(b.order) == b.rows.Keys
  }

  function RowLines(template: string, rows: map<string, Row>, order: seq<string>): seq<string> {
    if order == [] then []
    else RowLines(template, rows, Init(order))
         + (if Last(order) in rows then [RowLine(template, Last(order), rows[Last(order)])] else [])
  }

  function BlockLines(b: Block): seq<string> {
    ["# " + b.template] + RowLines(b.template, b.rows, b.order) + [""]
  }

  function AllLines(header: seq<string>, blocks: seq<Block>): seq<string> {
    if blocks == [] then header + [""] else AllLines(header, Init(blocks)) + BlockLines(Last(blocks))
  }

  /** "\n".join(lines).rstrip() + "\n"; the newline Unlines puts last is stripped with the others. */
  function RenderText(header: seq<string>, blocks: seq<Block>): string {
    RStrip(Unlines(AllLines(header, blocks))) + "\n"
  }

  /** render_map_file: templates in order, and the keys of each in some order. */
  method RenderMapFile(header: seq<string>, templates: seq<string>, table: map<string, map<string, Row>>)
    returns (text: string, ghost blocks: seq<Block>)
    requires forall i :: 0 <= i < |templates| ==> templates[i] in table
    ensures text == RenderText(header, blocks)
    ensures |blocks| == |templates| && forall i :: 0 <= i < |templates| ==>
              ValidBlock(blocks[i]) && blocks[i].template == templates[i] && blocks[i].rows == table[templates[i]]
  {
    var lines := header + [""];
    blocks := [];
    var i := 0;
    while i < |templates|
      invariant 0 <= i <= |templates| && |blocks| == i
      invariant lines == AllLines(header, blocks)
      invariant forall j :: 0 <= j < i ==>
                  ValidBlock(blocks[j]) && blocks[j].template == templates[j] && blocks[j].rows == table[templates[j]]
    {
      var rows := table[templates[i]];
      var rowLines: seq<string> := [];
      ghost var order: seq<string> := [];
      var todo := rows.Keys;
      while todo != {}
        invariant todo <= rows.Keys && Distinct(order) && Elements(order) == rows.Keys - todo
        invariant rowLines == RowLines(templates[i], rows, order)
        decreases todo
      {
        var key :| key in todo;
        todo := todo - {key};
        rowLines := rowLines + [RowLine(templates[i], key, rows[key])];
        assert Init(order + [key]) == order;
        ElementsAppend(order, [key]);
        order := order + [key];
      }
      ghost var b := Block(templates[i], rows, order);
      assert Init(blocks + [b]) == blocks;
      assert lines + BlockLines(b) == lines + (["# " + templates[i]] + rowLines + [""]);
      lines := lines + (["# " + templates[i]] + rowLines + [""]);
      blocks := blocks + [b];
      i := i + 1;
    }
    text := RStrip(Unlines(lines)) + "\n";
  }

  // ----------------------------------------------------------------- reading

  /** One line of the file; a key without a slash is refused. */
  function LoadLine(m: LanguageMap, raw: string): Result<LanguageMap, string> {
    var line := Strip(Before(raw, '#'));
    if line == "" || '=' !in line then Ok(m)
    else
      var key, value := Strip(Before(line, '=')), Strip(After(line, '='));
      if '/' !in key then Err(key)
      else
        var template, langKey := Before(key, '/'), After(key, '/');
        var entry := if StartsWith(value, UNAVAILABLE) then Unavailable(Strip(value[|UNAVAILABLE|..]))
                     else Packages(Words(value));
        Ok(m[template := (if template in m then m[template] else map[])[langKey := entry]])
  }

  function LoadLines(m: LanguageMap, lines: seq<string>): Result<LanguageMap, string> {
    if lines == [] then Ok(m)
    else
      match LoadLines(m, Init(lines))
      case Err(e) => Err(e)
      case Ok(m') => LoadLine(m', Last(lines))
  }

  function Load(text: string): Result<LanguageMap, string> {
    LoadLines(map[], SplitLines(text))
  }

  /** load_language_package_map */
  method LoadLanguagePackageMap(text: string) returns (r: Result<LanguageMap, string>)
    ensures r == Load(text)
  {
    var lines := SplitLines(text);
    var m: LanguageMap := map[];
    var i := 0;
    while i < |lines|
      invariant 0 <= i <= |lines| && LoadLines(map[], lines[..i]) == Ok(m)
    {
      assert Init(lines[..i + 1]) == lines[..i];
      var next := LoadLine(m, lines[i]);
      if next.Err? {
        LoadFails(map[], lines, i + 1);
        return next;
      }
      m := next.value;
      i := i + 1;
    }
    assert lines[..i] == lines;
    r := Ok(m);
  }

  lemma {:induction false} LoadFails(m: LanguageMap, lines: seq<string>, n: nat)
    requires n <= |lines| && LoadLines(m, lines[..n]).Err?
    ensures LoadLines(m, lines) == LoadLines(m, lines[..n])
    decreases |lines|
  {
    if n == |lines| {
      assert lines[..n] == lines;
    } else {
      assert Init(lines)[..n] == lines[..n];
      LoadFails(m, Init(lines), n);
    }
  }

  lemma {:induction false} LoadLinesAppend(m: LanguageMap, a: seq<string>, b: seq<string>)
    ensures LoadLines(m, a + b) ==
            match LoadLines(m, a)
            case Err(e) => Err(e)
            case Ok(m') => LoadLines(m', b)
    decreases |b|
  {
    if b == [] {
      assert a + b == a;
    } else {
      assert Init(a + b) == a + Init(b) && Last(a + b) == Last(b);
      LoadLinesAppend(m, a, Init(b));
    }
  }

  // ------------------------------------------------------- what can be printed

  /** A name the format can carry: no space, and none of its own punctuation. */
  predicate IsToken(s: string) {
    IsWord(s) && '#' !in s && '=' !in s
  }

  predicate IsTemplate(s: string) {
    IsToken(s) && '/' !in s
  }

  predicate IsPackageName(s: string) {
    IsToken(s) && !StartsWith(s, UNAVAILABLE)
  }

  /** A comment or reason on one line, with no space around it. */
  predicate IsPhrase(s: string) {
    s != "" && NoBreak(s) && !IsSpace(s[0]) && !IsSpace(s[|s| - 1])
  }

  predicate IsPrintable(row: Row) {
    match row
    case Found(packages, how) =>
      packages != [] && (forall i :: 0 <= i < |packages| ==> IsPackageName(packages[i])) && IsPhrase(how)
    case Nothing(reason) => IsPhrase(reason) && '#' !in reason
  }

  predicate PrintableRows(rows: map<string, Row>) {
    forall key :: key in rows ==> IsToken(key) && IsPrintable(rows[key])
  }

  // --------------------------------------------------------- reading one row

  lemma WordNoBreak(s: string)
    requires IsWord(s)
    ensures NoBreak(s)
  {}

  lemma {:induction false} JoinedNames(names: seq<string>)
    requires names != [] && forall i :: 0 <= i < |names| ==> IsPackageName(names[i])
    ensures var s := JoinWords(names);
            && NoBreak(s) && s != "" && !IsSpace(s[0]) && !IsSpace(s[|s| - 1])
            && '#' !in s && '=' !in s && !StartsWith(s, UNAVAILABLE)
  {
    var w := names[0];
    WordNoBreak(w);
    if |names| > 1 {
      JoinedNames(names[1..]);
      var rest := JoinWords(names[1..]);
      var s := w + (" " + rest);
      assert JoinWords(names) == s;
      NoBreakAppend(w, " " + rest);
      NoBreakAppend(" ", rest);
      assert s[0] == w[0] && s[|s| - 1] == rest[|rest| - 1];
      if StartsWith(s, UNAVAILABLE) {
        NoSpaceInMarker(w, rest);
      }
    }
  }

  /** The marker has no space, so a text that starts with it has it in its first word. */
  lemma NoSpaceInMarker(w: string, rest: string)
    requires IsWord(w) && StartsWith(w + (" " + rest), UNAVAILABLE)
    ensures StartsWith(w, UNAVAILABLE)
  {
    var s := w + (" " + rest);
    assert s[|w|] == ' ';
    assert s[..|UNAVAILABLE|] == UNAVAILABLE;
  }

  function Get(m: LanguageMap, template: string): map<string, Entry> {
    if template in m then m[template] else map[]
  }

  function ValueText(row: Row): string {
    match row
    case Nothing(reason) => UNAVAILABLE + " " + reason
    case Found(packages, _) => JoinWords(packages)
  }

  predicate Solid(s: string) {
    s != "" && !IsSpace(s[0]) && !IsSpace(s[|s| - 1])
  }

  lemma StripPadded(s: string)
    requires Solid(s)
    ensures Strip(s) == s && Strip(s + " ") == s && Strip(s + "  ") == s && Strip(" " + s) == s
  {
    StripSolid(s);
    var one, two, left := s + " ", s + "  ", " " + s;
    assert one[..|one| - 1] == s && two[..|two| - 1] == one && left[1..] == s;
    assert one[0] == s[0] && two[0] == s[0];
    assert RStrip(one) == RStrip(s) && RStrip(two) == RStrip(one);
  }

  /** A marker, a space and a text. */
  lemma MarkedText(marker: string, reason: string)
    requires marker != "" && !IsSpace(marker[0]) && NoBreak(marker + " ") && Solid(reason) && NoBreak(reason)
    ensures var v := marker + " " + reason;
            Solid(v) && NoBreak(v) && StartsWith(v, marker) && Strip(v[|marker|..]) == reason
  {
    var v := marker + " " + reason;
    assert v[|marker|..] == " " + reason && v[..|marker|] == marker;
    assert v[0] == marker[0] && v[|v| - 1] == reason[|reason| - 1];
    StripPadded(reason);
    NoBreakAppend(marker + " ", reason);
  }

  /** What the value of a row looks like, and what it means. */
  lemma ReadValue(row: Row)
    requires IsPrintable(row)
    ensures var v := ValueText(row);
            && Solid(v) && '#' !in v && NoBreak(v)
            && EntryOf(row) == if StartsWith(v, UNAVAILABLE) then Unavailable(Strip(v[|UNAVAILABLE|..]))
                               else Packages(Words(v))
  {
    match row
    case Found(packages, _) =>
      JoinedNames(packages);
      WordsOfJoin(packages);
    case Nothing(reason) =>
      assert NoBreak(UNAVAILABLE + " ") && '#' !in UNAVAILABLE;
      MarkedText(UNAVAILABLE, reason);
  }

  /** The equals sign between a key and a value divides them. */
  lemma EqualsSplits(name: string, v: string)
    requires Solid(name) && '=' !in name && Solid(v)
    ensures var core := name + " = " + v;
            '=' in core && Strip(Before(core, '=')) == name && Strip(After(core, '=')) == v
  {
    var core := name + " = " + v;
    assert core == (name + " ") + ['='] + (" " + v);
    CharAtUnique(name + " ", '=', " " + v);
    StripPadded(name);
    StripPadded(v);
    assert core[|name| + 1] == '=';
  }

  /** The first slash of a key divides the template from the language. */
  lemma SlashSplits(template: string, key: string)
    requires IsTemplate(template) && IsToken(key)
    ensures var name := template + "/" + key;
            '/' in name && Before(name, '/') == template && After(name, '/') == key && Solid(name)
            && '=' !in name && '#' !in name
  {
    var name := template + "/" + key;
    assert name == template + ['/'] + key;
    CharAtUnique(template, '/', key);
    assert name[|template|] == '/' && name[0] == template[0] && name[|name| - 1] == key[|key| - 1];
  }

  /** A row without its comment. */
  function Core(template: string, key: string, row: Row): string {
    template + "/" + key + " = " + ValueText(row)
  }

  /** The part of a printed row before its comment is the row without it. */
  lemma CommentIsCut(template: string, key: string, row: Row)
    requires IsTemplate(template) && IsToken(key) && IsPrintable(row)
    ensures Strip(Before(RowLine(template, key, row), '#')) == Core(template, key, row)
            && Core(template, key, row) != ""
  {
    var core, v := Core(template, key, row), ValueText(row);
    ReadValue(row);
    SlashSplits(template, key);
    assert core[0] == (template + "/" + key)[0] && core[|core| - 1] == v[|v| - 1];
    assert '#' !in core;
    StripPadded(core);
    match row
    case Nothing(_) =>
      CharAtNone(core, '#');
    case Found(_, how) =>
      assert RowLine(template, key, row) == (core + "  ") + ['#'] + (" " + how);
      CharAtUnique(core + "  ", '#', " " + how);
  }

  /** A printed row reads back as its entry. */
  lemma ReadRow(m: LanguageMap, template: string, key: string, row: Row)
    requires IsTemplate(template) && IsToken(key) && IsPrintable(row)
    ensures LoadLine(m, RowLine(template, key, row)) == Ok(m[template := Get(m, template)[key := EntryOf(row)]])
  {
    CommentIsCut(template, key, row);
    ReadValue(row);
    SlashSplits(template, key);
    EqualsSplits(template + "/" + key, ValueText(row));
  }

  /** A line that breaks nowhere and does not end in space. */
  predicate Ink(line: string) {
    NoBreak(line) && line != "" && !IsSpace(line[|line| - 1])
  }

  lemma RowIsInk(template: string, key: string, row: Row)
    requires IsTemplate(template) && IsToken(key) && IsPrintable(row)
    ensures Ink(RowLine(template, key, row))
  {
    var core, v := Core(template, key, row), ValueText(row);
    ReadValue(row);
    CoreNoBreak(template, key, v);
    if row.Found? {
      NoBreakAppend("  # ", row.how);
      NoBreakAppend(core, "  # " + row.how);
      assert RowLine(template, key, row) == core + ("  # " + row.how);
    }
  }

  lemma CoreNoBreak(template: string, key: string, v: string)
    requires IsWord(template) && IsWord(key) && NoBreak(v)
    ensures NoBreak(template + "/" + key + " = " + v)
  {
    WordNoBreak(template);
    WordNoBreak(key);
    NoBreakAppend(template, "/");
    NoBreakAppend(template + "/", key);
    assert NoBreak(" = ");
    NoBreakAppend(template + "/" + key, " = ");
    NoBreakAppend(template + "/" + key + " = ", v);
  }

  // ------------------------------------------------------ reading the file

  function Entries(rows: map<string, Row>): map<string, Entry> {
    map key | key in rows :: EntryOf(rows[key])
  }

  function EntriesIn(rows: map<string, Row>, order: seq<string>): map<string, Entry> {
    map key | key in order && key in rows :: EntryOf(rows[key])
  }

  /** A table with more entries under a template. */
  function WithEntries(m: LanguageMap, template: string, entries: map<string, Entry>): LanguageMap {
    if entries == map[] then m else m[template := Get(m, template) + entries]
  }

  lemma WithOneMore(m: LanguageMap, template: string, entries: map<string, Entry>, key: string, entry: Entry)
    ensures var m' := WithEntries(m, template, entries);
            m'[template := Get(m', template)[key := entry]] == WithEntries(m, template, entries[key := entry])
  {
    var m' := WithEntries(m, template, entries);
    assert key in entries[key := entry];
    assert Get(m', template) == Get(m, template) + entries;
    assert Get(m', template)[key := entry] == Get(m, template) + entries[key := entry];
  }

  /** Reading the rows of a template adds their entries under it. */
  lemma {:induction false} ReadRows(m: LanguageMap, template: string, rows: map<string, Row>, order: seq<string>)
    requires IsTemplate(template) && PrintableRows(rows) && forall i :: 0 <= i < |order| ==> order[i] in rows
    ensures LoadLines(m, RowLines(template, rows, order)) == Ok(WithEntries(m, template, EntriesIn(rows, order)))
  {
    if order == [] {
      assert EntriesIn(rows, order) == map[];
    } else {
      var before, key := Init(order), Last(order);
      var m' := WithEntries(m, template, EntriesIn(rows, before));
      ReadRows(m, template, rows, before);
      ReadRow(m', template, key, rows[key]);
      WithOneMore(m, template, EntriesIn(rows, before), key, EntryOf(rows[key]));
      EntriesInLast(rows, order);
      ReadOneMore(m, RowLines(template, rows, before), RowLine(template, key, rows[key]), m');
    }
  }

  lemma EntriesInLast(rows: map<string, Row>, order: seq<string>)
    requires order != [] && Last(order) in rows
    ensures EntriesIn(rows, order) == EntriesIn(rows, Init(order))[Last(order) := EntryOf(rows[Last(order)])]
  {
    assert order == Init(order) + [Last(order)];
  }

  lemma ReadOneMore(m: LanguageMap, lines: seq<string>, line: string, m': LanguageMap)
    requires LoadLines(m, lines) == Ok(m')
    ensures LoadLines(m, lines + [line]) == LoadLine(m', line)
  {
    assert Init(lines + [line]) == lines;
  }

  lemma {:induction false} RowsAreInk(template: string, rows: map<string, Row>, order: seq<string>)
    requires IsTemplate(template) && PrintableRows(rows) && forall i :: 0 <= i < |order| ==> order[i] in rows
    ensures forall i :: 0 <= i < |RowLines(template, rows, order)| ==> Ink(RowLines(template, rows, order)[i])
  {
    if order != [] {
      RowsAreInk(template, rows, Init(order));
      RowIsInk(template, Last(order), rows[Last(order)]);
    }
  }

  /** The table a list of blocks stands for; a template without rows has no place in it. */
  function TableOf(blocks: seq<Block>): LanguageMap {
    if blocks == [] then map[]
    else
      var m, b := TableOf(Init(blocks)), Last(blocks);
      WithEntries(m, b.template, Entries(b.rows))
  }

  ghost predicate PrintableBlocks(blocks: seq<Block>) {
    forall i :: 0 <= i < |blocks| ==>
      ValidBlock(blocks[i]) && IsTemplate(blocks[i].template) && PrintableRows(blocks[i].rows)
  }

  predicate IsHeader(header: seq<string>) {
    header != [] && forall i :: 0 <= i < |header| ==> Ink(header[i]) && header[i][0] == '#'
  }

  lemma ReadSkipped(m: LanguageMap, line: string)
    requires line == "" || line[0] == '#'
    ensures LoadLine(m, line) == Ok(m)
  {
    assert CharAt(line, '#') == 0;
    assert Before(line, '#') == "";
  }

  lemma {:induction false} ReadHeader(m: LanguageMap, header: seq<string>)
    requires forall i :: 0 <= i < |header| ==> header[i] != "" && header[i][0] == '#'
    ensures LoadLines(m, header) == Ok(m)
  {
    if header != [] {
      ReadHeader(m, Init(header));
      ReadSkipped(m, Last(header));
    }
  }

  /** The last line is blank and the one before it ends in ink. */
  predicate WellPrinted(lines: seq<string>) {
    |lines| >= 2 && Last(lines) == "" && Ink(lines[|lines| - 2]) && forall i :: 0 <= i < |lines| ==> NoBreak(lines[i])
  }

  lemma TitleIsInk(template: string)
    requires IsTemplate(template)
    ensures Ink("# " + template)
  {
    var title := "# " + template;
    WordNoBreak(template);
    assert NoBreak("# ");
    NoBreakAppend("# ", template);
    assert title[|title| - 1] == template[|template| - 1];
  }

  lemma BlockIsWellPrinted(b: Block)
    requires ValidBlock(b) && IsTemplate(b.template) && PrintableRows(b.rows)
    ensures WellPrinted(BlockLines(b))
  {
    TitleIsInk(b.template);
    assert forall i :: 0 <= i < |b.order| ==> b.order[i] in Elements(b.order);
    RowsAreInk(b.template, b.rows, b.order);
  }

  lemma ReadBlock(m: LanguageMap, b: Block)
    requires ValidBlock(b) && IsTemplate(b.template) && PrintableRows(b.rows)
    ensures LoadLines(m, BlockLines(b)) == Ok(WithEntries(m, b.template, Entries(b.rows)))
  {
    var title, rows := "# " + b.template, RowLines(b.template, b.rows, b.order);
    assert forall i :: 0 <= i < |b.order| ==> b.order[i] in Elements(b.order);
    assert forall k :: k in b.rows ==> k in Elements(b.order);
    assert EntriesIn(b.rows, b.order) == Entries(b.rows);
    ReadRows(m, b.template, b.rows, b.order);
    ReadSkipped(m, title);
    ReadOneMore(m, [], title, m);
    assert [] + [title] == [title];
    LoadLinesAppend(m, [title], rows);
    var m' := WithEntries(m, b.template, Entries(b.rows));
    ReadSkipped(m', "");
    ReadOneMore(m, [title] + rows, "", m');
  }

  lemma {:induction false} ReadAll(header: seq<string>, blocks: seq<Block>)
    requires IsHeader(header) && PrintableBlocks(blocks)
    ensures LoadLines(map[], AllLines(header, blocks)) == Ok(TableOf(blocks))
    ensures WellPrinted(AllLines(header, blocks))
  {
    if blocks == [] {
      ReadHeader(map[], header);
      LoadLinesAppend(map[], header, [""]);
      ReadSkipped(map[], "");
      assert Init(header + [""]) == header;
    } else {
      ReadAll(header, Init(blocks));
      ReadBlock(TableOf(Init(blocks)), Last(blocks));
      BlockIsWellPrinted(Last(blocks));
      LoadLinesAppend(map[], AllLines(header, Init(blocks)), BlockLines(Last(blocks)));
      var a, b := AllLines(header, Init(blocks)), BlockLines(Last(blocks));
      assert (a + b)[|a + b| - 2] == b[|b| - 2] && Last(a + b) == Last(b);
    }
  }

  lemma StripNewlines(ink: string)
    requires ink != "" && !IsSpace(ink[|ink| - 1])
    ensures RStrip(ink + "\n" + "\n") == ink
  {
    var one := ink + "\n";
    var two := one + "\n";
    assert two[..|two| - 1] == one && one[..|one| - 1] == ink;
    assert RStrip(two) == RStrip(one) && RStrip(one) == RStrip(ink);
  }

  /** Stripping the printed text and giving it back one newline drops the last blank line only. */
  lemma StripLines(lines: seq<string>)
    requires WellPrinted(lines)
    ensures RStrip(Unlines(lines)) + "\n" == Unlines(Init(lines))
  {
    var most, last := Init(Init(lines)), Last(Init(lines));
    var ink := Unlines(most) + last;
    assert Init(lines) == most + [last];
    UnlinesAppend(most, [last]);
    assert Unlines([last]) == last + "\n";
    assert Unlines(Init(lines)) == ink + "\n";
    assert lines == Init(lines) + [""];
    UnlinesAppend(Init(lines), [""]);
    assert Unlines([""]) == "\n";
    StripNewlines(ink);
  }

  /** What is printed reads back as the table it was printed from. */
  lemma PrintedTableReadsBack(header: seq<string>, blocks: seq<Block>)
    requires IsHeader(header) && PrintableBlocks(blocks)
    ensures Load(RenderText(header, blocks)) == Ok(TableOf(blocks))
  {
    var lines := AllLines(header, blocks);
    ReadAll(header, blocks);
    StripLines(lines);
    SplitLinesOfUnlines(Init(lines));
    assert lines == Init(lines) + [""];
    if LoadLines(map[], Init(lines)).Ok? {
      ReadSkipped(LoadLines(map[], Init(lines)).value, "");
    }
  }

  /** With templates that differ, each keeps exactly its own entries. */
  lemma {:induction false} TableHasBlock(blocks: seq<Block>, i: nat)
    requires i < |blocks| && blocks[i].rows != map[]
    requires forall j, k :: 0 <= j < k < |blocks| ==> blocks[j].template != blocks[k].template
    ensures blocks[i].template in TableOf(blocks) && TableOf(blocks)[blocks[i].template] == Entries(blocks[i].rows)
  {
    var m, b := TableOf(Init(blocks)), Last(blocks);
    if i < |blocks| - 1 {
      TableHasBlock(Init(blocks), i);
      assert blocks[i].template != b.template;
    } else {
      TableHasOnly(Init(blocks), b.template);
      var key :| key in b.rows;
      assert key in Entries(b.rows);
      assert Get(m, b.template) == map[] && map[] + Entries(b.rows) == Entries(b.rows);
    }
  }

  lemma {:induction false} TableHasOnly(blocks: seq<Block>, template: string)
    requires forall j :: 0 <= j < |blocks| ==> blocks[j].template != template
    ensures template !in TableOf(blocks)
  {
    if blocks != [] {
      TableHasOnly(Init(blocks), template);
    }
  }
}
