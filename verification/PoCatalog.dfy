/**
  The gettext catalogues of the snapshots manager: written by `write_catalog` (update-i18n.py)
  and read by `po_entries` (check-i18n.py), both under
  packages/synos-btrfs-snapshots-manager/upstream/scripts.
 */
module PoCatalog {
  import opened Common
  import opened Text

  // ---------------------------------------------------------------- quoting

  const QUOTE: char := '"'
  const BACKSLASH: char := '\\'

  function HexChar(v: nat): char
    requires v < 16
  {
    if v < 10 then '0' + v as char else 'a' + (v - 10) as char
  }

  function HexValue(c: char): int {
    if '0' <= c <= '9' then c as int - '0' as int
    else if 'a' <= c <= 'f' then c as int - 'a' as int + 10
    else if 'A' <= c <= 'F' then c as int - 'A' as int + 10
    else -1
  }

  /** How json.dumps writes one character when non-ASCII text is kept. */
  function Escape(c: char): string {
    if c == QUOTE then [BACKSLASH, QUOTE]
    else if c == BACKSLASH then [BACKSLASH, BACKSLASH]
    else if c == '\n' then [BACKSLASH, 'n']
    else if c == '\r' then [BACKSLASH, 'r']
    else if c == '\t' then [BACKSLASH, 't']
    else if c == '\U{08}' then [BACKSLASH, 'b']
    else if c == '\U{0C}' then [BACKSLASH, 'f']
    else if c < ' ' then [BACKSLASH, 'u', '0', '0', HexChar(c as int / 16), HexChar(c as int % 16)]
    else [c]
  }

  function EscapeAll(value: string): string {
    if value == [] then [] else Escape(value[0]) + EscapeAll(value[1..])
  }

  /** quote */
  function Quote(value: string): string {
    [QUOTE] + EscapeAll(value) + [QUOTE]
  }

  /** One character or escape sequence of a Python string literal: what it means and how long it is. */
  function Unescape(s: string): (r: Option<(char, nat)>)
    requires s != []
    ensures r.Some? ==> 1 <= r.value.1 <= |s|
  {
    if s[0] != BACKSLASH then Some((s[0], 1))
    else if |s| == 1 then None
    else
      match s[1]
      case '"' => Some(('"', 2))
      case '\'' => Some(('\'', 2))
      case '\\' => Some(('\\', 2))
      case 'n' => Some(('\n', 2))
      case 'r' => Some(('\r', 2))
      case 't' => Some(('\t', 2))
      case 'b' => Some(('\U{08}', 2))
      case 'f' => Some(('\U{0C}', 2))
      case 'a' => Some(('\U{07}', 2))
      case 'v' => Some(('\U{0B}', 2))
      case 'u' =>
        if |s| >= 6 && HexValue(s[2]) >= 0 && HexValue(s[3]) >= 0 && HexValue(s[4]) >= 0 && HexValue(s[5]) >= 0 then
          var code := 4096 * HexValue(s[2]) + 256 * HexValue(s[3]) + 16 * HexValue(s[4]) + HexValue(s[5]);
          if code < 0xD800 || 0xE000 <= code then Some((code as char, 6)) else None
        else None
      case _ => None
  }

  /** The rest of a double-quoted literal, after its opening quote; nothing may follow the closing one. */
  function LiteralBody(s: string): Option<string>
    decreases |s|
  {
    if s == [] then None
    else if s[0] == QUOTE then (if |s| == 1 then Some("") else None)
    else
      match Unescape(s)
      case None => None
      case Some((c, n)) =>
        match LiteralBody(s[n..])
        case None => None
        case Some(rest) => Some([c] + rest)
  }

  /** ast.literal_eval of a double-quoted string. */
  function Literal(s: string): Option<string> {
    if s != [] && (s[0] == ' ' || s[0] == '\t') then Literal(s[1..])
    else if s != [] && s[0] == QUOTE then LiteralBody(s[1..])
    else None
  }

  lemma UnescapeEscape(c: char, rest: string)
    ensures Unescape(Escape(c) + rest) == Some((c, |Escape(c)|)) && Escape(c)[0] != QUOTE
  {
    var e := Escape(c);
    assert forall i :: 0 <= i < |e| ==> (e + rest)[i] == e[i];
  }

  /** Reading an escaped text up to its closing quote gives the text back. */
  lemma {:induction false} LiteralBodyOfEscape(value: string)
    ensures LiteralBody(EscapeAll(value) + [QUOTE]) == Some(value)
  {
    if value != [] {
      var e, rest := Escape(value[0]), EscapeAll(value[1..]) + [QUOTE];
      assert EscapeAll(value) + [QUOTE] == e + rest;
      UnescapeEscape(value[0], rest);
      assert (e + rest)[|e|..] == rest && (e + rest)[0] == e[0];
      LiteralBodyOfEscape(value[1..]);
      assert [value[0]] + value[1..] == value;
    }
  }

  lemma QuoteRoundTrip(value: string)
    ensures Literal(Quote(value)) == Some(value)
  {
    assert Quote(value)[1..] == EscapeAll(value) + [QUOTE];
    LiteralBodyOfEscape(value);
  }

  /** The characters that break a line and that quoting leaves as they are. */
  predicate IsRawBreak(c: char) {
    c == '\U{85}' || c == '\U{2028}' || c == '\U{2029}'
  }

  predicate Printable(value: string) {
    forall i :: 0 <= i < |value| ==> !IsRawBreak(value[i])
  }

  lemma EscapeNoBreak(c: char)
    ensures NoBreak(Escape(c)) <==> !IsRawBreak(c)
  {
    var e := Escape(c);
    if e == [c] {
      assert IsRawBreak(c) <==> IsBreak(e[0]);
    } else if c < ' ' && |e| == 6 {
      assert e[4] >= '0' && e[5] >= '0';
    }
  }

  lemma {:induction false} EscapeAllNoBreak(value: string)
    ensures NoBreak(EscapeAll(value)) <==> Printable(value)
  {
    if value != [] {
      var e, rest := Escape(value[0]), EscapeAll(value[1..]);
      EscapeAllNoBreak(value[1..]);
      EscapeNoBreak(value[0]);
      NoBreakAppend(e, rest);
      assert Printable(value) <==> !IsRawBreak(value[0]) && Printable(value[1..]) by {
        assert forall i :: 1 <= i < |value| ==> value[i] == value[1..][i - 1];
        assert forall i :: 0 <= i < |value[1..]| ==> value[1..][i] == value[i + 1];
      }
    }
  }

  /** A quoted text cut before its closing quote is no literal. */
  lemma {:induction false} CutLiteral(value: string, n: nat)
    requires n <= |EscapeAll(value)|
    ensures LiteralBody(EscapeAll(value)[..n]) == None
    decreases |value|
  {
    var cut := EscapeAll(value)[..n];
    if value != [] && n > 0 {
      var e, rest := Escape(value[0]), EscapeAll(value[1..]);
      if n >= |e| {
        assert cut == e + rest[..n - |e|];
        UnescapeEscape(value[0], rest[..n - |e|]);
        assert cut[|e|..] == rest[..n - |e|];
        CutLiteral(value[1..], n - |e|);
      } else {
        assert cut == e[..n];
      }
    }
  }

  // ---------------------------------------------------------------- reading

  datatype Active = Nothing | MessageId | Translation

  /** The variables of po_entries between two lines. */
  datatype Reader = Reader(entries: map<string, string>, id: Option<string>, value: Option<string>, active: Active)

  const START: Reader := Reader(map[], None, None, Nothing)

  function Finish(r: Reader): Reader {
    var entries := if r.id.Some? && r.value.Some? && r.id.value != "" then r.entries[r.id.value := r.value.value]
                   else r.entries;
    Reader(entries, None, None, Nothing)
  }

  /** One line; the error is the line whose literal cannot be parsed. */
  function ReadLine(r: Reader, raw: string): Result<Reader, string> {
    var line := Strip(raw);
    if StartsWith(line, "msgid ") then
      match Literal(line[6..])
      case None => Err(line)
      case Some(text) => Ok(Reader(Finish(r).entries, Some(text), Some(""), MessageId))
    else if StartsWith(line, "msgstr ") && r.id.Some? then
      match Literal(line[7..])
      case None => Err(line)
      case Some(text) => Ok(r.(value := Some(text), active := Translation))
    else if StartsWith(line, "\"") && !r.active.Nothing? then
      match Literal(line)
      case None => Err(line)
      case Some(text) =>
        if r.active.MessageId? then Ok(r.(id := if r.id.Some? then Some(r.id.value + text) else None))
        else Ok(r.(value := if r.value.Some? then Some(r.value.value + text) else None))
    else if line == "" then Ok(Finish(r))
    else Ok(r)
  }

  function ReadLines(r: Reader, lines: seq<string>): Result<Reader, string>
    decreases |lines|
  {
    if lines == [] then Ok(r)
    else
      match ReadLine(r, lines[0])
      case Err(e) => Err(e)
      case Ok(r') => ReadLines(r', lines[1..])
  }

  function Catalog(text: string): Result<map<string, string>, string> {
    Entries(ReadLines(START, SplitLines(text)))
  }

  /** The entries after the last line. */
  function Entries(read: Result<Reader, string>): Result<map<string, string>, string> {
    match read
    case Err(e) => Err(e)
    case Ok(r) => Ok(Finish(r).entries)
  }

  /** po_entries */
  method PoEntries(text: string) returns (entries: Result<map<string, string>, string>)
    ensures entries == Catalog(text)
  {
    var lines := SplitLines(text);
    var r := START;
    var i := 0;
    while i < |lines|
      invariant 0 <= i <= |lines|
      invariant ReadLines(r, lines[i..]) == ReadLines(START, lines)
    {
      assert lines[i..][1..] == lines[i + 1..];
      var next := ReadLine(r, lines[i]);
      if next.Err? {
        return Err(next.error);
      }
      r := next.value;
      i := i + 1;
    }
    entries := Ok(Finish(r).entries);
  }

  lemma {:induction false} ReadLinesAppend(r: Reader, a: seq<string>, b: seq<string>)
    ensures ReadLines(r, a + b) ==
            match ReadLines(r, a)
            case Err(e) => Err(e)
            case Ok(r') => ReadLines(r', b)
    decreases |a|
  {
    if a == [] {
      assert a + b == b;
    } else {
      assert (a + b)[0] == a[0] && (a + b)[1..] == a[1..] + b;
      match ReadLine(r, a[0])
      case Err(_) =>
      case Ok(r') => ReadLinesAppend(r', a[1..], b);
    }
  }

  // ---------------------------------------------------------------- writing

  /** A message with the places it occurs at. */
  datatype Message = Message(id: string, locations: seq<string>)

  function HeaderLines(fields: seq<string>): seq<string> {
    ["msgid \"\"", "msgstr \"\""] + QuotedFields(fields)
  }

  function QuotedFields(fields: seq<string>): seq<string> {
    if fields == [] then [] else [Quote(fields[0])] + QuotedFields(fields[1..])
  }

  /** The translation written for a message; a template, or an empty table, leaves it empty. */
  function Written(translations: map<string, string>, id: string): string {
    if translations != map[] && id in translations then translations[id] else ""
  }

  function MessageLines(m: Message, translations: map<string, string>): seq<string> {
    ["", "#: " + JoinWords(m.locations), "msgid " + Quote(m.id), "msgstr " + Quote(Written(translations, m.id))]
  }

  function CatalogLines(messages: seq<Message>, translations: map<string, string>): seq<string> {
    if messages == [] then [] else MessageLines(messages[0], translations) + CatalogLines(messages[1..], translations)
  }

  /** The text write_catalog writes for messages in the order it sorted them into. */
  function CatalogText(fields: seq<string>, messages: seq<Message>, translations: map<string, string>): string {
    Unlines(HeaderLines(fields) + CatalogLines(messages, translations))
  }

  lemma AddMessage(before: seq<string>, m: Message, t: map<string, string>)
    ensures before + [""] + ["#: " + JoinWords(m.locations)] + ["msgid " + Quote(m.id)]
            + ["msgstr " + Quote(Written(t, m.id))] == before + MessageLines(m, t)
  {}

  lemma NextMessage(before: seq<string>, messages: seq<Message>, i: nat, t: map<string, string>)
    requires i < |messages|
    ensures before + CatalogLines(messages[i..], t)
            == before + MessageLines(messages[i], t) + CatalogLines(messages[i + 1..], t)
  {
    assert messages[i..][1..] == messages[i + 1..];
  }

  /** write_catalog; a non-empty table of translations must have every message. */
  method WriteCatalog(fields: seq<string>, messages: seq<Message>, translations: map<string, string>)
    returns (text: string)
    requires translations == map[] || forall i :: 0 <= i < |messages| ==> messages[i].id in translations
    ensures text == CatalogText(fields, messages, translations)
  {
    var lines := HeaderLines(fields);
    var i := 0;
    while i < |messages|
      invariant 0 <= i <= |messages|
      invariant lines + CatalogLines(messages[i..], translations) ==
                HeaderLines(fields) + CatalogLines(messages, translations)
    {
      var m := messages[i];
      ghost var before := lines;
      var translation := if translations != map[] then translations[m.id] else "";
      lines := lines + [""];
      lines := lines + ["#: " + JoinWords(m.locations)];
      lines := lines + ["msgid " + Quote(m.id)];
      lines := lines + ["msgstr " + Quote(translation)];
      AddMessage(before, m, translations);
      NextMessage(before, messages, i, translations);
      i := i + 1;
    }
    assert lines + [] == lines;
    text := Unlines(lines);
  }

  function Ids(messages: seq<Message>): set<string> {
    set m | m in messages :: m.id
  }

  /** The table a catalogue stands for: every message but the empty one, with its translation. */
  function Table(messages: seq<Message>, translations: map<string, string>): map<string, string> {
    Rows(Ids(messages), translations)
  }

  function Rows(ids: set<string>, translations: map<string, string>): map<string, string> {
    map id | id in ids && id != "" :: Written(translations, id)
  }

  // -------------------------------------------------------------- round trip

  lemma StripQuoted(prefix: string, value: string)
    requires prefix == "" || (!IsSpace(prefix[0]) && prefix[0] != QUOTE)
    ensures Strip(prefix + Quote(value)) == prefix + Quote(value)
  {
    var s := prefix + Quote(value);
    assert s[|s| - 1] == QUOTE;
    assert s[0] == if prefix == "" then QUOTE else prefix[0];
    StripSolid(s);
  }

  lemma ReadMessageId(r: Reader, id: string)
    ensures ReadLine(r, "msgid " + Quote(id)) == Ok(Reader(Finish(r).entries, Some(id), Some(""), MessageId))
  {
    var line := "msgid " + Quote(id);
    StripQuoted("msgid ", id);
    assert line[6..] == Quote(id);
    QuoteRoundTrip(id);
  }

  lemma ReadTranslation(r: Reader, text: string)
    requires r.id.Some?
    ensures ReadLine(r, "msgstr " + Quote(text)) == Ok(r.(value := Some(text), active := Translation))
  {
    var line := "msgstr " + Quote(text);
    StripQuoted("msgstr ", text);
    assert line[..7] == "msgstr ";
    assert line[4] == 't' && "msgid "[4] == 'd';
    assert !StartsWith(line, "msgid ");
    assert line[7..] == Quote(text);
    QuoteRoundTrip(text);
  }

  lemma ReadContinuation(r: Reader, text: string)
    requires r.active.Translation? && r.value.Some?
    ensures ReadLine(r, Quote(text)) == Ok(r.(value := Some(r.value.value + text)))
  {
    var line := Quote(text);
    StripQuoted("", text);
    assert "" + line == line;
    assert line[0] == QUOTE && line[..1] == "\"";
    QuoteRoundTrip(text);
  }

  lemma ReadComment(r: Reader, rest: string)
    ensures ReadLine(r, "#: " + rest) == Ok(r)
  {
    var line := "#: " + rest;
    StripHash(line);
    assert Strip(line)[0] == '#';
  }

  lemma {:induction false} StripHash(line: string)
    requires line != [] && line[0] == '#'
    ensures Strip(line) != [] && Strip(line)[0] == '#'
    decreases |line|
  {
    if IsSpace(line[|line| - 1]) {
      StripHash(line[..|line| - 1]);
    }
  }

  lemma ReadOne(r: Reader, lines: seq<string>, line: string, r1: Reader, r2: Reader)
    requires ReadLines(r, lines) == Ok(r1) && ReadLine(r1, line) == Ok(r2)
    ensures ReadLines(r, lines + [line]) == Ok(r2)
  {
    ReadLinesAppend(r, lines, [line]);
    assert ReadLines(r1, [line]) == Ok(r2);
  }

  /** The first lines of a message: its separator and comment, and then its id. */
  lemma ReadMessageHead(r: Reader, m: Message, t: map<string, string>)
    ensures ReadLines(r, MessageLines(m, t)[..2]) == Ok(Finish(r))
    ensures ReadLines(r, MessageLines(m, t)[..3]) == Ok(Reader(Finish(r).entries, Some(m.id), Some(""), MessageId))
  {
    var lines := MessageLines(m, t);
    var r1 := Finish(r);
    assert ReadLine(r, "") == Ok(r1);
    ReadOne(r, [], "", r, r1);
    ReadComment(r1, JoinWords(m.locations));
    ReadOne(r, [""], lines[1], r1, r1);
    ReadMessageId(r1, m.id);
    ReadOne(r, [""] + [lines[1]], lines[2], r1, Reader(r1.entries, Some(m.id), Some(""), MessageId));
    assert [] + [""] == [""] && [""] + [lines[1]] == lines[..2] && lines[..2] + [lines[2]] == lines[..3];
  }

  lemma ReadMessage(r: Reader, m: Message, t: map<string, string>)
    ensures ReadLines(r, MessageLines(m, t)) ==
            Ok(Reader(Finish(r).entries, Some(m.id), Some(Written(t, m.id)), Translation))
  {
    var lines := MessageLines(m, t);
    var r3 := Reader(Finish(r).entries, Some(m.id), Some(""), MessageId);
    ReadMessageHead(r, m, t);
    ReadTranslation(r3, Written(t, m.id));
    ReadOne(r, lines[..3], lines[3], r3, r3.(value := Some(Written(t, m.id)), active := Translation));
    assert lines[..3] + [lines[3]] == lines;
  }

  lemma {:induction false} ReadMessages(r: Reader, messages: seq<Message>, t: map<string, string>)
    ensures ReadLines(r, CatalogLines(messages, t)).Ok?
    ensures Finish(ReadLines(r, CatalogLines(messages, t)).value).entries == Finish(r).entries + Table(messages, t)
    decreases |messages|
  {
    if messages == [] {
      assert Finish(r).entries + map[] == Finish(r).entries;
    } else {
      var m := messages[0];
      var r' := Reader(Finish(r).entries, Some(m.id), Some(Written(t, m.id)), Translation);
      ReadMessage(r, m, t);
      ReadLinesAppend(r, MessageLines(m, t), CatalogLines(messages[1..], t));
      ReadMessages(r', messages[1..], t);
      TableCons(messages, t, Finish(r).entries);
    }
  }

  lemma IdsCons(messages: seq<Message>)
    requires messages != []
    ensures Ids(messages) == {messages[0].id} + Ids(messages[1..])
  {
    assert messages == [messages[0]] + messages[1..];
  }

  lemma TableCons(messages: seq<Message>, t: map<string, string>, before: map<string, string>)
    requires messages != []
    ensures var m := messages[0];
            (if m.id != "" then before[m.id := Written(t, m.id)] else before) + Table(messages[1..], t)
            == before + Table(messages, t)
  {
    IdsCons(messages);
    RowsInsert(messages[0].id, Ids(messages[1..]), t, before);
  }

  lemma RowsInsert(id: string, ids: set<string>, t: map<string, string>, before: map<string, string>)
    ensures (if id != "" then before[id := Written(t, id)] else before) + Rows(ids, t) == before + Rows({id} + ids, t)
  {
    var begun := if id != "" then before[id := Written(t, id)] else before;
    assert (begun + Rows(ids, t)).Keys == (before + Rows({id} + ids, t)).Keys;
  }

  /** The header is an entry of the empty message, which po_entries drops. */
  lemma {:induction false} ReadFields(r: Reader, fields: seq<string>)
    requires r.active.Translation? && r.id == Some("") && r.value.Some?
    ensures ReadLines(r, QuotedFields(fields)).Ok?
    ensures Finish(ReadLines(r, QuotedFields(fields)).value).entries == r.entries
    decreases |fields|
  {
    if fields != [] {
      ReadContinuation(r, fields[0]);
      ReadFields(r.(value := Some(r.value.value + fields[0])), fields[1..]);
      assert QuotedFields(fields)[1..] == QuotedFields(fields[1..]);
    }
  }

  lemma ReadHeader(fields: seq<string>)
    ensures ReadLines(START, HeaderLines(fields)).Ok?
    ensures Finish(ReadLines(START, HeaderLines(fields)).value).entries == map[]
  {
    var lines := HeaderLines(fields);
    var r1 := Reader(map[], Some(""), Some(""), MessageId);
    var r2 := r1.(active := Translation);
    assert lines[0] == "msgid " + Quote("") && lines[1] == "msgstr " + Quote("");
    ReadMessageId(START, "");
    ReadTranslation(r1, "");
    ReadFields(r2, fields);
    assert lines[1..][1..] == QuotedFields(fields) && lines[1..][0] == lines[1];
    assert ReadLines(r1, lines[1..]) == ReadLines(r2, QuotedFields(fields));
  }

  /** Neither the message nor its translation has a character that would break a line. */
  predicate MessagePrintable(m: Message, t: map<string, string>) {
    Printable(m.id) && Printable(Written(t, m.id))
  }

  predicate AllPrintable(messages: seq<Message>, t: map<string, string>) {
    forall i :: 0 <= i < |messages| ==> MessagePrintable(messages[i], t)
  }

  predicate PlainLocations(m: Message) {
    NoBreak(JoinWords(m.locations))
  }

  lemma QuotedLineNoBreak(prefix: string, value: string)
    requires NoBreak(prefix)
    ensures NoBreak(prefix + Quote(value)) <==> Printable(value)
  {
    EscapeAllNoBreak(value);
    NoBreakAppend([QUOTE], EscapeAll(value));
    NoBreakAppend([QUOTE] + EscapeAll(value), [QUOTE]);
    NoBreakAppend(prefix, Quote(value));
  }

  lemma MessageLinesNoBreak(m: Message, t: map<string, string>)
    requires PlainLocations(m)
    ensures var lines := MessageLines(m, t);
            NoBreak(lines[0]) && NoBreak(lines[1]) && (NoBreak(lines[2]) <==> Printable(m.id))
            && (NoBreak(lines[3]) <==> Printable(Written(t, m.id)))
  {
    assert NoBreak("#: ") && NoBreak("msgid ") && NoBreak("msgstr ");
    NoBreakAppend("#: ", JoinWords(m.locations));
    QuotedLineNoBreak("msgid ", m.id);
    QuotedLineNoBreak("msgstr ", Written(t, m.id));
  }

  lemma {:induction false} HeaderNoBreak(fields: seq<string>)
    requires forall i :: 0 <= i < |fields| ==> Printable(fields[i])
    ensures forall i :: 0 <= i < |QuotedFields(fields)| ==> NoBreak(QuotedFields(fields)[i])
  {
    if fields != [] {
      HeaderNoBreak(fields[1..]);
      QuotedLineNoBreak("", fields[0]);
      assert "" + Quote(fields[0]) == Quote(fields[0]);
    }
  }

  /** Stripping cannot reach back beyond a character that is not space. */
  lemma {:induction false} RStripKeeps(a: string, b: string) returns (k: nat)
    requires a != [] && !IsSpace(a[|a| - 1])
    ensures k <= |b| && RStrip(a + b) == a + b[..k]
    decreases |b|
  {
    k := |b|;
    assert b[..k] == b;
    if b != [] && IsSpace(b[|b| - 1]) {
      var s := a + b;
      assert s[..|s| - 1] == a + b[..|b| - 1];
      k := RStripKeeps(a, b[..|b| - 1]);
      assert b[..|b| - 1][..k] == b[..k];
    }
  }

  /** Where a quoted line with a raw break in it is cut: inside the quotes. */
  lemma CutInsideQuotes(prefix: string, e: string) returns (m: nat)
    requires NoBreak(prefix) && !NoBreak(e)
    ensures m <= |e|
    ensures var whole := prefix + ([QUOTE] + e + [QUOTE]);
            whole[..LineEnd(whole)] == prefix + [QUOTE] + e[..m]
  {
    m := LineEnd(e);
    var head := prefix + [QUOTE] + e[..m];
    NoBreakAppend(prefix, [QUOTE]);
    NoBreakAppend(prefix + [QUOTE], e[..m]);
    assert prefix + ([QUOTE] + e + [QUOTE]) == head + (e[m..] + [QUOTE]);
    LineEndUnique(head, e[m..] + [QUOTE]);
  }

  /** What is left of a cut line after stripping: its quotes are never closed. */
  lemma StripCut(prefix: string, e: string) returns (k: nat)
    requires prefix != "" && !IsSpace(prefix[0])
    ensures k <= |e| && Strip(prefix + [QUOTE] + e) == prefix + ([QUOTE] + e[..k])
  {
    var open := prefix + [QUOTE];
    var line := open + e;
    assert line[0] == prefix[0];
    assert LStrip(line) == line;
    k := RStripKeeps(open, e);
    assert open + e[..k] == prefix + ([QUOTE] + e[..k]);
  }

  lemma OpenQuoteFails(r: Reader, prefix: string, e: string, raw: string)
    requires prefix == "msgid " || (prefix == "msgstr " && r.id.Some?)
    requires LiteralBody(e) == None && Strip(raw) == prefix + ([QUOTE] + e)
    ensures ReadLine(r, raw).Err?
  {
    var line := Strip(raw);
    assert line[..|prefix|] == prefix && line[|prefix|..] == [QUOTE] + e;
    assert ([QUOTE] + e)[1..] == e;
    if prefix == "msgstr " {
      assert line[4] == 't' && "msgid "[4] == 'd';
    }
  }

  /** A quoted line that a raw break cuts short cannot be parsed. */
  lemma CutLineFails(r: Reader, prefix: string, value: string)
    requires (prefix == "msgid " || (prefix == "msgstr " && r.id.Some?)) && !Printable(value)
    ensures var whole := prefix + Quote(value);
            ReadLine(r, whole[..LineEnd(whole)]).Err?
  {
    var whole := prefix + Quote(value);
    EscapeAllNoBreak(value);
    var m := CutInsideQuotes(prefix, EscapeAll(value));
    var e := EscapeAll(value)[..m];
    var k := StripCut(prefix, e);
    assert e[..k] == EscapeAll(value)[..k];
    CutLiteral(value, k);
    OpenQuoteFails(r, prefix, e[..k], whole[..LineEnd(whole)]);
  }

  /** A printable message is read line by line, whatever text follows it. */
  lemma ReadMessageThen(r: Reader, m: Message, t: map<string, string>, rest: string)
    requires PlainLocations(m) && MessagePrintable(m, t)
    ensures ReadLines(r, SplitLines(Unlines(MessageLines(m, t)) + rest)) ==
            ReadLines(Reader(Finish(r).entries, Some(m.id), Some(Written(t, m.id)), Translation), SplitLines(rest))
  {
    var lines := MessageLines(m, t);
    MessageLinesNoBreak(m, t);
    SplitLinesAfter(lines, rest);
    ReadMessage(r, m, t);
    ReadLinesAppend(r, lines, SplitLines(rest));
  }

  /** Reading fails as soon as it reaches a message that was written with a raw break in it. */
  lemma {:induction false} UnprintableFails(r: Reader, messages: seq<Message>, t: map<string, string>)
    requires forall i :: 0 <= i < |messages| ==> PlainLocations(messages[i])
    requires !AllPrintable(messages, t)
    ensures ReadLines(r, SplitLines(Unlines(CatalogLines(messages, t)))).Err?
    decreases |messages|
  {
    var m, rest := messages[0], CatalogLines(messages[1..], t);
    UnlinesAppend(MessageLines(m, t), rest);
    if MessagePrintable(m, t) {
      assert !AllPrintable(messages[1..], t);
      UnprintableFails(Reader(Finish(r).entries, Some(m.id), Some(Written(t, m.id)), Translation), messages[1..], t);
      ReadMessageThen(r, m, t, Unlines(rest));
    } else {
      UnprintableMessageFails(r, m, t, Unlines(rest));
    }
  }

  /** Lines that can be read, and then one that is cut by a break and cannot. */
  lemma CutFails(r: Reader, lines: seq<string>, n: nat, rest: string, r': Reader)
    requires n < |lines| && (forall i :: 0 <= i < n ==> NoBreak(lines[i])) && !NoBreak(lines[n])
    requires ReadLines(r, lines[..n]) == Ok(r') && ReadLine(r', lines[n][..LineEnd(lines[n])]).Err?
    ensures ReadLines(r, SplitLines(Unlines(lines) + rest)).Err?
  {
    var after := "\n" + (Unlines(lines[n..][1..]) + rest);
    UnlinesAt(lines, n, rest);
    ReadWholeLines(r, lines[..n], lines[n] + after, r');
    SplitLinesCut(lines[n], after);
  }

  /** A text of lines, opened at one of them. */
  lemma UnlinesAt(lines: seq<string>, n: nat, rest: string)
    requires n < |lines|
    ensures Unlines(lines) + rest == Unlines(lines[..n]) + (lines[n] + ("\n" + (Unlines(lines[n..][1..]) + rest)))
  {
    assert lines == lines[..n] + lines[n..];
    UnlinesAppend(lines[..n], lines[n..]);
    UnlinesCons(lines[n..], rest);
    TextsJoin(Unlines(lines[..n]), Unlines(lines[n..]), rest);
    TextsJoin(lines[n], "\n", Unlines(lines[n..][1..]) + rest);
  }

  lemma TextsJoin(a: string, b: string, c: string)
    ensures a + b + c == a + (b + c)
  {}

  /** Lines that can be read, and then whatever text there is. */
  lemma ReadWholeLines(r: Reader, lines: seq<string>, text: string, r': Reader)
    requires (forall i :: 0 <= i < |lines| ==> NoBreak(lines[i])) && ReadLines(r, lines) == Ok(r')
    ensures ReadLines(r, SplitLines(Unlines(lines) + text)) == ReadLines(r', SplitLines(text))
  {
    SplitLinesAfter(lines, text);
    ReadLinesAppend(r, lines, SplitLines(text));
  }

  lemma UnprintableTranslationFails(r: Reader, m: Message, t: map<string, string>, rest: string)
    requires PlainLocations(m) && Printable(m.id) && !Printable(Written(t, m.id))
    ensures ReadLines(r, SplitLines(Unlines(MessageLines(m, t)) + rest)).Err?
  {
    var r3 := Reader(Finish(r).entries, Some(m.id), Some(""), MessageId);
    MessageLinesNoBreak(m, t);
    ReadMessageHead(r, m, t);
    CutLineFails(r3, "msgstr ", Written(t, m.id));
    CutFails(r, MessageLines(m, t), 3, rest, r3);
  }

  lemma UnprintableIdFails(r: Reader, m: Message, t: map<string, string>, rest: string)
    requires PlainLocations(m) && !Printable(m.id)
    ensures ReadLines(r, SplitLines(Unlines(MessageLines(m, t)) + rest)).Err?
  {
    MessageLinesNoBreak(m, t);
    ReadMessageHead(r, m, t);
    CutLineFails(Finish(r), "msgid ", m.id);
    CutFails(r, MessageLines(m, t), 2, rest, Finish(r));
  }

  lemma UnprintableMessageFails(r: Reader, m: Message, t: map<string, string>, rest: string)
    requires PlainLocations(m) && !MessagePrintable(m, t)
    ensures ReadLines(r, SplitLines(Unlines(MessageLines(m, t)) + rest)).Err?
  {
    if Printable(m.id) {
      UnprintableTranslationFails(r, m, t, rest);
    } else {
      UnprintableIdFails(r, m, t, rest);
    }
  }

  /**
    Reading back a written catalogue gives exactly the table of messages and translations if and
    only if no text has one of the line separators that quoting leaves raw; otherwise reading
    reports an error.
   */
  lemma CatalogRoundTrip(fields: seq<string>, messages: seq<Message>, t: map<string, string>)
    requires forall i :: 0 <= i < |fields| ==> Printable(fields[i])
    requires forall i :: 0 <= i < |messages| ==> PlainLocations(messages[i])
    ensures AllPrintable(messages, t) ==> Catalog(CatalogText(fields, messages, t)) == Ok(Table(messages, t))
    ensures !AllPrintable(messages, t) ==> Catalog(CatalogText(fields, messages, t)).Err?
  {
    CatalogAfterHeader(fields, CatalogLines(messages, t));
    var r := ReadLines(START, HeaderLines(fields)).value;
    if AllPrintable(messages, t) {
      PrintableReadsBack(r, messages, t);
    } else {
      UnprintableFails(r, messages, t);
    }
  }

  lemma PrintableReadsBack(r: Reader, messages: seq<Message>, t: map<string, string>)
    requires (forall i :: 0 <= i < |messages| ==> PlainLocations(messages[i])) && AllPrintable(messages, t)
    requires Finish(r).entries == map[]
    ensures Entries(ReadLines(r, SplitLines(Unlines(CatalogLines(messages, t))))) == Ok(Table(messages, t))
  {
    var lines := CatalogLines(messages, t);
    CatalogLinesNoBreak(messages, t);
    SplitLinesOfUnlines(lines);
    ReadMessages(r, messages, t);
    NothingBefore(Table(messages, t));
  }

  lemma NothingBefore(table: map<string, string>)
    ensures map[] + table == table
  {}

  /** Reading a catalogue is reading the lines after its header, from a reader without entries. */
  lemma CatalogAfterHeader(fields: seq<string>, c: seq<string>)
    requires forall i :: 0 <= i < |fields| ==> Printable(fields[i])
    ensures ReadLines(START, HeaderLines(fields)).Ok?
    ensures Finish(ReadLines(START, HeaderLines(fields)).value).entries == map[]
    ensures Catalog(Unlines(HeaderLines(fields) + c)) ==
            Entries(ReadLines(ReadLines(START, HeaderLines(fields)).value, SplitLines(Unlines(c))))
  {
    ReadHeader(fields);
    ReadAfterHeader(fields, c);
  }

  /** The header is read line by line, whatever the lines after it are. */
  lemma ReadAfterHeader(fields: seq<string>, c: seq<string>)
    requires forall i :: 0 <= i < |fields| ==> Printable(fields[i])
    ensures ReadLines(START, HeaderLines(fields)).Ok?
    ensures ReadLines(START, SplitLines(Unlines(HeaderLines(fields) + c))) ==
            ReadLines(ReadLines(START, HeaderLines(fields)).value, SplitLines(Unlines(c)))
  {
    var h := HeaderLines(fields);
    HeaderNoBreak(fields);
    assert NoBreak("msgid \"\"") && NoBreak("msgstr \"\"");
    ReadHeader(fields);
    UnlinesAppend(h, c);
    SplitLinesAfter(h, Unlines(c));
    ReadLinesAppend(START, h, SplitLines(Unlines(c)));
  }

  lemma {:induction false} CatalogLinesNoBreak(messages: seq<Message>, t: map<string, string>)
    requires forall i :: 0 <= i < |messages| ==> PlainLocations(messages[i])
    requires AllPrintable(messages, t)
    ensures forall i :: 0 <= i < |CatalogLines(messages, t)| ==> NoBreak(CatalogLines(messages, t)[i])
  {
    if messages != [] {
      MessageLinesNoBreak(messages[0], t);
      CatalogLinesNoBreak(messages[1..], t);
    }
  }
}
