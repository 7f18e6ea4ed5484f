/**
 The text of the warning baseline: one JSON array of three strings a line, written sorted under a
 fixed header and read back line by line.
 */
module BaselineText {
  import opened Common
  import opened TextLines
  import opened TextOrder

  datatype Fingerprint = Fingerprint(lint: string, file: string, message: string)

  const HEADER1 := "# Clippy warning baseline: " + "one JSON [lint, file, " + "message] per existing warning."
  const HEADER2 := "# Fix warnings and regenerate " + "with `scripts/clippy-ratchet" + ".sh --write-baseline`;"
  const HEADER3 := "# that refuses to add " + "entries. Never add entries " + "to make a PR pass."

  // ----- JSON strings, written with only the escapes JSON requires

  function HexDigit(n: nat): (c: char)
    requires n < 16
    ensures HexValue(c) == Some(n) && c > ' '
  {
    if n < 10 then (n + '0' as int) as char else (n - 10 + 'a' as int) as char
  }

  function HexValue(c: char): (n: Option<nat>)
    ensures n.Some? ==> n.value < 16
  {
    if '0' <= c <= '9' then Some(c as int - '0' as int)
    else if 'a' <= c <= 'f' then Some(c as int - 'a' as int + 10)
    else if 'A' <= c <= 'F' then Some(c as int - 'A' as int + 10)
    else None
  }

  function EscapeChar(c: char): (text: string)
    ensures text != ""
  {
    if c == '"' then "\\\"" else if c == '\\' then "\\\\"
    else if c == '\n' then "\\n" else if c == '\r' then "\\r" else if c == '\t' then "\\t"
    else if c == '\U{0008}' then "\\b" else if c == '\U{000C}' then "\\f"
    else if c < ' ' then ['\\', 'u', '0', '0', HexDigit(c as int / 16), HexDigit(c as int % 16)]
    else [c]
  }

  function Escape(s: string): string {
    if s == "" then "" else EscapeChar(s[0]) + Escape(s[1..])
  }

  function Quote(s: string): string {
    "\"" + (Escape(s) + "\"")
  }

  /** A string, the blank before it, the mark after it, and what follows. */
  function Part(lead: string, s: string, mark: char, more: string): string {
    lead + (Quote(s) + ([mark] + more))
  }

  /** An entry after its opening bracket, and what follows it. */
  function EntryBody(f: Fingerprint, end: string): string {
    Part("", f.lint, ',', Part(" ", f.file, ',', Part(" ", f.message, ']', end)))
  }

  function Dump(f: Fingerprint): string {
    "[" + EntryBody(f, "")
  }

  // ----- and read

  datatype Scan = Scan(value: string, rest: string)

  function SimpleEscape(c: char): Option<char> {
    if c == '"' || c == '\\' || c == '/' then Some(c)
    else if c == 'b' then Some('\U{0008}') else if c == 'f' then Some('\U{000C}')
    else if c == 'n' then Some('\n') else if c == 'r' then Some('\r') else if c == 't' then Some('\t')
    else None
  }

  /** The character a \u escape names; a surrogate is no character of its own. */
  function HexEscape(text: string): Option<char>
    requires |text| == 4
  {
    var a, b, c, d := HexValue(text[0]), HexValue(text[1]), HexValue(text[2]), HexValue(text[3]);
    if a.None? || b.None? || c.None? || d.None? then None
    else
      var code := ((a.value * 16 + b.value) * 16 + c.value) * 16 + d.value;
      if 0xD800 <= code < 0xE000 then None else Some(code as char)
  }

  function Prepend(c: char, scan: Option<Scan>): Option<Scan> {
    if scan.None? then None else Some(Scan([c] + scan.value.value, scan.value.rest))
  }

  /** The rest of a string literal, its opening quote already read. */
  function ScanString(text: string): (scan: Option<Scan>)
    ensures scan.Some? ==> |scan.value.rest| < |text|
  {
    if text == "" || text[0] < ' ' then None
    else if text[0] == '"' then Some(Scan("", text[1..]))
    else if text[0] != '\\' then Prepend(text[0], ScanString(text[1..]))
    else if |text| < 2 then None
    else if SimpleEscape(text[1]).Some? then Prepend(SimpleEscape(text[1]).value, ScanString(text[2..]))
    else if text[1] != 'u' || |text| < 6 || HexEscape(text[2..6]).None? then None
    else Prepend(HexEscape(text[2..6]).value, ScanString(text[6..]))
  }

  function SkipBlank(text: string): string {
    if text != "" && text[0] in " \t\n\r" then SkipBlank(text[1..]) else text
  }

  /** One string and the mark that must follow it. */
  function ScanField(text: string, mark: char): Option<Scan> {
    var at := SkipBlank(text);
    if at == "" || at[0] != '"' then None
    else
      var scan := ScanString(at[1..]);
      if scan.None? then None
      else
        var after := SkipBlank(scan.value.rest);
        if after == "" || after[0] != mark then None else Some(Scan(scan.value.value, after[1..]))
  }

  function ReadEntry(line: string): Option<Fingerprint> {
    var at := SkipBlank(line);
    if at == "" || at[0] != '[' then None
    else
      var lint := ScanField(at[1..], ',');
      if lint.None? then None
      else
        var file := ScanField(lint.value.rest, ',');
        if file.None? then None
        else
          var message := ScanField(file.value.rest, ']');
          if message.None? || SkipBlank(message.value.rest) != "" then None
          else Some(Fingerprint(lint.value.value, file.value.value, message.value.value))
  }

  // ----- entries line by line

  predicate IsSkipped(line: string) {
    (forall k | 0 <= k < |line| :: IsSpace(line[k])) || StartsWith(line, "#")
  }

  function AndMore(counted: multiset<Fingerprint>, rest: Option<multiset<Fingerprint>>): Option<multiset<Fingerprint>> {
    if rest.None? then None else Some(counted + rest.value)
  }

  function ReadLines(lines: seq<string>): Option<multiset<Fingerprint>> {
    if lines == [] then Some(multiset{})
    else if IsSkipped(lines[0]) then ReadLines(lines[1..])
    else if ReadEntry(lines[0]).None? then None
    else AndMore(multiset{ReadEntry(lines[0]).value}, ReadLines(lines[1..]))
  }

  /** read_baseline on the whole text; None when a line is not an entry. */
  function Read(text: string): Option<multiset<Fingerprint>> {
    ReadLines(SplitLines(text))
  }

  lemma MoreAssociates(counted: multiset<Fingerprint>, one: Fingerprint, rest: Option<multiset<Fingerprint>>)
    ensures AndMore(counted, AndMore(multiset{one}, rest)) == AndMore(counted + multiset{one}, rest)
  {
    if rest.Some? { assert counted + (multiset{one} + rest.value) == counted + multiset{one} + rest.value; }
  }

  method ReadBaseline(text: string) returns (entries: Option<multiset<Fingerprint>>)
    ensures entries == Read(text)
  {
    var lines := SplitLines(text);
    var counted: multiset<Fingerprint> := multiset{};
    ghost var all := ReadLines(lines);
    assert lines[0..] == lines;
    assert AndMore(multiset{}, all) == all by { if all.Some? { assert multiset{} + all.value == all.value; } }
    for k := 0 to |lines|
      invariant AndMore(counted, ReadLines(lines[k..])) == Read(text)
    {
      assert lines[k..][1..] == lines[k + 1..];
      if !IsSkipped(lines[k]) {
        var item := ReadEntry(lines[k]);
        if item.None? {
          return None;
        }
        MoreAssociates(counted, item.value, ReadLines(lines[k + 1..]));
        counted := counted + multiset{item.value};
      }
    }
    assert counted + multiset{} == counted;
    entries := Some(counted);
  }

  // ----- the text that is written

  function UnderHeader(body: string): string {
    HEADER1 + ("\n" + (HEADER2 + ("\n" + (HEADER3 + ("\n" + body)))))
  }

  ghost function Elements(entries: multiset<Fingerprint>): (listed: seq<Fingerprint>)
    ensures multiset(listed) == entries
    decreases |entries|
  {
    if entries == multiset{} then []
    else
      var one :| one in entries;
      [one] + Elements(entries - multiset{one})
  }

  ghost function Text(entries: multiset<Fingerprint>): string {
    UnderHeader(JoinLines(SortTexts(Mapped(Dump, Elements(entries)))))
  }

  /** The file is the same to the byte in whatever order the entries are enumerated. */
  lemma TextIgnoresOrder(listed: seq<Fingerprint>)
    ensures UnderHeader(JoinLines(SortTexts(Mapped(Dump, listed)))) == Text(multiset(listed))
  {
    var other := Elements(multiset(listed));
    MappedIgnoresOrder(Dump, listed, other);
    SortIgnoresOrder(Mapped(Dump, listed), Mapped(Dump, other));
  }

  method Enumerate(entries: multiset<Fingerprint>) returns (listed: seq<Fingerprint>)
    ensures multiset(listed) == entries
  {
    listed := [];
    var left := entries;
    while left != multiset{}
      invariant multiset(listed) + left == entries
      decreases |left|
    {
      var one :| one in left;
      left := left - multiset{one};
      listed := listed + [one];
    }
  }

  method WriteBaseline(entries: multiset<Fingerprint>) returns (text: string)
    ensures text == Text(entries)
  {
    var listed := Enumerate(entries);
    TextIgnoresOrder(listed);
    text := UnderHeader(JoinLines(SortTexts(Mapped(Dump, listed))));
  }

  // ----- reading inverts writing, unless an entry holds a break that JSON leaves bare

  lemma ScanControlChar(c: char, more: string)
    requires |EscapeChar(c)| == 6
    ensures ScanString(EscapeChar(c) + more) == Prepend(c, ScanString(more))
  {
    var text := EscapeChar(c) + more;
    assert c < ' ' && text[..2] == "\\u" && text[0] == '\\' && text[1] == 'u';
    assert text[6..] == more && text[2..6] == ['0', '0', HexDigit(c as int / 16), HexDigit(c as int % 16)];
    HexOfControl(c);
  }

  lemma HexOfControl(c: char)
    requires c < ' '
    ensures HexEscape(['0', '0', HexDigit(c as int / 16), HexDigit(c as int % 16)]) == Some(c)
  {
    assert HexValue('0') == Some(0);
    assert c as int == c as int / 16 * 16 + c as int % 16;
  }

  lemma ScanShortEscape(c: char, more: string)
    requires |EscapeChar(c)| == 2
    ensures ScanString(EscapeChar(c) + more) == Prepend(c, ScanString(more))
  {
    var escape := EscapeChar(c);
    assert escape[0] == '\\' && SimpleEscape(escape[1]) == Some(c);
    assert (escape + more)[2..] == more;
  }

  lemma ScanPlainChar(c: char, more: string)
    requires |EscapeChar(c)| == 1
    ensures ScanString(EscapeChar(c) + more) == Prepend(c, ScanString(more))
  {
    assert EscapeChar(c) == [c] && c != '"' && c != '\\' && c >= ' ';
    assert ([c] + more)[1..] == more;
  }

  lemma ScanEscapedChar(c: char, more: string)
    ensures ScanString(EscapeChar(c) + more) == Prepend(c, ScanString(more))
  {
    if |EscapeChar(c)| == 1 {
      ScanPlainChar(c, more);
    } else if |EscapeChar(c)| == 2 {
      ScanShortEscape(c, more);
    } else {
      ScanControlChar(c, more);
    }
  }

  lemma EscapeHead(s: string, more: string)
    requires s != ""
    ensures Escape(s) + more == EscapeChar(s[0]) + (Escape(s[1..]) + more)
  {
  }

  lemma {:induction false} ScanEscaped(s: string, more: string)
    ensures ScanString(Escape(s) + ("\"" + more)) == Some(Scan(s, more))
  {
    if s == "" {
      assert Escape(s) + ("\"" + more) == "\"" + more;
    } else {
      ScanEscaped(s[1..], more);
      EscapeHead(s, "\"" + more);
      ScanEscapedChar(s[0], Escape(s[1..]) + ("\"" + more));
      assert [s[0]] + s[1..] == s;
    }
  }

  lemma {:induction false} UnclosedIsRefused(s: string)
    ensures ScanString(Escape(s)).None?
  {
    if s != "" {
      UnclosedIsRefused(s[1..]);
      ScanEscapedChar(s[0], Escape(s[1..]));
    }
  }

  lemma Requote(s: string, more: string)
    ensures Quote(s) + more == "\"" + (Escape(s) + ("\"" + more))
  {
  }

  lemma FieldReads(lead: string, s: string, mark: char, more: string)
    requires lead == "" || lead == " "
    requires mark == ',' || mark == ']'
    ensures ScanField(Part(lead, s, mark, more), mark) == Some(Scan(s, more))
  {
    var quoted := "\"" + (Escape(s) + ("\"" + ([mark] + more)));
    Requote(s, [mark] + more);
    SkipsLead(lead, quoted);
    assert quoted[1..] == Escape(s) + ("\"" + ([mark] + more));
    ScanEscaped(s, [mark] + more);
    FieldOf(lead + quoted, quoted, s, mark, more);
  }

  lemma SkipsLead(lead: string, quoted: string)
    requires lead == "" || lead == " "
    requires quoted != "" && quoted[0] == '"'
    ensures SkipBlank(lead + quoted) == quoted
  {
    if lead == " " { assert (lead + quoted)[1..] == quoted; } else { assert lead + quoted == quoted; }
  }

  lemma FieldOf(text: string, quoted: string, s: string, mark: char, more: string)
    requires SkipBlank(text) == quoted && quoted != "" && quoted[0] == '"'
    requires ScanString(quoted[1..]) == Some(Scan(s, [mark] + more)) && mark !in " \t\n\r"
    ensures ScanField(text, mark) == Some(Scan(s, more))
  {
    assert ([mark] + more)[1..] == more && SkipBlank([mark] + more) == [mark] + more;
  }

  lemma FieldUnclosed(lead: string, s: string, mark: char)
    requires lead == "" || lead == " "
    ensures ScanField(lead + ("\"" + Escape(s)), mark).None?
  {
    var quoted := "\"" + Escape(s);
    SkipsLead(lead, quoted);
    assert quoted[1..] == Escape(s);
    UnclosedIsRefused(s);
  }

  lemma OpensEntry(body: string)
    ensures SkipBlank("[" + body) == "[" + body && ("[" + body)[1..] == body
  {
  }

  lemma EntryOf(first: string, second: string, third: string, f: Fingerprint)
    requires ScanField(first, ',') == Some(Scan(f.lint, second))
    requires ScanField(second, ',') == Some(Scan(f.file, third))
    requires ScanField(third, ']') == Some(Scan(f.message, ""))
    ensures ReadEntry("[" + first) == Some(f)
  {
    OpensEntry(first);
  }

  lemma EntryReads(f: Fingerprint)
    ensures ReadEntry(Dump(f)) == Some(f)
  {
    var third := Part(" ", f.message, ']', "");
    var second := Part(" ", f.file, ',', third);
    FieldReads("", f.lint, ',', second);
    FieldReads(" ", f.file, ',', third);
    FieldReads(" ", f.message, ']', "");
    EntryOf(Part("", f.lint, ',', second), second, third, f);
  }

  predicate IsBare(s: string) {
    exists k | 0 <= k < |s| :: IsBareBreak(s[k])
  }

  /** No part of the entry holds U+0085, U+2028 or U+2029. */
  predicate IsClean(f: Fingerprint) {
    !IsBare(f.lint) && !IsBare(f.file) && !IsBare(f.message)
  }

  lemma EscapedCharHasNoBreak(c: char)
    requires !IsBareBreak(c)
    ensures forall k | 0 <= k < |EscapeChar(c)| :: !IsBreak(EscapeChar(c)[k])
  {
  }

  lemma {:induction false} CutPastEscaped(s: string, more: string)
    requires !IsBare(s)
    ensures Cut(Escape(s) + more) == Escape(s) + Cut(more)
  {
    if s == "" {
      assert Escape(s) + more == more;
    } else {
      assert !IsBare(s[1..]) by { assert forall k | 0 <= k < |s[1..]| :: s[1..][k] == s[k + 1]; }
      CutPastEscaped(s[1..], more);
      EscapedCharHasNoBreak(s[0]);
      EscapeHead(s, more);
      CutPast(EscapeChar(s[0]), Escape(s[1..]) + more);
    }
  }

  lemma {:induction false} CutInsideEscaped(s: string, more: string) returns (head: string)
    requires IsBare(s)
    ensures Cut(Escape(s) + more) == Escape(head)
  {
    EscapeHead(s, more);
    if IsBareBreak(s[0]) {
      head := "";
    } else {
      assert IsBare(s[1..]) by {
        var k :| 0 <= k < |s| && IsBareBreak(s[k]);
        assert s[1..][k - 1] == s[k];
      }
      var rest := CutInsideEscaped(s[1..], more);
      head := [s[0]] + rest;
      EscapedCharHasNoBreak(s[0]);
      CutPast(EscapeChar(s[0]), Escape(s[1..]) + more);
      assert head[1..] == rest;
    }
  }

  lemma CutPastQuoted(s: string, more: string)
    requires !IsBare(s)
    ensures Cut(Quote(s) + more) == Quote(s) + Cut(more)
  {
    Requote(s, more);
    Requote(s, Cut(more));
    CutPast("\"", Escape(s) + ("\"" + more));
    CutPastEscaped(s, "\"" + more);
    CutPast("\"", more);
  }

  lemma CutPastPart(lead: string, s: string, mark: char, more: string)
    requires !IsBare(s) && (lead == "" || lead == " ") && (mark == ',' || mark == ']')
    ensures Cut(Part(lead, s, mark, more)) == Part(lead, s, mark, Cut(more))
  {
    CutPast(lead, Quote(s) + ([mark] + more));
    CutPastQuoted(s, [mark] + more);
    CutPast([mark], more);
  }

  lemma CutInsidePart(lead: string, s: string, mark: char, more: string) returns (head: string)
    requires IsBare(s) && (lead == "" || lead == " ")
    ensures Cut(Part(lead, s, mark, more)) == lead + ("\"" + Escape(head))
  {
    Requote(s, [mark] + more);
    CutPast(lead, Quote(s) + ([mark] + more));
    CutPast("\"", Escape(s) + ("\"" + ([mark] + more)));
    head := CutInsideEscaped(s, "\"" + ([mark] + more));
  }

  /** What stands before the first line break of an entry that is not clean is no entry. */
  lemma CutEntryIsRefused(f: Fingerprint, end: string)
    requires !IsClean(f)
    ensures ReadEntry(Cut("[" + EntryBody(f, end))).None?
  {
    var third := Part(" ", f.message, ']', end);
    var second := Part(" ", f.file, ',', third);
    var first := Part("", f.lint, ',', second);
    CutPast("[", first);
    OpensEntry(Cut(first));
    if IsBare(f.lint) {
      var head := CutInsidePart("", f.lint, ',', second);
      FieldUnclosed("", head, ',');
    } else {
      CutPastPart("", f.lint, ',', second);
      FieldReads("", f.lint, ',', Cut(second));
      SecondIsRefused(f, end);
    }
  }

  lemma SecondIsRefused(f: Fingerprint, end: string)
    requires IsBare(f.file) || IsBare(f.message)
    ensures var scan := ScanField(Cut(Part(" ", f.file, ',', Part(" ", f.message, ']', end))), ',');
      scan.Some? ==> ScanField(scan.value.rest, ']').None?
  {
    var third := Part(" ", f.message, ']', end);
    if IsBare(f.file) {
      var head := CutInsidePart(" ", f.file, ',', third);
      FieldUnclosed(" ", head, ',');
    } else {
      CutPastPart(" ", f.file, ',', third);
      FieldReads(" ", f.file, ',', Cut(third));
      var head := CutInsidePart(" ", f.message, ']', end);
      FieldUnclosed(" ", head, ']');
    }
  }

  lemma CleanEntryIsWhole(f: Fingerprint, end: string)
    requires IsClean(f)
    ensures Cut("[" + EntryBody(f, end)) == "[" + EntryBody(f, Cut(end))
  {
    var third := Part(" ", f.message, ']', end);
    var second := Part(" ", f.file, ',', third);
    CutPast("[", Part("", f.lint, ',', second));
    CutPastPart("", f.lint, ',', second);
    CutPastPart(" ", f.file, ',', third);
    CutPastPart(" ", f.message, ']', end);
  }

  lemma DumpThen(f: Fingerprint, end: string)
    ensures Dump(f) + end == "[" + EntryBody(f, end)
  {
    var third, third' := Part(" ", f.message, ']', ""), Part(" ", f.message, ']', end);
    assert third + end == third';
    var second, second' := Part(" ", f.file, ',', third), Part(" ", f.file, ',', third');
    PartThen(" ", f.file, ',', third, end);
    PartThen("", f.lint, ',', second, end);
  }

  lemma PartThen(lead: string, s: string, mark: char, more: string, end: string)
    ensures Part(lead, s, mark, more) + end == Part(lead, s, mark, more + end)
  {
  }

  lemma OpenedIsRead(line: string)
    requires line != "" && line[0] == '['
    ensures !IsSkipped(line)
  {
    assert !IsSpace('[');
  }

  lemma EntryLine(f: Fingerprint, more: string)
    ensures var text := Dump(f) + ("\n" + more);
      IsClean(f) ==> SplitLines(text) == [Dump(f)] + SplitLines(more)
    ensures var text := Dump(f) + ("\n" + more);
      !IsClean(f) ==> text != "" && Cut(text) != "" && Cut(text)[0] == '[' && ReadEntry(Cut(text)).None?
  {
    var end := "\n" + more;
    DumpThen(f, end);
    if IsClean(f) {
      CleanEntryIsWhole(f, end);
      assert Cut(end) == "";
      LineOff(Dump(f), more);
    } else {
      CutEntryIsRefused(f, end);
      CutPast("[", EntryBody(f, end));
    }
  }

  lemma ReadHead(lines: seq<string>)
    requires lines != [] && lines[0] != "" && lines[0][0] == '['
    ensures ReadLines(lines) ==
      if ReadEntry(lines[0]).None? then None else AndMore(multiset{ReadEntry(lines[0]).value}, ReadLines(lines[1..]))
  {
    OpenedIsRead(lines[0]);
  }

  lemma EntryReadsBack(f: Fingerprint, more: string)
    ensures Read(Dump(f) + ("\n" + more)) == if IsClean(f) then AndMore(multiset{f}, Read(more)) else None
  {
    var text := Dump(f) + ("\n" + more);
    EntryLine(f, more);
    if IsClean(f) {
      EntryReads(f);
      ReadHead(SplitLines(text));
    } else {
      HeadIsCut(text);
      ReadHead(SplitLines(text));
    }
  }

  predicate AllClean(entries: seq<Fingerprint>) {
    forall k | 0 <= k < |entries| :: IsClean(entries[k])
  }

  lemma {:induction false} DumpsReadBack(entries: seq<Fingerprint>)
    ensures Read(JoinLines(Mapped(Dump, entries))) == if AllClean(entries) then Some(multiset(entries)) else None
  {
    if entries != [] {
      var f, rest := entries[0], entries[1..];
      assert Mapped(Dump, entries)[1..] == Mapped(Dump, rest);
      DumpsReadBack(rest);
      EntryReadsBack(f, JoinLines(Mapped(Dump, rest)));
      assert entries == [f] + rest;
      AllCleanHead(entries);
    }
  }

  lemma AllCleanHead(entries: seq<Fingerprint>)
    requires entries != []
    ensures AllClean(entries) <==> IsClean(entries[0]) && AllClean(entries[1..])
  {
    var rest := entries[1..];
    assert forall k | 0 <= k < |rest| :: rest[k] == entries[k + 1];
    assert forall k | 1 <= k < |entries| :: entries[k] == rest[k - 1];
  }

  /** The sorted lines are the lines of the same entries in some order. */
  lemma SortedDumps(entries: seq<Fingerprint>) returns (sorted: seq<Fingerprint>)
    ensures multiset(sorted) == multiset(entries) && SortTexts(Mapped(Dump, entries)) == Mapped(Dump, sorted)
  {
    sorted := SortedImages(Dump, entries);
  }

  lemma {:induction false} SortedImages<T>(f: T -> string, given: seq<T>) returns (sorted: seq<T>)
    ensures multiset(sorted) == multiset(given) && SortTexts(Mapped(f, given)) == Mapped(f, sorted)
  {
    if given == [] {
      sorted := [];
    } else {
      var rest := SortedImages(f, given[1..]);
      assert Mapped(f, given)[1..] == Mapped(f, given[1..]);
      sorted := InsertedImage(f, given[0], rest);
      assert given == [given[0]] + given[1..];
    }
  }

  lemma InsertPast<T>(f: T -> string, one: T, head: T, tail: seq<T>, rest: seq<T>)
    requires !TextLeq(f(one), f(head)) && Insert(f(one), Mapped(f, tail)) == Mapped(f, rest)
    ensures Insert(f(one), Mapped(f, [head] + tail)) == Mapped(f, [head] + rest)
  {
    assert Mapped(f, [head] + tail) == [f(head)] + Mapped(f, tail);
    assert Mapped(f, [head] + rest) == [f(head)] + Mapped(f, rest);
    assert ([f(head)] + Mapped(f, tail))[1..] == Mapped(f, tail);
  }

  lemma {:induction false} InsertedImage<T>(f: T -> string, one: T, sorted: seq<T>) returns (more: seq<T>)
    ensures multiset(more) == multiset(sorted) + multiset{one}
    ensures Insert(f(one), Mapped(f, sorted)) == Mapped(f, more)
  {
    if sorted == [] || TextLeq(f(one), f(sorted[0])) {
      more := [one] + sorted;
      assert Mapped(f, more) == [f(one)] + Mapped(f, sorted);
    } else {
      var head, tail := sorted[0], sorted[1..];
      var rest := InsertedImage(f, one, tail);
      more := [head] + rest;
      assert sorted == [head] + tail;
      InsertPast(f, one, head, tail, rest);
    }
  }

  lemma CommentLine(line: string, more: string)
    requires FirstBreak(line) == |line| && StartsWith(line, "#")
    ensures Read(line + ("\n" + more)) == Read(more)
  {
    CutPast(line, "\n" + more);
    LineOff(line, more);
  }

  predicate IsOneLine(s: string) {
    forall k | 0 <= k < |s| :: !IsBreak(s[k])
  }

  lemma CommentOf(start: string, middle: string, end: string)
    requires IsOneLine(start) && IsOneLine(middle) && IsOneLine(end) && StartsWith(start, "#")
    ensures FirstBreak(start + middle + end) == |start + middle + end| && StartsWith(start + middle + end, "#")
  {
    var line := start + middle + end;
    assert IsOneLine(line);
    CutPast(line, "");
    assert line + "" == line;
  }

  lemma FirstIsComment()
    ensures FirstBreak(HEADER1) == |HEADER1| && StartsWith(HEADER1, "#")
  {
    CommentOf("# Clippy warning baseline: ", "one JSON [lint, file, ", "message] per existing warning.");
  }

  lemma SecondIsComment()
    ensures FirstBreak(HEADER2) == |HEADER2| && StartsWith(HEADER2, "#")
  {
    CommentOf("# Fix warnings and regenerate ", "with `scripts/clippy-ratchet", ".sh --write-baseline`;");
  }

  lemma ThirdIsComment()
    ensures FirstBreak(HEADER3) == |HEADER3| && StartsWith(HEADER3, "#")
  {
    CommentOf("# that refuses to add ", "entries. Never add entries ", "to make a PR pass.");
  }

  lemma HeaderIsSkipped(body: string)
    ensures Read(UnderHeader(body)) == Read(body)
  {
    FirstIsComment();
    SecondIsComment();
    ThirdIsComment();
    HeaderLinesAreSkipped(HEADER1, HEADER2, HEADER3, body);
  }

  lemma HeaderLinesAreSkipped(first: string, second: string, third: string, body: string)
    requires FirstBreak(first) == |first| && StartsWith(first, "#")
    requires FirstBreak(second) == |second| && StartsWith(second, "#")
    requires FirstBreak(third) == |third| && StartsWith(third, "#")
    ensures Read(first + ("\n" + (second + ("\n" + (third + ("\n" + body)))))) == Read(body)
  {
    CommentLine(third, body);
    CommentLine(second, third + ("\n" + body));
    CommentLine(first, second + ("\n" + (third + ("\n" + body))));
  }

  predicate AllCleanIn(entries: multiset<Fingerprint>) {
    forall f | f in entries :: IsClean(f)
  }

  /**
   What was written is read back as it was exactly when every entry is free of U+0085, U+2028 and
   U+2029; otherwise reading fails, so it never gives different entries.
   */
  lemma ReadInvertsWrite(entries: multiset<Fingerprint>)
    ensures Read(Text(entries)) == if AllCleanIn(entries) then Some(entries) else None
  {
    var listed := Elements(entries);
    var sorted := SortedDumps(listed);
    HeaderIsSkipped(JoinLines(SortTexts(Mapped(Dump, listed))));
    DumpsReadBack(sorted);
    assert AllClean(sorted) <==> AllCleanIn(entries) by {
      forall k | 0 <= k < |sorted| ensures sorted[k] in entries { assert sorted[k] in multiset(sorted); }
      forall f | f in entries ensures f in sorted { assert f in multiset(sorted); }
    }
  }

  /** Written with a line separator in its message, a baseline of one warning cannot be read again. */
  lemma LineSeparatorIsLost()
    ensures Read(Text(multiset{Fingerprint("unused", "main.rs", "a\U{2028}b")})) == None
  {
    var entries := multiset{Fingerprint("unused", "main.rs", "a\U{2028}b")};
    assert IsBareBreak("a\U{2028}b"[1]);
    ReadInvertsWrite(entries);
    assert Fingerprint("unused", "main.rs", "a\U{2028}b") in entries;
  }
}
