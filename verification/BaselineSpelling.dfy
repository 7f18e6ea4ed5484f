/**
 Which lines of a baseline are entries: JSON arrays of three strings, told character by character, and
 how often each entry counts.
 */
module BaselineSpelling {
  import opened Common
  import opened TextLines
  import opened BaselineText
  import Spelling = SpdxSpelling

  // ----- how a line is spelt

  /** The character is this hexadecimal digit, in either case. */
  predicate IsHex(c: char, n: int) {
    var m := c as int;
    0 <= n < 16 && if n < 10 then m == 48 + n else m == 55 + n || m == 87 + n
  }

  ghost predicate IsHexOf(text: string, code: int) {
    |text| == 4 && exists a, b, c, d | IsHex(text[0], a) && IsHex(text[1], b) && IsHex(text[2], c) && IsHex(text[3], d)
      :: code == 4096 * a + 256 * b + 16 * c + d
  }

  /** What a backslash and this mark stand for: quote, backslash, slash, and five control characters. */
  predicate IsShort(mark: char, c: char) {
    var m, n := mark as int, c as int;
    (m == n && (m == 34 || m == 47 || m == 92)) || (m == 98 && n == 8) || (m == 102 && n == 12) ||
    (m == 110 && n == 10) || (m == 114 && n == 13) || (m == 116 && n == 9)
  }

  /** One character of a string literal, bare or escaped. */
  ghost predicate IsUnit(u: string, c: char) {
    (u == [c] && c as int >= 32 && c as int != 34 && c as int != 92) ||
    (|u| == 2 && u[0] as int == 92 && IsShort(u[1], c)) ||
    (|u| == 6 && u[0] as int == 92 && u[1] as int == 117 && IsHexOf(u[2..6], c as int))
  }

  function Joined(units: seq<string>): string {
    if units == [] then "" else units[0] + Joined(units[1..])
  }

  ghost predicate Spells(units: seq<string>, s: string) {
    |units| == |s| && forall k | 0 <= k < |s| :: IsUnit(units[k], s[k])
  }

  /** Space, tabulator, line feed or carriage return. */
  predicate IsGap(text: string) {
    forall k | 0 <= k < |text| :: text[k] as int == 32 || text[k] as int == 9 || text[k] as int == 10 ||
      text[k] as int == 13
  }

  /** A string literal with gaps around it and a mark behind. */
  datatype Field = Field(before: string, units: seq<string>, after: string)

  function Laid(field: Field, mark: char, rest: string): string {
    field.before + ("\"" + (Joined(field.units) + ("\"" + (field.after + ([mark] + rest)))))
  }

  ghost predicate IsField(field: Field, s: string) {
    IsGap(field.before) && Spells(field.units, s) && IsGap(field.after)
  }

  datatype Layout = Layout(before: string, lint: Field, file: Field, message: Field, after: string)

  function LineOf(l: Layout): string {
    l.before + ("[" + Laid(l.lint, ',', Laid(l.file, ',', Laid(l.message, ']', l.after))))
  }

  /** The line is the JSON array of the entry's three strings, with gaps anywhere between its parts. */
  ghost predicate IsEntryLine(line: string, f: Fingerprint) {
    exists l: Layout :: LaysOut(l, line, f)
  }

  ghost predicate LaysOut(l: Layout, line: string, f: Fingerprint) {
    line == LineOf(l) && IsGap(l.before) && IsGap(l.after) &&
    IsField(l.lint, f.lint) && IsField(l.file, f.file) && IsField(l.message, f.message)
  }

  // ----- one character of a literal

  lemma HexCompared(c: char, n: nat)
    requires n < 16
    ensures HexValue(c) == Some(n) <==> IsHex(c, n)
  {
  }

  lemma HexOfUnit(text: string, code: int)
    requires IsHexOf(text, code)
    ensures !(0xD800 <= code < 0xE000) ==> 0 <= code < 0x1_0000 && HexEscape(text) == Some(code as char)
  {
    var a, b, c, d :| IsHex(text[0], a) && IsHex(text[1], b) && IsHex(text[2], c) && IsHex(text[3], d) &&
      code == 4096 * a + 256 * b + 16 * c + d;
    HexCompared(text[0], a);
    HexCompared(text[1], b);
    HexCompared(text[2], c);
    HexCompared(text[3], d);
  }

  lemma UnitOfHex(text: string)
    requires |text| == 4 && HexEscape(text).Some?
    ensures IsHexOf(text, HexEscape(text).value as int)
  {
    var a, b, c, d := HexValue(text[0]).value, HexValue(text[1]).value, HexValue(text[2]).value,
      HexValue(text[3]).value;
    HexCompared(text[0], a);
    HexCompared(text[1], b);
    HexCompared(text[2], c);
    HexCompared(text[3], d);
    assert HexEscape(text).value as int == 4096 * a + 256 * b + 16 * c + d;
  }

  lemma ShortCompared(mark: char, c: char)
    ensures SimpleEscape(mark) == Some(c) <==> IsShort(mark, c)
  {
  }

  lemma UnitIsScanned(u: string, c: char, more: string)
    requires IsUnit(u, c)
    ensures u != "" && u[0] as int != 34 && ScanString(u + more) == Prepend(c, ScanString(more))
  {
    var text := u + more;
    assert text[0] == u[0] && text[|u|..] == more;
    if |u| == 2 {
      assert text[1] == u[1];
      ShortCompared(u[1], c);
    } else if |u| == 6 {
      assert text[1] == u[1] && text[2..6] == u[2..6];
      HexOfUnit(u[2..6], c as int);
      assert SimpleEscape('u').None?;
    }
  }

  lemma ScannedIsUnit(text: string) returns (u: string, c: char, more: string)
    requires ScanString(text).Some? && text[0] != '"'
    ensures IsUnit(u, c) && text == u + more && ScanString(text) == Prepend(c, ScanString(more))
  {
    if text[0] != '\\' {
      u, c, more := [text[0]], text[0], text[1..];
    } else if SimpleEscape(text[1]).Some? {
      c := SimpleEscape(text[1]).value;
      ShortCompared(text[1], c);
      u, more := text[..2], text[2..];
    } else {
      c := HexEscape(text[2..6]).value;
      UnitOfHex(text[2..6]);
      u, more := text[..6], text[6..];
      assert u[2..6] == text[2..6];
    }
  }

  // ----- a literal and a field

  lemma {:induction false} SpeltIsScanned(units: seq<string>, s: string, rest: string)
    requires Spells(units, s)
    ensures ScanString(Joined(units) + ("\"" + rest)) == Some(Scan(s, rest))
    decreases |units|
  {
    if units == [] {
      assert Joined(units) + ("\"" + rest) == "\"" + rest;
    } else {
      SpeltTail(units, s);
      SpeltIsScanned(units[1..], s[1..], rest);
      JoinedHead(units, "\"" + rest);
      UnitIsScanned(units[0], s[0], Joined(units[1..]) + ("\"" + rest));
    }
  }

  lemma SpeltTail(units: seq<string>, s: string)
    requires units != [] && Spells(units, s)
    ensures IsUnit(units[0], s[0]) && Spells(units[1..], s[1..]) && s == [s[0]] + s[1..]
  {
  }

  lemma JoinedHead(units: seq<string>, more: string)
    requires units != []
    ensures Joined(units) + more == units[0] + (Joined(units[1..]) + more)
  {
  }

  lemma {:induction false} ScannedIsSpelt(text: string) returns (units: seq<string>)
    requires ScanString(text).Some?
    ensures var scan := ScanString(text).value;
      Spells(units, scan.value) && text == Joined(units) + ("\"" + scan.rest)
    decreases |text|
  {
    if text[0] == '"' {
      units := [];
    } else {
      var u, c, more := ScannedIsUnit(text);
      var rest := ScannedIsSpelt(more);
      units := [u] + rest;
      UnitAhead(u, c, more, rest, ScanString(more).value);
    }
  }

  lemma UnitAhead(u: string, c: char, more: string, rest: seq<string>, scan: Scan)
    requires IsUnit(u, c) && Spells(rest, scan.value) && more == Joined(rest) + ("\"" + scan.rest)
    ensures Spells([u] + rest, [c] + scan.value) && u + more == Joined([u] + rest) + ("\"" + scan.rest)
  {
    assert ([u] + rest)[1..] == rest;
    assert Joined([u] + rest) == u + Joined(rest);
  }

  lemma {:induction false} GapIsSkipped(gap: string, text: string)
    requires IsGap(gap) && (text != "" ==> text[0] !in " \t\n\r")
    ensures SkipBlank(gap + text) == text
  {
    if gap == "" {
      assert gap + text == text;
    } else {
      assert (gap + text)[1..] == gap[1..] + text;
      GapIsSkipped(gap[1..], text);
    }
  }

  lemma {:induction false} SkippedIsGap(text: string) returns (gap: string)
    ensures IsGap(gap) && text == gap + SkipBlank(text)
    ensures SkipBlank(text) != "" ==> SkipBlank(text)[0] !in " \t\n\r"
  {
    if text != "" && text[0] in " \t\n\r" {
      var more := SkippedIsGap(text[1..]);
      gap := [text[0]] + more;
      GapGrows(text[0], text[1..], more);
      assert text == [text[0]] + text[1..];
    } else {
      gap := "";
    }
  }

  lemma GapGrows(c: char, text: string, gap: string)
    requires c in " \t\n\r" && IsGap(gap) && text == gap + SkipBlank(text)
    ensures IsGap([c] + gap) && [c] + text == ([c] + gap) + SkipBlank(text)
  {
  }

  lemma FieldIsScanned(field: Field, s: string, mark: char, rest: string)
    requires IsField(field, s) && mark !in " \t\n\r"
    ensures ScanField(Laid(field, mark, rest), mark) == Some(Scan(s, rest))
  {
    var behind := field.after + ([mark] + rest);
    var quoted := "\"" + (Joined(field.units) + ("\"" + behind));
    GapIsSkipped(field.before, quoted);
    assert quoted[0] == '"' && quoted[1..] == Joined(field.units) + ("\"" + behind);
    SpeltIsScanned(field.units, s, behind);
    GapIsSkipped(field.after, [mark] + rest);
    assert ([mark] + rest)[1..] == rest;
  }

  lemma ScannedIsField(text: string, mark: char) returns (field: Field)
    requires ScanField(text, mark).Some?
    ensures var scan := ScanField(text, mark).value;
      IsField(field, scan.value) && text == Laid(field, mark, scan.rest)
  {
    var before := SkippedIsGap(text);
    var at := SkipBlank(text);
    var scan := ScanString(at[1..]).value;
    var units := ScannedIsSpelt(at[1..]);
    var after := SkippedIsGap(scan.rest);
    field := Field(before, units, after);
    FieldIsLaid(text, at, scan.rest, SkipBlank(scan.rest), field, mark);
  }

  lemma FieldIsLaid(text: string, at: string, behind: string, marked: string, field: Field, mark: char)
    requires text == field.before + at && at != "" && at[0] == '"'
    requires at[1..] == Joined(field.units) + ("\"" + behind)
    requires behind == field.after + marked && marked != "" && marked[0] == mark
    ensures text == Laid(field, mark, marked[1..])
  {
    assert marked == [mark] + marked[1..];
    assert at == "\"" + at[1..];
  }

  // ----- an entry

  lemma EntryIsRead(l: Layout, line: string, f: Fingerprint)
    requires LaysOut(l, line, f)
    ensures ReadEntry(line) == Some(f)
  {
    var third := Laid(l.message, ']', l.after);
    var second := Laid(l.file, ',', third);
    var first := Laid(l.lint, ',', second);
    GapIsSkipped(l.before, "[" + first);
    assert ("[" + first)[1..] == first;
    FieldIsScanned(l.lint, f.lint, ',', second);
    FieldIsScanned(l.file, f.file, ',', third);
    FieldIsScanned(l.message, f.message, ']', l.after);
    GapIsSkipped(l.after, "");
    assert l.after + "" == l.after;
  }

  lemma ReadIsEntry(line: string) returns (l: Layout)
    requires ReadEntry(line).Some?
    ensures LaysOut(l, line, ReadEntry(line).value)
  {
    var before := SkippedIsGap(line);
    var at := SkipBlank(line);
    var lint := ScannedIsField(at[1..], ',');
    var second := ScanField(at[1..], ',').value.rest;
    var file := ScannedIsField(second, ',');
    var third := ScanField(second, ',').value.rest;
    var message := ScannedIsField(third, ']');
    var end := ScanField(third, ']').value.rest;
    var after := SkippedIsGap(end);
    assert after + "" == after;
    l := Layout(before, lint, file, message, after);
    PartsMakeLine(l, line, at, second, third, end);
  }

  lemma PartsMakeLine(l: Layout, line: string, at: string, second: string, third: string, end: string)
    requires line == l.before + at && at != "" && at[0] == '[' && at[1..] == Laid(l.lint, ',', second)
    requires second == Laid(l.file, ',', third) && third == Laid(l.message, ']', end) && end == l.after
    ensures line == LineOf(l)
  {
    assert at == "[" + at[1..];
  }

  /** A line reads as an entry exactly when it is spelt as one. */
  lemma EntryIsSpelt(line: string, f: Fingerprint)
    ensures ReadEntry(line) == Some(f) <==> IsEntryLine(line, f)
  {
    if ReadEntry(line) == Some(f) {
      var l := ReadIsEntry(line);
    }
    if IsEntryLine(line, f) {
      var l: Layout :| LaysOut(l, line, f);
      EntryIsRead(l, line, f);
    }
  }

  // ----- a whole baseline

  /** A line of white space only, or a comment. */
  predicate IsPassedOver(line: string) {
    (forall k | 0 <= k < |line| :: Spelling.IsBlank(line[k])) || (line != "" && line[0] as int == 35)
  }

  lemma PassedCompared(line: string)
    ensures IsSkipped(line) <==> IsPassedOver(line)
  {
    forall k | 0 <= k < |line| ensures IsSpace(line[k]) <==> Spelling.IsBlank(line[k]) {
      Spelling.SameCharacters(line[k]);
    }
    if line != "" { assert line[..1] == [line[0]]; }
  }

  /** The lines that say the entry. */
  ghost function Saying(lines: seq<string>, f: Fingerprint): set<nat> {
    set k: nat | k < |lines| && !IsPassedOver(lines[k]) && IsEntryLine(lines[k], f)
  }

  ghost predicate IsEntry(line: string) {
    exists f: Fingerprint :: IsEntryLine(line, f)
  }

  ghost function Trues(flags: seq<bool>): set<nat> {
    set k: nat | k < |flags| && flags[k]
  }

  lemma TruesTail(flags: seq<bool>)
    requires flags != []
    ensures |Trues(flags)| == |Trues(flags[1..])| + if flags[0] then 1 else 0
  {
    var rest, shifted := Trues(flags[1..]), Shifted(Trues(flags[1..]));
    ShiftCounts(rest);
    forall k: nat ensures k in Trues(flags) <==> k in shifted || (k == 0 && flags[0]) {
      if k > 0 { ShiftedHolds(rest, k - 1); }
    }
    if flags[0] {
      assert Trues(flags) == shifted + {0};
    } else {
      assert Trues(flags) == shifted;
    }
  }

  ghost function Flags(lines: seq<string>, f: Fingerprint): (flags: seq<bool>)
    ensures |flags| == |lines|
    ensures forall k | 0 <= k < |lines| :: flags[k] == (!IsPassedOver(lines[k]) && IsEntryLine(lines[k], f))
  {
    seq(|lines|, k requires 0 <= k < |lines| => !IsPassedOver(lines[k]) && IsEntryLine(lines[k], f))
  }

  lemma SayingIs(lines: seq<string>, f: Fingerprint)
    ensures Saying(lines, f) == Trues(Flags(lines, f))
  {
  }

  lemma SayingTail(lines: seq<string>, f: Fingerprint)
    requires lines != []
    ensures |Saying(lines, f)| ==
      |Saying(lines[1..], f)| + if !IsPassedOver(lines[0]) && IsEntryLine(lines[0], f) then 1 else 0
  {
    SayingIs(lines, f);
    SayingIs(lines[1..], f);
    TruesTail(Flags(lines, f));
    assert Flags(lines, f)[1..] == Flags(lines[1..], f);
  }

  ghost function Shifted(places: set<nat>): set<nat> {
    set k | k in places :: k + 1
  }

  lemma ShiftedHolds(places: set<nat>, k: nat)
    ensures k in places <==> k + 1 in Shifted(places)
  {
  }

  lemma ShiftedAdds(places: set<nat>, one: nat)
    ensures Shifted(places + {one}) == Shifted(places) + {one + 1}
  {
    forall k | k in Shifted(places) + {one + 1} ensures k in Shifted(places + {one}) {
      assert k - 1 in places + {one};
    }
  }

  lemma {:induction false} ShiftCounts(places: set<nat>)
    ensures |Shifted(places)| == |places| && 0 !in Shifted(places)
    decreases |places|
  {
    if places != {} {
      var one :| one in places;
      ShiftCounts(places - {one});
      assert places == (places - {one}) + {one};
      ShiftedAdds(places - {one}, one);
    }
  }

  lemma LineCompared(line: string, f: Fingerprint)
    ensures IsSkipped(line) <==> IsPassedOver(line)
    ensures ReadEntry(line).Some? <==> IsEntry(line)
    ensures ReadEntry(line) == Some(f) <==> IsEntryLine(line, f)
  {
    PassedCompared(line);
    EntryIsSpelt(line, f);
    if ReadEntry(line).Some? { EntryIsSpelt(line, ReadEntry(line).value); }
    if IsEntry(line) {
      var g: Fingerprint :| IsEntryLine(line, g);
      EntryIsSpelt(line, g);
    }
  }

  ghost predicate AllSaySomething(lines: seq<string>) {
    forall k | 0 <= k < |lines| :: IsPassedOver(lines[k]) || IsEntry(lines[k])
  }

  lemma AllButFirst(lines: seq<string>)
    requires lines != []
    ensures AllSaySomething(lines) <==> (IsPassedOver(lines[0]) || IsEntry(lines[0])) && AllSaySomething(lines[1..])
  {
    assert forall k | 0 <= k < |lines| - 1 :: lines[1..][k] == lines[k + 1];
    assert forall k | 0 < k < |lines| :: lines[k] == lines[1..][k - 1];
  }

  lemma {:induction false} LinesCount(lines: seq<string>, f: Fingerprint)
    ensures ReadLines(lines).Some? <==> AllSaySomething(lines)
    ensures ReadLines(lines).Some? ==> ReadLines(lines).value[f] == |Saying(lines, f)|
  {
    if lines != [] {
      LinesCount(lines[1..], f);
      SayingTail(lines, f);
      LineCompared(lines[0], f);
      AllButFirst(lines);
    }
  }

  /** A baseline is read exactly when each line is blank, a comment or an entry, and then counts each entry's lines. */
  lemma BaselineIsSpelt(text: string, f: Fingerprint)
    ensures Read(text).Some? <==> AllSaySomething(SplitLines(text))
    ensures Read(text).Some? ==> Read(text).value[f] == |Saying(SplitLines(text), f)|
  {
    LinesCount(SplitLines(text), f);
  }
}
