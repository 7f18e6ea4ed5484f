/** Text as the lines that str.splitlines cuts it into. */
module TextLines {
  predicate IsBreak(c: char) {
    '\n' <= c <= '\r' || '\U{001C}' <= c <= '\U{001E}' || IsBareBreak(c)
  }

  /** A line break that is no ASCII control character; JSON has no need to escape it. */
  predicate IsBareBreak(c: char) {
    c == '\U{0085}' || c == '\U{2028}' || c == '\U{2029}'
  }

  /** The length of the first line. */
  function FirstBreak(text: string): (n: nat)
    ensures n <= |text| && (n < |text| ==> IsBreak(text[n]))
    ensures forall k | 0 <= k < n :: !IsBreak(text[k])
  {
    if text == "" || IsBreak(text[0]) then 0 else 1 + FirstBreak(text[1..])
  }

  function SplitLines(text: string): seq<string>
    decreases |text|
  {
    if text == "" then []
    else
      var n := FirstBreak(text);
      if n == |text| then [text]
      else if text[n] == '\r' && n + 1 < |text| && text[n + 1] == '\n' then [text[..n]] + SplitLines(text[n + 2..])
      else [text[..n]] + SplitLines(text[n + 1..])
  }

  function JoinLines(lines: seq<string>): string {
    if lines == [] then "" else lines[0] + ("\n" + JoinLines(lines[1..]))
  }

  function Cut(text: string): string {
    text[..FirstBreak(text)]
  }

  lemma {:induction false} CutPast(lead: string, more: string)
    requires forall k | 0 <= k < |lead| :: !IsBreak(lead[k])
    ensures FirstBreak(lead + more) == |lead| + FirstBreak(more) && Cut(lead + more) == lead + Cut(more)
  {
    var text := lead + more;
    if lead == "" {
      assert text == more;
    } else {
      assert text[1..] == lead[1..] + more && text[0] == lead[0];
      CutPast(lead[1..], more);
    }
  }

  lemma HeadIsCut(text: string)
    requires text != ""
    ensures SplitLines(text) != [] && SplitLines(text)[0] == Cut(text)
  {
  }

  lemma LineOff(line: string, more: string)
    requires Cut(line + ("\n" + more)) == line
    ensures SplitLines(line + ("\n" + more)) == [line] + SplitLines(more)
  {
    var text := line + ("\n" + more);
    assert FirstBreak(text) == |line| && text[|line|] == '\n' && text[|line| + 1..] == more;
  }

  // ----- the same by code points and line ends

  predicate IsLineEnd(c: char) {
    var n := c as int;
    10 <= n <= 13 || 28 <= n <= 30 || n == 133 || n == 8232 || n == 8233
  }

  predicate HasNoEnd(text: string) {
    forall k | 0 <= k < |text| :: !IsLineEnd(text[k])
  }

  function Woven(lines: seq<string>, ends: seq<string>): string
    requires |ends| == |lines|
  {
    if lines == [] then "" else lines[0] + (ends[0] + Woven(lines[1..], ends[1..]))
  }

  /** A carriage return and line feed end a line together; only the last line may go without an end. */
  predicate IsEndOf(lines: seq<string>, ends: seq<string>, k: nat)
    requires k < |lines| == |ends|
  {
    HasNoEnd(lines[k]) &&
    (ends[k] == [13 as char, 10 as char] || (|ends[k]| == 1 && IsLineEnd(ends[k][0])) ||
     (ends[k] == "" && k == |lines| - 1 && lines[k] != "")) &&
    (ends[k] == [13 as char] && k + 1 < |lines| && lines[k + 1] == "" && ends[k + 1] != "" ==>
      ends[k + 1][0] != 10 as char)
  }

  predicate AreEnds(lines: seq<string>, ends: seq<string>) {
    |ends| == |lines| && forall k | 0 <= k < |lines| :: IsEndOf(lines, ends, k)
  }

  lemma BreaksCompared(c: char)
    ensures IsBreak(c) <==> IsLineEnd(c)
  {
  }

  lemma {:induction false} EndsOf(text: string) returns (ends: seq<string>)
    ensures AreEnds(SplitLines(text), ends) && text == Woven(SplitLines(text), ends)
    decreases |text|
  {
    ends := [];
    if text != "" {
      var n := FirstBreak(text);
      forall k | 0 <= k < n ensures !IsLineEnd(text[k]) { BreaksCompared(text[k]); }
      if n == |text| {
        ends := [""];
      } else {
        BreaksCompared(text[n]);
        var m := if text[n] == '\r' && n + 1 < |text| && text[n + 1] == '\n' then n + 2 else n + 1;
        var rest := EndsOf(text[m..]);
        ends := [text[n..m]] + rest;
        EndsGrow(text, n, m, rest);
      }
    }
  }

  lemma EndsGrow(text: string, n: nat, m: nat, rest: seq<string>)
    requires n < m <= |text| && HasNoEnd(text[..n]) && IsLineEnd(text[n])
    requires m == if text[n] == '\r' && n + 1 < |text| && text[n + 1] == '\n' then n + 2 else n + 1
    requires AreEnds(SplitLines(text[m..]), rest) && text[m..] == Woven(SplitLines(text[m..]), rest)
    ensures var lines, ends := [text[..n]] + SplitLines(text[m..]), [text[n..m]] + rest;
      AreEnds(lines, ends) && text == Woven(lines, ends)
  {
    var more := SplitLines(text[m..]);
    var lines, ends := [text[..n]] + more, [text[n..m]] + rest;
    assert lines[1..] == more && ends[1..] == rest;
    assert text == text[..n] + (text[n..m] + text[m..]);
    forall k | 0 <= k < |lines| ensures IsEndOf(lines, ends, k) {
      if k > 0 {
        assert IsEndOf(more, rest, k - 1);
      } else {
        FirstEndStands(text, n, m, more, rest);
      }
    }
  }

  lemma FirstEndStands(text: string, n: nat, m: nat, more: seq<string>, rest: seq<string>)
    requires n < m <= |text| && HasNoEnd(text[..n]) && IsLineEnd(text[n])
    requires m == if text[n] == '\r' && n + 1 < |text| && text[n + 1] == '\n' then n + 2 else n + 1
    requires |rest| == |more| && text[m..] == Woven(more, rest)
    ensures IsEndOf([text[..n]] + more, [text[n..m]] + rest, 0)
  {
    if m == n + 1 && more != [] && more[0] == "" && rest[0] != "" {
      assert text[m..] == rest[0] + Woven(more[1..], rest[1..]);
      assert text[m] == text[m..][0] == rest[0][0];
    }
    if m == n + 2 { assert text[n..m] == [text[n], text[n + 1]]; } else { assert text[n..m] == [text[n]]; }
  }

  lemma EndIsTaken(line: string, end: string, tail: string)
    requires HasNoEnd(line) && (end == [13 as char, 10 as char] || (|end| == 1 && IsLineEnd(end[0])))
    requires end == [13 as char] && tail != "" ==> tail[0] != 10 as char
    ensures SplitLines(line + (end + tail)) == [line] + SplitLines(tail)
  {
    var text, n := line + (end + tail), |line|;
    forall k | 0 <= k < n ensures !IsBreak(line[k]) { BreaksCompared(line[k]); }
    CutPast(line, end + tail);
    BreaksCompared(end[0]);
    assert FirstBreak(end + tail) == 0 && FirstBreak(text) == n && text[n] == end[0];
    assert text[..n] == line && text[n + |end|..] == tail;
    if |end| == 1 && tail != "" { assert text[n + 1] == tail[0]; }
    if |end| == 2 { assert text[n + 1] == end[1]; }
  }

  /** What follows a carriage return is no line feed. */
  lemma NextIsNoFeed(lines: seq<string>, ends: seq<string>)
    requires AreEnds(lines, ends) && lines != [] && ends[0] == [13 as char]
    ensures var tail := Woven(lines[1..], ends[1..]); tail != "" ==> tail[0] != 10 as char
  {
    if |lines| > 1 {
      assert IsEndOf(lines, ends, 0) && IsEndOf(lines, ends, 1);
      var tail := Woven(lines[1..], ends[1..]);
      assert tail == lines[1] + (ends[1] + Woven(lines[1..][1..], ends[1..][1..]));
      if lines[1] != "" { assert tail[0] == lines[1][0]; } else { assert tail[0] == ends[1][0]; }
    }
  }

  lemma {:induction false} WovenSplits(lines: seq<string>, ends: seq<string>)
    requires AreEnds(lines, ends)
    ensures SplitLines(Woven(lines, ends)) == lines
  {
    if lines != [] {
      var rest, more := lines[1..], ends[1..];
      assert IsEndOf(lines, ends, 0);
      forall k | 0 <= k < |rest| ensures IsEndOf(rest, more, k) { assert IsEndOf(lines, ends, k + 1); }
      WovenSplits(rest, more);
      assert lines == [lines[0]] + rest;
      if ends[0] == "" {
        LastLine(lines[0]);
        assert rest == [] && lines[0] + ("" + "") == lines[0];
      } else {
        if ends[0] == [13 as char] { NextIsNoFeed(lines, ends); }
        EndIsTaken(lines[0], ends[0], Woven(rest, more));
      }
    }
  }

  lemma LastLine(line: string)
    requires line != "" && HasNoEnd(line)
    ensures SplitLines(line) == [line]
  {
    forall k | 0 <= k < |line| ensures !IsBreak(line[k]) { BreaksCompared(line[k]); }
    CutPast(line, "");
    assert line + "" == line;
  }

  /** The lines of a text are exactly those that, each with its end, make the text up again. */
  lemma LinesAreWoven(text: string, lines: seq<string>)
    ensures SplitLines(text) == lines <==> exists ends :: AreEnds(lines, ends) && text == Woven(lines, ends)
  {
    if SplitLines(text) == lines {
      var ends := EndsOf(text);
    }
    if ends :| AreEnds(lines, ends) && text == Woven(lines, ends) { WovenSplits(lines, ends); }
  }
}
