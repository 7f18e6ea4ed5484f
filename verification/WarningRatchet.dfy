/**
 The warning ratchet: current warnings as a multiset of fingerprints, checked against a baseline
 file that its own commands may only ever shrink.
 */
module WarningRatchet {
  import opened Common
  import opened BaselineText

  // ----- the warnings of one compiler run

  datatype Span = Span(file: string, line: int, column: int, isPrimary: bool)

  datatype Message =
    | Unparsed
    | OtherReason
    | Compiler(level: string, lint: Option<string>, text: string, spans: seq<Span>)

  datatype Located = Located(lint: string, file: string, line: int, column: int, text: string)

  /** The first primary span, or the first span of all. */
  function Place(spans: seq<Span>): (span: Span)
    requires spans != []
    ensures span in spans && (!span.isPrimary ==> forall s | s in spans :: !s.isPrimary)
  {
    if spans[0].isPrimary then spans[0]
    else if |spans| > 1 && (exists k | 1 <= k < |spans| :: spans[k].isPrimary) then
      assert exists s | s in spans[1..] :: s.isPrimary by {
        var k :| 1 <= k < |spans| && spans[k].isPrimary;
        assert spans[1..][k - 1] == spans[k];
      }
      Place(spans[1..])
    else spans[0]
  }

  function Locate(message: Message): Option<Located> {
    if !message.Compiler? || message.level != "warning" || message.spans == [] then None
    else
      var span := Place(message.spans);
      var lint := if message.lint.Some? then message.lint.value else "";
      Some(Located(lint, span.file, span.line, span.column, message.text))
  }

  function Print(at: Located): Fingerprint {
    Fingerprint(at.lint, at.file, at.text)
  }

  function Seen(output: seq<Message>): set<Located> {
    set m | m in output && Locate(m).Some? :: Locate(m).value
  }

  ghost function Tally(seen: set<Located>): multiset<Fingerprint> {
    if seen == {} then multiset{}
    else
      var one :| one in seen;
      Tally(seen - {one}) + multiset{Print(one)}
  }

  ghost function Current(output: seq<Message>): multiset<Fingerprint> {
    Tally(Seen(output))
  }

  lemma PlacesLess(seen: set<Located>, one: Located, f: Fingerprint)
    requires one in seen
    ensures |set at | at in seen && Print(at) == f| ==
      |set at | at in seen - {one} && Print(at) == f| + if Print(one) == f then 1 else 0
  {
    var all, less := set at | at in seen && Print(at) == f, set at | at in seen - {one} && Print(at) == f;
    if Print(one) == f {
      assert all == less + {one};
    } else {
      assert all == less;
    }
  }

  lemma {:induction false} TallyCounts(seen: set<Located>, f: Fingerprint)
    ensures Tally(seen)[f] == |set at | at in seen && Print(at) == f|
  {
    if seen != {} {
      var one :| one in seen && Tally(seen) == Tally(seen - {one}) + multiset{Print(one)};
      TallyCounts(seen - {one}, f);
      PlacesLess(seen, one, f);
    }
  }

  /** A fingerprint has as many copies as there are distinct places that report it, repeats or not. */
  lemma CopiesArePlaces(output: seq<Message>, f: Fingerprint)
    ensures Current(output)[f] == |set at | at in Seen(output) && Print(at) == f|
  {
    TallyCounts(Seen(output), f);
  }

  // ----- the same count, told from the compiler's messages

  /** The span that a message is filed under: the first primary one, or the first of all if none is. */
  predicate IsFiled(spans: seq<Span>, j: int) {
    0 <= j < |spans| && (forall i | 0 <= i < j :: !spans[i].isPrimary) &&
    (spans[j].isPrimary || (j == 0 && forall i | 0 <= i < |spans| :: !spans[i].isPrimary))
  }

  /** A warning with this lint and text whose `j`-th span, the one it is filed under, is in this file. */
  predicate Reports(m: Message, j: int, f: Fingerprint) {
    m.Compiler? && m.level == "warning" && IsFiled(m.spans, j) && m.spans[j].file == f.file && m.text == f.message &&
    (m.lint == Some(f.lint) || (m.lint == None && f.lint == ""))
  }

  /** The lines and columns at which the fingerprint is reported. */
  function ReportedAt(output: seq<Message>, f: Fingerprint): set<(int, int)> {
    set k, j | 0 <= k < |output| && output[k].Compiler? && 0 <= j < |output[k].spans| && Reports(output[k], j, f) ::
      (output[k].spans[j].line, output[k].spans[j].column)
  }

  lemma {:induction false} PlaceIsFiled(spans: seq<Span>) returns (j: int)
    requires spans != []
    ensures IsFiled(spans, j) && Place(spans) == spans[j]
    ensures forall i | IsFiled(spans, i) :: i == j
  {
    j := 0;
    if !spans[0].isPrimary && |spans| > 1 && exists k | 1 <= k < |spans| :: spans[k].isPrimary {
      var rest := spans[1..];
      assert forall i | 0 <= i < |rest| :: rest[i] == spans[i + 1];
      var k := PlaceIsFiled(rest);
      assert rest[k].isPrimary;
      j := k + 1;
      forall i | 0 <= i < j ensures !spans[i].isPrimary { if i > 0 { assert !rest[i - 1].isPrimary; } }
    }
  }

  lemma LocatedIsReported(m: Message, f: Fingerprint, at: Located)
    ensures Locate(m) == Some(at) && Print(at) == f <==>
      exists j :: Reports(m, j, f) && at == Located(f.lint, f.file, m.spans[j].line, m.spans[j].column, f.message)
  {
    if m.Compiler? && m.spans != [] {
      var j := PlaceIsFiled(m.spans);
      if Locate(m) == Some(at) && Print(at) == f { assert Reports(m, j, f); }
    }
  }

  /** A fingerprint has as many copies as there are lines and columns at which a warning reports it. */
  lemma CopiesAreReports(output: seq<Message>, f: Fingerprint)
    ensures Current(output)[f] == |ReportedAt(output, f)|
  {
    CopiesArePlaces(output, f);
    var places := set at | at in Seen(output) && Print(at) == f;
    forall at ensures at in places <==> at in Reported(ReportedAt(output, f), f) {
      PlacesAreReported(output, f, at);
    }
    assert places == Reported(ReportedAt(output, f), f);
    ReportedCount(ReportedAt(output, f), f);
  }

  function Reported(at: set<(int, int)>, f: Fingerprint): set<Located> {
    set p | p in at :: Located(f.lint, f.file, p.0, p.1, f.message)
  }

  lemma PlacesAreReported(output: seq<Message>, f: Fingerprint, at: Located)
    ensures at in Seen(output) && Print(at) == f <==> at in Reported(ReportedAt(output, f), f)
  {
    if at in Seen(output) && Print(at) == f {
      var m :| m in output && Locate(m) == Some(at);
      LocatedIsReported(m, f, at);
      var k :| 0 <= k < |output| && output[k] == m;
      assert (at.line, at.column) in ReportedAt(output, f);
    }
    if at in Reported(ReportedAt(output, f), f) {
      var p :| p in ReportedAt(output, f) && at == Located(f.lint, f.file, p.0, p.1, f.message);
      var k, j :| 0 <= k < |output| && Reports(output[k], j, f) &&
        p == (output[k].spans[j].line, output[k].spans[j].column);
      LocatedIsReported(output[k], f, at);
    }
  }

  lemma {:induction false} ReportedCount(at: set<(int, int)>, f: Fingerprint)
    ensures |Reported(at, f)| == |at|
    decreases |at|
  {
    if at != {} {
      var p :| p in at;
      ReportedCount(at - {p}, f);
      assert Reported(at, f) == Reported(at - {p}, f) + {Located(f.lint, f.file, p.0, p.1, f.message)};
    }
  }

  lemma TallyPicks(seen: set<Located>, one: Located)
    requires one in seen
    ensures Tally(seen) == Tally(seen - {one}) + multiset{Print(one)}
  {
    forall f ensures Tally(seen)[f] == (Tally(seen - {one}) + multiset{Print(one)})[f] {
      TallyCounts(seen, f);
      TallyCounts(seen - {one}, f);
      PlacesLess(seen, one, f);
    }
  }

  method Warnings(output: seq<Message>) returns (current: multiset<Fingerprint>)
    ensures current == Current(output)
  {
    var seen: set<Located> := {};
    for k := 0 to |output|
      invariant seen == Seen(output[..k])
    {
      assert output[..k + 1] == output[..k] + [output[k]];
      var at := Locate(output[k]);
      if at.Some? {
        seen := seen + {at.value};
      }
    }
    assert output[..|output|] == output;
    current := CountUp(seen);
  }

  method CountUp(seen: set<Located>) returns (current: multiset<Fingerprint>)
    ensures current == Tally(seen)
  {
    current := multiset{};
    var left := seen;
    while left != {}
      invariant current + Tally(left) == Tally(seen)
      decreases |left|
    {
      var one :| one in left;
      TallyPicks(left, one);
      Regroup(current, Tally(left - {one}), multiset{Print(one)});
      left := left - {one};
      current := current + multiset{Print(one)};
    }
  }

  lemma Regroup(a: multiset<Fingerprint>, b: multiset<Fingerprint>, c: multiset<Fingerprint>)
    ensures a + (b + c) == a + c + b
  {
  }

  // ----- the commands over the baseline file

  type File = Option<string>

  datatype Command =
    | Check(current: multiset<Fingerprint>)
    | Write(current: multiset<Fingerprint>, initial: bool)

  datatype Exit = Done(code: int) | Crashed

  function Baseline(file: File): Option<multiset<Fingerprint>> {
    if file.None? then None else Read(file.value)
  }

  ghost function FileAfter(file: File, command: Command): File {
    if ExitOf(file, command) == Done(0) && command.Write? then Some(Text(command.current)) else file
  }

  function ExitOf(file: File, command: Command): Exit {
    if command.Write? && command.initial then Done(if file.Some? then 1 else 0)
    else if Baseline(file).None? then Crashed
    else Done(if command.current <= Baseline(file).value then 0 else 1)
  }

  class Ratchet {
    var file: File

    constructor (file: File)
      ensures this.file == file
    {
      this.file := file;
    }

    method Run(command: Command) returns (exit: Exit)
      modifies this
      ensures exit == ExitOf(old(file), command) && file == FileAfter(old(file), command)
    {
      if command.Write? && command.initial {
        if file.Some? {
          return Done(1);
        }
      } else {
        if file.None? {
          return Crashed;
        }
        var baseline := ReadBaseline(file.value);
        if baseline.None? {
          return Crashed;
        }
        var added := command.current - baseline.value;
        assert added == multiset{} <==> command.current <= baseline.value by {
          NothingAdded(command.current, baseline.value);
        }
        if added != multiset{} {
          return Done(1);
        }
      }
      if command.Write? {
        var text := WriteBaseline(command.current);
        file := Some(text);
      }
      exit := Done(0);
    }
  }

  lemma NothingAdded(current: multiset<Fingerprint>, baseline: multiset<Fingerprint>)
    ensures current - baseline == multiset{} <==> current <= baseline
  {
    if current - baseline == multiset{} {
      forall f ensures current[f] <= baseline[f] { assert (current - baseline)[f] == 0; }
    }
  }

  // ----- the same commands on what the file means

  /** What a baseline file stands for. */
  datatype Meaning = Missing | Unreadable | Allowing(entries: multiset<Fingerprint>)

  function MeaningOf(file: File): Meaning {
    if file.None? then Missing
    else
      var read := Read(file.value);
      if read.None? then Unreadable else Allowing(read.value)
  }

  function Allowance(m: Meaning): multiset<Fingerprint> {
    if m.Allowing? then m.entries else multiset{}
  }

  predicate IsInitial(command: Command) {
    command.Write? && command.initial
  }

  function ExitFor(m: Meaning, command: Command): Exit {
    if IsInitial(command) then Done(if m == Missing then 0 else 1)
    else if !m.Allowing? then Crashed
    else Done(if command.current <= m.entries then 0 else 1)
  }

  predicate Writes(m: Meaning, command: Command) {
    command.Write? && ExitFor(m, command) == Done(0)
  }

  function After(m: Meaning, command: Command): Meaning {
    if !Writes(m, command) then m else if AllCleanIn(command.current) then Allowing(command.current) else Unreadable
  }

  /** The commands on the text of the file do what they do on its meaning. */
  lemma StepRefines(file: File, command: Command)
    ensures ExitOf(file, command) == ExitFor(MeaningOf(file), command)
    ensures MeaningOf(FileAfter(file, command)) == After(MeaningOf(file), command)
  {
    if command.Write? { ReadInvertsWrite(command.current); }
  }

  // ----- whole histories

  ghost predicate IsStep(file: File, command: Command, next: File) {
    next == FileAfter(file, command)
  }

  /** The baseline file before each command of a history, and after the last. */
  ghost predicate IsRun(files: seq<File>, history: seq<Command>) {
    |files| == |history| + 1 && forall k | 0 <= k < |history| :: IsStep(files[k], history[k], files[k + 1])
  }

  predicate IsTrace(meanings: seq<Meaning>, history: seq<Command>) {
    |meanings| == |history| + 1 && forall k | 0 <= k < |history| :: meanings[k + 1] == After(meanings[k], history[k])
  }

  function Meanings(files: seq<File>): (meanings: seq<Meaning>)
    ensures |meanings| == |files| && forall k | 0 <= k < |files| :: meanings[k] == MeaningOf(files[k])
  {
    seq(|files|, k requires 0 <= k < |files| => MeaningOf(files[k]))
  }

  lemma RunRefines(files: seq<File>, history: seq<Command>)
    requires IsRun(files, history)
    ensures IsTrace(Meanings(files), history)
  {
    forall k | 0 <= k < |history| ensures Meanings(files)[k + 1] == After(Meanings(files)[k], history[k]) {
      assert IsStep(files[k], history[k], files[k + 1]);
      StepRefines(files[k], history[k]);
    }
  }

  /** Once the file exists, no later point of any history allows any fingerprint more copies. */
  lemma {:induction false} AllowanceNeverGrows(meanings: seq<Meaning>, history: seq<Command>, i: nat, k: nat)
    requires IsTrace(meanings, history) && i <= k <= |history| && meanings[i] != Missing
    ensures meanings[k] != Missing && Allowance(meanings[k]) <= Allowance(meanings[i])
  {
    if i < k {
      AllowanceNeverGrows(meanings, history, i, k - 1);
      assert meanings[k] == After(meanings[k - 1], history[k - 1]);
    }
  }

  /** The file is there only after a command has created it, and then allows no more than was current. */
  lemma CreatedBefore(meanings: seq<Meaning>, history: seq<Command>, k: nat) returns (first: nat)
    requires IsTrace(meanings, history) && meanings[0] == Missing && k <= |history| && meanings[k] != Missing
    ensures first < k && IsInitial(history[first]) && forall j | 0 <= j < first :: !IsInitial(history[j])
    ensures Allowance(meanings[k]) <= history[first].current
  {
    first := 0;
    while !IsInitial(history[first])
      invariant first < k && meanings[first] == Missing && forall j | 0 <= j < first :: !IsInitial(history[j])
      decreases k - first
    {
      assert meanings[first + 1] == After(meanings[first], history[first]);
      first := first + 1;
    }
    assert meanings[first + 1] == After(meanings[first], history[first]);
    AllowanceNeverGrows(meanings, history, first + 1, k);
  }

  /** An unreadable baseline stays what it is under every history. */
  lemma {:induction false} UnreadableStays(meanings: seq<Meaning>, history: seq<Command>, i: nat, k: nat)
    requires IsTrace(meanings, history) && i <= k <= |history| && meanings[i] == Unreadable
    ensures meanings[k] == Unreadable
  {
    if i < k {
      UnreadableStays(meanings, history, i, k - 1);
      assert meanings[k] == After(meanings[k - 1], history[k - 1]);
    }
  }

  /**
   In any history from no file on, a check that passes comes after the command that created the
   baseline, and its warnings, copy for copy, are among those of that first baseline.
   */
  lemma PassingIsInsideFirst(files: seq<File>, history: seq<Command>, k: nat) returns (first: nat)
    requires IsRun(files, history) && files[0] == None && k < |history|
    requires history[k].Check? && ExitOf(files[k], history[k]) == Done(0)
    ensures first < k && IsInitial(history[first]) && forall j | 0 <= j < first :: !IsInitial(history[j])
    ensures history[k].current <= history[first].current
  {
    RunRefines(files, history);
    StepRefines(files[k], history[k]);
    first := PassingTrace(Meanings(files), history, k);
  }

  lemma PassingTrace(meanings: seq<Meaning>, history: seq<Command>, k: nat) returns (first: nat)
    requires IsTrace(meanings, history) && meanings[0] == Missing && k < |history|
    requires history[k].Check? && ExitFor(meanings[k], history[k]) == Done(0)
    ensures first < k && IsInitial(history[first]) && forall j | 0 <= j < first :: !IsInitial(history[j])
    ensures history[k].current <= history[first].current
  {
    first := CreatedBefore(meanings, history, k);
  }

  ghost predicate Succeeds(files: seq<File>, history: seq<Command>, k: nat)
    requires IsRun(files, history) && k < |history|
  {
    ExitOf(files[k], history[k]) == Done(0)
  }

  /** Until the next write that succeeds, the file is what the last one left. */
  lemma {:induction false} UnchangedSince(files: seq<File>, history: seq<Command>, m: nat, k: nat)
    requires IsRun(files, history) && m <= k <= |history|
    requires forall j | m <= j < k :: history[j].Write? ==> !Succeeds(files, history, j)
    ensures files[k] == files[m]
  {
    if m < k {
      UnchangedSince(files, history, m, k - 1);
      assert IsStep(files[k - 1], history[k - 1], files[k]);
    }
  }

  /**
   A write locks the improvement in, through every later history: a command that ever succeeds after
   it has only warnings that were written; and until the next successful write exactly those commands
   succeed, unless an entry holds a bare line break, and then none does.
   */
  lemma WriteLocksIn(files: seq<File>, history: seq<Command>, m: nat, k: nat)
    requires IsRun(files, history) && m < k < |history|
    requires history[m].Write? && Succeeds(files, history, m)
    ensures Succeeds(files, history, k) ==>
      AllCleanIn(history[m].current) && !IsInitial(history[k]) && history[k].current <= history[m].current
    ensures (forall j | m < j < k :: history[j].Write? ==> !Succeeds(files, history, j)) ==>
      (Succeeds(files, history, k) <==>
        AllCleanIn(history[m].current) && !IsInitial(history[k]) && history[k].current <= history[m].current)
  {
    RunRefines(files, history);
    var meanings := Meanings(files);
    StepRefines(files[m], history[m]);
    StepRefines(files[k], history[k]);
    assert IsStep(files[m], history[m], files[m + 1]);
    AllowanceNeverGrows(meanings, history, m + 1, k);
    if meanings[m + 1] == Unreadable { UnreadableStays(meanings, history, m + 1, k); }
    if forall j | m < j < k :: history[j].Write? ==> !Succeeds(files, history, j) {
      UnchangedSince(files, history, m + 1, k);
    }
  }

  /**
   Fixing one warning never pays for another, then or later: a command with more copies of one
   fingerprint than the baseline once allowed fails whatever its total, and leaves the file alone.
   */
  lemma NoTradingOff(files: seq<File>, history: seq<Command>, i: nat, k: nat, f: Fingerprint)
    requires IsRun(files, history) && i <= k < |history| && files[i].Some?
    requires history[k].current[f] > Allowance(MeaningOf(files[i]))[f]
    ensures !Succeeds(files, history, k) && files[k + 1] == files[k]
  {
    RunRefines(files, history);
    StepRefines(files[k], history[k]);
    AllowanceNeverGrows(Meanings(files), history, i, k);
    var allowed := Allowance(MeaningOf(files[k]));
    assert allowed[f] <= Allowance(MeaningOf(files[i]))[f];
    assert !(history[k].current <= allowed);
    assert IsStep(files[k], history[k], files[k + 1]);
  }
}
