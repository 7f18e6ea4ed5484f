/** The lockfile's dependency records, and the graph they resolve to. */
module DependencyGraph {
  import opened Common

  datatype PackageKey = PackageKey(name: string, version: string, source: Option<string>)

  /** An empty source counts as none. */
  function PackageId(key: PackageKey): string {
    key.name + (" " + (key.version +
      if key.source.Some? && key.source.value != "" then " (" + (key.source.value + ")") else ""))
  }

  // ----- one record

  datatype Dependency = Dependency(name: string, version: Option<string>, source: Option<string>)

  const OPEN := " ("

  /** Where the last " (" of the text stands. */
  function LastOpen(text: string): (at: Option<nat>)
    ensures at.Some? ==> at.value + 2 <= |text|
  {
    LastOpenFrom(text, |text|)
  }

  /** The last place before `n`. */
  function LastOpenFrom(text: string, n: nat): (at: Option<nat>)
    requires n <= |text|
    ensures at.Some? ==> at.value + 2 <= |text|
  {
    if n == 0 then None else if StandsAt(OPEN, text, n - 1) then Some(n - 1) else LastOpenFrom(text, n - 1)
  }

  lemma {:induction false} LastOpenMeans(text: string, n: nat)
    requires n <= |text| && forall i | n <= i :: !StandsAt(OPEN, text, i)
    ensures var at := LastOpenFrom(text, n);
      if at.Some? then StandsAt(OPEN, text, at.value) && forall i | at.value < i :: !StandsAt(OPEN, text, i)
      else forall i: nat :: !StandsAt(OPEN, text, i)
  {
    if n > 0 && !StandsAt(OPEN, text, n - 1) { LastOpenMeans(text, n - 1); }
  }

  function SkipSpaces(text: string): string {
    if text != "" && IsSpace(text[0]) then SkipSpaces(text[1..]) else text
  }

  function WordLength(text: string): (n: nat)
    ensures n <= |text| && (forall k | 0 <= k < n :: !IsSpace(text[k])) && (n < |text| ==> IsSpace(text[n]))
  {
    if text == "" || IsSpace(text[0]) then 0 else 1 + WordLength(text[1..])
  }

  lemma {:induction false} SkipShortens(text: string)
    ensures |SkipSpaces(text)| <= |text|
    ensures SkipSpaces(text) != "" ==> !IsSpace(SkipSpaces(text)[0])
  {
    if text != "" && IsSpace(text[0]) { SkipShortens(text[1..]); }
  }

  /** The words between white space, as str.split gives them. */
  function Fields(text: string): seq<string>
    decreases |text|
  {
    SkipShortens(text);
    var at := SkipSpaces(text);
    if at == "" then []
    else
      var n := WordLength(at);
      [at[..n]] + Fields(at[n..])
  }

  function DropLast(text: string): string {
    if text == "" then "" else text[..|text| - 1]
  }

  /** parse_dependency; None where it raises for want of a name. */
  function ParseDependency(value: string): Option<Dependency> {
    var open := LastOpen(value);
    var split := EndsWith(value, ")") && open.Some?;
    var body := if split then value[..open.value] else value;
    var source := if split then Some(DropLast(value[open.value + 2..])) else None;
    var fields := Fields(body);
    if fields == [] then None
    else Some(Dependency(fields[0], if |fields| > 1 then Some(fields[1]) else None, source))
  }

  predicate IsWord(text: string) {
    text != "" && forall k | 0 <= k < |text| :: !IsSpace(text[k])
  }

  /** The keys that a record made of their package id names back: decided by version and source alone. */
  predicate IsReadBack(key: PackageKey) {
    match key.source
    case None => !IsBracketed(key.version)
    case Some(source) => source != "" && !Occurs(OPEN, source)
  }

  lemma {:induction false} WordLengthIs(text: string, n: nat)
    requires n <= |text| && (forall k | 0 <= k < n :: !IsSpace(text[k])) && (n < |text| ==> IsSpace(text[n]))
    ensures WordLength(text) == n
  {
    if n > 0 { WordLengthIs(text[1..], n - 1); }
  }

  lemma WordAhead(word: string, more: string)
    requires IsWord(word) && (more != "" ==> IsSpace(more[0]))
    ensures Fields(word + more) == [word] + Fields(more)
  {
    var text := word + more;
    assert text[0] == word[0] && SkipSpaces(text) == text;
    WordLengthIs(text, |word|);
    assert text[..|word|] == word && text[|word|..] == more;
  }

  lemma SpaceAhead(more: string)
    ensures Fields(" " + more) == Fields(more)
  {
    assert (" " + more)[1..] == more;
    assert SkipSpaces(" " + more) == SkipSpaces(more);
  }

  lemma TwoFields(name: string, version: string, more: string)
    requires IsWord(name) && IsWord(version) && (more != "" ==> more[0] == ' ')
    ensures var fields := Fields(name + (" " + (version + more)));
      |fields| >= 2 && fields[0] == name && fields[1] == version
  {
    WordAhead(name, " " + (version + more));
    SpaceAhead(version + more);
    WordAhead(version, more);
  }

  lemma OneField(name: string)
    requires IsWord(name)
    ensures Fields(name) == [name]
  {
    assert name + "" == name;
    WordAhead(name, "");
  }

  lemma OpenAt(text: string, i: nat)
    ensures StandsAt(OPEN, text, i) <==> i + 2 <= |text| && text[i] == ' ' && text[i + 1] == '('
  {
    if i + 2 <= |text| { assert text[i..i + 2] == [text[i], text[i + 1]]; }
  }

  lemma LastOpenIs(text: string, at: nat)
    requires StandsAt(OPEN, text, at) && forall i | at < i :: !StandsAt(OPEN, text, i)
    ensures LastOpen(text) == Some(at)
  {
    LastOpenMeans(text, |text|);
    var found := LastOpen(text);
    assert found.Some? && !(found.value < at);
  }

  lemma NoOpen(text: string)
    requires forall i: nat :: !StandsAt(OPEN, text, i)
    ensures LastOpen(text) == None
  {
    LastOpenMeans(text, |text|);
  }

  lemma OnlyOpen(name: string, version: string, i: nat)
    requires IsWord(name) && IsWord(version)
    ensures StandsAt(OPEN, name + (" " + version), i) <==> i == |name| && version[0] == '('
  {
    var value := name + (" " + version);
    OpenAt(value, i);
    if i < |name| {
      assert value[i] == name[i];
    } else if |name| < i < |value| {
      assert value[i] == version[i - |name| - 1];
    } else if i == |name| {
      assert value[i + 1] == version[0];
    }
  }

  lemma LastOfVersion(name: string, version: string)
    requires IsWord(version)
    ensures EndsWith(name + (" " + version), ")") <==> EndsWith(version, ")")
  {
    var value := name + (" " + version);
    assert value[|value| - 1..] == version[|version| - 1..];
  }

  predicate IsBracketed(version: string) {
    StartsWith(version, "(") && EndsWith(version, ")")
  }

  lemma BracketedReadsAsSource(name: string, version: string)
    requires IsWord(name) && IsWord(version) && IsBracketed(version)
    ensures ParseDependency(name + (" " + version)) == Some(Dependency(name, None, Some(DropLast(version[1..]))))
  {
    var value := name + (" " + version);
    OnlyOpen(name, version, |name|);
    forall i | |name| < i ensures !StandsAt(OPEN, value, i) { OnlyOpen(name, version, i); }
    LastOpenIs(value, |name|);
    LastOfVersion(name, version);
    OneField(name);
    assert value[..|name|] == name && value[|name| + 2..] == version[1..];
  }

  lemma PlainReadsBack(name: string, version: string)
    requires IsWord(name) && IsWord(version) && !IsBracketed(version)
    ensures ParseDependency(name + (" " + version)) == Some(Dependency(name, Some(version), None))
  {
    var value := name + (" " + version);
    LastOfVersion(name, version);
    if version[0] != '(' {
      forall i: nat ensures !StandsAt(OPEN, value, i) { OnlyOpen(name, version, i); }
      NoOpen(value);
    } else {
      assert version[..1] == "(";
    }
    assert version + "" == version;
    TwoFields(name, version, "");
  }

  /** Where " (" stands in the part of a record that holds the source. */
  lemma SourceOpens(lead: string, source: string, i: nat)
    requires |lead| <= i
    ensures var value := lead + (" (" + (source + ")")); var start := |lead| + 2;
      StandsAt(OPEN, value, i) <==> i == |lead| || (start <= i && StandsAt(OPEN, source, i - start))
  {
    var value, start := lead + (" (" + (source + ")")), |lead| + 2;
    OpenAt(value, i);
    if start <= i {
      OpenAt(source, i - start);
      if i < start + |source| { assert value[i] == source[i - start]; }
      if i + 1 < start + |source| { assert value[i + 1] == source[i + 1 - start]; }
      if i + 1 == start + |source| { assert value[i + 1] == ')'; }
    } else if i == |lead| + 1 {
      assert value[i] == '(';
    }
  }

  lemma RestOfSource(lead: string, source: string, open: nat)
    requires |lead| <= open <= |lead| + |source|
    ensures var value := lead + (" (" + (source + ")"));
      DropLast(value[open + 2..]) == source[open - |lead|..]
  {
    var value := lead + (" (" + (source + ")"));
    var rest := value[open + 2..];
    assert |rest| == |source| - (open - |lead|) + 1;
    forall k | 0 <= k < |rest| - 1 ensures rest[k] == source[open - |lead| + k] {
      assert rest[k] == value[open + 2 + k];
    }
  }

  /** A record with a source keeps name and version, and of the source what follows its last " (". */
  lemma SourcedReadsBack(name: string, version: string, source: string)
    requires IsWord(name) && IsWord(version) && source != ""
    ensures var parsed := ParseDependency(name + (" " + (version + (" (" + (source + ")")))));
      parsed.Some? && parsed.value.name == name && parsed.value.version == Some(version) &&
      parsed.value.source.Some? && (parsed.value.source == Some(source) <==> !Occurs(OPEN, source))
  {
    var lead := name + (" " + version);
    var value := lead + (" (" + (source + ")"));
    assert value == name + (" " + (version + (" (" + (source + ")"))));
    SourceOpens(lead, source, |lead|);
    LastOpenMeans(value, |value|);
    var open := LastOpen(value).value;
    assert !(open < |lead|);
    assert value[|value| - 1..] == ")";
    assert value[..|lead|] == lead && value[|lead|] == ' ';
    BodyFields(name, version, value, open);
    ParsedAt(value, open);
    RestIsSource(lead, source, open);
  }

  lemma ParsedAt(value: string, open: nat)
    requires EndsWith(value, ")") && LastOpen(value) == Some(open) && |Fields(value[..open])| >= 2
    ensures var fields := Fields(value[..open]);
      ParseDependency(value) == Some(Dependency(fields[0], Some(fields[1]), Some(DropLast(value[open + 2..]))))
  {
  }

  lemma RestIsSource(lead: string, source: string, open: nat)
    requires |lead| <= open && StandsAt(OPEN, lead + (" (" + (source + ")")), open)
    requires forall i | open < i :: !StandsAt(OPEN, lead + (" (" + (source + ")")), i)
    ensures DropLast((lead + (" (" + (source + ")")))[open + 2..]) == source <==> !Occurs(OPEN, source)
  {
    LastInSource(lead, source, open);
    RestOfSource(lead, source, open);
    assert |source[open - |lead|..]| == |source| - (open - |lead|);
  }

  lemma LastInSource(lead: string, source: string, open: nat)
    requires |lead| <= open && StandsAt(OPEN, lead + (" (" + (source + ")")), open)
    requires forall i | open < i :: !StandsAt(OPEN, lead + (" (" + (source + ")")), i)
    ensures open == |lead| <==> !Occurs(OPEN, source)
    ensures open <= |lead| + |source|
  {
    SourceOpens(lead, source, open);
    if i :| 0 <= i <= |source| && StandsAt(OPEN, source, i) {
      SourceOpens(lead, source, |lead| + 2 + i);
      assert !(open < |lead| + 2 + i);
    }
  }

  lemma BodyFields(name: string, version: string, value: string, open: nat)
    requires IsWord(name) && IsWord(version)
    requires var lead := name + (" " + version);
      |lead| <= open <= |value| && value[..|lead|] == lead && value[|lead|..] != "" && value[|lead|] == ' '
    ensures var fields := Fields(value[..open]); |fields| >= 2 && fields[0] == name && fields[1] == version
  {
    var lead := name + (" " + version);
    var more := value[|lead|..open];
    assert value[..open] == lead + more == name + (" " + (version + more));
    if more != "" { assert more[0] == value[|lead|]; }
    TwoFields(name, version, more);
  }

  /** Parsing inverts the package id exactly for the keys that IsReadBack describes. */
  lemma ParseInvertsId(key: PackageKey)
    requires IsWord(key.name) && IsWord(key.version)
    ensures ParseDependency(PackageId(key)) == Some(Dependency(key.name, Some(key.version), key.source)) <==>
      IsReadBack(key)
  {
    if key.source.Some? && key.source.value != "" {
      SourcedReadsBack(key.name, key.version, key.source.value);
    } else {
      assert key.version + "" == key.version;
      if IsBracketed(key.version) {
        BracketedReadsAsSource(key.name, key.version);
      } else {
        PlainReadsBack(key.name, key.version);
      }
    }
  }

  const BRACKETED := PackageKey("serde", "(1.0)", None)
  const NESTED := PackageKey("serde", "1.0", Some("git (fork"))

  /** A version in brackets comes back as the source. */
  lemma BracketedVersionIsLost()
    ensures IsWord(BRACKETED.name) && IsWord(BRACKETED.version)
    ensures ParseDependency(PackageId(BRACKETED)) == Some(Dependency("serde", None, Some("1.0"))) &&
      !IsReadBack(BRACKETED)
  {
    var version := "(1.0)";
    assert version[..1] == "(" && version[|version| - 1..] == ")" && version + "" == version;
    BracketedReadsAsSource("serde", version);
    assert DropLast(version[1..]) == "1.0";
  }

  /** Of a source that holds " (" something is lost. */
  lemma NestedSourceIsLost()
    ensures IsWord(NESTED.name) && IsWord(NESTED.version)
    ensures ParseDependency(PackageId(NESTED)) != Some(Dependency("serde", Some("1.0"), Some("git (fork"))) &&
      !IsReadBack(NESTED)
  {
    assert "git (fork"[3..5] == OPEN && StandsAt(OPEN, "git (fork", 3);
    ParseInvertsId(NESTED);
  }

  // ----- the resolver

  datatype Raw = Text(value: string) | NotText

  /** One entry of the lockfile. */
  datatype Package = Package(key: PackageKey, dependencies: seq<Raw>, checksum: Option<string>)

  datatype Fault = Unsupported(owner: PackageKey) | Unresolved(owner: PackageKey, raw: Raw)

  type Graph = map<PackageKey, set<PackageKey>>

  datatype Resolution = Resolution(graph: Graph, errors: seq<Fault>) | EmptyRecord

  function KeysOf(packages: seq<Package>): (keys: seq<PackageKey>)
    ensures |keys| == |packages| && forall k | 0 <= k < |keys| :: keys[k] == packages[k].key
  {
    seq(|packages|, k requires 0 <= k < |packages| => packages[k].key)
  }

  function Named(keys: seq<PackageKey>, name: string): seq<PackageKey> {
    if keys == [] then []
    else Named(keys[..|keys| - 1], name) + if keys[|keys| - 1].name == name then [keys[|keys| - 1]] else []
  }

  predicate Suits(key: PackageKey, d: Dependency) {
    (d.version.Some? ==> key.version == d.version.value) && (d.source.Some? ==> key.source == d.source)
  }

  function Suiting(keys: seq<PackageKey>, d: Dependency): seq<PackageKey> {
    if keys == [] then []
    else Suiting(keys[..|keys| - 1], d) + if Suits(keys[|keys| - 1], d) then [keys[|keys| - 1]] else []
  }

  predicate Fits(key: PackageKey, d: Dependency) {
    key.name == d.name && Suits(key, d)
  }

  /** The locked packages that a record may mean. */
  function Candidates(keys: seq<PackageKey>, d: Dependency): seq<PackageKey> {
    Suiting(Named(keys, d.name), d)
  }

  /** What one record comes to: nothing that can be read, an error, or the one package it names. */
  datatype Meaning = Unreadable | Unsuitable | Ambiguous | Target(key: PackageKey)

  function MeaningOf(keys: seq<PackageKey>, raw: Raw): Meaning {
    if raw.NotText? then Unsuitable
    else if ParseDependency(raw.value).None? then Unreadable
    else
      var candidates := Candidates(keys, ParseDependency(raw.value).value);
      if |candidates| == 1 then Target(candidates[0]) else Ambiguous
  }

  type Resolver = Raw -> Meaning

  function ResolverOf(keys: seq<PackageKey>): Resolver {
    raw => MeaningOf(keys, raw)
  }

  /** The entry at `k`, and no other, fits. */
  predicate IsOnlyFit(keys: seq<PackageKey>, d: Dependency, k: int) {
    0 <= k < |keys| && forall j | 0 <= j < |keys| :: Fits(keys[j], d) <==> j == k
  }

  /** Exactly one entry of the lockfile fits the record. */
  predicate IsUniqueMatch(keys: seq<PackageKey>, raw: Raw, k: int) {
    raw.Text? && ParseDependency(raw.value).Some? && IsOnlyFit(keys, ParseDependency(raw.value).value, k)
  }

  lemma {:induction false} SuitingAdds(a: seq<PackageKey>, key: PackageKey, d: Dependency)
    ensures Suiting(a + [key], d) == Suiting(a, d) + if Suits(key, d) then [key] else []
  {
    assert (a + [key])[..|a|] == a;
  }

  lemma CandidatesAdd(keys: seq<PackageKey>, d: Dependency)
    requires keys != []
    ensures var last := keys[|keys| - 1];
      Candidates(keys, d) == Candidates(keys[..|keys| - 1], d) + if Fits(last, d) then [last] else []
  {
    var init, last := keys[..|keys| - 1], keys[|keys| - 1];
    if last.name == d.name {
      SuitingAdds(Named(init, d.name), last, d);
    } else {
      assert Named(keys, d.name) == Named(init, d.name);
    }
  }

  lemma {:induction false} NoCandidates(keys: seq<PackageKey>, d: Dependency)
    ensures Candidates(keys, d) == [] <==> forall j | 0 <= j < |keys| :: !Fits(keys[j], d)
  {
    if keys != [] {
      NoCandidates(keys[..|keys| - 1], d);
      CandidatesAdd(keys, d);
      assert forall j | 0 <= j < |keys| - 1 :: keys[..|keys| - 1][j] == keys[j];
    }
  }

  lemma {:induction false} OnlyFitIsCandidate(keys: seq<PackageKey>, d: Dependency, k: nat)
    requires IsOnlyFit(keys, d, k)
    ensures Candidates(keys, d) == [keys[k]]
  {
    var init, n := keys[..|keys| - 1], |keys| - 1;
    assert forall j | 0 <= j < n :: init[j] == keys[j];
    CandidatesAdd(keys, d);
    assert Fits(keys[n], d) <==> n == k;
    if k < n {
      OnlyFitIsCandidate(init, d, k);
    } else {
      assert forall j | 0 <= j < n :: !Fits(keys[j], d);
      NoCandidates(init, d);
    }
  }

  lemma {:induction false} CandidateIsOnlyFit(keys: seq<PackageKey>, d: Dependency) returns (k: nat)
    requires |Candidates(keys, d)| == 1
    ensures IsOnlyFit(keys, d, k)
  {
    var init, n := keys[..|keys| - 1], |keys| - 1;
    assert forall j | 0 <= j < n :: init[j] == keys[j];
    CandidatesAdd(keys, d);
    if Fits(keys[n], d) {
      k := n;
      NoCandidates(init, d);
      assert forall j | 0 <= j < n :: !Fits(init[j], d);
    } else {
      k := CandidateIsOnlyFit(init, d);
    }
  }

  /** A record resolves exactly when one entry of the lockfile fits it, and then to that entry. */
  lemma ResolvesUniquely(keys: seq<PackageKey>, raw: Raw)
    ensures MeaningOf(keys, raw).Target? <==> exists k :: IsUniqueMatch(keys, raw, k)
    ensures forall k | IsUniqueMatch(keys, raw, k) :: MeaningOf(keys, raw) == Target(keys[k])
  {
    if MeaningOf(keys, raw).Target? {
      var k := CandidateIsOnlyFit(keys, ParseDependency(raw.value).value);
      assert IsUniqueMatch(keys, raw, k);
    }
    forall k | IsUniqueMatch(keys, raw, k) ensures MeaningOf(keys, raw) == Target(keys[k]) {
      OnlyFitIsCandidate(keys, ParseDependency(raw.value).value, k);
    }
  }

  function Targets(resolve: Resolver, raws: seq<Raw>): set<PackageKey> {
    set k | 0 <= k < |raws| && resolve(raws[k]).Target? :: resolve(raws[k]).key
  }

  function FaultOf(owner: PackageKey, resolve: Resolver, raw: Raw): seq<Fault> {
    match resolve(raw)
    case Unsuitable => [Unsupported(owner)]
    case Ambiguous => [Unresolved(owner, raw)]
    case _ => []
  }

  function Faults(owner: PackageKey, resolve: Resolver, raws: seq<Raw>): seq<Fault> {
    if raws == [] then [] else Faults(owner, resolve, raws[..|raws| - 1]) + FaultOf(owner, resolve, raws[|raws| - 1])
  }

  function AllFaults(resolve: Resolver, packages: seq<Package>): seq<Fault> {
    if packages == [] then []
    else
      var last := packages[|packages| - 1];
      AllFaults(resolve, packages[..|packages| - 1]) + Faults(last.key, resolve, last.dependencies)
  }

  /** Of packages with one key, the last decides its entry. */
  function GraphOf(resolve: Resolver, packages: seq<Package>): Graph {
    if packages == [] then map[]
    else
      var last := packages[|packages| - 1];
      GraphOf(resolve, packages[..|packages| - 1])[last.key := Targets(resolve, last.dependencies)]
  }

  /** The graph of a lockfile, and the errors on the way to it. */
  function LockGraph(packages: seq<Package>): Graph {
    GraphOf(ResolverOf(KeysOf(packages)), packages)
  }

  function LockErrors(packages: seq<Package>): seq<Fault> {
    AllFaults(ResolverOf(KeysOf(packages)), packages)
  }

  predicate AllReadable(resolve: Resolver, raws: seq<Raw>) {
    forall k | 0 <= k < |raws| :: !resolve(raws[k]).Unreadable?
  }

  predicate AreReadable(packages: seq<Package>) {
    forall k | 0 <= k < |packages| :: AllReadable(ResolverOf(KeysOf(packages)), packages[k].dependencies)
  }

  function Get(byName: map<string, seq<PackageKey>>, name: string): seq<PackageKey> {
    if name in byName then byName[name] else []
  }

  method IndexByName(keys: seq<PackageKey>) returns (byName: map<string, seq<PackageKey>>)
    ensures forall name :: Get(byName, name) == Named(keys, name)
  {
    byName := map[];
    for k := 0 to |keys|
      invariant forall name :: Get(byName, name) == Named(keys[..k], name)
    {
      assert keys[..k + 1][..k] == keys[..k] && keys[..k + 1][k] == keys[k];
      byName := byName[keys[k].name := Get(byName, keys[k].name) + [keys[k]]];
    }
    assert keys[..|keys|] == keys;
  }

  /** One record against the index by name. */
  function Look(byName: map<string, seq<PackageKey>>, raw: Raw): Meaning {
    if raw.NotText? then Unsuitable
    else
      var d := ParseDependency(raw.value);
      if d.None? then Unreadable
      else
        var candidates := Suiting(Get(byName, d.value.name), d.value);
        if |candidates| == 1 then Target(candidates[0]) else Ambiguous
  }

  method ResolvePackage(owner: PackageKey, raws: seq<Raw>, resolve: Resolver)
    returns (ok: bool, resolved: set<PackageKey>, errors: seq<Fault>)
    ensures ok <==> AllReadable(resolve, raws)
    ensures ok ==> resolved == Targets(resolve, raws) && errors == Faults(owner, resolve, raws)
  {
    resolved, errors := {}, [];
    for k := 0 to |raws|
      invariant AllReadable(resolve, raws[..k])
      invariant resolved == Targets(resolve, raws[..k]) && errors == Faults(owner, resolve, raws[..k])
    {
      OneMoreRecord(owner, resolve, raws, k);
      match resolve(raws[k])
      case Unsuitable => errors := errors + [Unsupported(owner)];
      case Unreadable => return false, resolved, errors;
      case Ambiguous => errors := errors + [Unresolved(owner, raws[k])];
      case Target(key) => resolved := resolved + {key};
    }
    assert raws[..|raws|] == raws;
    ok := true;
  }

  lemma OneMoreRecord(owner: PackageKey, resolve: Resolver, raws: seq<Raw>, k: nat)
    requires k < |raws|
    ensures var one := resolve(raws[k]);
      Targets(resolve, raws[..k + 1]) == Targets(resolve, raws[..k]) + if one.Target? then {one.key} else {}
    ensures Faults(owner, resolve, raws[..k + 1]) ==
      Faults(owner, resolve, raws[..k]) + FaultOf(owner, resolve, raws[k])
  {
    var some, more := raws[..k], raws[..k + 1];
    assert more[..k] == some && more[k] == raws[k];
    assert forall j | 0 <= j < k :: more[j] == some[j];
  }

  lemma OneMorePackage(resolve: Resolver, packages: seq<Package>, k: nat)
    requires k < |packages|
    ensures var one := packages[k];
      GraphOf(resolve, packages[..k + 1]) ==
        GraphOf(resolve, packages[..k])[one.key := Targets(resolve, one.dependencies)] &&
      AllFaults(resolve, packages[..k + 1]) ==
        AllFaults(resolve, packages[..k]) + Faults(one.key, resolve, one.dependencies)
  {
    assert packages[..k + 1][..k] == packages[..k] && packages[..k + 1][k] == packages[k];
  }

  lemma {:induction false} SameResolver(a: Resolver, b: Resolver, packages: seq<Package>)
    requires forall raw :: a(raw) == b(raw)
    ensures GraphOf(a, packages) == GraphOf(b, packages) && AllFaults(a, packages) == AllFaults(b, packages)
    ensures forall k | 0 <= k < |packages| :: AllReadable(a, packages[k].dependencies) <==>
      AllReadable(b, packages[k].dependencies)
  {
    if packages != [] {
      var last := packages[|packages| - 1];
      SameResolver(a, b, packages[..|packages| - 1]);
      SameFaults(a, b, last.key, last.dependencies);
      assert Targets(a, last.dependencies) == Targets(b, last.dependencies);
      assert forall k | 0 <= k < |packages| - 1 :: packages[..|packages| - 1][k] == packages[k];
    }
  }

  lemma {:induction false} SameFaults(a: Resolver, b: Resolver, owner: PackageKey, raws: seq<Raw>)
    requires forall raw :: a(raw) == b(raw)
    ensures Faults(owner, a, raws) == Faults(owner, b, raws)
  {
    if raws != [] { SameFaults(a, b, owner, raws[..|raws| - 1]); }
  }

  method ResolveGraph(packages: seq<Package>) returns (r: Resolution)
    ensures r.EmptyRecord? <==> !AreReadable(packages)
    ensures r.Resolution? ==> r.graph == LockGraph(packages) && r.errors == LockErrors(packages)
  {
    var keys := KeysOf(packages);
    var byName := IndexByName(keys);
    var resolve: Resolver := raw => Look(byName, raw);
    r := ResolveAll(packages, resolve);
    SameResolver(resolve, ResolverOf(keys), packages);
  }

  method ResolveAll(packages: seq<Package>, resolve: Resolver) returns (r: Resolution)
    ensures r.EmptyRecord? <==> !forall k | 0 <= k < |packages| :: AllReadable(resolve, packages[k].dependencies)
    ensures r.Resolution? ==> r.graph == GraphOf(resolve, packages) && r.errors == AllFaults(resolve, packages)
  {
    var graph: Graph := map[];
    var errors: seq<Fault> := [];
    for k := 0 to |packages|
      invariant forall j | 0 <= j < k :: AllReadable(resolve, packages[j].dependencies)
      invariant graph == GraphOf(resolve, packages[..k]) && errors == AllFaults(resolve, packages[..k])
    {
      OneMorePackage(resolve, packages, k);
      var ok, resolved, faults := ResolvePackage(packages[k].key, packages[k].dependencies, resolve);
      if !ok {
        return EmptyRecord;
      }
      errors := errors + faults;
      graph := graph[packages[k].key := resolved];
    }
    assert packages[..|packages|] == packages;
    r := Resolution(graph, errors);
  }

  // ----- what no errors means

  ghost predicate MatchesOne(keys: seq<PackageKey>, raw: Raw) {
    exists j :: IsUniqueMatch(keys, raw, j)
  }

  ghost predicate PackageResolved(packages: seq<Package>, i: nat)
    requires i < |packages|
  {
    forall k | 0 <= k < |packages[i].dependencies| :: MatchesOne(KeysOf(packages), packages[i].dependencies[k])
  }

  /** Every record of every package fits exactly one locked package. */
  ghost predicate IsFullyResolved(packages: seq<Package>) {
    forall i | 0 <= i < |packages| :: PackageResolved(packages, i)
  }

  predicate ResolvesAll(resolve: Resolver, raws: seq<Raw>) {
    forall k | 0 <= k < |raws| :: resolve(raws[k]).Target?
  }

  lemma {:induction false} NoFaults(owner: PackageKey, resolve: Resolver, raws: seq<Raw>)
    ensures AllReadable(resolve, raws) && Faults(owner, resolve, raws) == [] <==> ResolvesAll(resolve, raws)
  {
    if raws != [] {
      var init := raws[..|raws| - 1];
      NoFaults(owner, resolve, init);
      assert forall k | 0 <= k < |init| :: init[k] == raws[k];
    }
  }

  lemma {:induction false} NoFaultsAtAll(resolve: Resolver, packages: seq<Package>)
    ensures AllFaults(resolve, packages) == [] <==>
      forall i | 0 <= i < |packages| :: Faults(packages[i].key, resolve, packages[i].dependencies) == []
  {
    if packages != [] {
      var init := packages[..|packages| - 1];
      var last := packages[|packages| - 1];
      NoFaultsAtAll(resolve, init);
      assert AllFaults(resolve, packages) == AllFaults(resolve, init) + Faults(last.key, resolve, last.dependencies);
      assert packages == init + [last];
      forall i | 0 <= i < |init| ensures packages[i] == init[i] {}
    }
  }

  lemma PackageMatches(packages: seq<Package>, i: nat)
    requires i < |packages|
    ensures ResolvesAll(ResolverOf(KeysOf(packages)), packages[i].dependencies) <==>
      forall k | 0 <= k < |packages[i].dependencies| :: MatchesOne(KeysOf(packages), packages[i].dependencies[k])
  {
    var keys, raws := KeysOf(packages), packages[i].dependencies;
    forall k | 0 <= k < |raws| ensures ResolverOf(keys)(raws[k]).Target? <==> MatchesOne(keys, raws[k]) {
      ResolvesUniquely(keys, raws[k]);
    }
  }

  /** The resolver is exact: it reads all and reports nothing when every record matches exactly one package. */
  lemma NoErrorsMeansUnique(packages: seq<Package>)
    ensures AreReadable(packages) && LockErrors(packages) == [] <==> IsFullyResolved(packages)
  {
    var resolve := ResolverOf(KeysOf(packages));
    NoFaultsAtAll(resolve, packages);
    forall i | 0 <= i < |packages|
      ensures ResolvesAll(resolve, packages[i].dependencies) <==>
        AllReadable(resolve, packages[i].dependencies) &&
        Faults(packages[i].key, resolve, packages[i].dependencies) == []
      ensures ResolvesAll(resolve, packages[i].dependencies) <==> PackageResolved(packages, i)
    {
      NoFaults(packages[i].key, resolve, packages[i].dependencies);
      PackageMatches(packages, i);
    }
  }

  lemma TargetIsLocked(keys: seq<PackageKey>, raws: seq<Raw>, target: PackageKey)
    requires target in Targets(ResolverOf(keys), raws)
    ensures target in keys
  {
    var k :| 0 <= k < |raws| && ResolverOf(keys)(raws[k]) == Target(target);
    ResolvesUniquely(keys, raws[k]);
    var j :| IsUniqueMatch(keys, raws[k], j);
  }

  lemma {:induction false} GraphNodes(resolve: Resolver, packages: seq<Package>)
    ensures GraphOf(resolve, packages).Keys == set k | 0 <= k < |packages| :: packages[k].key
  {
    if packages != [] {
      var init, last := packages[..|packages| - 1], packages[|packages| - 1];
      GraphNodes(resolve, init);
      assert packages[|init|] == last;
      assert forall k | 0 <= k < |init| :: packages[k] == init[k];
    }
  }

  lemma {:induction false} GraphTargets(keys: seq<PackageKey>, packages: seq<Package>, owner: PackageKey,
      target: PackageKey)
    requires owner in GraphOf(ResolverOf(keys), packages) && target in GraphOf(ResolverOf(keys), packages)[owner]
    ensures target in keys
  {
    var init, last := packages[..|packages| - 1], packages[|packages| - 1];
    if owner == last.key {
      TargetIsLocked(keys, last.dependencies, target);
    } else {
      GraphTargets(keys, init, owner, target);
    }
  }

  /** Errors or not, the graph has the locked keys for nodes and never leads out of them. */
  lemma GraphIsClosed(packages: seq<Package>)
    ensures forall key :: key in LockGraph(packages) <==> key in KeysOf(packages)
    ensures forall owner, target | owner in LockGraph(packages) && target in LockGraph(packages)[owner] ::
      target in KeysOf(packages)
  {
    GraphNodes(ResolverOf(KeysOf(packages)), packages);
    forall key ensures key in LockGraph(packages) <==> key in KeysOf(packages) {
      if key in KeysOf(packages) {
        var k :| 0 <= k < |packages| && KeysOf(packages)[k] == key;
        assert packages[k].key == key;
      }
    }
    forall owner, target | owner in LockGraph(packages) && target in LockGraph(packages)[owner]
      ensures target in KeysOf(packages)
    {
      GraphTargets(KeysOf(packages), packages, owner, target);
    }
  }

  /** With distinct keys, a package's node holds exactly what its own records resolve to. */
  lemma {:induction false} NodeIsOwnTargets(resolve: Resolver, packages: seq<Package>, i: nat)
    requires i < |packages| && Distinct(KeysOf(packages))
    ensures packages[i].key in GraphOf(resolve, packages)
    ensures GraphOf(resolve, packages)[packages[i].key] == Targets(resolve, packages[i].dependencies)
  {
    var init := packages[..|packages| - 1];
    assert forall k | 0 <= k < |init| :: KeysOf(packages)[k] == KeysOf(init)[k] == packages[k].key;
    if i < |init| {
      NodeIsOwnTargets(resolve, init, i);
      assert init[i].key == KeysOf(packages)[i] != KeysOf(packages)[|init|];
    }
  }

  /** The `m`-th package, and no other, has the name, and the version and source where the record gives them. */
  predicate IsMeant(packages: seq<Package>, d: Dependency, m: int) {
    0 <= m < |packages| &&
    forall j | 0 <= j < |packages| ::
      (packages[j].key.name == d.name && d.version in {None, Some(packages[j].key.version)} &&
       d.source in {None, packages[j].key.source}) <==> j == m
  }

  predicate LeadsTo(packages: seq<Package>, raw: Raw, m: int) {
    raw.Text? && ParseDependency(raw.value).Some? && IsMeant(packages, ParseDependency(raw.value).value, m)
  }

  lemma MeantIsMatched(packages: seq<Package>, raw: Raw, m: int)
    ensures LeadsTo(packages, raw, m) <==> IsUniqueMatch(KeysOf(packages), raw, m)
  {
    if raw.Text? && ParseDependency(raw.value).Some? {
      var d := ParseDependency(raw.value).value;
      forall j | 0 <= j < |packages|
        ensures Fits(KeysOf(packages)[j], d) <==>
          packages[j].key.name == d.name && d.version in {None, Some(packages[j].key.version)} &&
          d.source in {None, packages[j].key.source} {
      }
    }
  }

  /** With distinct keys, a package leads exactly to the packages that its records mean, told by the lockfile alone. */
  lemma NodeIsMeant(packages: seq<Package>, i: nat, target: PackageKey)
    requires i < |packages| && Distinct(KeysOf(packages))
    ensures packages[i].key in LockGraph(packages)
    ensures target in LockGraph(packages)[packages[i].key] <==>
      exists r, m | 0 <= r < |packages[i].dependencies| ::
        LeadsTo(packages, packages[i].dependencies[r], m) && packages[m].key == target
  {
    var keys, raws := KeysOf(packages), packages[i].dependencies;
    NodeIsOwnTargets(ResolverOf(keys), packages, i);
    if target in Targets(ResolverOf(keys), raws) {
      var r :| 0 <= r < |raws| && MeaningOf(keys, raws[r]) == Target(target);
      ResolvesUniquely(keys, raws[r]);
      var m :| IsUniqueMatch(keys, raws[r], m);
      MeantIsMatched(packages, raws[r], m);
    }
    if r, m :| 0 <= r < |raws| && LeadsTo(packages, raws[r], m) && packages[m].key == target {
      MeantIsMatched(packages, raws[r], m);
      ResolvesUniquely(keys, raws[r]);
      assert ResolverOf(keys)(raws[r]) == Target(target);
    }
  }

  /** A record that is a bare name asks for nothing else. */
  lemma NameReadsBack(name: string)
    requires IsWord(name)
    ensures ParseDependency(name) == Some(Dependency(name, None, None))
  {
    forall i: nat ensures !StandsAt(OPEN, name, i) { OpenAt(name, i); }
    NoOpen(name);
    OneField(name);
  }

  /** The record that a package id spells resolves to the very key it was made of. */
  lemma FullRecordResolves(keys: seq<PackageKey>, k: nat)
    requires k < |keys| && Distinct(keys)
    requires IsWord(keys[k].name) && IsWord(keys[k].version) && keys[k].source.Some? && IsReadBack(keys[k])
    ensures MeaningOf(keys, Text(PackageId(keys[k]))) == Target(keys[k])
  {
    ParseInvertsId(keys[k]);
    ResolvesUniquely(keys, Text(PackageId(keys[k])));
    assert IsUniqueMatch(keys, Text(PackageId(keys[k])), k);
  }

  predicate SharesVersion(a: PackageKey, b: PackageKey) {
    a.name == b.name && a.version == b.version
  }

  /** Without a source, the record resolves to its key exactly when no other key has that name and version. */
  lemma ShortRecordResolves(keys: seq<PackageKey>, k: nat)
    requires k < |keys| && IsWord(keys[k].name) && IsWord(keys[k].version) && keys[k].source.None? &&
      IsReadBack(keys[k])
    ensures MeaningOf(keys, Text(PackageId(keys[k]))) == Target(keys[k]) <==>
      forall j | 0 <= j < |keys| && j != k :: !SharesVersion(keys[j], keys[k])
  {
    var raw := Text(PackageId(keys[k]));
    ParseInvertsId(keys[k]);
    ResolvesUniquely(keys, raw);
    var d := ParseDependency(raw.value).value;
    assert forall j | 0 <= j < |keys| :: Fits(keys[j], d) <==> SharesVersion(keys[j], keys[k]);
    if forall j | 0 <= j < |keys| && j != k :: !SharesVersion(keys[j], keys[k]) {
      assert IsUniqueMatch(keys, raw, k);
    }
  }
}
