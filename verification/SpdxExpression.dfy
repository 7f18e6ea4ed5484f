/**
 Licence expressions in the shape of Annex D of the SPDX Specification 2.3: the tokeniser and the
 recursive-descent recogniser of valid_spdx_expression, against the grammar they stand for.
 */
module SpdxExpression {
  import opened Common

  datatype Token = LeftParen | RightParen | And | Or | With | Id(text: string)

  // ----- the grammar: E = A ((AND|OR) A)*, A = id | id WITH id | ( E )

  datatype Expr = Single(atom: Atom) | Chain(left: Expr, isAnd: bool, right: Atom)
  datatype Atom = Plain(id: string) | Excepted(id: string, exception: string) | Grouped(inner: Expr)

  function Operator(isAnd: bool): Token {
    if isAnd then And else Or
  }

  function Flatten(e: Expr): (tokens: seq<Token>)
    ensures tokens != []
  {
    match e
    case Single(atom) => FlattenAtom(atom)
    case Chain(left, isAnd, right) => Flatten(left) + [Operator(isAnd)] + FlattenAtom(right)
  }

  function FlattenAtom(a: Atom): (tokens: seq<Token>)
    ensures tokens != []
  {
    match a
    case Plain(id) => [Id(id)]
    case Excepted(id, exception) => [Id(id), With, Id(exception)]
    case Grouped(inner) => [LeftParen] + Flatten(inner) + [RightParen]
  }

  ghost predicate Derives(tokens: seq<Token>) {
    exists e: Expr :: Flatten(e) == tokens
  }

  // ----- the recogniser as a function: success, and how far the shared index moved

  datatype Progress = Progress(ok: bool, next: nat)

  function AtomAt(tokens: seq<Token>, i: nat): (p: Progress)
    requires i <= |tokens|
    ensures i <= p.next <= |tokens| && (p.ok ==> i < p.next)
    decreases |tokens| - i, 0
  {
    if i >= |tokens| then Progress(false, i)
    else if tokens[i] == LeftParen then
      var inner := ExpressionAt(tokens, i + 1);
      if !inner.ok || inner.next >= |tokens| || tokens[inner.next] != RightParen then Progress(false, inner.next)
      else Progress(true, inner.next + 1)
    else if !tokens[i].Id? then Progress(false, i)
    else if i + 1 < |tokens| && tokens[i + 1] == With then
      if i + 2 >= |tokens| || !tokens[i + 2].Id? then Progress(false, i + 2) else Progress(true, i + 3)
    else Progress(true, i + 1)
  }

  function ExpressionAt(tokens: seq<Token>, i: nat): (p: Progress)
    requires i <= |tokens|
    ensures i <= p.next <= |tokens| && (p.ok ==> i < p.next)
    decreases |tokens| - i, 1
  {
    var first := AtomAt(tokens, i);
    if !first.ok then first else MoreAt(tokens, first.next)
  }

  /** The while loop of expression(): operators and atoms as long as there are any. */
  function MoreAt(tokens: seq<Token>, i: nat): (p: Progress)
    requires i <= |tokens|
    ensures i <= p.next <= |tokens|
    decreases |tokens| - i, 2
  {
    if i >= |tokens| || (tokens[i] != And && tokens[i] != Or) then Progress(true, i)
    else
      var atom := AtomAt(tokens, i + 1);
      if !atom.ok then atom else MoreAt(tokens, atom.next)
  }

  predicate Recognised(tokens: seq<Token>) {
    tokens != [] && ExpressionAt(tokens, 0) == Progress(true, |tokens|)
  }

  // ----- the recogniser itself: nested procedures over a shared index

  class Recogniser {
    const tokens: seq<Token>
    var index: nat

    ghost predicate Valid()
      reads this
    {
      index <= |tokens|
    }

    constructor (tokens: seq<Token>)
      ensures Valid() && this.tokens == tokens && index == 0
    {
      this.tokens, this.index := tokens, 0;
    }

    method ParseAtom() returns (ok: bool)
      requires Valid()
      modifies this
      ensures Valid() && Progress(ok, index) == AtomAt(tokens, old(index))
      decreases |tokens| - index, 0
    {
      if index >= |tokens| {
        return false;
      }
      if tokens[index] == LeftParen {
        index := index + 1;
        var inner := ParseExpression();
        if !inner || index >= |tokens| || tokens[index] != RightParen {
          return false;
        }
        index := index + 1;
        return true;
      }
      if !tokens[index].Id? {
        return false;
      }
      index := index + 1;
      if index < |tokens| && tokens[index] == With {
        index := index + 1;
        if index >= |tokens| || !tokens[index].Id? {
          return false;
        }
        index := index + 1;
      }
      ok := true;
    }

    method ParseExpression() returns (ok: bool)
      requires Valid()
      modifies this
      ensures Valid() && Progress(ok, index) == ExpressionAt(tokens, old(index))
      decreases |tokens| - index, 1
    {
      ok := ParseAtom();
      if !ok {
        return false;
      }
      ghost var first := index;
      while index < |tokens| && (tokens[index] == And || tokens[index] == Or)
        invariant Valid() && old(index) < index && first <= index
        invariant MoreAt(tokens, first) == MoreAt(tokens, index)
        decreases |tokens| - index
      {
        index := index + 1;
        var atom := ParseAtom();
        if !atom {
          return false;
        }
      }
      ok := true;
    }
  }

  method Recognise(tokens: seq<Token>) returns (ok: bool)
    ensures ok <==> Derives(tokens)
  {
    RecognisedIsDerived(tokens);
    if tokens == [] {
      return false;
    }
    var recogniser := new Recogniser(tokens);
    ok := recogniser.ParseExpression();
    ok := ok && recogniser.index == |tokens|;
  }

  // ----- sound: whatever is consumed derives from the grammar

  lemma {:induction false} AtomIsDerived(tokens: seq<Token>, i: nat) returns (a: Atom)
    requires i <= |tokens| && AtomAt(tokens, i).ok
    ensures FlattenAtom(a) == tokens[i..AtomAt(tokens, i).next]
    decreases |tokens| - i, 0
  {
    var next := AtomAt(tokens, i).next;
    if tokens[i] == LeftParen {
      var inner := ExpressionIsDerived(tokens, i + 1);
      a := Grouped(inner);
      assert tokens[i..next] == [LeftParen] + tokens[i + 1..next - 1] + [RightParen];
    } else if i + 1 < |tokens| && tokens[i + 1] == With {
      a := Excepted(tokens[i].text, tokens[i + 2].text);
    } else {
      a := Plain(tokens[i].text);
    }
  }

  lemma {:induction false} ExpressionIsDerived(tokens: seq<Token>, i: nat) returns (e: Expr)
    requires i <= |tokens| && ExpressionAt(tokens, i).ok
    ensures Flatten(e) == tokens[i..ExpressionAt(tokens, i).next]
    decreases |tokens| - i, 1
  {
    var first := AtomIsDerived(tokens, i);
    e := MoreIsDerived(tokens, i, AtomAt(tokens, i).next, Single(first));
  }

  lemma {:induction false} MoreIsDerived(tokens: seq<Token>, start: nat, i: nat, sofar: Expr) returns (e: Expr)
    requires start < i <= |tokens| && Flatten(sofar) == tokens[start..i] && MoreAt(tokens, i).ok
    ensures Flatten(e) == tokens[start..MoreAt(tokens, i).next]
    decreases |tokens| - i, 2
  {
    if i >= |tokens| || (tokens[i] != And && tokens[i] != Or) {
      e := sofar;
    } else {
      var atom := AtomIsDerived(tokens, i + 1);
      var next := AtomAt(tokens, i + 1).next;
      var more := Chain(sofar, tokens[i] == And, atom);
      JoinAround(tokens, start, i, next);
      e := MoreIsDerived(tokens, start, next, more);
    }
  }

  lemma JoinAround(tokens: seq<Token>, start: nat, i: nat, next: nat)
    requires start <= i < next <= |tokens|
    ensures tokens[start..i] + [tokens[i]] + tokens[i + 1..next] == tokens[start..next]
  {
    var joined := tokens[start..i] + [tokens[i]] + tokens[i + 1..next];
    assert |joined| == next - start;
    forall k | 0 <= k < next - start ensures joined[k] == tokens[start + k] {
      if k > i - start { assert joined[k] == tokens[i + 1..next][k - (i - start) - 1]; }
    }
  }

  // ----- complete: every derivation is consumed

  /** `part` is the run of tokens that starts at `i`. */
  predicate Spells(part: seq<Token>, tokens: seq<Token>, i: nat) {
    i + |part| <= |tokens| && forall k | 0 <= k < |part| :: tokens[i + k] == part[k]
  }

  lemma SplitSpelling(a: seq<Token>, b: seq<Token>, tokens: seq<Token>, i: nat)
    requires Spells(a + b, tokens, i)
    ensures Spells(a, tokens, i) && Spells(b, tokens, i + |a|)
  {
    assert forall k | 0 <= k < |a| :: (a + b)[k] == a[k];
    forall k | 0 <= k < |b| ensures tokens[i + |a| + k] == b[k] { assert (a + b)[|a| + k] == b[k]; }
  }

  lemma {:induction false} AtomIsConsumed(a: Atom, tokens: seq<Token>, i: nat)
    requires Spells(FlattenAtom(a), tokens, i)
    requires var end := i + |FlattenAtom(a)|; a.Plain? && end < |tokens| ==> tokens[end] != With
    ensures AtomAt(tokens, i) == Progress(true, i + |FlattenAtom(a)|)
    decreases a, 0
  {
    match a
    case Plain(id) =>
      var part := [Id(id)];
      assert tokens[i + 0] == part[0];
    case Excepted(id, exception) =>
      var part := [Id(id), With, Id(exception)];
      assert tokens[i + 0] == part[0] && tokens[i + 1] == part[1] && tokens[i + 2] == part[2];
    case Grouped(inner) =>
      GroupStands(inner, tokens, i);
      ExpressionIsConsumed(inner, tokens, i + 1);
  }

  lemma GroupStands(inner: Expr, tokens: seq<Token>, i: nat)
    requires Spells(FlattenAtom(Grouped(inner)), tokens, i)
    ensures var close := i + 1 + |Flatten(inner)|;
      close < |tokens| && tokens[i] == LeftParen && tokens[close] == RightParen &&
      Spells(Flatten(inner), tokens, i + 1) && |FlattenAtom(Grouped(inner))| == |Flatten(inner)| + 2
  {
    var body := Flatten(inner);
    assert FlattenAtom(Grouped(inner)) == [LeftParen] + (body + [RightParen]);
    SplitSpelling([LeftParen], body + [RightParen], tokens, i);
    SplitSpelling(body, [RightParen], tokens, i + 1);
    assert tokens[i + 0] == [LeftParen][0] && tokens[i + 1 + |body| + 0] == [RightParen][0];
  }

  lemma ChainStands(left: Expr, isAnd: bool, right: Atom, tokens: seq<Token>, i: nat) returns (at: nat, next: nat)
    requires Spells(Flatten(Chain(left, isAnd, right)), tokens, i)
    ensures at == i + |Flatten(left)| &&
      next == at + 1 + |FlattenAtom(right)| == i + |Flatten(Chain(left, isAnd, right))|
    ensures Spells(Flatten(left), tokens, i) && Spells(FlattenAtom(right), tokens, at + 1)
    ensures at < next <= |tokens| && tokens[at] == Operator(isAnd)
  {
    var before, after := Flatten(left), FlattenAtom(right);
    var op := [Operator(isAnd)];
    assert Flatten(Chain(left, isAnd, right)) == before + (op + after);
    SplitSpelling(before, op + after, tokens, i);
    SplitSpelling(op, after, tokens, i + |before|);
    assert tokens[i + |before| + 0] == op[0];
    at := i + |before|;
    next := at + 1 + |after|;
  }

  lemma {:induction false} ExpressionIsConsumed(e: Expr, tokens: seq<Token>, i: nat)
    requires Spells(Flatten(e), tokens, i)
    requires var end := i + |Flatten(e)|; end < |tokens| ==> tokens[end] != With
    ensures ExpressionAt(tokens, i) == MoreAt(tokens, i + |Flatten(e)|)
    decreases e, 1
  {
    match e
    case Single(atom) => AtomIsConsumed(atom, tokens, i);
    case Chain(left, isAnd, right) =>
      var at, next := ChainStands(left, isAnd, right, tokens, i);
      ExpressionIsConsumed(left, tokens, i);
      AtomIsConsumed(right, tokens, at + 1);
      MoreStep(tokens, at, next);
  }

  lemma MoreStep(tokens: seq<Token>, at: nat, next: nat)
    requires at < |tokens| && (tokens[at] == And || tokens[at] == Or) && at < next <= |tokens|
    requires AtomAt(tokens, at + 1) == Progress(true, next)
    ensures MoreAt(tokens, at) == MoreAt(tokens, next)
  {
  }

  /** The recogniser is exact: it consumes a whole token list if and only if the list derives from E. */
  lemma RecognisedIsDerived(tokens: seq<Token>)
    ensures Recognised(tokens) <==> Derives(tokens)
  {
    if Recognised(tokens) {
      var e := ExpressionIsDerived(tokens, 0);
      assert Flatten(e) == tokens[0..|tokens|] == tokens;
    }
    if Derives(tokens) {
      var e: Expr :| Flatten(e) == tokens;
      ExpressionIsConsumed(e, tokens, 0);
    }
  }

  // ----- the tokeniser

  predicate IsAlnum(c: char) {
    'a' <= c <= 'z' || 'A' <= c <= 'Z' || '0' <= c <= '9'
  }

  predicate IsIdChar(c: char) {
    IsAlnum(c) || c == '.' || c == '+' || c == '-'
  }

  /** A character that \b does not break after a letter; letters beyond ASCII count as words. */
  predicate IsWord(c: char) {
    IsAlnum(c) || c == '_' || (c >= '\U{0080}' && !IsSpace(c))
  }

  function SkipSpaces(value: string, i: nat): (j: nat)
    requires i <= |value|
    ensures i <= j <= |value| && (j < |value| ==> !IsSpace(value[j])) && (i < |value| && !IsSpace(value[i]) ==> j == i)
    decreases |value| - i
  {
    if i < |value| && IsSpace(value[i]) then SkipSpaces(value, i + 1) else i
  }

  function IdEnd(value: string, i: nat): (j: nat)
    requires i <= |value|
    ensures i <= j <= |value| && (forall k | i <= k < j :: IsIdChar(value[k])) && (j < |value| ==> !IsIdChar(value[j]))
    decreases |value| - i
  {
    if i < |value| && IsIdChar(value[i]) then IdEnd(value, i + 1) else i
  }

  predicate IsKeywordAt(word: string, value: string, i: nat) {
    StandsAt(word, value, i) && (i + |word| < |value| ==> !IsWord(value[i + |word|]))
  }

  function Classify(text: string): Token {
    if text == "AND" then And else if text == "OR" then Or else if text == "WITH" then With else Id(text)
  }

  datatype Scan = Scan(token: Token, next: nat)

  /** One match of the token pattern, alternatives tried in order. */
  function ScanAt(value: string, i: nat): (scan: Option<Scan>)
    requires i <= |value|
    ensures scan.Some? ==> i < scan.value.next <= |value|
  {
    var at := SkipSpaces(value, i);
    if at >= |value| then None
    else if value[at] == '(' then Some(Scan(LeftParen, at + 1))
    else if value[at] == ')' then Some(Scan(RightParen, at + 1))
    else if IsKeywordAt("AND", value, at) then Some(Scan(And, at + 3))
    else if IsKeywordAt("OR", value, at) then Some(Scan(Or, at + 2))
    else if IsKeywordAt("WITH", value, at) then Some(Scan(With, at + 4))
    else if IsAlnum(value[at]) then
      var end := IdEnd(value, at);
      Some(Scan(Classify(value[at..end]), end))
    else None
  }

  function TokensFrom(value: string, i: nat): (tokens: Option<seq<Token>>)
    requires i <= |value|
    decreases |value| - i
  {
    if i == |value| then Some([])
    else
      var scan := ScanAt(value, i);
      if scan.None? then None
      else
        var rest := TokensFrom(value, scan.value.next);
        if rest.None? then None else Some([scan.value.token] + rest.value)
  }

  ghost predicate IsExpression(value: string) {
    TokensFrom(value, 0).Some? && Derives(TokensFrom(value, 0).value)
  }

  /** What the whole value tokenises to, when `tokens` are read and `position` is reached. */
  function Ahead(value: string, position: nat, tokens: seq<Token>): Option<seq<Token>>
    requires position <= |value|
  {
    var rest := TokensFrom(value, position);
    if rest.None? then None else Some(tokens + rest.value)
  }

  lemma AheadStep(value: string, position: nat, tokens: seq<Token>)
    requires position < |value|
    ensures var scan := ScanAt(value, position);
      Ahead(value, position, tokens) ==
      if scan.None? then None else Ahead(value, scan.value.next, tokens + [scan.value.token])
  {
    var scan := ScanAt(value, position);
    if scan.Some? && TokensFrom(value, scan.value.next).Some? {
      var rest := TokensFrom(value, scan.value.next).value;
      assert tokens + ([scan.value.token] + rest) == tokens + [scan.value.token] + rest;
    }
  }

  lemma AheadEnds(value: string, tokens: seq<Token>)
    ensures Ahead(value, |value|, tokens) == Some(tokens) && Ahead(value, 0, []) == TokensFrom(value, 0)
  {
    assert tokens + [] == tokens;
    if TokensFrom(value, 0).Some? { assert [] + TokensFrom(value, 0).value == TokensFrom(value, 0).value; }
  }

  method ValidSpdxExpression(value: string) returns (ok: bool)
    ensures ok <==> IsExpression(value)
  {
    var position := 0;
    var tokens: seq<Token> := [];
    AheadEnds(value, []);
    while position < |value|
      invariant 0 <= position <= |value|
      invariant Ahead(value, position, tokens) == TokensFrom(value, 0)
      decreases |value| - position
    {
      AheadStep(value, position, tokens);
      var scan := ScanAt(value, position);
      if scan.None? {
        return false;
      }
      tokens := tokens + [scan.value.token];
      position := scan.value.next;
    }
    AheadEnds(value, tokens);
    ok := Recognise(tokens);
  }

  // ----- every tree, printed with single spaces, is accepted

  function TextOf(token: Token): string {
    match token
    case LeftParen => "("
    case RightParen => ")"
    case And => "AND"
    case Or => "OR"
    case With => "WITH"
    case Id(text) => text
  }

  function Print(tokens: seq<Token>): string {
    if tokens == [] then ""
    else if |tokens| == 1 then TextOf(tokens[0])
    else TextOf(tokens[0]) + " " + Print(tokens[1..])
  }

  /** `word` opens the identifier and a full stop, plus or minus follows, so \b would split it. */
  predicate LedBy(word: string, text: string) {
    |word| < |text| && text[..|word|] == word && !IsAlnum(text[|word|])
  }

  /** An identifier the tokeniser gives back whole. */
  predicate IsProperId(text: string) {
    text != "" && IsAlnum(text[0]) && (forall k | 0 <= k < |text| :: IsIdChar(text[k])) &&
    text != "AND" && text != "OR" && text != "WITH" && !LedBy("AND", text) && !LedBy("OR", text) && !LedBy("WITH", text)
  }

  predicate IsProper(token: Token) {
    token.Id? ==> IsProperId(token.text)
  }

  lemma IdEndIs(value: string, i: nat, j: nat)
    requires i <= j <= |value| && (forall k | i <= k < j :: IsIdChar(value[k])) && (j < |value| ==> !IsIdChar(value[j]))
    ensures IdEnd(value, i) == j
    decreases j - i
  {
    if i < j { IdEndIs(value, i + 1, j); }
  }

  lemma StandsChars(word: string, value: string, i: nat)
    requires StandsAt(word, value, i)
    ensures forall k | 0 <= k < |word| :: value[i + k] == word[k]
  {
    forall k | 0 <= k < |word| ensures value[i + k] == word[k] { assert value[i..i + |word|][k] == value[i + k]; }
  }

  /** No keyword is found at a proper identifier. */
  lemma NoKeywordInId(word: string, text: string, value: string, i: nat)
    requires word == "AND" || word == "OR" || word == "WITH"
    requires IsProperId(text) && StandsAt(text, value, i) && (i + |text| < |value| ==> value[i + |text|] == ' ')
    ensures !IsKeywordAt(word, value, i)
  {
    StandsChars(text, value, i);
    if StandsAt(word, value, i) {
      StandsChars(word, value, i);
      if |word| < |text| {
        assert text[..|word|] == word;
        assert value[i + |word|] == text[|word|];
      } else if |word| == |text| {
        SameStand(word, text, value, i);
      }
    }
  }

  lemma SameStand(word: string, text: string, value: string, i: nat)
    requires StandsAt(word, value, i) && StandsAt(text, value, i) && |word| == |text|
    ensures word == text
  {
  }

  lemma IdScansBack(text: string, value: string, i: nat)
    requires IsProperId(text) && StandsAt(text, value, i) && (i + |text| < |value| ==> value[i + |text|] == ' ')
    ensures SkipSpaces(value, i) == i && ScanAt(value, i) == Some(Scan(Id(text), i + |text|))
  {
    StandsChars(text, value, i);
    assert value[i + 0] == text[0];
    NoKeywordInId("AND", text, value, i);
    NoKeywordInId("OR", text, value, i);
    NoKeywordInId("WITH", text, value, i);
    forall k | i <= k < i + |text| ensures IsIdChar(value[k]) { assert value[i + (k - i)] == text[k - i]; }
    IdEndIs(value, i, i + |text|);
  }

  lemma NotStanding(word: string, value: string, i: nat)
    requires word != "" && i < |value| && value[i] != word[0]
    ensures !StandsAt(word, value, i)
  {
    if StandsAt(word, value, i) { StandsChars(word, value, i); }
  }

  lemma KeywordScansBack(word: string, value: string, i: nat)
    requires word == "AND" || word == "OR" || word == "WITH"
    requires StandsAt(word, value, i) && (i + |word| < |value| ==> value[i + |word|] == ' ')
    ensures SkipSpaces(value, i) == i && ScanAt(value, i) == Some(Scan(Classify(word), i + |word|))
  {
    StandsChars(word, value, i);
    assert value[i + 0] == word[0];
    if word != "AND" { NotStanding("AND", value, i); }
    if word == "WITH" { NotStanding("OR", value, i); }
  }

  lemma ParenthesisScansBack(token: Token, value: string, i: nat)
    requires token == LeftParen || token == RightParen
    requires StandsAt(TextOf(token), value, i)
    ensures SkipSpaces(value, i) == i && ScanAt(value, i) == Some(Scan(token, i + 1))
  {
    StandsChars(TextOf(token), value, i);
    assert value[i + 0] == TextOf(token)[0];
  }

  /** A proper token followed by a space or the end is scanned back as itself. */
  lemma TokenScansBack(token: Token, value: string, i: nat)
    requires IsProper(token) && StandsAt(TextOf(token), value, i)
    requires var end := i + |TextOf(token)|; end < |value| ==> value[end] == ' '
    ensures i <= |value| && SkipSpaces(value, i) == i && ScanAt(value, i) == Some(Scan(token, i + |TextOf(token)|))
  {
    match token
    case Id(text) => IdScansBack(text, value, i);
    case And => KeywordScansBack("AND", value, i);
    case Or => KeywordScansBack("OR", value, i);
    case With => KeywordScansBack("WITH", value, i);
    case LeftParen => ParenthesisScansBack(token, value, i);
    case RightParen => ParenthesisScansBack(token, value, i);
  }

  lemma PrintHead(tokens: seq<Token>)
    requires tokens != []
    ensures Print(tokens) == TextOf(tokens[0]) + Tail(tokens)
  {
  }

  lemma Slices(value: string, i: nat, lead: string, text: string, tail: string)
    requires i <= |value| && value[i..] == lead + (text + tail)
    ensures var at := i + |lead|; var next := at + |text|;
      at <= next <= |value| && StandsAt(text, value, at) && value[next..] == tail &&
      (lead != "" ==> value[i] == lead[0]) && (tail != "" ==> next < |value| && value[next] == tail[0])
  {
    var at := i + |lead|;
    var next := at + |text|;
    assert |value[i..]| == |lead| + |text| + |tail|;
    assert value[at..] == value[i..][|lead|..] == text + tail;
    assert value[at..next] == value[at..][..|text|] == text;
    assert value[next..] == value[at..][|text|..] == tail;
    if lead != "" { assert value[i] == value[i..][0]; }
    if tail != "" { assert value[next] == value[next..][0]; }
  }

  lemma ScanAfterSpace(value: string, i: nat)
    requires i < |value| && value[i] == ' '
    ensures ScanAt(value, i) == ScanAt(value, i + 1)
  {
    assert SkipSpaces(value, i) == SkipSpaces(value, i + 1);
  }

  // ----- and no other tree is: a keyword in the place of an identifier is read as that keyword, and
  // an identifier opened by a keyword falls apart into the keyword and something that is no token

  /** An identifier as the last alternative of the token pattern spells it. */
  predicate IsShaped(token: Token) {
    token.Id? ==>
      token.text != "" && IsAlnum(token.text[0]) && forall k | 0 <= k < |token.text| :: IsIdChar(token.text[k])
  }

  predicate IsLed(token: Token) {
    token.Id? && (LedBy("AND", token.text) || LedBy("OR", token.text) || LedBy("WITH", token.text))
  }

  function ReadBack(token: Token): Token {
    if token.Id? then Classify(token.text) else token
  }

  /** What printed tokens tokenise to. */
  function Scanned(tokens: seq<Token>): Option<seq<Token>> {
    if tokens == [] then Some([])
    else if IsLed(tokens[0]) then None
    else
      var rest := Scanned(tokens[1..]);
      if rest.None? then None else Some([ReadBack(tokens[0])] + rest.value)
  }

  lemma LedScansAsKeyword(word: string, text: string, value: string, i: nat)
    requires word == "AND" || word == "OR" || word == "WITH"
    requires LedBy(word, text) && IsShaped(Id(text)) && StandsAt(text, value, i)
    ensures TokensFrom(value, i).None?
  {
    StandsChars(text, value, i);
    assert value[i + 0] == text[0];
    assert value[i..i + |word|] == value[i..i + |text|][..|word|] == word;
    assert StandsAt(word, value, i);
    StandsChars(word, value, i);
    assert value[i + 0] == word[0];
    var after := i + |word|;
    assert value[after] == text[|word|] && IsIdChar(text[|word|]);
    if word != "AND" { NotStanding("AND", value, i); }
    if word == "WITH" { NotStanding("OR", value, i); }
    assert ScanAt(value, i) == Some(Scan(Classify(word), after));
    NotStanding("AND", value, after);
    NotStanding("OR", value, after);
    NotStanding("WITH", value, after);
    assert ScanAt(value, after).None?;
  }

  lemma ShapedReads(token: Token, value: string, i: nat)
    requires IsShaped(token) && StandsAt(TextOf(token), value, i)
    requires var end := i + |TextOf(token)|; end < |value| ==> value[end] == ' '
    ensures if IsLed(token) then TokensFrom(value, i).None?
      else ScanAt(value, i) == Some(Scan(ReadBack(token), i + |TextOf(token)|))
  {
    if IsLed(token) {
      var text := token.text;
      var word := if LedBy("AND", text) then "AND" else if LedBy("OR", text) then "OR" else "WITH";
      LedScansAsKeyword(word, text, value, i);
    } else {
      TokenScansBack(ReadBack(token), value, i);
    }
  }

  /** A token read at `at`, or a keyword split off and nothing more. */
  predicate ReadsAt(token: Token, value: string, at: nat, next: nat) {
    at <= |value| &&
    if IsLed(token) then TokensFrom(value, at).None? else ScanAt(value, at) == Some(Scan(ReadBack(token), next))
  }

  lemma ReadsAfterSpace(token: Token, value: string, i: nat, next: nat)
    requires i < |value| && value[i] == ' ' && ReadsAt(token, value, i + 1, next)
    ensures ReadsAt(token, value, i, next)
  {
    ScanAfterSpace(value, i);
  }

  /** Where the first text of a printed list stands, after an optional space. */
  lemma TextStands(value: string, i: nat, lead: string, text: string, tail: string, printed: string)
    returns (at: nat, next: nat)
    requires (lead == "" || lead == " ") && text != "" && (tail != "" ==> tail[0] == ' ')
    requires printed == text + tail && i <= |value| && value[i..] == lead + printed
    ensures i < next <= |value| && value[next..] == tail && next == at + |text| && StandsAt(text, value, at)
    ensures next < |value| ==> value[next] == ' '
    ensures at == i || (at == i + 1 && i < |value| && value[i] == ' ')
  {
    at := i + |lead|;
    next := at + |text|;
    Slices(value, i, lead, text, tail);
    assert |value[next..]| == |value| - next;
    EndsOrBlank(value, next, tail);
  }

  /** After an optional space, the first printed token is scanned and the tail follows. */
  lemma OneScansBack(token: Token, printed: string, value: string, i: nat, lead: string, tail: string)
    returns (next: nat)
    requires IsShaped(token) && (lead == "" || lead == " ") && (tail != "" ==> tail[0] == ' ') && TextOf(token) != ""
    requires printed == TextOf(token) + tail && i <= |value| && value[i..] == lead + printed
    ensures i < next <= |value| && value[next..] == tail && ReadsAt(token, value, i, next)
  {
    var at;
    at, next := TextStands(value, i, lead, TextOf(token), tail, printed);
    ReadsWithLead(token, value, i, at);
  }

  lemma ReadsWithLead(token: Token, value: string, i: nat, at: nat)
    requires IsShaped(token) && StandsAt(TextOf(token), value, at)
    requires at == i || (at == i + 1 && i < |value| && value[i] == ' ')
    requires var end := at + |TextOf(token)|; end < |value| ==> value[end] == ' '
    ensures ReadsAt(token, value, i, at + |TextOf(token)|)
  {
    ReadsThere(token, value, at);
    if at != i { ReadsAfterSpace(token, value, i, at + |TextOf(token)|); }
  }

  lemma EndsOrBlank(value: string, next: nat, tail: string)
    requires next <= |value| && value[next..] == tail && (tail != "" ==> tail[0] == ' ')
    ensures next < |value| ==> value[next] == ' '
  {
    if next < |value| { assert value[next..][0] == value[next]; }
  }

  lemma ReadsThere(token: Token, value: string, at: nat)
    requires IsShaped(token) && StandsAt(TextOf(token), value, at)
    requires var end := at + |TextOf(token)|; end < |value| ==> value[end] == ' '
    ensures ReadsAt(token, value, at, at + |TextOf(token)|)
  {
    ShapedReads(token, value, at);
  }

  lemma ConsToken(value: string, i: nat, token: Token, next: nat, rest: Option<seq<Token>>)
    requires i < next <= |value| && ScanAt(value, i) == Some(Scan(token, next)) && TokensFrom(value, next) == rest
    ensures TokensFrom(value, i) == if rest.None? then None else Some([token] + rest.value)
  {
  }

  lemma ScannedStep(tokens: seq<Token>)
    requires tokens != []
    ensures Scanned(tokens) ==
      if IsLed(tokens[0]) || Scanned(tokens[1..]).None? then None
      else Some([ReadBack(tokens[0])] + Scanned(tokens[1..]).value)
  {
  }

  function Tail(tokens: seq<Token>): string
    requires tokens != []
  {
    if |tokens| == 1 then "" else " " + Print(tokens[1..])
  }

  lemma {:induction false} TailScansBack(tokens: seq<Token>, value: string, i: nat)
    requires tokens != [] && (forall k | 0 <= k < |tokens| :: IsShaped(tokens[k]))
    requires i <= |value| && value[i..] == Tail(tokens)
    ensures TokensFrom(value, i) == Scanned(tokens[1..])
    decreases |tokens|, 0
  {
    if |tokens| == 1 {
      assert |value[i..]| == 0 && tokens[1..] == [];
    } else {
      PrintScansBack(tokens[1..], value, i, " ");
    }
  }

  lemma {:induction false} PrintScansBack(tokens: seq<Token>, value: string, i: nat, lead: string)
    requires tokens != [] && (forall k | 0 <= k < |tokens| :: IsShaped(tokens[k])) && (lead == "" || lead == " ")
    requires i <= |value| && value[i..] == lead + Print(tokens)
    ensures TokensFrom(value, i) == Scanned(tokens)
    decreases |tokens|, 1
  {
    var next := FirstScansBack(tokens, value, i, lead);
    if !IsLed(tokens[0]) { TailScansBack(tokens, value, next); }
    HeadScansBack(tokens, value, i, next);
  }

  lemma FirstScansBack(tokens: seq<Token>, value: string, i: nat, lead: string) returns (next: nat)
    requires tokens != [] && IsShaped(tokens[0]) && (lead == "" || lead == " ")
    requires i <= |value| && value[i..] == lead + Print(tokens)
    ensures i < next <= |value| && value[next..] == Tail(tokens)
    ensures ReadsAt(tokens[0], value, i, next)
  {
    TailLeads(tokens);
    PrintHead(tokens);
    next := OneScansBack(tokens[0], Print(tokens), value, i, lead, Tail(tokens));
  }

  lemma TailLeads(tokens: seq<Token>)
    requires tokens != [] && IsShaped(tokens[0])
    ensures TextOf(tokens[0]) != "" && (Tail(tokens) != "" ==> Tail(tokens)[0] == ' ')
  {
  }

  lemma HeadScansBack(tokens: seq<Token>, value: string, i: nat, next: nat)
    requires tokens != [] && i < next <= |value|
    requires ReadsAt(tokens[0], value, i, next)
    requires IsLed(tokens[0]) || TokensFrom(value, next) == Scanned(tokens[1..])
    ensures TokensFrom(value, i) == Scanned(tokens)
  {
    ScannedStep(tokens);
    if !IsLed(tokens[0]) { ConsToken(value, i, ReadBack(tokens[0]), next, Scanned(tokens[1..])); }
  }

  function Weight(token: Token): int {
    match token
    case Id(_) => 1
    case And | Or | With => -1
    case _ => 0
  }

  /** Identifiers less operators. */
  function Balance(tokens: seq<Token>): int {
    if tokens == [] then 0 else Weight(tokens[0]) + Balance(tokens[1..])
  }

  lemma {:induction false} BalanceAdds(a: seq<Token>, b: seq<Token>)
    ensures Balance(a + b) == Balance(a) + Balance(b)
  {
    if a == [] {
      assert a + b == b;
    } else {
      assert (a + b)[1..] == a[1..] + b;
      BalanceAdds(a[1..], b);
    }
  }

  lemma BalanceOfOne(token: Token)
    ensures Balance([token]) == Weight(token)
  {
  }

  /** Whatever derives has one more identifier than operators. */
  lemma {:induction false} DerivedBalance(e: Expr)
    ensures Balance(Flatten(e)) == 1
    decreases e, 1
  {
    match e
    case Single(atom) => AtomBalance(atom);
    case Chain(left, isAnd, right) =>
      DerivedBalance(left);
      AtomBalance(right);
      BalanceAdds(Flatten(left) + [Operator(isAnd)], FlattenAtom(right));
      BalanceAdds(Flatten(left), [Operator(isAnd)]);
      BalanceOfOne(Operator(isAnd));
  }

  lemma {:induction false} AtomBalance(a: Atom)
    ensures Balance(FlattenAtom(a)) == 1
    decreases a, 0
  {
    match a
    case Plain(id) => BalanceOfOne(Id(id));
    case Excepted(id, exception) =>
      assert FlattenAtom(a) == [Id(id)] + ([With] + [Id(exception)]);
      BalanceAdds([Id(id)], [With] + [Id(exception)]);
      BalanceAdds([With], [Id(exception)]);
      BalanceOfOne(Id(id));
      BalanceOfOne(With);
      BalanceOfOne(Id(exception));
    case Grouped(inner) =>
      DerivedBalance(inner);
      BalanceAdds([LeftParen] + Flatten(inner), [RightParen]);
      BalanceAdds([LeftParen], Flatten(inner));
      BalanceOfOne(LeftParen);
      BalanceOfOne(RightParen);
  }

  /** Tokens come back as they were exactly when all are proper, and otherwise with fewer identifiers. */
  lemma {:induction false} ScannedBalance(tokens: seq<Token>)
    requires forall k | 0 <= k < |tokens| :: IsShaped(tokens[k])
    ensures (forall k | 0 <= k < |tokens| :: IsProper(tokens[k])) ==> Scanned(tokens) == Some(tokens)
    ensures Scanned(tokens).Some? ==>
      Balance(Scanned(tokens).value) <= Balance(tokens) &&
      ((exists k | 0 <= k < |tokens| :: !IsProper(tokens[k])) ==> Balance(Scanned(tokens).value) < Balance(tokens))
  {
    if tokens != [] {
      ScannedBalance(tokens[1..]);
      assert [tokens[0]] + tokens[1..] == tokens;
      if Scanned(tokens).Some? {
        var rest := Scanned(tokens[1..]).value;
        assert Scanned(tokens).value[0] == ReadBack(tokens[0]) && Scanned(tokens).value[1..] == rest;
        if k :| 0 <= k < |tokens| && !IsProper(tokens[k]) {
          if k > 0 { assert tokens[k] == tokens[1..][k - 1]; }
        }
      }
    }
  }

  /**
   A tree over identifiers of the pattern's shape, printed with single spaces, is accepted exactly
   when no identifier is a keyword or is opened by one that a full stop, plus or minus follows.
   */
  lemma PrintedTreeIsAccepted(e: Expr)
    requires forall k | 0 <= k < |Flatten(e)| :: IsShaped(Flatten(e)[k])
    ensures IsExpression(Print(Flatten(e))) <==> forall k | 0 <= k < |Flatten(e)| :: IsProper(Flatten(e)[k])
  {
    var tokens := Flatten(e);
    var value := Print(tokens);
    assert value[0..] == "" + value;
    PrintScansBack(tokens, value, 0, "");
    ScannedBalance(tokens);
    DerivedBalance(e);
    if IsExpression(value) {
      var other: Expr :| Flatten(other) == Scanned(tokens).value;
      DerivedBalance(other);
    }
  }
}
