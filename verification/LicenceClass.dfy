/**
 How a package's declared licence is classified, and what the search for AND and OR in the text of
 an expression finds that the expression does not say.
 */
module LicenceClass {
  import opened Common
  import opened SpdxExpression
  import opened SpdxSpelling

  datatype Class = MultipleDeclared | Declared | Ambiguous | UnavailableLocally | MissingDeclaration

  function StripLeft(text: string): (rest: string)
    ensures rest != "" ==> !IsSpace(rest[0])
  {
    if text != "" && IsSpace(text[0]) then StripLeft(text[1..]) else text
  }

  function StripRight(text: string): (rest: string)
    ensures rest <= text && (rest != "" ==> !IsSpace(rest[|rest| - 1]))
  {
    if text != "" && IsSpace(text[|text| - 1]) then StripRight(text[..|text| - 1]) else text
  }

  function Strip(text: string): string {
    StripRight(StripLeft(text))
  }

  /** The word stands in the text with a word boundary on either side. */
  predicate WordAt(word: string, text: string, i: nat) {
    StandsAt(word, text, i) && (i == 0 || !IsWord(text[i - 1])) &&
    (i + |word| < |text| ==> !IsWord(text[i + |word|]))
  }

  predicate HasWord(word: string, text: string) {
    exists i | 0 <= i <= |text| :: WordAt(word, text, i)
  }

  predicate NamesOperator(text: string) {
    HasWord("AND", text) || HasWord("OR", text)
  }

  /** licence_classification; `isExpression` is the verdict on the stripped expression. */
  function Classified(expression: Option<string>, isExpression: bool, licenceFile: Option<string>, available: bool)
    : Class
  {
    if expression.Some? && Strip(expression.value) != "" then
      if !isExpression then Ambiguous else if NamesOperator(Strip(expression.value)) then MultipleDeclared else Declared
    else if licenceFile.Some? && Strip(licenceFile.value) != "" then Declared
    else if !available then UnavailableLocally
    else MissingDeclaration
  }

  method Classify(expression: Option<string>, licenceFile: Option<string>, available: bool) returns (class_: Class)
    ensures expression.Some? && Strip(expression.value) != "" ==>
      (class_ == Ambiguous <==> !IsExpression(Strip(expression.value))) &&
      (class_ == MultipleDeclared <==>
        IsExpression(Strip(expression.value)) && NamesOperator(Strip(expression.value))) &&
      (class_ == Declared <==> IsExpression(Strip(expression.value)) && !NamesOperator(Strip(expression.value)))
    ensures expression.None? || Strip(expression.value) == "" ==>
      class_ == (if licenceFile.Some? && Strip(licenceFile.value) != "" then Declared
        else if available then MissingDeclaration else UnavailableLocally)
  {
    var isExpression := false;
    if expression.Some? && Strip(expression.value) != "" {
      isExpression := ValidSpdxExpression(Strip(expression.value));
    }
    class_ := Classified(expression, isExpression, licenceFile, available);
  }

  // ----- what the search finds in a printed expression

  lemma WordByChar(word: string, text: string, i: nat)
    ensures StandsAt(word, text, i) <==> i + |word| <= |text| && forall k | 0 <= k < |word| :: text[i + k] == word[k]
  {
    if i + |word| <= |text| {
      var part := text[i..i + |word|];
      assert forall k | 0 <= k < |word| :: part[k] == text[i + k];
    }
  }

  /** A character that is in no word and ends every word. */
  predicate Parts(c: char, word: string) {
    word != "" && c !in word && !IsWord(c)
  }

  lemma WordInLeft(word: string, a: string, c: char, b: string, i: nat)
    requires Parts(c, word) && i + |word| <= |a|
    ensures WordAt(word, a + ([c] + b), i) <==> WordAt(word, a, i)
  {
    var text := a + ([c] + b);
    WordByChar(word, text, i);
    WordByChar(word, a, i);
    assert forall k | 0 <= k < |a| :: text[k] == a[k];
    assert text[|a|] == c;
  }

  lemma WordInRight(word: string, a: string, c: char, b: string, i: nat)
    requires Parts(c, word) && i + |word| <= |b|
    ensures WordAt(word, a + ([c] + b), |a| + 1 + i) <==> WordAt(word, b, i)
  {
    var text := a + ([c] + b);
    var at := |a| + 1 + i;
    assert text[at..at + |word|] == b[i..i + |word|];
    assert text[|a|] == c;
    if i > 0 { assert text[at - 1] == b[i - 1]; }
    if i + |word| < |b| { assert text[at + |word|] == b[i + |word|]; }
  }

  /** A word does not lie across a character that it does not hold. */
  lemma NoWordAcross(word: string, text: string, c: char, at: nat, i: nat)
    requires c !in word && StandsAt(word, text, i) && at < |text| && text[at] == c
    ensures i + |word| <= at || at < i
  {
    var part := text[i..i + |word|];
    forall j | i <= j < i + |word| ensures text[j] != c {
      assert part[j - i] == text[j];
      assert part[j - i] in word;
    }
  }

  /** Such a character splits the search. */
  lemma WordAcross(word: string, a: string, c: char, b: string)
    requires Parts(c, word)
    ensures HasWord(word, a + ([c] + b)) <==> HasWord(word, a) || HasWord(word, b)
  {
    var text := a + ([c] + b);
    if i :| 0 <= i <= |text| && WordAt(word, text, i) {
      NoWordAcross(word, text, c, |a|, i);
      if i + |word| <= |a| {
        WordInLeft(word, a, c, b, i);
      } else {
        WordInRight(word, a, c, b, i - |a| - 1);
        assert WordAt(word, b, i - |a| - 1);
      }
    }
    if i :| 0 <= i <= |a| && WordAt(word, a, i) { WordInLeft(word, a, c, b, i); }
    if i :| 0 <= i <= |b| && WordAt(word, b, i) {
      WordInRight(word, a, c, b, i);
      assert WordAt(word, text, |a| + 1 + i);
    }
  }

  predicate SomeHasWord(word: string, tokens: seq<Token>) {
    exists k | 0 <= k < |tokens| :: HasWord(word, TextOf(tokens[k]))
  }

  lemma SomeOrFirst(word: string, tokens: seq<Token>)
    requires tokens != []
    ensures SomeHasWord(word, tokens) <==> HasWord(word, TextOf(tokens[0])) || SomeHasWord(word, tokens[1..])
  {
    var rest := tokens[1..];
    if k :| 0 <= k < |tokens| && HasWord(word, TextOf(tokens[k])) {
      if k > 0 { assert rest[k - 1] == tokens[k]; }
    }
    if k :| 0 <= k < |rest| && HasWord(word, TextOf(rest[k])) { assert tokens[k + 1] == rest[k]; }
  }

  lemma WordPast(word: string, c: char, text: string)
    requires Parts(c, word)
    ensures HasWord(word, [c] + text) <==> HasWord(word, text)
  {
    assert "" + ([c] + text) == [c] + text;
    WordAcross(word, "", c, text);
  }

  predicate IsOperatorWord(word: string) {
    word == "AND" || word == "OR"
  }

  lemma BlankParts(word: string, c: char)
    requires IsOperatorWord(word) && (IsBlank(c) || c == '(' || c == ')')
    ensures Parts(c, word)
  {
    SameCharacters(c);
  }

  lemma {:induction false} WordPastBlanks(word: string, blanks: string, text: string)
    requires IsOperatorWord(word) && forall k | 0 <= k < |blanks| :: IsBlank(blanks[k])
    ensures HasWord(word, blanks + text) <==> HasWord(word, text)
  {
    if blanks == "" {
      assert blanks + text == text;
    } else {
      BlankParts(word, blanks[0]);
      WordPastBlanks(word, blanks[1..], text);
      WordPast(word, blanks[0], blanks[1..] + text);
      assert [blanks[0]] + (blanks[1..] + text) == blanks + text;
    }
  }

  lemma WordInParenthesis(word: string, token: Token, more: string)
    requires IsOperatorWord(word) && IsParenthesis(token)
    ensures HasWord(word, TextOf(token) + more) <==> HasWord(word, TextOf(token)) || HasWord(word, more)
  {
    var c := TextOf(token)[0];
    BlankParts(word, c);
    WordPast(word, c, more);
    WordPast(word, c, "");
    assert [c] + "" == TextOf(token);
    assert !HasWord(word, "");
  }

  lemma WordBeforeRest(word: string, text: string, rest: seq<Piece>)
    requires IsOperatorWord(word) && IsSpelt(rest)
    requires rest != [] ==> rest[0].blanks != "" || IsParenthesis(rest[0].token)
    ensures HasWord(word, text + Written(rest)) <==> HasWord(word, text) || HasWord(word, Written(rest))
  {
    var more := Written(rest);
    if rest == [] {
      assert text + more == text && !HasWord(word, "");
    } else {
      FirstIsSpelt(rest);
      var c := more[0];
      assert c == if rest[0].blanks != "" then rest[0].blanks[0] else TextOf(rest[0].token)[0];
      BlankParts(word, c);
      assert more == [c] + more[1..];
      WordAcross(word, text, c, more[1..]);
      WordPast(word, c, more[1..]);
    }
  }

  /** The search finds a word in a spelt text exactly where some token holds it. */
  lemma {:induction false} WordInWritten(word: string, pieces: seq<Piece>)
    requires IsOperatorWord(word) && IsSpelt(pieces)
    ensures HasWord(word, Written(pieces)) <==> SomeHasWord(word, TokensIn(pieces))
  {
    if pieces == [] {
      assert !HasWord(word, "");
    } else {
      var rest, text := pieces[1..], TextOf(pieces[0].token);
      FirstIsSpelt(pieces);
      TailIsSpelt(pieces);
      WordInWritten(word, rest);
      WordPastBlanks(word, pieces[0].blanks, text + Written(rest));
      SomeOrFirst(word, TokensIn(pieces));
      assert TokensIn(pieces)[1..] == TokensIn(rest);
      if IsParenthesis(pieces[0].token) {
        WordInParenthesis(word, pieces[0].token, Written(rest));
      } else {
        if rest != [] { assert MayFollow(pieces[0], pieces[0 + 1]); }
        WordBeforeRest(word, text, rest);
      }
    }
  }

  lemma OperatorsNameThemselves(token: Token)
    ensures token == And || token == Or ==> NamesOperator(TextOf(token))
    ensures token == With || token == LeftParen || token == RightParen ==> !NamesOperator(TextOf(token))
  {
    assert WordAt("AND", "AND", 0) && WordAt("OR", "OR", 0);
    if token == With || token == LeftParen || token == RightParen {
      forall i: nat ensures !WordAt("AND", TextOf(token), i) && !WordAt("OR", TextOf(token), i) {
        WordByChar("AND", TextOf(token), i);
        WordByChar("OR", TextOf(token), i);
        assert "AND"[0] == 'A' && "OR"[0] == 'O';
        if i < |TextOf(token)| { assert TextOf(token)[i + 0] in "WITH()"; }
      }
    }
  }

  /** The token is an operator, or an identifier that spells one out between two boundaries. */
  predicate ShowsOperator(token: Token) {
    token == And || token == Or || (token.Id? && NamesOperator(token.text))
  }

  /** The search sees a spelt text's operators, and operators spelt inside its identifiers, and no others. */
  lemma OperatorsSeen(pieces: seq<Piece>)
    requires IsSpelt(pieces)
    ensures NamesOperator(Written(pieces)) <==> exists k | 0 <= k < |pieces| :: ShowsOperator(pieces[k].token)
  {
    var tokens := TokensIn(pieces);
    WordInWritten("AND", pieces);
    WordInWritten("OR", pieces);
    forall k | 0 <= k < |tokens| ensures ShowsOperator(tokens[k]) <==> NamesOperator(TextOf(tokens[k])) {
      OperatorsNameThemselves(tokens[k]);
    }
  }

  /** The tokens of an expression are all that decides whether it is classified as several licences. */
  lemma SeveralExactly(value: string, pieces: seq<Piece>)
    requires SpellsExpression(value, pieces)
    ensures IsExpression(value)
    ensures NamesOperator(value) <==> exists k | 0 <= k < |pieces| :: ShowsOperator(pieces[k].token)
  {
    ExpressionIsSpelt(value);
    OperatorsSeen(pieces);
  }

  /** What stripping takes off is white space, and what it leaves neither starts nor ends with any. */
  lemma StrippedIsBare(text: string) returns (from: nat, to: nat)
    ensures from <= to <= |text| && Strip(text) == text[from..to]
    ensures forall k | 0 <= k < |text| && (k < from || to <= k) :: IsBlank(text[k])
    ensures from < to ==> !IsBlank(text[from]) && !IsBlank(text[to - 1])
  {
    from := LeadTaken(text);
    var left := StripLeft(text);
    var n := TailTaken(left);
    to := from + n;
    assert left[..n] == text[from..to];
    forall k | to <= k < |text| ensures IsBlank(text[k]) { assert left[k - from] == text[k]; }
    if from < to {
      assert left[0] == text[from] && left[n - 1] == text[to - 1];
      SameCharacters(text[from]);
      SameCharacters(text[to - 1]);
    }
  }

  lemma {:induction false} LeadTaken(text: string) returns (n: nat)
    ensures n <= |text| && StripLeft(text) == text[n..] && forall k | 0 <= k < n :: IsBlank(text[k])
  {
    n := 0;
    if text != "" && IsSpace(text[0]) {
      var more := LeadTaken(text[1..]);
      SameCharacters(text[0]);
      n := more + 1;
      forall k | 1 <= k < n ensures IsBlank(text[k]) { assert text[1..][k - 1] == text[k]; }
    }
  }

  lemma {:induction false} TailTaken(text: string) returns (n: nat)
    ensures n <= |text| && StripRight(text) == text[..n] && forall k | n <= k < |text| :: IsBlank(text[k])
  {
    n := |text|;
    if text != "" && IsSpace(text[|text| - 1]) {
      n := TailTaken(text[..|text| - 1]);
      SameCharacters(text[|text| - 1]);
    }
  }

  /** So one licence with such an identifier is classified as several. */
  lemma OneLicenceAsSeveral() returns (e: Expr)
    ensures e == Single(Plain("A-OR-B")) && IsExpression(Print(Flatten(e))) && NamesOperator(Print(Flatten(e)))
  {
    e := Single(Plain("A-OR-B"));
    ExampleIsProper("A-OR-B");
    PrintedAlone("A-OR-B");
    OrInside("A-OR-B");
    PrintedTreeIsAccepted(e);
  }

  lemma PrintedAlone(text: string)
    requires IsProperId(text)
    ensures var tokens := Flatten(Single(Plain(text)));
      Print(tokens) == text && forall k | 0 <= k < |tokens| :: IsShaped(tokens[k]) && IsProper(tokens[k])
  {
  }

  lemma OrInside(text: string)
    requires |text| == 6 && text[2..4] == "OR" && text[1] == '-' && text[4] == '-'
    ensures NamesOperator(text)
  {
    assert WordAt("OR", text, 2);
  }

  lemma ExampleIsProper(text: string)
    requires text == "A-OR-B"
    ensures IsProperId(text)
  {
    assert text[0] == 'A' && text[1] == '-';
    assert text[..3][1] == '-' && text[..2][0] == 'A' && text[..4][0] == 'A';
    assert "AND"[1] == 'N' && "OR"[0] == 'O' && "WITH"[0] == 'W';
  }
}
