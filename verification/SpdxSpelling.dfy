/**
 Which texts are licence expressions: those spelt as a list of tokens that derives, with white space
 between them. The characters are given here by their code points, apart from the tokeniser's tests.
 */
module SpdxSpelling {
  import opened Common
  import opened SpdxExpression

  // ----- how a text is spelt

  predicate IsBlank(c: char) {
    var n := c as int;
    9 <= n <= 13 || 28 <= n <= 32 || n == 133 || n == 160 || n == 5760 || 8192 <= n <= 8202 ||
    n == 8232 || n == 8233 || n == 8239 || n == 8287 || n == 12288
  }

  predicate IsLetterOrDigit(c: char) {
    var n := c as int;
    48 <= n <= 57 || 65 <= n <= 90 || 97 <= n <= 122
  }

  /** Letters, digits, plus, minus and full stop. */
  predicate IsIdLetter(c: char) {
    IsLetterOrDigit(c) || c as int == 43 || c as int == 45 || c as int == 46
  }

  /** The word opens the text, and plus, minus or full stop comes next. */
  predicate IsSplitBy(word: string, text: string) {
    |word| < |text| && text[..|word|] == word && !IsLetterOrDigit(text[|word|])
  }

  /** An identifier starts with a letter or digit, is no keyword, and is not opened by a keyword and a sign. */
  predicate IsIdSpelt(text: string) {
    text != "" && IsLetterOrDigit(text[0]) && (forall k | 0 <= k < |text| :: IsIdLetter(text[k])) &&
    text != "AND" && text != "OR" && text != "WITH" &&
    !IsSplitBy("AND", text) && !IsSplitBy("OR", text) && !IsSplitBy("WITH", text)
  }

  predicate IsTokenSpelt(token: Token) {
    token.Id? ==> IsIdSpelt(token.text)
  }

  predicate IsParenthesis(token: Token) {
    token == LeftParen || token == RightParen
  }

  /** A token and the white space before it. */
  datatype Piece = Piece(blanks: string, token: Token)

  function Written(pieces: seq<Piece>): string {
    if pieces == [] then "" else pieces[0].blanks + (TextOf(pieces[0].token) + Written(pieces[1..]))
  }

  function TokensIn(pieces: seq<Piece>): (tokens: seq<Token>)
    ensures |tokens| == |pieces| && forall k | 0 <= k < |pieces| :: tokens[k] == pieces[k].token
  {
    seq(|pieces|, k requires 0 <= k < |pieces| => pieces[k].token)
  }

  predicate IsPieceSpelt(piece: Piece) {
    (forall k | 0 <= k < |piece.blanks| :: IsBlank(piece.blanks[k])) && IsTokenSpelt(piece.token)
  }

  /** Between two tokens white space may be missing only beside a parenthesis. */
  predicate MayFollow(first: Piece, second: Piece) {
    second.blanks != "" || IsParenthesis(first.token) || IsParenthesis(second.token)
  }

  predicate IsSpelt(pieces: seq<Piece>) {
    (forall k | 0 <= k < |pieces| :: IsPieceSpelt(pieces[k])) &&
    forall k | 0 <= k < |pieces| - 1 :: MayFollow(pieces[k], pieces[k + 1])
  }

  // ----- the tokeniser's tests are these

  lemma SameCharacters(c: char)
    ensures IsSpace(c) <==> IsBlank(c)
    ensures IsAlnum(c) <==> IsLetterOrDigit(c)
    ensures IsIdChar(c) <==> IsIdLetter(c)
  {
    SpacesInText(c);
  }

  lemma SpacesInText(c: char)
    ensures c in " \t\n\r" <==> c == ' ' || c == '\t' || c == '\n' || c == '\r'
  {
  }

  lemma SameIdentifiers(text: string)
    ensures IsProperId(text) <==> IsIdSpelt(text)
  {
    forall k | 0 <= k < |text|
      ensures (IsIdChar(text[k]) <==> IsIdLetter(text[k])) && (IsAlnum(text[k]) <==> IsLetterOrDigit(text[k]))
    {
      SameCharacters(text[k]);
    }
  }

  // ----- a spelt text is tokenised back

  /** Where a word may end: at the end of the value, before white space or before a parenthesis. */
  predicate EndsWord(value: string, next: nat) {
    next == |value| || (next < |value| && (IsSpace(value[next]) || value[next] == '(' || value[next] == ')'))
  }

  lemma EndIsNoWord(value: string, next: nat)
    requires EndsWord(value, next)
    ensures next < |value| ==> !IsWord(value[next]) && !IsIdChar(value[next])
  {
    if next < |value| { SameCharacters(value[next]); }
  }

  lemma {:induction false} BlanksAreSkipped(value: string, i: nat, at: nat)
    requires i <= at <= |value| && (forall k | i <= k < at :: IsSpace(value[k])) &&
      (at < |value| ==> !IsSpace(value[at]))
    ensures SkipSpaces(value, i) == at
    decreases at - i
  {
    if i < at { BlanksAreSkipped(value, i + 1, at); }
  }

  lemma KeywordIsFound(word: string, value: string, at: nat)
    requires word == "AND" || word == "OR" || word == "WITH"
    requires StandsAt(word, value, at) && EndsWord(value, at + |word|)
    ensures at < |value| && ScanFrom(value, at) == Some(Scan(SpdxExpression.Classify(word), at + |word|))
  {
    StandsChars(word, value, at);
    EndIsNoWord(value, at + |word|);
    assert value[at + 0] == word[0];
    if word != "AND" { NotStanding("AND", value, at); }
    if word == "WITH" { NotStanding("OR", value, at); }
  }

  /** The alternatives of the token pattern, past the white space. */
  function ScanFrom(value: string, at: nat): Option<Scan>
    requires at < |value|
  {
    if value[at] == '(' then Some(Scan(LeftParen, at + 1))
    else if value[at] == ')' then Some(Scan(RightParen, at + 1))
    else if IsKeywordAt("AND", value, at) then Some(Scan(And, at + 3))
    else if IsKeywordAt("OR", value, at) then Some(Scan(Or, at + 2))
    else if IsKeywordAt("WITH", value, at) then Some(Scan(With, at + 4))
    else if IsAlnum(value[at]) then
      Some(Scan(SpdxExpression.Classify(value[at..IdEnd(value, at)]), IdEnd(value, at)))
    else None
  }

  lemma ScanSkips(value: string, i: nat)
    requires i <= |value|
    ensures var at := SkipSpaces(value, i); ScanAt(value, i) == if at < |value| then ScanFrom(value, at) else None
  {
  }

  lemma NoKeywordOpens(word: string, text: string, value: string, at: nat)
    requires word == "AND" || word == "OR" || word == "WITH"
    requires IsProperId(text) && StandsAt(text, value, at) && EndsWord(value, at + |text|)
    ensures !IsKeywordAt(word, value, at)
  {
    StandsChars(text, value, at);
    if StandsAt(word, value, at) {
      StandsChars(word, value, at);
      if |word| < |text| {
        assert text[..|word|] == word && value[at + |word|] == text[|word|];
      } else if |word| == |text| {
        SameStand(word, text, value, at);
      } else {
        WordGoesOn(word, text, value, at);
      }
    }
  }

  /** The text ends where the word still goes on, with a letter. */
  lemma WordGoesOn(word: string, text: string, value: string, at: nat)
    requires word == "AND" || word == "OR" || word == "WITH"
    requires |text| < |word| && StandsAt(word, value, at)
    ensures !EndsWord(value, at + |text|)
  {
    StandsChars(word, value, at);
    assert value[at + |text|] == word[|text|];
    SameCharacters(word[|text|]);
  }

  lemma IdentifierIsFound(text: string, value: string, at: nat)
    requires IsProperId(text) && StandsAt(text, value, at) && EndsWord(value, at + |text|)
    ensures at < |value| && ScanFrom(value, at) == Some(Scan(Id(text), at + |text|))
  {
    StandsChars(text, value, at);
    assert value[at + 0] == text[0];
    NoKeywordOpens("AND", text, value, at);
    NoKeywordOpens("OR", text, value, at);
    NoKeywordOpens("WITH", text, value, at);
    forall k | at <= k < at + |text| ensures IsIdChar(value[k]) { assert value[at + (k - at)] == text[k - at]; }
    EndIsNoWord(value, at + |text|);
    IdEndIs(value, at, at + |text|);
  }

  lemma TokenIsFound(token: Token, value: string, at: nat)
    requires IsTokenSpelt(token) && StandsAt(TextOf(token), value, at)
    requires IsParenthesis(token) || EndsWord(value, at + |TextOf(token)|)
    ensures at < |value| && ScanFrom(value, at) == Some(Scan(token, at + |TextOf(token)|)) && !IsSpace(value[at])
  {
    StandsChars(TextOf(token), value, at);
    match token
    case Id(text) =>
      SameIdentifiers(text);
      IdentifierIsFound(text, value, at);
      assert value[at + 0] == text[0];
      SameCharacters(text[0]);
    case And => KeywordIsFound("AND", value, at); assert value[at + 0] == 'A';
    case Or => KeywordIsFound("OR", value, at); assert value[at + 0] == 'O';
    case With => KeywordIsFound("WITH", value, at); assert value[at + 0] == 'W';
    case LeftParen => assert value[at + 0] == '(';
    case RightParen => assert value[at + 0] == ')';
  }

  lemma TextIsThere(token: Token)
    requires IsTokenSpelt(token)
    ensures TextOf(token) != ""
  {
  }

  /** What follows a piece is the end, or white space, or the text of the next token. */
  lemma NextStarts(pieces: seq<Piece>, value: string, next: nat)
    requires pieces != [] && IsSpelt(pieces) && next <= |value| && value[next..] == Written(pieces[1..])
    ensures IsParenthesis(pieces[0].token) || EndsWord(value, next)
  {
    if |pieces| > 1 {
      var second := pieces[1];
      assert pieces[1..][0] == second && MayFollow(pieces[0], second) && IsPieceSpelt(second);
      var text := Written(pieces[1..]);
      assert text == second.blanks + (TextOf(second.token) + Written(pieces[1..][1..]));
      TextIsThere(second.token);
      assert value[next] == value[next..][0] == text[0];
      if second.blanks != "" { SameCharacters(second.blanks[0]); }
    }
  }

  lemma TailIsSpelt(pieces: seq<Piece>)
    requires pieces != [] && IsSpelt(pieces)
    ensures IsSpelt(pieces[1..]) && TokensIn(pieces) == [pieces[0].token] + TokensIn(pieces[1..])
  {
    var rest := pieces[1..];
    assert forall k | 0 <= k < |rest| :: rest[k] == pieces[k + 1];
    forall k | 0 <= k < |rest| - 1 ensures MayFollow(rest[k], rest[k + 1]) {
      assert MayFollow(pieces[k + 1], pieces[k + 1 + 1]);
    }
  }

  lemma BlanksAreThere(blanks: string, value: string, i: nat)
    requires StandsAt(blanks, value, i) && forall k | 0 <= k < |blanks| :: IsBlank(blanks[k])
    ensures forall k | i <= k < i + |blanks| :: IsSpace(value[k])
  {
    StandsChars(blanks, value, i);
    forall k | i <= k < i + |blanks| ensures IsSpace(value[k]) {
      assert value[i + (k - i)] == blanks[k - i];
      SameCharacters(value[k]);
    }
  }

  lemma LeadStands(value: string, i: nat, lead: string, rest: string)
    requires i <= |value| && value[i..] == lead + rest
    ensures StandsAt(lead, value, i)
  {
    assert |value[i..]| == |lead| + |rest|;
    assert value[i..i + |lead|] == value[i..][..|lead|] == lead;
  }

  lemma TokenIsScanned(piece: Piece, value: string, i: nat, at: nat)
    requires IsPieceSpelt(piece) && StandsAt(piece.blanks, value, i) && at == i + |piece.blanks|
    requires StandsAt(TextOf(piece.token), value, at)
    requires IsParenthesis(piece.token) || EndsWord(value, at + |TextOf(piece.token)|)
    ensures ScanAt(value, i) == Some(Scan(piece.token, at + |TextOf(piece.token)|))
  {
    TokenIsFound(piece.token, value, at);
    BlanksAreThere(piece.blanks, value, i);
    BlanksAreSkipped(value, i, at);
    ScanSkips(value, i);
  }

  lemma PieceStands(piece: Piece, rest: string, value: string, i: nat) returns (at: nat, next: nat)
    requires IsPieceSpelt(piece) && i <= |value| && value[i..] == piece.blanks + (TextOf(piece.token) + rest)
    ensures at == i + |piece.blanks| && next == at + |TextOf(piece.token)|
    ensures i < next <= |value| && value[next..] == rest
    ensures StandsAt(piece.blanks, value, i) && StandsAt(TextOf(piece.token), value, at)
  {
    TextIsThere(piece.token);
    Slices(value, i, piece.blanks, TextOf(piece.token), rest);
    LeadStands(value, i, piece.blanks, TextOf(piece.token) + rest);
    at := i + |piece.blanks|;
    next := at + |TextOf(piece.token)|;
  }

  lemma FirstIsSpelt(pieces: seq<Piece>)
    requires pieces != [] && IsSpelt(pieces)
    ensures IsPieceSpelt(pieces[0])
    ensures Written(pieces) == pieces[0].blanks + (TextOf(pieces[0].token) + Written(pieces[1..]))
  {
  }

  /** One spelt piece is scanned as its token. */
  lemma PieceIsScanned(pieces: seq<Piece>, value: string, i: nat) returns (next: nat)
    requires pieces != [] && IsSpelt(pieces) && i <= |value| && value[i..] == Written(pieces)
    ensures i < next <= |value| && value[next..] == Written(pieces[1..])
    ensures ScanAt(value, i) == Some(Scan(pieces[0].token, next))
  {
    FirstIsSpelt(pieces);
    var at;
    at, next := PieceStands(pieces[0], Written(pieces[1..]), value, i);
    NextStarts(pieces, value, next);
    TokenIsScanned(pieces[0], value, i, at);
  }

  lemma {:induction false} SpeltIsTokenised(pieces: seq<Piece>, value: string, i: nat)
    requires IsSpelt(pieces) && i <= |value| && value[i..] == Written(pieces)
    ensures TokensFrom(value, i) == Some(TokensIn(pieces))
    decreases |pieces|
  {
    if pieces != [] {
      var next := PieceIsScanned(pieces, value, i);
      TailIsSpelt(pieces);
      SpeltIsTokenised(pieces[1..], value, next);
    }
  }

  // ----- and whatever is tokenised was spelt

  lemma {:induction false} SkippedAreBlanks(value: string, i: nat)
    requires i <= |value|
    ensures forall k | i <= k < SkipSpaces(value, i) :: IsSpace(value[k])
    decreases |value| - i
  {
    if i < |value| && IsSpace(value[i]) { SkippedAreBlanks(value, i + 1); }
  }

  /** A token is found only where its text stands, spelt as it must be, and a word only up to where it ends. */
  lemma FoundIsSpelt(value: string, at: nat)
    requires at < |value| && ScanFrom(value, at).Some?
    ensures var scan := ScanFrom(value, at).value;
      scan.next == at + |TextOf(scan.token)| && StandsAt(TextOf(scan.token), value, at) && IsTokenSpelt(scan.token) &&
      (IsParenthesis(scan.token) || (scan.next < |value| ==> !IsLetterOrDigit(value[scan.next])))
  {
    var scan := ScanFrom(value, at).value;
    if scan.next < |value| { SameCharacters(value[scan.next]); }
    if value[at] != '(' && value[at] != ')' && !IsKeywordAt("AND", value, at) && !IsKeywordAt("OR", value, at) &&
      !IsKeywordAt("WITH", value, at) {
      IdentifierIsSpelt(value, at);
    }
  }

  lemma IdentifierIsSpelt(value: string, at: nat)
    requires at < |value| && IsAlnum(value[at])
    requires !IsKeywordAt("AND", value, at) && !IsKeywordAt("OR", value, at) && !IsKeywordAt("WITH", value, at)
    ensures var end := IdEnd(value, at); var text := value[at..end];
      at < end && TextOf(SpdxExpression.Classify(text)) == text && IsTokenSpelt(SpdxExpression.Classify(text)) &&
      (end < |value| ==> !IsIdChar(value[end]))
  {
    var end := IdEnd(value, at);
    var text := value[at..end];
    assert text[0] == value[at];
    forall k | 0 <= k < |text| ensures IsIdChar(text[k]) { assert text[k] == value[at + k]; }
    NotSplit("AND", text, value, at);
    NotSplit("OR", text, value, at);
    NotSplit("WITH", text, value, at);
    SameIdentifiers(text);
  }

  lemma NotSplit(word: string, text: string, value: string, at: nat)
    requires word == "AND" || word == "OR" || word == "WITH"
    requires StandsAt(text, value, at) && !IsKeywordAt(word, value, at)
    requires forall k | 0 <= k < |text| :: IsIdChar(text[k])
    ensures !LedBy(word, text)
  {
    if |word| < |text| && text[..|word|] == word {
      assert value[at..at + |word|] == value[at..at + |text|][..|word|];
      assert value[at + |word|] == value[at..at + |text|][|word|];
      SameCharacters(text[|word|]);
    }
  }

  /** The piece that one match of the pattern takes off. */
  function PieceAt(value: string, i: nat): Piece
    requires i <= |value| && ScanAt(value, i).Some?
  {
    Piece(value[i..SkipSpaces(value, i)], ScanAt(value, i).value.token)
  }

  lemma ScannedIsPiece(value: string, i: nat)
    requires i <= |value| && ScanAt(value, i).Some?
    ensures var scan, piece := ScanAt(value, i).value, PieceAt(value, i);
      IsPieceSpelt(piece) && value[i..] == piece.blanks + (TextOf(piece.token) + value[scan.next..]) &&
      (IsParenthesis(piece.token) || (scan.next < |value| ==> !IsLetterOrDigit(value[scan.next])))
  {
    var at, scan := SkipSpaces(value, i), ScanAt(value, i).value;
    ScanSkips(value, i);
    BlanksAreBlank(value, i);
    FoundIsSpelt(value, at);
    PieceIsCut(value, i, at, scan.next, scan.token);
  }

  lemma PieceIsCut(value: string, i: nat, at: nat, next: nat, token: Token)
    requires i <= at <= next <= |value| && next == at + |TextOf(token)| && StandsAt(TextOf(token), value, at)
    ensures value[i..] == value[i..at] + (TextOf(token) + value[next..])
  {
    CutTwice(value, i, at, next);
  }

  lemma BlanksAreBlank(value: string, i: nat)
    requires i <= |value|
    ensures var blanks := value[i..SkipSpaces(value, i)]; forall k | 0 <= k < |blanks| :: IsBlank(blanks[k])
  {
    SkippedAreBlanks(value, i);
    var blanks := value[i..SkipSpaces(value, i)];
    forall k | 0 <= k < |blanks| ensures IsBlank(blanks[k]) {
      assert blanks[k] == value[i + k];
      SameCharacters(value[i + k]);
    }
  }

  lemma CutTwice(value: string, i: nat, at: nat, next: nat)
    requires i <= at <= next <= |value|
    ensures value[i..] == value[i..at] + (value[at..next] + value[next..])
  {
    assert value[at..] == value[at..next] + value[next..];
    assert value[i..] == value[i..at] + value[at..];
  }

  /** The first character of a token that is no parenthesis. */
  lemma WordStarts(token: Token)
    requires IsTokenSpelt(token) && !IsParenthesis(token)
    ensures TextOf(token) != "" && IsLetterOrDigit(TextOf(token)[0])
  {
  }

  lemma PiecesJoin(first: Piece, rest: seq<Piece>, value: string, i: nat, next: nat)
    requires i <= next <= |value| && value[i..] == first.blanks + (TextOf(first.token) + value[next..])
    requires IsPieceSpelt(first) && IsSpelt(rest) && value[next..] == Written(rest)
    requires IsParenthesis(first.token) || (next < |value| ==> !IsLetterOrDigit(value[next]))
    ensures IsSpelt([first] + rest) && value[i..] == Written([first] + rest)
  {
    var all := [first] + rest;
    assert all[1..] == rest;
    forall k | 0 <= k < |all| - 1 ensures MayFollow(all[k], all[k + 1]) {
      if k > 0 {
        assert MayFollow(rest[k - 1], rest[k - 1 + 1]);
      } else {
        var second := rest[0];
        assert IsPieceSpelt(second);
        if second.blanks == "" && !IsParenthesis(second.token) {
          WordStarts(second.token);
          assert value[next..] == TextOf(second.token) + Written(rest[1..]);
          assert value[next] == value[next..][0];
        }
      }
    }
  }

  lemma {:induction false} TokenisedIsSpelt(value: string, i: nat) returns (pieces: seq<Piece>)
    requires i <= |value| && TokensFrom(value, i).Some?
    ensures IsSpelt(pieces) && value[i..] == Written(pieces) && TokensFrom(value, i) == Some(TokensIn(pieces))
    decreases |value| - i
  {
    if i == |value| {
      pieces := [];
    } else {
      var next := ScanAt(value, i).value.next;
      var rest := TokenisedIsSpelt(value, next);
      ScannedIsPiece(value, i);
      PiecesJoin(PieceAt(value, i), rest, value, i, next);
      pieces := [PieceAt(value, i)] + rest;
      TailIsSpelt(pieces);
      assert pieces[1..] == rest;
    }
  }

  // ----- the theorems

  ghost predicate SpellsExpression(value: string, pieces: seq<Piece>) {
    IsSpelt(pieces) && value == Written(pieces) && Derives(TokensIn(pieces))
  }

  /** A text is a licence expression exactly when it is spelt as a list of tokens that derives. */
  lemma ExpressionIsSpelt(value: string)
    ensures IsExpression(value) <==> exists pieces :: SpellsExpression(value, pieces)
  {
    assert value[0..] == value;
    if IsExpression(value) {
      var pieces := TokenisedIsSpelt(value, 0);
      assert SpellsExpression(value, pieces);
    }
    if pieces :| SpellsExpression(value, pieces) {
      SpeltIsTokenised(pieces, value, 0);
    }
  }

  predicate MayStand(c: char) {
    IsBlank(c) || IsIdLetter(c) || c as int == 40 || c as int == 41
  }

  lemma {:induction false} WrittenCharacters(pieces: seq<Piece>)
    requires IsSpelt(pieces)
    ensures forall k | 0 <= k < |Written(pieces)| :: MayStand(Written(pieces)[k])
  {
    if pieces != [] {
      TailIsSpelt(pieces);
      WrittenCharacters(pieces[1..]);
      assert IsPieceSpelt(pieces[0]);
      TokenCharacters(pieces[0].token);
    }
  }

  lemma TokenCharacters(token: Token)
    requires IsTokenSpelt(token)
    ensures forall k | 0 <= k < |TextOf(token)| :: MayStand(TextOf(token)[k])
  {
  }

  /** Nothing else stands in a licence expression: a slash, a comma or an underscore refuses the whole text. */
  lemma AcceptedCharacters(value: string)
    requires IsExpression(value)
    ensures forall k | 0 <= k < |value| :: MayStand(value[k])
  {
    ExpressionIsSpelt(value);
    var pieces :| SpellsExpression(value, pieces);
    WrittenCharacters(pieces);
  }

  /** A slash refuses the text, as in the old way of Cargo to give two licences. */
  lemma SlashIsRefused(value: string, at: nat)
    requires at < |value| && value[at] == '/'
    ensures !IsExpression(value)
  {
    assert !MayStand(value[at]);
    if IsExpression(value) { AcceptedCharacters(value); }
  }
}
