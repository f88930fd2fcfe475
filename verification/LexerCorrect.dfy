/**
 What the lexer guarantees: correctly spelled tokens, separated where they need to
 be, come back as they were written; identifiers and constants are as long as
 possible (C11 6.4 p4); and what it delivers is what the parser asks for.
*/
module LexerCorrect {
  import opened Options
  import opened Names
  import opened Flow
  import opened Scanning
  import K = Tokens

  // ----- spelling -----

  function Spelling(k: K.TokenType): string {
    match k
    case IntKeyword => "int"
    case ReturnKeyword => "return"
    case VoidKeyword => "void"
    case IfKeyword => "if"
    case ElseKeyword => "else"
    case OpenParenthesis => "("
    case CloseParenthesis => ")"
    case OpenBrace => "{"
    case CloseBrace => "}"
    case Semicolon => ";"
    case Equality => "=="
    case Assign => "="
    case Addition => "+"
    case AdditionEquals => "+="
    case SubtractionEquals => "-="
    case Multiplication => "*"
    case Division => "/"
    case Modulus => "%"
    case Increment => "++"
    case Decrement => "--"
    case Tilde => "~"
    case Minus => "-"
    case Bang => "!"
    case NotEquality => "!="
    case AndAnd => "&&"
    case OrOr => "||"
    case Lesser => "<"
    case Greater => ">"
    case LesserEqual => "<="
    case GreaterEqual => ">="
    case QuestionMark => "?"
    case Colon => ":"
    case _ => ""
  }

  predicate IsKeyword(k: K.TokenType) {
    k == K.IntKeyword || k == K.ReturnKeyword || k == K.VoidKeyword || k == K.IfKeyword || k == K.ElseKeyword
  }

  predicate AllWord(text: string) { forall k :: 0 <= k < |text| ==> IsWord(text[k]) }

  predicate AllSpace(text: string) { forall k :: 0 <= k < |text| ==> IsSpace(text[k]) }

  predicate IsIdentifier(text: string) {
    text != "" && !IsDigit(text[0]) && AllWord(text) && text !in KEYWORDS
  }

  /** The text is a token of this kind. */
  predicate Spelled(k: K.TokenType, text: string) {
    text != "" &&
    if k == K.Identifier then IsIdentifier(text)
    else if k == K.Numeral then AllDigits(text)
    else text == Spelling(k)
  }

  /** A token is not continued by the character d. */
  predicate Breaks(k: K.TokenType, text: string, d: char)
    requires text != ""
  {
    if k == K.Identifier || IsKeyword(k) then !IsWord(d)
    else if k == K.Numeral then !IsDigit(d) && !IsAlpha(d)
    else |text| == 2 || OperatorAt(text[0], d).1 == 1
  }

  // ----- one token -----

  lemma SpellingOperator(k: K.TokenType, d: char)
    requires Spelling(k) != "" && !IsKeyword(k)
    ensures var t := Spelling(k);
      && 1 <= |t| <= 2 && !IsSpace(t[0]) && t[0] != NUL && !IsWord(t[0])
      && (|t| == 2 ==> OperatorAt(t[0], t[1]) == (k, 2))
      && (|t| == 1 && OperatorAt(t[0], d).1 == 1 ==> OperatorAt(t[0], d) == (k, 1))
  {}

  lemma SpellingKeyword(k: K.TokenType)
    requires IsKeyword(k)
    ensures KeywordOf(Spelling(k)) == k && AllWord(Spelling(k)) && Spelling(k) != "" && IsAlpha(Spelling(k)[0])
  {}

  lemma SpaceBreaks(k: K.TokenType, text: string, d: char)
    requires Spelled(k, text) && IsSpace(d)
    ensures Breaks(k, text, d)
  {
    OperatorSpace(text[0], d);
  }

  lemma OperatorSpace(c: char, d: char)
    requires IsSpace(d)
    ensures OperatorAt(c, d).1 == 1
  {}

  lemma WordFirst(k: K.TokenType, text: string)
    requires Spelled(k, text) && (k == K.Identifier || k == K.Numeral)
    ensures IsWord(text[0])
  {}

  lemma FirstCharacter(k: K.TokenType, text: string)
    requires Spelled(k, text)
    ensures !IsSpace(text[0]) && text[0] != NUL
  {
    if k == K.Identifier || k == K.Numeral {
      WordFirst(k, text);
    } else if IsKeyword(k) {
      SpellingKeyword(k);
    } else {
      SpellingOperator(k, NUL);
    }
  }

  /** The text of the token stands at s, and what follows breaks it. */
  ghost predicate Stands(src: string, s: nat, k: K.TokenType, text: string) {
    && Spelled(k, text) && s + |text| <= |src| && src[s..s + |text|] == text
    && Breaks(k, text, CharAt(src, s + |text|))
  }

  /** The token is scanned as it was written. */
  ghost predicate ScansAs(r: Result<Scan>, k: K.TokenType, text: string, end: nat) {
    && r.Success? && r.value.end == end && r.value.token.kind == k
    && (k == K.Identifier || k == K.Numeral ==> r.value.token.text == text)
  }

  lemma WordStands(src: string, s: nat, k: K.TokenType, text: string)
    requires Stands(src, s, k, text) && (k == K.Identifier || IsKeyword(k))
    ensures src[s] != NUL && ScansAs(ScanToken(src, s), k, text, s + |text|)
  {
    if IsKeyword(k) { SpellingKeyword(k); }
    var e := s + |text|;
    assert src[s] == text[0] && IsWord(text[0]);
    forall j | s + 1 <= j < e ensures IsWord(src[j]) { assert src[j] == text[j - s]; }
    RunEndIs(src, s + 1, IsWord, e);
    assert ScanToken(src, s) == Success(ScanIdentifier(src, s));
  }

  lemma ConstantStands(src: string, s: nat, text: string)
    requires Stands(src, s, K.Numeral, text)
    ensures src[s] != NUL && ScansAs(ScanToken(src, s), K.Numeral, text, s + |text|)
  {
    var e := s + |text|;
    assert src[s] == text[0];
    forall j | s + 1 <= j < e ensures IsNumeric(src[j]) { assert src[j] == text[j - s]; }
    RunEndIs(src, s + 1, IsNumeric, e);
    assert ScanToken(src, s) == Success(ScanConstant(src, s));
  }

  lemma OperatorStands(src: string, s: nat, k: K.TokenType, text: string)
    requires Stands(src, s, k, text) && k != K.Identifier && k != K.Numeral && !IsKeyword(k)
    requires s > 0 || !Sliced(k, |text|)
    ensures src[s] != NUL && ScansAs(ScanToken(src, s), k, text, s + |text|)
  {
    var d := CharAt(src, s + 1);
    SpellingOperator(k, d);
    assert src[s] == text[0];
    if |text| == 2 { assert src[s + 1] == text[1]; }
    assert ScanToken(src, s) == ScanOperator(src, s);
  }

  lemma TokenStands(src: string, s: nat, k: K.TokenType, text: string)
    requires Stands(src, s, k, text) && (s > 0 || !Sliced(k, |text|))
    ensures src[s] != NUL && ScansAs(ScanToken(src, s), k, text, s + |text|)
  {
    if k == K.Identifier || IsKeyword(k) {
      WordStands(src, s, k, text);
    } else if k == K.Numeral {
      ConstantStands(src, s, text);
    } else {
      OperatorStands(src, s, k, text);
    }
  }

  /** A token after white space, which is needed only where the text is cut out one character early. */
  lemma TokenAfterSpace(src: string, p: nat, s: nat, k: K.TokenType, text: string)
    requires p <= s && Stands(src, s, k, text) && (forall j :: p <= j < s ==> IsSpace(src[j]))
    requires s > 0 || !Sliced(k, |text|)
    ensures ScansAs(ScanFrom(src, p), k, text, s + |text|)
  {
    FirstCharacter(k, text);
    assert src[s] == text[0];
    RunEndIs(src, p, IsSpace, s);
    TokenStands(src, s, k, text);
    assert ScanFrom(src, p) == ScanToken(src, s);
  }

  // ----- the round trip -----

  /** A token and the white space after it. */
  datatype Piece = Piece(kind: K.TokenType, text: string, gap: string)

  function Layout(pieces: List<Piece>): string {
    match pieces
    case Nil => ""
    case Cons(p, rest) => p.text + p.gap + Layout(rest)
  }

  /** Correctly spelled, with white space at the end and between tokens, which may be left out where the next
      token does not continue the one before. */
  predicate WellSpaced(pieces: List<Piece>) {
    pieces.Cons? ==>
      var p, rest := pieces.head, pieces.tail;
      && Spelled(p.kind, p.text) && AllSpace(p.gap) && WellSpaced(rest)
      && (p.gap == "" ==> rest.Cons? && Breaks(p.kind, p.text, rest.head.text[0]))
  }

  /** The same kinds, the same texts for identifiers and constants, and then the end of the file. */
  ghost predicate Tells(tokens: List<K.Token>, pieces: List<Piece>) {
    if pieces.Nil? then tokens.Cons? && tokens.head.kind == K.EndOfFile && tokens.tail.Nil?
    else
      && tokens.Cons? && tokens.head.kind == pieces.head.kind
      && (tokens.head.kind == K.Identifier || tokens.head.kind == K.Numeral ==> tokens.head.text == pieces.head.text)
      && Tells(tokens.tail, pieces.tail)
  }

  lemma Cut(src: string, p: nat, a: string, b: string, c: string)
    requires p <= |src| && src[p..] == a + (b + c)
    ensures var s := p + |a|; var q := s + |b|;
      q <= |src| && src[p..s] == a && src[s..q] == b && src[q..] == c
  {
    var s := p + |a|;
    var q := s + |b|;
    assert src[p..s] == src[p..][..|a|] == a;
    assert src[s..] == src[p..][|a|..] == b + c;
    assert src[s..q] == src[s..][..|b|] == b;
    assert src[q..] == src[s..][|b|..] == c;
  }

  lemma JoinedBreaks(a: Piece, b: Piece, rest: string)
    requires a.text != "" && a.gap == "" && b.text != "" && Breaks(a.kind, a.text, b.text[0])
    ensures var more := a.gap + (b.text + rest); more != "" && Breaks(a.kind, a.text, more[0])
  {
    assert a.gap + (b.text + rest) == b.text + rest;
    assert (b.text + rest)[0] == b.text[0];
  }

  lemma SpacedBreaks(a: Piece, rest: string)
    requires Spelled(a.kind, a.text) && AllSpace(a.gap) && a.gap != ""
    ensures var more := a.gap + rest; more != "" && Breaks(a.kind, a.text, more[0])
  {
    assert (a.gap + rest)[0] == a.gap[0];
    SpaceBreaks(a.kind, a.text, a.gap[0]);
  }

  /** What comes after a token breaks it. */
  lemma AfterBreaks(a: Piece, rest: List<Piece>)
    requires WellSpaced(Cons(a, rest))
    ensures var more := a.gap + Layout(rest); more != "" && Breaks(a.kind, a.text, more[0])
  {
    if a.gap == "" {
      var b := rest.head;
      assert Layout(rest) == b.text + (b.gap + Layout(rest.tail));
      JoinedBreaks(a, b, b.gap + Layout(rest.tail));
    } else {
      SpacedBreaks(a, Layout(rest));
    }
  }

  lemma PieceAt(src: string, p: nat, lead: string, a: Piece, rest: List<Piece>)
    requires p <= |src| && src[p..] == lead + Layout(Cons(a, rest)) && WellSpaced(Cons(a, rest))
    ensures var s := p + |lead|; var q := s + |a.text|;
      && q < |src| && src[p..s] == lead && src[q..] == a.gap + Layout(rest) && Stands(src, s, a.kind, a.text)
  {
    var more := a.gap + Layout(rest);
    assert Layout(Cons(a, rest)) == a.text + more;
    Cut(src, p, lead, a.text, more);
    AfterBreaks(a, rest);
    assert src[p + |lead| + |a.text|] == more[0];
  }

  lemma {:induction false} LexLayout(src: string, p: nat, lead: string, pieces: List<Piece>)
    requires p < |src| && src[p..] == lead + Layout(pieces) && AllSpace(lead) && WellSpaced(pieces)
    requires p + |lead| > 0 || (pieces.Cons? && !Sliced(pieces.head.kind, |pieces.head.text|))
    ensures LexFrom(src, p).Success? && Tells(LexFrom(src, p).value, pieces)
    decreases pieces
  {
    var s := p + |lead|;
    if pieces.Nil? {
      Cut(src, p, lead, "", "");
      SpaceFrom(src, p, lead);
      RunEndIs(src, p, IsSpace, s);
    } else {
      var a := pieces.head;
      var q := s + |a.text|;
      PieceAt(src, p, lead, a, pieces.tail);
      SpaceFrom(src, p, lead);
      TokenAfterSpace(src, p, s, a.kind, a.text);
      LexLayout(src, q, a.gap, pieces.tail);
      LexNext(src, p, a, pieces, q);
    }
  }

  lemma SpaceFrom(src: string, p: nat, lead: string)
    requires p + |lead| <= |src| && src[p..p + |lead|] == lead && AllSpace(lead)
    ensures forall j :: p <= j < p + |lead| ==> IsSpace(src[j])
  {
    forall j | p <= j < p + |lead| ensures IsSpace(src[j]) { assert src[j] == lead[j - p]; }
  }

  lemma {:induction false} LexNext(src: string, p: nat, a: Piece, pieces: List<Piece>, q: nat)
    requires pieces.Cons? && pieces.head == a && Spelled(a.kind, a.text)
    requires p < |src| && ScansAs(ScanFrom(src, p), a.kind, a.text, q)
    requires LexFrom(src, q).Success? && Tells(LexFrom(src, q).value, pieces.tail)
    ensures LexFrom(src, p).Success? && Tells(LexFrom(src, p).value, pieces)
  {
    assert a.kind != K.Invalid && a.kind != K.EndOfFile;
    assert LexFrom(src, p) == Success(Cons(ScanFrom(src, p).value.token, LexFrom(src, q).value));
  }

  /** Tokens written with white space before them lex to themselves, without violating the assertion on entry. */
  lemma LexRoundTrip(lead: string, pieces: List<Piece>)
    requires lead != "" && AllSpace(lead) && WellSpaced(pieces)
    ensures var r := LexFrom(lead + Layout(pieces), 0); r.Success? && Tells(r.value, pieces)
  {
    LexLayout(lead + Layout(pieces), 0, lead, pieces);
  }

  // ----- maximal munch -----

  /** The whole run of word characters: an identifier, or a keyword with its own spelling. */
  ghost predicate WholeWord(src: string, s: nat, r: Scan)
    requires s <= |src| && r.end <= |src|
  {
    && s < r.end && r.token.text == src[s..r.end] && AllWord(r.token.text) && !IsDigit(r.token.text[0])
    && (r.end < |src| ==> !IsWord(src[r.end]))
    && if r.token.kind == K.Identifier then r.token.text !in KEYWORDS else r.token.text == Spelling(r.token.kind)
  }

  /** The whole run of digits. */
  ghost predicate WholeConstant(src: string, s: nat, r: Scan)
    requires s <= |src| && r.end <= |src|
  {
    && s < r.end && r.token.text == src[s..r.end] && AllDigits(r.token.text)
    && (r.end < |src| ==> !IsDigit(src[r.end]) && !IsAlpha(src[r.end]))
  }

  /** Identifiers, keywords and constants take in all the characters they can, and every call moves on. */
  lemma MaximalMunch(src: string, p: nat)
    requires p < |src| && ScanFrom(src, p).Success?
    ensures var r, s := ScanFrom(src, p).value, RunEnd(src, p, IsSpace);
      && p < r.end <= |src|
      && (r.token.kind == K.Identifier || IsKeyword(r.token.kind) ==> WholeWord(src, s, r))
      && (r.token.kind == K.Numeral ==> WholeConstant(src, s, r))
  {
    var s := RunEnd(src, p, IsSpace);
    if CharAt(src, s) != NUL {
      if IsDigit(src[s]) {
        ConstantWhole(src, s);
      } else if IsAlpha(src[s]) || src[s] == '_' {
        WordWhole(src, s);
      } else {
        OperatorKinds(src[s], CharAt(src, s + 1));
      }
    }
  }

  lemma ConstantWhole(src: string, s: nat)
    requires s < |src| && IsDigit(src[s])
    ensures var r := ScanConstant(src, s);
      r.end <= |src| && (r.token.kind == K.Numeral || r.token.kind == K.Invalid)
      && (r.token.kind == K.Numeral ==> WholeConstant(src, s, r))
  {}

  lemma WordWhole(src: string, s: nat)
    requires s < |src| && (IsAlpha(src[s]) || src[s] == '_')
    ensures var r := ScanIdentifier(src, s); r.end <= |src| && r.token.kind != K.Numeral && WholeWord(src, s, r)
  {
    KeywordSpelled(ScanIdentifier(src, s).token.text);
    KeywordsExactly(ScanIdentifier(src, s).token.text);
  }

  lemma KeywordSpelled(text: string)
    ensures IsKeyword(KeywordOf(text)) ==> text == Spelling(KeywordOf(text))
    ensures KeywordOf(text) == K.Identifier || IsKeyword(KeywordOf(text))
  {}

  lemma OperatorKinds(c: char, d: char)
    ensures var k := OperatorAt(c, d).0; k != K.Identifier && k != K.Numeral && k != K.EndOfFile && !IsKeyword(k)
  {}

  // ----- operators -----

  /** `==` `!=` `<=` `>=` `+=` `-=` `++` `--` `&&` `||`. */
  predicate Doubled(c: char, d: char) {
    (d == '=' && c in {'=', '!', '<', '>', '+', '-'}) || (d == c && c in {'+', '-', '&', '|'})
  }

  const SINGLES := {'=', '+', ';', '{', '}', '(', ')', '~', '-', '*', '/', '%', '!', '<', '>', ':', '?'}

  /** The longest operator is taken, and its kind is the one that is spelled so.  Three inputs are odd: `&|` is `||`,
      a lone `&` or `|` is `:`. */
  lemma OperatorsExactly(c: char, d: char)
    ensures var r := OperatorAt(c, d);
      if Doubled(c, d) then r.1 == 2 && Spelling(r.0) == [c, d]
      else if c == '&' && d == '|' then r == (K.OrOr, 2)
      else if c in SINGLES then r.1 == 1 && Spelling(r.0) == [c]
      else r == (if c == '&' || c == '|' then K.Colon else K.Invalid, 1)
  {
    if Doubled(c, d) { DoublesExactly(c, d); } else { SinglesExactly(c, d); }
  }

  lemma DoublesExactly(c: char, d: char)
    requires Doubled(c, d)
    ensures OperatorAt(c, d).1 == 2 && Spelling(OperatorAt(c, d).0) == [c, d]
  {}

  lemma SinglesExactly(c: char, d: char)
    requires !Doubled(c, d)
    ensures var r := OperatorAt(c, d);
      if c == '&' && d == '|' then r == (K.OrOr, 2)
      else if c in SINGLES then r.1 == 1 && Spelling(r.0) == [c]
      else r == (if c == '&' || c == '|' then K.Colon else K.Invalid, 1)
  {}

  /** The text of an operator token: its character, with `<` for `>` and `:` for a lone `&` or `|`; where it is `=`,
      longer, or invalid, the characters of the source from one before it. */
  lemma OperatorText(src: string, s: nat)
    requires s < |src| && src[s] != NUL && ScanOperator(src, s).Success?
    ensures var r, c := ScanOperator(src, s).value, src[s];
      r.token.text ==
        if r.end == s + 1 && c != '=' && (c in SINGLES || c == '&' || c == '|')
        then [if c == '>' then '<' else if c == '&' || c == '|' then ':' else c]
        else if s > 0 then src[s - 1..r.end] else ""
    ensures ScanOperator(src, s).value.end == s + OperatorAt(src[s], CharAt(src, s + 1)).1
  {
    OperatorsExactly(src[s], CharAt(src, s + 1));
  }

  // ----- the whole source -----

  /** The tokens one after the other, each scanned where the one before ends; none is invalid, and the last is the
      first end of file. */
  ghost predicate InTurn(src: string, p: nat, tokens: List<K.Token>)
    decreases tokens
  {
    && tokens.Cons? && p < |src| && ScanFrom(src, p).Success? && ScanFrom(src, p).value.token == tokens.head
    && tokens.head.kind != K.Invalid
    && (tokens.head.kind == K.EndOfFile <==> tokens.tail.Nil?)
    && (tokens.tail.Cons? ==> InTurn(src, ScanFrom(src, p).value.end, tokens.tail))
  }

  /** The loop succeeds exactly with these tokens, so it neither skips nor accepts an invalid one. */
  lemma {:induction false} LexesInTurn(src: string, p: nat, tokens: List<K.Token>)
    ensures LexFrom(src, p) == Success(tokens) <==> InTurn(src, p, tokens)
    decreases tokens
  {
    if tokens.Cons? && p < |src| && ScanFrom(src, p).Success? {
      LexesInTurn(src, ScanFrom(src, p).value.end, tokens.tail);
    }
  }

  // ----- what the parser gets -----

  /** One end of file, at the end; constants are digits; identifiers are spelled as such, so they contain no dot. */
  ghost predicate Clean(tokens: List<K.Token>) {
    && tokens.Cons?
    && (tokens.head.kind == K.EndOfFile <==> tokens.tail.Nil?)
    && (tokens.head.kind == K.Numeral ==> tokens.head.text != "" && AllDigits(tokens.head.text))
    && (tokens.head.kind == K.Identifier ==> IsIdentifier(tokens.head.text) && !HasDot(tokens.head.text))
    && (tokens.tail.Cons? ==> Clean(tokens.tail))
  }

  lemma {:induction false} LexedIsClean(src: string, p: nat)
    requires LexFrom(src, p).Success?
    ensures Clean(LexFrom(src, p).value)
    decreases |src| - p
  {
    var r := ScanFrom(src, p).value;
    MaximalMunch(src, p);
    if r.token.kind != K.EndOfFile {
      LexedIsClean(src, r.end);
    }
  }
}
