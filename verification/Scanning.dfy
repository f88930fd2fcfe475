/** What the lexer makes of the characters. */
module Scanning {
  // What is read from a position on, as functions of the source text; the lexer object
  // is proved to compute these.

  import opened Options
  import opened Names
  import opened Flow
  import K = Tokens

  // ----- characters, as in the C locale -----

  predicate IsSpace(c: char) { c == ' ' || '\t' <= c <= '\r' }
  predicate IsNumeric(c: char) { IsDigit(c) }
  predicate IsAlpha(c: char) { 'a' <= c <= 'z' || 'A' <= c <= 'Z' }
  predicate IsAlnum(c: char) { IsAlpha(c) || IsDigit(c) }
  predicate IsWord(c: char) { IsAlnum(c) || c == '_' }

  const LOWER := {'a', 'b', 'c', 'd', 'e', 'f', 'g', 'h', 'i', 'j', 'k', 'l', 'm', 'n', 'o', 'p', 'q', 'r', 's', 't',
                  'u', 'v', 'w', 'x', 'y', 'z'}

  const UPPER := {'A', 'B', 'C', 'D', 'E', 'F', 'G', 'H', 'I', 'J', 'K', 'L', 'M', 'N', 'O', 'P', 'Q', 'R', 'S', 'T',
                  'U', 'V', 'W', 'X', 'Y', 'Z'}

  const DIGITS := {'0', '1', '2', '3', '4', '5', '6', '7', '8', '9'}

  /** The classes character by character; white space is space, tab, newline, vertical tab, form feed and return. */
  lemma CharacterClasses(c: char)
    ensures IsSpace(c) <==> c == ' ' || c == '\t' || c == '\n' || c as int == 11 || c as int == 12 || c == '\r'
    ensures IsNumeric(c) <==> c in DIGITS
    ensures IsAlpha(c) <==> c in LOWER || c in UPPER
    ensures IsWord(c) <==> c in LOWER || c in UPPER || c in DIGITS || c == '_'
  {}

  const NUL: char := '\0'

  /** The character at i; past the end it is NUL. */
  function CharAt(src: string, i: nat): char { if i < |src| then src[i] else NUL }

  // ----- lines and columns -----

  function LineAt(src: string, i: nat): nat
    requires i <= |src|
  {
    if i == 0 then 1 else LineAt(src, i - 1) + if src[i - 1] == '\n' then 1 else 0
  }

  function ColumnAt(src: string, i: nat): nat
    requires i <= |src|
  {
    if i == 0 || src[i - 1] == '\n' then 1 else ColumnAt(src, i - 1) + 1
  }

  function Newlines(src: string, i: nat): set<nat>
    requires i <= |src|
  {
    set k: nat | k < i && src[k] == '\n'
  }

  /** The line is one plus the newlines before. */
  lemma {:induction false} LineCounts(src: string, i: nat)
    requires i <= |src|
    ensures LineAt(src, i) == 1 + |Newlines(src, i)|
  {
    if i > 0 {
      LineCounts(src, i - 1);
      if src[i - 1] == '\n' {
        assert Newlines(src, i) == Newlines(src, i - 1) + {i - 1};
      } else {
        assert Newlines(src, i) == Newlines(src, i - 1);
      }
    }
  }

  /** The column is one plus the characters since the last newline. */
  lemma {:induction false} ColumnCounts(src: string, i: nat)
    requires i <= |src|
    ensures var start := i - (ColumnAt(src, i) - 1);
      && 0 <= start && (start == 0 || src[start - 1] == '\n')
      && forall k :: start <= k < i ==> src[k] != '\n'
  {
    if i > 0 && src[i - 1] != '\n' { ColumnCounts(src, i - 1); }
  }

  // ----- runs of characters -----

  /** The end of the run of f-characters that begins at i. */
  function RunEnd(src: string, i: nat, f: char -> bool): (e: nat)
    requires i <= |src|
    ensures i <= e <= |src|
    ensures (forall k :: i <= k < e ==> f(src[k])) && (e < |src| ==> !f(src[e]))
    decreases |src| - i
  {
    if i < |src| && f(src[i]) then RunEnd(src, i + 1, f) else i
  }

  lemma {:induction false} RunEndIs(src: string, i: nat, f: char -> bool, e: nat)
    requires i <= e <= |src| && (forall k :: i <= k < e ==> f(src[k])) && (e < |src| ==> !f(src[e]))
    ensures RunEnd(src, i, f) == e
    decreases e - i
  {
    if i < e { RunEndIs(src, i + 1, f, e); }
  }

  // ----- tokens -----

  /** check_keyword. */
  function KeywordOf(text: string): K.TokenType {
    if text == "if" then K.IfKeyword
    else if text == "int" then K.IntKeyword
    else if text == "void" then K.VoidKeyword
    else if text == "else" then K.ElseKeyword
    else if text == "return" then K.ReturnKeyword
    else K.Identifier
  }

  const KEYWORDS: set<string> := {"if", "int", "void", "else", "return"}

  /** Nothing else is a keyword. */
  lemma KeywordsExactly(text: string)
    ensures KeywordOf(text) == K.Identifier <==> text !in KEYWORDS
  {}

  /** The kind of an operator or delimiter that begins with c, and its number of characters, where d comes after c.
      A lone `&` or `|` falls through to the case of `:`, and `&|` to that of `||`. */
  function OperatorAt(c: char, d: char): (r: (K.TokenType, nat))
    ensures 1 <= r.1 <= 2 && (d == NUL ==> r.1 == 1)
  {
    match c
    case '=' => if d == '=' then (K.Equality, 2) else (K.Assign, 1)
    case '+' => if d == '+' then (K.Increment, 2) else if d == '=' then (K.AdditionEquals, 2) else (K.Addition, 1)
    case ';' => (K.Semicolon, 1)
    case '{' => (K.OpenBrace, 1)
    case '}' => (K.CloseBrace, 1)
    case '(' => (K.OpenParenthesis, 1)
    case ')' => (K.CloseParenthesis, 1)
    case '~' => (K.Tilde, 1)
    case '-' => if d == '-' then (K.Decrement, 2) else if d == '=' then (K.SubtractionEquals, 2) else (K.Minus, 1)
    case '*' => (K.Multiplication, 1)
    case '/' => (K.Division, 1)
    case '%' => (K.Modulus, 1)
    case '!' => if d == '=' then (K.NotEquality, 2) else (K.Bang, 1)
    case '<' => if d == '=' then (K.LesserEqual, 2) else (K.Lesser, 1)
    case '>' => if d == '=' then (K.GreaterEqual, 2) else (K.Greater, 1)
    case '&' => if d == '&' then (K.AndAnd, 2) else if d == '|' then (K.OrOr, 2) else (K.Colon, 1)
    case '|' => if d == '|' then (K.OrOr, 2) else (K.Colon, 1)
    case ':' => (K.Colon, 1)
    case '?' => (K.QuestionMark, 1)
    case _ => (K.Invalid, 1)
  }

  /** The texts given to one-character tokens; a `>` is given the text of a `<`. */
  function LiteralText(k: K.TokenType): string {
    match k
    case Addition => "+"
    case Semicolon => ";"
    case OpenBrace => "{"
    case CloseBrace => "}"
    case OpenParenthesis => "("
    case CloseParenthesis => ")"
    case Tilde => "~"
    case Minus => "-"
    case Multiplication => "*"
    case Division => "/"
    case Modulus => "%"
    case Bang => "!"
    case Lesser => "<"
    case Greater => "<"
    case Colon => ":"
    case QuestionMark => "?"
    case _ => ""
  }

  /** Whether the text is cut out of the source. */
  predicate Sliced(k: K.TokenType, width: nat) { width != 1 || k == K.Assign || k == K.Invalid }

  /** A token and the position after it. */
  datatype Scan = Scan(token: K.Token, end: nat)

  function ScanConstant(src: string, s: nat): Scan
    requires s < |src|
  {
    var e := RunEnd(src, s + 1, IsNumeric);
    if IsAlpha(CharAt(src, e)) then
      var e' := RunEnd(src, e, IsAlnum);
      Scan(K.Token(K.Invalid, src[s..e'], LineAt(src, s + 1), ColumnAt(src, s + 1)), e')
    else Scan(K.Token(K.Numeral, src[s..e], LineAt(src, s + 1), ColumnAt(src, s + 1)), e)
  }

  function ScanIdentifier(src: string, s: nat): Scan
    requires s < |src|
  {
    var e := RunEnd(src, s + 1, IsWord);
    Scan(K.Token(KeywordOf(src[s..e]), src[s..e], LineAt(src, s + 1), ColumnAt(src, s + 1)), e)
  }

  /** A text that is cut out begins one character before the token; at the start of the source that throws. */
  function ScanOperator(src: string, s: nat): Result<Scan>
    requires s < |src| && src[s] != NUL
  {
    var (k, w) := OperatorAt(src[s], CharAt(src, s + 1));
    if !Sliced(k, w) then Success(Scan(K.Token(k, LiteralText(k), LineAt(src, s), ColumnAt(src, s)), s + w))
    else if s == 0 then Thrown
    else Success(Scan(K.Token(k, src[s - 1..s + w], LineAt(src, s), ColumnAt(src, s)), s + w))
  }

  /** The token that begins at s. */
  function ScanToken(src: string, s: nat): (r: Result<Scan>)
    requires s < |src| && src[s] != NUL
    ensures r.Success? ==> s < r.value.end <= |src|
  {
    if IsDigit(src[s]) then Success(ScanConstant(src, s))
    else if IsAlpha(src[s]) || src[s] == '_' then Success(ScanIdentifier(src, s))
    else ScanOperator(src, s)
  }

  /** The token after the white space at p.  The end of the source, or a NUL, is the end of the file. */
  function ScanFrom(src: string, p: nat): (r: Result<Scan>)
    requires p < |src|
    ensures r.Success? ==> p < r.value.end <= |src|
  {
    var s := RunEnd(src, p, IsSpace);
    if CharAt(src, s) == NUL then
      var e := if s < |src| then s + 1 else s;
      Success(Scan(K.Token(K.EndOfFile, "", LineAt(src, e), ColumnAt(src, e)), e))
    else ScanToken(src, s)
  }

  // ----- where tokens stand -----

  /** The character position a token reports: its own for operators, the one after the first character for words and
      constants, and the end for the end of the file. */
  function ReportedAt(src: string, s: nat): (q: nat)
    requires s <= |src|
    ensures s <= q <= |src|
  {
    if s == |src| then s
    else if src[s] == NUL || IsDigit(src[s]) || IsAlpha(src[s]) || src[s] == '_' then s + 1
    else s
  }

  /** One plus the newlines before q, and one plus the characters since the last of them. */
  ghost predicate StandsAt(src: string, q: nat, line: int, column: int)
    requires q <= |src|
  {
    var start := q - (column - 1);
    && line == 1 + |Newlines(src, q)|
    && 0 <= start <= q && (start == 0 || src[start - 1] == '\n') && forall k :: start <= k < q ==> src[k] != '\n'
  }

  lemma LineColumnStand(src: string, q: nat)
    requires q <= |src|
    ensures StandsAt(src, q, LineAt(src, q), ColumnAt(src, q))
  {
    LineCounts(src, q);
    ColumnCounts(src, q);
    ColumnPositive(src, q);
  }

  lemma ColumnPositive(src: string, q: nat)
    requires q <= |src|
    ensures ColumnAt(src, q) >= 1
  {}

  /** The line and column of every token count characters of the source. */
  lemma TokenStandsAt(src: string, p: nat)
    requires p < |src| && ScanFrom(src, p).Success?
    ensures var t := ScanFrom(src, p).value.token;
      StandsAt(src, ReportedAt(src, RunEnd(src, p, IsSpace)), t.line, t.column)
  {
    LineColumnStand(src, ReportedAt(src, RunEnd(src, p, IsSpace)));
  }

  /** The lexing loop of the driver, up to the end of the file.  Scanning from the end of the source violates an
      assertion, and an invalid token is an error. */
  function LexFrom(src: string, p: nat): Result<List<K.Token>>
    decreases |src| - p
  {
    if p >= |src| then Thrown
    else
      var r := ScanFrom(src, p);
      if r.Thrown? || r.value.token.kind == K.Invalid then Thrown
      else if r.value.token.kind == K.EndOfFile then Success(Cons(r.value.token, Nil))
      else
        var rest := LexFrom(src, r.value.end);
        if rest.Thrown? then Thrown else Success(Cons(r.value.token, rest.value))
  }
}
