/** The tokens the lexer hands to the parser. */
module Tokens {
  import opened Words
  import opened Names

  datatype TokenType =
    | IntKeyword | MainKeyword | ReturnKeyword | VoidKeyword | IfKeyword | ElseKeyword
    | Identifier | OpenParenthesis | CloseParenthesis | OpenBrace | CloseBrace | Numeral | Semicolon
    | Equality | Assign | Addition | AdditionEquals | Subtraction | SubtractionEquals
    | Multiplication | Division | Modulus | Increment | Decrement
    | EndOfFile | Invalid | Tilde | Negation | Minus | Bang | NotEquality | AndAnd | OrOr
    | Lesser | Greater | LesserEqual | GreaterEqual | QuestionMark | Colon

  datatype Token = Token(kind: TokenType, text: string, line: int, column: int)

  /** The text of a constant that std::from_chars reads into an int. */
  predicate InRange(text: string) { text != "" && AllDigits(text) && Value(text) < 0x8000_0000 }

  /** The value of a constant; one out of range leaves the variable unset, and the model says 0 for it. */
  function IntOf(text: string): Word { if InRange(text) then Value(text) else 0 }

  /** A constant is in range when its digits, each times its power of ten, add up to an int; that sum is its value. */
  lemma ConstantIsPlaceValue(text: string)
    ensures InRange(text) <==> text != "" && AllDigits(text) && PlaceValue(text, |text|) < 0x8000_0000
    ensures InRange(text) ==> IntOf(text) == PlaceValue(text, |text|)
  {
    if AllDigits(text) { ValueIsPlaceValue(text); }
  }

  /** What the lexing loop delivers: a single end of file, at the end. */
  predicate Readable(ts: seq<Token>) {
    ts != [] && forall k :: 0 <= k < |ts| ==> (ts[k].kind == EndOfFile <==> k == |ts| - 1)
  }

  type Tokens = ts: seq<Token> | Readable(ts) witness [Token(EndOfFile, "", 1, 1)]
}
