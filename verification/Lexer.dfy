/** The lexer: a position in the source with its line and column. */
module Lexer {
  import opened Options
  import opened Names
  import opened Flow
  import opened Scanning
  import K = Tokens

  class Lexer {
    const source: string
    var pos: nat
    var line: int
    var col: int

    /** The line is one plus the newlines consumed, the column one plus the characters since the last of them. */
    ghost predicate Valid()
      reads this
    {
      pos <= |source| && line == LineAt(source, pos) && col == ColumnAt(source, pos)
    }

    constructor (source: string)
      ensures Valid() && this.source == source && pos == 0
    {
      this.source := source;
      pos, line, col := 0, 1, 1;
    }

    function Peek(): char
      requires Valid()
      reads this
    {
      if pos >= |source| then NUL else source[pos]
    }

    /** At the end of the source the position stays. */
    method Advance() returns (c: char)
      requires Valid()
      modifies this`pos, this`line, this`col
      ensures Valid() && c == old(Peek()) && pos == if old(pos) < |source| then old(pos) + 1 else old(pos)
    {
      if pos >= |source| { return NUL; }
      c := source[pos];
      pos := pos + 1;
      if c == '\n' {
        line := line + 1;
        col := 1;
      } else {
        col := col + 1;
      }
    }

    /** Consumes a run of f-characters. */
    method AdvanceWhile(f: char -> bool)
      requires Valid() && !f(NUL)
      modifies this`pos, this`line, this`col
      ensures Valid() && pos == RunEnd(source, old(pos), f)
    {
      while pos < |source| && f(Peek())
        invariant Valid() && old(pos) <= pos && RunEnd(source, pos, f) == RunEnd(source, old(pos), f)
        decreases |source| - pos
      {
        var c := Advance();
      }
    }

    /** The first digit has been consumed. */
    method ScanConstant() returns (t: K.Token)
      requires Valid() && pos > 0
      modifies this`pos, this`line, this`col
      ensures Valid() && Scan(t, pos) == Scanning.ScanConstant(source, old(pos) - 1)
    {
      var startPos, startLine, startCol := pos - 1, line, col;
      AdvanceWhile(IsNumeric);
      if pos < |source| && IsAlpha(Peek()) {
        AdvanceWhile(IsAlnum);
        return K.Token(K.Invalid, source[startPos..pos], startLine, startCol);
      }
      return K.Token(K.Numeral, source[startPos..pos], startLine, startCol);
    }

    /** The first character has been consumed. */
    method ScanIdentifier() returns (t: K.Token)
      requires Valid() && pos > 0
      modifies this`pos, this`line, this`col
      ensures Valid() && Scan(t, pos) == Scanning.ScanIdentifier(source, old(pos) - 1)
    {
      var startPos, startLine, startCol := pos - 1, line, col;
      AdvanceWhile(IsWord);
      var text := source[startPos..pos];
      return K.Token(KeywordOf(text), text, startLine, startCol);
    }

    /** Scanning starts before the end of the source, as asserted on entry. */
    method GetNextToken() returns (r: Result<K.Token>)
      requires Valid() && pos < |source|
      modifies this`pos, this`line, this`col
      ensures Valid()
      ensures var s := ScanFrom(source, old(pos));
        if s.Success? then r == Success(s.value.token) && pos == s.value.end else r.Thrown?
    {
      AdvanceWhile(IsSpace);
      var startPos, startLine, startCol := pos, line, col;
      var c := Advance();
      if c == NUL {
        return Success(K.Token(K.EndOfFile, "", line, col));
      }
      if IsDigit(c) {
        var t := ScanConstant();
        return Success(t);
      }
      if IsAlpha(c) || c == '_' {
        var t := ScanIdentifier();
        return Success(t);
      }
      var (kind, width) := OperatorAt(c, Peek());
      if width == 2 {
        var d := Advance();
      }
      if !Sliced(kind, width) {
        return Success(K.Token(kind, LiteralText(kind), startLine, startCol));
      }
      if startPos == 0 {
        return Thrown;
      }
      return Success(K.Token(kind, source[startPos - 1..pos], startLine, startCol));
    }
  }

  /** All the tokens are those so far and then the rest. */
  ghost predicate Goes(all: Result<List<K.Token>>, tokens: seq<K.Token>, rest: Result<List<K.Token>>) {
    if all.Success? then rest.Success? && ToSeq(all.value) == tokens + ToSeq(rest.value) else rest.Thrown?
  }

  lemma TokenizeNext(all: Result<List<K.Token>>, tokens: seq<K.Token>, t: K.Token, rest: Result<List<K.Token>>)
    requires Goes(all, tokens, if rest.Success? then Success(Cons(t, rest.value)) else Thrown)
    ensures Goes(all, tokens + [t], rest)
  {
    if rest.Success? { assert tokens + ([t] + ToSeq(rest.value)) == tokens + [t] + ToSeq(rest.value); }
  }

  /** The lexing loop of the driver. */
  method Tokenize(source: string) returns (r: Result<seq<K.Token>>)
    ensures var l := LexFrom(source, 0); if l.Success? then r == Success(ToSeq(l.value)) else r.Thrown?
  {
    var lexer := new Lexer(source);
    var tokens: seq<K.Token> := [];
    ghost var all := LexFrom(source, 0);
    while true
      invariant lexer.Valid() && lexer.source == source
      invariant Goes(all, tokens, LexFrom(source, lexer.pos))
      decreases |source| - lexer.pos
    {
      if lexer.pos >= |source| { return Thrown; }
      var token :- lexer.GetNextToken();
      if token.kind == K.Invalid { return Thrown; }
      ghost var before := tokens;
      tokens := tokens + [token];
      if token.kind == K.EndOfFile {
        assert ToSeq(Cons(token, Nil)) == [token];
        return Success(tokens);
      }
      TokenizeNext(all, before, token, LexFrom(source, lexer.pos));
    }
  }
}
