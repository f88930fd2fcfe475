/** Variable and label names. */
module Names {
  // A generated name is spelled as a text prefix followed
  // by a decimal counter; the counter can be read back from the spelling, so
  // different names are spelled differently and can be kept in structured form.

  predicate IsDigit(c: char) { '0' <= c <= '9' }

  function DigitValue(c: char): nat
    requires IsDigit(c)
  {
    c as int - '0' as int
  }

  function Digit(d: nat): (c: char)
    requires d < 10
    ensures IsDigit(c) && DigitValue(c) == d
  {
    ('0' as int + d) as char
  }

  predicate AllDigits(s: string) { forall k :: 0 <= k < |s| ==> IsDigit(s[k]) }

  /** std::to_string on a counter. */
  function Decimal(n: nat): (s: string)
    ensures |s| > 0 && AllDigits(s)
  {
    if n < 10 then [Digit(n)] else Decimal(n / 10) + [Digit(n % 10)]
  }

  /** std::from_chars on a string of digits, before any range check. */
  function Value(s: string): nat
    requires AllDigits(s)
  {
    if s == "" then 0 else 10 * Value(s[..|s| - 1]) + DigitValue(s[|s| - 1])
  }

  lemma {:induction false} ValueDecimal(n: nat)
    ensures Value(Decimal(n)) == n
  {
    if n < 10 {
      assert Value([Digit(n)][..0]) == 0;
    } else {
      ValueDecimal(n / 10);
      var s := Decimal(n);
      assert s[..|s| - 1] == Decimal(n / 10);
    }
  }

  // ----- base ten -----

  function Pow(b: nat, e: nat): nat { if e == 0 then 1 else b * Pow(b, e - 1) }

  /** What the first n digits stand for: each counts a power of ten for its distance from the right end. */
  function PlaceValue(s: string, n: nat): nat
    requires AllDigits(s) && n <= |s|
  {
    if n == 0 then 0 else PlaceValue(s, n - 1) + (s[n - 1] as int - '0' as int) * Pow(10, |s| - n)
  }

  lemma {:induction false} PlaceShift(s: string, n: nat)
    requires AllDigits(s) && n < |s|
    ensures PlaceValue(s, n) == 10 * PlaceValue(s[..|s| - 1], n)
  {
    if n > 0 {
      PlaceShift(s, n - 1);
      var d := s[n - 1] as int - '0' as int;
      assert Pow(10, |s| - n) == 10 * Pow(10, |s| - 1 - n);
      TimesTen(d, Pow(10, |s| - 1 - n));
    }
  }

  lemma TimesTen(d: int, p: int)
    ensures d * (10 * p) == 10 * (d * p)
  {}

  /** The value of a constant is the sum of its digits times powers of ten. */
  lemma {:induction false} ValueIsPlaceValue(s: string)
    requires AllDigits(s)
    ensures Value(s) == PlaceValue(s, |s|)
  {
    if s != "" {
      var front := s[..|s| - 1];
      ValueIsPlaceValue(front);
      PlaceShift(s, |s| - 1);
      assert Pow(10, 0) == 1;
    }
  }

  /** Digits, without a leading zero unless it is the only one. */
  predicate Canonical(s: string) { s != "" && AllDigits(s) && (|s| > 1 ==> s[0] != '0') }

  /** A counter is written in base ten. */
  lemma {:induction false} DecimalPlaceValue(n: nat)
    ensures Canonical(Decimal(n)) && PlaceValue(Decimal(n), |Decimal(n)|) == n
  {
    ValueDecimal(n);
    ValueIsPlaceValue(Decimal(n));
    DecimalCanonical(n);
  }

  lemma {:induction false} DecimalCanonical(n: nat)
    ensures Canonical(Decimal(n)) && (n > 0 ==> Decimal(n)[0] != '0')
  {
    if n >= 10 {
      DecimalCanonical(n / 10);
      assert Decimal(n)[0] == Decimal(n / 10)[0];
    }
  }

  /** And in only one way. */
  lemma {:induction false} DecimalUnique(s: string)
    requires Canonical(s)
    ensures s == Decimal(PlaceValue(s, |s|))
    decreases |s|
  {
    ValueIsPlaceValue(s);
    var front, last := s[..|s| - 1], s[|s| - 1];
    assert s == front + [last] && Digit(DigitValue(last)) == last;
    if front == "" {
      assert Value("") == 0;
    } else {
      DecimalUnique(front);
      ValueIsPlaceValue(front);
      CanonicalPositive(front);
    }
  }

  lemma {:induction false} CanonicalPositive(s: string)
    requires AllDigits(s) && s != "" && s[0] != '0'
    ensures Value(s) > 0
    decreases |s|
  {
    if |s| > 1 { CanonicalPositive(s[..|s| - 1]); } else { assert s[..0] == ""; }
  }

  // ----- the counter at the end of a name -----

  /** The longest suffix of digits. */
  function DigitSuffix(s: string): (d: string)
    ensures AllDigits(d)
  {
    if s == "" || !IsDigit(s[|s| - 1]) then "" else DigitSuffix(s[..|s| - 1]) + [s[|s| - 1]]
  }

  /** The counter a generated name ends with. */
  function NumberOf(name: string): nat { Value(DigitSuffix(name)) }

  predicate EndsInNonDigit(prefix: string) { prefix != "" && !IsDigit(prefix[|prefix| - 1]) }

  lemma {:induction false} SuffixOfNumbered(prefix: string, d: string)
    requires EndsInNonDigit(prefix) && AllDigits(d)
    ensures DigitSuffix(prefix + d) == d
  {
    var s := prefix + d;
    if d == "" {
      assert s == prefix;
    } else {
      assert s[..|s| - 1] == prefix + d[..|d| - 1];
      SuffixOfNumbered(prefix, d[..|d| - 1]);
      assert d == d[..|d| - 1] + [d[|d| - 1]];
    }
  }

  function Numbered(prefix: string, n: nat): string { prefix + Decimal(n) }

  /** The counter is read back from any numbered name. */
  lemma NumberOfNumbered(prefix: string, n: nat)
    requires EndsInNonDigit(prefix)
    ensures NumberOf(Numbered(prefix, n)) == n
  {
    SuffixOfNumbered(prefix, Decimal(n));
    ValueDecimal(n);
  }

  // ----- variables and labels -----

  /** A name of the source program, or a temporary of the generator. */
  datatype Name = Ident(text: string) | Temp(number: nat)

  function Spell(x: Name): string {
    match x
    case Ident(text) => text
    case Temp(n) => Numbered("tmp.", n)
  }

  predicate HasDot(text: string) { '.' in text }

  function Dotless(): string -> bool { text => !HasDot(text) }

  /** A temporary, or a name a source program can contain: lexed identifiers have no dot. */
  predicate Plain(x: Name) { x.Ident? ==> !HasDot(x.text) }

  /** No two plain names are spelled alike. */
  lemma SpellInjective(x: Name, y: Name)
    requires Spell(x) == Spell(y) && Plain(x) && Plain(y)
    ensures x == y
  {
    if x.Temp? { TempSpelling(x.number); }
    if y.Temp? { TempSpelling(y.number); }
  }

  lemma TempSpelling(n: nat)
    ensures HasDot(Spell(Temp(n))) && NumberOf(Spell(Temp(n))) == n
  {
    NumberOfNumbered("tmp.", n);
    assert Spell(Temp(n))[3] == '.';
  }

  datatype LabelKind = AndFalse | AndElse | OrTrue | OrEnd | IfEnd | IfElse | E2End | ConditionalEnd

  datatype LabelName = LabelName(kind: LabelKind, number: nat)

  function Prefix(k: LabelKind): (p: string)
    ensures EndsInNonDigit(p)
  {
    match k
    case AndFalse => "and_false"
    case AndElse => "and_else"
    case OrTrue => "or_true"
    case OrEnd => "or_end"
    case IfEnd => "if_end"
    case IfElse => "if_else"
    case E2End => "e2_end"
    case ConditionalEnd => "conditional_end"
  }

  function SpellLabel(x: LabelName): string { Numbered(Prefix(x.kind), x.number) }

  /** No two labels are spelled alike. */
  lemma SpellLabelInjective(x: LabelName, y: LabelName)
    requires SpellLabel(x) == SpellLabel(y)
    ensures x == y
  {
    NumberOfNumbered(Prefix(x.kind), x.number);
    NumberOfNumbered(Prefix(y.kind), y.number);
    var p, q, d := Prefix(x.kind), Prefix(y.kind), Decimal(x.number);
    assert |p| == |q|;
    assert (p + d)[..|p|] == p && (q + d)[..|q|] == q;
    PrefixInjective(x.kind, y.kind);
  }

  lemma PrefixInjective(k: LabelKind, j: LabelKind)
    requires Prefix(k) == Prefix(j)
    ensures k == j
  {
    assert Prefix(k)[0] == Prefix(j)[0] && |Prefix(k)| == |Prefix(j)|;
    if |Prefix(k)| >= 4 { assert Prefix(k)[3] == Prefix(j)[3]; }
  }
}
