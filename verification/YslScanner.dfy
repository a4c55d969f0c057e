/** The token scanner, as a function on the unread text. */
module YslScanner {
  import opened CodeUnits
  import opened Wrappers

  datatype Token =
    | EOF
    | Illegal
    | Annotation(value: Text)
    | Identifier(value: Text)
    | True
    | False
    | Null
    | Inherited(value: Text)  // an identifier that names a property every JavaScript object inherits
    | Number(value: Text)
    | Str(value: Text)
    | LeftCurly
    | RightCurly
    | LeftSquare
    | RightSquare
    | Colon
    | Comma

  /** A token and the text behind it; also the state of the parser, which holds one token. */
  datatype Scan = Scan(token: Token, rest: Text)

  predicate IsIdentifierUnit(u: Unit) {
    IsDigit(u) || IsAlpha(u)
  }

  predicate IsIdentifierString(s: Text) {
    s != [] && IsAlpha(s[0]) && forall i | 0 < i < |s| :: IsIdentifierUnit(s[i])
  }

  // Lengths of maximal prefixes.

  function DigitRun(s: Text): (n: nat)
    ensures n <= |s| && forall i | 0 <= i < n :: IsDigit(s[i])
  {
    if s != [] && IsDigit(s[0]) then 1 + DigitRun(s[1..]) else 0
  }

  function IdentifierRun(s: Text): (n: nat)
    ensures n <= |s| && forall i | 0 <= i < n :: IsIdentifierUnit(s[i])
  {
    if s != [] && IsIdentifierUnit(s[0]) then 1 + IdentifierRun(s[1..]) else 0
  }

  /** Units before the first backtick. */
  function RawRun(s: Text): (n: nat)
    ensures n <= |s| && forall i | 0 <= i < n :: s[i] != BACKTICK
  {
    if s != [] && s[0] != BACKTICK then 1 + RawRun(s[1..]) else 0
  }

  // Numbers.

  predicate DigitAt(s: Text, i: nat) {
    i < |s| && IsDigit(s[i])
  }

  predicate UnitAt(s: Text, i: nat, u: Unit) {
    i < |s| && s[i] == u
  }

  predicate IsNumberStart(c: Unit, s: Text) {
    || IsDigit(c)
    || (c == DOT && DigitAt(s, 0))
    || ((c == PLUS || c == MINUS) && (DigitAt(s, 0) || (UnitAt(s, 0, DOT) && DigitAt(s, 1))))
  }

  const LOWER_E: Unit := 0x65
  const UPPER_E: Unit := 0x45

  /** Length of an exponent part, 0 when there is none. */
  function ExponentRun(s: Text): (n: nat)
    ensures n <= |s|
  {
    if !(UnitAt(s, 0, LOWER_E) || UnitAt(s, 0, UPPER_E)) then 0
    else
      var signed := if UnitAt(s, 1, PLUS) || UnitAt(s, 1, MINUS) then 2 else 1;
      if DigitAt(s, signed) then signed + DigitRun(s[signed..]) else 0
  }

  /** Length of the digits and the fraction behind the first unit c of a number. */
  function FractionRun(c: Unit, s: Text): (m: nat)
    ensures m <= |s|
  {
    var n := DigitRun(s);
    if c != DOT && UnitAt(s, n, DOT) then n + 1 + DigitRun(s[n + 1..]) else n
  }

  /** readNumber: c is the unit already read. */
  function ReadNumber(c: Unit, s: Text): Scan {
    var m := FractionRun(c, s);
    var k := m + ExponentRun(s[m..]);
    Scan(Number([c] + s[..k]), s[k..])
  }

  // Strings.

  function HexValue(u: Unit): nat
    requires IsDigit(u)
  {
    u - ZERO
  }

  /** parseInt(code, 16) where the code consists of decimal digits. */
  function ParseHex(code: Text): (n: nat)
    requires forall i | 0 <= i < |code| :: IsDigit(code[i])
  {
    if code == [] then 0
    else assert IsDigit(code[|code| - 1]); 16 * ParseHex(code[..|code| - 1]) + HexValue(code[|code| - 1])
  }

  const LETTER_B: Unit := 0x62
  const LETTER_F: Unit := 0x66
  const LETTER_N: Unit := 0x6E
  const LETTER_R: Unit := 0x72
  const LETTER_T: Unit := 0x74
  const LETTER_U: Unit := 0x75
  const LETTER_V: Unit := 0x76
  const LETTER_X: Unit := 0x78

  datatype Escape = Plain(unit: Unit) | Coded(length: nat) | Verbatim

  /** What the unit after a backslash stands for. */
  function EscapeOf(u: Unit): Escape {
    if u == BACKSLASH then Plain(BACKSLASH)
    else if u == LETTER_T then Plain(TAB)
    else if u == LETTER_R then Plain(RETURN)
    else if u == LETTER_N then Plain(NEWLINE)
    else if u == LETTER_F then Plain(FORM_FEED)
    else if u == LETTER_B then Plain(0x08)
    else if u == LETTER_V then Plain(VTAB)
    else if u == LETTER_U then Coded(4)
    else if u == LETTER_X then Coded(2)
    else Verbatim
  }

  lemma {:induction false} ParseHexBound(code: Text)
    requires forall i | 0 <= i < |code| :: IsDigit(code[i])
    ensures |code| <= 4 ==> ParseHex(code) < 0x1_0000
    ensures |code| <= 3 ==> ParseHex(code) < 0x1000
    ensures |code| <= 2 ==> ParseHex(code) < 0x100
    ensures |code| <= 1 ==> ParseHex(code) < 0x10
  {
    if code != [] { ParseHexBound(code[..|code| - 1]); }
  }

  /** The loop of readString: value is what has been read so far. */
  function ReadString(delimiter: Unit, value: Text, s: Text): Scan
    decreases |s|
  {
    if s == [] then Scan(Illegal, [])
    else if s[0] == delimiter then Scan(Str(value), s[1..])
    else if s[0] != BACKSLASH then ReadString(delimiter, value + [s[0]], s[1..])
    else if |s| == 1 then Scan(Illegal, [])
    else match EscapeOf(s[1])
      case Plain(u) => ReadString(delimiter, value + [u], s[2..])
      case Verbatim => ReadString(delimiter, value + [s[1]], s[2..])
      case Coded(length) =>
        var n := Min(DigitRun(s[2..]), length);
        if n < length then Scan(Illegal, s[2 + n..])
        else
          ParseHexBound(s[2..2 + n]);
          ReadString(delimiter, value + [ParseHex(s[2..2 + n])], s[2 + n..])
  }

  // Identifiers.

  const WORD_TRUE: Text := Ascii("true")
  const WORD_FALSE: Text := Ascii("false")
  const WORD_NULL: Text := Ascii("null")

  /** The names that `in` finds on every object literal. */
  predicate IsInheritedName(s: Text) {
    || s == Ascii("constructor") || s == Ascii("__defineGetter__") || s == Ascii("__defineSetter__")
    || s == Ascii("hasOwnProperty") || s == Ascii("__lookupGetter__") || s == Ascii("__lookupSetter__")
    || s == Ascii("isPrototypeOf") || s == Ascii("propertyIsEnumerable") || s == Ascii("toString")
    || s == Ascii("valueOf") || s == Ascii("__proto__") || s == Ascii("toLocaleString")
  }

  function WordToken(word: Text): Token {
    if word == WORD_TRUE then True
    else if word == WORD_FALSE then False
    else if word == WORD_NULL then Null
    else if IsInheritedName(word) then Inherited(word)
    else Identifier(word)
  }

  function ReadIdentifier(c: Unit, s: Text): Scan {
    var n := IdentifierRun(s);
    Scan(WordToken([c] + s[..n]), s[n..])
  }

  function ReadRawIdentifier(s: Text): Scan {
    var n := RawRun(s);
    if n == |s| then Scan(Illegal, []) else Scan(Identifier(s[..n]), s[n + 1..])
  }

  function ReadAnnotation(s: Text): Scan {
    var n := IdentifierRun(s);
    Scan(Annotation(s[..n]), s[n..])
  }

  // Tokens.

  predicate IsPunctuation(c: Unit) {
    c in {LCURLY, RCURLY, LSQUARE, RSQUARE, COLON, COMMA}
  }

  function PunctuationToken(c: Unit): Token
    requires IsPunctuation(c)
  {
    if c == LCURLY then LeftCurly
    else if c == RCURLY then RightCurly
    else if c == LSQUARE then LeftSquare
    else if c == RSQUARE then RightSquare
    else if c == COLON then Token.Colon
    else Token.Comma
  }

  /** readToken after the whitespace: c is the first unit. */
  function ReadTokenFrom(c: Unit, s: Text): Scan {
    if IsPunctuation(c) then Scan(PunctuationToken(c), s)
    else if c == AT then ReadAnnotation(s)
    else if c == DOUBLE_QUOTE || c == SINGLE_QUOTE then ReadString(c, [], s)
    else if IsNumberStart(c, s) then ReadNumber(c, s)
    else if IsAlpha(c) then ReadIdentifier(c, s)
    else if c == BACKTICK then ReadRawIdentifier(s)
    else Scan(Illegal, s)
  }

  function ReadToken(s: Text): Scan {
    var t := TrimStart(s);
    if t == [] then Scan(EOF, []) else ReadTokenFrom(t[0], t[1..])
  }

  // ---------------------------------------------------------------- progress

  lemma {:induction false} ReadStringShrinks(delimiter: Unit, value: Text, s: Text)
    ensures |ReadString(delimiter, value, s).rest| <= |s|
    ensures !ReadString(delimiter, value, s).token.EOF?
    decreases |s|
  {
    if s == [] || s[0] == delimiter {
    } else if s[0] != BACKSLASH {
      ReadStringShrinks(delimiter, value + [s[0]], s[1..]);
    } else if |s| > 1 {
      match EscapeOf(s[1])
      case Plain(u) => ReadStringShrinks(delimiter, value + [u], s[2..]);
      case Verbatim => ReadStringShrinks(delimiter, value + [s[1]], s[2..]);
      case Coded(length) =>
        var n := Min(DigitRun(s[2..]), length);
        if n == length {
          ParseHexBound(s[2..2 + n]);
          ReadStringShrinks(delimiter, value + [ParseHex(s[2..2 + n])], s[2 + n..]);
        }
    }
  }

  lemma {:induction false} TrimStartShrinks(s: Text)
    ensures |TrimStart(s)| <= |s|
  {
    if s != [] && IsWhite(s[0]) { TrimStartShrinks(s[1..]); }
  }

  /** Every token except the end of the text takes at least one unit. */
  lemma ReadTokenShrinks(s: Text)
    ensures ReadToken(s).token.EOF? ==> ReadToken(s).rest == []
    ensures !ReadToken(s).token.EOF? ==> |ReadToken(s).rest| < |s|
  {
    hide IsInheritedName, EscapeOf;
    TrimStartShrinks(s);
    var t := TrimStart(s);
    if t != [] { ReadStringShrinks(t[0], [], t[1..]); }
  }

  // ---------------------------------------------------------------- JSON strings

  predicate IsHighSurrogate(u: Unit) { 0xD800 <= u <= 0xDBFF }
  predicate IsLowSurrogate(u: Unit) { 0xDC00 <= u <= 0xDFFF }

  function HexDigit(n: nat): Unit
    requires n < 16
  {
    if n < 10 then ZERO + n else 0x61 + (n - 10)
  }

  function UnicodeEscape(u: Unit): Text {
    [BACKSLASH, LETTER_U, HexDigit(u / 0x1000), HexDigit(u / 0x100 % 0x10), HexDigit(u / 0x10 % 0x10), HexDigit(u % 0x10)]
  }

  /** The escape of one unit in JSON.stringify, when it is not part of a surrogate pair. */
  function QuoteUnit(u: Unit): Text {
    if u == 0x08 then [BACKSLASH, LETTER_B]
    else if u == TAB then [BACKSLASH, LETTER_T]
    else if u == NEWLINE then [BACKSLASH, LETTER_N]
    else if u == FORM_FEED then [BACKSLASH, LETTER_F]
    else if u == RETURN then [BACKSLASH, LETTER_R]
    else if u == DOUBLE_QUOTE then [BACKSLASH, DOUBLE_QUOTE]
    else if u == BACKSLASH then [BACKSLASH, BACKSLASH]
    else if u < 0x20 || IsHighSurrogate(u) || IsLowSurrogate(u) then UnicodeEscape(u)
    else [u]
  }

  predicate PairAt(s: Text) {
    |s| > 1 && IsHighSurrogate(s[0]) && IsLowSurrogate(s[1])
  }

  function QuoteBody(s: Text): Text
    decreases |s|
  {
    if s == [] then []
    else if PairAt(s) then [s[0], s[1]] + QuoteBody(s[2..])
    else QuoteUnit(s[0]) + QuoteBody(s[1..])
  }

  /** JSON.stringify of a string. */
  function Quote(s: Text): Text {
    [DOUBLE_QUOTE] + QuoteBody(s) + [DOUBLE_QUOTE]
  }

  /** Escaped with a hexadecimal letter by JSON.stringify. */
  predicate NeedsHexLetter(u: Unit) {
    u == VTAB || u == 0x0E || u == 0x0F || 0x1A <= u <= 0x1F
  }

  /** No such control unit, and no surrogate outside a pair. */
  predicate IsReadable(s: Text)
    decreases |s|
  {
    if s == [] then true
    else if PairAt(s) then IsReadable(s[2..])
    else !NeedsHexLetter(s[0]) && !IsHighSurrogate(s[0]) && !IsLowSurrogate(s[0]) && IsReadable(s[1..])
  }
}
