/** What the scanner reads back from the texts that the serializer writes. */
module YslTokens {
  import opened CodeUnits
  import opened YslScanner
  import opened Wrappers

  // ---------------------------------------------------------------- quoted strings

  lemma OrdinaryUnitReadsBack(u: Unit, value: Text, rest: Text)
    requires u != DOUBLE_QUOTE && u != BACKSLASH
    ensures ReadString(DOUBLE_QUOTE, value, [u] + rest) == ReadString(DOUBLE_QUOTE, value + [u], rest)
  {
    assert ([u] + rest)[1..] == rest;
  }

  lemma SimpleEscapeReadsBack(e: Unit, value: Text, rest: Text)
    requires !EscapeOf(e).Coded?
    ensures ReadString(DOUBLE_QUOTE, value, [BACKSLASH, e] + rest)
         == ReadString(DOUBLE_QUOTE, value + [if EscapeOf(e).Plain? then EscapeOf(e).unit else e], rest)
  {
    assert ([BACKSLASH, e] + rest)[2..] == rest;
  }

  lemma {:induction false} DigitRunConcat(s: Text, rest: Text)
    requires forall i | 0 <= i < |s| :: IsDigit(s[i])
    ensures DigitRun(s + rest) == |s| + DigitRun(rest)
  {
    if s == [] {
      assert s + rest == rest;
    } else {
      assert (s + rest)[1..] == s[1..] + rest;
      DigitRunConcat(s[1..], rest);
    }
  }

  lemma ParseHexOfControl(u: Unit)
    requires u < 0x20 && u % 0x10 < 10
    ensures ParseHex([ZERO, ZERO, ZERO + u / 0x10, ZERO + u % 0x10]) == u
  {
    var code := [ZERO, ZERO, ZERO + u / 0x10, ZERO + u % 0x10];
    assert code[..3] == [ZERO, ZERO, ZERO + u / 0x10];
    assert code[..3][..2] == [ZERO, ZERO] && [ZERO, ZERO][..1] == [ZERO] && [ZERO][..0] == [];
    assert ParseHex([ZERO]) == 0;
    assert ParseHex([ZERO, ZERO]) == 0;
    assert ParseHex(code[..3]) == u / 0x10;
  }

  /** A numeric escape is understood if and only if its four digits are decimal. */
  lemma UnicodeEscapeReadsBack(u: Unit, value: Text, rest: Text)
    requires u < 0x20 || IsHighSurrogate(u) || IsLowSurrogate(u)
    ensures if u < 0x20 && u % 0x10 < 10
            then ReadString(DOUBLE_QUOTE, value, UnicodeEscape(u) + rest) == ReadString(DOUBLE_QUOTE, value + [u], rest)
            else ReadString(DOUBLE_QUOTE, value, UnicodeEscape(u) + rest).token.Illegal?
  {
    var s := UnicodeEscape(u) + rest;
    var code := UnicodeEscape(u)[2..];
    assert s[2..] == code + rest && s[6..] == rest;
    assert s[0] == BACKSLASH && s[1] == LETTER_U;
    if u < 0x20 {
      assert code == [ZERO, ZERO, ZERO + u / 0x10, HexDigit(u % 0x10)];
      if u % 0x10 < 10 {
        DigitRunConcat(code, rest);
        assert s[2..6] == code;
        ParseHexOfControl(u);
      } else {
        assert code + rest == code[..3] + ([code[3]] + rest);
        DigitRunConcat(code[..3], [code[3]] + rest);
        assert DigitRun([code[3]] + rest) == 0;
      }
    } else {
      assert (code + rest)[0] == HexDigit(u / 0x1000);
      assert DigitRun(code + rest) == 0;
    }
  }

  lemma QuotedUnitReadsBack(u: Unit, value: Text, rest: Text)
    ensures if !NeedsHexLetter(u) && !IsHighSurrogate(u) && !IsLowSurrogate(u)
            then ReadString(DOUBLE_QUOTE, value, QuoteUnit(u) + rest) == ReadString(DOUBLE_QUOTE, value + [u], rest)
            else ReadString(DOUBLE_QUOTE, value, QuoteUnit(u) + rest).token.Illegal?
  {
    hide ReadString;
    var q := QuoteUnit(u);
    if |q| == 1 {
      OrdinaryUnitReadsBack(u, value, rest);
    } else if |q| == 2 {
      SimpleEscapeReadsBack(q[1], value, rest);
      assert q == [BACKSLASH, q[1]];
    } else {
      UnicodeEscapeReadsBack(u, value, rest);
    }
  }

  function Quoted(s: Text, rest: Text): Text {
    QuoteBody(s) + [DOUBLE_QUOTE] + rest
  }

  /** One surrogate pair or one other unit of a quoted string. */
  lemma QuoteBodyStep(value: Text, s: Text, rest: Text)
    requires s != []
    ensures var n := if PairAt(s) then 2 else 1;
            if PairAt(s) || (!NeedsHexLetter(s[0]) && !IsHighSurrogate(s[0]) && !IsLowSurrogate(s[0]))
            then ReadString(DOUBLE_QUOTE, value, Quoted(s, rest))
              == ReadString(DOUBLE_QUOTE, value + s[..n], Quoted(s[n..], rest))
            else ReadString(DOUBLE_QUOTE, value, Quoted(s, rest)).token.Illegal?
  {
    hide ReadString, QuoteUnit;
    if PairAt(s) {
      var tail := Quoted(s[2..], rest);
      assert Quoted(s, rest) == [s[0]] + ([s[1]] + tail);
      OrdinaryUnitReadsBack(s[0], value, [s[1]] + tail);
      OrdinaryUnitReadsBack(s[1], value + [s[0]], tail);
      assert value + [s[0]] + [s[1]] == value + s[..2];
    } else {
      assert Quoted(s, rest) == QuoteUnit(s[0]) + Quoted(s[1..], rest);
      QuotedUnitReadsBack(s[0], value, Quoted(s[1..], rest));
      assert value + [s[0]] == value + s[..1];
    }
  }

  lemma QuoteEnd(value: Text, rest: Text)
    ensures ReadString(DOUBLE_QUOTE, value, Quoted([], rest)) == Scan(Str(value), rest)
  {
    assert Quoted([], rest) == [DOUBLE_QUOTE] + rest;
    assert ([DOUBLE_QUOTE] + rest)[1..] == rest;
  }

  /**
   * The scanner reads a JSON.stringify text back if and only if the string needs no escape
   * with a hexadecimal letter; otherwise the token is illegal.
   */
  lemma {:induction false} QuoteBodyReadsBack(value: Text, s: Text, rest: Text)
    ensures var r := ReadString(DOUBLE_QUOTE, value, Quoted(s, rest));
            if IsReadable(s) then r == Scan(Str(value + s), rest) else r.token.Illegal?
    decreases |s|
  {
    hide ReadString, Quoted;
    if s == [] {
      QuoteEnd(value, rest);
      assert value + s == value;
    } else {
      var n := if PairAt(s) then 2 else 1;
      QuoteBodyStep(value, s, rest);
      QuoteBodyReadsBack(value + s[..n], s[n..], rest);
      assert value + s[..n] + s[n..] == value + s;
    }
  }

  lemma QuoteReadsBack(s: Text, rest: Text)
    ensures var r := ReadToken(Quote(s) + rest);
            if IsReadable(s) then r == Scan(Str(s), rest) else r.token.Illegal?
  {
    hide IsInheritedName;
    var t := Quote(s) + rest;
    assert t[0] == DOUBLE_QUOTE && t[1..] == Quoted(s, rest);
    QuoteBodyReadsBack([], s, rest);
    assert [] + s == s;
  }

  // ---------------------------------------------------------------- identifiers

  function SerializeIdentifier(k: Text): (s: Text)
    ensures s != [] && !IsWhite(s[0])
  {
    if IsIdentifierString(k) then k else [BACKTICK] + k + [BACKTICK]
  }

  /** Words that the scanner does not read as identifiers. */
  predicate IsReserved(k: Text) {
    IsIdentifierString(k) && (k == WORD_TRUE || k == WORD_FALSE || k == WORD_NULL || IsInheritedName(k))
  }

  predicate IsGoodKey(k: Text) {
    BACKTICK !in k && !IsReserved(k)
  }

  predicate StartsOutsideIdentifier(s: Text) {
    s == [] || !IsIdentifierUnit(s[0])
  }

  lemma {:induction false} IdentifierRunStops(s: Text, rest: Text)
    requires forall i | 0 <= i < |s| :: IsIdentifierUnit(s[i])
    requires StartsOutsideIdentifier(rest)
    ensures IdentifierRun(s + rest) == |s|
  {
    if s == [] {
      assert s + rest == rest;
    } else {
      assert (s + rest)[1..] == s[1..] + rest;
      IdentifierRunStops(s[1..], rest);
    }
  }

  lemma {:induction false} RawRunStops(s: Text, rest: Text)
    ensures RawRun(s + [BACKTICK] + rest) <= |s|
    ensures BACKTICK !in s ==> RawRun(s + [BACKTICK] + rest) == |s|
  {
    var t := s + [BACKTICK] + rest;
    if s != [] && s[0] != BACKTICK {
      assert t[1..] == s[1..] + [BACKTICK] + rest;
      RawRunStops(s[1..], rest);
    }
  }

  lemma WordTokenIsIdentifier(k: Text)
    requires IsIdentifierString(k)
    ensures IsReserved(k) <==> !WordToken(k).Identifier?
    ensures IsGoodKey(k) <==> BACKTICK !in k && WordToken(k) == Identifier(k)
    ensures !WordToken(k).RightCurly? && !WordToken(k).EOF?
  {
  }

  lemma BareWordReadsBack(k: Text, rest: Text)
    requires IsIdentifierString(k) && StartsOutsideIdentifier(rest)
    ensures ReadToken(k + rest) == Scan(WordToken(k), rest)
    ensures SerializeIdentifier(k) == k
    ensures BACKTICK !in k
  {
    hide IsInheritedName, ReadString, ReadNumber, ReadRawIdentifier, IdentifierRun;
    var t, tail := k + rest, k[1..];
    assert t[0] == k[0] && t[1..] == tail + rest;
    forall i | 0 <= i < |tail| ensures IsIdentifierUnit(tail[i]) {
      assert tail[i] == k[i + 1];
    }
    IdentifierRunStops(tail, rest);
    assert (tail + rest)[..|tail|] == tail && (tail + rest)[|tail|..] == rest;
    assert [k[0]] + tail == k;
  }

  lemma BacktickedReadsBack(k: Text, rest: Text)
    requires !IsIdentifierString(k)
    ensures var r := ReadToken(SerializeIdentifier(k) + rest);
            && (if IsGoodKey(k) then r == Scan(Identifier(k), rest)
                else r.token.Identifier? ==> r.token.value != k)
            && !r.token.RightCurly? && !r.token.EOF?
  {
    hide IsInheritedName, ReadString, ReadNumber, ReadIdentifier;
    var t := SerializeIdentifier(k) + rest;
    var u := k + [BACKTICK] + rest;
    assert t[0] == BACKTICK && t[1..] == u;
    RawRunStops(k, rest);
    assert ReadToken(t) == ReadRawIdentifier(u);
    if BACKTICK !in k {
      assert u[..|k|] == k && u[|k| + 1..] == rest;
    }
  }

  /**
   * A serialized key is read back as an identifier with that key if and only if the key is good:
   * a reserved word is no identifier token, and a backtick never comes back.
   */
  lemma IdentifierReadsBack(k: Text, rest: Text)
    requires StartsOutsideIdentifier(rest)
    ensures var r := ReadToken(SerializeIdentifier(k) + rest);
            && (if IsGoodKey(k) then r == Scan(Identifier(k), rest)
                else r.token.Identifier? ==> r.token.value != k)
            && !r.token.RightCurly? && !r.token.EOF?
  {
    hide *;
    if IsIdentifierString(k) {
      BareWordReadsBack(k, rest);
      WordTokenIsIdentifier(k);
    } else {
      BacktickedReadsBack(k, rest);
    }
  }


  /** No identifier token ever holds a backtick. */
  lemma IdentifiersHoldNoBacktick(s: Text)
    ensures var t := ReadToken(s).token; t.Identifier? ==> BACKTICK !in t.value
  {
    hide IsInheritedName, EscapeOf;
    var u := TrimStart(s);
    if u != [] { ReadStringIsNoIdentifier(u[0], [], u[1..]); }
  }

  lemma {:induction false} ReadStringIsNoIdentifier(delimiter: Unit, value: Text, s: Text)
    ensures var t := ReadString(delimiter, value, s).token; t.Str? || t.Illegal?
    decreases |s|
  {
    if s == [] || s[0] == delimiter {
    } else if s[0] != BACKSLASH {
      ReadStringIsNoIdentifier(delimiter, value + [s[0]], s[1..]);
    } else if |s| > 1 {
      match EscapeOf(s[1])
      case Plain(u) => ReadStringIsNoIdentifier(delimiter, value + [u], s[2..]);
      case Verbatim => ReadStringIsNoIdentifier(delimiter, value + [s[1]], s[2..]);
      case Coded(length) =>
        var n := Min(DigitRun(s[2..]), length);
        if n == length {
          ParseHexBound(s[2..2 + n]);
          ReadStringIsNoIdentifier(delimiter, value + [ParseHex(s[2..2 + n])], s[2 + n..]);
        }
    }
  }

  // ---------------------------------------------------------------- words, numbers, punctuation

  function BoolText(b: bool): Text {
    if b then WORD_TRUE else WORD_FALSE
  }

  lemma WordReadsBack(word: Text, rest: Text)
    requires word in {WORD_TRUE, WORD_FALSE, WORD_NULL}
    requires StartsOutsideIdentifier(rest)
    ensures word == WORD_TRUE ==> ReadToken(word + rest) == Scan(True, rest)
    ensures word == WORD_FALSE ==> ReadToken(word + rest) == Scan(False, rest)
    ensures word == WORD_NULL ==> ReadToken(word + rest) == Scan(Null, rest)
  {
    hide IsInheritedName, ReadToken;
    BareWordReadsBack(word, rest);
    assert WORD_TRUE[0] != WORD_FALSE[0] && WORD_TRUE[0] != WORD_NULL[0] && WORD_FALSE[0] != WORD_NULL[0];
  }

  /** What a serialized value is followed by. */
  predicate IsDelimited(rest: Text) {
    rest != [] && (rest[0] == NEWLINE || rest[0] == COMMA)
  }

  lemma DigitRunStops(rest: Text)
    requires rest == [] || !IsDigit(rest[0])
    ensures DigitRun(rest) == 0
  {
  }

  lemma IntRun(n: int, rest: Text)
    requires IsDelimited(rest)
    ensures var w := IntText(n); ReadNumber(w[0], w[1..] + rest) == Scan(Number(w), rest)
  {
    hide DigitRun;
    var w := IntText(n);
    var s := w[1..] + rest;
    DigitRunConcat(w[1..], rest);
    assert DigitRun(rest) == 0 by { DigitRunStops(rest); }
    assert s[|w| - 1..] == rest && s[..|w| - 1] == w[1..];
    assert [w[0]] + w[1..] == w;
  }

  lemma IntReadsBack(n: int, rest: Text)
    requires IsDelimited(rest)
    ensures ReadToken(IntText(n) + rest) == Scan(Number(IntText(n)), rest)
  {
    hide IsInheritedName, DigitRun, ReadString, ReadIdentifier, ReadNumber, Digits;
    var w := IntText(n);
    var t := w + rest;
    IntRun(n, rest);
    assert t[0] == w[0] && t[1..] == w[1..] + rest;
    assert IsDigit(w[0]) || (w[0] == MINUS && IsDigit(w[1]) && t[1..][0] == w[1]);
  }

  lemma PunctuationReadsBack(c: Unit, rest: Text)
    requires IsPunctuation(c)
    ensures ReadToken([c] + rest) == Scan(PunctuationToken(c), rest)
  {
    assert ([c] + rest)[1..] == rest;
  }

  lemma AnnotationReadsBack(name: Text, rest: Text)
    requires StartsOutsideIdentifier(rest)
    ensures var r := ReadToken([AT] + name + rest);
            if forall i | 0 <= i < |name| :: IsIdentifierUnit(name[i]) then r == Scan(Annotation(name), rest)
            else r.token != Annotation(name)
  {
    hide IsInheritedName;
    var t := [AT] + name + rest;
    assert t[0] == AT && t[1..] == name + rest;
    if forall i | 0 <= i < |name| :: IsIdentifierUnit(name[i]) {
      IdentifierRunStops(name, rest);
      assert (name + rest)[..|name|] == name && (name + rest)[|name|..] == rest;
    }
  }

  /** Whitespace in front of a token is skipped. */
  lemma WhiteSkipped(w: Text, s: Text)
    requires AllWhite(w)
    ensures ReadToken(w + s) == ReadToken(s)
  {
    TrimStartSkipsWhite(w, s);
  }
}
