/** The lexer, scanner and parser objects, each proved to compute the functions of the other modules. */
module YslMachine {
  import opened CodeUnits
  import opened YslScanner
  import opened YslTokens
  import opened YslCode
  import opened YslSchema
  import opened Wrappers

  datatype Result<T> = Success(value: T) | Thrown(error: Failure)

  class Lexer {
    const content: Text
    var cursor: nat

    constructor (content: Text)
      ensures Valid() && Rest() == content
    {
      this.content := content;
      cursor := 0;
    }

    ghost predicate Valid()
      reads this
    {
      cursor <= |content|
    }

    /** The unread text. */
    ghost function Rest(): Text
      requires Valid()
      reads this
    {
      content[cursor..]
    }

    /** The unit at an offset, or -1 behind the end. */
    function Peek(offset: nat): (u: int)
      requires Valid()
      reads this
      ensures u == if offset < |Rest()| then Rest()[offset] else -1
    {
      if cursor + offset < |content| then content[cursor + offset] else -1
    }

    predicate IsEOF()
      requires Valid()
      reads this
      ensures IsEOF() <==> Rest() == []
    {
      cursor >= |content|
    }

    method Advance() returns (u: Unit)
      requires Valid() && !IsEOF()
      modifies this
      ensures Valid() && u == old(Rest())[0] && Rest() == old(Rest())[1..]
    {
      u := content[cursor];
      cursor := cursor + 1;
    }

    method SkipWhitespace()
      requires Valid()
      modifies this
      ensures Valid() && Rest() == TrimStart(old(Rest()))
    {
      while !IsEOF() && IsWhite(Peek(0))
        invariant Valid() && TrimStart(Rest()) == TrimStart(old(Rest()))
        decreases |content| - cursor
      {
        var _ := Advance();
      }
    }
  }

  predicate IsNumeric(u: int) {
    0x30 <= u <= 0x39
  }

  predicate IsIdentifierChar(u: int) {
    0 <= u < 0x1_0000 && IsIdentifierUnit(u)
  }

  lemma SliceJoin(s: Text, a: nat, b: nat)
    requires a + b <= |s|
    ensures s[..a] + s[a..][..b] == s[..a + b]
    ensures s[a..][b..] == s[a + b..]
  {
  }

  /** The rest of a string in the middle of the loop: after a backslash or not. */
  function StringTail(delimiter: Unit, value: Text, escaped: bool, s: Text): Scan {
    YslScanner.ReadString(delimiter, value, if escaped then [BACKSLASH] + s else s)
  }

  lemma StringTurnEnd(delimiter: Unit, value: Text, escaped: bool)
    requires delimiter != BACKSLASH
    ensures StringTail(delimiter, value, escaped, []) == Scan(Illegal, [])
  {
  }

  /** One turn of the string loop. */
  lemma StringTurn(delimiter: Unit, value: Text, escaped: bool, s: Text)
    requires delimiter != BACKSLASH && s != []
    ensures !escaped && s[0] == delimiter ==> StringTail(delimiter, value, escaped, s) == Scan(Str(value), s[1..])
    ensures !escaped && s[0] == BACKSLASH ==>
              StringTail(delimiter, value, escaped, s) == StringTail(delimiter, value, true, s[1..])
    ensures !escaped && s[0] != delimiter && s[0] != BACKSLASH ==>
              StringTail(delimiter, value, escaped, s) == StringTail(delimiter, value + [s[0]], false, s[1..])
    ensures escaped && EscapeOf(s[0]).Plain? ==>
              StringTail(delimiter, value, escaped, s) == StringTail(delimiter, value + [EscapeOf(s[0]).unit], false, s[1..])
    ensures escaped && EscapeOf(s[0]).Verbatim? ==>
              StringTail(delimiter, value, escaped, s) == StringTail(delimiter, value + [s[0]], false, s[1..])
    ensures escaped && EscapeOf(s[0]).Coded? ==>
              var length := EscapeOf(s[0]).length;
              var t := s[1..];
              var n := Min(DigitRun(t), length);
              && length <= 4
              && (n < length ==> StringTail(delimiter, value, escaped, s) == Scan(Illegal, t[n..]))
              && (n == length ==>
                    && ParseHex(t[..n]) < 0x1_0000
                    && StringTail(delimiter, value, escaped, s) == StringTail(delimiter, value + [ParseHex(t[..n])], false, t[n..]))
  {
    if escaped {
      var u := [BACKSLASH] + s;
      assert u[2..] == s[1..];
      if EscapeOf(s[0]).Coded? {
        var n := Min(DigitRun(s[1..]), EscapeOf(s[0]).length);
        assert u[2..2 + n] == u[2..][..n] && u[2 + n..] == u[2..][n..];
        ParseHexBound(s[1..][..n]);
      }
    } else if s[0] == BACKSLASH {
      assert [BACKSLASH] + s[1..] == s;
    }
  }

  class Scanner {
    const lexer: Lexer

    constructor (lexer: Lexer)
      ensures this.lexer == lexer
    {
      this.lexer := lexer;
    }

    /** Reads decimal digits. */
    method ReadDigits() returns (digits: Text)
      requires lexer.Valid()
      modifies lexer
      ensures lexer.Valid()
      ensures var s, n := old(lexer.Rest()), DigitRun(old(lexer.Rest())); digits == s[..n] && lexer.Rest() == s[n..]
    {
      digits := [];
      ghost var s := lexer.Rest();
      while IsNumeric(lexer.Peek(0))
        invariant lexer.Valid() && |digits| <= |s| && digits == s[..|digits|] && lexer.Rest() == s[|digits|..]
        invariant DigitRun(s) == |digits| + DigitRun(lexer.Rest())
        decreases |lexer.Rest()|
      {
        var u := lexer.Advance();
        digits := digits + [u];
      }
    }

    method ReadExponent() returns (part: Text)
      requires lexer.Valid()
      modifies lexer
      ensures lexer.Valid()
      ensures var t, n := old(lexer.Rest()), ExponentRun(old(lexer.Rest())); part == t[..n] && lexer.Rest() == t[n..]
    {
      ghost var t := lexer.Rest();
      var exponent := lexer.Peek(0);
      var sign := lexer.Peek(1);
      var firstDigit := if sign == PLUS || sign == MINUS then lexer.Peek(2) else sign;
      part := [];
      if (exponent == LOWER_E || exponent == UPPER_E) && IsNumeric(firstDigit) {
        assert ExponentRun(t) > 0;
        part := ReadMarker();
        ghost var k := |part|;
        hide DigitRun, ExponentRun;
        var digits := ReadDigits();
        part := part + digits;
        SliceJoin(t, k, DigitRun(t[k..]));
      }
    }

    /** The letter and the sign of an exponent. */
    method ReadMarker() returns (part: Text)
      requires lexer.Valid() && lexer.Rest() != []
      modifies lexer
      ensures lexer.Valid()
      ensures var t := old(lexer.Rest());
              var k := if UnitAt(t, 1, PLUS) || UnitAt(t, 1, MINUS) then 2 else 1;
              part == t[..k] && lexer.Rest() == t[k..]
    {
      var e := lexer.Advance();
      part := [e];
      if lexer.Peek(0) == PLUS || lexer.Peek(0) == MINUS {
        var sign := lexer.Advance();
        part := part + [sign];
      }
    }

    /** One unit and the digits behind it. */
    method ReadUnitAndDigits() returns (part: Text)
      requires lexer.Valid() && lexer.Rest() != []
      modifies lexer
      ensures lexer.Valid()
      ensures var t, n := old(lexer.Rest()), 1 + DigitRun(old(lexer.Rest())[1..]); part == t[..n] && lexer.Rest() == t[n..]
    {
      hide DigitRun, Lexer.Rest, Lexer.Peek;
      ghost var t := lexer.Rest();
      var u := lexer.Advance();
      part := ReadDigits();
      part := [u] + part;
      SliceJoin(t, 1, DigitRun(t[1..]));
    }

    /** Integer digits, and a fraction unless the literal started with a dot. */
    method ReadFraction(first: Unit) returns (part: Text)
      requires lexer.Valid()
      modifies lexer
      ensures lexer.Valid()
      ensures var s, m := old(lexer.Rest()), FractionRun(first, old(lexer.Rest())); part == s[..m] && lexer.Rest() == s[m..]
    {
      hide DigitRun, Lexer.Rest, Lexer.Peek;
      ghost var s := lexer.Rest();
      part := ReadDigits();
      if first != DOT && lexer.Peek(0) == DOT {
        ghost var n := DigitRun(s);
        assert s[n..][1..] == s[n + 1..];
        var fraction := ReadUnitAndDigits();
        part := part + fraction;
        SliceJoin(s, n, 1 + DigitRun(s[n + 1..]));
      }
    }

    method ReadNumber(first: Unit) returns (token: Token)
      requires lexer.Valid()
      modifies lexer
      ensures lexer.Valid() && Scan(token, lexer.Rest()) == YslScanner.ReadNumber(first, old(lexer.Rest()))
    {
      hide FractionRun, ExponentRun, Lexer.Rest, Lexer.Peek;
      ghost var s := lexer.Rest();
      var value := [first];
      var part := ReadFraction(first);
      value := value + part;
      ghost var m := |part|;
      part := ReadExponent();
      value := value + part;
      SliceJoin(s, m, |part|);
      assert value == [first] + (s[..m] + part);
      token := Number(value);
    }

    /** The fixed-length numeric escapes; none is returned when a digit is missing. */
    method ReadCode(length: nat) returns (ok: bool, code: Unit)
      requires lexer.Valid() && length <= 4
      modifies lexer
      ensures lexer.Valid()
      ensures var s := old(lexer.Rest());
              var n := Min(DigitRun(s), length);
              lexer.Rest() == s[n..] && (ok <==> n == length) && (ok ==> code == ParseHex(s[..length]))
    {
      hide Lexer.Rest, Lexer.Peek, ParseHex;
      ghost var s := lexer.Rest();
      var digits := [];
      var i := 0;
      while i < length && IsNumeric(lexer.Peek(0))
        invariant lexer.Valid() && i == |digits| <= length && i <= |s| && digits == s[..i] && lexer.Rest() == s[i..]
        invariant DigitRun(s) == i + DigitRun(lexer.Rest())
        decreases length - i
      {
        var u := lexer.Advance();
        digits := digits + [u];
        i := i + 1;
      }
      ok := |digits| == length;
      code := 0;
      if ok {
        ParseHexBound(digits);
        code := ParseHex(digits);
      }
    }

    method ReadString(delimiter: Unit) returns (token: Token)
      requires lexer.Valid() && delimiter != BACKSLASH
      modifies lexer
      ensures lexer.Valid() && Scan(token, lexer.Rest()) == YslScanner.ReadString(delimiter, [], old(lexer.Rest()))
    {
      hide YslScanner.ReadString, DigitRun, EscapeOf;
      ghost var whole := YslScanner.ReadString(delimiter, [], lexer.Rest());
      var value: Text := [];
      var escaped := false;
      while !lexer.IsEOF()
        invariant lexer.Valid() && whole == StringTail(delimiter, value, escaped, lexer.Rest())
        decreases |lexer.Rest()|
      {
        ghost var s := lexer.Rest();
        StringTurn(delimiter, value, escaped, s);
        var u := lexer.Advance();
        if !escaped {
          if u == delimiter { return Str(value); }
          if u == BACKSLASH {
            escaped := true;
            continue;
          }
        }
        if escaped {
          escaped := false;
          match EscapeOf(u) {
            case Plain(c) => value := value + [c];
            case Verbatim => value := value + [u];
            case Coded(length) =>
              var ok, code := ReadCode(length);
              if !ok { return Illegal; }
              value := value + [code];
          }
          continue;
        }
        value := value + [u];
      }
      StringTurnEnd(delimiter, value, escaped);
      token := Illegal;
    }

    /** Identifier units from here on. */
    method ReadIdentifierUnits() returns (value: Text)
      requires lexer.Valid()
      modifies lexer
      ensures lexer.Valid()
      ensures var s, n := old(lexer.Rest()), IdentifierRun(old(lexer.Rest())); value == s[..n] && lexer.Rest() == s[n..]
    {
      ghost var s := lexer.Rest();
      value := [];
      while IsIdentifierChar(lexer.Peek(0))
        invariant lexer.Valid() && |value| <= |s| && value == s[..|value|] && lexer.Rest() == s[|value|..]
        invariant IdentifierRun(s) == |value| + IdentifierRun(lexer.Rest())
        decreases |lexer.Rest()|
      {
        var u := lexer.Advance();
        value := value + [u];
      }
    }

    method ReadRawIdentifier() returns (token: Token)
      requires lexer.Valid()
      modifies lexer
      ensures lexer.Valid() && Scan(token, lexer.Rest()) == YslScanner.ReadRawIdentifier(old(lexer.Rest()))
    {
      ghost var s := lexer.Rest();
      var value := [];
      while !lexer.IsEOF() && lexer.Peek(0) != BACKTICK
        invariant lexer.Valid() && |value| <= |s| && value == s[..|value|] && lexer.Rest() == s[|value|..]
        invariant RawRun(s) == |value| + RawRun(lexer.Rest())
        decreases |lexer.Rest()|
      {
        var u := lexer.Advance();
        value := value + [u];
      }
      if lexer.IsEOF() { return Illegal; }
      var _ := lexer.Advance();
      token := Identifier(value);
    }

    method ReadToken() returns (token: Token)
      requires lexer.Valid()
      modifies lexer
      ensures lexer.Valid() && Scan(token, lexer.Rest()) == YslScanner.ReadToken(old(lexer.Rest()))
    {
      hide TrimStart, YslScanner.ReadString, YslScanner.ReadNumber, YslScanner.ReadRawIdentifier, IsInheritedName, IdentifierRun;
      lexer.SkipWhitespace();
      if lexer.IsEOF() { return EOF; }
      ghost var t := lexer.Rest();
      var u := lexer.Advance();
      if IsPunctuation(u) {
        token := PunctuationToken(u);
      } else if u == AT {
        var name := ReadIdentifierUnits();
        token := Annotation(name);
      } else if u == DOUBLE_QUOTE || u == SINGLE_QUOTE {
        token := ReadString(u);
      } else if IsNumberStartHere(u) {
        token := ReadNumber(u);
      } else if IsAlpha(u) {
        var word := ReadIdentifierUnits();
        token := WordToken([u] + word);
      } else if u == BACKTICK {
        token := ReadRawIdentifier();
      } else {
        token := Illegal;
      }
    }

    predicate IsNumberStartHere(u: Unit)
      requires lexer.Valid()
      reads lexer
      ensures IsNumberStartHere(u) <==> IsNumberStart(u, lexer.Rest())
    {
      if IsDigit(u) then true
      else if u == DOT then IsNumeric(lexer.Peek(0))
      else if u != PLUS && u != MINUS then false
      else IsNumeric(lexer.Peek(0)) || (lexer.Peek(0) == DOT && IsNumeric(lexer.Peek(1)))
    }
  }

  class Parser {
    const scanner: Scanner
    var currentToken: Token

    ghost predicate Valid()
      reads this, scanner.lexer
    {
      scanner.lexer.Valid()
    }

    /** The held token and the unread text. */
    ghost function State(): Scan
      requires Valid()
      reads this, scanner.lexer
    {
      Scan(currentToken, scanner.lexer.Rest())
    }

    constructor (scanner: Scanner)
      requires scanner.lexer.Valid()
      modifies scanner.lexer
      ensures this.scanner == scanner && Valid() && State() == ReadToken(old(scanner.lexer.Rest()))
    {
      this.scanner := scanner;
      currentToken := EOF;
      new;
      currentToken := scanner.ReadToken();
    }

    method Advance() returns (previous: Token)
      requires Valid()
      modifies this, scanner.lexer
      ensures Valid() && previous == old(currentToken) && State() == Next(old(State()))
    {
      previous := currentToken;
      currentToken := scanner.ReadToken();
    }

    /** The outcome of a method against the outcome of the function for the state at its start. */
    ghost predicate Agrees<T>(r: Result<T>, p: Parsed<T>)
      requires Valid()
      reads this, scanner.lexer
    {
      match p
      case Ok(v, next) => r == Success(v) && State() == next
      case Err(e) => r == Thrown(e)
    }

    method ParseCode() returns (r: Result<Value>)
      requires Valid()
      modifies this, scanner.lexer
      ensures Valid() && Agrees(r, YslSchema.ParseCode(old(State())))
    {
      hide ReadToken;
      if !currentToken.LeftCurly? { return Thrown(UnexpectedToken(currentToken)); }
      var content := ScanCode();
      var _ := Advance();
      if !currentToken.RightCurly? { return Thrown(UnexpectedToken(currentToken)); }
      var _ := Advance();
      r := Success(VString(content));
    }

    method Consume(expected: Token) returns (r: Result<Token>)
      requires Valid()
      modifies this, scanner.lexer
      ensures Valid()
      ensures if old(currentToken) == expected then r == Success(expected) && State() == Next(old(State()))
              else r == Thrown(UnexpectedToken(old(currentToken))) && State() == old(State())
    {
      if currentToken != expected { return Thrown(UnexpectedToken(currentToken)); }
      var token := Advance();
      r := Success(token);
    }

    /** parsable.parse for every kind of schema. */
    method Parse(s: Schema) returns (r: Result<Value>)
      requires Valid()
      modifies this, scanner.lexer
      ensures Valid() && Agrees(r, YslSchema.Parse(s, old(State())))
      decreases s, 4
    {
      hide ReadToken, YslSchema.ParseCode, YslSchema.ParseItems, YslSchema.ParseEntries, YslSchema.ParseMembers;
      var token := currentToken;
      match s {
        case SCode => r := ParseCode();
        case SList(item) => r := ParseList(item);
        case SRecord(item) => r := ParseRecord(item);
        case SObject(fields) => r := ParseObject(s);
        case SNullable(inner) =>
          if token.Null? {
            var _ := Advance();
            r := Success(VNull);
          } else {
            r := Parse(inner);
          }
        case SOptional(inner) => r := Parse(inner);
        case _ => r := ParseScalar(s);
      }
    }

    /** The parsables that consume exactly one token. */
    method ParseScalar(s: Schema) returns (r: Result<Value>)
      requires Valid() && (s.SString? || s.SNumber? || s.SBoolean? || s.SNull? || s.SEnum?)
      modifies this, scanner.lexer
      ensures Valid() && Agrees(r, YslSchema.Parse(s, old(State())))
    {
      hide ReadToken, NumberOf;
      var token := currentToken;
      r := Thrown(UnexpectedToken(token));
      match s {
        case SString => if token.Str? { r := Success(VString(token.value)); }
        case SNumber => if token.Number? { r := Success(NumberOf(token.value)); }
        case SBoolean => if token.True? || token.False? { r := Success(VBoolean(token.True?)); }
        case SNull => if token.Null? { r := Success(VNull); }
        case SEnum(names) =>
          if token.Identifier? {
            if token.value in names { r := Success(VString(token.value)); } else { r := Thrown(InvalidEnum(token.value)); }
          }
      }
      if r.Success? { var _ := Advance(); }
    }

    method ParseList(item: Schema) returns (r: Result<Value>)
      requires Valid()
      modifies this, scanner.lexer
      ensures Valid() && Agrees(r, YslSchema.Parse(SList(item), old(State())))
      decreases item, 5
    {
      hide ReadToken, Next;
      var start := Consume(LeftSquare);
      if start.Thrown? { return Thrown(start.error); }
      ghost var whole := ParseItems(item, State(), []);
      assert YslSchema.Parse(SList(item), old(State())) == whole;
      hide YslSchema.Parse;
      var list: seq<Value> := [];
      var proceed := true;
      while proceed && !currentToken.EOF? && !currentToken.RightSquare?
        invariant Valid()
        invariant whole == if proceed then ParseItems(item, State(), list) else CloseList(list, State())
        decreases proceed, Weight(State())
      {
        ghost var before := State();
        ItemsTurn(item, before, list);
        var v := Parse(item);
        if v.Thrown? { return Thrown(v.error); }
        list := list + [v.value];
        proceed := currentToken.Comma?;
        if proceed { var _ := Advance(); }
      }
      ItemsTurn(item, State(), list);
      var closed := Consume(RightSquare);
      r := if closed.Thrown? then Thrown(closed.error) else Success(VList(list));
    }

    method ParseRecord(item: Schema) returns (r: Result<Value>)
      requires Valid()
      modifies this, scanner.lexer
      ensures Valid() && Agrees(r, YslSchema.Parse(SRecord(item), old(State())))
      decreases item, 5
    {
      hide ReadToken, Next, KeySet;
      var start := Consume(LeftCurly);
      if start.Thrown? { return Thrown(start.error); }
      ghost var whole := ParseEntries(item, State(), []);
      assert YslSchema.Parse(SRecord(item), old(State())) == whole;
      hide YslSchema.Parse;
      var entries: seq<Entry> := [];
      while !currentToken.EOF? && !currentToken.RightCurly?
        invariant Valid() && whole == ParseEntries(item, State(), entries)
        decreases Weight(State())
      {
        EntriesTurn(item, State(), entries);
        var key := currentToken;
        if !key.Identifier? { return Thrown(UnexpectedToken(key)); }
        var _ := Advance();
        if key.value in KeySet(entries) { return Thrown(DuplicateKey(key.value)); }
        var colon := Consume(Token.Colon);
        if colon.Thrown? { return Thrown(colon.error); }
        var v := Parse(item);
        if v.Thrown? { return Thrown(v.error); }
        entries := entries + [Entry(key.value, v.value)];
      }
      EntriesTurn(item, State(), entries);
      var closed := Consume(RightCurly);
      r := if closed.Thrown? then Thrown(closed.error) else Success(VRecord(entries));
    }

    method ParseObject(s: Schema) returns (r: Result<Value>)
      requires Valid() && s.SObject?
      modifies this, scanner.lexer
      ensures Valid() && Agrees(r, YslSchema.Parse(s, old(State())))
      decreases s, 3
    {
      hide ReadToken, YslSchema.ParseMembers, Next;
      var start := Consume(LeftCurly);
      if start.Thrown? { return Thrown(start.error); }
      var members := ParseMembers(s, false);
      r := if members.Thrown? then Thrown(members.error) else Success(VObject(members.value));
    }

    /** The loop over the members of an object or the blocks of a script, and the loop over the keys that are left. */
    method ParseMembers(s: Schema, top: bool) returns (r: Result<map<Text, Value>>)
      requires Valid() && s.SObject?
      modifies this, scanner.lexer
      ensures Valid() && Agrees(r, YslSchema.ParseMembers(s, top, old(State()), map[]))
      decreases s, 2
    {
      hide ReadToken, Next, Fill, FieldIndex;
      ghost var whole := YslSchema.ParseMembers(s, top, State(), map[]);
      var members: map<Text, Value> := map[];
      while !currentToken.EOF? && (top || !currentToken.RightCurly?)
        invariant Valid() && whole == YslSchema.ParseMembers(s, top, State(), members)
        decreases Weight(State())
      {
        MembersTurn(s, top, State(), members);
        var entry := ParseEntry(s, top, members.Keys);
        if entry.Thrown? { return Thrown(entry.error); }
        members := members[entry.value.key := entry.value.value];
      }
      MembersTurn(s, top, State(), members);
      if !top {
        var closed := Consume(RightCurly);
        if closed.Thrown? { return Thrown(closed.error); }
      }
      r := FillMissing(s.fields, members);
    }

    /** One member: its name, the colon of an object member, its value. */
    method ParseEntry(s: Schema, top: bool, parsedKeys: set<Text>) returns (r: Result<Entry>)
      requires Valid() && s.SObject?
      modifies this, scanner.lexer
      ensures Valid()
      ensures var e := EntryOf(s, top, old(State()), parsedKeys);
              if e.Ok? then r == Success(e.value) && State() == e.next else r == Thrown(e.error)
      decreases s, 1
    {
      hide ReadToken, Next, YslSchema.Parse;
      var key := currentToken;
      if !key.Identifier? { return Thrown(UnexpectedToken(key)); }
      var _ := Advance();
      if key.value in parsedKeys { return Thrown(DuplicateKey(key.value)); }
      var i := FieldIndex(s.fields, key.value);
      if i == |s.fields| { return Thrown(UnexpectedKey(key.value)); }
      if !top {
        var colon := Consume(Token.Colon);
        if colon.Thrown? { return Thrown(colon.error); }
      }
      var v := Parse(s.fields[i].schema);
      r := if v.Thrown? then Thrown(v.error) else Success(Entry(key.value, v.value));
    }

    method FillMissing(fields: seq<Field>, members: map<Text, Value>) returns (r: Result<map<Text, Value>>)
      requires Valid()
      ensures Agrees(r, Fill(fields, 0, members, State()))
    {
      var filled := members;
      var i := 0;
      while i < |fields|
        invariant i <= |fields| && Fill(fields, 0, members, State()) == Fill(fields, i, filled, State())
      {
        var f := fields[i];
        if f.name !in filled {
          if IsRequired(f.schema) { return Thrown(MissingKey(f.name)); }
          if f.schema.SNullable? { filled := filled[f.name := VNull]; }
        }
        i := i + 1;
      }
      r := Success(filled);
    }

    method ParseScript(s: ScriptSchema) returns (r: Result<map<Text, Value>>)
      requires Valid() && s.blocks.SObject?
      modifies this, scanner.lexer
      ensures Valid() && Agrees(r, YslSchema.ParseScript(s, old(State())))
    {
      hide ReadToken, Next, YslSchema.ParseMembers;
      var annotation := currentToken;
      if !annotation.Annotation? { return Thrown(UnexpectedToken(annotation)); }
      var _ := Advance();
      if annotation.value != s.annotation { return Thrown(WrongAnnotation(annotation.value)); }
      r := ParseMembers(s.blocks, true);
    }

    /** The loop that looks for the closing brace; it reads the lexer behind the parser's back. */
    method ScanCode() returns (content: Text)
      requires Valid()
      modifies scanner.lexer
      ensures Valid()
      ensures var scan := CodeRun(CLEAN, old(scanner.lexer.Rest()));
              content == scan.state.content && scanner.lexer.Rest() == scan.rest
    {
      hide CodeRun, CanStartRegex, TurnOf;
      var lexer := scanner.lexer;
      ghost var whole := CodeRun(CLEAN, lexer.Rest());
      content := [];
      var control := CLEAN.control;
      while !lexer.IsEOF()
        invariant lexer == scanner.lexer && Valid()
        invariant whole == CodeRun(CodeState(control, content), lexer.Rest())
        decreases |lexer.Rest()|
      {
        ghost var s := lexer.Rest();
        RunTurns(CodeState(control, content), s);
        var stop, next, count := TakeTurn(control, lexer.Peek(0), lexer.Peek(1), CanStartRegex(content));
        if stop { break; }
        control := next;
        var c := lexer.Advance();
        ghost var before := content;
        content := content + [c];
        if count == 2 {
          c := lexer.Advance();
          content := content + [c];
        }
        assert content == before + s[..count];
      }
      RunOfNothing(CodeState(control, content));
    }
  }

  /** The branches of the loop body on the local variables; stop is the break, count the units to read. */
  method TakeTurn(control: Control, u: Unit, next: int, regexAllowed: bool) returns (stop: bool, result: Control, count: nat)
    ensures var t := TurnOf(control, u, next, regexAllowed);
            if t.Stop? then stop else !stop && t == Read(result, count)
  {
    var Control(mode, depth, escaped, inClass, templateDepths) := control;
    stop, count, result := false, 1, control;
    if mode == LineComment {
      if u == NEWLINE { mode := Code; }
    } else if mode == BlockComment {
      if u == STAR && next == SLASH {
        count := 2;
        mode := Code;
      }
    } else if mode == SingleQuote || mode == DoubleQuote {
      if escaped {
        escaped := false;
      } else if u == BACKSLASH {
        escaped := true;
      } else if (mode == SingleQuote && u == SINGLE_QUOTE) || (mode == DoubleQuote && u == DOUBLE_QUOTE) {
        mode := Code;
      }
    } else if mode == Regex {
      if escaped {
        escaped := false;
      } else if u == BACKSLASH {
        escaped := true;
      } else if u == LSQUARE {
        inClass := true;
      } else if u == RSQUARE {
        inClass := false;
      } else if u == SLASH && !inClass {
        mode := Code;
      } else if u == NEWLINE {
        mode := Code;
      }
    } else if mode == Template {
      if escaped {
        escaped := false;
      } else if u == BACKSLASH {
        escaped := true;
      } else if u == BACKTICK {
        mode := Code;
      } else if u == DOLLAR && next == LCURLY {
        count := 2;
        depth := depth + 1;
        templateDepths := templateDepths + [depth];
        mode := Code;
      }
    } else if u == SLASH && next == SLASH {
      count := 2;
      mode := LineComment;
    } else if u == SLASH && next == STAR {
      count := 2;
      mode := BlockComment;
    } else if u == SINGLE_QUOTE {
      mode := SingleQuote;
    } else if u == DOUBLE_QUOTE {
      mode := DoubleQuote;
    } else if u == BACKTICK {
      mode := Template;
    } else if u == SLASH && regexAllowed {
      inClass := false;
      mode := Regex;
    } else if u == LCURLY {
      depth := depth + 1;
    } else if u == RCURLY {
      if depth == 0 {
        stop := true;
        return;
      }
      if templateDepths != [] && templateDepths[|templateDepths| - 1] == depth {
        templateDepths := templateDepths[..|templateDepths| - 1];
        mode := Template;
      }
      depth := depth - 1;
    }
    result := Control(mode, depth, escaped, inClass, templateDepths);
  }

  /** serialize: depth and keyPath are changed and restored; keyPath is only read by error messages. */
  class Serializer {
    var depth: nat
    var keyPath: seq<Text>

    constructor ()
      ensures depth == 0 && keyPath == []
    {
      depth := 0;
      keyPath := [];
    }

    /** parsable.serialize for every kind of schema. */
    method Serialize(s: Schema, v: Value) returns (output: Text)
      requires Typed(s, v)
      modifies this
      ensures depth == old(depth) && keyPath == old(keyPath)
      ensures output == YslSchema.Serialize(s, v, depth)
      decreases s, 1, 0
    {
      hide CodeInner, SerializeItems, SerializeEntries, YslSchema.SerializeMembers;
      match s {
        case SString => output := Quote(v.text);
        case SNumber => output := IntText(v.n);
        case SBoolean => output := BoolText(v.b);
        case SNull => output := WORD_NULL;
        case SEnum(_) => output := SerializeIdentifier(v.text);
        case SCode => output := SerializeCode(v);
        case SList(item) => output := SerializeList(item, v);
        case SRecord(item) => output := SerializeRecord(item, v);
        case SObject(fields) => output := SerializeObject(s, v);
        case SNullable(inner) =>
          if v.VNull? { output := WORD_NULL; } else { output := Serialize(inner, v); }
        case SOptional(inner) => output := Serialize(inner, v);
      }
    }

    method SerializeCode(v: Value) returns (output: Text)
      requires v.VString?
      modifies this
      ensures depth == old(depth) && keyPath == old(keyPath)
      ensures output == YslSchema.Serialize(SCode, v, depth)
    {
      hide Shift, Lines, Indent;
      var inner, outer := Indent(depth + 1), Indent(depth);
      output := outer + [LCURLY, NEWLINE];
      depth := depth + 1;
      var lines := Lines(Trim(v.text));
      ghost var whole := output + JoinLines(inner, lines);
      for i := 0 to |lines|
        invariant depth == old(depth) + 1 && keyPath == old(keyPath)
        invariant whole == output + JoinLines(inner, lines[i..])
      {
        assert lines[i..][1..] == lines[i + 1..];
        output := output + Indent(depth) + lines[i] + [NEWLINE];
      }
      depth := depth - 1;
      CodeText(inner, outer, v.text);
      assert lines[|lines|..] == [];
      output := output + Indent(depth) + [RCURLY];
    }

    method SerializeList(item: Schema, v: Value) returns (output: Text)
      requires Typed(SList(item), v)
      modifies this
      ensures depth == old(depth) && keyPath == old(keyPath)
      ensures output == YslSchema.Serialize(SList(item), v, depth)
      decreases item, 2, 2
    {
      hide Indent, SerializeItems;
      if v.items == [] { return [LSQUARE, RSQUARE]; }
      output := [LSQUARE, NEWLINE];
      depth := depth + 1;
      var body := SerializeItemLines(item, v.items);
      depth := depth - 1;
      output := output + body + Indent(depth) + [RSQUARE];
    }

    /** The loop over the items of a list; its counter is never incremented, so every path ends in 0. */
    method SerializeItemLines(item: Schema, items: seq<Value>) returns (output: Text)
      requires forall k | 0 <= k < |items| :: Typed(item, items[k])
      modifies this
      ensures depth == old(depth) && keyPath == old(keyPath)
      ensures output == SerializeItems(item, items, depth)
      decreases item, 2, 1
    {
      assert SerializeItems(item, [], depth) == [];
      hide Typed, Indent, SerializeItems;
      output := [];
      var i := 0;
      ghost var whole := SerializeItems(item, items, depth);
      assert [] + whole == whole;
      for k := 0 to |items|
        invariant depth == old(depth) && keyPath == old(keyPath)
        invariant whole == output + SerializeItems(item, items[k..], depth)
      {
        ghost var done := output;
        keyPath := keyPath + [IntText(i)];
        var text := Serialize(item, items[k]);
        output := output + Indent(depth) + text + [COMMA, NEWLINE];
        keyPath := keyPath[..|keyPath| - 1];
        ItemsText(item, items[k..], depth, done, output);
        assert items[k..][1..] == items[k + 1..];
      }
      assert output + [] == output;
    }

    method SerializeRecord(item: Schema, v: Value) returns (output: Text)
      requires Typed(SRecord(item), v)
      modifies this
      ensures depth == old(depth) && keyPath == old(keyPath)
      ensures output == YslSchema.Serialize(SRecord(item), v, depth)
      decreases item, 2, 2
    {
      hide Indent, SerializeEntries;
      if v.entries == [] { return [LCURLY, RCURLY]; }
      output := [LCURLY, NEWLINE];
      depth := depth + 1;
      var body := SerializeEntryLines(item, v.entries);
      depth := depth - 1;
      output := output + body + Indent(depth) + [RCURLY];
    }

    /** The loop over the entries of a record. */
    method SerializeEntryLines(item: Schema, entries: seq<Entry>) returns (output: Text)
      requires forall k | 0 <= k < |entries| :: Typed(item, entries[k].value)
      modifies this
      ensures depth == old(depth) && keyPath == old(keyPath)
      ensures output == SerializeEntries(item, entries, depth)
      decreases item, 2, 1
    {
      assert SerializeEntries(item, [], depth) == [];
      hide Typed, SerializeEntries, EntryLine;
      output := [];
      ghost var whole := SerializeEntries(item, entries, depth);
      assert [] + whole == whole;
      for k := 0 to |entries|
        invariant depth == old(depth) && keyPath == old(keyPath)
        invariant whole == output + SerializeEntries(item, entries[k..], depth)
      {
        var line := SerializeEntry(item, entries[k]);
        EntriesText(item, entries[k..], depth, output, line);
        output := output + line;
        assert entries[k..][1..] == entries[k + 1..];
      }
      assert output + [] == output;
    }

    method SerializeEntry(item: Schema, e: Entry) returns (output: Text)
      requires Typed(item, e.value)
      modifies this
      ensures depth == old(depth) && keyPath == old(keyPath)
      ensures output == EntryLine(item, e, depth)
      decreases item, 2, 0
    {
      hide Typed, YslSchema.Serialize, SerializeIdentifier, Indent;
      keyPath := keyPath + [e.key];
      output := Indent(depth);
      output := output + SerializeIdentifier(e.key) + [COLON, SPACE];
      var text := Serialize(item, e.value);
      output := output + text + [NEWLINE];
      keyPath := keyPath[..|keyPath| - 1];
    }

    method SerializeObject(s: Schema, v: Value) returns (output: Text)
      requires s.SObject? && Typed(s, v)
      modifies this
      ensures depth == old(depth) && keyPath == old(keyPath)
      ensures output == YslSchema.Serialize(s, v, depth)
      decreases s, 0, 2
    {
      if s.fields == [] { return [LCURLY, RCURLY]; }
      output := [LCURLY, NEWLINE];
      depth := depth + 1;
      var body := SerializeMembers(s, false, v.members);
      depth := depth - 1;
      output := output + body + Indent(depth) + [RCURLY];
    }

    /** The loop over the fields of an object or the blocks of a script. */
    method SerializeMembers(s: Schema, top: bool, members: map<Text, Value>) returns (output: Text)
      requires s.SObject? && Typed(s, VObject(members))
      modifies this
      ensures depth == old(depth) && keyPath == old(keyPath)
      ensures output == YslSchema.SerializeMembers(s, top, 0, members, depth)
      decreases s, 0, 1
    {
      output := [];
      ghost var whole := YslSchema.SerializeMembers(s, top, 0, members, depth);
      assert [] + whole == whole;
      for i := 0 to |s.fields|
        invariant depth == old(depth) && keyPath == old(keyPath)
        invariant whole == output + YslSchema.SerializeMembers(s, top, i, members, depth)
      {
        ghost var done := output;
        if IsWritten(s.fields[i], top, members) {
          var line := SerializeField(s, top, i, members);
          output := output + line;
        } else {
          output := output + [];
        }
        MembersText(s, top, i, members, depth, done, output);
      }
      assert output + [] == output;
    }

    method SerializeField(s: Schema, top: bool, i: nat, members: map<Text, Value>) returns (output: Text)
      requires s.SObject? && Typed(s, VObject(members)) && i < |s.fields| && IsWritten(s.fields[i], top, members)
      modifies this
      ensures depth == old(depth) && keyPath == old(keyPath)
      ensures output == SerializeMember(s, top, i, members, depth)
      decreases s, 0, 0
    {
      var f := s.fields[i];
      keyPath := keyPath + [f.name];
      output := Indent(depth);
      output := output + SerializeIdentifier(f.name) + Separator(top);
      var text := Serialize(f.schema, ValueOf(f, members));
      output := output + text + Terminator(top);
      keyPath := keyPath[..|keyPath| - 1];
    }

    method SerializeScript(s: ScriptSchema, blocks: map<Text, Value>) returns (output: Text)
      requires s.blocks.SObject? && Typed(s.blocks, VObject(blocks)) && depth == 0
      modifies this
      ensures depth == old(depth) && keyPath == old(keyPath)
      ensures output == YslSchema.SerializeScript(s, blocks)
    {
      output := [AT] + s.annotation + [NEWLINE, NEWLINE];
      var body := SerializeMembers(s.blocks, true, blocks);
      output := output + body;
    }
  }

  lemma ItemsText(item: Schema, items: seq<Value>, depth: nat, done: Text, output: Text)
    requires items != [] && forall i | 0 <= i < |items| :: Typed(item, items[i])
    requires output == done + Indent(depth) + YslSchema.Serialize(item, items[0], depth) + [COMMA, NEWLINE]
    ensures done + SerializeItems(item, items, depth) == output + SerializeItems(item, items[1..], depth)
  {
    hide Typed, YslSchema.Serialize, Indent;
  }

  function EntryLine(item: Schema, e: Entry, depth: nat): Text
    requires Typed(item, e.value)
  {
    Indent(depth) + SerializeIdentifier(e.key) + [COLON, SPACE] + YslSchema.Serialize(item, e.value, depth) + [NEWLINE]
  }

  lemma EntriesText(item: Schema, entries: seq<Entry>, depth: nat, done: Text, line: Text)
    requires entries != [] && forall i | 0 <= i < |entries| :: Typed(item, entries[i].value)
    requires line == EntryLine(item, entries[0], depth)
    ensures done + SerializeEntries(item, entries, depth) == done + line + SerializeEntries(item, entries[1..], depth)
  {
    hide Typed, YslSchema.Serialize, Indent, SerializeIdentifier;
  }

  lemma MembersText(
      s: Schema, top: bool, i: nat, members: map<Text, Value>, depth: nat, done: Text, output: Text)
    requires s.SObject? && Typed(s, VObject(members)) && i < |s.fields|
    requires output == done + if IsWritten(s.fields[i], top, members) then SerializeMember(s, top, i, members, depth) else []
    ensures done + YslSchema.SerializeMembers(s, top, i, members, depth)
         == output + YslSchema.SerializeMembers(s, top, i + 1, members, depth)
  {
    hide Typed, IsWritten, SerializeMember;
    var line := if IsWritten(s.fields[i], top, members) then SerializeMember(s, top, i, members, depth) else [];
    assert YslSchema.SerializeMembers(s, top, i, members, depth)
        == line + YslSchema.SerializeMembers(s, top, i + 1, members, depth);
  }

  lemma CodeText(inner: Text, outer: Text, value: Text)
    ensures outer + [LCURLY, NEWLINE] + JoinLines(inner, Lines(Trim(value))) + outer + [RCURLY]
         == outer + [LCURLY] + CodeInner(inner, outer, value) + [RCURLY]
  {
    hide TrimEnd, Lines, JoinLines;
    var body := Trim(value);
    LinesAreShifted(inner, body);
    ShiftConcat(inner, [NEWLINE], body);
    assert [NEWLINE][1..] == [];
    assert Shift(inner, [NEWLINE]) == [NEWLINE] + inner;
    assert outer + [LCURLY, NEWLINE] + (inner + Shift(inner, body) + [NEWLINE])
        == outer + [LCURLY] + (([NEWLINE] + inner) + Shift(inner, body) + [NEWLINE]);
  }

  /** deserialize: a fresh lexer, scanner and parser on the text. */
  method Deserialize(s: ScriptSchema, text: Text) returns (r: Result<map<Text, Value>>)
    requires s.blocks.SObject?
    ensures var p := YslSchema.Deserialize(s, text); r == if p.Ok? then Success(p.value) else Thrown(p.error)
  {
    hide ReadToken;
    var lexer := new Lexer(text);
    var scanner := new Scanner(lexer);
    var parser := new Parser(scanner);
    r := parser.ParseScript(s);
  }

  /** serialize: a fresh serializer. */
  method SerializeText(s: ScriptSchema, blocks: map<Text, Value>) returns (text: Text)
    requires s.blocks.SObject? && Typed(s.blocks, VObject(blocks))
    ensures text == YslSchema.SerializeScript(s, blocks)
  {
    var serializer := new Serializer();
    text := serializer.SerializeScript(s, blocks);
  }

  // The loops, one turn at a time.

  lemma ItemsTurn(item: Schema, p: Scan, items: seq<Value>)
    ensures p.token.EOF? || p.token.RightSquare? ==> ParseItems(item, p, items) == CloseList(items, p)
    ensures !p.token.EOF? && !p.token.RightSquare? ==>
              var r := YslSchema.Parse(item, p);
              ParseItems(item, p, items)
              == if r.Err? then Err(r.error)
                 else if r.next.token.Comma? then ParseItems(item, Next(r.next), items + [r.value])
                 else CloseList(items + [r.value], r.next)
  {
    hide ReadToken, Next, YslSchema.Parse;
  }

  lemma EntriesTurn(item: Schema, p: Scan, entries: seq<Entry>)
    ensures p.token.EOF? ==> ParseEntries(item, p, entries) == Err(UnexpectedToken(p.token))
    ensures p.token.RightCurly? ==> ParseEntries(item, p, entries) == Ok(VRecord(entries), Next(p))
    ensures !p.token.EOF? && !p.token.RightCurly? ==>
              ParseEntries(item, p, entries)
              == if !p.token.Identifier? then Err(UnexpectedToken(p.token))
                 else if p.token.value in KeySet(entries) then Err(DuplicateKey(p.token.value))
                 else if !Next(p).token.Colon? then Err(UnexpectedToken(Next(p).token))
                 else
                   var r := YslSchema.Parse(item, Next(Next(p)));
                   if r.Err? then Err(r.error)
                   else ParseEntries(item, r.next, entries + [Entry(p.token.value, r.value)])
  {
    hide ReadToken, Next, YslSchema.Parse, KeySet;
  }

  /** One member, as ParseMembers reads it. */
  function EntryOf(s: Schema, top: bool, p: Scan, parsedKeys: set<Text>): (r: Parsed<Entry>)
    requires s.SObject?
    ensures r.Ok? ==> Weight(r.next) < Weight(p)
  {
    if !p.token.Identifier? then Err(UnexpectedToken(p.token))
    else if p.token.value in parsedKeys then Err(DuplicateKey(p.token.value))
    else
      var i := FieldIndex(s.fields, p.token.value);
      if i == |s.fields| then Err(UnexpectedKey(p.token.value))
      else if !top && !Next(p).token.Colon? then Err(UnexpectedToken(Next(p).token))
      else match YslSchema.Parse(s.fields[i].schema, if top then Next(p) else Next(Next(p)))
        case Err(e) => Err(e)
        case Ok(v, next) => Ok(Entry(p.token.value, v), next)
  }

  lemma MembersTurn(s: Schema, top: bool, p: Scan, members: map<Text, Value>)
    requires s.SObject?
    ensures top && p.token.EOF? ==> YslSchema.ParseMembers(s, top, p, members) == Fill(s.fields, 0, members, p)
    ensures !top && p.token.EOF? ==> YslSchema.ParseMembers(s, top, p, members) == Err(UnexpectedToken(p.token))
    ensures !top && p.token.RightCurly? ==> YslSchema.ParseMembers(s, top, p, members) == Fill(s.fields, 0, members, Next(p))
    ensures !p.token.EOF? && (top || !p.token.RightCurly?) ==>
              var e := EntryOf(s, top, p, members.Keys);
              YslSchema.ParseMembers(s, top, p, members)
              == if e.Err? then Err(e.error)
                 else YslSchema.ParseMembers(s, top, e.next, members[e.value.key := e.value.value])
  {
    hide ReadToken, Next, YslSchema.Parse, Fill;
  }

  lemma RunTurns(st: CodeState, s: Text)
    requires s != []
    ensures var t := TurnOf(st.control, s[0], Second(s), CanStartRegex(st.content));
            if t.Stop? then CodeRun(st, s) == CodeScan(st, s)
            else t.count <= |s| && CodeRun(st, s) == CodeRun(CodeState(t.control, st.content + s[..t.count]), s[t.count..])
  {
    hide CanStartRegex;
  }

  lemma RunOfNothing(st: CodeState)
    ensures CodeRun(st, []) == CodeScan(st, [])
  {
  }
}
