/** Parsing what the serializer wrote: which values come back, and as what. */
module YslRoundTrip {
  import opened CodeUnits
  import opened YslScanner
  import opened YslTokens
  import opened YslCode
  import opened YslSchema

  lemma IndentIsWhite(depth: nat)
    ensures AllWhite(Indent(depth)) && AllSpaces(Indent(depth))
  {
  }

  /** Whitespace written by the serializer is skipped by the scanner. */
  lemma SkipIndent(depth: nat, s: Text)
    ensures ReadToken(Indent(depth) + s) == ReadToken(s)
  {
    IndentIsWhite(depth);
    WhiteSkipped(Indent(depth), s);
  }

  lemma SkipNewline(s: Text)
    ensures ReadToken([NEWLINE] + s) == ReadToken(s)
    ensures ReadToken([SPACE] + s) == ReadToken(s)
    ensures ReadToken([NEWLINE, NEWLINE] + s) == ReadToken(s)
  {
    WhiteSkipped([NEWLINE], s);
    WhiteSkipped([SPACE], s);
    WhiteSkipped([NEWLINE, NEWLINE], s);
  }

  // ---------------------------------------------------------------- loops only add to what they have

  lemma {:induction false} ItemsKeepPrefix(item: Schema, p: Scan, items: seq<Value>)
    ensures var r := ParseItems(item, p, items); r.Ok? ==> r.value.VList? && items <= r.value.items
    decreases Weight(p)
  {
    if !p.token.EOF? && !p.token.RightSquare? {
      var r := Parse(item, p);
      if r.Ok? && r.next.token.Comma? { ItemsKeepPrefix(item, Next(r.next), items + [r.value]); }
    }
  }

  lemma {:induction false} EntriesKeepPrefix(item: Schema, p: Scan, entries: seq<Entry>)
    ensures var r := ParseEntries(item, p, entries); r.Ok? ==> r.value.VRecord? && entries <= r.value.entries
    decreases Weight(p)
  {
    if p.token.Identifier? && p.token.value !in KeySet(entries) && Next(p).token.Colon? {
      var r := Parse(item, Next(Next(p)));
      if r.Ok? { EntriesKeepPrefix(item, r.next, entries + [Entry(p.token.value, r.value)]); }
    }
  }

  predicate Extends(m: map<Text, Value>, m': map<Text, Value>) {
    forall k | k in m :: k in m' && m'[k] == m[k]
  }

  lemma {:induction false} FillExtends(fields: seq<Field>, i: nat, members: map<Text, Value>, next: Scan)
    requires i <= |fields|
    ensures var r := Fill(fields, i, members, next); r.Ok? ==> Extends(members, r.value)
    decreases |fields| - i
  {
    if i < |fields| {
      FillExtends(fields, i + 1, members, next);
      FillExtends(fields, i + 1, members[fields[i].name := VNull], next);
    }
  }

  lemma {:induction false} MembersExtend(s: Schema, top: bool, p: Scan, members: map<Text, Value>)
    requires s.SObject?
    ensures var r := ParseMembers(s, top, p, members); r.Ok? ==> Extends(members, r.value)
    decreases Weight(p)
  {
    if top && p.token.EOF? {
      FillExtends(s.fields, 0, members, p);
    } else if !top && p.token.RightCurly? {
      FillExtends(s.fields, 0, members, Next(p));
    } else if p.token.Identifier? && p.token.value !in members {
      var i := FieldIndex(s.fields, p.token.value);
      if i < |s.fields| && (top || Next(p).token.Colon?) {
        var r := Parse(s.fields[i].schema, if top then Next(p) else Next(Next(p)));
        if r.Ok? { MembersExtend(s, top, r.next, members[p.token.value := r.value]); }
      }
    }
  }

  // ---------------------------------------------------------------- first tokens

  /** A serialized value never starts with the end of the text or a closing bracket, and with null only if it is null. */
  predicate StartsValue(t: Token, v: Value) {
    !t.EOF? && !t.RightSquare? && !t.RightCurly? && (t.Null? ==> v.VNull?)
  }

  lemma {:induction false} FirstToken(s: Schema, v: Value, depth: nat, rest: Text)
    requires IsSchema(s) && Typed(s, v) && IsDelimited(rest)
    ensures StartsValue(ReadToken(Serialize(s, v, depth) + rest).token, v)
  {
    hide ReadToken;
    match s
    case SString => QuoteToken(v.text, rest);
    case SNumber => IntReadsBack(v.n, rest);
    case SBoolean => WordReadsBack(BoolText(v.b), rest);
    case SNull => WordReadsBack(WORD_NULL, rest);
    case SEnum(names) => IdentifierReadsBack(v.text, rest);
    case SCode => CodeFirstToken(v, depth, rest);
    case SList(item) => BracketFirst(LSQUARE, Serialize(s, v, depth), rest);
    case SRecord(item) => BracketFirst(LCURLY, Serialize(s, v, depth), rest);
    case SObject(fields) => BracketFirst(LCURLY, Serialize(s, v, depth), rest);
    case SNullable(inner) => if v.VNull? { WordReadsBack(WORD_NULL, rest); } else { FirstToken(inner, v, depth, rest); }
    case SOptional(inner) => FirstToken(inner, v, depth, rest);
  }

  lemma QuoteToken(text: Text, rest: Text)
    ensures ReadToken(Quote(text) + rest).token.Str? || ReadToken(Quote(text) + rest).token.Illegal?
  {
    QuoteReadsBack(text, rest);
  }

  lemma CodeFirstToken(v: Value, depth: nat, rest: Text)
    requires Typed(SCode, v)
    ensures ReadToken(Serialize(SCode, v, depth) + rest)
         == Scan(LeftCurly, CodeInner(Indent(depth + 1), Indent(depth), v.text) + [RCURLY] + rest)
  {
    hide ReadToken;
    var body := CodeInner(Indent(depth + 1), Indent(depth), v.text) + [RCURLY] + rest;
    assert Serialize(SCode, v, depth) + rest == Indent(depth) + ([LCURLY] + body);
    SkipIndent(depth, [LCURLY] + body);
    PunctuationReadsBack(LCURLY, body);
  }

  lemma BracketFirst(c: Unit, s: Text, rest: Text)
    requires IsPunctuation(c) && s != [] && s[0] == c
    ensures ReadToken(s + rest).token == PunctuationToken(c)
  {
    hide ReadToken;
    assert s + rest == [c] + (s[1..] + rest);
    PunctuationReadsBack(c, s[1..] + rest);
  }

  // ---------------------------------------------------------------- the round trip

  /** The parse r of a serialized value: the reloaded value exactly if ok, and otherwise an error or another value. */
  ghost predicate Returns<T(!new)>(r: Parsed<T>, ok: bool, value: T, next: Scan) {
    if ok then r == Ok(value, next) else r.Ok? ==> r.value != value
  }

  lemma NumberOfInteger(n: int)
    ensures NumberOf(IntText(n)) == VInteger(n)
  {
    DigitsReadBack(if n < 0 then -n else n);
    var s := IntText(n);
    if n < 0 {
      assert s[1..] == Digits(-n);
    } else {
      assert IsDigit(s[0]);
    }
  }

  lemma CodeReadsBack(v: Value, depth: nat, rest: Text)
    requires Typed(SCode, v)
    ensures Returns(ParseCode(ReadToken(Serialize(SCode, v, depth) + rest)),
                    CleanBody(v.text), Reload(SCode, v, depth), ReadToken(rest))
  {
    hide ReadToken, CodeRun, CodeInner, CleanBody;
    var indent, outer := Indent(depth + 1), Indent(depth);
    IndentIsWhite(depth);
    IndentIsWhite(depth + 1);
    CodeFirstToken(v, depth, rest);
    CodeBlockReadsBack(indent, outer, v.text, rest);
    PunctuationReadsBack(RCURLY, rest);
  }

  lemma {:induction false} ValueReadsBack(s: Schema, v: Value, depth: nat, rest: Text)
    requires IsSchema(s) && Typed(s, v) && IsDelimited(rest)
    ensures Returns(Parse(s, ReadToken(Serialize(s, v, depth) + rest)),
                    Printable(s, v), Reload(s, v, depth), ReadToken(rest))
    decreases s, 5
  {
    hide ReadToken;
    match s
    case SString => QuoteReadsBack(v.text, rest);
    case SNumber => IntReadsBack(v.n, rest); NumberOfInteger(v.n);
    case SBoolean => WordReadsBack(BoolText(v.b), rest);
    case SNull => WordReadsBack(WORD_NULL, rest);
    case SEnum(names) => IdentifierReadsBack(v.text, rest);
    case SCode => CodeReadsBack(v, depth, rest);
    case SList(item) => ListReadsBack(item, v, depth, rest);
    case SNullable(inner) =>
      if v.VNull? {
        WordReadsBack(WORD_NULL, rest);
      } else {
        FirstToken(inner, v, depth, rest);
        ValueReadsBack(inner, v, depth, rest);
      }
    case SOptional(inner) => ValueReadsBack(inner, v, depth, rest);
    case SRecord(item) => RecordReadsBack(item, v, depth, rest);
    case SObject(fields) => ObjectReadsBack(s, v, depth, rest);
  }

  // Lists.

  lemma ListUnfolds(item: Schema, v: Value, depth: nat, p: Scan)
    requires Typed(SList(item), v) && p.token.LeftSquare?
    ensures v.VList? && forall i | 0 <= i < |v.items| :: Typed(item, v.items[i])
    ensures Parse(SList(item), p) == ParseItems(item, Next(p), [])
    ensures Reload(SList(item), v, depth) == VList([] + ReloadItems(item, v.items, depth + 1))
    ensures Printable(SList(item), v) <==> AllPrintable(item, v.items)
  {
    hide ReadToken;
    AllPrintableEach(item, v.items);
    assert [] + ReloadItems(item, v.items, depth + 1) == ReloadItems(item, v.items, depth + 1);
  }

  lemma ListReadsBack(item: Schema, v: Value, depth: nat, rest: Text)
    requires IsSchema(item) && Typed(SList(item), v) && IsDelimited(rest)
    ensures Returns(Parse(SList(item), ReadToken(Serialize(SList(item), v, depth) + rest)),
                    Printable(SList(item), v), Reload(SList(item), v, depth), ReadToken(rest))
    decreases item, 7
  {
    assert v.VList?;
    hide ReadToken, ParseItems, SerializeItems, Serialize, IsSchema, ReloadItems, ListEnd, Parse, Reload, Printable, Typed,
      AllPrintable;
    ListText(item, v, depth, rest);
    ListEndToken(v.items, depth, rest);
    ListUnfolds(item, v, depth, ReadToken(Serialize(SList(item), v, depth) + rest));
    ItemsReadBack(item, v.items, depth + 1, ListEnd(v.items, depth, rest), rest, []);
  }

  /** The text of a bracketed value, cut behind its opening bracket. */
  lemma BracketedText(open: Unit, inner: Text, indent: Text, shut: Unit, rest: Text)
    requires IsPunctuation(open)
    ensures ReadToken([open, NEWLINE] + inner + indent + [shut] + rest)
         == Scan(PunctuationToken(open), [NEWLINE] + (inner + (indent + ([shut] + rest))))
    ensures ReadToken([open, shut] + rest) == Scan(PunctuationToken(open), [shut] + rest)
  {
    hide ReadToken, PunctuationToken;
    var body := [NEWLINE] + (inner + (indent + ([shut] + rest)));
    assert [open, NEWLINE] + inner + indent + [shut] + rest == [open] + body;
    assert [open, shut] + rest == [open] + ([shut] + rest);
    PunctuationReadsBack(open, body);
    PunctuationReadsBack(open, [shut] + rest);
  }

  lemma ListText(item: Schema, v: Value, depth: nat, rest: Text)
    requires Typed(SList(item), v)
    ensures var p := ReadToken(Serialize(SList(item), v, depth) + rest);
            p.token.LeftSquare? && Next(p) == ReadToken(SerializeItems(item, v.items, depth + 1) + ListEnd(v.items, depth, rest))
  {
    hide ReadToken;
    assert v.VList? && forall i | 0 <= i < |v.items| :: Typed(item, v.items[i]);
    hide Typed;
    if v.items == [] {
      BracketedText(LSQUARE, [], [], RSQUARE, rest);
      NoItemText(item, depth + 1);
      assert [] + ListEnd(v.items, depth, rest) == ListEnd(v.items, depth, rest) == [RSQUARE] + rest;
    } else {
      var inner := SerializeItems(item, v.items, depth + 1);
      BracketedText(LSQUARE, inner, Indent(depth), RSQUARE, rest);
      SkipNewline(inner + ListEnd(v.items, depth, rest));
    }
  }

  function ListEnd(items: seq<Value>, depth: nat, rest: Text): Text {
    (if items == [] then [] else Indent(depth)) + ([RSQUARE] + rest)
  }

  lemma ListEndToken(items: seq<Value>, depth: nat, rest: Text)
    ensures ReadToken(ListEnd(items, depth, rest)) == Scan(RightSquare, rest)
  {
    hide ReadToken;
    assert [] + ([RSQUARE] + rest) == [RSQUARE] + rest;
    SkipIndent(depth, [RSQUARE] + rest);
    PunctuationReadsBack(RSQUARE, rest);
  }

  predicate AllPrintable(item: Schema, items: seq<Value>)
    requires forall i | 0 <= i < |items| :: Typed(item, items[i])
  {
    items == [] || (Printable(item, items[0]) && AllPrintable(item, items[1..]))
  }

  lemma {:induction false} AllPrintableEach(item: Schema, items: seq<Value>)
    requires forall i | 0 <= i < |items| :: Typed(item, items[i])
    ensures AllPrintable(item, items) <==> forall i | 0 <= i < |items| :: Printable(item, items[i])
  {
    hide Typed, Printable;
    if items != [] {
      AllPrintableEach(item, items[1..]);
      if AllPrintable(item, items) {
        forall i | 0 <= i < |items| ensures Printable(item, items[i]) {
          if i > 0 { assert items[1..][i - 1] == items[i]; }
        }
      }
    }
  }

  lemma {:induction false} ItemsReadBack(
      item: Schema, items: seq<Value>, depth: nat, close: Text, rest: Text, done: seq<Value>)
    requires IsSchema(item) && forall i | 0 <= i < |items| :: Typed(item, items[i])
    requires ReadToken(close) == Scan(RightSquare, rest)
    ensures Returns(ParseItems(item, ReadToken(SerializeItems(item, items, depth) + close), done),
                    AllPrintable(item, items), VList(done + ReloadItems(item, items, depth)), ReadToken(rest))
    decreases item, 6, |items|
  {
    hide ReadToken, Parse, Printable, Reload, Serialize, Typed, IsSchema, ParseItems, SerializeItems;
    if items == [] {
      NoItem(item, close, done, rest);
      assert SerializeItems(item, items, depth) + close == close by { NoItemText(item, depth); }
      assert done + ReloadItems(item, items, depth) == done;
    } else {
      var v, more := items[0], items[1..];
      var tail := SerializeItems(item, more, depth) + close;
      var after := [COMMA] + ([NEWLINE] + tail);
      var p := ReadToken(Serialize(item, v, depth) + after);
      ItemText(item, items, depth, close);
      FirstToken(item, v, depth, after);
      ValueReadsBack(item, v, depth, after);
      var loaded := Reload(item, v, depth);
      assert done + ReloadItems(item, items, depth) == done + [loaded] + ReloadItems(item, more, depth);
      if Printable(item, v) {
        PunctuationReadsBack(COMMA, [NEWLINE] + tail);
        SkipNewline(tail);
        NextItem(item, p, done, loaded);
        ItemsReadBack(item, more, depth, close, rest, done + [loaded]);
      } else {
        ItemsDiffer(item, p, done, loaded, done + ReloadItems(item, items, depth));
      }
    }
  }

  lemma NoItemText(item: Schema, depth: nat)
    ensures SerializeItems(item, [], depth) == []
  {
  }

  lemma NoItem(item: Schema, close: Text, done: seq<Value>, rest: Text)
    requires ReadToken(close) == Scan(RightSquare, rest)
    ensures ParseItems(item, ReadToken(close), done) == Ok(VList(done), ReadToken(rest))
  {
    hide ReadToken;
  }

  lemma NextItem(item: Schema, p: Scan, done: seq<Value>, v: Value)
    requires !p.token.EOF? && !p.token.RightSquare?
    requires Parse(item, p).Ok? && Parse(item, p).value == v && Parse(item, p).next.token.Comma?
    ensures ParseItems(item, p, done) == ParseItems(item, Next(Parse(item, p).next), done + [v])
  {
  }

  lemma ItemText(item: Schema, items: seq<Value>, depth: nat, close: Text)
    requires items != [] && forall i | 0 <= i < |items| :: Typed(item, items[i])
    ensures var tail := SerializeItems(item, items[1..], depth) + close;
            ReadToken(SerializeItems(item, items, depth) + close)
            == ReadToken(Serialize(item, items[0], depth) + ([COMMA] + ([NEWLINE] + tail)))
  {
    hide ReadToken, Typed, Serialize;
    var tail := SerializeItems(item, items[1..], depth) + close;
    var text := Serialize(item, items[0], depth) + ([COMMA] + ([NEWLINE] + tail));
    assert SerializeItems(item, items, depth) + close == Indent(depth) + text;
    SkipIndent(depth, text);
  }

  /** An item that does not come back leaves its place in the list to another value. */
  lemma ItemsDiffer(item: Schema, p: Scan, done: seq<Value>, lost: Value, whole: seq<Value>)
    requires !p.token.EOF? && !p.token.RightSquare?
    requires |whole| > |done| && whole[|done|] == lost
    requires Parse(item, p).Ok? ==> Parse(item, p).value != lost
    ensures var r := ParseItems(item, p, done); r.Ok? ==> r.value != VList(whole)
  {
    var r := Parse(item, p);
    if r.Ok? {
      assert (done + [r.value])[|done|] == r.value;
      if r.next.token.Comma? { ItemsKeepPrefix(item, Next(r.next), done + [r.value]); }
    }
  }

  // Records.

  predicate AllEntriesPrintable(item: Schema, entries: seq<Entry>)
    requires forall i | 0 <= i < |entries| :: Typed(item, entries[i].value)
  {
    entries == []
    || (IsGoodKey(entries[0].key) && Printable(item, entries[0].value) && AllEntriesPrintable(item, entries[1..]))
  }

  lemma {:induction false} AllEntriesPrintableEach(item: Schema, entries: seq<Entry>)
    requires forall i | 0 <= i < |entries| :: Typed(item, entries[i].value)
    ensures AllEntriesPrintable(item, entries)
       <==> forall i | 0 <= i < |entries| :: IsGoodKey(entries[i].key) && Printable(item, entries[i].value)
  {
    hide Typed, Printable, IsGoodKey;
    if entries != [] {
      AllEntriesPrintableEach(item, entries[1..]);
      if AllEntriesPrintable(item, entries) {
        forall i | 0 <= i < |entries| ensures IsGoodKey(entries[i].key) && Printable(item, entries[i].value) {
          if i > 0 { assert entries[1..][i - 1] == entries[i]; }
        }
      }
    }
  }

  lemma RecordUnfolds(item: Schema, v: Value, depth: nat, p: Scan)
    requires Typed(SRecord(item), v) && p.token.LeftCurly?
    ensures v.VRecord? && (forall i | 0 <= i < |v.entries| :: Typed(item, v.entries[i].value)) && HasDistinctKeys(v.entries)
    ensures Parse(SRecord(item), p) == ParseEntries(item, Next(p), [])
    ensures Reload(SRecord(item), v, depth) == VRecord([] + ReloadEntries(item, v.entries, depth + 1))
    ensures Printable(SRecord(item), v) <==> AllEntriesPrintable(item, v.entries)
  {
    AllEntriesPrintableEach(item, v.entries);
    hide ReadToken, HasDistinctKeys, IsGoodKey, AllEntriesPrintable, ParseEntries, ReloadEntries;
    assert [] + ReloadEntries(item, v.entries, depth + 1) == ReloadEntries(item, v.entries, depth + 1);
  }

  lemma RecordReadsBack(item: Schema, v: Value, depth: nat, rest: Text)
    requires IsSchema(item) && Typed(SRecord(item), v) && IsDelimited(rest)
    ensures Returns(Parse(SRecord(item), ReadToken(Serialize(SRecord(item), v, depth) + rest)),
                    Printable(SRecord(item), v), Reload(SRecord(item), v, depth), ReadToken(rest))
    decreases item, 7
  {
    assert v.VRecord?;
    hide ReadToken, ParseEntries, SerializeEntries, Serialize, IsSchema, ReloadEntries, CurlyEnd, Parse, Reload, Printable,
      Typed, AllEntriesPrintable, KeySet, NewKeys, HasDistinctKeys;
    RecordText(item, v, depth, rest);
    CurlyEndToken(v.entries == [], depth, rest);
    RecordUnfolds(item, v, depth, ReadToken(Serialize(SRecord(item), v, depth) + rest));
    DistinctKeysAreNew({}, v.entries);
    assert KeySet([]) == {} by { NoKeys(); }
    EntriesReadBack(item, v.entries, depth + 1, CurlyEnd(v.entries == [], depth, rest), rest, []);
  }

  lemma RecordText(item: Schema, v: Value, depth: nat, rest: Text)
    requires Typed(SRecord(item), v)
    ensures var p := ReadToken(Serialize(SRecord(item), v, depth) + rest);
            && p.token.LeftCurly?
            && Next(p) == ReadToken(SerializeEntries(item, v.entries, depth + 1) + CurlyEnd(v.entries == [], depth, rest))
  {
    hide ReadToken;
    assert v.VRecord? && forall i | 0 <= i < |v.entries| :: Typed(item, v.entries[i].value);
    hide Typed;
    if v.entries == [] {
      BracketedText(LCURLY, [], [], RCURLY, rest);
      assert SerializeEntries(item, v.entries, depth + 1) + CurlyEnd(true, depth, rest) == [RCURLY] + rest;
    } else {
      var inner := SerializeEntries(item, v.entries, depth + 1);
      BracketedText(LCURLY, inner, Indent(depth), RCURLY, rest);
      SkipNewline(inner + CurlyEnd(false, depth, rest));
    }
  }

  function CurlyEnd(empty: bool, depth: nat, rest: Text): Text {
    (if empty then [] else Indent(depth)) + ([RCURLY] + rest)
  }

  lemma CurlyEndToken(empty: bool, depth: nat, rest: Text)
    ensures ReadToken(CurlyEnd(empty, depth, rest)) == Scan(RightCurly, rest)
  {
    hide ReadToken;
    assert [] + ([RCURLY] + rest) == [RCURLY] + rest;
    SkipIndent(depth, [RCURLY] + rest);
    PunctuationReadsBack(RCURLY, rest);
  }

  /** A key, a colon and a value. */
  function Named(key: Text, value: Text): Text {
    SerializeIdentifier(key) + ([COLON] + ([SPACE] + value))
  }

  lemma NameTokens(key: Text, value: Text)
    ensures var p := ReadToken(Named(key, value));
            && !p.token.RightCurly? && !p.token.EOF?
            && (if IsGoodKey(key)
                then p.token == Identifier(key) && Next(p).token.Colon? && Next(Next(p)) == ReadToken(value)
                else p.token.Identifier? ==> p.token.value != key)
  {
    hide ReadToken, IsGoodKey, SerializeIdentifier;
    IdentifierReadsBack(key, [COLON] + ([SPACE] + value));
    PunctuationReadsBack(COLON, [SPACE] + value);
    SkipNewline(value);
  }

  lemma {:induction false} EntriesReadBack(
      item: Schema, entries: seq<Entry>, depth: nat, close: Text, rest: Text, done: seq<Entry>)
    requires IsSchema(item) && forall i | 0 <= i < |entries| :: Typed(item, entries[i].value)
    requires ReadToken(close) == Scan(RightCurly, rest)
    requires NewKeys(KeySet(done), entries)
    ensures Returns(ParseEntries(item, ReadToken(SerializeEntries(item, entries, depth) + close), done),
                    AllEntriesPrintable(item, entries),
                    VRecord(done + ReloadEntries(item, entries, depth)), ReadToken(rest))
    decreases item, 6, |entries|
  {
    hide ReadToken, Parse, Printable, Reload, Serialize, Typed, IsSchema, ParseEntries, SerializeEntries, IsGoodKey, KeySet,
      ReloadEntries;
    if entries == [] {
      NoEntry(item, depth, close, done, rest);
    } else {
      var e, more := entries[0], entries[1..];
      var tail := SerializeEntries(item, more, depth) + close;
      var after := [NEWLINE] + tail;
      var value := Serialize(item, e.value, depth) + after;
      var loaded := Entry(e.key, Reload(item, e.value, depth));
      var whole := done + ReloadEntries(item, entries, depth);
      var p := ReadToken(Named(e.key, value));
      EntryText(item, entries, depth, close);
      NameTokens(e.key, value);
      SkipNewline(tail);
      ValueReadsBack(item, e.value, depth, after);
      ReloadEntriesCons(item, entries, depth, done);
      hide Next, Named;
      if IsGoodKey(e.key) && Printable(item, e.value) {
        NextEntry(item, p, done, ReadToken(value), loaded);
        KeySetSnoc(done, loaded);
        EntriesReadBack(item, more, depth, close, rest, done + [loaded]);
      } else {
        EntriesDiffer(item, p, done, loaded, whole);
      }
    }
  }

  /** No key of the entries is used before them, or by one of them twice. */
  predicate NewKeys(used: set<Text>, entries: seq<Entry>)
    decreases |entries|
  {
    entries == [] || (entries[0].key !in used && NewKeys(used + {entries[0].key}, entries[1..]))
  }

  lemma {:induction false} DistinctKeysAreNew(used: set<Text>, entries: seq<Entry>)
    requires HasDistinctKeys(entries) && forall i | 0 <= i < |entries| :: entries[i].key !in used
    ensures NewKeys(used, entries)
    decreases |entries|
  {
    if entries != [] {
      assert forall i | 0 <= i < |entries| - 1 :: entries[1..][i] == entries[i + 1];
      DistinctKeysAreNew(used + {entries[0].key}, entries[1..]);
    }
  }

  lemma NoKeys()
    ensures KeySet([]) == {}
  {
  }

  lemma KeySetSnoc(entries: seq<Entry>, e: Entry)
    ensures KeySet(entries + [e]) == KeySet(entries) + {e.key}
  {
    assert forall x :: x in entries + [e] <==> x in entries || x == e;
    assert e in entries + [e];
    forall k | k in KeySet(entries) + {e.key} ensures k in KeySet(entries + [e]) {
      if k in KeySet(entries) {
        var x :| x in entries && x.key == k;
        assert x in entries + [e];
      }
    }
  }

  lemma ReloadEntriesCons(item: Schema, entries: seq<Entry>, depth: nat, done: seq<Entry>)
    requires entries != [] && forall i | 0 <= i < |entries| :: Typed(item, entries[i].value)
    ensures var e := Entry(entries[0].key, Reload(item, entries[0].value, depth));
            var whole := done + ReloadEntries(item, entries, depth);
            whole == done + [e] + ReloadEntries(item, entries[1..], depth) && |whole| > |done| && whole[|done|] == e
  {
    hide Typed, Reload;
  }

  lemma NoEntry(item: Schema, depth: nat, close: Text, done: seq<Entry>, rest: Text)
    requires ReadToken(close) == Scan(RightCurly, rest)
    ensures ParseEntries(item, ReadToken(SerializeEntries(item, [], depth) + close), done)
         == Ok(VRecord(done + ReloadEntries(item, [], depth)), ReadToken(rest))
  {
    hide ReadToken;
    assert SerializeEntries(item, [], depth) + close == close;
    assert done + ReloadEntries(item, [], depth) == done;
  }

  lemma NextEntry(item: Schema, p: Scan, done: seq<Entry>, q: Scan, e: Entry)
    requires p.token == Identifier(e.key) && e.key !in KeySet(done)
    requires Next(p).token.Colon? && Next(Next(p)) == q
    requires Parse(item, q).Ok? && Parse(item, q).value == e.value
    ensures ParseEntries(item, p, done) == ParseEntries(item, Parse(item, q).next, done + [e])
  {
    hide ReadToken, Parse;
  }

  lemma EntryText(item: Schema, entries: seq<Entry>, depth: nat, close: Text)
    requires entries != [] && forall i | 0 <= i < |entries| :: Typed(item, entries[i].value)
    ensures var tail := SerializeEntries(item, entries[1..], depth) + close;
            var value := Serialize(item, entries[0].value, depth) + ([NEWLINE] + tail);
            ReadToken(SerializeEntries(item, entries, depth) + close)
            == ReadToken(Named(entries[0].key, value))
  {
    hide ReadToken, Typed, Serialize, SerializeIdentifier;
    var tail := SerializeEntries(item, entries[1..], depth) + close;
    var value := Serialize(item, entries[0].value, depth) + ([NEWLINE] + tail);
    var named := Named(entries[0].key, value);
    assert SerializeEntries(item, entries, depth) + close == Indent(depth) + named;
    SkipIndent(depth, named);
  }

  /** An entry that does not come back leaves its place to another entry. */
  lemma EntriesDiffer(item: Schema, p: Scan, done: seq<Entry>, lost: Entry, whole: seq<Entry>)
    requires !p.token.RightCurly?
    requires |whole| > |done| && whole[|done|] == lost
    requires p.token.Identifier? && p.token.value == lost.key && Next(p).token.Colon? ==>
               var r := Parse(item, Next(Next(p))); r.Ok? ==> r.value != lost.value
    ensures var r := ParseEntries(item, p, done); r.Ok? ==> r.value != VRecord(whole)
  {
    hide ReadToken, Parse;
    if p.token.Identifier? && p.token.value !in KeySet(done) && Next(p).token.Colon? {
      var r := Parse(item, Next(Next(p)));
      if r.Ok? {
        var e := Entry(p.token.value, r.value);
        assert (done + [e])[|done|] == e;
        EntriesKeepPrefix(item, r.next, done + [e]);
      }
    }
  }

  // Objects and scripts.

  predicate AllWrittenPrintable(s: Schema, top: bool, i: nat, members: map<Text, Value>)
    requires s.SObject? && Typed(s, VObject(members)) && i <= |s.fields|
    decreases |s.fields| - i
  {
    i == |s.fields|
    || ((IsWritten(s.fields[i], top, members) ==> Printable(s.fields[i].schema, ValueOf(s.fields[i], members)))
        && AllWrittenPrintable(s, top, i + 1, members))
  }

  predicate RequiredWritten(s: Schema, top: bool, members: map<Text, Value>)
    requires s.SObject?
  {
    forall k | 0 <= k < |s.fields| :: IsRequired(s.fields[k].schema) ==> IsWritten(s.fields[k], top, members)
  }

  /** What the parser has collected after the first i fields. */
  function WrittenMembers(s: Schema, top: bool, i: nat, members: map<Text, Value>, depth: nat): map<Text, Value>
    requires s.SObject? && Typed(s, VObject(members)) && i <= |s.fields|
  {
    if i == 0 then map[]
    else
      var f := s.fields[i - 1];
      var before := WrittenMembers(s, top, i - 1, members, depth);
      if IsWritten(f, top, members) then before[f.name := Reload(f.schema, ValueOf(f, members), depth)] else before
  }

  lemma FieldFound(s: Schema, k: nat)
    requires s.SObject? && DistinctNames(s.fields) && k < |s.fields|
    ensures FieldIndex(s.fields, s.fields[k].name) == k
  {
  }

  lemma {:induction false} WrittenAt(s: Schema, top: bool, i: nat, members: map<Text, Value>, depth: nat, k: nat)
    requires s.SObject? && DistinctNames(s.fields) && Typed(s, VObject(members)) && i <= |s.fields| && k < |s.fields|
    ensures var w, f := WrittenMembers(s, top, i, members, depth), s.fields[k];
            && (f.name in w <==> k < i && IsWritten(f, top, members))
            && (f.name in w ==> w[f.name] == Reload(f.schema, ValueOf(f, members), depth))
  {
    hide Typed, Reload, IsWritten, ValueOf;
    if i > 0 {
      WrittenAt(s, top, i - 1, members, depth, k);
      assert k != i - 1 ==> s.fields[k].name != s.fields[i - 1].name;
    }
  }

  lemma {:induction false} ReloadedAt(s: Schema, i: nat, members: map<Text, Value>, depth: nat, k: nat)
    requires s.SObject? && DistinctNames(s.fields) && Typed(s, VObject(members)) && i <= |s.fields| && k < |s.fields|
    ensures var w, f := ReloadMembers(s, i, members, depth), s.fields[k];
            && (f.name in w <==> k < i && (f.name in members || f.schema.SNullable?))
            && (f.name in w ==> w[f.name] == if f.name in members then Reload(f.schema, members[f.name], depth) else VNull)
  {
    hide Typed, Reload;
    if i > 0 {
      ReloadedAt(s, i - 1, members, depth, k);
      assert k != i - 1 ==> s.fields[k].name != s.fields[i - 1].name;
    }
  }

  predicate OnlyFields(fields: seq<Field>, m: map<Text, Value>) {
    forall key | key in m :: FieldIndex(fields, key) < |fields|
  }

  lemma {:induction false} WrittenOnlyFields(s: Schema, top: bool, i: nat, members: map<Text, Value>, depth: nat)
    requires s.SObject? && DistinctNames(s.fields) && Typed(s, VObject(members)) && i <= |s.fields|
    ensures OnlyFields(s.fields, WrittenMembers(s, top, i, members, depth))
  {
    hide Typed, Reload, IsWritten, ValueOf;
    if i > 0 {
      WrittenOnlyFields(s, top, i - 1, members, depth);
      FieldFound(s, i - 1);
    }
  }

  lemma {:induction false} ReloadedOnlyFields(s: Schema, i: nat, members: map<Text, Value>, depth: nat)
    requires s.SObject? && DistinctNames(s.fields) && Typed(s, VObject(members)) && i <= |s.fields|
    ensures OnlyFields(s.fields, ReloadMembers(s, i, members, depth))
  {
    hide Typed, Reload, IsWritten, ValueOf;
    if i > 0 {
      ReloadedOnlyFields(s, i - 1, members, depth);
      FieldFound(s, i - 1);
    }
  }

  /** Filling in fails exactly for a missing required field. */
  lemma {:induction false} FillFails(fields: seq<Field>, i: nat, m: map<Text, Value>, next: Scan)
    requires i <= |fields| && DistinctNames(fields)
    ensures var r := Fill(fields, i, m, next);
            && (r.Ok? <==> forall k | i <= k < |fields| :: IsRequired(fields[k].schema) ==> fields[k].name in m)
            && (r.Ok? ==> r.next == next)
    decreases |fields| - i
  {
    if i < |fields| {
      FillFails(fields, i + 1, m, next);
      FillFails(fields, i + 1, m[fields[i].name := VNull], next);
    }
  }

  /** Filling in adds null for the missing nullable fields. */
  lemma {:induction false} FillAt(fields: seq<Field>, i: nat, m: map<Text, Value>, next: Scan, k: nat)
    requires i <= |fields| && DistinctNames(fields) && k < |fields|
    ensures var r, f := Fill(fields, i, m, next), fields[k];
            r.Ok? ==>
              && (f.name in r.value <==> f.name in m || (k >= i && f.schema.SNullable?))
              && (f.name in r.value ==> r.value[f.name] == if f.name in m then m[f.name] else VNull)
    decreases |fields| - i
  {
    if i < |fields| {
      FillAt(fields, i + 1, m, next, k);
      FillAt(fields, i + 1, m[fields[i].name := VNull], next, k);
    }
  }

  lemma {:induction false} FillOnlyFields(fields: seq<Field>, i: nat, m: map<Text, Value>, next: Scan)
    requires i <= |fields| && DistinctNames(fields) && OnlyFields(fields, m)
    ensures var r := Fill(fields, i, m, next); r.Ok? ==> OnlyFields(fields, r.value)
    decreases |fields| - i
  {
    if i < |fields| {
      FillOnlyFields(fields, i + 1, m, next);
      var name := fields[i].name;
      assert FieldIndex(fields, name) < |fields|;
      FillOnlyFields(fields, i + 1, m[name := VNull], next);
    }
  }

  /** After the last field the parser completes the members to exactly the reloaded object. */
  lemma FillCompletes(s: Schema, top: bool, members: map<Text, Value>, depth: nat, next: Scan)
    requires s.SObject? && DistinctNames(s.fields) && Typed(s, VObject(members))
    ensures var r := Fill(s.fields, 0, WrittenMembers(s, top, |s.fields|, members, depth), next);
            if RequiredWritten(s, top, members) then r == Ok(ReloadMembers(s, |s.fields|, members, depth), next) else r.Err?
  {
    hide Typed, Reload, IsWritten, ValueOf, DistinctNames, Fill, WrittenMembers, ReloadMembers;
    var n := |s.fields|;
    var w, m := WrittenMembers(s, top, n, members, depth), ReloadMembers(s, n, members, depth);
    var r := Fill(s.fields, 0, w, next);
    FillFails(s.fields, 0, w, next);
    forall k | 0 <= k < n ensures s.fields[k].name in w <==> IsWritten(s.fields[k], top, members) {
      WrittenAt(s, top, n, members, depth, k);
    }
    if r.Ok? {
      FilledKeys(s, top, members, depth, next);
      assert r.value == m;
    }
  }

  lemma FilledKeys(s: Schema, top: bool, members: map<Text, Value>, depth: nat, next: Scan)
    requires s.SObject? && DistinctNames(s.fields) && Typed(s, VObject(members))
    requires Fill(s.fields, 0, WrittenMembers(s, top, |s.fields|, members, depth), next).Ok?
    ensures var r := Fill(s.fields, 0, WrittenMembers(s, top, |s.fields|, members, depth), next).value;
            var m := ReloadMembers(s, |s.fields|, members, depth);
            forall key :: (key in r <==> key in m) && (key in m ==> r[key] == m[key])
  {
    hide Typed, Reload, IsWritten, ValueOf, DistinctNames, Fill, WrittenMembers, ReloadMembers;
    var n := |s.fields|;
    WrittenOnlyFields(s, top, n, members, depth);
    FillOnlyFields(s.fields, 0, WrittenMembers(s, top, n, members, depth), next);
    ReloadedOnlyFields(s, n, members, depth);
    var r := Fill(s.fields, 0, WrittenMembers(s, top, n, members, depth), next).value;
    var m := ReloadMembers(s, n, members, depth);
    forall key ensures (key in r <==> key in m) && (key in m ==> r[key] == m[key]) {
      var k := FieldIndex(s.fields, key);
      if k < n { FilledIsReloaded(s, top, members, depth, next, k); }
    }
  }

  lemma FilledIsReloaded(s: Schema, top: bool, members: map<Text, Value>, depth: nat, next: Scan, k: nat)
    requires s.SObject? && DistinctNames(s.fields) && Typed(s, VObject(members)) && k < |s.fields|
    ensures var n, name := |s.fields|, s.fields[k].name;
            var r := Fill(s.fields, 0, WrittenMembers(s, top, n, members, depth), next);
            var m := ReloadMembers(s, n, members, depth);
            r.Ok? ==> (name in r.value <==> name in m) && (name in m ==> r.value[name] == m[name])
  {
    var n, f := |s.fields|, s.fields[k];
    var w := WrittenMembers(s, top, n, members, depth);
    assert f.name !in members ==> !IsRequired(f.schema);
    assert f.schema.SNullable? ==> Reload(f.schema, VNull, depth) == VNull;
    hide Typed, Reload, DistinctNames, Fill, WrittenMembers, ReloadMembers;
    WrittenAt(s, top, n, members, depth, k);
    ReloadedAt(s, n, members, depth, k);
    FillAt(s.fields, 0, w, next, k);
    FillFails(s.fields, 0, w, next);
  }

  // Members.

  function NamedMember(top: bool, key: Text, value: Text): Text {
    SerializeIdentifier(key) + (Separator(top) + value)
  }

  lemma MemberNameTokens(top: bool, key: Text, value: Text)
    requires IsGoodKey(key)
    ensures var p := ReadToken(NamedMember(top, key, value));
            && p.token == Identifier(key)
            && (if top then Next(p) == ReadToken(value) else Next(p).token.Colon? && Next(Next(p)) == ReadToken(value))
  {
    hide ReadToken, IsGoodKey, SerializeIdentifier;
    IdentifierReadsBack(key, Separator(top) + value);
    SkipNewline(value);
    if !top {
      assert Separator(top) + value == [COLON] + ([SPACE] + value);
      PunctuationReadsBack(COLON, [SPACE] + value);
    }
  }

  lemma MemberShape(s: Schema, top: bool, i: nat, members: map<Text, Value>, depth: nat, tail: Text)
    requires s.SObject? && Typed(s, VObject(members)) && i < |s.fields| && IsWritten(s.fields[i], top, members)
    ensures var f := s.fields[i];
            Typed(f.schema, ValueOf(f, members))
            && ReadToken(SerializeMember(s, top, i, members, depth) + tail)
            == ReadToken(NamedMember(top, f.name, Serialize(f.schema, ValueOf(f, members), depth) + (Terminator(top) + tail)))
  {
    var f := s.fields[i];
    assert Typed(f.schema, ValueOf(f, members));
    hide ReadToken, Typed, Serialize, SerializeIdentifier, IsWritten, ValueOf, Separator, Terminator, Indent;
    var text := NamedMember(top, f.name, Serialize(f.schema, ValueOf(f, members), depth) + (Terminator(top) + tail));
    Concat5(Indent(depth), SerializeIdentifier(f.name), Separator(top), Serialize(f.schema, ValueOf(f, members), depth),
            Terminator(top), tail);
    SkipIndent(depth, text);
  }

  lemma Concat5(a: Text, b: Text, c: Text, d: Text, e: Text, f: Text)
    ensures a + b + c + d + e + f == a + (b + (c + (d + (e + f))))
  {
  }

  lemma WrittenText(s: Schema, top: bool, i: nat, members: map<Text, Value>, depth: nat, close: Text)
    requires s.SObject? && Typed(s, VObject(members)) && i < |s.fields| && IsWritten(s.fields[i], top, members)
    ensures SerializeMembers(s, top, i, members, depth) + close
         == SerializeMember(s, top, i, members, depth) + (SerializeMembers(s, top, i + 1, members, depth) + close)
  {
    hide Typed, SerializeMember, IsWritten;
  }

  lemma MemberText(s: Schema, top: bool, i: nat, members: map<Text, Value>, depth: nat, close: Text)
    requires s.SObject? && Typed(s, VObject(members)) && i < |s.fields|
    ensures var tail := SerializeMembers(s, top, i + 1, members, depth) + close;
            var f := s.fields[i];
            ReadToken(SerializeMembers(s, top, i, members, depth) + close)
            == if IsWritten(f, top, members)
               then ReadToken(NamedMember(top, f.name, Serialize(f.schema, ValueOf(f, members), depth) + (Terminator(top) + tail)))
               else ReadToken(tail)
  {
    if IsWritten(s.fields[i], top, members) {
      var rest := SerializeMembers(s, top, i + 1, members, depth);
      MemberShape(s, top, i, members, depth, rest + close);
      WrittenText(s, top, i, members, depth, close);
    } else {
      var rest := SerializeMembers(s, top, i + 1, members, depth);
      assert SerializeMembers(s, top, i, members, depth) == [] + rest;
      hide ReadToken, Typed, IsWritten, SerializeMembers;
      assert [] + rest + close == rest + close;
    }
  }

  lemma NextMember(s: Schema, top: bool, p: Scan, q: Scan, i: nat, done: map<Text, Value>)
    requires s.SObject? && i < |s.fields| && FieldIndex(s.fields, s.fields[i].name) == i
    requires p.token == Identifier(s.fields[i].name) && s.fields[i].name !in done
    requires if top then Next(p) == q else Next(p).token.Colon? && Next(Next(p)) == q
    ensures var r := Parse(s.fields[i].schema, q);
            ParseMembers(s, top, p, done)
            == match r
               case Ok(v, next) => ParseMembers(s, top, next, done[s.fields[i].name := v])
               case Err(e) => Err(e)
  {
    hide ReadToken, Parse, Fill;
  }

  lemma ReloadedWritten(s: Schema, top: bool, i: nat, members: map<Text, Value>, depth: nat)
    requires s.SObject? && DistinctNames(s.fields) && Typed(s, VObject(members)) && i < |s.fields|
    requires IsWritten(s.fields[i], top, members) && Typed(s.fields[i].schema, ValueOf(s.fields[i], members))
    ensures var m, f := ReloadMembers(s, |s.fields|, members, depth), s.fields[i];
            f.name in m && m[f.name] == Reload(f.schema, ValueOf(f, members), depth)
  {
    var f := s.fields[i];
    assert f.name !in members ==> f.schema.SNullable?;
    assert f.schema.SNullable? ==> Reload(f.schema, VNull, depth) == VNull;
    hide Typed, Reload, DistinctNames, ReloadMembers;
    ReloadedAt(s, |s.fields|, members, depth, i);
  }

  /** A value that does not come back keeps its name in the object. */
  lemma MemberDiffers(
      s: Schema, top: bool, i: nat, members: map<Text, Value>, depth: nat, r: Parsed<Value>, done: map<Text, Value>)
    requires s.SObject? && DistinctNames(s.fields) && Typed(s, VObject(members)) && i < |s.fields|
    requires IsWritten(s.fields[i], top, members) && Typed(s.fields[i].schema, ValueOf(s.fields[i], members))
    requires r.Ok? && r.value != Reload(s.fields[i].schema, ValueOf(s.fields[i], members), depth)
    ensures var q := ParseMembers(s, top, r.next, done[s.fields[i].name := r.value]);
            q.Ok? ==> q.value != ReloadMembers(s, |s.fields|, members, depth)
  {
    hide ReadToken, ParseMembers, Typed, Reload, ReloadMembers, DistinctNames, IsWritten, ValueOf;
    MembersExtend(s, top, r.next, done[s.fields[i].name := r.value]);
    ReloadedWritten(s, top, i, members, depth);
  }

  lemma WrittenMember(s: Schema, top: bool, i: nat, members: map<Text, Value>, depth: nat)
    requires s.SObject? && Typed(s, VObject(members)) && i < |s.fields|
    requires IsWritten(s.fields[i], top, members) && Typed(s.fields[i].schema, ValueOf(s.fields[i], members))
    ensures WrittenMembers(s, top, i + 1, members, depth)
         == WrittenMembers(s, top, i, members, depth)
              [s.fields[i].name := Reload(s.fields[i].schema, ValueOf(s.fields[i], members), depth)]
  {
  }

  /** A written member: the parser adds its reloaded value, or ends with an error or another value. */
  lemma WrittenMemberReadsBack(s: Schema, top: bool, i: nat, members: map<Text, Value>, depth: nat, close: Text)
    requires s.SObject? && IsSchema(s) && Typed(s, VObject(members)) && i < |s.fields|
    requires IsWritten(s.fields[i], top, members) && Typed(s.fields[i].schema, ValueOf(s.fields[i], members))
    ensures var r := ParseMembers(s, top, ReadToken(SerializeMembers(s, top, i, members, depth) + close),
                                  WrittenMembers(s, top, i, members, depth));
            if Printable(s.fields[i].schema, ValueOf(s.fields[i], members))
            then r == ParseMembers(s, top, ReadToken(SerializeMembers(s, top, i + 1, members, depth) + close),
                                   WrittenMembers(s, top, i + 1, members, depth))
            else r.Ok? ==> r.value != ReloadMembers(s, |s.fields|, members, depth)
    decreases s, 1, 0
  {
    var f := s.fields[i];
    var v := ValueOf(f, members);
    assert IsGoodKey(f.name) && IsSchema(f.schema) && DistinctNames(s.fields);
    hide ReadToken, Parse, ParseMembers, Printable, Reload, ReloadMembers, Serialize, SerializeMembers, Typed, IsSchema, IsGoodKey,
      IsWritten, ValueOf, DistinctNames, Next, NamedMember, WrittenMembers, Separator;
    var done := WrittenMembers(s, top, i, members, depth);
    var tail := SerializeMembers(s, top, i + 1, members, depth) + close;
    var after := Terminator(top) + tail;
    var value := Serialize(f.schema, v, depth) + after;
    MemberText(s, top, i, members, depth, close);
    MemberNameTokens(top, f.name, value);
    SkipNewline(tail);
    ValueReadsBack(f.schema, v, depth, after);
    FieldFound(s, i);
    WrittenAt(s, top, i, members, depth, i);
    NextMember(s, top, ReadToken(NamedMember(top, f.name, value)), ReadToken(value), i, done);
    if Printable(f.schema, v) {
      WrittenMember(s, top, i, members, depth);
    } else if Parse(f.schema, ReadToken(value)).Ok? {
      MemberDiffers(s, top, i, members, depth, Parse(f.schema, ReadToken(value)), done);
    }
  }

  lemma LastMember(s: Schema, top: bool, members: map<Text, Value>, depth: nat, close: Text, next: Scan)
    requires s.SObject? && DistinctNames(s.fields) && Typed(s, VObject(members))
    requires var p := ReadToken(close); if top then p.token.EOF? && next == p else p.token.RightCurly? && next == Next(p)
    ensures var r := ParseMembers(s, top, ReadToken(SerializeMembers(s, top, |s.fields|, members, depth) + close),
                                  WrittenMembers(s, top, |s.fields|, members, depth));
            if RequiredWritten(s, top, members) then r == Ok(ReloadMembers(s, |s.fields|, members, depth), next) else r.Err?
  {
    hide ReadToken, Fill, Typed, RequiredWritten, DistinctNames;
    assert SerializeMembers(s, top, |s.fields|, members, depth) + close == close;
    hide ReloadMembers, WrittenMembers;
    FillCompletes(s, top, members, depth, next);
  }

  lemma UnwrittenMember(s: Schema, top: bool, i: nat, members: map<Text, Value>, depth: nat)
    requires s.SObject? && Typed(s, VObject(members)) && i < |s.fields| && !IsWritten(s.fields[i], top, members)
    ensures WrittenMembers(s, top, i + 1, members, depth) == WrittenMembers(s, top, i, members, depth)
  {
  }

  /** The members from field i on are read back, given what was read before. */
  ghost predicate MembersReturn(
      s: Schema, top: bool, i: nat, members: map<Text, Value>, depth: nat, close: Text, next: Scan)
    requires s.SObject? && Typed(s, VObject(members)) && i <= |s.fields|
  {
    Returns(ParseMembers(s, top, ReadToken(SerializeMembers(s, top, i, members, depth) + close),
                         WrittenMembers(s, top, i, members, depth)),
            AllWrittenPrintable(s, top, i, members) && RequiredWritten(s, top, members),
            ReloadMembers(s, |s.fields|, members, depth), next)
  }

  lemma MembersEnd(s: Schema, top: bool, members: map<Text, Value>, depth: nat, close: Text, next: Scan)
    requires s.SObject? && DistinctNames(s.fields) && Typed(s, VObject(members))
    requires var p := ReadToken(close); if top then p.token.EOF? && next == p else p.token.RightCurly? && next == Next(p)
    ensures MembersReturn(s, top, |s.fields|, members, depth, close, next)
  {
    hide ReadToken, ParseMembers, Typed, RequiredWritten, DistinctNames, ReloadMembers, WrittenMembers, SerializeMembers, Next;
    LastMember(s, top, members, depth, close, next);
  }

  lemma MembersSkip(s: Schema, top: bool, i: nat, members: map<Text, Value>, depth: nat, close: Text, next: Scan)
    requires s.SObject? && Typed(s, VObject(members)) && i < |s.fields| && !IsWritten(s.fields[i], top, members)
    requires MembersReturn(s, top, i + 1, members, depth, close, next)
    ensures MembersReturn(s, top, i, members, depth, close, next)
  {
    UnwrittenMember(s, top, i, members, depth);
    MemberText(s, top, i, members, depth, close);
    hide ReadToken, ParseMembers, Typed, RequiredWritten, ReloadMembers, WrittenMembers, SerializeMembers, IsWritten, Printable;
  }

  lemma MembersStep(s: Schema, top: bool, i: nat, members: map<Text, Value>, depth: nat, close: Text, next: Scan)
    requires s.SObject? && IsSchema(s) && Typed(s, VObject(members)) && i < |s.fields|
    requires IsWritten(s.fields[i], top, members) && Typed(s.fields[i].schema, ValueOf(s.fields[i], members))
    requires Printable(s.fields[i].schema, ValueOf(s.fields[i], members)) ==>
               MembersReturn(s, top, i + 1, members, depth, close, next)
    ensures MembersReturn(s, top, i, members, depth, close, next)
    decreases s, 2, 0
  {
    hide ReadToken, ParseMembers, Typed, RequiredWritten, ReloadMembers, WrittenMembers, SerializeMembers, IsWritten, Printable,
      ValueOf, IsSchema;
    WrittenMemberReadsBack(s, top, i, members, depth, close);
  }

  lemma {:induction false} MembersReadBack(
      s: Schema, top: bool, i: nat, members: map<Text, Value>, depth: nat, close: Text, next: Scan)
    requires s.SObject? && IsSchema(s) && Typed(s, VObject(members)) && i <= |s.fields|
    requires var p := ReadToken(close); if top then p.token.EOF? && next == p else p.token.RightCurly? && next == Next(p)
    ensures MembersReturn(s, top, i, members, depth, close, next)
    decreases s, 3, |s.fields| - i
  {
    assert DistinctNames(s.fields);
    hide ReadToken, MembersReturn, IsSchema, DistinctNames, Next, Typed, Printable;
    if i == |s.fields| {
      MembersEnd(s, top, members, depth, close, next);
    } else {
      MembersReadBack(s, top, i + 1, members, depth, close, next);
      if IsWritten(s.fields[i], top, members) {
        WrittenIsTyped(s, top, i, members);
        MembersStep(s, top, i, members, depth, close, next);
      } else {
        MembersSkip(s, top, i, members, depth, close, next);
      }
    }
  }

  lemma WrittenIsTyped(s: Schema, top: bool, i: nat, members: map<Text, Value>)
    requires s.SObject? && Typed(s, VObject(members)) && i < |s.fields| && IsWritten(s.fields[i], top, members)
    ensures Typed(s.fields[i].schema, ValueOf(s.fields[i], members))
  {
  }

  lemma {:induction false} AllWrittenPrintableEach(s: Schema, top: bool, i: nat, members: map<Text, Value>)
    requires s.SObject? && Typed(s, VObject(members)) && i <= |s.fields|
    ensures AllWrittenPrintable(s, top, i, members) <==> forall k | i <= k < |s.fields| ::
              s.fields[k].name in members ==>
                IsWritten(s.fields[k], top, members) ==> Printable(s.fields[k].schema, members[s.fields[k].name])
    decreases |s.fields| - i
  {
    if i < |s.fields| {
      AllWrittenPrintableEach(s, top, i + 1, members);
      var f := s.fields[i];
      assert f.name !in members && IsWritten(f, top, members) ==> Printable(f.schema, ValueOf(f, members));
    }
  }

  lemma ObjectUnfolds(s: Schema, v: Value, depth: nat, p: Scan)
    requires s.SObject? && Typed(s, v) && p.token.LeftCurly?
    ensures v.VObject?
    ensures Parse(s, p) == match ParseMembers(s, false, Next(p), map[])
                           case Ok(m, next) => Ok(VObject(m), next)
                           case Err(e) => Err(e)
    ensures Reload(s, v, depth) == VObject(ReloadMembers(s, |s.fields|, v.members, depth + 1))
    ensures Printable(s, v) <==> AllWrittenPrintable(s, false, 0, v.members) && RequiredWritten(s, false, v.members)
    ensures WrittenMembers(s, false, 0, v.members, depth + 1) == map[]
  {
    hide ReadToken;
    AllWrittenPrintableEach(s, false, 0, v.members);
  }

  lemma ObjectText(s: Schema, v: Value, depth: nat, rest: Text)
    requires s.SObject? && Typed(s, v)
    ensures var p := ReadToken(Serialize(s, v, depth) + rest);
            && p.token.LeftCurly?
            && Next(p) == ReadToken(SerializeMembers(s, false, 0, v.members, depth + 1) + CurlyEnd(s.fields == [], depth, rest))
  {
    hide ReadToken;
    assert v.VObject?;
    hide Typed;
    if s.fields == [] {
      BracketedText(LCURLY, [], [], RCURLY, rest);
      assert SerializeMembers(s, false, 0, v.members, depth + 1) + CurlyEnd(true, depth, rest) == [RCURLY] + rest;
    } else {
      var inner := SerializeMembers(s, false, 0, v.members, depth + 1);
      BracketedText(LCURLY, inner, Indent(depth), RCURLY, rest);
      SkipNewline(inner + CurlyEnd(false, depth, rest));
    }
  }

  lemma ObjectReadsBack(s: Schema, v: Value, depth: nat, rest: Text)
    requires s.SObject? && IsSchema(s) && Typed(s, v) && IsDelimited(rest)
    ensures Returns(Parse(s, ReadToken(Serialize(s, v, depth) + rest)),
                    Printable(s, v), Reload(s, v, depth), ReadToken(rest))
    decreases s, 4, 0
  {
    assert v.VObject?;
    hide ReadToken, Parse, ParseMembers, SerializeMembers, Serialize, Typed, IsSchema, ReloadMembers, Reload, Printable, CurlyEnd,
      AllWrittenPrintable, RequiredWritten, WrittenMembers;
    var close := CurlyEnd(s.fields == [], depth, rest);
    ObjectText(s, v, depth, rest);
    CurlyEndToken(s.fields == [], depth, rest);
    ObjectUnfolds(s, v, depth, ReadToken(Serialize(s, v, depth) + rest));
    MembersReadBack(s, false, 0, v.members, depth + 1, close, ReadToken(rest));
  }

  // ---------------------------------------------------------------- main results

  /**
   * Deserializing a serialized script gives the reloaded blocks if and only if the blocks are printable
   * and the annotation consists of identifier units; otherwise it fails or gives something else.
   */
  lemma ScriptReadsBack(s: ScriptSchema, blocks: map<Text, Value>)
    requires s.blocks.SObject? && IsSchema(s.blocks) && Typed(s.blocks, VObject(blocks))
    ensures var r := Deserialize(s, SerializeScript(s, blocks));
            (r.Ok? && r.value == ReloadMembers(s.blocks, |s.blocks.fields|, blocks, 0)) <==>
            (PrintableScript(s, blocks) && forall i | 0 <= i < |s.annotation| :: IsIdentifierUnit(s.annotation[i]))
  {
    hide ReadToken, ParseMembers, SerializeMembers, Typed, IsSchema, ReloadMembers;
    var b := s.blocks;
    var body := SerializeMembers(b, true, 0, blocks, 0);
    assert SerializeScript(s, blocks) == [AT] + s.annotation + ([NEWLINE, NEWLINE] + body);
    AnnotationReadsBack(s.annotation, [NEWLINE, NEWLINE] + body);
    SkipNewline(body);
    assert body + [] == body;
    EndOfText();
    MembersReadBack(b, true, 0, blocks, 0, [], Scan(EOF, []));
    ScriptPrintable(s, blocks);
  }

  lemma EndOfText()
    ensures ReadToken([]) == Scan(EOF, [])
  {
  }

  lemma ScriptPrintable(s: ScriptSchema, blocks: map<Text, Value>)
    requires s.blocks.SObject? && Typed(s.blocks, VObject(blocks))
    ensures PrintableScript(s, blocks)
       <==> AllWrittenPrintable(s.blocks, true, 0, blocks) && RequiredWritten(s.blocks, true, blocks)
    ensures WrittenMembers(s.blocks, true, 0, blocks, 0) == map[]
  {
    AllWrittenPrintableEach(s.blocks, true, 0, blocks);
  }

  /**
   * Two values of a schema that differ only in the indentation of their code blocks and in absent
   * nullable members, which are null in the second.
   */
  ghost predicate SameUpToIndent(s: Schema, v: Value, w: Value)
    requires Typed(s, v)
  {
    match s
    case SCode => w.VString? && exists n: nat :: Trim(w.text) == Shift(Spaces(n), Trim(v.text))
    case SList(item) =>
      && w.VList? && |w.items| == |v.items|
      && forall i | 0 <= i < |v.items| :: SameUpToIndent(item, v.items[i], w.items[i])
    case SRecord(item) =>
      && w.VRecord? && |w.entries| == |v.entries|
      && forall i | 0 <= i < |v.entries| ::
           v.entries[i].key == w.entries[i].key && SameUpToIndent(item, v.entries[i].value, w.entries[i].value)
    case SObject(fields) =>
      && w.VObject? && OnlyFields(fields, w.members)
      && forall i | 0 <= i < |fields| ::
           var name := fields[i].name;
           if name in v.members then name in w.members && SameUpToIndent(fields[i].schema, v.members[name], w.members[name])
           else if fields[i].schema.SNullable? then name in w.members && w.members[name] == VNull
           else name !in w.members
    case SNullable(inner) => if v.VNull? then w == VNull else SameUpToIndent(inner, v, w)
    case SOptional(inner) => SameUpToIndent(inner, v, w)
    case _ => w == v
  }

  lemma {:induction false} ReloadedItemAt(item: Schema, items: seq<Value>, depth: nat, i: nat)
    requires (forall j | 0 <= j < |items| :: Typed(item, items[j])) && i < |items|
    ensures ReloadItems(item, items, depth)[i] == Reload(item, items[i], depth)
  {
    hide Typed, Reload;
    if i > 0 { ReloadedItemAt(item, items[1..], depth, i - 1); }
  }

  lemma {:induction false} ReloadedEntryAt(item: Schema, entries: seq<Entry>, depth: nat, i: nat)
    requires (forall j | 0 <= j < |entries| :: Typed(item, entries[j].value)) && i < |entries|
    ensures ReloadEntries(item, entries, depth)[i] == Entry(entries[i].key, Reload(item, entries[i].value, depth))
  {
    hide Typed, Reload;
    if i > 0 { ReloadedEntryAt(item, entries[1..], depth, i - 1); }
  }

  /** What comes back is the value that was written, up to re-indentation. */
  lemma {:induction false} ReloadIsSame(s: Schema, v: Value, depth: nat)
    requires IsSchema(s) && Typed(s, v)
    ensures SameUpToIndent(s, v, Reload(s, v, depth))
  {
    match s
    case SCode =>
      IndentIsWhite(depth);
      IndentIsWhite(depth + 1);
      ReadBackIsReindented(Indent(depth + 1), Indent(depth), v.text);
    case SList(item) =>
      forall i | 0 <= i < |v.items| ensures SameUpToIndent(item, v.items[i], ReloadItems(item, v.items, depth + 1)[i]) {
        ReloadedItemAt(item, v.items, depth + 1, i);
        ReloadIsSame(item, v.items[i], depth + 1);
      }
    case SRecord(item) =>
      forall i | 0 <= i < |v.entries|
        ensures SameUpToIndent(item, v.entries[i].value, ReloadEntries(item, v.entries, depth + 1)[i].value)
      {
        ReloadedEntryAt(item, v.entries, depth + 1, i);
        ReloadIsSame(item, v.entries[i].value, depth + 1);
      }
    case SObject(fields) =>
      ReloadedOnlyFields(s, |fields|, v.members, depth + 1);
      forall i | 0 <= i < |fields|
        ensures var name, w := fields[i].name, ReloadMembers(s, |fields|, v.members, depth + 1);
                if name in v.members then name in w && SameUpToIndent(fields[i].schema, v.members[name], w[name])
                else if fields[i].schema.SNullable? then name in w && w[name] == VNull
                else name !in w
      {
        ReloadedAt(s, |fields|, v.members, depth + 1, i);
        if fields[i].name in v.members { ReloadIsSame(fields[i].schema, v.members[fields[i].name], depth + 1); }
      }
    case SNullable(inner) => if !v.VNull? { ReloadIsSame(inner, v, depth); }
    case SOptional(inner) => ReloadIsSame(inner, v, depth);
    case _ =>
  }

  const LOSSY_OBJECT: Schema := SObject([Field([0x63], SNull)])
  const LOSSY_SCRIPT: ScriptSchema := ScriptSchema([0x61], SObject([Field([0x62], LOSSY_OBJECT)]))
  const LOST: Value := VObject(map[[0x63] := VNull])

  /** A required null member is dropped by the serializer: this well-typed script does not come back. */
  lemma RequiredNullIsLost()
    ensures var blocks := map[[0x62] := LOST];
            && IsSchema(LOSSY_SCRIPT.blocks) && Typed(LOSSY_SCRIPT.blocks, VObject(blocks))
            && var r := Deserialize(LOSSY_SCRIPT, SerializeScript(LOSSY_SCRIPT, blocks));
               !(r.Ok? && r.value == blocks)
  {
    var b := LOSSY_SCRIPT.blocks;
    var blocks := map[[0x62] := LOST];
    LossyTyped();
    assert b.fields[0] == Field([0x62], LOSSY_OBJECT);
    assert !Printable(LOSSY_OBJECT, LOST) by { assert LOSSY_OBJECT.fields[0].name in LOST.members; }
    ScriptReadsBack(LOSSY_SCRIPT, blocks);
    assert ReloadMembers(LOSSY_OBJECT, 1, LOST.members, 1) == map[][[0x63] := VNull] == LOST.members by {
      assert ReloadMembers(LOSSY_OBJECT, 0, LOST.members, 1) == map[];
    }
    assert Reload(LOSSY_OBJECT, LOST, 0) == LOST;
    assert ReloadMembers(b, 0, blocks, 0) == map[];
    assert ReloadMembers(b, 1, blocks, 0) == map[][[0x62] := LOST] == blocks;
  }

  lemma LossyTyped()
    ensures IsSchema(LOSSY_OBJECT) && Typed(LOSSY_OBJECT, LOST)
    ensures IsSchema(LOSSY_SCRIPT.blocks) && Typed(LOSSY_SCRIPT.blocks, VObject(map[[0x62] := LOST]))
  {
    hide IsInheritedName;
    assert !IsInheritedName([0x62]) && !IsInheritedName([0x63]) by { ShortNames([0x62]); ShortNames([0x63]); }
    assert |WORD_TRUE| == 4 && |WORD_FALSE| == 5 && |WORD_NULL| == 4;
    assert FieldIndex(LOSSY_OBJECT.fields, [0x63]) == 0;
    assert FieldIndex(LOSSY_SCRIPT.blocks.fields, [0x62]) == 0;
  }

  lemma ShortNames(s: Text)
    requires |s| < 7
    ensures !IsInheritedName(s)
  {
  }
}
