/** Schemas, the values they describe, the parser and the serializer, as functions. */
module YslSchema {
  import opened CodeUnits
  import opened YslScanner
  import opened YslTokens
  import opened YslCode

  datatype Field = Field(name: Text, schema: Schema)

  datatype Schema =
    | SString
    | SNumber
    | SBoolean
    | SNull
    | SEnum(names: seq<Text>)
    | SCode
    | SList(item: Schema)
    | SRecord(item: Schema)
    | SObject(fields: seq<Field>)
    | SNullable(inner: Schema)
    | SOptional(inner: Schema)

  /** A script: an annotation and named blocks (an object schema). */
  datatype ScriptSchema = ScriptSchema(annotation: Text, blocks: Schema)

  datatype Entry = Entry(key: Text, value: Value)

  /** Parsed values. A record keeps its entries in the order of its own keys. */
  datatype Value =
    | VNull
    | VBoolean(b: bool)
    | VInteger(n: int)
    | VNumber(literal: Text)  // the number of a literal that is not an integer
    | VString(text: Text)
    | VList(items: seq<Value>)
    | VRecord(entries: seq<Entry>)
    | VObject(members: map<Text, Value>)

  datatype Failure =
    | UnexpectedToken(token: Token)
    | DuplicateKey(key: Text)
    | UnexpectedKey(key: Text)
    | MissingKey(key: Text)
    | InvalidEnum(name: Text)
    | WrongAnnotation(name: Text)

  datatype Parsed<T> = Ok(value: T, next: Scan) | Err(error: Failure)

  // ---------------------------------------------------------------- parsing

  /** Tokens still to come: the unread text and the token held by the parser. */
  function Weight(p: Scan): nat {
    |p.rest| + if p.token.EOF? then 0 else 1
  }

  function Next(p: Scan): (q: Scan)
    ensures !p.token.EOF? ==> Weight(q) < Weight(p)
    ensures Weight(q) <= |p.rest|
  {
    ReadTokenShrinks(p.rest);
    ReadToken(p.rest)
  }

  /** Number(token.value); only the literals of integers are interpreted. */
  function NumberOf(s: Text): Value {
    var signed := s != [] && (s[0] == PLUS || s[0] == MINUS);
    var digits := if signed then s[1..] else s;
    if digits == [] || exists i | 0 <= i < |digits| :: !IsDigit(digits[i]) then VNumber(s)
    else if signed && s[0] == MINUS then VInteger(0 - DigitsValue(digits))
    else VInteger(DigitsValue(digits))
  }

  function KeySet(entries: seq<Entry>): set<Text> {
    set e | e in entries :: e.key
  }

  predicate HasDistinctKeys(entries: seq<Entry>) {
    forall i, j | 0 <= i < j < |entries| :: entries[i].key != entries[j].key
  }

  /** Position of the field with this name, or the number of fields. */
  function FieldIndex(fields: seq<Field>, name: Text): (i: nat)
    ensures i <= |fields|
    ensures i < |fields| ==> fields[i].name == name
    ensures forall j | 0 <= j < i :: fields[j].name != name
  {
    if fields == [] || fields[0].name == name then 0 else 1 + FieldIndex(fields[1..], name)
  }

  predicate IsRequired(s: Schema) {
    !s.SNullable? && !s.SOptional?
  }

  /** Missing nullable keys become null, a missing required key is an error. */
  function Fill(fields: seq<Field>, i: nat, members: map<Text, Value>, next: Scan): Parsed<map<Text, Value>>
    requires i <= |fields|
    decreases |fields| - i
  {
    if i == |fields| then Ok(members, next)
    else if fields[i].name in members || fields[i].schema.SOptional? then Fill(fields, i + 1, members, next)
    else if fields[i].schema.SNullable? then Fill(fields, i + 1, members[fields[i].name := VNull], next)
    else Err(MissingKey(fields[i].name))
  }

  lemma {:induction false} FillKeepsNext(fields: seq<Field>, i: nat, members: map<Text, Value>, next: Scan)
    requires i <= |fields|
    ensures var r := Fill(fields, i, members, next); r.Ok? ==> r.next == next
    decreases |fields| - i
  {
    if i < |fields| {
      FillKeepsNext(fields, i + 1, members, next);
      FillKeepsNext(fields, i + 1, members[fields[i].name := VNull], next);
    }
  }

  function ParseCode(p: Scan): (r: Parsed<Value>)
    ensures r.Ok? ==> Weight(r.next) < Weight(p)
  {
    if !p.token.LeftCurly? then Err(UnexpectedToken(p.token)) else
    var scan := CodeRun(CLEAN, p.rest);
    CodeRunShrinks(CLEAN, p.rest);
    ReadTokenShrinks(scan.rest);
    var close := ReadToken(scan.rest);
    if close.token.RightCurly? then Ok(VString(scan.state.content), Next(close)) else Err(UnexpectedToken(close.token))
  }

  function Parse(s: Schema, p: Scan): (r: Parsed<Value>)
    ensures r.Ok? ==> Weight(r.next) < Weight(p)
    decreases s, Weight(p), 0
  {
    var unexpected := Err(UnexpectedToken(p.token));
    match s
    case SString => if p.token.Str? then Ok(VString(p.token.value), Next(p)) else unexpected
    case SNumber => if p.token.Number? then Ok(NumberOf(p.token.value), Next(p)) else unexpected
    case SBoolean => if p.token.True? || p.token.False? then Ok(VBoolean(p.token.True?), Next(p)) else unexpected
    case SNull => if p.token.Null? then Ok(VNull, Next(p)) else unexpected
    case SEnum(names) =>
      if !p.token.Identifier? then unexpected
      else if p.token.value in names then Ok(VString(p.token.value), Next(p))
      else Err(InvalidEnum(p.token.value))
    case SCode => ParseCode(p)
    case SList(item) => if p.token.LeftSquare? then ParseItems(item, Next(p), []) else unexpected
    case SRecord(item) => if p.token.LeftCurly? then ParseEntries(item, Next(p), []) else unexpected
    case SObject(_) =>
      if !p.token.LeftCurly? then unexpected
      else (match ParseMembers(s, false, Next(p), map[])
            case Ok(m, next) => Ok(VObject(m), next)
            case Err(e) => Err(e))
    case SNullable(inner) => if p.token.Null? then Ok(VNull, Next(p)) else Parse(inner, p)
    case SOptional(inner) => Parse(inner, p)
  }

  function CloseList(items: seq<Value>, p: Scan): Parsed<Value> {
    if p.token.RightSquare? then Ok(VList(items), Next(p)) else Err(UnexpectedToken(p.token))
  }

  /** The loop of a list: another item only after a comma. */
  function ParseItems(item: Schema, p: Scan, items: seq<Value>): (r: Parsed<Value>)
    ensures r.Ok? ==> Weight(r.next) < Weight(p)
    decreases item, Weight(p), 1
  {
    if p.token.EOF? || p.token.RightSquare? then CloseList(items, p)
    else match Parse(item, p)
      case Err(e) => Err(e)
      case Ok(v, next) =>
        if next.token.Comma? then ParseItems(item, Next(next), items + [v]) else CloseList(items + [v], next)
  }

  /** The loop of a record. */
  function ParseEntries(item: Schema, p: Scan, entries: seq<Entry>): (r: Parsed<Value>)
    ensures r.Ok? ==> Weight(r.next) < Weight(p)
    decreases item, Weight(p), 1
  {
    if p.token.RightCurly? then Ok(VRecord(entries), Next(p))
    else if !p.token.Identifier? then Err(UnexpectedToken(p.token))
    else if p.token.value in KeySet(entries) then Err(DuplicateKey(p.token.value))
    else
      var colon := Next(p);
      if !colon.token.Colon? then Err(UnexpectedToken(colon.token))
      else match Parse(item, Next(colon))
        case Err(e) => Err(e)
        case Ok(v, next) => ParseEntries(item, next, entries + [Entry(p.token.value, v)])
  }

  /**
   * The loop over the members of an object, or over the blocks of a script (top): a script has
   * no colon after a name and ends with the text.
   */
  function ParseMembers(s: Schema, top: bool, p: Scan, members: map<Text, Value>): (r: Parsed<map<Text, Value>>)
    requires s.SObject?
    ensures r.Ok? ==> Weight(r.next) <= Weight(p)
    decreases s, Weight(p), 1
  {
    if top && p.token.EOF? then FillKeepsNext(s.fields, 0, members, p); Fill(s.fields, 0, members, p)
    else if !top && p.token.RightCurly? then
      FillKeepsNext(s.fields, 0, members, Next(p)); Fill(s.fields, 0, members, Next(p))
    else if !p.token.Identifier? then Err(UnexpectedToken(p.token))
    else if p.token.value in members then Err(DuplicateKey(p.token.value))
    else
      var key := p.token.value;
      var i := FieldIndex(s.fields, key);
      var colon := Next(p);
      if i == |s.fields| then Err(UnexpectedKey(key))
      else if !top && !colon.token.Colon? then Err(UnexpectedToken(colon.token))
      else match Parse(s.fields[i].schema, if top then colon else Next(colon))
        case Err(e) => Err(e)
        case Ok(v, next) => ParseMembers(s, top, next, members[key := v])
  }

  /** Parsing a script; the parser holds the first token. */
  function ParseScript(s: ScriptSchema, p: Scan): Parsed<map<Text, Value>>
    requires s.blocks.SObject?
  {
    if !p.token.Annotation? then Err(UnexpectedToken(p.token))
    else if p.token.value != s.annotation then Err(WrongAnnotation(p.token.value))
    else ParseMembers(s.blocks, true, Next(p), map[])
  }

  function Deserialize(s: ScriptSchema, text: Text): Parsed<map<Text, Value>>
    requires s.blocks.SObject?
  {
    ParseScript(s, ReadToken(text))
  }

  // ---------------------------------------------------------------- typing

  const MAX_SAFE_INTEGER: int := 9007199254740991

  /** The static type of the serializer's argument. */
  predicate Typed(s: Schema, v: Value) {
    match s
    case SString => v.VString?
    case SNumber => v.VInteger? && -MAX_SAFE_INTEGER <= v.n <= MAX_SAFE_INTEGER
    case SBoolean => v.VBoolean?
    case SNull => v.VNull?
    case SEnum(names) => v.VString? && v.text in names
    case SCode => v.VString?
    case SList(item) => v.VList? && forall i | 0 <= i < |v.items| :: Typed(item, v.items[i])
    case SRecord(item) =>
      && v.VRecord?
      && (forall i | 0 <= i < |v.entries| :: Typed(item, v.entries[i].value))
      && HasDistinctKeys(v.entries)
    case SObject(fields) =>
      && v.VObject?
      && (forall k | k in v.members :: FieldIndex(fields, k) < |fields|)
      && (forall i | 0 <= i < |fields| ::
            if fields[i].name in v.members then Typed(fields[i].schema, v.members[fields[i].name])
            else !IsRequired(fields[i].schema))
    case SNullable(inner) => v.VNull? || Typed(inner, v)
    case SOptional(inner) => Typed(inner, v)
  }

  predicate DistinctNames(fields: seq<Field>) {
    forall i, j | 0 <= i < j < |fields| :: fields[i].name != fields[j].name
  }

  /** Names chosen by the author of a schema: distinct, and readable as identifiers. */
  predicate IsSchema(s: Schema) {
    match s
    case SEnum(names) => forall i | 0 <= i < |names| :: IsGoodKey(names[i])
    case SList(item) => IsSchema(item)
    case SRecord(item) => IsSchema(item)
    case SObject(fields) =>
      && (forall i | 0 <= i < |fields| :: IsGoodKey(fields[i].name) && IsSchema(fields[i].schema))
      && DistinctNames(fields)
    case SNullable(inner) => IsSchema(inner)
    case SOptional(inner) => IsSchema(inner)
    case _ => true
  }

  // ---------------------------------------------------------------- serializing

  const INDENTATION: nat := 2

  function Indent(depth: nat): Text {
    Spaces(INDENTATION * depth)
  }

  /** The value of a field, null when it is absent. */
  function ValueOf(f: Field, members: map<Text, Value>): Value {
    if f.name in members then members[f.name] else VNull
  }

  /** Whether the serializer writes a field: it skips absent values, and nulls that it takes for absent. */
  predicate IsWritten(f: Field, top: bool, members: map<Text, Value>) {
    match f.schema
    case SOptional(_) => f.name in members
    case SNullable(_) => top ==> !ValueOf(f, members).VNull?
    case _ => top || !ValueOf(f, members).VNull?
  }

  function Serialize(s: Schema, v: Value, depth: nat): Text
    requires Typed(s, v)
    decreases s, 1, 0
  {
    match s
    case SString => Quote(v.text)
    case SNumber => IntText(v.n)
    case SBoolean => BoolText(v.b)
    case SNull => WORD_NULL
    case SEnum(_) => SerializeIdentifier(v.text)
    case SCode => Indent(depth) + [LCURLY] + CodeInner(Indent(depth + 1), Indent(depth), v.text) + [RCURLY]
    case SList(item) =>
      if v.items == [] then [LSQUARE, RSQUARE]
      else [LSQUARE, NEWLINE] + SerializeItems(item, v.items, depth + 1) + Indent(depth) + [RSQUARE]
    case SRecord(item) =>
      if v.entries == [] then [LCURLY, RCURLY]
      else [LCURLY, NEWLINE] + SerializeEntries(item, v.entries, depth + 1) + Indent(depth) + [RCURLY]
    case SObject(fields) =>
      if fields == [] then [LCURLY, RCURLY]
      else [LCURLY, NEWLINE] + SerializeMembers(s, false, 0, v.members, depth + 1) + Indent(depth) + [RCURLY]
    case SNullable(inner) => if v.VNull? then WORD_NULL else Serialize(inner, v, depth)
    case SOptional(inner) => Serialize(inner, v, depth)
  }

  function SerializeItems(item: Schema, items: seq<Value>, depth: nat): Text
    requires forall i | 0 <= i < |items| :: Typed(item, items[i])
    decreases item, 2, |items|
  {
    if items == [] then []
    else Indent(depth) + Serialize(item, items[0], depth) + [COMMA, NEWLINE] + SerializeItems(item, items[1..], depth)
  }

  function SerializeEntries(item: Schema, entries: seq<Entry>, depth: nat): Text
    requires forall i | 0 <= i < |entries| :: Typed(item, entries[i].value)
    decreases item, 2, |entries|
  {
    if entries == [] then []
    else
      Indent(depth) + SerializeIdentifier(entries[0].key) + [COLON, SPACE] + Serialize(item, entries[0].value, depth)
      + [NEWLINE] + SerializeEntries(item, entries[1..], depth)
  }

  /** What stands between a name and its value. */
  function Separator(top: bool): Text {
    if top then [SPACE] else [COLON, SPACE]
  }

  function Terminator(top: bool): Text {
    if top then [NEWLINE, NEWLINE] else [NEWLINE]
  }

  /** One written field: an object member on its own line, or a block of a script. */
  function SerializeMember(s: Schema, top: bool, i: nat, members: map<Text, Value>, depth: nat): Text
    requires s.SObject? && Typed(s, VObject(members)) && i < |s.fields| && IsWritten(s.fields[i], top, members)
    decreases s, 0, 0
  {
    var f := s.fields[i];
    Indent(depth) + SerializeIdentifier(f.name) + Separator(top) + Serialize(f.schema, ValueOf(f, members), depth)
    + Terminator(top)
  }

  function SerializeMembers(s: Schema, top: bool, i: nat, members: map<Text, Value>, depth: nat): Text
    requires s.SObject? && Typed(s, VObject(members)) && i <= |s.fields|
    decreases s, 0, |s.fields| - i + 1
  {
    if i == |s.fields| then []
    else
      (if IsWritten(s.fields[i], top, members) then SerializeMember(s, top, i, members, depth) else [])
      + SerializeMembers(s, top, i + 1, members, depth)
  }

  /** The text of a script. */
  function SerializeScript(s: ScriptSchema, blocks: map<Text, Value>): Text
    requires s.blocks.SObject? && Typed(s.blocks, VObject(blocks))
  {
    [AT] + s.annotation + [NEWLINE, NEWLINE] + SerializeMembers(s.blocks, true, 0, blocks, 0)
  }

  // ---------------------------------------------------------------- what comes back

  /** The parsed form of a serialized value: code blocks are re-indented, absent nullable keys are null. */
  function Reload(s: Schema, v: Value, depth: nat): Value
    requires Typed(s, v)
    decreases s, 1, 0
  {
    match s
    case SCode => VString(CodeInner(Indent(depth + 1), Indent(depth), v.text))
    case SList(item) => VList(ReloadItems(item, v.items, depth + 1))
    case SRecord(item) => VRecord(ReloadEntries(item, v.entries, depth + 1))
    case SObject(fields) => VObject(ReloadMembers(s, |fields|, v.members, depth + 1))
    case SNullable(inner) => if v.VNull? then VNull else Reload(inner, v, depth)
    case SOptional(inner) => Reload(inner, v, depth)
    case _ => v
  }

  function ReloadItems(item: Schema, items: seq<Value>, depth: nat): (r: seq<Value>)
    requires forall i | 0 <= i < |items| :: Typed(item, items[i])
    ensures |r| == |items|
    decreases item, 2, |items|
  {
    if items == [] then [] else [Reload(item, items[0], depth)] + ReloadItems(item, items[1..], depth)
  }

  function ReloadEntries(item: Schema, entries: seq<Entry>, depth: nat): (r: seq<Entry>)
    requires forall i | 0 <= i < |entries| :: Typed(item, entries[i].value)
    ensures |r| == |entries| && forall i | 0 <= i < |r| :: r[i].key == entries[i].key
    decreases item, 2, |entries|
  {
    if entries == [] then []
    else [Entry(entries[0].key, Reload(item, entries[0].value, depth))] + ReloadEntries(item, entries[1..], depth)
  }

  /** The first i fields of an object, as they come back. */
  function ReloadMembers(s: Schema, i: nat, members: map<Text, Value>, depth: nat): map<Text, Value>
    requires s.SObject? && Typed(s, VObject(members)) && i <= |s.fields|
    decreases s, 0, i
  {
    if i == 0 then map[]
    else
      var f := s.fields[i - 1];
      var before := ReloadMembers(s, i - 1, members, depth);
      if f.name in members then before[f.name := Reload(f.schema, members[f.name], depth)]
      else if f.schema.SNullable? then before[f.name := VNull]
      else before
  }

  /**
   * The values whose text can be read back: no string needs an escape with a hexadecimal letter, record keys
   * are good, code bodies are clean, and no required member of an object is null.
   */
  predicate Printable(s: Schema, v: Value)
    requires Typed(s, v)
  {
    match s
    case SString => IsReadable(v.text)
    case SCode => CleanBody(v.text)
    case SList(item) => forall i | 0 <= i < |v.items| :: Printable(item, v.items[i])
    case SRecord(item) => forall i | 0 <= i < |v.entries| ::
      IsGoodKey(v.entries[i].key) && Printable(item, v.entries[i].value)
    case SObject(fields) => forall i | 0 <= i < |fields| :: fields[i].name in v.members ==>
      && Printable(fields[i].schema, v.members[fields[i].name])
      && (IsRequired(fields[i].schema) ==> !v.members[fields[i].name].VNull?)
    case SNullable(inner) => v.VNull? || Printable(inner, v)
    case SOptional(inner) => Printable(inner, v)
    case _ => true
  }

  /** For the blocks of a script a required null is written, and therefore allowed. */
  predicate PrintableScript(s: ScriptSchema, blocks: map<Text, Value>)
    requires s.blocks.SObject? && Typed(s.blocks, VObject(blocks))
  {
    forall i | 0 <= i < |s.blocks.fields| :: s.blocks.fields[i].name in blocks ==>
      Printable(s.blocks.fields[i].schema, blocks[s.blocks.fields[i].name])
  }
}
