/** Server-sent events: an incremental parser over chunks of text, and the loop that reconnects. */
module Sse {
  import opened CodeUnits
  import opened Wrappers

  datatype Event = Event(id: Option<Text>, name: Text, data: Text, retry: Option<nat>)

  /** What the parser hands out, in order: events, and calls of the retry callback. */
  datatype Output = Deliver(event: Event) | Retry(ms: nat)

  const BOM: Unit := 0xFEFF
  const WORD_MESSAGE: Text := Ascii("message")
  const FIELD_DATA: Text := Ascii("data")
  const FIELD_EVENT: Text := Ascii("event")
  const FIELD_ID: Text := Ascii("id")
  const FIELD_RETRY: Text := Ascii("retry")

  // ---------------------------------------------------------------- lines

  /** The length of the line end at the start of t; 0 if there is none. */
  function LineEnd(t: Text): (n: nat)
    ensures n <= |t|
  {
    if t == [] then 0
    else if t[0] == RETURN && |t| > 1 && t[1] == NEWLINE then 2
    else if t[0] == RETURN || t[0] == NEWLINE then 1
    else 0
  }

  /** split(/\r\n|\r|\n/) */
  function SplitLines(t: Text): (lines: seq<Text>)
    ensures lines != []
    decreases |t|
  {
    if t == [] then [[]]
    else if LineEnd(t) > 0 then [[]] + SplitLines(t[LineEnd(t)..])
    else
      var rest := SplitLines(t[1..]);
      [[t[0]] + rest[0]] + rest[1..]
  }

  function Init<T>(s: seq<T>): seq<T>
    requires s != []
  {
    s[..|s| - 1]
  }

  function Last<T>(s: seq<T>): T
    requires s != []
  {
    s[|s| - 1]
  }

  // ---------------------------------------------------------------- one line

  datatype State = State(data: seq<Text>, name: Text, id: Option<Text>, retry: Option<nat>, first: bool)

  datatype Step = Step(state: State, outputs: seq<Output>)

  datatype Field = Field(name: Text, value: Text)

  function IndexOfColon(line: Text): (n: nat)
    ensures n <= |line| && (n < |line| ==> line[n] == COLON)
  {
    if line == [] || line[0] == COLON then 0 else 1 + IndexOfColon(line[1..])
  }

  function FieldOf(line: Text): Field {
    var n := IndexOfColon(line);
    var value := if n == |line| then [] else line[n + 1..];
    Field(line[..n], if value != [] && value[0] == SPACE then value[1..] else value)
  }

  function JoinData(data: seq<Text>): Text {
    if data == [] then [] else if |data| == 1 then data[0] else JoinData(Init(data)) + [NEWLINE] + Last(data)
  }

  /** The type of an event without a name is message. */
  function Shown(name: Text): Text {
    if name == [] then WORD_MESSAGE else name
  }

  function Dispatch(st: State): Step {
    if st.data == [] then Step(st, [])
    else
      Step(st.(data := [], name := [], retry := None),
           [Deliver(Event(st.id, Shown(st.name), JoinData(st.data), st.retry))])
  }

  predicate AllDigits(s: Text) {
    s != [] && forall i | 0 <= i < |s| :: IsDigit(s[i])
  }

  function TakeField(st: State, f: Field): Step {
    if f.name == FIELD_DATA then Step(st.(data := st.data + [f.value]), [])
    else if f.name == FIELD_EVENT then Step(st.(name := f.value), [])
    else if f.name == FIELD_ID && 0 !in f.value then Step(st.(id := Some(f.value)), [])
    else if f.name == FIELD_RETRY && AllDigits(f.value) then
      var ms := DigitsValue(f.value);
      Step(st.(retry := Some(ms)), [Retry(ms)])
    else Step(st, [])
  }

  /** The first line loses a byte order mark. */
  function Unmarked(st: State, raw: Text): Text {
    if st.first && raw != [] && raw[0] == BOM then raw[1..] else raw
  }

  function TakeUnmarked(st: State, line: Text): Step {
    if line == [] then Dispatch(st)
    else if line[0] == COLON then Step(st, [])
    else TakeField(st, FieldOf(line))
  }

  function TakeLine(st: State, raw: Text): Step {
    TakeUnmarked(st.(first := false), Unmarked(st, raw))
  }

  function TakeLines(st: State, lines: seq<Text>): Step {
    if lines == [] then Step(st, [])
    else
      var before := TakeLines(st, Init(lines));
      var step := TakeLine(before.state, Last(lines));
      Step(step.state, before.outputs + step.outputs)
  }

  function Start(id: Option<Text>): State {
    State([], [], id, None, true)
  }

  /** All lines of a text, and what is left at its end. */
  function Read(id: Option<Text>, text: Text): seq<Output> {
    var step := TakeLines(Start(id), SplitLines(text));
    step.outputs + Dispatch(step.state).outputs
  }

  // ---------------------------------------------------------------- chunks

  /** A cut between a carriage return and its line feed. */
  predicate CutsLineEnd(a: Text, b: Text) {
    a != [] && Last(a) == RETURN && b != [] && b[0] == NEWLINE
  }

  /** Joins two pieces; a line end that the cut between them separates counts as two. */
  function Join(a: Text, b: Text): Text {
    if CutsLineEnd(a, b) then a + [NEWLINE, RETURN] + b else a + b
  }

  function JoinAll(chunks: seq<Text>): Text {
    if chunks == [] then [] else Join(JoinAll(Init(chunks)), Last(chunks))
  }

  predicate IsPlainLine(x: Text) {
    forall i | 0 <= i < |x| :: x[i] != RETURN && x[i] != NEWLINE
  }

  lemma {:induction false} SplitPlain(x: Text, y: Text)
    requires IsPlainLine(x)
    ensures SplitLines(x + y) == [x + SplitLines(y)[0]] + SplitLines(y)[1..]
  {
    if x == [] {
      assert x + y == y;
      assert x + SplitLines(y)[0] == SplitLines(y)[0];
    } else {
      assert (x + y)[1..] == x[1..] + y;
      SplitPlain(x[1..], y);
      assert [x[0]] + (x[1..] + SplitLines(y)[0]) == x + SplitLines(y)[0];
    }
  }

  /** Lines hold no line ends. */
  lemma {:induction false} LastLineIsPlain(t: Text)
    ensures IsPlainLine(Last(SplitLines(t)))
    decreases |t|
  {
    if t != [] {
      if LineEnd(t) > 0 {
        LastLineIsPlain(t[LineEnd(t)..]);
      } else {
        LastLineIsPlain(t[1..]);
      }
    }
  }

  lemma EndThenRest(end: Text, y: Text)
    requires LineEnd(end + y) == |end| > 0
    ensures SplitLines(end + y) == [[]] + SplitLines(y)
  {
    hide LineEnd;
    assert (end + y)[|end|..] == y;
  }

  /** Splitting goes on from the last line. */
  lemma {:induction false} SplitOn(a: Text, b: Text)
    requires !CutsLineEnd(a, b)
    ensures SplitLines(a + b) == Init(SplitLines(a)) + SplitLines(Last(SplitLines(a)) + b)
    decreases |a|
  {
    if a == [] {
      assert a + b == b && Last(SplitLines(a)) + b == b;
    } else {
      LineEndStays(a, b);
      hide *;
      if LineEnd(a) > 0 {
        var end, t := a[..LineEnd(a)], a[LineEnd(a)..];
        assert end + t == a && end + (t + b) == a + b;
        SplitOn(t, b);
        SplitOnEnd(end, t, b);
      } else {
        SplitOn(a[1..], b);
        SplitOnPlain(a, b);
      }
    }
  }

  lemma SplitOnEnd(end: Text, t: Text, b: Text)
    requires LineEnd(end + t) == |end| && LineEnd(end + (t + b)) == |end| && |end| > 0
    requires SplitLines(t + b) == Init(SplitLines(t)) + SplitLines(Last(SplitLines(t)) + b)
    ensures SplitLines(end + t + b) == Init(SplitLines(end + t)) + SplitLines(Last(SplitLines(end + t)) + b)
  {
    hide *;
    EndThenRest(end, t);
    EndThenRest(end, t + b);
    assert end + t + b == end + (t + b);
    EmptyLineFirst(SplitLines(t), SplitLines(end + t), SplitLines(Last(SplitLines(t)) + b));
  }

  lemma EmptyLineFirst(s: seq<Text>, line: seq<Text>, more: seq<Text>)
    requires s != [] && line == [[]] + s
    ensures Init(line) + more == [[]] + (Init(s) + more) && Last(line) == Last(s)
  {
  }

  lemma LineEndStays(a: Text, b: Text)
    requires a != [] && !CutsLineEnd(a, b)
    ensures LineEnd(a + b) == LineEnd(a) && !CutsLineEnd(a[LineEnd(a)..], b) && !CutsLineEnd(a[1..], b)
  {
  }

  lemma SplitOnPlain(a: Text, b: Text)
    requires a != [] && LineEnd(a) == 0
    requires SplitLines(a[1..] + b) == Init(SplitLines(a[1..])) + SplitLines(Last(SplitLines(a[1..])) + b)
    ensures SplitLines(a + b) == Init(SplitLines(a)) + SplitLines(Last(SplitLines(a)) + b)
  {
    hide SplitLines;
    var rest := SplitLines(a[1..]);
    var more := SplitLines(Last(rest) + b);
    assert a + b == [a[0]] + (a[1..] + b) && a == [a[0]] + a[1..];
    SplitPlain([a[0]], a[1..] + b);
    SplitPlain([a[0]], a[1..]);
    if |rest| == 1 {
      assert Init(rest) + more == more;
      SplitPlain([a[0]], rest[0] + b);
      assert [a[0]] + rest[0] + b == [a[0]] + (rest[0] + b);
      assert Init(SplitLines(a)) + SplitLines(Last(SplitLines(a)) + b) == SplitLines([a[0]] + rest[0] + b);
    } else {
      SplitShape(a[0], rest, more);
    }
  }

  lemma SplitShape(c: Unit, rest: seq<Text>, more: seq<Text>)
    requires |rest| > 1
    ensures var line := [[c] + rest[0]] + rest[1..];
            Last(line) == Last(rest)
            && [[c] + (Init(rest) + more)[0]] + (Init(rest) + more)[1..] == Init(line) + more
  {
    assert (Init(rest) + more)[1..] == Init(rest)[1..] + more;
    assert Init([[c] + rest[0]] + rest[1..]) == [[c] + rest[0]] + Init(rest)[1..];
  }

  /** A line feed after a carriage return adds no line. */
  lemma SplitReturn(a: Text)
    requires a != [] && Last(a) == RETURN
    ensures SplitLines(a + [NEWLINE]) == SplitLines(a) && Last(SplitLines(a)) == [] && |SplitLines(a)| > 1
  {
    var p := Init(a);
    var x := Last(SplitLines(p));
    assert a == p + [RETURN] && a + [NEWLINE] == p + [RETURN, NEWLINE];
    SplitOn(p, [RETURN]);
    SplitOn(p, [RETURN, NEWLINE]);
    LastLineIsPlain(p);
    SplitPlain(x, [RETURN]);
    SplitPlain(x, [RETURN, NEWLINE]);
    assert [RETURN][1..] == [] && [RETURN, NEWLINE][2..] == [];
    assert SplitLines([RETURN]) == [[], []] == SplitLines([RETURN, NEWLINE]);
  }

  /** The buffer and the next chunk give the lines that joining the chunk gives. */
  lemma SplitJoin(a: Text, b: Text)
    ensures SplitLines(Join(a, b)) == Init(SplitLines(a)) + SplitLines(Last(SplitLines(a)) + b)
  {
    if CutsLineEnd(a, b) {
      SplitReturn(a);
      assert a + [NEWLINE, RETURN] + b == (a + [NEWLINE]) + ([RETURN] + b);
      SplitOn(a + [NEWLINE], [RETURN] + b);
      assert [] + ([RETURN] + b) == [RETURN] + b && [] + b == b;
      assert ([RETURN] + b)[2..] == b[1..];
    } else {
      SplitOn(a, b);
    }
  }

  lemma {:induction false} TakeLinesConcat(st: State, a: seq<Text>, b: seq<Text>)
    ensures var x := TakeLines(st, a); var y := TakeLines(x.state, b);
            TakeLines(st, a + b) == Step(y.state, x.outputs + y.outputs)
  {
    hide TakeLine;
    if b == [] {
      assert a + b == a;
    } else {
      assert Init(a + b) == a + Init(b) && Last(a + b) == Last(b);
      TakeLinesConcat(st, a, Init(b));
    }
  }

  // ---------------------------------------------------------------- the parser over chunks

  datatype Feed = Feed(step: Step, buffer: Text)

  /** The lines that are complete after each chunk; the rest waits in the buffer. */
  function FeedChunks(id: Option<Text>, chunks: seq<Text>): Feed {
    if chunks == [] then Feed(Step(Start(id), []), [])
    else
      var before := FeedChunks(id, Init(chunks));
      var lines := SplitLines(before.buffer + Last(chunks));
      var step := TakeLines(before.step.state, Init(lines));
      Feed(Step(step.state, before.step.outputs + step.outputs), Last(lines))
  }

  /** parseSseStream: the chunks, then what the decoder gives at the end of the stream. */
  function ReadChunks(id: Option<Text>, chunks: seq<Text>, flush: Text): seq<Output> {
    var before := FeedChunks(id, chunks);
    var step := TakeLines(before.step.state, SplitLines(before.buffer + flush));
    before.step.outputs + step.outputs + Dispatch(step.state).outputs
  }

  /** After any chunks the parser stands where it would stand after reading their joined text. */
  lemma {:induction false} FeedFollowsText(id: Option<Text>, chunks: seq<Text>)
    ensures var f, lines := FeedChunks(id, chunks), SplitLines(JoinAll(chunks));
            f.buffer == Last(lines) && f.step == TakeLines(Start(id), Init(lines))
  {
    assert SplitLines([]) == [[]];
    hide TakeLine, SplitLines;
    if chunks != [] {
      var a, b := JoinAll(Init(chunks)), Last(chunks);
      FeedFollowsText(id, Init(chunks));
      SplitJoin(a, b);
      var before, more := SplitLines(a), SplitLines(Last(SplitLines(a)) + b);
      assert Init(Init(before) + more) == Init(before) + Init(more);
      TakeLinesConcat(Start(id), Init(before), Init(more));
    }
  }

  /**
   * For every way of cutting a text into chunks the parser hands out what it hands out for the joined text,
   * in which a line end that a cut separates counts as two.
   */
  lemma ChunksDoNotMatter(id: Option<Text>, chunks: seq<Text>, flush: Text)
    ensures ReadChunks(id, chunks, flush) == Read(id, JoinAll(chunks + [flush]))
  {
    hide TakeLine, SplitLines, Dispatch, TakeLines;
    FeedFollowsText(id, chunks);
    assert Init(chunks + [flush]) == chunks;
    var a := JoinAll(chunks);
    SplitJoin(a, flush);
    TakeLinesConcat(Start(id), Init(SplitLines(a)), SplitLines(Last(SplitLines(a)) + flush));
  }

  function Concat(chunks: seq<Text>): Text {
    if chunks == [] then [] else Concat(Init(chunks)) + Last(chunks)
  }

  /** No cut separates a carriage return from its line feed. */
  predicate NoCutLineEnd(chunks: seq<Text>) {
    forall i | 0 <= i < |chunks| :: !CutsLineEnd(Concat(chunks[..i]), chunks[i])
  }

  lemma {:induction false} UncutJoins(chunks: seq<Text>)
    requires NoCutLineEnd(chunks)
    ensures JoinAll(chunks) == Concat(chunks)
  {
    if chunks != [] {
      var init := Init(chunks);
      forall i | 0 <= i < |init| ensures !CutsLineEnd(Concat(init[..i]), init[i]) {
        assert init[..i] == chunks[..i] && init[i] == chunks[i];
      }
      UncutJoins(init);
      assert init == chunks[..|init|];
    }
  }

  /** Two ways of cutting the same text, none of them inside a line end, give the same events and retries. */
  lemma SameTextSameEvents(id: Option<Text>, chunks: seq<Text>, flush: Text, others: seq<Text>, end: Text)
    requires NoCutLineEnd(chunks + [flush]) && NoCutLineEnd(others + [end])
    requires Concat(chunks + [flush]) == Concat(others + [end])
    ensures ReadChunks(id, chunks, flush) == ReadChunks(id, others, end) == Read(id, Concat(chunks + [flush]))
  {
    hide ReadChunks, Read, NoCutLineEnd, Concat;
    UncutJoins(chunks + [flush]);
    UncutJoins(others + [end]);
    ChunksDoNotMatter(id, chunks, flush);
    ChunksDoNotMatter(id, others, end);
  }

  lemma {:induction false} ColonAt(name: Text, y: Text)
    requires COLON !in name
    ensures IndexOfColon(name + [COLON] + y) == |name|
  {
    if name != [] {
      assert (name + [COLON] + y)[1..] == name[1..] + [COLON] + y;
      ColonAt(name[1..], y);
    }
  }

  /** A field written as name, colon, value is read back, unless the value starts with a space. */
  lemma FieldReadsBack(name: Text, value: Text)
    requires COLON !in name && (value == [] || value[0] != SPACE)
    ensures FieldOf(name + [COLON] + value) == Field(name, value)
  {
    ColonAt(name, value);
    assert (name + [COLON] + value)[|name| + 1..] == value;
    assert (name + [COLON] + value)[..|name|] == name;
  }

  lemma TwoLines(x: Text, y: Text, end: Text)
    requires IsPlainLine(x) && IsPlainLine(y) && LineEnd(end + y) == |end| > 0
    ensures SplitLines(x + end + y) == [x, y]
  {
    EndThenRest(end, y);
    LoneLine(y);
    hide *;
    SplitPlain(x, end + y);
    assert x + end + y == x + (end + y);
    assert x + [] == x;
    assert [x + ([[]] + [y])[0]] + ([[]] + [y])[1..] == [x, y];
  }

  lemma LoneLine(x: Text)
    requires IsPlainLine(x)
    ensures SplitLines(x) == [x]
  {
    assert SplitLines([]) == [[]];
    hide SplitLines;
    SplitPlain(x, []);
    assert x + [] == x;
  }

  /** Cutting a line end in two splits one event of two lines into two events. */
  lemma CutLineEndIsSeen(x: Text, y: Text)
    requires IsPlainLine(x) && IsPlainLine(y) && x != [] && y != [] && x[0] != SPACE && y[0] != SPACE
    ensures var a, b := FIELD_DATA + [COLON] + x, FIELD_DATA + [COLON] + y;
            ReadChunks(None, [], a + [RETURN, NEWLINE] + b) == [Deliver(Event(None, WORD_MESSAGE, x + [NEWLINE] + y, None))]
            && ReadChunks(None, [a + [RETURN]], [NEWLINE] + b)
            == [Deliver(Event(None, WORD_MESSAGE, x, None)), Deliver(Event(None, WORD_MESSAGE, y, None))]
  {
    var a, b := FIELD_DATA + [COLON] + x, FIELD_DATA + [COLON] + y;
    assert COLON !in FIELD_DATA;
    FieldReadsBack(FIELD_DATA, x);
    FieldReadsBack(FIELD_DATA, y);
    assert a != [] && b != [] && a[0] == b[0] == 0x64;
    assert IsPlainLine(a) && IsPlainLine(b);
    WholeReads(a, b, x, y);
    CutReads(a, b, x, y);
  }

  predicate IsData(line: Text, x: Text) {
    line != [] && line[0] == 0x64 && IsPlainLine(line) && FieldOf(line) == Field(FIELD_DATA, x)
  }

  lemma WholeReads(a: Text, b: Text, x: Text, y: Text)
    requires IsData(a, x) && IsData(b, y)
    ensures ReadChunks(None, [], a + [RETURN, NEWLINE] + b) == [Deliver(Event(None, WORD_MESSAGE, x + [NEWLINE] + y, None))]
  {
    var text := a + [RETURN, NEWLINE] + b;
    assert LineEnd([RETURN, NEWLINE] + b) == 2;
    TwoLines(a, b, [RETURN, NEWLINE]);
    hide SplitLines, FieldOf;
    assert [] + text == text;
    var s1 := TakeLine(Start(None), a).state;
    assert s1 == State([x], [], None, None, false);
    var s2 := TakeLine(s1, b).state;
    assert s2 == State([x, y], [], None, None, false);
    TakeTwo(Start(None), a, b);
    JoinTwo(x, y);
  }

  lemma TakeTwo(st: State, a: Text, b: Text)
    ensures var s := TakeLine(st, a); var t := TakeLine(s.state, b);
            TakeLines(st, [a, b]) == Step(t.state, s.outputs + t.outputs)
  {
    hide TakeLine;
    assert Init([a, b]) == [a] && Init([a]) == [];
    assert TakeLines(st, [a]) == Step(TakeLine(st, a).state, [] + TakeLine(st, a).outputs);
  }

  lemma JoinTwo(x: Text, y: Text)
    ensures JoinData([x, y]) == x + [NEWLINE] + y && JoinData([x]) == x
  {
    assert Init([x, y]) == [x];
  }

  lemma CutReads(a: Text, b: Text, x: Text, y: Text)
    requires IsData(a, x) && IsData(b, y)
    ensures ReadChunks(None, [a + [RETURN]], [NEWLINE] + b)
         == [Deliver(Event(None, WORD_MESSAGE, x, None)), Deliver(Event(None, WORD_MESSAGE, y, None))]
  {
    CutLines(a, b);
    FeedData(a, x);
    TakeBlankThenData(b, x, y);
    JoinTwo(y, x);
    DispatchOne(y);
    hide *;
    ReadFed([a + [RETURN]], [NEWLINE] + b);
  }

  lemma DispatchOne(y: Text)
    ensures Dispatch(State([y], [], None, None, false)).outputs == [Deliver(Event(None, WORD_MESSAGE, y, None))]
  {
  }

  lemma ReadFed(chunks: seq<Text>, flush: Text)
    requires FeedChunks(None, chunks).buffer == [] && FeedChunks(None, chunks).step.outputs == []
    ensures var step := TakeLines(FeedChunks(None, chunks).step.state, SplitLines(flush));
            ReadChunks(None, chunks, flush) == step.outputs + Dispatch(step.state).outputs
  {
    hide FeedChunks, TakeLines, SplitLines, Dispatch;
    assert [] + flush == flush;
  }

  lemma FeedData(a: Text, x: Text)
    requires IsData(a, x)
    ensures FeedChunks(None, [a + [RETURN]]) == Feed(Step(State([x], [], None, None, false), []), [])
  {
    CutLines(a, []);
    FeedOne(a + [RETURN]);
    DataLine(Start(None), a, x);
    hide SplitLines, FieldOf, IsPlainLine, LineEnd, TakeLine, TakeField, FeedChunks;
    assert Init([a, []]) == [a] && Init([a]) == [];
  }

  lemma TakeBlankThenData(b: Text, x: Text, y: Text)
    requires IsData(b, y)
    ensures TakeLines(State([x], [], None, None, false), [[], b])
         == Step(State([y], [], None, None, false), [Deliver(Event(None, WORD_MESSAGE, x, None))])
  {
    var s1, s2 := State([x], [], None, None, false), State([], [], None, None, false);
    hide FieldOf, IsPlainLine, TakeField, TakeLines;
    TakeTwo(s1, [], b);
    JoinTwo(x, y);
    assert TakeLine(s1, []) == Dispatch(s1);
    hide TakeLine;
    DataLine(s2, b, y);
  }

  lemma DataLine(st: State, line: Text, x: Text)
    requires IsData(line, x)
    ensures TakeLine(st, line) == Step(st.(first := false, data := st.data + [x]), [])
  {
    hide FieldOf;
  }

  lemma CutLines(a: Text, b: Text)
    requires IsPlainLine(a) && IsPlainLine(b)
    ensures SplitLines(a + [RETURN]) == [a, []] && SplitLines([NEWLINE] + b) == [[], b]
  {
    assert LineEnd([RETURN] + []) == 1 == LineEnd([NEWLINE] + b);
    TwoLines(a, [], [RETURN]);
    TwoLines([], b, [NEWLINE]);
    assert a + [RETURN] + [] == a + [RETURN] && [] + [NEWLINE] + b == [NEWLINE] + b;
  }

  lemma FeedOne(chunk: Text)
    ensures var lines := SplitLines(chunk);
            FeedChunks(None, [chunk]) == Feed(Step(TakeLines(Start(None), Init(lines)).state, TakeLines(Start(None), Init(lines)).outputs), Last(lines))
  {
    hide SplitLines, TakeLines;
    assert Init([chunk]) == [] && [] + chunk == chunk;
  }

  // ---------------------------------------------------------------- the look-back reading

  /** The lines of a text without the byte order mark. */
  function Unmark(raw: seq<Text>): (lines: seq<Text>)
    ensures |lines| == |raw|
  {
    if raw != [] then [Unmarked(Start(None), raw[0])] + raw[1..] else []
  }

  predicate IsField(line: Text, name: Text) {
    FieldOf(line).name == name
  }

  /** The values of the data lines since the last blank line. */
  function DataBefore(lines: seq<Text>, i: nat): seq<Text>
    requires i <= |lines|
  {
    if i == 0 || lines[i - 1] == [] then []
    else DataBefore(lines, i - 1) + (if IsField(lines[i - 1], FIELD_DATA) then [FieldOf(lines[i - 1]).value] else [])
  }

  /** A blank line with data before it ends an event. */
  predicate EndsEvent(lines: seq<Text>, i: nat)
    requires i < |lines|
  {
    lines[i] == [] && DataBefore(lines, i) != []
  }

  /** The last event field since the last event ended; a blank line without data does not clear it. */
  function NameBefore(lines: seq<Text>, i: nat): Text
    requires i <= |lines|
  {
    if i == 0 || EndsEvent(lines, i - 1) then []
    else if IsField(lines[i - 1], FIELD_EVENT) then FieldOf(lines[i - 1]).value
    else NameBefore(lines, i - 1)
  }

  predicate IsRetry(line: Text) {
    IsField(line, FIELD_RETRY) && AllDigits(FieldOf(line).value)
  }

  function RetryBefore(lines: seq<Text>, i: nat): Option<nat>
    requires i <= |lines|
  {
    if i == 0 || EndsEvent(lines, i - 1) then None
    else if IsRetry(lines[i - 1]) then Some(DigitsValue(FieldOf(lines[i - 1]).value))
    else RetryBefore(lines, i - 1)
  }

  /** The last id field of all lines, else the id the stream began with. */
  function IdBefore(id: Option<Text>, lines: seq<Text>, i: nat): Option<Text>
    requires i <= |lines|
  {
    if i == 0 then id
    else if IsField(lines[i - 1], FIELD_ID) && 0 !in FieldOf(lines[i - 1]).value then Some(FieldOf(lines[i - 1]).value)
    else IdBefore(id, lines, i - 1)
  }

  function EventBefore(id: Option<Text>, lines: seq<Text>, i: nat, name: Text): Event
    requires i <= |lines|
  {
    Event(IdBefore(id, lines, i), Shown(name), JoinData(DataBefore(lines, i)), RetryBefore(lines, i))
  }

  /** What line i hands out, when its event has the given name. */
  function LineGives(id: Option<Text>, lines: seq<Text>, i: nat, name: Text): seq<Output>
    requires i < |lines|
  {
    if EndsEvent(lines, i) then [Deliver(EventBefore(id, lines, i, name))]
    else if IsRetry(lines[i]) then [Retry(DigitsValue(FieldOf(lines[i]).value))]
    else []
  }

  function OutputsBefore(id: Option<Text>, lines: seq<Text>, i: nat): seq<Output>
    requires i <= |lines|
  {
    if i == 0 then [] else OutputsBefore(id, lines, i - 1) + LineGives(id, lines, i - 1, NameBefore(lines, i - 1))
  }

  /** The reading of a text, every event composed by looking back from its end; an unfinished last event counts. */
  function LookBack(id: Option<Text>, text: Text): seq<Output> {
    var lines := Unmark(SplitLines(text));
    OutputsBefore(id, lines, |lines|)
    + if DataBefore(lines, |lines|) != [] then [Deliver(EventBefore(id, lines, |lines|, NameBefore(lines, |lines|)))] else []
  }

  lemma FieldNamesDiffer()
    ensures FIELD_DATA != FIELD_EVENT && FIELD_DATA != FIELD_ID && FIELD_DATA != FIELD_RETRY
    ensures FIELD_EVENT != FIELD_ID && FIELD_EVENT != FIELD_RETRY && FIELD_ID != FIELD_RETRY
    ensures FIELD_DATA != [] && FIELD_EVENT != [] && FIELD_ID != [] && FIELD_RETRY != []
  {
    assert FIELD_DATA[0] != FIELD_EVENT[0] && FIELD_EVENT[0] != FIELD_RETRY[0];
  }

  /** Blank lines and comments are fields without a name. */
  lemma NamelessLine(line: Text)
    requires line == [] || line[0] == COLON
    ensures FieldOf(line).name == []
  {
  }

  lemma TakeNext(st: State, raw: seq<Text>, i: nat)
    requires i < |raw|
    ensures var before := TakeLines(st, raw[..i]); var step := TakeLine(before.state, raw[i]);
            TakeLines(st, raw[..i + 1]) == Step(step.state, before.outputs + step.outputs)
  {
    hide TakeLine;
    assert Init(raw[..i + 1]) == raw[..i] && Last(raw[..i + 1]) == raw[i];
  }

  lemma TakeLineAt(st: State, raw: seq<Text>, i: nat)
    requires i < |raw| && st.first == (i == 0)
    ensures TakeLine(st, raw[i]) == TakeUnmarked(st.(first := false), Unmark(raw)[i])
  {
    hide TakeUnmarked;
  }

  function StateBefore(id: Option<Text>, lines: seq<Text>, i: nat): State
    requires i <= |lines|
  {
    State(DataBefore(lines, i), NameBefore(lines, i), IdBefore(id, lines, i), RetryBefore(lines, i), i == 0)
  }

  lemma LookBackStart(id: Option<Text>, raw: seq<Text>)
    ensures TakeLines(Start(id), raw[..0]) == Step(StateBefore(id, Unmark(raw), 0), OutputsBefore(id, Unmark(raw), 0))
  {
    assert raw[..0] == [];
  }

  lemma {:induction false} LookBackState(id: Option<Text>, raw: seq<Text>, i: nat)
    requires i <= |raw|
    ensures TakeLines(Start(id), raw[..i]) == Step(StateBefore(id, Unmark(raw), i), OutputsBefore(id, Unmark(raw), i))
  {
    hide *;
    if i == 0 {
      LookBackStart(id, raw);
    } else {
      LookBackState(id, raw, i - 1);
      TakeNext(Start(id), raw, i - 1);
      FirstBefore(id, Unmark(raw), i - 1);
      TakeLineAt(TakeLines(Start(id), raw[..i - 1]).state, raw, i - 1);
      LookBackStep(id, Unmark(raw), i - 1);
    }
  }

  lemma FirstBefore(id: Option<Text>, lines: seq<Text>, i: nat)
    requires i <= |lines|
    ensures StateBefore(id, lines, i).first == (i == 0)
  {
  }

  lemma LookBackStep(id: Option<Text>, lines: seq<Text>, i: nat)
    requires i < |lines|
    ensures var step := TakeUnmarked(StateBefore(id, lines, i).(first := false), lines[i]);
            step.state == StateBefore(id, lines, i + 1) && OutputsBefore(id, lines, i + 1) == OutputsBefore(id, lines, i) + step.outputs
  {
    FieldNamesDiffer();
    if lines[i] == [] || lines[i][0] == COLON { NamelessLine(lines[i]); }
    hide FieldOf, JoinData, AllDigits, DigitsValue;
  }

  /** The parser reads every text as the look-back reading does. */
  lemma ReadIsLookBack(id: Option<Text>, text: Text)
    ensures Read(id, text) == LookBack(id, text)
  {
    var raw := SplitLines(text);
    LookBackState(id, raw, |raw|);
    assert raw[..|raw|] == raw;
  }

  // ---------------------------------------------------------------- when a cut line end is harmless

  /** The values of the data lines of an event that a text leaves open at the beginning of its last line. */
  function Pending(text: Text): seq<Text> {
    var lines := Unmark(SplitLines(text));
    DataBefore(lines, |lines| - 1)
  }

  /** What further lines and the end of the stream give. */
  function Finish(st: State, lines: seq<Text>): seq<Output> {
    var step := TakeLines(st, lines);
    step.outputs + Dispatch(step.state).outputs
  }

  /** The parser stands where it would stand after reading the plain concatenation of the chunks. */
  predicate FollowsText(id: Option<Text>, chunks: seq<Text>) {
    var lines := SplitLines(Concat(chunks));
    FeedChunks(id, chunks) == Feed(TakeLines(Start(id), Init(lines)), Last(lines))
  }

  /** Chunk i begins with the line feed of a carriage return that ends the chunks before it. */
  predicate CutsAt(chunks: seq<Text>, i: nat)
    requires i < |chunks|
  {
    CutsLineEnd(Concat(chunks[..i]), chunks[i])
  }

  /** No event is left open where a line end is cut. */
  predicate HarmlessCuts(chunks: seq<Text>) {
    forall i | 0 <= i < |chunks| && CutsAt(chunks, i) :: Pending(Concat(chunks[..i])) == []
  }

  lemma FinishConcat(st: State, a: seq<Text>, b: seq<Text>)
    ensures Finish(st, a + b) == TakeLines(st, a).outputs + Finish(TakeLines(st, a).state, b)
  {
    hide TakeLines, Dispatch;
    TakeLinesConcat(st, a, b);
  }

  /** A blank line without data before it changes nothing. */
  lemma BlankIsNothing(st: State, lines: seq<Text>)
    requires !st.first && st.data == []
    ensures TakeLines(st, [[]] + lines) == TakeLines(st, lines)
  {
    var blank: seq<Text> := [[]];
    TakeLinesConcat(st, blank, lines);
    assert Init(blank) == [];
    assert TakeLines(st, blank) == Step(st, []);
  }

  lemma PendingIsData(id: Option<Text>, text: Text)
    ensures var lines := SplitLines(text); var st := TakeLines(Start(id), Init(lines)).state;
            st.data == Pending(text) && (|lines| > 1 ==> !st.first)
  {
    var raw := SplitLines(text);
    hide SplitLines, TakeLines, DataBefore, NameBefore, IdBefore, RetryBefore, OutputsBefore, Unmark;
    LookBackState(id, raw, |raw| - 1);
  }

  /** Behind a carriage return the line feed is part of the line end, or a line end of its own when it is cut off. */
  lemma LinesBehind(a: Text, b: Text)
    requires a != [] && Last(a) == RETURN
    ensures SplitLines(a + [NEWLINE] + b) == Init(SplitLines(a)) + SplitLines(b)
    ensures SplitLines([NEWLINE] + b) == [[]] + SplitLines(b)
    ensures Last(SplitLines(a)) == [] && |SplitLines(a)| > 1
  {
    assert LineEnd([NEWLINE] + b) == |[NEWLINE]|;
    EndThenRest([NEWLINE], b);
    SplitReturn(a);
    SplitOn(a + [NEWLINE], b);
    assert [] + b == b;
  }

  lemma FeedNext(id: Option<Text>, chunks: seq<Text>, b: Text)
    requires FollowsText(id, chunks)
    ensures Concat(chunks + [b]) == Concat(chunks) + b
    ensures var before := SplitLines(Concat(chunks));
            var lines, st := SplitLines(Last(before) + b), TakeLines(Start(id), Init(before));
            var step := TakeLines(st.state, Init(lines));
            FeedChunks(id, chunks + [b]) == Feed(Step(step.state, st.outputs + step.outputs), Last(lines))
  {
    hide SplitLines, TakeLines;
    assert Init(chunks + [b]) == chunks;
  }

  /** The lines of a chunk are taken behind those of the text before it. */
  lemma TakeBehind(id: Option<Text>, before: seq<Text>, more: seq<Text>)
    requires more != []
    ensures var st := TakeLines(Start(id), before); var step := TakeLines(st.state, Init(more));
            TakeLines(Start(id), Init(before + more)) == Step(step.state, st.outputs + step.outputs) && Last(before + more) == Last(more)
  {
    hide TakeLines;
    assert Init(before + more) == before + Init(more);
    TakeLinesConcat(Start(id), before, Init(more));
  }

  lemma Follows(id: Option<Text>, chunks: seq<Text>)
    requires var lines := SplitLines(Concat(chunks)); FeedChunks(id, chunks) == Feed(TakeLines(Start(id), Init(lines)), Last(lines))
    ensures FollowsText(id, chunks)
  {
  }

  lemma FeedWhole(id: Option<Text>, chunks: seq<Text>, b: Text)
    requires FollowsText(id, chunks) && !CutsLineEnd(Concat(chunks), b)
    ensures FollowsText(id, chunks + [b])
  {
    var before := SplitLines(Concat(chunks));
    SplitOn(Concat(chunks), b);
    hide TakeLines, SplitLines, Concat, CutsLineEnd, FeedChunks;
    FeedNext(id, chunks, b);
    TakeBehind(id, Init(before), SplitLines(Last(before) + b));
  }

  lemma TakeBehindBlank(id: Option<Text>, before: seq<Text>, more: seq<Text>)
    requires var st := TakeLines(Start(id), before).state; !st.first && st.data == []
    requires more != []
    ensures var st := TakeLines(Start(id), before); var step := TakeLines(st.state, Init([[]] + more));
            TakeLines(Start(id), Init(before + more)) == Step(step.state, st.outputs + step.outputs)
            && Last(before + more) == Last([[]] + more)
  {
    assert Init([[]] + more) == [[]] + Init(more);
    hide TakeLines;
    TakeBehind(id, before, more);
    BlankIsNothing(TakeLines(Start(id), before).state, Init(more));
  }

  lemma CutOff(a: Text, b: Text)
    requires CutsLineEnd(a, b)
    ensures a != [] && Last(a) == RETURN && b != [] && [NEWLINE] + b[1..] == b == [] + b && a + [NEWLINE] + b[1..] == a + b
  {
  }

  lemma FeedCut(id: Option<Text>, chunks: seq<Text>, b: Text)
    requires FollowsText(id, chunks) && CutsLineEnd(Concat(chunks), b) && Pending(Concat(chunks)) == []
    ensures FollowsText(id, chunks + [b])
  {
    hide *;
    var a := Concat(chunks);
    CutOff(a, b);
    var rest := b[1..];
    LinesBehind(a, rest);
    PendingIsData(id, a);
    FeedNext(id, chunks, b);
    TakeBehindBlank(id, Init(SplitLines(a)), SplitLines(rest));
    Follows(id, chunks + [b]);
  }

  lemma HarmlessInit(chunks: seq<Text>)
    requires chunks != [] && HarmlessCuts(chunks)
    ensures HarmlessCuts(Init(chunks))
    ensures CutsLineEnd(Concat(Init(chunks)), Last(chunks)) ==> Pending(Concat(Init(chunks))) == []
  {
    hide Concat, Pending, CutsLineEnd;
    var init := Init(chunks);
    forall i | 0 <= i < |init| && CutsAt(init, i) ensures Pending(Concat(init[..i])) == [] {
      assert init[..i] == chunks[..i] && init[i] == chunks[i];
      assert CutsAt(chunks, i);
    }
    assert CutsAt(chunks, |init|) == CutsLineEnd(Concat(init), Last(chunks));
  }

  lemma {:induction false} HarmlessFollow(id: Option<Text>, chunks: seq<Text>)
    requires HarmlessCuts(chunks)
    ensures FollowsText(id, chunks)
  {
    if chunks == [] {
      assert SplitLines([]) == [[]];
    } else {
      var init, b := Init(chunks), Last(chunks);
      assert init + [b] == chunks;
      HarmlessInit(chunks);
      HarmlessFollow(id, init);
      hide *;
      if CutsLineEnd(Concat(init), b) { FeedCut(id, init, b); } else { FeedWhole(id, init, b); }
    }
  }

  lemma FeedOn(id: Option<Text>, chunks: seq<Text>, flush: Text)
    requires FollowsText(id, chunks)
    ensures var lines := SplitLines(Concat(chunks)); var before := TakeLines(Start(id), Init(lines));
            ReadChunks(id, chunks, flush) == before.outputs + Finish(before.state, SplitLines(Last(lines) + flush))
  {
    hide SplitLines, TakeLines, Dispatch, Concat, FeedChunks;
  }

  lemma ReadOn(id: Option<Text>, text: Text, a: seq<Text>, more: seq<Text>)
    requires SplitLines(text) == a + more
    ensures Read(id, text) == TakeLines(Start(id), a).outputs + Finish(TakeLines(Start(id), a).state, more)
  {
    hide SplitLines, TakeLines, Dispatch;
    FinishConcat(Start(id), a, more);
  }

  /** Reading on behind a carriage return, with its line feed cut off and with the whole line end. */
  lemma CutGoesOn(id: Option<Text>, chunks: seq<Text>, rest: Text)
    requires FollowsText(id, chunks) && Concat(chunks) != [] && Last(Concat(chunks)) == RETURN
    ensures var a, more := Concat(chunks), SplitLines(rest); var before := TakeLines(Start(id), Init(SplitLines(a)));
            ReadChunks(id, chunks, [NEWLINE] + rest) == before.outputs + Finish(before.state, [[]] + more)
            && Read(id, a + [NEWLINE] + rest) == before.outputs + Finish(before.state, more)
  {
    var a := Concat(chunks);
    LinesBehind(a, rest);
    assert [] + ([NEWLINE] + rest) == [NEWLINE] + rest;
    hide *;
    FeedOn(id, chunks, [NEWLINE] + rest);
    ReadOn(id, a + [NEWLINE] + rest, Init(SplitLines(a)), SplitLines(rest));
  }

  lemma FinishBlank(st: State, lines: seq<Text>)
    requires !st.first && st.data == []
    ensures Finish(st, [[]] + lines) == Finish(st, lines)
  {
    hide TakeLines, Dispatch;
    BlankIsNothing(st, lines);
  }

  /** Cuts that leave no event open give the events and retries of the whole text, cut line ends or not. */
  lemma CutsAreHarmless(id: Option<Text>, chunks: seq<Text>, flush: Text)
    requires HarmlessCuts(chunks + [flush])
    ensures ReadChunks(id, chunks, flush) == Read(id, Concat(chunks + [flush]))
  {
    var all, a := chunks + [flush], Concat(chunks);
    assert Init(all) == chunks && Last(all) == flush && Concat(all) == a + flush;
    HarmlessInit(all);
    HarmlessFollow(id, chunks);
    if CutsLineEnd(a, flush) {
      CutOff(a, flush);
      hide *;
      PendingIsData(id, a);
      LinesBehind(a, []);
      CutGoesOn(id, chunks, flush[1..]);
      FinishBlank(TakeLines(Start(id), Init(SplitLines(a))).state, SplitLines(flush[1..]));
    } else {
      hide *;
      SplitOn(a, flush);
      FeedOn(id, chunks, flush);
      ReadOn(id, a + flush, Init(SplitLines(a)), SplitLines(Last(SplitLines(a)) + flush));
    }
  }

  /** With an event open, a blank line more gives one event more when data goes on. */
  lemma OneOrTwo(st: State)
    requires !st.first && st.data != []
    ensures |Finish(st, [FIELD_DATA])| == 1 && |Finish(st, [[], FIELD_DATA])| == 2
  {
    PlainData();
    hide FieldOf, JoinData;
    var blank := TakeLine(st, []);
    assert Init([FIELD_DATA]) == [];
    assert TakeLines(st, [FIELD_DATA]) == Step(TakeLine(st, FIELD_DATA).state, []);
    TakeTwo(st, [], FIELD_DATA);
    assert blank.state.data == [];
  }

  lemma PlainData()
    ensures FieldOf(FIELD_DATA) == Field(FIELD_DATA, []) && FIELD_DATA != [] && FIELD_DATA[0] != COLON && IsPlainLine(FIELD_DATA)
  {
    assert IndexOfColon(FIELD_DATA) == 4 by {
      assert IndexOfColon(FIELD_DATA[4..]) == 0;
      assert FIELD_DATA[3..][1..] == FIELD_DATA[4..] && FIELD_DATA[2..][1..] == FIELD_DATA[3..] && FIELD_DATA[1..][1..] == FIELD_DATA[2..];
      assert IndexOfColon(FIELD_DATA[3..]) == 1;
      assert IndexOfColon(FIELD_DATA[2..]) == 2;
      assert IndexOfColon(FIELD_DATA[1..]) == 3;
    }
    assert FIELD_DATA[..4] == FIELD_DATA;
  }

  lemma NothingIsSeen(id: Option<Text>, chunks: seq<Text>, rest: Text)
    requires FollowsText(id, chunks) && Concat(chunks) != [] && Last(Concat(chunks)) == RETURN && Pending(Concat(chunks)) == []
    ensures ReadChunks(id, chunks, [NEWLINE] + rest) == Read(id, Concat(chunks) + [NEWLINE] + rest)
  {
    hide *;
    var a := Concat(chunks);
    PendingIsData(id, a);
    LinesBehind(a, []);
    CutGoesOn(id, chunks, rest);
    FinishBlank(TakeLines(Start(id), Init(SplitLines(a))).state, SplitLines(rest));
  }

  lemma DataIsSeen(id: Option<Text>, chunks: seq<Text>)
    requires FollowsText(id, chunks) && Concat(chunks) != [] && Last(Concat(chunks)) == RETURN && Pending(Concat(chunks)) != []
    ensures ReadChunks(id, chunks, [NEWLINE] + FIELD_DATA) != Read(id, Concat(chunks) + [NEWLINE] + FIELD_DATA)
  {
    hide *;
    var a := Concat(chunks);
    PendingIsData(id, a);
    LinesBehind(a, []);
    PlainData();
    LoneLine(FIELD_DATA);
    CutGoesOn(id, chunks, FIELD_DATA);
    assert [[]] + [FIELD_DATA] == [[], FIELD_DATA];
    OneOrTwo(TakeLines(Start(id), Init(SplitLines(a))).state);
  }

  /**
   * A line feed that is cut off from its carriage return makes no difference, whatever comes after it, if and only if no event
   * is open there. The chunks before may be cut in any harmless way.
   */
  lemma CutIsHarmlessExactly(id: Option<Text>, chunks: seq<Text>)
    requires HarmlessCuts(chunks) && Concat(chunks) != [] && Last(Concat(chunks)) == RETURN
    ensures (forall rest :: ReadChunks(id, chunks, [NEWLINE] + rest) == Read(id, Concat(chunks) + [NEWLINE] + rest))
       <==> Pending(Concat(chunks)) == []
  {
    hide *;
    HarmlessFollow(id, chunks);
    if Pending(Concat(chunks)) == [] {
      forall rest ensures ReadChunks(id, chunks, [NEWLINE] + rest) == Read(id, Concat(chunks) + [NEWLINE] + rest) {
        NothingIsSeen(id, chunks, rest);
      }
    } else {
      DataIsSeen(id, chunks);
    }
  }

  /** However the rest of the stream differs from chunk i on, the line feed that begins it is not told from a whole line end. */
  ghost predicate CutIsUnseen(id: Option<Text>, chunks: seq<Text>, i: nat)
    requires i <= |chunks|
  {
    forall rest :: ReadChunks(id, chunks[..i], [NEWLINE] + rest) == Read(id, Concat(chunks[..i]) + [NEWLINE] + rest)
  }

  /** How a stream is cut is never seen at a cut line end if and only if no event is open at any of them. */
  lemma {:induction false} CutsAreUnseenExactly(id: Option<Text>, chunks: seq<Text>)
    ensures (forall i | 0 <= i < |chunks| && CutsAt(chunks, i) :: CutIsUnseen(id, chunks, i)) <==> HarmlessCuts(chunks)
  {
    hide ReadChunks, Read, Concat, Pending, FollowsText, SplitLines;
    if chunks != [] {
      var init := Init(chunks);
      var n := |init|;
      CutsAreUnseenExactly(id, init);
      forall i | 0 <= i < n
        ensures CutsAt(init, i) == CutsAt(chunks, i) && CutIsUnseen(id, init, i) == CutIsUnseen(id, chunks, i)
                && Concat(init[..i]) == Concat(chunks[..i])
      {
        assert init[..i] == chunks[..i];
      }
      assert chunks[..n] == init;
      if HarmlessCuts(init) && CutsAt(chunks, n) {
        CutIsHarmlessExactly(id, init);
      }
    }
  }

  // ---------------------------------------------------------------- the reading of the standard

  /** The last event field since the last blank line, with data before it or not. */
  function NameSinceBlank(lines: seq<Text>, i: nat): Text
    requires i <= |lines|
  {
    if i == 0 || lines[i - 1] == [] then []
    else if IsField(lines[i - 1], FIELD_EVENT) then FieldOf(lines[i - 1]).value
    else NameSinceBlank(lines, i - 1)
  }

  /** What the first i lines give when the name of an event is the one since the last blank line. */
  function PrescribedBefore(id: Option<Text>, lines: seq<Text>, i: nat): seq<Output>
    requires i <= |lines|
  {
    if i == 0 then [] else PrescribedBefore(id, lines, i - 1) + LineGives(id, lines, i - 1, NameSinceBlank(lines, i - 1))
  }

  /**
   * Section 9.2.6 of the HTML Living Standard: only lines that end are lines, an event ends at a blank line, and every blank line
   * clears the name. That an event tells the retry field before it is an addition of the code.
   */
  function Prescribed(id: Option<Text>, text: Text): seq<Output> {
    var lines := Unmark(SplitLines(text));
    PrescribedBefore(id, lines, |lines| - 1)
  }

  /** No event is open at the end, and the text behind the last line end is neither data nor a retry. */
  predicate EndsClean(lines: seq<Text>)
    requires lines != []
  {
    DataBefore(lines, |lines| - 1) == [] && !IsField(Last(lines), FIELD_DATA) && !IsRetry(Last(lines))
  }

  /** Before line n no event is given a name that a blank line without data stands behind. */
  predicate NamesAgree(lines: seq<Text>, n: nat)
    requires n <= |lines|
  {
    forall i | 0 <= i < n && EndsEvent(lines, i) :: Shown(NameBefore(lines, i)) == Shown(NameSinceBlank(lines, i))
  }

  lemma {:induction false} PrescribedAgrees(id: Option<Text>, lines: seq<Text>, n: nat)
    requires n <= |lines|
    ensures |OutputsBefore(id, lines, n)| == |PrescribedBefore(id, lines, n)|
    ensures OutputsBefore(id, lines, n) == PrescribedBefore(id, lines, n) <==> NamesAgree(lines, n)
  {
    hide LineGives, Shown, EndsEvent, NameBefore, NameSinceBlank;
    if n > 0 {
      PrescribedAgrees(id, lines, n - 1);
      GivesAgree(id, lines, n - 1);
      SameEnds(OutputsBefore(id, lines, n - 1), PrescribedBefore(id, lines, n - 1),
               LineGives(id, lines, n - 1, NameBefore(lines, n - 1)), LineGives(id, lines, n - 1, NameSinceBlank(lines, n - 1)));
    }
  }

  lemma GivesAgree(id: Option<Text>, lines: seq<Text>, i: nat)
    requires i < |lines|
    ensures var a, b := LineGives(id, lines, i, NameBefore(lines, i)), LineGives(id, lines, i, NameSinceBlank(lines, i));
            |a| == |b| && (a == b <==> (EndsEvent(lines, i) ==> Shown(NameBefore(lines, i)) == Shown(NameSinceBlank(lines, i))))
  {
    hide DataBefore, NameBefore, NameSinceBlank, IdBefore, RetryBefore, EndsEvent, IsField, Shown, JoinData, FieldOf;
    var a, b := LineGives(id, lines, i, NameBefore(lines, i)), LineGives(id, lines, i, NameSinceBlank(lines, i));
    if EndsEvent(lines, i) {
      assert a == b <==> a[0] == b[0];
    }
  }

  lemma SameEnds(a: seq<Output>, b: seq<Output>, x: seq<Output>, y: seq<Output>)
    requires |a| == |b|
    ensures a + x == b + y <==> a == b && x == y
  {
    if a + x == b + y {
      assert (a + x)[..|a|] == a && (b + y)[..|b|] == b;
      assert (a + x)[|a|..] == x && (b + y)[|b|..] == y;
    }
  }

  /** The last piece and the end of the text add nothing if and only if the text ends clean. */
  lemma EndAddsNothing(id: Option<Text>, text: Text)
    ensures var lines := Unmark(SplitLines(text));
            OutputsBefore(id, lines, |lines| - 1) <= LookBack(id, text)
            && (|LookBack(id, text)| == |OutputsBefore(id, lines, |lines| - 1)| <==> EndsClean(lines))
  {
    hide SplitLines, Unmark, NameBefore, IdBefore, RetryBefore, AllDigits, JoinData, Shown, FieldOf;
    FieldNamesDiffer();
    var lines := Unmark(SplitLines(text));
    if Last(lines) == [] { NamelessLine(Last(lines)); }
  }

  /**
   * The parser reads a text as the standard prescribes if and only if the text ends clean, and no event takes the name of an
   * earlier block that ended without data.
   */
  lemma PrescribedExactly(id: Option<Text>, text: Text)
    ensures var lines := Unmark(SplitLines(text));
            Read(id, text) == Prescribed(id, text) <==> EndsClean(lines) && NamesAgree(lines, |lines| - 1)
  {
    hide *;
    var lines := Unmark(SplitLines(text));
    ReadIsLookBack(id, text);
    EndAddsNothing(id, text);
    PrescribedAgrees(id, lines, |lines| - 1);
    PrescribedIs(id, text);
    var a, b := LookBack(id, text), OutputsBefore(id, lines, |lines| - 1);
    assert |a| == |b| ==> a == b;
  }

  lemma PrescribedIs(id: Option<Text>, text: Text)
    ensures Prescribed(id, text) == PrescribedBefore(id, Unmark(SplitLines(text)), |Unmark(SplitLines(text))| - 1)
  {
  }

  /** An instance: an event that the text does not end is handed out nevertheless. */
  lemma UnfinishedIsDispatched(id: Option<Text>)
    ensures Prescribed(id, FIELD_DATA) == [] && Read(id, FIELD_DATA) == [Deliver(Event(id, WORD_MESSAGE, [], None))]
  {
    PlainData();
    LoneLine(FIELD_DATA);
    FieldNamesDiffer();
    ReadIsLookBack(id, FIELD_DATA);
    hide SplitLines, FieldOf, Read;
    var lines := Unmark([FIELD_DATA]);
    assert lines == [FIELD_DATA];
    assert IdBefore(id, lines, 1) == id && NameBefore(lines, 1) == [] && RetryBefore(lines, 1) == None && DataBefore(lines, 1) == [[]];
    assert OutputsBefore(id, lines, 1) == [];
  }

  /** An instance: the name of a block without data is given to the event of the next block. */
  lemma NameOutlivesBlock(id: Option<Text>, name: Text)
    requires IsPlainLine(name) && name != [] && name[0] != SPACE && name != WORD_MESSAGE
    ensures var text := FIELD_EVENT + [COLON] + name + [NEWLINE] + ([NEWLINE] + (FIELD_DATA + [NEWLINE] + ([NEWLINE] + [])));
            Read(id, text) != Prescribed(id, text)
  {
    var line := FIELD_EVENT + [COLON] + name;
    NamedLines(line);
    FieldReadsBack(FIELD_EVENT, name);
    NamedThenData(line, name);
    PrescribedExactly(id, line + [NEWLINE] + ([NEWLINE] + (FIELD_DATA + [NEWLINE] + ([NEWLINE] + []))));
  }

  lemma NamedLines(line: Text)
    requires IsPlainLine(line)
    ensures SplitLines(line + [NEWLINE] + ([NEWLINE] + (FIELD_DATA + [NEWLINE] + ([NEWLINE] + [])))) == [line, [], FIELD_DATA, [], []]
  {
    PlainData();
    LoneLine([]);
    hide *;
    var tail := FIELD_DATA + [NEWLINE] + ([NEWLINE] + []);
    LineAndRest(line, [NEWLINE] + tail);
    BlankAndRest(tail);
    LineAndRest(FIELD_DATA, [NEWLINE] + []);
    BlankAndRest([]);
  }

  lemma BlankAndRest(rest: Text)
    ensures SplitLines([NEWLINE] + rest) == [[]] + SplitLines(rest)
  {
    LineAndRest([], rest);
    assert [] + [NEWLINE] + rest == [NEWLINE] + rest;
  }

  lemma NamedThenData(line: Text, name: Text)
    requires line != [] && line[0] != BOM && FieldOf(line) == Field(FIELD_EVENT, name) && Shown(name) != WORD_MESSAGE
    ensures var lines := [line, [], FIELD_DATA, [], []]; Unmark(lines) == lines && !NamesAgree(lines, 4)
  {
    PlainData();
    FieldNamesDiffer();
    NamelessLine([]);
    hide FieldOf, Shown;
    var lines := [line, [], FIELD_DATA, [], []];
    assert DataBefore(lines, 1) == DataBefore(lines, 2) == [] && DataBefore(lines, 3) == [[]];
    assert !EndsEvent(lines, 0) && !EndsEvent(lines, 1) && !EndsEvent(lines, 2);
    assert NameBefore(lines, 1) == name && NameBefore(lines, 2) == name && NameBefore(lines, 3) == name;
    assert NameSinceBlank(lines, 2) == [] && NameSinceBlank(lines, 3) == [];
    assert EndsEvent(lines, 3) && Shown([]) == WORD_MESSAGE;
  }

  lemma LineAndRest(line: Text, rest: Text)
    requires IsPlainLine(line)
    ensures SplitLines(line + [NEWLINE] + rest) == [line] + SplitLines(rest)
  {
    assert LineEnd([NEWLINE] + rest) == |[NEWLINE]|;
    EndThenRest([NEWLINE], rest);
    hide SplitLines;
    SplitPlain(line, [NEWLINE] + rest);
    assert line + [NEWLINE] + rest == line + ([NEWLINE] + rest);
    assert line + [] == line;
  }
}
