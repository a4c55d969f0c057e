/** The consumers of server-sent events: the filter and limit on one response, and the reconnect loop. */
module SseStream {
  import opened CodeUnits
  import opened Sse
  import opened Wrappers

  // ---------------------------------------------------------------- one response

  type Limit = Option<nat>

  predicate Reached(limit: Limit, n: nat) {
    limit.Some? && n >= limit.value
  }

  predicate Passes(accepted: set<Text>, e: Event) {
    accepted == {} || e.name in accepted
  }

  datatype Received = Received(events: seq<Event>, retries: seq<nat>)

  /** The consumer takes the outputs in order and stops at the output that fills the limit. */
  function Receive(outputs: seq<Output>, accepted: set<Text>, limit: Limit): Received {
    if outputs == [] then Received([], [])
    else
      var before := Receive(Init(outputs), accepted, limit);
      if Reached(limit, |before.events|) then before
      else
        match Last(outputs)
        case Retry(ms) => before.(retries := before.retries + [ms])
        case Deliver(e) => if Passes(accepted, e) then before.(events := before.events + [e]) else before
  }

  lemma {:induction false} ReceivePrefix(a: seq<Output>, b: seq<Output>, accepted: set<Text>, limit: Limit)
    requires Reached(limit, |Receive(a, accepted, limit).events|)
    ensures Receive(a + b, accepted, limit) == Receive(a, accepted, limit)
  {
    if b == [] {
      assert a + b == a;
    } else {
      assert Init(a + b) == a + Init(b);
      ReceivePrefix(a, Init(b), accepted, limit);
    }
  }

  /** All events that pass the filter. */
  function Accepted(outputs: seq<Output>, accepted: set<Text>): seq<Event> {
    if outputs == [] then []
    else
      var o := Last(outputs);
      Accepted(Init(outputs), accepted) + if o.Deliver? && Passes(accepted, o.event) then [o.event] else []
  }

  function Truncate(limit: Limit, events: seq<Event>): seq<Event> {
    if limit.Some? && limit.value < |events| then events[..limit.value] else events
  }

  /** What is received are the first accepted events, as many as the limit allows. */
  lemma {:induction false} ReceivesFirst(outputs: seq<Output>, accepted: set<Text>, limit: Limit)
    ensures Receive(outputs, accepted, limit).events == Truncate(limit, Accepted(outputs, accepted))
  {
    if outputs != [] {
      ReceivesFirst(Init(outputs), accepted, limit);
    }
  }

  /** The parser variables of one parseSseStream call. */
  class Parser {
    var data: seq<Text>
    var eventName: Text
    var lastEventId: Option<Text>
    var retry: Option<nat>
    var firstLine: bool

    ghost function View(): State
      reads this
    {
      State(data, eventName, lastEventId, retry, firstLine)
    }

    constructor (initialLastEventId: Option<Text>)
      ensures View() == Start(initialLastEventId)
    {
      data, eventName, retry, firstLine := [], [], None, true;
      lastEventId := initialLastEventId;
    }

    method DispatchEvent() returns (outputs: seq<Output>)
      modifies this`data, this`eventName, this`retry
      ensures Step(View(), outputs) == Dispatch(old(View()))
    {
      if data == [] { return []; }
      outputs := [Deliver(Event(lastEventId, if eventName == [] then WORD_MESSAGE else eventName, JoinData(data), retry))];
      data, eventName, retry := [], [], None;
    }

    method ReadLine(rawLine: Text) returns (outputs: seq<Output>)
      modifies this`data, this`eventName, this`retry, this`lastEventId, this`firstLine
      ensures Step(View(), outputs) == TakeLine(old(View()), rawLine)
    {
      FieldNamesDiffer();
      var line := if firstLine && rawLine != [] && rawLine[0] == BOM then rawLine[1..] else rawLine;
      firstLine := false;
      outputs := [];
      if line == [] {
        outputs := DispatchEvent();
        return;
      }
      if line[0] == COLON { return; }
      var separator := IndexOfColon(line);
      var field := line[..separator];
      var value := if separator == |line| then [] else line[separator + 1..];
      if value != [] && value[0] == SPACE { value := value[1..]; }
      assert FieldOf(line) == Field(field, value);
      if field == FIELD_DATA {
        data := data + [value];
      } else if field == FIELD_EVENT {
        eventName := value;
      } else if field == FIELD_ID && 0 !in value {
        lastEventId := Some(value);
      } else if field == FIELD_RETRY && AllDigits(value) {
        retry := Some(DigitsValue(value));
        outputs := [Retry(DigitsValue(value))];
      }
    }
  }

  /** The consumer's array of events and the values passed to its retry callback. */
  class Consumer {
    const accepted: set<Text>
    const limit: Limit
    var events: seq<Event>
    var retries: seq<nat>

    ghost function View(): Received
      reads this
    {
      Received(events, retries)
    }

    constructor (accepted: set<Text>, limit: Limit)
      ensures this.accepted == accepted && this.limit == limit && View() == Received([], []) && events == []
    {
      this.accepted, this.limit := accepted, limit;
      events, retries := [], [];
    }

    method Result() returns (r: Received)
      ensures r == View()
    {
      r := Received(events, retries);
    }

    method Take(outputs: seq<Output>, ghost before: seq<Output>)
      requires |outputs| <= 1 && View() == Receive(before, accepted, limit) && !Reached(limit, |events|)
      modifies this
      ensures View() == Receive(before + outputs, accepted, limit)
    {
      if outputs == [] {
        assert before + outputs == before;
        return;
      }
      assert outputs == [outputs[0]] && Init(before + outputs) == before;
      match outputs[0]
      case Retry(ms) => retries := retries + [ms];
      case Deliver(e) => if Passes(accepted, e) { events := events + [e]; }
    }
  }

  lemma TakeOneMore(id: Option<Text>, taken: seq<Text>, line: Text)
    ensures var before, step := TakeLines(Start(id), taken), TakeLines(Start(id), taken + [line]);
            step == Step(TakeLine(before.state, line).state, before.outputs + TakeLine(before.state, line).outputs)
  {
    hide TakeLine;
    assert Init(taken + [line]) == taken;
  }

  /** A full consumer has received what it would receive from all the lines. */
  lemma FullIsFinal(id: Option<Text>, taken: seq<Text>, more: seq<Text>, rest: seq<Output>, accepted: set<Text>, limit: Limit)
    requires Reached(limit, |Receive(TakeLines(Start(id), taken).outputs, accepted, limit).events|)
    ensures Receive(TakeLines(Start(id), taken + more).outputs + rest, accepted, limit)
         == Receive(TakeLines(Start(id), taken).outputs, accepted, limit)
  {
    hide TakeLine, Receive, TakeLines;
    TakeLinesConcat(Start(id), taken, more);
    var a := TakeLines(Start(id), taken);
    var b := TakeLines(a.state, more).outputs;
    assert (a.outputs + b) + rest == a.outputs + (b + rest);
    ReceivePrefix(a.outputs, b + rest, accepted, limit);
  }

  lemma AtMostOneOutput(st: State, line: Text)
    ensures |TakeLine(st, line).outputs| <= 1
  {
  }

  /** The loop over the lines of one chunk; it is left early when the consumer is full. */
  method ReadLines(parser: Parser, consumer: Consumer, lines: seq<Text>, ghost id: Option<Text>, ghost taken: seq<Text>)
    returns (full: bool)
    requires parser.View() == TakeLines(Start(id), taken).state && !Reached(consumer.limit, |consumer.events|)
    requires consumer.View() == Receive(TakeLines(Start(id), taken).outputs, consumer.accepted, consumer.limit)
    modifies parser, consumer
    ensures full == Reached(consumer.limit, |consumer.events|)
    ensures consumer.View() == Receive(TakeLines(Start(id), taken + lines).outputs, consumer.accepted, consumer.limit)
    ensures !full ==> parser.View() == TakeLines(Start(id), taken + lines).state
  {
    hide TakeLine, Receive, TakeLines;
    assert taken + lines[..0] == taken;
    for k := 0 to |lines|
      invariant parser.View() == TakeLines(Start(id), taken + lines[..k]).state
      invariant consumer.View() == Receive(TakeLines(Start(id), taken + lines[..k]).outputs, consumer.accepted, consumer.limit)
      invariant !Reached(consumer.limit, |consumer.events|)
    {
      ghost var now := taken + lines[..k];
      TakeOneMore(id, now, lines[k]);
      assert now + [lines[k]] == taken + lines[..k + 1];
      AtMostOneOutput(parser.View(), lines[k]);
      var outputs := parser.ReadLine(lines[k]);
      consumer.Take(outputs, TakeLines(Start(id), now).outputs);
      if consumer.limit.Some? && |consumer.events| >= consumer.limit.value {
        FullIsFinal(id, taken + lines[..k + 1], lines[k + 1..], [], consumer.accepted, consumer.limit);
        assert taken + lines[..k + 1] + lines[k + 1..] == taken + lines;
        assert TakeLines(Start(id), taken + lines).outputs + [] == TakeLines(Start(id), taken + lines).outputs;
        return true;
      }
    }
    assert lines[..|lines|] == lines;
    full := false;
  }

  /** The lines of a longer stream start with the complete lines of a shorter one. */
  lemma LinesSoFar(pieces: seq<Text>, i: nat)
    requires i < |pieces|
    ensures var a := SplitLines(JoinAll(pieces[..i]));
            SplitLines(JoinAll(pieces[..i + 1])) == Init(a) + SplitLines(Last(a) + pieces[i])
  {
    hide SplitLines;
    assert Init(pieces[..i + 1]) == pieces[..i];
    SplitJoin(JoinAll(pieces[..i]), pieces[i]);
  }

  lemma {:induction false} LinesArePrefix(pieces: seq<Text>, i: nat)
    requires i <= |pieces|
    ensures Init(SplitLines(JoinAll(pieces[..i]))) <= SplitLines(JoinAll(pieces))
    decreases |pieces| - i
  {
    hide SplitLines, JoinAll;
    assert pieces[..|pieces|] == pieces;
    if i < |pieces| {
      LinesSoFar(pieces, i);
      var a := SplitLines(JoinAll(pieces[..i]));
      assert Init(a) <= Init(Init(a) + SplitLines(Last(a) + pieces[i]));
      LinesArePrefix(pieces, i + 1);
    }
  }

  lemma NothingYet(id: Option<Text>, pieces: seq<Text>, accepted: set<Text>, limit: Limit)
    ensures Last(SplitLines(JoinAll(pieces[..0]))) == [] && Init(SplitLines(JoinAll(pieces[..0]))) == []
    ensures TakeLines(Start(id), []) == Step(Start(id), []) && Receive([], accepted, limit) == Received([], [])
  {
  }

  /** The lines of the next chunk continue the lines taken so far. */
  lemma NextChunk(pieces: seq<Text>, i: nat)
    requires i < |pieces|
    ensures var a, b := SplitLines(JoinAll(pieces[..i])), SplitLines(JoinAll(pieces[..i + 1]));
            var lines := SplitLines(Last(a) + pieces[i]);
            b == Init(a) + lines && Init(b) == Init(a) + Init(lines) && Last(b) == Last(lines)
  {
    hide SplitLines, JoinAll;
    LinesSoFar(pieces, i);
    var a := SplitLines(JoinAll(pieces[..i]));
    var lines := SplitLines(Last(a) + pieces[i]);
    assert Init(Init(a) + lines) == Init(a) + Init(lines);
  }

  /** What a consumer that is full received is what the whole stream would give it. */
  lemma FullReceives(id: Option<Text>, pieces: seq<Text>, taken: seq<Text>, accepted: set<Text>, limit: Limit)
    requires taken <= SplitLines(JoinAll(pieces))
    requires Reached(limit, |Receive(TakeLines(Start(id), taken).outputs, accepted, limit).events|)
    ensures Receive(TakeLines(Start(id), taken).outputs, accepted, limit) == Receive(Read(id, JoinAll(pieces)), accepted, limit)
  {
    hide SplitLines, JoinAll, Receive, TakeLines, Reached, Dispatch;
    var all := SplitLines(JoinAll(pieces));
    assert taken + all[|taken|..] == all;
    FullIsFinal(id, taken, all[|taken|..], Dispatch(TakeLines(Start(id), all).state).outputs, accepted, limit);
  }

  /** consumeSseResponse on an event stream: what it receives are the first accepted events of the joined text. */
  method ConsumeResponse(chunks: seq<Text>, flush: Text, id: Option<Text>, accepted: set<Text>, limit: Limit)
    returns (received: Received)
    requires !Reached(limit, 0)
    ensures received == Receive(Read(id, JoinAll(chunks + [flush])), accepted, limit)
  {
    hide *;
    var parser := new Parser(id);
    var consumer := new Consumer(accepted, limit);
    var buffer: Text := [];
    ghost var pieces := chunks + [flush];
    ghost var taken: seq<Text> := [];
    NothingYet(id, pieces, accepted, limit);
    for i := 0 to |chunks|
      invariant fresh(parser) && fresh(consumer) && consumer.accepted == accepted && consumer.limit == limit
      invariant taken == Init(SplitLines(JoinAll(pieces[..i]))) && buffer == Last(SplitLines(JoinAll(pieces[..i])))
      invariant parser.View() == TakeLines(Start(id), taken).state
      invariant consumer.View() == Receive(TakeLines(Start(id), taken).outputs, accepted, limit)
      invariant !Reached(limit, |consumer.events|)
    {
      NextChunk(pieces, i);
      var lines := SplitLines(buffer + chunks[i]);
      var full := ReadLines(parser, consumer, Init(lines), id, taken);
      taken := taken + Init(lines);
      buffer := Last(lines);
      if full {
        LinesArePrefix(pieces, i + 1);
        received := consumer.Result();
        ViewLength(consumer);
        FullReceives(id, pieces, taken, accepted, limit);
        return;
      }
    }
    NextChunk(pieces, |chunks|);
    assert pieces[..|chunks| + 1] == pieces;
    var lines := SplitLines(buffer + flush);
    var full := ReadLines(parser, consumer, lines, id, taken);
    taken := taken + lines;
    if !full {
      var outputs := parser.DispatchEvent();
      AtMostOneDispatched(TakeLines(Start(id), taken).state);
      consumer.Take(outputs, TakeLines(Start(id), taken).outputs);
      received := consumer.Result();
      ReadUnfolds(id, JoinAll(pieces));
      return;
    }
    received := consumer.Result();
    ViewLength(consumer);
    FullReceives(id, pieces, taken, accepted, limit);
  }

  lemma ViewLength(consumer: Consumer)
    ensures consumer.View().events == consumer.events
  {
  }

  lemma ReadUnfolds(id: Option<Text>, text: Text)
    ensures var step := TakeLines(Start(id), SplitLines(text)); Read(id, text) == step.outputs + Dispatch(step.state).outputs
  {
  }

  lemma AtMostOneDispatched(st: State)
    ensures |Dispatch(st).outputs| <= 1
  {
  }

  // ---------------------------------------------------------------- the reconnect loop

  /** What the server answers to one connection attempt. */
  datatype Connection = NotOk | NotEventStream | NoBody | Stream(chunks: seq<Text>, flush: Text)

  datatype Options = Options(accepted: set<Text>, maxEvents: Option<int>, retryMs: int, reconnect: bool)

  /** Going: waiting to connect again. Closed and Refused return the events, Thrown does not. */
  datatype Ending = Going | Closed | Refused | Thrown

  datatype Log = Log(events: seq<Event>, retries: seq<nat>, opens: seq<Option<Text>>, waits: seq<nat>,
                     lastId: Option<Text>, retryMs: nat, ending: Ending)

  function LimitOf(o: Options): Limit {
    if o.maxEvents.Some? && o.maxEvents.value > 0 then Some(o.maxEvents.value) else None
  }

  function Remaining(limit: Limit, n: nat): Limit
    requires !Reached(limit, n)
  {
    if limit.Some? then Some(limit.value - n) else None
  }

  /** The id of the last event that has one. */
  function FindId(events: seq<Event>, otherwise: Option<Text>): Option<Text> {
    if events == [] then otherwise
    else if Last(events).id.Some? then Last(events).id
    else FindId(Init(events), otherwise)
  }

  function InitialRetry(o: Options): nat {
    if o.retryMs > 0 then o.retryMs else 0
  }

  function TextOf(c: Connection): Text
    requires c.Stream?
  {
    JoinAll(c.chunks + [c.flush])
  }

  /** One turn of the loop. */
  function Connect(o: Options, log: Log, c: Connection): Log
    requires !Reached(LimitOf(o), |log.events|)
  {
    var now := log.(opens := log.opens + [log.lastId]);
    if c.NotOk? then now.(ending := Refused)
    else if !c.Stream? then now.(ending := Thrown)
    else
      var r := Receive(Read(log.lastId, TextOf(c)), o.accepted, Remaining(LimitOf(o), |log.events|));
      var next := now.(events := log.events + r.events, retries := log.retries + r.retries,
                       lastId := FindId(r.events, log.lastId),
                       retryMs := if r.retries == [] then log.retryMs else Last(r.retries));
      if !o.reconnect || Reached(LimitOf(o), |next.events|) then next.(ending := Closed)
      else next.(waits := next.waits + [next.retryMs])
  }

  /** consumeSse against a server that answers the attempts one after the other. */
  function Run(o: Options, cs: seq<Connection>): (log: Log)
    ensures log.ending == Going ==> !Reached(LimitOf(o), |log.events|)
  {
    if cs == [] then Log([], [], [], [], None, InitialRetry(o), Going)
    else
      var before := Run(o, Init(cs));
      if before.ending != Going then before else Connect(o, before, Last(cs))
  }

  method ConsumeSse(o: Options, connections: seq<Connection>) returns (log: Log)
    ensures log == Run(o, connections)
  {
    hide Receive, Read, JoinAll, FindId;
    var events: seq<Event> := [];
    var retries: seq<nat> := [];
    var opens: seq<Option<Text>> := [];
    var waits: seq<nat> := [];
    var lastEventId: Option<Text> := None;
    var retryMs: nat := if o.retryMs > 0 then o.retryMs else 0;
    var maxEvents := LimitOf(o);
    for i := 0 to |connections|
      invariant Run(o, connections[..i]) == Log(events, retries, opens, waits, lastEventId, retryMs, Going)
    {
      var c := connections[i];
      assert Init(connections[..i + 1]) == connections[..i] && Last(connections[..i + 1]) == c;
      opens := opens + [lastEventId];
      if !c.Stream? {
        log := Log(events, retries, opens, waits, lastEventId, retryMs, if c.NotOk? then Refused else Thrown);
        EndedStays(o, connections, i + 1);
        return;
      }
      var received := ConsumeResponse(c.chunks, c.flush, lastEventId, o.accepted, Remaining(maxEvents, |events|));
      assert received == Receive(Read(lastEventId, TextOf(c)), o.accepted, Remaining(maxEvents, |events|));
      events, retries := events + received.events, retries + received.retries;
      lastEventId := FindId(received.events, lastEventId);
      if received.retries != [] { retryMs := Last(received.retries); }
      if !o.reconnect || Reached(maxEvents, |events|) {
        log := Log(events, retries, opens, waits, lastEventId, retryMs, Closed);
        EndedStays(o, connections, i + 1);
        return;
      }
      waits := waits + [retryMs];
    }
    assert connections[..|connections|] == connections;
    log := Log(events, retries, opens, waits, lastEventId, retryMs, Going);
  }

  lemma {:induction false} EndedStays(o: Options, cs: seq<Connection>, i: nat)
    requires i <= |cs| && Run(o, cs[..i]).ending != Going
    ensures Run(o, cs) == Run(o, cs[..i])
  {
    if i == |cs| {
      assert cs[..i] == cs;
    } else {
      assert Init(cs)[..i] == cs[..i];
      EndedStays(o, Init(cs), i);
    }
  }

  // ---------------------------------------------------------------- ids are sticky

  /** Once a stream has an id, every later event has one. */
  predicate Sticky(id: Option<Text>, outputs: seq<Output>) {
    && (forall i | 0 <= i < |outputs| && outputs[i].Deliver? :: id.Some? ==> outputs[i].event.id.Some?)
    && (forall i, j | 0 <= i < j < |outputs| && outputs[i].Deliver? && outputs[j].Deliver? ::
          outputs[i].event.id.Some? ==> outputs[j].event.id.Some?)
  }

  predicate AllBefore(outputs: seq<Output>, id: Option<Text>) {
    forall i | 0 <= i < |outputs| && outputs[i].Deliver? :: outputs[i].event.id.Some? ==> id.Some?
  }

  lemma {:induction false} LinesAreSticky(id: Option<Text>, lines: seq<Text>)
    ensures var step := TakeLines(Start(id), lines);
            Sticky(id, step.outputs) && AllBefore(step.outputs, step.state.id) && (id.Some? ==> step.state.id.Some?)
  {
    if lines != [] {
      LinesAreSticky(id, Init(lines));
      var before := TakeLines(Start(id), Init(lines));
      LineKeepsId(before.state, Last(lines));
      AtMostOneOutput(before.state, Last(lines));
      hide TakeLine;
    }
  }

  lemma LineKeepsId(st: State, line: Text)
    ensures var step := TakeLine(st, line);
            (st.id.Some? ==> step.state.id.Some?)
            && forall i | 0 <= i < |step.outputs| && step.outputs[i].Deliver? :: step.outputs[i].event.id == st.id == step.state.id
  {
  }

  lemma ReadIsSticky(id: Option<Text>, text: Text)
    ensures Sticky(id, Read(id, text))
  {
    hide TakeLines, SplitLines;
    LinesAreSticky(id, SplitLines(text));
  }

  predicate StickyEvents(id: Option<Text>, events: seq<Event>) {
    && (id.Some? ==> forall i | 0 <= i < |events| :: events[i].id.Some?)
    && (forall i, j | 0 <= i < j < |events| :: events[i].id.Some? ==> events[j].id.Some?)
  }

  lemma {:induction false} ReceivedAreSticky(id: Option<Text>, outputs: seq<Output>, accepted: set<Text>, limit: Limit)
    requires Sticky(id, outputs)
    ensures var r := Receive(outputs, accepted, limit).events;
            StickyEvents(id, r) && forall e | e in r :: Deliver(e) in outputs && Passes(accepted, e)
  {
    if outputs != [] {
      ReceivedAreSticky(id, Init(outputs), accepted, limit);
      var before := Receive(Init(outputs), accepted, limit).events;
      forall i | 0 <= i < |before| ensures Deliver(before[i]) in Init(outputs) { assert before[i] in before; }
    }
  }

  lemma {:induction false} FindIdIsLast(id: Option<Text>, events: seq<Event>)
    requires StickyEvents(id, events)
    ensures FindId(events, id) == if events == [] then id else Last(events).id
  {
    if events != [] && Last(events).id == None {
      FindIdIsLast(id, Init(events));
      assert Init(events) != [] ==> Last(Init(events)) == events[|events| - 2];
    }
  }

  /** The id of the last event delivered so far. */
  function LastDelivered(events: seq<Event>): Option<Text> {
    if events == [] then None else Last(events).id
  }

  // ---------------------------------------------------------------- what every run keeps

  /** At most the wanted number of events, each of a wanted type; the last id and the last retry are remembered. */
  predicate Safe(o: Options, log: Log) {
    && (LimitOf(o).Some? ==> |log.events| <= LimitOf(o).value)
    && (forall i | 0 <= i < |log.events| :: Passes(o.accepted, log.events[i]))
    && log.lastId == LastDelivered(log.events)
    && log.retryMs == (if log.retries == [] then InitialRetry(o) else Last(log.retries))
  }

  lemma ReceivedFromStream(id: Option<Text>, text: Text, accepted: set<Text>, limit: Limit)
    ensures var r := Receive(Read(id, text), accepted, limit).events;
            && (limit.Some? ==> |r| <= limit.value)
            && (forall i | 0 <= i < |r| :: Passes(accepted, r[i]))
            && FindId(r, id) == if r == [] then id else Last(r).id
  {
    ReadIsSticky(id, text);
    hide Read, Sticky, Receive, FindId;
    var outputs := Read(id, text);
    ReceivedAreSticky(id, outputs, accepted, limit);
    ReceivesFirst(outputs, accepted, limit);
    FindIdIsLast(id, Receive(outputs, accepted, limit).events);
  }

  lemma ConnectIsSafe(o: Options, log: Log, c: Connection)
    requires !Reached(LimitOf(o), |log.events|) && Safe(o, log)
    ensures Safe(o, Connect(o, log, c))
  {
    hide Read, TextOf, Receive, FindId, InitialRetry;
    if c.Stream? { ReceivedFromStream(log.lastId, TextOf(c), o.accepted, Remaining(LimitOf(o), |log.events|)); }
  }

  lemma {:induction false} RunIsSafe(o: Options, cs: seq<Connection>)
    ensures Safe(o, Run(o, cs))
  {
    hide Connect;
    if cs != [] {
      RunIsSafe(o, Init(cs));
      var before := Run(o, Init(cs));
      if before.ending == Going { ConnectIsSafe(o, before, Last(cs)); }
    }
  }

  lemma {:induction false} GoingOpenedAll(o: Options, cs: seq<Connection>)
    requires Run(o, cs).ending == Going
    ensures |Run(o, cs).opens| == |Run(o, cs).waits| == |cs|
  {
    if cs != [] { GoingOpenedAll(o, Init(cs)); }
  }

  /** Every attempt is handed the id of the last event delivered before it. */
  lemma {:induction false} OpenedWithLastId(o: Options, cs: seq<Connection>, k: nat)
    requires k < |Run(o, cs).opens|
    ensures k < |cs| && Run(o, cs).opens[k] == LastDelivered(Run(o, cs[..k]).events)
  {
    hide Read, TextOf, Receive, FindId, InitialRetry, Passes, LastDelivered;
    if cs != [] {
      var before := Run(o, Init(cs));
      if k < |before.opens| {
        OpenedWithLastId(o, Init(cs), k);
        assert Init(cs)[..k] == cs[..k];
      } else {
        GoingOpenedAll(o, Init(cs));
        RunIsSafe(o, Init(cs));
        assert Init(cs) == cs[..k];
      }
    }
  }

  /** Every wait before an attempt lasts as long as the last retry field seen before it says. */
  lemma {:induction false} WaitedAsTold(o: Options, cs: seq<Connection>, k: nat)
    requires k < |Run(o, cs).waits|
    ensures k < |cs|
    ensures var seen := Run(o, cs[..k + 1]).retries; Run(o, cs).waits[k] == if seen == [] then InitialRetry(o) else Last(seen)
  {
    hide Read, TextOf, Receive, FindId, InitialRetry, Passes, LastDelivered;
    if cs != [] {
      var before := Run(o, Init(cs));
      if k < |before.waits| {
        WaitedAsTold(o, Init(cs), k);
        assert Init(cs)[..k + 1] == cs[..k + 1];
      } else {
        GoingOpenedAll(o, Init(cs));
        RunIsSafe(o, cs);
        assert cs == cs[..k + 1];
      }
    }
  }

  /** Everything the filter lets through, over all connections that were opened. */
  function Offered(o: Options, cs: seq<Connection>): seq<Event> {
    if cs == [] then []
    else
      var before := Run(o, Init(cs));
      if before.ending != Going || !Last(cs).Stream? then Offered(o, Init(cs))
      else Offered(o, Init(cs)) + Accepted(Read(before.lastId, TextOf(Last(cs))), o.accepted)
  }

  lemma TruncateAppend(limit: Limit, a: seq<Event>, b: seq<Event>)
    requires !Reached(limit, |a|)
    ensures a + Truncate(Remaining(limit, |a|), b) == Truncate(limit, a + b)
  {
  }

  /** No event is lost, repeated or reordered: the events are the first ones offered, up to the limit. */
  lemma {:induction false} RunIsComplete(o: Options, cs: seq<Connection>)
    ensures var log := Run(o, cs);
            log.events == Truncate(LimitOf(o), Offered(o, cs)) && (log.ending == Going ==> log.events == Offered(o, cs))
  {
    if cs != [] {
      var before, c := Run(o, Init(cs)), Last(cs);
      RunIsComplete(o, Init(cs));
      if before.ending == Going && c.Stream? {
        var limit, outputs := Remaining(LimitOf(o), |before.events|), Read(before.lastId, TextOf(c));
        hide Read, TextOf;
        ReceivesFirst(outputs, o.accepted, limit);
        TruncateAppend(LimitOf(o), before.events, Accepted(outputs, o.accepted));
      }
    }
  }
}
