/** The lifecycle events of one execution, for any behaviour of the hooks and the transport. */
module Lifecycle {
  import opened Groups
  import opened Wrappers

  datatype Hook = OnRequest | OnResponse | OnTest

  /**
   * The events that are emitted under the id of an execution. The result of a hook is noted with its completion:
   * mocked tells whether it returned a mock response.
   */
  datatype Kind =
    | Started
    | RequestPrepared
    | HookStarted(hook: Hook, source: Id)
    | HookCompleted(hook: Hook, source: Id, mocked: bool)
    | RuntimeLog
    | TestCompleted
    | NestedStarted
    | NestedCompleted
    | PermissionRequested
    | RequestSent
    | StreamOpened
    | StreamEvent
    | ResponseReceived(mocked: bool)
    | Completed
    | Cancelled
    | Failed

  // ---------------------------------------------------------------- what the world does

  datatype HookEnd = Throws | Returns(mock: bool, cancelled: bool, aborted: bool, snapshotFails: bool)

  /** One hook invocation: what it reports, and how it ends. */
  datatype HookPlan = HookPlan(logs: nat, tests: nat, end: HookEnd)

  /** Everything that one execution meets: the workspace it reads and the outcome of every await. */
  datatype Plan = Plan(
    test: bool,                      // the mode
    resolved: bool,                  // workspace, entity, environment and secrets are found
    workspaceScript: Option<Id>, groups: seq<Group>, groupId: Option<Id>, entityScript: Option<Id>, testScript: Option<Id>,
    abortedAtStart: bool, sessionStarts: bool, requestBuilds: bool,
    onRequest: seq<HookPlan>, onResponse: seq<HookPlan>, onTest: seq<HookPlan>,
    abortedBeforeSend: bool, requestSnapshots: bool, cookiesStored: bool,
    stream: seq<bool>,               // server-sent events while sending: true for an opening
    responds: bool, sessionDisposes: bool,
    abortError: bool,                // the error that ended the attempt counts as an abort
    savesCompleted: bool, savesFailed: bool)   // whether saving the history succeeds after a completion, and after a failure

  const QUIET: HookPlan := HookPlan(0, 0, Returns(false, false, false, false))

  function PlanAt(plans: seq<HookPlan>, i: nat): HookPlan {
    if i < |plans| then plans[i] else QUIET
  }

  // ---------------------------------------------------------------- the sources of the hooks

  function One(source: Option<Id>): seq<Id> {
    if source.Some? then [source.value] else []
  }

  function Scripts(groups: seq<Group>): seq<Id> {
    if groups == [] then [] else Scripts(groups[..|groups| - 1]) + One(groups[|groups| - 1].script)
  }

  /** lifecycleSources: the workspace, the groups from root to leaf, the entity. */
  function Sources(p: Plan): seq<Id> {
    var lineage := LineageOf(p.groups, p.groupId);
    One(p.workspaceScript) + (if lineage.Chain? then Scripts(lineage.groups) else []) + One(p.entityScript)
  }

  function TestSources(p: Plan): seq<Id> {
    if p.testScript.Some? && p.testScript.value !in Sources(p) then Sources(p) + [p.testScript.value] else Sources(p)
  }

  predicate UsesRuntime(p: Plan) {
    Sources(p) != [] || (p.test && TestSources(p) != [])
  }

  // ---------------------------------------------------------------- what one execution emits

  /** The events of a part of an execution; failed when it threw, aborted when the signal had fired by then. */
  datatype Part = Part(kinds: seq<Kind>, failed: bool, aborted: bool, mocked: bool)

  function Repeat(k: Kind, n: nat): (r: seq<Kind>)
    ensures |r| == n && forall i | 0 <= i < n :: r[i] == k
  {
    if n == 0 then [] else Repeat(k, n - 1) + [k]
  }

  /** invokeHook */
  function InvokeHook(h: HookPlan, hook: Hook, source: Id): Part {
    if h.end.Throws? || h.end.snapshotFails then Part([HookStarted(hook, source)], true, false, false)
    else
      var mocked := h.end.mock && hook == OnRequest;
      var stopped := h.end.cancelled || h.end.aborted;
      Part([HookStarted(hook, source)] + Repeat(RuntimeLog, h.logs) + Repeat(TestCompleted, h.tests)
           + [HookCompleted(hook, source, mocked)],
           stopped, stopped, mocked)
  }

  /** The loop over the sources of one hook; it ends early when a hook throws or mocks the response. */
  function RunHooks(plans: seq<HookPlan>, hook: Hook, sources: seq<Id>, n: nat): Part
    requires n <= |sources|
  {
    if n == 0 then Part([], false, false, false)
    else
      var before := RunHooks(plans, hook, sources, n - 1);
      if before.failed || before.mocked then before
      else
        var part := InvokeHook(PlanAt(plans, n - 1), hook, sources[n - 1]);
        part.(kinds := before.kinds + part.kinds)
  }

  function StreamKinds(stream: seq<bool>): (r: seq<Kind>)
    ensures |r| == |stream| && forall i | 0 <= i < |stream| :: r[i] == if stream[i] then StreamOpened else StreamEvent
  {
    seq(|stream|, i requires 0 <= i < |stream| => if stream[i] then StreamOpened else StreamEvent)
  }

  /** From the prepared request to the response. */
  function Exchange(p: Plan): Part
  {
    var hooks := RunHooks(p.onRequest, OnRequest, Sources(p), |Sources(p)|);
    if hooks.failed then hooks
    else if p.abortedBeforeSend then hooks.(failed := true, aborted := true)
    else if !p.requestSnapshots then hooks.(failed := true)
    else if hooks.mocked then
      if p.cookiesStored then hooks.(kinds := hooks.kinds + [ResponseReceived(true)]) else hooks.(failed := true)
    else
      var sent := hooks.kinds + [RequestSent] + StreamKinds(p.stream);
      if p.responds then hooks.(kinds := sent + [ResponseReceived(false)]) else hooks.(kinds := sent, failed := true)
  }

  /** The hooks after the response. */
  function Aftermath(p: Plan): Part
  {
    var responses := RunHooks(p.onResponse, OnResponse, Sources(p), |Sources(p)|);
    if responses.failed || !p.test then responses
    else
      var tests := RunHooks(p.onTest, OnTest, TestSources(p), |TestSources(p)|);
      tests.(kinds := responses.kinds + tests.kinds)
  }

  /** The body of the try statement, up to the completion. */
  function Attempt(p: Plan): Part
  {
    if !p.resolved then Part([], true, false, false)
    else if p.abortedAtStart then Part([Started], true, true, false)
    else if LineageOf(p.groups, p.groupId).Looping? || (UsesRuntime(p) && !p.sessionStarts) || !p.requestBuilds then
      Part([Started], true, false, false)
    else
      var exchange := Exchange(p);
      var first := [Started, RequestPrepared] + exchange.kinds;
      if exchange.failed then exchange.(kinds := first)
      else
        var rest := Aftermath(p);
        Part(first + rest.kinds, rest.failed || (UsesRuntime(p) && !p.sessionDisposes), rest.aborted, exchange.mocked)
  }

  function Ending(p: Plan, a: Part): Kind {
    if a.aborted || p.abortError then Cancelled else Failed
  }

  /** executeInternal: what an execution within the depth limit emits itself. */
  function Emitted(p: Plan): seq<Kind> {
    var a := Attempt(p);
    if a.failed then a.kinds + [Ending(p, a)]
    else a.kinds + [Completed] + if p.savesCompleted then [] else [Ending(p, a)]
  }

  /** Whether executeInternal rejects instead of returning a result. */
  predicate Rejects(p: Plan) {
    !p.savesFailed && (Attempt(p).failed || !p.savesCompleted)
  }

  /** An execution that is too deep emits nothing, and rejects. */
  function Script(p: Plan, depth: nat, max: int): seq<Kind> {
    if depth > max then [] else Emitted(p)
  }

  predicate RejectsAt(p: Plan, depth: nat, max: int) {
    depth > max || Rejects(p)
  }

  // ---------------------------------------------------------------- the grammar

  datatype Stage =
    | Fresh
    | Begun
    | Hooks(hook: Hook, next: nat, open: bool, mocked: bool)   // next: the source whose turn it is
    | Sending
    | Ended
    | Stuck

  predicate IsFailure(k: Kind) {
    k.Cancelled? || k.Failed?
  }

  predicate IsTerminal(k: Kind) {
    k.Completed? || IsFailure(k)
  }

  function NextInHook(g: Stage, k: Kind, sources: seq<Id>): Stage
    requires g.Hooks? && g.open
  {
    match k
    case HookCompleted(hook, source, mocked) =>
      if hook == g.hook && g.next < |sources| && source == sources[g.next] && (mocked ==> hook == OnRequest)
      then Hooks(hook, g.next + 1, false, mocked) else Stuck
    case RuntimeLog => g
    case TestCompleted => g
    case NestedStarted => g
    case NestedCompleted => g
    case PermissionRequested => g
    case _ => Stuck
  }

  function NextBetween(g: Stage, k: Kind, sources: seq<Id>, tests: seq<Id>, test: bool): Stage
    requires g.Hooks? && !g.open
  {
    match k
    case HookStarted(hook, source) =>
      if hook == g.hook && !g.mocked && g.next < |ListOf(hook, sources, tests)| && source == ListOf(hook, sources, tests)[g.next]
      then g.(open := true)
      else if g.hook == OnResponse && hook == OnTest && test && g.next == |sources| && tests != [] && source == tests[0]
      then Hooks(OnTest, 0, true, false)
      else Stuck
    case RequestSent => if g.hook == OnRequest && !g.mocked && g.next == |sources| then Sending else Stuck
    case ResponseReceived(mocked) => if g.hook == OnRequest && g.mocked && mocked then Hooks(OnResponse, 0, false, false) else Stuck
    case Completed =>
      if (g.hook == OnResponse && g.next == |sources| && (!test || tests == [])) || (g.hook == OnTest && g.next == |tests|)
      then Ended else Stuck
    case _ => Stuck
  }

  function ListOf(hook: Hook, sources: seq<Id>, tests: seq<Id>): seq<Id> {
    if hook.OnTest? then tests else sources
  }

  /** The stage after one more event; an execution may fail in any stage. */
  function Next(g: Stage, k: Kind, sources: seq<Id>, tests: seq<Id>, test: bool): Stage {
    if g.Ended? || g.Stuck? then Stuck
    else if IsFailure(k) then Ended
    else
      match g
      case Fresh => if k.Started? then Begun else Stuck
      case Begun => if k.RequestPrepared? then Hooks(OnRequest, 0, false, false) else Stuck
      case Hooks(hook, _, open, _) =>
        if open then NextInHook(g, k, ListOf(hook, sources, tests)) else NextBetween(g, k, sources, tests, test)
      case Sending =>
        if k.StreamOpened? || k.StreamEvent? then Sending
        else if k == ResponseReceived(false) then Hooks(OnResponse, 0, false, false)
        else Stuck
      case _ => Stuck
  }

  function After(g: Stage, kinds: seq<Kind>, sources: seq<Id>, tests: seq<Id>, test: bool): Stage {
    if kinds == [] then g
    else Next(After(g, kinds[..|kinds| - 1], sources, tests, test), kinds[|kinds| - 1], sources, tests, test)
  }

  /**
   * Events that a host call of a hook emits under the id of its execution. Nothing waits for a host call: a script may end without it,
   * and a hook that times out leaves it behind.
   */
  predicate IsAside(k: Kind) {
    k.NestedStarted? || k.NestedCompleted? || k.PermissionRequested?
  }

  /** The events are those of one whole execution. */
  predicate Follows(kinds: seq<Kind>, sources: seq<Id>, tests: seq<Id>, test: bool) {
    After(Fresh, kinds, sources, tests, test) == Ended
  }

  // ---------------------------------------------------------------- every execution follows the grammar

  predicate IsAlive(g: Stage) {
    !g.Ended? && !g.Stuck?
  }

  lemma {:induction false} AfterConcat(g: Stage, a: seq<Kind>, b: seq<Kind>, sources: seq<Id>, tests: seq<Id>, test: bool)
    ensures After(g, a + b, sources, tests, test) == After(After(g, a, sources, tests, test), b, sources, tests, test)
  {
    hide Next;
    if b == [] {
      assert a + b == a;
    } else {
      assert (a + b)[..|a + b| - 1] == a + b[..|b| - 1];
      AfterConcat(g, a, b[..|b| - 1], sources, tests, test);
    }
  }

  lemma AfterOne(g: Stage, k: Kind, sources: seq<Id>, tests: seq<Id>, test: bool)
    ensures After(g, [k], sources, tests, test) == Next(g, k, sources, tests, test)
  {
    hide Next;
    assert [k][..0] == [];
    assert After(g, [], sources, tests, test) == g;
  }

  /** Events that a stage takes without leaving it. */
  lemma {:induction false} StaysIn(g: Stage, kinds: seq<Kind>, sources: seq<Id>, tests: seq<Id>, test: bool)
    requires forall i | 0 <= i < |kinds| :: Next(g, kinds[i], sources, tests, test) == g
    ensures After(g, kinds, sources, tests, test) == g
  {
    hide Next;
    if kinds != [] { StaysIn(g, kinds[..|kinds| - 1], sources, tests, test); }
  }

  /** Inside a hook, logs and test results leave the stage as it is. */
  lemma InsideHook(g: Stage, kinds: seq<Kind>, sources: seq<Id>, tests: seq<Id>, test: bool)
    requires g.Hooks? && g.open
    requires forall i | 0 <= i < |kinds| :: kinds[i] in {RuntimeLog, TestCompleted}
    ensures After(g, kinds, sources, tests, test) == g
  {
    forall i | 0 <= i < |kinds| ensures Next(g, kinds[i], sources, tests, test) == g {}
    StaysIn(g, kinds, sources, tests, test);
  }

  /** What happens between the start and the completion of a hook. */
  function HookBody(h: HookPlan): (r: seq<Kind>)
    ensures forall i | 0 <= i < |r| :: r[i] in {RuntimeLog, TestCompleted}
  {
    if h.end.Throws? || h.end.snapshotFails then []
    else Repeat(RuntimeLog, h.logs) + Repeat(TestCompleted, h.tests)
  }

  lemma InvocationShape(h: HookPlan, hook: Hook, source: Id)
    ensures var part := InvokeHook(h, hook, source);
            part.kinds == [HookStarted(hook, source)] + HookBody(h)
                        + (if h.end.Throws? || h.end.snapshotFails then [] else [HookCompleted(hook, source, part.mocked)])
            && (part.mocked ==> hook == OnRequest)
            && (h.end.Throws? || h.end.snapshotFails ==> part.failed)
  {
    hide Repeat;
    assert [HookStarted(hook, source)] + Repeat(RuntimeLog, h.logs) + Repeat(TestCompleted, h.tests)
        == [HookStarted(hook, source)] + (Repeat(RuntimeLog, h.logs) + Repeat(TestCompleted, h.tests));
    assert [HookStarted(hook, source)] + [] + [] == [HookStarted(hook, source)];
  }

  /** One invocation takes its stage to the next source, or fails inside the hook or right after it. */
  lemma HookFollows(h: HookPlan, hook: Hook, next: nat, sources: seq<Id>, tests: seq<Id>, test: bool)
    requires next < |ListOf(hook, sources, tests)|
    ensures var part := InvokeHook(h, hook, ListOf(hook, sources, tests)[next]);
            var g := After(Hooks(hook, next, false, false), part.kinds, sources, tests, test);
            && part.kinds != [] && part.kinds[0] == HookStarted(hook, ListOf(hook, sources, tests)[next])
            && IsAlive(g)
            && (!part.failed ==> g == Hooks(hook, next + 1, false, part.mocked))
            && (part.mocked ==> hook == OnRequest)
  {
    hide InvokeHook, HookBody, Next, After, ListOf;
    var source := ListOf(hook, sources, tests)[next];
    var part := InvokeHook(h, hook, source);
    var first, body, last := HookStarted(hook, source), HookBody(h), HookCompleted(hook, source, part.mocked);
    var a, b := Hooks(hook, next, false, false), Hooks(hook, next, true, false);
    InvocationShape(h, hook, source);
    HookTurns(hook, next, part.mocked, sources, tests, test);
    InsideHook(b, body, sources, tests, test);
    AfterOne(a, first, sources, tests, test);
    AfterConcat(a, [first], body, sources, tests, test);
    AfterConcat(a, [first] + body, [last], sources, tests, test);
    AfterOne(b, last, sources, tests, test);
    assert [first] + body + [] == [first] + body;
  }

  /** The start of a hook opens its stage, and its completion leads to the next source. */
  lemma HookTurns(hook: Hook, next: nat, mocked: bool, sources: seq<Id>, tests: seq<Id>, test: bool)
    requires next < |ListOf(hook, sources, tests)| && (mocked ==> hook == OnRequest)
    ensures var a, b, source := Hooks(hook, next, false, false), Hooks(hook, next, true, false), ListOf(hook, sources, tests)[next];
            && Next(a, HookStarted(hook, source), sources, tests, test) == b
            && Next(b, HookCompleted(hook, source, mocked), sources, tests, test) == Hooks(hook, next + 1, false, mocked)
  {
  }

  /** The loop over the sources takes the stage of its hook from the first source to the last. */
  lemma {:induction false} HooksFollow(plans: seq<HookPlan>, hook: Hook, n: nat,
                                       sources: seq<Id>, tests: seq<Id>, test: bool)
    requires n <= |ListOf(hook, sources, tests)|
    ensures var part := RunHooks(plans, hook, ListOf(hook, sources, tests), n);
            var g := After(Hooks(hook, 0, false, false), part.kinds, sources, tests, test);
            && IsAlive(g)
            && (!part.failed ==> g.Hooks? && g.hook == hook && !g.open && g.mocked == part.mocked && (!part.mocked ==> g.next == n))
            && (part.mocked ==> hook == OnRequest)
            && (n == 0 ==> part.kinds == [])
            && (n > 0 ==> part.kinds != [] && part.kinds[0] == HookStarted(hook, ListOf(hook, sources, tests)[0]))
    decreases n
  {
    hide InvokeHook, Next, PlanAt, ListOf;
    if n > 0 {
      var list := ListOf(hook, sources, tests);
      HooksFollow(plans, hook, n - 1, sources, tests, test);
      var before := RunHooks(plans, hook, list, n - 1);
      if !before.failed && !before.mocked {
        HookFollows(PlanAt(plans, n - 1), hook, n - 1, sources, tests, test);
        var part := InvokeHook(PlanAt(plans, n - 1), hook, list[n - 1]);
        AfterConcat(Hooks(hook, 0, false, false), before.kinds, part.kinds, sources, tests, test);
      }
    }
  }

  lemma ExchangeFollows(p: Plan)
    ensures var part := Exchange(p);
            var g := After(Hooks(OnRequest, 0, false, false), part.kinds, Sources(p), TestSources(p), p.test);
            IsAlive(g) && (!part.failed ==> g == Hooks(OnResponse, 0, false, false))
  {
    hide RunHooks, Sources, TestSources, StreamKinds, After;
    var S, T, t := Sources(p), TestSources(p), p.test;
    var hooks, stream := RunHooks(p.onRequest, OnRequest, S, |S|), StreamKinds(p.stream);
    HooksFollow(p.onRequest, OnRequest, |S|, S, T, t);
    if !hooks.failed && hooks.mocked {
      MockFollows(hooks.kinds, S, T, t);
    } else if !hooks.failed {
      SendFollows(hooks.kinds, stream, S, T, t);
    }
  }

  lemma MockFollows(kinds: seq<Kind>, sources: seq<Id>, tests: seq<Id>, test: bool)
    requires var g := After(Hooks(OnRequest, 0, false, false), kinds, sources, tests, test);
             g.Hooks? && g.hook == OnRequest && !g.open && g.mocked
    ensures After(Hooks(OnRequest, 0, false, false), kinds + [ResponseReceived(true)], sources, tests, test)
         == Hooks(OnResponse, 0, false, false)
  {
    hide After;
    AfterConcat(Hooks(OnRequest, 0, false, false), kinds, [ResponseReceived(true)], sources, tests, test);
    AfterOne(After(Hooks(OnRequest, 0, false, false), kinds, sources, tests, test), ResponseReceived(true), sources, tests, test);
  }

  lemma SendFollows(kinds: seq<Kind>, stream: seq<Kind>, sources: seq<Id>, tests: seq<Id>, test: bool)
    requires After(Hooks(OnRequest, 0, false, false), kinds, sources, tests, test) == Hooks(OnRequest, |sources|, false, false)
    requires forall i | 0 <= i < |stream| :: stream[i].StreamOpened? || stream[i].StreamEvent?
    ensures var start := Hooks(OnRequest, 0, false, false);
            After(start, kinds + [RequestSent] + stream, sources, tests, test) == Sending
            && After(start, kinds + [RequestSent] + stream + [ResponseReceived(false)], sources, tests, test)
            == Hooks(OnResponse, 0, false, false)
  {
    var start, g := Hooks(OnRequest, 0, false, false), Hooks(OnRequest, |sources|, false, false);
    StaysIn(Sending, stream, sources, tests, test);
    assert Next(g, RequestSent, sources, tests, test) == Sending;
    assert Next(Sending, ResponseReceived(false), sources, tests, test) == Hooks(OnResponse, 0, false, false);
    hide Next, After;
    AfterOne(g, RequestSent, sources, tests, test);
    AfterOne(Sending, ResponseReceived(false), sources, tests, test);
    AfterConcat(start, kinds, [RequestSent], sources, tests, test);
    AfterConcat(start, kinds + [RequestSent], stream, sources, tests, test);
    AfterConcat(start, kinds + [RequestSent] + stream, [ResponseReceived(false)], sources, tests, test);
  }

  /** Between the last response hook and the first test hook both stages take the same events. */
  lemma TestsBegin(kinds: seq<Kind>, sources: seq<Id>, tests: seq<Id>)
    requires kinds != [] && tests != [] && kinds[0] == HookStarted(OnTest, tests[0])
    ensures After(Hooks(OnResponse, |sources|, false, false), kinds, sources, tests, true)
         == After(Hooks(OnTest, 0, false, false), kinds, sources, tests, true)
  {
    var a, b := Hooks(OnResponse, |sources|, false, false), Hooks(OnTest, 0, false, false);
    assert Next(a, kinds[0], sources, tests, true) == Next(b, kinds[0], sources, tests, true);
    hide Next;
    assert kinds == [kinds[0]] + kinds[1..];
    AfterOne(a, kinds[0], sources, tests, true);
    AfterOne(b, kinds[0], sources, tests, true);
    AfterConcat(a, [kinds[0]], kinds[1..], sources, tests, true);
    AfterConcat(b, [kinds[0]], kinds[1..], sources, tests, true);
  }

  lemma AftermathFollows(p: Plan)
    ensures var part := Aftermath(p);
            var g := After(Hooks(OnResponse, 0, false, false), part.kinds, Sources(p), TestSources(p), p.test);
            IsAlive(g) && (!part.failed ==> Next(g, Completed, Sources(p), TestSources(p), p.test) == Ended)
  {
    var S, T := Sources(p), TestSources(p);
    var start := Hooks(OnResponse, 0, false, false);
    var responses := RunHooks(p.onResponse, OnResponse, S, |S|);
    var tests := RunHooks(p.onTest, OnTest, T, |T|);
    MayComplete(S, T, p.test);
    hide RunHooks, Sources, TestSources, After, Next;
    HooksFollow(p.onResponse, OnResponse, |S|, S, T, p.test);
    if !responses.failed && p.test {
      HooksFollow(p.onTest, OnTest, |T|, S, T, true);
      AfterConcat(start, responses.kinds, tests.kinds, S, T, true);
      if |T| > 0 {
        TestsBegin(tests.kinds, S, T);
      } else {
        assert responses.kinds + tests.kinds == responses.kinds;
      }
    }
  }

  lemma MayComplete(sources: seq<Id>, tests: seq<Id>, test: bool)
    ensures !test || tests == [] ==> Next(Hooks(OnResponse, |sources|, false, false), Completed, sources, tests, test) == Ended
    ensures Next(Hooks(OnTest, |tests|, false, false), Completed, sources, tests, test) == Ended
  {
  }

  lemma PreparedThen(kinds: seq<Kind>, sources: seq<Id>, tests: seq<Id>, test: bool)
    ensures After(Fresh, [Started, RequestPrepared] + kinds, sources, tests, test)
         == After(Hooks(OnRequest, 0, false, false), kinds, sources, tests, test)
    ensures After(Fresh, [], sources, tests, test) == Fresh && After(Fresh, [Started], sources, tests, test) == Begun
  {
    assert After(Fresh, [], sources, tests, test) == Fresh;
    hide After;
    AfterOne(Fresh, Started, sources, tests, test);
    AfterOne(Begun, RequestPrepared, sources, tests, test);
    AfterConcat(Fresh, [Started], [RequestPrepared], sources, tests, test);
    assert [Started] + [RequestPrepared] == [Started, RequestPrepared];
    AfterConcat(Fresh, [Started, RequestPrepared], kinds, sources, tests, test);
  }

  /** The attempt never leaves the grammar; when it succeeds it may be completed. */
  lemma AttemptFollows(p: Plan)
    ensures var a := Attempt(p);
            var g := After(Fresh, a.kinds, Sources(p), TestSources(p), p.test);
            IsAlive(g) && (!a.failed ==> Next(g, Completed, Sources(p), TestSources(p), p.test) == Ended)
  {
    var S, T, t := Sources(p), TestSources(p), p.test;
    hide Exchange, Aftermath, Sources, TestSources, After, Next, LineageOf, UsesRuntime;
    var exchange, rest := Exchange(p), Aftermath(p);
    ExchangeFollows(p);
    PreparedThen(exchange.kinds, S, T, t);
    if !exchange.failed {
      AftermathFollows(p);
      AfterConcat(Hooks(OnRequest, 0, false, false), exchange.kinds, rest.kinds, S, T, t);
      PreparedThen(exchange.kinds + rest.kinds, S, T, t);
      assert [Started, RequestPrepared] + exchange.kinds + rest.kinds == [Started, RequestPrepared] + (exchange.kinds + rest.kinds);
    }
  }

  /**
   * An execution within the depth limit emits the events of one whole execution, if and only if it does not
   * complete and then fail to save its history.
   */
  lemma EmittedFollowsExactly(p: Plan)
    ensures Follows(Emitted(p), Sources(p), TestSources(p), p.test)
       <==> (Completed in Emitted(p) ==> p.savesCompleted)
  {
    var S, T, t := Sources(p), TestSources(p), p.test;
    var a := Attempt(p);
    assert IsFailure(Ending(p, a)) && Ending(p, a) != Completed;
    hide Attempt, Sources, TestSources, After, Next, Ending, Follows;
    AttemptFollows(p);
    AliveHasNoTerminal(a.kinds, S, T, t);
    if a.failed {
      FailedEnds(a.kinds, Ending(p, a), S, T, t);
    } else {
      CompletedEnds(a.kinds, Ending(p, a), S, T, t);
      assert a.kinds + [Completed] + [] == a.kinds + [Completed];
      assert Completed in a.kinds + [Completed] && Completed in a.kinds + [Completed] + [Ending(p, a)];
    }
  }

  lemma FailedEnds(kinds: seq<Kind>, end: Kind, sources: seq<Id>, tests: seq<Id>, test: bool)
    requires IsAlive(After(Fresh, kinds, sources, tests, test)) && IsFailure(end)
    ensures Follows(kinds + [end], sources, tests, test)
  {
    hide After;
    AfterConcat(Fresh, kinds, [end], sources, tests, test);
    AfterOne(After(Fresh, kinds, sources, tests, test), end, sources, tests, test);
  }

  lemma CompletedEnds(kinds: seq<Kind>, end: Kind, sources: seq<Id>, tests: seq<Id>, test: bool)
    requires Next(After(Fresh, kinds, sources, tests, test), Completed, sources, tests, test) == Ended
    ensures Follows(kinds + [Completed], sources, tests, test) && !Follows(kinds + [Completed] + [end], sources, tests, test)
  {
    assert Next(Ended, end, sources, tests, test) == Stuck;
    hide After, Next;
    AfterConcat(Fresh, kinds, [Completed], sources, tests, test);
    AfterOne(After(Fresh, kinds, sources, tests, test), Completed, sources, tests, test);
    AfterConcat(Fresh, kinds + [Completed], [end], sources, tests, test);
    AfterOne(Ended, end, sources, tests, test);
  }

  /** As long as an execution is not over no terminal event was emitted. */
  lemma {:induction false} AliveHasNoTerminal(kinds: seq<Kind>, sources: seq<Id>, tests: seq<Id>, test: bool)
    requires IsAlive(After(Fresh, kinds, sources, tests, test))
    ensures forall i | 0 <= i < |kinds| :: !IsTerminal(kinds[i])
  {
    if kinds != [] {
      AliveHasNoTerminal(kinds[..|kinds| - 1], sources, tests, test);
      forall i | 0 <= i < |kinds| ensures !IsTerminal(kinds[i]) {
        assert i < |kinds| - 1 ==> kinds[i] == kinds[..|kinds| - 1][i];
      }
    }
  }

  // ---------------------------------------------------------------- what the grammar says

  function Responses(kinds: seq<Kind>): nat {
    if kinds == [] then 0 else Responses(kinds[..|kinds| - 1]) + if kinds[|kinds| - 1].ResponseReceived? then 1 else 0
  }

  function Sends(kinds: seq<Kind>): nat {
    if kinds == [] then 0 else Sends(kinds[..|kinds| - 1]) + if kinds[|kinds| - 1].RequestSent? then 1 else 0
  }

  /** How many hooks returned a mock response. */
  function Mocks(kinds: seq<Kind>): nat {
    if kinds == [] then 0
    else Mocks(kinds[..|kinds| - 1]) + if kinds[|kinds| - 1].HookCompleted? && kinds[|kinds| - 1].mocked then 1 else 0
  }

  function Terminals(kinds: seq<Kind>): nat {
    if kinds == [] then 0 else Terminals(kinds[..|kinds| - 1]) + if IsTerminal(kinds[|kinds| - 1]) then 1 else 0
  }

  /** The sources whose hook was started, in order. */
  function StartedOf(kinds: seq<Kind>, hook: Hook): seq<Id> {
    if kinds == [] then []
    else
      var last := kinds[|kinds| - 1];
      StartedOf(kinds[..|kinds| - 1], hook) + if last.HookStarted? && last.hook == hook then [last.source] else []
  }

  /** What every beginning of an execution satisfies. */
  predicate InOrder(kinds: seq<Kind>, sources: seq<Id>, tests: seq<Id>, test: bool) {
    // at most one response, and either sent for or mocked
    && Responses(kinds) <= 1 && Sends(kinds) + Mocks(kinds) <= 1 && Responses(kinds) <= Sends(kinds) + Mocks(kinds)
    // the hooks in the order of their sources; the request leaves only after all its hooks
    && StartedOf(kinds, OnRequest) <= sources && StartedOf(kinds, OnResponse) <= sources && StartedOf(kinds, OnTest) <= tests
    && (Sends(kinds) == 1 ==> StartedOf(kinds, OnRequest) == sources)
    // response hooks after the response, tests after the response hooks and only in test mode
    && (StartedOf(kinds, OnResponse) != [] || StartedOf(kinds, OnTest) != [] ==> Responses(kinds) == 1)
    && (StartedOf(kinds, OnTest) != [] ==> test && StartedOf(kinds, OnResponse) == sources)
    // nothing after a terminal event, and all hooks before a completion
    && Terminals(kinds) <= 1 && (Terminals(kinds) == 1 ==> IsTerminal(kinds[|kinds| - 1]))
    && (kinds != [] && kinds[|kinds| - 1].Completed? ==>
          Responses(kinds) == 1 && StartedOf(kinds, OnResponse) == sources && (test ==> StartedOf(kinds, OnTest) == tests))
  }

  function Opened(g: Stage): nat
    requires g.Hooks?
  {
    if g.open then g.next + 1 else g.next
  }

  /** What a stage knows about the events that led to it. */
  predicate Knows(g: Stage, kinds: seq<Kind>, sources: seq<Id>, tests: seq<Id>, test: bool) {
    InOrder(kinds, sources, tests, test) &&
    match g
    case Fresh => kinds == []
    case Begun => Counts(kinds, 0, 0, 0) && Lists(kinds, [], [], [])
    case Sending => Counts(kinds, 0, 1, 0) && Lists(kinds, sources, [], []) && Terminals(kinds) == 0
    case Hooks(OnRequest, next, open, mocked) =>
      Counts(kinds, 0, 0, if mocked then 1 else 0) && (open ==> !mocked) && Opened(g) <= |sources| && Lists(kinds, sources[..Opened(g)], [], [])
    case Hooks(OnResponse, next, open, mocked) =>
      Responses(kinds) == 1 && Terminals(kinds) == 0 && !mocked && Opened(g) <= |sources|
      && StartedOf(kinds, OnResponse) == sources[..Opened(g)] && StartedOf(kinds, OnTest) == []
    case Hooks(OnTest, next, open, mocked) =>
      Responses(kinds) == 1 && Terminals(kinds) == 0 && !mocked && Opened(g) <= |tests| && test
      && StartedOf(kinds, OnResponse) == sources && StartedOf(kinds, OnTest) == tests[..Opened(g)]
    case Ended => kinds != [] && Terminals(kinds) == 1
    case Stuck => true
  }

  predicate Counts(kinds: seq<Kind>, responses: nat, sends: nat, mocks: nat) {
    Responses(kinds) == responses && Sends(kinds) == sends && Mocks(kinds) == mocks && Terminals(kinds) == 0
  }

  predicate Lists(kinds: seq<Kind>, requests: seq<Id>, responses: seq<Id>, tests: seq<Id>) {
    StartedOf(kinds, OnRequest) == requests && StartedOf(kinds, OnResponse) == responses && StartedOf(kinds, OnTest) == tests
  }

  lemma Snoc(kinds: seq<Kind>, k: Kind)
    ensures var r := kinds + [k];
            && Responses(r) == Responses(kinds) + (if k.ResponseReceived? then 1 else 0)
            && Sends(r) == Sends(kinds) + (if k.RequestSent? then 1 else 0)
            && Mocks(r) == Mocks(kinds) + (if k.HookCompleted? && k.mocked then 1 else 0)
            && Terminals(r) == Terminals(kinds) + (if IsTerminal(k) then 1 else 0)
            && forall hook :: StartedOf(r, hook) == StartedOf(kinds, hook) + (if k.HookStarted? && k.hook == hook then [k.source] else [])
  {
    assert (kinds + [k])[..|kinds|] == kinds;
  }

  lemma NextSource(list: seq<Id>, n: nat)
    requires n < |list|
    ensures list[..n + 1] == list[..n] + [list[n]] && list[..n + 1] <= list
  {
  }

  lemma KnowsInHook(g: Stage, kinds: seq<Kind>, k: Kind, sources: seq<Id>, tests: seq<Id>, test: bool)
    requires g.Hooks? && g.open && Knows(g, kinds, sources, tests, test) && !IsFailure(k)
    requires Next(g, k, sources, tests, test) != Stuck
    ensures Knows(Next(g, k, sources, tests, test), kinds + [k], sources, tests, test)
  {
    Snoc(kinds, k);
    hide Responses, Sends, Mocks, Terminals, StartedOf;
    assert StartedOf(kinds + [k], OnRequest) == StartedOf(kinds, OnRequest);
    assert StartedOf(kinds + [k], OnResponse) == StartedOf(kinds, OnResponse);
    assert StartedOf(kinds + [k], OnTest) == StartedOf(kinds, OnTest);
  }

  lemma KnowsBetween(g: Stage, kinds: seq<Kind>, k: Kind, sources: seq<Id>, tests: seq<Id>, test: bool)
    requires g.Hooks? && !g.open && Knows(g, kinds, sources, tests, test) && !IsFailure(k)
    requires Next(g, k, sources, tests, test) != Stuck
    ensures Knows(Next(g, k, sources, tests, test), kinds + [k], sources, tests, test)
  {
    hide Knows, Responses, Sends, Mocks, Terminals, StartedOf;
    if k.HookStarted? {
      KnowsHookStart(g, kinds, k, sources, tests, test);
    } else if k.Completed? {
      KnowsCompleted(g, kinds, sources, tests, test);
    } else {
      KnowsExchange(g, kinds, k, sources, tests, test);
    }
  }

  lemma KnowsCompleted(g: Stage, kinds: seq<Kind>, sources: seq<Id>, tests: seq<Id>, test: bool)
    requires g.Hooks? && !g.open && Knows(g, kinds, sources, tests, test)
    requires Next(g, Completed, sources, tests, test) != Stuck
    ensures Knows(Next(g, Completed, sources, tests, test), kinds + [Completed], sources, tests, test)
  {
    Snoc(kinds, Completed);
    assert sources[..|sources|] == sources && tests[..|tests|] == tests;
    hide Responses, Sends, Mocks, Terminals, StartedOf;
    assert forall hook :: StartedOf(kinds + [Completed], hook) == StartedOf(kinds, hook);
  }

  lemma KnowsExchange(g: Stage, kinds: seq<Kind>, k: Kind, sources: seq<Id>, tests: seq<Id>, test: bool)
    requires g.Hooks? && !g.open && Knows(g, kinds, sources, tests, test) && (k.RequestSent? || k.ResponseReceived?)
    requires Next(g, k, sources, tests, test) != Stuck
    ensures Knows(Next(g, k, sources, tests, test), kinds + [k], sources, tests, test)
  {
    Snoc(kinds, k);
    assert sources[..|sources|] == sources && sources[..0] == [];
    hide Responses, Sends, Mocks, Terminals, StartedOf;
    assert forall hook :: StartedOf(kinds + [k], hook) == StartedOf(kinds, hook);
  }

  lemma KnowsHookStart(g: Stage, kinds: seq<Kind>, k: Kind, sources: seq<Id>, tests: seq<Id>, test: bool)
    requires g.Hooks? && !g.open && Knows(g, kinds, sources, tests, test) && k.HookStarted?
    requires Next(g, k, sources, tests, test) != Stuck
    ensures Knows(Next(g, k, sources, tests, test), kinds + [k], sources, tests, test)
  {
    Snoc(kinds, k);
    var r := kinds + [k];
    var n := if g.hook == k.hook then g.next else 0;
    NextSource(ListOf(k.hook, sources, tests), n);
    assert sources[..|sources|] == sources && tests[..0] == [];
    hide Responses, Sends, Mocks, Terminals, StartedOf;
    assert k.hook != OnRequest ==> StartedOf(r, OnRequest) == StartedOf(kinds, OnRequest);
    assert k.hook != OnResponse ==> StartedOf(r, OnResponse) == StartedOf(kinds, OnResponse);
    assert k.hook != OnTest ==> StartedOf(r, OnTest) == StartedOf(kinds, OnTest);
    assert StartedOf(r, k.hook) == ListOf(k.hook, sources, tests)[..n + 1];
  }

  lemma KnowsElsewhere(g: Stage, kinds: seq<Kind>, k: Kind, sources: seq<Id>, tests: seq<Id>, test: bool)
    requires !g.Hooks? && !g.Stuck? && Knows(g, kinds, sources, tests, test) && !IsFailure(k)
    requires Next(g, k, sources, tests, test) != Stuck
    ensures Knows(Next(g, k, sources, tests, test), kinds + [k], sources, tests, test)
  {
    Snoc(kinds, k);
    assert sources[..0] == [] && tests[..0] == [];
  }

  lemma KnowsFailure(g: Stage, kinds: seq<Kind>, k: Kind, sources: seq<Id>, tests: seq<Id>, test: bool)
    requires IsAlive(g) && Knows(g, kinds, sources, tests, test) && IsFailure(k)
    ensures Knows(Ended, kinds + [k], sources, tests, test)
  {
    Snoc(kinds, k);
    assert Terminals([]) == 0;
    hide Sends, Mocks, Terminals, StartedOf, Responses;
    assert StartedOf(kinds + [k], OnRequest) == StartedOf(kinds, OnRequest);
    assert StartedOf(kinds + [k], OnResponse) == StartedOf(kinds, OnResponse);
    assert StartedOf(kinds + [k], OnTest) == StartedOf(kinds, OnTest);
  }

  lemma {:induction false} StageKnows(kinds: seq<Kind>, sources: seq<Id>, tests: seq<Id>, test: bool)
    requires After(Fresh, kinds, sources, tests, test) != Stuck
    ensures Knows(After(Fresh, kinds, sources, tests, test), kinds, sources, tests, test)
  {
    if kinds != [] {
      var init, k := kinds[..|kinds| - 1], kinds[|kinds| - 1];
      var g := After(Fresh, init, sources, tests, test);
      StageKnows(init, sources, tests, test);
      assert kinds == init + [k];
      if IsFailure(k) {
        KnowsFailure(g, init, k, sources, tests, test);
      } else if g.Hooks? {
        if g.open { KnowsInHook(g, init, k, sources, tests, test); } else { KnowsBetween(g, init, k, sources, tests, test); }
      } else {
        KnowsElsewhere(g, init, k, sources, tests, test);
      }
      hide Knows;
    }
  }

  lemma {:induction false} PrefixIsNotStuck(kinds: seq<Kind>, n: nat, sources: seq<Id>, tests: seq<Id>, test: bool)
    requires n <= |kinds| && After(Fresh, kinds, sources, tests, test) != Stuck
    ensures After(Fresh, kinds[..n], sources, tests, test) != Stuck
    decreases |kinds| - n
  {
    if n == |kinds| {
      assert kinds[..n] == kinds;
    } else {
      PrefixIsNotStuck(kinds, n + 1, sources, tests, test);
      assert kinds[..n + 1][..n] == kinds[..n];
    }
  }

  /** In an execution that follows the grammar every beginning is in order, and the last event alone is terminal. */
  lemma FollowsInOrder(kinds: seq<Kind>, sources: seq<Id>, tests: seq<Id>, test: bool)
    requires Follows(kinds, sources, tests, test)
    ensures forall n: nat :: n <= |kinds| ==> InOrder(kinds[..n], sources, tests, test)
    ensures Terminals(kinds) == 1 && IsTerminal(kinds[|kinds| - 1])
  {
    hide After, Terminals, Responses, Sends, Mocks, StartedOf;
    forall n: nat | n <= |kinds| ensures InOrder(kinds[..n], sources, tests, test) {
      PrefixIsNotStuck(kinds, n, sources, tests, test);
      StageKnows(kinds[..n], sources, tests, test);
    }
    StageKnows(kinds, sources, tests, test);
  }

  /** The whole of an execution whose completed history is saved: in order from the first event to the only terminal one. */
  lemma ExecutionIsOrderly(p: Plan)
    requires p.savesCompleted
    ensures var kinds := Emitted(p);
            && (forall n: nat :: n <= |kinds| ==> InOrder(kinds[..n], Sources(p), TestSources(p), p.test))
            && Terminals(kinds) == 1 && IsTerminal(kinds[|kinds| - 1])
  {
    EmittedFollowsExactly(p);
    hide Emitted, Sources, TestSources, InOrder, Terminals;
    FollowsInOrder(Emitted(p), Sources(p), TestSources(p), p.test);
  }

  /** On an accepted group graph the hook sources are the workspace's, the whole lineage's from the root down, the entity's. */
  lemma SourcesFromRootToLeaf(p: Plan) returns (chain: seq<Group>)
    requires UniqueIds(p.groups) && ValidateGraph(p.groups, |p.groups|) == Accepted
    requires Refers(p.groupId) && p.groupId.value in ById(p.groups)
    ensures IsLineage(ById(p.groups), chain, p.groupId.value) && AllDistinct(chain)
    ensures Sources(p) == One(p.workspaceScript) + Scripts(chain) + One(p.entityScript)
  {
    LineageIsWhole(p.groups, p.groupId.value);
    assert p.groupId == Some(p.groupId.value);
    chain := LineageOf(p.groups, p.groupId).groups;
    hide ById, LineageOf, IsLineage, ValidateGraph, Scripts;
  }
}
