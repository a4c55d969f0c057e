/**
 * Executions that run side by side: any of them may go on at any time, and the host calls of their hooks ask for further executions
 * and wait for them on their own.
 */
module LifecycleRuns {
  import opened Groups
  import opened Lifecycle
  import opened Wrappers

  // ---------------------------------------------------------------- events of the execution, and of its host calls

  /** What an execution emits itself, without what its host calls emit under its id. */
  function Main(kinds: seq<Kind>): seq<Kind> {
    if kinds == [] then []
    else Main(kinds[..|kinds| - 1]) + if IsAside(kinds[|kinds| - 1]) then [] else [kinds[|kinds| - 1]]
  }

  /** The last event of its own is the start of a hook, or something that a hook reported: the hook has neither completed nor failed. */
  predicate HookOpen(own: seq<Kind>) {
    own != [] && (own[|own| - 1].HookStarted? || own[|own| - 1].RuntimeLog? || own[|own| - 1].TestCompleted?)
  }

  predicate HookBegun(own: seq<Kind>) {
    exists i | 0 <= i < |own| :: own[i].HookStarted?
  }

  /** Every event of a host call comes while a hook is open. */
  predicate AsidesInside(kinds: seq<Kind>) {
    forall i | 0 <= i < |kinds| && IsAside(kinds[i]) :: HookOpen(Main(kinds[..i]))
  }

  predicate NoAsides(kinds: seq<Kind>) {
    forall i | 0 <= i < |kinds| :: !IsAside(kinds[i])
  }

  lemma {:induction false} MainHasNoAsides(kinds: seq<Kind>)
    ensures NoAsides(Main(kinds))
  {
    if kinds != [] { MainHasNoAsides(kinds[..|kinds| - 1]); }
  }

  lemma {:induction false} MainOfMain(kinds: seq<Kind>)
    requires NoAsides(kinds)
    ensures Main(kinds) == kinds
  {
    if kinds != [] { MainOfMain(kinds[..|kinds| - 1]); }
  }

  lemma MainSnoc(kinds: seq<Kind>, k: Kind)
    ensures Main(kinds + [k]) == Main(kinds) + if IsAside(k) then [] else [k]
  {
    assert (kinds + [k])[..|kinds|] == kinds;
  }

  lemma {:induction false} MainConcat(a: seq<Kind>, b: seq<Kind>)
    ensures Main(a + b) == Main(a) + Main(b)
  {
    if b == [] {
      assert a + b == a;
    } else {
      assert (a + b)[..|a + b| - 1] == a + b[..|b| - 1];
      MainConcat(a, b[..|b| - 1]);
    }
  }

  /** The stage of an execution tells whether a hook is open, and so does its last event. */
  lemma {:induction false} OpenStage(own: seq<Kind>, sources: seq<Id>, tests: seq<Id>, test: bool)
    requires NoAsides(own)
    ensures var g := After(Fresh, own, sources, tests, test); g != Stuck ==> (g.Hooks? && g.open <==> HookOpen(own))
  {
    if own != [] {
      var init, k := own[..|own| - 1], own[|own| - 1];
      OpenStage(init, sources, tests, test);
      NextOpens(After(Fresh, init, sources, tests, test), k, sources, tests, test);
      hide Next;
    }
  }

  lemma NextOpens(g: Stage, k: Kind, sources: seq<Id>, tests: seq<Id>, test: bool)
    requires !IsAside(k)
    ensures var n := Next(g, k, sources, tests, test);
            n != Stuck ==> (n.Hooks? && n.open <==> k.HookStarted? || k.RuntimeLog? || k.TestCompleted?)
  {
  }

  lemma AsideNeedsOpenHook(g: Stage, k: Kind, sources: seq<Id>, tests: seq<Id>, test: bool)
    requires IsAside(k)
    ensures Next(g, k, sources, tests, test) == if g.Hooks? && g.open then g else Stuck
  {
  }

  lemma LastAside(init: seq<Kind>, k: Kind, sources: seq<Id>, tests: seq<Id>, test: bool)
    requires IsAside(k)
    requires var g := After(Fresh, init, sources, tests, test);
             g != Stuck ==> g == After(Fresh, Main(init), sources, tests, test)
    ensures var g, n := After(Fresh, init, sources, tests, test), After(Fresh, init + [k], sources, tests, test);
            && Main(init + [k]) == Main(init)
            && (n != Stuck <==> g != Stuck && HookOpen(Main(init))) && (n != Stuck ==> n == g)
  {
    var g := After(Fresh, init, sources, tests, test);
    MainSnoc(init, k);
    assert (init + [k])[..|init|] == init;
    assert After(Fresh, init + [k], sources, tests, test) == Next(g, k, sources, tests, test);
    MainHasNoAsides(init);
    OpenStage(Main(init), sources, tests, test);
    AsideNeedsOpenHook(g, k, sources, tests, test);
    hide Next, After, HookOpen, Main, NoAsides;
  }

  lemma LastOwn(init: seq<Kind>, k: Kind, sources: seq<Id>, tests: seq<Id>, test: bool)
    requires !IsAside(k)
    ensures After(Fresh, init + [k], sources, tests, test) == Next(After(Fresh, init, sources, tests, test), k, sources, tests, test)
    ensures After(Fresh, Main(init + [k]), sources, tests, test)
         == Next(After(Fresh, Main(init), sources, tests, test), k, sources, tests, test)
  {
    MainSnoc(init, k);
    assert (init + [k])[..|init|] == init && (Main(init) + [k])[..|Main(init)|] == Main(init);
    hide Next, Main;
  }

  /** The grammar takes the events of host calls exactly where a hook is open. */
  lemma {:induction false} AsidesFollow(kinds: seq<Kind>, sources: seq<Id>, tests: seq<Id>, test: bool)
    ensures var g := After(Fresh, kinds, sources, tests, test);
            && (g != Stuck <==> After(Fresh, Main(kinds), sources, tests, test) != Stuck && AsidesInside(kinds))
            && (g != Stuck ==> g == After(Fresh, Main(kinds), sources, tests, test))
  {
    if kinds != [] {
      var init, k := kinds[..|kinds| - 1], kinds[|kinds| - 1];
      assert kinds == init + [k];
      AsidesFollow(init, sources, tests, test);
      InsideSnoc(kinds);
      assert Next(Stuck, k, sources, tests, test) == Stuck;
      hide Next, HookOpen, AsidesInside, After, Main;
      if IsAside(k) { LastAside(init, k, sources, tests, test); } else { LastOwn(init, k, sources, tests, test); }
    }
  }

  lemma InsideSnoc(kinds: seq<Kind>)
    requires kinds != []
    ensures var init := kinds[..|kinds| - 1];
            AsidesInside(kinds) <==> AsidesInside(init) && (IsAside(kinds[|kinds| - 1]) ==> HookOpen(Main(init)))
  {
    var init := kinds[..|kinds| - 1];
    assert forall i | 0 <= i < |init| :: init[i] == kinds[i] && init[..i] == kinds[..i];
    hide Main, HookOpen;
  }

  /** A whole log follows the grammar if and only if the execution's own events do and every host call reports while a hook is open. */
  lemma FollowsWithAsides(kinds: seq<Kind>, sources: seq<Id>, tests: seq<Id>, test: bool)
    ensures Follows(kinds, sources, tests, test) <==> Follows(Main(kinds), sources, tests, test) && AsidesInside(kinds)
  {
    AsidesFollow(kinds, sources, tests, test);
    hide After, Main, AsidesInside;
  }

  // ---------------------------------------------------------------- an execution emits no asides itself

  lemma NoAsidesConcat(a: seq<Kind>, b: seq<Kind>)
    requires NoAsides(a) && NoAsides(b)
    ensures NoAsides(a + b)
  {
  }

  lemma HookHasNoAsides(h: HookPlan, hook: Hook, source: Id)
    ensures NoAsides(InvokeHook(h, hook, source).kinds)
  {
    InvocationShape(h, hook, source);
    hide InvokeHook, HookBody;
  }

  lemma {:induction false} HooksHaveNoAsides(plans: seq<HookPlan>, hook: Hook, sources: seq<Id>, n: nat)
    requires n <= |sources|
    ensures NoAsides(RunHooks(plans, hook, sources, n).kinds)
  {
    hide InvokeHook, PlanAt;
    if n > 0 {
      HooksHaveNoAsides(plans, hook, sources, n - 1);
      HookHasNoAsides(PlanAt(plans, n - 1), hook, sources[n - 1]);
    }
  }

  lemma ExchangeHasNoAsides(p: Plan)
    ensures NoAsides(Exchange(p).kinds)
  {
    var hooks := RunHooks(p.onRequest, OnRequest, Sources(p), |Sources(p)|).kinds;
    HooksHaveNoAsides(p.onRequest, OnRequest, Sources(p), |Sources(p)|);
    hide RunHooks, Sources;
    NoAsidesConcat(hooks, [ResponseReceived(true)]);
    NoAsidesConcat(hooks, [RequestSent]);
    NoAsidesConcat(hooks + [RequestSent], StreamKinds(p.stream));
    NoAsidesConcat(hooks + [RequestSent] + StreamKinds(p.stream), [ResponseReceived(false)]);
    hide NoAsides, StreamKinds;
  }

  lemma AftermathHasNoAsides(p: Plan)
    ensures NoAsides(Aftermath(p).kinds)
  {
    HooksHaveNoAsides(p.onResponse, OnResponse, Sources(p), |Sources(p)|);
    HooksHaveNoAsides(p.onTest, OnTest, TestSources(p), |TestSources(p)|);
    hide RunHooks, Sources, TestSources;
    NoAsidesConcat(RunHooks(p.onResponse, OnResponse, Sources(p), |Sources(p)|).kinds,
                   RunHooks(p.onTest, OnTest, TestSources(p), |TestSources(p)|).kinds);
    hide NoAsides;
  }

  lemma AttemptHasNoAsides(p: Plan)
    ensures NoAsides(Attempt(p).kinds)
  {
    ExchangeHasNoAsides(p);
    AftermathHasNoAsides(p);
    hide Exchange, Aftermath, LineageOf, UsesRuntime;
    assert NoAsides([]) && NoAsides([Started]) && NoAsides([Started, RequestPrepared]);
    NoAsidesConcat([Started, RequestPrepared], Exchange(p).kinds);
    NoAsidesConcat([Started, RequestPrepared] + Exchange(p).kinds, Aftermath(p).kinds);
    hide NoAsides;
  }

  lemma EmittedHasNoAsides(p: Plan)
    ensures NoAsides(Emitted(p))
  {
    AttemptHasNoAsides(p);
    hide Attempt;
    var a := Attempt(p);
    assert !IsAside(Ending(p, a));
    NoAsidesConcat(a.kinds, [Ending(p, a)]);
    NoAsidesConcat(a.kinds, [Completed]);
    NoAsidesConcat(a.kinds + [Completed], [Ending(p, a)]);
    assert a.kinds + [Completed] + [] == a.kinds + [Completed];
    hide NoAsides, Ending;
  }

  // ---------------------------------------------------------------- runs

  /** One emitted event, under the id of an execution. */
  datatype Entry = Entry(call: nat, kind: Kind)

  /** emitted counts its own events so far; reported tells that the host call which asked for it has seen its end. */
  datatype Execution = Execution(plan: Plan, depth: nat, parent: Option<nat>, emitted: nat, ended: bool, reported: bool)

  datatype State = State(executions: seq<Execution>, active: set<nat>, log: seq<Entry>)

  const INITIAL: State := State([], {}, [])

  datatype Event =
    | Execute(plan: Plan)                 // a caller of the service
    | Ask(parent: nat, plan: Plan)        // a host call of a hook has found its entity and executes it
    | AskPermission(call: nat)            // such a host call waits for nothing before it is announced
    | Proceed(call: nat)                  // the next event of an execution
    | End(call: nat)                      // it settles, and its id is no longer active
    | Report(call: nat)                   // the host call that asked for it goes on

  /** The events of one execution. */
  function Own(log: seq<Entry>, call: nat): seq<Kind> {
    if log == [] then []
    else Own(log[..|log| - 1], call) + if log[|log| - 1].call == call then [log[|log| - 1].kind] else []
  }

  function ScriptOf(e: Execution, max: int): seq<Kind> {
    Script(e.plan, e.depth, max)
  }

  /** A host call needs a hook that has been started; when its own awaits are over that hook may have ended. */
  predicate MayAsk(s: State, call: nat, max: int) {
    call < |s.executions| && s.executions[call].emitted <= |ScriptOf(s.executions[call], max)|
    && HookBegun(ScriptOf(s.executions[call], max)[..s.executions[call].emitted])
  }

  /** The attempt was aborted, and the terminal event that follows is out. */
  predicate SignalFired(x: Execution) {
    Attempt(x.plan).aborted && x.emitted > |Attempt(x.plan).kinds|
  }

  /** The signal of the execution has fired before it looks at it for the first time. */
  predicate IsStopped(p: Plan) {
    if p.resolved then p.abortedAtStart else p.abortError
  }

  /** A nested execution is given the signal of the execution that asks for it. */
  predicate Enabled(s: State, e: Event, max: int) {
    match e
    case Execute(_) => true
    case Ask(c, p) => MayAsk(s, c, max) && (SignalFired(s.executions[c]) ==> IsStopped(p))
    case AskPermission(c) => MayAsk(s, c, max) && HookOpen(ScriptOf(s.executions[c], max)[..s.executions[c].emitted])
    case Proceed(c) => c < |s.executions| && s.executions[c].emitted < |ScriptOf(s.executions[c], max)|
    case End(c) => c < |s.executions| && !s.executions[c].ended && s.executions[c].emitted == |ScriptOf(s.executions[c], max)|
    case Report(c) =>
      c < |s.executions| && s.executions[c].ended && !s.executions[c].reported && s.executions[c].parent.Some?
  }

  /** An execution that is too deep never becomes active. */
  function Begin(s: State, p: Plan, depth: nat, parent: Option<nat>, max: int): State {
    State(s.executions + [Execution(p, depth, parent, 0, false, false)],
          if depth <= max then s.active + {|s.executions|} else s.active, s.log)
  }

  function Append(s: State, call: nat, kind: Kind): State {
    s.(log := s.log + [Entry(call, kind)])
  }

  function Act(s: State, e: Event, max: int): State
    requires Enabled(s, e, max)
  {
    match e
    case Execute(p) => Begin(s, p, 0, None, max)
    case Ask(c, p) => Begin(Append(s, c, NestedStarted), p, s.executions[c].depth + 1, Some(c), max)
    case AskPermission(c) => Append(s, c, PermissionRequested)
    case Proceed(c) =>
      var x := s.executions[c];
      Append(s, c, ScriptOf(x, max)[x.emitted]).(executions := s.executions[c := x.(emitted := x.emitted + 1)])
    case End(c) => s.(executions := s.executions[c := s.executions[c].(ended := true)], active := s.active - {c})
    case Report(c) =>
      var x := s.executions[c];
      var t := s.(executions := s.executions[c := x.(reported := true)]);
      if RejectsAt(x.plan, x.depth, max) then t else Append(t, x.parent.value, NestedCompleted)
  }

  function Step(s: State, e: Event, max: int): State {
    if Enabled(s, e, max) then Act(s, e, max) else s
  }

  function Exec(s: State, es: seq<Event>, max: int): State {
    if es == [] then s else Step(Exec(s, es[..|es| - 1], max), es[|es| - 1], max)
  }

  // ---------------------------------------------------------------- the invariant

  /** What an execution emitted itself is a beginning of its script; everything else under its id comes after the start of a hook. */
  predicate OnScript(s: State, c: nat, max: int)
    requires c < |s.executions|
  {
    var x, own := s.executions[c], Own(s.log, c);
    && x.emitted <= |ScriptOf(x, max)| && Main(own) == ScriptOf(x, max)[..x.emitted]
    && (HookBegun(Main(own)) || NoAsides(own))
    && (x.ended ==> x.emitted == |ScriptOf(x, max)|) && (x.reported ==> x.ended)
  }

  /** An execution within the limit is active from its beginning to its end, and no other is. */
  ghost predicate ActiveFine(s: State, max: int) {
    forall c: nat :: c in s.active <==> c < |s.executions| && s.executions[c].depth <= max && !s.executions[c].ended
  }

  /** A nested execution is one level below the execution whose hook asked for it. */
  predicate NestedFine(s: State, c: nat, max: int)
    requires c < |s.executions|
  {
    match s.executions[c].parent
    case None => s.executions[c].depth == 0
    case Some(q) => q < c && s.executions[c].depth == s.executions[q].depth + 1 && MayAsk(s, q, max)
  }

  predicate LogFine(s: State, max: int) {
    forall i | 0 <= i < |s.log| :: s.log[i].call < |s.executions| && s.executions[s.log[i].call].depth <= max
  }

  ghost predicate Inv(s: State, max: int) {
    (forall c | 0 <= c < |s.executions| :: OnScript(s, c, max) && NestedFine(s, c, max)) && ActiveFine(s, max) && LogFine(s, max)
  }

  /** The executions of a state go on in a later one. */
  predicate GoOn(s: State, t: State, max: int) {
    |s.executions| <= |t.executions| && forall c | 0 <= c < |s.executions| ::
      var x, y := s.executions[c], t.executions[c];
      y.plan == x.plan && y.depth == x.depth && y.parent == x.parent && x.emitted <= y.emitted <= |ScriptOf(y, max)|
  }

  lemma MayAskStays(s: State, t: State, c: nat, max: int)
    requires MayAsk(s, c, max) && GoOn(s, t, max)
    ensures MayAsk(t, c, max)
  {
    var x, y := s.executions[c], t.executions[c];
    var script := ScriptOf(x, max);
    assert ScriptOf(y, max) == script;
    hide ScriptOf;
    var i :| 0 <= i < x.emitted && script[..x.emitted][i].HookStarted?;
    assert script[..y.emitted][i] == script[..x.emitted][i];
  }

  lemma NestedStays(s: State, t: State, c: nat, max: int)
    requires c < |s.executions| && NestedFine(s, c, max) && GoOn(s, t, max)
    ensures NestedFine(t, c, max)
  {
    var q := s.executions[c].parent;
    if q.Some? { MayAskStays(s, t, q.value, max); }
    hide MayAsk;
  }

  lemma OwnSnoc(log: seq<Entry>, call: nat, kind: Kind, c: nat)
    ensures Own(log + [Entry(call, kind)], c) == Own(log, c) + if c == call then [kind] else []
  {
    assert (log + [Entry(call, kind)])[..|log|] == log;
  }

  lemma {:induction false} OwnOfStranger(log: seq<Entry>, c: nat)
    requires forall i | 0 <= i < |log| :: log[i].call != c
    ensures Own(log, c) == []
  {
    if log != [] { OwnOfStranger(log[..|log| - 1], c); }
  }

  lemma AppendAside(s: State, call: nat, kind: Kind, c: nat, max: int)
    requires c < |s.executions| && OnScript(s, c, max) && IsAside(kind) && MayAsk(s, call, max)
    ensures OnScript(Append(s, call, kind), c, max)
  {
    OwnSnoc(s.log, call, kind, c);
    MainSnoc(Own(s.log, c), kind);
    assert Own(s.log, c) + [] == Own(s.log, c) && Main(Own(s.log, c)) + [] == Main(Own(s.log, c));
    hide Own, Main, HookBegun, ScriptOf;
  }

  lemma AskerIsShallow(s: State, c: nat, max: int)
    requires MayAsk(s, c, max)
    ensures s.executions[c].depth <= max
  {
    hide Emitted;
    var x := s.executions[c];
    var i :| 0 <= i < x.emitted && ScriptOf(x, max)[..x.emitted][i].HookStarted?;
    assert |ScriptOf(x, max)| > 0;
  }

  lemma BeginKeepsInv(s: State, p: Plan, depth: nat, parent: Option<nat>, max: int)
    requires Inv(s, max)
    requires if parent.Some? then MayAsk(s, parent.value, max) && depth == s.executions[parent.value].depth + 1 else depth == 0
    ensures Inv(Begin(s, p, depth, parent, max), max)
  {
    var t, n := Begin(s, p, depth, parent, max), |s.executions|;
    hide OnScript, NestedFine, GoOn, MayAsk, ActiveFine, LogFine, Begin;
    BeginGoesOn(s, p, depth, parent, max);
    BeginActive(s, p, depth, parent, max);
    NewOnScript(s, p, depth, parent, max);
    NewIsNested(s, p, depth, parent, max);
    forall c | 0 <= c < |t.executions| ensures OnScript(t, c, max) && NestedFine(t, c, max) {
      if c < n {
        OldOnScript(s, p, depth, parent, c, max);
        NestedStays(s, t, c, max);
      }
    }
  }

  lemma BeginGoesOn(s: State, p: Plan, depth: nat, parent: Option<nat>, max: int)
    requires Inv(s, max)
    ensures GoOn(s, Begin(s, p, depth, parent, max), max)
    ensures |Begin(s, p, depth, parent, max).executions| == |s.executions| + 1
  {
    ScriptsFit(s, max);
    hide ScriptOf, OnScript, NestedFine;
  }

  lemma BeginActive(s: State, p: Plan, depth: nat, parent: Option<nat>, max: int)
    requires ActiveFine(s, max) && LogFine(s, max)
    ensures ActiveFine(Begin(s, p, depth, parent, max), max) && LogFine(Begin(s, p, depth, parent, max), max)
  {
  }

  lemma OldOnScript(s: State, p: Plan, depth: nat, parent: Option<nat>, c: nat, max: int)
    requires c < |s.executions| && OnScript(s, c, max)
    ensures OnScript(Begin(s, p, depth, parent, max), c, max)
  {
    hide Own, Main, Script, HookBegun, NoAsides;
  }

  lemma NewIsNested(s: State, p: Plan, depth: nat, parent: Option<nat>, max: int)
    requires GoOn(s, Begin(s, p, depth, parent, max), max)
    requires if parent.Some? then MayAsk(s, parent.value, max) && depth == s.executions[parent.value].depth + 1 else depth == 0
    ensures NestedFine(Begin(s, p, depth, parent, max), |s.executions|, max)
  {
    var t := Begin(s, p, depth, parent, max);
    if parent.Some? { MayAskStays(s, t, parent.value, max); }
    hide MayAsk, GoOn;
  }

  lemma NewOnScript(s: State, p: Plan, depth: nat, parent: Option<nat>, max: int)
    requires LogFine(s, max)
    ensures OnScript(Begin(s, p, depth, parent, max), |s.executions|, max)
  {
    OwnOfStranger(s.log, |s.executions|);
    assert Main([]) == [] && NoAsides([]);
    hide Own, Script;
  }

  lemma AsideKeepsInv(s: State, call: nat, kind: Kind, max: int)
    requires Inv(s, max) && IsAside(kind) && MayAsk(s, call, max)
    ensures Inv(Append(s, call, kind), max)
  {
    AskerIsShallow(s, call, max);
    var t := Append(s, call, kind);
    ScriptsFit(s, max);
    assert GoOn(s, t, max);
    hide OnScript, NestedFine, GoOn;
    forall c | 0 <= c < |s.executions| ensures OnScript(t, c, max) && NestedFine(t, c, max) {
      AppendAside(s, call, kind, c, max);
      NestedStays(s, t, c, max);
    }
    hide MayAsk;
  }

  lemma ScriptsFit(s: State, max: int)
    requires Inv(s, max)
    ensures forall c | 0 <= c < |s.executions| :: s.executions[c].emitted <= |ScriptOf(s.executions[c], max)|
  {
    hide ScriptOf, Own, Main;
    forall c | 0 <= c < |s.executions| ensures s.executions[c].emitted <= |ScriptOf(s.executions[c], max)| { assert OnScript(s, c, max); }
  }

  lemma ProceedOnScript(s: State, call: nat, c: nat, max: int)
    requires Enabled(s, Proceed(call), max) && c < |s.executions| && OnScript(s, c, max)
    ensures OnScript(Act(s, Proceed(call), max), c, max)
  {
    var x, t := s.executions[call], Act(s, Proceed(call), max);
    var script := ScriptOf(x, max);
    var kind := script[x.emitted];
    OwnSnoc(s.log, call, kind, c);
    assert t.log == s.log + [Entry(call, kind)];
    if c == call {
      NextIsOwn(x, max);
      assert t.executions[call] == x.(emitted := x.emitted + 1) && ScriptOf(t.executions[call], max) == script;
      hide Own, Main, ScriptOf, HookBegun, Act, NoAsides;
      OwnGoesOn(Own(s.log, c), script, x.emitted);
    } else {
      assert Own(s.log, c) + [] == Own(s.log, c);
      hide Own, Main, ScriptOf, HookBegun, NoAsides;
    }
  }

  lemma NextIsOwn(x: Execution, max: int)
    requires x.emitted < |ScriptOf(x, max)|
    ensures !IsAside(ScriptOf(x, max)[x.emitted])
  {
    EmittedHasNoAsides(x.plan);
    hide Emitted;
  }

  lemma OwnGoesOn(own: seq<Kind>, script: seq<Kind>, n: nat)
    requires n < |script| && Main(own) == script[..n] && !IsAside(script[n]) && (HookBegun(Main(own)) || NoAsides(own))
    ensures Main(own + [script[n]]) == script[..n + 1] && (HookBegun(Main(own + [script[n]])) || NoAsides(own + [script[n]]))
  {
    MainSnoc(own, script[n]);
    assert script[..n + 1] == script[..n] + [script[n]];
    if HookBegun(Main(own)) { BegunStays(Main(own), script[n]); }
    hide Main, HookBegun;
  }

  lemma BegunStays(own: seq<Kind>, k: Kind)
    requires HookBegun(own)
    ensures HookBegun(own + [k])
  {
    var i :| 0 <= i < |own| && own[i].HookStarted?;
    assert (own + [k])[i] == own[i];
  }

  lemma ProceedKeepsInv(s: State, call: nat, max: int)
    requires Inv(s, max) && Enabled(s, Proceed(call), max)
    ensures Inv(Act(s, Proceed(call), max), max)
  {
    hide OnScript, Emitted;
    var t := Act(s, Proceed(call), max);
    assert OnScript(s, call, max) && s.executions[call].depth <= max;
    ScriptsFit(s, max);
    assert GoOn(s, t, max);
    hide NestedFine;
    forall c | 0 <= c < |s.executions| ensures OnScript(t, c, max) && NestedFine(t, c, max) {
      ProceedOnScript(s, call, c, max);
      NestedStays(s, t, c, max);
    }
    hide ScriptOf, GoOn;
  }

  lemma EndKeepsInv(s: State, call: nat, max: int)
    requires Inv(s, max) && Enabled(s, End(call), max)
    ensures Inv(Act(s, End(call), max), max)
  {
    hide Own, Main, HookBegun, NoAsides, Script;
    var t := Act(s, End(call), max);
    ScriptsFit(s, max);
    assert GoOn(s, t, max);
    hide NestedFine;
    forall c | 0 <= c < |s.executions| ensures OnScript(t, c, max) && NestedFine(t, c, max) {
      assert OnScript(s, c, max);
      NestedStays(s, t, c, max);
    }
  }

  lemma MarkKeepsInv(s: State, call: nat, max: int)
    requires Inv(s, max) && Enabled(s, Report(call), max)
    ensures Inv(s.(executions := s.executions[call := s.executions[call].(reported := true)]), max)
  {
    hide Own, Main, HookBegun, NoAsides, Script;
    var t := s.(executions := s.executions[call := s.executions[call].(reported := true)]);
    ScriptsFit(s, max);
    assert GoOn(s, t, max);
    hide NestedFine;
    forall c | 0 <= c < |s.executions| ensures OnScript(t, c, max) && NestedFine(t, c, max) {
      assert OnScript(s, c, max);
      NestedStays(s, t, c, max);
    }
  }

  lemma ReportKeepsInv(s: State, call: nat, max: int)
    requires Inv(s, max) && Enabled(s, Report(call), max)
    ensures Inv(Act(s, Report(call), max), max)
  {
    var x := s.executions[call];
    var t := s.(executions := s.executions[call := x.(reported := true)]);
    MarkKeepsInv(s, call, max);
    if !RejectsAt(x.plan, x.depth, max) {
      assert NestedFine(t, call, max);
      hide Inv, MayAsk;
      AsideKeepsInv(t, x.parent.value, NestedCompleted, max);
    }
    hide RejectsAt, Inv;
  }

  lemma AskKeepsInv(s: State, call: nat, p: Plan, max: int)
    requires Inv(s, max) && MayAsk(s, call, max)
    ensures Inv(Begin(Append(s, call, NestedStarted), p, s.executions[call].depth + 1, Some(call), max), max)
  {
    AsideKeepsInv(s, call, NestedStarted, max);
    assert MayAsk(Append(s, call, NestedStarted), call, max);
    hide Inv, MayAsk, Begin;
    BeginKeepsInv(Append(s, call, NestedStarted), p, s.executions[call].depth + 1, Some(call), max);
  }

  lemma StepKeepsInv(s: State, e: Event, max: int)
    requires Inv(s, max)
    ensures Inv(Step(s, e, max), max)
  {
    hide Inv, MayAsk, ScriptOf, Begin;
    if Enabled(s, e, max) {
      match e
      case Execute(p) => BeginKeepsInv(s, p, 0, None, max);
      case Ask(c, p) => AskKeepsInv(s, c, p, max);
      case AskPermission(c) => AsideKeepsInv(s, c, PermissionRequested, max);
      case Proceed(c) => ProceedKeepsInv(s, c, max);
      case End(c) => EndKeepsInv(s, c, max);
      case Report(c) => ReportKeepsInv(s, c, max);
    }
  }

  /** The invariant holds in every run of any number of executions. */
  lemma {:induction false} EveryRunKeepsInv(es: seq<Event>, max: int)
    ensures Inv(Exec(INITIAL, es, max), max)
  {
    if es == [] {
      assert Inv(INITIAL, max);
    } else {
      hide Inv, Step;
      EveryRunKeepsInv(es[..|es| - 1], max);
      StepKeepsInv(Exec(INITIAL, es[..|es| - 1], max), es[|es| - 1], max);
    }
  }

  /** Whatever step is made: under the id of an execution that is not the one to proceed, only its host calls emit. */
  lemma OthersSpare(s: State, e: Event, c: nat, max: int)
    requires e != Proceed(c)
    ensures var t := Step(s, e, max);
            s.log <= t.log && forall i | |s.log| <= i < |t.log| && t.log[i].call == c :: IsAside(t.log[i].kind)
  {
    hide MayAsk, HookOpen, RejectsAt;
    if Enabled(s, e, max) && e.Proceed? { ProceedIs(s, e.call, max); }
    hide ScriptOf;
  }

  // ---------------------------------------------------------------- every execution follows the grammar

  lemma {:induction false} MainHolds(kinds: seq<Kind>, k: Kind)
    requires !IsAside(k)
    ensures k in Main(kinds) <==> k in kinds
  {
    if kinds != [] {
      MainHolds(kinds[..|kinds| - 1], k);
      assert kinds == kinds[..|kinds| - 1] + [kinds[|kinds| - 1]];
    }
  }

  lemma EndedIsWhole(s: State, c: nat, max: int)
    requires c < |s.executions| && OnScript(s, c, max) && s.executions[c].ended && s.executions[c].depth <= max
    ensures Main(Own(s.log, c)) == Emitted(s.executions[c].plan)
  {
    var script := ScriptOf(s.executions[c], max);
    assert script[..|script|] == script;
    hide Own, Main, Emitted, HookBegun, NoAsides;
  }

  /**
   * In every run: what an execution that has ended emitted itself is one whole execution, if and only if it did not complete and then
   * fail to save its history; and the same holds together with what its host calls emitted, if and only if besides each of them
   * reported while a hook was open.
   */
  lemma FinishedFollowsExactly(es: seq<Event>, c: nat, max: int)
    requires c < |Exec(INITIAL, es, max).executions| && Exec(INITIAL, es, max).executions[c].ended
    requires Exec(INITIAL, es, max).executions[c].depth <= max
    ensures var p, kinds := Exec(INITIAL, es, max).executions[c].plan, Own(Exec(INITIAL, es, max).log, c);
            && (Follows(Main(kinds), Sources(p), TestSources(p), p.test) <==> (Completed in kinds ==> p.savesCompleted))
            && (Follows(kinds, Sources(p), TestSources(p), p.test)
                <==> (Completed in kinds ==> p.savesCompleted) && AsidesInside(kinds))
  {
    EveryRunKeepsInv(es, max);
    var s := Exec(INITIAL, es, max);
    var p, kinds := s.executions[c].plan, Own(s.log, c);
    assert OnScript(s, c, max);
    hide Exec, Inv, Own;
    EndedIsWhole(s, c, max);
    MainHolds(kinds, Completed);
    EmittedFollowsExactly(p);
    hide Main, Emitted, Follows, AsidesInside, OnScript, Sources, TestSources;
    FollowsWithAsides(kinds, Sources(p), TestSources(p), p.test);
  }

  lemma {:induction false} BeginningInOrder(kinds: seq<Kind>, n: nat, sources: seq<Id>, tests: seq<Id>, test: bool)
    requires Follows(kinds, sources, tests, test) && n <= |kinds|
    ensures InOrder(kinds[..n], sources, tests, test)
  {
    FollowsInOrder(kinds, sources, tests, test);
    hide InOrder, Terminals;
  }

  /** At every moment of every run, and whatever host calls emit in between: the own events of every execution are in order. */
  lemma InOrderThroughout(es: seq<Event>, c: nat, max: int)
    requires c < |Exec(INITIAL, es, max).executions| && Exec(INITIAL, es, max).executions[c].plan.savesCompleted
    ensures var x := Exec(INITIAL, es, max).executions[c];
            var own := Main(Own(Exec(INITIAL, es, max).log, c));
            && InOrder(own, Sources(x.plan), TestSources(x.plan), x.plan.test)
            && (x.ended && x.depth <= max ==> Terminals(own) == 1 && IsTerminal(own[|own| - 1]))
            && (x.depth > max ==> own == [])
  {
    EveryRunKeepsInv(es, max);
    var s := Exec(INITIAL, es, max);
    var x := s.executions[c];
    assert OnScript(s, c, max);
    hide Exec, Inv, Own, Main;
    NothingIsInOrder(Sources(x.plan), TestSources(x.plan), x.plan.test);
    if x.depth <= max {
      EmittedFollowsExactly(x.plan);
      if x.ended { EndedIsWhole(s, c, max); }
      hide Emitted, InOrder, Terminals, Follows, HookBegun, NoAsides, Sources, TestSources;
      BeginningInOrder(Emitted(x.plan), x.emitted, Sources(x.plan), TestSources(x.plan), x.plan.test);
      FollowsInOrder(Emitted(x.plan), Sources(x.plan), TestSources(x.plan), x.plan.test);
    } else {
      hide InOrder, Terminals, HookBegun, NoAsides, Sources, TestSources;
    }
  }

  lemma NothingIsInOrder(sources: seq<Id>, tests: seq<Id>, test: bool)
    ensures InOrder([], sources, tests, test)
  {
  }

  /** In every run: an execution within the limit is active from its beginning to its end, and nothing is emitted above the limit. */
  lemma ActiveExactly(es: seq<Event>, max: int)
    ensures var s := Exec(INITIAL, es, max);
            && (forall c: nat :: c in s.active <==> c < |s.executions| && s.executions[c].depth <= max && !s.executions[c].ended)
            && (forall i | 0 <= i < |s.log| :: s.log[i].call < |s.executions| && s.executions[s.log[i].call].depth <= max)
            && (forall c | 0 <= c < |s.executions| && s.executions[c].parent.Some? ::
                  s.executions[c].parent.value < c && s.executions[c].depth == s.executions[s.executions[c].parent.value].depth + 1)
  {
    EveryRunKeepsInv(es, max);
    var s := Exec(INITIAL, es, max);
    hide Exec, OnScript, MayAsk;
    forall c | 0 <= c < |s.executions| && s.executions[c].parent.Some?
      ensures s.executions[c].parent.value < c && s.executions[c].depth == s.executions[s.executions[c].parent.value].depth + 1
    {
      assert NestedFine(s, c, max);
    }
  }

  // ---------------------------------------------------------------- every nested event has its execution

  function CountOf(kinds: seq<Kind>, k: Kind): nat {
    if kinds == [] then 0 else CountOf(kinds[..|kinds| - 1], k) + if kinds[|kinds| - 1] == k then 1 else 0
  }

  /** Whether an execution was asked for by a host call of c, and, if only reported ones count, was reported to it. */
  predicate BelongsTo(x: Execution, c: nat, reported: bool, max: int) {
    x.parent == Some(c) && (reported ==> x.reported && !RejectsAt(x.plan, x.depth, max))
  }

  function Total(xs: seq<Execution>, c: nat, reported: bool, max: int): nat {
    if xs == [] then 0
    else Total(xs[..|xs| - 1], c, reported, max) + if BelongsTo(xs[|xs| - 1], c, reported, max) then 1 else 0
  }

  predicate CountedFor(s: State, c: nat, max: int) {
    CountOf(Own(s.log, c), NestedStarted) == Total(s.executions, c, false, max)
    && CountOf(Own(s.log, c), NestedCompleted) == Total(s.executions, c, true, max)
  }

  lemma {:induction false} TotalOfChanged(xs: seq<Execution>, i: nat, x: Execution, c: nat, reported: bool, max: int)
    requires i < |xs|
    ensures Total(xs[i := x], c, reported, max) + (if BelongsTo(xs[i], c, reported, max) then 1 else 0)
         == Total(xs, c, reported, max) + (if BelongsTo(x, c, reported, max) then 1 else 0)
  {
    hide BelongsTo;
    var last := |xs| - 1;
    if i == last {
      assert xs[i := x][..last] == xs[..last];
    } else {
      assert xs[i := x][..last] == xs[..last][i := x];
      TotalOfChanged(xs[..last], i, x, c, reported, max);
    }
  }

  lemma {:induction false} ReportedAreAsked(xs: seq<Execution>, c: nat, max: int)
    ensures Total(xs, c, true, max) <= Total(xs, c, false, max)
  {
    hide RejectsAt;
    if xs != [] { ReportedAreAsked(xs[..|xs| - 1], c, max); }
  }

  lemma BeginCounts(s: State, p: Plan, depth: nat, parent: Option<nat>, c: nat, max: int)
    ensures var t := Begin(s, p, depth, parent, max);
            && Own(t.log, c) == Own(s.log, c)
            && Total(t.executions, c, false, max) == Total(s.executions, c, false, max) + (if parent == Some(c) then 1 else 0)
            && Total(t.executions, c, true, max) == Total(s.executions, c, true, max)
  {
    var t := Begin(s, p, depth, parent, max);
    assert t.executions[..|t.executions| - 1] == s.executions;
    hide Own, RejectsAt;
  }

  lemma CountSnoc(kinds: seq<Kind>, x: Kind, k: Kind)
    ensures CountOf(kinds + [x], k) == CountOf(kinds, k) + if x == k then 1 else 0
  {
    assert (kinds + [x])[..|kinds|] == kinds;
  }

  lemma AppendCounts(log: seq<Entry>, call: nat, kind: Kind, c: nat, k: Kind)
    ensures CountOf(Own(log + [Entry(call, kind)], c), k) == CountOf(Own(log, c), k) + (if c == call && kind == k then 1 else 0)
  {
    hide Own, CountOf;
    OwnSnoc(log, call, kind, c);
    if c == call { CountSnoc(Own(log, c), kind, k); } else { assert Own(log, c) + [] == Own(log, c); }
  }

  lemma StepKeepsCount(s: State, e: Event, c: nat, max: int)
    requires CountedFor(s, c, max)
    ensures CountedFor(Step(s, e, max), c, max)
  {
    hide ScriptOf, RejectsAt, Begin, Own, CountOf, Total, HookOpen, HookBegun;
    if Enabled(s, e, max) {
      match e
      case Execute(p) => BeginCounts(s, p, 0, None, c, max);
      case Ask(q, p) => AskCounts(s, q, p, c, max);
      case AskPermission(q) =>
        AppendCounts(s.log, q, PermissionRequested, c, NestedStarted);
        AppendCounts(s.log, q, PermissionRequested, c, NestedCompleted);
      case Proceed(q) => ProceedCounts(s, q, c, max);
      case End(q) => ChangeCounts(s, q, s.executions[q].(ended := true), c, max);
      case Report(q) => ReportCounts(s, q, c, max);
    }
  }

  lemma AskCounts(s: State, call: nat, p: Plan, c: nat, max: int)
    requires CountedFor(s, c, max) && call < |s.executions|
    ensures CountedFor(Begin(Append(s, call, NestedStarted), p, s.executions[call].depth + 1, Some(call), max), c, max)
  {
    AppendCounts(s.log, call, NestedStarted, c, NestedStarted);
    AppendCounts(s.log, call, NestedStarted, c, NestedCompleted);
    BeginCounts(Append(s, call, NestedStarted), p, s.executions[call].depth + 1, Some(call), c, max);
    hide Own, CountOf, Total, Begin;
  }

  /** Changing an execution in a way that does not matter for the counts. */
  lemma ChangeCounts(s: State, i: nat, x: Execution, c: nat, max: int)
    requires i < |s.executions| && x.parent == s.executions[i].parent && x.reported == s.executions[i].reported
    requires x.plan == s.executions[i].plan && x.depth == s.executions[i].depth
    ensures Total(s.executions[i := x], c, false, max) == Total(s.executions, c, false, max)
    ensures Total(s.executions[i := x], c, true, max) == Total(s.executions, c, true, max)
  {
    TotalOfChanged(s.executions, i, x, c, false, max);
    TotalOfChanged(s.executions, i, x, c, true, max);
    hide Total, RejectsAt;
  }

  lemma ProceedCounts(s: State, call: nat, c: nat, max: int)
    requires CountedFor(s, c, max) && Enabled(s, Proceed(call), max)
    ensures CountedFor(Step(s, Proceed(call), max), c, max)
  {
    hide Own, CountOf, Total, ScriptOf, Step, MayAsk, RejectsAt;
    var x := s.executions[call];
    var kind := ScriptOf(x, max)[x.emitted];
    NextIsOwn(x, max);
    ProceedIs(s, call, max);
    AppendCounts(s.log, call, kind, c, NestedStarted);
    AppendCounts(s.log, call, kind, c, NestedCompleted);
    ChangeCounts(s, call, x.(emitted := x.emitted + 1), c, max);
  }

  lemma ReportIs(s: State, c: nat, max: int)
    requires Enabled(s, Report(c), max)
    ensures var x := s.executions[c];
            Step(s, Report(c), max)
            == State(s.executions[c := x.(reported := true)], s.active,
                     if RejectsAt(x.plan, x.depth, max) then s.log else s.log + [Entry(x.parent.value, NestedCompleted)])
  {
    hide ScriptOf, MayAsk, RejectsAt, HookBegun, HookOpen;
  }

  lemma ReportCounts(s: State, call: nat, c: nat, max: int)
    requires CountedFor(s, c, max) && Enabled(s, Report(call), max)
    ensures CountedFor(Step(s, Report(call), max), c, max)
  {
    hide Own, CountOf, Total, RejectsAt, ScriptOf, MayAsk, Step;
    ReportIs(s, call, max);
    MarkCounts(s.executions, call, c, max);
    AppendCounts(s.log, s.executions[call].parent.value, NestedCompleted, c, NestedStarted);
    AppendCounts(s.log, s.executions[call].parent.value, NestedCompleted, c, NestedCompleted);
  }

  lemma MarkCounts(xs: seq<Execution>, i: nat, c: nat, max: int)
    requires i < |xs| && !xs[i].reported && xs[i].parent.Some?
    ensures var t := xs[i := xs[i].(reported := true)];
            && Total(t, c, false, max) == Total(xs, c, false, max)
            && Total(t, c, true, max)
               == Total(xs, c, true, max) + (if xs[i].parent == Some(c) && !RejectsAt(xs[i].plan, xs[i].depth, max) then 1 else 0)
  {
    TotalOfChanged(xs, i, xs[i].(reported := true), c, false, max);
    TotalOfChanged(xs, i, xs[i].(reported := true), c, true, max);
    hide Total, RejectsAt;
  }

  /**
   * In every run, at every moment: the nested executions that were announced under an id are those that its host calls asked for, and
   * the ones announced as completed those among them that ended without rejecting and were reported; so there are never more of them.
   */
  lemma {:induction false} NestedAreAccounted(es: seq<Event>, c: nat, max: int)
    ensures var s := Exec(INITIAL, es, max);
            && CountOf(Own(s.log, c), NestedStarted) == Total(s.executions, c, false, max)
            && CountOf(Own(s.log, c), NestedCompleted) == Total(s.executions, c, true, max) <= Total(s.executions, c, false, max)
  {
    if es != [] {
      hide Own, CountOf, Total, Step;
      NestedAreAccounted(es[..|es| - 1], c, max);
      StepKeepsCount(Exec(INITIAL, es[..|es| - 1], max), es[|es| - 1], c, max);
      ReportedAreAsked(Exec(INITIAL, es, max).executions, c, max);
    }
  }

  // ---------------------------------------------------------------- nothing waits for a host call

  function Entries(call: nat, kinds: seq<Kind>): (r: seq<Entry>)
    ensures |r| == |kinds|
  {
    if kinds == [] then [] else Entries(call, kinds[..|kinds| - 1]) + [Entry(call, kinds[|kinds| - 1])]
  }

  lemma {:induction false} OwnOfEntries(log: seq<Entry>, call: nat, kinds: seq<Kind>, c: nat)
    ensures Own(log + Entries(call, kinds), c) == Own(log, c) + if c == call then kinds else []
  {
    if kinds == [] {
      assert log + Entries(call, kinds) == log;
    } else {
      var init, k := kinds[..|kinds| - 1], kinds[|kinds| - 1];
      OwnOfEntries(log, call, init, c);
      OwnSnoc(log + Entries(call, init), call, k, c);
      assert log + Entries(call, kinds) == log + Entries(call, init) + [Entry(call, k)];
      assert init + [k] == kinds;
    }
  }

  lemma ExecMore(s: State, es: seq<Event>, e: Event, max: int)
    ensures Exec(s, es + [e], max) == Step(Exec(s, es, max), e, max)
  {
    assert (es + [e])[..|es|] == es;
  }

  lemma {:induction false} ExecConcat(s: State, a: seq<Event>, b: seq<Event>, max: int)
    ensures Exec(s, a + b, max) == Exec(Exec(s, a, max), b, max)
  {
    hide Step;
    if b == [] {
      assert a + b == a;
    } else {
      assert (a + b)[..|a + b| - 1] == a + b[..|b| - 1];
      ExecConcat(s, a, b[..|b| - 1], max);
    }
  }

  /** The state in which an execution has gone on by n events, all others standing still. */
  function Ahead(s: State, c: nat, n: nat, max: int): State
    requires c < |s.executions| && s.executions[c].emitted + n <= |ScriptOf(s.executions[c], max)|
  {
    var x := s.executions[c];
    State(s.executions[c := x.(emitted := x.emitted + n)], s.active,
          s.log + Entries(c, ScriptOf(x, max)[x.emitted..x.emitted + n]))
  }

  lemma AheadNot(s: State, c: nat, max: int)
    requires c < |s.executions| && s.executions[c].emitted <= |ScriptOf(s.executions[c], max)|
    ensures Ahead(s, c, 0, max) == s
  {
    hide ScriptOf;
    var x := s.executions[c];
    assert ScriptOf(x, max)[x.emitted..x.emitted + 0] == [] && s.log + [] == s.log;
    assert s.executions[c := x.(emitted := x.emitted + 0)] == s.executions;
  }

  lemma {:induction false} GoesAhead(s: State, c: nat, n: nat, max: int) returns (es: seq<Event>)
    requires c < |s.executions| && s.executions[c].emitted + n <= |ScriptOf(s.executions[c], max)|
    ensures Exec(s, es, max) == Ahead(s, c, n, max)
  {
    hide Ahead, Step, ScriptOf;
    if n == 0 {
      es := [];
      AheadNot(s, c, max);
    } else {
      var init := GoesAhead(s, c, n - 1, max);
      es := init + [Proceed(c)];
      ExecMore(s, init, Proceed(c), max);
      AheadOnce(s, c, n - 1, max);
    }
  }

  lemma ProceedIs(s: State, c: nat, max: int)
    requires c < |s.executions| && s.executions[c].emitted < |ScriptOf(s.executions[c], max)|
    ensures var x := s.executions[c];
            Step(s, Proceed(c), max)
            == State(s.executions[c := x.(emitted := x.emitted + 1)], s.active, s.log + [Entry(c, ScriptOf(x, max)[x.emitted])])
  {
    hide ScriptOf, MayAsk, RejectsAt, HookBegun, HookOpen;
  }

  lemma AheadOnce(s: State, c: nat, n: nat, max: int)
    requires c < |s.executions| && s.executions[c].emitted + n < |ScriptOf(s.executions[c], max)|
    ensures Step(Ahead(s, c, n, max), Proceed(c), max) == Ahead(s, c, n + 1, max)
  {
    var x := s.executions[c];
    var script := ScriptOf(x, max);
    var t, u := Ahead(s, c, n, max), Ahead(s, c, n + 1, max);
    assert ScriptOf(t.executions[c], max) == script;
    hide ScriptOf, Entries, Step;
    ProceedIs(t, c, max);
    LogGoesOn(s.log, c, script, x.emitted, n);
    assert t.executions[c := x.(emitted := x.emitted + n + 1)] == u.executions;
  }

  lemma LogGoesOn(log: seq<Entry>, c: nat, script: seq<Kind>, i: nat, n: nat)
    requires i + n < |script|
    ensures log + Entries(c, script[i..i + n]) + [Entry(c, script[i + n])] == log + Entries(c, script[i..i + (n + 1)])
  {
    var a, b := script[i..i + n], script[i..i + (n + 1)];
    assert b[..|b| - 1] == a && b[|b| - 1] == script[i + n];
    assert Entries(c, b) == Entries(c, a) + [Entry(c, script[i + n])];
  }

  /** The first execution of a service, with n events emitted. */
  function Alone(p: Plan, n: nat, ended: bool): State
    requires n <= |Emitted(p)|
  {
    State([Execution(p, 0, None, n, ended, false)], if ended then {} else {0}, Entries(0, Emitted(p)[..n]))
  }

  lemma RunsAlone(p: Plan, n: nat, max: int) returns (es: seq<Event>)
    requires 0 <= max && n <= |Emitted(p)|
    ensures Exec(INITIAL, [Execute(p)] + es, max) == Alone(p, n, false)
  {
    hide Emitted;
    ExecMore(INITIAL, [], Execute(p), max);
    assert [] + [Execute(p)] == [Execute(p)];
    var s := Step(INITIAL, Execute(p), max);
    assert s == State([Execution(p, 0, None, 0, false, false)], {0}, []);
    es := GoesAhead(s, 0, n, max);
    ExecConcat(INITIAL, [Execute(p)], es, max);
    hide Exec, Step;
    assert Emitted(p)[0..n] == Emitted(p)[..n];
    assert [] + Entries(0, Emitted(p)[..n]) == Entries(0, Emitted(p)[..n]);
  }

  /** It ends, with nothing but its own events. */
  lemma EndsAlone(p: Plan, max: int) returns (es: seq<Event>)
    requires 0 <= max
    ensures Exec(INITIAL, [Execute(p)] + es, max) == Alone(p, |Emitted(p)|, true)
    ensures Own(Alone(p, |Emitted(p)|, true).log, 0) == Emitted(p)
  {
    hide Emitted, Own;
    var n := |Emitted(p)|;
    var init := RunsAlone(p, n, max);
    es := init + [End(0)];
    assert [Execute(p)] + es == [Execute(p)] + init + [End(0)];
    ExecMore(INITIAL, [Execute(p)] + init, End(0), max);
    OwnOfEntries([], 0, Emitted(p), 0);
    assert Own([], 0) == [] by { OwnOfStranger([], 0); }
    assert Emitted(p)[..n] == Emitted(p);
    hide Exec, Entries;
    assert [] + Entries(0, Emitted(p)) == Entries(0, Emitted(p)) && [] + Emitted(p) == Emitted(p);
    assert {0} - {0} == {};
  }

  /** A host call whose entity is found only after the execution has ended: its event comes after the terminal one. */
  lemma AsksTooLate(p: Plan, max: int) returns (es: seq<Event>)
    requires 0 <= max && HookBegun(Emitted(p))
    ensures var s := Exec(INITIAL, [Execute(p)] + es, max);
            && |s.executions| == 2 && s.executions[0] == Execution(p, 0, None, |Emitted(p)|, true, false)
            && Own(s.log, 0) == Emitted(p) + [NestedStarted]
  {
    hide Emitted, Own, HookBegun, SignalFired;
    var init := EndsAlone(p, max);
    var s, q := Alone(p, |Emitted(p)|, true), p.(resolved := true, abortedAtStart := true);
    es := init + [Ask(0, q)];
    assert [Execute(p)] + es == [Execute(p)] + init + [Ask(0, q)];
    ExecMore(INITIAL, [Execute(p)] + init, Ask(0, q), max);
    assert Emitted(p)[..|Emitted(p)|] == Emitted(p);
    OwnSnoc(s.log, 0, NestedStarted, 0);
    hide Exec;
  }

  lemma {:induction false} GoesOn(s: State, es: seq<Event>, max: int)
    requires Inv(s, max)
    ensures Inv(Exec(s, es, max), max) && GoOn(s, Exec(s, es, max), max)
  {
    if es == [] {
      ScriptsFit(s, max);
      hide ScriptOf, Inv;
    } else {
      var init, e := es[..|es| - 1], es[|es| - 1];
      GoesOn(s, init, max);
      var t := Exec(s, init, max);
      StepKeepsInv(t, e, max);
      ScriptsFit(Step(t, e, max), max);
      StepGoesOn(t, e, max);
      hide Inv, Step, ScriptOf;
    }
  }

  lemma StepGoesOn(s: State, e: Event, max: int)
    ensures var t := Step(s, e, max);
            |s.executions| <= |t.executions| && forall c | 0 <= c < |s.executions| ::
              var x, y := s.executions[c], t.executions[c];
              y.plan == x.plan && y.depth == x.depth && y.parent == x.parent && x.emitted <= y.emitted
  {
    hide MayAsk, ScriptOf, RejectsAt;
  }

  lemma FollowsToEnd(p: Plan, es: seq<Event>, max: int)
    requires 0 <= max && !HookBegun(Emitted(p)) && (Completed in Emitted(p) ==> p.savesCompleted)
    ensures var s := Exec(INITIAL, [Execute(p)] + es, max);
            && |s.executions| > 0
            && (s.executions[0].ended ==> Follows(Own(s.log, 0), Sources(p), TestSources(p), p.test))
  {
    EmittedFollowsExactly(p);
    EveryRunKeepsInv([Execute(p)], max);
    var first := Exec(INITIAL, [Execute(p)], max);
    ExecMore(INITIAL, [], Execute(p), max);
    assert [] + [Execute(p)] == [Execute(p)];
    assert first == State([Execution(p, 0, None, 0, false, false)], {0}, []);
    ExecConcat(INITIAL, [Execute(p)], es, max);
    hide Exec, Emitted, Follows, Own, HookBegun, Sources, TestSources;
    GoesOn(first, es, max);
    var s := Exec(INITIAL, [Execute(p)] + es, max);
    assert OnScript(s, 0, max);
    if s.executions[0].ended {
      EndedIsWhole(s, 0, max);
      MainOfMain(Own(s.log, 0));
    }
  }

  /**
   * Whatever the host calls do: the events under the id of an execution are one whole execution in all runs, if and only if it does not
   * complete and then fail to save its history, and starts no hook at all.
   */
  lemma EveryRunFollowsExactly(p: Plan, max: int)
    requires 0 <= max
    ensures (forall es :: Ends(p, es, max) ==> Follows(Own(Exec(INITIAL, [Execute(p)] + es, max).log, 0), Sources(p), TestSources(p), p.test))
       <==> (Completed in Emitted(p) ==> p.savesCompleted) && !HookBegun(Emitted(p))
  {
    hide Emitted, Follows, Own, HookBegun, Exec, Sources, TestSources;
    EmittedFollowsExactly(p);
    if !(Completed in Emitted(p) ==> p.savesCompleted) {
      var es := EndsAlone(p, max);
      assert Ends(p, es, max);
    } else if HookBegun(Emitted(p)) {
      var es := AsksTooLate(p, max);
      assert Ends(p, es, max);
      NothingFollowsTheEnd(Emitted(p), NestedStarted, Sources(p), TestSources(p), p.test);
    } else {
      forall es | Ends(p, es, max)
        ensures Follows(Own(Exec(INITIAL, [Execute(p)] + es, max).log, 0), Sources(p), TestSources(p), p.test)
      {
        FollowsToEnd(p, es, max);
      }
    }
  }

  predicate Ends(p: Plan, es: seq<Event>, max: int) {
    var s := Exec(INITIAL, [Execute(p)] + es, max); |s.executions| > 0 && s.executions[0].ended
  }

  lemma NothingFollowsTheEnd(kinds: seq<Kind>, k: Kind, sources: seq<Id>, tests: seq<Id>, test: bool)
    requires Follows(kinds, sources, tests, test)
    ensures !Follows(kinds + [k], sources, tests, test)
  {
    assert (kinds + [k])[..|kinds|] == kinds;
  }

  /** Some run that begins with the execution of the plan leads there. */
  ghost predicate Reachable(p: Plan, s: State, max: int) {
    exists es :: Exec(INITIAL, [Execute(p)] + es, max) == s
  }

  lemma ReachesMore(p: Plan, s: State, e: Event, max: int)
    requires Reachable(p, s, max)
    ensures Reachable(p, Step(s, e, max), max)
  {
    hide Exec, Step;
    var es :| Exec(INITIAL, [Execute(p)] + es, max) == s;
    ExecMore(INITIAL, [Execute(p)] + es, e, max);
    assert [Execute(p)] + (es + [e]) == [Execute(p)] + es + [e];
  }

  lemma ReachesAhead(p: Plan, s: State, c: nat, n: nat, max: int)
    requires Reachable(p, s, max) && c < |s.executions| && s.executions[c].emitted + n <= |ScriptOf(s.executions[c], max)|
    ensures Reachable(p, Ahead(s, c, n, max), max)
  {
    hide Exec, Ahead, ScriptOf;
    var es :| Exec(INITIAL, [Execute(p)] + es, max) == s;
    var more := GoesAhead(s, c, n, max);
    ExecConcat(INITIAL, [Execute(p)] + es, more, max);
    assert [Execute(p)] + (es + more) == [Execute(p)] + es + more;
  }

  /** When the nested execution has emitted everything, and then the one that asked for it. */
  function Both(p: Plan, q: Plan, k: nat): State
    requires k <= |Emitted(p)|
  {
    State([Execution(p, 0, None, |Emitted(p)|, false, false), Execution(q, 1, Some(0), |Emitted(q)|, false, false)], {0, 1},
          Entries(0, Emitted(p)[..k]) + [Entry(0, NestedStarted)] + Entries(1, Emitted(q)) + Entries(0, Emitted(p)[k..]))
  }

  lemma ReachesBoth(p: Plan, q: Plan, k: nat, max: int)
    requires 1 <= max && k <= |Emitted(p)| && HookBegun(Emitted(p)[..k]) && MayNest(p, q, k)
    ensures Reachable(p, Both(p, q, k), max)
  {
    hide Emitted, HookBegun, Exec, Entries, Attempt, IsStopped;
    var s := Alone(p, k, false);
    var es := RunsAlone(p, k, max);
    assert Reachable(p, s, max);
    var t := Step(s, Ask(0, q), max);
    ReachesMore(p, s, Ask(0, q), max);
    assert t == State([Execution(p, 0, None, k, false, false), Execution(q, 1, Some(0), 0, false, false)], {0} + {1},
                      Entries(0, Emitted(p)[..k]) + [Entry(0, NestedStarted)]);
    hide Reachable, Step;
    ReachesAhead(p, t, 1, |Emitted(q)|, max);
    var u := Ahead(t, 1, |Emitted(q)|, max);
    assert Emitted(q)[0..0 + |Emitted(q)|] == Emitted(q);
    ReachesAhead(p, u, 0, |Emitted(p)| - k, max);
    assert Emitted(p)[k..k + (|Emitted(p)| - k)] == Emitted(p)[k..];
    assert {0} + {1} == {0, 1};
    var v := Ahead(u, 0, |Emitted(p)| - k, max);
    assert v.executions == Both(p, q, k).executions;
    assert v.log == Both(p, q, k).log;
  }

  lemma LogOfBoth(p: Plan, q: Plan, k: nat)
    requires k <= |Emitted(p)|
    ensures var log := Both(p, q, k).log;
            Own(log, 0) == Emitted(p)[..k] + [NestedStarted] + Emitted(p)[k..] && Own(log, 1) == Emitted(q)
  {
    hide Emitted, Own;
    var a, b, d := Emitted(p)[..k], Emitted(p)[k..], Emitted(q);
    assert Own([], 0) == [] && Own([], 1) == [] by { OwnOfStranger([], 0); OwnOfStranger([], 1); }
    OwnOfEntries([], 0, a, 0);
    OwnOfEntries([], 0, a, 1);
    assert [] + Entries(0, a) == Entries(0, a);
    OwnSnoc(Entries(0, a), 0, NestedStarted, 0);
    OwnSnoc(Entries(0, a), 0, NestedStarted, 1);
    var log := Entries(0, a) + [Entry(0, NestedStarted)];
    OwnOfEntries(log, 1, d, 0);
    OwnOfEntries(log, 1, d, 1);
    OwnOfEntries(log + Entries(1, d), 0, b, 0);
    OwnOfEntries(log + Entries(1, d), 0, b, 1);
    hide Entries;
    assert [] + a == a && [] + d == d;
  }

  /** An execution with n events behind it may start the other one: when its attempt was aborted, all that follows is stopped. */
  predicate MayNest(p: Plan, q: Plan, n: nat) {
    Attempt(p).aborted && n >= |Attempt(p).kinds| ==> IsStopped(q)
  }

  /**
   * For any point after the start of a hook: a nested execution can start there, and be reported after the execution that asked for it
   * has ended. So it goes when a script does not wait for it. Behind the last hook of an aborted attempt the nested one is stopped too.
   */
  lemma ReportsTooLate(p: Plan, q: Plan, k: nat, max: int) returns (s: State)
    requires 1 <= max && k <= |Emitted(p)| && HookBegun(Emitted(p)[..k]) && MayNest(p, q, k) && !Rejects(q)
    ensures Reachable(p, s, max) && |s.executions| == 2 && s.executions[0].ended && s.executions[1].ended && s.active == {}
    ensures Own(s.log, 0) == Emitted(p)[..k] + [NestedStarted] + Emitted(p)[k..] + [NestedCompleted]
    ensures Own(s.log, 1) == Emitted(q)
  {
    hide Emitted, Own, HookBegun, Rejects, Reachable;
    var t := Both(p, q, k);
    ReachesBoth(p, q, k, max);
    ReachesMore(p, t, End(0), max);
    var u := Step(t, End(0), max);
    assert u == t.(executions := [t.executions[0].(ended := true), t.executions[1]], active := {0, 1} - {0});
    ReachesMore(p, u, End(1), max);
    var v := Step(u, End(1), max);
    assert v == t.(executions := [t.executions[0].(ended := true), t.executions[1].(ended := true)], active := {0, 1} - {0} - {1});
    ReachesMore(p, v, Report(1), max);
    s := Step(v, Report(1), max);
    assert s.log == t.log + [Entry(0, NestedCompleted)];
    LogOfBoth(p, q, k);
    OwnSnoc(t.log, 0, NestedCompleted, 0);
    OwnSnoc(t.log, 0, NestedCompleted, 1);
    assert {0, 1} - {0} - {1} == {};
    hide Step, Both;
    assert Emitted(q) + [] == Emitted(q);
  }
}
