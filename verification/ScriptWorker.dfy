/** The script worker as a state machine: four modes, two pending maps, and callers that wait for the worker. */
module ScriptWorker {
  import opened Wrappers

  datatype Mode = Initializing | Ready | Executing | Terminated

  datatype Promise = Waiting | Resolved | Rejected

  datatype Call = Execute | Hook(hasSignal: bool, timed: bool)

  /** A call that waits for the ready promise it was given; without a promise it goes on at once. */
  datatype Waiter = Waiter(call: nat, promise: Option<nat>)

  datatype Request = Request(id: nat, call: nat, logs: seq<nat>)

  datatype Cause = ByAnswer | ByTimeout | ByAbort | ByReset | AlreadyAborted | StartFailed

  datatype Outcome = Outcome(call: nat, id: Option<nat>, cause: Cause, logs: seq<nat>)

  datatype Post = Run(id: nat) | HostResult(id: nat) | Cancel(id: nat) | Farewell

  datatype State = State(
    calls: seq<Call>,
    aborted: set<nat>,         // calls whose signal has fired
    waiters: seq<Waiter>,
    requests: seq<Request>,    // pendingRequests, in insertion order
    hooks: seq<Request>,       // pendingRuntimeRequests, in insertion order
    timers: set<nat>,
    listeners: set<nat>,
    controllers: set<nat>,     // hook requests whose controller was aborted
    nextId: nat,
    outcomes: seq<Outcome>,
    mode: Mode,
    promises: seq<Promise>,
    current: Option<nat>,      // readyPromise
    monitor: bool,             // the heartbeat check is scheduled
    live: bool,                // the strategy was started and not terminated since
    hostCalls: seq<nat>,
    posts: seq<Post>,
    terminations: nat)         // calls of onTerminate

  const INITIAL: State :=
    State([], {}, [], [], [], {}, {}, {}, 0, [], Terminated, [], None, false, false, [], [], 0)

  datatype Event =
    | Start(started: bool)
    | Issue(call: Call, started: bool, abortedBefore: bool)
    | Resume(waiter: nat)
    | Heartbeat
    | ReadyMessage
    | ExecutionMessage(id: nat)          // execution-success or execution-error
    | LogMessage(id: nat, log: nat)
    | HookMessage(id: nat, logs: seq<nat>, failed: bool)   // result or error
    | HostCallMessage(id: nat)
    | HostCallReturns(index: nat)
    | WorkerError
    | WorkerExit(code: int)
    | HeartbeatCheck(lost: bool)
    | TimerFires(id: nat)
    | SignalAborts(request: nat)         // the abort listener of a hook request
    | SignalAbortsEarly(caller: nat)     // the signal of a call that has no listener yet
    | Terminate
    | Dispose

  // ---------------------------------------------------------------- pending maps

  function IndexOf(ps: seq<Request>, id: nat): (i: nat)
    ensures i <= |ps| && (i < |ps| ==> ps[i].id == id) && forall k | 0 <= k < i :: ps[k].id != id
  {
    if ps == [] || ps[0].id == id then 0 else 1 + IndexOf(ps[1..], id)
  }

  predicate Holds(ps: seq<Request>, id: nat) {
    IndexOf(ps, id) < |ps|
  }

  function Without<T>(s: seq<T>, i: nat): seq<T>
    requires i < |s|
  {
    s[..i] + s[i + 1..]
  }

  function IdsOf(ps: seq<Request>): (r: set<nat>)
    ensures forall id :: id in r <==> exists i :: 0 <= i < |ps| && ps[i].id == id
  {
    set i | 0 <= i < |ps| :: ps[i].id
  }

  /** What every request settles with when all are rejected. */
  function Rejections(ps: seq<Request>, cause: Cause): (r: seq<Outcome>)
    ensures |r| == |ps| && forall i | 0 <= i < |ps| :: r[i] == Outcome(ps[i].call, Some(ps[i].id), cause, [])
  {
    seq(|ps|, i requires 0 <= i < |ps| => Outcome(ps[i].call, Some(ps[i].id), cause, []))
  }

  /** An execute request is answered, or its timer fires. */
  function SettleRequest(s: State, id: nat, cause: Cause): State
    requires Holds(s.requests, id)
  {
    var i := IndexOf(s.requests, id);
    s.(requests := Without(s.requests, i), timers := s.timers - {id},
       outcomes := s.outcomes + [Outcome(s.requests[i].call, Some(id), cause, [])])
  }

  /** takeRuntimeRequest, then resolve or reject. */
  function SettleHook(s: State, id: nat, cause: Cause, logs: seq<nat>): State
    requires Holds(s.hooks, id)
  {
    var i := IndexOf(s.hooks, id);
    s.(hooks := Without(s.hooks, i), timers := s.timers - {id}, listeners := s.listeners - {id},
       outcomes := s.outcomes + [Outcome(s.hooks[i].call, Some(id), cause, logs)])
  }

  // ---------------------------------------------------------------- the end of a worker

  /** Both maps are emptied, execute requests first. */
  function RejectAll(s: State, cause: Cause): State {
    s.(requests := [], hooks := [],
       timers := s.timers - IdsOf(s.requests) - IdsOf(s.hooks), listeners := s.listeners - IdsOf(s.hooks),
       controllers := s.controllers + IdsOf(s.hooks),
       outcomes := s.outcomes + Rejections(s.requests, cause) + Rejections(s.hooks, cause))
  }

  function Cleanup(s: State): State {
    s.(mode := Terminated, monitor := false, live := false, current := None, terminations := s.terminations + 1)
  }

  /** resetWorker */
  function Reset(s: State): State {
    var t := RejectAll(s, ByReset);
    if s.mode.Terminated? then t else Cleanup(t)
  }

  /** Rejects the ready promise of a worker that is starting. */
  function RejectReady(s: State): State {
    if s.mode.Initializing? && s.current.Some? && s.current.value < |s.promises| && s.promises[s.current.value] == Waiting
    then s.(promises := s.promises[s.current.value := Rejected]) else s
  }

  function HardCancel(s: State, id: nat, cause: Cause): State {
    if !Holds(s.hooks, id) then s
    else
      var t := SettleHook(s, id, cause, []);
      Reset(t.(controllers := t.controllers + {id}, posts := t.posts + [Cancel(id)]))
  }

  // ---------------------------------------------------------------- the start of a worker

  datatype Ensured = Ensured(state: State, promise: Option<nat>)

  /** ensureWorker; started tells whether the strategy starts without an error. */
  function EnsureWorker(s: State, started: bool): Ensured {
    if !s.mode.Terminated? then Ensured(s, s.current)
    else
      var p := |s.promises|;
      var t := s.(mode := Initializing, promises := s.promises + [Waiting], current := Some(p), live := started);
      Ensured(if started then t.(monitor := true) else Reset(RejectReady(t)), Some(p))
  }

  /** execute and invokeRuntimeHook up to their await. */
  function IssueCall(s: State, call: Call, started: bool, abortedBefore: bool): State {
    var n := |s.calls|;
    var t := s.(calls := s.calls + [call]);
    if call.Hook? && call.hasSignal && abortedBefore then
      t.(aborted := t.aborted + {n}, outcomes := t.outcomes + [Outcome(n, None, AlreadyAborted, [])])
    else
      var e := EnsureWorker(t, started);
      e.state.(waiters := e.state.waiters + [Waiter(n, e.promise)])
  }

  /** Whether the promise a caller awaits has settled. */
  predicate MayResume(s: State, w: Waiter) {
    w.call < |s.calls| && (w.promise.Some? ==> w.promise.value < |s.promises| && s.promises[w.promise.value] != Waiting)
  }

  function Register(s: State, call: nat): State
    requires call < |s.calls|
  {
    var id := s.nextId;
    var t := s.(nextId := id + 1, mode := Executing, posts := s.posts + [Run(id)]);
    match s.calls[call]
    case Execute => t.(requests := s.requests + [Request(id, call, [])], timers := s.timers + {id})
    case Hook(hasSignal, timed) =>
      t.(hooks := s.hooks + [Request(id, call, [])],
         timers := if timed then s.timers + {id} else s.timers,
         listeners := if hasSignal then s.listeners + {id} else s.listeners)
  }

  /** The callers after their await. */
  function ResumeCall(s: State, i: nat): State
    requires i < |s.waiters| && MayResume(s, s.waiters[i])
  {
    var w := s.waiters[i];
    var t := s.(waiters := Without(s.waiters, i));
    if w.promise.Some? && s.promises[w.promise.value] == Rejected then
      t.(outcomes := t.outcomes + [Outcome(w.call, None, StartFailed, [])])
    else if s.calls[w.call].Hook? && w.call in s.aborted then
      t.(outcomes := t.outcomes + [Outcome(w.call, None, AlreadyAborted, [])])
    else Register(t, w.call)
  }

  /** The timer of a request. */
  function TimeOut(s: State, id: nat): State {
    var t := s.(timers := s.timers - {id});
    if Holds(s.requests, id) then SettleRequest(t, id, ByTimeout) else HardCancel(t, id, ByTimeout)
  }

  /** The abort listener of a hook request. */
  function Abort(s: State, id: nat): State {
    var i := IndexOf(s.hooks, id);
    var t := s.(listeners := s.listeners - {id});
    if i < |s.hooks| then HardCancel(t.(aborted := t.aborted + {s.hooks[i].call}), id, ByAbort) else t
  }

  // ---------------------------------------------------------------- the steps

  predicate Enabled(s: State, e: Event) {
    match e
    case Resume(i) => i < |s.waiters| && MayResume(s, s.waiters[i])
    case HostCallReturns(i) => i < |s.hostCalls|
    case HeartbeatCheck(_) => s.monitor
    case TimerFires(id) => id in s.timers
    case SignalAborts(id) => id in s.listeners
    case SignalAbortsEarly(n) =>
      n < |s.calls| && s.calls[n].Hook? && s.calls[n].hasSignal && exists i | 0 <= i < |s.waiters| :: s.waiters[i].call == n
    case _ => true
  }

  function Act(s: State, e: Event): State
    requires Enabled(s, e)
  {
    match e
    case Start(started) => EnsureWorker(s, started).state
    case Issue(call, started, abortedBefore) => IssueCall(s, call, started, abortedBefore)
    case Resume(i) => ResumeCall(s, i)
    case Heartbeat => s
    case ReadyMessage =>
      var t := s.(mode := Ready);
      if s.current.Some? && s.current.value < |s.promises| && s.promises[s.current.value] == Waiting
      then t.(promises := s.promises[s.current.value := Resolved]) else t
    case ExecutionMessage(id) => if Holds(s.requests, id) then SettleRequest(s, id, ByAnswer).(mode := Ready) else s
    case LogMessage(id, log) =>
      var i := IndexOf(s.hooks, id);
      if i < |s.hooks| then s.(hooks := s.hooks[i := s.hooks[i].(logs := s.hooks[i].logs + [log])]) else s
    case HookMessage(id, logs, failed) =>
      if !Holds(s.hooks, id) then s
      else SettleHook(s, id, ByAnswer, if failed then [] else s.hooks[IndexOf(s.hooks, id)].logs + logs).(mode := Ready)
    case HostCallMessage(id) => if Holds(s.hooks, id) then s.(hostCalls := s.hostCalls + [id]) else s
    case HostCallReturns(i) =>
      var t := s.(hostCalls := Without(s.hostCalls, i));
      if Holds(s.hooks, s.hostCalls[i]) && !s.mode.Terminated? then t.(posts := t.posts + [HostResult(s.hostCalls[i])]) else t
    case WorkerError => Reset(RejectReady(s))
    case WorkerExit(_) => if s.mode.Terminated? then s else Reset(RejectReady(s))
    case HeartbeatCheck(lost) => if s.mode.Terminated? then s.(monitor := false) else if lost then Reset(s) else s
    case TimerFires(id) => TimeOut(s, id)
    case SignalAborts(id) => Abort(s, id)
    case SignalAbortsEarly(n) => s.(aborted := s.aborted + {n})
    case Terminate => Reset(s)
    case Dispose => Reset(if s.mode.Terminated? then s else s.(posts := s.posts + [Farewell]))
  }

  function Step(s: State, e: Event): State {
    if Enabled(s, e) then Act(s, e) else s
  }

  function Exec(s: State, es: seq<Event>): State {
    if es == [] then s else Step(Exec(s, es[..|es| - 1]), es[|es| - 1])
  }

  // ---------------------------------------------------------------- the invariant

  function SettledIds(outcomes: seq<Outcome>, id: nat): nat {
    if outcomes == [] then 0
    else SettledIds(outcomes[..|outcomes| - 1], id) + if outcomes[|outcomes| - 1].id == Some(id) then 1 else 0
  }

  function SettledCalls(outcomes: seq<Outcome>, call: nat): nat {
    if outcomes == [] then 0
    else SettledCalls(outcomes[..|outcomes| - 1], call) + if outcomes[|outcomes| - 1].call == call then 1 else 0
  }

  function PendingIds(ps: seq<Request>, id: nat): nat {
    if ps == [] then 0 else PendingIds(ps[..|ps| - 1], id) + if ps[|ps| - 1].id == id then 1 else 0
  }

  function PendingCalls(ps: seq<Request>, call: nat): nat {
    if ps == [] then 0 else PendingCalls(ps[..|ps| - 1], call) + if ps[|ps| - 1].call == call then 1 else 0
  }

  function WaitingCalls(ws: seq<Waiter>, call: nat): nat {
    if ws == [] then 0 else WaitingCalls(ws[..|ws| - 1], call) + if ws[|ws| - 1].call == call then 1 else 0
  }

  /** How often a request id occurs: as settled, as a pending execute request, as a pending hook request. */
  function IdTotal(s: State, id: nat): nat {
    SettledIds(s.outcomes, id) + PendingIds(s.requests, id) + PendingIds(s.hooks, id)
  }

  /** How often a call occurs: as settled, as waiting for the worker, as the call of a pending request. */
  function CallTotal(s: State, call: nat): nat {
    SettledCalls(s.outcomes, call) + WaitingCalls(s.waiters, call) + PendingCalls(s.requests, call) + PendingCalls(s.hooks, call)
  }

  /** Every registered request is pending or settled, and only once. */
  ghost predicate RequestsAccounted(s: State) {
    forall id: nat :: IdTotal(s, id) == if id < s.nextId then 1 else 0
  }

  /** Every call waits for the worker, has a pending request, or has settled, and only once. */
  ghost predicate CallsAccounted(s: State) {
    forall call: nat :: CallTotal(s, call) == if call < |s.calls| then 1 else 0
  }

  predicate TerminatedIsEmpty(s: State) {
    s.mode.Terminated? ==> s.requests == [] && s.hooks == []
  }

  /** Timers and listeners belong to pending requests. */
  predicate Tidy(s: State) {
    && (forall id | id in s.timers :: id in IdsOf(s.requests) || id in IdsOf(s.hooks))
    && (forall id | id in s.listeners :: id in IdsOf(s.hooks))
    && (forall i | 0 <= i < |s.requests| :: s.requests[i].id in s.timers)
    && (forall i | 0 <= i < |s.hooks| :: HookTidy(s, s.hooks[i]))
  }

  /** A pending hook request has a timer and a listener exactly as its call asked for them. */
  predicate HookTidy(s: State, r: Request) {
    r.call < |s.calls| && s.calls[r.call].Hook?
    && (r.id in s.timers <==> s.calls[r.call].timed)
    && (r.id in s.listeners <==> s.calls[r.call].hasSignal)
  }

  /** A starting worker has a ready promise; a terminated one has none, and no strategy runs. */
  predicate PromisesFine(s: State) {
    && (s.mode.Initializing? ==> s.current.Some?)
    && (s.mode.Terminated? ==> s.current == None && !s.live)
    && (s.current.Some? ==> s.current.value < |s.promises| && (s.mode.Initializing? ==> s.promises[s.current.value] == Waiting))
  }

  predicate Shape(s: State) {
    TerminatedIsEmpty(s) && Tidy(s) && PromisesFine(s)
  }

  ghost predicate Inv(s: State) {
    RequestsAccounted(s) && CallsAccounted(s) && Shape(s)
  }

  // ---------------------------------------------------------------- counting

  lemma {:induction false} PendingConcat(a: seq<Request>, b: seq<Request>, n: nat)
    ensures PendingIds(a + b, n) == PendingIds(a, n) + PendingIds(b, n)
    ensures PendingCalls(a + b, n) == PendingCalls(a, n) + PendingCalls(b, n)
  {
    if b == [] {
      assert a + b == a;
    } else {
      assert (a + b)[..|a + b| - 1] == a + b[..|b| - 1];
      PendingConcat(a, b[..|b| - 1], n);
    }
  }

  lemma {:induction false} WaitingConcat(a: seq<Waiter>, b: seq<Waiter>, n: nat)
    ensures WaitingCalls(a + b, n) == WaitingCalls(a, n) + WaitingCalls(b, n)
  {
    if b == [] {
      assert a + b == a;
    } else {
      assert (a + b)[..|a + b| - 1] == a + b[..|b| - 1];
      WaitingConcat(a, b[..|b| - 1], n);
    }
  }

  lemma {:induction false} SettledConcat(a: seq<Outcome>, b: seq<Outcome>, n: nat)
    ensures SettledIds(a + b, n) == SettledIds(a, n) + SettledIds(b, n)
    ensures SettledCalls(a + b, n) == SettledCalls(a, n) + SettledCalls(b, n)
  {
    if b == [] {
      assert a + b == a;
    } else {
      assert (a + b)[..|a + b| - 1] == a + b[..|b| - 1];
      SettledConcat(a, b[..|b| - 1], n);
    }
  }

  function One(b: bool): nat {
    if b then 1 else 0
  }

  lemma OneMore(ps: seq<Request>, r: Request, n: nat)
    ensures PendingIds(ps + [r], n) == PendingIds(ps, n) + One(r.id == n)
    ensures PendingCalls(ps + [r], n) == PendingCalls(ps, n) + One(r.call == n)
  {
    assert (ps + [r])[..|ps|] == ps;
  }

  lemma OneMoreWaiter(ws: seq<Waiter>, w: Waiter, n: nat)
    ensures WaitingCalls(ws + [w], n) == WaitingCalls(ws, n) + One(w.call == n)
  {
    assert (ws + [w])[..|ws|] == ws;
  }

  lemma OneMoreOutcome(os: seq<Outcome>, o: Outcome, n: nat)
    ensures SettledIds(os + [o], n) == SettledIds(os, n) + One(o.id == Some(n))
    ensures SettledCalls(os + [o], n) == SettledCalls(os, n) + One(o.call == n)
  {
    assert (os + [o])[..|os|] == os;
  }

  lemma OneLess(ps: seq<Request>, i: nat, n: nat)
    requires i < |ps|
    ensures PendingIds(Without(ps, i), n) + One(ps[i].id == n) == PendingIds(ps, n)
    ensures PendingCalls(Without(ps, i), n) + One(ps[i].call == n) == PendingCalls(ps, n)
  {
    hide PendingIds, PendingCalls;
    var a, b := ps[..i], ps[i + 1..];
    assert ps == (a + [ps[i]]) + b;
    PendingConcat(a + [ps[i]], b, n);
    OneMore(a, ps[i], n);
    PendingConcat(a, b, n);
  }

  lemma OneLessWaiter(ws: seq<Waiter>, i: nat, n: nat)
    requires i < |ws|
    ensures WaitingCalls(Without(ws, i), n) + One(ws[i].call == n) == WaitingCalls(ws, n)
  {
    hide WaitingCalls;
    var a, b := ws[..i], ws[i + 1..];
    assert ws == (a + [ws[i]]) + b;
    WaitingConcat(a + [ws[i]], b, n);
    OneMoreWaiter(a, ws[i], n);
    WaitingConcat(a, b, n);
  }

  lemma {:induction false} RejectionsCount(ps: seq<Request>, cause: Cause, n: nat)
    ensures SettledIds(Rejections(ps, cause), n) == PendingIds(ps, n)
    ensures SettledCalls(Rejections(ps, cause), n) == PendingCalls(ps, n)
  {
    if ps != [] {
      var k := |ps| - 1;
      assert Rejections(ps, cause)[..k] == Rejections(ps[..k], cause);
      RejectionsCount(ps[..k], cause, n);
    }
  }

  lemma CountAt(ps: seq<Request>, i: nat)
    requires i < |ps|
    ensures PendingIds(ps, ps[i].id) >= 1
  {
    OneLess(ps, i, ps[i].id);
  }

  lemma CountTwice(ps: seq<Request>, i: nat, j: nat)
    requires i < j < |ps| && ps[i].id == ps[j].id
    ensures PendingIds(ps, ps[i].id) >= 2
  {
    hide PendingIds;
    OneLess(ps, j, ps[j].id);
    CountAt(Without(ps, j), i);
  }

  /** The pending ids are distinct and known. */
  predicate IdsFine(s: State) {
    && (forall i, j | 0 <= i < j < |s.requests| :: s.requests[i].id != s.requests[j].id)
    && (forall i, j | 0 <= i < j < |s.hooks| :: s.hooks[i].id != s.hooks[j].id)
    && (forall i, j | 0 <= i < |s.requests| && 0 <= j < |s.hooks| :: s.requests[i].id != s.hooks[j].id)
    && (forall i | 0 <= i < |s.requests| :: s.requests[i].id < s.nextId)
    && (forall i | 0 <= i < |s.hooks| :: s.hooks[i].id < s.nextId)
  }

  lemma IdsAreFine(s: State)
    requires RequestsAccounted(s)
    ensures IdsFine(s)
  {
    hide PendingIds, SettledIds;
    forall i, j | 0 <= i < j < |s.requests| ensures s.requests[i].id != s.requests[j].id {
      assert IdTotal(s, s.requests[i].id) <= 1;
      if s.requests[i].id == s.requests[j].id { CountTwice(s.requests, i, j); }
    }
    forall i, j | 0 <= i < j < |s.hooks| ensures s.hooks[i].id != s.hooks[j].id {
      assert IdTotal(s, s.hooks[i].id) <= 1;
      if s.hooks[i].id == s.hooks[j].id { CountTwice(s.hooks, i, j); }
    }
    forall i | 0 <= i < |s.requests| ensures s.requests[i].id < s.nextId {
      CountAt(s.requests, i);
      assert IdTotal(s, s.requests[i].id) >= 1;
    }
    forall i | 0 <= i < |s.hooks| ensures s.hooks[i].id < s.nextId {
      CountAt(s.hooks, i);
      assert IdTotal(s, s.hooks[i].id) >= 1;
    }
    forall i, j | 0 <= i < |s.requests| && 0 <= j < |s.hooks| ensures s.requests[i].id != s.hooks[j].id {
      CountAt(s.requests, i);
      CountAt(s.hooks, j);
      assert IdTotal(s, s.requests[i].id) <= 1;
    }
  }

  // ---------------------------------------------------------------- accounting

  /** The totals of t are those of s, with the requests and calls that are new in t counted once. */
  predicate Counts(s: State, t: State, n: nat) {
    && s.nextId <= t.nextId && |s.calls| <= |t.calls|
    && IdTotal(t, n) == IdTotal(s, n) + One(s.nextId <= n < t.nextId)
    && CallTotal(t, n) == CallTotal(s, n) + One(|s.calls| <= n < |t.calls|)
  }

  /** The two states hold the same calls, requests and outcomes. */
  predicate SameLedger(s: State, t: State) {
    && t.calls == s.calls && t.waiters == s.waiters && t.requests == s.requests && t.hooks == s.hooks
    && t.nextId == s.nextId && t.outcomes == s.outcomes
  }

  lemma SameLedgerCounts(s: State, u: State, t: State, n: nat)
    requires Counts(s, u, n) && SameLedger(u, t)
    ensures Counts(s, t, n)
  {
    hide PendingIds, PendingCalls, SettledIds, SettledCalls, WaitingCalls;
  }

  lemma NothingCounts(s: State, n: nat)
    ensures Counts(s, s, n)
  {
  }

  lemma SettleRequestCounts(s: State, id: nat, cause: Cause, n: nat)
    requires Holds(s.requests, id)
    ensures Counts(s, SettleRequest(s, id, cause), n)
  {
    hide PendingIds, PendingCalls, SettledIds, SettledCalls, WaitingCalls, Without;
    var i := IndexOf(s.requests, id);
    OneLess(s.requests, i, n);
    OneMoreOutcome(s.outcomes, Outcome(s.requests[i].call, Some(id), cause, []), n);
  }

  lemma SettleHookCounts(s: State, id: nat, cause: Cause, logs: seq<nat>, n: nat)
    requires Holds(s.hooks, id)
    ensures Counts(s, SettleHook(s, id, cause, logs), n)
  {
    hide PendingIds, PendingCalls, SettledIds, SettledCalls, WaitingCalls, Without;
    var i := IndexOf(s.hooks, id);
    OneLess(s.hooks, i, n);
    OneMoreOutcome(s.outcomes, Outcome(s.hooks[i].call, Some(id), cause, logs), n);
  }

  lemma RejectAllCounts(s: State, cause: Cause, n: nat)
    ensures Counts(s, RejectAll(s, cause), n)
  {
    var a, b := Rejections(s.requests, cause), Rejections(s.hooks, cause);
    assert PendingIds([], n) == 0 && PendingCalls([], n) == 0;
    hide PendingIds, PendingCalls, SettledIds, SettledCalls, WaitingCalls;
    RejectionsCount(s.requests, cause, n);
    RejectionsCount(s.hooks, cause, n);
    SettledConcat(s.outcomes + a, b, n);
    SettledConcat(s.outcomes, a, n);
  }

  lemma RegisterCounts(s: State, call: nat, n: nat)
    requires call < |s.calls|
    ensures IdTotal(Register(s, call), n) == IdTotal(s, n) + One(n == s.nextId)
    ensures CallTotal(Register(s, call), n) == CallTotal(s, n) + One(n == call)
  {
    hide PendingIds, PendingCalls, SettledIds, SettledCalls, WaitingCalls;
    var r := Request(s.nextId, call, []);
    OneMore(s.requests, r, n);
    OneMore(s.hooks, r, n);
  }

  lemma ResetCounts(s: State, n: nat)
    ensures Counts(s, Reset(s), n) && Reset(s).nextId == s.nextId && Reset(s).calls == s.calls && Reset(s).waiters == s.waiters
  {
    hide PendingIds, PendingCalls, SettledIds, SettledCalls, WaitingCalls;
    RejectAllCounts(s, ByReset, n);
  }

  lemma HardCancelCounts(s: State, id: nat, cause: Cause, n: nat)
    ensures Counts(s, HardCancel(s, id, cause), n)
  {
    hide PendingIds, PendingCalls, SettledIds, SettledCalls, WaitingCalls, Reset;
    if Holds(s.hooks, id) {
      SettleHookCounts(s, id, cause, [], n);
      var t := SettleHook(s, id, cause, []);
      ResetCounts(t.(controllers := t.controllers + {id}, posts := t.posts + [Cancel(id)]), n);
    }
  }

  lemma EnsureCounts(s: State, started: bool, n: nat)
    ensures var t := EnsureWorker(s, started).state;
            Counts(s, t, n) && t.nextId == s.nextId && t.calls == s.calls && t.waiters == s.waiters
  {
    hide PendingIds, PendingCalls, SettledIds, SettledCalls, WaitingCalls, Reset;
    if s.mode.Terminated? && !started {
      var t := s.(mode := Initializing, promises := s.promises + [Waiting], current := Some(|s.promises|), live := started);
      ResetCounts(RejectReady(t), n);
    }
  }

  lemma IssueCounts(s: State, call: Call, started: bool, abortedBefore: bool, n: nat)
    ensures Counts(s, IssueCall(s, call, started, abortedBefore), n)
  {
    hide PendingIds, PendingCalls, SettledIds, SettledCalls, WaitingCalls, EnsureWorker;
    var t := s.(calls := s.calls + [call]);
    OneMoreOutcome(t.outcomes, Outcome(|s.calls|, None, AlreadyAborted, []), n);
    EnsureCounts(t, started, n);
    var e := EnsureWorker(t, started);
    OneMoreWaiter(t.waiters, Waiter(|s.calls|, e.promise), n);
  }

  lemma ResumeCounts(s: State, i: nat, n: nat)
    requires i < |s.waiters| && MayResume(s, s.waiters[i])
    ensures Counts(s, ResumeCall(s, i), n)
  {
    hide PendingIds, PendingCalls, SettledIds, SettledCalls, WaitingCalls, Without;
    var w := s.waiters[i];
    var t := s.(waiters := Without(s.waiters, i));
    OneLessWaiter(s.waiters, i, n);
    OneMoreOutcome(t.outcomes, Outcome(w.call, None, StartFailed, []), n);
    OneMoreOutcome(t.outcomes, Outcome(w.call, None, AlreadyAborted, []), n);
    RegisterCounts(t, w.call, n);
  }

  lemma LogCounts(s: State, id: nat, log: nat, n: nat)
    ensures Counts(s, Act(s, LogMessage(id, log)), n)
  {
    var i := IndexOf(s.hooks, id);
    if i < |s.hooks| {
      var r := s.hooks[i].(logs := s.hooks[i].logs + [log]);
      var hooks := s.hooks[i := r];
      assert Without(hooks, i) == Without(s.hooks, i);
      OneLess(s.hooks, i, n);
      OneLess(hooks, i, n);
      hide PendingIds, PendingCalls, SettledIds, SettledCalls, WaitingCalls, Without, IndexOf;
    }
  }

  predicate IsMessage(e: Event) {
    e.ExecutionMessage? || e.LogMessage? || e.HookMessage? || e.HostCallMessage? || e.HostCallReturns? || e.ReadyMessage? || e.Heartbeat?
  }

  lemma MessageCounts(s: State, e: Event, n: nat)
    requires Enabled(s, e) && IsMessage(e)
    ensures Counts(s, Act(s, e), n)
  {
    NothingCounts(s, n);
    hide IdTotal, CallTotal, IndexOf, Counts, SettleRequest, SettleHook;
    if e.ExecutionMessage? && Holds(s.requests, e.id) {
      AnswerCounts(s, e.id, n);
    } else if e.HookMessage? && Holds(s.hooks, e.id) {
      HookAnswerCounts(s, e.id, if e.failed then [] else s.hooks[IndexOf(s.hooks, e.id)].logs + e.logs, n);
    } else if e.LogMessage? {
      LogCounts(s, e.id, e.log, n);
    } else {
      SameLedgerCounts(s, s, Act(s, e), n);
    }
  }

  lemma AnswerCounts(s: State, id: nat, n: nat)
    requires Holds(s.requests, id)
    ensures Counts(s, SettleRequest(s, id, ByAnswer).(mode := Ready), n)
  {
    var u := SettleRequest(s, id, ByAnswer);
    assert SameLedger(u, u.(mode := Ready));
    hide *;
    SettleRequestCounts(s, id, ByAnswer, n);
    SameLedgerCounts(s, u, u.(mode := Ready), n);
  }

  lemma HookAnswerCounts(s: State, id: nat, logs: seq<nat>, n: nat)
    requires Holds(s.hooks, id)
    ensures Counts(s, SettleHook(s, id, ByAnswer, logs).(mode := Ready), n)
  {
    var u := SettleHook(s, id, ByAnswer, logs);
    assert SameLedger(u, u.(mode := Ready));
    hide *;
    SettleHookCounts(s, id, ByAnswer, logs, n);
    SameLedgerCounts(s, u, u.(mode := Ready), n);
  }

  /** Counting goes through two steps when the first leaves the ledger alone. */
  lemma CountsAfter(s: State, u: State, t: State, n: nat)
    requires SameLedger(s, u) && Counts(u, t, n)
    ensures Counts(s, t, n)
  {
    hide PendingIds, PendingCalls, SettledIds, SettledCalls, WaitingCalls;
  }

  lemma TimerCounts(s: State, id: nat, n: nat)
    requires id in s.timers
    ensures Counts(s, Act(s, TimerFires(id)), n)
  {
    hide IdTotal, CallTotal, SettleRequest, HardCancel, Counts, IndexOf;
    var t := s.(timers := s.timers - {id});
    if Holds(s.requests, id) {
      SettleRequestCounts(t, id, ByTimeout, n);
    } else {
      HardCancelCounts(t, id, ByTimeout, n);
    }
    CountsAfter(s, t, Act(s, TimerFires(id)), n);
  }

  lemma AbortCounts(s: State, id: nat, n: nat)
    requires id in s.listeners
    ensures Counts(s, Act(s, SignalAborts(id)), n)
  {
    hide IdTotal, CallTotal, HardCancel, Counts, IndexOf;
    NothingCounts(s, n);
    var i := IndexOf(s.hooks, id);
    var t := s.(listeners := s.listeners - {id});
    if i < |s.hooks| {
      var u := t.(aborted := t.aborted + {s.hooks[i].call});
      HardCancelCounts(u, id, ByAbort, n);
      CountsAfter(s, u, Act(s, SignalAborts(id)), n);
    } else {
      SameLedgerCounts(s, s, t, n);
    }
  }

  lemma ResetStepCounts(s: State, e: Event, n: nat)
    requires e.WorkerError? || e.WorkerExit? || e.HeartbeatCheck? || e.Terminate? || e.Dispose?
    ensures Counts(s, Step(s, e), n)
  {
    hide IdTotal, CallTotal, Reset, Counts, IndexOf;
    NothingCounts(s, n);
    var u := if e.Dispose? && !s.mode.Terminated? then s.(posts := s.posts + [Farewell])
             else if e.WorkerError? || e.WorkerExit? then RejectReady(s) else s;
    SameLedgerCounts(s, s, s.(monitor := false), n);
    ResetCounts(u, n);
    CountsAfter(s, u, Reset(u), n);
  }

  lemma StepCounts(s: State, e: Event, n: nat)
    ensures Counts(s, Step(s, e), n)
  {
    NothingCounts(s, n);
    if Enabled(s, e) {
      if e.Start? {
        EnsureCounts(s, e.started, n);
      } else if e.Issue? {
        IssueCounts(s, e.call, e.started, e.abortedBefore, n);
      } else if e.Resume? {
        ResumeCounts(s, e.waiter, n);
      } else if IsMessage(e) {
        MessageCounts(s, e, n);
      } else if e.TimerFires? {
        TimerCounts(s, e.id, n);
      } else if e.SignalAborts? {
        AbortCounts(s, e.request, n);
      } else if e.SignalAbortsEarly? {
        SameLedgerCounts(s, s, s.(aborted := s.aborted + {e.caller}), n);
      } else {
        ResetStepCounts(s, e, n);
      }
      hide Counts, EnsureWorker, IssueCall, ResumeCall, IndexOf, Reset, RejectReady, HardCancel, SettleRequest, SettleHook;
    }
  }

  lemma StepAccounts(s: State, e: Event)
    requires RequestsAccounted(s) && CallsAccounted(s)
    ensures RequestsAccounted(Step(s, e)) && CallsAccounted(Step(s, e))
  {
    hide Step, IdTotal, CallTotal;
    forall n: nat ensures IdTotal(Step(s, e), n) == if n < Step(s, e).nextId then 1 else 0 {
      StepCounts(s, e, n);
    }
    forall n: nat ensures CallTotal(Step(s, e), n) == if n < |Step(s, e).calls| then 1 else 0 {
      StepCounts(s, e, n);
    }
  }

  // ---------------------------------------------------------------- timers, listeners, modes

  lemma WithoutAt(ps: seq<Request>, i: nat)
    requires i < |ps|
    ensures |Without(ps, i)| == |ps| - 1
    ensures forall k | 0 <= k < i :: Without(ps, i)[k] == ps[k]
    ensures forall k | i <= k < |ps| - 1 :: Without(ps, i)[k] == ps[k + 1]
  {
  }

  lemma IdsWithout(ps: seq<Request>, i: nat)
    requires i < |ps| && forall j, k | 0 <= j < k < |ps| :: ps[j].id != ps[k].id
    ensures IdsOf(Without(ps, i)) == IdsOf(ps) - {ps[i].id}
    ensures forall k | 0 <= k < |Without(ps, i)| :: Without(ps, i)[k] in ps && Without(ps, i)[k].id != ps[i].id
  {
    var w := Without(ps, i);
    WithoutAt(ps, i);
    hide Without;
    forall id | id in IdsOf(w) ensures id in IdsOf(ps) && id != ps[i].id {
      var k :| 0 <= k < |w| && w[k].id == id;
      assert w[k] == if k < i then ps[k] else ps[k + 1];
    }
    forall id | id in IdsOf(ps) && id != ps[i].id ensures id in IdsOf(w) {
      var k :| 0 <= k < |ps| && ps[k].id == id;
      assert if k < i then w[k].id == id else w[k - 1].id == id;
    }
    forall k | 0 <= k < |w| ensures w[k] in ps && w[k].id != ps[i].id {
      assert w[k] == if k < i then ps[k] else ps[k + 1];
    }
  }

  /** Tidy looks at the pending requests, the timers and listeners, and the calls. */
  lemma TidyFrame(s: State, t: State)
    requires Tidy(s) && t.requests == s.requests && t.timers == s.timers && t.listeners == s.listeners && t.calls == s.calls
    requires |t.hooks| == |s.hooks|
    requires forall k | 0 <= k < |s.hooks| :: t.hooks[k].id == s.hooks[k].id && t.hooks[k].call == s.hooks[k].call
    ensures Tidy(t)
  {
    assert IdsOf(t.hooks) == IdsOf(s.hooks) by {
      forall k | 0 <= k < |s.hooks| ensures t.hooks[k].id in IdsOf(s.hooks) && s.hooks[k].id in IdsOf(t.hooks) {
        assert t.hooks[k].id == s.hooks[k].id;
      }
    }
    hide IdsOf;
    forall k | 0 <= k < |t.hooks| ensures HookTidy(t, t.hooks[k]) { assert HookTidy(s, s.hooks[k]); }
  }

  lemma HoldsIffIn(ps: seq<Request>, id: nat)
    ensures Holds(ps, id) <==> id in IdsOf(ps)
  {
  }

  lemma SettleRequestTidy(s: State, id: nat, cause: Cause)
    requires Tidy(s) && IdsFine(s) && Holds(s.requests, id)
    ensures Tidy(SettleRequest(s, id, cause))
  {
    var i := IndexOf(s.requests, id);
    var t := SettleRequest(s, id, cause);
    IdsWithout(s.requests, i);
    hide IndexOf, Without, IdsOf;
    forall k | 0 <= k < |t.requests| ensures t.requests[k].id in t.timers {
      var j :| 0 <= j < |s.requests| && s.requests[j] == t.requests[k];
    }
  }

  lemma SettleHookTidy(s: State, id: nat, cause: Cause, logs: seq<nat>)
    requires Tidy(s) && IdsFine(s) && Holds(s.hooks, id)
    ensures Tidy(SettleHook(s, id, cause, logs))
  {
    var i := IndexOf(s.hooks, id);
    var t := SettleHook(s, id, cause, logs);
    IdsWithout(s.hooks, i);
    hide IndexOf, Without, IdsOf;
    forall k | 0 <= k < |t.hooks| ensures HookTidy(t, t.hooks[k]) {
      var j :| 0 <= j < |s.hooks| && s.hooks[j] == t.hooks[k];
      assert HookTidy(s, s.hooks[j]);
    }
  }

  lemma ResetShape(s: State)
    requires Tidy(s) && (s.mode.Terminated? ==> s.current == None && !s.live)
    ensures Shape(Reset(s)) && Reset(s).mode == Terminated && Reset(s).timers == {} && Reset(s).listeners == {}
  {
  }

  lemma RegisterTidy(s: State, call: nat)
    requires Tidy(s) && IdsFine(s) && call < |s.calls|
    ensures Tidy(Register(s, call))
  {
    var t := Register(s, call);
    var id := s.nextId;
    assert id !in s.timers && id !in s.listeners;
    assert forall k | 0 <= k < |s.requests| :: t.requests[k] == s.requests[k];
    assert forall k | 0 <= k < |s.hooks| :: t.hooks[k] == s.hooks[k] && HookTidy(s, s.hooks[k]);
    assert IdsOf(s.requests) <= IdsOf(t.requests) by { SubIds(s.requests, t.requests); }
    assert IdsOf(s.hooks) <= IdsOf(t.hooks) by { SubIds(s.hooks, t.hooks); }
    if s.calls[call].Execute? {
      assert t.requests[|s.requests|].id == id;
    } else {
      assert t.hooks[|s.hooks|].id == id;
    }
    hide IdsOf;
    forall k | 0 <= k < |t.hooks| ensures HookTidy(t, t.hooks[k]) {}
  }

  lemma SubIds(a: seq<Request>, b: seq<Request>)
    requires a <= b
    ensures IdsOf(a) <= IdsOf(b)
  {
    forall k | 0 <= k < |a| ensures a[k].id in IdsOf(b) { assert b[k] == a[k]; }
  }

  lemma EnsureShape(s: State, started: bool)
    requires Shape(s)
    ensures Shape(EnsureWorker(s, started).state)
  {
    if s.mode.Terminated? && !started {
      var t := s.(mode := Initializing, promises := s.promises + [Waiting], current := Some(|s.promises|), live := started);
      assert Tidy(RejectReady(t));
      ResetShape(RejectReady(t));
      hide Tidy, Reset;
    }
  }

  lemma CallsExtend(s: State, call: Call)
    requires Shape(s)
    ensures Shape(s.(calls := s.calls + [call]))
  {
    var t := s.(calls := s.calls + [call]);
    forall i | 0 <= i < |t.hooks| ensures HookTidy(t, t.hooks[i]) { assert HookTidy(s, s.hooks[i]); }
    hide IdsOf;
  }

  lemma IssueShape(s: State, call: Call, started: bool, abortedBefore: bool)
    requires Shape(s)
    ensures Shape(IssueCall(s, call, started, abortedBefore))
  {
    CallsExtend(s, call);
    var t := s.(calls := s.calls + [call]);
    EnsureShape(t, started);
    var u := EnsureWorker(t, started).state;
    hide EnsureWorker, IdsOf;
  }

  lemma HardCancelShape(s: State, id: nat, cause: Cause)
    requires Shape(s) && IdsFine(s)
    ensures Shape(HardCancel(s, id, cause))
  {
    if Holds(s.hooks, id) {
      SettleHookTidy(s, id, cause, []);
      var t := SettleHook(s, id, cause, []);
      var u := t.(controllers := t.controllers + {id}, posts := t.posts + [Cancel(id)]);
      hide Tidy, Reset, IndexOf;
      TidyFrame(t, u);
      ResetShape(u);
    }
  }

  /** The timer or the listener that fired is gone already; removing it again changes nothing. */
  lemma CancelAgain(s: State, id: nat, cause: Cause)
    requires Holds(s.hooks, id)
    ensures HardCancel(s.(timers := s.timers - {id}), id, cause) == HardCancel(s, id, cause)
    ensures HardCancel(s.(listeners := s.listeners - {id}), id, cause) == HardCancel(s, id, cause)
  {
    assert s.timers - {id} - {id} == s.timers - {id} && s.listeners - {id} - {id} == s.listeners - {id};
    assert SettleHook(s.(timers := s.timers - {id}), id, cause, []) == SettleHook(s, id, cause, []);
    assert SettleHook(s.(listeners := s.listeners - {id}), id, cause, []) == SettleHook(s, id, cause, []);
    hide Reset, SettleHook, IndexOf;
  }

  lemma TimerShape(s: State, id: nat)
    requires Shape(s) && IdsFine(s) && id in s.timers
    ensures Shape(TimeOut(s, id))
  {
    HoldsIffIn(s.requests, id);
    HoldsIffIn(s.hooks, id);
    assert TerminatedIsEmpty(s) && Tidy(s);
    hide Tidy, IndexOf, HardCancel;
    if Holds(s.requests, id) {
      assert s.timers - {id} - {id} == s.timers - {id};
      assert SettleRequest(s.(timers := s.timers - {id}), id, ByTimeout) == SettleRequest(s, id, ByTimeout);
      SettleRequestTidy(s, id, ByTimeout);
    } else {
      CancelAgain(s, id, ByTimeout);
      HardCancelShape(s, id, ByTimeout);
    }
  }

  lemma AbortShape(s: State, id: nat)
    requires Shape(s) && IdsFine(s) && id in s.listeners
    ensures Shape(Abort(s, id))
  {
    ListenerIsHeld(s, id);
    hide Tidy, HardCancel, IndexOf, IdsFine;
    var t := s.(aborted := s.aborted + {s.hooks[IndexOf(s.hooks, id)].call});
    CancelAgain(t, id, ByAbort);
    MarkedShape(s, t);
    HardCancelShape(t, id, ByAbort);
    hide Shape;
  }

  lemma ListenerIsHeld(s: State, id: nat)
    requires Shape(s) && id in s.listeners
    ensures Holds(s.hooks, id)
  {
    HoldsIffIn(s.hooks, id);
  }

  lemma MarkedShape(s: State, t: State)
    requires Shape(s) && IdsFine(s) && t == s.(aborted := t.aborted)
    ensures Shape(t) && IdsFine(t)
  {
    hide Tidy;
    TidyFrame(s, t);
  }

  lemma MessageShape(s: State, e: Event)
    requires Shape(s) && IdsFine(s) && Enabled(s, e) && IsMessage(e)
    ensures Shape(Act(s, e))
  {
    hide IdsOf, IndexOf, Tidy, IdsFine;
    if e.ExecutionMessage? && Holds(s.requests, e.id) {
      SettleRequestTidy(s, e.id, ByAnswer);
      ReadyShape(SettleRequest(s, e.id, ByAnswer));
    } else if e.HookMessage? && Holds(s.hooks, e.id) {
      var logs := if e.failed then [] else s.hooks[IndexOf(s.hooks, e.id)].logs + e.logs;
      SettleHookTidy(s, e.id, ByAnswer, logs);
      ReadyShape(SettleHook(s, e.id, ByAnswer, logs));
    } else if e.LogMessage? {
      LogShape(s, e.id, e.log);
    } else if e.ReadyMessage? {
      ReadyShape(s);
      TidyFrame(s, Act(s, e));
    } else {
      TidyFrame(s, Act(s, e));
    }
  }

  lemma ReadyShape(s: State)
    requires Tidy(s) && (s.current.Some? ==> s.current.value < |s.promises|)
    ensures Shape(s.(mode := Ready))
  {
    hide Tidy;
    TidyFrame(s, s.(mode := Ready));
  }

  lemma LogShape(s: State, id: nat, log: nat)
    requires Shape(s)
    ensures Shape(Act(s, LogMessage(id, log)))
  {
    var t := Act(s, LogMessage(id, log));
    hide Tidy;
    TidyFrame(s, t);
  }

  lemma StepKeepsInv(s: State, e: Event)
    requires Inv(s)
    ensures Inv(Step(s, e))
  {
    StepAccounts(s, e);
    IdsAreFine(s);
    if Enabled(s, e) { StepShape(s, e); }
    hide RequestsAccounted, CallsAccounted, Shape;
  }

  lemma StepShape(s: State, e: Event)
    requires Shape(s) && IdsFine(s) && Enabled(s, e)
    ensures Shape(Act(s, e))
  {
    if e.Start? {
      EnsureShape(s, e.started);
    } else if e.Issue? {
      IssueShape(s, e.call, e.started, e.abortedBefore);
    } else if e.Resume? {
      ResumeShape(s, e.waiter);
    } else if IsMessage(e) {
      MessageShape(s, e);
    } else if e.TimerFires? {
      TimerShape(s, e.id);
    } else if e.SignalAborts? {
      AbortShape(s, e.request);
    } else {
      OtherShape(s, e);
    }
    hide Shape, EnsureWorker, IssueCall, ResumeCall, IndexOf, Reset, RejectReady, HardCancel, SettleRequest, SettleHook;
  }

  lemma ResumeShape(s: State, i: nat)
    requires Shape(s) && IdsFine(s) && i < |s.waiters| && MayResume(s, s.waiters[i])
    ensures Shape(ResumeCall(s, i))
  {
    var t := s.(waiters := Without(s.waiters, i));
    assert IdsFine(t);
    hide Tidy, Without, IdsFine;
    TidyFrame(s, t);
    RegisterTidy(t, s.waiters[i].call);
    var o := Outcome(s.waiters[i].call, None, StartFailed, []);
    TidyFrame(s, t.(outcomes := t.outcomes + [o]));
    TidyFrame(s, t.(outcomes := t.outcomes + [o.(cause := AlreadyAborted)]));
  }

  lemma EndShape(s: State, u: State)
    requires Shape(s) && u.requests == s.requests && u.hooks == s.hooks && u.timers == s.timers && u.listeners == s.listeners
    requires u.calls == s.calls && u.mode == s.mode && u.current == s.current && u.live == s.live
    ensures Shape(Reset(u))
  {
    hide Tidy, Reset;
    TidyFrame(s, u);
    ResetShape(u);
  }

  lemma OtherShape(s: State, e: Event)
    requires Shape(s) && Enabled(s, e)
    requires e.WorkerError? || e.WorkerExit? || e.HeartbeatCheck? || e.Terminate? || e.Dispose? || e.SignalAbortsEarly?
    ensures Shape(Act(s, e))
  {
    hide Reset, Tidy, IndexOf;
    match e
    case SignalAbortsEarly(call) => TidyFrame(s, s.(aborted := s.aborted + {call}));
    case HeartbeatCheck(lost) =>
      TidyFrame(s, s.(monitor := false));
      EndShape(s, s);
    case WorkerError => EndShape(s, RejectReady(s));
    case WorkerExit(code) => EndShape(s, RejectReady(s));
    case Terminate => EndShape(s, s);
    case Dispose => EndShape(s, if s.mode.Terminated? then s else s.(posts := s.posts + [Farewell]));
  }

  /** The invariant holds in every run: in particular a terminated worker has no pending request. */
  lemma {:induction false} EveryRunKeepsInv(es: seq<Event>)
    ensures Inv(Exec(INITIAL, es))
  {
    if es != [] {
      hide Step;
      EveryRunKeepsInv(es[..|es| - 1]);
      StepKeepsInv(Exec(INITIAL, es[..|es| - 1]), es[|es| - 1]);
    }
  }

  // ---------------------------------------------------------------- every request settles once

  lemma {:induction false} PendingCount(ps: seq<Request>, id: nat)
    ensures PendingIds(ps, id) > 0 <==> Holds(ps, id)
  {
    hide PendingIds;
    if Holds(ps, id) {
      CountAt(ps, IndexOf(ps, id));
    } else {
      NotPending(ps, id);
    }
  }

  lemma {:induction false} NotPending(ps: seq<Request>, id: nat)
    requires forall k | 0 <= k < |ps| :: ps[k].id != id
    ensures PendingIds(ps, id) == 0
  {
    if ps != [] { NotPending(ps[..|ps| - 1], id); }
  }

  /** In every run a registered request is pending in one map, or settled once and pending nowhere. */
  lemma EachRequestOnce(es: seq<Event>, id: nat)
    requires id < Exec(INITIAL, es).nextId
    ensures var s := Exec(INITIAL, es);
            && (SettledIds(s.outcomes, id) == 0 || SettledIds(s.outcomes, id) == 1)
            && (SettledIds(s.outcomes, id) == 0 <==> Holds(s.requests, id) || Holds(s.hooks, id))
            && !(Holds(s.requests, id) && Holds(s.hooks, id))
  {
    EveryRunKeepsInv(es);
    var s := Exec(INITIAL, es);
    hide Exec, SettledIds, PendingIds, Shape, CallsAccounted, Holds;
    assert IdTotal(s, id) == 1;
    PendingCount(s.requests, id);
    PendingCount(s.hooks, id);
  }

  /** In every run a call that was made waits for the worker, has one pending request, or has settled once. */
  lemma EachCallOnce(es: seq<Event>, call: nat)
    requires call < |Exec(INITIAL, es).calls|
    ensures var s := Exec(INITIAL, es);
            SettledCalls(s.outcomes, call) + WaitingCalls(s.waiters, call)
            + PendingCalls(s.requests, call) + PendingCalls(s.hooks, call) == 1
  {
    EveryRunKeepsInv(es);
    hide Exec, SettledCalls, WaitingCalls, PendingCalls, Shape, RequestsAccounted;
    assert CallTotal(Exec(INITIAL, es), call) == 1;
  }

  /** The id a worker message speaks about, in the map that it looks into. */
  predicate Addresses(s: State, e: Event, id: nat) {
    match e
    case ExecutionMessage(i) => i == id
    case LogMessage(i, _) => i == id
    case HookMessage(i, _, _) => i == id
    case HostCallMessage(i) => i == id
    case _ => false
  }

  /** A message about a request that has settled changes nothing at all. */
  lemma SettledIsDeaf(es: seq<Event>, e: Event, id: nat)
    requires var s := Exec(INITIAL, es); SettledIds(s.outcomes, id) > 0 && Addresses(s, e, id)
    ensures Step(Exec(INITIAL, es), e) == Exec(INITIAL, es)
  {
    var s := Exec(INITIAL, es);
    EveryRunKeepsInv(es);
    assert IdTotal(s, id) >= 1;
    EachRequestOnce(es, id);
    hide Exec, SettledIds, IndexOf;
  }

  // ---------------------------------------------------------------- what settles a request

  /** The events after which every pending request is rejected. */
  predicate EndsWorker(s: State, e: Event) {
    e.WorkerError? || (e.WorkerExit? && !s.mode.Terminated?) || (e.HeartbeatCheck? && e.lost && !s.mode.Terminated?)
    || e.Terminate? || e.Dispose?
  }

  /** The events that may settle a request with a given cause. */
  predicate CausedBy(s: State, e: Event, o: Outcome) {
    match o.cause
    case ByAnswer => o.id.Some? && ((e == ExecutionMessage(o.id.value) && Holds(s.requests, o.id.value))
                                    || (e.HookMessage? && e.id == o.id.value && Holds(s.hooks, o.id.value)))
    case ByTimeout => o.id.Some? && e == TimerFires(o.id.value) && (Holds(s.requests, o.id.value) || Holds(s.hooks, o.id.value))
    case ByAbort => o.id.Some? && e == SignalAborts(o.id.value) && Holds(s.hooks, o.id.value)
    case ByReset => o.id.Some? && (Holds(s.requests, o.id.value) || Holds(s.hooks, o.id.value))
                    && (EndsWorker(s, e) || (e.TimerFires? && Holds(s.hooks, e.id) && e.id != o.id.value)
                        || (e.SignalAborts? && Holds(s.hooks, e.request) && e.request != o.id.value))
    case AlreadyAborted => o.id == None && (e.Resume? || (e.Issue? && e.abortedBefore && o.call == |s.calls|))
    case StartFailed => o.id == None && e.Resume?
  }

  predicate AllCausedBy(s: State, e: Event, t: State) {
    s.outcomes <= t.outcomes && forall k | |s.outcomes| <= k < |t.outcomes| :: CausedBy(s, e, t.outcomes[k])
  }

  lemma RejectionsAreHeld(ps: seq<Request>, k: nat)
    requires k < |ps|
    ensures Rejections(ps, ByReset)[k].id.Some? && Holds(ps, Rejections(ps, ByReset)[k].id.value)
  {
  }

  /** What a reset rejects was pending. */
  lemma ResetOutcomes(s: State)
    ensures var t := Reset(s);
            s.outcomes <= t.outcomes
            && forall k | |s.outcomes| <= k < |t.outcomes| ::
                 var o := t.outcomes[k];
                 o.cause == ByReset && o.id.Some? && (Holds(s.requests, o.id.value) || Holds(s.hooks, o.id.value))
  {
    var t := Reset(s);
    hide IdsOf, Rejections, Holds;
    assert t.outcomes == s.outcomes + Rejections(s.requests, ByReset) + Rejections(s.hooks, ByReset);
    forall k | |s.outcomes| <= k < |t.outcomes|
      ensures var o := t.outcomes[k];
              o.cause == ByReset && o.id.Some? && (Holds(s.requests, o.id.value) || Holds(s.hooks, o.id.value))
    {
      var i := k - |s.outcomes|;
      if i < |s.requests| { RejectionsAreHeld(s.requests, i); } else { RejectionsAreHeld(s.hooks, i - |s.requests|); }
    }
  }

  lemma HeldWithout(ps: seq<Request>, i: nat, id: nat)
    requires i < |ps| && Holds(Without(ps, i), id) && forall j, k | 0 <= j < k < |ps| :: ps[j].id != ps[k].id
    ensures Holds(ps, id) && id != ps[i].id
  {
    IdsWithout(ps, i);
    HoldsIffIn(ps, id);
    HoldsIffIn(Without(ps, i), id);
  }

  /** A hard cancel settles its own request with its own cause, and resets the rest. */
  lemma HardCancelOutcomes(s: State, id: nat, cause: Cause)
    requires IdsFine(s) && Holds(s.hooks, id)
    ensures var t := HardCancel(s, id, cause);
            s.outcomes < t.outcomes && t.outcomes[|s.outcomes|].cause == cause && t.outcomes[|s.outcomes|].id == Some(id)
            && forall k | |s.outcomes| < k < |t.outcomes| ::
                 var o := t.outcomes[k];
                 o.cause == ByReset && o.id.Some? && o.id.value != id && (Holds(s.requests, o.id.value) || Holds(s.hooks, o.id.value))
  {
    var i := IndexOf(s.hooks, id);
    var u := SettleHook(s, id, cause, []);
    var v := u.(controllers := u.controllers + {id}, posts := u.posts + [Cancel(id)]);
    ResetOutcomes(v);
    assert v.outcomes == s.outcomes + [Outcome(s.hooks[i].call, Some(id), cause, [])];
    assert v.hooks == Without(s.hooks, i) && v.requests == s.requests;
    hide Reset, Without, IndexOf;
    var t := HardCancel(s, id, cause);
    assert t == Reset(v);
    forall k | |s.outcomes| < k < |t.outcomes|
      ensures var o := t.outcomes[k];
              o.cause == ByReset && o.id.Some? && o.id.value != id && (Holds(s.requests, o.id.value) || Holds(s.hooks, o.id.value))
    {
      var o := t.outcomes[k];
      if Holds(v.hooks, o.id.value) {
        HeldWithout(s.hooks, i, o.id.value);
      } else {
        HeldElsewhere(s, o.id.value, id);
      }
    }
  }

  lemma HeldElsewhere(s: State, id: nat, other: nat)
    requires IdsFine(s) && Holds(s.requests, id) && Holds(s.hooks, other)
    ensures id != other
  {
  }

  lemma EnsureOutcomes(s: State, started: bool)
    requires TerminatedIsEmpty(s)
    ensures EnsureWorker(s, started).state.outcomes == s.outcomes
  {
  }

  /** A request settles only by its own answer, timeout or abort, or because its worker ends. */
  lemma StepCauses(s: State, e: Event)
    requires Inv(s)
    ensures AllCausedBy(s, e, Step(s, e))
  {
    IdsAreFine(s);
    if Enabled(s, e) {
      if e.TimerFires? {
        TimerCauses(s, e.id);
      } else if e.SignalAborts? {
        AbortCauses(s, e.request);
      } else if e.WorkerError? || e.WorkerExit? || e.HeartbeatCheck? || e.Terminate? || e.Dispose? {
        EndCauses(s, e);
      } else {
        assert TerminatedIsEmpty(s);
        QuietCauses(s, e);
      }
      hide RequestsAccounted, CallsAccounted, Shape, Act, AllCausedBy;
    }
  }

  lemma NothingToCancel(s: State, id: nat, cause: Cause)
    requires !Holds(s.hooks, id)
    ensures HardCancel(s, id, cause) == s
  {
  }

  lemma TimerCauses(s: State, id: nat)
    requires IdsFine(s) && id in s.timers
    ensures AllCausedBy(s, TimerFires(id), Act(s, TimerFires(id)))
  {
    hide HardCancel, Without, IndexOf;
    var t := s.(timers := s.timers - {id});
    if !Holds(s.requests, id) {
      if Holds(s.hooks, id) { HardCancelOutcomes(t, id, ByTimeout); } else { NothingToCancel(t, id, ByTimeout); }
    }
  }

  lemma AbortCauses(s: State, id: nat)
    requires IdsFine(s) && id in s.listeners
    ensures AllCausedBy(s, SignalAborts(id), Act(s, SignalAborts(id)))
  {
    hide HardCancel, Without, IndexOf;
    var i := IndexOf(s.hooks, id);
    var t := s.(listeners := s.listeners - {id});
    if i < |s.hooks| { HardCancelOutcomes(t.(aborted := t.aborted + {s.hooks[i].call}), id, ByAbort); }
  }

  lemma EndCauses(s: State, e: Event)
    requires e.WorkerError? || e.WorkerExit? || e.HeartbeatCheck? || e.Terminate? || e.Dispose?
    requires Enabled(s, e)
    ensures AllCausedBy(s, e, Act(s, e))
  {
    var u := if e.Dispose? && !s.mode.Terminated? then s.(posts := s.posts + [Farewell])
             else if e.WorkerError? || e.WorkerExit? then RejectReady(s) else s;
    ResetOutcomes(u);
    hide Reset, IndexOf;
  }

  lemma QuietCauses(s: State, e: Event)
    requires TerminatedIsEmpty(s) && Enabled(s, e)
    requires e.Start? || e.Issue? || e.Resume? || IsMessage(e) || e.SignalAbortsEarly?
    ensures AllCausedBy(s, e, Act(s, e))
  {
    hide EnsureWorker, IndexOf, Without;
    if e.Start? {
      EnsureOutcomes(s, e.started);
    } else if e.Issue? {
      EnsureOutcomes(s.(calls := s.calls + [e.call]), e.started);
    } else if IsMessage(e) {
      MessageCauses(s, e);
    } else if e.Resume? {
      ResumeCauses(s, e);
    }
    hide ResumeCall;
  }

  lemma MessageCauses(s: State, e: Event)
    requires Enabled(s, e) && IsMessage(e)
    ensures AllCausedBy(s, e, Act(s, e))
  {
    hide IndexOf, Without;
  }

  lemma ResumeCauses(s: State, e: Event)
    requires Enabled(s, e) && e.Resume?
    ensures AllCausedBy(s, e, Act(s, e))
  {
    hide IndexOf, Without;
  }

  /** A settled request stays settled as it is. */
  lemma {:induction false} OutcomesStay(s: State, es: seq<Event>)
    requires Inv(s)
    ensures Inv(Exec(s, es)) && s.outcomes <= Exec(s, es).outcomes
  {
    if es != [] {
      hide Inv, Step;
      OutcomesStay(s, es[..|es| - 1]);
      StepKeepsInv(Exec(s, es[..|es| - 1]), es[|es| - 1]);
      StepCauses(Exec(s, es[..|es| - 1]), es[|es| - 1]);
    }
  }

  /** What a step may post. */
  predicate PostsFine(s: State, t: State) {
    s.posts <= t.posts
    && forall k | |s.posts| <= k < |t.posts| && t.posts[k].HostResult? :: Holds(s.hooks, t.posts[k].id) && !s.mode.Terminated?
  }

  lemma ResetPosts(s: State)
    ensures Reset(s).posts == s.posts
  {
  }

  lemma EnsurePosts(s: State, started: bool)
    ensures EnsureWorker(s, started).state.posts == s.posts
  {
  }

  /** A host result is posted only for a request that is still pending on a worker that is not terminated. */
  lemma HostResultsArePending(s: State, e: Event)
    ensures PostsFine(s, Step(s, e))
  {
    if Enabled(s, e) {
      if e.Start? {
        EnsurePosts(s, e.started);
      } else if e.Issue? {
        EnsurePosts(s.(calls := s.calls + [e.call]), e.started);
      } else if e.TimerFires? || e.SignalAborts? {
        CancelStepPosts(s, e);
      } else if e.WorkerError? || e.WorkerExit? || e.HeartbeatCheck? || e.Terminate? || e.Dispose? {
        EndPosts(s, e);
      } else {
        OtherPosts(s, e);
      }
      hide EnsureWorker, IndexOf, Without, Reset, HardCancel, ResumeCall, SettleRequest, SettleHook, RejectReady;
    }
  }

  lemma EndPosts(s: State, e: Event)
    requires e.WorkerError? || e.WorkerExit? || e.HeartbeatCheck? || e.Terminate? || e.Dispose?
    ensures PostsFine(s, Step(s, e))
  {
    hide Reset, IndexOf;
    ResetPosts(s);
    ResetPosts(RejectReady(s));
    ResetPosts(s.(posts := s.posts + [Farewell]));
  }

  lemma CancelStepPosts(s: State, e: Event)
    requires Enabled(s, e) && (e.TimerFires? || e.SignalAborts?)
    ensures PostsFine(s, Act(s, e))
  {
    hide HardCancel, IndexOf, Without;
    if e.TimerFires? {
      CancelPosts(s.(timers := s.timers - {e.id}), e.id, ByTimeout);
    } else {
      var i := IndexOf(s.hooks, e.request);
      var t := s.(listeners := s.listeners - {e.request});
      if i < |s.hooks| { CancelPosts(t.(aborted := t.aborted + {s.hooks[i].call}), e.request, ByAbort); }
    }
  }

  lemma OtherPosts(s: State, e: Event)
    requires Enabled(s, e) && (e.Resume? || IsMessage(e) || e.SignalAbortsEarly?)
    ensures PostsFine(s, Act(s, e))
  {
    hide IndexOf, Without;
  }

  lemma CancelPosts(s: State, id: nat, cause: Cause)
    ensures HardCancel(s, id, cause).posts == if Holds(s.hooks, id) then s.posts + [Cancel(id)] else s.posts
  {
  }

  // ---------------------------------------------------------------- calls that wait for ever

  predicate Stranded(s: State, p: nat) {
    p < |s.promises| && s.promises[p] == Waiting && s.current != Some(p)
  }

  lemma ResetKeepsStranded(s: State, p: nat)
    requires Stranded(s, p)
    ensures Stranded(Reset(s), p)
  {
    hide IdsOf, Rejections;
  }

  lemma EnsureKeepsStranded(s: State, started: bool, p: nat)
    requires Stranded(s, p)
    ensures Stranded(EnsureWorker(s, started).state, p)
  {
    hide Reset;
    if s.mode.Terminated? && !started {
      var t := s.(mode := Initializing, promises := s.promises + [Waiting], current := Some(|s.promises|), live := started);
      ResetKeepsStranded(RejectReady(t), p);
    }
  }

  lemma StrandedStep(s: State, e: Event, p: nat)
    requires Stranded(s, p)
    ensures Stranded(Step(s, e), p)
  {
    hide IndexOf, Without, Reset, EnsureWorker, SettleHook, SettleRequest;
    if Enabled(s, e) {
      if e.Start? {
        EnsureKeepsStranded(s, e.started, p);
      } else if e.Issue? {
        EnsureKeepsStranded(s.(calls := s.calls + [e.call]), e.started, p);
      } else if e.TimerFires? || e.SignalAborts? || e.ExecutionMessage? || e.HookMessage? {
        SettleKeepsStranded(s, e, p);
        hide Act;
      } else if e.WorkerError? || e.WorkerExit? || e.HeartbeatCheck? || e.Terminate? || e.Dispose? {
        ResetKeepsStranded(s, p);
        ResetKeepsStranded(RejectReady(s), p);
        ResetKeepsStranded(s.(posts := s.posts + [Farewell]), p);
      }
    }
  }

  lemma CancelKeepsStranded(s: State, id: nat, cause: Cause, p: nat)
    requires Stranded(s, p)
    ensures Stranded(HardCancel(s, id, cause), p)
  {
    hide IndexOf, Without, Reset;
    if Holds(s.hooks, id) {
      var t := SettleHook(s, id, cause, []);
      ResetKeepsStranded(t.(controllers := t.controllers + {id}, posts := t.posts + [Cancel(id)]), p);
    }
  }

  lemma SettleKeepsStranded(s: State, e: Event, p: nat)
    requires Stranded(s, p) && Enabled(s, e) && (e.TimerFires? || e.SignalAborts? || e.ExecutionMessage? || e.HookMessage?)
    ensures Stranded(Act(s, e), p)
  {
    hide IndexOf, Without, HardCancel;
    if e.TimerFires? {
      CancelKeepsStranded(s.(timers := s.timers - {e.id}), e.id, ByTimeout, p);
    } else if e.SignalAborts? {
      var i := IndexOf(s.hooks, e.request);
      var t := s.(listeners := s.listeners - {e.request});
      if i < |s.hooks| { CancelKeepsStranded(t.(aborted := t.aborted + {s.hooks[i].call}), e.request, ByAbort, p); }
    }
  }

  lemma {:induction false} StrandedForever(s: State, es: seq<Event>, p: nat)
    requires Stranded(s, p)
    ensures Stranded(Exec(s, es), p)
  {
    if es != [] {
      hide Step;
      StrandedForever(s, es[..|es| - 1], p);
      StrandedStep(Exec(s, es[..|es| - 1]), es[|es| - 1], p);
    }
  }

  /** A call that waits for a promise can go on if and only if the promise has settled or is still the current one. */
  lemma WaitsForeverUnlessCurrent(s: State, p: nat)
    requires p < |s.promises|
    ensures (exists es :: p < |Exec(s, es).promises| && Exec(s, es).promises[p] != Waiting)
       <==> s.promises[p] != Waiting || s.current == Some(p)
  {
    if Stranded(s, p) {
      forall es ensures p < |Exec(s, es).promises| && Exec(s, es).promises[p] == Waiting { StrandedForever(s, es, p); }
    } else {
      var es: seq<Event> := if s.promises[p] != Waiting then [] else [ReadyMessage];
      assert [ReadyMessage][..0] == [] && Exec(s, []) == s;
      assert Exec(s, [ReadyMessage]) == Step(s, ReadyMessage);
      assert p < |Exec(s, es).promises| && Exec(s, es).promises[p] != Waiting;
    }
  }

  /** Terminating or disposing a worker that is starting leaves the calls that wait for it waiting; an error or exit does not. */
  lemma ResetStrands(s: State, e: Event)
    requires Inv(s) && s.mode.Initializing?
    ensures (e.Terminate? || e.Dispose? ==> Stranded(Step(s, e), s.current.value))
    ensures (e.WorkerError? || e.WorkerExit? ==> Step(s, e).promises[s.current.value] == Rejected)
  {
    hide IdsOf, Rejections;
  }

  // ---------------------------------------------------------------- a mode without a worker

  /** Unless it is terminated there is a worker. */
  predicate HasWorker(s: State) {
    !s.mode.Terminated? ==> s.live
  }

  /** A step that leaves the terminated mode without starting a worker. */
  predicate Wakes(s: State, e: Event) {
    s.mode.Terminated? && Enabled(s, e) &&
    match e
    case ReadyMessage => true
    case Resume(i) =>
      var w := s.waiters[i];
      (w.promise == None || s.promises[w.promise.value] == Resolved) && !(s.calls[w.call].Hook? && w.call in s.aborted)
    case _ => false
  }

  /** Every step but these keeps a worker behind every mode that needs one; these never do. */
  lemma HasWorkerExactly(s: State, e: Event)
    requires Inv(s) && HasWorker(s)
    ensures HasWorker(Step(s, e)) <==> !Wakes(s, e)
  {
    hide IdsOf, Rejections, Without, RequestsAccounted, CallsAccounted, Tidy, IndexOf;
    assert s.mode.Terminated? ==> s.requests == [] && s.hooks == [];
  }
}
