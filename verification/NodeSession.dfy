/** The Node runtime session as a state machine: calls, one worker at a time, and the pending invocation. */
module NodeSession {
  import opened Wrappers

  // ---------------------------------------------------------------- the state

  /** The start promise of a worker. */
  datatype Promise = Waiting | Resolved | Rejected

  datatype Worker = Worker(promise: Promise, ready: bool, startTimer: bool, errored: bool, exited: bool)

  /** The options of one invokeHook call: whether it has a signal, and a finite positive timeout. */
  datatype Call = Call(hasSignal: bool, timed: bool)

  datatype Pending = Pending(id: nat, call: nat, logs: seq<nat>)

  datatype Cause =
    | ByResult | ByError | ByTimeout | ByAbort | ByDispose | ByExit   // of a registered request
    | NotActive | AlreadyAborted | StartFailed                       // before a request was registered

  datatype Outcome = Outcome(call: nat, id: Option<nat>, cause: Cause, logs: seq<nat>)

  /** Where the call at the head of the queue stands. */
  datatype Phase =
    | Idle
    | Awaiting(worker: nat, current: bool)   // current: it was the session's worker already, so no start is awaited
    | Running(id: nat)

  datatype Post = Invoke(worker: nat, id: nat) | HostResult(worker: nat, id: nat) | Cancel(worker: nat, id: nat) | Farewell(worker: nat)

  datatype State = State(
    calls: seq<Call>,
    aborted: set<nat>,          // calls whose signal has fired
    phase: Phase,
    pending: seq<Pending>,      // in insertion order
    timers: set<nat>,           // requests whose timeout is armed
    listeners: set<nat>,        // requests whose abort listener is attached
    controllers: set<nat>,      // requests whose controller was aborted
    nextId: nat,
    outcomes: seq<Outcome>,     // in the order in which the calls settled
    disposed: bool,
    worker: Option<nat>,
    starting: Option<nat>,
    workers: seq<Worker>,
    hostCalls: seq<(nat, nat)>, // host calls in flight: worker and request
    posts: seq<Post>)

  const INITIAL: State :=
    State([], {}, Idle, [], {}, {}, {}, 0, [], false, None, None, [], [], [])

  datatype Event =
    | Start
    | InvokeHook(options: Call)
    | Begin                                   // the queue reaches the next call
    | Resume                                  // the awaited worker is there, or has failed to start
    | SignalAborts(call: nat)
    | TimerFires(id: nat)
    | Ready(worker: nat)
    | StartTimerFires(worker: nat)
    | WorkerError(worker: nat)
    | WorkerExit(worker: nat, code: int)
    | LogMessage(id: nat, log: nat)
    | ResultMessage(id: nat, logs: seq<nat>)
    | ErrorMessage(worker: nat, id: nat, unhandled: bool)
    | HostCallMessage(worker: nat, id: nat)
    | HostCallReturns(index: nat)
    | Dispose

  // ---------------------------------------------------------------- pending requests

  /** The position of a pending request; the number of pending requests if it is not pending. */
  function IndexOf(pending: seq<Pending>, id: nat): (i: nat)
    ensures i <= |pending| && (i < |pending| ==> pending[i].id == id) && forall k | 0 <= k < i :: pending[k].id != id
  {
    if pending == [] || pending[0].id == id then 0 else 1 + IndexOf(pending[1..], id)
  }

  predicate IsPending(s: State, id: nat) {
    IndexOf(s.pending, id) < |s.pending|
  }

  function Without(pending: seq<Pending>, i: nat): seq<Pending>
    requires i < |pending|
  {
    pending[..i] + pending[i + 1..]
  }

  /** takePending, then resolve or reject: the promise of the call settles and the queue moves on. */
  function Settle(s: State, id: nat, cause: Cause, logs: seq<nat>): State
    requires IsPending(s, id)
  {
    var i := IndexOf(s.pending, id);
    s.(pending := Without(s.pending, i), timers := s.timers - {id}, listeners := s.listeners - {id},
       outcomes := s.outcomes + [Outcome(s.pending[i].call, Some(id), cause, logs)],
       phase := if s.phase == Running(id) then Idle else s.phase)
  }

  function HardCancel(s: State, id: nat, cause: Cause): State {
    if !IsPending(s, id) then s
    else
      var t := Settle(s, id, cause, []);
      t.(controllers := t.controllers + {id}, worker := None,
         posts := if t.worker.Some? then t.posts + [Cancel(t.worker.value, id)] else t.posts)
  }

  /** Rejects every pending request, oldest first. */
  function RejectAll(s: State, cause: Cause): State
    decreases |s.pending|
  {
    if s.pending == [] then s
    else
      var id := s.pending[0].id;
      RejectAll(Settle(s, id, cause, []).(controllers := s.controllers + {id}), cause)
  }

  /** A call that fails before a request is registered. */
  function Fail(s: State, cause: Cause): State {
    s.(outcomes := s.outcomes + [Outcome(|s.outcomes|, None, cause, [])], phase := Idle)
  }

  // ---------------------------------------------------------------- workers

  datatype Ensured = Ensured(state: State, worker: nat, current: bool)

  /** ensureWorker of an active session: the current worker, the one that is starting, or a new one. */
  function EnsureWorker(s: State): Ensured {
    if s.worker.Some? then Ensured(s, s.worker.value, true)
    else if s.starting.Some? then Ensured(s, s.starting.value, false)
    else
      var w := |s.workers|;
      Ensured(s.(workers := s.workers + [Worker(Waiting, false, true, false, false)], starting := Some(w)), w, false)
  }

  function RejectStart(w: Worker): Worker {
    if w.promise == Waiting then w.(promise := Rejected) else w
  }

  // ---------------------------------------------------------------- the steps

  /** The next call leaves the queue. */
  function BeginCall(s: State): State {
    var call := |s.outcomes|;
    if s.disposed then Fail(s, NotActive)
    else if call in s.aborted then Fail(s, AlreadyAborted)
    else
      var e := EnsureWorker(s);
      e.state.(phase := Awaiting(e.worker, e.current))
  }

  function With(ids: set<nat>, id: nat, wanted: bool): set<nat> {
    if wanted then ids + {id} else ids
  }

  /** The request is registered and posted to the worker that was awaited. */
  function Register(s: State, call: nat, w: nat): State
    requires call < |s.calls|
  {
    var id := s.nextId;
    s.(phase := Running(id), nextId := id + 1, pending := s.pending + [Pending(id, call, [])],
       listeners := With(s.listeners, id, s.calls[call].hasSignal), timers := With(s.timers, id, s.calls[call].timed),
       posts := s.posts + [Invoke(w, id)])
  }

  function StartSession(s: State): State {
    if s.disposed then s else EnsureWorker(s).state
  }

  function StartTimesOut(s: State, w: nat): State
    requires w < |s.workers|
  {
    s.(workers := s.workers[w := RejectStart(s.workers[w]).(startTimer := false)])
  }

  function WorkerFails(s: State, w: nat): State
    requires w < |s.workers|
  {
    if s.workers[w].ready then s.(workers := s.workers[w := s.workers[w].(errored := true)])
    else s.(workers := s.workers[w := RejectStart(s.workers[w]).(startTimer := false, errored := true)], starting := None)
  }

  function TakeHostCall(s: State, w: nat, id: nat): State {
    if IsPending(s, id) then s.(hostCalls := s.hostCalls + [(w, id)]) else s
  }

  function ReturnHostCall(s: State, i: nat): State
    requires i < |s.hostCalls|
  {
    var (w, id) := s.hostCalls[i];
    var t := s.(hostCalls := s.hostCalls[..i] + s.hostCalls[i + 1..]);
    if s.worker == Some(w) && IsPending(s, id) then t.(posts := t.posts + [HostResult(w, id)]) else t
  }

  function WorkerReady(s: State, w: nat): State
    requires w < |s.workers|
  {
    var state := s.workers[w];
    s.(workers := s.workers[w := state.(ready := true, startTimer := false,
                                        promise := if state.promise == Waiting then Resolved else state.promise)],
       worker := Some(w), starting := None)
  }

  /** The worker is gone; a start of it that is still waiting fails. */
  function ForgetWorker(s: State, w: nat): State
    requires w < |s.workers|
  {
    var state := s.workers[w];
    s.(worker := if s.worker == Some(w) then None else s.worker,
       starting := if state.ready then s.starting else None,
       workers := s.workers[w := (if state.ready then state else RejectStart(state)).(startTimer := false, exited := true)])
  }

  function WorkerExits(s: State, w: nat, code: int): State
    requires w < |s.workers|
  {
    var t := ForgetWorker(s, w);
    if s.workers[w].ready && !s.disposed && code != 0 then RejectAll(t, ByExit) else t
  }

  function DisposeSession(s: State): State {
    if s.disposed then s
    else
      var t := RejectAll(s.(disposed := true), ByDispose);
      t.(worker := None, starting := None,
         posts := if t.worker.Some? then t.posts + [Farewell(t.worker.value)] else t.posts)
  }

  /** The call at the head of the queue may go on: its worker was there already, or the start of it has settled. */
  predicate MayResume(s: State) {
    s.phase.Awaiting? && s.phase.worker < |s.workers| && |s.outcomes| < |s.calls|
    && (s.phase.current || s.workers[s.phase.worker].promise != Waiting)
  }

  /** The call at the head of the queue goes on; only a start that was awaited can fail it. */
  function ResumeCall(s: State): State
    requires MayResume(s)
  {
    if !s.phase.current && s.workers[s.phase.worker].promise == Rejected then Fail(s, StartFailed)
    else Register(s, |s.outcomes|, s.phase.worker)
  }

  function SignalFires(s: State, call: nat): State {
    var t := s.(aborted := s.aborted + {call});
    if s.pending != [] && s.pending[0].call == call && s.pending[0].id in s.listeners then HardCancel(t, s.pending[0].id, ByAbort) else t
  }

  function TakeLog(s: State, id: nat, log: nat): State {
    var i := IndexOf(s.pending, id);
    if i < |s.pending| then s.(pending := s.pending[i := s.pending[i].(logs := s.pending[i].logs + [log])]) else s
  }

  function TakeResult(s: State, id: nat, logs: seq<nat>): State {
    if IsPending(s, id) then Settle(s, id, ByResult, s.pending[IndexOf(s.pending, id)].logs + logs) else s
  }

  function GiveUp(s: State, w: nat): State {
    if s.worker == Some(w) then s.(worker := None) else s
  }

  function TakeError(s: State, w: nat, id: nat, unhandled: bool): State {
    var t := if IsPending(s, id) then Settle(s, id, ByError, []) else s;
    if unhandled then GiveUp(t, w) else t
  }

  /** What can happen in a state; anything else is ignored. */
  predicate Enabled(s: State, e: Event) {
    match e
    case Begin => s.phase.Idle? && |s.outcomes| < |s.calls|
    case Resume => MayResume(s)
    case SignalAborts(call) => call < |s.calls| && s.calls[call].hasSignal && call !in s.aborted
    case TimerFires(id) => id in s.timers
    case Ready(w) => w < |s.workers| && !s.workers[w].ready && !s.workers[w].exited
    case StartTimerFires(w) => w < |s.workers| && s.workers[w].startTimer
    case WorkerError(w) => w < |s.workers| && !s.workers[w].errored && !s.workers[w].exited
    case WorkerExit(w, _) => w < |s.workers| && !s.workers[w].exited
    case HostCallReturns(i) => i < |s.hostCalls|
    case _ => true
  }

  function Act(s: State, e: Event): State
    requires Enabled(s, e)
  {
    match e
    case Start => StartSession(s)
    case InvokeHook(call) => s.(calls := s.calls + [call])
    case Begin => BeginCall(s)
    case Resume => ResumeCall(s)
    case SignalAborts(call) => SignalFires(s, call)
    case TimerFires(id) => HardCancel(s.(timers := s.timers - {id}), id, ByTimeout)
    case Ready(w) => WorkerReady(s, w)
    case StartTimerFires(w) => StartTimesOut(s, w)
    case WorkerError(w) => WorkerFails(s, w)
    case WorkerExit(w, code) => WorkerExits(s, w, code)
    case LogMessage(id, log) => TakeLog(s, id, log)
    case ResultMessage(id, logs) => TakeResult(s, id, logs)
    case ErrorMessage(w, id, unhandled) => TakeError(s, w, id, unhandled)
    case HostCallMessage(w, id) => TakeHostCall(s, w, id)
    case HostCallReturns(i) => ReturnHostCall(s, i)
    case Dispose => DisposeSession(s)
  }

  function Step(s: State, e: Event): State {
    if Enabled(s, e) then Act(s, e) else s
  }

  /** The state after a run. */
  function Exec(s: State, es: seq<Event>): State {
    if es == [] then s else Step(Exec(s, es[..|es| - 1]), es[|es| - 1])
  }

  // ---------------------------------------------------------------- the invariant

  function Ids(outcomes: seq<Outcome>): (r: seq<nat>)
    ensures |r| <= |outcomes|
  {
    if outcomes == [] then []
    else
      var last := outcomes[|outcomes| - 1];
      Ids(outcomes[..|outcomes| - 1]) + if last.id.Some? then [last.id.value] else []
  }

  function PendingIds(pending: seq<Pending>): (r: seq<nat>)
    ensures |r| == |pending| && forall i | 0 <= i < |pending| :: r[i] == pending[i].id
  {
    seq(|pending|, i requires 0 <= i < |pending| => pending[i].id)
  }

  function UpTo(n: nat): (r: seq<nat>)
    ensures |r| == n && forall i | 0 <= i < n :: r[i] == i
  {
    seq(n, i => i)
  }

  /** At most one request is pending, and it is the one the call at the head of the queue runs. */
  predicate OnePending(s: State) {
    if s.phase.Running? then
      |s.pending| == 1 && s.pending[0].id == s.phase.id && s.pending[0].call == |s.outcomes| < |s.calls|
    else s.pending == []
  }

  /** The calls settle in the order in which they were made, each once. */
  predicate InCallOrder(s: State) {
    |s.outcomes| <= |s.calls| && forall k | 0 <= k < |s.outcomes| :: s.outcomes[k].call == k
  }

  /** The settled and the pending requests together are all registered requests, none twice. */
  predicate Accounted(s: State) {
    Ids(s.outcomes) + PendingIds(s.pending) == UpTo(s.nextId)
  }

  /** A timer is armed and a listener attached for the pending request only, and exactly as its call asked. */
  predicate Tidy(s: State) {
    && (forall id | id in s.timers :: s.phase == Running(id))
    && (forall id | id in s.listeners :: s.phase == Running(id))
    && (s.phase.Running? && |s.outcomes| < |s.calls| ==>
          (s.phase.id in s.timers <==> s.calls[|s.outcomes|].timed)
          && (s.phase.id in s.listeners <==> s.calls[|s.outcomes|].hasSignal))
  }

  predicate WorkersFine(s: State) {
    && (s.worker.Some? ==> s.worker.value < |s.workers| && s.workers[s.worker.value].ready)
    && (s.starting.Some? ==> s.starting.value < |s.workers|)
    && (s.phase.Awaiting? ==> s.phase.worker < |s.workers| && |s.outcomes| < |s.calls|)
    && (forall w | 0 <= w < |s.workers| ::
          (s.workers[w].ready || s.workers[w].exited ==> s.workers[w].promise != Waiting)
          && (s.workers[w].startTimer ==> s.workers[w].promise == Waiting))
  }

  predicate Inv(s: State) {
    OnePending(s) && InCallOrder(s) && Accounted(s) && Tidy(s) && WorkersFine(s)
  }

  /** The worker half is in order, and a start that failed stays failed. */
  predicate WorkersKept(s: State, t: State) {
    WorkersFine(t) && |s.workers| <= |t.workers|
    && forall w | 0 <= w < |s.workers| && s.workers[w].promise == Rejected :: t.workers[w].promise == Rejected
  }

  lemma IndexOfOne(s: State, id: nat)
    requires OnePending(s)
    ensures IsPending(s, id) <==> s.phase == Running(id)
    ensures IsPending(s, id) ==> IndexOf(s.pending, id) == 0 && |s.pending| == 1 && s.pending == [s.pending[0]]
  {
  }

  // ---------------------------------------------------------------- what a step does to the calls

  /** The only events that may settle a call with a given cause. */
  predicate CausedBy(s: State, e: Event, o: Outcome) {
    match o.cause
    case ByResult => e.ResultMessage? && o.id == Some(e.id)
    case ByError => e.ErrorMessage? && o.id == Some(e.id)
    case ByTimeout => e.TimerFires? && o.id == Some(e.id) && o.call < |s.calls| && s.calls[o.call].timed
    case ByAbort => e.SignalAborts? && e.call == o.call && o.call < |s.calls| && s.calls[o.call].hasSignal
    case ByDispose => e.Dispose? && !s.disposed
    case ByExit => e.WorkerExit? && EndsRequests(s, e.worker, e.code)
    case NotActive => e.Begin? && s.phase.Idle? && s.disposed
    case AlreadyAborted => e.Begin? && s.phase.Idle? && !s.disposed && o.call in s.aborted
    case StartFailed => e.Resume? && MayResume(s) && !s.phase.current && s.workers[s.phase.worker].promise == Rejected
  }

  /** The exits that reject requests: of any worker that was ready, in a session that is active, with a failing code. */
  predicate EndsRequests(s: State, w: nat, code: int) {
    w < |s.workers| && s.workers[w].ready && !s.workers[w].exited && !s.disposed && code != 0
  }

  /** The logs a call settles with: those the request collected and those its result brought. */
  function LogsOf(s: State, e: Event): seq<nat> {
    if e.ResultMessage? && s.pending != [] then s.pending[0].logs + e.logs else []
  }

  /** The calls and the requests are as before; the other half of a state is about workers. */
  predicate SameRequests(s: State, t: State) {
    && t.calls == s.calls && t.phase == s.phase && t.pending == s.pending && t.timers == s.timers
    && t.listeners == s.listeners && t.nextId == s.nextId && t.outcomes == s.outcomes
  }

  /** The request of the head call settled. */
  predicate Settled(s: State, t: State, cause: Cause, logs: seq<nat>) {
    && s.phase.Running? && t.calls == s.calls && t.phase == Idle && t.pending == [] && t.nextId == s.nextId
    && t.timers == s.timers - {s.phase.id} && t.listeners == s.listeners - {s.phase.id}
    && t.outcomes == s.outcomes + [Outcome(|s.outcomes|, Some(s.phase.id), cause, logs)]
  }

  /** The head call settled before it had a request. */
  predicate Failed(s: State, t: State, cause: Cause) {
    && !s.phase.Running? && |s.outcomes| < |s.calls|
    && t.calls == s.calls && t.phase == Idle && t.pending == s.pending && t.nextId == s.nextId
    && t.timers == s.timers && t.listeners == s.listeners
    && t.outcomes == s.outcomes + [Outcome(|s.outcomes|, None, cause, [])]
  }

  /** A call was made, or the head call left the queue, or its request was registered. */
  predicate Advanced(s: State, e: Event, t: State) {
    match e
    case InvokeHook(call) => SameRequests(s.(calls := s.calls + [call]), t)
    case Begin => s.phase.Idle? && t.phase.Awaiting? && |s.outcomes| < |s.calls| && SameRequests(s.(phase := t.phase), t)
    case Resume => s.phase.Awaiting? && |s.outcomes| < |s.calls| && SameRequests(Register(s, |s.outcomes|, s.phase.worker), t)
    case _ => false
  }

  /** Everything that a step may do to the calls. */
  predicate Changed(s: State, e: Event, t: State) {
    && s.aborted <= t.aborted
    && (|| SameRequests(s, t)
        || Advanced(s, e, t)
        || (|t.outcomes| == |s.outcomes| + 1
            && var o := t.outcomes[|s.outcomes|];
               CausedBy(s, e, o) && (Failed(s, t, o.cause) || Settled(s, t, o.cause, LogsOf(s, e)))))
  }

  /** Settling the one pending request. */
  lemma SettleEffect(s: State, id: nat, cause: Cause, logs: seq<nat>)
    requires OnePending(s) && IsPending(s, id)
    ensures s.phase == Running(id) && s.pending[0].id == id
    ensures Settle(s, id, cause, logs)
         == s.(pending := [], timers := s.timers - {id}, listeners := s.listeners - {id}, phase := Idle,
               outcomes := s.outcomes + [Outcome(|s.outcomes|, Some(id), cause, logs)])
  {
    IndexOfOne(s, id);
  }

  lemma HardCancelEffect(s: State, id: nat, cause: Cause)
    requires OnePending(s)
    ensures IsPending(s, id) <==> s.phase == Running(id)
    ensures HardCancel(s, id, cause) ==
      if IsPending(s, id) then
        s.(pending := [], timers := s.timers - {id}, listeners := s.listeners - {id}, phase := Idle,
           outcomes := s.outcomes + [Outcome(|s.outcomes|, Some(id), cause, [])],
           controllers := s.controllers + {id}, worker := None,
           posts := if s.worker.Some? then s.posts + [Cancel(s.worker.value, id)] else s.posts)
      else s
  {
    IndexOfOne(s, id);
    if IsPending(s, id) {
      SettleEffect(s, id, cause, []);
      hide IndexOf, Settle;
    }
  }

  lemma RejectAllEffect(s: State, cause: Cause)
    requires OnePending(s)
    ensures RejectAll(s, cause) ==
      if s.pending == [] then s
      else
        var id := s.pending[0].id;
        s.(pending := [], timers := s.timers - {id}, listeners := s.listeners - {id}, phase := Idle,
           outcomes := s.outcomes + [Outcome(|s.outcomes|, Some(id), cause, [])], controllers := s.controllers + {id})
    ensures s.pending != [] ==> s.phase == Running(s.pending[0].id)
  {
    if s.pending != [] {
      IndexOfOne(s, s.pending[0].id);
      SettleEffect(s, s.pending[0].id, cause, []);
      hide IndexOf, Settle;
    }
  }

  lemma ForgetWorkerEffect(s: State, w: nat)
    requires WorkersFine(s) && w < |s.workers|
    ensures SameRequests(s, ForgetWorker(s, w)) && WorkersKept(s, ForgetWorker(s, w))
    ensures ForgetWorker(s, w).posts == s.posts && ForgetWorker(s, w).aborted == s.aborted
    ensures ForgetWorker(s, w).disposed == s.disposed
  {
  }

  lemma ExitEffect(s: State, w: nat, code: int)
    requires OnePending(s) && WorkersFine(s) && w < |s.workers| && !s.workers[w].exited
    ensures var t := WorkerExits(s, w, code);
            && WorkersKept(s, t) && t.posts == s.posts && t.aborted == s.aborted
            && t.worker == (if s.worker == Some(w) then None else s.worker)
            && (if EndsRequests(s, w, code) && s.phase.Running? then Settled(s, t, ByExit, []) else SameRequests(s, t))
  {
    ForgetWorkerEffect(s, w);
    var t := ForgetWorker(s, w);
    assert t.worker == if s.worker == Some(w) then None else s.worker;
    hide ForgetWorker;
    RejectAllEffect(t, ByExit);
    hide RejectAll;
  }

  lemma DisposeEffect(s: State)
    requires OnePending(s) && WorkersFine(s)
    ensures var t := DisposeSession(s);
            && WorkersKept(s, t) && t.disposed && t.aborted == s.aborted && t.workers == s.workers
            && t.posts == (if !s.disposed && s.worker.Some? then s.posts + [Farewell(s.worker.value)] else s.posts)
            && (if !s.disposed && s.phase.Running? then Settled(s, t, ByDispose, []) else SameRequests(s, t))
  {
    RejectAllEffect(s.(disposed := true), ByDispose);
    hide RejectAll;
  }

  lemma TimerEffect(s: State, id: nat)
    requires OnePending(s) && Tidy(s) && WorkersFine(s) && id in s.timers
    ensures var t := HardCancel(s.(timers := s.timers - {id}), id, ByTimeout);
            && Settled(s, t, ByTimeout, []) && s.phase == Running(id) && WorkersKept(s, t) && t.aborted == s.aborted
            && t.posts == (if s.worker.Some? then s.posts + [Cancel(s.worker.value, id)] else s.posts)
  {
    HardCancelEffect(s.(timers := s.timers - {id}), id, ByTimeout);
    hide HardCancel, IndexOf;
    assert s.timers - {id} - {id} == s.timers - {id};
  }

  /** The call that runs listens to its signal. */
  predicate Listens(s: State, call: nat) {
    s.phase.Running? && call == |s.outcomes| && s.phase.id in s.listeners
  }

  lemma SignalEffect(s: State, call: nat)
    requires OnePending(s) && WorkersFine(s)
    ensures var t := SignalFires(s, call);
            && WorkersKept(s, t) && t.aborted == s.aborted + {call}
            && (if Listens(s, call) then
                  Settled(s, t, ByAbort, [])
                  && t.posts == (if s.worker.Some? then s.posts + [Cancel(s.worker.value, s.phase.id)] else s.posts)
                else SameRequests(s, t) && t.posts == s.posts && t.disposed == s.disposed)
  {
    if s.pending != [] { HardCancelEffect(s.(aborted := s.aborted + {call}), s.pending[0].id, ByAbort); }
    hide HardCancel, IndexOf;
  }

  lemma LogEffect(s: State, id: nat, log: nat)
    requires OnePending(s)
    ensures var t := TakeLog(s, id, log);
            && t == s.(pending := t.pending)
            && (t.pending == s.pending
                || (s.pending != [] && t.pending == [s.pending[0].(logs := s.pending[0].logs + [log])]))
  {
    IndexOfOne(s, id);
  }

  lemma ResultEffect(s: State, id: nat, logs: seq<nat>)
    requires OnePending(s)
    ensures var t := TakeResult(s, id, logs);
            if s.phase == Running(id) then
              s.pending != [] && Settled(s, t, ByResult, s.pending[0].logs + logs)
              && t.worker == s.worker && t.workers == s.workers && t.starting == s.starting && t.posts == s.posts && t.aborted == s.aborted
            else t == s
  {
    IndexOfOne(s, id);
    if IsPending(s, id) { SettleEffect(s, id, ByResult, s.pending[0].logs + logs); }
    hide Settle;
  }

  lemma ErrorEffect(s: State, w: nat, id: nat, unhandled: bool)
    requires OnePending(s)
    ensures var t := TakeError(s, w, id, unhandled);
            && (if s.phase == Running(id) then Settled(s, t, ByError, []) else SameRequests(s, t))
            && (t.worker == s.worker || t.worker == None)
            && t.workers == s.workers && t.starting == s.starting && t.posts == s.posts && t.aborted == s.aborted
  {
    IndexOfOne(s, id);
    if IsPending(s, id) { SettleEffect(s, id, ByError, []); }
    hide Settle, IndexOf;
  }

  lemma BeginEffect(s: State)
    requires WorkersFine(s) && s.phase.Idle? && |s.outcomes| < |s.calls|
    ensures var t := BeginCall(s);
            && WorkersKept(s, t) && t.posts == s.posts && t.aborted == s.aborted
            && (if s.disposed then Failed(s, t, NotActive)
                else if |s.outcomes| in s.aborted then Failed(s, t, AlreadyAborted)
                else Advanced(s, Begin, t))
  {
  }

  lemma ResumeEffect(s: State)
    requires WorkersFine(s) && MayResume(s)
    ensures var t := ResumeCall(s);
            && WorkersKept(s, t) && t.aborted == s.aborted
            && (if !s.phase.current && s.workers[s.phase.worker].promise == Rejected then Failed(s, t, StartFailed) && t.posts == s.posts
                else Advanced(s, Resume, t) && t.posts == s.posts + [Invoke(s.phase.worker, s.nextId)])
  {
  }

  /** Steps that leave the calls and requests alone. */
  predicate IsWorkerStep(e: Event) {
    e.Start? || e.Ready? || e.StartTimerFires? || e.WorkerError? || e.HostCallMessage? || e.HostCallReturns?
  }

  lemma StartEffect(s: State)
    requires WorkersFine(s)
    ensures SameRequests(s, StartSession(s)) && WorkersKept(s, StartSession(s)) && StartSession(s).aborted == s.aborted
  {
  }

  lemma ReadyEffect(s: State, w: nat)
    requires WorkersFine(s) && w < |s.workers|
    ensures SameRequests(s, WorkerReady(s, w)) && WorkersKept(s, WorkerReady(s, w)) && WorkerReady(s, w).aborted == s.aborted
  {
  }

  lemma StartFailureEffect(s: State, w: nat)
    requires WorkersFine(s) && w < |s.workers|
    ensures SameRequests(s, StartTimesOut(s, w)) && WorkersKept(s, StartTimesOut(s, w)) && StartTimesOut(s, w).aborted == s.aborted
    ensures SameRequests(s, WorkerFails(s, w)) && WorkersKept(s, WorkerFails(s, w)) && WorkerFails(s, w).aborted == s.aborted
  {
  }

  lemma HostCallEffect(s: State, e: Event)
    requires WorkersFine(s) && Enabled(s, e) && (e.HostCallMessage? || e.HostCallReturns?)
    ensures SameRequests(s, Act(s, e)) && WorkersKept(s, Act(s, e)) && Act(s, e).aborted == s.aborted
  {
    hide IndexOf;
  }

  lemma WorkerStepEffect(s: State, e: Event)
    requires WorkersFine(s) && Enabled(s, e) && IsWorkerStep(e)
    ensures SameRequests(s, Act(s, e)) && WorkersKept(s, Act(s, e)) && Act(s, e).aborted == s.aborted
  {
    hide WorkersFine, WorkersKept, SameRequests, StartSession, WorkerReady, StartTimesOut, WorkerFails, TakeHostCall, ReturnHostCall;
    match e
    case Start => StartEffect(s);
    case Ready(w) => ReadyEffect(s, w);
    case StartTimerFires(w) => StartFailureEffect(s, w);
    case WorkerError(w) => StartFailureEffect(s, w);
    case _ => HostCallEffect(s, e);
  }

  lemma QueueStepChanges(s: State, e: Event)
    requires WorkersFine(s) && Enabled(s, e) && (e.Begin? || e.Resume? || e.InvokeHook?)
    ensures Changed(s, e, Act(s, e)) && WorkersKept(s, Act(s, e))
  {
    if e.Begin? { BeginEffect(s); } else if e.Resume? { ResumeEffect(s); }
    hide BeginCall, ResumeCall, Register, WorkersFine;
    assert e.InvokeHook? ==> WorkersKept(s, s.(calls := s.calls + [e.options])) by { assert WorkersFine(s); }
  }

  lemma CancelStepChanges(s: State, e: Event)
    requires OnePending(s) && InCallOrder(s) && Tidy(s) && WorkersFine(s) && Enabled(s, e) && (e.SignalAborts? || e.TimerFires?)
    ensures Changed(s, e, Act(s, e)) && WorkersKept(s, Act(s, e))
  {
    if e.TimerFires? { TimerEffect(s, e.id); } else { SignalEffect(s, e.call); }
    hide SignalFires, HardCancel, WorkersFine, WorkersKept;
  }

  lemma MessageStepChanges(s: State, e: Event)
    requires OnePending(s) && WorkersFine(s) && Enabled(s, e) && (e.ResultMessage? || e.ErrorMessage?)
    ensures Changed(s, e, Act(s, e)) && WorkersKept(s, Act(s, e))
  {
    if e.ResultMessage? { ResultEffect(s, e.id, e.logs); } else { ErrorEffect(s, e.worker, e.id, e.unhandled); }
    hide TakeResult, TakeError;
  }

  lemma EndStepChanges(s: State, e: Event)
    requires OnePending(s) && WorkersFine(s) && Enabled(s, e) && (e.WorkerExit? || e.Dispose?)
    ensures Changed(s, e, Act(s, e)) && WorkersKept(s, Act(s, e))
  {
    if e.Dispose? { DisposeEffect(s); } else { ExitEffect(s, e.worker, e.code); }
    hide WorkerExits, DisposeSession, WorkersFine, WorkersKept;
  }

  /** A step does nothing else to the calls, except that a message may add a log to the pending request. */
  lemma StepChanges(s: State, e: Event)
    requires Inv(s) && !e.LogMessage?
    ensures Changed(s, e, Step(s, e)) && WorkersKept(s, Step(s, e))
  {
    hide Act, LogsOf, CausedBy;
    if Enabled(s, e) {
      if IsWorkerStep(e) {
        WorkerStepEffect(s, e);
      } else if e.Begin? || e.Resume? || e.InvokeHook? {
        QueueStepChanges(s, e);
      } else if e.SignalAborts? || e.TimerFires? {
        CancelStepChanges(s, e);
      } else if e.ResultMessage? || e.ErrorMessage? {
        MessageStepChanges(s, e);
      } else {
        EndStepChanges(s, e);
      }
      hide Changed, WorkersFine, WorkersKept, OnePending, InCallOrder, Tidy, Accounted, Enabled;
    }
  }

  // ---------------------------------------------------------------- the invariant is kept

  lemma SettledKeepsInv(s: State, t: State, cause: Cause, logs: seq<nat>)
    requires Inv(s) && WorkersFine(t) && Settled(s, t, cause, logs)
    ensures Inv(t)
  {
    assert t.outcomes[..|s.outcomes|] == s.outcomes;
    assert Ids(t.outcomes) + PendingIds(t.pending) == Ids(s.outcomes) + PendingIds(s.pending);
    hide Ids, UpTo, WorkersFine;
  }

  lemma FailedKeepsInv(s: State, t: State, cause: Cause)
    requires Inv(s) && WorkersFine(t) && Failed(s, t, cause)
    ensures Inv(t)
  {
    assert t.outcomes[..|s.outcomes|] == s.outcomes;
    assert Ids(t.outcomes) == Ids(s.outcomes);
    hide Ids, UpTo, WorkersFine, PendingIds;
  }

  lemma RegisterKeepsInv(s: State, t: State)
    requires Inv(s) && WorkersFine(t) && Advanced(s, Resume, t)
    ensures Inv(t)
  {
    assert PendingIds(t.pending) == [s.nextId];
    assert Ids(s.outcomes) + PendingIds(s.pending) == Ids(s.outcomes);
    assert UpTo(s.nextId + 1) == UpTo(s.nextId) + [s.nextId];
    hide Ids, UpTo, WorkersFine, PendingIds;
  }

  lemma AdvancedKeepsInv(s: State, e: Event, t: State)
    requires Inv(s) && WorkersFine(t) && Advanced(s, e, t)
    ensures Inv(t)
  {
    if e.Resume? { RegisterKeepsInv(s, t); }
    hide Ids, UpTo, WorkersFine, PendingIds, Register;
  }

  lemma LogKeepsInv(s: State, id: nat, log: nat)
    requires Inv(s)
    ensures Inv(TakeLog(s, id, log))
  {
    LogEffect(s, id, log);
    var t := TakeLog(s, id, log);
    assert PendingIds(t.pending) == PendingIds(s.pending);
    hide TakeLog, Ids, UpTo, PendingIds;
  }

  /** Every step keeps the invariant. */
  lemma StepKeepsInv(s: State, e: Event)
    requires Inv(s)
    ensures Inv(Step(s, e))
  {
    if e.LogMessage? {
      LogKeepsInv(s, e.id, e.log);
    } else {
      var t := Step(s, e);
      StepChanges(s, e);
      hide Step;
      if SameRequests(s, t) {
        hide Ids, UpTo, WorkersFine, PendingIds;
      } else if Advanced(s, e, t) {
        AdvancedKeepsInv(s, e, t);
      } else {
        var o := t.outcomes[|s.outcomes|];
        if Failed(s, t, o.cause) { FailedKeepsInv(s, t, o.cause); } else { SettledKeepsInv(s, t, o.cause, LogsOf(s, e)); }
        hide Inv, Settled, Failed, Advanced, SameRequests, CausedBy;
      }
    }
  }

  /** The invariant holds in every run. */
  lemma {:induction false} EveryRunKeepsInv(es: seq<Event>)
    ensures Inv(Exec(INITIAL, es))
  {
    if es == [] {
      assert Inv(INITIAL);
    } else {
      hide Inv, Step;
      EveryRunKeepsInv(es[..|es| - 1]);
      StepKeepsInv(Exec(INITIAL, es[..|es| - 1]), es[|es| - 1]);
    }
  }

  // ---------------------------------------------------------------- every request settles once

  predicate HasSettled(outcomes: seq<Outcome>, id: nat) {
    exists k :: 0 <= k < |outcomes| && outcomes[k].id == Some(id)
  }

  lemma {:induction false} SettledIds(outcomes: seq<Outcome>, m: nat)
    requires Ids(outcomes) == UpTo(m)
    ensures forall k | 0 <= k < |outcomes| && outcomes[k].id.Some? :: outcomes[k].id.value < m
    ensures forall j, k | 0 <= j < k < |outcomes| && outcomes[j].id.Some? && outcomes[k].id.Some? ::
              outcomes[j].id.value < outcomes[k].id.value
    ensures forall id | 0 <= id < m :: HasSettled(outcomes, id)
  {
    if outcomes == [] {
      assert m == 0;
    } else {
      var init, last := outcomes[..|outcomes| - 1], outcomes[|outcomes| - 1];
      if last.id.Some? {
        assert Ids(outcomes) == Ids(init) + [last.id.value];
        assert m > 0 && last.id.value == UpTo(m)[m - 1];
        assert Ids(init) == Ids(outcomes)[..m - 1] == UpTo(m - 1);
        SettledIds(init, m - 1);
      } else {
        SettledIds(init, m);
      }
      hide Ids, UpTo;
      SettledIdsSnoc(init, last, m);
      assert outcomes == init + [last];
    }
  }

  lemma SettledIdsSnoc(init: seq<Outcome>, last: Outcome, m: nat)
    requires last.id.Some? ==> m > 0 && last.id.value == m - 1
    requires var n := if last.id.Some? then m - 1 else m;
             && (forall k | 0 <= k < |init| && init[k].id.Some? :: init[k].id.value < n)
             && (forall j, k | 0 <= j < k < |init| && init[j].id.Some? && init[k].id.Some? :: init[j].id.value < init[k].id.value)
             && (forall id | 0 <= id < n :: HasSettled(init, id))
    ensures var outcomes := init + [last];
            && (forall k | 0 <= k < |outcomes| && outcomes[k].id.Some? :: outcomes[k].id.value < m)
            && (forall j, k | 0 <= j < k < |outcomes| && outcomes[j].id.Some? && outcomes[k].id.Some? ::
                  outcomes[j].id.value < outcomes[k].id.value)
            && (forall id | 0 <= id < m :: HasSettled(outcomes, id))
  {
    var outcomes := init + [last];
    forall id | 0 <= id < m ensures HasSettled(outcomes, id) {
      if last.id == Some(id) {
        assert outcomes[|init|].id == Some(id);
      } else {
        assert HasSettled(init, id);
        var k :| 0 <= k < |init| && init[k].id == Some(id);
        assert outcomes[k].id == Some(id);
      }
    }
  }

  /** In every run each registered request is pending or settled, not both, and settled at most once. */
  lemma EachRequestOnce(es: seq<Event>, id: nat)
    requires id < Exec(INITIAL, es).nextId
    ensures var s := Exec(INITIAL, es);
            && |s.pending| <= 1
            && (IsPending(s, id) <==> !HasSettled(s.outcomes, id))
            && (forall j, k | 0 <= j < |s.outcomes| && 0 <= k < |s.outcomes| && s.outcomes[j].id == s.outcomes[k].id == Some(id) :: j == k)
  {
    EveryRunKeepsInv(es);
    var s := Exec(INITIAL, es);
    var m := s.nextId - |s.pending|;
    assert Ids(s.outcomes) == (Ids(s.outcomes) + PendingIds(s.pending))[..m] == UpTo(s.nextId)[..m] == UpTo(m);
    assert s.pending != [] ==> (Ids(s.outcomes) + PendingIds(s.pending))[m] == s.pending[0].id == m;
    SettledIds(s.outcomes, m);
    IndexOfOne(s, id);
    hide Exec, Ids, UpTo, PendingIds, IndexOf;
  }

  // ---------------------------------------------------------------- what settles a call

  /** A step settles no call but the one at the head of the queue, and only for a cause that is that call's own. */
  predicate SettlesNext(s: State, e: Event, t: State) {
    && s.aborted <= t.aborted
    && (|| (t.outcomes == s.outcomes && (t.phase.Idle? ==> s.phase.Idle?))
        || (|t.outcomes| == |s.outcomes| + 1 && t.outcomes[..|s.outcomes|] == s.outcomes
        && var o := t.outcomes[|s.outcomes|];
           o.call == |s.outcomes| && CausedBy(s, e, o) && o.logs == LogsOf(s, e)
           && (if s.phase.Running? then o.id == Some(s.phase.id) else o.id == None)))
  }

  lemma StepSettlesNext(s: State, e: Event)
    requires Inv(s)
    ensures SettlesNext(s, e, Step(s, e))
  {
    if e.LogMessage? {
      LogEffect(s, e.id, e.log);
      hide TakeLog;
    } else {
      StepChanges(s, e);
      var t := Step(s, e);
      assert OnePending(s);
      hide Step, Inv, CausedBy;
    }
  }

  /** A settled call stays settled as it is, whatever happens later. */
  lemma {:induction false} OutcomesStay(s: State, es: seq<Event>)
    requires Inv(s)
    ensures Inv(Exec(s, es)) && s.outcomes <= Exec(s, es).outcomes
  {
    if es != [] {
      var init, e := es[..|es| - 1], es[|es| - 1];
      OutcomesStay(s, init);
      StepKeepsInv(Exec(s, init), e);
      StepSettlesNext(Exec(s, init), e);
      hide Inv, Step, CausedBy, LogsOf;
    }
  }

  /** A host result is posted only to the current worker, and only for a request that is still pending. */
  lemma HostResultsArePending(s: State, e: Event, k: nat)
    requires Inv(s) && |s.posts| <= k < |Step(s, e).posts|
    ensures Step(s, e).posts[..|s.posts|] == s.posts
    ensures var post := Step(s, e).posts[k];
            && (post.HostResult? ==> s.worker == Some(post.worker) && IsPending(s, post.id) && (post.worker, post.id) in s.hostCalls)
            && (post.Invoke? ==> s.phase.Awaiting? && s.phase.worker == post.worker && post.id == s.nextId)
            && (post.Cancel? ==> s.worker == Some(post.worker) && IsPending(s, post.id) && !IsPending(Step(s, e), post.id))
  {
    assert OnePending(s) && Tidy(s) && WorkersFine(s);
    if Enabled(s, e) {
      if e.SignalAborts? || e.TimerFires? {
        CancelPosts(s, e, k);
      } else {
        OtherPosts(s, e);
        hide Act, OnePending, Tidy, WorkersFine, IndexOf;
        if e.HostCallReturns? {
          var call := s.hostCalls[e.index];
          assert call == (call.0, call.1) && call in s.hostCalls;
        }
      }
    }
    hide OnePending, InCallOrder, Tidy, IndexOf, Accounted, WorkersFine, Act;
  }

  lemma CancelPosts(s: State, e: Event, k: nat)
    requires OnePending(s) && Tidy(s) && WorkersFine(s) && Enabled(s, e) && (e.SignalAborts? || e.TimerFires?)
    requires |s.posts| <= k < |Act(s, e).posts|
    ensures s.worker.Some? && s.phase.Running? && Act(s, e).posts == s.posts + [Cancel(s.worker.value, s.phase.id)]
    ensures IsPending(s, s.phase.id) && !IsPending(Act(s, e), s.phase.id)
  {
    if e.TimerFires? { TimerEffect(s, e.id); } else { SignalEffect(s, e.call); }
    if s.phase.Running? { IndexOfOne(s, s.phase.id); }
    hide HardCancel, SignalFires, WorkersFine;
  }

  lemma OtherPosts(s: State, e: Event)
    requires OnePending(s) && WorkersFine(s) && Enabled(s, e) && !e.SignalAborts? && !e.TimerFires?
    ensures var t := Act(s, e);
            t.posts == s.posts
            || (e.Resume? && s.phase.Awaiting? && t.posts == s.posts + [Invoke(s.phase.worker, s.nextId)])
            || (e.HostCallReturns? && var (w, id) := s.hostCalls[e.index];
                s.worker == Some(w) && IsPending(s, id) && t.posts == s.posts + [HostResult(w, id)])
            || (e.Dispose? && s.worker.Some? && t.posts == s.posts + [Farewell(s.worker.value)])
  {
    match e
    case Begin => BeginEffect(s);
    case Resume => ResumeEffect(s);
    case WorkerExit(w, code) => ExitEffect(s, w, code);
    case LogMessage(id, log) => LogEffect(s, id, log);
    case ResultMessage(id, logs) => ResultEffect(s, id, logs);
    case ErrorMessage(w, id, unhandled) => ErrorEffect(s, w, id, unhandled);
    case Dispose => DisposeEffect(s);
    case _ =>
    hide IndexOf, BeginCall, ResumeCall, SignalFires, HardCancel, TakeLog, TakeResult, TakeError, WorkerExits, DisposeSession,
         WorkersFine, Settled, Failed, Advanced, SameRequests;
  }

  // ---------------------------------------------------------------- disposal

  /** A call that goes on as soon as it may: its worker was there already, or the start it awaits has not failed. */
  predicate MayStillRegister(s: State) {
    s.phase.Awaiting? && s.phase.worker < |s.workers|
    && (s.phase.current || s.workers[s.phase.worker].promise != Rejected)
  }

  /** Disposed, with no request pending and none to come. */
  predicate Quiet(s: State) {
    s.disposed && s.pending == [] && !MayStillRegister(s)
  }

  lemma DisposedStays(s: State, e: Event)
    requires OnePending(s) && s.disposed
    ensures Step(s, e).disposed
  {
    if Enabled(s, e) {
      match e
      case SignalAborts(call) => if s.pending != [] { HardCancelEffect(s.(aborted := s.aborted + {call}), s.pending[0].id, ByAbort); }
      case TimerFires(id) => HardCancelEffect(s.(timers := s.timers - {id}), id, ByTimeout);
      case ResultMessage(id, logs) => if IsPending(s, id) { SettleEffect(s, id, ByResult, s.pending[IndexOf(s.pending, id)].logs + logs); }
      case ErrorMessage(v, id, unhandled) => if IsPending(s, id) { SettleEffect(s, id, ByError, []); }
      case _ =>
      hide IndexOf, HardCancel, RejectAll, Settle;
    }
  }

  lemma QuietStep(s: State, e: Event)
    requires Inv(s) && Quiet(s)
    ensures Quiet(Step(s, e))
  {
    DisposedStays(s, e);
    if e.LogMessage? {
      LogEffect(s, e.id, e.log);
      hide TakeLog;
    } else {
      StepChanges(s, e);
      var t := Step(s, e);
      if e.Begin? && Enabled(s, e) { BeginEffect(s); }
      if e.Resume? && Enabled(s, e) { ResumeEffect(s); }
      hide Step, Inv, CausedBy, Register;
    }
  }

  lemma {:induction false} QuietForever(s: State, es: seq<Event>)
    requires Inv(s) && Quiet(s)
    ensures Inv(Exec(s, es)) && Quiet(Exec(s, es))
  {
    if es != [] {
      QuietForever(s, es[..|es| - 1]);
      hide Inv, Quiet, Step;
      StepKeepsInv(Exec(s, es[..|es| - 1]), es[|es| - 1]);
      QuietStep(Exec(s, es[..|es| - 1]), es[|es| - 1]);
    }
  }

  lemma ExecOne(s: State, a: Event)
    ensures Exec(s, [a]) == Step(s, a)
  {
    hide Step;
    assert [a][..0] == [];
    assert Exec(s, []) == s;
  }

  lemma ExecMore(s: State, es: seq<Event>, e: Event)
    ensures Exec(s, es + [e]) == Step(Exec(s, es), e)
  {
    assert (es + [e])[..|es|] == es;
  }

  lemma {:induction false} ExecFirst(s: State, e: Event, es: seq<Event>)
    ensures Exec(s, [e] + es) == Exec(Step(s, e), es)
  {
    hide Step;
    if es == [] {
      assert [e] + es == [e];
      ExecOne(s, e);
    } else {
      var init, last := es[..|es| - 1], es[|es| - 1];
      ExecFirst(s, e, init);
      assert [e] + es == ([e] + init) + [last];
      ExecMore(s, [e] + init, last);
    }
  }

  lemma {:induction false} ExecConcat(s: State, a: seq<Event>, b: seq<Event>)
    ensures Exec(s, a + b) == Exec(Exec(s, a), b)
  {
    hide Step;
    if b == [] {
      assert a + b == a;
    } else {
      assert (a + b)[..|a + b| - 1] == a + b[..|b| - 1];
      ExecConcat(s, a, b[..|b| - 1]);
    }
  }

  lemma ExecFive(s: State, es: seq<Event>)
    requires |es| == 5
    ensures Exec(s, es[..4]) == Step(Step(Step(Step(s, es[0]), es[1]), es[2]), es[3])
    ensures Exec(s, es) == Step(Exec(s, es[..4]), es[4])
  {
    hide Step;
    ExecOne(s, es[0]);
    assert es[..1] == [es[0]];
    assert es[..2][..1] == es[..1] && es[..3][..2] == es[..2] && es[..4][..3] == es[..3];
    assert Exec(s, es[..2]) == Step(Exec(s, es[..1]), es[1]);
    assert Exec(s, es[..3]) == Step(Exec(s, es[..2]), es[2]);
  }

  /** A disposed session whose head call waits for a worker runs that call after all. */
  lemma RegistersAfterDispose(s: State) returns (es: seq<Event>)
    requires Inv(s) && s.disposed && MayStillRegister(s)
    ensures Exec(s, es).pending != []
  {
    assert WorkersFine(s);
    var w := s.phase.worker;
    if MayResume(s) {
      es := [Resume];
      ExecOne(s, Resume);
    } else {
      es := [Ready(w)] + [Resume];
      ExecFirst(s, Ready(w), [Resume]);
      ExecOne(Step(s, Ready(w)), Resume);
    }
  }

  /** Disposal rejects all requests for good if and only if no call is then past its checks with a worker that may serve it. */
  lemma DisposeIsFinal(s: State)
    requires Inv(s) && !s.disposed
    ensures (forall es :: Exec(Step(s, Dispose), es).pending == []) <==> !MayStillRegister(s)
  {
    var t := Step(s, Dispose);
    StepKeepsInv(s, Dispose);
    DisposeEffect(s);
    assert OnePending(s);
    hide Inv, DisposeSession, Exec;
    assert MayStillRegister(t) <==> MayStillRegister(s);
    hide Step;
    if MayStillRegister(s) {
      var es := RegistersAfterDispose(t);
      assert Exec(t, es).pending != [];
    } else {
      forall es ensures Exec(t, es).pending == [] { QuietForever(t, es); }
    }
  }

  /** A call that found the current worker registers, whatever became of the start of that worker. */
  lemma CurrentWorkerServes(s: State)
    requires Inv(s) && s.phase.Awaiting? && s.phase.current
    ensures Step(s, Resume).pending == [Pending(s.nextId, |s.outcomes|, [])] && Step(s, Resume).outcomes == s.outcomes
  {
  }

  const PLAIN: Call := Call(false, false)
  const LATE: seq<Event> := [Start, StartTimerFires(0), Ready(0), InvokeHook(PLAIN), Begin]

  /** The worker became ready after its start was given up, and a call found it. */
  const AFTER_LATE: State :=
    State([PLAIN], {}, Awaiting(0, true), [], {}, {}, {}, 0, [], false, Some(0), None, [Worker(Rejected, true, false, false, false)],
          [], [])

  /** Such a call on a worker whose start failed, and what it does to a session that is disposed in between. */
  lemma LateReadyServes()
    ensures Exec(INITIAL, LATE) == AFTER_LATE
    ensures Exec(INITIAL, LATE + [Dispose, Resume]).pending == [Pending(0, 0, [])]
  {
    var a := INITIAL.(workers := [Worker(Waiting, false, true, false, false)], starting := Some(0));
    var b := a.(workers := [Worker(Rejected, false, false, false, false)]);
    var c := b.(workers := [Worker(Rejected, true, false, false, false)], starting := None, worker := Some(0));
    var d := c.(calls := [PLAIN]);
    ExecFive(INITIAL, LATE);
    assert Step(INITIAL, Start) == a;
    assert Step(a, StartTimerFires(0)) == b;
    assert Step(b, Ready(0)) == c;
    assert Step(c, InvokeHook(PLAIN)) == d;
    assert Step(d, Begin) == AFTER_LATE;
    LateCallRegisters();
    ExecConcat(INITIAL, LATE, [Dispose, Resume]);
  }

  lemma LateCallRegisters()
    ensures Exec(AFTER_LATE, [Dispose, Resume]).pending == [Pending(0, 0, [])]
  {
    ExecFirst(AFTER_LATE, Dispose, [Resume]);
    ExecOne(Step(AFTER_LATE, Dispose), Resume);
    assert [Dispose] + [Resume] == [Dispose, Resume];
    hide Exec;
  }

  // ---------------------------------------------------------------- what the session does not promise

  /**
   * The exit of a worker settles the request that runs if and only if the worker was ready, the session is active and the code
   * is not 0. Whether it is the worker of that request makes no difference.
   */
  lemma ExitSettlesExactly(s: State, w: nat, code: int)
    requires Inv(s) && s.phase.Running?
    ensures var t := Step(s, WorkerExit(w, code));
            && (EndsRequests(s, w, code) <==> t.outcomes != s.outcomes)
            && (t.outcomes != s.outcomes <==> t.outcomes == s.outcomes + [Outcome(|s.outcomes|, Some(s.phase.id), ByExit, [])])
            && (IsPending(t, s.phase.id) <==> t.outcomes == s.outcomes)
  {
    assert OnePending(s) && WorkersFine(s);
    if Enabled(s, WorkerExit(w, code)) { ExitEffect(s, w, code); }
    var t := Step(s, WorkerExit(w, code));
    IndexOfOne(s, s.phase.id);
    hide WorkerExits, WorkersFine, Inv;
  }

  /** The exit of a worker that was given up rejects a request that runs on its successor. */
  lemma StaleExitRejects(s: State, w: nat, code: int)
    requires Inv(s) && s.phase.Running? && EndsRequests(s, w, code) && s.worker != Some(w)
    ensures var t := Step(s, WorkerExit(w, code));
            t.outcomes == s.outcomes + [Outcome(|s.outcomes|, Some(s.phase.id), ByExit, [])] && t.worker == s.worker
  {
    assert OnePending(s) && WorkersFine(s);
    ExitEffect(s, w, code);
    hide WorkerExits, Inv, WorkersFine;
  }

  const TIMED: Call := Call(false, true)
  const READY: Worker := Worker(Resolved, true, false, false, false)
  const FIRST: seq<Event> := [InvokeHook(TIMED), Begin, Ready(0), Resume, TimerFires(0)]
  const SECOND: seq<Event> := [InvokeHook(TIMED), Begin, Ready(1), Resume]

  /** After the first request timed out. */
  const AFTER_FIRST: State :=
    State([TIMED], {}, Idle, [], {}, {}, {0}, 1, [Outcome(0, Some(0), ByTimeout, [])], false, None, None, [READY], [],
          [Invoke(0, 0), Cancel(0, 0)])

  /** While the second request runs. */
  const DURING_SECOND: State :=
    State([TIMED, TIMED], {}, Running(1), [Pending(1, 1, [])], {1}, {}, {0}, 2, [Outcome(0, Some(0), ByTimeout, [])], false,
          Some(1), None, [READY, READY], [], [Invoke(0, 0), Cancel(0, 0), Invoke(1, 1)])

  lemma RunsFirst()
    ensures Exec(INITIAL, FIRST) == AFTER_FIRST
  {
    var a := INITIAL.(calls := [TIMED]);
    var b := a.(phase := Awaiting(0, false), workers := [Worker(Waiting, false, true, false, false)], starting := Some(0));
    var c := b.(workers := [READY], starting := None, worker := Some(0));
    var d := c.(phase := Running(0), nextId := 1, pending := [Pending(0, 0, [])], timers := {0}, posts := [Invoke(0, 0)]);
    ExecFive(INITIAL, FIRST);
    assert Step(INITIAL, FIRST[0]) == a;
    assert Step(a, Begin) == b;
    assert Step(b, Ready(0)) == c;
    assert Step(c, Resume) == d;
    assert Step(d, TimerFires(0)) == AFTER_FIRST;
  }

  lemma RunsSecond()
    ensures Exec(AFTER_FIRST, SECOND) == DURING_SECOND
  {
    var s := AFTER_FIRST;
    var a := s.(calls := [TIMED, TIMED]);
    var b := a.(phase := Awaiting(1, false), workers := [READY, Worker(Waiting, false, true, false, false)], starting := Some(1));
    var c := b.(workers := [READY, READY], starting := None, worker := Some(1));
    ExecFive(s, SECOND + [Start]);
    assert (SECOND + [Start])[..4] == SECOND;
    assert Step(s, SECOND[0]) == a;
    assert Step(a, Begin) == b;
    assert Step(b, Ready(1)) == c;
    assert Step(c, Resume) == DURING_SECOND;
  }

  /** The first request times out, the second runs on a new worker, and the exit of the first worker ends it. */
  lemma StaleExitHappens()
    ensures Exec(INITIAL, FIRST + SECOND) == DURING_SECOND && DURING_SECOND.worker == Some(1)
    ensures Exec(INITIAL, FIRST + SECOND + [WorkerExit(0, 1)]).outcomes
         == DURING_SECOND.outcomes + [Outcome(1, Some(1), ByExit, [])]
  {
    RunsFirst();
    RunsSecond();
    ExecConcat(INITIAL, FIRST, SECOND);
    ExecMore(INITIAL, FIRST + SECOND, WorkerExit(0, 1));
    EveryRunKeepsInv(FIRST + SECOND);
    hide Exec, Inv;
    StaleExitRejects(DURING_SECOND, 0, 1);
  }

  /** The clean exit of the current worker leaves its request pending. */
  lemma CleanExitLeavesPending(s: State, w: nat)
    requires Inv(s) && s.phase.Running? && s.worker == Some(w) && !s.workers[w].exited
    ensures var t := Step(s, WorkerExit(w, 0)); IsPending(t, s.phase.id) && t.worker == None && t.outcomes == s.outcomes
  {
    assert OnePending(s) && WorkersFine(s);
    ExitEffect(s, w, 0);
    ExitSettlesExactly(s, w, 0);
    hide WorkerExits, Inv, WorkersFine;
  }

  // ---------------------------------------------------------------- what a signal may still do

  predicate EndedAborted(s: State, call: nat) {
    |s.outcomes| > call && (s.outcomes[call].cause == ByAbort || s.outcomes[call].cause == AlreadyAborted)
  }

  /** The call runs, or is still in the queue of a session that is active. */
  predicate MayEndAborted(s: State, call: nat) {
    if call == |s.outcomes| && !s.phase.Idle? then s.phase.Running? else !s.disposed
  }

  /** The signal of the call has fired, and it will not be looked at any more. */
  predicate PastAbort(s: State, call: nat) {
    Inv(s) && call in s.aborted && !EndedAborted(s, call)
    && (|s.outcomes| <= call ==> s.disposed || (call == |s.outcomes| && !s.phase.Idle?))
  }

  lemma PastAbortStep(s: State, call: nat, e: Event)
    requires PastAbort(s, call)
    ensures PastAbort(Step(s, e), call)
  {
    StepKeepsInv(s, e);
    StepSettlesNext(s, e);
    if s.disposed { DisposedStays(s, e); }
    if Enabled(s, e) { NoAbortNow(s, call, e, Step(s, e)); }
  }

  lemma NoAbortNow(s: State, call: nat, e: Event, t: State)
    requires PastAbort(s, call) && Inv(t) && SettlesNext(s, e, t) && Enabled(s, e) && (s.disposed ==> t.disposed)
    ensures PastAbort(t, call)
  {
    hide Inv, LogsOf;
    assert |s.outcomes| > call ==> t.outcomes[call] == s.outcomes[call];
  }

  lemma {:induction false} StaysPastAbort(s: State, call: nat, es: seq<Event>)
    requires PastAbort(s, call)
    ensures PastAbort(Exec(s, es), call)
  {
    if es != [] {
      StaysPastAbort(s, call, es[..|es| - 1]);
      PastAbortStep(Exec(s, es[..|es| - 1]), call, es[|es| - 1]);
    }
  }

  /** Steps to go until the head call has settled. */
  function StepsLeft(s: State): nat {
    if s.phase.Running? then 0 else if MayResume(s) then 1 else if s.phase.Awaiting? then 2 else 3
  }

  /** An event that brings the head call closer to its end. */
  function NextEvent(s: State): Event {
    match s.phase
    case Idle => Begin
    case Awaiting(w, _) => if MayResume(s) then Resume else Ready(w)
    case Running(id) => ResultMessage(id, [])
  }

  /** The queue moves on, and neither disposes the session nor touches the calls behind its head. */
  predicate Moves(s: State, t: State) {
    && !t.disposed && t.calls == s.calls && s.aborted <= t.aborted
    && (if |t.outcomes| == |s.outcomes| then StepsLeft(t) < StepsLeft(s) && !t.phase.Idle?
        else |t.outcomes| == |s.outcomes| + 1 && t.phase.Idle?)
  }

  lemma BeginMoves(s: State)
    requires WorkersFine(s) && !s.disposed && |s.outcomes| < |s.calls| && s.phase.Idle?
    ensures Moves(s, BeginCall(s))
  {
    hide WorkersFine;
    BeginEffect(s);
  }

  lemma ResumeMoves(s: State)
    requires WorkersFine(s) && !s.disposed && MayResume(s)
    ensures Moves(s, ResumeCall(s))
  {
    hide WorkersFine;
    ResumeEffect(s);
  }

  lemma ReadyMoves(s: State)
    requires WorkersFine(s) && !s.disposed && |s.outcomes| < |s.calls| && s.phase.Awaiting? && !MayResume(s)
    ensures Enabled(s, Ready(s.phase.worker)) && Moves(s, WorkerReady(s, s.phase.worker))
  {
  }

  lemma ResultMoves(s: State)
    requires OnePending(s) && !s.disposed && s.phase.Running?
    ensures Moves(s, TakeResult(s, s.phase.id, []))
  {
    IndexOfOne(s, s.phase.id);
    hide OnePending, Settle;
    SettleEffect(s, s.phase.id, ByResult, s.pending[0].logs + []);
  }

  lemma QueueMoves(s: State)
    requires Inv(s) && !s.disposed && |s.outcomes| < |s.calls|
    ensures Inv(Step(s, NextEvent(s))) && Moves(s, Step(s, NextEvent(s)))
  {
    assert OnePending(s) && WorkersFine(s);
    StepKeepsInv(s, NextEvent(s));
    hide Inv, OnePending, WorkersFine, Moves, BeginCall, ResumeCall, WorkerReady, TakeResult;
    match s.phase
    case Idle => BeginMoves(s);
    case Awaiting(w, _) => if MayResume(s) { ResumeMoves(s); } else { ReadyMoves(s); }
    case Running(_) => ResultMoves(s);
  }

  /** A call in the queue of an active session whose signal has fired can end as aborted. */
  lemma {:induction false} QueuedCallAborts(s: State, call: nat) returns (es: seq<Event>)
    requires Inv(s) && !s.disposed && call in s.aborted && |s.outcomes| <= call < |s.calls|
    requires call == |s.outcomes| ==> s.phase.Idle?
    ensures EndedAborted(Exec(s, es), call)
    decreases call - |s.outcomes|, StepsLeft(s)
  {
    var e := NextEvent(s);
    if call == |s.outcomes| {
      es := [e];
      ExecOne(s, e);
      BeginEffect(s);
      hide Inv, BeginCall;
    } else {
      QueueMoves(s);
      hide Inv, Step, StepsLeft;
      var rest := QueuedCallAborts(Step(s, e), call);
      es := [e] + rest;
      ExecFirst(s, e, rest);
    }
  }

  lemma SignalOfWaitingCall(s: State, call: nat)
    requires Inv(s) && Enabled(s, SignalAborts(call)) && |s.outcomes| <= call && !Listens(s, call)
    ensures var t := Step(s, SignalAborts(call));
            Inv(t) && SameRequests(s, t) && t.disposed == s.disposed && t.aborted == s.aborted + {call}
  {
    assert OnePending(s) && WorkersFine(s);
    StepKeepsInv(s, SignalAborts(call));
    SignalEffect(s, call);
    hide Inv, SignalFires;
  }

  /** A signal that fires can still end its call as aborted if and only if the call runs, or is queued in an active session. */
  lemma AbortEndsExactly(s: State, call: nat)
    requires Inv(s) && |s.outcomes| <= call < |s.calls| && s.calls[call].hasSignal && call !in s.aborted
    ensures (exists es :: EndedAborted(Exec(Step(s, SignalAborts(call)), es), call)) <==> MayEndAborted(s, call)
  {
    var t := Step(s, SignalAborts(call));
    assert OnePending(s) && Tidy(s) && WorkersFine(s);
    if s.phase.Running? && call == |s.outcomes| {
      SignalEffect(s, call);
      hide Inv, SignalFires;
      assert EndedAborted(Exec(t, []), call);
    } else {
      SignalOfWaitingCall(s, call);
      hide Inv, Step, Exec;
      if MayEndAborted(s, call) {
        var es := QueuedCallAborts(t, call);
        assert EndedAborted(Exec(t, es), call);
      } else {
        forall es ensures !EndedAborted(Exec(t, es), call) { StaysPastAbort(t, call, es); }
      }
    }
  }

  /** A signal that fires while the call waits for its worker is not noticed: the call never ends as aborted. */
  lemma EarlyAbortIsLost(s: State, es: seq<Event>)
    requires Inv(s) && s.phase.Awaiting? && s.calls[|s.outcomes|].hasSignal && |s.outcomes| !in s.aborted
    ensures !EndedAborted(Exec(Step(s, SignalAborts(|s.outcomes|)), es), |s.outcomes|)
  {
    AbortEndsExactly(s, |s.outcomes|);
  }
}
