/** ScriptWorker as an object; every method makes the step of the same name in the module ScriptWorker. */
module ScriptWorkerMachine {
  import opened ScriptWorker
  import opened Wrappers

  class Worker {
    var calls: seq<Call>
    var aborted: set<nat>
    var waiters: seq<Waiter>
    var requests: seq<Request>
    var hooks: seq<Request>
    var timers: set<nat>
    var listeners: set<nat>
    var controllers: set<nat>
    var nextId: nat
    var outcomes: seq<Outcome>
    var mode: Mode
    var promises: seq<Promise>
    var current: Option<nat>
    var monitor: bool
    var live: bool
    var hostCalls: seq<nat>
    var posts: seq<Post>
    var terminations: nat

    ghost function View(): State
      reads this
    {
      State(calls, aborted, waiters, requests, hooks, timers, listeners, controllers, nextId, outcomes, mode, promises,
            current, monitor, live, hostCalls, posts, terminations)
    }

    constructor ()
      ensures View() == INITIAL
    {
      calls, aborted, waiters, requests, hooks, timers, listeners, controllers := [], {}, [], [], [], {}, {}, {};
      nextId, outcomes, mode, promises, current, monitor, live := 0, [], Terminated, [], None, false, false;
      hostCalls, posts, terminations := [], [], 0;
    }

    // -------------------------------------------------------------- rejecting what is pending

    method RejectRequests(cause: Cause)
      modifies this`requests, this`timers, this`outcomes
      ensures View() == old(View()).(requests := [], timers := old(timers) - IdsOf(old(requests)),
                                     outcomes := old(outcomes) + Rejections(old(requests), cause))
    {
      NothingRejected(requests[..0], cause);
      hide IdsOf, Rejections;
      for i := 0 to |requests|
        invariant requests == old(requests)
        invariant timers == old(timers) - IdsOf(requests[..i])
        invariant outcomes == old(outcomes) + Rejections(requests[..i], cause)
      {
        RejectOneMore(requests, i, cause);
        timers := timers - {requests[i].id};
        outcomes := outcomes + [Outcome(requests[i].call, Some(requests[i].id), cause, [])];
      }
      assert requests[..|requests|] == requests;
      requests := [];
    }

    lemma NothingRejected(ps: seq<Request>, cause: Cause)
      requires ps == []
      ensures Rejections(ps, cause) == [] && IdsOf(ps) == {}
    {
    }

    lemma RejectOneMore(ps: seq<Request>, i: nat, cause: Cause)
      requires i < |ps|
      ensures IdsOf(ps[..i + 1]) == IdsOf(ps[..i]) + {ps[i].id}
      ensures Rejections(ps[..i + 1], cause) == Rejections(ps[..i], cause) + [Outcome(ps[i].call, Some(ps[i].id), cause, [])]
    {
      var a, b := ps[..i], ps[..i + 1];
      assert b[i] == ps[i] && forall k | 0 <= k < i :: b[k] == a[k];
    }

    /** Removes an execute request together with its timer. */
    method TakeRequest(id: nat) returns (taken: Option<Request>)
      modifies this`requests, this`timers
      ensures var s := old(View());
              if Holds(s.requests, id) then
                var i := IndexOf(s.requests, id);
                taken == Some(s.requests[i]) && View() == s.(requests := Without(s.requests, i), timers := s.timers - {id})
              else taken == None && View() == s
    {
      var i := IndexOf(requests, id);
      if i == |requests| { return None; }
      taken := Some(requests[i]);
      requests := requests[..i] + requests[i + 1..];
      timers := timers - {id};
    }

    /** Resolves or rejects the promise of a request that was taken. */
    method Conclude(request: Request, cause: Cause, logs: seq<nat>)
      modifies this`outcomes
      ensures outcomes == old(outcomes) + [Outcome(request.call, Some(request.id), cause, logs)]
    {
      outcomes := outcomes + [Outcome(request.call, Some(request.id), cause, logs)];
    }

    /** takeRuntimeRequest: removes a hook request together with its timer and its listener. */
    method TakeHook(id: nat) returns (taken: Option<Request>)
      modifies this`hooks, this`timers, this`listeners
      ensures var s := old(View());
              if Holds(s.hooks, id) then
                var i := IndexOf(s.hooks, id);
                taken == Some(s.hooks[i])
                && View() == s.(hooks := Without(s.hooks, i), timers := s.timers - {id}, listeners := s.listeners - {id})
              else taken == None && View() == s
    {
      var i := IndexOf(hooks, id);
      if i == |hooks| { return None; }
      taken := Some(hooks[i]);
      hooks := hooks[..i] + hooks[i + 1..];
      timers := timers - {id};
      listeners := listeners - {id};
    }

    method RejectHooks(cause: Cause)
      modifies this`hooks, this`timers, this`listeners, this`controllers, this`outcomes
      ensures View() == old(View()).(
        hooks := [], timers := old(timers) - IdsOf(old(hooks)), listeners := old(listeners) - IdsOf(old(hooks)),
        controllers := old(controllers) + IdsOf(old(hooks)), outcomes := old(outcomes) + Rejections(old(hooks), cause))
    {
      ghost var all := hooks;
      NothingRejected(all[..0], cause);
      hide IdsOf, Rejections;
      ghost var i := 0;
      while hooks != []
        invariant i <= |all| && hooks == all[i..]
        invariant timers == old(timers) - IdsOf(all[..i]) && listeners == old(listeners) - IdsOf(all[..i])
        invariant controllers == old(controllers) + IdsOf(all[..i])
        invariant outcomes == old(outcomes) + Rejections(all[..i], cause)
        decreases |hooks|
      {
        RejectOneMore(all, i, cause);
        RejectFirst(cause);
        i := i + 1;
      }
      assert all[..i] == all;
    }

    /** Rejects the oldest hook request. */
    method RejectFirst(cause: Cause)
      requires hooks != []
      modifies this`hooks, this`timers, this`listeners, this`controllers, this`outcomes
      ensures hooks == old(hooks)[1..]
      ensures timers == old(timers) - {old(hooks)[0].id} && listeners == old(listeners) - {old(hooks)[0].id}
      ensures controllers == old(controllers) + {old(hooks)[0].id}
      ensures outcomes == old(outcomes) + [Outcome(old(hooks)[0].call, Some(old(hooks)[0].id), cause, [])]
    {
      var request := hooks[0];
      hooks := hooks[1..];
      timers := timers - {request.id};
      listeners := listeners - {request.id};
      controllers := controllers + {request.id};
      Conclude(request, cause, []);
    }

    /** rejects both maps */
    method RejectPending()
      modifies this
      ensures View() == RejectAll(old(View()), ByReset)
    {
      RejectRequests(ByReset);
      RejectHooks(ByReset);
      hide IdsOf, Rejections;
    }

    // -------------------------------------------------------------- the end of a worker

    method CleanupWorker()
      modifies this`mode, this`monitor, this`live, this`current, this`terminations
      ensures mode == Terminated && !monitor && !live && current == None && terminations == old(terminations) + 1
    {
      mode, monitor, live, current, terminations := Terminated, false, false, None, terminations + 1;
    }

    method ResetWorker()
      modifies this
      ensures View() == Reset(old(View()))
    {
      hide RejectAll;
      RejectPending();
      ModeStays(old(View()));
      if mode != Terminated { CleanupWorker(); }
    }

    lemma ModeStays(s: State)
      ensures RejectAll(s, ByReset).mode == s.mode
    {
    }

    method RejectStart()
      modifies this`promises
      ensures View() == RejectReady(old(View()))
    {
      if mode == Initializing && current.Some? && current.value < |promises| && promises[current.value] == Waiting {
        promises := promises[current.value := Rejected];
      }
    }

    method OnError()
      modifies this
      ensures View() == Step(old(View()), WorkerError)
    {
      RejectStart();
      ResetWorker();
    }

    method OnExit(code: int)
      modifies this
      ensures View() == Step(old(View()), WorkerExit(code))
    {
      if mode == Terminated { return; }
      RejectStart();
      ResetWorker();
    }

    method OnHeartbeatCheck(lost: bool)
      modifies this
      ensures View() == Step(old(View()), HeartbeatCheck(lost))
    {
      if !monitor { return; }
      if mode == Terminated { monitor := false; return; }
      if lost { ResetWorker(); }
    }

    method TerminateNow()
      modifies this
      ensures View() == Step(old(View()), Terminate)
    {
      ResetWorker();
    }

    method DisposeNow()
      modifies this
      ensures View() == Step(old(View()), Dispose)
    {
      hide Reset;
      if mode != Terminated { posts := posts + [Farewell]; }
      ResetWorker();
    }

    // -------------------------------------------------------------- calls

    /** ensureWorker; started tells whether the strategy starts without an error. */
    method FindWorker(started: bool) returns (promise: Option<nat>)
      modifies this
      ensures Ensured(View(), promise) == EnsureWorker(old(View()), started)
    {
      hide Reset;
      if mode != Terminated { return current; }
      promise := OpenStart(started);
      if started {
        monitor := true;
      } else {
        RejectStart();
        ResetWorker();
      }
    }

    /** A new ready promise, and the start of the strategy. */
    method OpenStart(started: bool) returns (promise: Option<nat>)
      modifies this`mode, this`promises, this`current, this`live
      ensures promise == Some(|old(promises)|) && promises == old(promises) + [Waiting]
      ensures mode == Initializing && current == promise && live == started
    {
      promise := Some(|promises|);
      mode, promises, current, live := Initializing, promises + [Waiting], promise, started;
    }

    method StartWorker(started: bool)
      modifies this
      ensures View() == Step(old(View()), Start(started))
    {
      var _ := FindWorker(started);
    }

    /** execute and invokeRuntimeHook up to their await */
    method BeginCall(call: Call, started: bool, abortedBefore: bool)
      modifies this
      ensures View() == Step(old(View()), Issue(call, started, abortedBefore))
    {
      hide EnsureWorker;
      var n := |calls|;
      calls := calls + [call];
      if call.Hook? && call.hasSignal && abortedBefore {
        Refuse(n);
      } else {
        AwaitWorker(n, started);
      }
    }

    method AwaitWorker(call: nat, started: bool)
      modifies this
      ensures var e := EnsureWorker(old(View()), started);
              View() == e.state.(waiters := e.state.waiters + [Waiter(call, e.promise)])
    {
      hide EnsureWorker;
      var promise := FindWorker(started);
      waiters := waiters + [Waiter(call, promise)];
    }

    /** A call whose signal has fired before it was made. */
    method Refuse(call: nat)
      modifies this`aborted, this`outcomes
      ensures aborted == old(aborted) + {call} && outcomes == old(outcomes) + [Outcome(call, None, AlreadyAborted, [])]
    {
      aborted := aborted + {call};
      outcomes := outcomes + [Outcome(call, None, AlreadyAborted, [])];
    }

    /** execute and invokeRuntimeHook after their await */
    method ContinueCall(i: nat)
      modifies this
      ensures View() == Step(old(View()), Resume(i))
    {
      hide Register;
      if i >= |waiters| || waiters[i].call >= |calls| { return; }
      var w := waiters[i];
      if w.promise.Some? && (w.promise.value >= |promises| || promises[w.promise.value] == Waiting) { return; }
      waiters := waiters[..i] + waiters[i + 1..];
      if w.promise.Some? && promises[w.promise.value] == Rejected {
        outcomes := outcomes + [Outcome(w.call, None, StartFailed, [])];
      } else if calls[w.call].Hook? && w.call in aborted {
        outcomes := outcomes + [Outcome(w.call, None, AlreadyAborted, [])];
      } else {
        RegisterRequest(w.call);
      }
    }

    method RegisterRequest(call: nat)
      requires call < |calls|
      modifies this
      ensures View() == Register(old(View()), call)
    {
      if calls[call].Execute? { RegisterExecute(call); } else { RegisterHook(call); }
    }

    /** Posts the next request and counts its id. */
    method PostRun()
      modifies this`nextId, this`mode, this`posts
      ensures View() == old(View()).(nextId := old(nextId) + 1, mode := Executing, posts := old(posts) + [Run(old(nextId))])
    {
      mode := Executing;
      posts := posts + [Run(nextId)];
      nextId := nextId + 1;
    }

    method RegisterExecute(call: nat)
      requires call < |calls| && calls[call].Execute?
      modifies this
      ensures View() == Register(old(View()), call)
    {
      timers := timers + {nextId};
      requests := requests + [Request(nextId, call, [])];
      PostRun();
    }

    method RegisterHook(call: nat)
      requires call < |calls| && calls[call].Hook?
      modifies this
      ensures View() == Register(old(View()), call)
    {
      listeners := if calls[call].hasSignal then listeners + {nextId} else listeners;
      timers := if calls[call].timed then timers + {nextId} else timers;
      hooks := hooks + [Request(nextId, call, [])];
      PostRun();
    }

    method CancelHard(id: nat, cause: Cause)
      modifies this
      ensures View() == HardCancel(old(View()), id, cause)
    {
      hide Reset, IndexOf, Without;
      var taken := TakeHook(id);
      if taken == None { return; }
      Abandon(taken.value, cause);
      ResetWorker();
    }

    /** Aborts the controller of a request that was taken, rejects it, and tells the worker. */
    method Abandon(request: Request, cause: Cause)
      modifies this`controllers, this`outcomes, this`posts
      ensures controllers == old(controllers) + {request.id} && posts == old(posts) + [Cancel(request.id)]
      ensures outcomes == old(outcomes) + [Outcome(request.call, Some(request.id), cause, [])]
    {
      controllers := controllers + {request.id};
      Conclude(request, cause, []);
      posts := posts + [Cancel(request.id)];
    }

    method OnTimer(id: nat)
      modifies this
      ensures View() == Step(old(View()), TimerFires(id))
    {
      hide TimeOut;
      if id in timers { EndInTime(id); }
    }

    method EndInTime(id: nat)
      modifies this
      ensures View() == TimeOut(old(View()), id)
    {
      hide HardCancel;
      timers := timers - {id};
      var taken := TakeRequest(id);
      if taken.Some? { Conclude(taken.value, ByTimeout, []); } else { CancelHard(id, ByTimeout); }
    }

    method OnAbort(id: nat)
      modifies this
      ensures View() == Step(old(View()), SignalAborts(id))
    {
      hide HardCancel;
      if id !in listeners { return; }
      listeners := listeners - {id};
      var i := IndexOf(hooks, id);
      if i < |hooks| {
        aborted := aborted + {hooks[i].call};
        CancelHard(id, ByAbort);
      }
    }

    // -------------------------------------------------------------- messages

    method OnReady()
      modifies this
      ensures View() == Step(old(View()), ReadyMessage)
    {
      mode := Ready;
      if current.Some? && current.value < |promises| && promises[current.value] == Waiting {
        promises := promises[current.value := Resolved];
      }
    }

    method OnExecution(id: nat)
      modifies this
      ensures View() == Step(old(View()), ExecutionMessage(id))
    {
      var taken := TakeRequest(id);
      if taken == None { return; }
      mode := Ready;
      Conclude(taken.value, ByAnswer, []);
    }

    method OnLog(id: nat, log: nat)
      modifies this
      ensures View() == Step(old(View()), LogMessage(id, log))
    {
      var i := IndexOf(hooks, id);
      if i < |hooks| { hooks := hooks[i := hooks[i].(logs := hooks[i].logs + [log])]; }
    }

    method OnHook(id: nat, logs: seq<nat>, failed: bool)
      modifies this
      ensures View() == Step(old(View()), HookMessage(id, logs, failed))
    {
      var taken := TakeHook(id);
      if taken == None { return; }
      mode := Ready;
      Conclude(taken.value, ByAnswer, if failed then [] else taken.value.logs + logs);
    }

    method OnHostCall(id: nat)
      modifies this
      ensures View() == Step(old(View()), HostCallMessage(id))
    {
      if IndexOf(hooks, id) < |hooks| { hostCalls := hostCalls + [id]; }
    }

    method FinishHostCall(i: nat)
      modifies this
      ensures View() == Step(old(View()), HostCallReturns(i))
    {
      if i >= |hostCalls| { return; }
      var id := hostCalls[i];
      hostCalls := hostCalls[..i] + hostCalls[i + 1..];
      if IndexOf(hooks, id) == |hooks| || mode == Terminated { return; }
      posts := posts + [HostResult(id)];
    }
  }
}
