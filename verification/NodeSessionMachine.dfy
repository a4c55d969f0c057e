/** NodeRuntimeSession as an object; every method makes the step of the same name in NodeSession. */
module NodeSessionMachine {
  import opened NodeSession
  import opened Wrappers

  class NodeRuntimeSession {
    var calls: seq<Call>
    var aborted: set<nat>
    var phase: Phase
    var pending: seq<Pending>
    var timers: set<nat>
    var listeners: set<nat>
    var controllers: set<nat>
    var nextId: nat
    var outcomes: seq<Outcome>
    var disposed: bool
    var worker: Option<nat>
    var starting: Option<nat>
    var workers: seq<Worker>
    var hostCalls: seq<(nat, nat)>
    var posts: seq<Post>

    ghost function View(): State
      reads this
    {
      State(calls, aborted, phase, pending, timers, listeners, controllers, nextId, outcomes, disposed, worker, starting,
            workers, hostCalls, posts)
    }

    constructor ()
      ensures View() == INITIAL
    {
      calls, aborted, phase, pending, timers, listeners, controllers, nextId := [], {}, Idle, [], {}, {}, {}, 0;
      outcomes, disposed, worker, starting, workers, hostCalls, posts := [], false, None, None, [], [], [];
    }

    // -------------------------------------------------------------- requests

    /** Removes a pending request together with its timer and its listener. */
    method TakePending(id: nat) returns (taken: Option<Pending>)
      modifies this`pending, this`timers, this`listeners
      ensures var s := old(View());
              if IsPending(s, id) then
                var i := IndexOf(s.pending, id);
                taken == Some(s.pending[i])
                && View() == s.(pending := Without(s.pending, i), timers := s.timers - {id}, listeners := s.listeners - {id})
              else taken == None && View() == s
    {
      var i := IndexOf(pending, id);
      if i == |pending| { return None; }
      taken := Some(pending[i]);
      pending := pending[..i] + pending[i + 1..];
      timers := timers - {id};
      listeners := listeners - {id};
    }

    /** Settles the promise of a request that was taken, which lets the queue move on. */
    method Conclude(p: Pending, cause: Cause, logs: seq<nat>)
      modifies this`outcomes, this`phase
      ensures View() == old(View()).(
        outcomes := old(outcomes) + [Outcome(p.call, Some(p.id), cause, logs)],
        phase := if old(phase) == Running(p.id) then Idle else old(phase))
    {
      outcomes := outcomes + [Outcome(p.call, Some(p.id), cause, logs)];
      if phase == Running(p.id) { phase := Idle; }
    }

    method CancelHard(id: nat, cause: Cause)
      modifies this
      ensures View() == HardCancel(old(View()), id, cause)
    {
      var taken := TakePending(id);
      if taken == None { return; }
      controllers := controllers + {id};
      Conclude(taken.value, cause, []);
      var current := worker;
      worker := None;
      if current.Some? { posts := posts + [Cancel(current.value, id)]; }
    }

    method RejectPending(cause: Cause)
      modifies this
      ensures View() == RejectAll(old(View()), cause)
    {
      while pending != []
        invariant RejectAll(View(), cause) == RejectAll(old(View()), cause)
        decreases |pending|
      {
        var id := pending[0].id;
        var taken := TakePending(id);
        controllers := controllers + {id};
        Conclude(taken.value, cause, []);
      }
    }

    // -------------------------------------------------------------- calls

    method InvokeHook(options: Call)
      modifies this
      ensures View() == Step(old(View()), Event.InvokeHook(options))
    {
      calls := calls + [options];
    }

    method FailCall(cause: Cause)
      modifies this`outcomes, this`phase
      ensures View() == Fail(old(View()), cause)
    {
      outcomes := outcomes + [Outcome(|outcomes|, None, cause, [])];
      phase := Idle;
    }

    /** The worker, and whether it was the current one: then no start is awaited. */
    method FindWorker() returns (w: nat, current: bool)
      modifies this`workers, this`starting
      ensures Ensured(View(), w, current) == EnsureWorker(old(View()))
    {
      if worker.Some? { return worker.value, true; }
      current := false;
      if starting.Some? { return starting.value, false; }
      w := |workers|;
      workers := workers + [Worker(Waiting, false, true, false, false)];
      starting := Some(w);
    }

    method StartSession()
      modifies this
      ensures View() == Step(old(View()), Start)
    {
      if disposed { return; }
      var _, _ := FindWorker();
    }

    /** invokeNow up to its await. */
    method BeginInvocation()
      modifies this
      ensures View() == Step(old(View()), Begin)
    {
      if !(phase.Idle? && |outcomes| < |calls|) { return; }
      if disposed { FailCall(NotActive); return; }
      if |outcomes| in aborted { FailCall(AlreadyAborted); return; }
      var w, current := FindWorker();
      phase := Awaiting(w, current);
    }

    /** invokeNow after its await. */
    method ResumeInvocation()
      modifies this
      ensures View() == Step(old(View()), Resume)
    {
      if !(phase.Awaiting? && phase.worker < |workers| && |outcomes| < |calls|) { return; }
      var promise := workers[phase.worker].promise;
      if phase.current {
        RegisterRequest(|outcomes|, phase.worker);
      } else if promise == Rejected {
        FailCall(StartFailed);
      } else if promise == Resolved {
        RegisterRequest(|outcomes|, phase.worker);
      }
    }

    method RegisterRequest(call: nat, w: nat)
      requires call < |calls|
      modifies this`nextId, this`phase, this`pending, this`listeners, this`timers, this`posts
      ensures View() == Register(old(View()), call, w)
    {
      hide With;
      var id, options := nextId, calls[call];
      nextId, phase, pending, posts := id + 1, Running(id), pending + [Pending(id, call, [])], posts + [Invoke(w, id)];
      Attach(id, options);
    }

    /** The listener and the timer that the options ask for. */
    method Attach(id: nat, options: Call)
      modifies this`listeners, this`timers
      ensures listeners == With(old(listeners), id, options.hasSignal) && timers == With(old(timers), id, options.timed)
    {
      if options.hasSignal { listeners := listeners + {id}; }
      if options.timed { timers := timers + {id}; }
    }

    method OnAbort(call: nat)
      modifies this
      ensures View() == Step(old(View()), SignalAborts(call))
    {
      if call >= |calls| || !calls[call].hasSignal || call in aborted { return; }
      aborted := aborted + {call};
      if pending != [] && pending[0].call == call && pending[0].id in listeners { CancelHard(pending[0].id, ByAbort); }
    }

    method OnTimeout(id: nat)
      modifies this
      ensures View() == Step(old(View()), TimerFires(id))
    {
      if id !in timers { return; }
      timers := timers - {id};
      CancelHard(id, ByTimeout);
    }

    // -------------------------------------------------------------- worker events

    method OnReady(w: nat)
      modifies this
      ensures View() == Step(old(View()), Ready(w))
    {
      if w >= |workers| || workers[w].ready || workers[w].exited { return; }
      var state := workers[w];
      workers := workers[w := state.(ready := true, startTimer := false,
                                     promise := if state.promise == Waiting then Resolved else state.promise)];
      worker := Some(w);
      starting := None;
    }

    method OnStartTimeout(w: nat)
      modifies this
      ensures View() == Step(old(View()), StartTimerFires(w))
    {
      if w >= |workers| || !workers[w].startTimer { return; }
      workers := workers[w := RejectStart(workers[w]).(startTimer := false)];
    }

    method OnWorkerError(w: nat)
      modifies this
      ensures View() == Step(old(View()), WorkerError(w))
    {
      if w >= |workers| || workers[w].errored || workers[w].exited { return; }
      if workers[w].ready {
        workers := workers[w := workers[w].(errored := true)];
      } else {
        workers := workers[w := RejectStart(workers[w]).(startTimer := false, errored := true)];
        starting := None;
      }
    }

    method OnWorkerExit(w: nat, code: int)
      modifies this
      ensures View() == Step(old(View()), WorkerExit(w, code))
    {
      if w >= |workers| || workers[w].exited { return; }
      var ready := workers[w].ready;
      if worker == Some(w) { worker := None; }
      workers := workers[w := (if ready then workers[w] else RejectStart(workers[w])).(startTimer := false, exited := true)];
      if !ready { starting := None; return; }
      if !disposed && code != 0 { RejectPending(ByExit); }
    }

    method OnLog(id: nat, log: nat)
      modifies this
      ensures View() == Step(old(View()), LogMessage(id, log))
    {
      var i := IndexOf(pending, id);
      if i < |pending| { pending := pending[i := pending[i].(logs := pending[i].logs + [log])]; }
    }

    method OnResult(id: nat, logs: seq<nat>)
      modifies this
      ensures View() == Step(old(View()), ResultMessage(id, logs))
    {
      var taken := TakePending(id);
      if taken.Some? { Conclude(taken.value, ByResult, taken.value.logs + logs); }
    }

    method OnError(w: nat, id: nat, unhandled: bool)
      modifies this
      ensures View() == Step(old(View()), ErrorMessage(w, id, unhandled))
    {
      var taken := TakePending(id);
      if taken.Some? { Conclude(taken.value, ByError, []); }
      if unhandled && worker == Some(w) { worker := None; }
    }

    /** handleHostCall up to its await. */
    method OnHostCall(w: nat, id: nat)
      modifies this
      ensures View() == Step(old(View()), HostCallMessage(w, id))
    {
      if IndexOf(pending, id) == |pending| { return; }
      hostCalls := hostCalls + [(w, id)];
    }

    /** handleHostCall after its await. */
    method FinishHostCall(index: nat)
      modifies this
      ensures View() == Step(old(View()), HostCallReturns(index))
    {
      if index >= |hostCalls| { return; }
      var (w, id) := hostCalls[index];
      hostCalls := hostCalls[..index] + hostCalls[index + 1..];
      if worker != Some(w) || IndexOf(pending, id) == |pending| { return; }
      posts := posts + [HostResult(w, id)];
    }

    method DisposeNow()
      modifies this
      ensures View() == Step(old(View()), Dispose)
    {
      if disposed { return; }
      hide RejectAll;
      disposed := true;
      assert View() == old(View()).(disposed := true);
      RejectPending(ByDispose);
      DismissWorker();
    }

    method DismissWorker()
      modifies this`worker, this`starting, this`posts
      ensures View() == old(View()).(worker := None, starting := None,
        posts := if old(worker).Some? then old(posts) + [Farewell(old(worker).value)] else old(posts))
    {
      if worker.Some? { posts := posts + [Farewell(worker.value)]; }
      worker := None;
      starting := None;
    }
  }
}
