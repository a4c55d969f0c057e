/**
 * HeadlessExecutionService: one execution, step by step, while others go on at each of its awaits. What the others do is given as
 * the world; all that an execution needs of it is that nobody else emits its own events.
 */
module LifecycleService {
  import opened Groups
  import opened Lifecycle
  import opened LifecycleRuns
  import opened Wrappers

  /** What happens during one await: the events that others emit, and the ids that are active afterwards. */
  datatype Turn = Turn(entries: seq<Entry>, active: set<nat>)

  lemma {:induction false} OwnConcat(a: seq<Entry>, b: seq<Entry>, call: nat)
    ensures Own(a + b, call) == Own(a, call) + Own(b, call)
  {
    if b == [] {
      assert a + b == a;
    } else {
      assert (a + b)[..|a + b| - 1] == a + b[..|b| - 1];
      OwnConcat(a, b[..|b| - 1], call);
    }
  }

  /** The log grew, and the events of the call among the new ones, without those of its host calls, are the given ones. */
  predicate Grew(before: seq<Entry>, after: seq<Entry>, call: nat, kinds: seq<Kind>) {
    before <= after && Main(Own(after[|before|..], call)) == kinds
  }

  lemma GrewNot(log: seq<Entry>, call: nat)
    ensures Grew(log, log, call, [])
  {
    assert log[|log|..] == [];
  }

  lemma GrewOne(log: seq<Entry>, call: nat, kind: Kind)
    requires !IsAside(kind)
    ensures Grew(log, log + [Entry(call, kind)], call, [kind])
  {
    assert (log + [Entry(call, kind)])[|log|..] == [] + [Entry(call, kind)];
    OwnSnoc([], call, kind, call);
    MainSnoc([], kind);
    assert Own([], call) == [] && Main([]) == [];
  }

  lemma GrewByOther(log: seq<Entry>, other: nat, call: nat, kind: Kind)
    requires other != call
    ensures Grew(log, log + [Entry(other, kind)], call, [])
  {
    assert (log + [Entry(other, kind)])[|log|..] == [] + [Entry(other, kind)];
    OwnSnoc([], other, kind, call);
    assert Own([], call) == [] && [] + ([]) == Own([], call) && Main(Own([], call)) == [];
  }

  lemma GrewByAside(log: seq<Entry>, call: nat, kind: Kind)
    requires IsAside(kind)
    ensures Grew(log, log + [Entry(call, kind)], call, [])
  {
    assert (log + [Entry(call, kind)])[|log|..] == [] + [Entry(call, kind)];
    OwnSnoc([], call, kind, call);
    MainSnoc([], kind);
    assert Own([], call) == [] && Main([]) == [] && [] + ([]) == Main([]);
  }

  lemma GrewTwice(a: seq<Entry>, b: seq<Entry>, c: seq<Entry>, call: nat, x: seq<Kind>, y: seq<Kind>)
    requires Grew(a, b, call, x) && Grew(b, c, call, y)
    ensures Grew(a, c, call, x + y)
  {
    assert c[|a|..] == b[|a|..] + c[|b|..];
    OwnConcat(b[|a|..], c[|b|..], call);
    MainConcat(Own(b[|a|..], call), Own(c[|b|..], call));
    hide Own, Main;
  }

  lemma GrewStill(a: seq<Entry>, b: seq<Entry>, c: seq<Entry>, call: nat)
    requires Grew(a, b, call, []) && Grew(b, c, call, [])
    ensures Grew(a, c, call, [])
  {
    hide Grew;
    var none: seq<Kind> := [];
    GrewTwice(a, b, c, call, none, none);
    assert none + none == none;
  }

  /** Nobody but the execution itself emits its own events. */
  predicate Spares(entries: seq<Entry>, call: nat) {
    forall i | 0 <= i < |entries| && entries[i].call == call :: IsAside(entries[i].kind)
  }

  lemma {:induction false} SparedIsSilent(entries: seq<Entry>, call: nat)
    requires Spares(entries, call)
    ensures Main(Own(entries, call)) == []
  {
    if entries != [] {
      var init, last := entries[..|entries| - 1], entries[|entries| - 1];
      SparedIsSilent(init, call);
      if last.call == call { MainSnoc(Own(init, call), last.kind); } else { assert Own(init, call) + [] == Own(init, call); }
    }
  }

  lemma GrewBySpared(log: seq<Entry>, entries: seq<Entry>, call: nat)
    requires Spares(entries, call)
    ensures Grew(log, log + entries, call, [])
  {
    assert (log + entries)[|log|..] == entries;
    SparedIsSilent(entries, call);
  }

  lemma RepeatMore(kind: Kind, n: nat)
    ensures Repeat(kind, 0) == [] && Repeat(kind, n + 1) == Repeat(kind, n) + [kind]
  {
  }

  lemma {:induction false} StoppedStays(plans: seq<HookPlan>, hook: Hook, sources: seq<Id>, i: nat, n: nat)
    requires i <= n <= |sources|
    requires var part := RunHooks(plans, hook, sources, i); part.failed || part.mocked
    ensures RunHooks(plans, hook, sources, n) == RunHooks(plans, hook, sources, i)
  {
    hide InvokeHook, PlanAt;
    if i < n { StoppedStays(plans, hook, sources, i, n - 1); }
  }

  class HeadlessExecutionService {
    const max: int
    const world: nat -> Turn
    var turns: nat
    var active: set<nat>
    var log: seq<Entry>

    constructor (max: int, world: nat -> Turn)
      ensures this.max == max && this.world == world && active == {} && log == []
    {
      this.max, this.world := max, world;
      turns, active, log := 0, {}, [];
    }

    /** No one else emits the own events of this call at any await. */
    ghost predicate IsSpared(call: nat) {
      forall n: nat :: Spares(world(n).entries, call)
    }

    /** The log grew by the given own events of the call, and by no own events of another one that nobody else emits for. */
    ghost predicate Went(before: seq<Entry>, after: seq<Entry>, call: nat, kinds: seq<Kind>) {
      Grew(before, after, call, kinds)
      && forall other: nat | other != call && IsSpared(other) :: Grew(before, after, other, [])
    }

    lemma WentNot(log0: seq<Entry>, call: nat)
      ensures Went(log0, log0, call, [])
    {
      hide Grew, IsSpared;
      GrewNot(log0, call);
      forall other: nat ensures Grew(log0, log0, other, []) { GrewNot(log0, other); }
    }

    lemma WentOne(log0: seq<Entry>, call: nat, kind: Kind)
      requires !IsAside(kind)
      ensures Went(log0, log0 + [Entry(call, kind)], call, [kind])
    {
      hide Grew, IsSpared;
      GrewOne(log0, call, kind);
      forall other: nat | other != call ensures Grew(log0, log0 + [Entry(call, kind)], other, []) {
        GrewByOther(log0, call, other, kind);
      }
    }

    lemma WentTwice(a: seq<Entry>, b: seq<Entry>, c: seq<Entry>, call: nat, x: seq<Kind>, y: seq<Kind>)
      requires Went(a, b, call, x) && Went(b, c, call, y)
      ensures Went(a, c, call, x + y)
    {
      hide Grew, IsSpared;
      GrewTwice(a, b, c, call, x, y);
      forall other: nat | other != call && IsSpared(other) ensures Grew(a, c, other, []) {
        WentAlso(a, b, call, x, other);
        WentAlso(b, c, call, y, other);
        GrewStill(a, b, c, other);
      }
    }

    lemma WentAlso(before: seq<Entry>, after: seq<Entry>, call: nat, kinds: seq<Kind>, other: nat)
      requires Went(before, after, call, kinds) && other != call && IsSpared(other)
      ensures Grew(before, after, other, [])
    {
      hide Grew, IsSpared;
    }

    lemma WentBySpared(log0: seq<Entry>, n: nat, call: nat)
      requires IsSpared(call)
      ensures Went(log0, log0 + world(n).entries, call, [])
    {
      hide Grew;
      forall other: nat | IsSpared(other) ensures Grew(log0, log0 + world(n).entries, other, []) {
        assert Spares(world(n).entries, other);
        GrewBySpared(log0, world(n).entries, other);
      }
    }

    /** An await of the given execution: the others go on, and their ids come and go. */
    method Await(call: nat)
      requires IsSpared(call)
      modifies this`turns, this`active, this`log
      ensures Went(old(log), log, call, []) && (call in active <==> call in old(active))
    {
      WentBySpared(log, turns, call);
      log := log + world(turns).entries;
      active := if call in active then world(turns).active + {call} else world(turns).active - {call};
      turns := turns + 1;
    }

    /** emit: an observer that fails changes nothing. */
    method Emit(call: nat, kind: Kind)
      requires IsSpared(call) && call in active && !IsAside(kind)
      modifies this`turns, this`active, this`log
      ensures Went(old(log), log, call, [kind]) && call in active
    {
      hide Went, IsSpared;
      WentOne(log, call, kind);
      log := log + [Entry(call, kind)];
      ghost var log0 := log;
      Await(call);
      WentTwice(old(log), log0, log, call, [kind], []);
      assert [kind] + [] == [kind];
    }

    /** One event after the other, as long as the loop of the caller runs. */
    method EmitMore(call: nat, kind: Kind, ghost before: seq<Entry>, ghost kinds: seq<Kind>)
      requires IsSpared(call) && call in active && !IsAside(kind) && Went(before, log, call, kinds)
      modifies this`turns, this`active, this`log
      ensures Went(before, log, call, kinds + [kind]) && call in active
    {
      hide Went, IsSpared;
      Emit(call, kind);
      WentTwice(before, old(log), log, call, kinds, [kind]);
    }

    method EmitRepeated(call: nat, kind: Kind, n: nat, ghost before: seq<Entry>, ghost kinds: seq<Kind>)
      requires IsSpared(call) && call in active && !IsAside(kind) && Went(before, log, call, kinds)
      modifies this`turns, this`active, this`log
      ensures Went(before, log, call, kinds + Repeat(kind, n)) && call in active
    {
      hide Went, IsSpared, Repeat;
      RepeatMore(kind, 0);
      assert kinds + [] == kinds;
      for i := 0 to n
        invariant call in active && Went(before, log, call, kinds + Repeat(kind, i))
      {
        EmitMore(call, kind, before, kinds + Repeat(kind, i));
        RepeatMore(kind, i);
        assert kinds + Repeat(kind, i) + [kind] == kinds + (Repeat(kind, i) + [kind]);
      }
    }

    /** An await at which nothing is emitted by the execution itself. */
    method WaitMore(call: nat, ghost before: seq<Entry>, ghost kinds: seq<Kind>)
      requires IsSpared(call) && call in active && Went(before, log, call, kinds)
      modifies this`turns, this`active, this`log
      ensures Went(before, log, call, kinds) && call in active
    {
      hide Went, IsSpared;
      Await(call);
      WentTwice(before, old(log), log, call, kinds, []);
      assert kinds + [] == kinds;
    }

    /** invokeHook: while the hook runs, its host calls do what they do. */
    method InvokeOne(h: HookPlan, hook: Hook, source: Id, call: nat) returns (part: Part)
      requires IsSpared(call) && call in active
      modifies this`turns, this`active, this`log
      ensures call in active && part == InvokeHook(h, hook, source)
      ensures Went(old(log), log, call, part.kinds)
    {
      hide Went, IsSpared, Repeat;
      Emit(call, HookStarted(hook, source));
      ghost var kinds := [HookStarted(hook, source)];
      WaitMore(call, old(log), kinds);
      if h.end.Throws? { return Part([HookStarted(hook, source)], true, false, false); }
      if h.end.snapshotFails { return Part([HookStarted(hook, source)], true, false, false); }
      EmitRepeated(call, RuntimeLog, h.logs, old(log), kinds);
      kinds := kinds + Repeat(RuntimeLog, h.logs);
      EmitRepeated(call, TestCompleted, h.tests, old(log), kinds);
      kinds := kinds + Repeat(TestCompleted, h.tests);
      var mocked := h.end.mock && hook == OnRequest;
      EmitMore(call, HookCompleted(hook, source, mocked), old(log), kinds);
      var reports := [HookStarted(hook, source)] + Repeat(RuntimeLog, h.logs) + Repeat(TestCompleted, h.tests);
      part := Part(reports + [HookCompleted(hook, source, mocked)], false, false, mocked);
      if h.end.cancelled || h.end.aborted { part := part.(failed := true, aborted := true); }
    }

    method RunSources(plans: seq<HookPlan>, hook: Hook, sources: seq<Id>, call: nat) returns (part: Part)
      requires IsSpared(call) && call in active
      modifies this`turns, this`active, this`log
      ensures call in active && part == RunHooks(plans, hook, sources, |sources|)
      ensures Went(old(log), log, call, part.kinds)
    {
      hide Went, IsSpared, InvokeHook, PlanAt;
      part := Part([], false, false, false);
      WentNot(log, call);
      for i := 0 to |sources|
        invariant call in active && !part.failed && !part.mocked
        invariant part == RunHooks(plans, hook, sources, i)
        invariant Went(old(log), log, call, part.kinds)
      {
        ghost var before, log0 := part.kinds, log;
        var one := InvokeOne(PlanAt(plans, i), hook, sources[i], call);
        WentTwice(old(log), log0, log, call, before, one.kinds);
        part := one.(kinds := part.kinds + one.kinds);
        if part.failed || part.mocked {
          StoppedStays(plans, hook, sources, i + 1, |sources|);
          return;
        }
      }
    }

    /** The transport: a stream emits what it receives while the request is under way. */
    method SendOut(p: Plan, call: nat, ghost before: seq<Entry>, ghost kinds: seq<Kind>)
      requires IsSpared(call) && call in active && Went(before, log, call, kinds)
      modifies this`turns, this`active, this`log
      ensures call in active && Went(before, log, call, kinds + [RequestSent] + StreamKinds(p.stream))
    {
      hide Went, IsSpared;
      EmitMore(call, RequestSent, before, kinds);
      ghost var sent := kinds + [RequestSent];
      assert sent + StreamKinds(p.stream)[..0] == sent;
      for i := 0 to |p.stream|
        invariant call in active && Went(before, log, call, sent + StreamKinds(p.stream)[..i])
      {
        EmitMore(call, if p.stream[i] then StreamOpened else StreamEvent, before, sent + StreamKinds(p.stream)[..i]);
        assert sent + StreamKinds(p.stream)[..i] + [StreamKinds(p.stream)[i]] == sent + StreamKinds(p.stream)[..i + 1];
      }
      assert StreamKinds(p.stream)[..|p.stream|] == StreamKinds(p.stream);
      WaitMore(call, before, sent + StreamKinds(p.stream));
    }

    /** From the prepared request to the response. */
    method SendRequest(p: Plan, call: nat) returns (part: Part)
      requires IsSpared(call) && call in active
      modifies this`turns, this`active, this`log
      ensures call in active && part == Exchange(p)
      ensures Went(old(log), log, call, part.kinds)
    {
      hide Went, IsSpared, RunHooks, Sources, StreamKinds;
      part := RunSources(p.onRequest, OnRequest, Sources(p), call);
      if part.failed { return; }
      if p.abortedBeforeSend { return part.(failed := true, aborted := true); }
      WaitMore(call, old(log), part.kinds);
      if !p.requestSnapshots { return part.(failed := true); }
      if part.mocked {
        WaitMore(call, old(log), part.kinds);
        if !p.cookiesStored { return part.(failed := true); }
        EmitMore(call, ResponseReceived(true), old(log), part.kinds);
        part := part.(kinds := part.kinds + [ResponseReceived(true)]);
      } else {
        SendOut(p, call, old(log), part.kinds);
        part := part.(kinds := part.kinds + [RequestSent] + StreamKinds(p.stream));
        if !p.responds { return part.(failed := true); }
        EmitMore(call, ResponseReceived(false), old(log), part.kinds);
        part := part.(kinds := part.kinds + [ResponseReceived(false)]);
      }
    }

    /** The hooks after the response. */
    method RunAftermath(p: Plan, call: nat) returns (part: Part)
      requires IsSpared(call) && call in active
      modifies this`turns, this`active, this`log
      ensures call in active && part == Aftermath(p)
      ensures Went(old(log), log, call, part.kinds)
    {
      hide Went, IsSpared, RunHooks, Sources, TestSources;
      part := RunSources(p.onResponse, OnResponse, Sources(p), call);
      if part.failed || !p.test { return; }
      ghost var before, log0 := part.kinds, log;
      var tests := RunSources(p.onTest, OnTest, TestSources(p), call);
      WentTwice(old(log), log0, log, call, before, tests.kinds);
      part := tests.(kinds := part.kinds + tests.kinds);
    }

    /** The body of the try statement, up to the completion. */
    method RunAttempt(p: Plan, call: nat) returns (part: Part)
      requires IsSpared(call) && call in active
      modifies this`turns, this`active, this`log
      ensures call in active && part == Attempt(p)
      ensures Went(old(log), log, call, part.kinds)
    {
      hide Went, IsSpared, Exchange, Aftermath, Sources, TestSources, LineageOf;
      Await(call);
      if !p.resolved { return Part([], true, false, false); }
      ghost var log0 := log;
      Emit(call, Started);
      WentTwice(old(log), log0, log, call, [], [Started]);
      assert [] + [Started] == [Started];
      if p.abortedAtStart { return Part([Started], true, true, false); }
      var lineage := GroupLineage(p.groups, p.groupId);
      if lineage.Looping? { return Part([Started], true, false, false); }
      WaitMore(call, old(log), [Started]);
      if UsesRuntime(p) && !p.sessionStarts { return Part([Started], true, false, false); }
      if !p.requestBuilds { return Part([Started], true, false, false); }
      part := FinishAttempt(p, call, old(log));
    }

    /** The attempt once the session and the request are there. */
    method FinishAttempt(p: Plan, call: nat, ghost before: seq<Entry>) returns (part: Part)
      requires IsSpared(call) && call in active && Went(before, log, call, [Started])
      requires p.resolved && !p.abortedAtStart && LineageOf(p.groups, p.groupId).Chain?
      requires (UsesRuntime(p) ==> p.sessionStarts) && p.requestBuilds
      modifies this`turns, this`active, this`log
      ensures call in active && part == Attempt(p)
      ensures Went(before, log, call, part.kinds)
    {
      hide Went, IsSpared, Exchange, Aftermath, Sources, TestSources, LineageOf;
      EmitMore(call, RequestPrepared, before, [Started]);
      assert [Started] + [RequestPrepared] == [Started, RequestPrepared];
      ghost var log1 := log;
      var exchange := SendRequest(p, call);
      WentTwice(before, log1, log, call, [Started, RequestPrepared], exchange.kinds);
      part := exchange.(kinds := [Started, RequestPrepared] + exchange.kinds);
      if part.failed { return; }
      ghost var log2 := log;
      var rest := RunAftermath(p, call);
      WentTwice(before, log2, log, call, part.kinds, rest.kinds);
      part := rest.(kinds := part.kinds + rest.kinds, mocked := part.mocked);
      WaitMore(call, before, part.kinds);
      if UsesRuntime(p) && !p.sessionDisposes { part := part.(failed := true); }
    }

    /** executeInternal: its own events are those of one execution, and its id is active from its beginning to its end. */
    method ExecuteInternal(p: Plan, call: nat, depth: nat) returns (rejected: bool)
      requires IsSpared(call) && call !in active
      modifies this`turns, this`active, this`log
      ensures rejected == RejectsAt(p, depth, max) && call !in active
      ensures Went(old(log), log, call, Script(p, depth, max))
    {
      hide Went, IsSpared, Attempt, Ending;
      if depth > max {
        WentNot(log, call);
        return true;
      }
      active := active + {call};
      var part := RunAttempt(p, call);
      rejected := Settle(p, part, call, old(log));
      active := active - {call};
    }

    /** The completion of an attempt, or its failure, and the history. */
    method Settle(p: Plan, part: Part, call: nat, ghost before: seq<Entry>) returns (rejected: bool)
      requires IsSpared(call) && call in active && part == Attempt(p) && Went(before, log, call, part.kinds)
      modifies this`turns, this`active, this`log
      ensures call in active && rejected == Rejects(p)
      ensures Went(before, log, call, Emitted(p))
    {
      hide Went, IsSpared, Attempt, Ending;
      ghost var kinds := part.kinds;
      var saved := false;
      if !part.failed {
        EmitMore(call, Completed, before, kinds);
        kinds := kinds + [Completed];
        WaitMore(call, before, kinds);
        saved := p.savesCompleted;
      }
      rejected := false;
      if !saved {
        EndingIsOwn(p, part);
        EmitMore(call, Ending(p, part), before, kinds);
        WaitMore(call, before, kinds + [Ending(p, part)]);
        rejected := !p.savesFailed;
      }
      assert part.kinds + [Completed] + [] == part.kinds + [Completed];
    }

    lemma EndingIsOwn(p: Plan, a: Part)
      ensures !IsAside(Ending(p, a))
    {
    }

    /**
     * The host call that executes an entity: announced under the id of the execution that asked for it, and reported there when the
     * nested execution has ended without rejecting. To the own events of the one that asked it adds nothing.
     */
    method HostExecute(p: Plan, parent: nat, child: nat, depth: nat) returns (rejected: bool)
      requires IsSpared(parent) && IsSpared(child) && child !in active && child != parent
      modifies this`turns, this`active, this`log
      ensures rejected == RejectsAt(p, depth + 1, max) && child !in active
      ensures |log| > |old(log)| && log[|old(log)|] == Entry(parent, NestedStarted)
      ensures Grew(old(log), log, parent, [])
      ensures exists k | |old(log)| < k <= |log| ::
                Grew(old(log), log[..k], child, Script(p, depth + 1, max))
                && (if rejected then k == |log| else k < |log| && log[k] == Entry(parent, NestedCompleted))
    {
      hide Went, Grew, IsSpared, Script, RejectsAt;
      ghost var script := Script(p, depth + 1, max);
      ghost var log0 := log;
      log := log + [Entry(parent, NestedStarted)];
      ghost var log1 := log;
      GrewByOther(log0, parent, child, NestedStarted);
      GrewByAside(log0, parent, NestedStarted);
      Await(child);
      ghost var log2 := log;
      rejected := ExecuteInternal(p, child, depth + 1);
      ghost var log3 := log;
      Announced(log0, log1, log2, log3, parent, child, script);
      if !rejected {
        log := log + [Entry(parent, NestedCompleted)];
        ghost var log4 := log;
        GrewByAside(log3, parent, NestedCompleted);
        GrewStill(log0, log3, log4, parent);
        Await(child);
        WentAlso(log4, log, child, [], parent);
        GrewStill(log0, log4, log, parent);
        GoesBeyond(log4, log, child, []);
      }
      assert log[..|log3|] == log3;
    }

    lemma GoesBeyond(before: seq<Entry>, after: seq<Entry>, call: nat, kinds: seq<Kind>)
      requires Went(before, after, call, kinds)
      ensures before <= after
    {
    }

    lemma Announced(a: seq<Entry>, b: seq<Entry>, c: seq<Entry>, d: seq<Entry>, parent: nat, child: nat, script: seq<Kind>)
      requires b == a + [Entry(parent, NestedStarted)] && Grew(a, b, child, []) && Grew(a, b, parent, [])
      requires parent != child && IsSpared(parent) && Went(b, c, child, []) && Went(c, d, child, script)
      ensures Grew(a, d, child, script) && Grew(a, d, parent, [])
      ensures |a| < |d| && d[|a|] == Entry(parent, NestedStarted)
    {
      WentTwice(b, c, d, child, [], script);
      WentAlso(b, d, child, [] + script, parent);
      assert b <= d;
      hide Grew, IsSpared;
      GrewTwice(a, b, d, child, [], [] + script);
      GrewStill(a, b, d, parent);
      assert [] + ([] + script) == script;
    }
  }
}
