/** The group forest: two checkers, the lineage of a group, and what they agree on. */
module Groups {
  import opened Wrappers

  type Id = string

  datatype Group = Group(id: Id, workspaceId: Id, parentId: Option<Id>, entityKind: string, script: Option<string>)

  /** A reference that is null or empty refers to nothing. */
  predicate Refers(r: Option<Id>) {
    r.Some? && r.value != ""
  }

  /** new Map(groups.map(g => [g.id, g])): the last group with an id wins. */
  function ById(groups: seq<Group>): (m: map<Id, Group>)
    ensures forall k | k in m :: m[k].id == k && m[k] in groups
    ensures forall g | g in groups :: g.id in m
  {
    if groups == [] then map[]
    else
      var last := groups[|groups| - 1];
      assert groups == groups[..|groups| - 1] + [last];
      ById(groups[..|groups| - 1])[last.id := last]
  }

  predicate UniqueIds(groups: seq<Group>) {
    forall i, j | 0 <= i < j < |groups| :: groups[i].id != groups[j].id
  }

  lemma {:induction false} ByIdOfUnique(groups: seq<Group>)
    requires UniqueIds(groups)
    ensures forall i | 0 <= i < |groups| :: ById(groups)[groups[i].id] == groups[i]
  {
    if groups != [] {
      var init := groups[..|groups| - 1];
      ByIdOfUnique(init);
      forall i | 0 <= i < |groups| ensures ById(groups)[groups[i].id] == groups[i] {
        assert i < |init| ==> groups[i] == init[i];
      }
    }
  }

  // ---------------------------------------------------------------- following parents

  /** A map from ids to groups that carry them. */
  predicate IsIndex(m: map<Id, Group>) {
    forall k | k in m :: m[k].id == k
  }

  /** n parent steps lead from g to a root. */
  predicate RootAfter(m: map<Id, Group>, g: Group, n: nat)
    decreases n
  {
    if n == 0 then !Refers(g.parentId)
    else Refers(g.parentId) && g.parentId.value in m && RootAfter(m, m[g.parentId.value], n - 1)
  }

  /** Following the parents from g ends at a root. */
  ghost predicate EndsAtRoot(m: map<Id, Group>, g: Group) {
    exists n: nat :: RootAfter(m, g, n)
  }

  ghost predicate IsForest(groups: seq<Group>) {
    forall g | g in groups :: EndsAtRoot(ById(groups), g)
  }

  lemma {:induction false} DepthIsUnique(m: map<Id, Group>, g: Group, n: nat, k: nat)
    requires RootAfter(m, g, n) && RootAfter(m, g, k)
    ensures n == k
    decreases n
  {
    if n > 0 && k > 0 { DepthIsUnique(m, m[g.parentId.value], n - 1, k - 1); }
  }

  lemma ParentEndsAtRoot(m: map<Id, Group>, g: Group)
    requires Refers(g.parentId)
    ensures EndsAtRoot(m, g) <==> g.parentId.value in m && EndsAtRoot(m, m[g.parentId.value])
  {
    if EndsAtRoot(m, g) {
      var n: nat :| RootAfter(m, g, n);
      assert RootAfter(m, m[g.parentId.value], n - 1);
    }
    if g.parentId.value in m && EndsAtRoot(m, m[g.parentId.value]) {
      var n: nat :| RootAfter(m, m[g.parentId.value], n);
      assert RootAfter(m, g, n + 1);
    }
  }

  // ---------------------------------------------------------------- the checker of the services

  datatype Verdict = Accepted | CycleAt(id: Id) | UnknownParent(id: Id)

  /** The while loop of validateGroupGraph from one group. */
  function Walk(m: map<Id, Group>, current: Group, seen: set<Id>): Verdict
    requires IsIndex(m) && current.id in m && seen <= m.Keys
    decreases m.Keys - seen
  {
    if !Refers(current.parentId) then Accepted
    else if current.id in seen then CycleAt(current.id)
    else if current.parentId.value !in m then UnknownParent(current.parentId.value)
    else Walk(m, m[current.parentId.value], seen + {current.id})
  }

  /** validateGroupGraph: the first group that is not accepted decides. */
  function ValidateGraph(groups: seq<Group>, n: nat): Verdict
    requires n <= |groups|
  {
    if n == 0 then Accepted
    else if ValidateGraph(groups, n - 1) != Accepted then ValidateGraph(groups, n - 1)
    else Walk(ById(groups), groups[n - 1], {})
  }

  method ValidateGroupGraph(groups: seq<Group>) returns (verdict: Verdict)
    ensures verdict == ValidateGraph(groups, |groups|)
  {
    var byId := ById(groups);
    for i := 0 to |groups|
      invariant ValidateGraph(groups, i) == Accepted
    {
      var seen: set<Id> := {};
      var current := groups[i];
      while Refers(current.parentId)
        invariant current.id in byId && seen <= byId.Keys
        invariant Walk(byId, current, seen) == Walk(byId, groups[i], {})
        decreases byId.Keys - seen
      {
        if current.id in seen {
          verdict := CycleAt(current.id);
          RefusedStays(groups, i + 1, |groups|);
          return;
        }
        seen := seen + {current.id};
        if current.parentId.value !in byId {
          verdict := UnknownParent(current.parentId.value);
          RefusedStays(groups, i + 1, |groups|);
          return;
        }
        current := byId[current.parentId.value];
      }
    }
    verdict := Accepted;
  }

  lemma {:induction false} RefusedStays(groups: seq<Group>, i: nat, n: nat)
    requires i <= n <= |groups| && ValidateGraph(groups, i) != Accepted
    ensures ValidateGraph(groups, n) == ValidateGraph(groups, i)
  {
    if i < n { RefusedStays(groups, i, n - 1); }
  }

  lemma {:induction false} AcceptedAll(groups: seq<Group>, n: nat)
    requires n <= |groups|
    ensures ValidateGraph(groups, n) == Accepted <==> forall i | 0 <= i < n :: Walk(ById(groups), groups[i], {}) == Accepted
  {
    hide Walk, ById;
    if n > 0 { AcceptedAll(groups, n - 1); }
  }

  /** The group a lies at least n steps away from a root. */
  ghost predicate AtLeast(m: map<Id, Group>, a: Id, n: nat) {
    a in m && exists k: nat :: k >= n && RootAfter(m, m[a], k)
  }

  /** Every group seen lies at least n steps away from a root. */
  ghost predicate Behind(m: map<Id, Group>, seen: set<Id>, n: nat) {
    forall a | a in seen :: AtLeast(m, a, n)
  }

  lemma NextBehind(m: map<Id, Group>, seen: set<Id>, id: Id, n: nat, d: nat)
    requires Behind(m, seen, d) && id in m && RootAfter(m, m[id], n) && n <= d
    ensures Behind(m, seen + {id}, n)
  {
    forall a | a in seen + {id} ensures AtLeast(m, a, n) {
      if a in seen {
        assert AtLeast(m, a, d);
        var k: nat :| k >= d && RootAfter(m, m[a], k);
        assert k >= n;
      } else {
        assert RootAfter(m, m[a], n);
      }
    }
  }

  lemma {:induction false} RootedIsAccepted(m: map<Id, Group>, current: Group, seen: set<Id>, n: nat)
    requires IsIndex(m) && current.id in m && m[current.id] == current && seen <= m.Keys
    requires RootAfter(m, current, n) && Behind(m, seen, n + 1)
    ensures Walk(m, current, seen) == Accepted
    decreases n
  {
    if n > 0 {
      if current.id in seen {
        assert AtLeast(m, current.id, n + 1);
        var k: nat :| k >= n + 1 && RootAfter(m, m[current.id], k);
        DepthIsUnique(m, current, n, k);
      }
      NextBehind(m, seen, current.id, n, n + 1);
      RootedIsAccepted(m, m[current.parentId.value], seen + {current.id}, n - 1);
    }
  }

  lemma {:induction false} AcceptedIsRooted(m: map<Id, Group>, current: Group, seen: set<Id>)
    requires IsIndex(m) && current.id in m && seen <= m.Keys && Walk(m, current, seen) == Accepted
    ensures EndsAtRoot(m, current)
    decreases m.Keys - seen
  {
    if Refers(current.parentId) {
      AcceptedIsRooted(m, m[current.parentId.value], seen + {current.id});
      ParentEndsAtRoot(m, current);
    } else {
      assert RootAfter(m, current, 0);
    }
  }

  /** validateGroupGraph accepts exactly the forests. */
  lemma ValidateIsExact(groups: seq<Group>)
    requires UniqueIds(groups)
    ensures ValidateGraph(groups, |groups|) == Accepted <==> IsForest(groups)
  {
    var m := ById(groups);
    ByIdOfUnique(groups);
    AcceptedAll(groups, |groups|);
    hide ById, Walk, ValidateGraph, EndsAtRoot;
    assert IsIndex(m);
    forall i | 0 <= i < |groups| ensures Walk(m, groups[i], {}) == Accepted <==> EndsAtRoot(m, groups[i]) {
      WalkIsExact(m, groups[i]);
    }
    assert forall g | g in groups :: exists i | 0 <= i < |groups| :: groups[i] == g;
  }

  lemma WalkIsExact(m: map<Id, Group>, g: Group)
    requires IsIndex(m) && g.id in m && m[g.id] == g
    ensures Walk(m, g, {}) == Accepted <==> EndsAtRoot(m, g)
  {
    if Walk(m, g, {}) == Accepted { AcceptedIsRooted(m, g, {}); }
    if EndsAtRoot(m, g) {
      var n: nat :| RootAfter(m, g, n);
      RootedIsAccepted(m, g, {}, n);
    }
  }

  // ---------------------------------------------------------------- the checker of the loader

  function ParentOf(m: map<Id, Group>, id: Id): Option<Id> {
    if id in m then m[id].parentId else None
  }

  /** The loader's walk from the parent of a group; false when it reports a cycle. */
  function LoaderWalk(m: map<Id, Group>, parent: Option<Id>, seen: set<Id>): bool
    decreases m.Keys - seen, parent.Some? && parent.value !in m, parent.Some?
  {
    if !Refers(parent) then true
    else if parent.value in seen then false
    else if parent.value !in m then true
    else LoaderWalk(m, ParentOf(m, parent.value), seen + {parent.value})
  }

  /** The loader reports nothing about the parents of a group. */
  predicate LoaderAccepts(m: map<Id, Group>, g: Group) {
    (Refers(g.parentId) ==> g.parentId.value in m) && LoaderWalk(m, g.parentId, {g.id})
  }

  /** The part of validateWorkspace that walks the parents; it counts what it reports. */
  method LoaderReports(groups: seq<Group>) returns (reports: nat)
    ensures reports == 0 <==> forall g | g in groups :: LoaderAccepts(ById(groups), g)
  {
    var byId := ById(groups);
    reports := 0;
    for i := 0 to |groups|
      invariant reports == 0 <==> forall k | 0 <= k < i :: LoaderAccepts(byId, groups[k])
    {
      var group := groups[i];
      ghost var before := reports;
      var unknown := Refers(group.parentId) && group.parentId.value !in byId;
      if unknown { reports := reports + 1; }
      var seen := {group.id};
      var parent := group.parentId;
      var cycle := false;
      while Refers(parent) && !cycle
        invariant reports == before + (if unknown then 1 else 0) + (if cycle then 1 else 0)
        invariant if cycle then !LoaderWalk(byId, group.parentId, {group.id})
                  else LoaderWalk(byId, parent, seen) == LoaderWalk(byId, group.parentId, {group.id})
        decreases !cycle, byId.Keys - seen, parent.Some? && parent.value !in byId, parent.Some?
      {
        if parent.value in seen {
          reports := reports + 1;
          cycle := true;
        } else {
          var next := ParentOf(byId, parent.value);
          seen := seen + {parent.value};
          parent := next;
        }
      }
      assert reports == before <==> LoaderAccepts(byId, group);
    }
    assert forall g | g in groups :: exists k | 0 <= k < |groups| :: groups[k] == g;
  }

  /** Both checkers refuse the same lists of groups. */
  lemma CheckersAgree(groups: seq<Group>)
    requires UniqueIds(groups)
    ensures (forall g | g in groups :: LoaderAccepts(ById(groups), g)) <==> ValidateGraph(groups, |groups|) == Accepted
  {
    var m := ById(groups);
    ByIdOfUnique(groups);
    ValidateIsExact(groups);
    hide ById, ValidateGraph, EndsAtRoot, LoaderAccepts, UniqueIds;
    if forall g | g in groups :: LoaderAccepts(m, g) {
      forall g | g in groups ensures EndsAtRoot(m, g) { LoaderAcceptsRooted(groups, g); }
    }
    if IsForest(groups) {
      forall g | g in groups ensures LoaderAccepts(m, g) { RootedIsAcceptedByLoader(groups, g); }
    }
  }

  lemma LoaderAcceptsRooted(groups: seq<Group>, g: Group)
    requires g in groups && forall h | h in groups :: LoaderAccepts(ById(groups), h)
    ensures EndsAtRoot(ById(groups), g)
  {
    var m := ById(groups);
    hide ById, LoaderWalk, EndsAtRoot;
    assert forall h | h in groups :: LoaderAccepts(m, h) && (Refers(h.parentId) ==> h.parentId.value in m);
    LoaderAcceptedIsRooted(groups, m, g, {g.id});
  }

  lemma RootedIsAcceptedByLoader(groups: seq<Group>, g: Group)
    requires g in groups && EndsAtRoot(ById(groups), g) && ById(groups)[g.id] == g
    ensures LoaderAccepts(ById(groups), g)
  {
    var m := ById(groups);
    var n: nat :| RootAfter(m, g, n);
    hide ById, LoaderWalk, RootAfter;
    assert AtLeast(m, g.id, n);
    RootedIsLoaderAccepted(m, g, {g.id}, n);
  }

  lemma {:induction false} LoaderAcceptedIsRooted(groups: seq<Group>, m: map<Id, Group>, g: Group, seen: set<Id>)
    requires m == ById(groups) && g in groups && seen <= m.Keys
    requires forall h | h in groups :: Refers(h.parentId) ==> h.parentId.value in m
    requires LoaderWalk(m, g.parentId, seen)
    ensures EndsAtRoot(m, g)
    decreases m.Keys - seen
  {
    if Refers(g.parentId) {
      var p := g.parentId.value;
      LoaderAcceptedIsRooted(groups, m, m[p], seen + {p});
      ParentEndsAtRoot(m, g);
    } else {
      assert RootAfter(m, g, 0);
    }
  }

  lemma {:induction false} RootedIsLoaderAccepted(m: map<Id, Group>, g: Group, seen: set<Id>, n: nat)
    requires IsIndex(m) && RootAfter(m, g, n)
    requires Behind(m, seen, n)
    ensures LoaderWalk(m, g.parentId, seen) && (Refers(g.parentId) ==> g.parentId.value in m)
    decreases n
  {
    if n > 0 {
      var p := g.parentId.value;
      if p in seen {
        assert AtLeast(m, p, n);
        var k: nat :| k >= n && RootAfter(m, m[p], k);
        DepthIsUnique(m, m[p], n - 1, k);
      }
      NextBehind(m, seen, p, n - 1, n);
      RootedIsLoaderAccepted(m, m[p], seen + {p}, n - 1);
    }
  }

  // ---------------------------------------------------------------- the lineage of a group

  datatype Lineage = Chain(groups: seq<Group>) | Looping(id: Id)

  function Find(m: map<Id, Group>, id: Option<Id>): Option<Group> {
    if Refers(id) && id.value in m then Some(m[id.value]) else None
  }

  /** The while loop of groupLineage: every group is put in front of the ones below it. */
  function Climb(m: map<Id, Group>, current: Option<Group>, seen: set<Id>, below: seq<Group>): Lineage
    requires IsIndex(m) && seen <= m.Keys && (current.Some? ==> current.value.id in m)
    decreases m.Keys - seen
  {
    if current.None? then Chain(below)
    else
      var g := current.value;
      if g.id in seen then Looping(g.id)
      else Climb(m, Find(m, g.parentId), seen + {g.id}, [g] + below)
  }

  function LineageOf(groups: seq<Group>, groupId: Option<Id>): Lineage {
    Climb(ById(groups), Find(ById(groups), groupId), {}, [])
  }

  method GroupLineage(groups: seq<Group>, groupId: Option<Id>) returns (result: Lineage)
    ensures result == LineageOf(groups, groupId)
  {
    if !Refers(groupId) { return Chain([]); }
    var byId := ById(groups);
    var lineage: seq<Group> := [];
    var seen: set<Id> := {};
    var current := Find(byId, groupId);
    while current.Some?
      invariant seen <= byId.Keys && (current.Some? ==> current.value.id in byId)
      invariant Climb(byId, current, seen, lineage) == LineageOf(groups, groupId)
      decreases byId.Keys - seen, current.Some?
    {
      var group := current.value;
      if group.id in seen { return Looping(group.id); }
      seen := seen + {group.id};
      lineage := [group] + lineage;
      current := Find(byId, group.parentId);
    }
    result := Chain(lineage);
  }

  /** The groups from a root down to the group with the given id, each the parent of the next. */
  predicate IsLineage(m: map<Id, Group>, chain: seq<Group>, id: Id) {
    && chain != [] && chain[|chain| - 1].id == id
    && (forall i | 0 <= i < |chain| :: chain[i].id in m && m[chain[i].id] == chain[i])
    && !Refers(chain[0].parentId)
    && (forall i | 0 < i < |chain| :: Refers(chain[i].parentId) && chain[i].parentId.value == chain[i - 1].id)
  }

  function AncestorChain(m: map<Id, Group>, g: Group, n: nat): (chain: seq<Group>)
    requires RootAfter(m, g, n)
    ensures |chain| == n + 1 && chain[n] == g
    decreases n
  {
    if n == 0 then [g] else AncestorChain(m, m[g.parentId.value], n - 1) + [g]
  }

  lemma {:induction false} AncestorsAreLineage(m: map<Id, Group>, g: Group, n: nat)
    requires IsIndex(m) && g.id in m && m[g.id] == g && RootAfter(m, g, n)
    ensures IsLineage(m, AncestorChain(m, g, n), g.id)
    ensures forall i | 0 <= i <= n :: RootAfter(m, AncestorChain(m, g, n)[i], i)
    decreases n
  {
    if n > 0 {
      var parent := m[g.parentId.value];
      AncestorsAreLineage(m, parent, n - 1);
      var upper := AncestorChain(m, parent, n - 1);
      assert forall i | 0 <= i < n :: AncestorChain(m, g, n)[i] == upper[i];
    }
  }

  lemma {:induction false} ClimbsToRoot(m: map<Id, Group>, g: Group, seen: set<Id>, below: seq<Group>, n: nat)
    requires IsIndex(m) && g.id in m && m[g.id] == g && seen <= m.Keys && RootAfter(m, g, n) && Behind(m, seen, n + 1)
    ensures Climb(m, Some(g), seen, below) == Chain(AncestorChain(m, g, n) + below)
    decreases n
  {
    if g.id in seen {
      assert AtLeast(m, g.id, n + 1);
      var k: nat :| k >= n + 1 && RootAfter(m, m[g.id], k);
      DepthIsUnique(m, g, n, k);
    }
    if n > 0 {
      var parent := m[g.parentId.value];
      NextBehind(m, seen, g.id, n, n + 1);
      ClimbsToRoot(m, parent, seen + {g.id}, [g] + below, n - 1);
      assert AncestorChain(m, parent, n - 1) + ([g] + below) == AncestorChain(m, g, n) + below;
    }
  }

  /** A group has one lineage. */
  lemma {:induction false} LineageIsUnique(m: map<Id, Group>, a: seq<Group>, b: seq<Group>, id: Id)
    requires IsLineage(m, a, id) && IsLineage(m, b, id)
    ensures a == b
    decreases |a|
  {
    var x, y := a[..|a| - 1], b[..|b| - 1];
    assert a[|a| - 1] == b[|b| - 1] == m[id];
    if |a| > 1 && |b| > 1 {
      assert x[|x| - 1].id == m[id].parentId.value == y[|y| - 1].id;
      LineageIsUnique(m, x, y, m[id].parentId.value);
    }
    assert a == x + [m[id]] && b == y + [m[id]];
  }

  predicate AllDistinct(chain: seq<Group>) {
    forall i, j | 0 <= i < j < |chain| :: chain[i].id != chain[j].id
  }

  /** On an accepted graph the lineage never loops: it is the whole chain from a root to the group, without repetition. */
  lemma LineageIsWhole(groups: seq<Group>, id: Id)
    requires UniqueIds(groups) && ValidateGraph(groups, |groups|) == Accepted && id != "" && id in ById(groups)
    ensures LineageOf(groups, Some(id)).Chain?
    ensures IsLineage(ById(groups), LineageOf(groups, Some(id)).groups, id) && AllDistinct(LineageOf(groups, Some(id)).groups)
  {
    ValidateIsExact(groups);
    LineageUnfolds(groups, id);
    hide *;
    var n := DepthOf(groups, id);
    FoundLineage(ById(groups), ById(groups)[id], n);
  }

  lemma LineageUnfolds(groups: seq<Group>, id: Id)
    requires id != "" && id in ById(groups)
    ensures IsIndex(ById(groups)) && LineageOf(groups, Some(id)) == Climb(ById(groups), Some(ById(groups)[id]), {}, [])
  {
    hide Climb;
  }

  /** A group that is not there has no lineage. */
  lemma UnknownHasNoLineage(groups: seq<Group>, id: Option<Id>)
    requires Refers(id) ==> id.value !in ById(groups)
    ensures LineageOf(groups, id) == Chain([])
  {
  }

  lemma DepthOf(groups: seq<Group>, id: Id) returns (n: nat)
    requires IsForest(groups) && id in ById(groups)
    ensures RootAfter(ById(groups), ById(groups)[id], n)
  {
    hide ById;
    assert EndsAtRoot(ById(groups), ById(groups)[id]);
    n :| RootAfter(ById(groups), ById(groups)[id], n);
  }

  lemma FoundLineage(m: map<Id, Group>, g: Group, n: nat)
    requires IsIndex(m) && g.id in m && m[g.id] == g && RootAfter(m, g, n)
    ensures Climb(m, Some(g), {}, []) == Chain(AncestorChain(m, g, n))
    ensures IsLineage(m, AncestorChain(m, g, n), g.id) && AllDistinct(AncestorChain(m, g, n))
  {
    hide Climb;
    ClimbsToRoot(m, g, {}, [], n);
    AncestorsAreLineage(m, g, n);
    var chain := AncestorChain(m, g, n);
    assert chain + [] == chain;
    forall i, j | 0 <= i < j < |chain| ensures chain[i].id != chain[j].id {
      if chain[i].id == chain[j].id { DepthIsUnique(m, chain[i], i, j); }
    }
  }
}
