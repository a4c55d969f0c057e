/** Workspaces under concurrent services: what every stored workspace keeps, however the operations interleave. */
module Workspaces {
  import opened Groups
  import CodeUnits
  import opened Wrappers

  datatype Entity = Entity(id: Id, workspaceId: Id, kind: string, name: CodeUnits.Text, groupId: Option<Id>,
                           dependencies: seq<Id>, serializable: bool, body: string)

  datatype Environment = Environment(id: Id, workspaceId: Id, values: string)

  datatype Workspace = Workspace(id: Id, entities: seq<Entity>, groups: seq<Group>, environments: seq<Environment>,
                                 activeEnvironmentId: Option<Id>, script: Option<string>, smtp: Option<string>)

  datatype Error = WorkspaceNotFound | EntityNotFound | InvalidReference | InvalidEntity | DuplicateId

  datatype Result<+T> = Ok(value: T) | Err(error: Error)

  // ---------------------------------------------------------------- lists

  predicate HasEntity(entities: seq<Entity>, id: Id) {
    exists i | 0 <= i < |entities| :: entities[i].id == id
  }

  predicate HasGroup(groups: seq<Group>, id: Id) {
    exists i | 0 <= i < |groups| :: groups[i].id == id
  }

  function EntityIndex(entities: seq<Entity>, id: Id): (i: nat)
    ensures i <= |entities| && (i < |entities| ==> entities[i].id == id) && forall k | 0 <= k < i :: entities[k].id != id
  {
    if entities == [] || entities[0].id == id then 0 else 1 + EntityIndex(entities[1..], id)
  }

  function GroupIndex(groups: seq<Group>, id: Id): (i: nat)
    ensures i <= |groups| && (i < |groups| ==> groups[i].id == id) && forall k | 0 <= k < i :: groups[k].id != id
  {
    if groups == [] || groups[0].id == id then 0 else 1 + GroupIndex(groups[1..], id)
  }

  function EnvironmentIndex(environments: seq<Environment>, id: Id): (i: nat)
    ensures i <= |environments| && (i < |environments| ==> environments[i].id == id)
  {
    if environments == [] || environments[0].id == id then 0 else 1 + EnvironmentIndex(environments[1..], id)
  }

  function WithoutEntity(entities: seq<Entity>, id: Id): (r: seq<Entity>)
    ensures forall e :: e in r <==> e in entities && e.id != id
  {
    if entities == [] then []
    else if entities[0].id == id then WithoutEntity(entities[1..], id)
    else [entities[0]] + WithoutEntity(entities[1..], id)
  }

  function WithoutGroup(groups: seq<Group>, id: Id): (r: seq<Group>)
    ensures forall g :: g in r <==> g in groups && g.id != id
  {
    if groups == [] then []
    else if groups[0].id == id then WithoutGroup(groups[1..], id)
    else [groups[0]] + WithoutGroup(groups[1..], id)
  }

  function WithoutEnvironment(environments: seq<Environment>, id: Id): seq<Environment> {
    if environments == [] then []
    else if environments[0].id == id then WithoutEnvironment(environments[1..], id)
    else [environments[0]] + WithoutEnvironment(environments[1..], id)
  }

  function PutGroup(groups: seq<Group>, g: Group): seq<Group> {
    var i := GroupIndex(groups, g.id);
    if i == |groups| then groups + [g] else groups[i := g]
  }

  predicate UniqueEntities(entities: seq<Entity>) {
    forall i, j | 0 <= i < j < |entities| :: entities[i].id != entities[j].id
  }

  // ---------------------------------------------------------------- validation

  /** validateEntity: against the workspace as the caller read it. */
  function ValidateEntity(w: Workspace, e: Entity): Option<Error> {
    if e.workspaceId != w.id then Some(InvalidReference)
    else if CodeUnits.Trim(e.name) == [] then Some(InvalidEntity)
    else if Refers(e.groupId) && !exists i | 0 <= i < |w.groups| :: w.groups[i].id == e.groupId.value && w.groups[i].entityKind == e.kind
    then Some(InvalidReference)
    else if exists i | 0 <= i < |e.dependencies| :: !HasEntity(w.entities, e.dependencies[i]) then Some(InvalidReference)
    else if !e.serializable then Some(InvalidEntity)
    else None
  }

  /** assertEntityReferences: against the workspace as it is stored. */
  function AssertReferences(w: Workspace, e: Entity): Option<Error> {
    if e.workspaceId != w.id then Some(InvalidReference)
    else if Refers(e.groupId) && !HasGroup(w.groups, e.groupId.value) then Some(InvalidReference)
    else if exists i | 0 <= i < |e.dependencies| :: !HasEntity(w.entities, e.dependencies[i]) then Some(InvalidReference)
    else None
  }

  function AllIds(w: Workspace): seq<Id> {
    seq(|w.groups|, i requires 0 <= i < |w.groups| => w.groups[i].id)
    + seq(|w.environments|, i requires 0 <= i < |w.environments| => w.environments[i].id)
    + seq(|w.entities|, i requires 0 <= i < |w.entities| => w.entities[i].id)
  }

  predicate NoRepeat(ids: seq<Id>) {
    forall i, j | 0 <= i < j < |ids| :: ids[i] != ids[j]
  }

  /** The errors of the entities in order; the first one counts. */
  function ValidateEntities(w: Workspace, n: nat): Option<Error>
    requires n <= |w.entities|
  {
    if n == 0 then None
    else if ValidateEntities(w, n - 1).Some? then ValidateEntities(w, n - 1)
    else ValidateEntity(w, w.entities[n - 1])
  }

  /** validateWorkspaceModel */
  function ValidateModel(w: Workspace): Option<Error> {
    if !NoRepeat(AllIds(w)) then Some(DuplicateId)
    else if ValidateEntities(w, |w.entities|).Some? then ValidateEntities(w, |w.entities|)
    else if ValidateGraph(w.groups, |w.groups|) != Accepted then Some(InvalidReference)
    else None
  }

  // ---------------------------------------------------------------- the repository

  function CreateIn(w: Workspace, e: Entity): Result<Workspace> {
    if HasEntity(w.entities, e.id) then Err(DuplicateId)
    else if AssertReferences(w, e).Some? then Err(AssertReferences(w, e).value)
    else Ok(w.(entities := w.entities + [e]))
  }

  function UpdateIn(w: Workspace, id: Id, e: Entity): Result<Workspace> {
    var i := EntityIndex(w.entities, id);
    if i == |w.entities| then Err(EntityNotFound)
    else if e.id != id then Err(InvalidReference)
    else if w.entities[i].kind != e.kind then Err(InvalidEntity)
    else if AssertReferences(w, e).Some? then Err(AssertReferences(w, e).value)
    else Ok(w.(entities := w.entities[i := e]))
  }

  function DeleteIn(w: Workspace, id: Id): Result<Workspace> {
    if exists i | 0 <= i < |w.entities| :: id in w.entities[i].dependencies then Err(InvalidReference)
    else Ok(w.(entities := WithoutEntity(w.entities, id)))
  }

  /** What save accepts. */
  function SaveCheck(w: Workspace): Option<Error> {
    if UniqueEntities(w.entities) then None else Some(DuplicateId)
  }

  // ---------------------------------------------------------------- the services

  /** The operations that read a workspace, wait, and then write. */
  datatype Operation =
    | UpsertEnvironment(environment: Environment)
    | DeleteEnvironment(environmentId: Id)
    | UpsertGroup(group: Group)
    | DeleteGroup(groupId: Id)
    | SetScript(script: Option<string>)
    | SetSmtp(smtp: Option<string>)
    | CreateEntity(entity: Entity)
    | UpdateEntity(entityId: Id, entity: Entity)

  /** An operation that has read its workspace and not yet written. */
  datatype Task = Task(operation: Operation, workspaceId: Id, snapshot: Workspace)

  datatype State = State(store: map<Id, Workspace>, tasks: seq<Task>)

  /** The workspace that a service of the workspace saves, composed from its snapshot; None when it saves nothing. */
  function Edit(w: Workspace, op: Operation): Result<Option<Workspace>>
    requires !op.CreateEntity? && !op.UpdateEntity?
  {
    match op
    case UpsertEnvironment(e) =>
      if e.workspaceId != w.id then Err(InvalidReference)
      else
        var i := EnvironmentIndex(w.environments, e.id);
        Ok(Some(w.(environments := if i == |w.environments| then w.environments + [e] else w.environments[i := e])))
    case DeleteEnvironment(id) =>
      if EnvironmentIndex(w.environments, id) == |w.environments| then Ok(None)
      else Ok(Some(w.(environments := WithoutEnvironment(w.environments, id),
                      activeEnvironmentId := if w.activeEnvironmentId == Some(id) then None else w.activeEnvironmentId)))
    case UpsertGroup(g) =>
      if g.workspaceId != w.id then Err(InvalidReference)
      else if g.parentId == Some(g.id) then Err(InvalidReference)
      else if Refers(g.parentId) && !HasGroup(w.groups, g.parentId.value) then Err(InvalidReference)
      else
        var groups := PutGroup(w.groups, g);
        if ValidateGraph(groups, |groups|) != Accepted then Err(InvalidReference) else Ok(Some(w.(groups := groups)))
    case DeleteGroup(id) =>
      if exists i | 0 <= i < |w.groups| :: w.groups[i].parentId == Some(id) then Err(InvalidReference)
      else if exists i | 0 <= i < |w.entities| :: w.entities[i].groupId == Some(id) then Err(InvalidReference)
      else if !HasGroup(w.groups, id) then Ok(None)
      else Ok(Some(w.(groups := WithoutGroup(w.groups, id))))
    case SetScript(script) => Ok(Some(w.(script := script)))
    case SetSmtp(smtp) => Ok(Some(w.(smtp := smtp)))
  }

  /** What a task does to the store when it goes on after its await. */
  function Complete(store: map<Id, Workspace>, t: Task): map<Id, Workspace> {
    if t.operation.CreateEntity? || t.operation.UpdateEntity? then
      if ValidateEntity(t.snapshot, t.operation.entity).Some? || t.workspaceId !in store then store
      else
        var live := store[t.workspaceId];
        var r := if t.operation.CreateEntity? then CreateIn(live, t.operation.entity)
                 else UpdateIn(live, t.operation.entityId, t.operation.entity);
        if r.Ok? then store[t.workspaceId := r.value] else store
    else
      var r := Edit(t.snapshot, t.operation);
      if r.Err? || r.value.None? || SaveCheck(r.value.value).Some? then store
      else store[r.value.value.id := r.value.value]
  }

  datatype Event =
    | Begin(workspaceId: Id, operation: Operation)   // reads the workspace
    | Finish(task: nat)                              // any task may be the next to go on
    | Save(workspace: Workspace)
    | DeleteEntity(workspaceId: Id, entityId: Id)

  function Step(s: State, e: Event): State {
    match e
    case Begin(id, op) =>
      if id in s.store then s.(tasks := s.tasks + [Task(op, id, s.store[id])]) else s
    case Finish(i) =>
      if i < |s.tasks| then State(Complete(s.store, s.tasks[i]), s.tasks[..i] + s.tasks[i + 1..]) else s
    case Save(w) =>
      if ValidateModel(w).Some? || SaveCheck(w).Some? then s else s.(store := s.store[w.id := w])
    case DeleteEntity(id, entityId) =>
      if id !in s.store then s
      else
        var r := DeleteIn(s.store[id], entityId);
        if r.Ok? then s.(store := s.store[id := r.value]) else s
  }

  function Exec(s: State, es: seq<Event>): State {
    if es == [] then s else Step(Exec(s, es[..|es| - 1]), es[|es| - 1])
  }

  // ---------------------------------------------------------------- the invariant

  predicate EntityFine(w: Workspace, e: Entity) {
    && (Refers(e.groupId) ==> HasGroup(w.groups, e.groupId.value))
    && (forall i | 0 <= i < |e.dependencies| :: HasEntity(w.entities, e.dependencies[i]))
  }

  /** Unique entity and group ids, references that lead somewhere, and a group forest. */
  ghost predicate Valid(w: Workspace) {
    && UniqueEntities(w.entities)
    && UniqueIds(w.groups)
    && (forall i | 0 <= i < |w.entities| :: EntityFine(w, w.entities[i]))
    && IsForest(w.groups)
  }

  ghost predicate Inv(s: State) {
    && (forall id | id in s.store :: s.store[id].id == id && Valid(s.store[id]))
    && (forall i | 0 <= i < |s.tasks| :: s.tasks[i].snapshot.id == s.tasks[i].workspaceId && Valid(s.tasks[i].snapshot))
  }

  lemma GroupsOnly(w: Workspace, v: Workspace)
    requires Valid(w) && v.entities == w.entities && v.groups == w.groups
    ensures Valid(v)
  {
    forall i | 0 <= i < |v.entities| ensures EntityFine(v, v.entities[i]) { assert EntityFine(w, w.entities[i]); }
  }

  lemma CreateKeepsValid(w: Workspace, e: Entity)
    requires Valid(w) && CreateIn(w, e).Ok?
    ensures Valid(CreateIn(w, e).value)
  {
    var v := CreateIn(w, e).value;
    hide IsForest, UniqueIds;
    forall id | HasEntity(w.entities, id) ensures HasEntity(v.entities, id) {
      var k :| 0 <= k < |w.entities| && w.entities[k].id == id;
      assert v.entities[k].id == id;
    }
    forall i | 0 <= i < |v.entities| ensures EntityFine(v, v.entities[i]) {
      if i < |w.entities| {
        assert v.entities[i] == w.entities[i] && EntityFine(w, w.entities[i]);
      } else {
        assert v.entities[i] == e;
      }
    }
  }

  lemma UpdateKeepsValid(w: Workspace, id: Id, e: Entity)
    requires Valid(w) && UpdateIn(w, id, e).Ok?
    ensures Valid(UpdateIn(w, id, e).value)
  {
    var v := UpdateIn(w, id, e).value;
    var at := EntityIndex(w.entities, id);
    hide IsForest, UniqueIds;
    assert forall k | 0 <= k < |w.entities| :: v.entities[k].id == w.entities[k].id;
    forall d | HasEntity(w.entities, d) ensures HasEntity(v.entities, d) {
      var k :| 0 <= k < |w.entities| && w.entities[k].id == d;
      assert v.entities[k].id == d;
    }
    forall i | 0 <= i < |v.entities| ensures EntityFine(v, v.entities[i]) {
      if i != at { assert v.entities[i] == w.entities[i] && EntityFine(w, w.entities[i]); }
    }
  }

  lemma {:induction false} WithoutEntityUnique(entities: seq<Entity>, id: Id)
    requires UniqueEntities(entities)
    ensures UniqueEntities(WithoutEntity(entities, id))
  {
    if entities != [] {
      WithoutEntityUnique(entities[1..], id);
      var rest := WithoutEntity(entities[1..], id);
      forall k | 0 <= k < |rest| ensures rest[k].id != entities[0].id {
        assert rest[k] in rest;
        var j :| 0 <= j < |entities[1..]| && entities[1..][j] == rest[k];
        assert entities[j + 1] == rest[k];
      }
    }
  }

  lemma DeleteKeepsValid(w: Workspace, id: Id)
    requires Valid(w) && DeleteIn(w, id).Ok?
    ensures Valid(DeleteIn(w, id).value)
  {
    var v := DeleteIn(w, id).value;
    WithoutEntityUnique(w.entities, id);
    hide IsForest, UniqueIds, UniqueEntities, WithoutEntity;
    forall i | 0 <= i < |v.entities| ensures EntityFine(v, v.entities[i]) {
      var e := v.entities[i];
      assert e in v.entities;
      var k :| 0 <= k < |w.entities| && w.entities[k] == e;
      assert EntityFine(w, w.entities[k]) && id !in w.entities[k].dependencies;
      forall j | 0 <= j < |e.dependencies| ensures HasEntity(v.entities, e.dependencies[j]) {
        assert HasEntity(w.entities, e.dependencies[j]) && e.dependencies[j] != id;
        var x :| 0 <= x < |w.entities| && w.entities[x].id == e.dependencies[j];
        assert w.entities[x] in w.entities;
        assert w.entities[x] in v.entities;
      }
    }
  }

  lemma ModelIsValid(w: Workspace)
    requires ValidateModel(w) == None
    ensures Valid(w)
  {
    ModelIdsAreUnique(w);
    ValidateIsExact(w.groups);
    hide AllIds, NoRepeat, IsForest, ValidateGraph, UniqueIds, UniqueEntities, ValidateEntity, EntityFine;
    forall i | 0 <= i < |w.entities| ensures EntityFine(w, w.entities[i]) {
      EntitiesValidated(w, i, |w.entities|);
      ValidatedIsFine(w, w.entities[i]);
    }
  }

  lemma ModelIdsAreUnique(w: Workspace)
    requires NoRepeat(AllIds(w))
    ensures UniqueIds(w.groups) && UniqueEntities(w.entities)
  {
    var ids, n := AllIds(w), |w.groups| + |w.environments|;
    assert forall i | 0 <= i < |w.groups| :: ids[i] == w.groups[i].id;
    assert forall i | 0 <= i < |w.entities| :: ids[n + i] == w.entities[i].id;
  }

  lemma ValidatedIsFine(w: Workspace, e: Entity)
    requires ValidateEntity(w, e) == None
    ensures EntityFine(w, e)
  {
    if Refers(e.groupId) {
      var k :| 0 <= k < |w.groups| && w.groups[k].id == e.groupId.value && w.groups[k].entityKind == e.kind;
      assert HasGroup(w.groups, e.groupId.value);
    }
  }

  lemma {:induction false} EntitiesValidated(w: Workspace, i: nat, n: nat)
    requires i < n <= |w.entities| && ValidateEntities(w, n) == None
    ensures ValidateEntity(w, w.entities[i]) == None
  {
    hide ValidateEntity;
    if i < n - 1 { EntitiesValidated(w, i, n - 1); }
  }

  // ---------------------------------------------------------------- editing the groups

  lemma PutGroupKeeps(groups: seq<Group>, g: Group)
    requires UniqueIds(groups)
    ensures UniqueIds(PutGroup(groups, g))
    ensures forall id :: HasGroup(PutGroup(groups, g), id) <==> HasGroup(groups, id) || id == g.id
  {
    var i := GroupIndex(groups, g.id);
    var r := PutGroup(groups, g);
    assert forall k | 0 <= k < |groups| && k != i :: r[k] == groups[k];
    assert r[i] == g;
    hide GroupIndex, PutGroup;
    forall id ensures HasGroup(r, id) <==> HasGroup(groups, id) || id == g.id {
      if HasGroup(groups, id) {
        var k :| 0 <= k < |groups| && groups[k].id == id;
        assert r[k].id == id;
      }
      if HasGroup(r, id) {
        var k :| 0 <= k < |r| && r[k].id == id;
        assert k != i ==> groups[k].id == id;
      }
    }
  }

  lemma {:induction false} WithoutGroupUnique(groups: seq<Group>, id: Id)
    requires UniqueIds(groups)
    ensures UniqueIds(WithoutGroup(groups, id))
  {
    if groups != [] {
      WithoutGroupUnique(groups[1..], id);
      var rest := WithoutGroup(groups[1..], id);
      forall k | 0 <= k < |rest| ensures rest[k].id != groups[0].id {
        assert rest[k] in rest;
        var j :| 0 <= j < |groups[1..]| && groups[1..][j] == rest[k];
        assert groups[j + 1] == rest[k];
      }
    }
  }

  /** In a list with unique ids the index finds exactly the groups of the list. */
  lemma IndexFinds(groups: seq<Group>, g: Group)
    requires UniqueIds(groups) && g in groups
    ensures g.id in ById(groups) && ById(groups)[g.id] == g
  {
    ByIdOfUnique(groups);
    var i :| 0 <= i < |groups| && groups[i] == g;
    assert ById(groups)[groups[i].id] == groups[i];
  }

  /** No group refers to the id as its parent. */
  predicate IsLeaf(groups: seq<Group>, id: Id) {
    forall i | 0 <= i < |groups| :: groups[i].parentId != Some(id)
  }

  lemma {:induction false} RootsStay(groups: seq<Group>, id: Id, g: Group, n: nat)
    requires UniqueIds(groups) && IsLeaf(groups, id) && g in groups && g.id != id && RootAfter(ById(groups), g, n)
    ensures RootAfter(ById(WithoutGroup(groups, id)), g, n)
    decreases n
  {
    hide ById, UniqueIds, WithoutGroup;
    if n > 0 {
      var parent := ById(groups)[g.parentId.value];
      var i :| 0 <= i < |groups| && groups[i] == g;
      assert parent in groups && parent.id == g.parentId.value != id;
      RootsStay(groups, id, parent, n - 1);
      WithoutGroupUnique(groups, id);
      IndexFinds(WithoutGroup(groups, id), parent);
    }
  }

  /** Taking a leaf out of a forest leaves a forest. */
  lemma LeafRemovalKeepsForest(groups: seq<Group>, id: Id)
    requires UniqueIds(groups) && IsForest(groups) && IsLeaf(groups, id)
    ensures IsForest(WithoutGroup(groups, id))
  {
    hide ById, UniqueIds, IsLeaf, WithoutGroup;
    forall g | g in WithoutGroup(groups, id) ensures EndsAtRoot(ById(WithoutGroup(groups, id)), g) {
      assert g in groups && EndsAtRoot(ById(groups), g);
      var n: nat :| RootAfter(ById(groups), g, n);
      RootsStay(groups, id, g, n);
    }
  }

  lemma UpsertGroupKeepsValid(w: Workspace, g: Group)
    requires Valid(w) && Edit(w, UpsertGroup(g)).Ok?
    ensures Edit(w, UpsertGroup(g)).value.Some? && Valid(Edit(w, UpsertGroup(g)).value.value)
  {
    var groups := PutGroup(w.groups, g);
    var v := w.(groups := groups);
    PutGroupKeeps(w.groups, g);
    ValidateIsExact(groups);
    hide PutGroup, ValidateGraph, IsForest, UniqueIds, UniqueEntities, HasGroup, HasEntity;
    forall i | 0 <= i < |v.entities| ensures EntityFine(v, v.entities[i]) { assert EntityFine(w, w.entities[i]); }
  }

  lemma DeleteGroupKeepsValid(w: Workspace, id: Id)
    requires Valid(w) && Edit(w, DeleteGroup(id)).Ok? && Edit(w, DeleteGroup(id)).value.Some?
    ensures Valid(Edit(w, DeleteGroup(id)).value.value)
  {
    var v := w.(groups := WithoutGroup(w.groups, id));
    WithoutGroupUnique(w.groups, id);
    assert IsLeaf(w.groups, id);
    LeafRemovalKeepsForest(w.groups, id);
    assert UniqueEntities(w.entities) && Edit(w, DeleteGroup(id)).value.value == v;
    assert forall i | 0 <= i < |w.entities| :: EntityFine(w, w.entities[i]) && w.entities[i].groupId != Some(id);
    hide WithoutGroup, IsForest, UniqueIds, UniqueEntities, HasEntity, IsLeaf, HasGroup, Edit;
    forall i | 0 <= i < |v.entities| ensures EntityFine(v, v.entities[i]) {
      var e := w.entities[i];
      if Refers(e.groupId) { OtherGroupStays(w.groups, id, e.groupId.value); }
    }
  }

  lemma OtherGroupStays(groups: seq<Group>, id: Id, other: Id)
    requires HasGroup(groups, other) && other != id
    ensures HasGroup(WithoutGroup(groups, id), other)
  {
    var k :| 0 <= k < |groups| && groups[k].id == other;
    var r := WithoutGroup(groups, id);
    assert groups[k] in groups;
    var j :| 0 <= j < |r| && r[j] == groups[k];
  }

  lemma EditKeepsValid(w: Workspace, op: Operation)
    requires Valid(w) && !op.CreateEntity? && !op.UpdateEntity? && Edit(w, op).Ok? && Edit(w, op).value.Some?
    ensures Valid(Edit(w, op).value.value) && Edit(w, op).value.value.id == w.id
  {
    if op.UpsertGroup? {
      UpsertGroupKeepsValid(w, op.group);
    } else if op.DeleteGroup? {
      DeleteGroupKeepsValid(w, op.groupId);
    } else {
      hide EnvironmentIndex, WithoutEnvironment;
      GroupsOnly(w, Edit(w, op).value.value);
    }
  }

  ghost predicate StoreFine(store: map<Id, Workspace>) {
    forall id | id in store :: store[id].id == id && Valid(store[id])
  }

  lemma CompleteKeepsStore(store: map<Id, Workspace>, t: Task)
    requires StoreFine(store) && Valid(t.snapshot) && t.snapshot.id == t.workspaceId
    ensures StoreFine(Complete(store, t))
  {
    hide Valid, Edit, ValidateEntity, SaveCheck, AssertReferences;
    var op := t.operation;
    if op.CreateEntity? || op.UpdateEntity? {
      if t.workspaceId in store {
        var live := store[t.workspaceId];
        if op.CreateEntity? {
          if CreateIn(live, op.entity).Ok? {
            CreateKeepsValid(live, op.entity);
          }
        } else {
          if UpdateIn(live, op.entityId, op.entity).Ok? {
            UpdateKeepsValid(live, op.entityId, op.entity);
          }
        }
      }
    } else if Edit(t.snapshot, op).Ok? && Edit(t.snapshot, op).value.Some? {
      EditKeepsValid(t.snapshot, op);
    }
  }

  lemma StepKeepsInv(s: State, e: Event)
    requires Inv(s)
    ensures Inv(Step(s, e))
  {
    hide Valid, Complete, ValidateModel, SaveCheck, WithoutEntity;
    assert StoreFine(s.store);
    match e
    case Begin(id, op) =>
    case Finish(i) =>
      if i < |s.tasks| {
        CompleteKeepsStore(s.store, s.tasks[i]);
        assert StoreFine(Complete(s.store, s.tasks[i]));
      }
    case Save(w) => if ValidateModel(w) == None { ModelIsValid(w); }
    case DeleteEntity(id, entityId) =>
      if id in s.store && DeleteIn(s.store[id], entityId).Ok? {
        DeleteKeepsValid(s.store[id], entityId);
      }
  }

  /** Starting from valid workspaces, every interleaving of the operations leaves valid workspaces. */
  lemma {:induction false} EveryRunKeepsInv(s: State, es: seq<Event>)
    requires Inv(s)
    ensures Inv(Exec(s, es))
  {
    if es != [] {
      hide Inv, Step;
      EveryRunKeepsInv(s, es[..|es| - 1]);
      StepKeepsInv(Exec(s, es[..|es| - 1]), es[|es| - 1]);
    }
  }

  /** In particular the lineage of every group of every stored workspace is whole. */
  lemma StoredLineagesAreWhole(s: State, es: seq<Event>, id: Id, groupId: Id)
    requires Inv(s) && id in Exec(s, es).store && groupId != "" && groupId in ById(Exec(s, es).store[id].groups)
    ensures var groups := Exec(s, es).store[id].groups;
            && LineageOf(groups, Some(groupId)).Chain?
            && IsLineage(ById(groups), LineageOf(groups, Some(groupId)).groups, groupId)
            && AllDistinct(LineageOf(groups, Some(groupId)).groups)
  {
    EveryRunKeepsInv(s, es);
    var w := Exec(s, es).store[id];
    assert Valid(w) && UniqueIds(w.groups) && IsForest(w.groups);
    hide *;
    ValidateIsExact(w.groups);
    LineageIsWhole(w.groups, groupId);
  }

  // ---------------------------------------------------------------- what the services do not keep

  /** A workspace service writes its whole snapshot: whatever happened to the stored workspace in between is lost. */
  lemma FinishForgets(s: State, t: State, i: nat, j: nat)
    requires i < |s.tasks| && j < |t.tasks| && s.tasks[i] == t.tasks[j]
    requires var task := s.tasks[i];
             !task.operation.CreateEntity? && !task.operation.UpdateEntity?
             && Edit(task.snapshot, task.operation).Ok? && Edit(task.snapshot, task.operation).value.Some?
             && SaveCheck(Edit(task.snapshot, task.operation).value.value) == None
    ensures var id := Edit(s.tasks[i].snapshot, s.tasks[i].operation).value.value.id;
            id in Step(s, Finish(i)).store && id in Step(t, Finish(j)).store
            && Step(s, Finish(i)).store[id] == Step(t, Finish(j)).store[id]
  {
    hide Edit, SaveCheck;
  }

  // ---------------------------------------------------------------- exactly which updates are lost

  /** What an operation is not about: the workspace without the part that it writes. */
  function Rest(op: Operation, w: Workspace): Workspace {
    match op
    case UpsertEnvironment(e) => w.(environments := WithoutEnvironment(w.environments, e.id))
    case DeleteEnvironment(id) =>
      w.(environments := WithoutEnvironment(w.environments, id),
         activeEnvironmentId := if w.activeEnvironmentId == Some(id) then None else w.activeEnvironmentId)
    case UpsertGroup(g) => w.(groups := WithoutGroup(w.groups, g.id))
    case DeleteGroup(id) => w.(groups := WithoutGroup(w.groups, id))
    case SetScript(_) => w.(script := None)
    case SetSmtp(_) => w.(smtp := None)
    case CreateEntity(e) => w.(entities := WithoutEntity(w.entities, e.id))
    case UpdateEntity(id, _) => w.(entities := WithoutEntity(w.entities, id))
  }

  lemma {:induction false} EnvironmentPut(environments: seq<Environment>, e: Environment)
    ensures var i := EnvironmentIndex(environments, e.id);
            WithoutEnvironment(if i == |environments| then environments + [e] else environments[i := e], e.id)
            == WithoutEnvironment(environments, e.id)
  {
    var i := EnvironmentIndex(environments, e.id);
    var r := if i == |environments| then environments + [e] else environments[i := e];
    if environments == [] {
      assert r[1..] == [];
    } else if environments[0].id == e.id {
      assert r[1..] == environments[1..];
    } else {
      EnvironmentPut(environments[1..], e);
      var j := EnvironmentIndex(environments[1..], e.id);
      assert r[1..] == if j == |environments[1..]| then environments[1..] + [e] else environments[1..][j := e];
    }
  }

  lemma {:induction false} GroupPut(groups: seq<Group>, g: Group)
    ensures WithoutGroup(PutGroup(groups, g), g.id) == WithoutGroup(groups, g.id)
  {
    var r := PutGroup(groups, g);
    if groups == [] {
      assert r[1..] == [];
    } else if groups[0].id == g.id {
      assert r[1..] == groups[1..];
    } else {
      GroupPut(groups[1..], g);
      assert r[1..] == PutGroup(groups[1..], g);
    }
  }

  lemma {:induction false} EnvironmentGone(environments: seq<Environment>, id: Id)
    ensures WithoutEnvironment(WithoutEnvironment(environments, id), id) == WithoutEnvironment(environments, id)
  {
    if environments != [] { EnvironmentGone(environments[1..], id); }
  }

  lemma {:induction false} GroupGone(groups: seq<Group>, id: Id)
    ensures WithoutGroup(WithoutGroup(groups, id), id) == WithoutGroup(groups, id)
  {
    if groups != [] { GroupGone(groups[1..], id); }
  }

  lemma {:induction false} EntityAdded(entities: seq<Entity>, e: Entity)
    ensures WithoutEntity(entities + [e], e.id) == WithoutEntity(entities, e.id)
  {
    if entities == [] {
      assert (entities + [e])[1..] == [];
    } else {
      EntityAdded(entities[1..], e);
      assert (entities + [e])[1..] == entities[1..] + [e];
    }
  }

  lemma {:induction false} EntityReplaced(entities: seq<Entity>, i: nat, e: Entity)
    requires i < |entities| && entities[i].id == e.id
    ensures WithoutEntity(entities[i := e], e.id) == WithoutEntity(entities, e.id)
  {
    var r := entities[i := e];
    if i == 0 {
      assert r[1..] == entities[1..];
    } else {
      EntityReplaced(entities[1..], i - 1, e);
      assert r[1..] == entities[1..][i - 1 := e];
    }
  }

  /** A workspace service changes nothing but what it is about. */
  lemma EditKeepsRest(w: Workspace, op: Operation)
    requires !op.CreateEntity? && !op.UpdateEntity? && Edit(w, op).Ok? && Edit(w, op).value.Some?
    ensures Rest(op, Edit(w, op).value.value) == Rest(op, w) && Edit(w, op).value.value.id == w.id
  {
    match op
    case UpsertEnvironment(e) => EnvironmentPut(w.environments, e);
    case DeleteEnvironment(id) => EnvironmentGone(w.environments, id);
    case UpsertGroup(g) => GroupPut(w.groups, g);
    case DeleteGroup(id) => GroupGone(w.groups, id);
    case _ =>
    hide PutGroup, WithoutGroup, WithoutEnvironment, EnvironmentIndex, ValidateGraph;
  }

  predicate IsEntityOperation(op: Operation) {
    op.CreateEntity? || op.UpdateEntity?
  }

  /** A task that is going to write its workspace. */
  predicate Writes(s: State, t: Task) {
    t.workspaceId in s.store && t.snapshot.id == t.workspaceId &&
    if t.operation.CreateEntity? then
      ValidateEntity(t.snapshot, t.operation.entity) == None && CreateIn(s.store[t.workspaceId], t.operation.entity).Ok?
    else if t.operation.UpdateEntity? then
      ValidateEntity(t.snapshot, t.operation.entity) == None
      && UpdateIn(s.store[t.workspaceId], t.operation.entityId, t.operation.entity).Ok?
    else
      Edit(t.snapshot, t.operation).Ok? && Edit(t.snapshot, t.operation).value.Some?
      && SaveCheck(Edit(t.snapshot, t.operation).value.value) == None
  }

  /**
   * A task that writes leaves everything that it is not about as it is stored, if and only if it writes through the repository of
   * entities, or nothing of that has changed since it took its snapshot.
   */
  lemma FinishLosesExactly(s: State, i: nat)
    requires i < |s.tasks| && Writes(s, s.tasks[i])
    ensures var t := s.tasks[i];
            var live, after := s.store[t.workspaceId], Step(s, Finish(i)).store[t.workspaceId];
            Rest(t.operation, after) == Rest(t.operation, live)
            <==> IsEntityOperation(t.operation) || Rest(t.operation, t.snapshot) == Rest(t.operation, live)
  {
    var t := s.tasks[i];
    if IsEntityOperation(t.operation) {
      EntityTaskLosesNothing(s, t);
    } else {
      EditKeepsRest(t.snapshot, t.operation);
      hide Edit, Rest, SaveCheck;
    }
  }

  lemma EntityTaskLosesNothing(s: State, t: Task)
    requires IsEntityOperation(t.operation) && Writes(s, t)
    ensures Rest(t.operation, Complete(s.store, t)[t.workspaceId]) == Rest(t.operation, s.store[t.workspaceId])
  {
    hide WithoutEntity, AssertReferences, ValidateEntity, HasEntity, EntityIndex;
    if t.operation.CreateEntity? {
      EntityAdded(s.store[t.workspaceId].entities, t.operation.entity);
    } else {
      UpdateKeepsOthers(s.store[t.workspaceId], t.operation.entityId, t.operation.entity);
      hide UpdateIn;
    }
  }

  lemma UpdateKeepsOthers(w: Workspace, id: Id, e: Entity)
    requires UpdateIn(w, id, e).Ok?
    ensures Rest(UpdateEntity(id, e), UpdateIn(w, id, e).value) == Rest(UpdateEntity(id, e), w)
  {
    EntityReplaced(w.entities, EntityIndex(w.entities, id), e);
    hide WithoutEntity, AssertReferences;
  }

  // ---------------------------------------------------------------- exactly which groups spoil the model

  predicate HasEnvironment(environments: seq<Environment>, id: Id) {
    exists i | 0 <= i < |environments| :: environments[i].id == id
  }

  /** The group has an id of its own, and the entities in it are of its kind. */
  predicate FitsIn(w: Workspace, g: Group) {
    && (HasGroup(w.groups, g.id) || (!HasEnvironment(w.environments, g.id) && !HasEntity(w.entities, g.id)))
    && forall i | 0 <= i < |w.entities| :: InGroup(w.entities[i], g.id) ==> w.entities[i].kind == g.entityKind
  }

  predicate InGroup(e: Entity, id: Id) {
    Refers(e.groupId) && e.groupId.value == id
  }

  lemma PutKeepsIds(w: Workspace, g: Group)
    requires NoRepeat(AllIds(w)) && HasGroup(w.groups, g.id)
    ensures AllIds(w.(groups := PutGroup(w.groups, g))) == AllIds(w)
  {
    var k :| 0 <= k < |w.groups| && w.groups[k].id == g.id;
    assert GroupIndex(w.groups, g.id) <= k;
  }

  lemma PutAddsId(w: Workspace, g: Group)
    requires NoRepeat(AllIds(w)) && !HasGroup(w.groups, g.id)
    ensures var ids, n := AllIds(w), |w.groups|;
            AllIds(w.(groups := PutGroup(w.groups, g))) == ids[..n] + [g.id] + ids[n..]
  {
    assert GroupIndex(w.groups, g.id) == |w.groups|;
  }

  lemma InsertRepeats(ids: seq<Id>, n: nat, id: Id)
    requires NoRepeat(ids) && n <= |ids|
    ensures NoRepeat(ids[..n] + [id] + ids[n..]) <==> id !in ids
  {
    var r := ids[..n] + [id] + ids[n..];
    if id in ids {
      var i :| 0 <= i < |ids| && ids[i] == id;
      assert r[n] == id && r[if i < n then i else i + 1] == id;
    } else {
      forall i, j | 0 <= i < j < |r| ensures r[i] != r[j] {
        var a, b := if i < n then i else i - 1, if j < n then j else j - 1;
        assert i != n ==> r[i] == ids[a] && r[i] != id;
        assert j != n ==> r[j] == ids[b] && r[j] != id;
        assert i != n && j != n ==> a < b;
        hide NoRepeat;
        assert i != n && j != n ==> ids[a] != ids[b] by { Differ(ids, a, b); }
      }
    }
  }

  lemma Differ(ids: seq<Id>, a: int, b: int)
    requires NoRepeat(ids)
    ensures 0 <= a < b < |ids| ==> ids[a] != ids[b]
  {
  }

  lemma IdsOfAll(w: Workspace, id: Id)
    ensures id in AllIds(w) <==> HasGroup(w.groups, id) || HasEnvironment(w.environments, id) || HasEntity(w.entities, id)
  {
    var ids, n, m := AllIds(w), |w.groups|, |w.groups| + |w.environments|;
    assert forall i | 0 <= i < n :: ids[i] == w.groups[i].id;
    assert forall i | 0 <= i < |w.environments| :: ids[n + i] == w.environments[i].id;
    assert forall i | 0 <= i < |w.entities| :: ids[m + i] == w.entities[i].id;
  }

  lemma PutRepeatsExactly(w: Workspace, g: Group)
    requires NoRepeat(AllIds(w))
    ensures NoRepeat(AllIds(w.(groups := PutGroup(w.groups, g))))
       <==> HasGroup(w.groups, g.id) || (!HasEnvironment(w.environments, g.id) && !HasEntity(w.entities, g.id))
  {
    if HasGroup(w.groups, g.id) {
      PutKeepsIds(w, g);
    } else {
      PutAddsId(w, g);
      InsertRepeats(AllIds(w), |w.groups|, g.id);
      IdsOfAll(w, g.id);
    }
    hide PutGroup, NoRepeat, AllIds;
  }

  lemma EntityFitsExactly(w: Workspace, g: Group, e: Entity)
    requires UniqueIds(w.groups) && ValidateEntity(w, e) == None
    ensures ValidateEntity(w.(groups := PutGroup(w.groups, g)), e) == None <==> (InGroup(e, g.id) ==> e.kind == g.entityKind)
  {
    var groups := PutGroup(w.groups, g);
    PutIsTheOnly(w.groups, g);
    if InGroup(e, g.id) {
      PutIsThere(w.groups, g);
    } else if Refers(e.groupId) {
      var k :| 0 <= k < |w.groups| && w.groups[k].id == e.groupId.value && w.groups[k].entityKind == e.kind;
      OthersStay(w.groups, g, k);
    }
    hide PutGroup, HasEntity, UniqueIds;
  }

  lemma PutIsThere(groups: seq<Group>, g: Group)
    ensures exists k | 0 <= k < |PutGroup(groups, g)| :: PutGroup(groups, g)[k] == g
  {
    assert PutGroup(groups, g)[GroupIndex(groups, g.id)] == g;
  }

  lemma OthersStay(groups: seq<Group>, g: Group, k: nat)
    requires k < |groups| && groups[k].id != g.id
    ensures k < |PutGroup(groups, g)| && PutGroup(groups, g)[k] == groups[k]
  {
  }

  lemma {:induction false} ValidatedExactly(w: Workspace, n: nat)
    requires n <= |w.entities|
    ensures ValidateEntities(w, n) == None <==> forall i | 0 <= i < n :: ValidateEntity(w, w.entities[i]) == None
  {
    hide ValidateEntity;
    if n > 0 { ValidatedExactly(w, n - 1); }
  }

  /** A group that is accepted leaves a workspace that passes the model validation, if and only if it fits in. */
  lemma UpsertKeepsModelExactly(w: Workspace, g: Group)
    requires ValidateModel(w) == None && Edit(w, UpsertGroup(g)).Ok?
    ensures Edit(w, UpsertGroup(g)).value.Some?
    ensures ValidateModel(Edit(w, UpsertGroup(g)).value.value) == None <==> FitsIn(w, g)
  {
    var v := w.(groups := PutGroup(w.groups, g));
    ModelIdsAreUnique(w);
    assert Edit(w, UpsertGroup(g)) == Ok(Some(v)) && ValidateGraph(v.groups, |v.groups|) == Accepted;
    PutRepeatsExactly(w, g);
    ValidatedExactly(w, |w.entities|);
    ValidatedExactly(v, |v.entities|);
    hide PutGroup, Edit, AllIds, NoRepeat, ValidateEntity, ValidateGraph, ValidateEntities, UniqueIds, HasGroup, HasEntity, HasEnvironment;
    forall i | 0 <= i < |w.entities|
      ensures ValidateEntity(v, w.entities[i]) == None <==> (InGroup(w.entities[i], g.id) ==> w.entities[i].kind == g.entityKind)
    {
      assert ValidateEntity(w, w.entities[i]) == None;
      EntityFitsExactly(w, g, w.entities[i]);
    }
  }

  /** A group may change its kind while entities of the old kind are in it; the model check then refuses the stored workspace. */
  lemma KindChangeIsAccepted(w: Workspace, e: Entity, g: Group, kind: string)
    requires Valid(w) && e in w.entities && g in w.groups && Refers(e.groupId) && e.groupId.value == g.id
    requires g.workspaceId == w.id && kind != e.kind
    ensures Edit(w, UpsertGroup(g.(entityKind := kind))).Ok?
    ensures ValidateModel(Edit(w, UpsertGroup(g.(entityKind := kind))).value.value).Some?
  {
    var h := g.(entityKind := kind);
    var v := w.(groups := PutGroup(w.groups, h));
    assert UniqueIds(w.groups) && IsForest(w.groups);
    hide PutGroup, IsForest, UniqueIds, ValidateGraph, Valid, AllIds, NoRepeat, HasGroup, ValidateEntity;
    KindChangeKeepsForest(w.groups, g, h);
    ParentIsThere(w.groups, g);
    assert Edit(w, UpsertGroup(h)) == Ok(Some(v));
    hide Edit;
    PutIsTheOnly(w.groups, h);
    var i :| 0 <= i < |w.entities| && w.entities[i] == e;
    WrongKindRefused(v, e, h);
    EntityRefused(v, i, |v.entities|);
  }

  lemma WrongKindRefused(w: Workspace, e: Entity, g: Group)
    requires Refers(e.groupId) && e.groupId.value == g.id && g.entityKind != e.kind
    requires forall k | 0 <= k < |w.groups| && w.groups[k].id == g.id :: w.groups[k] == g
    ensures ValidateEntity(w, e).Some?
  {
  }

  lemma {:induction false} EntityRefused(w: Workspace, i: nat, n: nat)
    requires i < n <= |w.entities| && ValidateEntity(w, w.entities[i]).Some?
    ensures ValidateEntities(w, n).Some?
  {
    hide ValidateEntity;
    if i < n - 1 { EntityRefused(w, i, n - 1); }
  }

  /** The group that was put is the only one with its id. */
  lemma PutIsTheOnly(groups: seq<Group>, g: Group)
    requires UniqueIds(groups)
    ensures forall k | 0 <= k < |PutGroup(groups, g)| && PutGroup(groups, g)[k].id == g.id :: PutGroup(groups, g)[k] == g
  {
    PutGroupKeeps(groups, g);
    var r, i := PutGroup(groups, g), GroupIndex(groups, g.id);
    assert r[i] == g;
  }

  lemma ParentIsThere(groups: seq<Group>, g: Group)
    requires UniqueIds(groups) && IsForest(groups) && g in groups
    ensures g.parentId != Some(g.id) || !Refers(g.parentId)
    ensures Refers(g.parentId) ==> HasGroup(groups, g.parentId.value)
  {
    IndexFinds(groups, g);
    var m := ById(groups);
    assert EndsAtRoot(m, g);
    hide ById, UniqueIds, IsForest, RootAfter;
    var n: nat :| RootAfter(m, g, n);
    if Refers(g.parentId) {
      ParentBelowRoot(m, g, n);
      var p := m[g.parentId.value];
      assert p in groups;
      var k :| 0 <= k < |groups| && groups[k] == p;
    }
  }

  lemma {:induction false} OwnParentNeverEnds(m: map<Id, Group>, g: Group, n: nat)
    requires g.id in m && m[g.id] == g && g.parentId == Some(g.id) && Refers(g.parentId)
    ensures !RootAfter(m, g, n)
  {
    if n > 0 { OwnParentNeverEnds(m, g, n - 1); }
  }

  /** A group that climbs to a root has a parent other than itself, if it has one. */
  lemma ParentBelowRoot(m: map<Id, Group>, g: Group, n: nat)
    requires IsIndex(m) && g.id in m && m[g.id] == g && RootAfter(m, g, n) && Refers(g.parentId)
    ensures g.parentId.value in m && m[g.parentId.value].id == g.parentId.value && g.parentId.value != g.id
  {
    if g.parentId == Some(g.id) { OwnParentNeverEnds(m, g, n); }
  }

  lemma {:induction false} SameParentsSameRoots(m: map<Id, Group>, k: map<Id, Group>, g: Group, h: Group, n: nat)
    requires IsIndex(m) && IsIndex(k) && m.Keys == k.Keys && forall id | id in m :: m[id].parentId == k[id].parentId
    requires h.parentId == g.parentId && RootAfter(m, g, n)
    ensures RootAfter(k, h, n)
    decreases n
  {
    if n > 0 { SameParentsSameRoots(m, k, m[g.parentId.value], k[g.parentId.value], n - 1); }
  }

  lemma KindChangeKeepsForest(groups: seq<Group>, g: Group, h: Group)
    requires UniqueIds(groups) && IsForest(groups) && g in groups && h.id == g.id && h.parentId == g.parentId
    ensures IsForest(PutGroup(groups, h)) && ValidateGraph(PutGroup(groups, h), |PutGroup(groups, h)|) == Accepted
  {
    var r := PutGroup(groups, h);
    PutGroupKeeps(groups, h);
    PutReplaces(groups, g, h);
    hide PutGroup;
    SameParents(groups, r);
    var m, k := ById(groups), ById(r);
    hide ById, UniqueIds;
    forall f | f in r ensures EndsAtRoot(k, f) {
      var x :| 0 <= x < |r| && r[x] == f;
      assert groups[x] in groups && EndsAtRoot(m, groups[x]);
      var n: nat :| RootAfter(m, groups[x], n);
      SameParentsSameRoots(m, k, groups[x], f, n);
    }
    ValidateIsExact(r);
  }

  lemma PutReplaces(groups: seq<Group>, g: Group, h: Group)
    requires UniqueIds(groups) && g in groups && h.id == g.id && h.parentId == g.parentId
    ensures |PutGroup(groups, h)| == |groups|
    ensures forall x | 0 <= x < |groups| :: PutGroup(groups, h)[x].id == groups[x].id && PutGroup(groups, h)[x].parentId == groups[x].parentId
  {
    var j :| 0 <= j < |groups| && groups[j] == g;
    assert GroupIndex(groups, g.id) == j;
  }

  /** Lists with the same ids and parents have indexes with the same ids and parents. */
  lemma SameParents(groups: seq<Group>, r: seq<Group>)
    requires UniqueIds(groups) && UniqueIds(r) && |r| == |groups|
    requires forall x | 0 <= x < |groups| :: r[x].id == groups[x].id && r[x].parentId == groups[x].parentId
    ensures IsIndex(ById(groups)) && IsIndex(ById(r)) && ById(groups).Keys == ById(r).Keys
    ensures forall id | id in ById(groups) :: ById(groups)[id].parentId == ById(r)[id].parentId
  {
    var m, k := ById(groups), ById(r);
    forall id | id in m ensures id in k && m[id].parentId == k[id].parentId { SameParent(groups, r, id); }
    forall id | id in k ensures id in m { SameParent(r, groups, id); }
    hide ById;
  }

  lemma SameParent(groups: seq<Group>, r: seq<Group>, id: Id)
    requires UniqueIds(groups) && UniqueIds(r) && |r| == |groups| && id in ById(groups)
    requires forall x | 0 <= x < |groups| :: r[x].id == groups[x].id && r[x].parentId == groups[x].parentId
    ensures id in ById(r) && ById(r)[id].parentId == ById(groups)[id].parentId
  {
    ByIdOfUnique(r);
    var g := ById(groups)[id];
    assert g in groups && g.id == id;
    hide ById, UniqueIds;
    var x :| 0 <= x < |groups| && groups[x] == g;
    assert r[x] in r && ById(r)[r[x].id] == r[x];
  }
}
