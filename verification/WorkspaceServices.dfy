/** The in-memory repository and the services that share it. */
module WorkspaceServices {
  import opened Groups
  import opened Workspaces
  import opened Wrappers

  /** validateUniqueEntityIds */
  method CheckUniqueIds(entities: seq<Entity>) returns (unique: bool)
    ensures unique <==> UniqueEntities(entities)
  {
    var seen: set<Id> := {};
    for i := 0 to |entities|
      invariant forall id :: id in seen <==> exists k :: 0 <= k < i && entities[k].id == id
      invariant UniqueEntities(entities[..i])
    {
      if entities[i].id in seen { return false; }
      seen := seen + {entities[i].id};
    }
    assert entities[..|entities|] == entities;
    unique := true;
  }

  /** validateWorkspaceModel */
  method CheckModel(w: Workspace) returns (error: Option<Error>)
    ensures error == ValidateModel(w)
  {
    var ids := AllIds(w);
    var seen: set<Id> := {};
    hide AllIds, ValidateEntity, ValidateGraph, ById;
    for i := 0 to |ids|
      invariant forall id :: id in seen <==> exists k :: 0 <= k < i && ids[k] == id
      invariant NoRepeat(ids[..i])
    {
      if ids[i] in seen { return Some(DuplicateId); }
      seen := seen + {ids[i]};
    }
    assert ids[..|ids|] == ids;
    for i := 0 to |w.entities|
      invariant ValidateEntities(w, i) == None
    {
      error := ValidateEntity(w, w.entities[i]);
      if error.Some? {
        ErrorStays(w, i + 1, |w.entities|);
        return;
      }
    }
    var verdict := ValidateGroupGraph(w.groups);
    error := if verdict == Accepted then None else Some(InvalidReference);
  }

  lemma {:induction false} ErrorStays(w: Workspace, i: nat, n: nat)
    requires i <= n <= |w.entities| && ValidateEntities(w, i).Some?
    ensures ValidateEntities(w, n) == ValidateEntities(w, i)
  {
    hide ValidateEntity;
    if i < n { ErrorStays(w, i, n - 1); }
  }

  class Repository {
    var workspaces: map<Id, Workspace>

    constructor ()
      ensures workspaces == map[]
    {
      workspaces := map[];
    }

    method Get(id: Id) returns (w: Option<Workspace>)
      ensures w == if id in workspaces then Some(workspaces[id]) else None
    {
      w := if id in workspaces then Some(workspaces[id]) else None;
    }

    method Save(w: Workspace) returns (error: Option<Error>)
      modifies this
      ensures error == SaveCheck(w)
      ensures workspaces == if error == None then old(workspaces)[w.id := w] else old(workspaces)
    {
      var unique := CheckUniqueIds(w.entities);
      if !unique { return Some(DuplicateId); }
      workspaces := workspaces[w.id := w];
      error := None;
    }

    method Create(id: Id, e: Entity) returns (error: Option<Error>)
      modifies this
      ensures id !in old(workspaces) ==> error == Some(WorkspaceNotFound) && workspaces == old(workspaces)
      ensures id in old(workspaces) ==> var r := CreateIn(old(workspaces)[id], e);
              if r.Ok? then error == None && workspaces == old(workspaces)[id := r.value]
              else error == Some(r.error) && workspaces == old(workspaces)
    {
      if id !in workspaces { return Some(WorkspaceNotFound); }
      var w := workspaces[id];
      if HasEntity(w.entities, e.id) { return Some(DuplicateId); }
      error := AssertReferences(w, e);
      if error == None { workspaces := workspaces[id := w.(entities := w.entities + [e])]; }
    }

    method Update(id: Id, entityId: Id, e: Entity) returns (error: Option<Error>)
      modifies this
      ensures id !in old(workspaces) ==> error == Some(WorkspaceNotFound) && workspaces == old(workspaces)
      ensures id in old(workspaces) ==> var r := UpdateIn(old(workspaces)[id], entityId, e);
              if r.Ok? then error == None && workspaces == old(workspaces)[id := r.value]
              else error == Some(r.error) && workspaces == old(workspaces)
    {
      if id !in workspaces { return Some(WorkspaceNotFound); }
      var w := workspaces[id];
      var index := EntityIndex(w.entities, entityId);
      if index == |w.entities| { return Some(EntityNotFound); }
      if e.id != entityId { return Some(InvalidReference); }
      if w.entities[index].kind != e.kind { return Some(InvalidEntity); }
      error := AssertReferences(w, e);
      if error == None { workspaces := workspaces[id := w.(entities := w.entities[index := e])]; }
    }

    method Delete(id: Id, entityId: Id) returns (error: Option<Error>)
      modifies this
      ensures id !in old(workspaces) ==> error == Some(WorkspaceNotFound) && workspaces == old(workspaces)
      ensures id in old(workspaces) ==> var r := DeleteIn(old(workspaces)[id], entityId);
              if r.Ok? then error == None && workspaces == old(workspaces)[id := r.value]
              else error == Some(r.error) && workspaces == old(workspaces)
    {
      if id !in workspaces { return Some(WorkspaceNotFound); }
      var w := workspaces[id];
      if exists i | 0 <= i < |w.entities| :: entityId in w.entities[i].dependencies { return Some(InvalidReference); }
      workspaces := workspaces[id := w.(entities := WithoutEntity(w.entities, entityId))];
      error := None;
    }
  }

  /** The services: operations that have read their workspace wait in tasks until they go on. */
  class Services {
    const repository: Repository
    var tasks: seq<Task>

    ghost function View(): State
      reads this, repository
    {
      State(repository.workspaces, tasks)
    }

    constructor ()
      ensures fresh(repository) && View() == State(map[], [])
    {
      repository := new Repository();
      tasks := [];
    }

    /** An operation up to its await. */
    method BeginOperation(id: Id, operation: Operation) returns (found: bool)
      modifies this
      ensures found == (id in repository.workspaces) && View() == Step(old(View()), Begin(id, operation))
    {
      var w := repository.Get(id);
      found := w.Some?;
      if found { tasks := tasks + [Task(operation, id, w.value)]; }
    }

    /** An operation after its await. */
    method FinishOperation(i: nat)
      requires i < |tasks|
      modifies this, repository
      ensures View() == Step(old(View()), Finish(i))
    {
      hide CreateIn, UpdateIn, ValidateEntity, Edit, SaveCheck;
      var task := tasks[i];
      tasks := tasks[..i] + tasks[i + 1..];
      var op := task.operation;
      if op.CreateEntity? || op.UpdateEntity? {
        if ValidateEntity(task.snapshot, op.entity).Some? { return; }
        if op.CreateEntity? {
          var _ := repository.Create(task.workspaceId, op.entity);
        } else {
          var _ := repository.Update(task.workspaceId, op.entityId, op.entity);
        }
        return;
      }
      var edited := Edit(task.snapshot, op);
      if edited.Err? || edited.value.None? { return; }
      var _ := repository.Save(edited.value.value);
    }

    /** WorkspaceCrudService.save */
    method SaveWorkspace(w: Workspace) returns (error: Option<Error>)
      modifies repository
      ensures View() == Step(old(View()), Save(w))
    {
      hide ValidateModel, SaveCheck;
      error := CheckModel(w);
      if error == None { error := repository.Save(w); }
    }

    /** EntityCrudService.delete */
    method DeleteEntity(id: Id, entityId: Id) returns (error: Option<Error>)
      modifies repository
      ensures View() == Step(old(View()), Event.DeleteEntity(id, entityId))
    {
      hide DeleteIn;
      error := repository.Delete(id, entityId);
    }
  }
}
