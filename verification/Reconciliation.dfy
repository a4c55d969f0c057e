/** Three-way reconciliation of JSON values. */
module Reconciliation {
  import opened CodeUnits
  import opened JsonText
  import StableHash

  type Path = seq<Text>

  datatype Conflict = Conflict(path: Path, base: Maybe, source: Maybe, database: Maybe)

  datatype Merge = Merge(value: Maybe, conflicts: seq<Conflict>)

  predicate IsRecord(v: Maybe) {
    v.Present? && v.value.JObject?
  }

  function Get(v: Maybe, key: Text): Maybe
    requires IsRecord(v)
  {
    if key in v.value.members then Present(v.value.members[key]) else Undefined
  }

  function KeysOf(base: Maybe, source: Maybe, database: Maybe): seq<Text>
    requires IsRecord(base) && IsRecord(source) && IsRecord(database)
  {
    SortedKeys(base.value.members.Keys + source.value.members.Keys + database.value.members.Keys)
  }

  /** mergeValue, with deep equality for isEqual. */
  function MergeValue(base: Maybe, source: Maybe, database: Maybe, path: Path): Merge
    decreases base.Present?, if base.Present? then base.value else JNull, 1, 0
  {
    if source == database then Merge(source, [])
    else if base == source then Merge(database, [])
    else if base == database then Merge(source, [])
    else if IsRecord(base) && IsRecord(source) && IsRecord(database) then
      MergeKeys(base, source, database, KeysOf(base, source, database), path)
    else Merge(Undefined, [Conflict(path, base, source, database)])
  }

  /** The loop over the keys; the value is the record merged so far, built from the last key backwards. */
  function MergeKeys(base: Maybe, source: Maybe, database: Maybe, keys: seq<Text>, path: Path): (r: Merge)
    requires IsRecord(base) && IsRecord(source) && IsRecord(database)
    ensures IsRecord(r.value)
    decreases true, base.value, 0, |keys|
  {
    if keys == [] then Merge(Present(JObject(map[])), [])
    else
      var last := keys[|keys| - 1];
      var before := MergeKeys(base, source, database, keys[..|keys| - 1], path);
      var child := MergeValue(Get(base, last), Get(source, last), Get(database, last), path + [last]);
      Merge(if child.value.Undefined? then before.value else Present(JObject(before.value.value.members[last := child.value.value])),
            before.conflicts + child.conflicts)
  }

  // ---------------------------------------------------------------- the imperative form

  /** The array that collects the conflicts. */
  class ConflictList {
    var items: seq<Conflict>

    constructor ()
      ensures items == []
    {
      items := [];
    }

    method Push(c: Conflict)
      modifies this
      ensures items == old(items) + [c]
    {
      items := items + [c];
    }
  }

  method MergeInto(base: Maybe, source: Maybe, database: Maybe, path: Path, conflicts: ConflictList) returns (merged: Maybe)
    modifies conflicts
    ensures var m := MergeValue(base, source, database, path);
            merged == m.value && conflicts.items == old(conflicts.items) + m.conflicts
    decreases base.Present?, if base.Present? then base.value else JNull
  {
    hide IsEqual, KeysOf, SortedKeys;
    IsEqualDecidesEquality(source, database);
    IsEqualDecidesEquality(base, source);
    IsEqualDecidesEquality(base, database);
    if IsEqual(source, database) { return source; }
    if IsEqual(base, source) { return database; }
    if IsEqual(base, database) { return source; }
    if IsRecord(base) && IsRecord(source) && IsRecord(database) {
      var members: map<Text, Json> := map[];
      var keys := KeysOf(base, source, database);
      for i := 0 to |keys|
        invariant var m := MergeKeys(base, source, database, keys[..i], path);
                  m.value == Present(JObject(members)) && conflicts.items == old(conflicts.items) + m.conflicts
      {
        var key := keys[i];
        assert keys[..i + 1][..i] == keys[..i];
        var value := MergeInto(Get(base, key), Get(source, key), Get(database, key), path + [key], conflicts);
        if value.Present? { members := members[key := value.value]; }
      }
      assert keys[..|keys|] == keys;
      return Present(JObject(members));
    }
    conflicts.Push(Conflict(path, base, source, database));
    merged := Undefined;
  }

  // ---------------------------------------------------------------- lookups

  /** The value at a key path; undefined where the path leaves the records. */
  function Lookup(v: Maybe, p: Path): Maybe
    decreases |p|
  {
    if p == [] then v else if IsRecord(v) then Lookup(Get(v, p[0]), p[1..]) else Undefined
  }

  lemma {:induction false} LookupUndefined(p: Path)
    ensures Lookup(Undefined, p) == Undefined
  {
  }

  lemma {:induction false} LookupConcat(v: Maybe, p: Path, q: Path)
    ensures Lookup(v, p + q) == Lookup(Lookup(v, p), q)
    decreases |p|
  {
    if p == [] {
      assert p + q == q;
    } else {
      assert (p + q)[0] == p[0] && (p + q)[1..] == p[1..] + q;
      if IsRecord(v) { LookupConcat(Get(v, p[0]), p[1..], q); } else { LookupUndefined(q); }
    }
  }

  predicate AllRecords(base: Maybe, source: Maybe, database: Maybe) {
    IsRecord(base) && IsRecord(source) && IsRecord(database)
  }

  predicate AllDiffer(base: Maybe, source: Maybe, database: Maybe) {
    source != database && base != source && base != database
  }

  /** The merged record holds the merged value of every key that was merged. */
  lemma {:induction false} MergeKeysGet(base: Maybe, source: Maybe, database: Maybe, keys: seq<Text>, path: Path, k: Text)
    requires AllRecords(base, source, database)
    ensures Get(MergeKeys(base, source, database, keys, path).value, k)
         == if k in keys then MergeValue(Get(base, k), Get(source, k), Get(database, k), path + [k]).value else Undefined
    decreases |keys|
  {
    hide MergeValue;
    if keys != [] {
      var init, last := keys[..|keys| - 1], keys[|keys| - 1];
      assert keys == init + [last];
      MergeKeysGet(base, source, database, init, path, k);
    }
  }

  lemma {:induction false} MergeKeysConflictFree(base: Maybe, source: Maybe, database: Maybe, keys: seq<Text>, path: Path, k: Text)
    requires AllRecords(base, source, database) && k in keys
    requires MergeKeys(base, source, database, keys, path).conflicts == []
    ensures MergeValue(Get(base, k), Get(source, k), Get(database, k), path + [k]).conflicts == []
    decreases |keys|
  {
    hide MergeValue;
    var init, last := keys[..|keys| - 1], keys[|keys| - 1];
    assert keys == init + [last];
    if k in init { MergeKeysConflictFree(base, source, database, init, path, k); }
  }

  /** A key outside the merged keys is undefined everywhere. */
  lemma AbsentKey(base: Maybe, source: Maybe, database: Maybe, k: Text)
    requires AllRecords(base, source, database) && k !in KeysOf(base, source, database)
    ensures Get(base, k) == Get(source, k) == Get(database, k) == Undefined
  {
  }

  /**
   * A merge without conflicts is right at every key path: where two sides agree, the merged value is the
   * third side's, and where source and database agree it is theirs.
   */
  lemma {:induction false} MergeIsRight(base: Maybe, source: Maybe, database: Maybe, path: Path, p: Path)
    requires MergeValue(base, source, database, path).conflicts == []
    ensures var b, s, d := Lookup(base, p), Lookup(source, p), Lookup(database, p);
            var m := Lookup(MergeValue(base, source, database, path).value, p);
            && (b == d ==> m == s)
            && (b == s ==> m == d)
            && (s == d ==> m == s)
    decreases |p|
  {
    if AllDiffer(base, source, database) && p != [] {
      assert AllRecords(base, source, database);
      hide MergeKeys, KeysOf;
      var keys, k := KeysOf(base, source, database), p[0];
      MergeKeysGet(base, source, database, keys, path, k);
      if k in keys {
        MergeKeysConflictFree(base, source, database, keys, path, k);
        MergeIsRight(Get(base, k), Get(source, k), Get(database, k), path + [k], p[1..]);
      } else {
        AbsentKey(base, source, database, k);
        LookupUndefined(p[1..]);
      }
    }
  }

  // ---------------------------------------------------------------- conflicts

  /** All three values at p differ, are not all records, and every proper prefix leads to three records. */
  predicate Conflicting(base: Maybe, source: Maybe, database: Maybe, p: Path) {
    && AllDiffer(Lookup(base, p), Lookup(source, p), Lookup(database, p))
    && !AllRecords(Lookup(base, p), Lookup(source, p), Lookup(database, p))
    && forall i | 0 <= i < |p| :: AllRecords(Lookup(base, p[..i]), Lookup(source, p[..i]), Lookup(database, p[..i]))
  }

  function ConflictAt(base: Maybe, source: Maybe, database: Maybe, path: Path, p: Path): Conflict {
    Conflict(path + p, Lookup(base, p), Lookup(source, p), Lookup(database, p))
  }

  lemma ConflictingAtRoot(base: Maybe, source: Maybe, database: Maybe)
    ensures Conflicting(base, source, database, [])
       <==> AllDiffer(base, source, database) && !AllRecords(base, source, database)
  {
  }

  lemma ConflictingInside(base: Maybe, source: Maybe, database: Maybe, p: Path)
    requires p != []
    ensures Conflicting(base, source, database, p)
       <==> AllRecords(base, source, database)
            && Conflicting(Get(base, p[0]), Get(source, p[0]), Get(database, p[0]), p[1..])
  {
    assert p[..0] == [];
    if AllRecords(base, source, database) {
      var k := p[0];
      forall i | 0 < i <= |p|
        ensures Lookup(base, p[..i]) == Lookup(Get(base, k), p[1..][..i - 1])
        ensures Lookup(source, p[..i]) == Lookup(Get(source, k), p[1..][..i - 1])
        ensures Lookup(database, p[..i]) == Lookup(Get(database, k), p[1..][..i - 1])
      {
        assert p[..i][0] == k && p[..i][1..] == p[1..][..i - 1];
      }
      if Conflicting(base, source, database, p) {
        forall j | 0 <= j < |p| - 1
          ensures AllRecords(Lookup(Get(base, k), p[1..][..j]), Lookup(Get(source, k), p[1..][..j]), Lookup(Get(database, k), p[1..][..j]))
        {
          assert AllRecords(Lookup(base, p[..j + 1]), Lookup(source, p[..j + 1]), Lookup(database, p[..j + 1]));
        }
      }
    }
  }

  /** A conflict found under one key is the conflict at that key in the whole record. */
  lemma ConflictAtInside(base: Maybe, source: Maybe, database: Maybe, path: Path, p: Path)
    requires p != [] && AllRecords(base, source, database)
    ensures ConflictAt(base, source, database, path, p)
         == ConflictAt(Get(base, p[0]), Get(source, p[0]), Get(database, p[0]), path + [p[0]], p[1..])
  {
    assert path + p == path + [p[0]] + p[1..];
  }

  /** Every reported conflict sits at a conflicting path, and reports the three values found there. */
  lemma {:induction false} ConflictsAreReal(base: Maybe, source: Maybe, database: Maybe, path: Path, c: Conflict)
    returns (p: Path)
    requires c in MergeValue(base, source, database, path).conflicts
    ensures Conflicting(base, source, database, p) && c == ConflictAt(base, source, database, path, p)
    decreases base.Present?, if base.Present? then base.value else JNull, 1, 0
  {
    if AllRecords(base, source, database) {
      var keys := KeysOf(base, source, database);
      assert c in MergeKeys(base, source, database, keys, path).conflicts;
      hide KeysOf, MergeValue, MergeKeys, Conflicting;
      p := KeyConflictsAreReal(base, source, database, keys, path, c);
    } else {
      p := [];
      ConflictingAtRoot(base, source, database);
      assert path + [] == path;
    }
  }

  lemma {:induction false} KeyConflictsAreReal(base: Maybe, source: Maybe, database: Maybe, keys: seq<Text>, path: Path, c: Conflict)
    returns (p: Path)
    requires AllRecords(base, source, database)
    requires c in MergeKeys(base, source, database, keys, path).conflicts
    ensures p != [] && p[0] in keys
    ensures Conflicting(base, source, database, p) && c == ConflictAt(base, source, database, path, p)
    decreases true, base.value, 0, |keys|
  {
    var init, last := keys[..|keys| - 1], keys[|keys| - 1];
    hide MergeValue, Conflicting, ConflictAt;
    if c in MergeKeys(base, source, database, init, path).conflicts {
      p := KeyConflictsAreReal(base, source, database, init, path, c);
    } else {
      var q := ConflictsAreReal(Get(base, last), Get(source, last), Get(database, last), path + [last], c);
      p := [last] + q;
      assert p[1..] == q;
      ConflictingInside(base, source, database, p);
      ConflictAtInside(base, source, database, path, p);
    }
  }

  lemma {:induction false} KeyConflictIsKept(base: Maybe, source: Maybe, database: Maybe, keys: seq<Text>, path: Path, k: Text, c: Conflict)
    requires AllRecords(base, source, database) && k in keys
    requires c in MergeValue(Get(base, k), Get(source, k), Get(database, k), path + [k]).conflicts
    ensures c in MergeKeys(base, source, database, keys, path).conflicts
    decreases |keys|
  {
    hide MergeValue;
    var init, last := keys[..|keys| - 1], keys[|keys| - 1];
    assert keys == init + [last];
    if k in init { KeyConflictIsKept(base, source, database, init, path, k, c); }
  }

  /** Every conflicting path is reported. */
  lemma {:induction false} ConflictingIsReported(base: Maybe, source: Maybe, database: Maybe, path: Path, p: Path)
    requires Conflicting(base, source, database, p)
    ensures ConflictAt(base, source, database, path, p) in MergeValue(base, source, database, path).conflicts
    decreases |p|
  {
    if p == [] {
      ConflictingAtRoot(base, source, database);
      assert path + [] == path;
    } else {
      ConflictingInside(base, source, database, p);
      var k, keys := p[0], KeysOf(base, source, database);
      if k !in keys {
        AbsentKey(base, source, database, k);
        LookupUndefined(p[1..]);
        assert false;
      }
      var b, s, d := Get(base, k), Get(source, k), Get(database, k);
      if !AllDiffer(base, source, database) {
        assert false;
      }
      hide KeysOf, MergeKeys, Conflicting;
      ConflictingIsReported(b, s, d, path + [k], p[1..]);
      ConflictAtInside(base, source, database, path, p);
      KeyConflictIsKept(base, source, database, keys, path, k, ConflictAt(b, s, d, path + [k], p[1..]));
    }
  }

  /** Key paths in the order in which a merge visits them. */
  predicate PathLess(p: Path, q: Path) {
    q != [] && (p == [] || Less(p[0], q[0]) || (p[0] == q[0] && PathLess(p[1..], q[1..])))
  }

  lemma {:induction false} PathLessUnder(path: Path, p: Path, q: Path)
    ensures PathLess(path + p, path + q) <==> PathLess(p, q)
    decreases |path|
  {
    if path == [] {
      assert path + p == p && path + q == q;
    } else {
      LessIsTotal(path[0], path[0]);
      assert (path + p)[1..] == path[1..] + p && (path + q)[1..] == path[1..] + q;
      PathLessUnder(path[1..], p, q);
    }
  }

  predicate Ascending(keys: seq<Text>) {
    forall i, j | 0 <= i < j < |keys| :: Less(keys[i], keys[j])
  }

  lemma {:induction false} SortedKeysAscend(keys: set<Text>)
    ensures Ascending(SortedKeys(keys))
    decreases |keys|
  {
    if keys != {} {
      var k := Least(keys);
      SortedKeysAscend(keys - {k});
      assert IsLeast(k, keys);
    }
  }

  predicate InOrder(conflicts: seq<Conflict>) {
    forall i, j | 0 <= i < j < |conflicts| :: PathLess(conflicts[i].path, conflicts[j].path)
  }

  /** The conflicts come in key order, so no path is reported twice. */
  lemma {:induction false} ConflictsAreInOrder(base: Maybe, source: Maybe, database: Maybe, path: Path)
    ensures InOrder(MergeValue(base, source, database, path).conflicts)
    decreases base.Present?, if base.Present? then base.value else JNull, 1, 0
  {
    if AllRecords(base, source, database) {
      var keys := KeysOf(base, source, database);
      SortedKeysAscend(base.value.members.Keys + source.value.members.Keys + database.value.members.Keys);
      hide MergeKeys;
      KeyConflictsAreInOrder(base, source, database, keys, path);
    }
  }

  lemma {:induction false} KeyConflictsAreInOrder(base: Maybe, source: Maybe, database: Maybe, keys: seq<Text>, path: Path)
    requires AllRecords(base, source, database) && Ascending(keys)
    ensures InOrder(MergeKeys(base, source, database, keys, path).conflicts)
    decreases true, base.value, 0, |keys|
  {
    if keys != [] {
      var init, last := keys[..|keys| - 1], keys[|keys| - 1];
      var b, s, d := Get(base, last), Get(source, last), Get(database, last);
      KeyConflictsAreInOrder(base, source, database, init, path);
      ConflictsAreInOrder(b, s, d, path + [last]);
      KeysBeforeLast(base, source, database, init, last, path);
    }
  }

  lemma KeysBeforeLast(base: Maybe, source: Maybe, database: Maybe, init: seq<Text>, last: Text, path: Path)
    requires AllRecords(base, source, database) && forall k | k in init :: Less(k, last)
    ensures forall x, y | x in MergeKeys(base, source, database, init, path).conflicts
                       && y in MergeValue(Get(base, last), Get(source, last), Get(database, last), path + [last]).conflicts
              :: PathLess(x.path, y.path)
  {
    hide MergeValue, MergeKeys, Conflicting, Lookup, InOrder;
    forall x, y | x in MergeKeys(base, source, database, init, path).conflicts
               && y in MergeValue(Get(base, last), Get(source, last), Get(database, last), path + [last]).conflicts
      ensures PathLess(x.path, y.path)
    {
      var p := KeyConflictsAreReal(base, source, database, init, path, x);
      var q := ConflictsAreReal(Get(base, last), Get(source, last), Get(database, last), path + [last], y);
      assert y.path == path + ([last] + q);
      PathLessUnder(path, p, [last] + q);
    }
  }

  // ---------------------------------------------------------------- swapping the sides

  function Swap(c: Conflict): Conflict {
    c.(source := c.database, database := c.source)
  }

  function SwapAll(cs: seq<Conflict>): (r: seq<Conflict>)
    ensures |r| == |cs| && forall i | 0 <= i < |cs| :: r[i] == Swap(cs[i])
  {
    if cs == [] then [] else [Swap(cs[0])] + SwapAll(cs[1..])
  }

  lemma SwapAllConcat(a: seq<Conflict>, b: seq<Conflict>)
    ensures SwapAll(a + b) == SwapAll(a) + SwapAll(b)
  {
  }

  /** Source and database play the same part: swapping them swaps them in the conflicts and changes nothing else. */
  lemma {:induction false} SwapSides(base: Maybe, source: Maybe, database: Maybe, path: Path)
    ensures MergeValue(base, database, source, path).value == MergeValue(base, source, database, path).value
    ensures MergeValue(base, database, source, path).conflicts == SwapAll(MergeValue(base, source, database, path).conflicts)
    decreases base.Present?, if base.Present? then base.value else JNull, 1, 0
  {
    if AllRecords(base, source, database) {
      var b, s, d := base.value.members.Keys, source.value.members.Keys, database.value.members.Keys;
      assert b + s + d == b + d + s;
      hide MergeKeys;
      SwapSidesOfKeys(base, source, database, KeysOf(base, source, database), path);
    }
  }

  lemma {:induction false} SwapSidesOfKeys(base: Maybe, source: Maybe, database: Maybe, keys: seq<Text>, path: Path)
    requires AllRecords(base, source, database)
    ensures MergeKeys(base, database, source, keys, path).value == MergeKeys(base, source, database, keys, path).value
    ensures MergeKeys(base, database, source, keys, path).conflicts == SwapAll(MergeKeys(base, source, database, keys, path).conflicts)
    decreases true, base.value, 0, |keys|
  {
    hide MergeValue;
    if keys != [] {
      var init, last := keys[..|keys| - 1], keys[|keys| - 1];
      SwapSidesOfKeys(base, source, database, init, path);
      SwapSides(Get(base, last), Get(source, last), Get(database, last), path + [last]);
      SwapAllConcat(MergeKeys(base, source, database, init, path).conflicts,
                    MergeValue(Get(base, last), Get(source, last), Get(database, last), path + [last]).conflicts);
    }
  }

  // ---------------------------------------------------------------- the shortcuts

  datatype Status = Unchanged | SourceAdded | SourceUpdated | SourceDeleted | DatabaseUpdated | AutoMerged | InConflict

  datatype Revision = NoRevision | Revision(hash: Text)

  datatype Reconciled = Reconciled(status: Status, merged: Maybe, conflicts: seq<Conflict>,
                                   baseRevision: Revision, sourceRevision: Revision, databaseRevision: Revision)

  function RevisionOf(v: Maybe): Revision {
    if v.Undefined? then NoRevision else Revision(StableHash.Hash(Stringify(v.value)))
  }

  /** reconcileThreeWay: the revisions decide first, the merge comes last. */
  function Reconcile(base: Maybe, source: Maybe, database: Maybe): Reconciled {
    var b, s, d := RevisionOf(base), RevisionOf(source), RevisionOf(database);
    if s == d then Reconciled(Unchanged, source, [], b, s, d)
    else if base.Undefined? && source.Undefined? then Reconciled(DatabaseUpdated, database, [], b, s, d)
    else if base.Undefined? && database.Undefined? then Reconciled(SourceAdded, source, [], b, s, d)
    else if base.Undefined? then ConflictHere(base, source, database)
    else if source.Undefined? then
      if d == b then Reconciled(SourceDeleted, Undefined, [], b, s, d) else ConflictHere(base, source, database)
    else if database.Undefined? then
      if s == b then Reconciled(SourceDeleted, Undefined, [], b, s, d) else ConflictHere(base, source, database)
    else if s == b then Reconciled(DatabaseUpdated, database, [], b, s, d)
    else if d == b then Reconciled(SourceUpdated, source, [], b, s, d)
    else
      var m := MergeValue(base, source, database, []);
      Reconciled(if m.conflicts != [] then InConflict else AutoMerged, if m.conflicts != [] then Undefined else m.value,
                 m.conflicts, b, s, d)
  }

  function ConflictHere(base: Maybe, source: Maybe, database: Maybe): Reconciled {
    Reconciled(InConflict, Undefined, [Conflict([], base, source, database)],
               RevisionOf(base), RevisionOf(source), RevisionOf(database))
  }

  method ReconcileThreeWay(base: Maybe, source: Maybe, database: Maybe) returns (r: Reconciled)
    ensures r == Reconcile(base, source, database)
  {
    hide StableHash.Hash, MergeValue, Stringify;
    var baseRevision, sourceRevision, databaseRevision := NoRevision, NoRevision, NoRevision;
    if base.Present? { var h := StableHash.ComputeHash(Stringify(base.value)); baseRevision := Revision(h); }
    if source.Present? { var h := StableHash.ComputeHash(Stringify(source.value)); sourceRevision := Revision(h); }
    if database.Present? { var h := StableHash.ComputeHash(Stringify(database.value)); databaseRevision := Revision(h); }
    r := Reconciled(Unchanged, source, [], baseRevision, sourceRevision, databaseRevision);
    var atRoot := r.(status := InConflict, merged := Undefined, conflicts := [Conflict([], base, source, database)]);
    if sourceRevision == databaseRevision { return r; }
    if base.Undefined? {
      if source.Undefined? { return r.(status := DatabaseUpdated, merged := database); }
      if database.Undefined? { return r.(status := SourceAdded); }
      return atRoot;
    }
    if source.Undefined? {
      if databaseRevision == baseRevision { return r.(status := SourceDeleted, merged := Undefined); }
      return atRoot;
    }
    if database.Undefined? {
      if sourceRevision == baseRevision { return r.(status := SourceDeleted, merged := Undefined); }
      return atRoot;
    }
    if sourceRevision == baseRevision { return r.(status := DatabaseUpdated, merged := database); }
    if databaseRevision == baseRevision { return r.(status := SourceUpdated); }
    var conflicts := new ConflictList();
    var merged := MergeInto(base, source, database, [], conflicts);
    assert conflicts.items == MergeValue(base, source, database, []).conflicts;
    r := r.(status := if |conflicts.items| > 0 then InConflict else AutoMerged,
            merged := if |conflicts.items| > 0 then Undefined else merged,
            conflicts := conflicts.items);
  }

  /** Two values whose hashes agree are the same value. */
  predicate NoCollision(a: Maybe, b: Maybe) {
    RevisionOf(a) == RevisionOf(b) ==> a == b
  }

  /** No shortcut changes the outcome: it is always that of the plain merge. */
  lemma ShortcutsAreSound(base: Maybe, source: Maybe, database: Maybe)
    requires NoCollision(base, source) && NoCollision(base, database) && NoCollision(source, database)
    ensures var r, m := Reconcile(base, source, database), MergeValue(base, source, database, []);
            && r.conflicts == m.conflicts
            && r.merged == (if m.conflicts == [] then m.value else Undefined)
            && (r.status == InConflict <==> m.conflicts != [])
            && (r.status == Unchanged <==> source == database)
  {
    hide StableHash.Hash, Stringify, MergeKeys;
  }

  /** What a reconciliation reports, path by path. */
  lemma ReconcileIsExact(base: Maybe, source: Maybe, database: Maybe)
    requires NoCollision(base, source) && NoCollision(base, database) && NoCollision(source, database)
    ensures var r := Reconcile(base, source, database);
            && (forall p: Path :: Conflicting(base, source, database, p) <==> ConflictAt(base, source, database, [], p) in r.conflicts)
            && (forall c | c in r.conflicts :: c == ConflictAt(base, source, database, [], c.path))
            && InOrder(r.conflicts)
            && (r.conflicts == [] ==> forall p: Path ::
                 var b, s, d, m := Lookup(base, p), Lookup(source, p), Lookup(database, p), Lookup(r.merged, p);
                 (b == d ==> m == s) && (b == s ==> m == d) && (s == d ==> m == s))
  {
    ShortcutsAreSound(base, source, database);
    ConflictsAreInOrder(base, source, database, []);
    hide Reconcile, MergeValue, Conflicting, Lookup;
    forall p: Path ensures Conflicting(base, source, database, p)
      <==> ConflictAt(base, source, database, [], p) in Reconcile(base, source, database).conflicts
    {
      if Conflicting(base, source, database, p) {
        ConflictingIsReported(base, source, database, [], p);
      }
      if ConflictAt(base, source, database, [], p) in Reconcile(base, source, database).conflicts {
        var q := ConflictsAreReal(base, source, database, [], ConflictAt(base, source, database, [], p));
        assert [] + p == p && [] + q == q;
      }
    }
    forall c | c in Reconcile(base, source, database).conflicts
      ensures c == ConflictAt(base, source, database, [], c.path)
    {
      var q := ConflictsAreReal(base, source, database, [], c);
      assert [] + q == q;
    }
    if Reconcile(base, source, database).conflicts == [] {
      forall p: Path ensures
        var b, s, d := Lookup(base, p), Lookup(source, p), Lookup(database, p);
        var m := Lookup(Reconcile(base, source, database).merged, p);
        (b == d ==> m == s) && (b == s ==> m == d) && (s == d ==> m == s)
      {
        MergeIsRight(base, source, database, [], p);
      }
    }
  }

  /** Swapping source and database swaps their parts in the conflicts and leaves the merged value alone. */
  lemma ReconcileSwaps(base: Maybe, source: Maybe, database: Maybe)
    requires NoCollision(base, source) && NoCollision(base, database) && NoCollision(source, database)
    ensures var r, t := Reconcile(base, source, database), Reconcile(base, database, source);
            && t.merged == r.merged && t.conflicts == SwapAll(r.conflicts)
            && (t.status == InConflict <==> r.status == InConflict)
  {
    ShortcutsAreSound(base, source, database);
    ShortcutsAreSound(base, database, source);
    hide *;
    SwapSides(base, source, database, []);
  }
}
