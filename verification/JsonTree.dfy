/** JSON values whose records keep the order of their entries. */
module JsonTree {
  import opened CodeUnits
  import opened YslScanner
  import JsonText

  datatype Tree =
    | Null
    | Boolean(b: bool)
    | Numeral(text: JsonText.NumberText)
    | String(s: Text)
    | List(items: seq<Tree>)
    | Record(entries: seq<Entry>)

  datatype Entry = Entry(key: Text, value: Tree)

  predicate IsScalar(v: Tree) {
    !v.List? && !v.Record?
  }

  /** JSON.stringify. */
  function ToJson(v: Tree): Text
    decreases v, 1
  {
    match v
    case Null => WORD_NULL
    case Boolean(b) => if b then WORD_TRUE else WORD_FALSE
    case Numeral(text) => text
    case String(s) => Quote(s)
    case List(items) => [LSQUARE] + ItemsJson(v, |items|) + [RSQUARE]
    case Record(entries) => [LCURLY] + EntriesJson(v, |entries|) + [RCURLY]
  }

  function ItemsJson(v: Tree, n: nat): Text
    requires v.List? && n <= |v.items|
    decreases v, 0, n
  {
    if n == 0 then [] else ItemsJson(v, n - 1) + (if n == 1 then [] else [COMMA]) + ToJson(v.items[n - 1])
  }

  function EntriesJson(v: Tree, n: nat): Text
    requires v.Record? && n <= |v.entries|
    decreases v, 0, n
  {
    if n == 0 then []
    else
      EntriesJson(v, n - 1) + (if n == 1 then [] else [COMMA])
      + Quote(v.entries[n - 1].key) + [COLON] + ToJson(v.entries[n - 1].value)
  }

  /** Assignment to a property: an existing key keeps its place. */
  function Put(entries: seq<Entry>, key: Text, value: Tree): (r: seq<Entry>)
    ensures r != []
    ensures forall e | e in r :: e in entries || e == Entry(key, value)
  {
    if entries == [] then [Entry(key, value)]
    else if entries[0].key == key then [Entry(key, value)] + entries[1..]
    else [entries[0]] + Put(entries[1..], key, value)
  }

  /** Object.fromEntries: assign the entries one after the other. */
  function FromEntries(entries: seq<Entry>): (r: seq<Entry>)
    ensures forall e | e in r :: e in entries
  {
    if entries == [] then []
    else
      var last := entries[|entries| - 1];
      Put(FromEntries(entries[..|entries| - 1]), last.key, last.value)
  }

  predicate HasKey(entries: seq<Entry>, key: Text) {
    exists i | 0 <= i < |entries| :: entries[i].key == key
  }

  predicate UniqueKeys(entries: seq<Entry>) {
    forall i, j | 0 <= i < j < |entries| :: entries[i].key != entries[j].key
  }

  lemma {:induction false} PutNew(entries: seq<Entry>, key: Text, value: Tree)
    requires !HasKey(entries, key)
    ensures Put(entries, key, value) == entries + [Entry(key, value)]
  {
    if entries != [] {
      forall i | 0 <= i < |entries[1..]| ensures entries[1..][i].key != key { assert entries[1..][i] == entries[i + 1]; }
      PutNew(entries[1..], key, value);
      assert entries == [entries[0]] + entries[1..];
    }
  }

  lemma {:induction false} PutKeepsUnique(entries: seq<Entry>, key: Text, value: Tree)
    requires UniqueKeys(entries)
    ensures UniqueKeys(Put(entries, key, value))
    ensures forall k :: HasKey(Put(entries, key, value), k) <==> HasKey(entries, k) || k == key
  {
    if HasKey(entries, key) {
      PutExisting(entries, key, value);
    } else {
      PutNew(entries, key, value);
      var r := Put(entries, key, value);
      assert forall i | 0 <= i < |entries| :: r[i] == entries[i];
      assert r[|entries|].key == key;
    }
  }

  lemma {:induction false} PutExisting(entries: seq<Entry>, key: Text, value: Tree)
    requires HasKey(entries, key)
    ensures |Put(entries, key, value)| == |entries|
    ensures forall i | 0 <= i < |entries| :: Put(entries, key, value)[i].key == entries[i].key
  {
    if entries[0].key != key {
      var i :| 0 <= i < |entries| && entries[i].key == key;
      assert entries[1..][i - 1].key == key;
      PutExisting(entries[1..], key, value);
    }
  }

  lemma {:induction false} FromEntriesUnique(entries: seq<Entry>)
    ensures UniqueKeys(FromEntries(entries))
  {
    if entries != [] {
      var init, last := entries[..|entries| - 1], entries[|entries| - 1];
      FromEntriesUnique(init);
      PutKeepsUnique(FromEntries(init), last.key, last.value);
    }
  }

  /** Entries whose keys are distinct already are a record's own entries. */
  lemma {:induction false} FromEntriesIdentity(entries: seq<Entry>)
    requires UniqueKeys(entries)
    ensures FromEntries(entries) == entries
  {
    if entries != [] {
      var init, last := entries[..|entries| - 1], entries[|entries| - 1];
      FromEntriesIdentity(init);
      assert entries == init + [last];
      PutNew(init, last.key, last.value);
    }
  }
}
