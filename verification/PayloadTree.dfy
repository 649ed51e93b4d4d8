/** `_remove_undefined`: dropping what is not set from a request before it is sent. */
module PayloadTree {
  import opened Results
  import opened Sequences

  /** A dumped model. `Absent` is the `Undefined` marker; a dictionary keeps its keys in order of insertion. */
  datatype Tree =
    | Absent
    | Null
    | Bool(flag: bool)
    | Num(number: int)
    | Chars(text: string)
    | Dict(entries: seq<Entry>)
    | List(items: seq<Tree>)
  {
    predicate IsContainer()
    {
      Dict? || List?
    }

    /** `len(value)` of a container. */
    function Size(): nat
      requires IsContainer()
    {
      if Dict? then |entries| else |items|
    }
  }

  datatype Entry = Entry(key: string, value: Tree)

  /** A dictionary has a key once. */
  predicate DistinctKeys(entries: seq<Entry>)
  {
    forall i, j | 0 <= i < j < |entries| :: entries[i].key != entries[j].key
  }

  ghost predicate Keyed(t: Tree)
  {
    match t
    case Dict(entries) => DistinctKeys(entries) && forall i | 0 <= i < |entries| :: Keyed(entries[i].value)
    case List(items) => forall i | 0 <= i < |items| :: Keyed(items[i])
    case _ => true
  }

  // ----- The tree that is left -----

  /**
   Something is left of `t`: it is a scalar, a container without children, or has a child of which
   something is left.
   */
  predicate HasLeaf(t: Tree)
  {
    match t
    case Absent => false
    case Dict(entries) => entries == [] || exists i | 0 <= i < |entries| :: HasLeaf(entries[i].value)
    case List(items) => items == [] || exists i | 0 <= i < |items| :: HasLeaf(items[i])
    case _ => true
  }

  function Prune(t: Tree): Tree
  {
    match t
    case Dict(entries) => Dict(PruneEntries(entries))
    case List(items) => List(PruneItems(items))
    case _ => t
  }

  function PruneEntries(entries: seq<Entry>): seq<Entry>
  {
    if entries == [] then
      []
    else
      var Entry(key, value) := entries[0];
      (if HasLeaf(value) then [Entry(key, Prune(value))] else []) + PruneEntries(entries[1..])
  }

  function PruneItems(items: seq<Tree>): seq<Tree>
  {
    if items == [] then
      []
    else
      (if HasLeaf(items[0]) then [Prune(items[0])] else []) + PruneItems(items[1..])
  }

  /** Children are left exactly if some child has a leaf. */
  lemma {:induction false} SomeEntryIsLeft(entries: seq<Entry>)
    ensures PruneEntries(entries) != [] <==> exists i | 0 <= i < |entries| :: HasLeaf(entries[i].value)
  {
    if entries == [] {
    } else {
      SomeEntryIsLeft(entries[1..]);
      assert forall i :: 0 < i < |entries| ==> entries[i] == entries[1..][i - 1];
    }
  }

  lemma {:induction false} SomeItemIsLeft(items: seq<Tree>)
    ensures PruneItems(items) != [] <==> exists i | 0 <= i < |items| :: HasLeaf(items[i])
  {
    if items == [] {
    } else {
      SomeItemIsLeft(items[1..]);
      assert forall i :: 0 < i < |items| ==> items[i] == items[1..][i - 1];
    }
  }

  /** The check the code makes on the pruned child says whether the child has a leaf. */
  lemma {:induction false} SurvivalCheck(t: Tree)
    requires t.IsContainer()
    ensures HasLeaf(t) <==> Prune(t).Size() > 0 || Prune(t).Size() == t.Size()
  {
    match t
    case Dict(entries) => SomeEntryIsLeft(entries);
    case List(items) => SomeItemIsLeft(items);
  }

  // ----- The loops -----

  /** `entries[key] = value`. */
  function Put(entries: seq<Entry>, key: string, value: Tree): seq<Entry>
  {
    if entries == [] then [Entry(key, value)]
    else if entries[0].key == key then [Entry(key, value)] + entries[1..]
    else [entries[0]] + Put(entries[1..], key, value)
  }

  lemma {:induction false} PutNewKey(entries: seq<Entry>, key: string, value: Tree)
    requires forall e | e in entries :: e.key != key
    ensures Put(entries, key, value) == entries + [Entry(key, value)]
  {
    if entries == [] {
    } else {
      assert entries[0] in entries;
      PutNewKey(entries[1..], key, value);
    }
  }

  lemma {:induction false} PruneEntriesAppend(entries: seq<Entry>, e: Entry)
    ensures PruneEntries(entries + [e])
         == PruneEntries(entries) + (if HasLeaf(e.value) then [Entry(e.key, Prune(e.value))] else [])
  {
    hide HasLeaf, Prune;
    if entries == [] {
      assert [e][1..] == [];
      assert [] + [e] == [e];
    } else {
      assert (entries + [e])[1..] == entries[1..] + [e];
      PruneEntriesAppend(entries[1..], e);
      var Entry(key, value) := entries[0];
      Regroup(if HasLeaf(value) then [Entry(key, Prune(value))] else [], PruneEntries(entries[1..]),
              if HasLeaf(e.value) then [Entry(e.key, Prune(e.value))] else []);
    }
  }

  lemma {:induction false} PruneItemsAppend(items: seq<Tree>, t: Tree)
    ensures PruneItems(items + [t]) == PruneItems(items) + (if HasLeaf(t) then [Prune(t)] else [])
  {
    hide HasLeaf, Prune;
    if items == [] {
      assert [t][1..] == [];
      assert [] + [t] == [t];
    } else {
      assert (items + [t])[1..] == items[1..] + [t];
      PruneItemsAppend(items[1..], t);
      Regroup(if HasLeaf(items[0]) then [Prune(items[0])] else [], PruneItems(items[1..]),
              if HasLeaf(t) then [Prune(t)] else []);
    }
  }

  /** Pruning makes up no keys. */
  lemma {:induction false} PrunedKeys(entries: seq<Entry>, e: Entry)
    requires e in PruneEntries(entries)
    ensures exists i | 0 <= i < |entries| :: entries[i].key == e.key
  {
    if !(HasLeaf(entries[0].value) && e == Entry(entries[0].key, Prune(entries[0].value))) {
      PrunedKeys(entries[1..], e);
      var i :| 0 <= i < |entries[1..]| && entries[1..][i].key == e.key;
      assert entries[i + 1].key == e.key;
    }
  }

  datatype NotImplementedError = NotImplementedError

  /** `_remove_undefined`, for the dictionaries and lists it is written for, and for anything else. */
  method RemoveUndefined(origin: Tree) returns (r: Result<Tree, NotImplementedError>)
    requires Keyed(origin)
    ensures r == if origin.IsContainer() then Success(Prune(origin)) else Failure(NotImplementedError)
    decreases origin
  {
    if origin.Dict? {
      var newDict: seq<Entry> := [];
      var i := 0;
      while i < |origin.entries|
        invariant 0 <= i <= |origin.entries|
        invariant newDict == PruneEntries(origin.entries[..i])
      {
        var Entry(key, value) := origin.entries[i];
        assert origin.entries[..i + 1] == origin.entries[..i] + [origin.entries[i]];
        PruneEntriesAppend(origin.entries[..i], origin.entries[i]);
        forall e | e in newDict ensures e.key != key {
          PrunedKeys(origin.entries[..i], e);
        }
        i := i + 1;
        if value.Absent? {
          continue;
        }
        if value.IsContainer() {
          var newValue := RemoveUndefined(value);
          SurvivalCheck(value);
          if newValue.value.Size() > 0 || newValue.value.Size() == value.Size() {
            PutNewKey(newDict, key, newValue.value);
            newDict := Put(newDict, key, newValue.value);
          }
        } else {
          PutNewKey(newDict, key, value);
          newDict := Put(newDict, key, value);
        }
      }
      assert origin.entries[..i] == origin.entries;
      return Success(Dict(newDict));
    } else if origin.List? {
      var newList: seq<Tree> := [];
      var i := 0;
      while i < |origin.items|
        invariant 0 <= i <= |origin.items|
        invariant newList == PruneItems(origin.items[..i])
      {
        var value := origin.items[i];
        assert origin.items[..i + 1] == origin.items[..i] + [value];
        PruneItemsAppend(origin.items[..i], value);
        i := i + 1;
        if value.Absent? {
          continue;
        }
        if value.IsContainer() {
          var newValue := RemoveUndefined(value);
          SurvivalCheck(value);
          if newValue.value.Size() > 0 || newValue.value.Size() == value.Size() {
            newList := newList + [newValue.value];
          }
        } else {
          newList := newList + [value];
        }
      }
      assert origin.items[..i] == origin.items;
      return Success(List(newList));
    }
    return Failure(NotImplementedError);
  }
}
