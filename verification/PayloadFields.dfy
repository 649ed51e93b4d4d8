/** Looking into pruned payloads. */
module PayloadFields {
  import opened Results
  import opened PayloadTree

  /** The value under a key, if the tree is a dictionary that has the key. */
  function Field(t: Tree, key: string): Option<Tree>
  {
    if t.Dict? then FieldOf(t.entries, key) else None
  }

  function FieldOf(entries: seq<Entry>, key: string): Option<Tree>
  {
    if entries == [] then None
    else if entries[0].key == key then Some(entries[0].value)
    else FieldOf(entries[1..], key)
  }

  lemma {:induction false} NoSuchKey(entries: seq<Entry>, key: string)
    requires forall e | e in entries :: e.key != key
    ensures FieldOf(entries, key) == None
  {
    if entries == [] {
    } else {
      assert entries[0] in entries;
      NoSuchKey(entries[1..], key);
    }
  }

  /** A field of a request is sent exactly if something of it is left. */
  lemma {:induction false} FieldAfterPruning(entries: seq<Entry>, i: nat)
    requires i < |entries| && DistinctKeys(entries)
    ensures Field(Prune(Dict(entries)), entries[i].key)
         == if HasLeaf(entries[i].value) then Some(Prune(entries[i].value)) else None
  {
    hide HasLeaf;
    var rest := entries[1..];
    assert forall k | 0 <= k < |rest| :: rest[k] == entries[k + 1];
    if i == 0 {
      forall e | e in PruneEntries(rest) ensures e.key != entries[0].key {
        PrunedKeys(rest, e);
      }
      NoSuchKey(PruneEntries(rest), entries[0].key);
      if HasLeaf(entries[0].value) {
        assert PruneEntries(entries)[0] == Entry(entries[0].key, Prune(entries[0].value));
      } else {
        assert PruneEntries(entries) == PruneEntries(rest);
      }
    } else {
      FieldAfterPruning(rest, i - 1);
      if HasLeaf(entries[0].value) {
        assert PruneEntries(entries)[1..] == PruneEntries(rest);
      } else {
        assert PruneEntries(entries) == PruneEntries(rest);
      }
    }
  }

  /** A field that holds a scalar is sent as it is, one that is not set is not sent. */
  lemma {:induction false} ScalarAfterPruning(entries: seq<Entry>, i: nat)
    requires i < |entries| && DistinctKeys(entries) && !entries[i].value.IsContainer()
    ensures Field(Prune(Dict(entries)), entries[i].key)
         == if entries[i].value.Absent? then None else Some(entries[i].value)
  {
    FieldAfterPruning(entries, i);
  }

  /** A list whose items all have something left keeps all of them. */
  lemma {:induction false} AllItemsStay(items: seq<Tree>)
    requires forall x | x in items :: HasLeaf(x)
    ensures |PruneItems(items)| == |items|
    ensures forall i | 0 <= i < |items| :: PruneItems(items)[i] == Prune(items[i])
  {
    hide HasLeaf, Prune;
    if items == [] {
    } else {
      assert items[0] in items;
      AllItemsStay(items[1..]);
      forall i | 0 < i < |items| ensures PruneItems(items)[i] == Prune(items[i]) {
        assert PruneItems(items)[i] == PruneItems(items[1..])[i - 1];
      }
    }
  }

  // ----- Optional fields -----

  function FlagField(flag: Missing<bool>): Tree
  {
    if flag.Undefined? then Absent else Bool(flag.value)
  }

  /** What is sent for an optional flag. */
  function SentFlag(flag: Missing<bool>): Option<Tree>
  {
    if flag.Undefined? then None else Some(Bool(flag.value))
  }

  function TextField(text: Missing<string>): Tree
  {
    if text.Undefined? then Absent else Chars(text.value)
  }

  function NumberField(number: Missing<int>): Tree
  {
    if number.Undefined? then Absent else Num(number.value)
  }
}
