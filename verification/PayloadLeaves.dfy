/** Pruning keeps every leaf of a payload and makes none up: the pruned tree is the only tree of its leaves. */
module PayloadLeaves {
  import opened PayloadTree

  /** A step from a container to a child; list positions count only children of which something is left. */
  datatype Step = Key(key: string) | Position(index: nat)

  /** A scalar or a container without children, and the way to it. */
  datatype Leaf = Leaf(path: seq<Step>, value: Tree)

  function Under(step: Step, leaves: seq<Leaf>): (r: seq<Leaf>)
    ensures |r| == |leaves|
  {
    seq(|leaves|, i requires 0 <= i < |leaves| => Leaf([step] + leaves[i].path, leaves[i].value))
  }

  /** All leaves of a tree from left to right. */
  function Leaves(t: Tree): seq<Leaf>
  {
    match t
    case Absent => []
    case Dict(entries) => if entries == [] then [Leaf([], t)] else EntryLeaves(entries)
    case List(items) => if items == [] then [Leaf([], t)] else ItemLeaves(items, 0)
    case _ => [Leaf([], t)]
  }

  function EntryLeaves(entries: seq<Entry>): seq<Leaf>
  {
    if entries == [] then
      []
    else
      Under(Key(entries[0].key), Leaves(entries[0].value)) + EntryLeaves(entries[1..])
  }

  function ItemLeaves(items: seq<Tree>, position: nat): seq<Leaf>
  {
    if items == [] then
      []
    else
      Under(Position(position), Leaves(items[0]))
      + ItemLeaves(items[1..], if HasLeaf(items[0]) then position + 1 else position)
  }

  // ----- Conservation -----

  lemma {:induction false} HasLeafMeansLeaves(t: Tree)
    ensures HasLeaf(t) <==> Leaves(t) != []
    decreases t, 1
  {
    match t
    case Dict(entries) => EntriesHaveLeaves(entries);
    case List(items) => ItemsHaveLeaves(items, 0);
    case _ =>
  }

  lemma {:induction false} EntriesHaveLeaves(entries: seq<Entry>)
    ensures EntryLeaves(entries) != [] <==> exists i | 0 <= i < |entries| :: HasLeaf(entries[i].value)
    decreases entries, 0
  {
    if entries == [] {
    } else {
      HasLeafMeansLeaves(entries[0].value);
      EntriesHaveLeaves(entries[1..]);
      assert forall i :: 0 < i < |entries| ==> entries[i] == entries[1..][i - 1];
    }
  }

  lemma {:induction false} ItemsHaveLeaves(items: seq<Tree>, position: nat)
    ensures ItemLeaves(items, position) != [] <==> exists i | 0 <= i < |items| :: HasLeaf(items[i])
    decreases items, 0
  {
    if items == [] {
    } else {
      HasLeafMeansLeaves(items[0]);
      ItemsHaveLeaves(items[1..], if HasLeaf(items[0]) then position + 1 else position);
      assert forall i :: 0 < i < |items| ==> items[i] == items[1..][i - 1];
    }
  }

  /** What is left of a tree has something left, unless it is the root and nothing was left of it. */
  lemma {:induction false} PrunedHasLeaf(t: Tree)
    ensures HasLeaf(Prune(t)) <==> HasLeaf(t) || t.IsContainer()
    decreases t, 1
  {
    match t
    case Dict(entries) =>
      SomeEntryIsLeft(entries);
      PrunedEntriesHaveLeaves(entries);
      assert PruneEntries(entries) != [] ==> PruneEntries(entries)[0] in PruneEntries(entries);
    case List(items) =>
      SomeItemIsLeft(items);
      PrunedItemsHaveLeaves(items);
      assert PruneItems(items) != [] ==> PruneItems(items)[0] in PruneItems(items);
    case _ =>
  }

  lemma {:induction false} PrunedEntriesHaveLeaves(entries: seq<Entry>)
    ensures forall e | e in PruneEntries(entries) :: HasLeaf(e.value)
    decreases entries, 0
  {
    if entries == [] {
    } else {
      PrunedHasLeaf(entries[0].value);
      PrunedEntriesHaveLeaves(entries[1..]);
    }
  }

  lemma {:induction false} PrunedItemsHaveLeaves(items: seq<Tree>)
    ensures forall x | x in PruneItems(items) :: HasLeaf(x)
    decreases items, 0
  {
    if items == [] {
    } else {
      PrunedHasLeaf(items[0]);
      PrunedItemsHaveLeaves(items[1..]);
    }
  }

  /**
   Pruning keeps all leaves in order, with their values and their paths. Only a root of which nothing
   is left becomes a leaf itself.
   */
  lemma {:induction false} PruneKeepsLeaves(t: Tree)
    ensures HasLeaf(t) ==> Leaves(Prune(t)) == Leaves(t)
    ensures !HasLeaf(t) ==> Leaves(t) == []
    ensures !HasLeaf(t) && t.IsContainer() ==> Prune(t) == if t.Dict? then Dict([]) else List([])
    decreases t, 1
  {
    HasLeafMeansLeaves(t);
    match t
    case Dict(entries) =>
      SomeEntryIsLeft(entries);
      PruneKeepsEntryLeaves(entries);
    case List(items) =>
      SomeItemIsLeft(items);
      PruneKeepsItemLeaves(items, 0);
    case _ =>
  }

  lemma {:induction false} PruneKeepsEntryLeaves(entries: seq<Entry>)
    ensures EntryLeaves(PruneEntries(entries)) == EntryLeaves(entries)
    decreases entries, 0
  {
    hide Leaves, HasLeaf, Prune;
    if entries == [] {
    } else {
      var e, rest := entries[0], PruneEntries(entries[1..]);
      PruneKeepsLeaves(e.value);
      PruneKeepsEntryLeaves(entries[1..]);
      if HasLeaf(e.value) {
        assert ([Entry(e.key, Prune(e.value))] + rest)[1..] == rest;
      } else {
        assert Under(Key(e.key), []) == [];
        assert PruneEntries(entries) == rest;
      }
    }
  }

  lemma {:induction false} PruneKeepsItemLeaves(items: seq<Tree>, position: nat)
    ensures ItemLeaves(PruneItems(items), position) == ItemLeaves(items, position)
    decreases items, 0
  {
    hide Leaves, HasLeaf, Prune;
    if items == [] {
    } else {
      var x, rest := items[0], PruneItems(items[1..]);
      PruneKeepsLeaves(x);
      PrunedHasLeaf(x);
      PruneKeepsItemLeaves(items[1..], if HasLeaf(x) then position + 1 else position);
      if HasLeaf(x) {
        assert ([Prune(x)] + rest)[1..] == rest;
      } else {
        assert Under(Position(position), []) == [];
        assert PruneItems(items) == rest;
      }
    }
  }

  // ----- Normal form -----

  /** The marker occurs nowhere. */
  predicate Clean(t: Tree)
  {
    match t
    case Absent => false
    case Dict(entries) => forall i | 0 <= i < |entries| :: Clean(entries[i].value)
    case List(items) => forall i | 0 <= i < |items| :: Clean(items[i])
    case _ => true
  }

  lemma {:induction false} CleanHasLeaf(t: Tree)
    requires Clean(t)
    ensures HasLeaf(t)
  {
    match t
    case Dict(entries) =>
      if entries != [] {
        CleanHasLeaf(entries[0].value);
      }
    case List(items) =>
      if items != [] {
        CleanHasLeaf(items[0]);
      }
    case _ =>
  }

  /** No marker is left, and no key is doubled. */
  lemma {:induction false} PrunedIsClean(t: Tree)
    requires !t.Absent?
    ensures Clean(Prune(t))
    ensures Keyed(t) ==> Keyed(Prune(t))
    decreases t, 1
  {
    match t
    case Dict(entries) => PrunedEntriesAreClean(entries);
    case List(items) => PrunedItemsAreClean(items);
    case _ =>
  }

  lemma {:induction false} PrunedEntriesAreClean(entries: seq<Entry>)
    ensures Clean(Dict(PruneEntries(entries)))
    ensures Keyed(Dict(entries)) ==> Keyed(Dict(PruneEntries(entries)))
    decreases entries, 0
  {
    if entries == [] {
    } else {
      var e, rest := entries[0], entries[1..];
      PrunedEntriesAreClean(rest);
      if HasLeaf(e.value) {
        PrunedIsClean(e.value);
        if Keyed(Dict(entries)) {
          forall x | x in PruneEntries(rest) ensures x.key != e.key {
            PrunedKeys(rest, x);
          }
          assert forall i :: 0 <= i < |rest| ==> rest[i] == entries[i + 1];
          assert Keyed(Dict(rest));
        }
      } else {
        assert forall i :: 0 <= i < |rest| ==> rest[i] == entries[i + 1];
      }
    }
  }

  lemma {:induction false} PrunedItemsAreClean(items: seq<Tree>)
    ensures Clean(List(PruneItems(items)))
    ensures Keyed(List(items)) ==> Keyed(List(PruneItems(items)))
    decreases items, 0
  {
    if items == [] {
    } else {
      var rest := items[1..];
      assert forall i :: 0 <= i < |rest| ==> rest[i] == items[i + 1];
      PrunedItemsAreClean(rest);
      if HasLeaf(items[0]) {
        PrunedIsClean(items[0]);
      }
    }
  }

  /** Exactly the trees without marker are left as they are. */
  lemma {:induction false} PruneIsIdentityOnClean(t: Tree)
    requires !t.Absent?
    ensures Prune(t) == t <==> Clean(t)
    decreases t, 1
  {
    PrunedIsClean(t);
    if Clean(t) {
      match t
      case Dict(entries) => CleanEntriesStay(entries);
      case List(items) => CleanItemsStay(items);
      case _ =>
    }
  }

  lemma {:induction false} CleanEntriesStay(entries: seq<Entry>)
    requires Clean(Dict(entries))
    ensures PruneEntries(entries) == entries
    decreases entries, 0
  {
    if entries == [] {
    } else {
      var rest := entries[1..];
      assert forall i :: 0 <= i < |rest| ==> rest[i] == entries[i + 1];
      CleanHasLeaf(entries[0].value);
      PruneIsIdentityOnClean(entries[0].value);
      CleanEntriesStay(rest);
    }
  }

  lemma {:induction false} CleanItemsStay(items: seq<Tree>)
    requires Clean(List(items))
    ensures PruneItems(items) == items
    decreases items, 0
  {
    if items == [] {
    } else {
      var rest := items[1..];
      assert forall i :: 0 <= i < |rest| ==> rest[i] == items[i + 1];
      CleanHasLeaf(items[0]);
      PruneIsIdentityOnClean(items[0]);
      CleanItemsStay(rest);
    }
  }

  /** Pruning twice is pruning once. */
  lemma {:induction false} PruneIsIdempotent(t: Tree)
    ensures Prune(Prune(t)) == Prune(t)
  {
    if !t.Absent? {
      PrunedIsClean(t);
      PruneIsIdentityOnClean(Prune(t));
    }
  }

  // ----- The leaves determine the tree -----

  predicate StartsWith(leaf: Leaf, step: Step)
  {
    leaf.path != [] && leaf.path[0] == step
  }

  /** Where leaves below one step end and others begin can be told from their paths. */
  lemma {:induction false} SplitAtStep(step: Step, a: seq<Leaf>, x: seq<Leaf>, b: seq<Leaf>, y: seq<Leaf>)
    requires forall l | l in x || l in y :: !StartsWith(l, step)
    requires Under(step, a) + x == Under(step, b) + y
    ensures a == b && x == y
  {
    var all := Under(step, a) + x;
    assert forall i | 0 <= i < |a| :: StartsWith(all[i], step);
    assert forall i | 0 <= i < |b| :: StartsWith((Under(step, b) + y)[i], step);
    assert |a| < |all| ==> all[|a|] in x;
    assert |b| < |all| ==> all[|b|] in y;
    assert |a| == |b|;
    assert x == all[|a|..] == y;
    forall i | 0 <= i < |a| ensures a[i] == b[i] {
      assert all[i] == Under(step, a)[i] == Under(step, b)[i];
      assert a[i].path == ([step] + a[i].path)[1..] == ([step] + b[i].path)[1..] == b[i].path;
    }
  }

  lemma {:induction false} EntryLeavesStart(entries: seq<Entry>, l: Leaf)
    requires l in EntryLeaves(entries)
    ensures exists i | 0 <= i < |entries| :: StartsWith(l, Key(entries[i].key))
  {
    if l !in Under(Key(entries[0].key), Leaves(entries[0].value)) {
      EntryLeavesStart(entries[1..], l);
      var i :| 0 <= i < |entries[1..]| && StartsWith(l, Key(entries[1..][i].key));
      assert StartsWith(l, Key(entries[i + 1].key));
    }
  }

  lemma {:induction false} ItemLeavesStart(items: seq<Tree>, position: nat, l: Leaf)
    requires l in ItemLeaves(items, position)
    ensures l.path != [] && l.path[0].Position? && l.path[0].index >= position
  {
    if l !in Under(Position(position), Leaves(items[0])) {
      ItemLeavesStart(items[1..], if HasLeaf(items[0]) then position + 1 else position, l);
    }
  }

  /** Two trees without marker that have the same leaves are the same tree. */
  lemma {:induction false} LeavesDetermineTree(t: Tree, u: Tree)
    requires Clean(t) && Clean(u) && Keyed(t) && Keyed(u)
    requires Leaves(t) == Leaves(u)
    ensures t == u
    decreases t, 1
  {
    CleanHasLeaf(t); HasLeafMeansLeaves(t);
    var l := Leaves(t)[0];
    FirstStep(t);
    FirstStep(u);
    if l.path != [] && l.path[0].Key? {
      LeavesDetermineEntries(t.entries, u.entries);
    } else if l.path != [] {
      LeavesDetermineItems(t.items, u.items, 0);
    }
  }

  /** The first leaf shows what kind of tree it is. */
  lemma {:induction false} FirstStep(t: Tree)
    requires Clean(t)
    ensures Leaves(t) != []
    ensures var l := Leaves(t)[0];
      && (l.path == [] <==> !(t.IsContainer() && t.Size() > 0))
      && (l.path == [] ==> l.value == t)
      && (l.path != [] && l.path[0].Key? <==> t.Dict? && t.entries != [])
      && (l.path != [] && l.path[0].Position? <==> t.List? && t.items != [])
  {
    CleanHasLeaf(t); HasLeafMeansLeaves(t);
    var l := Leaves(t)[0];
    if t.Dict? && t.entries != [] {
      EntryLeavesStart(t.entries, l);
    } else if t.List? && t.items != [] {
      ItemLeavesStart(t.items, 0, l);
    }
  }

  lemma {:induction false} OtherEntriesStartElsewhere(entries: seq<Entry>)
    requires entries != [] && DistinctKeys(entries)
    ensures forall l | l in EntryLeaves(entries[1..]) :: !StartsWith(l, Key(entries[0].key))
  {
    forall l | l in EntryLeaves(entries[1..]) ensures !StartsWith(l, Key(entries[0].key)) {
      EntryLeavesStart(entries[1..], l);
    }
  }

  lemma {:induction false} TailOfEntries(entries: seq<Entry>)
    requires entries != []
    ensures Clean(Dict(entries)) ==> Clean(entries[0].value) && Clean(Dict(entries[1..]))
    ensures Keyed(Dict(entries)) ==> Keyed(entries[0].value) && Keyed(Dict(entries[1..]))
  {
    assert forall i :: 0 <= i < |entries| - 1 ==> entries[1..][i] == entries[i + 1];
  }

  lemma {:induction false} LeavesDetermineEntries(es: seq<Entry>, fs: seq<Entry>)
    requires Clean(Dict(es)) && Clean(Dict(fs)) && Keyed(Dict(es)) && Keyed(Dict(fs))
    requires EntryLeaves(es) == EntryLeaves(fs)
    ensures es == fs
    decreases es, 0
  {
    hide Leaves, HasLeaf, Clean;
    if es == [] || fs == [] {
      EntriesHaveLeaves(es); EntriesHaveLeaves(fs);
      if es != [] { TailOfEntries(es); CleanHasLeaf(es[0].value); }
      if fs != [] { TailOfEntries(fs); CleanHasLeaf(fs[0].value); }
    } else {
      var e, f := es[0], fs[0];
      TailOfEntries(es);
      TailOfEntries(fs);
      CleanHasLeaf(e.value); HasLeafMeansLeaves(e.value);
      CleanHasLeaf(f.value); HasLeafMeansLeaves(f.value);
      assert StartsWith(EntryLeaves(es)[0], Key(e.key));
      assert StartsWith(EntryLeaves(fs)[0], Key(f.key));
      OtherEntriesStartElsewhere(es);
      OtherEntriesStartElsewhere(fs);
      SplitAtStep(Key(e.key), Leaves(e.value), EntryLeaves(es[1..]), Leaves(f.value), EntryLeaves(fs[1..]));
      LeavesDetermineTree(e.value, f.value);
      LeavesDetermineEntries(es[1..], fs[1..]);
      assert es == [e] + es[1..] && fs == [f] + fs[1..];
    }
  }

  lemma {:induction false} LeavesDetermineItems(xs: seq<Tree>, ys: seq<Tree>, position: nat)
    requires Clean(List(xs)) && Clean(List(ys)) && Keyed(List(xs)) && Keyed(List(ys))
    requires ItemLeaves(xs, position) == ItemLeaves(ys, position)
    ensures xs == ys
    decreases xs, 0
  {
    hide Leaves, HasLeaf;
    if xs == [] || ys == [] {
      ItemsHaveLeaves(xs, position); ItemsHaveLeaves(ys, position);
      if xs != [] { CleanHasLeaf(xs[0]); }
      if ys != [] { CleanHasLeaf(ys[0]); }
    } else {
      CleanHasLeaf(xs[0]);
      CleanHasLeaf(ys[0]);
      forall l | l in ItemLeaves(xs[1..], position + 1) ensures !StartsWith(l, Position(position)) {
        ItemLeavesStart(xs[1..], position + 1, l);
      }
      forall l | l in ItemLeaves(ys[1..], position + 1) ensures !StartsWith(l, Position(position)) {
        ItemLeavesStart(ys[1..], position + 1, l);
      }
      SplitAtStep(Position(position), Leaves(xs[0]), ItemLeaves(xs[1..], position + 1),
                  Leaves(ys[0]), ItemLeaves(ys[1..], position + 1));
      LeavesDetermineTree(xs[0], ys[0]);
      LeavesDetermineItems(xs[1..], ys[1..], position + 1);
      assert xs == [xs[0]] + xs[1..] && ys == [ys[0]] + ys[1..];
    }
  }

  /** What pruning returns is fixed by the leaves of its argument: no other tree without marker has them. */
  lemma {:induction false} PrunedIsTheTreeOfTheLeaves(t: Tree, u: Tree)
    requires Keyed(t) && HasLeaf(t)
    requires Clean(u) && Keyed(u) && Leaves(u) == Leaves(t)
    ensures u == Prune(t)
  {
    PruneKeepsLeaves(t);
    PrunedIsClean(t);
    LeavesDetermineTree(u, Prune(t));
  }
}
