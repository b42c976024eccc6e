/**
  All predicate trees of a segment, sharing one row table.
 */
module PairForest {
  import opened Rids
  import opened RowTable
  import opened PairTree

  // An update of one tree.
  datatype Op =
    | Add(tree: nat, pk: Rid, row: Pair)
    | Remove(tree: nat, pk: Rid, pattern: Pair)
    | RemoveAll(tree: nat, pattern: Pair)

  // What an update does to the multimap its tree stands for.
  ghost function Changed(t: Tree, op: Op): Tree {
    match op
    case Add(_, pk, row) => TreeAdd(t, pk, row)
    case Remove(_, pk, pattern) => TreeRemove(t, pk, pattern)
    case RemoveAll(_, pattern) => TreeRemoveAll(t, pattern)
  }

  ghost function After(ts: seq<Tree>, op: Op): seq<Tree> {
    if op.tree < |ts| then ts[op.tree := Changed(ts[op.tree], op)] else ts
  }

  ghost function AfterAll(ts: seq<Tree>, ops: seq<Op>): seq<Tree> {
    if ops == [] then ts else After(AfterAll(ts, ops[..|ops| - 1]), ops[|ops| - 1])
  }

  // The rows of a key are those the multimap lists.
  lemma RowsListed(pt: PTree, k: Rid)
    requires pt.Valid()
    ensures Rids.Rows(pt.Contents(), k) == pt.Rows(k)
  {
    hide PTree.Structure, PTree.Chains, PTree.Rows;
    pt.KeysHaveRows(k);
  }

  // `removed` tells whether a removal changed anything, `touched` which models lost rows to an open pattern.
  method Update(pt: PTree, op: Op) returns (removed: bool, touched: set<Rid>)
    requires pt.Valid()
    modifies pt, pt.table
    ensures pt.Valid() && pt.Contents() == Changed(old(pt.Contents()), op)
    ensures pt.OthersKept()
    ensures op.RemoveAll? ==> removed == (pt.Contents() != old(pt.Contents()))
    ensures op.Remove? ==> touched == Touched(op.pattern, Rids.Rows(old(pt.Contents()), op.pk))
  {
    hide PTree.Valid, PTree.Contents, PTree.OthersKept, TreeAdd, TreeRemove, TreeRemoveAll;
    removed, touched := false, {};
    match op {
      case Add(_, pk, row) => pt.Add(pk, row);
      case Remove(_, pk, pattern) =>
        RowsListed(pt, pk);
        var ret, out := pt.Remove(pk, pattern, {});
        removed, touched := ret == 0, out;
      case RemoveAll(_, pattern) =>
        var ret := pt.RemoveAll(pattern);
        removed := ret == 0;
    }
  }

  class Forest {
    const table: PTable
    var trees: seq<PTree>

    // The trees are valid, use this table, and are named by their position; no chain belongs to
    // anything else.
    ghost predicate Valid()
      reads this, table, trees
    {
      && table.Valid()
      && (forall i :: 0 <= i < |trees| ==> trees[i].table == table && trees[i].id == i)
      && (forall i {:trigger trees[i]} :: 0 <= i < |trees| ==> trees[i].Valid())
      && (forall t: nat, k: Rid {:trigger Chain(t, k)} :: t >= |trees| ==> table.ids(Chain(t, k)) == [])
    }

    ghost function Contents(): seq<Tree>
      requires Valid()
      reads this, table, trees
    {
      seq(|trees|, i requires 0 <= i < |trees| && Valid() reads this, table, trees => trees[i].Contents())
    }

    constructor ()
      ensures Valid() && Contents() == [] && fresh(table) && trees == []
    {
      table := new PTable();
      trees := [];
    }

    // fs_ptree_open_filename on a new file: an empty tree is added.
    method NewTree()
      requires Valid()
      modifies this
      ensures Valid() && Contents() == old(Contents()) + [map[]]
      ensures |trees| == |old(trees)| + 1 && trees[..|old(trees)|] == old(trees) && fresh(trees[|old(trees)|])
    {
      hide PTree.Valid, PTable.Valid;
      assert forall k: Rid :: table.ids(Chain(|trees|, k)) == [];
      var pt := new PTree(table, |trees|);
      trees := trees + [pt];
    }

    lemma TableStillValid(pt: PTree)
      requires pt.Valid()
      ensures pt.table.Valid()
    {
    }

    // Any update of any tree.
    method Apply(op: Op) returns (removed: bool, touched: set<Rid>)
      requires Valid()
      modifies this, table, trees
      ensures Valid() && trees == old(trees)
      ensures Contents() == After(old(Contents()), op)
      ensures op.RemoveAll? ==> removed == (Contents() != old(Contents()))
      ensures op.Remove? && op.tree < |trees| ==>
        touched == Touched(op.pattern, Rids.Rows(old(Contents())[op.tree], op.pk))
    {
      hide PTree.Valid, PTree.Contents, PTable.Valid, Changed;
      removed, touched := false, {};
      if op.tree < |trees| {
        removed, touched := Update(trees[op.tree], op);
        TableStillValid(trees[op.tree]);
        forall i | 0 <= i < |trees|
          ensures trees[i].Valid()
          ensures i != op.tree ==> trees[i].Contents() == old(trees[i].Contents())
        {
          if i != op.tree {
            trees[i].Unaffected();
          }
        }
        forall t: nat, k: Rid | t >= |trees|
          ensures table.ids(Chain(t, k)) == []
        {
          assert SameList(old(table.rows), old(table.ids), table.rows, table.ids, Chain(t, k));
        }
      }
    }

    // Every run of updates: the trees hold exactly what the multimaps hold.
    method Run(ops: seq<Op>)
      requires Valid()
      modifies this, table, trees
      ensures Valid() && trees == old(trees)
      ensures Contents() == AfterAll(old(Contents()), ops)
    {
      hide Valid, Contents, After;
      ghost var start := Contents();
      for i := 0 to |ops|
        invariant Valid() && trees == old(trees)
        invariant Contents() == AfterAll(start, ops[..i])
      {
        var _, _ := Apply(ops[i]);
        assert ops[..i + 1][..i] == ops[..i];
      }
      assert ops[..|ops|] == ops;
    }
  }
}
