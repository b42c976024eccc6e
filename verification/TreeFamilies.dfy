/**
  The two tree families of a segment as tree objects over one row table. What they denote changes exactly
  as the multimaps of the segment model do.
 */
module TreeFamilies {
  import opened Rids
  import RowTable
  import opened PairTree
  import opened PairForest
  import TreeScan
  import opened ChainScan
  import opened Indexes

  // The multimaps of one family: `index` gives the tree of each predicate.
  ghost function Family(ts: seq<Tree>, index: map<Rid, nat>): Trees {
    map p | p in index && index[p] < |ts| :: ts[index[p]]
  }

  // Each tree of a family serves one predicate.
  ghost predicate OneEach(index: map<Rid, nat>, n: nat) {
    && (forall p :: p in index ==> index[p] < n)
    && (forall p, q :: p in index && q in index && p != q ==> index[p] != index[q])
  }

  // No tree is in both families.
  ghost predicate Apart(s: map<Rid, nat>, o: map<Rid, nat>) {
    forall p, q :: p in s && q in o ==> s[p] != o[q]
  }

  ghost predicate Separate(s: map<Rid, nat>, o: map<Rid, nat>, n: nat) {
    s.Keys == o.Keys && OneEach(s, n) && OneEach(o, n) && Apart(s, o)
  }

  // An update of one tree is seen in its family as the update of that predicate.
  lemma SeenHere(ts: seq<Tree>, index: map<Rid, nat>, p: Rid, op: Op)
    requires OneEach(index, |ts|) && p in index && op.tree == index[p]
    ensures Family(After(ts, op), index) == Family(ts, index)[p := Changed(ts[index[p]], op)]
  {
    hide Changed;
    var ts' := After(ts, op);
    forall q | q in index
      ensures ts'[index[q]] == if q == p then Changed(ts[index[p]], op) else ts[index[q]]
    {
    }
  }

  // And in the other family not at all.
  lemma NotSeen(ts: seq<Tree>, index: map<Rid, nat>, op: Op)
    requires forall q :: q in index ==> index[q] != op.tree
    ensures Family(After(ts, op), index) == Family(ts, index)
  {
    hide Changed;
  }

  lemma OpenedOne(ts: seq<Tree>, index: map<Rid, nat>, p: Rid, k: nat)
    requires OneEach(index, |ts|) && p !in index && |ts| <= k < |ts| + 2
    ensures OneEach(index[p := k], |ts| + 2)
    ensures Family(ts + [map[]] + [map[]], index[p := k]) == Opened(Family(ts, index), p)
  {
    var ts', index' := ts + [map[]] + [map[]], index[p := k];
    assert ts'[k] == map[];
    forall q | q in index
      ensures ts'[index[q]] == ts[index[q]]
    {
    }
  }

  lemma Opening(ts: seq<Tree>, s: map<Rid, nat>, o: map<Rid, nat>, p: Rid)
    requires Separate(s, o, |ts|) && p !in s
    ensures
      var ts', s', o' := ts + [map[]] + [map[]], s[p := |ts|], o[p := |ts| + 1];
      && Separate(s', o', |ts'|)
      && Family(ts', s') == Opened(Family(ts, s), p) && Family(ts', o') == Opened(Family(ts, o), p)
  {
    hide Family;
    OpenedOne(ts, s, p, |ts|);
    OpenedOne(ts, o, p, |ts| + 1);
  }

  class SegmentTrees {
    var forest: Forest
    var s: map<Rid, nat>      // the subject tree of each predicate
    var o: map<Rid, nat>      // the object tree of each predicate

    ghost predicate Valid()
      reads this, forest, forest.table, forest.trees
    {
      forest.Valid() && Separate(s, o, |forest.trees|)
    }

    // The objects an update may change.
    ghost function Footprint(): set<object>
      reads this, forest
    {
      {this, forest, forest.table} + set t | t in forest.trees
    }

    // What a family denotes.
    ghost function Denotes(byObject: bool): Trees
      requires Valid()
      reads this, forest, forest.table, forest.trees
    {
      Family(forest.Contents(), if byObject then o else s)
    }

    constructor ()
      ensures Valid() && Denotes(false) == map[] && Denotes(true) == map[] && fresh(Footprint())
    {
      forest := new Forest();
      s, o := map[], map[];
    }

    // fs_backend_unlink_indexes: the trees and their table are started afresh.
    method Clear()
      modifies this
      ensures Valid() && Denotes(false) == map[] && Denotes(true) == map[] && fresh(Footprint() - {this})
    {
      forest := new Forest();
      s, o := map[], map[];
    }

    // fs_backend_open_ptree: a pair of empty trees for a new predicate.
    method Open(p: Rid)
      requires Valid()
      modifies this, forest
      ensures Valid() && forest == old(forest) && fresh(Footprint() - old(Footprint()))
      ensures Denotes(false) == Opened(old(Denotes(false)), p) && Denotes(true) == Opened(old(Denotes(true)), p)
    {
      hide Forest.Valid, Forest.Contents, Family, Separate;
      if p !in s {
        ContentsLength();
        Opening(forest.Contents(), s, o, p);
        var n := |forest.trees|;
        forest.NewTree();
        ghost var one := forest.trees;
        forest.NewTree();
        s, o := s[p := n], o[p := n + 1];
        ContentsLength();
        TwoNew(old(forest.trees), one, forest.trees);
      } else {
        ContentsLength();
        AlreadyOpen(forest.Contents(), s, o, p);
      }
    }

    lemma ContentsLength()
      requires forest.Valid()
      ensures |forest.Contents()| == |forest.trees|
    {
    }

    // fs_ptree_add
    method Add(byObject: bool, p: Rid, key: Rid, row: Pair)
      requires Valid() && p in s
      modifies forest, forest.table, forest.trees
      ensures Footprint() == old(Footprint())
      ensures Valid() && Denotes(byObject) == AddTo(old(Denotes(byObject)), p, key, row)
      ensures Denotes(!byObject) == old(Denotes(!byObject))
    {
      var op := Op.Add(TreeOf(byObject, p), key, row);
      var _, _ := Update(byObject, p, op);
    }

    // fs_ptree_remove
    method Remove(byObject: bool, p: Rid, key: Rid, pattern: Pair) returns (touched: set<Rid>)
      requires Valid() && p in s
      modifies forest, forest.table, forest.trees
      ensures Footprint() == old(Footprint())
      ensures Valid() && Denotes(byObject) == RemoveFrom(old(Denotes(byObject)), p, key, pattern)
      ensures Denotes(!byObject) == old(Denotes(!byObject))
      ensures touched == RowTable.Touched(pattern, RowsAt(old(Denotes(byObject)), p, key))
    {
      var op := Op.Remove(TreeOf(byObject, p), key, pattern);
      var _, out := Update(byObject, p, op);
      touched := out;
    }

    // fs_ptree_remove_all
    method Sweep(byObject: bool, p: Rid, pattern: Pair) returns (removed: bool)
      requires Valid() && p in s
      modifies forest, forest.table, forest.trees
      ensures Footprint() == old(Footprint())
      ensures Valid() && Denotes(byObject) == SweepFrom(old(Denotes(byObject)), p, pattern)
      ensures Denotes(!byObject) == old(Denotes(!byObject))
      ensures removed == (Denotes(byObject) != old(Denotes(byObject)))
    {
      var op := Op.RemoveAll(TreeOf(byObject, p), pattern);
      var out, _ := Update(byObject, p, op);
      removed := out;
    }

    function TreeOf(byObject: bool, p: Rid): nat
      reads this
      requires p in s && p in o
    {
      if byObject then o[p] else s[p]
    }

    method Update(byObject: bool, p: Rid, op: Op) returns (removed: bool, touched: set<Rid>)
      requires Valid() && p in s && p in o && op.tree == TreeOf(byObject, p)
      modifies forest, forest.table, forest.trees
      ensures Valid() && p in old(Denotes(byObject)) && Footprint() == old(Footprint())
      ensures Denotes(byObject) == old(Denotes(byObject))[p := Changed(old(Denotes(byObject))[p], op)]
      ensures Denotes(!byObject) == old(Denotes(!byObject))
      ensures op.RemoveAll? ==> removed == (Denotes(byObject) != old(Denotes(byObject)))
      ensures op.Remove? ==> touched == RowTable.Touched(op.pattern, Rids.Rows(old(Denotes(byObject))[p], op.pk))
    {
      hide Forest.Valid, Forest.Contents, Changed;
      ghost var ts := forest.Contents();
      ContentsLength();
      SeenHere(ts, if byObject then o else s, p, op);
      NotSeen(ts, if byObject then s else o, op);
      removed, touched := forest.Apply(op);
      ContentsLength();
      assert Family(ts, if byObject then o else s)[p] == ts[op.tree];
      assert ts != forest.Contents() <==> Changed(ts[op.tree], op) != ts[op.tree];
    }

    // Any update.
    method Apply(u: Update)
      requires Valid()
      modifies Footprint()
      ensures Valid() && fresh(Footprint() - old(Footprint()))
      ensures Both(Denotes(false), Denotes(true)) == Updated(old(Both(Denotes(false), Denotes(true))), u)
    {
      hide Separate, Forest.Valid, Forest.Contents, Family, AddTo, RemoveFrom, SweepFrom, Opened;
      match u
      case OpenBoth(p) => Open(p);
      case AddRow(byObject, p, key, row) =>
        Indexed(p);
        if p in s {
          Add(byObject, p, key, row);
        } else {
          NothingAdded(Denotes(byObject), p, key, row);
        }
      case RemoveRows(byObject, p, key, pattern) =>
        Indexed(p);
        if p in s {
          var _ := Remove(byObject, p, key, pattern);
        } else {
          NothingRemoved(Denotes(byObject), p, key, pattern);
        }
      case SweepRows(byObject, p, pattern) =>
        Indexed(p);
        if p in s {
          var _ := Sweep(byObject, p, pattern);
        } else {
          NothingRemoved(Denotes(byObject), p, 0, pattern);
        }
      case ClearAll => Clear();
    }

    lemma Indexed(p: Rid)
      requires Valid()
      ensures p in s <==> p in o
      ensures p in s <==> p in Denotes(false)
      ensures p in s <==> p in Denotes(true)
    {
      ContentsLength();
    }

    // fs_ptree_search
    method Search(byObject: bool, p: Rid, key: Rid, pattern: Pair) returns (out: seq<Pair>)
      requires Valid() && p in s && p in o
      ensures out == Select(pattern, RowsAt(Denotes(byObject), p, key))
    {
      hide Select, PTree.Valid, PTree.Contents;
      var pt := forest.trees[TreeOf(byObject, p)];
      RowsListed(pt, key);
      assert forest.Contents()[TreeOf(byObject, p)] == pt.Contents();
      out := TreeScan.Search(pt, key, pattern);
    }
  }

  lemma NothingAdded(trees: Trees, p: Rid, key: Rid, row: Pair)
    requires p !in trees
    ensures AddTo(trees, p, key, row) == trees
  {
  }

  lemma NothingRemoved(trees: Trees, p: Rid, key: Rid, pattern: Pair)
    requires p !in trees
    ensures RemoveFrom(trees, p, key, pattern) == trees && SweepFrom(trees, p, pattern) == trees
  {
  }

  lemma TwoNew(ts: seq<PTree>, one: seq<PTree>, two: seq<PTree>)
    requires |one| == |ts| + 1 && one[..|ts|] == ts && |two| == |one| + 1 && two[..|one|] == one
    ensures forall t :: t in two ==> t in ts || t == two[|ts|] || t == two[|ts| + 1]
    ensures two[|ts|] == one[|ts|]
  {
    assert two == ts + [one[|ts|]] + [two[|ts| + 1]];
  }

  lemma AlreadyOpen(ts: seq<Tree>, s: map<Rid, nat>, o: map<Rid, nat>, p: Rid)
    requires Separate(s, o, |ts|) && p in s
    ensures Opened(Family(ts, s), p) == Family(ts, s) && Opened(Family(ts, o), p) == Family(ts, o)
  {
  }
}
