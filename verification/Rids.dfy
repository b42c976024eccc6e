/**
  Resource identifiers, the rows stored in the pair index, and the multimap that one
  predicate tree denotes: from a key to the list of (model, other) rows under it.
 */
module Rids {

  type Rid = n: nat | n < 0x1_0000_0000_0000_0000

  // The wildcard; also the end marker of RID sets.
  const RID_NULL: Rid := 0x8000_0000_0000_0000
  // Marks a triple that was pruned from a model's chain.
  const RID_GONE: Rid := 0

  datatype Pair = Pair(model: Rid, other: Rid)

  datatype Triple = Triple(s: Rid, p: Rid, o: Rid)

  datatype Quad = Quad(m: Rid, s: Rid, p: Rid, o: Rid)

  // A component of RID_NULL in the pattern matches anything.
  predicate Matches(pattern: Pair, row: Pair) {
    && (pattern.model == RID_NULL || pattern.model == row.model)
    && (pattern.other == RID_NULL || pattern.other == row.other)
  }

  // The rows that survive a removal, in their original order.
  function Keep(pattern: Pair, rows: seq<Pair>): seq<Pair> {
    if rows == [] then []
    else
      var last := rows[|rows| - 1];
      Keep(pattern, rows[..|rows| - 1]) + if Matches(pattern, last) then [] else [last]
  }

  // The rows that a search returns, in their original order.
  function Select(pattern: Pair, rows: seq<Pair>): seq<Pair> {
    if rows == [] then []
    else
      var last := rows[|rows| - 1];
      Select(pattern, rows[..|rows| - 1]) + if Matches(pattern, last) then [last] else []
  }

  type Tree = map<Rid, seq<Pair>>

  function Rows(t: Tree, key: Rid): seq<Pair> {
    if key in t then t[key] else []
  }

  // Keys whose list becomes empty vanish.
  function WithRows(t: Tree, key: Rid, rows: seq<Pair>): Tree {
    if rows == [] then t - {key} else t[key := rows]
  }

  function TreeAdd(t: Tree, key: Rid, row: Pair): Tree {
    WithRows(t, key, [row] + Rows(t, key))
  }

  function TreeRemove(t: Tree, key: Rid, pattern: Pair): Tree {
    WithRows(t, key, Keep(pattern, Rows(t, key)))
  }

  function TreeRemoveAll(t: Tree, pattern: Pair): Tree {
    map key | key in t && Keep(pattern, t[key]) != [] :: Keep(pattern, t[key])
  }

  // No key is present with an empty list.
  predicate NoEmptyKeys(t: Tree) {
    forall key :: key in t ==> t[key] != []
  }

  lemma {:induction false} KeepAppend(pattern: Pair, a: seq<Pair>, b: seq<Pair>)
    ensures Keep(pattern, a + b) == Keep(pattern, a) + Keep(pattern, b)
    decreases |b|
  {
    if b == [] {
      assert a + b == a;
    } else {
      var n := |b| - 1;
      assert (a + b)[..|a + b| - 1] == a + b[..n];
      KeepAppend(pattern, a, b[..n]);
    }
  }

  // Nothing is removed exactly when nothing matches.
  lemma {:induction false} KeepNothing(pattern: Pair, rows: seq<Pair>)
    ensures |Keep(pattern, rows)| <= |rows|
    ensures |Keep(pattern, rows)| == |rows| <==> Keep(pattern, rows) == rows
    ensures Keep(pattern, rows) == rows <==> forall row :: row in rows ==> !Matches(pattern, row)
  {
    if rows != [] {
      var n := |rows| - 1;
      KeepNothing(pattern, rows[..n]);
      assert rows == rows[..n] + [rows[n]];
    }
  }

  lemma SameTree(t: Tree, t': Tree)
    requires NoEmptyKeys(t) && NoEmptyKeys(t')
    requires forall key: Rid :: Rows(t, key) == Rows(t', key)
    ensures t == t'
  {
    forall key: Rid
      ensures key in t <==> key in t'
      ensures key in t ==> t[key] == t'[key]
    {
      assert Rows(t, key) == Rows(t', key);
    }
  }
}
