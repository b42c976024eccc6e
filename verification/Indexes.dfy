/**
  What the two tree families of a segment hold: how many copies of each quad, and what adding, removing
  and sweeping do to that.
 */
module Indexes {
  import opened Rids
  import opened ChainScan

  // Neither reserved value occurs where it would be taken for a wildcard or a struck-out triple.
  predicate Storable(q: Quad) {
    q.m != RID_NULL && q.s != RID_NULL && q.p != RID_NULL && q.o != RID_NULL && q.s != RID_GONE
  }

  // Copies of a quad in the subject trees, which list (model, object) rows under the subject.
  ghost function SCopies(trees: Trees, q: Quad): nat {
    multiset(RowsAt(trees, q.p, q.s))[Pair(q.m, q.o)]
  }

  // Copies of a quad in the object trees, which list (model, subject) rows under the object.
  ghost function OCopies(trees: Trees, q: Quad): nat {
    multiset(RowsAt(trees, q.p, q.o))[Pair(q.m, q.s)]
  }

  // Both families hold the same multiset of quads.
  ghost predicate Agree(st: Trees, ot: Trees) {
    forall q: Quad {:trigger SCopies(st, q)} {:trigger OCopies(ot, q)} :: SCopies(st, q) == OCopies(ot, q)
  }

  ghost predicate AllStorable(st: Trees) {
    forall q: Quad {:trigger SCopies(st, q)} :: SCopies(st, q) > 0 ==> Storable(q)
  }

  // fs_backend_open_ptree: a new predicate has empty trees.
  function Opened(trees: Trees, p: Rid): Trees {
    if p in trees then trees else trees[p := map[]]
  }

  function AddTo(trees: Trees, p: Rid, key: Rid, row: Pair): Trees {
    if p in trees then trees[p := TreeAdd(trees[p], key, row)] else trees
  }

  function RemoveFrom(trees: Trees, p: Rid, key: Rid, pattern: Pair): Trees {
    if p in trees then trees[p := TreeRemove(trees[p], key, pattern)] else trees
  }

  function SweepFrom(trees: Trees, p: Rid, pattern: Pair): Trees {
    if p in trees then trees[p := TreeRemoveAll(trees[p], pattern)] else trees
  }

  // ---- updates of the two families ----

  // One update of the trees of a segment, as the tree files see it.
  datatype Update =
    | OpenBoth(p: Rid)
    | AddRow(byObject: bool, p: Rid, key: Rid, row: Pair)
    | RemoveRows(byObject: bool, p: Rid, key: Rid, pattern: Pair)
    | SweepRows(byObject: bool, p: Rid, pattern: Pair)
    | ClearAll

  datatype Both = Both(s: Trees, o: Trees)

  function Updated(b: Both, u: Update): Both {
    match u
    case OpenBoth(p) => Both(Opened(b.s, p), Opened(b.o, p))
    case AddRow(byObject, p, key, row) =>
      if byObject then b.(o := AddTo(b.o, p, key, row)) else b.(s := AddTo(b.s, p, key, row))
    case RemoveRows(byObject, p, key, pattern) =>
      if byObject then b.(o := RemoveFrom(b.o, p, key, pattern)) else b.(s := RemoveFrom(b.s, p, key, pattern))
    case SweepRows(byObject, p, pattern) =>
      if byObject then b.(o := SweepFrom(b.o, p, pattern)) else b.(s := SweepFrom(b.s, p, pattern))
    case ClearAll => Both(map[], map[])
  }

  // The families after a list of updates.
  ghost function Replay(b: Both, log: seq<Update>): Both {
    if log == [] then b else Updated(Replay(b, log[..|log| - 1]), log[|log| - 1])
  }

  lemma ReplayNext(b: Both, log: seq<Update>, u: Update)
    ensures Replay(b, log + [u]) == Updated(Replay(b, log), u)
  {
    assert (log + [u])[..|log|] == log;
  }

  // ---- rows ----

  lemma OpenedRows(trees: Trees, p: Rid, p': Rid, key: Rid)
    ensures RowsAt(Opened(trees, p), p', key) == RowsAt(trees, p', key)
  {
  }

  lemma AddedRows(trees: Trees, p: Rid, key: Rid, row: Pair, p': Rid, key': Rid)
    requires p in trees
    ensures RowsAt(AddTo(trees, p, key, row), p', key') ==
            (if p' == p && key' == key then [row] else []) + RowsAt(trees, p', key')
  {
  }

  lemma RemovedRows(trees: Trees, p: Rid, key: Rid, pattern: Pair, p': Rid, key': Rid)
    ensures RowsAt(RemoveFrom(trees, p, key, pattern), p', key') ==
            if p' == p && key' == key then Keep(pattern, RowsAt(trees, p', key')) else RowsAt(trees, p', key')
  {
  }

  lemma SweptRows(trees: Trees, p: Rid, pattern: Pair, p': Rid, key': Rid)
    ensures RowsAt(SweepFrom(trees, p, pattern), p', key') ==
            if p' == p then Keep(pattern, RowsAt(trees, p', key')) else RowsAt(trees, p', key')
  {
  }

  lemma {:induction false} KeepCount(pattern: Pair, rows: seq<Pair>, r: Pair)
    ensures multiset(Keep(pattern, rows))[r] == if Matches(pattern, r) then 0 else multiset(rows)[r]
  {
    if rows != [] {
      KeepCount(pattern, rows[..|rows| - 1], r);
      assert rows == rows[..|rows| - 1] + [rows[|rows| - 1]];
    }
  }

  lemma {:induction false} SelectFinds(pattern: Pair, rows: seq<Pair>)
    ensures Select(pattern, rows) != [] <==> exists i :: 0 <= i < |rows| && Matches(pattern, rows[i])
  {
    if rows != [] {
      SelectFinds(pattern, rows[..|rows| - 1]);
    }
  }

  // A wider removal makes a narrower one before it unnoticeable.
  lemma {:induction false} KeepAbsorbs(wide: Pair, narrow: Pair, rows: seq<Pair>)
    requires forall r: Pair :: Matches(narrow, r) ==> Matches(wide, r)
    ensures Keep(wide, Keep(narrow, rows)) == Keep(wide, rows)
  {
    if rows != [] {
      var last := rows[|rows| - 1];
      KeepAbsorbs(wide, narrow, rows[..|rows| - 1]);
      KeepAppend(wide, Keep(narrow, rows[..|rows| - 1]), if Matches(narrow, last) then [] else [last]);
      assert Keep(wide, []) == [];
      assert [last][..0] == [];
      assert Keep(wide, [last]) == Keep(wide, []) + if Matches(wide, last) then [] else [last];
    }
  }

  // ---- quads ----

  lemma SAdded(trees: Trees, q: Quad, x: Quad)
    requires q.p in trees
    ensures SCopies(AddTo(trees, q.p, q.s, Pair(q.m, q.o)), x) == SCopies(trees, x) + if x == q then 1 else 0
  {
    AddedRows(trees, q.p, q.s, Pair(q.m, q.o), x.p, x.s);
  }

  lemma OAdded(trees: Trees, q: Quad, x: Quad)
    requires q.p in trees
    ensures OCopies(AddTo(trees, q.p, q.o, Pair(q.m, q.s)), x) == OCopies(trees, x) + if x == q then 1 else 0
  {
    AddedRows(trees, q.p, q.o, Pair(q.m, q.s), x.p, x.o);
  }

  // The quads a deletion takes out of the subject trees: there the subject is a key, not a pattern.
  predicate SHit(d: Quad, x: Quad) {
    x.p == d.p && x.s == d.s && Matches(Pair(d.m, d.o), Pair(x.m, x.o))
  }

  // The quads it takes out of the object trees.
  predicate OHit(d: Quad, x: Quad) {
    x.p == d.p && x.o == d.o && Matches(Pair(d.m, d.s), Pair(x.m, x.s))
  }

  lemma SRemoved(trees: Trees, d: Quad, x: Quad)
    ensures SCopies(RemoveFrom(trees, d.p, d.s, Pair(d.m, d.o)), x) == if SHit(d, x) then 0 else SCopies(trees, x)
  {
    RemovedRows(trees, d.p, d.s, Pair(d.m, d.o), x.p, x.s);
    KeepCount(Pair(d.m, d.o), RowsAt(trees, x.p, x.s), Pair(x.m, x.o));
  }

  lemma ORemoved(trees: Trees, d: Quad, x: Quad)
    ensures OCopies(RemoveFrom(trees, d.p, d.o, Pair(d.m, d.s)), x) == if OHit(d, x) then 0 else OCopies(trees, x)
  {
    RemovedRows(trees, d.p, d.o, Pair(d.m, d.s), x.p, x.o);
    KeepCount(Pair(d.m, d.s), RowsAt(trees, x.p, x.o), Pair(x.m, x.s));
  }

  // The quads a pattern of four, any of which may be the wildcard, stands for.
  predicate Meant(d: Quad, x: Quad) {
    x.p == d.p && (d.s == RID_NULL || d.s == x.s) && (d.o == RID_NULL || d.o == x.o) && (d.m == RID_NULL || d.m == x.m)
  }

  // Neither or both of subject and object are left open.
  predicate Balanced(d: Quad) {
    d.s == RID_NULL <==> d.o == RID_NULL
  }

  // Deleting a pattern keeps the two families in agreement exactly when it is balanced or means
  // nothing that is stored.
  lemma DeletionAgrees(st: Trees, ot: Trees, d: Quad)
    requires Agree(st, ot) && AllStorable(st)
    ensures
      var st', ot' := RemoveFrom(st, d.p, d.s, Pair(d.m, d.o)), RemoveFrom(ot, d.p, d.o, Pair(d.m, d.s));
      Agree(st', ot') <==> Balanced(d) || forall x: Quad {:trigger SCopies(st, x)} ::
        Meant(d, x) ==> SCopies(st, x) == 0
  {
    var st', ot' := RemoveFrom(st, d.p, d.s, Pair(d.m, d.o)), RemoveFrom(ot, d.p, d.o, Pair(d.m, d.s));
    forall x: Quad
      ensures SCopies(st', x) == if SHit(d, x) then 0 else SCopies(st, x)
      ensures OCopies(ot', x) == if OHit(d, x) then 0 else OCopies(ot, x)
      ensures SCopies(st, x) == OCopies(ot, x) && (SCopies(st, x) > 0 ==> Storable(x))
      ensures SCopies(st, x) > 0 && !Balanced(d) && Meant(d, x) ==> SCopies(st', x) != OCopies(ot', x)
      ensures SCopies(st, x) > 0 && !Meant(d, x) ==> SCopies(st', x) == OCopies(ot', x)
    {
      SRemoved(st, d, x);
      ORemoved(ot, d, x);
    }
  }

  // Deleting a fully given triple takes out exactly the quads it means, from both families.
  lemma DeletionExact(st: Trees, ot: Trees, d: Quad, x: Quad)
    requires d.s != RID_NULL && d.o != RID_NULL
    ensures SCopies(RemoveFrom(st, d.p, d.s, Pair(d.m, d.o)), x) == if Meant(d, x) then 0 else SCopies(st, x)
    ensures OCopies(RemoveFrom(ot, d.p, d.o, Pair(d.m, d.s)), x) == if Meant(d, x) then 0 else OCopies(ot, x)
  {
    SRemoved(st, d, x);
    ORemoved(ot, d, x);
  }

  // A search for a storable triple finds it exactly when a copy is there.
  lemma InIndexIff(st: Trees, q: Quad)
    requires q.m != RID_NULL && q.o != RID_NULL
    ensures InIndex(st, q.m, Triple(q.s, q.p, q.o)) <==> SCopies(st, q) > 0
  {
    var rows := RowsAt(st, q.p, q.s);
    SelectFinds(Pair(q.m, q.o), rows);
    if SCopies(st, q) > 0 {
      assert Pair(q.m, q.o) in rows;
      var i :| 0 <= i < |rows| && rows[i] == Pair(q.m, q.o);
    }
    if i :| 0 <= i < |rows| && Matches(Pair(q.m, q.o), rows[i]) {
      assert rows[i] == Pair(q.m, q.o);
    }
  }
}
