/**
  Reading a predicate tree: the iterator over the rows of one key, and the traversal of all keys.
 */
module TreeScan {
  import opened Rids
  import opened Addresses
  import opened Slots
  import opened TreeShape
  import opened RowTable
  import opened PairTree

  lemma {:induction false} SelectAppend(pattern: Pair, a: seq<Pair>, b: seq<Pair>)
    ensures Select(pattern, a + b) == Select(pattern, a) + Select(pattern, b)
    decreases |b|
  {
    if b == [] {
      assert a + b == a;
    } else {
      var n := |b| - 1;
      assert (a + b)[..|a + b| - 1] == a + b[..n];
      SelectAppend(pattern, a, b[..n]);
    }
  }

  lemma SelectFirst(pattern: Pair, rows: seq<Pair>)
    requires rows != []
    ensures Select(pattern, rows) == (if Matches(pattern, rows[0]) then [rows[0]] else []) + Select(pattern, rows[1..])
  {
    assert rows == [rows[0]] + rows[1..];
    SelectAppend(pattern, [rows[0]], rows[1..]);
    assert Select(pattern, [rows[0]]) == if Matches(pattern, rows[0]) then [rows[0]] else [];
  }

  // A cursor in the chain of one key: `block` is the next row, and `rest` the rows still to come.
  class Cursor {
    const pt: PTree
    var pk: Rid
    var block: nat
    ghost var rest: seq<Pair>

    constructor (pt: PTree)
      ensures this.pt == pt && block == 0 && rest == []
    {
      this.pt := pt;
      pk, block, rest := 0, 0, [];
    }

    ghost predicate Valid()
      reads this, pt, pt.table
    {
      && pt.Valid()
      && |rest| <= |pt.table.ids(pt.Owner(pk))|
      && rest == pt.Rows(pk)[|pt.Rows(pk)| - |rest|..]
      && block == Head(pt.table.ids(pt.Owner(pk))[..|rest|])
    }

    // fs_ptable_get_row and fs_ptable_get_next.
    method Step() returns (row: Pair)
      requires Valid() && block != 0
      modifies this`block, this`rest
      ensures Valid() && old(rest) == [row] + rest
    {
      hide PTree.Valid, Keep, Select;
      ghost var ids := pt.table.ids(pt.Owner(pk));
      TableValid(pt);
      pt.table.InRange(pt.Owner(pk));
      var r := pt.table.rows[block];
      pt.table.Linkage(pt.Owner(pk), |rest| - 1);
      row, block := r.data, r.cont;
      rest := rest[1..];
    }

    // Puts the cursor at the head of the chain of `pk`.
    method Place(pk: Rid, l: nat)
      requires pt.Valid() && pt.LeafFound(pk, l) && LeafOf(pt.slots, pt.at, pt.home, pk) == pt.slots[l]
      modifies this
      ensures Valid() && rest == pt.Rows(pk) && this.pk == pk
    {
      assert pt.ChainOk(pk, {});
      this.pk := pk;
      block := pt.slots[l].block;
      rest := pt.Rows(pk);
      assert pt.table.ids(pt.Owner(pk))[..|rest|] == pt.table.ids(pt.Owner(pk));
    }

    lemma Nothing()
      requires pt.Valid() && rest == [] && block == 0
      ensures Valid()
    {
    }

    lemma AtEnd()
      requires Valid()
      ensures block == 0 <==> rest == []
    {
      TableValid(pt);
      pt.table.InRange(pt.Owner(pk));
    }

    // fs_ptree_it_next: the next row that matches.
    method NextMatch(pattern: Pair) returns (more: bool, row: Pair)
      requires Valid()
      modifies this`block, this`rest
      ensures Valid()
      ensures more ==> Select(pattern, old(rest)) == [row] + Select(pattern, rest) && |rest| < |old(rest)|
      ensures !more ==> Select(pattern, old(rest)) == [] && rest == [] && block == 0
    {
      hide PTree.Valid, Valid, Select;
      more, row := false, Pair(0, 0);
      while block != 0 && !more
        invariant Valid()
        invariant !more ==> Select(pattern, old(rest)) == Select(pattern, rest) && |rest| <= |old(rest)|
        invariant more ==> Select(pattern, old(rest)) == [row] + Select(pattern, rest) && |rest| < |old(rest)|
        decreases |rest|
      {
        ghost var before := rest;
        row := Step();
        SelectFirst(pattern, before);
        more := Matches(pattern, row);
      }
      if !more {
        AtEnd();
        SelectNone(pattern);
      }
    }
  }

  lemma SelectNone(pattern: Pair)
    ensures Select(pattern, []) == []
  {
  }

  // fs_ptree_search and the loop over its iterator.
  method Search(pt: PTree, pk: Rid, pattern: Pair) returns (out: seq<Pair>)
    requires pt.Valid()
    ensures out == Select(pattern, pt.Rows(pk))
  {
    hide PTree.Structure, PTree.Chains, PTree.Rows, Select, Cursor.Valid;
    out := [];
    pt.KeysHaveRows(pk);
    SelectNone(pattern);
    var l := pt.GetLeaf(pk);
    if l != 0 {
      pt.KeyHere(pk);
      var it := new Cursor(pt);
      it.Place(pk, l);
      out := Drain(it, pattern);
    }
  }

  method Drain(it: Cursor, pattern: Pair) returns (out: seq<Pair>)
    requires it.Valid()
    modifies it
    ensures out == Select(pattern, old(it.rest))
  {
    hide Select, Cursor.Valid;
    out := [];
    ghost var all := Select(pattern, it.rest);
    var more, row := it.NextMatch(pattern);
    while more
      invariant it.Valid()
      invariant all == out + if more then [row] + Select(pattern, it.rest) else []
      decreases more, |it.rest|
    {
      out := out + [row];
      more, row := it.NextMatch(pattern);
    }
  }

  lemma TableValid(pt: PTree)
    requires pt.Valid()
    ensures pt.table.Valid()
  {
  }

  // What a traversal has still to visit: `on` gives, for each node on the stack, the first branch not
  // yet looked at. A position is pending exactly if its parent is pending, or is on the stack and has
  // not got to it.
  ghost predicate PendingAt(at: Layout, on: map<Addr, nat>, pending: set<Addr>, q: Addr) {
    q in pending <==>
    && q in at && q.level > 0
    && (Parent(q) in pending || (Parent(q) in on && on[Parent(q)] <= Branch(q)))
  }

  ghost predicate Frontier(at: Layout, on: map<Addr, nat>, pending: set<Addr>) {
    && (forall q {:trigger PendingAt(at, on, pending, q)} :: PendingAt(at, on, pending, q))
    && (forall q :: q in on ==> q in at && at[q].Node? && q !in pending)
  }

  // Looking at branch `b` of the node at `a`: what is there, if anything, is no longer pending; if it
  // is a node it goes on the stack.
  lemma Look(at: Layout, on: map<Addr, nat>, pending: set<Addr>, a: Addr, b: nat, on': map<Addr, nat>,
             pending': set<Addr>)
    requires Frontier(at, on, pending)
    requires a in on && on[a] == b < BRANCHES
    requires Child(a, b) in at && at[Child(a, b)].Leaf? ==> forall x :: x in at && x.level > 0 ==>
      Parent(x) != Child(a, b)
    requires pending' == pending - {Child(a, b)}
    requires on' ==
      if Child(a, b) in at && at[Child(a, b)].Node? then on[a := b + 1][Child(a, b) := 0] else on[a := b + 1]
    ensures Child(a, b) in at <==> Child(a, b) in pending
    ensures Child(a, b) !in on
    ensures Frontier(at, on', pending')
  {
    var c := Child(a, b);
    assert PendingAt(at, on, pending, c);
    assert PendingAt(at, on, pending, a);
    forall q
      ensures PendingAt(at, on', pending', q)
    {
      assert PendingAt(at, on, pending, q);
      if q.level > 0 {
        ChildOfParent(q);
      }
    }
  }

  lemma Leave(at: Layout, on: map<Addr, nat>, pending: set<Addr>, a: Addr)
    requires Frontier(at, on, pending)
    requires a in on && on[a] >= BRANCHES
    ensures Frontier(at, on - {a}, pending)
  {
    forall q
      ensures PendingAt(at, on - {a}, pending, q)
    {
      assert PendingAt(at, on, pending, q);
    }
  }

  // With an empty stack nothing is pending.
  lemma {:induction false} NonePending(at: Layout, pending: set<Addr>, q: Addr)
    requires Frontier(at, map[], pending)
    ensures q !in pending
    decreases q.level
  {
    assert PendingAt(at, map[], pending, q);
    if q.level > 0 {
      NonePending(at, pending, Parent(q));
    }
  }

  // At the start everything but the root is pending.
  lemma {:induction false} AllPending(slots: seq<Slot>, at: Layout, home: Homes, role: seq<Role>)
    requires Shape(slots, at, home, role)
    ensures Frontier(at, map[TOP := 0], at.Keys - {TOP})
  {
    forall q
      ensures PendingAt(at, map[TOP := 0], at.Keys - {TOP}, q)
    {
      assert q in at ==> AddrOk(slots, at, home, role, q);
    }
  }

  // An entry of the traversal's stack.
  datatype TreePos = TreePos(node: nat, branch: nat)

  // The stack lists nodes of the tree, once each. Except for the top one, whose next branch is `top`,
  // each entry records the next branch to look at.
  ghost predicate StackOk(at: Layout, stack: seq<TreePos>, path: seq<Addr>, on: map<Addr, nat>, top: nat) {
    && |path| == |stack|
    && (forall i, j :: 0 <= i < j < |path| ==> path[i] != path[j])
    && (forall i :: 0 <= i < |path| ==> path[i] in on && path[i] in at && at[path[i]] == Node(stack[i].node))
    && (forall i :: 1 <= i < |path| ==> on[path[i]] == stack[i].branch)
    && (|path| > 0 ==> on[path[0]] == top)
    && (forall q :: q in on ==> q in path)
  }

  ghost function Top(stack: seq<TreePos>): nat {
    if stack == [] then 0 else stack[0].branch
  }

  // A node goes on the stack beneath the current entry.
  lemma PushBeneath(at: Layout, stack: seq<TreePos>, path: seq<Addr>, on: map<Addr, nat>, top: nat, c: Addr, n: nat)
    requires StackOk(at, stack, path, on, top) && stack != []
    requires c in at && at[c] == Node(n) && c !in on
    ensures StackOk(at, [stack[0], TreePos(n, 0)] + stack[1..], [path[0], c] + path[1..],
      on[path[0] := top + 1][c := 0], top + 1)
  {
  }

  lemma PopTop(at: Layout, stack: seq<TreePos>, path: seq<Addr>, on: map<Addr, nat>, top: nat)
    requires StackOk(at, stack, path, on, top) && stack != []
    ensures StackOk(at, stack[1..], path[1..], on - {path[0]}, Top(stack[1..]))
  {
    forall q | q in on - {path[0]}
      ensures q in path[1..]
    {
      var i :| 0 <= i < |path| && path[i] == q;
      assert path[1..][i - 1] == q;
    }
  }

  lemma Resume(at: Layout, stack: seq<TreePos>, path: seq<Addr>, on: map<Addr, nat>, top: nat)
    requires StackOk(at, stack, path, on, top) && stack != []
    ensures StackOk(at, stack[0 := stack[0].(branch := top)], path, on, top)
  {
  }

  class Traversal {
    const pt: PTree
    const filter: Pair
    const cur: Cursor
    var stack: seq<TreePos>
    ghost var path: seq<Addr>
    ghost var on: map<Addr, nat>
    ghost var pending: set<Addr>

    // fs_ptree_traverse.
    constructor (pt: PTree, model: Rid)
      requires pt.Valid()
      ensures this.pt == pt && filter == Pair(model, RID_NULL)
      ensures fresh(cur) && Valid()
      ensures forall k: Rid {:trigger Left(k)} :: Left(k) == Select(filter, pt.Rows(k))
    {
      this.pt, filter := pt, Pair(model, RID_NULL);
      cur := new Cursor(pt);
      stack := [TreePos(1, 0)];
      path, on, pending := [TOP], map[TOP := 0], pt.at.Keys - {TOP};
      new;
      hide Frontier, Select, PTree.Valid, PTree.Rows, Cursor.Valid, Left;
      StartFrontier(pt);
      cur.Nothing();
      forall k: Rid
        ensures Left(k) == Select(filter, pt.Rows(k))
      {
        Opening(k);
      }
    }

    lemma Opening(k: Rid)
      requires pt.Valid() && cur.rest == [] && pending == pt.at.Keys - {TOP}
      ensures Left(k) == Select(filter, pt.Rows(k))
    {
      hide PTree.Structure, PTree.Chains, PTree.Rows;
      pt.KeysHaveRows(k);
      if k in pt.home {
        pt.KeyHere(k);
        pt.RootNode();
      }
    }

    ghost predicate Mid(top: nat)
      reads this, cur, pt, pt.table
    {
      && pt.Valid() && cur.pt == pt && cur.Valid()
      && StackOk(pt.at, stack, path, on, top)
      && Frontier(pt.at, on, pending)
      && (cur.rest != [] ==> cur.pk in pt.home && pt.home[cur.pk] !in pending)
    }

    ghost predicate Valid()
      reads this, cur, pt, pt.table
    {
      Mid(Top(stack))
    }

    // The rows of a key still to be returned.
    ghost function Left(k: Rid): seq<Pair>
      reads `pending, cur, pt, pt.table
    {
      (if k == cur.pk then Select(filter, cur.rest) else []) +
      (if k in pt.home && pt.home[k] in pending then Select(filter, pt.Rows(k)) else [])
    }

    // One branch of the top entry: an empty one is passed over, a node is pushed, a leaf is opened.
    method Visit(b: nat) returns (found: bool)
      requires Mid(b) && stack != [] && b < BRANCHES && cur.rest == []
      modifies this, cur
      ensures Mid(b + 1) && stack != [] && stack[0] == old(stack[0])
      ensures !found ==> cur.rest == []
      ensures pending < old(pending) || (pending == old(pending) && |stack| == |old(stack)| && !found)
      ensures found ==> pending < old(pending)
      ensures forall k: Rid {:trigger Left(k)} :: Left(k) == old(Left(k))
    {
      hide Mid, Left;
      TopBranch(b);
      var ref := pt.slots[stack[0].node].branch[b];
      found := ref != NULL && ref.Leaf?;
      if ref == NULL {
        PassBranch(b);
      } else if ref.Leaf? {
        OpenLeaf(b, ref.i);
      } else {
        PushNode(b, ref.i);
      }
    }

    // The branch is where the address says.
    lemma TopBranch(b: nat)
      requires Mid(b) && stack != [] && b < BRANCHES
      ensures path != [] && stack[0].node < |pt.slots| && pt.slots[stack[0].node].NodeSlot?
      ensures |pt.slots[stack[0].node].branch| == BRANCHES
      ensures
        var c, ref := Child(path[0], b), pt.slots[stack[0].node].branch[b];
        if ref == NULL then c !in pt.at else c in pt.at && pt.at[c] == ref
    {
      hide PTree.Structure, PTree.Chains, PTree.Rows, Cursor.Valid, Select, Frontier, StackOk;
      Entry(b);
      pt.BranchAt(path[0], b);
    }

    // The frontier once branch `b` of the top entry has been looked at.
    lemma Looked(b: nat)
      requires Mid(b) && stack != [] && b < BRANCHES && path != []
      ensures path[0] in on
      ensures
        var a, c := path[0], Child(path[0], b);
        var on' := if c in pt.at && pt.at[c].Node? then on[a := b + 1][c := 0] else on[a := b + 1];
        Frontier(pt.at, on', pending - {c}) && (c in pt.at <==> c in pending) && c !in on
    {
      hide PTree.Structure, PTree.Chains, PTree.Rows, Cursor.Valid, Select, Frontier, StackOk;
      Entry(b);
      ghost var a := path[0];
      ghost var c := Child(a, b);
      pt.BranchAt(a, b);
      LeafBelow(pt, c);
      ghost var on' := if c in pt.at && pt.at[c].Node? then on[a := b + 1][c := 0] else on[a := b + 1];
      Look(pt.at, on, pending, a, b, on', pending - {c});
    }

    method PassBranch(b: nat)
      requires Mid(b) && stack != [] && b < BRANCHES && cur.rest == [] && path != [] && Child(path[0], b) !in pt.at
      modifies `on
      ensures Mid(b + 1)
    {
      hide PTree.Structure, PTree.Chains, PTree.Rows, Cursor.Valid, Frontier, StackOk;
      Looked(b);
      Advance(b);
      assert pending - {Child(path[0], b)} == pending;
      on := on[path[0] := b + 1];
    }

    method OpenLeaf(b: nat, l: nat)
      requires Mid(b) && stack != [] && b < BRANCHES && cur.rest == [] && path != []
      requires Child(path[0], b) in pt.at && pt.at[Child(path[0], b)] == Leaf(l)
      modifies `on, `pending, cur
      ensures Mid(b + 1) && pending < old(pending)
      ensures forall k: Rid {:trigger Left(k)} :: Left(k) == old(Left(k))
    {
      hide PTree.Structure, PTree.Chains, PTree.Rows, Cursor.Valid, Select, Frontier, StackOk;
      ghost var c := Child(path[0], b);
      Looked(b);
      SelectNone(filter);
      Advance(b);
      LeafThere(c);
      var pk := pt.slots[l].pk;
      pt.KeyHere(pk);
      on, pending := on[path[0] := b + 1], pending - {c};
      cur.Place(pk, l);
      forall k: Rid
        ensures Left(k) == old(Left(k))
      {
        LeafKey(k, pk);
      }
    }

    lemma LeafThere(c: Addr)
      requires pt.Valid() && c in pt.at && pt.at[c].Leaf?
      ensures 0 < pt.at[c].i < |pt.slots| && pt.slots[pt.at[c].i].LeafSlot?
      ensures var pk := pt.slots[pt.at[c].i].pk; pk in pt.home && pt.home[pk] == c
    {
      pt.Here(c);
    }

    method PushNode(b: nat, n: nat)
      requires Mid(b) && stack != [] && b < BRANCHES && cur.rest == [] && path != []
      requires Child(path[0], b) in pt.at && pt.at[Child(path[0], b)] == Node(n)
      modifies `stack, `path, `on, `pending
      ensures Mid(b + 1) && stack != [] && stack[0] == old(stack[0]) && pending < old(pending)
      ensures forall k: Rid {:trigger Left(k)} :: Left(k) == old(Left(k))
    {
      hide PTree.Structure, PTree.Chains, PTree.Rows, Cursor.Valid, Select, Frontier, StackOk;
      ghost var c := Child(path[0], b);
      Looked(b);
      PushBeneath(pt.at, stack, path, on, b, c, n);
      on, pending := on[path[0] := b + 1][c := 0], pending - {c};
      stack := [stack[0], TreePos(n, 0)] + stack[1..];
      path := [path[0], c] + path[1..];
      forall k: Rid
        ensures Left(k) == old(Left(k))
      {
        if k in pt.home {
          pt.KeyHere(k);
        }
      }
    }

    // The for loop over the branches of the top entry, which is taken off the stack at its end.
    method ScanTop()
      requires Valid() && stack != [] && cur.rest == []
      modifies this, cur
      ensures Valid()
      ensures pending < old(pending) || (pending == old(pending) && |stack| < |old(stack)| && cur.rest == [])
      ensures forall k: Rid {:trigger Left(k)} :: Left(k) == old(Left(k))
    {
      hide PTree.Structure, PTree.Chains, PTree.Rows, Cursor.Valid, Select, Frontier, StackOk, Left;
      var b, found := stack[0].branch, false;
      while b < BRANCHES && !found
        invariant Mid(b) && stack != []
        invariant !found ==> cur.rest == []
        invariant pending < old(pending) || (pending == old(pending) && |stack| == |old(stack)| && !found)
        invariant forall k: Rid {:trigger Left(k)} :: Left(k) == old(Left(k))
        decreases BRANCHES - b, !found
      {
        found := Visit(b);
        b := b + 1;
      }
      Entry(b);
      if found {
        // the leaf's rows come first; the entry resumes with the next branch
        Resume(pt.at, stack, path, on, b);
        stack := stack[0 := stack[0].(branch := b)];
      } else {
        Leave(pt.at, on, pending, path[0]);
        PopTop(pt.at, stack, path, on, b);
        on := on - {path[0]};
        stack, path := stack[1..], path[1..];
      }
    }

    // The while loop over the rows of the open leaf.
    method Draw() returns (more: bool, row: Pair)
      requires Valid()
      modifies cur
      ensures Valid() && cur.pk == old(cur.pk)
      ensures more ==> |cur.rest| < |old(cur.rest)|
      ensures more ==>
        forall k: Rid {:trigger Left(k)} :: old(Left(k)) == if k == cur.pk then [row] + Left(k) else Left(k)
      ensures !more ==> cur.rest == [] && forall k: Rid {:trigger Left(k)} :: old(Left(k)) == Left(k)
    {
      hide PTree.Structure, PTree.Chains, PTree.Rows, Cursor.Valid, Select, Frontier, StackOk;
      ghost var rest := cur.rest;
      more, row := cur.NextMatch(filter);
      SelectNone(filter);
      forall k: Rid
        ensures old(Left(k)) == if more && k == cur.pk then [row] + Left(k) else Left(k)
      {
        var later := if k in pt.home && pt.home[k] in pending then Select(filter, pt.Rows(k)) else [];
        assert more ==> ([row] + Select(filter, cur.rest)) + later == [row] + (Select(filter, cur.rest) + later);
      }
    }

    // With the stack empty and the open leaf used up, nothing is left.
    lemma Finished(k: Rid)
      requires Valid() && stack == [] && cur.rest == []
      ensures Left(k) == []
    {
      assert on == map[];
      if k in pt.home {
        NonePending(pt.at, pending, pt.home[k]);
      }
    }

    // fs_ptree_traverse_next: the next row that passes the model filter, with the key of its leaf. It is
    // the first of the rows of that key still to come.
    method Next() returns (more: bool, key: Rid, row: Pair)
      requires Valid()
      modifies this, cur
      ensures Valid()
      ensures more ==> forall k: Rid {:trigger Left(k)} :: old(Left(k)) == if k == key then [row] + Left(k) else Left(k)
      ensures !more ==> forall k: Rid {:trigger Left(k)} :: old(Left(k)) == Left(k) == []
      ensures more ==>
        pending < old(pending) || (pending == old(pending) && |stack| <= |old(stack)| && |cur.rest| < |old(cur.rest)|)
    {
      hide PTree.Structure, PTree.Chains, PTree.Rows, Cursor.Valid, Select, Frontier, StackOk, Left, Mid;
      more, row := Draw();
      key := cur.pk;
      while !more && stack != []
        invariant Valid()
        invariant more ==>
          forall k: Rid {:trigger Left(k)} :: old(Left(k)) == if k == key then [row] + Left(k) else Left(k)
        invariant !more ==> cur.rest == [] && forall k: Rid {:trigger Left(k)} :: old(Left(k)) == Left(k)
        invariant pending < old(pending) || (pending == old(pending) && |stack| <= |old(stack)| && (more ==>
          |cur.rest| < |old(cur.rest)|))
        decreases !more, pending, |stack|
      {
        ScanTop();
        more, row := Draw();
        key := cur.pk;
      }
      if !more {
        forall k: Rid
          ensures old(Left(k)) == Left(k) == []
        {
          Finished(k);
        }
      }
    }

    lemma Entry(b: nat)
      requires StackOk(pt.at, stack, path, on, b)
      requires stack != []
      ensures path != [] && path[0] in on && path[0] in pt.at && pt.at[path[0]] == Node(stack[0].node)
      ensures on[path[0]] == b
    {
    }

    lemma Advance(b: nat)
      requires StackOk(pt.at, stack, path, on, b) && stack != []
      ensures path != [] && StackOk(pt.at, stack, path, on[path[0] := b + 1], b + 1)
    {
    }

    lemma LeafKey(k: Rid, pk: Rid)
      requires pt.Valid() && pk in pt.home
      ensures k in pt.home && pt.home[k] == pt.home[pk] ==> k == pk
    {
      pt.KeyHere(pk);
      if k in pt.home {
        pt.KeyHere(k);
      }
    }
  }

  lemma StartFrontier(pt: PTree)
    requires pt.Valid()
    ensures Frontier(pt.at, map[TOP := 0], pt.at.Keys - {TOP})
    ensures TOP in pt.at && pt.at[TOP] == Node(1)
  {
    AllPending(pt.slots, pt.at, pt.home, pt.role);
  }

  lemma LeafBelow(pt: PTree, c: Addr)
    requires pt.Valid()
    ensures c in pt.at && pt.at[c].Leaf? ==> forall x :: x in pt.at && x.level > 0 ==> Parent(x) != c
  {
    if c in pt.at && pt.at[c].Leaf? {
      NothingBelow(pt.slots, pt.at, pt.home, pt.role, c);
    }
  }

  // The rows reported for one key, in order.
  ghost function Of(out: seq<(Rid, Pair)>, k: Rid): seq<Pair> {
    if out == [] then []
    else
      var last := out[|out| - 1];
      Of(out[..|out| - 1], k) + if last.0 == k then [last.1] else []
  }

  lemma OfSnoc(out: seq<(Rid, Pair)>, key: Rid, row: Pair, k: Rid)
    ensures Of(out + [(key, row)], k) == Of(out, k) + if key == k then [row] else []
  {
    assert (out + [(key, row)])[..|out|] == out;
  }

  lemma Regroup<T>(a: seq<T>, b: seq<T>, c: seq<T>, d: seq<T>)
    ensures a + b + (c + d) == (a + b) + c + d
  {
  }

  method Exhaust(it: Traversal) returns (out: seq<(Rid, Pair)>)
    requires it.Valid()
    modifies it, it.cur
    ensures forall k: Rid {:trigger Of(out, k)} :: Of(out, k) == old(it.Left(k))
  {
    hide Of, Traversal.Left, Traversal.Valid;
    out := [];
    OfNothing();
    var more, key, row := it.Next();
    while more
      invariant it.Valid()
      invariant forall k: Rid {:trigger it.Left(k)} ::
                  old(it.Left(k)) == Of(out, k) + (if more && k == key then [row] else []) + it.Left(k)
      invariant !more ==> forall k: Rid {:trigger it.Left(k)} :: it.Left(k) == []
      decreases more, it.pending, |it.cur.rest|
    {
      ghost var before, key1, row1 := out, key, row;
      out := out + [(key, row)];
      label drawn:
      more, key, row := it.Next();
      forall k: Rid
        ensures old(it.Left(k)) == Of(out, k) + (if more && k == key then [row] else []) + it.Left(k)
      {
        OfSnoc(before, key1, row1, k);
        Regroup(Of(before, k), if k == key1 then [row1] else [], if more && k == key then [row] else [], it.Left(k));
        assert old@drawn(it.Left(k)) == (if more && k == key then [row] else []) + it.Left(k);
      }
    }
    forall k: Rid
      ensures Of(out, k) == old(it.Left(k))
    {
      assert it.Left(k) == [];
    }
  }

  lemma OfNothing()
    ensures forall k: Rid {:trigger Of([], k)} :: Of([], k) == []
  {
  }

  // A traversal run to its end: every row of every key that passes the model filter is reported
  // exactly once, with its key, and nothing else is.
  method Traverse(pt: PTree, model: Rid) returns (out: seq<(Rid, Pair)>)
    requires pt.Valid()
    ensures forall k: Rid {:trigger Of(out, k)} :: Of(out, k) == Select(Pair(model, RID_NULL), pt.Rows(k))
  {
    hide Of, Traversal.Left, Traversal.Valid, PTree.Valid, Select;
    var it := new Traversal(pt, model);
    out := Exhaust(it);
  }
}
