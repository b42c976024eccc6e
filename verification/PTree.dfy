/**
  The radix tree of one predicate: from a 64-bit key to a chain of rows in the shared row table.
 */
module PairTree {
  import opened Rids
  import opened Addresses
  import opened Slots
  import opened TreeShape
  import opened RowTable

  // A leaf records the head and the length of its chain; a key without a leaf has no rows. Only
  // while a row is being added or removed may a leaf have an empty chain.
  ghost predicate Matched(leaf: Slot, ids: seq<nat>, mayBeEmpty: bool) {
    if leaf.LeafSlot? then leaf.block == Head(ids) && leaf.length == |ids| && (ids != [] || mayBeEmpty)
    else ids == []
  }

  // What remove_all_recurse tells the caller to do with the node it worked on.
  datatype Action = Stay | Cull | Lift

  // What a branch holds after its leaves were pruned. A leaf lifted from below counts as a node.
  datatype Remnant = Nothing | LeafLeft | NodeLeft

  class PTree {
    const table: PTable
    ghost const id: nat       // names this tree's chains in the shared table

    var header: Header        // all of the file's header but the row count
    var count: int
    var slots: seq<Slot>

    ghost var at: Layout
    ghost var home: Homes
    ghost var role: seq<Role>
    ghost var spare: Spare

    // Every slot ever handed out is in the tree or on a free list: node 0 and the root are counted
    // as nodes, and two leaves are reserved.
    ghost predicate Structure()
      reads `header, `slots, `at, `home, `role, `spare
    {
      && Allocator(header, slots, role, spare)
      && Shape(slots, at, home, role)
      && header.nodeCount == |at| - |home| + |spare.nodes| + 1
      && header.leafCount == |home| + |spare.leaves| + 2
    }

    // fs_ptree_write_header: an empty tree, with one arena of each kind. Slot 0 is the null node, slot 1
    // the root, and the first slot of the leaf arena is kept as the null leaf.
    constructor (table: PTable, ghost id: nat)
      requires table.Valid()
      requires forall k: Rid :: table.ids(Chain(id, k)) == []
      ensures this.table == table && this.id == id
      ensures Valid() && Contents() == map[]
    {
      this.table, this.id := table, id;
      header, count := NEW_HEADER, 0;
      slots := NewSlots();
      at, home, role, spare := map[TOP := Node(1)], map[], NewRoles(), Spare([], []);
      new;
      NewTree();
      hide NewSlots, NewRoles;
      forall k: Rid
        ensures ChainOk(k, {})
      {
      }
    }

    method GrowNodes()
      requires Allocator(header, slots, role, spare)
      requires header.nodeBase == header.nodeSize
      modifies this`header, this`slots, this`role
      ensures Allocator(header, slots, role, spare)
      ensures header == GrowNodeHeader(old(header), |old(slots)|)
      ensures Edited(old(slots), old(role), slots, role, {})
      ensures |slots| == |old(slots)| + SIZE_INC
    {
      GrowNodeStep(header, slots, role, spare);
      header := header.(nodeBase := |slots|, nodeSize := |slots| + SIZE_INC, nodeAlloc := header.nodeAlloc + SIZE_INC);
      slots := slots + seq(SIZE_INC, _ => Blank);
      role := role + seq(SIZE_INC, _ => FreshNode);
    }

    method ReuseNode(ghost a: Addr) returns (n: nat)
      requires Allocator(header, slots, role, spare)
      requires header.nodeFree != NULL
      modifies this`header, this`slots, this`role, this`spare
      ensures Allocator(header, slots, role, spare)
      ensures HandedOut(old(slots), old(role), slots, role, n, a, EMPTY_NODE)
      ensures header.nodeCount - |spare.nodes| == old(header.nodeCount - |spare.nodes|) + 1
      ensures header.leafCount == old(header.leafCount) && spare.leaves == old(spare.leaves)
    {
      n := header.nodeFree.i;
      ReuseNodeStep(header, slots, role, spare, a);
      header := header.(nodeFree := slots[n].branch[0]);
      slots := slots[n := EMPTY_NODE];
      role, spare := role[n := Used(a)], spare.(nodes := spare.nodes[..|spare.nodes| - 1]);
    }

    method FreshNodeSlot(ghost a: Addr) returns (n: nat)
      requires Allocator(header, slots, role, spare)
      modifies this`header, this`slots, this`role, this`spare
      ensures Allocator(header, slots, role, spare)
      ensures HandedOut(old(slots), old(role), slots, role, n, a, EMPTY_NODE)
      ensures header.nodeCount - |spare.nodes| == old(header.nodeCount - |spare.nodes|) + 1
      ensures header.leafCount == old(header.leafCount) && spare.leaves == old(spare.leaves)
    {
      if header.nodeBase == header.nodeSize {
        GrowNodes();
      }
      n := header.nodeBase;
      FreshNodeStep(header, slots, role, spare, a);
      header := header.(nodeBase := n + 1, nodeCount := header.nodeCount + 1);
      slots := slots[n := EMPTY_NODE];
      role := role[n := Used(a)];
    }

    // fs_ptree_new_node: from the free list, or the next slot of the node arena.
    method NewNode(ghost a: Addr) returns (n: nat)
      requires Allocator(header, slots, role, spare)
      modifies this`header, this`slots, this`role, this`spare
      ensures Allocator(header, slots, role, spare)
      ensures HandedOut(old(slots), old(role), slots, role, n, a, EMPTY_NODE)
      ensures header.nodeCount - |spare.nodes| == old(header.nodeCount - |spare.nodes|) + 1
      ensures header.leafCount == old(header.leafCount) && spare.leaves == old(spare.leaves)
    {
      if header.nodeFree != NULL {
        n := ReuseNode(a);
      } else {
        n := FreshNodeSlot(a);
      }
    }

    method GrowLeaves()
      requires Allocator(header, slots, role, spare)
      requires header.leafBase == header.leafSize
      modifies this`header, this`slots, this`role
      ensures Allocator(header, slots, role, spare)
      ensures header == GrowLeafHeader(old(header), |old(slots)|)
      ensures Edited(old(slots), old(role), slots, role, {})
      ensures |slots| == |old(slots)| + SIZE_INC
    {
      GrowLeafStep(header, slots, role, spare);
      header := header.(leafBase := |slots|, leafSize := |slots| + SIZE_INC, leafAlloc := header.leafAlloc + SIZE_INC);
      slots := slots + seq(SIZE_INC, _ => Blank);
      role := role + seq(SIZE_INC, _ => FreshLeaf);
    }

    method ReuseLeaf(ghost a: Addr) returns (n: nat)
      requires Allocator(header, slots, role, spare)
      requires header.leafFree != 0
      modifies this`header, this`slots, this`role, this`spare
      ensures Allocator(header, slots, role, spare)
      ensures HandedOut(old(slots), old(role), slots, role, n, a, EMPTY_LEAF)
      ensures header.leafCount - |spare.leaves| == old(header.leafCount - |spare.leaves|) + 1
      ensures header.nodeCount == old(header.nodeCount) && spare.nodes == old(spare.nodes)
    {
      n := header.leafFree;
      ReuseLeafStep(header, slots, role, spare, a);
      header := header.(leafFree := slots[n].block);
      slots := slots[n := EMPTY_LEAF];
      role, spare := role[n := Used(a)], spare.(leaves := spare.leaves[..|spare.leaves| - 1]);
    }

    method FreshLeafSlot(ghost a: Addr) returns (n: nat)
      requires Allocator(header, slots, role, spare)
      modifies this`header, this`slots, this`role, this`spare
      ensures Allocator(header, slots, role, spare)
      ensures HandedOut(old(slots), old(role), slots, role, n, a, EMPTY_LEAF)
      ensures header.leafCount - |spare.leaves| == old(header.leafCount - |spare.leaves|) + 1
      ensures header.nodeCount == old(header.nodeCount) && spare.nodes == old(spare.nodes)
    {
      if header.leafBase == header.leafSize {
        GrowLeaves();
      }
      n := header.leafBase;
      FreshLeafStep(header, slots, role, spare, a);
      header := header.(leafBase := n + 1, leafCount := header.leafCount + 1);
      slots := slots[n := EMPTY_LEAF];
      role := role[n := Used(a)];
    }

    // fs_ptree_new_leaf: from the free list, or the next slot of the leaf arena.
    method NewLeaf(ghost a: Addr) returns (n: nat)
      requires Allocator(header, slots, role, spare)
      modifies this`header, this`slots, this`role, this`spare
      ensures Allocator(header, slots, role, spare)
      ensures HandedOut(old(slots), old(role), slots, role, n, a, EMPTY_LEAF)
      ensures header.leafCount - |spare.leaves| == old(header.leafCount - |spare.leaves|) + 1
      ensures header.nodeCount == old(header.nodeCount) && spare.nodes == old(spare.nodes)
    {
      if header.leafFree != 0 {
        n := ReuseLeaf(a);
      } else {
        n := FreshLeafSlot(a);
      }
    }


    // fs_ptree_free_node.
    method FreeNode(i: nat)
      requires Allocator(header, slots, role, spare)
      requires 0 < i < |slots| && role[i].Used? && slots[i].NodeSlot? && |slots[i].branch| == BRANCHES
      modifies this`header, this`slots, this`role, this`spare
      ensures Allocator(header, slots, role, spare)
      ensures Edited(old(slots), old(role), slots, role, {i}) && |slots| == |old(slots)| && !role[i].Used?
      ensures header == old(header).(nodeFree := Node(i)) && spare == old(spare).(nodes := old(spare.nodes) + [i])
    {
      FreeNodeStep(header, slots, role, spare, i);
      slots := slots[i := NodeSlot(slots[i].branch[0 := header.nodeFree])];
      header := header.(nodeFree := Node(i));
      role, spare := role[i := Role.FreeNode(|spare.nodes|)], spare.(nodes := spare.nodes + [i]);
    }

    // fs_ptree_free_leaf.
    method FreeLeaf(i: nat)
      requires Allocator(header, slots, role, spare)
      requires 0 < i < |slots| && role[i].Used? && slots[i].LeafSlot?
      modifies this`header, this`slots, this`role, this`spare
      ensures Allocator(header, slots, role, spare)
      ensures Edited(old(slots), old(role), slots, role, {i}) && |slots| == |old(slots)| && !role[i].Used?
      ensures header == old(header).(leafFree := i) && spare == old(spare).(leaves := old(spare.leaves) + [i])
    {
      FreeLeafStep(header, slots, role, spare, i);
      slots := slots[i := slots[i].(block := header.leafFree)];
      header := header.(leafFree := i);
      role, spare := role[i := Role.FreeLeaf(|spare.leaves|)], spare.(leaves := spare.leaves + [i]);
    }

    // The node in slot `pos` is the one at `a`.
    ghost predicate NodeAt(pos: nat, a: Addr)
      reads `slots, `at, `home, `role
    {
      a in at && at[a] == Node(pos) && AddrOk(slots, at, home, role, a)
    }

    lemma Here(a: Addr)
      requires Structure() && a in at
      ensures AddrOk(slots, at, home, role, a)
    {
    }

    lemma KeyHere(key: Rid)
      requires Structure() && key in home
      ensures HomeOk(slots, at, home, key)
    {
    }

    // What branch `b` of the node at `a` holds.
    lemma BranchAt(a: Addr, b: nat)
      requires Structure() && a in at && at[a].Node? && b < BRANCHES
      ensures AddrOk(slots, at, home, role, a)
      ensures BranchOk(at, a, b, slots[at[a].i].branch[b])
      ensures Child(a, b) in at ==> AddrOk(slots, at, home, role, Child(a, b))
    {
      Here(a);
      if Child(a, b) in at {
        Here(Child(a, b));
      }
    }

    // All leaves but that of `key` have the contents they had.
    twostate predicate LeavesKept(keys: set<Rid>)
      reads this
    {
      forall k: Rid {:trigger LeafOf(slots, at, home, k)} :: k !in keys ==>
        LeafOf(slots, at, home, k) == LeafOf(old(slots), old(at), old(home), k)
    }

    // A new node on the empty branch `b` of the node at `a`.
    method PlantNode(pos: nat, b: nat, ghost a: Addr) returns (n: nat)
      requires Structure() && NodeAt(pos, a)
      requires b < BRANCHES && a.level + 1 < LEVELS && slots[pos].branch[b] == NULL
      modifies this
      ensures Structure() && count == old(count)
      ensures at == old(at)[Child(a, b) := Node(n)] && home == old(home) && n != 0
      ensures LeavesKept({})
    {
      hide Shape, Allocator;
      ghost var c := Child(a, b);
      BranchAt(a, b);
      n := NewNode(c);
      ghost var slots1 := slots;
      slots := SetBranch(slots, pos, b, Node(n));
      TreeShape.AttachNode(old(slots), at, home, old(role), a, b, n, slots, role);
      AllocatorFrame(header, slots1, slots, role, role, spare);
      at := at[c := Node(n)];
    }

    // A new leaf for `pk` on the empty branch `b` of the node at `a`.
    method PlantLeaf(pos: nat, b: nat, pk: Rid, ghost a: Addr) returns (n: nat)
      requires Structure() && NodeAt(pos, a)
      requires b < BRANCHES && slots[pos].branch[b] == NULL
      requires Child(a, b) == Path(pk, a.level + 1) && pk !in home
      modifies this
      ensures Structure() && count == old(count)
      ensures home == old(home)[pk := Child(a, b)] && n != 0 && at == old(at)[Child(a, b) := Leaf(n)]
      ensures LeavesKept({pk}) && LeafOf(slots, at, home, pk) == LeafSlot(pk, 0, 0)
    {
      hide Shape, Allocator;
      ghost var c := Child(a, b);
      BranchAt(a, b);
      n := NewLeaf(c);
      ghost var slots1 := slots;
      slots := slots[n := slots[n].(pk := pk)];
      slots := SetBranch(slots, pos, b, Leaf(n));
      TreeShape.AttachLeaf(old(slots), at, home, old(role), a, b, n, pk, slots, role);
      AllocatorFrame(header, slots1, slots, role, role, spare);
      at, home := at[c := Leaf(n)], home[pk := c];
    }

    // The leaf on branch `b` of the node at `a` moves below a new node.
    method Split(pos: nat, b: nat, level: nat, ghost a: Addr) returns (n: nat)
      requires Structure() && NodeAt(pos, a) && level == a.level
      requires b < BRANCHES && a.level + 1 < LEVELS && slots[pos].branch[b].Leaf?
      modifies this
      ensures Structure() && count == old(count)
      ensures home.Keys == old(home).Keys && n != 0
      ensures a in at && at[a] == Node(pos) && Child(a, b) in at && at[Child(a, b)] == Node(n)
      ensures exists d: nat {:trigger Child(Child(a, b), d)} ::
        d < BRANCHES && at == old(at)[Child(a, b) := Node(n)][Child(Child(a, b), d) := old(slots)[pos].branch[b]]
      ensures LeavesKept({})
    {
      hide Shape, Allocator;
      ghost var c := Child(a, b);
      BranchAt(a, b);
      var leaf := slots[pos].branch[b];
      var existpk := slots[leaf.i].pk;
      KeyHere(existpk);
      var d := Digit(existpk, level + 1);
      n := NewNode(c);
      SplitWrites(old(slots), at, home, old(role), a, b, existpk, d, header, slots, role, spare, n);
      WriteSplit(pos, b, n, d, leaf, c, existpk);
    }

    // The writes of a split.
    method WriteSplit(pos: nat, b: nat, n: nat, d: nat, leaf: Ref, ghost c: Addr, ghost key: Rid)
      requires pos < |slots| && slots[pos].NodeSlot? && |slots[pos].branch| == BRANCHES && b < BRANCHES
      requires n < |slots| && slots[n].NodeSlot? && |slots[n].branch| == BRANCHES && d < BRANCHES
      requires pos != n && leaf.i < |role|
      modifies `slots, `role, `at, `home
      ensures slots == SetBranch(SetBranch(old(slots), pos, b, Node(n)), n, d, leaf)
      ensures role == old(role)[leaf.i := Used(Child(c, d))]
      ensures at == old(at)[c := Node(n)][Child(c, d) := leaf] && home == old(home)[key := Child(c, d)]
    {
      slots := SetBranch(slots, pos, b, Node(n));
      slots := SetBranch(slots, n, d, leaf);
      role := role[leaf.i := Used(Child(c, d))];
      at, home := at[c := Node(n)][Child(c, d) := leaf], home[key := Child(c, d)];
    }

    // The leaf on branch `b` of the node at `a` is given back.
    method DropLeaf(pos: nat, b: nat, ghost a: Addr, ghost key: Rid)
      requires Structure() && NodeAt(pos, a)
      requires b < BRANCHES && slots[pos].branch[b].Leaf?
      requires key in home && home[key] == Child(a, b)
      modifies this
      ensures Structure() && count == old(count)
      ensures home == old(home) - {key} && at == old(at) - {Child(a, b)}
      ensures LeavesKept({key}) && LeafOf(slots, at, home, key) == Blank
    {
      hide Shape, Allocator;
      ghost var c := Child(a, b);
      BranchAt(a, b);
      KeyHere(key);
      FreeLeaf(slots[pos].branch[b].i);
      ghost var slots1 := slots;
      slots := SetBranch(slots, pos, b, NULL);
      TreeShape.DetachLeaf(old(slots), at, home, old(role), a, b, key, slots, role);
      AllocatorFrame(header, slots1, slots, role, role, spare);
      SmallerMap(at, c);
      SmallerMap(home, key);
      at, home := at - {c}, home - {key};
    }

    // The node on branch `b` of the node at `a`, which has no children, is given back.
    method DropNode(pos: nat, b: nat, ghost a: Addr)
      requires Structure() && NodeAt(pos, a)
      requires b < BRANCHES && slots[pos].branch[b].Node? && slots[pos].branch[b] != NULL
      requires forall y: nat :: y < BRANCHES ==> Child(Child(a, b), y) !in at
      modifies this
      ensures Structure() && count == old(count)
      ensures home == old(home) && at == old(at) - {Child(a, b)} && LeavesKept({})
    {
      hide Shape, Allocator;
      ghost var c := Child(a, b);
      BranchAt(a, b);
      FreeNode(slots[pos].branch[b].i);
      ghost var slots1 := slots;
      slots := SetBranch(slots, pos, b, NULL);
      TreeShape.CullNode(old(slots), at, home, old(role), a, b, slots, role);
      AllocatorFrame(header, slots1, slots, role, role, spare);
      SmallerMap(at, c);
      at := at - {c};
    }

    // The first child of the node at `c`, given that `y` is its first branch in use.
    method FirstChild(n: nat, ghost c: Addr, ghost y: nat) returns (child: Ref)
      requires NodeAt(n, c)
      requires y < BRANCHES && Child(c, y) in at && at[Child(c, y)] != NULL
      requires forall z: nat :: z < y ==> Child(c, z) !in at
      ensures child == at[Child(c, y)]
    {
      var b := 0;
      while b < BRANCHES && slots[n].branch[b] == NULL
        invariant b <= y
      {
        assert BranchOk(at, c, b, slots[n].branch[b]);
        b := b + 1;
      }
      assert BranchOk(at, c, b, slots[n].branch[b]);
      child := slots[n].branch[b];
    }

    // The node on branch `b` of the node at `a` is replaced by its only child, a leaf.
    method Merge(pos: nat, b: nat, ghost y: nat, ghost a: Addr)
      requires Structure() && NodeAt(pos, a)
      requires b < BRANCHES && slots[pos].branch[b].Node? && slots[pos].branch[b] != NULL
      requires y < BRANCHES && Child(Child(a, b), y) in at && at[Child(Child(a, b), y)].Leaf?
      requires forall z: nat :: z < BRANCHES && z != y ==> Child(Child(a, b), z) !in at
      modifies this
      ensures Structure() && count == old(count)
      ensures home.Keys == old(home).Keys && LeavesKept({})
      ensures at == (old(at) - {Child(Child(a, b), y)})[Child(a, b) := old(at)[Child(Child(a, b), y)]]
    {
      hide Shape, Allocator;
      ghost var c := Child(a, b);
      ghost var e := Child(c, y);
      BranchAt(a, b);
      BranchAt(c, y);
      var subn := FirstChild(slots[pos].branch[b].i, c, y);
      ghost var key := slots[subn.i].pk;
      KeyHere(key);
      FreeNode(slots[pos].branch[b].i);
      MergeWrites(old(slots), at, home, old(role), a, b, y, key, header, slots, role, spare);
      assert subn == at[e] && home[key] == e && at[a].i == pos;
      WriteMerge(pos, b, subn, c, e, key);
    }

    // The writes of a merge.
    method WriteMerge(pos: nat, b: nat, subn: Ref, ghost c: Addr, ghost e: Addr, ghost key: Rid)
      requires pos < |slots| && slots[pos].NodeSlot? && |slots[pos].branch| == BRANCHES
      requires b < BRANCHES && subn.i < |role|
      modifies `slots, `role, `at, `home
      ensures slots == SetBranch(old(slots), pos, b, subn) && role == old(role)[subn.i := Used(c)]
      ensures at == (old(at) - {e})[c := subn] && home == old(home)[key := c]
    {
      slots := SetBranch(slots, pos, b, subn);
      role := role[subn.i := Used(c)];
      at, home := (at - {e})[c := subn], home[key := c];
    }

    // The node at level `i` on the path of `pk`.
    ghost predicate Reached(pk: Rid, i: nat, pos: nat)
      reads `slots, `at, `home, `role
    {
      i < LEVELS && NodeAt(pos, Path(pk, i))
    }

    lemma RootNode()
      requires Structure()
      ensures NodeAt(1, TOP)
    {
      Here(TOP);
    }

    lemma Root(pk: Rid)
      requires Structure()
      ensures Reached(pk, 0, 1)
    {
      PathTop(pk);
      RootNode();
    }

    // What the branch of `pk` out of the node at level `i` says about the next level.
    lemma Ahead(pk: Rid, i: nat, pos: nat)
      requires Structure() && Reached(pk, i, pos)
      ensures
        var ref, c := slots[pos].branch[Digit(pk, i)], Path(pk, i + 1);
        && c == Child(Path(pk, i), Digit(pk, i))
        && (ref == NULL <==> c !in at)
        && (ref != NULL ==> c in at && at[c] == ref && AddrOk(slots, at, home, role, c) && ref.i < |slots|)
        && (ref != NULL && ref.Node? ==> Reached(pk, i + 1, ref.i))
        && (ref.Leaf? ==> slots[ref.i].LeafSlot?)
        && (ref == NULL ==> pk !in home)
        && (ref.Leaf? ==> (pk in home <==> slots[ref.i].pk == pk) && (pk in home ==> home[pk] == c))
        && (ref.Leaf? && slots[ref.i].pk != pk ==> i + 1 < LEVELS)
    {
      PathStep(pk, i);
      var b, c := Digit(pk, i), Path(pk, i + 1);
      assert BranchOk(at, Path(pk, i), b, slots[pos].branch[b]);
      if slots[pos].branch[b] == NULL || slots[pos].branch[b].Leaf? {
        PathEnds(slots, at, home, role, pk, i);
      }
      if c in at {
        assert AddrOk(slots, at, home, role, c);
        if at[c].Leaf? {
          FullPath(pk, slots[at[c].i].pk);
        }
      }
    }

    // get_leaf: the leaf of a key, or 0.
    method GetLeaf(pk: Rid) returns (l: nat)
      requires Structure()
      ensures l != 0 <==> pk in home
      ensures l != 0 ==>
        home[pk] in at && at[home[pk]] == Leaf(l) && l < |slots| && LeafOf(slots, at, home, pk) == slots[l]
    {
      var pos: nat, i: nat, done := 1, 0, false;
      l := 0;
      Root(pk);
      while i < LEVELS && !done
        invariant !done ==> Reached(pk, i, pos)
        invariant done ==> (l != 0 <==> pk in home)
        invariant l != 0 ==> done && home[pk] in at && at[home[pk]] == Leaf(l) && l < |slots|
        decreases LEVELS - i, !done
      {
        Ahead(pk, i, pos);
        var newpos := slots[pos].branch[Digit(pk, i)];
        if newpos == NULL {
          done := true;
        } else if newpos.Leaf? {
          done := true;
          if slots[newpos.i].pk == pk {
            l := newpos.i;
          }
        } else {
          pos, i := newpos.i, i + 1;
        }
      }
    }

    // `l` is the leaf of `pk`.
    ghost predicate LeafFound(pk: Rid, l: nat)
      reads `slots, `at, `home, `role
    {
      pk in home && home[pk] in at && at[home[pk]] == Leaf(l) && 0 < l < |slots| && slots[l].LeafSlot?
    }

    // One round of the loop in get_or_create_leaf, at the node at level `i` on the path of `pk`: either
    // the leaf is found or made, or there is a node one level down, which may have been made here.
    // The first two levels below the root always hold nodes when first used. After a split the branch
    // is read again and leads to the new node.
    method Descend(pk: Rid, i: nat, pos: nat) returns (l: nat, next: nat)
      requires Structure() && Reached(pk, i, pos) && Bushy(at, Path(pk, i))
      modifies this
      ensures Structure() && count == old(count)
      ensures Bushy(at, if l == 0 then Path(pk, i + 1) else TOP)
      ensures l == 0 ==> Reached(pk, i + 1, next) && home.Keys == old(home).Keys && LeavesKept({})
      ensures l != 0 ==> LeafFound(pk, l) && home.Keys == old(home).Keys + {pk} && LeavesKept({pk})
      ensures l != 0 ==> LeafOf(slots, at, home, pk) ==
                         if pk in old(home) then LeafOf(old(slots), old(at), old(home), pk) else LeafSlot(pk, 0, 0)
    {
      Ahead(pk, i, pos);
      ghost var a, c := Path(pk, i), Path(pk, i + 1);
      var kbranch := Digit(pk, i);
      var newpos := slots[pos].branch[kbranch];
      l, next := 0, 0;
      if newpos == NULL {
        if i > 1 {
          l := PlantLeaf(pos, kbranch, pk, a);
          BushyMore(old(at), a, kbranch, Leaf(l));
        } else {
          next := PlantNode(pos, kbranch, a);
          BushyMore(old(at), a, kbranch, Node(next));
        }
      } else if newpos.Leaf? {
        BushyAll(at, a, kbranch);
        if slots[newpos.i].pk == pk {
          l := newpos.i;
        } else {
          next := Split(pos, kbranch, i, a);
          ghost var d: nat :| d < BRANCHES && at == old(at)[c := Node(next)][Child(c, d) := newpos];
          BushySplit(old(at), c, d, next, newpos);
          BushyBut(at, c);
        }
      } else {
        BushyAll(at, a, kbranch);
        BushyBut(at, c);
        next := newpos.i;
      }
      if c in at {
        Here(c);
      }
    }

    // get_or_create_leaf. The leaf is always found within 32 levels: 0, which the code returns when it
    // falls out of the loop, is never the result.
    method GetOrCreateLeaf(pk: Rid) returns (l: nat)
      requires Structure() && Bushy(at, TOP)
      modifies this
      ensures Structure() && count == old(count) && Bushy(at, TOP)
      ensures LeafFound(pk, l)
      ensures home.Keys == old(home).Keys + {pk}
      ensures LeavesKept({pk})
      ensures LeafOf(slots, at, home, pk) ==
              if pk in old(home) then LeafOf(old(slots), old(at), old(home), pk) else LeafSlot(pk, 0, 0)
    {
      hide Bushy;
      var pos: nat, i: nat := 1, 0;
      l := 0;
      Root(pk);
      PathTop(pk);
      while i < LEVELS && l == 0
        invariant i <= LEVELS && Structure() && count == old(count)
        invariant Bushy(at, if l == 0 then Path(pk, i) else TOP)
        invariant l == 0 ==> Reached(pk, i, pos) && home.Keys == old(home).Keys && LeavesKept({})
        invariant l != 0 ==> LeafFound(pk, l) && home.Keys == old(home).Keys + {pk} && LeavesKept({pk})
        invariant l != 0 ==> LeafOf(slots, at, home, pk) ==
                             if pk in old(home) then LeafOf(old(slots), old(at), old(home), pk) else LeafSlot(pk, 0, 0)
        decreases LEVELS - i, l == 0
      {
        assert LeafOf(slots, at, home, pk) == LeafOf(old(slots), old(at), old(home), pk);
        l, pos := Descend(pk, i, pos);
        i := i + 1;
      }
    }

    // Writes the block and length of a leaf.
    method SetLeaf(pk: Rid, l: nat, block: nat, length: nat)
      requires Structure() && LeafFound(pk, l)
      modifies this`slots
      ensures Structure() && LeafFound(pk, l)
      ensures LeavesKept({pk}) && LeafOf(slots, at, home, pk) == LeafSlot(pk, block, length)
    {
      assert HomeOk(slots, at, home, pk);
      WriteLeaf(slots, at, home, role, pk, block, length);
      AllocatorFrame(header, slots, slots[l := LeafSlot(pk, block, length)], role, role, spare);
      slots := slots[l := slots[l].(block := block, length := length)];
    }

    ghost function Owner(k: Rid): RowTable.Owner {
      Chain(id, k)
    }

    ghost predicate ChainOk(k: Rid, hole: set<Rid>)
      reads `slots, `at, `home, table
    {
      Matched(LeafOf(slots, at, home, k), table.ids(Owner(k)), k in hole)
    }

    ghost predicate Chains(hole: set<Rid>)
      reads `slots, `at, `home, table
    {
      table.Valid() && forall k: Rid {:trigger ChainOk(k, hole)} :: ChainOk(k, hole)
    }

    ghost function Sum(): nat
      reads `slots, `at, `home
    {
      Total(Lengths(slots, at, home))
    }

    ghost predicate Valid()
      reads this, table
    {
      Structure() && Chains({}) && count == Sum() && Bushy(at, TOP)
    }

    // The rows of a key, newest first.
    ghost function Rows(k: Rid): seq<Pair>
      reads table
    {
      table.Pairs(Owner(k))
    }

    // The multimap this tree stands for.
    ghost function Contents(): Tree
      reads `home, table
    {
      map k | k in home :: Rows(k)
    }

    // Chains of other trees are as they were.
    twostate predicate OthersKept()
      reads table
    {
      forall o: RowTable.Owner {:trigger SameList(old(table.rows), old(table.ids), table.rows, table.ids, o)} ::
        o.Chain? && o.tree != id ==> SameList(old(table.rows), old(table.ids), table.rows, table.ids, o)
    }

    lemma KeyHasLeaf(k: Rid)
      requires Structure()
      ensures k in home <==> LeafOf(slots, at, home, k).LeafSlot?
    {
      if k in home {
        assert HomeOk(slots, at, home, k);
      }
    }

    // A key is in the tree exactly if it has rows.
    lemma KeysHaveRows(k: Rid)
      requires Structure() && Chains({})
      ensures k in home <==> Rows(k) != []
      ensures Rids.Rows(Contents(), k) == Rows(k)
      ensures LengthOf(LeafOf(slots, at, home, k)) == |Rows(k)|
    {
      KeyHasLeaf(k);
      assert ChainOk(k, {});
    }

    // The multimap lists the rows of every key, and the lengths are theirs.
    lemma Snapshot()
      requires Structure() && Chains({})
      ensures NoEmptyKeys(Contents())
      ensures forall k: Rid {:trigger Rows(k)} :: Rids.Rows(Contents(), k) == Rows(k)
      ensures RowLengths(Contents()) == Lengths(slots, at, home)
    {
      hide Structure, Chains, Rows;
      var t, m := Contents(), Lengths(slots, at, home);
      forall k: Rid
        ensures k in home <==> Rows(k) != []
        ensures Rids.Rows(t, k) == Rows(k)
        ensures LengthOf(LeafOf(slots, at, home, k)) == |Rows(k)|
      {
        KeysHaveRows(k);
      }
    }

    // The multimap once the rows of one key have changed from what they were in `t0`.
    lemma ContentsFollow(t0: Tree, pk: Rid, rows: seq<Pair>)
      requires Structure() && Chains({})
      requires NoEmptyKeys(t0)
      requires forall k: Rid {:trigger Rows(k)} :: Rows(k) == if k == pk then rows else Rids.Rows(t0, k)
      ensures Contents() == WithRows(t0, pk, rows)
    {
      hide Structure, Chains, Rows;
      Snapshot();
      var t, t' := WithRows(t0, pk, rows), Contents();
      forall k: Rid
        ensures Rids.Rows(t, k) == Rids.Rows(t', k)
      {
        assert Rids.Rows(t', k) == Rows(k);
      }
      SameTree(t, t');
    }

    // get_or_create_leaf as fs_ptree_add uses it: the leaf may be new and have no rows yet.
    method LeafForAdd(pk: Rid) returns (l: nat)
      requires Valid()
      modifies this
      ensures Structure() && Chains({pk}) && count == Sum() && Bushy(at, TOP)
      ensures LeafFound(pk, l) && LeafOf(slots, at, home, pk) == slots[l]
    {
      KeyHasLeaf(pk);
      assert ChainOk(pk, {});
      l := GetOrCreateLeaf(pk);
      TotalFollows(old(slots), old(at), old(home), slots, at, home, pk);
      forall k: Rid
        ensures ChainOk(k, {pk})
      {
        assert old(ChainOk(k, {}));
      }
    }

    // fs_ptree_add.
    method Add(pk: Rid, pair: Pair)
      requires Valid()
      modifies this, table
      ensures Valid()
      ensures Contents() == TreeAdd(old(Contents()), pk, pair)
      ensures forall k: Rid {:trigger Rows(k)} :: Rows(k) == if k == pk then [pair] + old(Rows(k)) else old(Rows(k))
      ensures OthersKept()
    {
      hide Structure, Chains, Sum;
      Snapshot();
      ghost var t0 := Contents();
      var l := LeafForAdd(pk);
      AddRow(pk, l, pair);
      ContentsFollow(t0, pk, [pair] + old(Rows(pk)));
    }

    method AddRow(pk: Rid, l: nat, pair: Pair)
      requires Structure() && Chains({pk}) && count == Sum() && Bushy(at, TOP)
      requires LeafFound(pk, l) && LeafOf(slots, at, home, pk) == slots[l]
      modifies this, table
      ensures Valid()
      ensures forall k: Rid {:trigger Rows(k)} :: Rows(k) == if k == pk then [pair] + old(Rows(k)) else old(Rows(k))
      ensures OthersKept()
    {
      hide Structure, Total, Lengths, Partition, Data;
      assert ChainOk(pk, {pk});
      var block := table.AddPair(slots[l].block, pair, Owner(pk));
      SetLeaf(pk, l, block, slots[l].length + 1);
      TotalFollows(old(slots), at, home, slots, at, home, pk);
      count := count + 1;
      forall k: Rid
        ensures ChainOk(k, {})
        ensures Rows(k) == if k == pk then [pair] + old(Rows(k)) else old(Rows(k))
      {
        assert old(ChainOk(k, {pk}));
        assert k != pk ==> SameList(old(table.rows), old(table.ids), table.rows, table.ids, Owner(k));
      }
    }

    ghost predicate Childless(a: Addr)
      reads `at
    {
      Bare(at, a)
    }

    // Positions down to this level hold what they held.
    twostate predicate UpperKept(level: nat)
      reads this
    {
      forall x: Addr {:trigger SameAt(old(at), at, x)} :: x.level <= level ==> SameAt(old(at), at, x)
    }

    method CountBranches(n: nat, ghost a: Addr) returns (branches: nat)
      requires NodeAt(n, a)
      ensures branches == 0 <==> Childless(a)
    {
      branches := 0;
      for c := 0 to BRANCHES
        invariant branches == 0 <==> forall y: nat :: y < c ==> Child(a, y) !in at
      {
        assert BranchOk(at, a, c, slots[n].branch[c]);
        if slots[n].branch[c] != NULL {
          branches := branches + 1;
        }
      }
    }

    // collapse_by_pk_recurse, for a key whose leaf has just lost its last row. The result says whether
    // the node is to be culled.
    method Collapse(pk: Rid, n: nat, level: nat) returns (cull: bool)
      requires Structure() && Reached(pk, level, n) && Bushy(at, TOP)
      requires pk in home
      modifies this
      ensures Structure() && count == old(count) && NodeAt(n, Path(pk, level)) && Bushy(at, Path(pk, level))
      ensures home.Keys == old(home).Keys - {pk}
      ensures LeavesKept({pk}) && LeafOf(slots, at, home, pk) == Blank
      ensures UpperKept(level)
      ensures cull <==> Childless(Path(pk, level))
      decreases LEVELS - level
    {
      ghost var a := Path(pk, level);
      Ahead(pk, level, n);
      var b := Digit(pk, level);
      var ref := slots[n].branch[b];
      if ref.Leaf? {
        BushyBut(at, Child(a, b));
        DropLeaf(n, b, a, pk);
        BushyLess(old(at), a, b);
      } else {
        var below := Collapse(pk, ref.i, level + 1);
        assert SameAt(old(at), at, a) && SameAt(old(at), at, Child(a, b));
        BranchAt(a, b);
        ghost var at1 := at;
        if below {
          DropNode(n, b, a);
          BushyLess(at1, a, b);
        } else {
          BushyBut(at, a);
        }
        forall x: Addr | x.level <= level
          ensures SameAt(old(at), at, x)
        {
          assert SameAt(old(at), at1, x);
        }
      }
      assert SameAt(old(at), at, a);
      Here(a);
      var branches := CountBranches(n, a);
      cull := branches == 0;
    }

    // The part of fs_ptree_remove that works on the chain of a leaf: afterwards the leaf may be empty.
    method RemoveRows(pk: Rid, l: nat, pattern: Pair, models: set<Rid>) returns (removed: nat, touched: set<Rid>)
      requires Structure() && Chains({})
      requires LeafFound(pk, l) && LeafOf(slots, at, home, pk) == slots[l]
      modifies this`slots, table
      ensures Structure() && Chains({pk}) && LeafFound(pk, l) && LeafOf(slots, at, home, pk) == slots[l]
      ensures slots[l].length == 0 <==> Keep(pattern, old(Rows(pk))) == []
      ensures removed == |old(Rows(pk))| - |Rows(pk)| && Sum() == old(Sum()) - removed
      ensures LeavesKept({pk})
      ensures removed == 0 ==> Chains({})
      ensures forall k: Rid {:trigger Rows(k)} ::
        Rows(k) == if k == pk then Keep(pattern, old(Rows(k))) else old(Rows(k))
      ensures touched == models + Touched(pattern, old(Rows(pk)))
      ensures OthersKept()
    {
      assert ChainOk(pk, {});
      var block;
      block, removed, touched := table.RemovePair(slots[l].block, pattern, models, Owner(pk));
      SetLeaf(pk, l, block, slots[l].length - removed);
      TotalFollows(old(slots), at, home, slots, at, home, pk);
      forall k: Rid
        ensures ChainOk(k, {pk})
        ensures removed == 0 ==> ChainOk(k, {})
        ensures Rows(k) == if k == pk then Keep(pattern, old(Rows(k))) else old(Rows(k))
      {
        assert old(ChainOk(k, {}));
        assert k != pk ==> SameList(old(table.rows), old(table.ids), table.rows, table.ids, Owner(k));
      }
    }

    // A key that has rows needs no exception.
    lemma NoHole(pk: Rid)
      requires Chains({pk}) && LeafOf(slots, at, home, pk).LeafSlot? && LeafOf(slots, at, home, pk).length != 0
      ensures Chains({})
    {
      forall k: Rid
        ensures ChainOk(k, {})
      {
        assert ChainOk(k, {pk});
      }
    }

    // collapse_by_pk.
    method CollapseKey(pk: Rid)
      requires Structure() && Chains({pk})
      requires pk in home && LeafOf(slots, at, home, pk).LeafSlot? && LeafOf(slots, at, home, pk).length == 0
      requires Bushy(at, TOP)
      modifies this
      ensures Structure() && Chains({}) && Sum() == old(Sum()) && count == old(count) && Bushy(at, TOP)
    {
      Root(pk);
      PathTop(pk);
      var _ := Collapse(pk, 1, 0);
      TotalFollows(old(slots), old(at), old(home), slots, at, home, pk);
      forall k: Rid
        ensures ChainOk(k, {})
      {
        assert old(ChainOk(k, {pk}));
      }
    }

    // The rest of fs_ptree_remove, for a key that has a leaf.
    method RemoveFromLeaf(pk: Rid, l: nat, pattern: Pair, models: set<Rid>) returns (removed: nat, touched: set<Rid>)
      requires Valid()
      requires LeafFound(pk, l) && LeafOf(slots, at, home, pk) == slots[l]
      modifies this, table
      ensures Valid()
      ensures forall k: Rid {:trigger Rows(k)} ::
        Rows(k) == if k == pk then Keep(pattern, old(Rows(k))) else old(Rows(k))
      ensures removed == |old(Rows(pk))| - |Rows(pk)|
      ensures touched == models + Touched(pattern, old(Rows(pk)))
      ensures OthersKept()
    {
      hide Structure, Chains;
      removed, touched := RemoveRows(pk, l, pattern, models);
      if removed != 0 {
        count := count - removed;
        if slots[l].length == 0 {
          CollapseKey(pk);
        } else {
          NoHole(pk);
        }
      }
    }

    // fs_ptree_remove. The result is 1 only if the key has rows but none of them matches.
    method Remove(pk: Rid, pattern: Pair, models: set<Rid>) returns (ret: int, touched: set<Rid>)
      requires Valid()
      modifies this, table
      ensures Valid()
      ensures Contents() == TreeRemove(old(Contents()), pk, pattern)
      ensures forall k: Rid {:trigger Rows(k)} ::
        Rows(k) == if k == pk then Keep(pattern, old(Rows(k))) else old(Rows(k))
      ensures ret == if old(Rows(pk)) != [] && Keep(pattern, old(Rows(pk))) == old(Rows(pk)) then 1 else 0
      ensures touched == models + Touched(pattern, old(Rows(pk)))
      ensures OthersKept()
    {
      hide Structure, Chains, Sum;
      Snapshot();
      KeysHaveRows(pk);
      ghost var t0 := Contents();
      ret, touched := 0, models;
      var l := GetLeaf(pk);
      if l != 0 {
        KeyHere(pk);
        KeepNothing(pattern, Rows(pk));
        var removed;
        removed, touched := RemoveFromLeaf(pk, l, pattern, models);
        ret := if removed != 0 then 0 else 1;
      } else {
        OthersYet();
      }
      ContentsFollow(t0, pk, Keep(pattern, old(Rows(pk))));
    }

    // The key passes through this position.
    ghost predicate Under(k: Rid, c: Addr) {
      c.level <= LEVELS && Path(k, c.level) == c
    }

    // The rows of the keys below `c` are filtered; nothing else happens to any row.
    twostate predicate Filtered(pattern: Pair, c: Addr)
      reads table
    {
      forall k: Rid {:trigger Rows(k)} :: Rows(k) == if Under(k, c) then Keep(pattern, old(Rows(k))) else old(Rows(k))
    }

    // On a branch without a node, only the key of the leaf there, if any, has rows.
    lemma RowsOnBranch(a: Addr, b: nat, k: Rid)
      requires Structure() && Chains({})
      requires a in at && at[a].Node? && b < BRANCHES && Under(k, Child(a, b))
      requires Child(a, b) in at ==>
        at[Child(a, b)].Leaf? && at[Child(a, b)].i < |slots| && slots[at[Child(a, b)].i].LeafSlot?
      ensures Rows(k) != [] ==> Child(a, b) in at && slots[at[Child(a, b)].i].pk == k
    {
      BranchAt(a, b);
      PathStep(k, a.level);
      PathEnds(slots, at, home, role, k, a.level);
      KeyHasLeaf(k);
      assert ChainOk(k, {});
    }

    // remove_all_recurse on a branch that holds a leaf. The result says whether the leaf stays.
    method PruneLeaf(pattern: Pair, n: nat, b: nat, l: nat, ghost a: Addr) returns (removed: nat, stays: bool)
      requires Structure() && Chains({}) && NodeAt(n, a)
      requires b < BRANCHES && slots[n].branch[b] == Leaf(l) && Bushy(at, a)
      modifies this, table
      ensures Structure() && Chains({}) && count == old(count) && Bushy(at, a)
      ensures Sum() == old(Sum()) - removed
      ensures Filtered(pattern, Child(a, b)) && OthersKept()
      ensures at == if stays then old(at) else old(at) - {Child(a, b)}
    {
      hide Shape, Allocator, Chains, Bushy;
      ghost var c := Child(a, b);
      BranchAt(a, b);
      var key := slots[l].pk;
      KeyHere(key);
      forall k: Rid | Under(k, c) && k != key
        ensures Rows(k) == []
      {
        RowsOnBranch(a, b, k);
      }
      var touched;
      removed, touched := RemoveRows(key, l, pattern, {});
      stays := !(removed != 0 && slots[l].length == 0);
      BranchAt(a, b);
      BushyAll(at, a, b);
      BushyBut(at, c);
      if !stays {
        BushyLess(at, a, b);
        DropLeafOf(n, b, a, key);
      } else if removed != 0 {
        NoHole(key);
      }
    }

    // Drops the leaf of a key that has no rows left.
    method DropLeafOf(n: nat, b: nat, ghost a: Addr, ghost key: Rid)
      requires Structure() && Chains({key}) && NodeAt(n, a)
      requires b < BRANCHES && slots[n].branch[b].Leaf? && key in home && home[key] == Child(a, b)
      requires LeafOf(slots, at, home, key).LeafSlot? && LeafOf(slots, at, home, key).length == 0
      modifies this
      ensures Structure() && Chains({}) && count == old(count)
      ensures Sum() == old(Sum()) && at == old(at) - {Child(a, b)}
    {
      hide Structure;
      DropLeaf(n, b, a, key);
      TotalFollows(old(slots), old(at), old(home), slots, at, home, key);
      forall k: Rid
        ensures ChainOk(k, {})
      {
        assert old(ChainOk(k, {key}));
      }
    }

    // Which keys pass through a branch.
    lemma UnderBranch(k: Rid, a: Addr, b: nat)
      requires a.level < LEVELS && b < BRANCHES
      ensures Under(k, Child(a, b)) <==> Under(k, a) && Digit(k, a.level) == b
    {
      PathStep(k, a.level);
      assert Child(Path(k, a.level), Digit(k, a.level)) == Child(a, b) ==> Path(k, a.level) == a;
    }

    // Rewriting nodes only: rows and lengths are as they were.
    twostate lemma SameLeaves()
      requires old(Chains({})) && LeavesKept({}) && home.Keys == old(home).Keys
      requires unchanged(table)
      ensures Chains({}) && Sum() == old(Sum())
    {
      TotalFollows(old(slots), old(at), old(home), slots, at, home, 0);
      assert LeafOf(slots, at, home, 0) == LeafOf(old(slots), old(at), old(home), 0);
      forall k: Rid
        ensures ChainOk(k, {})
      {
        assert old(ChainOk(k, {}));
      }
    }

    // All positions but those from `c` down are as they were.
    twostate predicate OnlyBelow(c: Addr)
      reads `at
    {
      forall x: Addr {:trigger SameAt(old(at), at, x)} :: x.level <= c.level && x != c ==> SameAt(old(at), at, x)
    }

    // Carries out the action for the node on branch `b` of the node at `a`. The result says whether
    // anything is left on the branch.
    method Apply(action: Action, n: nat, b: nat, ghost y: nat, ghost a: Addr) returns (stays: bool)
      requires Structure() && Chains({}) && NodeAt(n, a)
      requires b < BRANCHES && slots[n].branch[b].Node? && slots[n].branch[b] != NULL
      requires action == Cull <==> Childless(Child(a, b))
      requires action == Lift ==> SoleLeaf(Child(a, b), y)
      requires Bushy(at, Child(a, b))
      modifies this
      ensures Structure() && Chains({}) && count == old(count) && Sum() == old(Sum())
      ensures OnlyBelow(Child(a, b)) && (stays <==> Child(a, b) in at) && Bushy(at, a)
      ensures at == Acted(old(at), action, Child(a, b), y)
    {
      hide Structure, Chains, Sum, Bushy;
      BranchAt(a, b);
      match action {
        case Stay =>
          Settled(at, Child(a, b), a);
        case Cull =>
          DropNode(n, b, a);
          BushyLess(old(at), a, b);
          SameLeaves();
        case Lift =>
          Settled(at, Child(a, b), a);
          Merge(n, b, y, a);
          BushyMerge(old(at), Child(a, b), y, old(at)[Child(Child(a, b), y)]);
          BushyBut(at, a);
          SameLeaves();
      }
      stays := action != Cull;
    }

    // A node that is not culled has something below it.
    static lemma Settled(at: Layout, c: Addr, a: Addr)
      requires Bushy(at, c) && !Bare(at, c)
      ensures Bushy(at, TOP) && Bushy(at, a)
    {
    }

    // The positions once the action for the node at `c` has been carried out.
    static ghost function Acted(at: Layout, action: Action, c: Addr, y: nat): Layout {
      match action
      case Stay => at
      case Cull => at - {c}
      case Lift =>
        if y < BRANCHES && Child(c, y) in at then (at - {Child(c, y)})[c := at[Child(c, y)]] else at
    }

    // The node at `c` has one child, a leaf, that was there in `was` too.
    static ghost predicate OneLeaf(was: Layout, at: Layout, c: Addr, y: nat) {
      && y < BRANCHES && Child(c, y) in at && at[Child(c, y)].Leaf?
      && Child(c, y) in was && was[Child(c, y)].Leaf?
      && forall z: nat :: z < BRANCHES && z != y ==> Child(c, z) !in at
    }

    // The node at `c` has one child, on branch `y`, and it is a leaf.
    ghost predicate SoleLeaf(c: Addr, y: nat)
      reads `at
    {
      && y < BRANCHES && Child(c, y) in at && at[Child(c, y)].Leaf?
      && forall z: nat :: z < BRANCHES && z != y ==> Child(c, z) !in at
    }

    // remove_all_recurse on a branch that holds a node.
    method PruneNode(pattern: Pair, n: nat, b: nat, m: nat, ghost a: Addr) returns (removed: nat, stays: bool)
      requires Structure() && Chains({}) && NodeAt(n, a)
      requires b < BRANCHES && slots[n].branch[b] == Node(m) && m != 0 && Bushy(at, a)
      modifies this, table
      ensures Structure() && Chains({}) && count == old(count) && Bushy(at, a)
      ensures Child(a, b) in at && at[Child(a, b)].Node? ==> forall z: nat :: !OneLeaf(old(at), at, Child(a, b), z)
      ensures Sum() == old(Sum()) - removed
      ensures Filtered(pattern, Child(a, b)) && OthersKept()
      ensures OnlyBelow(Child(a, b)) && (stays <==> Child(a, b) in at)
      decreases LEVELS - a.level, 0
    {
      hide Structure, Chains, Sum, Filtered, OthersKept, Bushy, OneLeaf;
      ghost var c := Child(a, b);
      BranchAt(a, b);
      BushyAll(at, a, b);
      var action;
      ghost var y;
      removed, action, y := RemoveAllRecurse(pattern, m, c);
      ghost var at1 := at;
      assert SameAt(old(at), at, a) && SameAt(old(at), at, c);
      BranchAt(a, b);
      stays := Apply(action, n, b, y, a);
      forall x: Addr | x.level <= c.level && x != c
        ensures SameAt(old(at), at, x)
      {
        assert SameAt(old(at), at1, x) && SameAt(at1, at, x);
      }
    }

    // The body of the loop in remove_all_recurse.
    method PruneBranch(pattern: Pair, n: nat, b: nat, ghost a: Addr) returns (removed: nat, left: Remnant)
      requires Structure() && Chains({}) && NodeAt(n, a)
      requires b < BRANCHES && Bushy(at, a)
      modifies this, table
      ensures Structure() && Chains({}) && count == old(count) && Bushy(at, a)
      ensures Sum() == old(Sum()) - removed
      ensures Filtered(pattern, Child(a, b)) && OthersKept()
      ensures OnlyBelow(Child(a, b)) && (left != Nothing <==> Child(a, b) in at)
      ensures left == LeafLeft ==> at[Child(a, b)].Leaf?
      ensures left == LeafLeft <==> Child(a, b) in at && Child(a, b) in old(at) && old(at)[Child(a, b)].Leaf?
      decreases LEVELS - a.level, 1
    {
      hide Structure, Chains, Sum, OthersKept, Bushy, OneLeaf;
      BranchAt(a, b);
      var ref := slots[n].branch[b];
      var stays := false;
      if ref == NULL {
        removed, left := 0, Nothing;
        forall k: Rid | Under(k, Child(a, b))
          ensures Rows(k) == []
        {
          RowsOnBranch(a, b, k);
        }
        OthersYet();
      } else if ref.Leaf? {
        removed, stays := PruneLeaf(pattern, n, b, ref.i, a);
        left := if stays then LeafLeft else Nothing;
      } else {
        removed, stays := PruneNode(pattern, n, b, ref.i, a);
        left := if stays then NodeLeft else Nothing;
      }
    }

    twostate lemma OthersYet()
      requires unchanged(table)
      ensures OthersKept()
    {
    }

    // The rows of the keys on the first `b` branches of the node at `a` are filtered.
    twostate predicate FilteredUpTo(pattern: Pair, a: Addr, b: nat)
      requires a.level < LEVELS
      reads table
    {
      forall k: Rid {:trigger Rows(k)} ::
        Rows(k) == if Under(k, a) && Digit(k, a.level) < b then Keep(pattern, old(Rows(k))) else old(Rows(k))
    }

    // What the counters say about the first `b` branches of the node at `a`.
    static ghost predicate CountedIn(was: Layout, at: Layout, a: Addr, b: nat, branches: nat, leaves: nat, y: nat) {
      && b <= BRANCHES && leaves <= branches
      && (branches == 0 ==> forall z: nat :: z < b ==> Child(a, z) !in at)
      && (branches > 0 ==> y < b && Child(a, y) in at)
      && (branches == 1 ==>
        && (leaves == 1 <==> Child(a, y) in was && was[Child(a, y)].Leaf?)
        && (leaves == 1 ==> at[Child(a, y)].Leaf?)
        && forall z: nat :: z < b && z != y ==> Child(a, z) !in at)
      && (branches > 1 ==> exists z: nat :: z < b && z != y && Child(a, z) in at)
    }

    lemma CountStep(was: Layout, at1: Layout, a: Addr, b: nat, branches: nat, leaves: nat, y: nat, left: Remnant)
      requires CountedIn(was, at1, a, b, branches, leaves, y) && b < BRANCHES
      requires forall z: nat {:trigger Child(a, z)} :: z < b ==> SameAt(at1, at, Child(a, z))
      requires left != Nothing <==> Child(a, b) in at
      requires left == LeafLeft ==> at[Child(a, b)].Leaf?
      requires left == LeafLeft <==> Child(a, b) in at && Child(a, b) in was && was[Child(a, b)].Leaf?
      ensures
        var more := if left == Nothing then 0 else 1;
        CountedIn(was, at, a, b + 1, branches + more, leaves + if left == LeafLeft then 1 else 0,
                  if branches == 0 && more == 1 then b else y)
    {
      assert forall z: nat :: z < b + 1 ==> z == b || SameAt(at1, at, Child(a, z));
      if branches > 1 {
        var z: nat :| z < b && z != y && Child(a, z) in at1;
        assert SameAt(at1, at, Child(a, z));
      }
    }

    static lemma NoneCounted(at: Layout, a: Addr)
      ensures CountedIn(at, at, a, 0, 0, 0, 0)
    {
    }

    // What the counters say about a node that has been dealt with.
    lemma Decided(was: Layout, a: Addr, branches: nat, leaves: nat, y: nat)
      requires CountedIn(was, at, a, BRANCHES, branches, leaves, y)
      ensures branches == 0 <==> Childless(a)
      ensures branches == 1 && leaves == 1 ==> SoleLeaf(a, y) && OneLeaf(was, at, a, y)
      ensures (exists z: nat :: OneLeaf(was, at, a, z)) ==> branches == 1 && leaves == 1
    {
    }

    // remove_all_recurse.
    method RemoveAllRecurse(pattern: Pair, n: nat, ghost a: Addr) returns (removed: nat, action: Action, ghost y: nat)
      requires Structure() && Chains({}) && NodeAt(n, a) && Bushy(at, TOP)
      modifies this, table
      ensures Structure() && Chains({}) && count == old(count) && Bushy(at, a)
      ensures Sum() == old(Sum()) - removed
      ensures Filtered(pattern, a) && OthersKept()
      ensures UpperKept(a.level)
      ensures action == Cull <==> Childless(a)
      ensures action == Lift ==> SoleLeaf(a, y)
      ensures action == Lift <==> exists z: nat :: OneLeaf(old(at), at, a, z)
      decreases LEVELS - a.level, 2
    {
      hide Structure, Chains, Sum, Bushy, OneLeaf, CountedIn;
      BushyBut(at, a);
      NoneCounted(at, a);
      var branches: nat, leaves: nat := 0, 0;
      removed, action, y := 0, Stay, 0;
      var b := 0;
      while b < BRANCHES
        invariant Structure() && Chains({}) && count == old(count)
        invariant a in at && at[a] == Node(n)
        invariant Sum() == old(Sum()) - removed
        invariant FilteredUpTo(pattern, a, b) && OthersKept()
        invariant b <= BRANCHES && UpperKept(a.level) && Bushy(at, a)
        invariant forall z: nat {:trigger Child(a, z)} :: b <= z < BRANCHES ==> SameAt(old(at), at, Child(a, z))
        invariant CountedIn(old(at), at, a, b, branches, leaves, y)
      {
        Here(a);
        assert SameAt(old(at), at, Child(a, b));
        ghost var at1, rows1, ids1 := at, table.rows, table.ids;
        var r, left := PruneBranch(pattern, n, b, a);
        forall x: Addr | x.level <= a.level
          ensures SameAt(old(at), at, x)
        {
          assert SameAt(old(at), at1, x) && SameAt(at1, at, x);
        }
        forall o: RowTable.Owner | o.Chain? && o.tree != id
          ensures SameList(old(table.rows), old(table.ids), table.rows, table.ids, o)
        {
          assert SameList(old(table.rows), old(table.ids), rows1, ids1, o);
          assert SameList(rows1, ids1, table.rows, table.ids, o);
        }
        assert forall z: nat {:trigger Child(a, z)} :: z < b ==> SameAt(at1, at, Child(a, z));
        assert SameAt(at1, at, a);
        assert forall z: nat {:trigger Child(a, z)} :: b < z < BRANCHES ==> SameAt(at1, at, Child(a, z));
        CountStep(old(at), at1, a, b, branches, leaves, y, left);
        forall k: Rid
          ensures Rows(k) ==
            if Under(k, a) && Digit(k, a.level) < b + 1 then Keep(pattern, old(Rows(k))) else old(Rows(k))
        {
          UnderBranch(k, a, b);
        }
        removed := removed + r;
        if left != Nothing {
          y := if branches == 0 then b else y;
          branches := branches + 1;
          if left == LeafLeft {
            leaves := leaves + 1;
          }
        }
        b := b + 1;
      }
      Decided(old(at), a, branches, leaves, y);
      if branches == 0 {
        action := Cull;
      } else if branches == 1 && leaves == 1 {
        action := Lift;
      }
    }

    // The multimap once the rows of every key in `t0` were filtered.
    lemma AllFiltered(t0: Tree, pattern: Pair)
      requires Structure() && Chains({})
      requires NoEmptyKeys(t0)
      requires forall k: Rid {:trigger Rows(k)} :: Rows(k) == Keep(pattern, Rids.Rows(t0, k))
      ensures Contents() == TreeRemoveAll(t0, pattern)
      ensures Sum() == Total(RowLengths(t0)) <==> Contents() == t0
    {
      hide Structure, Chains, Rows;
      Snapshot();
      var t, t' := TreeRemoveAll(t0, pattern), Contents();
      forall k: Rid
        ensures Rids.Rows(t, k) == Rids.Rows(t', k)
      {
        assert Rids.Rows(t', k) == Rows(k);
      }
      SameTree(t, t');
      ShrunkTree(t0, pattern);
    }

    // fs_ptree_remove_all. The result is 0 if a row was removed, and 1 if none matched.
    method RemoveAll(pattern: Pair) returns (ret: int)
      requires Valid()
      modifies this, table
      ensures Valid()
      ensures Contents() == TreeRemoveAll(old(Contents()), pattern)
      ensures forall k: Rid {:trigger Rows(k)} :: Rows(k) == Keep(pattern, old(Rows(k)))
      ensures ret == if Contents() == old(Contents()) then 1 else 0
      ensures OthersKept()
    {
      hide Structure, Chains, Total, Lengths, RowLengths, TreeRemoveAll;
      RootNode();
      Snapshot();
      ghost var t0 := Contents();
      var removed, _, _ := RemoveAllRecurse(pattern, 1, TOP);
      count := count - removed;
      ret := if removed != 0 then 0 else 1;
      forall k: Rid
        ensures Rows(k) == Keep(pattern, old(Rows(k)))
      {
        PathTop(k);
      }
      AllFiltered(t0, pattern);
    }

    // A tree is not affected by changes to the chains of other trees.
    twostate lemma Unaffected()
      requires old(Valid()) && unchanged(this) && table.Valid()
      requires forall k: Rid {:trigger Owner(k)} ::
        SameList(old(table.rows), old(table.ids), table.rows, table.ids, Owner(k))
      ensures Valid() && Contents() == old(Contents())
    {
      hide Structure, Sum;
      forall k: Rid
        ensures ChainOk(k, {})
        ensures Rows(k) == old(Rows(k))
      {
        assert old(ChainOk(k, {}));
        assert SameList(old(table.rows), old(table.ids), table.rows, table.ids, Owner(k));
      }
    }
  }
}
