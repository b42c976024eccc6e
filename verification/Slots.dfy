/**
  The slot array of a predicate tree. Nodes and leaves have the same size and live in one array;
  each kind is handed out from its own arena or its own free list.
 */
module Slots {
  import opened Rids
  import opened Addresses

  // A branch of a node: slot `i` read as a node or as a leaf. Node 0 stands for "nothing here".
  datatype Ref = Node(i: nat) | Leaf(i: nat)

  const NULL := Node(0)

  // What is written in a slot.
  datatype Slot = Blank | NodeSlot(branch: seq<Ref>) | LeafSlot(pk: Rid, block: nat, length: nat)

  const EMPTY_NODE := NodeSlot([NULL, NULL, NULL, NULL])
  const EMPTY_LEAF := LeafSlot(RID_NULL, 0, 0)

  // Slots added each time an arena is used up.
  const SIZE_INC := 32768

  datatype Header = Header(
    nodeBase: nat, nodeSize: nat, nodeCount: nat, nodeAlloc: nat,
    leafBase: nat, leafSize: nat, leafCount: nat, leafAlloc: nat,
    nodeFree: Ref, leafFree: nat)

  // What each slot is for.
  datatype Role =
    | Reserved
    | FreshNode
    | FreshLeaf
    | FreeNode(pos: nat)
    | FreeLeaf(pos: nat)
    | Used(addr: Addr)

  // Both free lists, in the order they were pushed: the head comes last.
  datatype Spare = Spare(nodes: seq<nat>, leaves: seq<nat>)

  ghost predicate FreeNodeOk(slots: seq<Slot>, role: seq<Role>, spare: Spare, j: nat)
    requires j < |spare.nodes| && |role| == |slots|
  {
    var f := spare.nodes[j];
    && 0 < f < |slots| && role[f] == FreeNode(j)
    && slots[f].NodeSlot? && |slots[f].branch| == BRANCHES
    && slots[f].branch[0] == if j == 0 then NULL else Node(spare.nodes[j - 1])
  }

  ghost predicate FreeLeafOk(slots: seq<Slot>, role: seq<Role>, spare: Spare, j: nat)
    requires j < |spare.leaves| && |role| == |slots|
  {
    var f := spare.leaves[j];
    && 0 < f < |slots| && role[f] == FreeLeaf(j)
    && slots[f].LeafSlot?
    && slots[f].block == if j == 0 then 0 else spare.leaves[j - 1]
  }

  // Slot `i` is where its role says: so no slot is lost.
  ghost predicate RoleOk(h: Header, role: seq<Role>, spare: Spare, i: nat)
    requires i < |role|
  {
    match role[i]
    case Reserved => i == 0 || i == SIZE_INC
    case FreshNode => h.nodeBase <= i < h.nodeSize
    case FreshLeaf => h.leafBase <= i < h.leafSize
    case FreeNode(j) => j < |spare.nodes| && spare.nodes[j] == i
    case FreeLeaf(j) => j < |spare.leaves| && spare.leaves[j] == i
    case Used(_) => true
  }

  ghost predicate Allocator(h: Header, slots: seq<Slot>, role: seq<Role>, spare: Spare) {
    && |role| == |slots| > SIZE_INC
    && 0 < h.nodeBase <= h.nodeSize <= |slots| && 0 < h.leafBase <= h.leafSize <= |slots|
    && (forall i :: h.nodeBase <= i < h.nodeSize ==> role[i] == FreshNode)
    && (forall i :: h.leafBase <= i < h.leafSize ==> role[i] == FreshLeaf)
    && h.nodeFree == (if spare.nodes == [] then NULL else Node(spare.nodes[|spare.nodes| - 1]))
    && h.leafFree == (if spare.leaves == [] then 0 else spare.leaves[|spare.leaves| - 1])
    && (forall j: nat :: j < |spare.nodes| ==> FreeNodeOk(slots, role, spare, j))
    && (forall j: nat :: j < |spare.leaves| ==> FreeLeafOk(slots, role, spare, j))
    && (forall i: nat :: i < |role| ==> RoleOk(h, role, spare, i))
  }

  // Writing only to slots in use does not disturb the allocator.
  lemma AllocatorFrame(h: Header, slots: seq<Slot>, slots': seq<Slot>, role: seq<Role>, role': seq<Role>, spare: Spare)
    requires Allocator(h, slots, role, spare)
    requires |slots'| == |slots| == |role'|
    requires forall i :: 0 <= i < |slots| && !role[i].Used? ==> slots'[i] == slots[i] && role'[i] == role[i]
    requires forall i :: 0 <= i < |slots| && role[i].Used? ==> role'[i].Used?
    ensures Allocator(h, slots', role', spare)
  {
    forall j: nat | j < |spare.nodes|
      ensures FreeNodeOk(slots', role', spare, j)
    {
      assert FreeNodeOk(slots, role, spare, j);
    }
    forall j: nat | j < |spare.leaves|
      ensures FreeLeafOk(slots', role', spare, j)
    {
      assert FreeLeafOk(slots, role, spare, j);
    }
    forall i: nat | i < |role'|
      ensures RoleOk(h, role', spare, i)
    {
      assert RoleOk(h, role, spare, i);
    }
  }

  // `slots'`, `role'` are `slots`, `role` with slot `i` newly in use at `a`, holding `s`; the array
  // may have grown, by slots that are not in use.
  ghost predicate HandedOut(slots: seq<Slot>, role: seq<Role>, slots': seq<Slot>, role': seq<Role>,
                            i: nat, a: Addr, s: Slot) {
    && |slots| == |role| <= |slots'| == |role'|
    && 0 < i < |slots'| && slots'[i] == s && role'[i] == Used(a)
    && (i < |role| ==> !role[i].Used?)
    && (forall x :: 0 <= x < |slots| && x != i ==> slots'[x] == slots[x] && role'[x] == role[x])
    && (forall x :: |slots| <= x < |slots'| && x != i ==> !role'[x].Used?)
  }

  // fs_ptree_free_node and fs_ptree_free_leaf.
  lemma FreeNodeStep(h: Header, slots: seq<Slot>, role: seq<Role>, spare: Spare, i: nat)
    requires Allocator(h, slots, role, spare)
    requires 0 < i < |slots| && role[i].Used? && slots[i].NodeSlot? && |slots[i].branch| == BRANCHES
    ensures Allocator(h.(nodeFree := Node(i)),
                      slots[i := NodeSlot(slots[i].branch[0 := h.nodeFree])],
                      role[i := FreeNode(|spare.nodes|)],
                      spare.(nodes := spare.nodes + [i]))
  {
    var h', slots', role', spare' := h.(nodeFree := Node(i)), slots[i := NodeSlot(slots[i].branch[0 := h.nodeFree])],
      role[i := FreeNode(|spare.nodes|)], spare.(nodes := spare.nodes + [i]);
    forall j: nat | j < |spare'.nodes|
      ensures FreeNodeOk(slots', role', spare', j)
    {
      assert j < |spare.nodes| ==> FreeNodeOk(slots, role, spare, j);
    }
    forall j: nat | j < |spare'.leaves|
      ensures FreeLeafOk(slots', role', spare', j)
    {
      assert FreeLeafOk(slots, role, spare, j);
    }
    forall x: nat | x < |role'|
      ensures RoleOk(h', role', spare', x)
    {
      assert RoleOk(h, role, spare, x);
    }
  }

  lemma FreeLeafStep(h: Header, slots: seq<Slot>, role: seq<Role>, spare: Spare, i: nat)
    requires Allocator(h, slots, role, spare)
    requires 0 < i < |slots| && role[i].Used? && slots[i].LeafSlot?
    ensures Allocator(h.(leafFree := i),
                      slots[i := slots[i].(block := h.leafFree)],
                      role[i := FreeLeaf(|spare.leaves|)],
                      spare.(leaves := spare.leaves + [i]))
  {
    var h', slots', role', spare' := h.(leafFree := i), slots[i := slots[i].(block := h.leafFree)],
      role[i := FreeLeaf(|spare.leaves|)], spare.(leaves := spare.leaves + [i]);
    forall j: nat | j < |spare'.nodes|
      ensures FreeNodeOk(slots', role', spare', j)
    {
      assert FreeNodeOk(slots, role, spare, j);
    }
    forall j: nat | j < |spare'.leaves|
      ensures FreeLeafOk(slots', role', spare', j)
    {
      assert j < |spare.leaves| ==> FreeLeafOk(slots, role, spare, j);
    }
    forall x: nat | x < |role'|
      ensures RoleOk(h', role', spare', x)
    {
      assert RoleOk(h, role, spare, x);
    }
  }

  // The head of the free node list goes back into use.
  lemma ReuseNodeStep(h: Header, slots: seq<Slot>, role: seq<Role>, spare: Spare, a: Addr)
    requires Allocator(h, slots, role, spare)
    requires spare.nodes != []
    ensures
      var m := |spare.nodes| - 1;
      var n := spare.nodes[m];
      && 0 < n < |slots| && slots[n].NodeSlot? && |slots[n].branch| == BRANCHES && !role[n].Used?
      && Allocator(h.(nodeFree := slots[n].branch[0]), slots[n := EMPTY_NODE], role[n := Used(a)],
        spare.(nodes := spare.nodes[..m]))
  {
    var m := |spare.nodes| - 1;
    var n := spare.nodes[m];
    assert FreeNodeOk(slots, role, spare, m);
    var h', slots', role', spare' := h.(nodeFree := slots[n].branch[0]), slots[n := EMPTY_NODE], role[n := Used(a)],
      spare.(nodes := spare.nodes[..m]);
    forall j: nat | j < |spare'.nodes|
      ensures FreeNodeOk(slots', role', spare', j)
    {
      assert FreeNodeOk(slots, role, spare, j);
    }
    forall j: nat | j < |spare'.leaves|
      ensures FreeLeafOk(slots', role', spare', j)
    {
      assert FreeLeafOk(slots, role, spare, j);
    }
    forall x: nat | x < |role'|
      ensures RoleOk(h', role', spare', x)
    {
      assert RoleOk(h, role, spare, x);
    }
  }

  // The next slot of the node arena goes into use.
  lemma FreshNodeStep(h: Header, slots: seq<Slot>, role: seq<Role>, spare: Spare, a: Addr)
    requires Allocator(h, slots, role, spare)
    requires h.nodeBase < h.nodeSize
    ensures role[h.nodeBase] == FreshNode
    ensures Allocator(h.(nodeBase := h.nodeBase + 1, nodeCount := h.nodeCount + 1),
                      slots[h.nodeBase := EMPTY_NODE], role[h.nodeBase := Used(a)], spare)
  {
    var h', slots', role' := h.(nodeBase := h.nodeBase + 1, nodeCount := h.nodeCount + 1),
      slots[h.nodeBase := EMPTY_NODE], role[h.nodeBase := Used(a)];
    forall j: nat | j < |spare.nodes|
      ensures FreeNodeOk(slots', role', spare, j)
    {
      assert FreeNodeOk(slots, role, spare, j);
    }
    forall j: nat | j < |spare.leaves|
      ensures FreeLeafOk(slots', role', spare, j)
    {
      assert FreeLeafOk(slots, role, spare, j);
    }
    forall x: nat | x < |role'|
      ensures RoleOk(h', role', spare, x)
    {
      assert RoleOk(h, role, spare, x);
    }
  }

  ghost function GrowNodeHeader(h: Header, n: nat): Header {
    h.(nodeBase := n, nodeSize := n + SIZE_INC, nodeAlloc := h.nodeAlloc + SIZE_INC)
  }

  // fs_ptree_grow_nodes: a new node arena at the end of the array, once the old one is used up.
  lemma GrowNodeStep(h: Header, slots: seq<Slot>, role: seq<Role>, spare: Spare)
    requires Allocator(h, slots, role, spare)
    requires h.nodeBase == h.nodeSize
    ensures
      var slots', role' := slots + seq(SIZE_INC, _ => Blank), role + seq(SIZE_INC, _ => FreshNode);
      Allocator(GrowNodeHeader(h, |slots|), slots', role', spare)
  {
    var h', slots' := GrowNodeHeader(h, |slots|), slots + seq(SIZE_INC, _ => Blank);
    var role' := role + seq(SIZE_INC, _ => FreshNode);
    forall j: nat | j < |spare.nodes|
      ensures FreeNodeOk(slots', role', spare, j)
    {
      assert FreeNodeOk(slots, role, spare, j);
    }
    forall j: nat | j < |spare.leaves|
      ensures FreeLeafOk(slots', role', spare, j)
    {
      assert FreeLeafOk(slots, role, spare, j);
    }
    forall x: nat | x < |role'|
      ensures RoleOk(h', role', spare, x)
    {
      assert x < |role| ==> RoleOk(h, role, spare, x);
    }
  }

  // The head of the free leaf list goes back into use.
  lemma ReuseLeafStep(h: Header, slots: seq<Slot>, role: seq<Role>, spare: Spare, a: Addr)
    requires Allocator(h, slots, role, spare)
    requires spare.leaves != []
    ensures
      var m := |spare.leaves| - 1;
      var n := spare.leaves[m];
      && 0 < n < |slots| && slots[n].LeafSlot? && !role[n].Used?
      && Allocator(h.(leafFree := slots[n].block), slots[n := EMPTY_LEAF], role[n := Used(a)],
        spare.(leaves := spare.leaves[..m]))
  {
    var m := |spare.leaves| - 1;
    var n := spare.leaves[m];
    assert FreeLeafOk(slots, role, spare, m);
    var h', slots', role', spare' := h.(leafFree := slots[n].block), slots[n := EMPTY_LEAF], role[n := Used(a)],
      spare.(leaves := spare.leaves[..m]);
    forall j: nat | j < |spare'.leaves|
      ensures FreeLeafOk(slots', role', spare', j)
    {
      assert FreeLeafOk(slots, role, spare, j);
    }
    forall j: nat | j < |spare'.nodes|
      ensures FreeNodeOk(slots', role', spare', j)
    {
      assert FreeNodeOk(slots, role, spare, j);
    }
    forall x: nat | x < |role'|
      ensures RoleOk(h', role', spare', x)
    {
      assert RoleOk(h, role, spare, x);
    }
  }

  // The next slot of the leaf arena goes into use.
  lemma FreshLeafStep(h: Header, slots: seq<Slot>, role: seq<Role>, spare: Spare, a: Addr)
    requires Allocator(h, slots, role, spare)
    requires h.leafBase < h.leafSize
    ensures role[h.leafBase] == FreshLeaf
    ensures Allocator(h.(leafBase := h.leafBase + 1, leafCount := h.leafCount + 1),
                      slots[h.leafBase := EMPTY_LEAF], role[h.leafBase := Used(a)], spare)
  {
    var h', slots', role' := h.(leafBase := h.leafBase + 1, leafCount := h.leafCount + 1),
      slots[h.leafBase := EMPTY_LEAF], role[h.leafBase := Used(a)];
    forall j: nat | j < |spare.nodes|
      ensures FreeNodeOk(slots', role', spare, j)
    {
      assert FreeNodeOk(slots, role, spare, j);
    }
    forall j: nat | j < |spare.leaves|
      ensures FreeLeafOk(slots', role', spare, j)
    {
      assert FreeLeafOk(slots, role, spare, j);
    }
    forall x: nat | x < |role'|
      ensures RoleOk(h', role', spare, x)
    {
      assert RoleOk(h, role, spare, x);
    }
  }

  ghost function GrowLeafHeader(h: Header, n: nat): Header {
    h.(leafBase := n, leafSize := n + SIZE_INC, leafAlloc := h.leafAlloc + SIZE_INC)
  }

  // fs_ptree_grow_leaves: a new leaf arena at the end of the array, once the old one is used up.
  lemma GrowLeafStep(h: Header, slots: seq<Slot>, role: seq<Role>, spare: Spare)
    requires Allocator(h, slots, role, spare)
    requires h.leafBase == h.leafSize
    ensures
      var slots', role' := slots + seq(SIZE_INC, _ => Blank), role + seq(SIZE_INC, _ => FreshLeaf);
      Allocator(GrowLeafHeader(h, |slots|), slots', role', spare)
  {
    var h', slots' := GrowLeafHeader(h, |slots|), slots + seq(SIZE_INC, _ => Blank);
    var role' := role + seq(SIZE_INC, _ => FreshLeaf);
    forall j: nat | j < |spare.nodes|
      ensures FreeNodeOk(slots', role', spare, j)
    {
      assert FreeNodeOk(slots, role, spare, j);
    }
    forall j: nat | j < |spare.leaves|
      ensures FreeLeafOk(slots', role', spare, j)
    {
      assert FreeLeafOk(slots, role, spare, j);
    }
    forall x: nat | x < |role'|
      ensures RoleOk(h', role', spare, x)
    {
      assert x < |role| ==> RoleOk(h, role, spare, x);
    }
  }
}
