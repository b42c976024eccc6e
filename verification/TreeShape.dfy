/**
  The shape of a predicate tree: which slots are in use, where they hang, and how the tree may be
  rewritten without losing a key.
 */
module TreeShape {
  import opened Rids
  import opened Addresses
  import opened Slots

  // The slot found at every position of the tree that is not empty.
  type Layout = map<Addr, Ref>

  // The position of the leaf of every key.
  type Homes = map<Rid, Addr>

  // Branch `b` of the node at `a` holds `ref` exactly if that is what the layout has there.
  ghost predicate BranchOk(at: Layout, a: Addr, b: nat, ref: Ref)
    requires b < BRANCHES
  {
    if ref == NULL then Child(a, b) !in at else Child(a, b) in at && at[Child(a, b)] == ref
  }

  ghost predicate NodeOk(slots: seq<Slot>, at: Layout, a: Addr, i: nat)
    requires i < |slots|
  {
    && a.level < LEVELS
    && slots[i].NodeSlot? && |slots[i].branch| == BRANCHES
    && forall b: nat :: b < BRANCHES ==> BranchOk(at, a, b, slots[i].branch[b])
  }

  ghost predicate LeafOk(slots: seq<Slot>, home: Homes, a: Addr, i: nat)
    requires i < |slots|
  {
    && 0 < a.level <= LEVELS
    && slots[i].LeafSlot?
    && Path(slots[i].pk, a.level) == a
    && slots[i].pk in home && home[slots[i].pk] == a
  }

  ghost predicate AddrOk(slots: seq<Slot>, at: Layout, home: Homes, role: seq<Role>, a: Addr)
    requires a in at
  {
    var i := at[a].i;
    && 0 < i < |slots| == |role| && role[i] == Used(a)
    && (if a.level == 0 then a == TOP else Parent(a) in at && at[Parent(a)].Node?)
    && (if at[a].Node? then NodeOk(slots, at, a, i) else LeafOk(slots, home, a, i))
  }

  ghost predicate HomeOk(slots: seq<Slot>, at: Layout, home: Homes, key: Rid)
    requires key in home
  {
    && home[key] in at && at[home[key]].Leaf?
    && at[home[key]].i < |slots| && slots[at[home[key]].i].LeafSlot? && slots[at[home[key]].i].pk == key
  }

  // A slot in use is somewhere in the tree.
  ghost predicate InUse(at: Layout, role: seq<Role>, i: nat)
    requires i < |role|
  {
    role[i].Used? ==> role[i].addr in at && at[role[i].addr].i == i
  }

  ghost predicate Shape(slots: seq<Slot>, at: Layout, home: Homes, role: seq<Role>) {
    && TOP in at && at[TOP] == Node(1)
    && (forall a {:trigger AddrOk(slots, at, home, role, a)} :: a in at ==> AddrOk(slots, at, home, role, a))
    && (forall key {:trigger HomeOk(slots, at, home, key)} :: key in home ==> HomeOk(slots, at, home, key))
    && (forall i: nat :: i < |role| ==> InUse(at, role, i))
  }

  // The contents of the leaf of a key, if it has one.
  ghost function LeafOf(slots: seq<Slot>, at: Layout, home: Homes, key: Rid): Slot {
    if key in home && home[key] in at && at[home[key]].i < |slots| then slots[at[home[key]].i] else Blank
  }

  // Writes branch `b` of the node in slot `i`.
  function SetBranch(slots: seq<Slot>, i: nat, b: nat, ref: Ref): seq<Slot>
    requires i < |slots| && slots[i].NodeSlot? && |slots[i].branch| == BRANCHES && b < BRANCHES
  {
    slots[i := NodeSlot(slots[i].branch[b := ref])]
  }

  ghost predicate SameAt(at: Layout, at': Layout, c: Addr) {
    if c in at then c in at' && at'[c] == at[c] else c !in at'
  }

  // A position whose slot, parent and children are as before.
  lemma KeptPosition(slots: seq<Slot>, at: Layout, home: Homes, role: seq<Role>,
                     slots': seq<Slot>, at': Layout, home': Homes, role': seq<Role>, x: Addr)
    requires x in at && AddrOk(slots, at, home, role, x)
    requires SameAt(at, at', x)
    requires |slots| <= |slots'| == |role'|
    requires slots'[at[x].i] == slots[at[x].i] && role'[at[x].i] == role[at[x].i]
    requires x.level > 0 ==> Parent(x) in at' && at'[Parent(x)].Node?
    requires at[x].Node? ==> forall b: nat :: b < BRANCHES ==> SameAt(at, at', Child(x, b))
    requires at[x].Leaf? && slots[at[x].i].LeafSlot? ==> slots[at[x].i].pk in home' && home'[slots[at[x].i].pk] == x
    ensures AddrOk(slots', at', home', role', x)
  {
    if at[x].Node? {
      forall b: nat | b < BRANCHES
        ensures BranchOk(at', x, b, slots'[at[x].i].branch[b])
      {
        assert BranchOk(at, x, b, slots[at[x].i].branch[b]) && SameAt(at, at', Child(x, b));
      }
    }
  }

  // A node with one branch rewritten.
  lemma RewrittenNode(slots: seq<Slot>, at: Layout, home: Homes, role: seq<Role>,
                      slots': seq<Slot>, at': Layout, home': Homes, role': seq<Role>, x: Addr, b: nat, ref: Ref)
    requires x in at && at[x].Node? && AddrOk(slots, at, home, role, x)
    requires SameAt(at, at', x)
    requires |slots| <= |slots'| == |role'|
    requires b < BRANCHES && slots'[at[x].i] == NodeSlot(slots[at[x].i].branch[b := ref])
    requires role'[at[x].i] == role[at[x].i]
    requires x.level > 0 ==> Parent(x) in at' && at'[Parent(x)].Node?
    requires forall y: nat :: y < BRANCHES && y != b ==> SameAt(at, at', Child(x, y))
    requires BranchOk(at', x, b, ref)
    ensures AddrOk(slots', at', home', role', x)
  {
    forall y: nat | y < BRANCHES
      ensures BranchOk(at', x, y, slots'[at[x].i].branch[y])
    {
      assert y != b ==> SameAt(at, at', Child(x, y));
      assert BranchOk(at, x, y, slots[at[x].i].branch[y]);
    }
  }

  // `x` holds the same slot, with the same contents, before and after.
  ghost predicate SameSlot(slots: seq<Slot>, at: Layout, role: seq<Role>,
                           slots': seq<Slot>, at': Layout, role': seq<Role>, x: Addr) {
    && SameAt(at, at', x)
    && (x in at ==>
      at[x].i < |slots| == |role| && at[x].i < |slots'| == |role'| &&
      slots'[at[x].i] == slots[at[x].i] && role'[at[x].i] == role[at[x].i])
  }

  // The rewriting touches only the positions `d`: everything else is still in order, provided the
  // children of an untouched node are where they were and a touched node stays one while a child of
  // it is left alone.
  lemma Untouched(slots: seq<Slot>, at: Layout, home: Homes, role: seq<Role>,
                  slots': seq<Slot>, at': Layout, home': Homes, role': seq<Role>, d: set<Addr>)
    requires Shape(slots, at, home, role)
    requires |slots| <= |slots'|
    requires forall x :: x !in d ==> SameSlot(slots, at, role, slots', at', role', x)
    requires forall x :: x in d && x.level > 0 ==> Parent(x) in d || SameAt(at, at', x)
    requires forall x :: x in at && x !in d && x.level > 0 && Parent(x) in d ==>
      Parent(x) in at' && at'[Parent(x)].Node?
    requires forall key :: key in home && home[key] !in d ==> key in home' && home'[key] == home[key]
    ensures forall x {:trigger AddrOk(slots', at', home', role', x)} :: x in at' && x !in d ==>
      AddrOk(slots', at', home', role', x)
    ensures forall key {:trigger HomeOk(slots', at', home', key)} :: key in home && home[key] !in d ==>
      HomeOk(slots', at', home', key)
    ensures forall key {:trigger LeafOf(slots', at', home', key)} ::
              key in home && home[key] !in d ==> LeafOf(slots', at', home', key) == LeafOf(slots, at, home, key)
  {
    forall key | key in home && home[key] !in d
      ensures HomeOk(slots', at', home', key)
      ensures LeafOf(slots', at', home', key) == LeafOf(slots, at, home, key)
    {
      assert HomeOk(slots, at, home, key) && SameSlot(slots, at, role, slots', at', role', home[key]);
    }
    forall x | x in at' && x !in d
      ensures AddrOk(slots', at', home', role', x)
    {
      assert SameSlot(slots, at, role, slots', at', role', x);
      assert AddrOk(slots, at, home, role, x);
      assert x.level > 0 && Parent(x) !in d ==> SameSlot(slots, at, role, slots', at', role', Parent(x));
      forall b: nat | at[x].Node? && b < BRANCHES
        ensures SameAt(at, at', Child(x, b))
      {
        var c := Child(x, b);
        assert c !in d ==> SameSlot(slots, at, role, slots', at', role', c);
        assert Parent(c) == x;
      }
      KeptPosition(slots, at, home, role, slots', at', home', role', x);
    }
  }

  // As above, and the touched positions are in order as well.
  lemma Rewired(slots: seq<Slot>, at: Layout, home: Homes, role: seq<Role>,
                slots': seq<Slot>, at': Layout, home': Homes, role': seq<Role>, d: set<Addr>)
    requires Shape(slots, at, home, role)
    requires |slots| <= |slots'|
    requires forall x :: x !in d ==> SameSlot(slots, at, role, slots', at', role', x)
    requires forall x :: x in d && x.level > 0 ==> Parent(x) in d || SameAt(at, at', x)
    requires forall x :: x in at && x !in d && x.level > 0 && Parent(x) in d ==>
      Parent(x) in at' && at'[Parent(x)].Node?
    requires forall key :: key in home && home[key] !in d ==> key in home' && home'[key] == home[key]
    requires forall x {:trigger AddrOk(slots', at', home', role', x)} :: x in at' && x in d ==>
      AddrOk(slots', at', home', role', x)
    requires TOP in at' && at'[TOP] == Node(1)
    requires forall key :: key in home' ==> (key in home && home[key] !in d) || HomeOk(slots', at', home', key)
    requires forall i: nat :: i < |role'| ==> InUse(at', role', i)
    ensures Shape(slots', at', home', role')
    ensures forall key {:trigger LeafOf(slots', at', home', key)} ::
              key in home && home[key] !in d ==> LeafOf(slots', at', home', key) == LeafOf(slots, at, home, key)
  {
    Untouched(slots, at, home, role, slots', at', home', role', d);
  }

  // Keys whose leaf is not among the given positions.
  lemma KeysElsewhere(slots: seq<Slot>, at: Layout, home: Homes, role: seq<Role>, d: set<Addr>)
    requires Shape(slots, at, home, role)
    requires forall x :: x in d && x in at ==> at[x].Node?
    ensures forall key :: key in home ==> home[key] !in d
  {
    forall key | key in home
      ensures home[key] !in d
    {
      assert HomeOk(slots, at, home, key);
    }
  }

  lemma NothingBelow(slots: seq<Slot>, at: Layout, home: Homes, role: seq<Role>, c: Addr)
    requires Shape(slots, at, home, role)
    requires c in at ==> at[c].Leaf?
    ensures forall y: nat :: y < BRANCHES ==> Child(c, y) !in at
    ensures forall x :: x in at && x.level > 0 ==> Parent(x) != c
  {
    forall y: nat | y < BRANCHES
      ensures Child(c, y) !in at
    {
      assert Child(c, y) in at ==> AddrOk(slots, at, home, role, Child(c, y));
    }
    forall x | x in at && x.level > 0
      ensures Parent(x) != c
    {
      assert AddrOk(slots, at, home, role, x);
    }
  }

  // A node without children, just put in place.
  lemma BareNode(slots: seq<Slot>, at: Layout, home: Homes, role: seq<Role>, c: Addr)
    requires c in at && at[c].Node? && 0 < c.level < LEVELS
    requires 0 < at[c].i < |slots| == |role|
    requires slots[at[c].i] == EMPTY_NODE && role[at[c].i] == Used(c)
    requires Parent(c) in at && at[Parent(c)].Node?
    requires forall y: nat :: y < BRANCHES ==> Child(c, y) !in at
    ensures AddrOk(slots, at, home, role, c)
  {
    forall y: nat | y < BRANCHES
      ensures BranchOk(at, c, y, slots[at[c].i].branch[y])
    {
      assert Child(c, y) !in at;
    }
  }

  // The slots `e`, and no others, were written or changed their role; slots added at the end are
  // not in use.
  ghost predicate Edited(slots: seq<Slot>, role: seq<Role>, slots': seq<Slot>, role': seq<Role>, e: set<nat>) {
    && |slots| == |role| <= |slots'| == |role'|
    && (forall i :: 0 <= i < |slots| && i !in e ==> slots'[i] == slots[i] && role'[i] == role[i])
    && (forall i :: |slots| <= i < |slots'| && i !in e ==> !role'[i].Used?)
  }

  // Slot `n` was not in use before and is now, at `c`.
  ghost predicate Taken(role: seq<Role>, role': seq<Role>, n: nat, c: Addr) {
    0 < n < |role'| && role'[n] == Used(c) && (n < |role| ==> !role[n].Used?)
  }

  // The node at `a` got `ref` on branch `b`.
  ghost predicate Rebranched(slots: seq<Slot>, role: seq<Role>, slots': seq<Slot>, role': seq<Role>, i: nat, b: nat,
                             ref: Ref) {
    && i < |slots| == |role| && i < |slots'| == |role'| && b < BRANCHES
    && slots[i].NodeSlot? && |slots[i].branch| == BRANCHES
    && slots'[i] == NodeSlot(slots[i].branch[b := ref]) && role'[i] == role[i]
  }

  lemma AttachNode(slots: seq<Slot>, at: Layout, home: Homes, role: seq<Role>, a: Addr, b: nat, n: nat,
                   slots': seq<Slot>, role': seq<Role>)
    requires Shape(slots, at, home, role)
    requires a in at && at[a].Node? && AddrOk(slots, at, home, role, a)
    requires b < BRANCHES && a.level + 1 < LEVELS && Child(a, b) !in at
    requires Edited(slots, role, slots', role', {at[a].i, n})
    requires Rebranched(slots, role, slots', role', at[a].i, b, Node(n))
    requires Taken(role, role', n, Child(a, b)) && slots'[n] == EMPTY_NODE
    ensures Shape(slots', at[Child(a, b) := Node(n)], home, role')
    ensures forall k {:trigger LeafOf(slots', at[Child(a, b) := Node(n)], home, k)} ::
              LeafOf(slots', at[Child(a, b) := Node(n)], home, k) == LeafOf(slots, at, home, k)
  {
    var c := Child(a, b);
    var at' := at[c := Node(n)];
    NothingBelow(slots, at, home, role, c);
    forall x | x !in {a, c}
      ensures SameSlot(slots, at, role, slots', at', role', x)
    {
      assert x in at ==> AddrOk(slots, at, home, role, x);
    }
    BareNode(slots', at', home, role', c);
    RewrittenNode(slots, at, home, role, slots', at', home, role', a, b, Node(n));
    KeysElsewhere(slots, at, home, role, {a, c});
    forall i: nat | i < |role'|
      ensures InUse(at', role', i)
    {
      assert i < |role| ==> InUse(at, role, i);
    }
    Rewired(slots, at, home, role, slots', at', home, role', {a, c});
  }

  lemma AttachLeaf(slots: seq<Slot>, at: Layout, home: Homes, role: seq<Role>, a: Addr, b: nat, n: nat, key: Rid,
                   slots': seq<Slot>, role': seq<Role>)
    requires Shape(slots, at, home, role)
    requires a in at && at[a].Node? && AddrOk(slots, at, home, role, a)
    requires b < BRANCHES && Child(a, b) !in at && Child(a, b) == Path(key, a.level + 1) && key !in home
    requires Edited(slots, role, slots', role', {at[a].i, n})
    requires Rebranched(slots, role, slots', role', at[a].i, b, Leaf(n))
    requires Taken(role, role', n, Child(a, b)) && slots'[n].LeafSlot? && slots'[n].pk == key
    ensures Shape(slots', at[Child(a, b) := Leaf(n)], home[key := Child(a, b)], role')
    ensures forall k {:trigger LeafOf(slots', at[Child(a, b) := Leaf(n)], home[key := Child(a, b)], k)} ::
              LeafOf(slots', at[Child(a, b) := Leaf(n)], home[key := Child(a, b)], k) ==
              if k == key then slots'[n] else LeafOf(slots, at, home, k)
  {
    var c := Child(a, b);
    var at', home' := at[c := Leaf(n)], home[key := c];
    NothingBelow(slots, at, home, role, c);
    forall x | x !in {a, c}
      ensures SameSlot(slots, at, role, slots', at', role', x)
    {
      assert x in at ==> AddrOk(slots, at, home, role, x);
    }
    assert AddrOk(slots', at', home', role', c);
    RewrittenNode(slots, at, home, role, slots', at', home', role', a, b, Leaf(n));
    KeysElsewhere(slots, at, home, role, {a, c});
    forall i: nat | i < |role'|
      ensures InUse(at', role', i)
    {
      assert i < |role| ==> InUse(at, role, i);
    }
    Rewired(slots, at, home, role, slots', at', home', role', {a, c});
  }

  // A node with a single child, on branch `d`.
  lemma SingleChild(slots: seq<Slot>, at: Layout, home: Homes, role: seq<Role>, c: Addr, d: nat)
    requires c in at && at[c].Node? && 0 < c.level < LEVELS && d < BRANCHES
    requires 0 < at[c].i < |slots| == |role| && role[at[c].i] == Used(c)
    requires Parent(c) in at && at[Parent(c)].Node?
    requires Child(c, d) in at && at[Child(c, d)] != NULL
    requires slots[at[c].i] == NodeSlot(EMPTY_NODE.branch[d := at[Child(c, d)]])
    requires forall y: nat :: y < BRANCHES && y != d ==> Child(c, y) !in at
    ensures AddrOk(slots, at, home, role, c)
  {
    forall y: nat | y < BRANCHES
      ensures BranchOk(at, c, y, slots[at[c].i].branch[y])
    {
      assert y != d ==> Child(c, y) !in at;
    }
  }

  // Keys other than `key` keep their leaf when the positions `d` hold no other leaf.
  lemma KeysApart(slots: seq<Slot>, at: Layout, home: Homes, role: seq<Role>, d: set<Addr>, key: Rid)
    requires Shape(slots, at, home, role)
    requires key in home
    requires forall x :: x in d && x in at && at[x].Leaf? ==> x == home[key]
    ensures forall k :: k in home && k != key ==> home[k] !in d
  {
    forall k | k in home && k != key
      ensures home[k] !in d
    {
      assert HomeOk(slots, at, home, k) && HomeOk(slots, at, home, key);
    }
  }

  // The leaf of `key`, on branch `b` of the node at `a`, moves one level down, below the new node `n`.
  lemma SplitLeaf(slots: seq<Slot>, at: Layout, home: Homes, role: seq<Role>, a: Addr, b: nat, n: nat, key: Rid, d: nat,
                  slots': seq<Slot>, role': seq<Role>)
    requires Shape(slots, at, home, role)
    requires a in at && at[a].Node? && AddrOk(slots, at, home, role, a)
    requires b < BRANCHES && a.level + 1 < LEVELS
    requires key in home && home[key] == Child(a, b) && HomeOk(slots, at, home, key)
    requires AddrOk(slots, at, home, role, Child(a, b))
    requires d == Digit(key, a.level + 1)
    requires Edited(slots, role, slots', role', {at[a].i, n, at[Child(a, b)].i})
    requires Rebranched(slots, role, slots', role', at[a].i, b, Node(n))
    requires Taken(role, role', n, Child(a, b)) && slots'[n] == NodeSlot(EMPTY_NODE.branch[d := at[Child(a, b)]])
    requires slots'[at[Child(a, b)].i] == slots[at[Child(a, b)].i]
    requires role'[at[Child(a, b)].i] == Used(Child(Child(a, b), d))
    ensures Shape(slots', at[Child(a, b) := Node(n)][Child(Child(a, b), d) := at[Child(a, b)]],
                  home[key := Child(Child(a, b), d)], role')
    ensures
      var at', home' := at[Child(a, b) := Node(n)][Child(Child(a, b), d) := at[Child(a, b)]],
        home[key := Child(Child(a, b), d)];
      forall k {:trigger LeafOf(slots', at', home', k)} :: LeafOf(slots', at', home', k) == LeafOf(slots, at, home, k)
    ensures Child(Child(a, b), d) !in at
  {
    var c := Child(a, b);
    var e := Child(c, d);
    var at', home' := at[c := Node(n)][e := at[c]], home[key := e];
    PathStep(key, a.level + 1);
    NothingBelow(slots, at, home, role, c);
    NothingBelow(slots, at, home, role, e);
    forall x | x !in {a, c, e}
      ensures SameSlot(slots, at, role, slots', at', role', x)
    {
      assert x in at ==> AddrOk(slots, at, home, role, x);
    }
    SingleChild(slots', at', home', role', c, d);
    assert AddrOk(slots', at', home', role', e);
    RewrittenNode(slots, at, home, role, slots', at', home', role', a, b, Node(n));
    KeysApart(slots, at, home, role, {a, c, e}, key);
    forall i: nat | i < |role'|
      ensures InUse(at', role', i)
    {
      assert i < |role| ==> InUse(at, role, i);
    }
    Rewired(slots, at, home, role, slots', at', home', role', {a, c, e});
  }

  // The leaf of `key`, on branch `b` of the node at `a`, is taken away.
  lemma DetachLeaf(slots: seq<Slot>, at: Layout, home: Homes, role: seq<Role>, a: Addr, b: nat, key: Rid,
                   slots': seq<Slot>, role': seq<Role>)
    requires Shape(slots, at, home, role)
    requires a in at && at[a].Node? && AddrOk(slots, at, home, role, a)
    requires b < BRANCHES
    requires key in home && home[key] == Child(a, b) && HomeOk(slots, at, home, key)
    requires AddrOk(slots, at, home, role, Child(a, b))
    requires Edited(slots, role, slots', role', {at[a].i, at[Child(a, b)].i}) && |slots'| == |slots|
    requires Rebranched(slots, role, slots', role', at[a].i, b, NULL)
    requires !role'[at[Child(a, b)].i].Used?
    ensures Shape(slots', at - {Child(a, b)}, home - {key}, role')
    ensures forall k {:trigger LeafOf(slots', at - {Child(a, b)}, home - {key}, k)} ::
              LeafOf(slots', at - {Child(a, b)}, home - {key}, k) == if k == key then Blank
                else LeafOf(slots, at, home, k)
  {
    var c := Child(a, b);
    var at', home' := at - {c}, home - {key};
    NothingBelow(slots, at, home, role, c);
    forall x | x !in {a, c}
      ensures SameSlot(slots, at, role, slots', at', role', x)
    {
      assert x in at ==> AddrOk(slots, at, home, role, x);
    }
    RewrittenNode(slots, at, home, role, slots', at', home', role', a, b, NULL);
    KeysApart(slots, at, home, role, {a, c}, key);
    forall i: nat | i < |role'|
      ensures InUse(at', role', i)
    {
      assert InUse(at, role, i);
    }
    Rewired(slots, at, home, role, slots', at', home', role', {a, c});
  }

  // All branches but perhaps `y` are empty.
  lemma OnlyChild(at: Layout, c: Addr, y: nat)
    requires forall z: nat :: z < BRANCHES && z != y ==> Child(c, z) !in at
    ensures forall x :: x in at && x.level > 0 && Parent(x) == c ==> y < BRANCHES && x == Child(c, y)
  {
    forall x | x in at && x.level > 0 && Parent(x) == c
      ensures y < BRANCHES && x == Child(c, y)
    {
      ChildOfParent(x);
    }
  }

  // The node on branch `b` of the node at `a` has no children left and is taken away.
  lemma CullNode(slots: seq<Slot>, at: Layout, home: Homes, role: seq<Role>, a: Addr, b: nat,
                 slots': seq<Slot>, role': seq<Role>)
    requires Shape(slots, at, home, role)
    requires a in at && at[a].Node? && AddrOk(slots, at, home, role, a)
    requires b < BRANCHES && Child(a, b) in at && at[Child(a, b)].Node?
    requires AddrOk(slots, at, home, role, Child(a, b))
    requires forall y: nat :: y < BRANCHES ==> Child(Child(a, b), y) !in at
    requires Edited(slots, role, slots', role', {at[a].i, at[Child(a, b)].i}) && |slots'| == |slots|
    requires Rebranched(slots, role, slots', role', at[a].i, b, NULL)
    requires !role'[at[Child(a, b)].i].Used?
    ensures Shape(slots', at - {Child(a, b)}, home, role')
    ensures forall k {:trigger LeafOf(slots', at - {Child(a, b)}, home, k)} ::
              LeafOf(slots', at - {Child(a, b)}, home, k) == LeafOf(slots, at, home, k)
  {
    var c := Child(a, b);
    var at' := at - {c};
    forall x | x !in {a, c}
      ensures SameSlot(slots, at, role, slots', at', role', x)
    {
      assert x in at ==> AddrOk(slots, at, home, role, x);
    }
    OnlyChild(at, c, BRANCHES);
    RewrittenNode(slots, at, home, role, slots', at', home, role', a, b, NULL);
    KeysElsewhere(slots, at, home, role, {a, c});
    forall i: nat | i < |role'|
      ensures InUse(at', role', i)
    {
      assert InUse(at, role, i);
    }
    Rewired(slots, at, home, role, slots', at', home, role', {a, c});
  }

  // The node on branch `b` of the node at `a` has one child, the leaf of `key`; the leaf takes its place.
  lemma MergeNode(slots: seq<Slot>, at: Layout, home: Homes, role: seq<Role>, a: Addr, b: nat, y: nat, key: Rid,
                  slots': seq<Slot>, role': seq<Role>)
    requires Shape(slots, at, home, role)
    requires a in at && at[a].Node? && AddrOk(slots, at, home, role, a)
    requires b < BRANCHES && y < BRANCHES
    requires Child(a, b) in at && at[Child(a, b)].Node? && AddrOk(slots, at, home, role, Child(a, b))
    requires key in home && home[key] == Child(Child(a, b), y) && HomeOk(slots, at, home, key)
    requires AddrOk(slots, at, home, role, home[key])
    requires forall z: nat :: z < BRANCHES && z != y ==> Child(Child(a, b), z) !in at
    requires Edited(slots, role, slots', role', {at[a].i, at[Child(a, b)].i, at[home[key]].i}) && |slots'| == |slots|
    requires Rebranched(slots, role, slots', role', at[a].i, b, at[home[key]])
    requires !role'[at[Child(a, b)].i].Used?
    requires slots'[at[home[key]].i] == slots[at[home[key]].i] && role'[at[home[key]].i] == Used(Child(a, b))
    ensures Shape(slots', (at - {home[key]})[Child(a, b) := at[home[key]]], home[key := Child(a, b)], role')
    ensures
      var at', home' := (at - {home[key]})[Child(a, b) := at[home[key]]], home[key := Child(a, b)];
      forall k {:trigger LeafOf(slots', at', home', k)} :: LeafOf(slots', at', home', k) == LeafOf(slots, at, home, k)
  {
    var c, e := Child(a, b), home[key];
    var at', home' := (at - {e})[c := at[e]], home[key := c];
    PathStep(key, c.level);
    NothingBelow(slots, at, home, role, e);
    forall x | x !in {a, c, e}
      ensures SameSlot(slots, at, role, slots', at', role', x)
    {
      assert x in at ==> AddrOk(slots, at, home, role, x);
    }
    OnlyChild(at, c, y);
    assert AddrOk(slots', at', home', role', c);
    RewrittenNode(slots, at, home, role, slots', at', home', role', a, b, at[e]);
    KeysApart(slots, at, home, role, {a, c, e}, key);
    forall i: nat | i < |role'|
      ensures InUse(at', role', i)
    {
      assert InUse(at, role, i);
    }
    Rewired(slots, at, home, role, slots', at', home', role', {a, c, e});
  }

  // The whole path down to the leaf of a key is in the tree, and leads through nodes.
  lemma {:induction false} OnPath(slots: seq<Slot>, at: Layout, home: Homes, role: seq<Role>, key: Rid, i: nat)
    requires Shape(slots, at, home, role)
    requires key in home && i <= home[key].level
    ensures home[key].level <= LEVELS && home[key] == Path(key, home[key].level)
    ensures Path(key, i) in at
    ensures i < home[key].level ==> at[Path(key, i)].Node?
    ensures i == home[key].level ==>
      at[Path(key, i)].Leaf? && at[Path(key, i)].i < |slots| && slots[at[Path(key,
        i)].i].LeafSlot? && slots[at[Path(key, i)].i].pk == key
    decreases LEVELS - i
  {
    assert HomeOk(slots, at, home, key);
    assert AddrOk(slots, at, home, role, home[key]);
    if i < home[key].level {
      OnPath(slots, at, home, role, key, i + 1);
      PathStep(key, i);
      assert AddrOk(slots, at, home, role, Path(key, i + 1));
    }
  }

  // A position on the path of a key that holds no node: either the leaf there is the key's, or the
  // key is not in the tree.
  lemma PathEnds(slots: seq<Slot>, at: Layout, home: Homes, role: seq<Role>, key: Rid, i: nat)
    requires Shape(slots, at, home, role)
    requires i < LEVELS && Path(key, i) in at && at[Path(key, i)].Node?
    requires Path(key, i + 1) in at ==> at[Path(key, i + 1)].Leaf?
    ensures
      var c := Path(key, i + 1);
      key in home <==>
        c in at && at[c].i < |slots| && slots[at[c].i].LeafSlot? && slots[at[c].i].pk == key
    ensures key in home ==> home[key] == Path(key, i + 1)
  {
    var c := Path(key, i + 1);
    if key in home {
      OnPath(slots, at, home, role, key, if home[key].level <= i then home[key].level else i + 1);
      if home[key].level <= i {
        OnPath(slots, at, home, role, key, home[key].level);
        NodesAbove(slots, at, home, role, key, home[key].level, i);
      }
    } else if c in at {
      assert AddrOk(slots, at, home, role, c);
    }
  }

  // Above a node there are only nodes.
  lemma {:induction false} NodesAbove(slots: seq<Slot>, at: Layout, home: Homes, role: seq<Role>, key: Rid, i: nat,
                                      j: nat)
    requires Shape(slots, at, home, role)
    requires i <= j < LEVELS && Path(key, j) in at && at[Path(key, j)].Node?
    ensures Path(key, i) in at && at[Path(key, i)].Node?
    decreases j - i
  {
    if i < j {
      assert AddrOk(slots, at, home, role, Path(key, j));
      PathStep(key, j - 1);
      NodesAbove(slots, at, home, role, key, i, j - 1);
    }
  }

  // The writes of a split, once slot `n` was handed out for the new node.
  lemma SplitWrites(slots: seq<Slot>, at: Layout, home: Homes, role: seq<Role>, a: Addr, b: nat, key: Rid, d: nat,
                    h: Header, slots1: seq<Slot>, role1: seq<Role>, spare: Spare, n: nat)
    requires Shape(slots, at, home, role)
    requires a in at && at[a].Node? && AddrOk(slots, at, home, role, a)
    requires b < BRANCHES && a.level + 1 < LEVELS
    requires key in home && home[key] == Child(a, b) && HomeOk(slots, at, home, key)
    requires AddrOk(slots, at, home, role, Child(a, b))
    requires d == Digit(key, a.level + 1)
    requires HandedOut(slots, role, slots1, role1, n, Child(a, b), EMPTY_NODE)
    requires Allocator(h, slots1, role1, spare)
    ensures n != at[a].i && n != at[home[key]].i && slots1[at[a].i] == slots[at[a].i]
    ensures
      var c := Child(a, b);
      var e, l := Child(c, d), at[c];
      var at', home' := at[c := Node(n)][e := l], home[key := e];
      var slots', role' := SetBranch(SetBranch(slots1, at[a].i, b, Node(n)), n, d, l), role1[l.i := Used(e)];
      && Shape(slots', at', home', role')
      && (forall k {:trigger LeafOf(slots', at', home', k)} ::
            LeafOf(slots', at', home', k) == LeafOf(slots, at, home, k))
      && Allocator(h, slots', role', spare)
      && |at'| == |at| + 1 && |home'| == |home| && home'.Keys == home.Keys
      && at'[a] == at[a] && at'[c] == Node(n)
  {
    var c := Child(a, b);
    var e, l := Child(c, d), at[c];
    var slots2 := SetBranch(slots1, at[a].i, b, Node(n));
    var slots', role' := SetBranch(slots2, n, d, l), role1[l.i := Used(e)];
    assert Edited(slots, role, slots', role', {at[a].i, n, l.i});
    SplitLeaf(slots, at, home, role, a, b, n, key, d, slots', role');
    AllocatorFrame(h, slots1, slots', role1, role', spare);
    assert home[key := e].Keys == home.Keys;
  }

  lemma SmallerMap<K, V>(m: map<K, V>, k: K)
    requires k in m
    ensures |m - {k}| == |m| - 1
  {
    assert (m - {k}).Keys == m.Keys - {k};
    assert |m.Keys| == |m| && |(m - {k}).Keys| == |m - {k}|;
  }

  // The writes of a merge, once the node was given back.
  lemma MergeWrites(slots: seq<Slot>, at: Layout, home: Homes, role: seq<Role>, a: Addr, b: nat, y: nat, key: Rid,
                    h: Header, slots1: seq<Slot>, role1: seq<Role>, spare: Spare)
    requires Shape(slots, at, home, role)
    requires a in at && at[a].Node? && AddrOk(slots, at, home, role, a)
    requires b < BRANCHES && y < BRANCHES
    requires Child(a, b) in at && at[Child(a, b)].Node? && AddrOk(slots, at, home, role, Child(a, b))
    requires key in home && home[key] == Child(Child(a, b), y) && HomeOk(slots, at, home, key)
    requires AddrOk(slots, at, home, role, home[key])
    requires forall z: nat :: z < BRANCHES && z != y ==> Child(Child(a, b), z) !in at
    requires Edited(slots, role, slots1, role1, {at[Child(a, b)].i}) && |slots1| == |slots|
    requires !role1[at[Child(a, b)].i].Used?
    requires Allocator(h, slots1, role1, spare)
    ensures at[a].i != at[Child(a, b)].i && slots1[at[a].i] == slots[at[a].i]
    ensures
      var c, e := Child(a, b), home[key];
      var at', home' := (at - {e})[c := at[e]], home[key := c];
      var slots', role' := SetBranch(slots1, at[a].i, b, at[e]), role1[at[e].i := Used(c)];
      && Shape(slots', at', home', role')
      && (forall k {:trigger LeafOf(slots', at', home', k)} ::
            LeafOf(slots', at', home', k) == LeafOf(slots, at, home, k))
      && Allocator(h, slots', role', spare)
      && |at'| == |at| - 1 && |home'| == |home| && home'.Keys == home.Keys
  {
    var c, e := Child(a, b), home[key];
    var slots', role' := SetBranch(slots1, at[a].i, b, at[e]), role1[at[e].i := Used(c)];
    MergeNode(slots, at, home, role, a, b, y, key, slots', role');
    AllocatorFrame(h, slots1, slots', role1, role', spare);
    SmallerMap(at, e);
    assert home[key := c].Keys == home.Keys;
  }

  // Rewriting the contents of a leaf, but not its key.
  lemma WriteLeaf(slots: seq<Slot>, at: Layout, home: Homes, role: seq<Role>, key: Rid, block: nat, length: nat)
    requires Shape(slots, at, home, role)
    requires key in home && HomeOk(slots, at, home, key)
    ensures
      var l := at[home[key]].i;
      var slots' := slots[l := LeafSlot(key, block, length)];
      && Shape(slots', at, home, role)
      && l < |role| && role[l].Used?
      && (forall k {:trigger LeafOf(slots', at, home, k)} ::
            LeafOf(slots', at, home, k) == if k == key then LeafSlot(key, block, length)
              else LeafOf(slots, at, home, k))
  {
    var l := at[home[key]].i;
    var slots' := slots[l := LeafSlot(key, block, length)];
    assert AddrOk(slots, at, home, role, home[key]);
    forall a | a in at
      ensures AddrOk(slots', at, home, role, a)
    {
      assert AddrOk(slots, at, home, role, a);
      if at[a].Node? {
        forall b: nat | b < BRANCHES
          ensures BranchOk(at, a, b, slots'[at[a].i].branch[b])
        {
          assert BranchOk(at, a, b, slots[at[a].i].branch[b]);
        }
      }
    }
    forall k | k in home
      ensures HomeOk(slots', at, home, k)
      ensures k != key ==> at[home[k]].i != l
    {
      assert HomeOk(slots, at, home, k) && AddrOk(slots, at, home, role, home[k]);
    }
  }

  ghost function LengthOf(s: Slot): nat {
    if s.LeafSlot? then s.length else 0
  }

  // The lengths recorded in the leaves.
  ghost function Lengths(slots: seq<Slot>, at: Layout, home: Homes): map<Rid, nat> {
    map k | k in home :: LengthOf(LeafOf(slots, at, home, k))
  }

  ghost function Total(m: map<Rid, nat>): nat {
    if m == map[] then 0
    else
      var k :| k in m;
      m[k] + Total(m - {k})
  }

  lemma {:induction false} TotalSplit(m: map<Rid, nat>, k: Rid)
    requires k in m
    ensures Total(m) == m[k] + Total(m - {k})
    decreases |m|
  {
    var j :| j in m && Total(m) == m[j] + Total(m - {j});
    if j != k {
      SmallerMap(m, j);
      SmallerMap(m, k);
      TotalSplit(m - {j}, k);
      TotalSplit(m - {k}, j);
      assert m - {j} - {k} == m - {k} - {j};
    }
  }

  lemma TotalUpdate(m: map<Rid, nat>, k: Rid, v: nat)
    ensures Total(m[k := v]) == Total(m - {k}) + v
    ensures k in m ==> Total(m) == m[k] + Total(m - {k})
    ensures k !in m ==> m - {k} == m
  {
    TotalSplit(m[k := v], k);
    assert m[k := v] - {k} == m - {k};
    if k in m {
      TotalSplit(m, k);
    }
  }

  // How the total follows the contents of one leaf: all others keep theirs.
  lemma TotalFollows(slots: seq<Slot>, at: Layout, home: Homes, slots': seq<Slot>, at': Layout, home': Homes, key: Rid)
    requires forall k {:trigger LeafOf(slots', at', home', k)} :: k != key ==>
      LeafOf(slots', at', home', k) == LeafOf(slots, at, home, k)
    requires home'.Keys == home.Keys || home'.Keys == home.Keys + {key} || home'.Keys == home.Keys - {key}
    ensures Total(Lengths(slots', at', home')) - (if key in home' then LengthOf(LeafOf(slots', at', home', key))
      else 0) ==
            Total(Lengths(slots, at, home)) - (if key in home then LengthOf(LeafOf(slots, at, home, key)) else 0)
  {
    var m, m' := Lengths(slots, at, home), Lengths(slots', at', home');
    assert m' - {key} == m - {key};
    TotalUpdate(m, key, 0);
    TotalUpdate(m', key, 0);
  }

  // Lengths that only shrink, with keys dropped only at length 0, keep the total exactly if none shrank.
  lemma {:induction false} TotalShrinks(m: map<Rid, nat>, m': map<Rid, nat>)
    requires m'.Keys <= m.Keys
    requires forall k :: k in m' ==> m'[k] <= m[k]
    ensures Total(m') <= Total(m)
    ensures Total(m') == Total(m) ==>
      (forall k :: k in m' ==> m'[k] == m[k]) && (forall k :: k in m && k !in m' ==> m[k] == 0)
    decreases |m|
  {
    if m != map[] {
      var k :| k in m;
      SmallerMap(m, k);
      TotalShrinks(m - {k}, m' - {k});
      TotalUpdate(m, k, 0);
      TotalUpdate(m', k, 0);
      if Total(m') == Total(m) {
        assert forall j :: j in m' && j != k ==> (m' - {k})[j] == m'[j] && (m - {k})[j] == m[j];
        assert forall j :: j in m && j !in m' && j != k ==> j in m - {k} && (m - {k})[j] == m[j];
      }
    } else {
      assert m' == map[];
    }
  }

  ghost function RowLengths(t: Tree): map<Rid, nat> {
    map k | k in t :: |t[k]|
  }

  // Whether a removal found anything shows in the total of the lengths.
  lemma ShrunkTree(t: Tree, pattern: Pair)
    requires NoEmptyKeys(t)
    ensures Total(RowLengths(TreeRemoveAll(t, pattern))) == Total(RowLengths(t)) <==> TreeRemoveAll(t, pattern) == t
  {
    var t' := TreeRemoveAll(t, pattern);
    forall k | k in t
      ensures |Keep(pattern, t[k])| <= |t[k]|
      ensures |Keep(pattern, t[k])| == |t[k]| ==> Keep(pattern, t[k]) == t[k]
    {
      KeepNothing(pattern, t[k]);
    }
    TotalShrinks(RowLengths(t), RowLengths(t'));
    if Total(RowLengths(t')) == Total(RowLengths(t)) {
      assert forall k :: k in t' ==> RowLengths(t')[k] == RowLengths(t)[k];
      forall k | k in t
        ensures k in t'
      {
        assert RowLengths(t)[k] == |t[k]|;
      }
    }
  }

  const NEW_HEADER := Header(2, SIZE_INC, 2, SIZE_INC, SIZE_INC + 1, 2 * SIZE_INC, 2, SIZE_INC, NULL, 0)

  function NewSlots(): seq<Slot> {
    [Blank, EMPTY_NODE] + seq(2 * SIZE_INC - 2, _ => Blank)
  }

  ghost function NewRoles(): seq<Role> {
    seq(2 * SIZE_INC, i =>
      if i == 0 || i == SIZE_INC then Reserved
        else if i == 1 then Used(TOP) else if i < SIZE_INC then FreshNode else FreshLeaf)
  }

  // The file as fs_ptree_write_header leaves it.
  lemma NewTree()
    ensures Allocator(NEW_HEADER, NewSlots(), NewRoles(), Spare([], []))
    ensures Shape(NewSlots(), map[TOP := Node(1)], map[], NewRoles())
  {
    var at: Layout := map[TOP := Node(1)];
    assert NewSlots()[1] == EMPTY_NODE;
    forall b: nat | b < BRANCHES
      ensures BranchOk(at, TOP, b, EMPTY_NODE.branch[b])
    {
      assert Child(TOP, b) != TOP;
    }
    assert AddrOk(NewSlots(), at, map[], NewRoles(), TOP);
  }

  // ---- no bare nodes ----

  ghost predicate Bare(at: Layout, a: Addr) {
    forall y: nat :: y < BRANCHES ==> Child(a, y) !in at
  }

  // Every node but the root and `but` has something below it.
  ghost predicate Bushy(at: Layout, but: Addr) {
    forall x: Addr {:trigger Bare(at, x)} :: x in at && at[x].Node? && x != TOP && x != but ==> !Bare(at, x)
  }

  lemma BushyBut(at: Layout, but: Addr)
    requires Bushy(at, TOP)
    ensures Bushy(at, but)
  {
  }

  // A node with a child needs no exception.
  lemma BushyAll(at: Layout, a: Addr, b: nat)
    requires Bushy(at, a) && b < BRANCHES && Child(a, b) in at
    ensures Bushy(at, TOP)
  {
  }

  lemma StillBushy(at: Layout, at': Layout, x: Addr)
    requires !Bare(at, x) && forall c :: c in at && c.level == x.level + 1 && Parent(c) == x ==> c in at'
    ensures !Bare(at', x)
  {
    var y: nat :| y < BRANCHES && Child(x, y) in at;
    assert Child(x, y) in at';
  }

  // Something new below the node at `a`; if it is a node it has nothing below it yet.
  lemma BushyMore(at: Layout, a: Addr, b: nat, ref: Ref)
    requires Bushy(at, a) && b < BRANCHES
    ensures Bushy(at[Child(a, b) := ref], if ref.Leaf? then TOP else Child(a, b))
  {
    var at' := at[Child(a, b) := ref];
    forall x: Addr | x in at' && at'[x].Node? && x != TOP && x != Child(a, b)
      ensures !Bare(at', x)
    {
      if x == a {
        assert Child(x, b) in at';
      } else {
        StillBushy(at, at', x);
      }
    }
  }

  // A leaf moves below a new node.
  lemma BushySplit(at: Layout, c: Addr, d: nat, n: nat, leaf: Ref)
    requires Bushy(at, TOP) && c in at && d < BRANCHES && leaf.Leaf?
    ensures Bushy(at[c := Node(n)][Child(c, d) := leaf], TOP)
  {
    var at' := at[c := Node(n)][Child(c, d) := leaf];
    forall x: Addr | x in at' && at'[x].Node? && x != TOP
      ensures !Bare(at', x)
    {
      if x == c {
        assert Child(x, d) in at';
      } else {
        StillBushy(at, at', x);
      }
    }
  }

  // What is taken away had nothing below it, or is a leaf.
  lemma BushyLess(at: Layout, a: Addr, b: nat)
    requires b < BRANCHES && Bushy(at, Child(a, b))
    ensures Bushy(at - {Child(a, b)}, a)
  {
    var at' := at - {Child(a, b)};
    forall x: Addr | x in at' && at'[x].Node? && x != TOP && x != a
      ensures !Bare(at', x)
    {
      StillBushy(at, at', x);
    }
  }

  // A leaf takes the place of the node above it.
  lemma BushyMerge(at: Layout, c: Addr, y: nat, leaf: Ref)
    requires y < BRANCHES && Bushy(at, TOP) && leaf.Leaf?
    ensures Bushy((at - {Child(c, y)})[c := leaf], TOP)
  {
    var at' := (at - {Child(c, y)})[c := leaf];
    forall x: Addr | x in at' && at'[x].Node? && x != TOP
      ensures !Bare(at', x)
    {
      StillBushy(at, at', x);
    }
  }
}
