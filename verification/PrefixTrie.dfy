/**
  The trie of string prefixes that have a code. A prefix's code is kept on the node before its last byte.
 */
module PrefixTries {
  import opened Literals

  const EDGES := 16
  const TRIE_SIZE := 4096

  // A label of 0 marks an unused edge; the used ones come first.
  datatype Node = Node(code: nat, labels: seq<Byte>, edges: seq<nat>)

  const CLEARED := Node(0, seq(EDGES, _ => 0), seq(EDGES, _ => 0))

  // The labels of the used edges.
  function Used(n: Node): Text {
    Terminated(n.labels)
  }

  // Where the search for a byte ends: at the edge that carries it, at the first unused edge, or past
  // the last one.
  function FindEdge(labels: seq<Byte>, c: Byte): (e: nat)
    requires c != 0
    ensures e <= |labels|
    ensures forall i :: 0 <= i < e ==> labels[i] != c && labels[i] != 0
    ensures e < |labels| ==> labels[e] == c || labels[e] == 0
  {
    if labels == [] || labels[0] == c || labels[0] == 0 then 0 else 1 + FindEdge(labels[1..], c)
  }

  // Edge `e` of a node leads to a node one byte further down.
  ghost predicate EdgeOk(nodes: seq<Node>, path: seq<Text>, n: nat, e: nat)
    requires n < |nodes| && n < |path| && e < |nodes[n].labels| == |nodes[n].edges|
  {
    0 < nodes[n].edges[e] < |path| && path[nodes[n].edges[e]] == path[n] + [nodes[n].labels[e]]
  }

  // Node `n` is at `path[n]`, and its code, if any, is that of a string one byte longer.
  ghost predicate NodeOk(nodes: seq<Node>, path: seq<Text>, registered: map<nat, Text>, n: nat)
    requires n < |nodes| && n < |path|
  {
    && |nodes[n].labels| == |nodes[n].edges| == EDGES
    && (forall i :: |Used(nodes[n])| <= i < EDGES ==> nodes[n].labels[i] == 0)
    && (forall e: nat {:trigger EdgeOk(nodes, path, n, e)} :: e < |Used(nodes[n])| ==> EdgeOk(nodes, path, n, e))
    && (nodes[n].code != 0 ==> CodeOk(registered, nodes[n], path[n]))
  }

  ghost predicate CodeOk(registered: map<nat, Text>, node: Node, path: Text) {
    && node.code in registered
    && var s := registered[node.code];
    && |s| == |path| + 1 && s[..|path|] == path && s[|path|] in Used(node)
  }

  // The node that the first `k` bytes of a string lead to, or 0.
  ghost function Reach(nodes: seq<Node>, root: nat, s: Text, k: nat): nat
    requires k <= |s|
  {
    if k == 0 then root
    else
      var n := Reach(nodes, root, s, k - 1);
      if n == 0 || n >= |nodes| then 0
      else
        var e := FindEdge(nodes[n].labels, s[k - 1]);
        if e < |nodes[n].labels| && e < |nodes[n].edges| && nodes[n].labels[e] == s[k - 1] then nodes[n].edges[e] else 0
  }

  // The first `k` bytes of a string end on the only edge of a node with a code.
  ghost predicate Coded(nodes: seq<Node>, root: nat, s: Text, k: nat)
    requires k <= |s|
  {
    && k > 0 && Reach(nodes, root, s, k) != 0
    && var n := Reach(nodes, root, s, k - 1);
    0 < n < |nodes| && nodes[n].code != 0 && |Used(nodes[n])| == 1
  }

  // The node that `k` bytes lead to has all its edges in use, none of them for the next byte.
  ghost predicate StuckAt(nodes: seq<Node>, root: nat, s: Text, k: nat)
    requires k < |s|
  {
    var n := Reach(nodes, root, s, k);
    0 < n < |nodes| && FindEdge(nodes[n].labels, s[k]) == EDGES
  }

  lemma {:induction false} ReachStops(nodes: seq<Node>, root: nat, s: Text, j: nat, k: nat)
    requires j <= k <= |s| && Reach(nodes, root, s, j) == 0
    ensures Reach(nodes, root, s, k) == 0
  {
    if j < k {
      ReachStops(nodes, root, s, j, k - 1);
    }
  }

  // An edge that carries a byte is a used one.
  lemma FoundUsed(labels: seq<Byte>, c: Byte)
    requires c != 0
    ensures
      var e := FindEdge(labels, c);
      && e <= |Terminated(labels)|
      && (e < |labels| && labels[e] == c <==> e < |Terminated(labels)|)
  {
  }

  ghost predicate NodesOk(nodes: seq<Node>, path: seq<Text>, registered: map<nat, Text>) {
    && |path| <= |nodes|
    && (forall n: nat {:trigger NodeOk(nodes, path, registered, n)} ::
          0 < n < |path| ==> NodeOk(nodes, path, registered, n))
  }

  // Node `n` with one more edge.
  function WithEdge(node: Node, e: nat, c: Byte, child: nat): Node
    requires e < |node.labels| && e < |node.edges|
  {
    Node(node.code, node.labels[e := c], node.edges[e := child])
  }

  // Appending a byte where the used labels end.
  lemma UsedMore(labels: seq<Byte>, c: Byte)
    requires |Terminated(labels)| < |labels| && c != 0
    requires forall i :: |Terminated(labels)| <= i < |labels| ==> labels[i] == 0
    ensures Terminated(labels[|Terminated(labels)| := c]) == Terminated(labels) + [c]
  {
    var u := Terminated(labels);
    var labels' := labels[|u| := c];
    assert labels'[..|u| + 1] == u + [c];
    TerminatedPadded(u + [c], labels');
  }

  // The node at the end of the list is new, and `n` gets an edge to it.
  lemma EdgeAdded(nodes: seq<Node>, path: seq<Text>, registered: map<nat, Text>, n: nat, c: Byte)
    requires NodesOk(nodes, path, registered) && 0 < n < |path| < |nodes| && c != 0 && |Used(nodes[n])| < EDGES
    ensures |nodes[n].labels| == |nodes[n].edges| == EDGES
    ensures
      var nodes' := nodes[|path| := CLEARED][n := WithEdge(nodes[n], |Used(nodes[n])|, c, |path|)];
      NodesOk(nodes', path + [path[n] + [c]], registered)
  {
    assert NodeOk(nodes, path, registered, n);
    var u := |Used(nodes[n])|;
    var nodes' := nodes[|path| := CLEARED][n := WithEdge(nodes[n], u, c, |path|)];
    var path' := path + [path[n] + [c]];
    UsedMore(nodes[n].labels, c);
    forall m: nat | 0 < m < |path'|
      ensures NodeOk(nodes', path', registered, m)
    {
      if m == |path| {
        assert Used(CLEARED) == [];
      } else {
        assert NodeOk(nodes, path, registered, m);
        forall e: nat | e < |Used(nodes'[m])|
          ensures EdgeOk(nodes', path', m, e)
        {
          assert m != n || e < u ==> EdgeOk(nodes, path, m, e);
        }
      }
    }
  }

  // Node `n` gets the code of a string one byte longer than its path.
  lemma CodeSet(nodes: seq<Node>, path: seq<Text>, registered: map<nat, Text>, n: nat, code: nat, s: Text)
    requires NodesOk(nodes, path, registered) && 0 < n < |path|
    requires code in registered && registered[code] == s
    requires |s| == |path[n]| + 1 && s[..|path[n]|] == path[n] && s[|path[n]|] in Used(nodes[n])
    ensures NodesOk(nodes[n := nodes[n].(code := code)], path, registered)
  {
    var nodes' := nodes[n := nodes[n].(code := code)];
    forall m: nat {:trigger NodeOk(nodes', path, registered, m)} | 0 < m < |path|
      ensures NodeOk(nodes', path, registered, m)
    {
      assert NodeOk(nodes, path, registered, m);
      forall e: nat | e < |Used(nodes'[m])|
        ensures EdgeOk(nodes', path, m, e)
      {
        assert EdgeOk(nodes, path, m, e);
      }
    }
  }

  lemma Registered(nodes: seq<Node>, path: seq<Text>, registered: map<nat, Text>, code: nat, s: Text)
    requires NodesOk(nodes, path, registered) && code !in registered
    ensures NodesOk(nodes, path, registered[code := s])
  {
    var registered' := registered[code := s];
    forall m: nat | 0 < m < |path|
      ensures NodeOk(nodes, path, registered', m)
    {
      assert NodeOk(nodes, path, registered, m);
    }
  }

  // Reaching `k` bytes down does not look at nodes that are not above.
  lemma {:induction false} ReachKept(nodes: seq<Node>, nodes': seq<Node>, root: nat, s: Text, k: nat)
    requires k <= |s| && |nodes| == |nodes'|
    requires forall j :: 0 <= j < k ==> var m := Reach(nodes, root, s, j); 0 < m < |nodes| && nodes'[m] == nodes[m]
    ensures Reach(nodes', root, s, k) == Reach(nodes, root, s, k)
  {
    if k > 0 {
      ReachKept(nodes, nodes', root, s, k - 1);
    }
  }

  // A node that may have got more edges.
  ghost predicate GrownNode(a: Node, b: Node) {
    && Used(a) <= Used(b) && |b.labels| == |b.edges| && |Used(a)| <= |a.edges|
    && forall e :: 0 <= e < |Used(a)| ==> e < |b.edges| && b.edges[e] == a.edges[e]
  }

  // The first nodes have kept their edges, and all but `but` their codes.
  ghost predicate Grows(was: seq<Node>, now: seq<Node>, count: nat, but: nat) {
    && |was| == |now| && count <= |was|
    && (forall n {:trigger GrownNode(was[n], now[n])} :: 0 < n < count ==> GrownNode(was[n], now[n]))
    && (forall n {:trigger GrownNode(was[n], now[n])} :: 0 < n < count && n != but ==> now[n].code == was[n].code)
  }

  lemma GrowsNot(nodes: seq<Node>, path: seq<Text>, registered: map<nat, Text>)
    requires NodesOk(nodes, path, registered)
    ensures Grows(nodes, nodes, |path|, 0)
  {
    forall n | 0 < n < |path|
      ensures GrownNode(nodes[n], nodes[n])
    {
      assert NodeOk(nodes, path, registered, n);
    }
  }

  lemma GrowsMore(a: seq<Node>, b: seq<Node>, c: seq<Node>, count: nat, count': nat, but: nat)
    requires Grows(a, b, count, 0) && Grows(b, c, count', but) && count <= count'
    ensures Grows(a, c, count, but)
  {
    forall n | 0 < n < count
      ensures GrownNode(a[n], c[n]) && (n != but ==> c[n].code == a[n].code)
    {
      assert GrownNode(a[n], b[n]) && GrownNode(b[n], c[n]);
    }
  }

  lemma {:induction false} ReachInside(nodes: seq<Node>, path: seq<Text>, registered: map<nat, Text>, root: nat,
                                       s: Text, k: nat)
    requires NodesOk(nodes, path, registered) && 0 < root < |path| && k <= |s|
    ensures Reach(nodes, root, s, k) < |path|
  {
    if k > 0 {
      ReachInside(nodes, path, registered, root, s, k - 1);
      var n := Reach(nodes, root, s, k - 1);
      if n != 0 {
        assert NodeOk(nodes, path, registered, n);
        FoundUsed(nodes[n].labels, s[k - 1]);
        var e := FindEdge(nodes[n].labels, s[k - 1]);
        if e < |Used(nodes[n])| {
          assert EdgeOk(nodes, path, n, e);
        }
      }
    }
  }

  // What could be reached still can.
  lemma {:induction false} ReachGrown(was: seq<Node>, now: seq<Node>, path: seq<Text>, registered: map<nat, Text>,
                                      root: nat, s: Text, k: nat, but: nat)
    requires NodesOk(was, path, registered) && Grows(was, now, |path|, but) && 0 < root < |path| && k <= |s|
    ensures Reach(was, root, s, k) != 0 ==> Reach(now, root, s, k) == Reach(was, root, s, k)
  {
    hide NodesOk, Terminated, FindEdge;
    if k > 0 && Reach(was, root, s, k) != 0 {
      ReachGrown(was, now, path, registered, root, s, k - 1, but);
      ReachInside(was, path, registered, root, s, k - 1);
      var n, c := Reach(was, root, s, k - 1), s[k - 1];
      assert GrownNode(was[n], now[n]);
      FoundUsed(was[n].labels, c);
      FirstFound(now[n].labels, c, FindEdge(was[n].labels, c));
    }
  }

  // With a single edge it is clear which string the code belongs to.
  lemma OnlyEdge(registered: map<nat, Text>, node: Node, path: Text, c: Byte)
    requires CodeOk(registered, node, path) && |Used(node)| == 1 && Used(node)[0] == c
    ensures registered[node.code] == path + [c]
  {
    var r := registered[node.code];
    assert r == r[..|path|] + [r[|path|]];
  }

  class Trie {
    var nodes: seq<Node>
    const root: nat := 1
    var free: nat
    ghost var path: seq<Text>               // the nodes handed out are 1 to |path| - 1
    ghost var registered: map<nat, Text>    // the string each code was given for

    // The free list holds the nodes never handed out, in order.
    ghost predicate FreeOk()
      reads this
    {
      && |nodes| == TRIE_SIZE && 1 < |path| <= TRIE_SIZE
      && free == (if |path| < TRIE_SIZE then |path| else 0)
      && (forall i :: |path| <= i < TRIE_SIZE ==>
            |nodes[i].edges| > 0 && nodes[i].edges[0] == if i + 1 < TRIE_SIZE then i + 1 else 0)
    }

    ghost predicate Valid()
      reads this
    {
      FreeOk() && path[root] == [] && NodesOk(nodes, path, registered)
    }

    constructor ()
      ensures Valid() && registered == map[]
    {
      nodes := seq(TRIE_SIZE, i requires 0 <= i =>
        if i == 1 then CLEARED else CLEARED.(edges := CLEARED.edges[0 := if i + 1 < TRIE_SIZE then i + 1 else 0]));
      free := 2;
      path := [[], []];
      registered := map[];
    }

    // The node that a string leads to is where its path says.
    lemma {:induction false} ReachPath(s: Text, k: nat)
      requires Valid() && k <= |s|
      ensures
        var n := Reach(nodes, root, s, k);
        n == 0 || (0 < n < |path| && path[n] == s[..k])
    {
      if k > 0 {
        ReachPath(s, k - 1);
        var n := Reach(nodes, root, s, k - 1);
        if n != 0 {
          assert NodeOk(nodes, path, registered, n);
          FoundUsed(nodes[n].labels, s[k - 1]);
          var e := FindEdge(nodes[n].labels, s[k - 1]);
          if e < |Used(nodes[n])| {
            assert EdgeOk(nodes, path, n, e);
            assert s[..k] == s[..k - 1] + [s[k - 1]];
          }
        }
      }
    }

    // A code found on the way is the code of exactly the bytes passed.
    lemma CodedExact(s: Text, k: nat)
      requires Valid() && k <= |s| && Coded(nodes, root, s, k)
      ensures
        var n := Reach(nodes, root, s, k - 1);
        nodes[n].code in registered && registered[nodes[n].code] == s[..k]
    {
      ReachPath(s, k - 1);
      var n := Reach(nodes, root, s, k - 1);
      assert NodeOk(nodes, path, registered, n);
      FoundUsed(nodes[n].labels, s[k - 1]);
      OnlyEdge(registered, nodes[n], path[n], s[k - 1]);
      assert s[..k] == s[..k - 1] + [s[k - 1]];
    }

    // A search for this string ends with a code.
    ghost predicate Finds(s: Text)
      reads this
    {
      && (exists k {:trigger Coded(nodes, root, s, k)} :: 0 <= k <= |s| && Coded(nodes, root, s, k))
      && (forall k {:trigger StuckAt(nodes, root, s, k)} :: 0 <= k < |s| ==> !StuckAt(nodes, root, s, k))
    }

    // The longest coded prefix among the first `pos` bytes.
    ghost predicate Longest(s: Text, pos: nat, code: nat, plen: nat)
      reads this
      requires pos <= |s|
    {
      && plen <= pos
      && (code != 0 ==> 0 < plen && code in registered && registered[code] == s[..plen])
      && (code != 0 ==> Coded(nodes, root, s, plen) && nodes[Reach(nodes, root, s, plen - 1)].code == code)
      && (forall k {:trigger Coded(nodes, root, s, k)} ::
            0 <= k <= pos && Coded(nodes, root, s, k) ==> code != 0 && k <= plen)
    }

    lemma LongestNext(s: Text, pos: nat, code: nat, plen: nat)
      requires Valid() && pos < |s| && Longest(s, pos, code, plen)
      requires 0 < Reach(nodes, root, s, pos) < |path| && Reach(nodes, root, s, pos + 1) != 0
      ensures
        var node := nodes[Reach(nodes, root, s, pos)];
        if node.code != 0 && |Used(node)| == 1 then Longest(s, pos + 1, node.code, pos + 1)
          else Longest(s, pos + 1, code, plen)
    {
      var node := nodes[Reach(nodes, root, s, pos)];
      if node.code != 0 && |Used(node)| == 1 {
        CodedExact(s, pos + 1);
      }
    }

    lemma LongestEnd(s: Text, pos: nat, code: nat, plen: nat)
      requires pos < |s| && Longest(s, pos, code, plen) && Reach(nodes, root, s, pos + 1) == 0
      ensures Longest(s, |s|, code, plen)
      ensures forall k :: pos < k < |s| ==> !StuckAt(nodes, root, s, k)
    {
      forall k | pos < k <= |s|
        ensures !Coded(nodes, root, s, k) && (k < |s| ==> !StuckAt(nodes, root, s, k))
      {
        ReachStops(nodes, root, s, pos + 1, k);
      }
    }

    // fs_prefix_trie_get_code: the code and length of the longest coded prefix, or no code at all if the
    // search meets a node that has no room for the next byte.
    method GetCode(s: Text) returns (code: nat, plen: nat, stuck: bool)
      requires Valid()
      ensures code != 0 ==> 0 < plen <= |s| && code in registered && registered[code] == s[..plen]
      ensures !stuck ==> Longest(s, |s|, code, plen)
      ensures stuck ==> code == 0
      ensures stuck <==> exists k :: 0 <= k < |s| && StuckAt(nodes, root, s, k)
      ensures code != 0 <==> Finds(s)
    {
      hide Reach, Coded, NodeOk;
      RootReach(s);
      var n, pos := root, 0;
      code, plen, stuck := 0, 0, false;
      var done := false;
      while pos < |s| && !done
        invariant pos <= |s| && Longest(s, pos, code, plen)
        invariant !done ==> n == Reach(nodes, root, s, pos) && 0 < n < |path| && !stuck
        invariant forall k :: 0 <= k < pos ==> !StuckAt(nodes, root, s, k)
        invariant done ==>
          pos < |s| && if stuck then StuckAt(nodes, root, s, pos)
            else Reach(nodes, root, s, pos + 1) == 0 && !StuckAt(nodes, root, s, pos)
        decreases |s| - pos, !done
      {
        Shape(n);
        ReachNext(s, pos);
        var e := FindEdge(nodes[n].labels, s[pos]);
        if e == EDGES {
          stuck, done := true, true;
        } else if nodes[n].labels[e] == 0 {
          done := true;
        } else {
          LongestNext(s, pos, code, plen);
          if nodes[n].code != 0 && |Used(nodes[n])| == 1 {
            code, plen := nodes[n].code, pos + 1;
          }
          n := nodes[n].edges[e];
          pos := pos + 1;
        }
      }
      if stuck {
        code := 0;
      } else if done {
        LongestEnd(s, pos, code, plen);
      }
    }

    lemma RootReach(s: Text)
      requires Valid()
      ensures Reach(nodes, root, s, 0) == root && !Coded(nodes, root, s, 0)
    {
    }

    lemma TailZero(n: nat)
      requires Valid() && 0 < n < |path|
      ensures forall i :: |Used(nodes[n])| <= i < |nodes[n].labels| ==> nodes[n].labels[i] == 0
    {
      assert NodeOk(nodes, path, registered, n);
    }

    lemma Shape(n: nat)
      requires Valid() && 0 < n < |path|
      ensures |nodes[n].labels| == |nodes[n].edges| == EDGES
    {
      assert NodeOk(nodes, path, registered, n);
    }

    lemma ReachNext(s: Text, pos: nat)
      requires Valid() && pos < |s| && 0 < Reach(nodes, root, s, pos) < |path|
      ensures
        var node := nodes[Reach(nodes, root, s, pos)];
        var e := FindEdge(node.labels, s[pos]);
        && |node.labels| == |node.edges| == EDGES
        && (if e < EDGES && node.labels[e] == s[pos]
            then Reach(nodes, root, s, pos + 1) == node.edges[e] && 0 < node.edges[e] < |path| && e < |Used(node)|
            else Reach(nodes, root, s, pos + 1) == 0 && e == |Used(node)|)
    {
      var n := Reach(nodes, root, s, pos);
      assert NodeOk(nodes, path, registered, n);
      FoundUsed(nodes[n].labels, s[pos]);
      var e := FindEdge(nodes[n].labels, s[pos]);
      if e < |Used(nodes[n])| {
        assert EdgeOk(nodes, path, n, e);
      }
    }

    // fs_prefix_trie_get_node
    method GetNode(ghost p: Text) returns (n: nat)
      requires FreeOk()
      modifies `nodes, `free, `path
      ensures n == 0 ==> nodes == old(nodes) && path == old(path) && old(free) == 0 && free == 0
      ensures n != 0 ==>
        n == |old(path)| == old(free) && nodes == old(nodes)[n := CLEARED] && path == old(path) + [p] && FreeOk()
    {
      if free == 0 {
        return 0;
      }
      n := free;
      free := nodes[free].edges[0];
      nodes := nodes[n := CLEARED];
      path := path + [p];
    }

    // The bytes so far lead to node `n`, through nodes with shorter paths.
    ghost predicate At(s: Text, pos: nat, n: nat)
      reads this
      requires pos <= |s|
    {
      0 < n < |path| && Reach(nodes, root, s, pos) == n && path[n] == s[..pos]
    }

    lemma Above(s: Text, pos: nat, n: nat)
      requires Valid() && pos <= |s| && At(s, pos, n)
      ensures forall j :: 0 <= j < pos ==> var m := Reach(nodes, root, s, j); 0 < m < |path| && m != n
    {
      forall j | 0 <= j < pos
        ensures var m := Reach(nodes, root, s, j); 0 < m < |path| && m != n
      {
        ReachPath(s, j);
        if Reach(nodes, root, s, j) == 0 {
          ReachStops(nodes, root, s, j, pos);
        }
      }
    }

    // Makes sure that node `n` has an edge for the next byte of the string.
    method EnsureEdge(s: Text, pos: nat, n: nat) returns (e: nat, full: bool, exhausted: bool)
      requires Valid() && pos < |s| && At(s, pos, n)
      modifies `nodes, `free, `path
      ensures !full && !exhausted ==> Valid() && At(s, pos, n)
      ensures !full && !exhausted ==>
        |nodes[n].labels| == |nodes[n].edges| == EDGES && e < |Used(nodes[n])|
      ensures !full && !exhausted ==> nodes[n].labels[e] == s[pos] && At(s, pos + 1, nodes[n].edges[e])
      ensures full ==> Valid() && StuckAt(nodes, root, s, pos)
      ensures exhausted ==> old(free) == 0
      ensures !exhausted ==> |old(path)| <= |path| && Grows(old(nodes), nodes, |old(path)|, 0)
    {
      hide NodesOk, Reach, Grows;
      GrowsNot(nodes, path, registered);
      full, exhausted := false, false;
      ReachNext(s, pos);
      e := FindEdge(nodes[n].labels, s[pos]);
      if e == EDGES {
        full := true;
      } else if nodes[n].labels[e] == 0 {
        exhausted := AddEdge(s, pos, n, e);
      } else {
        ReachPath(s, pos + 1);
      }
    }

    method AddEdge(s: Text, pos: nat, n: nat, e: nat) returns (exhausted: bool)
      requires Valid() && pos < |s| && At(s, pos, n) && e == |Used(nodes[n])| < EDGES
      requires |nodes[n].labels| == |nodes[n].edges| == EDGES && nodes[n].labels[e] == 0
      requires FindEdge(nodes[n].labels, s[pos]) == e
      modifies `nodes, `free, `path
      ensures !exhausted ==> Valid() && At(s, pos, n)
      ensures !exhausted ==> |nodes[n].labels| == |nodes[n].edges| == EDGES && e < |Used(nodes[n])|
      ensures !exhausted ==> nodes[n].labels[e] == s[pos] && At(s, pos + 1, nodes[n].edges[e])
      ensures exhausted ==> old(free) == 0
      ensures !exhausted ==> |old(path)| <= |path| && Grows(old(nodes), nodes, |old(path)|, 0)
    {
      hide Reach, NodesOk, Terminated, FindEdge, Grows;
      ghost var nodes0, path0 := nodes, path;
      GrowsNot(nodes, path, registered);
      Above(s, pos, n);
      if free != 0 {
        EdgeAdded(nodes, path, registered, n, s[pos]);
      }
      TailZero(n);
      UsedMore(nodes[n].labels, s[pos]);
      LabelFound(nodes[n].labels, s[pos]);
      var child := GetNode(path[n] + [s[pos]]);
      exhausted := child == 0;
      nodes := nodes[n := WithEdge(nodes[n], e, s[pos], child)];
      if !exhausted {
        ReachKept(nodes0, nodes, root, s, pos);
        ReachNext(s, pos);
        ReachPath(s, pos + 1);
        EdgeGrows(nodes0, nodes, |path0|, n, s[pos]);
      }
    }

    // fs_prefix_trie_add_code. `exhausted` means that the pool had no node left.
    method AddCode(s: Text, code: nat) returns (failed: bool, exhausted: bool)
      requires Valid() && code !in registered
      modifies this
      ensures !exhausted ==> Valid() && registered == old(registered)[code := s]
      ensures exhausted ==> failed
      ensures failed && !exhausted ==> exists k :: 0 <= k < |s| && StuckAt(nodes, root, s, k)
      ensures !failed && s != [] ==>
        && Reach(nodes, root, s, |s|) != 0
        && var n := Reach(nodes, root, s, |s| - 1);
        0 < n < |nodes| && nodes[n].code == code
      ensures !exhausted ==>
        Grows(old(nodes), nodes, |old(path)|, if failed || s == [] then 0 else Reach(nodes, root, s, |s| - 1))
      ensures !exhausted ==> forall t: Text, k {:trigger Reach(nodes, root, t, k)} ::
        0 <= k <= |t| && old(Reach(nodes, root, t, k)) != 0 ==>
          Reach(nodes, root, t, k) == old(Reach(nodes, root, t, k))
    {
      hide NodesOk, Reach, Grows;
      ghost var nodes0, path0, registered0 := nodes, path, registered;
      ghost var but := 0;
      GrowsNot(nodes, path, registered);
      Registered(nodes, path, registered, code, s);
      registered := registered[code := s];
      var n, pos := root, 0;
      RootReach(s);
      failed, exhausted := false, false;
      while pos < |s| && !failed
        invariant !exhausted ==> Valid() && registered == old(registered)[code := s]
        invariant exhausted ==> failed
        invariant failed && !exhausted ==> pos < |s| && StuckAt(nodes, root, s, pos)
        invariant !exhausted ==> |path0| <= |path| && Grows(nodes0, nodes, |path0|, but)
        invariant but == if !failed && pos == |s| > 0 then Reach(nodes, root, s, pos - 1) else 0
        invariant pos <= |s| && (!failed ==> At(s, pos, n))
        invariant !failed && pos == |s| > 0 ==>
          var m := Reach(nodes, root, s, pos - 1); 0 < m < |nodes| && nodes[m].code == code
        decreases |s| - pos, !failed
      {
        ghost var nodes1, count := nodes, |path|;
        var e, full, out := EnsureEdge(s, pos, n);
        failed, exhausted := full || out, out;
        if !exhausted {
          GrowsMore(nodes0, nodes1, nodes, |path0|, count, 0);
        }
        if !failed {
          if pos + 1 == |s| {
            ghost var nodes2 := nodes;
            PutCode(s, pos, n, code);
            GrowsMore(nodes0, nodes2, nodes, |path0|, |path|, n);
            but := n;
          }
          n := nodes[n].edges[e];
          pos := pos + 1;
        }
      }
      if !exhausted {
        forall t: Text, k {:trigger Reach(nodes, root, t, k)} |
          0 <= k <= |t| && Reach(nodes0, root, t, k) != 0
          ensures Reach(nodes, root, t, k) == Reach(nodes0, root, t, k)
        {
          ReachGrown(nodes0, nodes, path0, registered0, root, t, k, but);
        }
      }
    }

    method PutCode(s: Text, pos: nat, n: nat, code: nat)
      requires Valid() && pos + 1 == |s| && At(s, pos, n) && s[pos] in Used(nodes[n])
      requires code in registered && registered[code] == s
      modifies `nodes
      ensures Valid() && At(s, pos, n) && nodes[n].code == code
      ensures nodes == old(nodes)[n := old(nodes)[n].(code := code)]
      ensures Reach(nodes, root, s, pos + 1) == old(Reach(nodes, root, s, pos + 1))
      ensures Grows(old(nodes), nodes, |path|, n)
    {
      hide Reach, NodesOk;
      GrowsNot(nodes, path, registered);
      CodeSet(nodes, path, registered, n, code, s);
      ReachNext(s, pos);
      Above(s, pos, n);
      ghost var nodes0 := nodes;
      nodes := nodes[n := nodes[n].(code := code)];
      ReachKept(nodes0, nodes, root, s, pos);
      ReachNext(s, pos);
    }
  }

  lemma EdgeGrows(was: seq<Node>, now: seq<Node>, count: nat, n: nat, c: Byte)
    requires Grows(was, was, count, 0) && 0 < n < count < |was| && |Used(was[n])| < |was[n].labels| == |was[n].edges|
    requires now == was[count := CLEARED][n := WithEdge(was[n], |Used(was[n])|, c, count)]
    requires Used(now[n]) == Used(was[n]) + [c]
    ensures Grows(was, now, count, 0)
  {
    hide Terminated;
    forall m | 0 < m < count
      ensures GrownNode(was[m], now[m]) && now[m].code == was[m].code
    {
      assert GrownNode(was[m], was[m]);
    }
  }

  lemma LabelFound(labels: seq<Byte>, c: Byte)
    requires |Terminated(labels)| < |labels| && c != 0 && FindEdge(labels, c) == |Terminated(labels)|
    ensures FindEdge(labels[|Terminated(labels)| := c], c) == |Terminated(labels)|
  {
    FirstFound(labels[|Terminated(labels)| := c], c, |Terminated(labels)|);
  }

  lemma {:induction false} FirstFound(labels: seq<Byte>, c: Byte, e: nat)
    requires c != 0 && e < |labels| && labels[e] == c && forall i :: 0 <= i < e ==> labels[i] != c && labels[i] != 0
    ensures FindEdge(labels, c) == e
  {
    if e > 0 {
      FirstFound(labels[1..], c, e - 1);
    }
  }
}
