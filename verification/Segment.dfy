/**
  One segment of the store: subject trees, object trees and model chains, kept in step by imports and
  deletions.
 */
module Segments {
  import opened Rids
  import opened QuadOrders
  import SortedLists
  import Quicksort
  import MergeSort
  import RowTable
  import opened TripleChains
  import opened ChainScan
  import opened Indexes
  import opened SegmentSpec

  const QUAD_BUF_SIZE := 10240
  const PENDED_LISTS := 16

  // Which waiting list a predicate's quads go to: bits 40 to 43.
  function PendedList(p: Rid): (i: nat)
    ensures i < PENDED_LISTS
  {
    (p / 0x100_0000_0000) % PENDED_LISTS
  }

  // The lists go round: each takes the predicates of one stretch of 2^40, the next list those of the next.
  lemma ListsCycle(p: Rid)
    ensures p < 0x100_0000_0000 ==> PendedList(p) == 0
    ensures p >= 0x100_0000_0000 ==>
      PendedList(p) == if PendedList(p - 0x100_0000_0000) == 15 then 0 else PendedList(p - 0x100_0000_0000) + 1
  {
    if p >= 0x100_0000_0000 {
      assert p / 0x100_0000_0000 == (p - 0x100_0000_0000) / 0x100_0000_0000 + 1;
    }
  }

  // The tree a loop is adding to.
  datatype Cursor = NoTree | STree(p: Rid) | OTree(p: Rid)

  // ---- the orders of the quad buffer ----

  function ByPs(a: Buffered, b: Buffered): int {
    var a, b := a.quad, b.quad;
    Then(Column(a.p, b.p), Then(Column(a.s, b.s), Then(Column(a.o, b.o), Column(a.m, b.m))))
  }

  function ByPo(a: Buffered, b: Buffered): int {
    Then(Column(a.quad.p, b.quad.p), Column(a.quad.o, b.quad.o))
  }

  function ByM(a: Buffered, b: Buffered): int {
    Column(a.quad.m, b.quad.m)
  }

  lemma BufferOrders()
    ensures Quicksort.TotalPreorder(ByPs) && Quicksort.TotalPreorder(ByPo) && Quicksort.TotalPreorder(ByM)
    ensures forall a, b :: ByPs(a, b) == 0 <==> a.quad == b.quad
    ensures forall a, b :: ByPs(a, b) < 0 <==>
      Before([a.quad.p, a.quad.s, a.quad.o, a.quad.m], [b.quad.p, b.quad.s, b.quad.o, b.quad.m])
    ensures forall a, b :: ByPo(a, b) < 0 <==> a.quad.p < b.quad.p || (a.quad.p == b.quad.p && a.quad.o < b.quad.o)
    ensures forall a, b :: ByM(a, b) < 0 <==> a.quad.m < b.quad.m
  {
    forall a: Buffered, b: Buffered
      ensures ByPs(a, b) < 0 <==>
        Before([a.quad.p, a.quad.s, a.quad.o, a.quad.m], [b.quad.p, b.quad.s, b.quad.o, b.quad.m])
    {
      Lexicographic(a.quad.p, a.quad.s, a.quad.o, a.quad.m, b.quad.p, b.quad.s, b.quad.o, b.quad.m);
    }
  }

  method SortBuffer(buf: seq<Buffered>, cmp: (Buffered, Buffered) -> int) returns (r: seq<Buffered>)
    requires Quicksort.TotalPreorder(cmp)
    ensures Quicksort.Ascending(r, cmp) && multiset(r) == multiset(buf) && |r| == |buf|
  {
    hide Quicksort.TotalPreorder, Quicksort.Ascending;
    var a := new Buffered[|buf|](i requires 0 <= i < |buf| => buf[i]);
    assert a[..] == buf;
    MergeSort.QsortR(a, 40, cmp, true);
    r := a[..];
    assert |multiset(r)| == |r| && |multiset(buf)| == |buf|;
  }

  // In a sorted buffer equal quads are neighbours.
  lemma Neighbours(buf: seq<Buffered>, i: nat)
    requires Quicksort.Ascending(buf, ByPs) && 0 < i < |buf|
    ensures buf[i].quad in Quads(buf[..i]) <==> buf[i].quad == buf[i - 1].quad
  {
    if buf[i].quad == buf[i - 1].quad {
      assert buf[..i][i - 1] in buf[..i];
    }
    if buf[i].quad in Quads(buf[..i]) {
      var b :| b in buf[..i] && b.quad == buf[i].quad;
      var j :| 0 <= j < i && buf[..i][j] == b;
      Between(buf, j, i);
    }
  }

  lemma Between(buf: seq<Buffered>, j: nat, i: nat)
    requires Quicksort.Ascending(buf, ByPs) && j < i < |buf| && buf[j].quad == buf[i].quad
    ensures buf[i - 1].quad == buf[i].quad
  {
    assert ByPs(buf[i - 1], buf[i]) <= 0;
    if j < i - 1 {
      assert ByPs(buf[j], buf[i - 1]) <= 0;
    }
  }

  // Marks each quad that repeats the one before it.
  method MarkDuplicates(buf: seq<Buffered>) returns (r: seq<Buffered>)
    requires Quicksort.Ascending(buf, ByPs) && forall i :: 0 <= i < |buf| ==> !buf[i].skip
    ensures |r| == |buf| && (forall i :: 0 <= i < |buf| ==> r[i].quad == buf[i].quad)
    ensures Accepted(r) == Once(Quads(buf))
  {
    hide Quicksort.Ascending, Quads, Once;
    r := buf;
    if buf == [] {
      EmptyBuffer();
      return;
    }
    hide Accepted;
    FirstAccepted(buf);
    assert r[..1] == buf[..1];
    for i := 1 to |buf|
      invariant |r| == |buf| && (forall j :: 0 <= j < |buf| ==> r[j].quad == buf[j].quad)
      invariant forall j :: i <= j < |buf| ==> r[j] == buf[j]
      invariant Accepted(r[..i]) == Once(Quads(buf[..i]))
    {
      MarkStep(buf, r, i);
      if r[i].quad == r[i - 1].quad {
        r := r[i := r[i].(skip := true)];
      }
    }
    assert r[..|buf|] == r && buf[..|buf|] == buf;
  }

  lemma MarkStep(buf: seq<Buffered>, r: seq<Buffered>, i: nat)
    requires Quicksort.Ascending(buf, ByPs) && 0 < i < |buf| == |r|
    requires r[i] == buf[i] && !buf[i].skip && r[i - 1].quad == buf[i - 1].quad
    requires Accepted(r[..i]) == Once(Quads(buf[..i]))
    ensures
      var r' := if r[i].quad == r[i - 1].quad then r[i := r[i].(skip := true)] else r;
      Accepted(r'[..i + 1]) == Once(Quads(buf[..i + 1]))
  {
    hide Quicksort.Ascending, Quads, Once, Accepted;
    var r' := if r[i].quad == r[i - 1].quad then r[i := r[i].(skip := true)] else r;
    Neighbours(buf, i);
    assert r'[..i] == r[..i];
    AcceptedNext(r', i);
    QuadsNext(buf, i);
  }

  lemma EmptyBuffer()
    ensures Accepted([]) == Once(Quads([]))
  {
  }

  lemma FirstAccepted(buf: seq<Buffered>)
    requires buf != [] && !buf[0].skip
    ensures Accepted(buf[..1]) == Once(Quads(buf[..1]))
  {
    AcceptedNext(buf, 0);
    assert buf[..0] == [] && Accepted([]) == multiset{};
    assert buf[..1] == [buf[0]];
    assert Quads(buf[..1]) == {buf[0].quad};
  }

  lemma QuadsNext(buf: seq<Buffered>, i: nat)
    requires i < |buf|
    ensures Quads(buf[..i + 1]) == Quads(buf[..i]) + {buf[i].quad}
    ensures Once(Quads(buf[..i + 1])) ==
      Once(Quads(buf[..i])) + if buf[i].quad in Quads(buf[..i]) then multiset{} else multiset{buf[i].quad}
  {
    assert buf[..i + 1] == buf[..i] + [buf[i]];
    var a, b := Quads(buf[..i + 1]), Quads(buf[..i]) + {buf[i].quad};
    assert forall x :: x in a <==> x in b by {
      assert forall y :: y in buf[..i + 1] <==> y in buf[..i] || y == buf[i];
    }
  }

  // ---- the segment ----

  // The quads in all waiting lists.
  ghost function Waiting(pended: seq<seq<Quad>>): set<Quad> {
    set i, x | 0 <= i < |pended| && x in pended[i] :: x
  }

  // Every waiting quad is in the list of its predicate.
  ghost predicate Sorted16(pended: seq<seq<Quad>>) {
    && |pended| == PENDED_LISTS
    && (forall i, x :: 0 <= i < |pended| && x in pended[i] ==> PendedList(x.p) == i && Storable(x))
  }

  // The first block of a model's chain, or 0.
  function NodeOf(models: map<Rid, nat>, m: Rid): nat {
    if m in models then models[m] else 0
  }

  ghost predicate BufferOk(buf: seq<Buffered>) {
    |buf| <= QUAD_BUF_SIZE && forall i :: 0 <= i < |buf| ==> !buf[i].skip && Storable(buf[i].quad)
  }

  ghost predicate HeadsListed(models: map<Rid, nat>, ids: RowTable.Lists) {
    forall m: Rid {:trigger NodeOf(models, m)} :: NodeOf(models, m) == RowTable.Head(ids(Of(m)))
  }

  lemma TableStep(models: map<Rid, nat>, models': map<Rid, nat>, ids: RowTable.Lists, ids': RowTable.Lists, m: Rid)
    requires HeadsListed(models, ids) && forall x: Rid :: x != m ==> ids'(Of(x)) == ids(Of(x))
    requires NodeOf(models', m) == RowTable.Head(ids'(Of(m))) && forall x: Rid :: x != m ==>
      NodeOf(models', x) == NodeOf(models, x)
    ensures HeadsListed(models', ids')
  {
  }

  // How many of `n` quads fill whole buffers.
  ghost function Batched(n: nat): (k: nat)
    ensures k <= n < k + QUAD_BUF_SIZE
  {
    n / QUAD_BUF_SIZE * QUAD_BUF_SIZE
  }

  // The quads up to `i` have followed those queued before; `full` of the former ones filled whole buffers.
  lemma NextBatch(queued: seq<Quad>, quads: seq<Quad>, i0: nat, i: nat, full: nat)
    requires i0 <= i <= |quads| && full == Batched(|queued| + i0) && |queued| + i - full <= QUAD_BUF_SIZE
    ensures
      var rest := (queued + quads[..i])[full..];
      && rest == (queued + quads[..i0])[full..] + quads[i0..i]
      && (|rest| < QUAD_BUF_SIZE ==> Batched(|queued| + i) == full)
      && (|rest| == QUAD_BUF_SIZE ==>
            && Batched(|queued| + i) == full + QUAD_BUF_SIZE == |queued| + i
            && (queued + quads)[..|queued| + i] == (queued + quads)[..full] + rest
            && (queued + quads[..i])[|queued| + i..] == [])
  {
    assert (queued + quads)[..|queued| + i] == queued + quads[..i];
  }

  // In the index, waiting or buffered.
  ghost predicate Held(st: Trees, pending: set<Quad>, buf: seq<Buffered>, x: Quad) {
    Known(st, pending, x) || x in Quads(buf)
  }

  lemma HeldImported(st: Trees, pending: set<Quad>, pending': set<Quad>, buf: seq<Buffered>, buf': seq<Buffered>,
                     quads: seq<Quad>, full: nat)
    requires
      var all := Queue(buf) + quads;
      full <= |all| && Queue(buf') == all[full..] && pending' == pending + Elems(all[..full])
    ensures forall x: Quad :: Held(st, pending', buf', x) <==> Held(st, pending, buf, x) || x in quads
  {
    hide Queue, Quads;
    var all := Queue(buf) + quads;
    QueueQuads(buf);
    QueueQuads(buf');
    assert all == all[..full] + all[full..];
    ElemsJoined(all[..full], all[full..]);
    ElemsJoined(Queue(buf), quads);
    forall x: Quad
      ensures Held(st, pending', buf', x) <==> Held(st, pending, buf, x) || x in quads
    {
      assert x in quads <==> x in Elems(quads);
    }
  }

  lemma NothingFull(queued: seq<Quad>, quads: seq<Quad>)
    requires |queued| < QUAD_BUF_SIZE
    ensures Batched(|queued|) == 0 && Elems((queued + quads)[..0]) == {} && (queued + quads[..0])[0..] == queued
  {
  }

  class Segment {
    var st: Trees               // by predicate: the tree keyed by subject
    var ot: Trees               // by predicate: the tree keyed by object
    var models: map<Rid, nat>   // the first block of each model's chain
    const chain: TBChain
    var buffer: seq<Buffered>
    var pendedImport: bool
    var pended: seq<seq<Quad>>
    var approxSize: nat
    const modelData: bool
    var log: seq<Update>        // what the tree files have been told since they were last looked at
    ghost var base: Both        // what they held then

    // Predicates have both trees or none, and the updates logged account for what the trees hold.
    ghost predicate Paired()
      reads `st, `ot, `log, `base
    {
      st.Keys == ot.Keys && Replay(base, log) == Both(st, ot)
    }

    // The model table names the head of every chain.
    ghost predicate ModelTable()
      reads `models, chain
    {
      chain.Valid() && HeadsListed(models, chain.ids)
    }

    // Tables, lists and buffer are well formed and hold storable quads only.
    ghost predicate Contained()
      reads `st, `models, `pended, `pendedImport, `buffer, chain
    {
      && ModelTable() && AllStorable(st)
      && ListsStorable(chain.View())
      && Sorted16(pended) && (!pendedImport ==> Waiting(pended) == {})
      && BufferOk(buffer)
    }

    ghost predicate Shape()
      reads this, chain
    {
      Paired() && Contained()
    }

    // The subject and object trees hold the same multiset of quads.
    ghost predicate Agreeing()
      reads `st, `ot
    {
      Agree(st, ot)
    }

    // The chains list every known quad and, where not marked, no others.
    ghost predicate Mirroring()
      reads `st, `pended, chain
    {
      Mirrored(st, Waiting(pended), chain.View())
    }

    constructor (modelData: bool)
      ensures Shape() && Agreeing() && Mirroring() && fresh(chain)
      ensures st == map[] && ot == map[] && buffer == [] && !pendedImport && log == []
    {
      st, ot, models, buffer := map[], map[], map[], [];
      log, base := [], Both(map[], map[]);
      chain := new TBChain();
      pendedImport := false;
      pended := seq(PENDED_LISTS, _ => []);
      approxSize := 0;
      this.modelData := modelData;
      new;
      hide AllStorable, Agree, Mirrored, ListsStorable, TBChain.Valid, TBChain.View;
      assert Waiting(pended) == {};
      forall m: Rid
        ensures NodeOf(models, m) == RowTable.Head(chain.ids(Of(m)))
      {
        assert !chain.Exists(m);
      }
      Nothing();
    }

    lemma Nothing()
      requires st == map[] && ot == map[] && Waiting(pended) == {}
      requires forall m: Rid :: !chain.Exists(m)
      ensures AllStorable(st) && Agreeing() && Mirroring() && ListsStorable(chain.View())
    {
      forall m: Rid
        ensures chain.View()[m] == ModelChain([], false)
      {
        assert !chain.Exists(m);
        assert |chain.Blocks(m)| == 0;
      }
    }

    // Any update of the trees.
    method Tell(u: Update)
      requires Replay(base, log) == Both(st, ot)
      modifies `st, `ot, `log
      ensures Both(st, ot) == Updated(old(Both(st, ot)), u) && Replay(base, log) == Both(st, ot)
    {
      hide Replay, Updated;
      ReplayNext(base, log, u);
      var b := Updated(Both(st, ot), u);
      st, ot, log := b.s, b.o, log + [u];
    }

    // The tree files are looked at: from here on updates count from what they hold.
    method Settle()
      requires Paired()
      modifies `log, `base
      ensures Paired() && log == []
    {
      log, base := [], Both(st, ot);
    }

    // fs_ptree_add on the tree the cursor stands for; nothing happens without one.
    method AddVia(cursor: Cursor, key: Rid, row: Pair) returns (failed: bool)
      requires Paired()
      modifies `st, `ot, `log
      ensures Paired()
      ensures st == if cursor.STree? then AddTo(old(st), cursor.p, key, row) else old(st)
      ensures ot == if cursor.OTree? then AddTo(old(ot), cursor.p, key, row) else old(ot)
      ensures failed == cursor.NoTree?
    {
      hide Replay;
      failed := cursor.NoTree?;
      match cursor
      case NoTree =>
      case STree(p) => Tell(AddRow(false, p, key, row));
      case OTree(p) => Tell(AddRow(true, p, key, row));
    }

    // fs_backend_get_ptree, and fs_backend_open_ptree for a predicate that has no trees yet.
    method Find(pred: Rid, byObject: bool) returns (cursor: Cursor)
      requires Paired()
      modifies `st, `ot, `log
      ensures cursor == if byObject then OTree(pred) else STree(pred)
      ensures st == Opened(old(st), pred) && ot == Opened(old(ot), pred)
      ensures Paired()
    {
      hide Replay;
      if pred !in st {
        Tell(OpenBoth(pred));
      }
      cursor := if byObject then OTree(pred) else STree(pred);
    }

    // One pass over the buffer: by subject into the subject trees, or by object into the object trees.
    method TreePass(buf: seq<Buffered>, byObject: bool)
      requires Paired() && forall i :: 0 <= i < |buf| ==> buf[i].quad.p != RID_NULL
      modifies `st, `ot, `log, `approxSize
      ensures Paired()
      ensures SGained(old(st), st, if byObject then multiset{} else Accepted(buf))
      ensures OGained(old(ot), ot, if byObject then Accepted(buf) else multiset{})
      ensures approxSize == old(approxSize) + if byObject then 0 else |Accepted(buf)|
    {
      hide Replay, SGained, OGained, Accepted, AddTo, Opened;
      var lastPred := RID_NULL;
      var cursor := NoTree;
      NothingGained(st, imap[]);
      NothingGained(ot, imap[]);
      NoneAccepted(buf);
      for i := 0 to |buf|
        invariant Paired()
        invariant lastPred != RID_NULL ==>
          lastPred in st && cursor == if byObject then OTree(lastPred) else STree(lastPred)
        invariant SGained(old(st), st, if byObject then multiset{} else Accepted(buf[..i]))
        invariant OGained(old(ot), ot, if byObject then Accepted(buf[..i]) else multiset{})
        invariant approxSize == old(approxSize) + if byObject then 0 else |Accepted(buf[..i])|
      {
        AcceptedNext(buf, i);
        if !buf[i].skip {
          var q := buf[i].quad;
          if lastPred != q.p {
            ghost var st0, ot0 := st, ot;
            OpenedGains(st, q.p);
            OpenedGains(ot, q.p);
            OpenedKeys(st, q.p);
            OpenedKeys(ot, q.p);
            cursor := Find(q.p, byObject);
            lastPred := q.p;
            SGainedSame(old(st), st0, st, if byObject then multiset{} else Accepted(buf[..i]));
            OGainedSame(old(ot), ot0, ot, if byObject then Accepted(buf[..i]) else multiset{});
          }
          ghost var st1, ot1 := st, ot;
          var failed := AddQuad(cursor, q, byObject);
          if byObject {
            OGainedMore(old(ot), ot1, ot, Accepted(buf[..i]), multiset{q});
          } else {
            SGainedMore(old(st), st1, st, Accepted(buf[..i]), multiset{q});
            if !failed {
              approxSize := approxSize + 1;
            }
          }
        }
      }
      assert buf[..|buf|] == buf;
    }

    // Adds a quad through the cursor.
    method AddQuad(cursor: Cursor, q: Quad, byObject: bool) returns (failed: bool)
      requires Paired() && q.p in st && cursor == if byObject then OTree(q.p) else STree(q.p)
      modifies `st, `ot, `log
      ensures Paired() && st.Keys == old(st).Keys && ot.Keys == old(ot).Keys && !failed
      ensures byObject ==> st == old(st) && OGained(old(ot), ot, multiset{q})
      ensures !byObject ==> ot == old(ot) && SGained(old(st), st, multiset{q})
    {
      if byObject {
        OGainedOne(ot, q);
        failed := AddVia(cursor, q.o, Pair(q.m, q.s));
      } else {
        SGainedOne(st, q);
        failed := AddVia(cursor, q.s, Pair(q.m, q.o));
      }
    }

    // Appends one quad to its model's chain, starting the chain if there is none; `node` is its head.
    method AppendQuad(q: Quad, node0: nat) returns (node: nat)
      requires ModelTable() && node0 == NodeOf(models, q.m)
      modifies `models, chain
      ensures ModelTable() && node == NodeOf(models, q.m)
      ensures ListGained(old(chain.View()), chain.View(), multiset{q})
    {
      hide Replay, ListGained, TBChain.Valid, TBChain.View;
      node := node0;
      if node == 0 {
        node := StartChain(q.m);
      }
      node := ExtendChain(q, node);
    }

    method StartChain(m: Rid) returns (node: nat)
      requires ModelTable() && NodeOf(models, m) == 0
      modifies `models, chain
      ensures ModelTable() && node == NodeOf(models, m) != 0
      ensures chain.View() == old(chain.View())
    {
      hide Flat, Contents, RowTable.Partition, OthersKept, TBChain.Valid;
      chain.NoHead(m);
      chain.EmptyView(m);
      node := chain.NewChain(m);
      chain.HeadsKept(m);
      chain.ViewChanged(m);
      EmptyBlock();
      TableStep(models, models[m := node], old(chain.ids), chain.ids, m);
      models := models[m := node];
    }

    method ExtendChain(q: Quad, node0: nat) returns (node: nat)
      requires ModelTable() && node0 == NodeOf(models, q.m) != 0
      modifies `models, chain
      ensures ModelTable() && node == NodeOf(models, q.m)
      ensures ListGained(old(chain.View()), chain.View(), multiset{q})
    {
      hide Flat, Added, Contents, ListGained, RowTable.Partition, OthersKept, TBChain.Valid;
      chain.SomeHead(q.m);
      ghost var bs := chain.Blocks(q.m);
      node := chain.AddTriple(node0, Triple(q.s, q.p, q.o), q.m);
      chain.ViewChanged(q.m);
      chain.HeadsKept(q.m);
      ListGainedOne(old(chain.View()), q, bs, ModelChain(chain.Triples(q.m), chain.Superset(q.m)));
      TableStep(models, if node != node0 then models[q.m := node] else models, old(chain.ids), chain.ids, q.m);
      if node != node0 {
        models := models[q.m := node];
      }
    }

    // The model chains take the accepted quads, model by model.
    method ChainPass(buf: seq<Buffered>)
      requires ModelTable() && forall i :: 0 <= i < |buf| ==> buf[i].quad.m != RID_NULL
      modifies `models, chain
      ensures ModelTable() && ListGained(old(chain.View()), chain.View(), Accepted(buf))
    {
      hide Replay, ListGained, Accepted, TBChain.Valid, TBChain.View;
      var lastModel, node := RID_NULL, 0;
      NothingGained(map[], chain.View());
      NoneAccepted(buf);
      for i := 0 to |buf|
        invariant ModelTable() && (lastModel != RID_NULL ==> node == NodeOf(models, lastModel))
        invariant ListGained(old(chain.View()), chain.View(), Accepted(buf[..i]))
      {
        AcceptedNext(buf, i);
        if !buf[i].skip {
          var q := buf[i].quad;
          if q.m != lastModel {
            node := NodeOf(models, q.m);
            lastModel := q.m;
          }
          ghost var v := chain.View();
          node := AppendQuad(q, node);
          ListGainedMore(old(chain.View()), v, chain.View(), Accepted(buf[..i]), multiset{q});
        }
      }
      assert buf[..|buf|] == buf;
    }

    // A deferred import: each quad goes to the list of its predicate.
    method DeferPass(buf: seq<Buffered>)
      requires Sorted16(pended) && BufferOk(buf)
      modifies `pended
      ensures Sorted16(pended)
      ensures forall x :: x in Waiting(pended) <==> x in Waiting(old(pended)) || x in Quads(buf)
    {
      assert buf[..0] == [] && Quads(buf[..0]) == {};
      hide Waiting, Sorted16, Quads;
      for i := 0 to |buf|
        invariant Sorted16(pended)
        invariant forall x :: x in Waiting(pended) <==> x in Waiting(old(pended)) || x in Quads(buf[..i])
      {
        QuadsNext(buf, i);
        var q := buf[i].quad;
        var list := PendedList(q.p);
        Deferred(pended, q);
        pended := pended[list := pended[list] + [q]];
      }
      assert buf[..|buf|] == buf;
    }

    // The two tree passes of a direct commit, over the sorted and marked buffer; then it is sorted by model.
    method CommitTrees() returns (buf: seq<Buffered>)
      requires Paired() && BufferOk(buffer)
      modifies `st, `ot, `log, `approxSize
      ensures Paired() && Concrete(buf) && Accepted(buf) == Once(Quads(buffer))
      ensures SGained(old(st), st, Accepted(buf)) && OGained(old(ot), ot, Accepted(buf))
      ensures approxSize == old(approxSize) + |Accepted(buf)|
    {
      hide Replay, SGained, OGained, Accepted, Quads, Once;
      BufferOrders();
      var byPs := SortBuffer(buffer, ByPs);
      SortedBuffer(buffer, byPs);
      var marked := MarkDuplicates(byPs);
      TreePass(marked, false);
      ghost var st1, ot1 := st, ot;
      var byPo := SortBuffer(marked, ByPo);
      SortedMarked(marked, byPo);
      TreePass(byPo, true);
      SGainedSame(old(st), st1, st, Accepted(marked));
      OGainedAfter(old(ot), ot1, ot, Accepted(marked));
      buf := SortBuffer(byPo, ByM);
      SortedMarked(byPo, buf);
    }

    // fs_quad_import_commit, when nothing is pending: both tree families and the chains take each
    // different quad of the buffer once.
    method CommitDirect()
      requires Shape() && !pendedImport
      modifies this, chain
      ensures Shape() && !pendedImport && buffer == [] && pended == old(pended) && base == old(base)
      ensures
        var bag := Once(Quads(old(buffer)));
        && SGained(old(st), st, bag) && OGained(old(ot), ot, bag)
        && ListGained(old(chain.View()), chain.View(), bag) && approxSize == old(approxSize) + |bag|
      ensures old(Agreeing()) ==> Agreeing()
      ensures old(Mirroring()) ==> Mirroring()
    {
      hide Replay, SGained, OGained, ListGained, Agree, Mirrored, AllStorable, ListsStorable, TBChain.Valid;
      hide TBChain.View, Sorted16, Waiting, Accepted, Quads, Once;
      ghost var bag := Once(Quads(buffer));
      var buf := CommitTrees();
      ChainPass(buf);
      OnceStorable(old(buffer));
      buffer := [];
      StorableGained(old(st), st, bag);
      ListsStorableGained(old(chain.View()), chain.View(), bag);
      if old(Agreeing()) {
        AgreeGained(old(st), old(ot), st, ot, bag);
      }
      if old(Mirroring()) {
        MirroredDirect(old(st), Waiting(pended), old(chain.View()), st, chain.View(), bag);
      }
    }

    // fs_quad_import_commit, during a deferred import: the quads wait, but are listed in the chains.
    method CommitDeferred()
      requires Shape() && pendedImport
      modifies this, chain
      ensures Shape() && pendedImport && buffer == [] && st == old(st) && ot == old(ot) && base == old(base)
      ensures Waiting(pended) == old(Waiting(pended)) + Quads(old(buffer))
      ensures ListGained(old(chain.View()), chain.View(), Accepted(old(buffer))) && approxSize == old(approxSize)
      ensures old(Mirroring()) ==> Mirroring()
    {
      hide Replay, ListGained, Agree, Mirrored, AllStorable, ListsStorable, TBChain.Valid, TBChain.View, Sorted16;
      hide Waiting, Accepted, Quads;
      BufferOrders();
      DeferPass(buffer);
      var byM := SortBuffer(buffer, ByM);
      SortedBuffer(buffer, byM);
      AcceptedSorted(buffer, byM);
      ChainPass(byM);
      AllAccepted(buffer);
      ListsStorableGained(old(chain.View()), chain.View(), Accepted(buffer));
      buffer := [];
      if old(Mirroring()) {
        MirroredDeferred(st, Waiting(old(pended)), old(chain.View()), Waiting(pended), chain.View(),
          Accepted(old(buffer)));
      }
    }

    method ImportCommit()
      requires Shape()
      modifies this, chain
      ensures Shape() && pendedImport == old(pendedImport) && buffer == [] && base == old(base)
      ensures old(Agreeing()) ==> Agreeing()
      ensures old(Mirroring()) ==> Mirroring()
      ensures Joined(old(st), old(Waiting(pended)), st, Waiting(pended), Quads(old(buffer)))
      ensures old(pendedImport) ==>
        st == old(st) && ot == old(ot) && Waiting(pended) == old(Waiting(pended)) + Quads(old(buffer))
      ensures !old(pendedImport) ==>
        && SGained(old(st), st, Once(Quads(old(buffer)))) && OGained(old(ot), ot, Once(Quads(old(buffer))))
        && pended == old(pended)
    {
      hide Replay, SGained, OGained, Once, ListGained, Agree, Mirrored, AllStorable, ListsStorable, TBChain.Valid;
      hide TBChain.View, Sorted16, Waiting, Accepted, Quads;
      if pendedImport {
        CommitDeferred();
        KnownWaiting(st, old(Waiting(pended)), Waiting(pended), Quads(old(buffer)));
      } else {
        CommitDirect();
        KnownGained(old(st), st, Waiting(pended), Quads(old(buffer)));
      }
    }

    // Everything imported that the segment still has: indexed, waiting or buffered.
    ghost predicate Has(x: Quad)
      reads `st, `pended, `buffer
    {
      Held(st, Waiting(pended), buffer, x)
    }

    // Moves quads to the buffer, as far as there is room.
    method Fill(quads: seq<Quad>, i0: nat) returns (i: nat)
      requires BufferOk(buffer) && i0 <= |quads| && forall i :: 0 <= i < |quads| ==> Storable(quads[i])
      modifies `buffer
      ensures BufferOk(buffer) && i0 <= i <= |quads| && (i < |quads| ==> |buffer| == QUAD_BUF_SIZE)
      ensures i == i0 ==> buffer == old(buffer)
      ensures |buffer| == |old(buffer)| + i - i0
      ensures Queue(buffer) == Queue(old(buffer)) + quads[i0..i]
    {
      hide Queue;
      i := i0;
      while i < |quads| && |buffer| < QUAD_BUF_SIZE
        invariant i0 <= i <= |quads| && BufferOk(buffer) && (i == i0 ==> buffer == old(buffer))
        invariant |buffer| == |old(buffer)| + i - i0
        invariant Queue(buffer) == Queue(old(buffer)) + quads[i0..i]
      {
        QueueNext(buffer, Buffered(false, quads[i]));
        assert quads[i0..i + 1] == quads[i0..i] + [quads[i]];
        buffer := buffer + [Buffered(false, quads[i])];
        i := i + 1;
      }
    }

    // A full buffer goes to the waiting lists, which it creates if there are none.
    method Empty()
      requires Shape()
      modifies this, chain
      ensures Shape() && pendedImport && Queue(buffer) == [] && base == old(base) && st == old(st) && ot == old(ot)
      ensures Waiting(pended) == old(Waiting(pended)) + Elems(old(Queue(buffer)))
      ensures old(Mirroring()) ==> Mirroring()
    {
      hide Replay, Storable, Mirrored, AllStorable, ListsStorable, HeadsListed, Elems, TBChain.Valid, TBChain.View;
      hide Sorted16, Waiting, Quads;
      if !pendedImport {
        pendedImport := true;
        pended := seq(PENDED_LISTS, _ => []);
        NothingWaits(pended);
      }
      QueueQuads(buffer);
      ImportCommit();
    }

    // fs_quad_import: each time the buffer fills up it is emptied to the waiting lists; the first time this
    // starts a deferred import. The trees are not touched.
    method Import(quads: seq<Quad>)
      requires Shape() && |buffer| < QUAD_BUF_SIZE && forall i :: 0 <= i < |quads| ==> Storable(quads[i])
      modifies this, chain
      ensures Shape() && |buffer| < QUAD_BUF_SIZE && base == old(base)
      ensures old(Agreeing()) ==> Agreeing()
      ensures old(Mirroring()) ==> Mirroring()
      ensures st == old(st) && ot == old(ot)
      ensures
        var all := old(Queue(buffer)) + quads;
        var full := Batched(|all|);
        && Queue(buffer) == all[full..] && Waiting(pended) == old(Waiting(pended)) + Elems(all[..full])
        && pendedImport == (old(pendedImport) || full > 0)
      ensures forall x: Quad :: Has(x) <==> old(Has(x)) || x in quads
    {
      hide Replay, Storable, Agree, Mirrored, AllStorable, ListsStorable, HeadsListed, Queue, Elems, Batched;
      hide TBChain.Valid, TBChain.View, Sorted16, Waiting, Quads;
      ghost var all := Queue(buffer) + quads;
      var i := 0;
      ghost var full := 0;
      NothingFull(Queue(buffer), quads);
      while i < |quads|
        invariant i <= |quads| && Shape() && |buffer| < QUAD_BUF_SIZE && base == old(base)
        invariant old(Agreeing()) ==> Agreeing()
        invariant old(Mirroring()) ==> Mirroring()
        invariant st == old(st) && ot == old(ot)
        invariant full == Batched(|old(buffer)| + i) == |old(buffer)| + i - |buffer|
        invariant Queue(buffer) == (old(Queue(buffer)) + quads[..i])[full..]
        invariant Waiting(pended) == old(Waiting(pended)) + Elems(all[..full])
        invariant pendedImport == (old(pendedImport) || full > 0)
      {
        ghost var i0 := i;
        i := Fill(quads, i);
        NextBatch(old(Queue(buffer)), quads, i0, i, full);
        if |buffer| == QUAD_BUF_SIZE {
          ElemsJoined(all[..full], Queue(buffer));
          Empty();
          full := full + QUAD_BUF_SIZE;
        }
      }
      assert quads[..|quads|] == quads;
      HeldImported(st, old(Waiting(pended)), Waiting(pended), old(buffer), buffer, quads, full);
    }

    // Adds the rows of one sorted list to the subject trees. The predicate and the tree found last are
    // carried over from the rows before, even from another list.
    method PushSubjects(rows: seq<Quad>, pred0: Rid, cursor0: Cursor) returns (pred: Rid, cursor: Cursor)
      requires Paired() && forall i :: 0 <= i < |rows| ==> Storable(rows[i]) && rows[i].p != pred0
      modifies `st, `ot, `log
      ensures Paired() && (forall i :: 0 <= i < |rows| ==> rows[i].p in st)
      ensures SGained(old(st), st, multiset(rows)) && OGained(old(ot), ot, multiset{})
      ensures pred == if rows == [] then pred0 else rows[|rows| - 1].p
    {
      hide Replay, SGained, OGained, AddTo, Opened, Storable;
      pred, cursor := pred0, cursor0;
      NothingGained(st, imap[]);
      NothingGained(ot, imap[]);
      assert rows[..0] == [];
      for i := 0 to |rows|
        invariant Paired() && (forall j :: 0 <= j < i ==> rows[j].p in st)
        invariant pred == if i == 0 then pred0 else rows[i - 1].p
        invariant pred != pred0 ==> cursor == STree(pred) && pred in st
        invariant SGained(old(st), st, multiset(rows[..i])) && OGained(old(ot), ot, multiset{})
      {
        var q := rows[i];
        ghost var st0, ot0 := st, ot;
        if q.p != pred {
          OpenedGains(st, q.p);
          OpenedGains(ot, q.p);
          OpenedKeys(st, q.p);
          OpenedKeys(ot, q.p);
          pred := q.p;
          cursor := Find(pred, false);
          SGainedSame(old(st), st0, st, multiset(rows[..i]));
          OGainedSame(old(ot), ot0, ot, multiset{});
        }
        ghost var st1 := st;
        var _ := AddQuad(cursor, q, false);
        SGainedMore(old(st), st1, st, multiset(rows[..i]), multiset{q});
        assert rows[..i + 1] == rows[..i] + [q];
      }
      assert rows[..|rows|] == rows;
    }

    // Adds the rows of one sorted list to the object trees, which the subject pass has opened.
    method PushObjects(rows: seq<Quad>) returns (pred: Rid, cursor: Cursor)
      requires Paired() && forall i :: 0 <= i < |rows| ==> rows[i].p in st && rows[i].p != RID_NULL
      modifies `st, `ot, `log
      ensures st == old(st) && Paired() && OGained(old(ot), ot, multiset(rows))
      ensures pred == if rows == [] then RID_NULL else rows[|rows| - 1].p
    {
      hide Replay, SGained, OGained, AddTo;
      pred, cursor := RID_NULL, NoTree;
      NothingGained(ot, imap[]);
      assert rows[..0] == [];
      for i := 0 to |rows|
        invariant st == old(st) && Paired()
        invariant pred == if i == 0 then RID_NULL else rows[i - 1].p
        invariant pred != RID_NULL ==> cursor == OTree(pred)
        invariant OGained(old(ot), ot, multiset(rows[..i]))
      {
        var q := rows[i];
        if q.p != pred {
          pred := q.p;
          cursor := if pred in ot then OTree(pred) else NoTree;
        }
        ghost var ot1 := ot;
        var _ := AddQuad(cursor, q, true);
        OGainedMore(old(ot), ot1, ot, multiset(rows[..i]), multiset{q});
        assert rows[..i + 1] == rows[..i] + [q];
      }
      assert rows[..|rows|] == rows;
    }

    // One waiting list: sorted by subject into the subject trees, then by object into the object trees.
    method PushList(rows: seq<Quad>, pred0: Rid, cursor0: Cursor) returns (pred: Rid, cursor: Cursor)
      requires Paired() && forall i :: 0 <= i < |rows| ==> Storable(rows[i]) && rows[i].p != pred0
      modifies `st, `ot, `log
      ensures Paired()
      ensures SGained(old(st), st, Once(SortedLists.Elems(rows))) && OGained(old(ot), ot, Once(SortedLists.Elems(rows)))
      ensures pred == RID_NULL || exists i :: 0 <= i < |rows| && rows[i].p == pred
    {
      hide Replay, SGained, OGained;
      var byS := SortUniq(rows, ByPsmo);
      var _, _ := PushSubjects(byS, pred0, cursor0);
      ghost var ot1 := ot;
      var byO := SortUniq(rows, ByPoms);
      SameRows(rows, byS, byO);
      pred, cursor := PushObjects(byO);
      OGainedAfter(old(ot), ot1, ot, multiset(byO));
    }

    // fs_commit: the waiting quads reach the trees, each different one once.
    method StopImport()
      requires Shape()
      modifies `st, `ot, `log, `pended, `pendedImport
      ensures Shape() && !pendedImport
      ensures SGained(old(st), st, Once(old(Waiting(pended)))) && OGained(old(ot), ot, Once(old(Waiting(pended))))
      ensures old(Agreeing()) ==> Agreeing()
      ensures old(Mirroring()) ==> Mirroring()
    {
      hide Replay, SGained, OGained, Agree, Mirrored, AllStorable, ListsStorable, Once, TBChain.Valid, TBChain.View;
      hide Waiting, Sorted16;
      ghost var bag := Once(Waiting(pended));
      if pendedImport {
        PushAll();
        StorableWaiting(pended);
        StorableGained(old(st), st, bag);
        OnceIff(Waiting(pended));
        if old(Agreeing()) {
          AgreeGained(old(st), old(ot), st, ot, bag);
        }
        if old(Mirroring()) {
          MirroredPushed(old(st), Waiting(pended), chain.View(), st, bag);
        }
        pended := seq(PENDED_LISTS, _ => []);
        NothingWaits(pended);
        pendedImport := false;
      } else {
        OnceNothing();
        NothingGained(st, imap[]);
        NothingGained(ot, imap[]);
      }
    }

    // All sixteen lists, with one cursor.
    method PushAll()
      requires Paired() && Sorted16(pended)
      modifies `st, `ot, `log
      ensures Paired()
      ensures SGained(old(st), st, Once(Waiting(pended))) && OGained(old(ot), ot, Once(Waiting(pended)))
    {
      hide Replay, SGained, OGained, Waiting, Sorted16, Once, Storable;
      var pred, cursor := RID_NULL, NoTree;
      NothingGained(st, imap[]);
      NothingGained(ot, imap[]);
      NoLists(pended);
      for i := 0 to PENDED_LISTS
        invariant Paired()
        invariant pred != RID_NULL ==> PendedList(pred) < i
        invariant SGained(old(st), st, Once(Waiting(pended[..i]))) && OGained(old(ot), ot, Once(Waiting(pended[..i])))
      {
        ghost var st0, ot0 := st, ot;
        OneList(pended, i);
        pred, cursor := PushList(pended[i], pred, cursor);
        SGainedMore(old(st), st0, st, Once(Waiting(pended[..i])), Once(SortedLists.Elems(pended[i])));
        OGainedMore(old(ot), ot0, ot, Once(Waiting(pended[..i])), Once(SortedLists.Elems(pended[i])));
      }
      AllLists(pended);
    }
  }

  // The rows of a list, sorted and each once.
  method SortUniq(rows: seq<Quad>, cmp: Order) returns (out: seq<Quad>)
    requires cmp == ByPsmo || cmp == ByPoms
    requires forall i :: 0 <= i < |rows| ==> Storable(rows[i])
    ensures forall i :: 0 <= i < |out| ==> out[i] in rows
    ensures multiset(out) == Once(SortedLists.Elems(rows))
  {
    hide SortedLists.SortedInChunks, SortedLists.RowOrder, SortedLists.StrictlyAscending, SortedLists.Elems;
    ListOrders();
    var l := new SortedLists.FsList();
    for i := 0 to |rows|
      invariant |l.buffer| <= SortedLists.LIST_BUFFER_SIZE && !l.reading && fresh(l)
      invariant l.Rows() == rows[..i]
    {
      var _ := l.Add(rows[i]);
    }
    assert rows[..|rows|] == rows;
    l.SortChunked(cmp);
    out := SortedLists.Drain(l);
    DrainedOnce(rows, l.file, out, cmp);
  }

  lemma ListOrders()
    ensures SortedLists.RowOrder(ByPsmo) && SortedLists.RowOrder(ByPoms)
  {
    PsmoOrders();
    PomsOrders();
  }

  lemma DrainedOnce(rows: seq<Quad>, file: seq<Quad>, out: seq<Quad>, cmp: Order)
    requires multiset(file) == multiset(rows) && forall i :: 0 <= i < |rows| ==> Storable(rows[i])
    requires SortedLists.RowOrder(cmp) && SortedLists.StrictlyAscending(out, cmp)
    requires SortedLists.Elems(out) == SortedLists.Elems(file) - {SortedLists.ZERO}
    ensures forall i :: 0 <= i < |out| ==> out[i] in rows
    ensures multiset(out) == Once(SortedLists.Elems(rows))
  {
    forall x: Quad
      ensures x in out <==> x in rows
    {
      assert x in out <==> x in SortedLists.Elems(out);
      assert x in file <==> x in multiset(file);
      assert x in rows <==> x in multiset(rows);
    }
    forall x: Quad
      ensures multiset(out)[x] == if x in out then 1 else 0
    {
      OnceInAscending(out, cmp, x);
    }
  }

  lemma {:induction false} OnceInAscending(out: seq<Quad>, cmp: Order, x: Quad)
    requires TotalOrder(cmp) && SortedLists.StrictlyAscending(out, cmp)
    ensures multiset(out)[x] == if x in out then 1 else 0
  {
    if out != [] {
      var n := |out| - 1;
      OnceInAscending(out[..n], cmp, x);
      assert out == out[..n] + [out[n]];
      assert out[n] !in out[..n] by {
        forall i | 0 <= i < n
          ensures out[i] != out[n]
        {
          assert cmp(out[i], out[n]) < 0;
        }
      }
    }
  }

  lemma SameRows(rows: seq<Quad>, byS: seq<Quad>, byO: seq<Quad>)
    requires multiset(byS) == multiset(byO) && forall i :: 0 <= i < |byO| ==> byO[i] in rows
    ensures forall i :: 0 <= i < |byO| ==> byO[i] in byS
  {
    forall i | 0 <= i < |byO|
      ensures byO[i] in byS
    {
      assert byO[i] in multiset(byO);
    }
  }

  lemma StorableWaiting(pended: seq<seq<Quad>>)
    requires Sorted16(pended)
    ensures forall x :: x in Once(Waiting(pended)) ==> Storable(x)
  {
  }

  lemma OnceIff(s: set<Quad>)
    ensures forall x :: x in Once(s) <==> x in s
  {
  }

  lemma OnceNothing()
    ensures Once({}) == multiset{}
  {
  }

  lemma NoLists(pended: seq<seq<Quad>>)
    requires Sorted16(pended)
    ensures |pended| == PENDED_LISTS
    ensures Once(Waiting(pended[..0])) == multiset{}
  {
  }

  lemma AllLists(pended: seq<seq<Quad>>)
    requires Sorted16(pended)
    ensures pended[..PENDED_LISTS] == pended
  {
  }

  // The lists divide the predicates among them, so the next list shares none with those before it.
  lemma OneList(pended: seq<seq<Quad>>, i: nat)
    requires Sorted16(pended) && i < PENDED_LISTS
    ensures |pended| == PENDED_LISTS
    ensures forall j :: 0 <= j < |pended[i]| ==>
      Storable(pended[i][j]) && PendedList(pended[i][j].p) == i && pended[i][j].p != RID_NULL
    ensures Once(Waiting(pended[..i + 1])) == Once(Waiting(pended[..i])) + Once(SortedLists.Elems(pended[i]))
  {
    var a, b, c := Waiting(pended[..i + 1]), Waiting(pended[..i]), SortedLists.Elems(pended[i]);
    assert pended[..i + 1] == pended[..i] + [pended[i]];
    forall x
      ensures x in a <==> x in b || x in c
      ensures x in b ==> x !in c
    {
      if x in c {
        assert pended[..i + 1][i] == pended[i];
      }
      if x in b {
        var j :| 0 <= j < i && x in pended[..i][j];
        assert pended[..i + 1][j] == pended[j];
        assert x in pended[j] && PendedList(x.p) == j;
      }
    }
  }

  lemma OpenedKeys(trees: Trees, p: Rid)
    ensures Opened(trees, p).Keys == trees.Keys + {p}
  {
  }

  lemma NoneAccepted(buf: seq<Buffered>)
    ensures Accepted(buf[..0]) == multiset{}
  {
  }

  lemma Deferred(pended: seq<seq<Quad>>, q: Quad)
    requires Sorted16(pended) && Storable(q)
    ensures |pended| == PENDED_LISTS
    ensures
      var list := PendedList(q.p);
      var pended' := pended[list := pended[list] + [q]];
      Sorted16(pended') && Waiting(pended') == Waiting(pended) + {q}
  {
    var list := PendedList(q.p);
    var pended' := pended[list := pended[list] + [q]];
    assert forall i, x :: 0 <= i < |pended| && x in pended[i] ==> x in pended'[i];
    assert q in pended'[list];
    forall x
      ensures x in Waiting(pended') <==> x in Waiting(pended) || x == q
    {
    }
  }

  lemma SortedBuffer(buf: seq<Buffered>, sorted: seq<Buffered>)
    requires BufferOk(buf) && multiset(sorted) == multiset(buf) && |sorted| == |buf|
    ensures BufferOk(sorted) && Quads(sorted) == Quads(buf)
  {
    QuadsSorted(buf, sorted);
    forall i | 0 <= i < |sorted|
      ensures !sorted[i].skip && Storable(sorted[i].quad)
    {
      assert sorted[i] in multiset(buf);
    }
  }

  ghost predicate Concrete(buf: seq<Buffered>) {
    forall i :: 0 <= i < |buf| ==> Storable(buf[i].quad)
  }

  lemma SortedMarked(buf: seq<Buffered>, sorted: seq<Buffered>)
    requires Concrete(buf) && multiset(sorted) == multiset(buf)
    ensures Concrete(sorted) && Accepted(sorted) == Accepted(buf)
  {
    AcceptedSorted(buf, sorted);
    forall i | 0 <= i < |sorted|
      ensures Storable(sorted[i].quad)
    {
      assert sorted[i] in multiset(buf);
    }
  }

  lemma OnceStorable(buf: seq<Buffered>)
    requires BufferOk(buf)
    ensures forall x :: x in Once(Quads(buf)) ==> Storable(x)
  {
  }

  lemma AllAccepted(buf: seq<Buffered>)
    requires BufferOk(buf)
    ensures forall x :: x in Accepted(buf) <==> x in Quads(buf)
    ensures forall x :: x in Accepted(buf) ==> Storable(x)
  {
    forall x: Quad
      ensures x in Accepted(buf) <==> x in Quads(buf)
    {
      AcceptedCount(buf, x);
      assert Buffered(false, x) in multiset(buf) <==> Buffered(false, x) in buf;
    }
  }

  lemma QueueNext(buf: seq<Buffered>, b: Buffered)
    ensures Queue(buf + [b]) == Queue(buf) + [b.quad]
  {
  }

  lemma NothingWaits(pended: seq<seq<Quad>>)
    requires |pended| == PENDED_LISTS && forall i :: 0 <= i < |pended| ==> pended[i] == []
    ensures Sorted16(pended) && Waiting(pended) == {}
  {
  }
}
