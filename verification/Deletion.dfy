/**
  Deleting quads and whole models from a segment.
 */
module Deletion {
  import opened Rids
  import RowTable
  import opened TripleChains
  import opened ChainScan
  import opened Indexes
  import opened SegmentSpec
  import opened Segments

  // ---- what a deletion takes away ----

  ghost predicate SGone(st: Trees, st': Trees, gone: set<Quad>) {
    forall x: Quad {:trigger SCopies(st', x)} :: SCopies(st', x) == if x in gone then 0 else SCopies(st, x)
  }

  ghost predicate OGone(ot: Trees, ot': Trees, gone: set<Quad>) {
    forall x: Quad {:trigger OCopies(ot', x)} :: OCopies(ot', x) == if x in gone then 0 else OCopies(ot, x)
  }

  // The rows of all models but `m` are as before, in the same order.
  ghost predicate OtherModelsKept(trees: Trees, trees': Trees, m: Rid) {
    forall p: Rid, k: Rid {:trigger RowsAt(trees', p, k)} ::
      Keep(Pair(m, RID_NULL), RowsAt(trees', p, k)) == Keep(Pair(m, RID_NULL), RowsAt(trees, p, k))
  }

  // Exactly the rows of some models are removed from a list.
  ghost function KeepModels(ms: seq<Rid>, rows: seq<Pair>): seq<Pair> {
    if ms == [] then rows else Keep(Pair(ms[|ms| - 1], RID_NULL), KeepModels(ms[..|ms| - 1], rows))
  }

  // The trees are as before, without the rows of these models.
  ghost predicate Purged(trees: Trees, trees': Trees, ms: seq<Rid>) {
    forall p: Rid, k: Rid {:trigger RowsAt(trees', p, k)} :: RowsAt(trees', p, k) == KeepModels(ms, RowsAt(trees, p, k))
  }

  // All that these models list is gone from the subject trees, and nothing of other models.
  ghost predicate Erased(st: Trees, st': Trees, v: Chains, ms: seq<Rid>) {
    forall x: Quad {:trigger SCopies(st', x)} ::
      && (SCopies(st', x) == SCopies(st, x) || (x.m in ms && SCopies(st', x) == 0))
      && (x.m in ms && Listed(v, x) > 0 && x.s != RID_GONE ==> SCopies(st', x) == 0)
  }

  // The object trees have lost no quads but some of these models.
  ghost predicate OthersLeft(ot: Trees, ot': Trees, ms: seq<Rid>) {
    forall x: Quad {:trigger OCopies(ot', x)} ::
      OCopies(ot', x) == OCopies(ot, x) || (x.m in ms && OCopies(ot', x) == 0)
  }

  lemma LeftMore(ot: Trees, ot1: Trees, ot2: Trees, ms: seq<Rid>)
    requires OthersLeft(ot, ot1, ms) && OthersLeft(ot1, ot2, ms)
    ensures OthersLeft(ot, ot2, ms)
  {
    forall x: Quad
      ensures OCopies(ot2, x) == OCopies(ot, x) || (x.m in ms && OCopies(ot2, x) == 0)
    {
      assert OCopies(ot1, x) == OCopies(ot, x) || (x.m in ms && OCopies(ot1, x) == 0);
    }
  }

  lemma LeftYet(ot: Trees, ms: seq<Rid>)
    ensures OthersLeft(ot, ot, ms)
  {
  }

  lemma LeftSwept(ot: Trees, p: Rid, ms: seq<Rid>, m: Rid)
    requires m in ms && m != RID_NULL
    ensures OthersLeft(ot, SweepFrom(ot, p, Pair(m, RID_NULL)), ms)
  {
    forall x: Quad
      ensures
        var n := OCopies(SweepFrom(ot, p, Pair(m, RID_NULL)), x);
        n == OCopies(ot, x) || (x.m in ms && n == 0)
    {
      SweptRows(ot, p, Pair(m, RID_NULL), x.p, x.o);
      KeepCount(Pair(m, RID_NULL), RowsAt(ot, x.p, x.o), Pair(x.m, x.s));
    }
  }

  lemma LeftGone(ot: Trees, ot': Trees, gone: set<Quad>, ms: seq<Rid>)
    requires OGone(ot, ot', gone) && forall x :: x in gone ==> x.m in ms
    ensures OthersLeft(ot, ot', ms)
  {
  }

  lemma ErasedGone(st: Trees, st': Trees, gone: set<Quad>, v: Chains, m: Rid)
    requires SGone(st, st', gone) && forall x :: x in gone ==> x.m == m
    requires forall x: Quad {:trigger Listed(v, x)} ::
      x.m == m && Listed(v, x) > 0 && x.s != RID_GONE && SCopies(st, x) > 0 ==> x in gone
    ensures Erased(st, st', v, [m])
  {
    forall x: Quad
      ensures SCopies(st', x) == SCopies(st, x) || (x.m in [m] && SCopies(st', x) == 0)
      ensures x.m in [m] && Listed(v, x) > 0 && x.s != RID_GONE ==> SCopies(st', x) == 0
    {
      assert SCopies(st', x) == if x in gone then 0 else SCopies(st, x);
    }
  }

  lemma ErasedPurged(st: Trees, st': Trees, v: Chains, ms: seq<Rid>)
    requires Purged(st, st', ms) && RID_NULL !in ms
    ensures Erased(st, st', v, ms)
  {
    forall x: Quad
      ensures SCopies(st', x) == if x.m in ms then 0 else SCopies(st, x)
    {
      PurgedS(st, st', ms, x);
    }
  }

  // Models that were passed over list nothing.
  lemma ErasedAll(st: Trees, st': Trees, ot: Trees, ot': Trees, v: Chains, ms: seq<Rid>, todo: seq<Rid>)
    requires Erased(st, st', v, todo) && OthersLeft(ot, ot', todo) && forall m :: m in todo ==> m in ms
    requires forall m :: m in ms && m !in todo ==> ChainAt(v, m) == ModelChain([], false)
    ensures Erased(st, st', v, ms) && OthersLeft(ot, ot', ms)
  {
  }

  lemma SGoneMore(st: Trees, st1: Trees, st2: Trees, a: set<Quad>, b: set<Quad>)
    requires SGone(st, st1, a) && SGone(st1, st2, b)
    ensures SGone(st, st2, a + b)
  {
    forall x: Quad
      ensures SCopies(st2, x) == if x in a + b then 0 else SCopies(st, x)
    {
      assert SCopies(st1, x) == if x in a then 0 else SCopies(st, x);
    }
  }

  lemma OGoneMore(ot: Trees, ot1: Trees, ot2: Trees, a: set<Quad>, b: set<Quad>)
    requires OGone(ot, ot1, a) && OGone(ot1, ot2, b)
    ensures OGone(ot, ot2, a + b)
  {
    forall x: Quad
      ensures OCopies(ot2, x) == if x in a + b then 0 else OCopies(ot, x)
    {
      assert OCopies(ot1, x) == if x in a then 0 else OCopies(ot, x);
    }
  }

  lemma KeptMore(trees: Trees, trees1: Trees, trees2: Trees, m: Rid)
    requires OtherModelsKept(trees, trees1, m) && OtherModelsKept(trees1, trees2, m)
    ensures OtherModelsKept(trees, trees2, m)
  {
    forall p: Rid, k: Rid
      ensures Keep(Pair(m, RID_NULL), RowsAt(trees2, p, k)) == Keep(Pair(m, RID_NULL), RowsAt(trees, p, k))
    {
      assert Keep(Pair(m, RID_NULL), RowsAt(trees1, p, k)) == Keep(Pair(m, RID_NULL), RowsAt(trees, p, k));
    }
  }

  // Removing one storable quad.
  lemma GoneOne(st: Trees, ot: Trees, q: Quad)
    requires Storable(q)
    ensures SGone(st, RemoveFrom(st, q.p, q.s, Pair(q.m, q.o)), {q})
    ensures OtherModelsKept(st, RemoveFrom(st, q.p, q.s, Pair(q.m, q.o)), q.m)
    ensures OGone(ot, RemoveFrom(ot, q.p, q.o, Pair(q.m, q.s)), {q})
    ensures OtherModelsKept(ot, RemoveFrom(ot, q.p, q.o, Pair(q.m, q.s)), q.m)
  {
    forall x: Quad
      ensures SCopies(RemoveFrom(st, q.p, q.s, Pair(q.m, q.o)), x) == if x in {q} then 0 else SCopies(st, x)
      ensures OCopies(RemoveFrom(ot, q.p, q.o, Pair(q.m, q.s)), x) == if x in {q} then 0 else OCopies(ot, x)
    {
      SRemoved(st, q, x);
      ORemoved(ot, q, x);
    }
    RemoveKeeps(st, q.p, q.s, q.m, q.o);
    RemoveKeeps(ot, q.p, q.o, q.m, q.s);
  }

  lemma RemoveKeeps(trees: Trees, p: Rid, key: Rid, m: Rid, other: Rid)
    requires m != RID_NULL
    ensures OtherModelsKept(trees, RemoveFrom(trees, p, key, Pair(m, other)), m)
  {
    forall p': Rid, k: Rid
      ensures Keep(Pair(m, RID_NULL), RowsAt(RemoveFrom(trees, p, key, Pair(m, other)), p', k)) ==
        Keep(Pair(m, RID_NULL), RowsAt(trees, p', k))
    {
      RemovedRows(trees, p, key, Pair(m, other), p', k);
      KeepAbsorbs(Pair(m, RID_NULL), Pair(m, other), RowsAt(trees, p', k));
    }
  }

  lemma GoneNothing(st: Trees, ot: Trees, m: Rid)
    ensures SGone(st, st, {}) && OGone(ot, ot, {}) && OtherModelsKept(st, st, m) && OtherModelsKept(ot, ot, m)
  {
  }

  lemma AgreeGone(st: Trees, ot: Trees, st': Trees, ot': Trees, gone: set<Quad>)
    requires Agree(st, ot) && SGone(st, st', gone) && OGone(ot, ot', gone)
    ensures Agree(st', ot')
  {
    forall x: Quad
      ensures SCopies(st', x) == OCopies(ot', x)
    {
      assert SCopies(st, x) == OCopies(ot, x);
    }
  }

  lemma StorableGone(st: Trees, st': Trees, gone: set<Quad>)
    requires AllStorable(st) && SGone(st, st', gone)
    ensures AllStorable(st')
  {
    forall x: Quad
      ensures SCopies(st', x) > 0 ==> Storable(x)
    {
      assert SCopies(st, x) > 0 ==> Storable(x);
    }
  }

  // If nothing of model `m` is left, exactly its rows have been removed.
  lemma PurgedByOne(trees: Trees, trees': Trees, m: Rid)
    requires OtherModelsKept(trees, trees', m)
    requires forall p: Rid, k: Rid, r: Pair :: r in RowsAt(trees', p, k) ==> r.model != m
    requires m != RID_NULL
    ensures Purged(trees, trees', [m])
  {
    forall p: Rid, k: Rid
      ensures RowsAt(trees', p, k) == KeepModels([m], RowsAt(trees, p, k))
    {
      KeepNothing(Pair(m, RID_NULL), RowsAt(trees', p, k));
      KeepModelsOne(m, RowsAt(trees, p, k));
    }
  }

  lemma KeepModelsOne(m: Rid, rows: seq<Pair>)
    ensures KeepModels([m], rows) == Keep(Pair(m, RID_NULL), rows)
  {
    assert [m][..0] == [];
    assert KeepModels([m][..0], rows) == rows;
  }

  // ---- the chain walk ----

  // Reads a model's chain from end to end, which prunes it if it is marked.
  method ReadChain(seg: Segment, model: Rid, head: nat) returns (out: seq<Triple>)
    requires seg.chain.Valid() && seg.chain.Exists(model) && head == RowTable.Head(seg.chain.ids(Of(model)))
    modifies seg.chain`blocks
    ensures seg.chain.Valid() && seg.chain.OnlyChanged(model) && !seg.chain.Superset(model)
    ensures out == Returned(old(seg.chain.Triples(model)), model, old(seg.chain.Superset(model)), seg.st)
    ensures seg.chain.Triples(model) ==
      Swept(old(seg.chain.Triples(model)), model, old(seg.chain.Superset(model)), seg.st)
    ensures !old(seg.chain.Superset(model)) ==> seg.chain.blocks == old(seg.chain.blocks)
  {
    hide Returned, Swept, OthersKept, Position, RowTable.Partition;
    seg.chain.KeptSoFar(model);
    var it := new ChainIterator(seg.chain, model, head, seg.st);
    out := [];
    var more, t := it.Next(seg.st);
    while more
      invariant it.chain == seg.chain && it.model == model && fresh(it) && it.start == old(seg.chain.Triples(model))
      invariant it.superset == old(seg.chain.Superset(model))
      invariant it.Valid(seg.st) && seg.chain.OnlyChanged(model) && it.done <= |it.start|
      invariant it.Given(seg.st) == out + if more then [t] else []
      invariant seg.chain.Superset(model) == (it.superset && more)
      invariant !more ==>
        it.done == |it.start| && seg.chain.Triples(model) == Swept(it.start, model, it.superset, seg.st)
      invariant !it.superset ==> seg.chain.blocks == old(seg.chain.blocks)
      decreases |it.start| - it.done, more
    {
      out := out + [t];
      ghost var blocks1 := seg.chain.blocks;
      more, t := it.Next(seg.st);
      KeptTwice(old(seg.chain.blocks), seg.chain.ids, blocks1, seg.chain.ids, seg.chain.blocks, seg.chain.ids,
        Of(model));
    }
    assert it.start[..it.done] == it.start;
  }

  // The quads a chain lists for model `m` under some predicates.
  ghost function Walked(m: Rid, ts: seq<Triple>, preds: set<Rid>): set<Quad> {
    set t | t in ts && Alive(t) && t.p in preds :: Quad(m, t.s, t.p, t.o)
  }

  ghost predicate TriplesStorable(m: Rid, ts: seq<Triple>) {
    forall i :: 0 <= i < |ts| && Alive(ts[i]) ==> Storable(Quad(m, ts[i].s, ts[i].p, ts[i].o))
  }

  lemma WalkedNext(m: Rid, ts: seq<Triple>, i: nat, pred: Rid)
    requires i < |ts| && Alive(ts[i])
    ensures Walked(m, ts[..i + 1], {pred}) ==
            if ts[i].p == pred then Walked(m, ts[..i], {pred}) + {Quad(m, ts[i].s, ts[i].p, ts[i].o)}
              else Walked(m, ts[..i], {pred})
  {
    assert ts[..i + 1] == ts[..i] + [ts[i]];
  }

  lemma WalkedReturned(m: Rid, ts: seq<Triple>, trees: Trees, preds: set<Rid>)
    ensures Walked(m, Returned(ts, m, false, trees), preds) == Walked(m, ts, preds)
  {
    forall t
      ensures t in Returned(ts, m, false, trees) <==> t in ts && Alive(t)
    {
      ReturnedIff(ts, m, false, trees, t);
    }
  }

  lemma ReturnedStorable(m: Rid, ts: seq<Triple>, superset: bool, trees: Trees)
    requires TriplesStorable(m, ts)
    ensures
      var out := Returned(ts, m, superset, trees);
      TriplesStorable(m, out) && forall i :: 0 <= i < |out| ==> Alive(out[i])
  {
    var out := Returned(ts, m, superset, trees);
    forall i | 0 <= i < |out|
      ensures Alive(out[i]) && Storable(Quad(m, out[i].s, out[i].p, out[i].o))
    {
      ReturnedIff(ts, m, superset, trees, out[i]);
    }
  }

  // Takes one listed quad out of both families.
  method RemoveQuad(seg: Segment, q: Quad)
    requires Storable(q) && seg.Paired()
    modifies seg`st, seg`ot, seg`log
    ensures seg.Paired() && seg.st.Keys == old(seg.st).Keys && seg.ot.Keys == old(seg.ot).Keys
    ensures SGone(old(seg.st), seg.st, {q}) && OGone(old(seg.ot), seg.ot, {q})
    ensures OtherModelsKept(old(seg.st), seg.st, q.m) && OtherModelsKept(old(seg.ot), seg.ot, q.m)
  {
    hide Replay, SGone, OGone, OtherModelsKept;
    GoneOne(seg.st, seg.ot, q);
    seg.Tell(RemoveRows(false, q.p, q.s, Pair(q.m, q.o)));
    seg.Tell(RemoveRows(true, q.p, q.o, Pair(q.m, q.s)));
  }

  // One round of remove_by_search: the listed quads of one predicate. The chain is read afresh.
  method WalkPred(seg: Segment, model: Rid, head: nat, pred: Rid)
    requires seg.chain.Valid() && seg.chain.Exists(model) && head == RowTable.Head(seg.chain.ids(Of(model)))
    requires !seg.chain.Superset(model) && TriplesStorable(model, seg.chain.Triples(model)) && seg.Paired()
    modifies seg`st, seg`ot, seg`log, seg.chain`blocks
    ensures seg.chain.blocks == old(seg.chain.blocks) && seg.Paired()
    ensures
      var gone := Walked(model, seg.chain.Triples(model), {pred});
      SGone(old(seg.st), seg.st, gone) && OGone(old(seg.ot), seg.ot, gone)
    ensures OtherModelsKept(old(seg.st), seg.st, model) && OtherModelsKept(old(seg.ot), seg.ot, model)
  {
    hide Replay, SGone, OGone, OtherModelsKept, Returned, Swept, OthersKept, Walked, RowTable.Partition, Storable;
    var out := ReadChain(seg, model, head);
    ReturnedStorable(model, seg.chain.Triples(model), false, seg.st);
    WalkedReturned(model, seg.chain.Triples(model), seg.st, {pred});
    GoneNothing(seg.st, seg.ot, model);
    NothingWalked(model, out, pred);
    for i := 0 to |out|
      invariant seg.chain.blocks == old(seg.chain.blocks) && seg.Paired()
      invariant SGone(old(seg.st), seg.st, Walked(model, out[..i], {pred}))
      invariant OGone(old(seg.ot), seg.ot, Walked(model, out[..i], {pred}))
      invariant OtherModelsKept(old(seg.st), seg.st, model) && OtherModelsKept(old(seg.ot), seg.ot, model)
    {
      var t := out[i];
      WalkedNext(model, out, i, pred);
      if t.p == pred {
        ghost var st1, ot1 := seg.st, seg.ot;
        var q := Quad(model, t.s, t.p, t.o);
        RemoveQuad(seg, q);
        SGoneMore(old(seg.st), st1, seg.st, Walked(model, out[..i], {pred}), {q});
        OGoneMore(old(seg.ot), ot1, seg.ot, Walked(model, out[..i], {pred}), {q});
        KeptMore(old(seg.st), st1, seg.st, model);
        KeptMore(old(seg.ot), ot1, seg.ot, model);
      }
    }
    assert out[..|out|] == out;
  }

  lemma NothingWalked(m: Rid, ts: seq<Triple>, pred: Rid)
    ensures Walked(m, ts[..0], {pred}) == {}
  {
  }

  lemma WalkedMore(m: Rid, ts: seq<Triple>, preds: set<Rid>, pred: Rid)
    ensures Walked(m, ts, preds + {pred}) == Walked(m, ts, preds) + Walked(m, ts, {pred})
    ensures Walked(m, ts, {}) == {}
  {
  }

  // A predicate without trees has no quads to lose.
  lemma NoTrees(st: Trees, ot: Trees, m: Rid, ts: seq<Triple>, pred: Rid)
    requires pred !in st && pred !in ot
    ensures SGone(st, st, Walked(m, ts, {pred})) && OGone(ot, ot, Walked(m, ts, {pred}))
    ensures OtherModelsKept(st, st, m) && OtherModelsKept(ot, ot, m)
  {
    forall x: Quad
      ensures x in Walked(m, ts, {pred}) ==> SCopies(st, x) == 0 && OCopies(ot, x) == 0
    {
    }
  }

  // The second half of remove_by_search: predicate after predicate.
  method WalkAll(seg: Segment, model: Rid, head: nat, preds: set<Rid>)
    requires seg.chain.Valid() && seg.chain.Exists(model) && head == RowTable.Head(seg.chain.ids(Of(model)))
    requires !seg.chain.Superset(model) && TriplesStorable(model, seg.chain.Triples(model)) && seg.Paired()
    modifies seg`st, seg`ot, seg`log, seg.chain`blocks
    ensures seg.chain.blocks == old(seg.chain.blocks) && seg.Paired()
    ensures
      var gone := Walked(model, seg.chain.Triples(model), preds);
      SGone(old(seg.st), seg.st, gone) && OGone(old(seg.ot), seg.ot, gone)
    ensures OtherModelsKept(old(seg.st), seg.st, model) && OtherModelsKept(old(seg.ot), seg.ot, model)
  {
    hide Replay, SGone, OGone, OtherModelsKept, Walked, OthersKept, TriplesStorable, TBChain.Valid;
    var todo := preds;
    ghost var done: set<Rid> := {};
    ghost var ts := seg.chain.Triples(model);
    GoneNothing(seg.st, seg.ot, model);
    WalkedMore(model, ts, {}, 0);
    while todo != {}
      invariant done + todo == preds
      invariant seg.chain.blocks == old(seg.chain.blocks) && seg.Paired()
      invariant SGone(old(seg.st), seg.st, Walked(model, ts, done))
      invariant OGone(old(seg.ot), seg.ot, Walked(model, ts, done))
      invariant OtherModelsKept(old(seg.st), seg.st, model) && OtherModelsKept(old(seg.ot), seg.ot, model)
      decreases |todo|
    {
      var pred :| pred in todo;
      ghost var st1, ot1 := seg.st, seg.ot;
      if pred in seg.st {
        WalkPred(seg, model, head, pred);
      } else {
        NoTrees(seg.st, seg.ot, model, ts, pred);
      }
      WalkedMore(model, ts, done, pred);
      SGoneMore(old(seg.st), st1, seg.st, Walked(model, ts, done), Walked(model, ts, {pred}));
      OGoneMore(old(seg.ot), ot1, seg.ot, Walked(model, ts, done), Walked(model, ts, {pred}));
      KeptMore(old(seg.st), st1, seg.st, model);
      KeptMore(old(seg.ot), ot1, seg.ot, model);
      todo := todo - {pred};
      done := done + {pred};
    }
    assert done == preds;
  }

  // The predicates a chain's reader sees, without the wildcard, which a set of RIDs cannot hold.
  function Preds(out: seq<Triple>): set<Rid> {
    (set t | t in out :: t.p) - {RID_NULL}
  }

  // Every indexed quad that is listed is walked.
  lemma AllWalked(st: Trees, v: Chains, m: Rid, x: Quad)
    requires Listed(v, x) > 0 && AllStorable(st) && x.m == m && SCopies(st, x) > 0
    ensures
      var ts, superset := ChainAt(v, m).triples, ChainAt(v, m).superset;
      x in Walked(m, Swept(ts, m, superset, st), Preds(Returned(ts, m, superset, st)))
  {
    hide Returned, Swept;
    var ts, superset, t := ChainAt(v, m).triples, ChainAt(v, m).superset, Triple(x.s, x.p, x.o);
    assert t in ts;
    InIndexIff(st, x);
    SweptIff(ts, m, superset, st, t);
    ReturnedIff(ts, m, superset, st, t);
  }

  lemma MirroredLists(st: Trees, pending: set<Quad>, v: Chains, x: Quad)
    requires Mirrored(st, pending, v) && Known(st, pending, x)
    ensures Listed(v, x) > 0
  {
  }

  // Only quads of model `m` are walked.
  lemma WalkedOwn(m: Rid, ts: seq<Triple>, preds: set<Rid>)
    ensures forall x :: x in Walked(m, ts, preds) ==> x.m == m
  {
  }

  lemma SPurged(st: Trees, st': Trees, m: Rid, gone: set<Quad>)
    requires SGone(st, st', gone) && OtherModelsKept(st, st', m) && m != RID_NULL
    requires forall x: Quad {:trigger SCopies(st, x)} :: x.m == m && SCopies(st, x) > 0 ==> x in gone
    ensures Purged(st, st', [m])
  {
    forall p: Rid, k: Rid, r: Pair | r in RowsAt(st', p, k)
      ensures r.model != m
    {
      var x := Quad(r.model, k, p, r.other);
      assert SCopies(st', x) > 0;
      assert SCopies(st, x) > 0;
    }
    PurgedByOne(st, st', m);
  }

  lemma OPurged(st: Trees, ot: Trees, ot': Trees, m: Rid, gone: set<Quad>)
    requires OGone(ot, ot', gone) && OtherModelsKept(ot, ot', m) && m != RID_NULL && Agree(st, ot)
    requires forall x: Quad {:trigger SCopies(st, x)} :: x.m == m && SCopies(st, x) > 0 ==> x in gone
    ensures Purged(ot, ot', [m])
  {
    forall p: Rid, k: Rid, r: Pair | r in RowsAt(ot', p, k)
      ensures r.model != m
    {
      var x := Quad(r.model, r.other, p, k);
      assert OCopies(ot', x) > 0;
      assert SCopies(st, x) == OCopies(ot, x);
    }
    PurgedByOne(ot, ot', m);
  }

  // The chains once model `m` has none.
  ghost function Forgotten(v: Chains, m: Rid): Chains {
    v[m := ModelChain([], false)]
  }

  lemma ForgottenStorable(v: Chains, m: Rid)
    requires ListsStorable(v)
    ensures ListsStorable(Forgotten(v, m))
  {
    forall x: Quad
      ensures Listed(Forgotten(v, m), x) == if x.m == m then 0 else Listed(v, x)
    {
    }
  }

  lemma MirroredForgotten(st: Trees, pending: set<Quad>, v: Chains, st': Trees, m: Rid)
    requires Mirrored(st, pending, v)
    requires forall x: Quad {:trigger SCopies(st', x)} :: SCopies(st', x) == if x.m == m then 0 else SCopies(st, x)
    ensures Mirrored(st', pending, Forgotten(v, m)) <==> forall x :: x in pending ==> x.m != m
  {
    forall x: Quad
      ensures Known(st', pending, x) && x.m != m ==> Listed(Forgotten(v, m), x) > 0
      ensures x.m == m ==> Listed(Forgotten(v, m), x) == 0 && (Known(st', pending, x) <==> x in pending)
      ensures Listed(Forgotten(v, m), x) > 0 && x.s != RID_GONE && !ChainAt(Forgotten(v, m), x.m).superset ==>
        Known(st', pending, x)
    {
      assert Listed(Forgotten(v, m), x) == if x.m == m then 0 else Listed(v, x);
      assert SCopies(st', x) == if x.m == m then 0 else SCopies(st, x);
    }
  }

  lemma OwnGone(st: Trees, st': Trees, m: Rid, gone: set<Quad>)
    requires SGone(st, st', gone) && (forall x :: x in gone ==> x.m == m)
    requires forall x: Quad {:trigger SCopies(st, x)} :: x.m == m && SCopies(st, x) > 0 ==> x in gone
    ensures forall x: Quad {:trigger SCopies(st', x)} :: SCopies(st', x) == if x.m == m then 0 else SCopies(st, x)
  {
    forall x: Quad
      ensures SCopies(st', x) == if x.m == m then 0 else SCopies(st, x)
    {
      assert x.m == m && SCopies(st, x) > 0 ==> x in gone;
    }
  }

  // Frees a model's chain and clears its entry in the model table.
  method DropChain(seg: Segment, model: Rid)
    requires seg.ModelTable()
    modifies seg`models, seg.chain
    ensures seg.ModelTable() && seg.chain.View() == Forgotten(old(seg.chain.View()), model)
  {
    hide RowTable.Partition, OthersKept, Flat, Contents, TBChain.Valid, HeadsListed;
    var node := NodeOf(seg.models, model);
    HeadOf(seg.models, seg.chain.ids, model);
    if node > 1 {
      seg.chain.SomeHead(model);
      seg.chain.RemoveChain(node, model);
      seg.chain.HeadsKept(model);
      seg.chain.ViewChanged(model);
    } else {
      seg.chain.NotOne(model);
    }
    seg.chain.EmptyView(model);
    TableStep(seg.models, seg.models[model := 0], old(seg.chain.ids), seg.chain.ids, model);
    seg.models := seg.models[model := 0];
  }

  lemma HeadOf(models: map<Rid, nat>, ids: RowTable.Lists, m: Rid)
    requires HeadsListed(models, ids)
    ensures NodeOf(models, m) == RowTable.Head(ids(Of(m)))
  {
  }

  // Deletion by walking the model's chain: remove_by_search.
  method DeleteByWalk(seg: Segment, model: Rid)
    requires seg.Shape() && NodeOf(seg.models, model) > 1 && model != RID_NULL
    modifies seg`st, seg`ot, seg`log, seg`models, seg.chain
    ensures seg.Shape() && seg.chain.View() == Forgotten(old(seg.chain.View()), model)
    ensures OtherModelsKept(old(seg.st), seg.st, model) && OtherModelsKept(old(seg.ot), seg.ot, model)
    ensures Erased(old(seg.st), seg.st, old(seg.chain.View()), [model]) && OthersLeft(old(seg.ot), seg.ot, [model])
    ensures old(seg.Mirroring()) ==> Purged(old(seg.st), seg.st, [model])
    ensures old(seg.Mirroring()) && old(seg.Agreeing()) ==> Purged(old(seg.ot), seg.ot, [model])
    ensures old(seg.Agreeing()) ==> seg.Agreeing()
    ensures old(seg.Mirroring()) ==> (seg.Mirroring() <==> forall x :: x in Waiting(seg.pended) ==> x.m != model)
  {
    hide Replay, SGone, OGone, OtherModelsKept, Purged, Walked, Returned, Swept, OthersKept, Mirrored, Agree;
    hide Erased, OthersLeft, Listed, AllStorable, ListsStorable, TBChain.Valid, TBChain.View, HeadsListed, Waiting;
    hide Sorted16, Flat, Contents;
    var head := NodeOf(seg.models, model);
    HeadOf(seg.models, seg.chain.ids, model);
    seg.chain.SomeHead(model);
    ghost var v, ts, superset := seg.chain.View(), seg.chain.Triples(model), seg.chain.Superset(model);
    ViewAt(seg.chain, model);
    OwnStorable(v, model);
    var out := ReadChain(seg, model, head);
    seg.chain.ViewChanged(model);
    ForgottenTwice(v, ModelChain(seg.chain.Triples(model), seg.chain.Superset(model)), model);
    SweptStorable(model, ts, superset, seg.st);
    var preds := Preds(out);
    ghost var gone := Walked(model, seg.chain.Triples(model), preds);
    WalkAll(seg, model, head, preds);
    DropChain(seg, model);
    ForgottenStorable(v, model);
    StorableGone(old(seg.st), seg.st, gone);
    WalkedOwn(model, Swept(ts, model, superset, old(seg.st)), preds);
    if old(seg.Agreeing()) {
      AgreeGone(old(seg.st), old(seg.ot), seg.st, seg.ot, gone);
    }
    forall x: Quad {:trigger Listed(v, x)} | x.m == model && Listed(v, x) > 0 && SCopies(old(seg.st), x) > 0
      ensures x in gone
    {
      AllWalked(old(seg.st), v, model, x);
    }
    ErasedGone(old(seg.st), seg.st, gone, v, model);
    LeftGone(old(seg.ot), seg.ot, gone, [model]);
    if old(seg.Mirroring()) {
      forall x: Quad {:trigger SCopies(old(seg.st), x)} | x.m == model && SCopies(old(seg.st), x) > 0
        ensures x in gone
      {
        MirroredLists(old(seg.st), Waiting(seg.pended), v, x);
      }
      SPurged(old(seg.st), seg.st, model, gone);
      OwnGone(old(seg.st), seg.st, model, gone);
      if old(seg.Agreeing()) {
        OPurged(old(seg.st), old(seg.ot), seg.ot, model, gone);
      }
      MirroredForgotten(old(seg.st), Waiting(seg.pended), v, seg.st, model);
    }
  }

  lemma ViewAt(chain: TBChain, m: Rid)
    ensures ChainAt(chain.View(), m) == ModelChain(chain.Triples(m), chain.Superset(m))
  {
  }

  lemma OwnStorable(v: Chains, m: Rid)
    requires ListsStorable(v)
    ensures TriplesStorable(m, ChainAt(v, m).triples)
  {
    var ts := ChainAt(v, m).triples;
    forall i | 0 <= i < |ts| && Alive(ts[i])
      ensures Storable(Quad(m, ts[i].s, ts[i].p, ts[i].o))
    {
      assert ts[i] in multiset(ts);
      assert Listed(v, Quad(m, ts[i].s, ts[i].p, ts[i].o)) > 0;
    }
  }

  lemma SweptStorable(m: Rid, ts: seq<Triple>, superset: bool, trees: Trees)
    requires TriplesStorable(m, ts)
    ensures TriplesStorable(m, Swept(ts, m, superset, trees))
  {
  }

  lemma ForgottenTwice(v: Chains, c: ModelChain, m: Rid)
    ensures Forgotten(v[m := c], m) == Forgotten(v, m)
  {
  }

  // ---- the sweep ----

  // Tree `p` is as before, without the rows of these models.
  ghost predicate PurgedAt(trees: Trees, trees': Trees, p: Rid, ms: seq<Rid>) {
    forall k: Rid {:trigger RowsAt(trees', p, k)} :: RowsAt(trees', p, k) == KeepModels(ms, RowsAt(trees, p, k))
  }

  // The two trees of predicate `p` hold the same quads.
  ghost predicate AgreeAt(st: Trees, ot: Trees, p: Rid) {
    forall x: Quad {:trigger SCopies(st, x)} {:trigger OCopies(ot, x)} :: x.p == p ==> SCopies(st, x) == OCopies(ot, x)
  }

  // All trees but `p` are as before.
  ghost predicate OthersSame(trees: Trees, trees': Trees, p: Rid) {
    trees'.Keys == trees.Keys && forall q :: q in trees && q != p ==> trees'[q] == trees[q]
  }

  lemma {:induction false} KeepModelsIff(ms: seq<Rid>, rows: seq<Pair>, r: Pair)
    requires RID_NULL !in ms
    ensures r in KeepModels(ms, rows) <==> r in rows && r.model !in ms
  {
    if ms != [] {
      var n := |ms| - 1;
      KeepModelsIff(ms[..n], rows, r);
      assert ms == ms[..n] + [ms[n]];
      KeepCount(Pair(ms[n], RID_NULL), KeepModels(ms[..n], rows), r);
      assert forall s: seq<Pair> :: r in s <==> multiset(s)[r] > 0;
    }
  }

  lemma KeepModelsNext(ms: seq<Rid>, j: nat, rows: seq<Pair>)
    requires j < |ms|
    ensures KeepModels(ms[..j + 1], rows) == Keep(Pair(ms[j], RID_NULL), KeepModels(ms[..j], rows))
  {
    assert ms[..j + 1][..j] == ms[..j];
  }

  // One more model swept from tree `p`.
  lemma SweepStep(trees0: Trees, trees: Trees, p: Rid, ms: seq<Rid>, j: nat)
    requires j < |ms| && PurgedAt(trees0, trees, p, ms[..j])
    ensures PurgedAt(trees0, SweepFrom(trees, p, Pair(ms[j], RID_NULL)), p, ms[..j + 1])
  {
    forall k: Rid
      ensures RowsAt(SweepFrom(trees, p, Pair(ms[j], RID_NULL)), p, k) == KeepModels(ms[..j + 1], RowsAt(trees0, p, k))
    {
      SweptRows(trees, p, Pair(ms[j], RID_NULL), p, k);
      KeepModelsNext(ms, j, RowsAt(trees0, p, k));
    }
  }

  // If the sweep finds nothing of a model in the subject tree, there is nothing of it in the object tree
  // either, so that sweep can be left out.
  lemma SkipStep(st0: Trees, ot0: Trees, st: Trees, ot: Trees, p: Rid, ms: seq<Rid>, j: nat)
    requires AgreeAt(st0, ot0, p) && j < |ms| && RID_NULL !in ms
    requires PurgedAt(st0, st, p, ms[..j]) && PurgedAt(ot0, ot, p, ms[..j])
    requires SweepFrom(st, p, Pair(ms[j], RID_NULL)) == st
    ensures PurgedAt(ot0, ot, p, ms[..j + 1])
  {
    forall k: Rid
      ensures RowsAt(ot, p, k) == KeepModels(ms[..j + 1], RowsAt(ot0, p, k))
    {
      var rows := RowsAt(ot, p, k);
      KeepModelsNext(ms, j, RowsAt(ot0, p, k));
      forall r | r in rows
        ensures !Matches(Pair(ms[j], RID_NULL), r)
      {
        NotThere(st0, ot0, st, ot, p, ms, j, k, r);
      }
      KeepNothing(Pair(ms[j], RID_NULL), rows);
    }
  }

  lemma NotThere(st0: Trees, ot0: Trees, st: Trees, ot: Trees, p: Rid, ms: seq<Rid>, j: nat, k: Rid, r: Pair)
    requires AgreeAt(st0, ot0, p) && j < |ms| && RID_NULL !in ms
    requires PurgedAt(st0, st, p, ms[..j]) && PurgedAt(ot0, ot, p, ms[..j])
    requires SweepFrom(st, p, Pair(ms[j], RID_NULL)) == st && r in RowsAt(ot, p, k)
    ensures r.model != ms[j]
  {
    var m, x, pattern := r.model, Quad(r.model, r.other, p, k), Pair(ms[j], RID_NULL);
    KeepModelsIff(ms[..j], RowsAt(ot0, p, k), r);
    assert OCopies(ot0, x) > 0;
    assert SCopies(st0, x) > 0;
    assert Pair(m, k) in RowsAt(st0, p, r.other);
    KeepModelsIff(ms[..j], RowsAt(st0, p, r.other), Pair(m, k));
    assert Pair(m, k) in RowsAt(st, p, r.other);
    SweptRows(st, p, pattern, p, r.other);
    KeepNothing(pattern, RowsAt(st, p, r.other));
  }

  // One pair of trees, model after model.
  method SweepTree(seg: Segment, p: Rid, ms: seq<Rid>)
    requires seg.Paired() && p in seg.st && RID_NULL !in ms
    modifies seg`st, seg`ot, seg`log
    ensures seg.Paired() && OthersSame(old(seg.st), seg.st, p) && OthersSame(old(seg.ot), seg.ot, p)
    ensures PurgedAt(old(seg.st), seg.st, p, ms)
    ensures old(AgreeAt(seg.st, seg.ot, p)) ==> PurgedAt(old(seg.ot), seg.ot, p, ms)
    ensures OthersLeft(old(seg.ot), seg.ot, ms)
  {
    hide Replay, PurgedAt, AgreeAt, OthersSame, SweepFrom, OthersLeft;
    LeftYet(seg.ot, ms);
    OthersYet(seg.st, p);
    OthersYet(seg.ot, p);
    PurgedNone(seg.st, p, ms);
    PurgedNone(seg.ot, p, ms);
    for j := 0 to |ms|
      invariant seg.Paired() && OthersSame(old(seg.st), seg.st, p) && OthersSame(old(seg.ot), seg.ot, p)
      invariant PurgedAt(old(seg.st), seg.st, p, ms[..j])
      invariant old(AgreeAt(seg.st, seg.ot, p)) ==> PurgedAt(old(seg.ot), seg.ot, p, ms[..j])
      invariant OthersLeft(old(seg.ot), seg.ot, ms)
    {
      var pattern := Pair(ms[j], RID_NULL);
      LeftSwept(seg.ot, p, ms, ms[j]);
      LeftMore(old(seg.ot), seg.ot, SweepFrom(seg.ot, p, pattern), ms);
      var swept := SweepFrom(seg.st, p, pattern);
      SweepStep(old(seg.st), seg.st, p, ms, j);
      OthersSwept(old(seg.st), seg.st, p, pattern);
      OthersSwept(old(seg.ot), seg.ot, p, pattern);
      var removed := swept != seg.st;
      if old(AgreeAt(seg.st, seg.ot, p)) {
        SweepStep(old(seg.ot), seg.ot, p, ms, j);
        if !removed {
          SkipStep(old(seg.st), old(seg.ot), seg.st, seg.ot, p, ms, j);
        }
      }
      seg.Tell(SweepRows(false, p, pattern));
      if removed {
        seg.Tell(SweepRows(true, p, pattern));
      }
    }
    assert ms[..|ms|] == ms;
  }

  lemma OthersYet(trees: Trees, p: Rid)
    ensures OthersSame(trees, trees, p)
  {
  }

  lemma OthersSwept(trees: Trees, trees1: Trees, p: Rid, pattern: Pair)
    requires OthersSame(trees, trees1, p)
    ensures OthersSame(trees, SweepFrom(trees1, p, pattern), p) && SweepFrom(trees1, p, pattern).Keys == trees1.Keys
  {
    hide TreeRemoveAll;
  }

  lemma PurgedNone(trees: Trees, p: Rid, ms: seq<Rid>)
    ensures PurgedAt(trees, trees, p, ms[..0])
  {
  }

  // Every tree of the segment.
  method Sweep(seg: Segment, ms: seq<Rid>)
    requires RID_NULL !in ms && seg.Paired()
    modifies seg`st, seg`ot, seg`log
    ensures seg.Paired() && seg.st.Keys == old(seg.st).Keys
    ensures Purged(old(seg.st), seg.st, ms)
    ensures old(seg.Agreeing()) ==> Purged(old(seg.ot), seg.ot, ms)
    ensures OthersLeft(old(seg.ot), seg.ot, ms)
  {
    hide Replay, PurgedAt, Agree, AgreeAt, OthersLeft, Purged;
    var todo := seg.st.Keys;
    LeftYet(seg.ot, ms);
    ghost var agree := seg.Agreeing();
    SweptYet(seg.st, ms);
    SweptYet(seg.ot, ms);
    while todo != {}
      invariant seg.Paired() && todo <= seg.st.Keys == old(seg.st).Keys
      invariant SweptSoFar(old(seg.st), seg.st, ms, todo) && RestSame(old(seg.ot), seg.ot, todo)
      invariant agree ==> SweptSoFar(old(seg.ot), seg.ot, ms, todo)
      invariant OthersLeft(old(seg.ot), seg.ot, ms)
      decreases |todo|
    {
      var p :| p in todo;
      ghost var st1, ot1 := seg.st, seg.ot;
      if agree {
        StillAgree(old(seg.st), old(seg.ot), seg.st, seg.ot, p);
      }
      SweepTree(seg, p, ms);
      LeftMore(old(seg.ot), ot1, seg.ot, ms);
      SweptNext(old(seg.st), st1, seg.st, p, ms, todo);
      if agree {
        SweptNext(old(seg.ot), ot1, seg.ot, p, ms, todo);
      }
      todo := todo - {p};
    }
    SweptAll(old(seg.st), seg.st, ms);
    if agree {
      SweptAll(old(seg.ot), seg.ot, ms);
    }
  }

  // The trees still to do are as before.
  ghost predicate RestSame(trees: Trees, trees': Trees, todo: set<Rid>) {
    trees'.Keys == trees.Keys && forall p :: p in todo && p in trees ==> trees'[p] == trees[p]
  }

  // And the others are swept.
  ghost predicate SweptSoFar(trees: Trees, trees': Trees, ms: seq<Rid>, todo: set<Rid>) {
    && RestSame(trees, trees', todo)
    && (forall p {:trigger PurgedAt(trees, trees', p, ms)} ::
          p in trees && p !in todo ==> PurgedAt(trees, trees', p, ms))
  }

  lemma SweptYet(trees: Trees, ms: seq<Rid>)
    ensures SweptSoFar(trees, trees, ms, trees.Keys)
  {
  }

  lemma StillAgree(st: Trees, ot: Trees, st': Trees, ot': Trees, p: Rid)
    requires Agree(st, ot) && p in st && p in ot && p in st' && p in ot' && st'[p] == st[p] && ot'[p] == ot[p]
    ensures AgreeAt(st', ot', p)
  {
    forall x: Quad | x.p == p
      ensures SCopies(st', x) == OCopies(ot', x)
    {
      assert SCopies(st, x) == OCopies(ot, x);
    }
  }

  lemma SweptNext(trees: Trees, trees1: Trees, trees2: Trees, p: Rid, ms: seq<Rid>, todo: set<Rid>)
    requires SweptSoFar(trees, trees1, ms, todo) && p in todo && p in trees
    requires OthersSame(trees1, trees2, p) && PurgedAt(trees1, trees2, p, ms)
    ensures SweptSoFar(trees, trees2, ms, todo - {p})
  {
    forall q | q in trees && q !in todo - {p}
      ensures PurgedAt(trees, trees2, q, ms)
    {
      if q == p {
        forall k: Rid
          ensures RowsAt(trees2, p, k) == KeepModels(ms, RowsAt(trees, p, k))
        {
          assert RowsAt(trees1, p, k) == RowsAt(trees, p, k);
        }
      } else {
        assert PurgedAt(trees, trees1, q, ms);
        forall k: Rid
          ensures RowsAt(trees2, q, k) == KeepModels(ms, RowsAt(trees, q, k))
        {
          assert RowsAt(trees2, q, k) == RowsAt(trees1, q, k);
        }
      }
    }
  }

  lemma SweptAll(trees: Trees, trees': Trees, ms: seq<Rid>)
    requires SweptSoFar(trees, trees', ms, {}) && RID_NULL !in ms
    ensures Purged(trees, trees', ms)
  {
    forall p: Rid, k: Rid
      ensures RowsAt(trees', p, k) == KeepModels(ms, RowsAt(trees, p, k))
    {
      if p in trees {
        assert PurgedAt(trees, trees', p, ms);
      } else {
        KeepModelsEmpty(ms);
      }
    }
  }

  lemma {:induction false} KeepModelsEmpty(ms: seq<Rid>)
    ensures KeepModels(ms, []) == []
  {
    if ms != [] {
      KeepModelsEmpty(ms[..|ms| - 1]);
    }
  }

  // ---- deleting models ----

  lemma PurgedS(st: Trees, st': Trees, ms: seq<Rid>, x: Quad)
    requires Purged(st, st', ms) && RID_NULL !in ms
    ensures SCopies(st', x) == if x.m in ms then 0 else SCopies(st, x)
  {
    KeepModelsCount(ms, RowsAt(st, x.p, x.s), Pair(x.m, x.o));
  }

  lemma PurgedO(ot: Trees, ot': Trees, ms: seq<Rid>, x: Quad)
    requires Purged(ot, ot', ms) && RID_NULL !in ms
    ensures OCopies(ot', x) == if x.m in ms then 0 else OCopies(ot, x)
  {
    KeepModelsCount(ms, RowsAt(ot, x.p, x.o), Pair(x.m, x.s));
  }

  lemma {:induction false} KeepModelsCount(ms: seq<Rid>, rows: seq<Pair>, r: Pair)
    requires RID_NULL !in ms
    ensures multiset(KeepModels(ms, rows))[r] == if r.model in ms then 0 else multiset(rows)[r]
  {
    hide Keep, KeepModels;
    if ms == [] {
      KeepNone(rows);
    } else {
      var n := |ms| - 1;
      KeepLast(ms, rows, r);
      assert ms == ms[..n] + [ms[n]];
      KeepModelsCount(ms[..n], rows, r);
    }
  }

  lemma KeepNone(rows: seq<Pair>)
    ensures KeepModels([], rows) == rows
  {
  }

  lemma KeepLast(ms: seq<Rid>, rows: seq<Pair>, r: Pair)
    requires ms != [] && ms[|ms| - 1] != RID_NULL
    ensures multiset(KeepModels(ms, rows))[r] ==
      if r.model == ms[|ms| - 1] then 0 else multiset(KeepModels(ms[..|ms| - 1], rows))[r]
  {
    hide Keep;
    KeepCount(Pair(ms[|ms| - 1], RID_NULL), KeepModels(ms[..|ms| - 1], rows), r);
  }

  lemma AgreePurged(st: Trees, ot: Trees, st': Trees, ot': Trees, ms: seq<Rid>)
    requires Agree(st, ot) && Purged(st, st', ms) && Purged(ot, ot', ms) && RID_NULL !in ms
    ensures Agree(st', ot')
  {
    forall x: Quad
      ensures SCopies(st', x) == OCopies(ot', x)
    {
      PurgedS(st, st', ms, x);
      PurgedO(ot, ot', ms, x);
    }
  }

  lemma StorablePurged(st: Trees, st': Trees, ms: seq<Rid>)
    requires AllStorable(st) && Purged(st, st', ms) && RID_NULL !in ms
    ensures AllStorable(st')
  {
    forall x: Quad
      ensures SCopies(st', x) > 0 ==> Storable(x)
    {
      PurgedS(st, st', ms, x);
    }
  }

  // These models have no chain any more; the others are as before.
  ghost predicate Forgot(v: Chains, v': Chains, ms: seq<Rid>) {
    forall m: Rid {:trigger ChainAt(v', m)} ::
      ChainAt(v', m) == if m in ms then ModelChain([], false) else ChainAt(v, m)
  }

  lemma ForgotOne(v: Chains, v1: Chains, ms: seq<Rid>, j: nat)
    requires j < |ms| && Forgot(v, v1, ms[..j])
    ensures Forgot(v, Forgotten(v1, ms[j]), ms[..j + 1])
  {
    assert ms[..j + 1] == ms[..j] + [ms[j]];
    forall m: Rid
      ensures ChainAt(Forgotten(v1, ms[j]), m) == if m in ms[..j + 1] then ModelChain([], false) else ChainAt(v, m)
    {
      assert ChainAt(v1, m) == if m in ms[..j] then ModelChain([], false) else ChainAt(v, m);
    }
  }

  lemma ForgotAll(v: Chains, v': Chains, ms: seq<Rid>, todo: seq<Rid>)
    requires Forgot(v, v', todo) && forall m :: m in todo ==> m in ms
    requires forall m :: m in ms && m !in todo ==> ChainAt(v, m) == ModelChain([], false)
    ensures Forgot(v, v', ms)
  {
  }

  lemma ForgotStorable(v: Chains, v': Chains, ms: seq<Rid>)
    requires ListsStorable(v) && Forgot(v, v', ms)
    ensures ListsStorable(v')
  {
    forall x: Quad
      ensures Listed(v', x) > 0 && x.s != RID_GONE ==> Storable(x)
    {
      assert ChainAt(v', x.m) == if x.m in ms then ModelChain([], false) else ChainAt(v, x.m);
      assert Listed(v, x) > 0 && x.s != RID_GONE ==> Storable(x);
    }
  }

  lemma MirroredForgot(st: Trees, pending: set<Quad>, v: Chains, st': Trees, v': Chains, ms: seq<Rid>)
    requires Mirrored(st, pending, v)
    requires Purged(st, st', ms) && Forgot(v, v', ms) && RID_NULL !in ms
    ensures Mirrored(st', pending, v') <==> forall x :: x in pending ==> x.m !in ms
  {
    forall x: Quad
      ensures Known(st', pending, x) && x.m !in ms ==> Listed(v', x) > 0
      ensures x.m in ms ==> Listed(v', x) == 0 && (Known(st', pending, x) <==> x in pending)
      ensures Listed(v', x) > 0 && x.s != RID_GONE && !ChainAt(v', x.m).superset ==> Known(st', pending, x)
    {
      PurgedS(st, st', ms, x);
      assert ChainAt(v', x.m) == if x.m in ms then ModelChain([], false) else ChainAt(v, x.m);
      assert Listed(v', x) == if x.m in ms then 0 else Listed(v, x);
      assert Known(st, pending, x) ==> Listed(v, x) > 0;
    }
  }

  // A model without a chain has no rows.
  ghost predicate Absent(trees: Trees, m: Rid) {
    forall p: Rid, k: Rid, r: Pair :: r in RowsAt(trees, p, k) ==> r.model != m
  }

  lemma NoChainNoRows(st: Trees, ot: Trees, pending: set<Quad>, v: Chains, m: Rid)
    requires Mirrored(st, pending, v) && ChainAt(v, m).triples == []
    ensures Absent(st, m) && (Agree(st, ot) ==> Absent(ot, m))
  {
    forall p: Rid, k: Rid, r: Pair | r in RowsAt(st, p, k)
      ensures r.model != m
    {
      var x := Quad(r.model, k, p, r.other);
      assert SCopies(st, x) > 0;
      assert Known(st, pending, x) ==> Listed(v, x) > 0;
    }
    if Agree(st, ot) {
      forall p: Rid, k: Rid, r: Pair | r in RowsAt(ot, p, k)
        ensures r.model != m
      {
        var x := Quad(r.model, r.other, p, k);
        assert OCopies(ot, x) > 0;
        assert SCopies(st, x) > 0;
        assert Known(st, pending, x) ==> Listed(v, x) > 0;
      }
    }
  }

  // `todo` picks from `mvec` at least all models that have rows.
  ghost predicate Picked(trees: Trees, mvec: seq<Rid>, todo: seq<Rid>) {
    forall p: Rid, k: Rid {:trigger RowsAt(trees, p, k)} ::
      KeepModels(todo, RowsAt(trees, p, k)) == KeepModels(mvec, RowsAt(trees, p, k))
  }

  lemma PickedNext(trees: Trees, mvec: seq<Rid>, j: nat, todo: seq<Rid>, taken: bool)
    requires j < |mvec| && RID_NULL !in mvec && Picked(trees, mvec[..j], todo)
    requires taken || Absent(trees, mvec[j])
    ensures Picked(trees, mvec[..j + 1], if taken then todo + [mvec[j]] else todo)
  {
    var m := mvec[j];
    forall p: Rid, k: Rid
      ensures KeepModels(if taken then todo + [m] else todo, RowsAt(trees, p, k)) ==
        KeepModels(mvec[..j + 1], RowsAt(trees, p, k))
    {
      var rows := RowsAt(trees, p, k);
      KeepModelsNext(mvec, j, rows);
      if taken {
        assert (todo + [m])[..|todo|] == todo;
        KeepModelsNext(todo + [m], |todo|, rows);
        assert (todo + [m])[..|todo| + 1] == todo + [m];
      } else {
        var kept := KeepModels(mvec[..j], rows);
        forall r | r in kept
          ensures !Matches(Pair(m, RID_NULL), r)
        {
          KeepModelsIff(mvec[..j], rows, r);
        }
        KeepNothing(Pair(m, RID_NULL), kept);
      }
    }
  }

  lemma PickedPurged(trees: Trees, trees': Trees, mvec: seq<Rid>, todo: seq<Rid>)
    requires Picked(trees, mvec, todo) && Purged(trees, trees', todo)
    ensures Purged(trees, trees', mvec)
  {
    forall p: Rid, k: Rid
      ensures RowsAt(trees', p, k) == KeepModels(mvec, RowsAt(trees, p, k))
    {
      assert KeepModels(todo, RowsAt(trees, p, k)) == KeepModels(mvec, RowsAt(trees, p, k));
    }
  }

  // The models to delete: those that exist, as far as that is recorded. The wildcard takes over.
  method Choose(seg: Segment, mvec: seq<Rid>) returns (todo: seq<Rid>)
    requires seg.Shape()
    ensures RID_NULL in mvec <==> todo != [] && todo[0] == RID_NULL
    ensures RID_NULL !in mvec ==> RID_NULL !in todo && (forall m :: m in todo ==> m in mvec)
    ensures RID_NULL !in mvec && seg.Mirroring() ==>
      Picked(seg.st, mvec, todo) && (seg.Agreeing() ==> Picked(seg.ot, mvec, todo))
    ensures RID_NULL !in mvec ==> forall m :: m in mvec && m !in todo ==>
      ChainAt(seg.chain.View(), m) == ModelChain([], false)
  {
    hide Replay, Picked, Mirrored, Agree, AllStorable, ListsStorable, TBChain.Valid, TBChain.View, HeadsListed;
    hide Waiting, Sorted16;
    todo := [];
    PickedYet(seg.st, mvec);
    PickedYet(seg.ot, mvec);
    for i := 0 to |mvec|
      invariant RID_NULL in mvec[..i] <==> todo != [] && todo[0] == RID_NULL
      invariant RID_NULL !in mvec[..i] ==> RID_NULL !in todo && (forall m :: m in todo ==> m in mvec[..i])
      invariant RID_NULL !in mvec && seg.Mirroring() ==> Picked(seg.st, mvec[..i], todo)
      invariant RID_NULL !in mvec && seg.Mirroring() && seg.Agreeing() ==> Picked(seg.ot, mvec[..i], todo)
      invariant RID_NULL !in mvec ==> forall m :: m in mvec[..i] && m !in todo ==>
        ChainAt(seg.chain.View(), m) == ModelChain([], false)
    {
      var model := mvec[i];
      assert mvec[..i + 1] == mvec[..i] + [model];
      if model == RID_NULL {
        todo := [RID_NULL];
      }
      var taken := !seg.modelData || NodeOf(seg.models, model) != 0;
      if !taken {
        NoNode(seg, model);
      }
      if RID_NULL !in mvec && seg.Mirroring() {
        PickedNext(seg.st, mvec, i, todo, taken);
        if seg.Agreeing() {
          PickedNext(seg.ot, mvec, i, todo, taken);
        }
      }
      if taken {
        todo := todo + [model];
      }
    }
    assert mvec[..|mvec|] == mvec;
  }

  lemma PickedYet(trees: Trees, mvec: seq<Rid>)
    ensures Picked(trees, mvec[..0], [])
  {
  }

  lemma NoNode(seg: Segment, m: Rid)
    requires seg.Shape() && NodeOf(seg.models, m) == 0
    ensures ChainAt(seg.chain.View(), m) == ModelChain([], false)
    ensures seg.Mirroring() ==> Absent(seg.st, m) && (seg.Agreeing() ==> Absent(seg.ot, m))
  {
    hide Replay, Mirrored, Agree, Absent, TBChain.Valid;
    HeadOf(seg.models, seg.chain.ids, m);
    seg.chain.NoHead(m);
    seg.chain.EmptyView(m);
    if seg.Mirroring() {
      NoChainNoRows(seg.st, seg.ot, Waiting(seg.pended), seg.chain.View(), m);
    }
  }

  // Deletion by sweeping every tree.
  method DeleteBySweep(seg: Segment, todo: seq<Rid>)
    requires seg.Shape() && RID_NULL !in todo
    modifies seg`st, seg`ot, seg`log, seg`models, seg.chain
    ensures seg.Shape() && Forgot(old(seg.chain.View()), seg.chain.View(), todo)
    ensures Purged(old(seg.st), seg.st, todo) && OthersLeft(old(seg.ot), seg.ot, todo)
    ensures old(seg.Agreeing()) ==> seg.Agreeing() && Purged(old(seg.ot), seg.ot, todo)
    ensures old(seg.Mirroring()) ==> (seg.Mirroring() <==> forall x :: x in Waiting(seg.pended) ==> x.m !in todo)
  {
    hide Replay, Forgot, Purged, OthersLeft, Mirrored, Agree, AllStorable, ListsStorable, TBChain.Valid;
    hide TBChain.View, HeadsListed, Waiting, Sorted16;
    ghost var v := seg.chain.View();
    ForgotYet(v, todo);
    for i := 0 to |todo|
      invariant seg.ModelTable() && Forgot(v, seg.chain.View(), todo[..i])
      invariant seg.Paired() && seg.st == old(seg.st) && seg.ot == old(seg.ot)
    {
      ForgotOne(v, seg.chain.View(), todo, i);
      DropChain(seg, todo[i]);
    }
    assert todo[..|todo|] == todo;
    Sweep(seg, todo);
    StorablePurged(old(seg.st), seg.st, todo);
    ForgotStorable(v, seg.chain.View(), todo);
    if old(seg.Agreeing()) {
      AgreePurged(old(seg.st), old(seg.ot), seg.st, seg.ot, todo);
    }
    if old(seg.Mirroring()) {
      MirroredForgot(old(seg.st), Waiting(seg.pended), v, seg.st, seg.chain.View(), todo);
    }
  }

  lemma ForgotYet(v: Chains, ms: seq<Rid>)
    ensures Forgot(v, v, ms[..0])
  {
  }

  // The wildcard model: all indexes are started afresh.
  method DeleteEverything(seg: Segment)
    requires seg.Shape()
    modifies seg`st, seg`ot, seg`log, seg`models, seg.chain
    ensures seg.Shape() && seg.Agreeing() && seg.st == map[] && seg.ot == map[]
    ensures forall m: Rid :: !seg.chain.Exists(m)
    ensures seg.Mirroring() <==> Waiting(seg.pended) == {}
  {
    hide Replay, Mirrored, Agree, AllStorable, ListsStorable, TBChain.Valid, TBChain.View, Waiting, Sorted16;
    seg.Tell(ClearAll);
    seg.models := map[];
    seg.chain.Truncate();
    NothingLeft(seg);
  }

  lemma NothingLeft(seg: Segment)
    requires seg.st == map[] && seg.ot == map[] && seg.models == map[] && seg.chain.Valid()
    requires forall m: Rid :: !seg.chain.Exists(m)
    ensures AllStorable(seg.st) && seg.Agreeing() && ListsStorable(seg.chain.View()) && seg.ModelTable()
    ensures seg.Mirroring() <==> Waiting(seg.pended) == {}
  {
    hide TBChain.Valid;
    forall m: Rid
      ensures seg.chain.View()[m] == ModelChain([], false)
      ensures NodeOf(seg.models, m) == RowTable.Head(seg.chain.ids(Of(m)))
    {
      assert !seg.chain.Exists(m);
      seg.chain.EmptyView(m);
    }
    forall x: Quad
      ensures Listed(seg.chain.View(), x) == 0 && SCopies(seg.st, x) == 0
    {
    }
    if Waiting(seg.pended) != {} {
      var x :| x in Waiting(seg.pended);
      assert Known(seg.st, Waiting(seg.pended), x) && Listed(seg.chain.View(), x) == 0;
    }
  }

  /**
    fs_delete_models. Whichever strategy is chosen, both tree families end up without the rows of the
    given models and otherwise as they were, row for row, as long as the chains list what is indexed. In any
    case all that is listed of these models goes, and nothing of other models.
   */
  method DeleteModels(seg: Segment, mvec: seq<Rid>)
    requires seg.Shape()
    modifies seg`st, seg`ot, seg`log, seg`models, seg.chain
    ensures seg.Shape()
    ensures RID_NULL in mvec ==> seg.st == map[] && seg.ot == map[]
    ensures RID_NULL !in mvec ==> Erased(old(seg.st), seg.st, old(seg.chain.View()), mvec)
    ensures RID_NULL !in mvec ==> OthersLeft(old(seg.ot), seg.ot, mvec)
    ensures RID_NULL !in mvec ==> Forgot(old(seg.chain.View()), seg.chain.View(), mvec)
    ensures RID_NULL in mvec ==> forall m: Rid :: !seg.chain.Exists(m)
    ensures RID_NULL !in mvec && old(seg.Mirroring()) ==> Purged(old(seg.st), seg.st, mvec)
    ensures RID_NULL !in mvec && old(seg.Mirroring()) && old(seg.Agreeing()) ==> Purged(old(seg.ot), seg.ot, mvec)
    ensures old(seg.Agreeing()) ==> seg.Agreeing()
    ensures old(seg.Mirroring()) ==>
      (seg.Mirroring() <==> forall x :: x in Waiting(seg.pended) ==> RID_NULL !in mvec && x.m !in mvec)
  {
    hide Replay, Picked, Forgot, Purged, Mirrored, Agree, AllStorable, ListsStorable, TBChain.Valid, TBChain.View;
    hide HeadsListed, Waiting, Sorted16, OtherModelsKept, Erased, OthersLeft;
    var todo := Choose(seg, mvec);
    if todo != [] && todo[0] == RID_NULL {
      NoneWaiting(seg.pended, mvec);
      DeleteEverything(seg);
      return;
    }
    if seg.Mirroring() {
      WaitingListed(seg, mvec, todo);
    }
    var small := false;
    if |todo| == 1 {
      small := IsSmall(seg, todo[0]);
    }
    if small {
      DeleteByWalk(seg, todo[0]);
      assert todo == [todo[0]];
      ForgotYet(old(seg.chain.View()), todo);
      ForgotOne(old(seg.chain.View()), old(seg.chain.View()), todo, 0);
    } else {
      DeleteBySweep(seg, todo);
      ErasedPurged(old(seg.st), seg.st, old(seg.chain.View()), todo);
    }
    ErasedAll(old(seg.st), seg.st, old(seg.ot), seg.ot, old(seg.chain.View()), mvec, todo);
    ForgotAll(old(seg.chain.View()), seg.chain.View(), mvec, todo);
    if old(seg.Mirroring()) {
      PickedPurged(old(seg.st), seg.st, mvec, todo);
      if old(seg.Agreeing()) {
        PickedPurged(old(seg.ot), seg.ot, mvec, todo);
      }
    }
  }

  lemma NoneWaiting(pended: seq<seq<Quad>>, mvec: seq<Rid>)
    requires RID_NULL in mvec
    ensures (forall x :: x in Waiting(pended) ==> RID_NULL !in mvec && x.m !in mvec) <==> Waiting(pended) == {}
  {
  }

  // A waiting quad is listed, so its model is not one that was passed over.
  lemma WaitingListed(seg: Segment, mvec: seq<Rid>, todo: seq<Rid>)
    requires seg.Mirroring() && (forall m :: m in todo ==> m in mvec)
    requires forall m :: m in mvec && m !in todo ==> ChainAt(seg.chain.View(), m) == ModelChain([], false)
    ensures forall x :: x in Waiting(seg.pended) ==> (x.m in mvec <==> x.m in todo)
  {
    hide Waiting, TBChain.View;
    forall x | x in Waiting(seg.pended)
      ensures x.m in mvec <==> x.m in todo
    {
      MirroredLists(seg.st, Waiting(seg.pended), seg.chain.View(), x);
    }
  }

  // A chain that is short, or below a hundredth of the segment, is walked.
  method IsSmall(seg: Segment, model: Rid) returns (small: bool)
    requires seg.Shape()
    ensures small ==> NodeOf(seg.models, model) > 1
    ensures NodeOf(seg.models, model) > 1 ==>
      (small <==> |seg.chain.Triples(model)| < seg.approxSize / 100 || |seg.chain.Triples(model)| < 100)
  {
    hide TBChain.Valid, TBChain.View, HeadsListed;
    small := false;
    var val := NodeOf(seg.models, model);
    if val > 1 {
      HeadOf(seg.models, seg.chain.ids, model);
      seg.chain.SomeHead(model);
      var length := seg.chain.Length(val, model);
      small := length < seg.approxSize / 100 || length < 100;
    }
  }

  // Why a stored quad must not have the struck-out mark for a subject: a walk would not see it.
  lemma StruckOutSubject(q: Quad)
    requires q.s == RID_GONE
    ensures
      var st := AddTo(Opened(map[], q.p), q.p, q.s, Pair(q.m, q.o));
      SCopies(st, q) == 1 && Walked(q.m, [Triple(q.s, q.p, q.o)], {q.p}) == {}
  {
    SAdded(Opened(map[], q.p), q, q);
    OpenedRows(map[], q.p, q.p, q.s);
  }

  // ---- deleting quads ----

  // Some pattern takes the quad out of the subject trees.
  ghost predicate SHits(ds: set<Quad>, x: Quad) {
    exists d :: d in ds && SHit(d, x)
  }

  ghost predicate OHits(ds: set<Quad>, x: Quad) {
    exists d :: d in ds && OHit(d, x)
  }

  ghost predicate SLost(st: Trees, st': Trees, ds: set<Quad>) {
    forall x: Quad {:trigger SCopies(st', x)} :: SCopies(st', x) == if SHits(ds, x) then 0 else SCopies(st, x)
  }

  ghost predicate OLost(ot: Trees, ot': Trees, ds: set<Quad>) {
    forall x: Quad {:trigger OCopies(ot', x)} :: OCopies(ot', x) == if OHits(ds, x) then 0 else OCopies(ot, x)
  }

  lemma LostMore(st: Trees, st1: Trees, ot: Trees, ot1: Trees, ds: set<Quad>, d: Quad)
    requires SLost(st, st1, ds) && OLost(ot, ot1, ds)
    ensures SLost(st, RemoveFrom(st1, d.p, d.s, Pair(d.m, d.o)), ds + {d})
    ensures OLost(ot, RemoveFrom(ot1, d.p, d.o, Pair(d.m, d.s)), ds + {d})
  {
    forall x: Quad
      ensures SHits(ds + {d}, x) <==> SHits(ds, x) || SHit(d, x)
      ensures OHits(ds + {d}, x) <==> OHits(ds, x) || OHit(d, x)
      ensures SCopies(RemoveFrom(st1, d.p, d.s, Pair(d.m, d.o)), x) == if SHits(ds + {d}, x) then 0 else SCopies(st, x)
      ensures OCopies(RemoveFrom(ot1, d.p, d.o, Pair(d.m, d.s)), x) == if OHits(ds + {d}, x) then 0 else OCopies(ot, x)
    {
      SRemoved(st1, d, x);
      ORemoved(ot1, d, x);
      assert d in ds + {d};
      assert SCopies(st1, x) == if SHits(ds, x) then 0 else SCopies(st, x);
      assert OCopies(ot1, x) == if OHits(ds, x) then 0 else OCopies(ot, x);
    }
  }

  lemma LostNothing(st: Trees, ot: Trees)
    ensures SLost(st, st, {}) && OLost(ot, ot, {})
  {
  }

  // Every model that loses a quad is among `ms`.
  ghost predicate LosersIn(st: Trees, st': Trees, ms: set<Rid>) {
    forall x: Quad {:trigger SCopies(st', x)} :: SCopies(st', x) == SCopies(st, x) || x.m in ms
  }

  lemma {:induction false} TouchedHas(pattern: Pair, rows: seq<Pair>, r: Pair)
    requires r in rows && Matches(pattern, r) && pattern.model == RID_NULL
    ensures r.model in RowTable.Touched(pattern, rows)
  {
    var n := |rows| - 1;
    if r != rows[n] {
      assert rows == rows[..n] + [rows[n]];
      TouchedHas(pattern, rows[..n], r);
    }
  }

  lemma LosersNext(st: Trees, st1: Trees, ms: set<Rid>, d: Quad, ms': set<Rid>)
    requires LosersIn(st, st1, ms) && ms' >= ms + RowTable.Touched(Pair(d.m, d.o), RowsAt(st1, d.p, d.s))
    requires d.m == RID_NULL || d.m in ms
    ensures LosersIn(st, RemoveFrom(st1, d.p, d.s, Pair(d.m, d.o)), ms')
  {
    forall x: Quad
      ensures SCopies(RemoveFrom(st1, d.p, d.s, Pair(d.m, d.o)), x) == SCopies(st, x) || x.m in ms'
    {
      SRemoved(st1, d, x);
      assert SCopies(st1, x) == SCopies(st, x) || x.m in ms;
      if SHit(d, x) && SCopies(st1, x) > 0 && d.m == RID_NULL {
        TouchedHas(Pair(d.m, d.o), RowsAt(st1, d.p, d.s), Pair(x.m, x.o));
      }
    }
  }

  // Some stored quad of the model is hit by the patterns, in one of the families.
  ghost predicate Robbed(st: Trees, ot: Trees, ds: set<Quad>, m: Rid) {
    exists x: Quad :: x.m == m && ((SCopies(st, x) > 0 && SHits(ds, x)) || (OCopies(ot, x) > 0 && OHits(ds, x)))
  }

  // Every model among `ms` is one of these or has been robbed.
  ghost predicate AllRobbed(st: Trees, ot: Trees, ds: set<Quad>, named: set<Rid>, ms: set<Rid>) {
    forall m :: m in ms ==> m in named || Robbed(st, ot, ds, m)
  }

  lemma {:induction false} TouchedRow(pattern: Pair, rows: seq<Pair>, m: Rid) returns (r: Pair)
    requires m in RowTable.Touched(pattern, rows)
    ensures r in rows && Matches(pattern, r) && r.model == m
  {
    var n := |rows| - 1;
    if Matches(pattern, rows[n]) && rows[n].model == m {
      r := rows[n];
    } else {
      r := TouchedRow(pattern, rows[..n], m);
    }
  }

  lemma RobbedMore(st: Trees, ot: Trees, ds: set<Quad>, ds': set<Quad>, named: set<Rid>, ms: set<Rid>)
    requires AllRobbed(st, ot, ds, named, ms) && ds <= ds'
    ensures AllRobbed(st, ot, ds', named, ms)
  {
    forall m | m in ms && m !in named
      ensures Robbed(st, ot, ds', m)
    {
      var x: Quad :| x.m == m && ((SCopies(st, x) > 0 && SHits(ds, x)) || (OCopies(ot, x) > 0 && OHits(ds, x)));
      assert SHits(ds, x) ==> SHits(ds', x);
      assert OHits(ds, x) ==> OHits(ds', x);
    }
  }

  lemma RobbedJoined(st: Trees, ot: Trees, ds: set<Quad>, named: set<Rid>, a: set<Rid>, b: set<Rid>)
    requires AllRobbed(st, ot, ds, named, a) && AllRobbed(st, ot, ds, named, b)
    ensures AllRobbed(st, ot, ds, named, a + b)
  {
  }

  // What a removal reports has been robbed.
  lemma RobbedS(st: Trees, st1: Trees, ot: Trees, ds: set<Quad>, d: Quad, named: set<Rid>)
    requires SLost(st, st1, ds)
    ensures AllRobbed(st, ot, ds + {d}, named, RowTable.Touched(Pair(d.m, d.o), RowsAt(st1, d.p, d.s)))
  {
    forall m | m in RowTable.Touched(Pair(d.m, d.o), RowsAt(st1, d.p, d.s))
      ensures Robbed(st, ot, ds + {d}, m)
    {
      var r := TouchedRow(Pair(d.m, d.o), RowsAt(st1, d.p, d.s), m);
      var x := Quad(m, d.s, d.p, r.other);
      assert SCopies(st1, x) > 0 && SHit(d, x) && d in ds + {d};
      assert SCopies(st, x) > 0;
    }
  }

  lemma RobbedO(st: Trees, ot: Trees, ot1: Trees, ds: set<Quad>, d: Quad, named: set<Rid>)
    requires OLost(ot, ot1, ds)
    ensures AllRobbed(st, ot, ds + {d}, named, RowTable.Touched(Pair(d.m, d.s), RowsAt(ot1, d.p, d.o)))
  {
    forall m | m in RowTable.Touched(Pair(d.m, d.s), RowsAt(ot1, d.p, d.o))
      ensures Robbed(st, ot, ds + {d}, m)
    {
      var r := TouchedRow(Pair(d.m, d.s), RowsAt(ot1, d.p, d.o), m);
      var x := Quad(m, r.other, d.p, d.o);
      assert OCopies(ot1, x) > 0 && OHit(d, x) && d in ds + {d};
      assert OCopies(ot, x) > 0;
    }
  }

  // The models a pattern adds to those touched before it.
  lemma RobbedNext(st: Trees, st1: Trees, ot: Trees, ot1: Trees, ds: set<Quad>, d: Quad, named: set<Rid>, ms: set<Rid>)
    requires SLost(st, st1, ds) && OLost(ot, ot1, ds) && AllRobbed(st, ot, ds, named, ms)
    ensures
      var byS := RowTable.Touched(Pair(d.m, d.o), RowsAt(st1, d.p, d.s));
      var byO := RowTable.Touched(Pair(d.m, d.s), RowsAt(ot1, d.p, d.o));
      AllRobbed(st, ot, ds + {d}, named, ms + byS + byO)
  {
    hide AllRobbed;
    var byS := RowTable.Touched(Pair(d.m, d.o), RowsAt(st1, d.p, d.s));
    var byO := RowTable.Touched(Pair(d.m, d.s), RowsAt(ot1, d.p, d.o));
    RobbedMore(st, ot, ds, ds + {d}, named, ms);
    RobbedS(st, st1, ot, ds, d, named);
    RobbedO(st, ot, ot1, ds, d, named);
    RobbedJoined(st, ot, ds + {d}, named, ms, byS);
    RobbedJoined(st, ot, ds + {d}, named, ms + byS, byO);
  }

  ghost function PatternsOf(ds: seq<Quad>, preds: set<Rid>): set<Quad> {
    set d | d in ds && d.p in preds
  }

  // The patterns with one predicate. `touched` collects the models that may have lost a quad.
  method DeletePred(seg: Segment, ds: seq<Quad>, pred: Rid, models: set<Rid>, ghost st0: Trees, ghost ot0: Trees,
                    ghost done: set<Quad>, ghost named: set<Rid>)
      returns (touched: set<Rid>)
    requires seg.Paired() && forall i :: 0 <= i < |ds| ==> ds[i].m == RID_NULL || ds[i].m in models
    requires SLost(st0, seg.st, done) && OLost(ot0, seg.ot, done) && LosersIn(st0, seg.st, models)
    requires AllRobbed(st0, ot0, done, named, models)
    modifies seg`st, seg`ot, seg`log
    ensures seg.Paired() && models <= touched
    ensures SLost(st0, seg.st, done + PatternsOf(ds, {pred})) && OLost(ot0, seg.ot, done + PatternsOf(ds, {pred}))
    ensures LosersIn(st0, seg.st, touched)
    ensures AllRobbed(st0, ot0, done + PatternsOf(ds, {pred}), named, touched)
  {
    hide Replay, SLost, OLost, LosersIn, PatternsOf, AllRobbed;
    touched := models;
    NoPatterns(ds, pred, done);
    for i := 0 to |ds|
      invariant seg.Paired() && models <= touched
      invariant SLost(st0, seg.st, done + PatternsOf(ds[..i], {pred}))
      invariant OLost(ot0, seg.ot, done + PatternsOf(ds[..i], {pred}))
      invariant LosersIn(st0, seg.st, touched)
      invariant AllRobbed(st0, ot0, done + PatternsOf(ds[..i], {pred}), named, touched)
    {
      var d := ds[i];
      NextPattern(ds, i, pred, done);
      if d.p == pred {
        LostMore(st0, seg.st, ot0, seg.ot, done + PatternsOf(ds[..i], {pred}), d);
        RobbedNext(st0, seg.st, ot0, seg.ot, done + PatternsOf(ds[..i], {pred}), d, named, touched);
        var byS := RowTable.Touched(Pair(d.m, d.o), RowsAt(seg.st, d.p, d.s));
        LosersNext(st0, seg.st, touched, d, touched + byS);
        seg.Tell(RemoveRows(false, d.p, d.s, Pair(d.m, d.o)));
        touched := touched + byS;
        var byO := RowTable.Touched(Pair(d.m, d.s), RowsAt(seg.ot, d.p, d.o));
        seg.Tell(RemoveRows(true, d.p, d.o, Pair(d.m, d.s)));
        LosersWider(st0, seg.st, touched, touched + byO);
        touched := touched + byO;
      }
    }
    assert ds[..|ds|] == ds;
  }

  lemma LosersWider(st: Trees, st': Trees, ms: set<Rid>, ms': set<Rid>)
    requires LosersIn(st, st', ms) && ms <= ms'
    ensures LosersIn(st, st', ms')
  {
  }

  lemma NoPatterns(ds: seq<Quad>, pred: Rid, done: set<Quad>)
    ensures done + PatternsOf(ds[..0], {pred}) == done
  {
  }

  lemma NextPattern(ds: seq<Quad>, i: nat, pred: Rid, done: set<Quad>)
    requires i < |ds|
    ensures done + PatternsOf(ds[..i + 1], {pred}) ==
            if ds[i].p == pred then done + PatternsOf(ds[..i], {pred}) + {ds[i]} else done + PatternsOf(ds[..i], {pred})
  {
    assert ds[..i + 1] == ds[..i] + [ds[i]];
  }

  // Chains of these models are marked as possibly listing more than the index; none lists other triples.
  ghost predicate Marked(v: Chains, v': Chains, ms: set<Rid>) {
    && (forall m: Rid {:trigger ChainAt(v', m)} :: ChainAt(v', m).triples == ChainAt(v, m).triples)
    && (forall m: Rid {:trigger ChainAt(v', m)} :: ChainAt(v, m).superset ==> ChainAt(v', m).superset)
    && (forall m: Rid {:trigger ChainAt(v', m)} :: m in ms ==> ChainAt(v', m).superset || ChainAt(v', m).triples == [])
  }

  // No other chains are.
  ghost predicate NoOthers(v: Chains, v': Chains, ms: set<Rid>) {
    forall m: Rid {:trigger ChainAt(v', m)} :: m !in ms ==> ChainAt(v', m) == ChainAt(v, m)
  }

  lemma MarkedOne(v: Chains, v1: Chains, ms: set<Rid>, m: Rid, c: ModelChain)
    requires Marked(v, v1, ms) && c.triples == ChainAt(v1, m).triples
    requires (c.superset || c == ChainAt(v1, m) == ModelChain([], false))
    ensures Marked(v, v1[m := c], ms + {m})
    ensures NoOthers(v, v1, ms) ==> NoOthers(v, v1[m := c], ms + {m})
  {
    var v2 := v1[m := c];
    forall x: Rid
      ensures ChainAt(v2, x).triples == ChainAt(v, x).triples && (ChainAt(v, x).superset ==> ChainAt(v2, x).superset)
      ensures x in ms + {m} ==> ChainAt(v2, x).superset || ChainAt(v2, x).triples == []
      ensures NoOthers(v, v1, ms) && x !in ms + {m} ==> ChainAt(v2, x) == ChainAt(v, x)
    {
      assert ChainAt(v2, x) == if x == m then c else ChainAt(v1, x);
      assert ChainAt(v1, x).triples == ChainAt(v, x).triples;
    }
  }

  // Marking loop at the end of fs_delete_quads.
  method MarkModels(seg: Segment, ms: set<Rid>)
    requires seg.ModelTable()
    modifies seg.chain`blocks
    ensures seg.ModelTable() && Marked(old(seg.chain.View()), seg.chain.View(), ms)
    ensures NoOthers(old(seg.chain.View()), seg.chain.View(), ms)
  {
    hide Marked, NoOthers, RowTable.Partition, OthersKept, Flat, Contents, TBChain.Valid, TBChain.View, HeadsListed;
    var todo := ms;
    ghost var v := seg.chain.View();
    MarkedYet(v);
    assert ms - todo == {};
    while todo != {}
      invariant seg.ModelTable() && todo <= ms && Marked(v, seg.chain.View(), ms - todo)
      invariant NoOthers(v, seg.chain.View(), ms - todo)
      decreases |todo|
    {
      var m :| m in todo;
      assert ms - (todo - {m}) == (ms - todo) + {m};
      MarkModel(seg, m, v, ms - todo);
      todo := todo - {m};
    }
    assert ms - {} == ms;
  }

  method MarkModel(seg: Segment, m: Rid, ghost v: Chains, ghost done: set<Rid>)
    requires seg.ModelTable() && Marked(v, seg.chain.View(), done) && NoOthers(v, seg.chain.View(), done)
    modifies seg.chain`blocks
    ensures seg.ModelTable() && Marked(v, seg.chain.View(), done + {m}) && NoOthers(v, seg.chain.View(), done + {m})
  {
    hide Marked, NoOthers, RowTable.Partition, OthersKept, Flat, Contents, TBChain.Valid, HeadsListed;
    var val := NodeOf(seg.models, m);
    HeadOf(seg.models, seg.chain.ids, m);
    ghost var v1 := seg.chain.View();
    if val > 1 {
      seg.chain.SomeHead(m);
      seg.chain.PutSuperset(val, true, m);
      seg.chain.ViewChanged(m);
      MarkedOne(v, v1, done, m, ModelChain(seg.chain.Triples(m), seg.chain.Superset(m)));
    } else {
      seg.chain.NotOne(m);
      seg.chain.EmptyView(m);
      MarkedOne(v, v1, done, m, ModelChain([], false));
      assert v1[m := ModelChain([], false)] == v1;
    }
  }

  lemma MarkedYet(v: Chains)
    ensures Marked(v, v, {}) && NoOthers(v, v, {})
  {
  }

  lemma MarkedStorable(v: Chains, v': Chains, ms: set<Rid>)
    requires ListsStorable(v) && Marked(v, v', ms)
    ensures ListsStorable(v')
  {
    forall x: Quad
      ensures Listed(v', x) == Listed(v, x)
    {
      assert ChainAt(v', x.m).triples == ChainAt(v, x.m).triples;
    }
  }

  lemma MirroredMarked(st: Trees, pending: set<Quad>, v: Chains, st': Trees, v': Chains, ms: set<Rid>, ds: set<Quad>)
    requires Mirrored(st, pending, v) && Marked(v, v', ms) && LosersIn(st, st', ms) && SLost(st, st', ds)
    ensures Mirrored(st', pending, v')
  {
    forall x: Quad
      ensures Known(st', pending, x) ==> Listed(v', x) > 0
      ensures Listed(v', x) > 0 && x.s != RID_GONE && !ChainAt(v', x.m).superset ==> Known(st', pending, x)
    {
      assert ChainAt(v', x.m).triples == ChainAt(v, x.m).triples;
      assert Listed(v', x) == Listed(v, x);
      assert SCopies(st', x) == if SHits(ds, x) then 0 else SCopies(st, x);
      assert SCopies(st', x) == SCopies(st, x) || x.m in ms;
      assert Known(st, pending, x) ==> Listed(v, x) > 0;
    }
  }

  lemma StorableLost(st: Trees, st': Trees, ds: set<Quad>)
    requires AllStorable(st) && SLost(st, st', ds)
    ensures AllStorable(st')
  {
    forall x: Quad
      ensures SCopies(st', x) > 0 ==> Storable(x)
    {
      assert SCopies(st, x) > 0 ==> Storable(x);
    }
  }

  // Some patterns together hit the same stored quads in both families.
  ghost predicate EvenHits(st: Trees, ds: set<Quad>) {
    forall x: Quad {:trigger SCopies(st, x)} :: SCopies(st, x) > 0 ==> (SHits(ds, x) <==> OHits(ds, x))
  }

  // That is exactly when deleting them keeps the families in agreement.
  lemma AgreeLost(st: Trees, ot: Trees, st': Trees, ot': Trees, ds: set<Quad>)
    requires Agree(st, ot) && SLost(st, st', ds) && OLost(ot, ot', ds)
    ensures Agree(st', ot') <==> EvenHits(st, ds)
  {
    hide SHits, OHits;
    forall x: Quad
      ensures SCopies(st', x) == OCopies(ot', x) <==> (SCopies(st, x) > 0 ==> (SHits(ds, x) <==> OHits(ds, x)))
    {
      assert SCopies(st, x) == OCopies(ot, x);
      assert SCopies(st', x) == if SHits(ds, x) then 0 else SCopies(st, x);
      assert OCopies(ot', x) == if OHits(ds, x) then 0 else OCopies(ot, x);
    }
  }

  // Balanced patterns do.
  lemma BalancedEven(st: Trees, ds: set<Quad>)
    requires AllStorable(st) && forall d :: d in ds ==> Balanced(d)
    ensures EvenHits(st, ds)
  {
    forall x: Quad | SCopies(st, x) > 0
      ensures SHits(ds, x) <==> OHits(ds, x)
    {
      SameHits(ds, x);
    }
  }

  lemma SameHits(ds: set<Quad>, x: Quad)
    requires Storable(x) && forall d :: d in ds ==> Balanced(d)
    ensures SHits(ds, x) <==> OHits(ds, x)
  {
    if SHits(ds, x) {
      var d :| d in ds && SHit(d, x);
      assert OHit(d, x);
    }
    if OHits(ds, x) {
      var d :| d in ds && OHit(d, x);
      assert SHit(d, x);
    }
  }

  // The loop over the predicates.
  method DeleteFromTrees(seg: Segment, ds: seq<Quad>) returns (models: set<Rid>)
    requires seg.Paired()
    modifies seg`st, seg`ot, seg`log
    ensures seg.Paired() && LosersIn(old(seg.st), seg.st, models) && (set d | d in ds :: d.m) - {RID_NULL} <= models
    ensures
      var hit := PatternsOf(ds, (set d | d in ds :: d.p) - {RID_NULL});
      && SLost(old(seg.st), seg.st, hit) && OLost(old(seg.ot), seg.ot, hit)
      && AllRobbed(old(seg.st), old(seg.ot), hit, (set d | d in ds :: d.m) - {RID_NULL}, models)
  {
    hide Replay, SLost, OLost, LosersIn, PatternsOf, AllRobbed;
    var preds := (set d | d in ds :: d.p) - {RID_NULL};
    models := (set d | d in ds :: d.m) - {RID_NULL};
    var todo := preds;
    LostNothing(seg.st, seg.ot);
    NoLosers(seg.st, models);
    NoPreds(ds);
    ghost var named := models;
    NoneRobbed(seg.st, seg.ot, named);
    while todo != {}
      invariant todo <= preds && seg.Paired()
      invariant forall d :: d in ds && d.m != RID_NULL ==> d.m in models
      invariant SLost(old(seg.st), seg.st, PatternsOf(ds, preds - todo))
      invariant OLost(old(seg.ot), seg.ot, PatternsOf(ds, preds - todo))
      invariant LosersIn(old(seg.st), seg.st, models)
      invariant AllRobbed(old(seg.st), old(seg.ot), PatternsOf(ds, preds - todo), named, models)
      decreases |todo|
    {
      var pred :| pred in todo;
      MorePreds(ds, preds - todo, pred);
      assert preds - (todo - {pred}) == preds - todo + {pred};
      models := DeletePred(seg, ds, pred, models, old(seg.st), old(seg.ot), PatternsOf(ds, preds - todo),
        named);
      todo := todo - {pred};
    }
    assert preds - {} == preds;
  }

  /**
    fs_delete_quads. Each pattern takes from the subject trees what it hits there and from the object
    trees what it hits there. The two go on agreeing exactly when the patterns together hit the same stored
    quads in both, as balanced patterns do. The chains of all models named are marked, and besides only those
    of models that lose a quad.
   */
  method DeleteQuads(seg: Segment, ds: seq<Quad>)
    requires seg.Shape()
    modifies seg`st, seg`ot, seg`log, seg.chain`blocks
    ensures seg.Shape()
    ensures
      var hit := PatternsOf(ds, (set d | d in ds :: d.p) - {RID_NULL});
      SLost(old(seg.st), seg.st, hit) && OLost(old(seg.ot), seg.ot, hit)
    ensures
      var hit := PatternsOf(ds, (set d | d in ds :: d.p) - {RID_NULL});
      old(seg.Agreeing()) ==> (seg.Agreeing() <==> EvenHits(old(seg.st), hit))
    ensures old(seg.Agreeing()) && (forall d :: d in ds ==> Balanced(d)) ==> seg.Agreeing()
    ensures Marked(old(seg.chain.View()), seg.chain.View(), (set d | d in ds :: d.m) - {RID_NULL})
    ensures
      var hit := PatternsOf(ds, (set d | d in ds :: d.p) - {RID_NULL});
      forall m: Rid {:trigger ChainAt(seg.chain.View(), m)} ::
        ChainAt(seg.chain.View(), m) == ChainAt(old(seg.chain.View()), m) || m in (set d | d in ds :: d.m) ||
        Robbed(old(seg.st), old(seg.ot), hit, m)
    ensures old(seg.Mirroring()) ==> seg.Mirroring()
  {
    hide Robbed, Replay, SLost, OLost, LosersIn, Marked, EvenHits, Mirrored, Agree, AllStorable, ListsStorable;
    hide TBChain.Valid, TBChain.View, HeadsListed, Waiting, Sorted16, PatternsOf;
    var models := DeleteFromTrees(seg, ds);
    ghost var preds := (set d | d in ds :: d.p) - {RID_NULL};
    MarkModels(seg, models);
    ghost var hit := PatternsOf(ds, preds);
    StorableLost(old(seg.st), seg.st, hit);
    MarkedStorable(old(seg.chain.View()), seg.chain.View(), models);
    if old(seg.Agreeing()) {
      AgreeLost(old(seg.st), old(seg.ot), seg.st, seg.ot, hit);
      if forall d :: d in ds ==> Balanced(d) {
        HitBalanced(ds, preds);
        BalancedEven(old(seg.st), hit);
      }
    }
    MarkedFewer(old(seg.chain.View()), seg.chain.View(), models, (set d | d in ds :: d.m) - {RID_NULL});
    if old(seg.Mirroring()) {
      MirroredMarked(old(seg.st), Waiting(seg.pended), old(seg.chain.View()), seg.st, seg.chain.View(), models, hit);
    }
  }

  lemma MarkedFewer(v: Chains, v': Chains, ms: set<Rid>, fewer: set<Rid>)
    requires Marked(v, v', ms) && fewer <= ms
    ensures Marked(v, v', fewer)
  {
  }

  lemma HitBalanced(ds: seq<Quad>, preds: set<Rid>)
    requires forall d :: d in ds ==> Balanced(d)
    ensures forall d :: d in PatternsOf(ds, preds) ==> Balanced(d)
  {
  }

  lemma NoLosers(st: Trees, ms: set<Rid>)
    ensures LosersIn(st, st, ms)
  {
  }

  lemma NoneRobbed(st: Trees, ot: Trees, named: set<Rid>)
    ensures AllRobbed(st, ot, {}, named, named)
  {
  }

  lemma NoPreds(ds: seq<Quad>)
    ensures forall p: set<Rid> :: PatternsOf(ds, p - p) == {}
  {
  }

  lemma MorePreds(ds: seq<Quad>, done: set<Rid>, pred: Rid)
    ensures PatternsOf(ds, done) + PatternsOf(ds, {pred}) == PatternsOf(ds, done + {pred})
  {
  }
}
