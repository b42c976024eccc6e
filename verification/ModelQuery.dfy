/**
  Reading models through their chains: completely, or as the model-index branch of a query does, up to a
  limit.
 */
module ModelQueries {
  import opened Rids
  import RowTable
  import opened TripleChains
  import opened ChainScan
  import opened Indexes
  import opened SegmentSpec
  import opened Segments
  import Deletion
  import opened Binding

  // ---- reading all of a model ----

  // The chain of one model once it has been read to the end.
  ghost function Pruned(v: Chains, m: Rid, st: Trees): Chains {
    v[m := ModelChain(Swept(ChainAt(v, m).triples, m, ChainAt(v, m).superset, st), false)]
  }

  lemma PrunedLists(v: Chains, m: Rid, st: Trees, x: Quad)
    requires x.s != RID_GONE && x.m != RID_NULL && x.o != RID_NULL
    ensures Listed(Pruned(v, m, st), x) > 0 <==>
            Listed(v, x) > 0 && (x.m == m && ChainAt(v, m).superset ==> SCopies(st, x) > 0)
  {
    var t, c := Triple(x.s, x.p, x.o), ChainAt(v, m);
    if x.m == m {
      SweptIff(c.triples, m, c.superset, st, t);
      InIndexIff(st, x);
    }
  }

  // Pruning keeps the chains in step exactly when no quad of the model is only waiting.
  lemma MirroredPruned(st: Trees, pending: set<Quad>, v: Chains, m: Rid)
    requires Mirrored(st, pending, v) && AllStorable(st) && ListsStorable(v)
    requires (forall x :: x in pending ==> Storable(x))
    ensures Mirrored(st, pending, Pruned(v, m, st)) <==> !(ChainAt(v, m).superset && OnlyWaiting(st, pending, m))
  {
    var v' := Pruned(v, m, st);
    var lost := ChainAt(v, m).superset;
    forall x: Quad
      ensures Known(st, pending, x) && !(lost && x.m == m && SCopies(st, x) == 0) ==> Listed(v', x) > 0
      ensures lost && x.m == m && SCopies(st, x) == 0 && x in pending ==> Listed(v', x) == 0
      ensures Listed(v', x) > 0 && x.s != RID_GONE && !ChainAt(v', x.m).superset ==> Known(st, pending, x)
    {
      PrunedStorable(v, m, st, x);
      assert SCopies(st, x) > 0 ==> Storable(x);
      assert Known(st, pending, x) ==> Listed(v, x) > 0;
      if Storable(x) {
        PrunedLists(v, m, st, x);
      }
    }
  }

  // Some quad of the model waits and is not indexed yet.
  ghost predicate OnlyWaiting(st: Trees, pending: set<Quad>, m: Rid) {
    exists x :: x in pending && x.m == m && SCopies(st, x) == 0
  }

  lemma PrunedStorable(v: Chains, m: Rid, st: Trees, x: Quad)
    requires ListsStorable(v)
    ensures Listed(Pruned(v, m, st), x) > 0 && x.s != RID_GONE ==> Storable(x)
  {
    assert Listed(v, x) > 0 && x.s != RID_GONE ==> Storable(x);
    if x.m == m && x.s != RID_GONE {
      var c := ChainAt(v, m);
      SweptIff(c.triples, m, c.superset, st, Triple(x.s, x.p, x.o));
    }
  }

  // Reads all triples of a model, as a query does.
  method ReadModel(seg: Segment, model: Rid) returns (out: seq<Triple>)
    requires seg.Shape()
    modifies seg.chain`blocks
    ensures seg.Shape()
    ensures
      var c := ChainAt(old(seg.chain.View()), model);
      && out == Returned(c.triples, model, c.superset, seg.st)
      && seg.chain.View() == Pruned(old(seg.chain.View()), model, seg.st)
      && (old(seg.Mirroring()) ==>
            (seg.Mirroring() <==> !(c.superset && OnlyWaiting(seg.st, Waiting(seg.pended), model))))
  {
    hide Returned, Swept, OthersKept, Mirrored, Agree, AllStorable, ListsStorable, TBChain.Valid, HeadsListed;
    hide Waiting, Sorted16, Flat, Contents;
    var head := NodeOf(seg.models, model);
    Deletion.HeadOf(seg.models, seg.chain.ids, model);
    ghost var v := seg.chain.View();
    if head > 1 {
      seg.chain.SomeHead(model);
      out := Deletion.ReadChain(seg, model, head);
      seg.chain.ViewChanged(model);
    } else {
      seg.chain.NotOne(model);
      seg.chain.EmptyView(model);
      out := [];
      NothingRead(v, model, seg.st);
    }
    AllPrunedStorable(v, model, seg.st);
    if old(seg.Mirroring()) {
      WaitingStorable(seg.pended);
      MirroredPruned(seg.st, Waiting(seg.pended), v, model);
    }
  }

  lemma NothingRead(v: Chains, m: Rid, st: Trees)
    requires m in v && v[m] == ModelChain([], false)
    ensures Returned([], m, false, st) == [] && Pruned(v, m, st) == v
  {
  }

  lemma AllPrunedStorable(v: Chains, m: Rid, st: Trees)
    requires ListsStorable(v)
    ensures ListsStorable(Pruned(v, m, st))
  {
    forall x: Quad
      ensures Listed(Pruned(v, m, st), x) > 0 && x.s != RID_GONE ==> Storable(x)
    {
      PrunedStorable(v, m, st, x);
    }
  }

  lemma WaitingStorable(pended: seq<seq<Quad>>)
    requires Sorted16(pended)
    ensures forall x :: x in Waiting(pended) ==> Storable(x)
  {
  }

  // What a complete reading of a mirrored model returns: its indexed triples, each at least once and
  // nothing else.
  lemma ReadsExactly(st: Trees, v: Chains, m: Rid, t: Triple)
    requires Mirrored(st, {}, v) && AllStorable(st) && ListsStorable(v)
    ensures t in Returned(ChainAt(v, m).triples, m, ChainAt(v, m).superset, st) <==>
      SCopies(st, Quad(m, t.s, t.p, t.o)) > 0
  {
    var c, x := ChainAt(v, m), Quad(m, t.s, t.p, t.o);
    ReturnedIff(c.triples, m, c.superset, st, t);
    assert Known(st, {}, x) ==> Listed(v, x) > 0;
    assert Listed(v, x) > 0 <==> t in c.triples;
    assert SCopies(st, x) > 0 ==> Storable(x);
    if Storable(x) {
      InIndexIff(st, x);
    }
  }

  // ---- reading some of a model ----

  // A chain of which the first `done` triples have been dealt with.
  ghost function PartSwept(ts: seq<Triple>, done: nat, m: Rid, superset: bool, trees: Trees): seq<Triple>
    requires done <= |ts|
  {
    Swept(ts[..done], m, superset, trees) + ts[done..]
  }

  // The chains when a scan of one model has been left after `done` triples. The mark stays.
  ghost function PartPruned(v: Chains, m: Rid, st: Trees, done: nat): Chains
    requires done <= |ChainAt(v, m).triples|
  {
    var c := ChainAt(v, m);
    v[m := ModelChain(PartSwept(c.triples, done, m, c.superset, st), c.superset)]
  }

  lemma PartSweptIff(ts: seq<Triple>, done: nat, m: Rid, superset: bool, trees: Trees, t: Triple)
    requires done <= |ts| && Alive(t)
    ensures t in PartSwept(ts, done, m, superset, trees) ==> t in ts
    ensures t in ts && Present(t, m, superset, trees) ==> t in PartSwept(ts, done, m, superset, trees)
    ensures !superset ==> PartSwept(ts, done, m, superset, trees) == ts
  {
    hide Present;
    SweptIff(ts[..done], m, superset, trees, t);
    assert ts == ts[..done] + ts[done..];
    if !superset {
      assert Swept(ts[..done], m, superset, trees) == ts[..done];
    }
  }

  // Leaving a scan early keeps the chains in step, unless a quad of the model is only waiting.
  lemma MirroredPart(st: Trees, pending: set<Quad>, v: Chains, m: Rid, done: nat)
    requires Mirrored(st, pending, v) && AllStorable(st) && ListsStorable(v)
    requires (forall x :: x in pending ==> Storable(x))
    requires done <= |ChainAt(v, m).triples| && !(ChainAt(v, m).superset && OnlyWaiting(st, pending, m))
    ensures Mirrored(st, pending, PartPruned(v, m, st, done))
  {
    hide PartSwept, InIndex;
    var v', c := PartPruned(v, m, st, done), ChainAt(v, m);
    forall x: Quad
      ensures Known(st, pending, x) ==> Listed(v', x) > 0
      ensures Listed(v', x) > 0 && x.s != RID_GONE && !ChainAt(v', x.m).superset ==> Known(st, pending, x)
    {
      assert Known(st, pending, x) ==> Listed(v, x) > 0;
      assert SCopies(st, x) > 0 ==> Storable(x);
      if x.m == m && x.s != RID_GONE {
        PartSweptIff(c.triples, done, m, c.superset, st, Triple(x.s, x.p, x.o));
        if Storable(x) {
          InIndexIff(st, x);
        }
      }
    }
  }

  lemma PartStorable(v: Chains, m: Rid, st: Trees, done: nat)
    requires ListsStorable(v) && done <= |ChainAt(v, m).triples|
    ensures ListsStorable(PartPruned(v, m, st, done))
  {
    hide PartSwept;
    var c := ChainAt(v, m);
    forall x: Quad
      ensures Listed(PartPruned(v, m, st, done), x) > 0 && x.s != RID_GONE ==> Storable(x)
    {
      assert Listed(v, x) > 0 && x.s != RID_GONE ==> Storable(x);
      if x.m == m && x.s != RID_GONE {
        PartSweptIff(c.triples, done, m, c.superset, st, Triple(x.s, x.p, x.o));
      }
    }
  }

  // The quads among some triples of a model that are wanted.
  ghost function WantedOf(ts: seq<Triple>, m: Rid, r: Request): seq<Quad> {
    if ts == [] then []
    else
      var t := ts[|ts| - 1];
      var q := Quad(m, t.s, t.p, t.o);
      WantedOf(ts[..|ts| - 1], m, r) + if Wanted(q, r) then [q] else []
  }

  lemma {:induction false} WantedOfSplit(a: seq<Triple>, b: seq<Triple>, m: Rid, r: Request)
    ensures WantedOf(a + b, m, r) == WantedOf(a, m, r) + WantedOf(b, m, r)
  {
    if b == [] {
      assert a + b == a;
    } else {
      var n := |b| - 1;
      assert (a + b)[..|a + b| - 1] == a + b[..n];
      WantedOfSplit(a, b[..n], m, r);
    }
  }

  lemma {:induction false} WantedOfCount(ts: seq<Triple>, m: Rid, r: Request, q: Quad)
    ensures multiset(WantedOf(ts, m, r))[q] ==
      if q.m == m && Wanted(q, r) then multiset(ts)[Triple(q.s, q.p, q.o)] else 0
  {
    hide Wanted;
    if ts != [] {
      WantedOfCount(ts[..|ts| - 1], m, r, q);
      assert ts == ts[..|ts| - 1] + [ts[|ts| - 1]];
    }
  }

  // What an early part of a scan returns comes first in what the whole returns.
  lemma {:induction false} ReturnedPrefix(ts: seq<Triple>, k: nat, m: Rid, superset: bool, trees: Trees)
      returns (rest: seq<Triple>)
    requires k <= |ts|
    ensures Returned(ts, m, superset, trees) == Returned(ts[..k], m, superset, trees) + rest
    decreases |ts| - k
  {
    if k == |ts| {
      rest := [];
      assert ts[..k] == ts;
    } else {
      ReturnedNext(ts, k, m, superset, trees);
      var later := ReturnedPrefix(ts, k + 1, m, superset, trees);
      rest := (if Present(ts[k], m, superset, trees) then [ts[k]] else []) + later;
    }
  }

  // Everything a query can get from one model.
  ghost function Available(v: Chains, st: Trees, m: Rid, r: Request): seq<Quad> {
    var c := ChainAt(v, m);
    WantedOf(Returned(c.triples, m, c.superset, st), m, r)
  }

  // How far an iterator has got determines what it has left in the chain.
  lemma LeftBehind(it: ChainIterator, trees: Trees)
    requires it.Valid(trees)
    ensures it.done <= |it.start|
    ensures it.chain.Triples(it.model) == PartSwept(it.start, it.done, it.model, it.superset, trees)
  {
  }

  lemma WantedOfNext(g: seq<Triple>, t: Triple, m: Rid, r: Request)
    ensures
      var q := Quad(m, t.s, t.p, t.o);
      WantedOf(g + [t], m, r) == if Wanted(q, r) then WantedOf(g, m, r) + [q] else WantedOf(g, m, r)
  {
    assert (g + [t])[..|g|] == g;
  }

  // What has been read is enough: the rest would not get past the limit.
  lemma EnoughRead(ts: seq<Triple>, k: nat, m: Rid, superset: bool, st: Trees, r: Request, limit: int,
                   out0: seq<Quad>, g: seq<Triple>, t: Triple)
    requires k <= |ts| && Returned(ts[..k], m, superset, st) == g + [t]
    requires |Take(limit, out0 + WantedOf(g, m, r))| >= limit
    ensures Take(limit, out0 + WantedOf(Returned(ts, m, superset, st), m, r)) == Take(limit, out0 + WantedOf(g, m, r))
  {
    hide Take, Returned, WantedOf;
    var rest := ReturnedPrefix(ts, k, m, superset, st);
    assert Returned(ts, m, superset, st) == g + ([t] + rest);
    WantedOfSplit(g, [t] + rest, m, r);
    var more := WantedOf([t] + rest, m, r);
    TakeFull(limit, out0 + WantedOf(g, m, r), more);
    assert out0 + (WantedOf(g, m, r) + more) == out0 + WantedOf(g, m, r) + more;
  }

  // The loop over one chain.
  method ScanSome(seg: Segment, it: ChainIterator, r: Request, limit: int, out0: seq<Quad>)
      returns (out: seq<Quad>, ended: bool)
    requires it.chain == seg.chain && it.Valid(seg.st) && it.done == 0 && out0 == Take(limit, out0)
    modifies it, seg.chain`blocks
    ensures it.Valid(seg.st) && seg.chain.OnlyChanged(it.model)
    ensures out == Take(limit, out0 + WantedOf(Returned(it.start, it.model, it.superset, seg.st), it.model, r))
    ensures ended ==> seg.chain.Triples(it.model) == Swept(it.start, it.model, it.superset, seg.st)
    ensures seg.chain.Superset(it.model) == (old(seg.chain.Superset(it.model)) && (!ended || !it.superset))
  {
    hide Take, Returned, Swept, WantedOf, Wanted, OthersKept, Position, RowTable.Partition, TBChain.Valid;
    NothingGiven(it, seg.st);
    out := out0;
    ghost var g := [];
    NothingWanted(out0, it.model, r, limit);
    var more, t := it.Next(seg.st);
    while more && |out| < limit
      invariant it.chain == seg.chain && it.Valid(seg.st) && seg.chain.OnlyChanged(it.model) && it.done <= |it.start|
      invariant it.Given(seg.st) == g + if more then [t] else []
      invariant out == Take(limit, out0 + WantedOf(g, it.model, r))
      invariant !more ==>
        it.done == |it.start| && seg.chain.Triples(it.model) == Swept(it.start, it.model, it.superset, seg.st)
      invariant seg.chain.Superset(it.model) == (old(seg.chain.Superset(it.model)) && (more || !it.superset))
      decreases |it.start| - it.done, more
    {
      var q := Quad(it.model, t.s, t.p, t.o);
      WantedOfNext(g, t, it.model, r);
      if Wanted(q, r) {
        TakeOne(limit, out0, WantedOf(g, it.model, r), q);
        out := out + [q];
      }
      g := g + [t];
      ghost var blocks1 := seg.chain.blocks;
      more, t := it.Next(seg.st);
      KeptTwice(old(seg.chain.blocks), seg.chain.ids, blocks1, seg.chain.ids, seg.chain.blocks, seg.chain.ids,
        Of(it.model));
    }
    ended := !more;
    if more {
      EnoughRead(it.start, it.done, it.model, it.superset, seg.st, r, limit, out0, g, t);
    } else {
      assert it.start[..it.done] == it.start && g + [] == g;
    }
  }

  lemma NothingGiven(it: ChainIterator, trees: Trees)
    requires it.Valid(trees) && it.done == 0
    ensures it.Given(trees) == []
  {
  }

  lemma NothingWanted(out0: seq<Quad>, m: Rid, r: Request, limit: int)
    requires out0 == Take(limit, out0)
    ensures out0 == Take(limit, out0 + WantedOf([], m, r))
  {
    assert out0 + [] == out0;
  }

  // The chain of one model has been read to the end, or up to some point, and the others have not.
  ghost predicate ReadTo(v: Chains, v': Chains, m: Rid, st: Trees) {
    || v' == Pruned(v, m, st)
    || exists done: nat :: done <= |ChainAt(v, m).triples| && v' == PartPruned(v, m, st, done)
  }

  // One model of the model-index branch: triples are read until the limit is reached or there are no more.
  method ReadSome(seg: Segment, model: Rid, r: Request, limit: int, out0: seq<Quad>) returns (out: seq<Quad>)
    requires seg.Shape() && out0 == Take(limit, out0)
    modifies seg.chain`blocks
    ensures seg.Shape()
    ensures out == Take(limit, out0 + Available(old(seg.chain.View()), seg.st, model, r))
    ensures ReadTo(old(seg.chain.View()), seg.chain.View(), model, seg.st)
    ensures forall m: Rid :: m != model ==> ChainAt(seg.chain.View(), m) == ChainAt(old(seg.chain.View()), m)
    ensures
      var v := old(seg.chain.View());
      old(seg.Mirroring()) && !(ChainAt(v, model).superset && OnlyWaiting(seg.st, Waiting(seg.pended), model)) ==>
        seg.Mirroring()
  {
    hide Take, Returned, Swept, PartSwept, WantedOf, OthersKept, Mirrored, Agree, AllStorable, ListsStorable;
    hide TBChain.Valid, HeadsListed, Waiting, Sorted16, Flat, Contents, OnlyWaiting, Replay;
    var head := NodeOf(seg.models, model);
    Deletion.HeadOf(seg.models, seg.chain.ids, model);
    ghost var v := seg.chain.View();
    if head <= 1 {
      seg.chain.NotOne(model);
      seg.chain.EmptyView(model);
      NothingRead(v, model, seg.st);
      NothingWanted(out0, model, r, limit);
      out := out0;
      return;
    }
    seg.chain.SomeHead(model);
    var it := new ChainIterator(seg.chain, model, head, seg.st);
    var ended;
    out, ended := ScanSome(seg, it, r, limit, out0);
    seg.chain.ViewChanged(model);
    WaitingStorable(seg.pended);
    if ended {
      AllPrunedStorable(v, model, seg.st);
      Unmarked(seg.chain, model);
      if old(seg.Mirroring()) {
        MirroredPruned(seg.st, Waiting(seg.pended), v, model);
      }
    } else {
      LeftBehind(it, seg.st);
      PartStorable(v, model, seg.st, it.done);
      if old(seg.Mirroring()) && !(ChainAt(v, model).superset && OnlyWaiting(seg.st, Waiting(seg.pended), model)) {
        MirroredPart(seg.st, Waiting(seg.pended), v, model, it.done);
      }
    }
  }

  lemma Unmarked(chain: TBChain, m: Rid)
    ensures ChainAt(chain.View(), m) == ModelChain(chain.Triples(m), chain.Superset(m))
  {
  }

  // ---- the model-index branch ----

  // What the models offer, one after the other.
  ghost function Offered(v: Chains, st: Trees, ms: seq<Rid>, r: Request): seq<Quad> {
    if ms == [] then [] else Offered(v, st, ms[..|ms| - 1], r) + Available(v, st, ms[|ms| - 1], r)
  }

  lemma OfferedNext(v: Chains, st: Trees, ms: seq<Rid>, i: nat, r: Request)
    requires i < |ms|
    ensures Offered(v, st, ms[..i + 1], r) == Offered(v, st, ms[..i], r) + Available(v, st, ms[i], r)
  {
    assert ms[..i + 1][..i] == ms[..i];
  }

  // The chains of the models from `i` on are as they were.
  ghost predicate Ahead(v: Chains, v': Chains, ms: seq<Rid>, i: nat) {
    forall j :: i <= j < |ms| ==> ChainAt(v', ms[j]) == ChainAt(v, ms[j])
  }

  // No model has a marked chain and a quad that is only waiting.
  ghost predicate Settled(v: Chains, st: Trees, pending: set<Quad>, ms: seq<Rid>) {
    forall j :: 0 <= j < |ms| ==> !(ChainAt(v, ms[j]).superset && OnlyWaiting(st, pending, ms[j]))
  }

  lemma OfferedNone(v: Chains, st: Trees, r: Request)
    ensures Offered(v, st, [], r) == []
  {
  }

  lemma TakeTwice(limit: int, a: seq<Quad>)
    ensures Take(limit, Take(limit, a)) == Take(limit, a)
  {
  }

  lemma SameOffer(v: Chains, v': Chains, st: Trees, m: Rid, r: Request)
    requires ChainAt(v', m) == ChainAt(v, m)
    ensures Available(v', st, m, r) == Available(v, st, m, r)
  {
  }

  lemma StillAhead(ms: seq<Rid>, i: nat)
    requires Distinct(ms) && i < |ms|
    ensures forall j :: i < j < |ms| ==> ms[j] != ms[i]
  {
  }

  lemma SameSettled(v: Chains, st: Trees, pending: set<Quad>, mv: seq<Rid>, ms: seq<Rid>)
    requires forall m :: m in ms <==> m in mv
    ensures Settled(v, st, pending, mv) ==> Settled(v, st, pending, ms)
  {
    hide OnlyWaiting;
    forall j | Settled(v, st, pending, mv) && 0 <= j < |ms|
      ensures !(ChainAt(v, ms[j]).superset && OnlyWaiting(st, pending, ms[j]))
    {
      assert ms[j] in mv;
    }
  }

  lemma AllSettled(v: Chains, st: Trees, ms: seq<Rid>)
    ensures Settled(v, st, {}, ms)
  {
  }

  // How often a scan of its model's chain shows a quad: as often as it is listed, unless it is struck out or,
  // in a marked chain, not indexed.
  ghost function Shown(v: Chains, st: Trees, q: Quad): nat {
    if q.s == RID_GONE || (ChainAt(v, q.m).superset && SCopies(st, q) == 0) then 0 else Listed(v, q)
  }

  lemma ReturnedShown(v: Chains, st: Trees, q: Quad)
    requires ListsStorable(v)
    ensures
      var c := ChainAt(v, q.m);
      multiset(Returned(c.triples, q.m, c.superset, st))[Triple(q.s, q.p, q.o)] == Shown(v, st, q)
  {
    hide InIndex;
    var c := ChainAt(v, q.m);
    ReturnedCount(c.triples, q.m, c.superset, st, Triple(q.s, q.p, q.o));
    assert Listed(v, q) > 0 && q.s != RID_GONE ==> Storable(q);
    if Storable(q) {
      InIndexIff(st, q);
    }
  }

  // When the chains mirror the index, indexed quads are shown, and nothing but them and waiting quads.
  lemma ShownKnown(v: Chains, st: Trees, pending: set<Quad>, q: Quad)
    requires Mirrored(st, pending, v) && AllStorable(st)
    ensures SCopies(st, q) > 0 ==> Shown(v, st, q) > 0
    ensures Shown(v, st, q) > 0 ==> Known(st, pending, q)
  {
    assert Known(st, pending, q) ==> Listed(v, q) > 0;
    assert SCopies(st, q) > 0 ==> Storable(q);
  }

  // The models of a list offer each quad they show that the request asks for.
  lemma {:induction false} OfferedCount(v: Chains, st: Trees, ms: seq<Rid>, r: Request, q: Quad)
    requires ListsStorable(v) && Distinct(ms)
    ensures multiset(Offered(v, st, ms, r))[q] == if q.m in ms && Asked(q, r) then Shown(v, st, q) else 0
  {
    hide ListsStorable, Wanted, Asked, WantedOf, Returned, Shown;
    if ms != [] {
      var n := |ms| - 1;
      var c := ChainAt(v, ms[n]);
      OfferedCount(v, st, ms[..n], r, q);
      assert ms == ms[..n] + [ms[n]];
      WantedOfCount(Returned(c.triples, ms[n], c.superset, st), ms[n], r, q);
      WantedIff(q, r);
      ReturnedShown(v, st, q);
    }
  }

  lemma InCount(out: seq<Quad>)
    ensures forall q :: q in out <==> multiset(out)[q] > 0
  {
  }

  // How often a query of some models should return a quad.
  ghost function Due(v: Chains, st: Trees, ms: seq<Rid>, r: Request, q: Quad): nat {
    if q.m in ms && Asked(q, r) then Shown(v, st, q) else 0
  }

  lemma DueSome(v: Chains, st: Trees, pending: set<Quad>, mv: seq<Rid>, ms: seq<Rid>, r: Request, q: Quad)
    requires ListsStorable(v) && AllStorable(st) && Distinct(ms) && forall m :: m in ms <==> m in mv
    ensures multiset(Offered(v, st, ms, r))[q] == Due(v, st, mv, r, q)
    ensures Mirrored(st, pending, v) && Due(v, st, mv, r, q) > 0 ==>
      q.m in mv && Asked(q, r) && Known(st, pending, q)
    ensures Mirrored(st, pending, v) && q.m in mv && Asked(q, r) && SCopies(st, q) > 0 ==> Due(v, st, mv, r, q) > 0
  {
    hide ListsStorable, AllStorable, Mirrored, Offered, Asked, Shown, Known, Distinct;
    OfferedCount(v, st, ms, r, q);
    if Mirrored(st, pending, v) {
      ShownKnown(v, st, pending, q);
    }
  }

  // The loop over the models.
  method ReadEach(seg: Segment, ms: seq<Rid>, r: Request, most: int) returns (out: seq<Quad>)
    requires seg.Shape() && Distinct(ms)
    modifies seg.chain`blocks
    ensures seg.Shape() && out == Take(most, Offered(old(seg.chain.View()), seg.st, ms, r))
    ensures old(seg.Mirroring()) && Settled(old(seg.chain.View()), seg.st, Waiting(seg.pended), ms) ==> seg.Mirroring()
  {
    hide Take, Offered, Available, Mirrored, AllStorable, ListsStorable, TBChain.Valid, TBChain.View, HeadsListed;
    hide Waiting, Sorted16, Replay, OnlyWaiting, Distinct;
    ghost var v := seg.chain.View();
    out := [];
    TakeNothing(most);
    assert ms[..0] == [];
    OfferedNone(v, seg.st, r);
    for i := 0 to |ms|
      invariant seg.Shape() && out == Take(most, Offered(v, seg.st, ms[..i], r)) && Ahead(v, seg.chain.View(), ms, i)
      invariant old(seg.Mirroring()) && Settled(v, seg.st, Waiting(seg.pended), ms) ==> seg.Mirroring()
    {
      OfferedNext(v, seg.st, ms, i, r);
      TakeTwice(most, Offered(v, seg.st, ms[..i], r));
      SameOffer(v, seg.chain.View(), seg.st, ms[i], r);
      TakeMore(most, Offered(v, seg.st, ms[..i], r), Available(v, seg.st, ms[i], r));
      StillAhead(ms, i);
      out := ReadSome(seg, ms[i], r, most, out);
    }
    assert ms[..|ms|] == ms;
  }

  /**
    The model-index branch of fs_bind: the models given are read one after the other, up to the limit. Each
    quad asked for is returned as often as its chain shows it, or less often if the limit cuts in. When the
    chains mirror the index and nothing waits, a result below the limit holds exactly the indexed quads of
    these models that are asked for; and the chains go on mirroring.
   */
  method BindModels(seg: Segment, r: Request, mv: seq<Rid>, limit: int) returns (out: seq<Quad>, ret: seq<seq<Rid>>)
    requires seg.Shape()
    modifies seg.chain`blocks
    ensures seg.Shape() && ret == Columns(out, r) && NoMore(|out|, r, limit)
    ensures forall q: Quad :: multiset(out)[q] <= Due(old(seg.chain.View()), seg.st, mv, r, q)
    ensures Fewer(|out|, r, limit) ==> forall q: Quad ::
      multiset(out)[q] == Due(old(seg.chain.View()), seg.st, mv, r, q)
    ensures old(seg.Mirroring()) ==> forall q: Quad ::
      q in out ==> q.m in mv && Asked(q, r) && Known(seg.st, Waiting(seg.pended), q)
    ensures old(seg.Mirroring()) && Fewer(|out|, r, limit) ==> forall q: Quad ::
      q.m in mv && Asked(q, r) && SCopies(seg.st, q) > 0 ==> q in out
    ensures old(seg.Mirroring()) && Settled(old(seg.chain.View()), seg.st, Waiting(seg.pended), mv) ==> seg.Mirroring()
    ensures old(seg.Mirroring()) && Waiting(seg.pended) == {} ==> seg.Mirroring()
  {
    hide Take, Offered, Mirrored, AllStorable, ListsStorable, TBChain.Valid, TBChain.View, HeadsListed, Waiting;
    hide Sorted16, Replay, Distinct, Settled, Asked, Due, Known, Fewer;
    var most := Most(r, limit);
    var ms := Binding.SortUniq(mv);
    ghost var v := seg.chain.View();
    SameSettled(v, seg.st, Waiting(seg.pended), mv, ms);
    AllSettled(v, seg.st, ms);
    forall q: Quad
      ensures multiset(Offered(v, seg.st, ms, r))[q] == Due(v, seg.st, mv, r, q)
      ensures old(seg.Mirroring()) && Due(v, seg.st, mv, r, q) > 0 ==>
        q.m in mv && Asked(q, r) && Known(seg.st, Waiting(seg.pended), q)
      ensures old(seg.Mirroring()) && q.m in mv && Asked(q, r) && SCopies(seg.st, q) > 0 ==>
        Due(v, seg.st, mv, r, q) > 0
    {
      DueSome(v, seg.st, Waiting(seg.pended), mv, ms, r, q);
    }
    out := ReadEach(seg, ms, r, most);
    TakeSome(most, Offered(v, seg.st, ms, r));
    FewerThan(|out|, r, limit);
    InCount(out);
    ret := Collect(out, r);
  }

  lemma FewerThan(n: nat, r: Request, limit: int)
    ensures Fewer(n, r, limit) <==> n < Most(r, limit)
  {
  }
}
