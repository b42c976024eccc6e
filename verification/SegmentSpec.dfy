/**
  What a segment's indexes and model chains together stand for, and how each kind of step changes that.
 */
module SegmentSpec {
  import opened Rids
  import opened TripleChains
  import opened ChainScan
  import opened Indexes

  // ---- chains against the subject index ----

  ghost function ChainAt(v: Chains, m: Rid): ModelChain {
    if m in v then v[m] else ModelChain([], false)
  }

  // How often a quad is listed in its model's chain.
  ghost function Listed(v: Chains, x: Quad): nat {
    multiset(ChainAt(v, x.m).triples)[Triple(x.s, x.p, x.o)]
  }

  // In the subject index, or waiting in one of the lists of a deferred import.
  ghost predicate Known(st: Trees, pending: set<Quad>, x: Quad) {
    SCopies(st, x) > 0 || x in pending
  }

  // Every known quad is listed; and when a chain is not marked, everything it lists is known.
  ghost predicate Mirrored(st: Trees, pending: set<Quad>, v: Chains) {
    && (forall x: Quad {:trigger Listed(v, x)} :: Known(st, pending, x) ==> Listed(v, x) > 0)
    && (forall x: Quad {:trigger Listed(v, x)} ::
          Listed(v, x) > 0 && x.s != RID_GONE && !ChainAt(v, x.m).superset ==> Known(st, pending, x))
  }

  ghost predicate ListsStorable(v: Chains) {
    forall x: Quad {:trigger Listed(v, x)} :: Listed(v, x) > 0 && x.s != RID_GONE ==> Storable(x)
  }

  // ---- gaining quads ----

  ghost predicate SGained(st: Trees, st': Trees, bag: multiset<Quad>) {
    forall x: Quad {:trigger SCopies(st', x)} :: SCopies(st', x) == SCopies(st, x) + bag[x]
  }

  ghost predicate OGained(ot: Trees, ot': Trees, bag: multiset<Quad>) {
    forall x: Quad {:trigger OCopies(ot', x)} :: OCopies(ot', x) == OCopies(ot, x) + bag[x]
  }

  ghost predicate ListGained(v: Chains, v': Chains, bag: multiset<Quad>) {
    && (forall x: Quad {:trigger Listed(v', x)} :: Listed(v', x) == Listed(v, x) + bag[x])
    && (forall m: Rid {:trigger ChainAt(v', m)} :: ChainAt(v', m).superset == ChainAt(v, m).superset)
  }

  lemma SGainedMore(st: Trees, st1: Trees, st2: Trees, a: multiset<Quad>, b: multiset<Quad>)
    requires SGained(st, st1, a) && SGained(st1, st2, b)
    ensures SGained(st, st2, a + b)
  {
    forall x: Quad
      ensures SCopies(st2, x) == SCopies(st, x) + (a + b)[x]
    {
      assert SCopies(st1, x) == SCopies(st, x) + a[x];
    }
  }

  lemma OGainedMore(ot: Trees, ot1: Trees, ot2: Trees, a: multiset<Quad>, b: multiset<Quad>)
    requires OGained(ot, ot1, a) && OGained(ot1, ot2, b)
    ensures OGained(ot, ot2, a + b)
  {
    forall x: Quad
      ensures OCopies(ot2, x) == OCopies(ot, x) + (a + b)[x]
    {
      assert OCopies(ot1, x) == OCopies(ot, x) + a[x];
    }
  }

  lemma SGainedSame(st: Trees, st1: Trees, st2: Trees, a: multiset<Quad>)
    requires SGained(st, st1, a) && SGained(st1, st2, multiset{})
    ensures SGained(st, st2, a)
  {
    SGainedMore(st, st1, st2, a, multiset{});
    assert a + multiset{} == a;
  }

  lemma OGainedSame(ot: Trees, ot1: Trees, ot2: Trees, a: multiset<Quad>)
    requires OGained(ot, ot1, a) && OGained(ot1, ot2, multiset{})
    ensures OGained(ot, ot2, a)
  {
    OGainedMore(ot, ot1, ot2, a, multiset{});
    assert a + multiset{} == a;
  }

  lemma OGainedAfter(ot: Trees, ot1: Trees, ot2: Trees, b: multiset<Quad>)
    requires OGained(ot, ot1, multiset{}) && OGained(ot1, ot2, b)
    ensures OGained(ot, ot2, b)
  {
    OGainedMore(ot, ot1, ot2, multiset{}, b);
    assert multiset{} + b == b;
  }

  lemma ListGainedMore(v: Chains, v1: Chains, v2: Chains, a: multiset<Quad>, b: multiset<Quad>)
    requires ListGained(v, v1, a) && ListGained(v1, v2, b)
    ensures ListGained(v, v2, a + b)
  {
    forall x: Quad
      ensures Listed(v2, x) == Listed(v, x) + (a + b)[x]
    {
      assert Listed(v1, x) == Listed(v, x) + a[x];
    }
    forall m: Rid
      ensures ChainAt(v2, m).superset == ChainAt(v, m).superset
    {
      assert ChainAt(v1, m).superset == ChainAt(v, m).superset;
    }
  }

  // Opening trees and adding one row.
  lemma SGainedOne(st: Trees, q: Quad)
    requires q.p in st
    ensures SGained(st, AddTo(st, q.p, q.s, Pair(q.m, q.o)), multiset{q})
  {
    forall x: Quad
      ensures SCopies(AddTo(st, q.p, q.s, Pair(q.m, q.o)), x) == SCopies(st, x) + multiset{q}[x]
    {
      SAdded(st, q, x);
    }
  }

  lemma OGainedOne(ot: Trees, q: Quad)
    requires q.p in ot
    ensures OGained(ot, AddTo(ot, q.p, q.o, Pair(q.m, q.s)), multiset{q})
  {
    forall x: Quad
      ensures OCopies(AddTo(ot, q.p, q.o, Pair(q.m, q.s)), x) == OCopies(ot, x) + multiset{q}[x]
    {
      OAdded(ot, q, x);
    }
  }

  lemma OpenedGains(trees: Trees, p: Rid)
    ensures SGained(trees, Opened(trees, p), multiset{}) && OGained(trees, Opened(trees, p), multiset{})
  {
    forall x: Quad
      ensures SCopies(Opened(trees, p), x) == SCopies(trees, x)
      ensures OCopies(Opened(trees, p), x) == OCopies(trees, x)
    {
      OpenedRows(trees, p, x.p, x.s);
      OpenedRows(trees, p, x.p, x.o);
    }
  }

  lemma NothingGained(trees: Trees, v: Chains)
    ensures SGained(trees, trees, multiset{}) && OGained(trees, trees, multiset{}) && ListGained(v, v, multiset{})
  {
  }

  lemma AgreeGained(st: Trees, ot: Trees, st': Trees, ot': Trees, bag: multiset<Quad>)
    requires Agree(st, ot) && SGained(st, st', bag) && OGained(ot, ot', bag)
    ensures Agree(st', ot')
  {
    forall x: Quad
      ensures SCopies(st', x) == OCopies(ot', x)
    {
      assert SCopies(st, x) == OCopies(ot, x);
    }
  }

  lemma StorableGained(st: Trees, st': Trees, bag: multiset<Quad>)
    requires AllStorable(st) && SGained(st, st', bag) && forall x :: x in bag ==> Storable(x)
    ensures AllStorable(st')
  {
    forall x: Quad
      ensures SCopies(st', x) > 0 ==> Storable(x)
    {
      assert SCopies(st, x) > 0 ==> Storable(x);
    }
  }

  lemma ListsStorableGained(v: Chains, v': Chains, bag: multiset<Quad>)
    requires ListsStorable(v) && ListGained(v, v', bag) && forall x :: x in bag ==> Storable(x)
    ensures ListsStorable(v')
  {
    forall x: Quad
      ensures Listed(v', x) > 0 && x.s != RID_GONE ==> Storable(x)
    {
      assert Listed(v, x) > 0 && x.s != RID_GONE ==> Storable(x);
    }
  }

  // A direct commit: the same quads go to the index and to the chains.
  lemma MirroredDirect(st: Trees, pending: set<Quad>, v: Chains, st': Trees, v': Chains, bag: multiset<Quad>)
    requires Mirrored(st, pending, v) && SGained(st, st', bag) && ListGained(v, v', bag)
    ensures Mirrored(st', pending, v')
  {
    forall x: Quad
      ensures Known(st', pending, x) ==> Listed(v', x) > 0
      ensures Listed(v', x) > 0 && x.s != RID_GONE && !ChainAt(v', x.m).superset ==> Known(st', pending, x)
    {
      assert SCopies(st', x) == SCopies(st, x) + bag[x] && Listed(v', x) == Listed(v, x) + bag[x];
    }
  }

  // A deferred commit: the quads go to the waiting lists and to the chains.
  lemma MirroredDeferred(st: Trees, pending: set<Quad>, v: Chains, pending': set<Quad>, v': Chains, bag: multiset<Quad>)
    requires Mirrored(st, pending, v) && ListGained(v, v', bag)
    requires forall x :: x in pending' <==> x in pending || x in bag
    ensures Mirrored(st, pending', v')
  {
    forall x: Quad
      ensures Known(st, pending', x) ==> Listed(v', x) > 0
      ensures Listed(v', x) > 0 && x.s != RID_GONE && !ChainAt(v', x.m).superset ==> Known(st, pending', x)
    {
      assert Listed(v', x) == Listed(v, x) + bag[x];
    }
  }

  // The waiting quads reach the index.
  lemma MirroredPushed(st: Trees, pending: set<Quad>, v: Chains, st': Trees, bag: multiset<Quad>)
    requires Mirrored(st, pending, v) && SGained(st, st', bag)
    requires forall x :: x in bag <==> x in pending
    ensures Mirrored(st', {}, v)
  {
    forall x: Quad
      ensures Known(st', {}, x) <==> Known(st, pending, x)
    {
      assert SCopies(st', x) == SCopies(st, x) + bag[x];
    }
  }

  // Appending a triple to a chain lists one more quad.
  lemma ListGainedOne(v: Chains, q: Quad, bs: seq<seq<Triple>>, c: ModelChain)
    requires ChainAt(v, q.m).triples == Flat(bs) && c.superset == ChainAt(v, q.m).superset
    requires c.triples == Flat(Added(bs, Triple(q.s, q.p, q.o)))
    ensures ListGained(v, v[q.m := c], multiset{q})
  {
    hide Flat, Added;
    FlatAdded(bs, Triple(q.s, q.p, q.o));
    var v' := v[q.m := c];
    forall m: Rid
      ensures ChainAt(v', m) == if m == q.m then c else ChainAt(v, m)
    {
    }
    forall x: Quad
      ensures Listed(v', x) == Listed(v, x) + multiset{q}[x]
    {
      OneMore(ChainAt(v, q.m).triples, c.triples, q, x);
    }
  }

  lemma OneMore(ts: seq<Triple>, ts': seq<Triple>, q: Quad, x: Quad)
    requires multiset(ts') == multiset(ts) + multiset{Triple(q.s, q.p, q.o)}
    ensures x.m == q.m ==> multiset(ts')[Triple(x.s, x.p, x.o)] == multiset(ts)[Triple(x.s, x.p, x.o)] + multiset{q}[x]
  {
  }

  lemma {:induction false} FlatFront(b: seq<Triple>, bs: seq<seq<Triple>>)
    ensures Flat([b] + bs) == b + Flat(bs)
  {
    var c := [b] + bs;
    if bs == [] {
      assert c[..0] == [];
    } else {
      assert c[..|c| - 1] == [b] + bs[..|bs| - 1];
      FlatFront(b, bs[..|bs| - 1]);
    }
  }

  lemma FlatAdded(bs: seq<seq<Triple>>, t: Triple)
    ensures multiset(Flat(Added(bs, t))) == multiset(Flat(bs)) + multiset{t}
  {
    FlatFront([t], bs);
    if bs == [] {
      FlatFront([t], []);
    } else {
      assert bs == [bs[0]] + bs[1..];
      FlatFront(bs[0], bs[1..]);
      FlatFront(bs[0] + [t], bs[1..]);
    }
  }

  // ---- the quads of a buffer ----

  datatype Buffered = Buffered(skip: bool, quad: Quad)

  // The quads of a buffer that are not marked to be skipped.
  ghost function Accepted(buf: seq<Buffered>): multiset<Quad> {
    if buf == [] then multiset{}
    else
      var last := buf[|buf| - 1];
      Accepted(buf[..|buf| - 1]) + if last.skip then multiset{} else multiset{last.quad}
  }

  ghost function Quads(buf: seq<Buffered>): set<Quad> {
    set b | b in buf :: b.quad
  }

  // The quads of a buffer, in order.
  ghost function Queue(buf: seq<Buffered>): (r: seq<Quad>)
    ensures |r| == |buf|
  {
    seq(|buf|, i requires 0 <= i < |buf| => buf[i].quad)
  }

  ghost function Elems(quads: seq<Quad>): set<Quad> {
    set q | q in quads
  }

  lemma QueueQuads(buf: seq<Buffered>)
    ensures Elems(Queue(buf)) == Quads(buf)
  {
    forall x: Quad
      ensures x in Queue(buf) <==> x in Quads(buf)
    {
      if x in Queue(buf) {
        var i :| 0 <= i < |buf| && Queue(buf)[i] == x;
        assert buf[i] in buf;
      }
      if x in Quads(buf) {
        var b :| b in buf && b.quad == x;
        var i :| 0 <= i < |buf| && buf[i] == b;
        assert Queue(buf)[i] == x;
      }
    }
  }

  lemma ElemsJoined(a: seq<Quad>, b: seq<Quad>)
    ensures Elems(a + b) == Elems(a) + Elems(b)
  {
  }

  lemma AcceptedNext(buf: seq<Buffered>, i: nat)
    requires i < |buf|
    ensures Accepted(buf[..i + 1]) ==
      if buf[i].skip then Accepted(buf[..i]) else Accepted(buf[..i]) + multiset{buf[i].quad}
  {
    assert buf[..i + 1][..i] == buf[..i];
  }

  lemma {:induction false} AcceptedCount(buf: seq<Buffered>, x: Quad)
    ensures Accepted(buf)[x] == multiset(buf)[Buffered(false, x)]
  {
    if buf != [] {
      AcceptedCount(buf[..|buf| - 1], x);
      assert buf == buf[..|buf| - 1] + [buf[|buf| - 1]];
    }
  }

  // Sorting a buffer does not change what is accepted.
  lemma AcceptedSorted(buf: seq<Buffered>, buf': seq<Buffered>)
    requires multiset(buf) == multiset(buf')
    ensures Accepted(buf) == Accepted(buf')
  {
    forall x: Quad
      ensures Accepted(buf)[x] == Accepted(buf')[x]
    {
      AcceptedCount(buf, x);
      AcceptedCount(buf', x);
    }
  }

  lemma QuadsSorted(buf: seq<Buffered>, buf': seq<Buffered>)
    requires multiset(buf) == multiset(buf')
    ensures Quads(buf) == Quads(buf')
  {
    forall b: Buffered
      ensures b in buf <==> b in buf'
    {
      assert b in buf <==> b in multiset(buf);
    }
  }

  // Each different quad, once.
  ghost function Once(s: set<Quad>): multiset<Quad> {
    multiset(s)
  }

  // What is known now is what was known and these quads.
  ghost predicate Joined(st: Trees, pending: set<Quad>, st': Trees, pending': set<Quad>, quads: set<Quad>) {
    forall x: Quad {:trigger Known(st', pending', x)} ::
      Known(st', pending', x) <==> Known(st, pending, x) || x in quads
  }

  lemma KnownGained(st: Trees, st': Trees, pending: set<Quad>, quads: set<Quad>)
    requires SGained(st, st', Once(quads))
    ensures Joined(st, pending, st', pending, quads)
  {
    forall x: Quad
      ensures Known(st', pending, x) <==> Known(st, pending, x) || x in quads
    {
      assert SCopies(st', x) == SCopies(st, x) + Once(quads)[x];
    }
  }

  lemma KnownWaiting(st: Trees, pending: set<Quad>, pending': set<Quad>, quads: set<Quad>)
    requires pending' == pending + quads
    ensures Joined(st, pending, st, pending', quads)
  {
  }
}
