/**
  Whole runs of a segment: imports, deletions and reads in any order, imported directly or deferred.
 */
module SegmentRuns {
  import opened Rids
  import RowTable
  import opened TripleChains
  import opened ChainScan
  import opened Indexes
  import opened SegmentSpec
  import opened Segments
  import Deletion
  import opened ModelQueries
  import opened Binding

  // ---- steps ----

  datatype Step =
    | Import(quads: seq<Quad>)
    | Commit
    | Stop
    | DeleteQuads(patterns: seq<Quad>)
    | DeleteModels(models: seq<Rid>)
    | Read(model: Rid)
    | Query(models: seq<Rid>, request: Request, limit: int)

  // The simple form of a segment, as one family of its trees sees it: how often each quad is indexed, which
  // quads wait, which are buffered, and whether an import is deferred.
  datatype Abstract = Abstract(copies: imap<Quad, nat>, waiting: set<Quad>, buffered: seq<Quad>, deferred: bool)

  ghost function Plus(copies: imap<Quad, nat>, quads: set<Quad>): imap<Quad, nat> {
    imap x: Quad | x in copies :: copies[x] + if x in quads then 1 else 0
  }

  ghost function Without(copies: imap<Quad, nat>, gone: iset<Quad>): imap<Quad, nat> {
    imap x: Quad | x in copies :: if x in gone then 0 else copies[x]
  }

  ghost predicate Indexed(a: Abstract, x: Quad) {
    x in a.copies && a.copies[x] > 0
  }

  // The quads that some patterns take out of one family of trees.
  ghost function HitBy(ds: seq<Quad>, side: Side): iset<Quad> {
    iset x: Quad | IsHit(ds, x, side)
  }

  ghost predicate IsHit(ds: seq<Quad>, x: Quad, side: Side) {
    exists d :: d in ds && d.p != RID_NULL && Hit(d, x, side)
  }

  predicate Hit(d: Quad, x: Quad, side: Side) {
    if side.BySubject? then SHit(d, x) else OHit(d, x)
  }

  ghost function After(a: Abstract, step: Step, side: Side): Abstract {
    match step
    case Import(quads) =>
      var all := a.buffered + quads;
      var full := Batched(|all|);
      Abstract(a.copies, a.waiting + Elems(all[..full]), all[full..], a.deferred || full > 0)
    case Commit =>
      if a.deferred then a.(waiting := a.waiting + Elems(a.buffered), buffered := [])
      else a.(copies := Plus(a.copies, Elems(a.buffered)), buffered := [])
    case Stop => Abstract(Plus(a.copies, a.waiting), {}, a.buffered, false)
    case DeleteQuads(ds) => a.(copies := Without(a.copies, HitBy(ds, side)))
    case DeleteModels(ms) => a.(copies := Without(a.copies, OfModels(ms)))
    case Read(_) => a
    case Query(_, _, _) => a
  }

  ghost function AfterAll(a: Abstract, steps: seq<Step>, side: Side): Abstract {
    if steps == [] then a else After(AfterAll(a, steps[..|steps| - 1], side), steps[|steps| - 1], side)
  }

  ghost function CopiesOf(trees: Trees, side: Side): imap<Quad, nat> {
    imap x: Quad :: Copies(trees, side, x)
  }

  ghost function Abstraction(seg: Segment, side: Side): Abstract
    reads seg
  {
    Abstract(CopiesOf(if side.BySubject? then seg.st else seg.ot, side), Waiting(seg.pended), Queue(seg.buffer),
      seg.pendedImport)
  }

  // What a step answers: a read, the indexed quads of the model; a query, those it asks for, up to its limit.
  // Quads that wait may show up too.
  ghost predicate Answers(a: Abstract, step: Step, answer: seq<Quad>) {
    match step
    case Read(m) =>
      && (forall q :: q in answer ==> q.m == m && (Indexed(a, q) || q in a.waiting))
      && (forall q: Quad :: q.m == m && Indexed(a, q) ==> q in answer)
    case Query(ms, r, limit) =>
      && NoMore(|answer|, r, limit)
      && (forall q :: q in answer ==> q.m in ms && Asked(q, r) && (Indexed(a, q) || q in a.waiting))
      && (Fewer(|answer|, r, limit) ==>
            forall q: Quad :: q.m in ms && Asked(q, r) && Indexed(a, q) ==> q in answer)
    case _ => answer == []
  }

  // How often it answers each quad: as often as the chains show it.
  ghost predicate Serves(v: Chains, st: Trees, step: Step, answer: seq<Quad>) {
    match step
    case Read(m) => forall q: Quad :: multiset(answer)[q] == if q.m == m then Shown(v, st, q) else 0
    case Query(ms, r, limit) =>
      && (forall q: Quad :: multiset(answer)[q] <= Due(v, st, ms, r, q))
      && (Fewer(|answer|, r, limit) ==> forall q: Quad :: multiset(answer)[q] == Due(v, st, ms, r, q))
    case _ => answer == []
  }

  ghost predicate StepOk(step: Step) {
    step.Import? ==> forall i :: 0 <= i < |step.quads| ==> Storable(step.quads[i])
  }

  ghost predicate StepBalanced(step: Step) {
    step.DeleteQuads? ==> forall d :: d in step.patterns ==> Balanced(d)
  }

  // Steps that lose track of waiting quads: deleting their model, or pruning its chain. (A query that its
  // limit stops early may get away with it.)
  ghost predicate Hazard(step: Step, st: Trees, pended: seq<seq<Quad>>, v: Chains) {
    match step
    case DeleteModels(ms) => exists x :: x in Waiting(pended) && (RID_NULL in ms || x.m in ms)
    case Read(m) => ChainAt(v, m).superset && OnlyWaiting(st, Waiting(pended), m)
    case Query(ms, _, _) => !Settled(v, st, Waiting(pended), ms)
    case _ => false
  }

  // ---- the simple form of one step ----

  // Both sides of a segment agree exactly when the simple forms are the same.
  lemma AgreeSame(st: Trees, ot: Trees)
    ensures Agree(st, ot) <==> CopiesOf(st, BySubject) == CopiesOf(ot, ByObject)
  {
    if CopiesOf(st, BySubject) == CopiesOf(ot, ByObject) {
      forall x: Quad
        ensures SCopies(st, x) == OCopies(ot, x)
      {
        assert CopiesOf(st, BySubject)[x] == CopiesOf(ot, ByObject)[x];
      }
    }
  }

  lemma CopiesPlus(trees: Trees, trees': Trees, side: Side, quads: set<Quad>)
    requires forall x: Quad {:trigger Copies(trees', side, x)} ::
      Copies(trees', side, x) == Copies(trees, side, x) + if x in quads then 1 else 0
    ensures CopiesOf(trees', side) == Plus(CopiesOf(trees, side), quads)
  {
    hide Copies;
  }

  lemma CopiesWithout(trees: Trees, trees': Trees, side: Side, gone: iset<Quad>)
    requires forall x: Quad {:trigger Copies(trees', side, x)} ::
      Copies(trees', side, x) == if x in gone then 0 else Copies(trees, side, x)
    ensures CopiesOf(trees', side) == Without(CopiesOf(trees, side), gone)
  {
    hide Copies;
  }

  lemma CopiesGained(st: Trees, st': Trees, ot: Trees, ot': Trees, quads: set<Quad>)
    requires SGained(st, st', Once(quads)) && OGained(ot, ot', Once(quads))
    ensures CopiesOf(st', BySubject) == Plus(CopiesOf(st, BySubject), quads)
    ensures CopiesOf(ot', ByObject) == Plus(CopiesOf(ot, ByObject), quads)
  {
    hide SCopies, OCopies, CopiesOf, Plus;
    CopiesPlus(st, st', BySubject, quads);
    CopiesPlus(ot, ot', ByObject, quads);
  }

  lemma CopiesLost(st: Trees, st': Trees, ot: Trees, ot': Trees, ds: seq<Quad>)
    requires
      var hit := Deletion.PatternsOf(ds, (set d | d in ds :: d.p) - {RID_NULL});
      Deletion.SLost(st, st', hit) && Deletion.OLost(ot, ot', hit)
    ensures CopiesOf(st', BySubject) == Without(CopiesOf(st, BySubject), HitBy(ds, BySubject))
    ensures CopiesOf(ot', ByObject) == Without(CopiesOf(ot, ByObject), HitBy(ds, ByObject))
  {
    hide SCopies, OCopies, CopiesOf, Without, SHit, OHit, HitBy;
    var hit := Deletion.PatternsOf(ds, (set d | d in ds :: d.p) - {RID_NULL});
    forall x: Quad
      ensures Deletion.SHits(hit, x) <==> x in HitBy(ds, BySubject)
      ensures Deletion.OHits(hit, x) <==> x in HitBy(ds, ByObject)
    {
      HitsSame(ds, x);
    }
    CopiesWithout(st, st', BySubject, HitBy(ds, BySubject));
    CopiesWithout(ot, ot', ByObject, HitBy(ds, ByObject));
  }

  lemma HitsSame(ds: seq<Quad>, x: Quad)
    ensures
      var hit := Deletion.PatternsOf(ds, (set d | d in ds :: d.p) - {RID_NULL});
      && (Deletion.SHits(hit, x) <==> x in HitBy(ds, BySubject))
      && (Deletion.OHits(hit, x) <==> x in HitBy(ds, ByObject))
  {
    hide SHit, OHit;
    var hit := Deletion.PatternsOf(ds, (set d | d in ds :: d.p) - {RID_NULL});
    assert forall d :: d in hit <==> d in ds && d.p != RID_NULL;
    assert Deletion.SHits(hit, x) <==> IsHit(ds, x, BySubject) by {
      assert forall d: Quad :: Hit(d, x, BySubject) <==> SHit(d, x);
    }
    assert Deletion.OHits(hit, x) <==> IsHit(ds, x, ByObject) by {
      assert forall d: Quad :: Hit(d, x, ByObject) <==> OHit(d, x);
    }
  }

  ghost function OfModels(ms: seq<Rid>): iset<Quad> {
    iset x: Quad | RID_NULL in ms || x.m in ms
  }

  lemma SPurged(st: Trees, st': Trees, ms: seq<Rid>)
    requires if RID_NULL in ms then st' == map[] else Deletion.Purged(st, st', ms)
    ensures CopiesOf(st', BySubject) == Without(CopiesOf(st, BySubject), OfModels(ms))
  {
    forall x: Quad
      ensures SCopies(st', x) == if RID_NULL in ms || x.m in ms then 0 else SCopies(st, x)
    {
      if RID_NULL !in ms {
        Deletion.PurgedS(st, st', ms, x);
      }
    }
    hide SCopies, CopiesOf, Without;
    CopiesWithout(st, st', BySubject, OfModels(ms));
  }

  lemma OPurged(ot: Trees, ot': Trees, ms: seq<Rid>)
    requires if RID_NULL in ms then ot' == map[] else Deletion.Purged(ot, ot', ms)
    ensures CopiesOf(ot', ByObject) == Without(CopiesOf(ot, ByObject), OfModels(ms))
  {
    forall x: Quad
      ensures OCopies(ot', x) == if RID_NULL in ms || x.m in ms then 0 else OCopies(ot, x)
    {
      if RID_NULL !in ms {
        Deletion.PurgedO(ot, ot', ms, x);
      }
    }
    hide OCopies, CopiesOf, Without;
    CopiesWithout(ot, ot', ByObject, OfModels(ms));
  }

  // ---- the steps of a segment ----

  method DoImport(seg: Segment, quads: seq<Quad>)
    requires seg.Shape() && |seg.buffer| < QUAD_BUF_SIZE && StepOk(Import(quads))
    modifies seg, seg.chain
    ensures seg.Shape() && |seg.buffer| < QUAD_BUF_SIZE && seg.base == old(seg.base)
    ensures old(seg.Agreeing()) ==> seg.Agreeing()
    ensures old(seg.Mirroring()) ==> seg.Mirroring()
    ensures forall side :: Abstraction(seg, side) == After(old(Abstraction(seg, side)), Import(quads), side)
  {
    hide Mirrored, Agree, AllStorable, ListsStorable, TBChain.Valid, TBChain.View, HeadsListed, Waiting, Sorted16;
    hide Quads, Queue, CopiesOf, Elems, Batched, Replay;
    seg.Import(quads);
  }

  method DoCommit(seg: Segment)
    requires seg.Shape()
    modifies seg, seg.chain
    ensures seg.Shape() && seg.buffer == [] && seg.base == old(seg.base)
    ensures old(seg.Agreeing()) ==> seg.Agreeing()
    ensures old(seg.Mirroring()) ==> seg.Mirroring()
    ensures forall side :: Abstraction(seg, side) == After(old(Abstraction(seg, side)), Commit, side)
  {
    hide Mirrored, Agree, AllStorable, ListsStorable, TBChain.Valid, TBChain.View, HeadsListed, Waiting, Sorted16;
    hide Quads, CopiesOf, Elems, Plus, Replay, SGained, OGained, Once, Joined;
    QueueQuads(seg.buffer);
    seg.ImportCommit();
    if !seg.pendedImport {
      CopiesGained(old(seg.st), seg.st, old(seg.ot), seg.ot, Quads(old(seg.buffer)));
    }
  }

  method DoStop(seg: Segment)
    requires seg.Shape()
    modifies seg
    ensures seg.Shape() && seg.buffer == old(seg.buffer) && seg.base == old(seg.base)
    ensures old(seg.Agreeing()) ==> seg.Agreeing()
    ensures old(seg.Mirroring()) ==> seg.Mirroring()
    ensures forall side :: Abstraction(seg, side) == After(old(Abstraction(seg, side)), Stop, side)
  {
    hide Mirrored, Agree, AllStorable, ListsStorable, TBChain.Valid, TBChain.View, HeadsListed, Waiting, Sorted16;
    hide Quads, Queue, CopiesOf, Plus, Replay, SGained, OGained, Once;
    seg.StopImport();
    CopiesGained(old(seg.st), seg.st, old(seg.ot), seg.ot, old(Waiting(seg.pended)));
  }

  method DoDeleteQuads(seg: Segment, ds: seq<Quad>)
    requires seg.Shape()
    modifies seg, seg.chain
    ensures seg.Shape() && seg.buffer == old(seg.buffer) && seg.base == old(seg.base)
    ensures old(seg.Agreeing()) && StepBalanced(DeleteQuads(ds)) ==> seg.Agreeing()
    ensures old(seg.Mirroring()) ==> seg.Mirroring()
    ensures forall side :: Abstraction(seg, side) == After(old(Abstraction(seg, side)), DeleteQuads(ds), side)
  {
    hide Mirrored, Agree, AllStorable, ListsStorable, TBChain.Valid, TBChain.View, HeadsListed, Waiting, Sorted16;
    hide Quads, Queue, CopiesOf, Without, HitBy, Replay, Balanced;
    hide Deletion.SLost, Deletion.OLost, Deletion.PatternsOf, Deletion.Marked, Deletion.EvenHits;
    Deletion.DeleteQuads(seg, ds);
    CopiesLost(old(seg.st), seg.st, old(seg.ot), seg.ot, ds);
  }

  // Deleting models: exact as long as the chains list what is indexed; in any case what they list goes and
  // nothing of other models.
  method DoDeleteModels(seg: Segment, ms: seq<Rid>)
    requires seg.Shape()
    modifies seg, seg.chain
    ensures seg.Shape() && seg.buffer == old(seg.buffer) && seg.base == old(seg.base)
    ensures seg.pended == old(seg.pended) && seg.pendedImport == old(seg.pendedImport)
    ensures old(seg.Agreeing()) ==> seg.Agreeing()
    ensures
      var hazard := Hazard(DeleteModels(ms), old(seg.st), old(seg.pended), old(seg.chain.View()));
      old(seg.Mirroring()) ==> (seg.Mirroring() <==> !hazard)
    ensures old(seg.Mirroring()) ==>
      Abstraction(seg, BySubject) == After(old(Abstraction(seg, BySubject)), DeleteModels(ms), BySubject)
    ensures old(seg.Mirroring()) && old(seg.Agreeing()) ==>
      Abstraction(seg, ByObject) == After(old(Abstraction(seg, ByObject)), DeleteModels(ms), ByObject)
    ensures RID_NULL !in ms ==> Deletion.Erased(old(seg.st), seg.st, old(seg.chain.View()), ms)
    ensures RID_NULL !in ms ==> Deletion.OthersLeft(old(seg.ot), seg.ot, ms)
    ensures RID_NULL in ms ==> seg.st == map[] && seg.ot == map[]
  {
    hide Mirrored, Agree, AllStorable, ListsStorable, TBChain.Valid, TBChain.View, HeadsListed, Waiting, Sorted16;
    hide Quads, Queue, CopiesOf, Without, OfModels, Replay, Deletion.Purged, Deletion.Erased, Deletion.OthersLeft;
    hide Deletion.Forgot;
    Deletion.DeleteModels(seg, ms);
    if old(seg.Mirroring()) {
      SPurged(old(seg.st), seg.st, ms);
      if old(seg.Agreeing()) {
        OPurged(old(seg.ot), seg.ot, ms);
      }
    }
  }

  function AsQuads(m: Rid, ts: seq<Triple>): seq<Quad> {
    if ts == [] then [] else
      var t := ts[|ts| - 1];
      AsQuads(m, ts[..|ts| - 1]) + [Quad(m, t.s, t.p, t.o)]
  }

  lemma {:induction false} AsQuadsCount(m: Rid, ts: seq<Triple>, q: Quad)
    ensures multiset(AsQuads(m, ts))[q] == if q.m == m then multiset(ts)[Triple(q.s, q.p, q.o)] else 0
  {
    if ts != [] {
      AsQuadsCount(m, ts[..|ts| - 1], q);
      assert ts == ts[..|ts| - 1] + [ts[|ts| - 1]];
    }
  }

  // What a complete read answers.
  lemma ReadAnswers(v: Chains, st: Trees, pending: set<Quad>, a: Abstract, m: Rid, answer: seq<Quad>)
    requires ListsStorable(v) && AllStorable(st) && a.copies == CopiesOf(st, BySubject) && a.waiting == pending
    requires
      var c := ChainAt(v, m);
      answer == AsQuads(m, Returned(c.triples, m, c.superset, st))
    ensures Serves(v, st, Read(m), answer)
    ensures Mirrored(st, pending, v) ==> Answers(a, Read(m), answer)
  {
    hide ListsStorable, AllStorable, Mirrored, AsQuads, Returned, Shown;
    var c := ChainAt(v, m);
    forall q: Quad
      ensures multiset(answer)[q] == if q.m == m then Shown(v, st, q) else 0
      ensures Mirrored(st, pending, v) && q.m == m && SCopies(st, q) > 0 ==> Shown(v, st, q) > 0
      ensures Mirrored(st, pending, v) && Shown(v, st, q) > 0 ==> SCopies(st, q) > 0 || q in pending
    {
      AsQuadsCount(m, Returned(c.triples, m, c.superset, st), q);
      ReturnedShown(v, st, q);
      if Mirrored(st, pending, v) {
        ShownKnown(v, st, pending, q);
      }
    }
    InCount(answer);
  }

  method DoRead(seg: Segment, m: Rid) returns (answer: seq<Quad>)
    requires seg.Shape()
    modifies seg.chain`blocks
    ensures seg.Shape() && seg.chain.View() == Pruned(old(seg.chain.View()), m, seg.st)
    ensures old(seg.Mirroring()) ==> (seg.Mirroring() <==> !Hazard(Read(m), seg.st, seg.pended, old(seg.chain.View())))
    ensures Serves(old(seg.chain.View()), seg.st, Read(m), answer)
    ensures old(seg.Mirroring()) ==> Answers(Abstraction(seg, BySubject), Read(m), answer)
  {
    hide Mirrored, Agree, AllStorable, ListsStorable, TBChain.Valid, HeadsListed, Waiting, Sorted16, Pruned, Returned;
    hide Replay, Serves, Answers, CopiesOf, Queue, AsQuads, OnlyWaiting;
    Deletion.ViewAt(seg.chain, m);
    ghost var v := seg.chain.View();
    var ts := ReadModel(seg, m);
    answer := AsQuads(m, ts);
    ReadAnswers(v, seg.st, Waiting(seg.pended), Abstraction(seg, BySubject), m, answer);
  }

  method DoQuery(seg: Segment, ms: seq<Rid>, r: Request, limit: int) returns (answer: seq<Quad>)
    requires seg.Shape()
    modifies seg.chain`blocks
    ensures seg.Shape()
    ensures
      var hazard := Hazard(Query(ms, r, limit), seg.st, seg.pended, old(seg.chain.View()));
      old(seg.Mirroring()) && !hazard ==> seg.Mirroring()
    ensures Serves(old(seg.chain.View()), seg.st, Query(ms, r, limit), answer)
    ensures old(seg.Mirroring()) ==> Answers(Abstraction(seg, BySubject), Query(ms, r, limit), answer)
  {
    hide Mirrored, Agree, AllStorable, ListsStorable, TBChain.Valid, TBChain.View, HeadsListed, Waiting, Sorted16;
    hide Replay, Queue, Asked, Due, Fewer, NoMore, Settled;
    var rows, _ := BindModels(seg, r, ms, limit);
    answer := rows;
  }

  // Any one step does what it does to the simple form; only a deletion of models depends for that on chains
  // that list what is indexed.
  method Do(seg: Segment, step: Step) returns (answer: seq<Quad>)
    requires seg.Shape() && |seg.buffer| < QUAD_BUF_SIZE && StepOk(step)
    modifies seg, seg.chain
    ensures seg.Shape() && |seg.buffer| < QUAD_BUF_SIZE && seg.base == old(seg.base)
    ensures old(seg.Agreeing()) && StepBalanced(step) ==> seg.Agreeing()
    ensures
      var hazard := Hazard(step, old(seg.st), old(seg.pended), old(seg.chain.View()));
      old(seg.Mirroring()) ==> (!hazard ==> seg.Mirroring()) && (hazard && !step.Query? ==> !seg.Mirroring())
    ensures !step.DeleteModels? || old(seg.Mirroring()) ==>
      Abstraction(seg, BySubject) == After(old(Abstraction(seg, BySubject)), step, BySubject)
    ensures !step.DeleteModels? || (old(seg.Mirroring()) && old(seg.Agreeing())) ==>
      Abstraction(seg, ByObject) == After(old(Abstraction(seg, ByObject)), step, ByObject)
    ensures step.DeleteModels? && RID_NULL !in step.models ==>
      && Deletion.Erased(old(seg.st), seg.st, old(seg.chain.View()), step.models)
      && Deletion.OthersLeft(old(seg.ot), seg.ot, step.models)
    ensures Serves(old(seg.chain.View()), old(seg.st), step, answer)
    ensures old(seg.Mirroring()) ==> Answers(old(Abstraction(seg, BySubject)), step, answer)
  {
    hide Segment.Shape, Segment.Agreeing, Segment.Mirroring, Abstraction, TBChain.View, Deletion.Erased;
    hide Deletion.OthersLeft, Shown, Due, NoMore, Fewer, Asked, Indexed, Plus, Without, HitBy, Batched, Elems;
    answer := [];
    match step {
      case Import(quads) => DoImport(seg, quads);
      case Commit => DoCommit(seg);
      case Stop => DoStop(seg);
      case DeleteQuads(ds) => DoDeleteQuads(seg, ds);
      case DeleteModels(ms) => DoDeleteModels(seg, ms);
      case Read(m) => answer := DoRead(seg, m);
      case Query(ms, request, limit) => answer := DoQuery(seg, ms, request, limit);
    }
  }

  // ---- runs ----

  // A step that may lose track of waiting quads, as far as the simple form can tell: deleting their model,
  // or reading it before they are indexed.
  ghost predicate Hasty(a: Abstract, step: Step) {
    match step
    case DeleteModels(ms) => exists x :: x in a.waiting && (RID_NULL in ms || x.m in ms)
    case Read(m) => exists x :: x in a.waiting && x.m == m && !Indexed(a, x)
    case Query(ms, _, _) => exists x :: x in a.waiting && x.m in ms && !Indexed(a, x)
    case _ => false
  }

  // No step is hasty.
  ghost predicate Calm(a: Abstract, steps: seq<Step>) {
    forall j :: 0 <= j < |steps| ==> !Hasty(AfterAll(a, steps[..j], BySubject), steps[j])
  }

  // No models are deleted after a hasty step.
  ghost predicate Orderly(a: Abstract, steps: seq<Step>) {
    forall k :: 0 <= k < |steps| && steps[k].DeleteModels? ==> Calm(a, steps[..k])
  }

  // Whenever models are deleted the two families hold the same.
  ghost predicate Even(a: Abstract, b: Abstract, steps: seq<Step>) {
    forall k :: 0 <= k < |steps| && steps[k].DeleteModels? ==>
      AfterAll(a, steps[..k], BySubject).copies == AfterAll(b, steps[..k], ByObject).copies
  }

  lemma AfterNext(a: Abstract, steps: seq<Step>, i: nat, side: Side)
    requires i < |steps|
    ensures AfterAll(a, steps[..i + 1], side) == After(AfterAll(a, steps[..i], side), steps[i], side)
  {
    assert steps[..i + 1][..i] == steps[..i];
  }

  lemma RunNext(a: Abstract, b: Abstract, steps: seq<Step>, i: nat)
    requires i < |steps|
    ensures Calm(a, steps[..i + 1]) <==>
      Calm(a, steps[..i]) && !Hasty(AfterAll(a, steps[..i], BySubject), steps[i])
    ensures Orderly(a, steps[..i + 1]) <==>
      Orderly(a, steps[..i]) && (steps[i].DeleteModels? ==> Calm(a, steps[..i]))
    ensures Even(a, b, steps[..i + 1]) ==>
      && Even(a, b, steps[..i])
      && (steps[i].DeleteModels? ==>
            AfterAll(a, steps[..i], BySubject).copies == AfterAll(b, steps[..i], ByObject).copies)
    ensures Calm(a, steps[..i]) ==> Orderly(a, steps[..i])
  {
    hide AfterAll, Hasty;
    var s, t := steps[..i], steps[..i + 1];
    assert t[i] == steps[i] && t[..i] == s;
    assert forall j :: 0 <= j < i ==> t[j] == s[j] && t[..j] == s[..j];
    forall k | 0 <= k < i && Calm(a, s)
      ensures Calm(a, s[..k])
    {
      assert forall j :: 0 <= j < k ==> s[..k][j] == s[j] && s[..k][..j] == s[..j];
    }
  }

  lemma NothingRun(a: Abstract, b: Abstract, steps: seq<Step>)
    ensures AfterAll(a, steps[..0], BySubject) == a && AfterAll(b, steps[..0], ByObject) == b
    ensures Calm(a, steps[..0]) && Orderly(a, steps[..0])
  {
  }

  // A step that is not hasty is not hazardous.
  lemma NotHasty(seg: Segment, step: Step)
    ensures !Hasty(Abstraction(seg, BySubject), step) ==> !Hazard(step, seg.st, seg.pended, seg.chain.View())
  {
    hide Waiting, TBChain.View;
    var a := Abstraction(seg, BySubject);
    assert forall x: Quad :: Indexed(a, x) <==> SCopies(seg.st, x) > 0;
  }

  lemma EvenAgrees(seg: Segment)
    requires Abstraction(seg, BySubject).copies == Abstraction(seg, ByObject).copies
    ensures seg.Agreeing()
  {
    hide CopiesOf, Agree;
    AgreeSame(seg.st, seg.ot);
  }

  // A run has taken the simple forms `a` and `b` of the two families to `a'` and `b'`, as far as it should.
  ghost predicate Refines(a: Abstract, b: Abstract, steps: seq<Step>, a': Abstract, b': Abstract) {
    && (Orderly(a, steps) ==> a' == AfterAll(a, steps, BySubject))
    && (Orderly(a, steps) && Even(a, b, steps) ==> b' == AfterAll(b, steps, ByObject))
  }

  // Every step answers from what is indexed by then, until after the first hasty one.
  ghost predicate Answered(a: Abstract, steps: seq<Step>, answers: seq<seq<Quad>>) {
    |answers| == |steps| && forall k :: 0 <= k < |steps| && Calm(a, steps[..k]) ==>
      Answers(AfterAll(a, steps[..k], BySubject), steps[k], answers[k])
  }

  /**
    Every run, with imports of any size, direct or deferred. The segment does exactly what its simple form
    does, as long as no models are deleted after a hasty step: in the subject trees, and in the object trees
    if the families hold the same whenever models are deleted. The two families keep agreeing as long as
    deletions are balanced; the chains keep listing what is indexed as long as no step is hasty; and until
    then every step answers from what is indexed.
   */
  method Run(seg: Segment, steps: seq<Step>) returns (answers: seq<seq<Quad>>)
    requires seg.Shape() && seg.Agreeing() && seg.Mirroring() && |seg.buffer| < QUAD_BUF_SIZE
    requires forall i :: 0 <= i < |steps| ==> StepOk(steps[i])
    modifies seg, seg.chain
    ensures seg.Shape() && |seg.buffer| < QUAD_BUF_SIZE && seg.base == old(seg.base)
    ensures (forall i :: 0 <= i < |steps| ==> StepBalanced(steps[i])) ==> seg.Agreeing()
    ensures Calm(old(Abstraction(seg, BySubject)), steps) ==> seg.Mirroring()
    ensures Refines(old(Abstraction(seg, BySubject)), old(Abstraction(seg, ByObject)), steps,
      Abstraction(seg, BySubject), Abstraction(seg, ByObject))
    ensures Answered(old(Abstraction(seg, BySubject)), steps, answers)
  {
    hide Segment.Shape, Segment.Agreeing, Segment.Mirroring, Abstraction, After, AfterAll, Hazard, Hasty, Calm;
    hide Orderly, Even, Answers, Serves, Deletion.Erased, Deletion.OthersLeft, StepOk, StepBalanced, TBChain.View;
    ghost var a, b := Abstraction(seg, BySubject), Abstraction(seg, ByObject);
    NothingRun(a, b, steps);
    answers := [];
    for i := 0 to |steps|
      invariant seg.Shape() && |seg.buffer| < QUAD_BUF_SIZE && seg.base == old(seg.base)
      invariant (forall j :: 0 <= j < |steps| ==> StepBalanced(steps[j])) ==> seg.Agreeing()
      invariant Calm(a, steps[..i]) ==> seg.Mirroring()
      invariant Orderly(a, steps[..i]) ==> Abstraction(seg, BySubject) == AfterAll(a, steps[..i], BySubject)
      invariant Orderly(a, steps[..i]) && Even(a, b, steps[..i]) ==>
        Abstraction(seg, ByObject) == AfterAll(b, steps[..i], ByObject)
      invariant |answers| == i
      invariant forall k :: 0 <= k < i && Calm(a, steps[..k]) ==>
        Answers(AfterAll(a, steps[..k], BySubject), steps[k], answers[k])
    {
      RunNext(a, b, steps, i);
      AfterNext(a, steps, i, BySubject);
      AfterNext(b, steps, i, ByObject);
      NotHasty(seg, steps[i]);
      if Orderly(a, steps[..i + 1]) && Even(a, b, steps[..i + 1]) && steps[i].DeleteModels? {
        EvenAgrees(seg);
      }
      var answer := Do(seg, steps[i]);
      answers := answers + [answer];
    }
    assert steps[..|steps|] == steps;
  }

  // ---- runs that import directly ----

  ghost function BufferAfter(step: Step, n: nat): nat {
    match step
    case Import(quads) => n + |quads|
    case Commit => 0
    case _ => n
  }

  // No import of the run fills the buffer, which holds `n` quads at the start.
  ghost predicate Direct(steps: seq<Step>, n: nat) {
    forall i :: 0 <= i < |steps| && steps[i].Import? ==> Occupied(steps[..i + 1], n) < QUAD_BUF_SIZE
  }

  ghost function Occupied(steps: seq<Step>, n: nat): nat {
    if steps == [] then n else BufferAfter(steps[|steps| - 1], Occupied(steps[..|steps| - 1], n))
  }

  lemma {:induction false} NothingDeferred(a: Abstract, steps: seq<Step>, i: nat)
    requires a.waiting == {} && !a.deferred && Direct(steps, |a.buffered|) && i <= |steps|
    ensures
      var c := AfterAll(a, steps[..i], BySubject);
      c.waiting == {} && !c.deferred && |c.buffered| == Occupied(steps[..i], |a.buffered|)
  {
    if i > 0 {
      hide After, AfterAll, BufferAfter;
      NothingDeferred(a, steps, i - 1);
      AfterNext(a, steps, i - 1, BySubject);
      assert steps[..i][..i - 1] == steps[..i - 1];
      StillDirect(AfterAll(a, steps[..i - 1], BySubject), steps[i - 1]);
    }
  }

  lemma StillDirect(c: Abstract, step: Step)
    requires c.waiting == {} && !c.deferred && (step.Import? ==> |c.buffered| + |step.quads| < QUAD_BUF_SIZE)
    ensures
      var d := After(c, step, BySubject);
      d.waiting == {} && !d.deferred && |d.buffered| == BufferAfter(step, |c.buffered|)
  {
  }

  // In such a run nothing ever waits, so no step is hasty.
  lemma DirectCalm(a: Abstract, steps: seq<Step>)
    requires a.waiting == {} && !a.deferred && Direct(steps, |a.buffered|)
    ensures Calm(a, steps) && Orderly(a, steps)
  {
    hide AfterAll, Direct;
    forall j | 0 <= j < |steps|
      ensures !Hasty(AfterAll(a, steps[..j], BySubject), steps[j])
    {
      NothingDeferred(a, steps, j);
    }
    forall k | 0 <= k < |steps|
      ensures Calm(a, steps[..k])
    {
      assert forall j :: 0 <= j < k ==> steps[..k][j] == steps[j] && steps[..k][..j] == steps[..j];
    }
  }

  // ---- what can go wrong while an import is deferred ----

  // A run in which that happens, for every quad: it fills the buffer, so that it waits in a list; deleting it
  // then marks its model's chain, and reading the model strikes it out of the chain. When the waiting list is
  // pushed out the quad is indexed, but the chain, which is not marked any more, does not list it.
  method PruningWhileWaiting(q: Quad) returns (seg: Segment)
    requires Storable(q)
    ensures fresh(seg) && fresh(seg.chain) && seg.Shape()
    ensures SCopies(seg.st, q) > 0 && Listed(seg.chain.View(), q) == 0 && !ChainAt(seg.chain.View(), q.m).superset
    ensures !seg.Mirroring()
  {
    hide Mirrored, Agree, ListsStorable, TBChain.Valid, TBChain.View, HeadsListed, Sorted16, Replay, Waiting;
    hide OGained, Deletion.OLost, Deletion.Marked, Deletion.EvenHits, Deletion.PatternsOf, Listed, Pruned, Returned;
    hide Deletion.SHits, Quads, Queue, Elems, Batched, Held;
    seg := new Segment(true);
    var quads := seq(QUAD_BUF_SIZE, _ => q);
    OneBatch(quads, q);
    seg.Import(quads);
    ghost var waiting, v0 := Waiting(seg.pended), seg.chain.View();
    assert q in waiting;
    Deletion.DeleteQuads(seg, [q]);
    ghost var v, st := seg.chain.View(), seg.st;
    assert SCopies(st, q) == 0;
    assert q.m in (set d | d in [q] :: d.m) by {
      assert q in [q];
    }
    NowMarked(st, waiting, v0, v, q, (set d | d in [q] :: d.m) - {RID_NULL});
    var _ := ReadModel(seg, q.m);
    PrunedLists(v, q.m, st, q);
    PrunedUnmarked(v, q.m, st);
    seg.StopImport();
    assert SCopies(seg.st, q) == SCopies(st, q) + Once(waiting)[q];
    Unlisted(seg.st, Waiting(seg.pended), seg.chain.View(), q);
  }

  lemma OneBatch(quads: seq<Quad>, q: Quad)
    requires |quads| == QUAD_BUF_SIZE && forall i :: 0 <= i < |quads| ==> quads[i] == q
    ensures
      var all := Queue([]) + quads;
      Batched(|all|) == |all| == QUAD_BUF_SIZE && q in Elems(all[..|all|])
  {
    assert quads[0] == q && Queue([]) + quads == quads && quads[..|quads|] == quads;
  }

  lemma NowMarked(st: Trees, pending: set<Quad>, v0: Chains, v: Chains, q: Quad, ms: set<Rid>)
    requires Mirrored(st, pending, v) && Deletion.Marked(v0, v, ms) && q in pending && q.m in ms
    ensures ChainAt(v, q.m).superset
  {
    assert Known(st, pending, q) ==> Listed(v, q) > 0;
    assert ChainAt(v, q.m).superset || ChainAt(v, q.m).triples == [];
  }

  lemma PrunedUnmarked(v: Chains, m: Rid, st: Trees)
    ensures !ChainAt(Pruned(v, m, st), m).superset
  {
  }

  lemma Unlisted(st: Trees, pending: set<Quad>, v: Chains, q: Quad)
    requires SCopies(st, q) > 0 && Listed(v, q) == 0
    ensures !Mirrored(st, pending, v)
  {
    assert Known(st, pending, q) && Listed(v, q) == 0;
  }

  /**
    A whole import, of any size. Whether it was done directly or was deferred on the way, in the end both
    tree families have gained each different quad of it once.
   */
  method ImportAll(seg: Segment, quads: seq<Quad>)
    requires seg.Shape() && seg.Agreeing() && seg.buffer == [] && !seg.pendedImport
    requires forall i :: 0 <= i < |quads| ==> Storable(quads[i])
    modifies seg, seg.chain
    ensures seg.Shape() && seg.Agreeing() && seg.buffer == [] && !seg.pendedImport
    ensures SGained(old(seg.st), seg.st, Once(Elems(quads))) && OGained(old(seg.ot), seg.ot, Once(Elems(quads)))
    ensures old(seg.Mirroring()) ==> seg.Mirroring()
  {
    hide Mirrored, Agree, AllStorable, ListsStorable, TBChain.Valid, TBChain.View, HeadsListed, Waiting, Sorted16;
    hide Quads, ListGained, SGained, OGained, Once, Queue, Elems, Batched, Replay, Joined;
    WholeImport(quads, Batched(|quads|));
    seg.Import(quads);
    QueueQuads(seg.buffer);
    seg.ImportCommit();
    ghost var st1, ot1, deferred := seg.st, seg.ot, seg.pendedImport;
    assert deferred ==> Waiting(seg.pended) == Elems(quads);
    seg.StopImport();
    OnceNothing();
    if !deferred {
      SGainedSame(old(seg.st), st1, seg.st, Once(Elems(quads)));
      OGainedSame(old(seg.ot), ot1, seg.ot, Once(Elems(quads)));
    }
  }

  lemma WholeImport(quads: seq<Quad>, full: nat)
    requires full <= |quads|
    ensures Queue([]) == [] && [] + quads == quads
    ensures Elems(quads[..full]) + Elems(quads[full..]) == Elems(quads)
    ensures full == 0 ==> quads[full..] == quads && Elems(quads[..full]) == {}
  {
    assert quads == quads[..full] + quads[full..];
  }
}
