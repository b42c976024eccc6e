/**
  A segment together with its trees as objects: slots, rows and free lists. After every run the tree objects
  denote what the segment holds.
 */
module StoredSegments {
  import opened Rids
  import opened ChainScan
  import opened Indexes
  import opened SegmentSpec
  import opened Segments
  import opened SegmentRuns
  import opened TripleChains
  import opened TreeFamilies
  import opened Binding
  import Deletion

  class StoredSegment {
    const seg: Segment
    const trees: SegmentTrees

    // The tree objects hold what the segment's maps hold, and share nothing with it.
    ghost predicate Valid()
      reads this, seg, seg.chain, trees, trees.forest, trees.forest.table, trees.forest.trees
    {
      && seg.Shape() && |seg.buffer| < QUAD_BUF_SIZE && seg.log == []
      && trees.Valid() && trees.Denotes(false) == seg.st && trees.Denotes(true) == seg.ot
      && seg !in trees.Footprint() && seg.chain !in trees.Footprint()
    }

    constructor (modelData: bool)
      ensures Valid() && seg.Agreeing() && seg.Mirroring() && !seg.pendedImport && seg.buffer == []
      ensures seg.st == map[] && seg.ot == map[]
      ensures fresh(seg) && fresh(seg.chain) && fresh(trees.Footprint())
    {
      hide Segment.Contained, Segment.Agreeing, Segment.Mirroring, SegmentTrees.Valid, SegmentTrees.Denotes, Replay;
      seg := new Segment(modelData);
      trees := new SegmentTrees();
    }

    // The tree objects carry out the updates the segment has logged.
    method CatchUp()
      requires seg.Paired() && trees.Valid() && seg.base == Both(trees.Denotes(false), trees.Denotes(true))
      requires seg !in trees.Footprint() && seg.chain !in trees.Footprint()
      modifies trees.Footprint(), seg`log, seg`base
      ensures seg.Paired() && seg.log == [] && trees.Valid()
      ensures trees.Denotes(false) == seg.st && trees.Denotes(true) == seg.ot
      ensures fresh(trees.Footprint() - old(trees.Footprint()))
    {
      hide Replay, Updated, SegmentTrees.Valid, SegmentTrees.Denotes;
      ghost var base := seg.base;
      var log := seg.log;
      ReplayNone(base, log);
      for i := 0 to |log|
        invariant seg.log == log && seg.base == base && seg.st == old(seg.st) && seg.ot == old(seg.ot)
        invariant trees.Valid() && fresh(trees.Footprint() - old(trees.Footprint()))
        invariant Replay(base, log[..i]) == Both(trees.Denotes(false), trees.Denotes(true))
      {
        ReplayNext(base, log[..i], log[i]);
        assert log[..i + 1] == log[..i] + [log[i]];
        trees.Apply(log[i]);
      }
      assert log[..|log|] == log;
      seg.Settle();
    }

    // Any step, carried out down to the tree objects, does what it does to the simple form.
    method Do(step: Step) returns (answer: seq<Quad>)
      requires Valid() && StepOk(step)
      modifies seg, seg.chain, trees.Footprint()
      ensures Valid() && fresh(trees.Footprint() - old(trees.Footprint()))
      ensures old(seg.Agreeing()) && StepBalanced(step) ==> seg.Agreeing()
      ensures
        var hazard := Hazard(step, old(seg.st), old(seg.pended), old(seg.chain.View()));
        old(seg.Mirroring()) ==> (!hazard ==> seg.Mirroring()) && (hazard && !step.Query? ==> !seg.Mirroring())
      ensures !step.DeleteModels? || old(seg.Mirroring()) ==>
        Abstraction(seg, BySubject) == After(old(Abstraction(seg, BySubject)), step, BySubject)
      ensures !step.DeleteModels? || (old(seg.Mirroring()) && old(seg.Agreeing())) ==>
        Abstraction(seg, ByObject) == After(old(Abstraction(seg, ByObject)), step, ByObject)
      ensures Serves(old(seg.chain.View()), old(seg.st), step, answer)
      ensures old(seg.Mirroring()) ==> Answers(old(Abstraction(seg, BySubject)), step, answer)
    {
      hide Hazard, Segment.Contained, Segment.Agreeing, Segment.Mirroring, SegmentTrees.Valid, SegmentTrees.Denotes;
      hide Replay, StepOk, StepBalanced, After, TBChain.View, Serves, Answers, CopiesOf, Queue, Waiting;
      hide Deletion.Erased, Deletion.OthersLeft;
      SettledBase(seg);
      answer := SegmentRuns.Do(seg, step);
      CatchUp();
    }

    // A search of the tree objects answers from what the segment holds.
    method Search(byObject: bool, p: Rid, key: Rid, pattern: Pair) returns (out: seq<Pair>)
      requires Valid()
      ensures out == Select(pattern, RowsAt(if byObject then seg.ot else seg.st, p, key))
    {
      trees.Indexed(p);
      if p in trees.s {
        out := trees.Search(byObject, p, key, pattern);
      } else {
        out := [];
      }
    }
  }

  lemma ReplayNone(b: Both, log: seq<Update>)
    ensures Replay(b, log[..0]) == b
  {
  }

  lemma SettledBase(seg: Segment)
    requires seg.Paired() && seg.log == []
    ensures seg.base == Both(seg.st, seg.ot)
  {
  }

  /**
    Every run, down to the tree objects: they denote what the segment holds, and the segment does what its
    simple form does and answers from that.
   */
  method RunStored(store: StoredSegment, steps: seq<Step>) returns (answers: seq<seq<Quad>>)
    requires store.Valid() && store.seg.Agreeing() && store.seg.Mirroring()
    requires forall i :: 0 <= i < |steps| ==> StepOk(steps[i])
    modifies store.seg, store.seg.chain, store.trees.Footprint()
    ensures store.Valid() && fresh(store.trees.Footprint() - old(store.trees.Footprint()))
    ensures (forall i :: 0 <= i < |steps| ==> StepBalanced(steps[i])) ==> store.seg.Agreeing()
    ensures Calm(old(Abstraction(store.seg, BySubject)), steps) ==> store.seg.Mirroring()
    ensures Refines(old(Abstraction(store.seg, BySubject)), old(Abstraction(store.seg, ByObject)), steps,
      Abstraction(store.seg, BySubject), Abstraction(store.seg, ByObject))
    ensures Answered(old(Abstraction(store.seg, BySubject)), steps, answers)
  {
    hide Segment.Contained, Segment.Agreeing, Segment.Mirroring, SegmentTrees.Valid, SegmentTrees.Denotes;
    hide Replay, StepOk, StepBalanced, Refines, Answered, Calm, CopiesOf, Queue, Waiting;
    SettledBase(store.seg);
    answers := SegmentRuns.Run(store.seg, steps);
    store.CatchUp();
  }

  // The simple form of an empty segment.
  ghost function Nothing(): Abstract {
    Abstract(imap x: Quad :: Zero(x), {}, [], false)
  }

  ghost function Zero(x: Quad): nat {
    0
  }

  // Every run from the empty segment.
  method RunFromEmpty(modelData: bool, steps: seq<Step>) returns (store: StoredSegment, answers: seq<seq<Quad>>)
    requires forall i :: 0 <= i < |steps| ==> StepOk(steps[i])
    ensures fresh(store) && store.Valid()
    ensures (forall i :: 0 <= i < |steps| ==> StepBalanced(steps[i])) ==> store.seg.Agreeing()
    ensures Calm(Nothing(), steps) ==> store.seg.Mirroring()
    ensures Refines(Nothing(), Nothing(), steps, Abstraction(store.seg, BySubject), Abstraction(store.seg, ByObject))
    ensures Answered(Nothing(), steps, answers)
  {
    hide Segment.Agreeing, Segment.Mirroring, SegmentTrees.Valid, SegmentTrees.Denotes;
    hide Replay, StepOk, StepBalanced, Refines, Answered, Calm;
    store := new StoredSegment(modelData);
    EmptyAbstraction(store.seg);
    answers := RunStored(store, steps);
  }

  lemma EmptyAbstraction(seg: Segment)
    requires seg.Contained() && seg.st == map[] && seg.ot == map[] && seg.buffer == [] && !seg.pendedImport
    ensures Abstraction(seg, BySubject) == Abstraction(seg, ByObject) == Nothing()
  {
    assert forall x: Quad :: SCopies(map[], x) == 0 && OCopies(map[], x) == 0;
  }

  // In a run that imports directly nothing is hasty, so all of this holds without condition.
  lemma DirectFromEmpty(steps: seq<Step>)
    requires Direct(steps, 0)
    ensures Calm(Nothing(), steps) && Orderly(Nothing(), steps)
  {
    DirectCalm(Nothing(), steps);
  }
}
