/**
  Reading a model's chain. While the chain may hold triples that were deleted from the index, the
  iterator looks each one up and strikes out those that are gone.
 */
module ChainScan {
  import opened Rids
  import opened RowTable
  import opened TripleChains

  // The trees of one index, by predicate.
  type Trees = map<Rid, Tree>

  function RowsAt(trees: Trees, p: Rid, key: Rid): seq<Pair> {
    if p in trees then Rows(trees[p], key) else []
  }

  // Whether a search in the subject index finds the triple in the model.
  predicate InIndex(trees: Trees, m: Rid, t: Triple) {
    Select(Pair(m, t.o), RowsAt(trees, t.p, t.s)) != []
  }

  predicate Alive(t: Triple) {
    t.s != RID_GONE
  }

  function StruckOut(t: Triple): Triple {
    t.(s := RID_GONE)
  }

  // A triple the iterator returns. `index` is the index to look in, if the chain is marked.
  predicate Present(t: Triple, m: Rid, superset: bool, trees: Trees) {
    Alive(t) && (superset ==> InIndex(trees, m, t))
  }

  // The triples that are returned, in order.
  ghost function Returned(ts: seq<Triple>, m: Rid, superset: bool, trees: Trees): seq<Triple> {
    if ts == [] then []
    else
      var last := ts[|ts| - 1];
      Returned(ts[..|ts| - 1], m, superset, trees) + if Present(last, m, superset, trees) then [last] else []
  }

  // What is left in the chain: those that are looked up and not found are struck out.
  ghost function Swept(ts: seq<Triple>, m: Rid, superset: bool, trees: Trees): (r: seq<Triple>)
    ensures |r| == |ts|
  {
    seq(|ts|, i requires 0 <= i < |ts| =>
      if superset && Alive(ts[i]) && !InIndex(trees, m, ts[i]) then StruckOut(ts[i]) else ts[i])
  }

  lemma ReturnedNext(ts: seq<Triple>, k: nat, m: Rid, superset: bool, trees: Trees)
    requires k < |ts|
    ensures Returned(ts[..k + 1], m, superset, trees) ==
            Returned(ts[..k], m, superset, trees) + if Present(ts[k], m, superset, trees) then [ts[k]] else []
  {
    assert ts[..k + 1][..k] == ts[..k];
  }

  // A returned triple is in the chain and alive and, if it was looked up, in the index; and conversely.
  lemma {:induction false} ReturnedIff(ts: seq<Triple>, m: Rid, superset: bool, trees: Trees, t: Triple)
    ensures t in Returned(ts, m, superset, trees) <==> t in ts && Present(t, m, superset, trees)
  {
    if ts != [] {
      ReturnedIff(ts[..|ts| - 1], m, superset, trees, t);
      assert ts == ts[..|ts| - 1] + [ts[|ts| - 1]];
    }
  }

  // Each as often as it is listed.
  lemma {:induction false} ReturnedCount(ts: seq<Triple>, m: Rid, superset: bool, trees: Trees, t: Triple)
    ensures multiset(Returned(ts, m, superset, trees))[t] ==
      if Present(t, m, superset, trees) then multiset(ts)[t] else 0
  {
    hide Present;
    if ts != [] {
      ReturnedCount(ts[..|ts| - 1], m, superset, trees, t);
      assert ts == ts[..|ts| - 1] + [ts[|ts| - 1]];
    }
  }

  lemma SweptIff(ts: seq<Triple>, m: Rid, superset: bool, trees: Trees, t: Triple)
    requires Alive(t)
    ensures t in Swept(ts, m, superset, trees) <==> t in ts && Present(t, m, superset, trees)
  {
    var r := Swept(ts, m, superset, trees);
    if t in ts && Present(t, m, superset, trees) {
      var i :| 0 <= i < |ts| && ts[i] == t;
      assert r[i] == t;
    }
    if t in r {
      var i :| 0 <= i < |r| && r[i] == t;
      assert ts[i] == t;
    }
  }

  // The triple at `pos` of block `at` is the one at this position of the whole chain.
  lemma {:induction false} FlatAt(bs: seq<seq<Triple>>, at: nat, pos: nat)
    requires at < |bs| && pos < |bs[at]|
    ensures |Flat(bs[..at])| + pos < |Flat(bs)| && Flat(bs)[|Flat(bs[..at])| + pos] == bs[at][pos]
  {
    var n := |bs| - 1;
    if at == n {
    } else {
      assert bs[..n][..at] == bs[..at];
      FlatAt(bs[..n], at, pos);
    }
  }

  lemma {:induction false} FlatUpdate(bs: seq<seq<Triple>>, at: nat, pos: nat, t: Triple)
    requires at < |bs| && pos < |bs[at]|
    ensures
      var bs' := bs[at := bs[at][pos := t]];
      && |Flat(bs[..at])| + pos < |Flat(bs)|
      && Flat(bs') == Flat(bs)[|Flat(bs[..at])| + pos := t]
      && bs'[..at] == bs[..at]
  {
    var n := |bs| - 1;
    var bs' := bs[at := bs[at][pos := t]];
    FlatAt(bs, at, pos);
    if at == n {
      assert bs'[..n] == bs[..n];
    } else {
      assert bs[..n][..at] == bs[..at];
      assert bs'[..n] == bs[..n][at := bs[at][pos := t]];
      FlatUpdate(bs[..n], at, pos, t);
      FlatAt(bs[..n], at, pos);
    }
  }

  // Where a scan that started with the triples `start` stands: `done` of them have been dealt with.
  ghost predicate Position(bs: seq<seq<Triple>>, start: seq<Triple>, at: nat, pos: nat, done: nat,
                           m: Rid, superset: bool, trees: Trees) {
    && at <= |bs| && (if at < |bs| then pos <= |bs[at]| else pos == 0)
    && done == |Flat(bs[..at])| + pos
    && done <= |start|
    && Flat(bs) == Swept(start[..done], m, superset, trees) + start[done..]
  }

  lemma PositionStart(bs: seq<seq<Triple>>, m: Rid, superset: bool, trees: Trees)
    requires bs != []
    ensures Position(bs, Flat(bs), 0, 0, 0, m, superset, trees)
  {
    assert bs[..0] == [];
  }

  lemma NextBlock(bs: seq<seq<Triple>>, start: seq<Triple>, at: nat, pos: nat, done: nat, m: Rid, superset: bool,
                  trees: Trees)
    requires Position(bs, start, at, pos, done, m, superset, trees) && at < |bs| && pos == |bs[at]|
    ensures Position(bs, start, at + 1, 0, done, m, superset, trees)
  {
    FlatPrefix(bs, at);
  }

  // The triple under the cursor is still the one it was.
  lemma Current(bs: seq<seq<Triple>>, start: seq<Triple>, at: nat, pos: nat, done: nat, m: Rid, superset: bool,
                trees: Trees)
    requires Position(bs, start, at, pos, done, m, superset, trees) && at < |bs| && pos < |bs[at]|
    ensures done < |start| && bs[at][pos] == start[done]
  {
    FlatAt(bs, at, pos);
  }

  lemma PassOver(bs: seq<seq<Triple>>, start: seq<Triple>, at: nat, pos: nat, done: nat, m: Rid, superset: bool,
                 trees: Trees)
    requires Position(bs, start, at, pos, done, m, superset, trees) && at < |bs| && pos < |bs[at]|
    requires !(superset && Alive(bs[at][pos]) && !InIndex(trees, m, bs[at][pos]))
    ensures Position(bs, start, at, pos + 1, done + 1, m, superset, trees)
  {
    Current(bs, start, at, pos, done, m, superset, trees);
    SweptNext(start, done, m, superset, trees);
    assert start[done..] == [start[done]] + start[done + 1..];
  }

  lemma SweptNext(ts: seq<Triple>, k: nat, m: Rid, superset: bool, trees: Trees)
    requires k < |ts|
    ensures Swept(ts[..k + 1], m, superset, trees) == Swept(ts[..k], m, superset, trees) +
            [if superset && Alive(ts[k]) && !InIndex(trees, m, ts[k]) then StruckOut(ts[k]) else ts[k]]
  {
    hide InIndex;
  }

  lemma Strike(bs: seq<seq<Triple>>, start: seq<Triple>, at: nat, pos: nat, done: nat, m: Rid, superset: bool,
               trees: Trees)
    requires Position(bs, start, at, pos, done, m, superset, trees) && at < |bs| && pos < |bs[at]|
    requires superset && Alive(bs[at][pos]) && !InIndex(trees, m, bs[at][pos])
    ensures Position(bs[at := bs[at][pos := StruckOut(bs[at][pos])]], start, at, pos + 1, done + 1, m, superset, trees)
  {
    hide InIndex, Flat;
    var t := StruckOut(bs[at][pos]);
    Current(bs, start, at, pos, done, m, superset, trees);
    FlatUpdate(bs, at, pos, t);
    SweptNext(start, done, m, superset, trees);
    assert start[done..] == [start[done]] + start[done + 1..];
  }

  lemma PositionEnd(bs: seq<seq<Triple>>, start: seq<Triple>, done: nat, m: Rid, superset: bool, trees: Trees)
    requires Position(bs, start, |bs|, 0, done, m, superset, trees)
    ensures done == |start| && Flat(bs) == Swept(start, m, superset, trees)
  {
    assert bs[..|bs|] == bs;
    assert start[..done] == start;
  }

  class ChainIterator {
    const chain: TBChain
    const model: Rid
    const head: nat
    const superset: bool
    var node: nat
    var pos: nat

    ghost const start: seq<Triple>    // the chain's triples when the scan began
    ghost var at: nat                 // the index of `node`, counted from the head
    ghost var done: nat

    ghost predicate Valid(trees: Trees)
      reads this, chain
    {
      && chain.Valid() && chain.Exists(model) && head == Head(chain.ids(Of(model)))
      && at <= |chain.ids(Of(model))|
      && node == (if at < |chain.ids(Of(model))| then chain.ids(Of(model))[|chain.ids(Of(model))| - 1 - at] else 0)
      && Position(chain.Blocks(model), start, at, pos, done, model, superset, trees)
    }

    // The triples returned so far.
    ghost function Given(trees: Trees): seq<Triple>
      reads this
      requires done <= |start|
    {
      Returned(start[..done], model, superset, trees)
    }

    // fs_tbchain_new_iterator
    constructor (chain: TBChain, model: Rid, head: nat, ghost trees: Trees)
      requires chain.Valid() && chain.Exists(model) && head == Head(chain.ids(Of(model)))
      ensures this.chain == chain && this.model == model && superset == chain.Superset(model)
      ensures start == chain.Triples(model) && done == 0 && Valid(trees) && Given(trees) == []
    {
      chain.HeadIndex(model);
      PositionStart(chain.Blocks(model), model, chain.Superset(model), trees);
      this.chain, this.model, this.head := chain, model, head;
      node, pos := head, 0;
      superset := chain.blocks[head].superset;
      start, at, done := chain.Triples(model), 0, 0;
    }

    lemma Bounds(trees: Trees)
      requires Valid(trees)
      ensures done <= |start| && at <= |chain.Blocks(model)| == |chain.ids(Of(model))|
      ensures at < |chain.Blocks(model)| ==> pos <= |chain.Blocks(model)[at]|
      ensures at == |chain.Blocks(model)| ==> pos == 0
    {
    }

    // One round of the iterator's loop: the end of a block, a triple struck out earlier, one to return
    // or one to strike out.
    method Look(trees: Trees) returns (ok: bool, t: Triple)
      requires Valid(trees) && node != 0
      modifies this, chain`blocks
      ensures Valid(trees) && chain.OnlyChanged(model)
      ensures old(done) <= done <= |start| && Given(trees) == old(Given(trees)) + if ok then [t] else []
      ensures chain.Superset(model) == old(chain.Superset(model))
      ensures !superset ==> chain.blocks == old(chain.blocks)
      ensures (at == old(at) && done > old(done)) || (at > old(at) && done == old(done) && !ok)
    {
      hide Partition, OthersKept, Position, Returned, InIndex, TBChain.Valid, Contents;
      chain.KeptSoFar(model);
      Bounds(trees);
      chain.BlockAt(model, at);
      var block := chain.blocks[node];
      if pos >= |block.triples| {
        ok, t := false, Triple(RID_NULL, RID_NULL, RID_NULL);
        NextBlock(chain.Blocks(model), start, at, pos, done, model, superset, trees);
        node, pos, at := block.cont, 0, at + 1;
      } else {
        ok, t := Consider(trees, block);
      }
    }

    // Deals with the triple under the cursor.
    method Consider(trees: Trees, block: Block) returns (ok: bool, t: Triple)
      requires Valid(trees) && at < |chain.ids(Of(model))|
      requires node < |chain.blocks| && chain.blocks[node] == block && pos < |block.triples|
      modifies `pos, `done, chain`blocks
      ensures Valid(trees) && chain.OnlyChanged(model)
      ensures done == old(done) + 1 <= |start| && Given(trees) == old(Given(trees)) + if ok then [t] else []
      ensures chain.Superset(model) == old(chain.Superset(model))
      ensures !superset ==> chain.blocks == old(chain.blocks)
    {
      hide Partition, OthersKept, Position, Returned, InIndex, TBChain.Valid, Contents;
      ok, t := false, Triple(RID_NULL, RID_NULL, RID_NULL);
      chain.KeptSoFar(model);
      Bounds(trees);
      chain.BlockAt(model, at);
      ghost var bs := chain.Blocks(model);
      Current(bs, start, at, pos, done, model, superset, trees);
      ReturnedNext(start, done, model, superset, trees);
      if block.triples[pos].s == RID_GONE {
        PassOver(bs, start, at, pos, done, model, superset, trees);
      } else if !superset || InIndex(trees, model, block.triples[pos]) {
        PassOver(bs, start, at, pos, done, model, superset, trees);
        ok, t := true, block.triples[pos];
      } else {
        Strike(bs, start, at, pos, done, model, superset, trees);
        StrikeOut(block);
      }
      pos, done := pos + 1, done + 1;
    }

    // Marks the triple under the cursor as gone, and the chain as sparse.
    method StrikeOut(block: Block)
      requires chain.Valid() && chain.Exists(model) && head == Head(chain.ids(Of(model)))
      requires at < |chain.ids(Of(model))| && node == chain.ids(Of(model))[|chain.ids(Of(model))| - 1 - at]
      requires node < |chain.blocks| && chain.blocks[node] == block && pos < |block.triples|
      modifies chain`blocks
      ensures chain.Valid() && chain.OnlyChanged(model)
      ensures at < |old(chain.Blocks(model))| && pos < |old(chain.Blocks(model))[at]|
      ensures
        var bs := old(chain.Blocks(model));
        chain.Blocks(model) == bs[at := bs[at][pos := StruckOut(bs[at][pos])]]
      ensures chain.Superset(model) == old(chain.Superset(model)) && chain.HeadBlock(model).sparse
    {
      hide Partition, OthersKept, TBChain.Valid;
      chain.BlockAt(model, at);
      ghost var j := |chain.ids(Of(model))| - 1 - at;
      chain.HeadIndex(model);
      chain.Distinct(model, j);
      chain.Write(node, block.(triples := block.triples[pos := StruckOut(block.triples[pos])]), model, j);
      ghost var blocks1, ids1 := chain.blocks, chain.ids;
      chain.SetSparse(head, model);
      KeptTwice(old(chain.blocks), old(chain.ids), blocks1, ids1, chain.blocks, chain.ids, Of(model));
    }

    // fs_tbchain_it_next: the next triple that is present; if there is none, the chain has been
    // pruned to its end and the mark is cleared.
    method Next(trees: Trees) returns (ok: bool, t: Triple)
      requires Valid(trees)
      modifies this, chain`blocks
      ensures Valid(trees) && chain.OnlyChanged(model)
      ensures done <= |start| && Given(trees) == old(Given(trees)) + if ok then [t] else []
      ensures ok ==> old(done) < done
      ensures !ok ==> done == |start| && chain.Triples(model) == Swept(start, model, superset, trees)
      ensures chain.Superset(model) == (old(chain.Superset(model)) && (ok || !superset))
      ensures !superset ==> chain.blocks == old(chain.blocks)
    {
      hide Partition, OthersKept, Position, Returned, InIndex, TBChain.Valid, Swept;
      ok, t := false, Triple(RID_NULL, RID_NULL, RID_NULL);
      chain.KeptSoFar(model);
      Bounds(trees);
      while node != 0 && !ok
        invariant Valid(trees) && chain.OnlyChanged(model)
        invariant old(done) <= done <= |start|
        invariant chain.Superset(model) == old(chain.Superset(model))
        invariant Given(trees) == old(Given(trees)) + if ok then [t] else []
        invariant ok ==> old(done) < done
        invariant !superset ==> chain.blocks == old(chain.blocks)
        decreases |chain.ids(Of(model))| - at, |start| - done
      {
        ghost var blocks1 := chain.blocks;
        ok, t := Look(trees);
        KeptTwice(old(chain.blocks), chain.ids, blocks1, chain.ids, chain.blocks, chain.ids, Of(model));
      }
      if !ok {
        Ended(trees);
        if superset {
          ghost var blocks1 := chain.blocks;
          chain.PutSuperset(head, false, model);
          KeptTwice(old(chain.blocks), chain.ids, blocks1, chain.ids, chain.blocks, chain.ids, Of(model));
        }
      }
    }

    lemma Ended(trees: Trees)
      requires Valid(trees) && node == 0
      ensures done == |start| && chain.Triples(model) == Swept(start, model, superset, trees)
    {
      if at < |chain.ids(Of(model))| {
        chain.BlockAt(model, at);
      }
      PositionEnd(chain.Blocks(model), start, done, model, superset, trees);
    }
  }
}
