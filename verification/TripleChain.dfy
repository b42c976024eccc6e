/**
  The model index: for each model a chain of blocks of triples, all in one file with a free list.
 */
module TripleChains {
  import opened Rids
  import opened RowTable

  const BLOCK_LEN := 5
  const INIT_SIZE := 1024

  // The flags count only on the first block of a chain.
  datatype Block = Block(cont: nat, sparse: bool, superset: bool, triples: seq<Triple>)

  const CLEARED := Block(0, false, false, [])

  // The links alone: chains of blocks are lists of the kind the row table keeps.
  ghost function Links(blocks: seq<Block>): (rows: seq<Row>)
    ensures |rows| == |blocks|
  {
    seq(|blocks|, i requires 0 <= i < |blocks| => Row(blocks[i].cont, Pair(0, 0)))
  }

  // Who owns a block: block 1 is set aside for ever.
  const RESERVED := Chain(1, 0)

  ghost function Of(m: Rid): Owner {
    Chain(0, m)
  }

  // The blocks of a list, head first.
  ghost function Contents(blocks: seq<Block>, ids: seq<nat>): (bs: seq<seq<Triple>>)
    ensures |bs| == |ids|
  {
    seq(|ids|, j requires 0 <= j < |ids| =>
      var i := ids[|ids| - 1 - j]; if i < |blocks| then blocks[i].triples else [])
  }

  // All triples, in the order an iterator meets them.
  ghost function Flat(bs: seq<seq<Triple>>): seq<Triple> {
    if bs == [] then [] else Flat(bs[..|bs| - 1]) + bs[|bs| - 1]
  }

  // A chain with one more triple: the first block takes it, or a new block in front of it.
  ghost function Added(bs: seq<seq<Triple>>, t: Triple): seq<seq<Triple>> {
    if bs == [] then [[t]]
    else if |bs[0]| + 1 > BLOCK_LEN then [[t]] + bs
    else [bs[0] + [t]] + bs[1..]
  }

  ghost predicate Short(b: Block) {
    |b.triples| <= BLOCK_LEN
  }

  lemma LinksAt(blocks: seq<Block>, r: nat, b: Block)
    requires r < |blocks|
    ensures Links(blocks[r := b]) == Links(blocks)[r := Row(b.cont, Pair(0, 0))]
  {
  }

  // List `x` and its blocks are as before.
  ghost predicate Kept(blocks: seq<Block>, ids: Lists, blocks': seq<Block>, ids': Lists, x: Owner) {
    && ids'(x) == ids(x)
    && (forall j :: 0 <= j < |ids(x)| ==> ids(x)[j] < |blocks| <= |blocks'| && blocks'[ids(x)[j]] == blocks[ids(x)[j]])
  }

  // So are all lists but `o` and the free list.
  ghost predicate OthersKept(blocks: seq<Block>, ids: Lists, blocks': seq<Block>, ids': Lists, o: Owner) {
    forall x: Owner {:trigger Kept(blocks, ids, blocks', ids', x)} ::
      x != o && x != FreeList ==> Kept(blocks, ids, blocks', ids', x)
  }

  lemma KeptYet(blocks: seq<Block>, ids: Lists, place: seq<Place>, o: Owner)
    requires Partition(Links(blocks), ids, place)
    ensures OthersKept(blocks, ids, blocks, ids, o)
  {
    forall x: Owner
      ensures Kept(blocks, ids, blocks, ids, x)
    {
      assert ListOk(Links(blocks), ids, place, x);
    }
  }

  lemma KeptTwice(blocks: seq<Block>, ids: Lists, blocks1: seq<Block>, ids1: Lists, blocks2: seq<Block>, ids2: Lists,
                  o: Owner)
    requires OthersKept(blocks, ids, blocks1, ids1, o) && OthersKept(blocks1, ids1, blocks2, ids2, o)
    ensures OthersKept(blocks, ids, blocks2, ids2, o)
  {
    forall x: Owner | x != o && x != FreeList
      ensures Kept(blocks, ids, blocks2, ids2, x)
    {
      assert Kept(blocks, ids, blocks1, ids1, x) && Kept(blocks1, ids1, blocks2, ids2, x);
      forall j | 0 <= j < |ids(x)|
        ensures ids(x)[j] < |blocks| <= |blocks2| && blocks2[ids(x)[j]] == blocks[ids(x)[j]]
      {
        assert ids1(x)[j] == ids(x)[j];
      }
    }
  }

  lemma KeptContents(blocks: seq<Block>, ids: Lists, blocks': seq<Block>, ids': Lists, x: Owner)
    requires Kept(blocks, ids, blocks', ids', x)
    ensures Contents(blocks', ids'(x)) == Contents(blocks, ids(x))
  {
  }

  // Changing one block leaves every list alone that it is not on.
  lemma OneChanged(blocks: seq<Block>, ids: Lists, place: seq<Place>, r: nat, b: Block, ids': Lists, o: Owner)
    requires |place| <= |blocks| && r < |place| && (place[r].owner == o || place[r].owner == FreeList)
    requires forall x: Owner :: ListOk(Links(blocks), ids, place, x)
    requires forall x: Owner :: x != o && x != FreeList ==> ids'(x) == ids(x)
    ensures OthersKept(blocks, ids, blocks[r := b], ids', o)
  {
    var blocks' := blocks[r := b];
    forall x: Owner | x != o && x != FreeList
      ensures Kept(blocks, ids, blocks', ids', x)
    {
      assert ListOk(Links(blocks), ids, place, x);
    }
  }

  lemma Grown(blocks: seq<Block>, ids: Lists, place: seq<Place>, blocks': seq<Block>, o: Owner)
    requires Partition(Links(blocks), ids, place) && |blocks| <= |blocks'| && blocks'[..|blocks|] == blocks
    ensures Partition(Links(blocks'), ids, place) && OthersKept(blocks, ids, blocks', ids, o)
  {
    forall x: Owner
      ensures ListOk(Links(blocks'), ids, place, x)
      ensures Kept(blocks, ids, blocks', ids, x)
    {
      assert ListOk(Links(blocks), ids, place, x);
      forall j: nat | j < |ids(x)|
        ensures blocks'[ids(x)[j]] == blocks[ids(x)[j]] && Link(Links(blocks'), ids(x), j)
      {
        assert Link(Links(blocks), ids(x), j);
        assert blocks'[..|blocks|][ids(x)[j]] == blocks[ids(x)[j]];
      }
    }
  }

  // The block after the last one placed goes to the free list next.
  lemma NextFree(blocks: seq<Block>, ids: Lists, place: seq<Place>)
    requires Partition(Links(blocks), ids, place) && 0 < |place| < |blocks|
    ensures Pending(Links(blocks), ids, place + [Place(FreeList, |ids(FreeList)|)], FreeList, |place|)
  {
    ExtendStep(Links(blocks), ids, place, FreeList, Links(blocks));
  }

  // Block `r`, set aside for list `o`, becomes its head.
  lemma PushBlock(blocks: seq<Block>, ids: Lists, place: seq<Place>, o: Owner, r: nat, b: Block)
    requires Pending(Links(blocks), ids, place, o, r) && b.cont == Head(ids(o))
    ensures r < |blocks| && Partition(Links(blocks[r := b]), Put(ids, o, ids(o) + [r]), place)
    ensures OthersKept(blocks, ids, blocks[r := b], Put(ids, o, ids(o) + [r]), o)
    ensures Contents(blocks[r := b], ids(o) + [r]) == [b.triples] + Contents(blocks, ids(o))
  {
    LinksAt(blocks, r, b);
    PushStep(Links(blocks), ids, place, o, r, Links(blocks[r := b]));
    OneChanged(blocks, ids, place, r, b, Put(ids, o, ids(o) + [r]), o);
    assert ListOk(Links(blocks), ids, place, o);
    assert forall j :: 0 <= j < |ids(o)| ==> ids(o)[j] != r;
  }

  lemma TakeBlock(blocks: seq<Block>, ids: Lists, place: seq<Place>, o: Owner, r: nat)
    requires Partition(Links(blocks), ids, place) && o != FreeList
    requires ids(FreeList) != [] && r == Head(ids(FreeList))
    ensures 0 < r < |place|
    ensures
      var free := ids(FreeList)[..|ids(FreeList)| - 1];
      && blocks[r].cont == Head(free)
      && Pending(Links(blocks[r := CLEARED]), Put(ids, FreeList, free), place[r := Place(o, |ids(o)|)], o, r)
      && OthersKept(blocks, ids, blocks[r := CLEARED], Put(ids, FreeList, free), FreeList)
  {
    var free := ids(FreeList)[..|ids(FreeList)| - 1];
    TakeStep(Links(blocks), ids, place, o, r);
    LinksAt(blocks, r, CLEARED);
    assert ListOk(Links(blocks), ids, place, FreeList);
    OneChanged(blocks, ids, place, r, CLEARED, Put(ids, FreeList, free), FreeList);
  }

  // The head of list `o` is taken off it, to go to the free list next.
  lemma DropBlock(blocks: seq<Block>, ids: Lists, place: seq<Place>, o: Owner)
    requires Partition(Links(blocks), ids, place) && o != FreeList && ids(o) != []
    ensures
      var k, b := |ids(o)| - 1, Head(ids(o));
      && 0 < b < |blocks| && blocks[b].cont == Head(ids(o)[..k])
      && Pending(Links(blocks), Put(ids, o, ids(o)[..k]), Displace(place, o, k, b, |ids(FreeList)|), FreeList, b)
      && OthersKept(blocks, ids, blocks, Put(ids, o, ids(o)[..k]), o)
  {
    var k, b := |ids(o)| - 1, Head(ids(o));
    assert ListOk(Links(blocks), ids, place, o);
    assert Without(ids(o), k) == ids(o)[..k];
    DetachStep(Links(blocks), ids, place, o, k, b, Links(blocks));
    forall x: Owner | x != o && x != FreeList
      ensures Kept(blocks, ids, blocks, Put(ids, o, ids(o)[..k]), x)
    {
      assert ListOk(Links(blocks), ids, place, x);
    }
  }

  // Rewriting a block without changing its link.
  lemma Rewrite(blocks: seq<Block>, ids: Lists, place: seq<Place>, o: Owner, j: nat, b: Block)
    requires Partition(Links(blocks), ids, place) && o != FreeList && j < |ids(o)|
    requires ids(o)[j] < |blocks| && b.cont == blocks[ids(o)[j]].cont
    ensures
      var r := ids(o)[j];
      && Partition(Links(blocks[r := b]), ids, place)
      && OthersKept(blocks, ids, blocks[r := b], ids, o)
      && Contents(blocks[r := b], ids(o)) == Contents(blocks, ids(o))[|ids(o)| - 1 - j := b.triples]
  {
    var r := ids(o)[j];
    LinksAt(blocks, r, b);
    assert Links(blocks)[r := Row(b.cont, Pair(0, 0))] == Links(blocks);
    assert ListOk(Links(blocks), ids, place, o);
    OneChanged(blocks, ids, place, r, b, ids, o);
    assert forall i :: 0 <= i < |ids(o)| && i != j ==> ids(o)[i] != r;
  }

  ghost predicate AllShort(blocks: seq<Block>) {
    forall i :: 0 <= i < |blocks| ==> Short(blocks[i])
  }

  lemma FirstBlocks(blocks: seq<Block>, ids: Lists, place: seq<Place>)
    requires |blocks| >= 2 && (forall i :: 0 <= i < |blocks| ==> blocks[i] == CLEARED)
    requires forall o: Owner :: ids(o) == if o == RESERVED then [1] else []
    requires place == [Place(FreeList, 0), Place(RESERVED, 0)]
    ensures Partition(Links(blocks), ids, place)
  {
    assert Placed(ids, place, 1);
  }

  lemma SameChain(blocks: seq<Block>, ids: Lists, blocks1: seq<Block>, ids1: Lists, x: Owner, o: Owner)
    requires OthersKept(blocks, ids, blocks1, ids1, o) && x != o && x != FreeList
    ensures Kept(blocks, ids, blocks1, ids1, x) && Contents(blocks1, ids1(x)) == Contents(blocks, ids(x))
  {
    assert Kept(blocks, ids, blocks1, ids1, x);
  }

  lemma Widen(blocks: seq<Block>, ids: Lists, blocks1: seq<Block>, ids1: Lists, o: Owner)
    requires OthersKept(blocks, ids, blocks1, ids1, FreeList)
    ensures OthersKept(blocks, ids, blocks1, ids1, o)
  {
    assert forall x: Owner :: x != FreeList ==> Kept(blocks, ids, blocks1, ids1, x);
  }

  // A model's chain as its reader sees it; a model without a chain has an empty one.
  datatype ModelChain = ModelChain(triples: seq<Triple>, superset: bool)

  type Chains = imap<Rid, ModelChain>

  class TBChain {
    var blocks: seq<Block>   // the header's size and length agree: this sequence's length
    var freeList: nat
    ghost var ids: Lists
    ghost var place: seq<Place>

    ghost predicate Valid()
      reads this
    {
      && 2 <= |place| == |blocks|
      && Partition(Links(blocks), ids, place)
      && freeList == Head(ids(FreeList))
      && AllShort(blocks)
      && ids(RESERVED) == [1]
    }

    // The blocks of a model's chain, head first.
    ghost function Blocks(m: Rid): seq<seq<Triple>>
      reads `blocks, `ids
    {
      Contents(blocks, ids(Of(m)))
    }

    ghost function Triples(m: Rid): seq<Triple>
      reads `blocks, `ids
    {
      Flat(Blocks(m))
    }

    ghost predicate Exists(m: Rid)
      reads `ids
    {
      ids(Of(m)) != []
    }

    // The first block of a model's chain.
    ghost function HeadBlock(m: Rid): Block
      reads `blocks, `ids
    {
      var h := Head(ids(Of(m)));
      if h < |blocks| then blocks[h] else CLEARED
    }

    ghost predicate Superset(m: Rid)
      reads `blocks, `ids
    {
      Exists(m) && HeadBlock(m).superset
    }

    ghost function View(): Chains
      reads `blocks, `ids
    {
      imap m: Rid | true :: ModelChain(Triples(m), Superset(m))
    }

    twostate lemma ViewChanged(m: Rid)
      requires OnlyChanged(m)
      ensures View() == old(View())[m := ModelChain(Triples(m), Superset(m))]
    {
      forall x: Rid | x != m
        ensures Triples(x) == old(Triples(x)) && Superset(x) == old(Superset(x))
      {
        assert Kept(old(blocks), old(ids), blocks, ids, Of(x));
        KeptContents(old(blocks), old(ids), blocks, ids, Of(x));
      }
    }

    // Chains of other models begin where they did.
    twostate lemma HeadsKept(m: Rid)
      requires OnlyChanged(m)
      ensures forall x: Rid :: x != m ==> ids(Of(x)) == old(ids(Of(x)))
    {
      forall x: Rid | x != m
        ensures ids(Of(x)) == old(ids(Of(x)))
      {
        assert Kept(old(blocks), old(ids), blocks, ids, Of(x));
      }
    }

    // No chain but that of `m` differs from before.
    twostate predicate OnlyChanged(m: Rid)
      reads this
    {
      OthersKept(old(blocks), old(ids), blocks, ids, Of(m))
    }

    constructor ()
      ensures Valid()
      ensures forall m: Rid :: !Exists(m)
    {
      blocks := seq(INIT_SIZE, _ => CLEARED);
      freeList := 0;
      ids := o => if o == RESERVED then [1] else [];
      place := [Place(FreeList, 0), Place(RESERVED, 0)];
      new;
      FirstBlocks(blocks, ids, place);
      FreeRest(2);
      forall m: Rid
        ensures ids(Of(m)) == []
      {
      }
    }

    // The file is truncated and set up again.
    method Truncate()
      modifies this
      ensures Valid() && (forall m: Rid :: !Exists(m))
    {
      blocks := seq(INIT_SIZE, _ => CLEARED);
      freeList := 0;
      ids := o => if o == RESERVED then [1] else [];
      place := [Place(FreeList, 0), Place(RESERVED, 0)];
      FirstBlocks(blocks, ids, place);
      FreeRest(2);
    }

    // fs_tbchain_free_block, on a block that is on no list.
    method FreeBlock(b: nat)
      requires Pending(Links(blocks), ids, place, FreeList, b) && freeList == Head(ids(FreeList)) && AllShort(blocks)
      modifies this
      ensures Partition(Links(blocks), ids, place) && freeList == Head(ids(FreeList)) && AllShort(blocks)
      ensures freeList == b && place == old(place) && |blocks| == |old(blocks)|
      ensures ids == Put(old(ids), FreeList, old(ids(FreeList)) + [b])
      ensures OthersKept(old(blocks), old(ids), blocks, ids, FreeList)
    {
      PushBlock(blocks, ids, place, FreeList, b, blocks[b].(cont := freeList));
      blocks := blocks[b := blocks[b].(cont := freeList)];
      freeList := b;
      ids := Put(ids, FreeList, ids(FreeList) + [b]);
    }

    // Puts all blocks that are on no list yet on the free list.
    method FreeRest(from: nat)
      requires Partition(Links(blocks), ids, place) && freeList == Head(ids(FreeList)) && AllShort(blocks)
      requires 2 <= from == |place| <= |blocks| && ids(RESERVED) == [1]
      modifies this
      ensures Valid() && |blocks| == |old(blocks)|
      ensures |old(place)| < |blocks| ==> freeList != 0
      ensures OthersKept(old(blocks), old(ids), blocks, ids, FreeList)
      ensures forall o: Owner :: o != FreeList ==> ids(o) == old(ids(o))
    {
      hide Partition, OthersKept, AllShort, Pending;
      KeptYet(blocks, ids, place, FreeList);
      for i := from to |blocks|
        invariant |place| == i && |blocks| == |old(blocks)|
        invariant Partition(Links(blocks), ids, place) && freeList == Head(ids(FreeList)) && AllShort(blocks)
        invariant |old(place)| < i ==> freeList != 0
        invariant OthersKept(old(blocks), old(ids), blocks, ids, FreeList)
        invariant forall o: Owner :: o != FreeList ==> ids(o) == old(ids(o))
      {
        NextFree(blocks, ids, place);
        place := place + [Place(FreeList, |ids(FreeList)|)];
        ghost var blocks1, ids1 := blocks, ids;
        FreeBlock(i);
        KeptTwice(old(blocks), old(ids), blocks1, ids1, blocks, ids, FreeList);
      }
    }

    // fs_tbchain_new_block: takes a cleared block off the free list, doubling the file if it is empty.
    method NewBlock(ghost o: Owner) returns (r: nat)
      requires Valid() && o != FreeList
      modifies this
      ensures 2 <= |place| == |blocks| && freeList == Head(ids(FreeList)) && AllShort(blocks) && ids(RESERVED) == [1]
      ensures Pending(Links(blocks), ids, place, o, r) && blocks[r] == CLEARED
      ensures |blocks| == if old(freeList) == 0 then 2 * |old(blocks)| else |old(blocks)|
      ensures OthersKept(old(blocks), old(ids), blocks, ids, FreeList)
    {
      hide Partition, OthersKept, Pending;
      KeptYet(blocks, ids, place, FreeList);
      if freeList == 0 {
        var size := |blocks|;
        var grown := blocks + seq(|blocks|, _ => CLEARED);
        Grown(blocks, ids, place, grown, FreeList);
        blocks := grown;
        ghost var blocks1, ids1 := blocks, ids;
        FreeRest(size);
        KeptTwice(old(blocks), old(ids), blocks1, ids1, blocks, ids, FreeList);
      }
      r := freeList;
      ghost var free := ids(FreeList)[..|ids(FreeList)| - 1];
      TakeBlock(blocks, ids, place, o, r);
      ghost var blocks1, ids1 := blocks, ids;
      freeList := blocks[r].cont;
      blocks := blocks[r := CLEARED];
      place := place[r := Place(o, |ids(o)|)];
      ids := Put(ids, FreeList, free);
      KeptTwice(old(blocks), old(ids), blocks1, ids1, blocks, ids, FreeList);
    }

    // Makes a new block, holding `b`, the head of a model's chain.
    method Push(b: Block, ghost m: Rid) returns (r: nat)
      requires Valid() && Short(b) && b.cont == Head(ids(Of(m)))
      modifies this
      ensures Valid() && OnlyChanged(m)
      ensures Exists(m) && r == Head(ids(Of(m))) && r > 1
      ensures HeadBlock(m) == b && Blocks(m) == [b.triples] + old(Blocks(m))
    {
      hide Partition, OthersKept, Pending;
      r := NewBlock(Of(m));
      ghost var blocks1, ids1 := blocks, ids;
      SameChain(old(blocks), old(ids), blocks, ids, Of(m), FreeList);
      PushBlock(blocks, ids, place, Of(m), r, b);
      blocks := blocks[r := b];
      ids := Put(ids, Of(m), ids(Of(m)) + [r]);
      Widen(old(blocks), old(ids), blocks1, ids1, Of(m));
      KeptTwice(old(blocks), old(ids), blocks1, ids1, blocks, ids, Of(m));
      HeadIndex(m);
    }

    lemma NoHead(m: Rid)
      requires Valid() && Head(ids(Of(m))) == 0
      ensures !Exists(m)
    {
      if Exists(m) {
        HeadIndex(m);
      }
    }

    lemma EmptyView(m: Rid)
      requires !Exists(m)
      ensures View()[m] == ModelChain([], false)
    {
      assert |Blocks(m)| == 0;
    }

    // The head of a chain is never block 1.
    lemma NotOne(m: Rid)
      requires Valid() && Head(ids(Of(m))) <= 1
      ensures !Exists(m)
    {
      if Exists(m) {
        HeadIndex(m);
      }
    }

    lemma SomeHead(m: Rid)
      requires Head(ids(Of(m))) != 0
      ensures Exists(m)
    {
    }

    lemma KeptSoFar(m: Rid)
      requires Valid()
      ensures OthersKept(blocks, ids, blocks, ids, Of(m))
    {
      KeptYet(blocks, ids, place, Of(m));
    }

    // Blocks 0 and 1 are never handed out.
    lemma HeadIndex(m: Rid)
      requires Valid() && Exists(m)
      ensures 1 < Head(ids(Of(m))) < |blocks|
    {
      assert ListOk(Links(blocks), ids, place, Of(m)) && ListOk(Links(blocks), ids, place, RESERVED);
      assert ids(RESERVED)[0] == 1;
    }

    // fs_tbchain_new_chain
    method NewChain(ghost m: Rid) returns (r: nat)
      requires Valid() && !Exists(m)
      modifies this
      ensures Valid() && OnlyChanged(m)
      ensures Exists(m) && r == Head(ids(Of(m))) && r > 1
      ensures !Superset(m) && Blocks(m) == [[]]
    {
      r := Push(CLEARED, m);
    }

    // Replaces the contents or flags of the block at position `j` of a model's chain.
    method Write(r: nat, b: Block, ghost m: Rid, ghost j: nat)
      requires Valid() && j < |ids(Of(m))| && r == ids(Of(m))[j]
      requires Short(b) && r < |blocks| && b.cont == blocks[r].cont
      modifies `blocks
      ensures Valid() && OnlyChanged(m) && blocks == old(blocks)[r := b]
      ensures Blocks(m) == old(Blocks(m))[|ids(Of(m))| - 1 - j := b.triples]
      ensures HeadBlock(m) == if j == |ids(Of(m))| - 1 then b else old(HeadBlock(m))
    {
      hide Partition, OthersKept;
      Rewrite(blocks, ids, place, Of(m), j, b);
      HeadIndex(m);
      Distinct(m, j);
      blocks := blocks[r := b];
    }

    lemma Distinct(m: Rid, j: nat)
      requires Valid() && j < |ids(Of(m))|
      ensures j != |ids(Of(m))| - 1 ==> Head(ids(Of(m))) != ids(Of(m))[j]
      ensures ids(Of(m))[j] < |blocks|
    {
      assert ListOk(Links(blocks), ids, place, Of(m));
    }

    // fs_tbchain_add_triple: a new head block takes over the flags.
    method AddTriple(b: nat, t: Triple, ghost m: Rid) returns (r: nat)
      requires Valid() && Exists(m) && b == Head(ids(Of(m)))
      modifies this
      ensures Valid() && OnlyChanged(m)
      ensures Exists(m) && r == Head(ids(Of(m))) && r > 1
      ensures Superset(m) == old(Superset(m)) && HeadBlock(m).sparse == old(HeadBlock(m).sparse)
      ensures Blocks(m) == Added(old(Blocks(m)), t)
    {
      hide Partition, OthersKept;
      HeadIndex(m);
      var head := blocks[b];
      if |head.triples| + 1 > BLOCK_LEN {
        r := Push(Block(b, head.sparse, head.superset, [t]), m);
      } else {
        r := b;
        Write(b, head.(triples := head.triples + [t]), m, |ids(Of(m))| - 1);
      }
    }

    // fs_tbchain_remove_chain: frees every block of the chain.
    method RemoveChain(head: nat, ghost m: Rid)
      requires Valid() && Exists(m) && head == Head(ids(Of(m)))
      modifies this
      ensures Valid() && OnlyChanged(m) && !Exists(m)
    {
      hide Partition, OthersKept, Pending, AllShort;
      var b := head;
      KeptYet(blocks, ids, place, Of(m));
      HeadIndex(m);
      while b != 0
        invariant Valid() && b == Head(ids(Of(m)))
        invariant OnlyChanged(m)
        decreases |ids(Of(m))|
      {
        HeadIndex(m);
        DropBlock(blocks, ids, place, Of(m));
        var next := blocks[b].cont;
        ghost var k := |ids(Of(m))| - 1;
        ghost var ids0 := ids;
        place := Displace(place, Of(m), k, b, |ids(FreeList)|);
        ids := Put(ids, Of(m), ids(Of(m))[..k]);
        KeptTwice(old(blocks), old(ids), blocks, ids0, blocks, ids, Of(m));
        ghost var blocks1, ids1 := blocks, ids;
        FreeBlock(b);
        Widen(blocks1, ids1, blocks, ids, Of(m));
        KeptTwice(old(blocks), old(ids), blocks1, ids1, blocks, ids, Of(m));
        b := next;
      }
      if Exists(m) {
        HeadIndex(m);
      }
    }

    // fs_tbchain_set_bit and fs_tbchain_clear_bit, for the superset bit.
    method PutSuperset(b: nat, on: bool, ghost m: Rid)
      requires Valid() && Exists(m) && b == Head(ids(Of(m)))
      modifies `blocks
      ensures Valid() && OnlyChanged(m)
      ensures Superset(m) == on && Blocks(m) == old(Blocks(m))
    {
      hide Partition, OthersKept;
      HeadIndex(m);
      Write(b, blocks[b].(superset := on), m, |ids(Of(m))| - 1);
    }

    // fs_tbchain_set_bit, for the sparse bit.
    method SetSparse(b: nat, ghost m: Rid)
      requires Valid() && Exists(m) && b == Head(ids(Of(m)))
      modifies `blocks
      ensures Valid() && OnlyChanged(m)
      ensures Superset(m) == old(Superset(m)) && Blocks(m) == old(Blocks(m)) && HeadBlock(m).sparse
    {
      hide Partition, OthersKept;
      HeadIndex(m);
      Write(b, blocks[b].(sparse := true), m, |ids(Of(m))| - 1);
    }

    // The link and the triples of the block at index `at`, counted from the head.
    lemma BlockAt(m: Rid, at: nat)
      requires Valid() && at < |ids(Of(m))|
      ensures
        var n := |ids(Of(m))|;
        var r := ids(Of(m))[n - 1 - at];
        && 1 < r < |blocks| && |blocks[r].triples| <= BLOCK_LEN
        && blocks[r].triples == Blocks(m)[at]
        && blocks[r].cont == if at + 1 < n then ids(Of(m))[n - 2 - at] else 0
    {
      var j := |ids(Of(m))| - 1 - at;
      assert ListOk(Links(blocks), ids, place, Of(m)) && ListOk(Links(blocks), ids, place, RESERVED);
      assert ids(RESERVED)[0] == 1;
      assert Link(Links(blocks), ids(Of(m)), j);
      assert Short(blocks[ids(Of(m))[j]]);
    }

    // fs_tbchain_length: the number of triples, pruned ones included.
    method Length(head: nat, ghost m: Rid) returns (length: nat)
      requires Valid() && Exists(m) && head == Head(ids(Of(m)))
      ensures length == |Triples(m)|
    {
      hide Partition, Flat;
      length := 0;
      var b := head;
      ghost var at := 0;
      FlatPrefix(Blocks(m), 0);
      BlockAt(m, 0);
      while blocks[b].cont != 0
        invariant at < |ids(Of(m))| && b == ids(Of(m))[|ids(Of(m))| - 1 - at] && b < |blocks|
        invariant length == |Flat(Blocks(m)[..at])|
        decreases |ids(Of(m))| - at
      {
        BlockAt(m, at);
        FlatPrefix(Blocks(m), at);
        length := length + |blocks[b].triples|;
        b := blocks[b].cont;
        at := at + 1;
        BlockAt(m, at);
      }
      BlockAt(m, at);
      FlatPrefix(Blocks(m), at);
      length := length + |blocks[b].triples|;
      if at + 1 < |ids(Of(m))| {
        BlockAt(m, at + 1);
      }
      assert Blocks(m)[..at + 1] == Blocks(m);
    }
  }

  lemma EmptyBlock()
    ensures Flat([[]]) == []
  {
    var bs: seq<seq<Triple>> := [[]];
    assert bs[..0] == [];
  }

  lemma FlatPrefix(bs: seq<seq<Triple>>, at: nat)
    requires at < |bs|
    ensures Flat(bs[..at + 1]) == Flat(bs[..at]) + bs[at]
    ensures Flat(bs[..0]) == []
  {
    assert bs[..at + 1][..at] == bs[..at];
  }
}
