/**
  Row orders, and the list file that is sorted in chunks and read back as one ascending run
  without duplicates.
 */
module QuadOrders {
  import opened Rids
  import Quicksort

  type Order = (Quad, Quad) -> int

  // A total order: only equal rows tie.
  ghost predicate TotalOrder(cmp: Order) {
    && Quicksort.TotalPreorder(cmp)
    && (forall a, b :: cmp(a, b) == 0 <==> a == b)
  }

  function Column(a: Rid, b: Rid): int {
    if a < b then -1 else if a > b then 1 else 0
  }

  // The first column that differs decides.
  function Then(first: int, second: int): int {
    if first != 0 then first else second
  }

  function ByPsmo(a: Quad, b: Quad): int {
    Then(Column(a.p, b.p), Then(Column(a.s, b.s), Then(Column(a.m, b.m), Column(a.o, b.o))))
  }

  function ByPoms(a: Quad, b: Quad): int {
    Then(Column(a.p, b.p), Then(Column(a.o, b.o), Then(Column(a.m, b.m), Column(a.s, b.s))))
  }

  function ByMspo(a: Quad, b: Quad): int {
    Then(Column(a.m, b.m), Then(Column(a.s, b.s), Then(Column(a.p, b.p), Column(a.o, b.o))))
  }

  // The lexicographic order of columns.
  ghost predicate Before(a: seq<Rid>, b: seq<Rid>)
    requires |a| == |b|
  {
    a != [] && (a[0] < b[0] || (a[0] == b[0] && Before(a[1..], b[1..])))
  }

  lemma Lexicographic(a: Rid, b: Rid, c: Rid, d: Rid, a': Rid, b': Rid, c': Rid, d': Rid)
    ensures Before([a, b, c, d], [a', b', c', d']) <==>
      Then(Column(a, a'), Then(Column(b, b'), Then(Column(c, c'), Column(d, d')))) < 0
  {
    assert [a, b, c, d][1..] == [b, c, d] && [b, c, d][1..] == [c, d] && [c, d][1..] == [d] && [d][1..] == [];
    assert [a', b', c', d'][1..] == [b', c', d'] && [b', c', d'][1..] == [c', d'] && [c', d'][1..] == [d'];
    assert Before([d], [d']) <==> d < d';
    assert Before([c, d], [c', d']) <==> c < c' || (c == c' && d < d');
  }

  lemma PsmoOrders()
    ensures TotalOrder(ByPsmo)
    ensures forall a, b :: ByPsmo(a, b) < 0 <==> Before([a.p, a.s, a.m, a.o], [b.p, b.s, b.m, b.o])
  {
    forall a: Quad, b: Quad
      ensures ByPsmo(a, b) < 0 <==> Before([a.p, a.s, a.m, a.o], [b.p, b.s, b.m, b.o])
    {
      Lexicographic(a.p, a.s, a.m, a.o, b.p, b.s, b.m, b.o);
    }
  }

  lemma PomsOrders()
    ensures TotalOrder(ByPoms)
    ensures forall a, b :: ByPoms(a, b) < 0 <==> Before([a.p, a.o, a.m, a.s], [b.p, b.o, b.m, b.s])
  {
    forall a: Quad, b: Quad
      ensures ByPoms(a, b) < 0 <==> Before([a.p, a.o, a.m, a.s], [b.p, b.o, b.m, b.s])
    {
      Lexicographic(a.p, a.o, a.m, a.s, b.p, b.o, b.m, b.s);
    }
  }

  lemma MspoOrders()
    ensures TotalOrder(ByMspo)
    ensures forall a, b :: ByMspo(a, b) < 0 <==> Before([a.m, a.s, a.p, a.o], [b.m, b.s, b.p, b.o])
  {
    forall a: Quad, b: Quad
      ensures ByMspo(a, b) < 0 <==> Before([a.m, a.s, a.p, a.o], [b.m, b.s, b.p, b.o])
    {
      Lexicographic(a.m, a.s, a.p, a.o, b.m, b.s, b.p, b.o);
    }
  }
}

module SortedLists {
  import opened Rids
  import opened QuadOrders
  import Quicksort
  import MergeSort

  const ZERO := Quad(0, 0, 0, 0)

  // Rows written through a buffer of this many.
  const LIST_BUFFER_SIZE := 256

  // Rows in a chunk: 131072 * 4096 bytes of 32-byte rows.
  const CHUNK := 16777216

  // The row orders in use: total, and with the all-zero row first.
  ghost predicate RowOrder(cmp: Order) {
    TotalOrder(cmp) && forall a :: cmp(ZERO, a) <= 0
  }

  ghost function Elems(s: seq<Quad>): set<Quad> {
    set x | x in s
  }

  // One chunk has been read up to `pos` and ends at `end`.
  ghost predicate ChunkOk(file: seq<Quad>, pos: nat, end: nat, cmp: Order) {
    pos <= end <= |file| && Quicksort.Ascending(file[pos..end], cmp)
  }

  ghost predicate ChunksOk(file: seq<Quad>, pos: seq<nat>, end: seq<nat>, cmp: Order) {
    |pos| == |end| && forall c :: 0 <= c < |pos| ==> ChunkOk(file, pos[c], end[c], cmp)
  }

  // The rows of the first `n` chunks that are still to be read.
  ghost function Rest(file: seq<Quad>, pos: seq<nat>, end: seq<nat>, n: nat): set<Quad>
    requires n <= |pos| == |end|
  {
    if n == 0 then {}
    else
      Rest(file, pos, end, n - 1) +
      if pos[n - 1] <= end[n - 1] <= |file| then Elems(file[pos[n - 1]..end[n - 1]]) else {}
  }

  // How many of them.
  ghost function Count(pos: seq<nat>, end: seq<nat>, n: nat): int
    requires n <= |pos| == |end|
  {
    if n == 0 then 0 else Count(pos, end, n - 1) + end[n - 1] - pos[n - 1]
  }

  lemma {:induction false} RestStep(file: seq<Quad>, pos: seq<nat>, end: seq<nat>, b: nat, n: nat)
    requires n <= |pos| == |end| && b < |pos| && pos[b] < end[b] <= |file|
    ensures
      var pos' := pos[b := pos[b] + 1];
      && Rest(file, pos, end, n) == Rest(file, pos', end, n) + (if b < n then {file[pos[b]]} else {})
      && Count(pos, end, n) == Count(pos', end, n) + (if b < n then 1 else 0)
  {
    if n > 0 {
      RestStep(file, pos, end, b, n - 1);
      if n - 1 == b {
        FirstOut(file, pos[b], end[b]);
      }
    }
  }

  lemma FirstOut(file: seq<Quad>, pos: nat, end: nat)
    requires pos < end <= |file|
    ensures Elems(file[pos..end]) == Elems(file[pos + 1..end]) + {file[pos]}
  {
    assert file[pos..end] == [file[pos]] + file[pos + 1..end];
  }

  // A row that comes before the first one left of every chunk comes before every row left.
  lemma {:induction false} RestAbove(file: seq<Quad>, pos: seq<nat>, end: seq<nat>, cmp: Order, n: nat, x: Quad,
                                     y: Quad)
    requires ChunksOk(file, pos, end, cmp) && n <= |pos| && Quicksort.TotalPreorder(cmp)
    requires forall c :: 0 <= c < n && pos[c] < end[c] ==> cmp(x, file[pos[c]]) <= 0
    requires y in Rest(file, pos, end, n)
    ensures cmp(x, y) <= 0
  {
    hide Quicksort.TotalPreorder, Quicksort.Ascending;
    if y in Rest(file, pos, end, n - 1) {
      RestAbove(file, pos, end, cmp, n - 1, x, y);
    } else {
      assert ChunkOk(file, pos[n - 1], end[n - 1], cmp);
      var run := file[pos[n - 1]..end[n - 1]];
      assert y in run && run[0] == file[pos[n - 1]];
      HeadLeast(run, cmp, x, y);
    }
  }

  lemma HeadLeast(run: seq<Quad>, cmp: Order, x: Quad, y: Quad)
    requires Quicksort.TotalPreorder(cmp) && Quicksort.Ascending(run, cmp) && y in run && cmp(x, run[0]) <= 0
    ensures cmp(x, y) <= 0
  {
    var i :| 0 <= i < |run| && run[i] == y;
    assert i > 0 ==> cmp(run[0], run[i]) <= 0;
  }

  lemma {:induction false} NothingLeft(file: seq<Quad>, pos: seq<nat>, end: seq<nat>, cmp: Order, n: nat)
    requires ChunksOk(file, pos, end, cmp) && n <= |pos|
    requires forall c :: 0 <= c < n ==> pos[c] >= end[c]
    ensures Rest(file, pos, end, n) == {} && Count(pos, end, n) == 0
  {
    if n > 0 {
      assert ChunkOk(file, pos[n - 1], end[n - 1], cmp);
      NothingLeft(file, pos, end, cmp, n - 1);
    }
  }

  lemma {:induction false} CountNonNegative(file: seq<Quad>, pos: seq<nat>, end: seq<nat>, cmp: Order, n: nat)
    requires ChunksOk(file, pos, end, cmp) && n <= |pos|
    ensures Count(pos, end, n) >= 0
  {
    if n > 0 {
      assert ChunkOk(file, pos[n - 1], end[n - 1], cmp);
      CountNonNegative(file, pos, end, cmp, n - 1);
    }
  }

  ghost predicate StrictlyAscending(s: seq<Quad>, cmp: Order) {
    forall i, j :: 0 <= i < j < |s| ==> cmp(s[i], s[j]) < 0
  }

  // What has been delivered, what is left, and the row that was delivered last.
  ghost predicate Merging(all: set<Quad>, rest: set<Quad>, out: seq<Quad>, last: Quad, cmp: Order) {
    && StrictlyAscending(out, cmp)
    && ZERO !in out
    && last == (if out == [] then ZERO else out[|out| - 1])
    && (forall y :: y in rest ==> cmp(last, y) <= 0)
    && all + {ZERO} == Elems(out) + rest + {ZERO}
  }

  lemma MergeStart(all: set<Quad>, cmp: Order)
    requires RowOrder(cmp)
    ensures Merging(all, all, [], ZERO, cmp)
  {
  }

  lemma MergeSkip(all: set<Quad>, rest: set<Quad>, out: seq<Quad>, last: Quad, cmp: Order, rest': set<Quad>)
    requires Merging(all, rest, out, last, cmp) && rest == rest' + {last}
    ensures Merging(all, rest', out, last, cmp)
  {
    assert out != [] ==> last in out;
    assert Elems(out) + rest + {ZERO} == Elems(out) + rest' + {ZERO};
  }

  lemma MergeTake(all: set<Quad>, rest: set<Quad>, out: seq<Quad>, last: Quad, cmp: Order, rest': set<Quad>, x: Quad)
    requires Merging(all, rest, out, last, cmp) && RowOrder(cmp) && rest == rest' + {x} && x != last
    requires forall y :: y in rest ==> cmp(x, y) <= 0
    ensures Merging(all, rest', out + [x], x, cmp)
  {
    hide Quicksort.TotalPreorder, Elems;
    NotZero(cmp, last, x);
    InsertOne(all, rest', out, x);
    forall i | 0 <= i < |out|
      ensures cmp(out[i], x) < 0
    {
      Before(out, cmp, i, x);
    }
  }

  lemma InsertOne(all: set<Quad>, rest': set<Quad>, out: seq<Quad>, x: Quad)
    requires all + {ZERO} == Elems(out) + (rest' + {x}) + {ZERO}
    ensures all + {ZERO} == Elems(out + [x]) + rest' + {ZERO}
  {
    assert Elems(out + [x]) == Elems(out) + {x};
  }

  lemma NotZero(cmp: Order, last: Quad, x: Quad)
    requires RowOrder(cmp) && cmp(last, x) <= 0 && x != last
    ensures x != ZERO
  {
    assert cmp(ZERO, last) <= 0;
    assert cmp(last, ZERO) <= 0 ==> cmp(last, ZERO) == 0;
  }

  lemma Before(out: seq<Quad>, cmp: Order, i: nat, x: Quad)
    requires TotalOrder(cmp) && StrictlyAscending(out, cmp) && i < |out|
    requires cmp(out[|out| - 1], x) <= 0 && x != out[|out| - 1]
    ensures cmp(out[i], x) < 0
  {
    var last := out[|out| - 1];
    assert cmp(last, x) < 0;
    if i < |out| - 1 {
      assert cmp(out[i], last) < 0;
      Transitive(cmp, out[i], last, x);
    }
  }

  lemma Transitive(cmp: Order, a: Quad, b: Quad, c: Quad)
    requires TotalOrder(cmp) && cmp(a, b) <= 0 && cmp(b, c) < 0
    ensures cmp(a, c) < 0
  {
    assert cmp(a, c) <= 0;
    assert a == c ==> cmp(b, c) >= 0;
  }

  lemma MergeEnd(all: set<Quad>, out: seq<Quad>, last: Quad, cmp: Order)
    requires Merging(all, {}, out, last, cmp)
    ensures StrictlyAscending(out, cmp) && Elems(out) == all - {ZERO}
  {
  }

  // ---- the chunks of a file ----

  ghost predicate ChunkSorted(file: seq<Quad>, cmp: Order, at: nat) {
    at <= |file| ==> Quicksort.Ascending(file[at..if at + CHUNK < |file| then at + CHUNK else |file|], cmp)
  }

  // Every chunk is ascending.
  ghost predicate SortedInChunks(file: seq<Quad>, cmp: Order) {
    forall c: nat {:trigger ChunkSorted(file, cmp, c * CHUNK)} :: ChunkSorted(file, cmp, c * CHUNK)
  }

  ghost predicate Boundaries(n: nat, pos: seq<nat>, end: seq<nat>) {
    && |pos| == |end| == n / CHUNK + 1
    && (forall c :: 0 <= c < |pos| ==> pos[c] == c * CHUNK)
    && (forall c :: 0 <= c < |pos| ==> end[c] == if c + 1 == |pos| then n else (c + 1) * CHUNK)
  }

  lemma AllChunksOk(file: seq<Quad>, pos: seq<nat>, end: seq<nat>, cmp: Order)
    requires SortedInChunks(file, cmp) && Boundaries(|file|, pos, end)
    ensures ChunksOk(file, pos, end, cmp)
  {
    forall c | 0 <= c < |pos|
      ensures ChunkOk(file, pos[c], end[c], cmp)
    {
      assert ChunkSorted(file, cmp, c * CHUNK);
    }
  }

  lemma {:induction false} ChunksCover(file: seq<Quad>, pos: seq<nat>, end: seq<nat>, n: nat)
    requires Boundaries(|file|, pos, end) && 0 < n <= |pos|
    ensures Rest(file, pos, end, n) == Elems(file[..end[n - 1]]) && Count(pos, end, n) == end[n - 1]
  {
    assert Rest(file, pos, end, 0) == {} && Count(pos, end, 0) == 0;
    if n == 1 {
      assert file[pos[0]..end[0]] == file[..end[0]];
    } else {
      ChunksCover(file, pos, end, n - 1);
      Joined(file, end[n - 2], end[n - 1]);
    }
  }

  lemma Joined(file: seq<Quad>, a: nat, b: nat)
    requires a <= b <= |file|
    ensures Elems(file[..b]) == Elems(file[..a]) + Elems(file[a..b])
  {
    assert file[..b] == file[..a] + file[a..b];
  }

  lemma ChunkAdvances(file: seq<Quad>, pos: seq<nat>, end: seq<nat>, cmp: Order, b: nat)
    requires ChunksOk(file, pos, end, cmp) && b < |pos| && pos[b] < end[b]
    ensures ChunksOk(file, pos[b := pos[b] + 1], end, cmp)
  {
    assert ChunkOk(file, pos[b], end[b], cmp);
    assert file[pos[b] + 1..end[b]] == file[pos[b]..end[b]][1..];
  }

  method SortRows(rows: seq<Quad>, cmp: Order) returns (run: seq<Quad>)
    requires Quicksort.TotalPreorder(cmp)
    ensures Quicksort.Ascending(run, cmp) && multiset(run) == multiset(rows) && |run| == |rows|
  {
    hide Quicksort.TotalPreorder, Quicksort.Ascending;
    var a := new Quad[|rows|](i requires 0 <= i < |rows| => rows[i]);
    assert a[..] == rows;
    MergeSort.QsortR(a, 32, cmp, true);
    run := a[..];
    assert |multiset(run)| == |run| && |multiset(rows)| == |rows|;
  }

  // Sorting one chunk keeps the rows, and the order of the chunks before it.
  lemma ChunkReplaced(was: seq<Quad>, file: seq<Quad>, c: nat, length: nat, run: seq<Quad>, cmp: Order, k: nat)
    requires c == k * CHUNK && c < |was|
    requires length == if |was| - c > CHUNK then CHUNK else |was| - c
    requires |run| == length && multiset(run) == multiset(was[c..c + length]) && Quicksort.Ascending(run, cmp)
    requires file == was[..c] + run + was[c + length..]
    requires forall i: nat {:trigger ChunkSorted(was, cmp, i * CHUNK)} :: i < k ==> ChunkSorted(was, cmp, i * CHUNK)
    ensures |file| == |was| && multiset(file) == multiset(was)
    ensures forall i: nat {:trigger ChunkSorted(file, cmp, i * CHUNK)} :: i < k + 1 ==>
      ChunkSorted(file, cmp, i * CHUNK)
  {
    assert was == was[..c] + was[c..c + length] + was[c + length..];
    forall i: nat | i < k + 1
      ensures ChunkSorted(file, cmp, i * CHUNK)
    {
      if i < k {
        assert ChunkSorted(was, cmp, i * CHUNK);
        assert file[i * CHUNK..i * CHUNK + CHUNK] == was[i * CHUNK..i * CHUNK + CHUNK];
      } else {
        assert file[c..c + length] == run;
      }
    }
  }

  lemma EmptyChunks(file: seq<Quad>, cmp: Order, k: nat)
    requires k * CHUNK >= |file|
    requires forall i: nat {:trigger ChunkSorted(file, cmp, i * CHUNK)} :: i < k ==> ChunkSorted(file, cmp, i * CHUNK)
    ensures SortedInChunks(file, cmp)
  {
    forall i: nat
      ensures ChunkSorted(file, cmp, i * CHUNK)
    {
      if i >= k {
        assert i * CHUNK >= |file|;
      }
    }
  }

  class FsList {
    var file: seq<Quad>       // the rows on disk
    var buffer: seq<Quad>     // the rows not yet written
    var order: Order
    var reading: bool         // whether the cursors below are set up
    var chunkPos: seq<nat>
    var chunkEnd: seq<nat>
    var last: Quad
    var count: nat
    ghost var delivered: seq<Quad>

    // All rows added.
    ghost function Rows(): seq<Quad>
      reads `file, `buffer
    {
      file + buffer
    }

    // The merge under way: its cursors and what it has delivered.
    ghost predicate Merge()
      reads this
    {
      && RowOrder(order)
      && ChunksOk(file, chunkPos, chunkEnd, order)
      && Merging(Elems(file), Rest(file, chunkPos, chunkEnd, |chunkPos|), delivered, last, order)
      && count + Count(chunkPos, chunkEnd, |chunkPos|) == |file|
    }

    constructor ()
      ensures Rows() == [] && !reading
    {
      file, buffer, reading, chunkPos, chunkEnd := [], [], false, [], [];
      order, last, count, delivered := ByMspo, ZERO, 0, [];
    }

    method Flush()
      modifies `file, `buffer
      ensures file == old(Rows()) && buffer == []
    {
      file := file + buffer;
      buffer := [];
    }

    // The row's position in the list is returned.
    method Add(row: Quad) returns (id: nat)
      requires |buffer| <= LIST_BUFFER_SIZE
      modifies `file, `buffer
      ensures |buffer| <= LIST_BUFFER_SIZE
      ensures Rows() == old(Rows()) + [row] && id == |old(Rows())|
    {
      if |buffer| == LIST_BUFFER_SIZE {
        Flush();
      }
      buffer := buffer + [row];
      id := |file| + |buffer| - 1;
    }

    // Sorts each chunk of the file by itself.
    method SortChunked(cmp: Order)
      requires RowOrder(cmp)
      modifies `file, `buffer, `order
      ensures order == cmp && buffer == []
      ensures SortedInChunks(file, cmp) && multiset(file) == multiset(old(Rows()))
    {
      Flush();
      order := cmp;
      var c := 0;
      ghost var k: nat := 0;
      while c < |file|
        invariant c == k * CHUNK && buffer == [] && order == cmp
        invariant multiset(file) == multiset(old(Rows()))
        invariant forall i: nat {:trigger ChunkSorted(file, cmp, i * CHUNK)} :: i < k ==>
          ChunkSorted(file, cmp, i * CHUNK)
        decreases |file| - c
      {
        var length := |file| - c;
        if length > CHUNK {
          length := CHUNK;
        }
        ghost var was := file;
        var run := SortRows(file[c..c + length], cmp);
        file := file[..c] + run + file[c + length..];
        ChunkReplaced(was, file, c, length, run, cmp, k);
        c := c + CHUNK;
        k := k + 1;
      }
      EmptyChunks(file, cmp, k);
    }

    // First call: one cursor per chunk. The last chunk may be empty.
    method SetUp()
      requires RowOrder(order) && SortedInChunks(file, order)
      modifies `reading, `chunkPos, `chunkEnd, `last, `count, `delivered
      ensures reading && Merge() && delivered == [] && count == 0
    {
      hide RowOrder, SortedInChunks, Merging, ChunksOk, Rest, Count;
      var chunks := |file| / CHUNK + 1;
      chunkPos := seq(chunks, c requires 0 <= c => c * CHUNK);
      chunkEnd := seq(chunks, c requires 0 <= c => (c + 1) * CHUNK);
      chunkEnd := chunkEnd[chunks - 1 := |file|];
      count, last, delivered, reading := 0, ZERO, [], true;
      AllChunksOk(file, chunkPos, chunkEnd, order);
      ChunksCover(file, chunkPos, chunkEnd, chunks);
      assert file[..|file|] == file;
      MergeStart(Elems(file), order);
    }

    // The chunk whose next row comes first, or -1 if all are read.
    method Best() returns (best: int)
      requires Merge()
      ensures -1 <= best < |chunkPos|
      ensures best == -1 ==> Rest(file, chunkPos, chunkEnd, |chunkPos|) == {} && count == |file|
      ensures best >= 0 ==> chunkPos[best] < chunkEnd[best] <= |file|
      ensures best >= 0 ==> forall y :: y in Rest(file, chunkPos, chunkEnd, |chunkPos|) ==>
        order(file[chunkPos[best]], y) <= 0
    {
      hide Merging, Rest, Count;
      best := -1;
      for c := 0 to |chunkPos|
        invariant -1 <= best < c
        invariant best >= 0 ==> chunkPos[best] < chunkEnd[best] <= |file|
        invariant forall d :: 0 <= d < c && chunkPos[d] < chunkEnd[d] ==>
          best >= 0 && chunkEnd[d] <= |file| && order(file[chunkPos[best]], file[chunkPos[d]]) <= 0
      {
        assert ChunkOk(file, chunkPos[c], chunkEnd[c], order);
        if chunkPos[c] < chunkEnd[c] {
          if best == -1 || order(file[chunkPos[c]], file[chunkPos[best]]) < 0 {
            best := c;
          }
        }
      }
      if best == -1 {
        NothingLeft(file, chunkPos, chunkEnd, order, |chunkPos|);
      } else {
        forall y | y in Rest(file, chunkPos, chunkEnd, |chunkPos|)
          ensures order(file[chunkPos[best]], y) <= 0
        {
          RestAbove(file, chunkPos, chunkEnd, order, |chunkPos|, file[chunkPos[best]], y);
        }
      }
    }

    // Reads one row of a chunk: delivered unless it repeats the row before.
    method Take(best: nat)
      requires Merge() && best < |chunkPos| && chunkPos[best] < chunkEnd[best] <= |file|
      requires forall y :: y in Rest(file, chunkPos, chunkEnd, |chunkPos|) ==> order(file[chunkPos[best]], y) <= 0
      modifies `chunkPos, `last, `count, `delivered
      ensures Merge() && count == old(count) + 1 && |chunkPos| == |old(chunkPos)|
      ensures
        var row := file[old(chunkPos)[best]];
        delivered == old(delivered) + if row == old(last) then [] else [row]
    {
      hide RowOrder, Merging, Rest, Count;
      var row := file[chunkPos[best]];
      RestStep(file, chunkPos, chunkEnd, best, |chunkPos|);
      ChunkAdvances(file, chunkPos, chunkEnd, order, best);
      ghost var rest := Rest(file, chunkPos, chunkEnd, |chunkPos|);
      ghost var rest' := Rest(file, chunkPos[best := chunkPos[best] + 1], chunkEnd, |chunkPos|);
      if row == last {
        MergeSkip(Elems(file), rest, delivered, last, order, rest');
      } else {
        MergeTake(Elems(file), rest, delivered, last, order, rest', row);
        last := row;
        delivered := delivered + [row];
      }
      chunkPos := chunkPos[best := chunkPos[best] + 1];
      count := count + 1;
    }

    // The next row of the merged chunks that differs from the one before it.
    method NextSortUniqed() returns (more: bool, out: Quad)
      requires RowOrder(order) && SortedInChunks(file, order)
      requires reading ==> Merge()
      modifies `reading, `chunkPos, `chunkEnd, `last, `count, `delivered
      ensures reading == more
      ensures more ==> Merge() && delivered == (if old(reading) then old(delivered) else []) + [out]
      ensures !more ==> delivered == (if old(reading) then old(delivered) else [])
      ensures !more ==> StrictlyAscending(delivered, order) && Elems(delivered) == Elems(file) - {ZERO}
      ensures !more ==> count == |file|
      ensures more ==>
        count + Count(chunkPos, chunkEnd, |chunkPos|) == |file| && (if old(reading) then old(count)
          else 0) < count <= |file|
    {
      hide RowOrder, SortedInChunks, Merging, Rest, Count, StrictlyAscending, Elems;
      more, out := false, ZERO;
      if !reading {
        SetUp();
      }
      ghost var from := count;
      var done := false;
      while !done
        invariant reading && Merge() && from <= count
        invariant done ==> delivered == (if old(reading) then old(delivered) else []) + if more then [out] else []
        invariant |chunkPos| == |chunkEnd| && (!done ==> !more)
        invariant !done ==> delivered == if old(reading) then old(delivered) else []
        invariant done && more ==> from < count
        invariant done && !more ==> Rest(file, chunkPos, chunkEnd, |chunkPos|) == {} && count == |file|
        decreases if done then 0 else 1 + |file| - count
      {
        CountNonNegative(file, chunkPos, chunkEnd, order, |chunkPos|);
        var best := Best();
        if best == -1 {
          done := true;
        } else {
          var dup := file[chunkPos[best]] == last;
          if !dup {
            out := file[chunkPos[best]];
          }
          Take(best);
          more, done := !dup, !dup;
        }
      }
      if more {
        CountNonNegative(file, chunkPos, chunkEnd, order, |chunkPos|);
      } else {
        MergeEnd(Elems(file), delivered, last, order);
        reading := false;
      }
    }
  }

  // Reads a sorted list to its end.
  method Drain(l: FsList) returns (out: seq<Quad>)
    requires RowOrder(l.order) && SortedInChunks(l.file, l.order) && !l.reading
    modifies l`reading, l`chunkPos, l`chunkEnd, l`last, l`count, l`delivered
    ensures StrictlyAscending(out, l.order) && Elems(out) == Elems(l.file) - {ZERO}
    ensures !l.reading
  {
    hide RowOrder, SortedInChunks, ChunksOk, Merging, Rest, Count, StrictlyAscending, Elems;
    out := [];
    var more, row := l.NextSortUniqed();
    while more
      invariant l.reading == more
      invariant more ==> l.Merge() && l.delivered == out + [row]
      invariant more ==> l.count <= |l.file|
      invariant !more ==> out == l.delivered && StrictlyAscending(out, l.order) && Elems(out) == Elems(l.file) - {ZERO}
      decreases if more then 1 + |l.file| - l.count else 0
    {
      out := out + [row];
      more, row := l.NextSortUniqed();
    }
  }
}
