/**
  The table of linked rows shared by every predicate tree of a segment.
 */
module RowTable {
  import opened Rids

  datatype Row = Row(cont: nat, data: Pair)

  // Who a row belongs to: the free list, or the chain of one key of one tree.
  datatype Owner = FreeList | Chain(tree: nat, key: Rid)

  // The row ids of every list, in the order they were pushed: the head comes last.
  type Lists = Owner -> seq<nat>

  // A position on a list.
  datatype Place = Place(owner: Owner, pos: nat)

  const BLANK := Row(0, Pair(0, 0))

  // 2^22 rows: beyond this the table no longer doubles.
  const GROWTH_LIMIT := 4194304

  ghost function Head(ids: seq<nat>): nat {
    if ids == [] then 0 else ids[|ids| - 1]
  }

  ghost function Without<T>(s: seq<T>, k: nat): seq<T>
    requires k < |s|
  {
    s[..k] + s[k + 1..]
  }

  // Row `ids[j]` points at the row pushed before it, or at 0 if it is the oldest one.
  ghost predicate Link(rows: seq<Row>, ids: seq<nat>, j: nat) {
    j < |ids| && ids[j] < |rows| && rows[ids[j]].cont == if j == 0 then 0 else ids[j - 1]
  }

  // `o`'s list is linked from head to end, and each of its rows is placed on it, so none is listed
  // twice and none is on another list.
  ghost predicate ListOk(rows: seq<Row>, ids: Lists, place: seq<Place>, o: Owner) {
    && (forall j :: 0 <= j < |ids(o)| ==> 0 < ids(o)[j] < |place| && place[ids(o)[j]] == Place(o, j))
    && (forall j: nat :: j < |ids(o)| ==> Link(rows, ids(o), j))
  }

  // Row `i` is where `place` says.
  ghost predicate Placed(ids: Lists, place: seq<Place>, i: nat) {
    i < |place| && place[i].pos < |ids(place[i].owner)| && ids(place[i].owner)[place[i].pos] == i
  }

  // The lists are well formed, pairwise disjoint, and together hold every row but row 0.
  ghost predicate Partition(rows: seq<Row>, ids: Lists, place: seq<Place>) {
    && |place| <= |rows|
    && (forall o: Owner :: ListOk(rows, ids, place, o))
    && (forall i: nat :: 1 <= i < |place| ==> Placed(ids, place, i))
  }

  // The rows of a list, head first.
  ghost function Data(rows: seq<Row>, ids: seq<nat>): (d: seq<Pair>)
    ensures |d| == |ids|
  {
    seq(|ids|, j requires 0 <= j < |ids| =>
      var i := ids[|ids| - 1 - j]; if i < |rows| then rows[i].data else BLANK.data)
  }

  ghost function Put(ids: Lists, o: Owner, s: seq<nat>): Lists {
    x => if x == o then s else ids(x)
  }

  lemma LinksKept(rows: seq<Row>, rows': seq<Row>, ids: seq<nat>)
    requires |rows| <= |rows'|
    requires forall j: nat :: j < |ids| ==> Link(rows, ids, j)
    requires forall j :: 0 <= j < |ids| ==> ids[j] < |rows| && rows'[ids[j]] == rows[ids[j]]
    ensures forall j: nat :: j < |ids| ==> Link(rows', ids, j)
    ensures Data(rows', ids) == Data(rows, ids)
  {
    forall j: nat | j < |ids|
      ensures Link(rows', ids, j)
    {
      assert Link(rows, ids, j);
    }
  }

  // Appending row `r`, already placed at the end of `o`'s list, once its link is written.
  lemma PushList(rows: seq<Row>, ids: Lists, place: seq<Place>, o: Owner, r: nat, rows': seq<Row>)
    requires |place| <= |rows| == |rows'|
    requires 0 < r < |place| && place[r] == Place(o, |ids(o)|)
    requires ListOk(rows, ids, place, o)
    requires rows' == rows[r := rows'[r]] && rows'[r].cont == Head(ids(o))
    ensures ListOk(rows', Put(ids, o, ids(o) + [r]), place, o)
    ensures Data(rows', ids(o) + [r]) == [rows'[r].data] + Data(rows, ids(o))
  {
    hide Data;
    var s := ids(o) + [r];
    forall j: nat | j < |s|
      ensures Link(rows', s, j)
    {
      assert j < |ids(o)| ==> Link(rows, ids(o), j);
    }
    DataPushed(rows, ids(o), r, rows');
  }

  lemma DataPushed(rows: seq<Row>, ids: seq<nat>, r: nat, rows': seq<Row>)
    requires |rows'| == |rows| && r < |rows| && rows' == rows[r := rows'[r]]
    requires forall j :: 0 <= j < |ids| ==> ids[j] < |rows| && ids[j] != r
    ensures Data(rows', ids + [r]) == [rows'[r].data] + Data(rows, ids)
  {
    var d, s := Data(rows', ids + [r]), ids + [r];
    forall j | 0 <= j < |s|
      ensures d[j] == ([rows'[r].data] + Data(rows, ids))[j]
    {
      assert s[|s| - 1 - j] == if j == 0 then r else ids[|ids| - j];
    }
  }

  lemma OtherList(rows: seq<Row>, ids: Lists, place: seq<Place>, o: Owner, r: nat, rows': seq<Row>, x: Owner)
    requires |place| <= |rows| == |rows'|
    requires r < |place| && place[r].owner == o && x != o
    requires ListOk(rows, ids, place, x)
    requires rows' == rows[r := rows'[r]]
    ensures ListOk(rows', ids, place, x)
    ensures Data(rows', ids(x)) == Data(rows, ids(x))
  {
    LinksKept(rows, rows', ids(x));
  }

  ghost predicate SameList(rows: seq<Row>, ids: Lists, rows': seq<Row>, ids': Lists, x: Owner) {
    ids'(x) == ids(x) && Data(rows', ids'(x)) == Data(rows, ids(x))
  }

  // All lists but those of `o` and the free list are as before.
  ghost predicate Untouched(rows: seq<Row>, ids: Lists, rows': seq<Row>, ids': Lists, o: Owner) {
    forall x: Owner :: x != o && x != FreeList ==> SameList(rows, ids, rows', ids', x)
  }

  lemma UntouchedYet(rows: seq<Row>, ids: Lists, o: Owner)
    ensures Untouched(rows, ids, rows, ids, o)
  {
  }

  lemma UntouchedTwice(rows: seq<Row>, ids: Lists, rows1: seq<Row>, ids1: Lists, rows2: seq<Row>, ids2: Lists, o: Owner)
    requires Untouched(rows, ids, rows1, ids1, o) && Untouched(rows1, ids1, rows2, ids2, o)
    ensures Untouched(rows, ids, rows2, ids2, o)
  {
    forall x: Owner | x != o && x != FreeList
      ensures SameList(rows, ids, rows2, ids2, x)
    {
      assert SameList(rows, ids, rows1, ids1, x) && SameList(rows1, ids1, rows2, ids2, x);
    }
  }

  // Every list is well formed and every row is on one, except row `r`, which is about to be
  // pushed on `o`'s list.
  ghost predicate Pending(rows: seq<Row>, ids: Lists, place: seq<Place>, o: Owner, r: nat) {
    && |place| <= |rows|
    && 0 < r < |place| && place[r] == Place(o, |ids(o)|)
    && (forall x: Owner :: ListOk(rows, ids, place, x))
    && (forall i: nat :: 1 <= i < |place| && i != r ==> Placed(ids, place, i))
  }

  lemma PushStep(rows: seq<Row>, ids: Lists, place: seq<Place>, o: Owner, r: nat, rows': seq<Row>)
    requires Pending(rows, ids, place, o, r)
    requires |rows'| == |rows| && rows' == rows[r := rows'[r]] && rows'[r].cont == Head(ids(o))
    ensures Partition(rows', Put(ids, o, ids(o) + [r]), place)
    ensures Untouched(rows, ids, rows', Put(ids, o, ids(o) + [r]), o)
    ensures Data(rows', ids(o) + [r]) == [rows'[r].data] + Data(rows, ids(o))
  {
    var ids' := Put(ids, o, ids(o) + [r]);
    forall x: Owner
      ensures ListOk(rows', ids', place, x)
      ensures x != o ==> Data(rows', ids'(x)) == Data(rows, ids(x))
    {
      assert ListOk(rows, ids, place, x);
      if x == o {
        PushList(rows, ids, place, o, r, rows');
      } else {
        OtherList(rows, ids, place, o, r, rows', x);
      }
    }
    assert ListOk(rows, ids, place, o);
    PushList(rows, ids, place, o, r, rows');
    forall i: nat | 1 <= i < |place|
      ensures Placed(ids', place, i)
    {
      assert i != r ==> Placed(ids, place, i);
    }
  }

  // Row `r` is set aside: a list it is not on any more stays well formed.
  lemma TakenList(rows: seq<Row>, ids: Lists, place: seq<Place>, r: nat, p: Place, x: Owner, n: nat)
    requires |place| <= |rows| && r < |place|
    requires ListOk(rows, ids, place, x)
    requires n <= |ids(x)| && (place[r].owner == x ==> n <= place[r].pos)
    ensures ListOk(rows[r := BLANK], Put(ids, x, ids(x)[..n]), place[r := p], x)
    ensures Data(rows[r := BLANK], ids(x)[..n]) == Data(rows, ids(x)[..n])
  {
    var s := ids(x)[..n];
    forall j: nat | j < n
      ensures Link(rows, s, j)
    {
      assert Link(rows, ids(x), j);
    }
    LinksKept(rows, rows[r := BLANK], s);
  }

  // Taking the head row `r` of the free list, to be pushed on `o`'s list next.
  lemma TakeStep(rows: seq<Row>, ids: Lists, place: seq<Place>, o: Owner, r: nat)
    requires Partition(rows, ids, place) && o != FreeList
    requires ids(FreeList) != [] && r == Head(ids(FreeList))
    ensures 0 < r < |place|
    ensures
      var free := ids(FreeList)[..|ids(FreeList)| - 1];
      && rows[r].cont == Head(free)
      && Pending(rows[r := BLANK], Put(ids, FreeList, free), place[r := Place(o, |ids(o)|)], o, r)
      && Untouched(rows, ids, rows[r := BLANK], Put(ids, FreeList, free), FreeList)
  {
    var n := |ids(FreeList)| - 1;
    var ids' := Put(ids, FreeList, ids(FreeList)[..n]);
    assert ListOk(rows, ids, place, FreeList);
    assert Link(rows, ids(FreeList), n);
    var place' := place[r := Place(o, |ids(o)|)];
    forall x: Owner
      ensures ListOk(rows[r := BLANK], ids', place', x)
      ensures x != FreeList ==> Data(rows[r := BLANK], ids'(x)) == Data(rows, ids(x))
    {
      assert ListOk(rows, ids, place, x);
      TakenList(rows, ids, place, r, Place(o, |ids(o)|), x, if x == FreeList then n else |ids(x)|);
      assert x != FreeList ==> ids(x)[..|ids(x)|] == ids(x);
    }
    forall i: nat | 1 <= i < |place| && i != r
      ensures Placed(ids', place', i)
    {
      assert Placed(ids, place, i);
    }
  }

  // The row after the last one in use, to be pushed on `o`'s list next; the table may have grown.
  lemma ExtendStep(rows: seq<Row>, ids: Lists, place: seq<Place>, o: Owner, rows': seq<Row>)
    requires Partition(rows, ids, place)
    requires 0 < |place| < |rows'| && |rows| <= |rows'|
    requires forall i :: 0 <= i < |place| ==> rows'[i] == rows[i]
    ensures Pending(rows', ids, place + [Place(o, |ids(o)|)], o, |place|)
    ensures Untouched(rows, ids, rows', ids, FreeList)
  {
    var place' := place + [Place(o, |ids(o)|)];
    forall x: Owner
      ensures ListOk(rows', ids, place', x)
      ensures Data(rows', ids(x)) == Data(rows, ids(x))
    {
      assert ListOk(rows, ids, place, x);
      LinksKept(rows, rows', ids(x));
    }
    forall i: nat | 1 <= i < |place|
      ensures Placed(ids, place', i)
    {
      assert Placed(ids, place, i);
    }
  }

  lemma FirstRow(rows: seq<Row>, ids: Lists)
    requires Partition(rows, ids, []) && rows != []
    ensures Partition(rows, ids, [Place(FreeList, 0)])
  {
    forall o: Owner
      ensures ListOk(rows, ids, [Place(FreeList, 0)], o)
    {
      assert ListOk(rows, ids, [], o);
    }
  }

  // The places once position `k` of `o`'s list is taken out and its row put at the end of the free list.
  ghost function Displace(place: seq<Place>, o: Owner, k: nat, b: nat, free: nat): seq<Place> {
    seq(|place|, i requires 0 <= i < |place| =>
      if i == b then Place(FreeList, free)
      else if place[i].owner == o && place[i].pos > k then Place(o, place[i].pos - 1)
      else place[i])
  }

  // `rows'` relinks the list `ids` around its position `k`.
  ghost predicate Around(rows: seq<Row>, rows': seq<Row>, ids: seq<nat>, k: nat) {
    && k < |ids| && |rows| == |rows'|
    && (forall j :: 0 <= j < |ids| ==> ids[j] < |rows|)
    && (forall j :: 0 <= j < |ids| && j != k && j != k + 1 ==> rows'[ids[j]] == rows[ids[j]])
    && (k + 1 < |ids| ==> rows'[ids[k + 1]] == rows[ids[k + 1]].(cont := rows[ids[k]].cont))
  }

  lemma LinksAround(rows: seq<Row>, rows': seq<Row>, ids: seq<nat>, k: nat)
    requires Around(rows, rows', ids, k)
    requires forall j: nat :: j < |ids| ==> Link(rows, ids, j)
    ensures forall j: nat :: j < |ids| - 1 ==> Link(rows', Without(ids, k), j)
  {
    forall j: nat | j < |ids| - 1
      ensures Link(rows', Without(ids, k), j)
    {
      assert Link(rows, ids, if j < k then j else j + 1);
      assert j == k ==> Link(rows, ids, k);
    }
  }

  lemma DataAround(rows: seq<Row>, rows': seq<Row>, ids: seq<nat>, k: nat)
    requires Around(rows, rows', ids, k)
    ensures Data(rows', Without(ids, k)) == Without(Data(rows, ids), |ids| - 1 - k)
  {
    var n, out := |ids| - 1, Without(ids, k);
    forall j | 0 <= j < n
      ensures Data(rows', out)[j] == Without(Data(rows, ids), n - k)[j]
    {
      var i := n - 1 - j;
      assert out[i] == ids[if i < k then i else i + 1];
    }
  }

  lemma UnlinkedList(rows: seq<Row>, ids: Lists, place: seq<Place>, o: Owner, k: nat, b: nat, rows': seq<Row>)
    requires |place| <= |rows| == |rows'|
    requires ListOk(rows, ids, place, o)
    requires o != FreeList && k < |ids(o)| && b == ids(o)[k]
    requires Around(rows, rows', ids(o), k)
    ensures ListOk(rows', Put(ids, o, Without(ids(o), k)), Displace(place, o, k, b, |ids(FreeList)|), o)
    ensures Data(rows', Without(ids(o), k)) == Without(Data(rows, ids(o)), |ids(o)| - 1 - k)
  {
    hide Data, Around, Link;
    LinksAround(rows, rows', ids(o), k);
    DataAround(rows, rows', ids(o), k);
    PlacedWithout(ids, place, o, k, b);
  }

  // The rows that stay on the list are placed where they are now.
  lemma PlacedWithout(ids: Lists, place: seq<Place>, o: Owner, k: nat, b: nat)
    requires o != FreeList && k < |ids(o)| && b == ids(o)[k]
    requires forall j :: 0 <= j < |ids(o)| ==> 0 < ids(o)[j] < |place| && place[ids(o)[j]] == Place(o, j)
    ensures
      var s, place' := Without(ids(o), k), Displace(place, o, k, b, |ids(FreeList)|);
      forall j :: 0 <= j < |s| ==> 0 < s[j] < |place'| && place'[s[j]] == Place(o, j)
  {
    var s, place' := Without(ids(o), k), Displace(place, o, k, b, |ids(FreeList)|);
    forall j | 0 <= j < |s|
      ensures 0 < s[j] < |place'| && place'[s[j]] == Place(o, j)
    {
      assert s[j] == ids(o)[if j < k then j else j + 1];
    }
  }

  // `rows'` is `rows` with row `b`, at position `k` of `o`'s list, bypassed.
  ghost predicate Bypass(rows: seq<Row>, ids: seq<nat>, k: nat, rows': seq<Row>)
  {
    && k < |ids|
    && (forall j :: 0 <= j < |ids| ==> ids[j] < |rows|)
    && rows' == if k + 1 < |ids|
                then rows[ids[k + 1] := rows[ids[k + 1]].(cont := rows[ids[k]].cont)]
                else rows
  }

  lemma DetachedList(rows: seq<Row>, ids: Lists, place: seq<Place>, o: Owner, k: nat, b: nat, rows': seq<Row>, x: Owner)
    requires |place| <= |rows|
    requires ListOk(rows, ids, place, o) && ListOk(rows, ids, place, x)
    requires o != FreeList && Bypass(rows, ids(o), k, rows') && b == ids(o)[k] && x != o
    ensures ListOk(rows', ids, Displace(place, o, k, b, |ids(FreeList)|), x)
    ensures Data(rows', ids(x)) == Data(rows, ids(x))
  {
    LinksKept(rows, rows', ids(x));
  }

  lemma DetachedRow(ids: Lists, place: seq<Place>, o: Owner, k: nat, b: nat, i: nat)
    requires o != FreeList && k < |ids(o)| && b == ids(o)[k] && i != b
    requires Placed(ids, place, i)
    ensures Placed(Put(ids, o, Without(ids(o), k)), Displace(place, o, k, b, |ids(FreeList)|), i)
  {
  }

  lemma BypassedAround(rows: seq<Row>, ids: Lists, place: seq<Place>, o: Owner, k: nat, rows': seq<Row>)
    requires |place| <= |rows| && ListOk(rows, ids, place, o) && Bypass(rows, ids(o), k, rows')
    ensures |rows'| == |rows| && Around(rows, rows', ids(o), k)
  {
  }

  lemma DisplacedRow(ids: Lists, place: seq<Place>, o: Owner, k: nat, b: nat)
    requires b < |place|
    ensures |Displace(place, o, k, b, |ids(FreeList)|)| == |place|
    ensures Displace(place, o, k, b, |ids(FreeList)|)[b] == Place(FreeList, |ids(FreeList)|)
  {
  }

  // Row `b` at position `k` of `o`'s list is bypassed, to be pushed on the free list next.
  lemma DetachStep(rows: seq<Row>, ids: Lists, place: seq<Place>, o: Owner, k: nat, b: nat, rows': seq<Row>)
    requires Partition(rows, ids, place)
    requires o != FreeList && Bypass(rows, ids(o), k, rows') && b == ids(o)[k]
    ensures Pending(rows', Put(ids, o, Without(ids(o), k)), Displace(place, o, k, b, |ids(FreeList)|), FreeList, b)
    ensures Untouched(rows, ids, rows', Put(ids, o, Without(ids(o), k)), o)
    ensures Data(rows', Without(ids(o), k)) == Without(Data(rows, ids(o)), |ids(o)| - 1 - k)
    ensures rows[b].cont == Head(ids(o)[..k])
  {
    hide Data, Displace, Around;
    var ids', place' := Put(ids, o, Without(ids(o), k)), Displace(place, o, k, b, |ids(FreeList)|);
    assert ListOk(rows, ids, place, o) && Link(rows, ids(o), k);
    BypassedAround(rows, ids, place, o, k, rows');
    DisplacedRow(ids, place, o, k, b);
    UnlinkedList(rows, ids, place, o, k, b, rows');
    forall x: Owner
      ensures ListOk(rows', ids', place', x)
      ensures x != o ==> Data(rows', ids'(x)) == Data(rows, ids(x))
    {
      assert ListOk(rows, ids, place, x);
      if x != o {
        DetachedList(rows, ids, place, o, k, b, rows', x);
      }
    }
    forall i: nat | 1 <= i < |place| && i != b
      ensures Placed(ids', place', i)
    {
      assert Placed(ids, place, i);
      DetachedRow(ids, place, o, k, b, i);
    }
  }

  // The three patterns with a concrete component, tested the way the removal loop tests them.
  function Hit(pattern: Pair, row: Pair): (hit: bool)
    requires pattern != Pair(RID_NULL, RID_NULL)
    ensures hit == Matches(pattern, row)
  {
    if pattern.model != RID_NULL && pattern.other == RID_NULL then row.model == pattern.model
    else if pattern.model == RID_NULL && pattern.other != RID_NULL then row.other == pattern.other
    else row.model == pattern.model && row.other == pattern.other
  }

  // A full table doubles while it is small, and then grows by a fixed number of rows.
  ghost function GrowBy(size: nat): nat {
    if size > 2097152 then 4194304 else size
  }

  // The models a removal reports: those of the removed rows when the pattern leaves the model open.
  function Touched(pattern: Pair, rows: seq<Pair>): set<Rid> {
    if rows == [] then {}
    else
      var last := rows[|rows| - 1];
      Touched(pattern, rows[..|rows| - 1]) +
      if Matches(pattern, last) && pattern.model == RID_NULL then {last.model} else {}
  }

  // One more row of a chain scanned for a pattern.
  lemma Advance(pattern: Pair, all: seq<Pair>, k: nat)
    requires k < |all|
    ensures Keep(pattern, all[..k + 1]) == Keep(pattern, all[..k]) + if Matches(pattern, all[k]) then [] else [all[k]]
    ensures Touched(pattern, all[..k + 1]) ==
            Touched(pattern, all[..k]) + if Matches(pattern, all[k]) && pattern.model == RID_NULL then {all[k].model}
              else {}
  {
    assert all[..k + 1] == all[..k] + [all[k]];
    assert all[..k + 1][..k] == all[..k];
  }

  // The scan of a chain whose rows were `all`: the first `k` are dealt with, row `b` is next, and
  // `prev` is the last row kept so far.
  ghost predicate Scan(pattern: Pair, all: seq<Pair>, k: nat, b: nat, prev: nat, ids: seq<nat>, pairs: seq<Pair>) {
    && k <= |all|
    && var kept, rest := |Keep(pattern, all[..k])|, |all| - k;
    && |ids| == kept + rest
    && b == Head(ids[..rest])
    && prev == (if kept == 0 then 0 else ids[rest])
    && pairs == Keep(pattern, all[..k]) + all[k..]
  }

  lemma ScanStart(pattern: Pair, all: seq<Pair>, ids: seq<nat>)
    requires |ids| == |all|
    ensures Scan(pattern, all, 0, Head(ids), 0, ids, all)
    ensures Touched(pattern, all[..0]) == {}
  {
    assert ids[..|all|] == ids;
  }

  lemma ScanRow(pattern: Pair, all: seq<Pair>, k: nat, b: nat, prev: nat, rows: seq<Row>, ids: seq<nat>)
    requires Scan(pattern, all, k, b, prev, ids, Data(rows, ids)) && b != 0
    requires forall j :: 0 <= j < |ids| ==> ids[j] < |rows|
    ensures k < |all| <= k + |ids| && b == ids[|all| - k - 1] && rows[b].data == all[k]
    ensures prev == if |all| - k == |ids| then 0 else ids[|all| - k]
  {
    var kept := |Keep(pattern, all[..k])|;
    assert Data(rows, ids)[kept] == all[k];
  }

  lemma ScanDrop(pattern: Pair, all: seq<Pair>, k: nat, b: nat, prev: nat, ids: seq<nat>, pairs: seq<Pair>)
    requires Scan(pattern, all, k, b, prev, ids, pairs) && k < |all| && Matches(pattern, all[k])
    ensures
      var rest := |all| - k;
      && |pairs| == |ids|
      && Scan(pattern, all, k + 1, Head(ids[..rest - 1]), prev, Without(ids, rest - 1), Without(pairs, |ids| - rest))
      && Head(Without(ids, rest - 1)) == if rest == |ids| then Head(ids[..rest - 1]) else Head(ids)
  {
    Advance(pattern, all, k);
    var rest := |all| - k;
    assert Without(ids, rest - 1)[..rest - 1] == ids[..rest - 1];
    assert Without(pairs, |ids| - rest) == Keep(pattern, all[..k]) + all[k + 1..];
  }

  lemma ScanEnd(pattern: Pair, all: seq<Pair>, k: nat, prev: nat, ids: seq<nat>, pairs: seq<Pair>)
    requires Scan(pattern, all, k, 0, prev, ids, pairs)
    requires forall j :: 0 <= j < |ids| ==> ids[j] > 0
    ensures pairs == Keep(pattern, all) && k == |all|
    ensures Touched(pattern, all[..k]) == Touched(pattern, all)
  {
    assert k == |all|;
    assert all[..k] == all;
  }

  lemma ScanKeep(pattern: Pair, all: seq<Pair>, k: nat, b: nat, prev: nat, ids: seq<nat>, pairs: seq<Pair>)
    requires Scan(pattern, all, k, b, prev, ids, pairs) && k < |all| && !Matches(pattern, all[k])
    ensures Scan(pattern, all, k + 1, Head(ids[..|all| - k - 1]), b, ids, pairs)
  {
    Advance(pattern, all, k);
  }

  class PTable {
    var rows: seq<Row>      // the mapped rows; its length is the header's `size`
    var length: nat         // rows handed out so far, counting the reserved row 0
    var freeList: nat

    ghost var ids: Lists
    ghost var place: seq<Place>

    ghost predicate Valid()
      reads this
    {
      && 0 < |rows|
      && |place| == length
      && Partition(rows, ids, place)
      && freeList == Head(ids(FreeList))
    }

    // The rows of one chain, head first.
    ghost function Pairs(o: Owner): seq<Pair>
      reads this
    {
      Data(rows, ids(o))
    }

    constructor ()
      ensures Valid()
      ensures forall o: Owner :: ids(o) == []
    {
      rows := seq(1024, _ => BLANK);
      length := 0;
      freeList := 0;
      ids := _ => [];
      place := [];
    }

    // Only `o`'s chain and the free list may differ from before.
    twostate predicate OnlyChanged(o: Owner)
      reads this
    {
      Untouched(old(rows), old(ids), rows, ids, o)
    }

    // fs_ptable_new_row: a row from the free list, or the next unused one.
    method NewRow(ghost o: Owner) returns (r: nat)
      requires Valid()
      requires o != FreeList
      modifies this
      ensures |place| == length && Pending(rows, ids, place, o, r)
      ensures OnlyChanged(FreeList)
      ensures freeList == Head(ids(FreeList))
      ensures old(freeList) != 0 ==> r == old(freeList) && |rows| == |old(rows)|
      ensures old(freeList) == 0 ==> r == if old(length) == 0 then 1 else old(length)
      ensures old(freeList) == 0 ==>
        |rows| == if r < |old(rows)| then |old(rows)| else |old(rows)| + GrowBy(|old(rows)|)
    {
      if length == 0 {
        length := 1;
        FirstRow(rows, ids);
        place := [Place(FreeList, 0)];
      }
      if freeList != 0 {
        r := freeList;
        TakeStep(rows, ids, place, o, r);
        freeList := rows[r].cont;
        rows := rows[r := BLANK];
        place := place[r := Place(o, |ids(o)|)];
        ids := Put(ids, FreeList, ids(FreeList)[..|ids(FreeList)| - 1]);
      } else {
        var grown := rows;
        if length >= |rows| {
          var size := if |rows| * 2 > GROWTH_LIMIT then |rows| + GROWTH_LIMIT else |rows| * 2;
          grown := rows + seq(size - |rows|, _ => BLANK);
        }
        ExtendStep(rows, ids, place, o, grown[length := BLANK]);
        r := length;
        rows := grown[length := BLANK];
        place := place + [Place(o, |ids(o)|)];
        length := length + 1;
      }
    }

    // fs_ptable_add_pair: the new row becomes the head of the chain.
    method AddPair(b: nat, pair: Pair, ghost o: Owner) returns (r: nat)
      requires Valid()
      requires o != FreeList
      requires b == Head(ids(o))
      modifies this
      ensures Valid()
      ensures r != 0
      ensures ids(o) == old(ids(o)) + [r]
      ensures Pairs(o) == [pair] + old(Pairs(o))
      ensures OnlyChanged(o)
    {
      r := NewRow(o);
      assert SameList(old(rows), old(ids), rows, ids, o);
      ghost var rows1, ids1 := rows, ids;
      PushStep(rows, ids, place, o, r, rows[r := Row(b, pair)]);
      rows := rows[r := Row(b, pair)];
      ids := Put(ids, o, ids(o) + [r]);
      UntouchedTwice(old(rows), old(ids), rows1, ids1, rows, ids, o);
    }

    // Takes row `b`, at position `k` of `o`'s chain, out of the chain and frees it; `prev` is the
    // row that pointed at it, or 0 if it is the head.
    method Unlink(prev: nat, b: nat, ghost o: Owner, ghost k: nat) returns (next: nat)
      requires Valid()
      requires o != FreeList
      requires k < |ids(o)| && b == ids(o)[k]
      requires prev == if k + 1 == |ids(o)| then 0 else ids(o)[k + 1]
      modifies this
      ensures Valid()
      ensures ids(o) == Without(old(ids(o)), k)
      ensures Pairs(o) == Without(old(Pairs(o)), |old(ids(o))| - 1 - k)
      ensures next == Head(old(ids(o))[..k])
      ensures OnlyChanged(o)
    {
      assert ListOk(rows, ids, place, o);
      next := rows[b].cont;
      ghost var rows0 := rows;
      if prev != 0 {
        rows := rows[prev := rows[prev].(cont := next)];
      }
      DetachStep(rows0, ids, place, o, k, b, rows);
      place := Displace(place, o, k, b, |ids(FreeList)|);
      ids := Put(ids, o, Without(ids(o), k));
      ghost var rows1, ids1 := rows, ids;
      PushStep(rows, ids, place, FreeList, b, rows[b := rows[b].(cont := freeList)]);
      rows := rows[b := rows[b].(cont := freeList)];
      freeList := b;
      ids := Put(ids, FreeList, ids(FreeList) + [b]);
      assert SameList(rows1, ids1, rows, ids, o);
      UntouchedTwice(old(rows), old(ids), rows1, ids1, rows, ids, o);
    }

    lemma InRange(o: Owner)
      requires Valid()
      ensures forall j :: 0 <= j < |ids(o)| ==> 0 < ids(o)[j] < |rows|
    {
      assert ListOk(rows, ids, place, o);
    }

    // The link and the data of the row at position `j`.
    lemma Linkage(o: Owner, j: nat)
      requires Valid() && j < |ids(o)|
      ensures 0 < ids(o)[j] < |rows|
      ensures rows[ids(o)[j]].cont == Head(ids(o)[..j])
      ensures rows[ids(o)[j]].data == Pairs(o)[|ids(o)| - 1 - j]
    {
      assert ListOk(rows, ids, place, o);
      assert Link(rows, ids(o), j);
    }

    // fs_ptable_remove_chain: frees every row of the chain.
    method RemoveChain(head: nat, ghost o: Owner)
      requires Valid()
      requires o != FreeList
      requires head == Head(ids(o)) && head != 0
      modifies this
      ensures Valid()
      ensures ids(o) == []
      ensures OnlyChanged(o)
    {
      var b := head;
      while b != 0
        invariant Valid()
        invariant b == Head(ids(o))
        invariant OnlyChanged(o)
        decreases |ids(o)|
      {
        assert ListOk(rows, ids, place, o);
        assert ids(o)[..|ids(o)| - 1] == Without(ids(o), |ids(o)| - 1);
        ghost var rows1, ids1 := rows, ids;
        b := Unlink(0, b, o, |ids(o)| - 1);
        UntouchedTwice(old(rows), old(ids), rows1, ids1, rows, ids, o);
      }
      assert ListOk(rows, ids, place, o);
    }

    // The first loop of fs_ptable_remove_pair, for a pattern that matches everything.
    method RemoveEvery(head: nat, pattern: Pair, models: set<Rid>, ghost o: Owner)
        returns (removed: nat, touched: set<Rid>)
      requires Valid()
      requires o != FreeList
      requires head == Head(ids(o))
      requires pattern == Pair(RID_NULL, RID_NULL)
      modifies this
      ensures Valid()
      ensures ids(o) == [] && Keep(pattern, old(Pairs(o))) == []
      ensures removed == |old(ids(o))|
      ensures touched == models + Touched(pattern, old(Pairs(o)))
      ensures OnlyChanged(o)
    {
      hide Partition, Untouched, Data, Scan, Keep, Touched;
      ghost var all := Pairs(o);
      var b := head;
      removed, touched := 0, models;
      ScanStart(pattern, all, ids(o));
      UntouchedYet(rows, ids, o);
      while b != 0
        invariant Valid()
        invariant |Pairs(o)| == |all| - removed
        invariant Scan(pattern, all, removed, b, 0, ids(o), Pairs(o))
        invariant touched == models + Touched(pattern, all[..removed])
        invariant OnlyChanged(o)
        decreases |all| - removed
      {
        InRange(o);
        ScanRow(pattern, all, removed, b, 0, rows, ids(o));
        Advance(pattern, all, removed);
        ScanDrop(pattern, all, removed, b, 0, ids(o), Pairs(o));
        removed := removed + 1;
        touched := touched + {rows[b].data.model};
        ghost var rows1, ids1 := rows, ids;
        b := Unlink(0, b, o, |ids(o)| - 1);
        UntouchedTwice(old(rows), old(ids), rows1, ids1, rows, ids, o);
      }
      InRange(o);
      ScanEnd(pattern, all, removed, 0, ids(o), Pairs(o));
    }

    // One round of that loop, for a pattern with a concrete component: row `b` is unlinked if it
    // matches, and becomes `prev` if not.
    method VisitRow(b: nat, prev: nat, ret: nat, pattern: Pair, ghost o: Owner, ghost all: seq<Pair>, ghost k: nat)
        returns (b': nat, prev': nat, ret': nat, hit: bool, open: set<Rid>)
      requires Valid() && o != FreeList
      requires b != 0 && ret == Head(ids(o))
      requires pattern != Pair(RID_NULL, RID_NULL)
      requires Scan(pattern, all, k, b, prev, ids(o), Pairs(o))
      modifies this
      ensures Valid() && k < |all|
      ensures Scan(pattern, all, k + 1, b', prev', ids(o), Pairs(o))
      ensures ret' == Head(ids(o))
      ensures |ids(o)| == |old(ids(o))| - if hit then 1 else 0
      ensures Touched(pattern, all[..k + 1]) == Touched(pattern, all[..k]) + open
      ensures OnlyChanged(o)
    {
      hide Partition, Untouched, Data, Scan, Keep, Touched;
      UntouchedYet(rows, ids, o);
      InRange(o);
      ScanRow(pattern, all, k, b, prev, rows, ids(o));
      Linkage(o, |all| - k - 1);
      Advance(pattern, all, k);
      var r := rows[b];
      ret' := ret;
      hit := Hit(pattern, r.data);
      open := if hit && pattern.model == RID_NULL then {r.data.model} else {};
      if hit {
        ScanDrop(pattern, all, k, b, prev, ids(o), Pairs(o));
        b' := Unlink(prev, b, o, |all| - k - 1);
        prev' := prev;
        if prev == 0 {
          ret' := b';
        }
      } else {
        ScanKeep(pattern, all, k, b, prev, ids(o), Pairs(o));
        b', prev' := r.cont, b;
      }
    }

    // The second loop of fs_ptable_remove_pair.
    method RemoveMatching(head: nat, pattern: Pair, models: set<Rid>, ghost o: Owner)
        returns (ret: nat, removed: nat, touched: set<Rid>)
      requires Valid()
      requires o != FreeList
      requires head == Head(ids(o))
      requires pattern != Pair(RID_NULL, RID_NULL)
      modifies this
      ensures Valid()
      ensures ret == Head(ids(o))
      ensures Pairs(o) == Keep(pattern, old(Pairs(o)))
      ensures removed == |old(ids(o))| - |ids(o)|
      ensures touched == models + Touched(pattern, old(Pairs(o)))
      ensures OnlyChanged(o)
    {
      hide Partition, Untouched, Data, Scan, Keep, Touched;
      ghost var all := Pairs(o);
      ghost var k := 0;
      var b, prev := head, 0;
      ret, removed, touched := head, 0, models;
      ScanStart(pattern, all, ids(o));
      UntouchedYet(rows, ids, o);
      while b != 0
        invariant Valid()
        invariant k <= |all| && Scan(pattern, all, k, b, prev, ids(o), Pairs(o))
        invariant ret == Head(ids(o))
        invariant |ids(o)| == |all| - removed
        invariant touched == models + Touched(pattern, all[..k])
        invariant OnlyChanged(o)
        decreases |all| - k
      {
        ghost var rows1, ids1 := rows, ids;
        var hit, open;
        b, prev, ret, hit, open := VisitRow(b, prev, ret, pattern, o, all, k);
        UntouchedTwice(old(rows), old(ids), rows1, ids1, rows, ids, o);
        removed := if hit then removed + 1 else removed;
        touched := touched + open;
        k := k + 1;
      }
      InRange(o);
      ScanEnd(pattern, all, k, prev, ids(o), Pairs(o));
    }

    // fs_ptable_remove_pair: unlinks every row of the chain that matches the pattern. `touched` gets
    // the models of the removed rows when the pattern leaves the model open.
    method RemovePair(head: nat, pattern: Pair, models: set<Rid>, ghost o: Owner)
        returns (ret: nat, removed: nat, touched: set<Rid>)
      requires Valid()
      requires o != FreeList
      requires head == Head(ids(o))
      modifies this
      ensures Valid()
      ensures ret == Head(ids(o))
      ensures Pairs(o) == Keep(pattern, old(Pairs(o)))
      ensures removed == |old(ids(o))| - |ids(o)|
      ensures touched == models + Touched(pattern, old(Pairs(o)))
      ensures OnlyChanged(o)
    {
      if pattern.model == RID_NULL && pattern.other == RID_NULL {
        removed, touched := RemoveEvery(head, pattern, models, o);
        ret := 0;
      } else {
        ret, removed, touched := RemoveMatching(head, pattern, models, o);
      }
    }
  }
}
