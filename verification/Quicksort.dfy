/**
  The quicksort of the C library that the sorter falls back on: median of three, an explicit stack of
  partitions still to do, and one insertion sort at the end.
 */
module Quicksort {

  // A three-way comparison that orders its arguments, possibly with ties.
  ghost predicate TotalPreorder<T(!new)>(cmp: (T, T) -> int) {
    && (forall x, y :: cmp(x, y) < 0 <==> cmp(y, x) > 0)
    && (forall x, y, z :: cmp(x, y) <= 0 && cmp(y, z) <= 0 ==> cmp(x, z) <= 0)
  }

  // On the elements of `dom`, comparing is comparing ranks.
  ghost predicate Ranked<T(!new)>(cmp: (T, T) -> int, rank: T -> int, dom: set<T>) {
    forall x, y :: x in dom && y in dom ==> (cmp(x, y) < 0 <==> rank(x) < rank(y))
  }

  ghost predicate Within<T>(s: seq<T>, dom: set<T>) {
    forall i :: 0 <= i < |s| ==> s[i] in dom
  }

  ghost predicate Sorted<T(!new)>(s: seq<T>, rank: T -> int) {
    forall i, j :: 0 <= i < j < |s| ==> rank(s[i]) <= rank(s[j])
  }

  // `s'` is `s` rearranged between `lo` and `hi`, inclusive.
  ghost predicate Rearranged<T>(s: seq<T>, s': seq<T>, lo: int, hi: int) {
    && |s'| == |s|
    && multiset(s') == multiset(s)
    && (forall i :: 0 <= i < |s| && (i < lo || hi < i) ==> s'[i] == s[i])
  }

  lemma SwapKeeps<T>(s: seq<T>, i: nat, j: nat)
    requires i < |s| && j < |s|
    ensures multiset(s[i := s[j]][j := s[i]]) == multiset(s)
  {
  }

  lemma RearrangedYet<T>(s: seq<T>, lo: int, hi: int)
    ensures Rearranged(s, s, lo, hi)
  {
  }

  lemma RearrangedSwap<T>(s: seq<T>, s': seq<T>, lo: int, hi: int, i: nat, j: nat)
    requires Rearranged(s, s', lo, hi)
    requires lo <= i <= hi && lo <= j <= hi && i < |s| && j < |s|
    ensures Rearranged(s, s'[i := s'[j]][j := s'[i]], lo, hi)
  {
    SwapKeeps(s', i, j);
  }

  lemma RearrangedLength<T>(s: seq<T>, s': seq<T>, lo: int, hi: int)
    requires Rearranged(s, s', lo, hi)
    ensures |s'| == |s| && multiset(s') == multiset(s)
  {
  }

  lemma Compare<T(!new)>(s: seq<T>, cmp: (T, T) -> int, rank: T -> int, dom: set<T>, i: nat, j: nat)
    requires Ranked(cmp, rank, dom) && Within(s, dom)
    requires i < |s| && j < |s|
    ensures cmp(s[i], s[j]) < 0 <==> rank(s[i]) < rank(s[j])
  {
    assert s[i] in dom && s[j] in dom;
  }

  method Swap<T>(a: array<T>, i: nat, j: nat)
    requires i < a.Length && j < a.Length
    modifies a
    ensures a[..] == old(a[..])[i := old(a[j])][j := old(a[i])]
    ensures multiset(a[..]) == multiset(old(a[..]))
  {
    SwapKeeps(a[..], i, j);
    a[i], a[j] := a[j], a[i];
    assert a[..] == old(a[..])[i := old(a[j])][j := old(a[i])];
  }

  // Puts the middle of three elements in the middle.
  method MedianOfThree<T(!new)>(a: array<T>, lo: nat, mid: nat, hi: nat, cmp: (T, T) -> int, ghost rank: T -> int,
                         ghost dom: set<T>)
    requires lo < mid < hi < a.Length
    requires Ranked(cmp, rank, dom) && Within(a[..], dom)
    modifies a
    ensures Rearranged(old(a[..]), a[..], lo, hi) && Within(a[..], dom)
    ensures rank(a[lo]) <= rank(a[mid]) <= rank(a[hi])
  {
    hide Rearranged, Ranked, Within;
    RearrangedYet(a[..], lo, hi);
    CompareSwap(a, mid, lo, cmp, old(a[..]), lo, hi, rank, dom);
    Compare(a[..], cmp, rank, dom, hi, mid);
    if cmp(a[hi], a[mid]) < 0 {
      CompareSwap(a, hi, mid, cmp, old(a[..]), lo, hi, rank, dom);
      CompareSwap(a, mid, lo, cmp, old(a[..]), lo, hi, rank, dom);
    }
  }

  // Swaps two elements if the one at `i` is the smaller.
  method CompareSwap<T(!new)>(a: array<T>, i: nat, j: nat, cmp: (T, T) -> int,
                              ghost s: seq<T>, ghost lo: nat, ghost hi: nat, ghost rank: T -> int, ghost dom: set<T>)
    requires Ranked(cmp, rank, dom) && Within(a[..], dom)
    requires Rearranged(s, a[..], lo, hi) && |s| == a.Length
    requires lo <= i <= hi < a.Length && lo <= j <= hi
    modifies a
    ensures Rearranged(s, a[..], lo, hi) && Within(a[..], dom)
    ensures a[..] ==
      if rank(old(a[i])) < rank(old(a[j])) then old(a[..])[i := old(a[j])][j := old(a[i])] else old(a[..])
  {
    hide Rearranged, Ranked, Within;
    Compare(a[..], cmp, rank, dom, i, j);
    if cmp(a[i], a[j]) < 0 {
      RearrangedSwap(s, a[..], lo, hi, i, j);
      Swap(a, i, j);
      WithinKept(old(a[..]), a[..], dom);
    }
  }

  // Elements from `lo` up to `left` are at most `p` in rank, those after `right` up to `hi` at least `p`.
  ghost predicate Walls<T(!new)>(s: seq<T>, rank: T -> int, lo: int, left: int, right: int, hi: int, p: int) {
    && 0 <= lo < left <= hi < |s| && lo <= right < hi
    && (forall i :: lo <= i < left ==> rank(s[i]) <= p)
    && (forall i :: right < i <= hi ==> rank(s[i]) >= p)
  }

  // The two unguarded scans. Each is stopped by the other's wall.
  method Scan<T(!new)>(a: array<T>, left0: nat, right0: nat, mid: nat, cmp: (T, T) -> int,
                       ghost lo: nat, ghost hi: nat, ghost rank: T -> int, ghost dom: set<T>)
      returns (left: nat, right: nat)
    requires mid < a.Length && Ranked(cmp, rank, dom) && Within(a[..], dom)
    requires Walls(a[..], rank, lo, left0, right0, hi, rank(a[mid])) && left0 <= right0
    ensures Walls(a[..], rank, lo, left, right, hi, rank(a[mid]))
    ensures left0 <= left <= right + 1 && right <= right0
    ensures lo < left <= hi && lo <= right < hi
    ensures rank(a[left]) >= rank(a[mid]) >= rank(a[right])
  {
    left, right := left0, right0;
    ghost var p := rank(a[mid]);
    while cmp(a[left], a[mid]) < 0
      invariant left0 <= left <= right + 1
      invariant forall i :: lo <= i < left ==> rank(a[i]) <= p
      decreases hi - left
    {
      assert a[..][left] in dom && a[..][mid] in dom;
      left := left + 1;
    }
    assert a[..][left] in dom && a[..][mid] in dom;
    while cmp(a[mid], a[right]) < 0
      invariant left <= right + 1 && right <= right0
      invariant forall i :: right < i <= hi ==> rank(a[i]) >= p
      decreases right
    {
      assert a[..][right] in dom && a[..][mid] in dom;
      right := right - 1;
    }
    assert a[..][right] in dom;
  }

  lemma WithinKept<T>(s: seq<T>, s': seq<T>, dom: set<T>)
    requires Within(s, dom) && multiset(s') == multiset(s)
    ensures Within(s', dom)
  {
    forall i | 0 <= i < |s'|
      ensures s'[i] in dom
    {
      assert s'[i] in multiset(s');
      assert s'[i] in multiset(s);
    }
  }

  // Collapses the walls around the median: afterwards no element of the left part exceeds the pivot
  // and none of the right part is below it; what lies between the parts equals it.
  method Partition<T(!new)>(a: array<T>, lo: nat, hi: nat, cmp: (T, T) -> int, ghost rank: T -> int, ghost dom: set<T>)
      returns (left: nat, right: nat, ghost p: int)
    requires lo + 2 <= hi < a.Length
    requires Ranked(cmp, rank, dom) && Within(a[..], dom)
    modifies a
    ensures Rearranged(old(a[..]), a[..], lo, hi)
    ensures lo <= right < left <= hi
    ensures Walls(a[..], rank, lo, left, right, hi, p)
  {
    hide Ranked, Within;
    var mid := lo + (hi - lo) / 2;
    MedianOfThree(a, lo, mid, hi, cmp, rank, dom);
    p := rank(a[mid]);
    left, right := lo + 1, hi - 1;
    FirstWalls(a[..], rank, lo, hi, p);
    var met := false;
    while left <= right && !met
      invariant Collapsing(old(a[..]), a[..], rank, lo, left, right, mid, hi, p)
      invariant met ==> right < left
      decreases if left <= right then right - left + 1 else 0
    {
      WithinKept(old(a[..]), a[..], dom);
      left, right, mid, met := Collapse(a, left, right, mid, cmp, old(a[..]), lo, hi, rank, dom, p);
    }
  }

  // The state of the wall-collapsing loop: `mid` follows the pivot.
  ghost predicate Collapsing<T(!new)>(s0: seq<T>, s: seq<T>, rank: T -> int,
                                      lo: int, left: int, right: int, mid: int, hi: int, p: int) {
    && Rearranged(s0, s, lo, hi)
    && Walls(s, rank, lo, left, right, hi, p)
    && lo <= mid <= hi && rank(s[mid]) == p
  }

  // One round: scan from both sides, then swap what stopped the scans or stop where they met.
  method Collapse<T(!new)>(a: array<T>, left0: nat, right0: nat, mid0: nat, cmp: (T, T) -> int,
                           ghost s0: seq<T>, ghost lo: nat, ghost hi: nat, ghost rank: T -> int, ghost dom: set<T>,
                             ghost p: int)
      returns (left: nat, right: nat, mid: nat, met: bool)
    requires Ranked(cmp, rank, dom) && Within(a[..], dom)
    requires Collapsing(s0, a[..], rank, lo, left0, right0, mid0, hi, p) && left0 <= right0
    modifies a
    ensures Collapsing(s0, a[..], rank, lo, left, right, mid, hi, p)
    ensures left - right > left0 - right0 || right < left
    ensures met ==> right < left
  {
    hide Rearranged, Ranked, Within, Walls;
    mid, met := mid0, false;
    WallBounds(a[..], rank, lo, left0, right0, hi, p);
    left, right := Scan(a, left0, right0, mid, cmp, lo, hi, rank, dom);
    if left < right {
      RearrangedLength(s0, a[..], lo, hi);
      RearrangedSwap(s0, a[..], lo, hi, left, right);
      mid := SwapStep(a, left, right, mid, lo, hi, rank, p);
      left, right := left + 1, right - 1;
    } else if left == right {
      Meeting(a[..], rank, lo, left, hi, p);
      left, right := left + 1, right - 1;
      met := true;
    }
  }

  lemma WallBounds<T(!new)>(s: seq<T>, rank: T -> int, lo: int, left: int, right: int, hi: int, p: int)
    requires Walls(s, rank, lo, left, right, hi, p)
    ensures 0 <= lo < left <= hi < |s| && lo <= right < hi
  {
  }

  // Swaps the elements that stopped the scans, which moves both walls by one, and follows the pivot.
  method SwapStep<T(!new)>(a: array<T>, left: nat, right: nat, mid0: nat,
                           ghost lo: nat, ghost hi: nat, ghost rank: T -> int, ghost p: int) returns (mid: nat)
    requires left < right < a.Length && lo <= mid0 <= hi && mid0 < a.Length
    requires Walls(a[..], rank, lo, left, right, hi, p)
    requires rank(a[left]) >= p >= rank(a[right]) && rank(a[mid0]) == p
    modifies a
    ensures a[..] == old(a[..])[left := old(a[right])][right := old(a[left])]
    ensures Walls(a[..], rank, lo, left + 1, right - 1, hi, p)
    ensures lo <= mid <= hi && mid < a.Length && rank(a[mid]) == p
  {
    mid := mid0;
    Swap(a, left, right);
    if mid == left {
      mid := right;
    } else if mid == right {
      mid := left;
    }
  }

  lemma FirstWalls<T(!new)>(s: seq<T>, rank: T -> int, lo: nat, hi: nat, p: int)
    requires lo + 2 <= hi < |s| && rank(s[lo]) <= p <= rank(s[hi])
    ensures Walls(s, rank, lo, lo + 1, hi - 1, hi, p)
  {
  }

  lemma Meeting<T(!new)>(s: seq<T>, rank: T -> int, lo: int, m: int, hi: int, p: int)
    requires Walls(s, rank, lo, m, m, hi, p) && rank(s[m]) == p
    ensures Walls(s, rank, lo, m + 1, m - 1, hi, p)
  {
  }

  const MAX_THRESH := 4

  ghost function Pow2(k: nat): nat {
    if k == 0 then 1 else 2 * Pow2(k - 1)
  }

  // How often a number can be halved: the number of entries the stack is given.
  function Log2(n: nat): (k: nat)
    requires n > 0
    ensures Pow2(k) <= n < Pow2(k + 1)
  {
    if n == 1 then 0 else Log2(n / 2) + 1
  }

  lemma {:induction false} Pow2Grows(j: nat, k: nat)
    requires j <= k
    ensures Pow2(j) <= Pow2(k)
  {
    if j < k {
      Pow2Grows(j, k - 1);
    }
  }

  // A stack as high as this has room for what fits below `n`.
  lemma Room(h: nat, n: nat)
    requires n > 0 && Pow2(h) <= n
    ensures h <= Log2(n)
  {
    if h > Log2(n) {
      Pow2Grows(Log2(n) + 1, h);
    }
  }

  // The source's stack has an entry for each bit of a size, which is more than enough.
  lemma StackFits(n: nat)
    requires 0 < n < 0x1_0000_0000_0000_0000
    ensures Log2(n) < 64
  {
    hide Pow2, Log2;
    SmallPowers();
    Pow2Sum(8, 8);
    Pow2Sum(16, 16);
    Pow2Sum(32, 32);
    if Log2(n) >= 64 {
      Pow2Grows(64, Log2(n));
    }
  }

  lemma SmallPowers()
    ensures Pow2(8) == 256
  {
    assert Pow2(4) == 16;
  }

  lemma {:induction false} Pow2Sum(j: nat, k: nat)
    ensures Pow2(j + k) == Pow2(j) * Pow2(k)
  {
    if k > 0 {
      Pow2Sum(j, k - 1);
      assert Pow2(j + k) == 2 * Pow2(j + (k - 1));
    }
  }

  // A partition still to do, from `lo` to `hi` inclusive.
  datatype Part = Part(lo: nat, hi: nat)

  // The entry at height `k` of the stack (the bottom one is a sentinel) is at most n / 2^(k-1) long,
  // and the current partition at most n / 2^(height - 1).
  ghost predicate Shrinking(stack: seq<Part>, lo: nat, hi: nat, n: nat) {
    && |stack| > 0
    && lo + MAX_THRESH <= hi < n
    && (hi - lo + 1) * Pow2(|stack| - 1) <= n
    && (forall k :: 1 <= k < |stack| ==> PartOk(stack[k], k, n))
  }

  ghost predicate PartOk(e: Part, k: nat, n: nat) {
    k > 0 && e.lo + MAX_THRESH < e.hi < n && (e.hi - e.lo + 1) * Pow2(k - 1) <= n
  }

  // The stack never holds more entries, sentinel included, than log2 of the number of elements.
  lemma StackBound(stack: seq<Part>, lo: nat, hi: nat, n: nat)
    requires Shrinking(stack, lo, hi, n)
    ensures Pow2(|stack|) <= n
  {
    var k := Pow2(|stack| - 1);
    Times(2, hi - lo + 1, k);
  }

  // Pushing the larger part and going on with the smaller one.
  lemma PushLarger(stack: seq<Part>, lo: nat, hi: nat, n: nat, big: Part, small: Part)
    requires Shrinking(stack, lo, hi, n)
    requires big.lo + MAX_THRESH < big.hi && small.lo + MAX_THRESH < small.hi
    requires lo <= big.lo && big.hi <= hi && lo <= small.lo && small.hi <= hi
    requires small.hi - small.lo <= big.hi - big.lo
    requires big.hi < small.lo || small.hi < big.lo
    ensures Shrinking(stack + [big], small.lo, small.hi, n)
  {
    var c, b, m, k := hi - lo + 1, big.hi - big.lo + 1, small.hi - small.lo + 1, Pow2(|stack| - 1);
    Times(b, c, k);
    Times(2 * m, c, k);
    assert m * Pow2(|stack|) == (2 * m) * k;
    assert PartOk(big, |stack|, n);
    assert forall j :: 1 <= j < |stack| ==> (stack + [big])[j] == stack[j];
  }

  lemma Times(x: nat, y: nat, k: nat)
    requires x <= y
    ensures x * k <= y * k
  {
  }

  lemma Narrow(stack: seq<Part>, lo: nat, hi: nat, n: nat, lo': nat, hi': nat)
    requires Shrinking(stack, lo, hi, n)
    requires lo <= lo' && hi' <= hi && lo' + MAX_THRESH <= hi'
    ensures Shrinking(stack, lo', hi', n)
  {
    var k := Pow2(|stack| - 1);
    Times(hi' - lo' + 1, hi - lo + 1, k);
  }

  lemma PopNext(stack: seq<Part>, lo: nat, hi: nat, n: nat)
    requires Shrinking(stack, lo, hi, n) && |stack| > 1
    ensures Shrinking(stack[..|stack| - 1], stack[|stack| - 1].lo, stack[|stack| - 1].hi, n)
  {
    assert PartOk(stack[|stack| - 1], |stack| - 1, n);
  }

  lemma SameMiddle<T>(a: seq<T>, m: seq<T>, m': seq<T>, b: seq<T>)
    requires multiset(a + m + b) == multiset(a + m' + b)
    ensures multiset(m) == multiset(m')
  {
    forall x: T
      ensures multiset(m)[x] == multiset(m')[x]
    {
      assert multiset(a + m + b)[x] == multiset(a)[x] + multiset(m)[x] + multiset(b)[x];
      assert multiset(a + m' + b)[x] == multiset(a)[x] + multiset(m')[x] + multiset(b)[x];
    }
  }

  // What is between `lo` and `hi` after rearranging was there before.
  lemma FromInside<T>(s: seq<T>, s': seq<T>, lo: nat, hi: nat, j: nat) returns (x: nat)
    requires Rearranged(s, s', lo, hi) && lo <= j <= hi < |s|
    ensures lo <= x <= hi && s[x] == s'[j]
  {
    var a, m, m', b := s[..lo], s[lo..hi + 1], s'[lo..hi + 1], s[hi + 1..];
    assert s == a + m + b;
    assert s' == a + m' + b;
    SameMiddle(a, m, m', b);
    assert m'[j - lo] in multiset(m');
    assert m'[j - lo] in multiset(m);
    var y :| 0 <= y < |m| && m[y] == m'[j - lo];
    x := lo + y;
  }

  // Nothing after position `e` ranks below anything up to it.
  ghost predicate Front<T(!new)>(s: seq<T>, rank: T -> int, e: int) {
    forall i, j :: 0 <= i <= e < j < |s| ==> rank(s[i]) <= rank(s[j])
  }

  lemma FrontInside<T(!new)>(s: seq<T>, s': seq<T>, rank: T -> int, e: nat, lo: nat, hi: nat)
    requires Front(s, rank, e) && Rearranged(s, s', lo, hi) && hi < |s|
    requires lo > e
    ensures Front(s', rank, e)
  {
    forall i, j | 0 <= i <= e < j < |s'|
      ensures rank(s'[i]) <= rank(s'[j])
    {
      if lo <= j <= hi {
        var x := FromInside(s, s', lo, hi, j);
      }
    }
  }

  lemma FrontSplit<T(!new)>(s: seq<T>, s': seq<T>, rank: T -> int, e: nat, left: nat, right: nat, p: int)
    requires Front(s, rank, e) && Rearranged(s, s', 0, e) && e < |s|
    requires Walls(s', rank, 0, left, right, e, p) && right < left
    ensures Front(s', rank, right)
  {
    forall i, j | 0 <= i <= right < j < |s'|
      ensures rank(s'[i]) <= rank(s'[j])
    {
      if j > e {
        var x := FromInside(s, s', 0, e, i);
      }
    }
  }

  // The leftmost partition ends at `e`: it is small enough, or is being worked on, or waits at height
  // `z` of the stack. All other partitions lie beyond it.
  ghost predicate Leftmost(stack: seq<Part>, lo: nat, hi: nat, e: nat, z: nat) {
    && z < |stack|
    && (forall k :: 1 <= k < |stack| && k != z ==> stack[k].lo > e)
    && (if z != 0 then stack[z] == Part(0, e) && lo > e
        else (lo == 0 && hi == e) || (lo > e && e <= MAX_THRESH))
  }

  datatype Work = Work(stack: seq<Part>, lo: nat, hi: nat)

  // What to do next: small parts are left for the insertion sort; of two large parts the larger one is
  // pushed and the smaller one done first.
  ghost function Pick(w: Work, left: nat, right: nat): Work
    requires w.stack != [] && w.lo <= right < left <= w.hi
  {
    if right - w.lo <= MAX_THRESH then
      if w.hi - left <= MAX_THRESH then
        var top := w.stack[|w.stack| - 1];
        Work(w.stack[..|w.stack| - 1], top.lo, top.hi)
      else w.(lo := left)
    else if w.hi - left <= MAX_THRESH then w.(hi := right)
    else if right - w.lo > w.hi - left then Work(w.stack + [Part(w.lo, right)], left, w.hi)
    else Work(w.stack + [Part(left, w.hi)], w.lo, right)
  }

  // The total length of the waiting partitions.
  ghost function Weight(stack: seq<Part>): int {
    if |stack| <= 1 then 0
    else
      var top := stack[|stack| - 1];
      Weight(stack[..|stack| - 1]) + top.hi - top.lo
  }

  lemma PickShrinks(w: Work, left: nat, right: nat, n: nat)
    requires Shrinking(w.stack, w.lo, w.hi, n) && w.lo <= right < left <= w.hi
    ensures
      var v := Pick(w, left, right);
      && (v.stack != [] ==> Shrinking(v.stack, v.lo, v.hi, n))
      && (v.stack != [] ==> Weight(v.stack) + v.hi - v.lo < Weight(w.stack) + w.hi - w.lo)
  {
    if right - w.lo <= MAX_THRESH {
      if w.hi - left <= MAX_THRESH {
        if |w.stack| > 1 {
          PopNext(w.stack, w.lo, w.hi, n);
        }
      } else {
        Narrow(w.stack, w.lo, w.hi, n, left, w.hi);
      }
    } else if w.hi - left <= MAX_THRESH {
      Narrow(w.stack, w.lo, w.hi, n, w.lo, right);
    } else if right - w.lo > w.hi - left {
      PushLarger(w.stack, w.lo, w.hi, n, Part(w.lo, right), Part(left, w.hi));
      assert (w.stack + [Part(w.lo, right)])[..|w.stack|] == w.stack;
    } else {
      PushLarger(w.stack, w.lo, w.hi, n, Part(left, w.hi), Part(w.lo, right));
      assert (w.stack + [Part(left, w.hi)])[..|w.stack|] == w.stack;
    }
  }

  ghost predicate NonNegative(stack: seq<Part>) {
    forall k :: 1 <= k < |stack| ==> stack[k].lo <= stack[k].hi
  }

  lemma {:induction false} WeightNonNegative(stack: seq<Part>)
    requires NonNegative(stack)
    ensures Weight(stack) >= 0
  {
    if |stack| > 1 {
      WeightNonNegative(stack[..|stack| - 1]);
    }
  }

  // Where the leftmost partition goes: it ends at `e'` and waits at height `z'`.
  lemma PickLeftmost(w: Work, left: nat, right: nat, n: nat, e: nat, z: nat) returns (z': nat)
    requires Shrinking(w.stack, w.lo, w.hi, n) && w.lo <= right < left <= w.hi
    requires Leftmost(w.stack, w.lo, w.hi, e, z)
    ensures
      var v, e' := Pick(w, left, right), if w.lo == 0 then right else e;
      if v.stack != [] then Leftmost(v.stack, v.lo, v.hi, e', z') else e' <= MAX_THRESH
  {
    var v, e' := Pick(w, left, right), if w.lo == 0 then right else e;
    if |v.stack| < |w.stack| {
      z' := if z == |w.stack| - 1 then 0 else z;
    } else if |v.stack| > |w.stack| && w.lo == 0 && v.lo != 0 {
      z' := |w.stack|;
    } else {
      z' := z;
    }
  }

  // The same on the stack as an array, of which `top` entries are in use.
  method PickNext(stack: array<Part>, top0: nat, lo0: nat, hi0: nat, left: nat, right: nat, ghost w: Work)
      returns (top: nat, lo: nat, hi: nat)
    requires 0 < top0 <= stack.Length && w == Work(stack[..top0], lo0, hi0) && lo0 <= right < left <= hi0
    requires |Pick(w, left, right).stack| <= stack.Length
    modifies stack
    ensures top <= stack.Length && Pick(w, left, right) == Work(stack[..top], lo, hi)
  {
    top, lo, hi := top0, lo0, hi0;
    if right - lo <= MAX_THRESH {
      if hi - left <= MAX_THRESH {
        top := top - 1;
        lo, hi := stack[top].lo, stack[top].hi;
      } else {
        lo := left;
      }
    } else if hi - left <= MAX_THRESH {
      hi := right;
    } else if right - lo > hi - left {
      stack[top] := Part(lo, right);
      top, lo := top + 1, left;
    } else {
      stack[top] := Part(left, hi);
      top, hi := top + 1, right;
    }
  }

  // Partitions one part. If it is the leftmost one the smallest elements are now in its left half.
  method SplitPart<T(!new)>(a: array<T>, lo: nat, hi: nat, cmp: (T, T) -> int, ghost rank: T -> int,
                            ghost dom: set<T>, ghost e: nat)
      returns (left: nat, right: nat)
    requires lo + MAX_THRESH <= hi < a.Length && Ranked(cmp, rank, dom) && Within(a[..], dom)
    requires e < a.Length && Front(a[..], rank, e) && if lo == 0 then hi == e else lo > e
    modifies a
    ensures multiset(a[..]) == multiset(old(a[..])) && lo <= right < left <= hi
    ensures Front(a[..], rank, if lo == 0 then right else e)
  {
    hide Ranked, Within, Front, Rearranged, Walls;
    ghost var s := a[..];
    ghost var p;
    left, right, p := Partition(a, lo, hi, cmp, rank, dom);
    RearrangedLength(s, a[..], lo, hi);
    if lo == 0 {
      FrontSplit(s, a[..], rank, e, left, right, p);
    } else {
      FrontInside(s, a[..], rank, e, lo, hi);
    }
  }

  // The partitioning loop, on a stack of no more entries than the logarithm of the number of elements.
  // Afterwards the smallest elements are among the first `e + 1`.
  method QuickPhase<T(!new)>(a: array<T>, cmp: (T, T) -> int, ghost rank: T -> int, ghost dom: set<T>)
      returns (ghost e: nat)
    requires a.Length > MAX_THRESH && Ranked(cmp, rank, dom) && Within(a[..], dom)
    modifies a
    ensures multiset(a[..]) == multiset(old(a[..]))
    ensures e <= MAX_THRESH && Front(a[..], rank, e)
  {
    hide Ranked, Within, Front, Rearranged, Walls, Shrinking, Leftmost, Pow2, Weight, Pick, Log2;
    Start(a[..], rank);
    Room(1, a.Length);
    var stack := new Part[Log2(a.Length)](_ => Part(0, 0));
    var top: nat, lo: nat, hi: nat := 1, 0, a.Length - 1;
    ghost var w := Work([Part(0, 0)], 0, a.Length - 1);
    e := a.Length - 1;
    ghost var z := 0;
    while top != 0
      invariant top <= stack.Length == Log2(a.Length) && fresh(stack) && w == Work(stack[..top], lo, hi)
      invariant multiset(a[..]) == multiset(old(a[..]))
      invariant e < a.Length && Front(a[..], rank, e)
      invariant top != 0 ==> Shrinking(w.stack, lo, hi, a.Length) && Leftmost(w.stack, lo, hi, e, z)
      invariant top == 0 ==> e <= MAX_THRESH
      decreases Remaining(w)
    {
      WithinKept(old(a[..]), a[..], dom);
      InBounds(w, a.Length, e, z);
      var left, right := SplitPart(a, lo, hi, cmp, rank, dom, e);
      PickShrinks(w, left, right, a.Length);
      PickFits(w, left, right, a.Length);
      z := PickLeftmost(w, left, right, a.Length, e, z);
      top, lo, hi := PickNext(stack, top, lo, hi, left, right, w);
      w, e := Pick(w, left, right), if w.lo == 0 then right else e;
    }
  }

  // There is room for the next entry.
  lemma PickFits(w: Work, left: nat, right: nat, n: nat)
    requires n > 0 && w.stack != [] && w.lo <= right < left <= w.hi
    requires
      var v := Pick(w, left, right);
      v.stack != [] ==> Shrinking(v.stack, v.lo, v.hi, n)
    ensures |Pick(w, left, right).stack| <= Log2(n)
  {
    hide Pow2, Log2;
    var v := Pick(w, left, right);
    if v.stack != [] {
      StackBound(v.stack, v.lo, v.hi, n);
      Room(|v.stack|, n);
    }
  }

  ghost function Remaining(w: Work): int {
    if w.stack == [] then 0 else 1 + Weight(w.stack) + w.hi - w.lo
  }

  lemma Start<T(!new)>(s: seq<T>, rank: T -> int)
    requires |s| > MAX_THRESH
    ensures Front(s, rank, |s| - 1)
    ensures Shrinking([Part(0, 0)], 0, |s| - 1, |s|)
    ensures Leftmost([Part(0, 0)], 0, |s| - 1, |s| - 1, 0)
    ensures |s| > 0 && Pow2(1) <= |s|
  {
    assert Pow2(0) == 1 && Pow2(1) == 2;
  }

  lemma InBounds(w: Work, n: nat, e: nat, z: nat)
    requires w.stack != [] && Shrinking(w.stack, w.lo, w.hi, n) && Leftmost(w.stack, w.lo, w.hi, e, z)
    ensures w.lo + MAX_THRESH <= w.hi < n
    ensures if w.lo == 0 then w.hi == e else w.lo > e
    ensures Remaining(w) > 0
  {
    assert NonNegative(w.stack) by {
      assert forall k :: 1 <= k < |w.stack| ==> PartOk(w.stack[k], k, n);
    }
    WeightNonNegative(w.stack);
  }

  ghost predicate SmallestFirst<T(!new)>(s: seq<T>, rank: T -> int) {
    forall i :: 0 <= i < |s| ==> rank(s[0]) <= rank(s[i])
  }

  // Brings the smallest of the first few elements, which is the smallest of all, to the front.
  method FrontMinimum<T(!new)>(a: array<T>, cmp: (T, T) -> int, ghost rank: T -> int, ghost dom: set<T>, ghost e: nat)
    requires 0 < a.Length && Ranked(cmp, rank, dom) && Within(a[..], dom)
    requires e < a.Length && e <= MAX_THRESH && Front(a[..], rank, e)
    modifies a
    ensures multiset(a[..]) == multiset(old(a[..]))
    ensures SmallestFirst(a[..], rank)
  {
    hide Ranked, Within, Front;
    var least := 0;
    var thresh := if a.Length - 1 < MAX_THRESH then a.Length - 1 else MAX_THRESH;
    for run := 1 to thresh + 1
      invariant least < run && a[..] == old(a[..])
      invariant forall i :: 0 <= i < run ==> rank(a[least]) <= rank(a[i])
    {
      Compare(a[..], cmp, rank, dom, run, least);
      if cmp(a[run], a[least]) < 0 {
        least := run;
      }
    }
    SmallestOfAll(a[..], rank, e, thresh, least);
    if least != 0 {
      Swap(a, least, 0);
    }
  }

  lemma SmallestOfAll<T(!new)>(s: seq<T>, rank: T -> int, e: nat, thresh: nat, least: nat)
    requires Front(s, rank, e) && e <= thresh < |s| && least <= thresh
    requires forall i :: 0 <= i <= thresh ==> rank(s[least]) <= rank(s[i])
    ensures forall i :: 0 <= i < |s| ==> rank(s[least]) <= rank(s[i])
  {
    forall i | 0 <= i < |s|
      ensures rank(s[least]) <= rank(s[i])
    {
      if i > thresh {
        assert rank(s[0]) <= rank(s[i]);
      }
    }
  }

  // `s` with its element at `run` moved down to `at`.
  function MovedDown<T>(s: seq<T>, at: nat, run: nat): seq<T>
    requires at <= run < |s|
  {
    s[..at] + [s[run]] + s[at..run] + s[run + 1..]
  }

  // Moves one element down, shifting those above it up by one.
  method MoveDown<T>(a: array<T>, at: nat, run: nat)
    requires at <= run < a.Length
    modifies a
    ensures a[..] == MovedDown(old(a[..]), at, run)
  {
    var c := a[run];
    var hi := run;
    while hi > at
      invariant at <= hi <= run
      invariant forall i :: 0 <= i < hi || run < i < a.Length ==> a[i] == old(a[i])
      invariant forall i :: hi < i <= run ==> a[i] == old(a[i - 1])
    {
      a[hi] := a[hi - 1];
      hi := hi - 1;
    }
    a[hi] := c;
    MovedDownAt(old(a[..]), at, run, a[..]);
  }

  lemma MovedDownAt<T>(s: seq<T>, at: nat, run: nat, t: seq<T>)
    requires at <= run < |s| == |t|
    requires forall i :: 0 <= i < at || run < i < |s| ==> t[i] == s[i]
    requires forall i :: at < i <= run ==> t[i] == s[i - 1]
    requires t[at] == s[run]
    ensures t == MovedDown(s, at, run)
  {
    assert t[..at] == s[..at];
    assert t[at + 1..run + 1] == s[at..run];
    assert t[run + 1..] == s[run + 1..];
    assert t == t[..at] + [t[at]] + t[at + 1..run + 1] + t[run + 1..];
  }

  lemma MovedDownKeeps<T>(s: seq<T>, at: nat, run: nat)
    requires at <= run < |s|
    ensures multiset(MovedDown(s, at, run)) == multiset(s)
  {
    assert s == s[..at] + s[at..run] + [s[run]] + s[run + 1..];
  }

  lemma MovedDownSorts<T(!new)>(s: seq<T>, at: nat, run: nat, rank: T -> int)
    requires at <= run < |s| && Sorted(s[..run], rank) && SmallestFirst(s, rank) && (at > 0 || run == 0)
    requires at > 0 ==> rank(s[at - 1]) <= rank(s[run])
    requires forall i :: at <= i < run ==> rank(s[run]) <= rank(s[i])
    ensures Sorted(MovedDown(s, at, run)[..run + 1], rank) && SmallestFirst(MovedDown(s, at, run), rank)
  {
    var t := MovedDown(s, at, run);
    assert forall i :: 0 <= i < |s| ==>
      t[i] == if i < at then s[i] else if i == at then s[run] else if i <= run then s[i - 1] else s[i];
    forall i, j | 0 <= i < j < run + 1
      ensures rank(t[i]) <= rank(t[j])
    {
      if j < at || i > at {
      } else if j == at {
        assert rank(s[..run][i]) <= rank(s[..run][at - 1]) || i == at - 1;
      } else if i < at {
        assert rank(s[..run][i]) <= rank(s[..run][j - 1]);
      }
    }
  }

  // Where the element at `run` belongs: the scan is not guarded, the smallest element in front stops it.
  method FindPlace<T(!new)>(a: array<T>, run: nat, cmp: (T, T) -> int, ghost rank: T -> int, ghost dom: set<T>)
      returns (at: nat)
    requires 0 < run < a.Length && Ranked(cmp, rank, dom) && Within(a[..], dom)
    requires SmallestFirst(a[..], rank)
    ensures 0 < at <= run && rank(a[at - 1]) <= rank(a[run])
    ensures forall i :: at <= i < run ==> rank(a[run]) < rank(a[i])
  {
    hide Ranked, Within;
    var tmp := run - 1;
    Compare(a[..], cmp, rank, dom, run, tmp);
    while cmp(a[run], a[tmp]) < 0
      invariant 0 <= tmp < run
      invariant cmp(a[run], a[tmp]) < 0 <==> rank(a[run]) < rank(a[tmp])
      invariant forall i :: tmp < i < run ==> rank(a[run]) < rank(a[i])
      decreases tmp
    {
      assert rank(a[..][0]) <= rank(a[..][run]);
      tmp := tmp - 1;
      Compare(a[..], cmp, rank, dom, run, tmp);
    }
    at := tmp + 1;
  }

  method InsertionPhase<T(!new)>(a: array<T>, cmp: (T, T) -> int, ghost rank: T -> int, ghost dom: set<T>)
    requires a.Length > 0 && Ranked(cmp, rank, dom) && Within(a[..], dom) && SmallestFirst(a[..], rank)
    modifies a
    ensures multiset(a[..]) == multiset(old(a[..]))
    ensures Sorted(a[..], rank)
  {
    hide Ranked, Within, MovedDown;
    var run := 2;
    while run < a.Length
      invariant 2 <= run && (run <= a.Length || a.Length == 1)
      invariant multiset(a[..]) == multiset(old(a[..]))
      invariant SmallestFirst(a[..], rank)
      invariant Sorted(a[..if run < a.Length then run else a.Length], rank)
    {
      WithinKept(old(a[..]), a[..], dom);
      var at := FindPlace(a, run, cmp, rank, dom);
      MovedDownKeeps(a[..], at, run);
      MovedDownSorts(a[..], at, run, rank);
      assert a[..][..run] == a[..run];
      if at != run {
        MoveDown(a, at, run);
      } else {
        NotMoved(a[..], run);
      }
      run := run + 1;
      assert a[..][..run] == a[..run];
    }
    assert a[..a.Length] == a[..];
  }

  lemma NotMoved<T>(s: seq<T>, run: nat)
    requires run < |s|
    ensures MovedDown(s, run, run) == s
  {
  }

  // How many elements of `s` compare below `x`.
  ghost function Below<T>(s: seq<T>, cmp: (T, T) -> int, x: T): nat {
    if s == [] then 0 else Below(s[1..], cmp, x) + if cmp(s[0], x) < 0 then 1 else 0
  }

  lemma {:induction false} BelowOrdered<T(!new)>(s: seq<T>, cmp: (T, T) -> int, x: T, y: T)
    requires TotalPreorder(cmp) && cmp(x, y) <= 0
    ensures Below(s, cmp, x) <= Below(s, cmp, y)
    ensures cmp(x, y) < 0 && x in s ==> Below(s, cmp, x) < Below(s, cmp, y)
  {
    if s != [] {
      BelowOrdered(s[1..], cmp, x, y);
      assert cmp(s[0], x) < 0 ==> cmp(s[0], y) < 0 by {
        assert cmp(y, s[0]) <= 0 ==> cmp(x, s[0]) <= 0;
      }
    }
  }

  // Any total preorder compares, on the elements of a sequence, as the ranks there do.
  lemma RankedBelow<T(!new)>(s: seq<T>, cmp: (T, T) -> int)
    requires TotalPreorder(cmp)
    ensures Ranked(cmp, (x: T) => Below(s, cmp, x), set x | x in s)
  {
    forall x, y | x in s && y in s
      ensures cmp(x, y) < 0 <==> Below(s, cmp, x) < Below(s, cmp, y)
    {
      if cmp(x, y) < 0 {
        BelowOrdered(s, cmp, x, y);
      } else {
        BelowOrdered(s, cmp, y, x);
      }
    }
  }

  ghost predicate Ascending<T>(s: seq<T>, cmp: (T, T) -> int) {
    forall i, j :: 0 <= i < j < |s| ==> cmp(s[i], s[j]) <= 0
  }

  lemma AscendingByRank<T(!new)>(s: seq<T>, cmp: (T, T) -> int, rank: T -> int, dom: set<T>)
    requires TotalPreorder(cmp) && Ranked(cmp, rank, dom) && Within(s, dom) && Sorted(s, rank)
    ensures Ascending(s, cmp)
  {
    forall i, j | 0 <= i < j < |s|
      ensures cmp(s[i], s[j]) <= 0
    {
      assert s[i] in dom && s[j] in dom;
    }
  }

  /**
    For every array and every total preorder the result is an ascending rearrangement of the input, and
    the stack it is done with has no more entries, sentinel included, than the logarithm of the number of
    elements.
   */
  method Quicksort<T(==,!new)>(a: array<T>, cmp: (T, T) -> int)
    requires TotalPreorder(cmp)
    modifies a
    ensures multiset(a[..]) == multiset(old(a[..]))
    ensures Ascending(a[..], cmp)
  {
    hide TotalPreorder, Ranked, Within, Front, Sorted, SmallestFirst;
    if a.Length > 0 {
      ghost var rank := (x: T) => Below(old(a[..]), cmp, x);
      ghost var dom := set x | x in a[..];
      RankedBelow(a[..], cmp);
      AllWithin(a[..]);
      ghost var e := a.Length - 1;
      WholeFront(a[..], rank);
      if a.Length > MAX_THRESH {
        e := QuickPhase(a, cmp, rank, dom);
      }
      WithinKept(old(a[..]), a[..], dom);
      FrontMinimum(a, cmp, rank, dom, e);
      WithinKept(old(a[..]), a[..], dom);
      InsertionPhase(a, cmp, rank, dom);
      WithinKept(old(a[..]), a[..], dom);
      AscendingByRank(a[..], cmp, rank, dom);
    }
  }

  lemma AllWithin<T(!new)>(s: seq<T>)
    ensures Within(s, set x | x in s)
  {
  }

  lemma WholeFront<T(!new)>(s: seq<T>, rank: T -> int)
    ensures Front(s, rank, |s| - 1)
  {
  }
}
