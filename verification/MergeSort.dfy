/**
  The merge sort of the C library: direct for small elements, through sorted pointers and a rearrangement
  in place along cycles for large ones, with quicksort as the fallback when memory runs out.
 */
module MergeSort {
  import Quicksort

  type Comparison<!T> = (T, T) -> int

  // On ties the element of `s` comes first.
  function Merge<T>(s: seq<T>, t: seq<T>, cmp: Comparison<T>): seq<T> {
    if s == [] then t
    else if t == [] then s
    else if cmp(s[0], t[0]) <= 0 then [s[0]] + Merge(s[1..], t, cmp)
    else [t[0]] + Merge(s, t[1..], cmp)
  }

  function Sort<T>(s: seq<T>, cmp: Comparison<T>): seq<T>
    decreases |s|
  {
    if |s| <= 1 then s
    else
      var n1 := |s| / 2;
      Merge(Sort(s[..n1], cmp), Sort(s[n1..], cmp), cmp)
  }

  lemma Associate<T>(a: seq<T>, b: seq<T>, c: seq<T>)
    ensures a + (b + c) == (a + b) + c
  {
  }

  // ---- what sorting means ----

  // The elements that tie with `x`, in order.
  ghost function Tied<T>(s: seq<T>, cmp: Comparison<T>, x: T): seq<T> {
    if s == [] then [] else (if cmp(s[0], x) == 0 then [s[0]] else []) + Tied(s[1..], cmp, x)
  }

  lemma {:induction false} TiedAppend<T>(s: seq<T>, t: seq<T>, cmp: Comparison<T>, x: T)
    ensures Tied(s + t, cmp, x) == Tied(s, cmp, x) + Tied(t, cmp, x)
  {
    if s == [] {
      assert s + t == t;
    } else {
      var u, h := s + t, if cmp(s[0], x) == 0 then [s[0]] else [];
      assert u[0] == s[0] && u[1..] == s[1..] + t;
      TiedAppend(s[1..], t, cmp, x);
      Associate(h, Tied(s[1..], cmp, x), Tied(t, cmp, x));
    }
  }

  lemma {:induction false} NoneTied<T(!new)>(s: seq<T>, cmp: Comparison<T>, x: T)
    requires forall i :: 0 <= i < |s| ==> cmp(s[i], x) != 0
    ensures Tied(s, cmp, x) == []
  {
    if s != [] {
      NoneTied(s[1..], cmp, x);
    }
  }

  lemma {:induction false} MergeRearranges<T>(s: seq<T>, t: seq<T>, cmp: Comparison<T>)
    ensures multiset(Merge(s, t, cmp)) == multiset(s) + multiset(t)
    ensures |Merge(s, t, cmp)| == |s| + |t|
  {
    if s == [] || t == [] {
    } else if cmp(s[0], t[0]) <= 0 {
      MergeRearranges(s[1..], t, cmp);
      assert s == [s[0]] + s[1..];
    } else {
      MergeRearranges(s, t[1..], cmp);
      assert t == [t[0]] + t[1..];
    }
  }

  lemma {:induction false} MergeAscends<T(!new)>(s: seq<T>, t: seq<T>, cmp: Comparison<T>)
    requires Quicksort.TotalPreorder(cmp) && Quicksort.Ascending(s, cmp) && Quicksort.Ascending(t, cmp)
    ensures Quicksort.Ascending(Merge(s, t, cmp), cmp)
  {
    if s == [] || t == [] {
    } else if cmp(s[0], t[0]) <= 0 {
      MergeAscends(s[1..], t, cmp);
      HeadFirst(s[0], s[1..], t, cmp);
    } else {
      MergeAscends(s, t[1..], cmp);
      HeadFirst(t[0], s, t[1..], cmp);
    }
  }

  // An element no greater than either merged sequence can stand in front of the merge.
  lemma HeadFirst<T(!new)>(x: T, s: seq<T>, t: seq<T>, cmp: Comparison<T>)
    requires Quicksort.Ascending(Merge(s, t, cmp), cmp)
    requires forall y :: y in s || y in t ==> cmp(x, y) <= 0
    ensures Quicksort.Ascending([x] + Merge(s, t, cmp), cmp)
  {
    var m := Merge(s, t, cmp);
    MergeRearranges(s, t, cmp);
    forall j | 0 <= j < |m|
      ensures cmp(x, m[j]) <= 0
    {
      assert m[j] in multiset(m);
    }
  }

  lemma {:induction false} MergeStable<T(!new)>(s: seq<T>, t: seq<T>, cmp: Comparison<T>, x: T)
    requires Quicksort.TotalPreorder(cmp) && Quicksort.Ascending(s, cmp)
    ensures Tied(Merge(s, t, cmp), cmp, x) == Tied(s, cmp, x) + Tied(t, cmp, x)
  {
    hide Tied, Quicksort.TotalPreorder, Quicksort.Ascending, Merge;
    if s == [] || t == [] {
      StableNothing(s, t, cmp, x);
    } else if cmp(s[0], t[0]) <= 0 {
      AscendingTail(s, cmp);
      MergeStable(s[1..], t, cmp, x);
      StableLeft(s, t, cmp, x);
    } else {
      MergeStable(s, t[1..], cmp, x);
      StableRight(s, t, cmp, x);
    }
  }

  lemma StableNothing<T>(s: seq<T>, t: seq<T>, cmp: Comparison<T>, x: T)
    requires s == [] || t == []
    ensures Tied(Merge(s, t, cmp), cmp, x) == Tied(s, cmp, x) + Tied(t, cmp, x)
  {
    assert Tied<T>([], cmp, x) == [];
  }

  lemma StableLeft<T>(s: seq<T>, t: seq<T>, cmp: Comparison<T>, x: T)
    requires s != [] && t != [] && cmp(s[0], t[0]) <= 0
    requires Tied(Merge(s[1..], t, cmp), cmp, x) == Tied(s[1..], cmp, x) + Tied(t, cmp, x)
    ensures Tied(Merge(s, t, cmp), cmp, x) == Tied(s, cmp, x) + Tied(t, cmp, x)
  {
    hide Tied, Merge;
    MergeHead(s, t, cmp);
    TiedFirst(s[0], Merge(s[1..], t, cmp), cmp, x);
    TiedHead(s, cmp, x);
    Associate([s[0]], Tied(s[1..], cmp, x), Tied(t, cmp, x));
  }

  lemma StableRight<T(!new)>(s: seq<T>, t: seq<T>, cmp: Comparison<T>, x: T)
    requires Quicksort.TotalPreorder(cmp) && Quicksort.Ascending(s, cmp) && s != [] && t != [] && cmp(s[0], t[0]) > 0
    requires Tied(Merge(s, t[1..], cmp), cmp, x) == Tied(s, cmp, x) + Tied(t[1..], cmp, x)
    ensures Tied(Merge(s, t, cmp), cmp, x) == Tied(s, cmp, x) + Tied(t, cmp, x)
  {
    hide Tied, Quicksort.TotalPreorder, Quicksort.Ascending, Merge;
    MergeHead(s, t, cmp);
    TiedFirst(t[0], Merge(s, t[1..], cmp), cmp, x);
    TiedHead(t, cmp, x);
    if cmp(t[0], x) == 0 {
      AllAbove(s, t[0], cmp, x);
      assert [] + Tied(t, cmp, x) == Tied(t, cmp, x) && [] + Tied(t[1..], cmp, x) == Tied(t[1..], cmp, x);
    }
  }

  lemma MergeHead<T>(s: seq<T>, t: seq<T>, cmp: Comparison<T>)
    requires s != [] && t != []
    ensures Merge(s, t, cmp) ==
      if cmp(s[0], t[0]) <= 0 then [s[0]] + Merge(s[1..], t, cmp) else [t[0]] + Merge(s, t[1..], cmp)
  {
  }

  lemma TiedHead<T>(s: seq<T>, cmp: Comparison<T>, x: T)
    requires s != []
    ensures Tied(s, cmp, x) == if cmp(s[0], x) == 0 then [s[0]] + Tied(s[1..], cmp, x) else Tied(s[1..], cmp, x)
  {
  }

  lemma TiedFirst<T>(h: T, rest: seq<T>, cmp: Comparison<T>, x: T)
    ensures Tied([h] + rest, cmp, x) == if cmp(h, x) == 0 then [h] + Tied(rest, cmp, x) else Tied(rest, cmp, x)
  {
    assert ([h] + rest)[1..] == rest;
  }

  lemma AscendingTail<T>(s: seq<T>, cmp: Comparison<T>)
    requires Quicksort.Ascending(s, cmp) && s != []
    ensures Quicksort.Ascending(s[1..], cmp)
  {
  }

  lemma AllAbove<T(!new)>(s: seq<T>, y: T, cmp: Comparison<T>, x: T)
    requires Quicksort.TotalPreorder(cmp) && Quicksort.Ascending(s, cmp) && s != []
    requires cmp(s[0], y) > 0 && cmp(y, x) == 0
    ensures Tied(s, cmp, x) == []
  {
    assert cmp(s[0], s[0]) <= 0;
    forall i | 0 <= i < |s|
      ensures cmp(s[i], x) != 0
    {
      StrictlyAbove(s[0], s[i], y, cmp, x);
    }
    NoneTied(s, cmp, x);
  }

  lemma StrictlyAbove<T(!new)>(z0: T, z: T, y: T, cmp: Comparison<T>, x: T)
    requires Quicksort.TotalPreorder(cmp)
    requires cmp(z0, z) <= 0 && cmp(z0, y) > 0 && cmp(y, x) == 0
    ensures cmp(z, x) != 0
  {
    assert cmp(x, y) <= 0;
    assert cmp(z, x) <= 0 ==> cmp(z, y) <= 0;
  }

  // Sorting gives an ascending rearrangement that keeps ties in order.
  lemma SortCorrect<T(!new)>(s: seq<T>, cmp: Comparison<T>)
    requires Quicksort.TotalPreorder(cmp)
    ensures Quicksort.Ascending(Sort(s, cmp), cmp)
    ensures multiset(Sort(s, cmp)) == multiset(s)
    ensures forall x :: Tied(Sort(s, cmp), cmp, x) == Tied(s, cmp, x)
  {
    SortAscends(s, cmp);
    SortRearranges(s, cmp);
    forall x
      ensures Tied(Sort(s, cmp), cmp, x) == Tied(s, cmp, x)
    {
      SortStable(s, cmp, x);
    }
  }

  lemma {:induction false} SortAscends<T(!new)>(s: seq<T>, cmp: Comparison<T>)
    requires Quicksort.TotalPreorder(cmp)
    ensures Quicksort.Ascending(Sort(s, cmp), cmp)
    decreases |s|
  {
    if |s| > 1 {
      hide Quicksort.TotalPreorder, Quicksort.Ascending;
      var n1 := |s| / 2;
      SortAscends(s[..n1], cmp);
      SortAscends(s[n1..], cmp);
      MergeAscends(Sort(s[..n1], cmp), Sort(s[n1..], cmp), cmp);
    }
  }

  lemma {:induction false} SortRearranges<T>(s: seq<T>, cmp: Comparison<T>)
    ensures multiset(Sort(s, cmp)) == multiset(s)
    ensures |Sort(s, cmp)| == |s|
    decreases |s|
  {
    if |s| > 1 {
      hide Merge;
      var n1 := |s| / 2;
      SortRearranges(s[..n1], cmp);
      SortRearranges(s[n1..], cmp);
      MergeRearranges(Sort(s[..n1], cmp), Sort(s[n1..], cmp), cmp);
      Halves(s, n1);
    }
  }

  lemma Halves<T>(s: seq<T>, n: nat)
    requires n <= |s|
    ensures multiset(s[..n]) + multiset(s[n..]) == multiset(s)
  {
    assert s == s[..n] + s[n..];
  }

  lemma {:induction false} SortStable<T(!new)>(s: seq<T>, cmp: Comparison<T>, x: T)
    requires Quicksort.TotalPreorder(cmp)
    ensures Tied(Sort(s, cmp), cmp, x) == Tied(s, cmp, x)
    decreases |s|
  {
    if |s| > 1 {
      hide Quicksort.TotalPreorder, Quicksort.Ascending, Tied, Merge;
      var n1 := |s| / 2;
      SortStable(s[..n1], cmp, x);
      SortStable(s[n1..], cmp, x);
      SortAscends(s[..n1], cmp);
      MergeStable(Sort(s[..n1], cmp), Sort(s[n1..], cmp), cmp, x);
      TiedHalves(s, n1, cmp, x);
    }
  }

  lemma TiedHalves<T>(s: seq<T>, n: nat, cmp: Comparison<T>, x: T)
    requires n <= |s|
    ensures Tied(s, cmp, x) == Tied(s[..n], cmp, x) + Tied(s[n..], cmp, x)
  {
    hide Tied;
    assert s == s[..n] + s[n..];
    TiedAppend(s[..n], s[n..], cmp, x);
  }

  // Ascending order and the order of ties determine the result: there is only one stable sort.
  lemma {:induction false} StableUnique<T(!new)>(s: seq<T>, t: seq<T>, cmp: Comparison<T>)
    requires Quicksort.TotalPreorder(cmp)
    requires Quicksort.Ascending(s, cmp) && Quicksort.Ascending(t, cmp)
    requires forall x :: Tied(s, cmp, x) == Tied(t, cmp, x)
    ensures s == t
  {
    if s != [] || t != [] {
      SameHead(s, t, cmp);
      forall x
        ensures Tied(s[1..], cmp, x) == Tied(t[1..], cmp, x)
      {
        var h := if cmp(s[0], x) == 0 then [s[0]] else [];
        assert Tied(s, cmp, x) == h + Tied(s[1..], cmp, x);
        assert Tied(t, cmp, x) == h + Tied(t[1..], cmp, x);
        assert Tied(s[1..], cmp, x) == Tied(s, cmp, x)[|h|..];
        assert Tied(t[1..], cmp, x) == Tied(t, cmp, x)[|h|..];
      }
      StableUnique(s[1..], t[1..], cmp);
    }
  }

  lemma NotEmptyToo<T(!new)>(s: seq<T>, t: seq<T>, cmp: Comparison<T>)
    requires Quicksort.TotalPreorder(cmp) && s != []
    requires forall x :: Tied(s, cmp, x) == Tied(t, cmp, x)
    ensures t != []
  {
    var x := s[0];
    assert Tied(s, cmp, x)[0] == x;
  }

  lemma SameHead<T(!new)>(s: seq<T>, t: seq<T>, cmp: Comparison<T>)
    requires Quicksort.TotalPreorder(cmp) && (s != [] || t != [])
    requires Quicksort.Ascending(s, cmp) && Quicksort.Ascending(t, cmp)
    requires forall x :: Tied(s, cmp, x) == Tied(t, cmp, x)
    ensures s != [] && t != [] && t[0] == s[0]
  {
    if s != [] {
      NotEmptyToo(s, t, cmp);
    } else {
      NotEmptyToo(t, s, cmp);
    }
    var x, y := s[0], t[0];
    assert Tied(s, cmp, x)[0] == x;
    assert Tied(t, cmp, y)[0] == y;
    TiedIn(t, cmp, x);
    TiedIn(s, cmp, y);
    assert cmp(x, y) <= 0 && cmp(y, x) <= 0;
    assert Tied(t, cmp, x)[0] == y;
  }

  lemma {:induction false} TiedIn<T>(s: seq<T>, cmp: Comparison<T>, x: T)
    requires Tied(s, cmp, x) != []
    ensures exists i :: 0 <= i < |s| && s[i] == Tied(s, cmp, x)[0] && cmp(s[i], x) == 0
  {
    if cmp(s[0], x) == 0 {
      assert s[0] == Tied(s, cmp, x)[0];
    } else {
      TiedIn(s[1..], cmp, x);
      var i :| 0 <= i < |s| - 1 && s[1..][i] == Tied(s[1..], cmp, x)[0] && cmp(s[1..][i], x) == 0;
      assert s[i + 1] == Tied(s, cmp, x)[0];
    }
  }

  // ---- sorting in place ----

  // Merges two adjacent sorted runs into the scratch buffer, as far as needed: what is left of the
  // second run is already in place.
  method MergeOut<T>(a: array<T>, tmp: array<T>, lo: nat, mid: nat, hi: nat, cmp: Comparison<T>) returns (k: nat)
    requires a != tmp && lo <= mid <= hi <= a.Length && hi - lo <= tmp.Length
    modifies tmp
    ensures lo + k <= hi && k <= tmp.Length
    ensures tmp[..k] + a[..][lo + k..hi] == Merge(a[..][lo..mid], a[..][mid..hi], cmp)
  {
    hide Merge;
    ghost var s := a[..];
    var b1, b2 := lo, mid;
    k := 0;
    ghost var done := [];
    ghost var rest := Merge(s[lo..mid], s[mid..hi], cmp);
    ghost var whole := rest;
    while b1 < mid && b2 < hi
      invariant lo <= b1 <= mid <= b2 <= hi && k == b1 - lo + b2 - mid
      invariant done == tmp[..k] && whole == done + rest
      invariant rest == Merge(s[b1..mid], s[b2..hi], cmp)
    {
      MergeStep(s, b1, mid, b2, hi, cmp);
      if cmp(a[b1], a[b2]) <= 0 {
        tmp[k] := a[b1];
        b1 := b1 + 1;
      } else {
        tmp[k] := a[b2];
        b2 := b2 + 1;
      }
      rest := Merge(s[b1..mid], s[b2..hi], cmp);
      Associate(done, [tmp[k]], rest);
      done := done + [tmp[k]];
      k := k + 1;
    }
    MergeRest(s, b1, mid, b2, hi, cmp);
    if b1 < mid {
      k := CopyRest(a, tmp, b1, mid, k);
      assert a[b1..mid] == s[b1..mid];
    }
  }

  lemma MergeStep<T>(s: seq<T>, b1: nat, mid: nat, b2: nat, hi: nat, cmp: Comparison<T>)
    requires b1 < mid <= b2 < hi <= |s|
    ensures Merge(s[b1..mid], s[b2..hi], cmp) ==
            if cmp(s[b1], s[b2]) <= 0 then [s[b1]] + Merge(s[b1 + 1..mid], s[b2..hi], cmp)
            else [s[b2]] + Merge(s[b1..mid], s[b2 + 1..hi], cmp)
  {
    assert s[b1..mid][1..] == s[b1 + 1..mid];
    assert s[b2..hi][1..] == s[b2 + 1..hi];
  }

  lemma MergeRest<T>(s: seq<T>, b1: nat, mid: nat, b2: nat, hi: nat, cmp: Comparison<T>)
    requires b1 <= mid <= b2 <= hi <= |s| && (b1 == mid || b2 == hi)
    ensures Merge(s[b1..mid], s[b2..hi], cmp) == if b1 < mid then s[b1..mid] else s[b2..hi]
  {
  }

  method CopyRest<T>(a: array<T>, tmp: array<T>, b1: nat, mid: nat, k0: nat) returns (k: nat)
    requires a != tmp && b1 <= mid <= a.Length && k0 + mid - b1 <= tmp.Length
    modifies tmp
    ensures k == k0 + mid - b1 && tmp[..k] == old(tmp[..k0]) + a[b1..mid]
  {
    for i := 0 to mid - b1
      invariant forall j :: 0 <= j < k0 ==> tmp[j] == old(tmp[j])
      invariant forall j :: k0 <= j < k0 + i ==> tmp[j] == a[b1 + j - k0]
    {
      tmp[k0 + i] := a[b1 + i];
    }
    k := k0 + mid - b1;
  }

  method CopyBack<T>(a: array<T>, tmp: array<T>, lo: nat, k: nat)
    requires a != tmp && lo + k <= a.Length && k <= tmp.Length
    modifies a
    ensures a[..] == Patch(old(a[..]), lo, tmp[..k])
  {
    for i := 0 to k
      invariant forall j :: 0 <= j < a.Length ==>
        a[j] == if lo <= j < lo + i then tmp[j - lo] else old(a[j])
    {
      a[lo + i] := tmp[i];
    }
  }

  // `s` with `r` written over it from `lo` on.
  ghost function Patch<T>(s: seq<T>, lo: nat, r: seq<T>): (t: seq<T>)
    requires lo + |r| <= |s|
    ensures |t| == |s|
  {
    s[..lo] + r + s[lo + |r|..]
  }

  method SortRun<T>(a: array<T>, tmp: array<T>, lo: nat, n: nat, cmp: Comparison<T>)
    requires a != tmp && lo + n <= a.Length && n <= tmp.Length
    modifies a, tmp
    ensures |Sort(old(a[..])[lo..lo + n], cmp)| == n
    ensures a[..] == Patch(old(a[..]), lo, Sort(old(a[..])[lo..lo + n], cmp))
    decreases n
  {
    hide Merge, Sort, Patch;
    SortRearranges(a[..][lo..lo + n], cmp);
    if n <= 1 {
      Trivial(a[..], lo, n, cmp);
      return;
    }
    var n1 := n / 2;
    var n2 := n - n1;
    ghost var s := a[..];
    SortRun(a, tmp, lo, n1, cmp);
    SortRun(a, tmp, lo + n1, n2, cmp);
    Runs(s, a[..], lo, n1, n, cmp);
    ghost var t := a[..];
    var k := MergeOut(a, tmp, lo, lo + n1, lo + n, cmp);
    CopyBack(a, tmp, lo, k);
    Assembled(s, t, lo, k, n, tmp[..k], Sort(s[lo..lo + n], cmp));
  }

  lemma Trivial<T>(s: seq<T>, lo: nat, n: nat, cmp: Comparison<T>)
    requires lo + n <= |s| && n <= 1
    ensures s == Patch(s, lo, Sort(s[lo..lo + n], cmp))
  {
  }

  // Sorting the two halves, one after the other.
  lemma Runs<T>(s: seq<T>, t: seq<T>, lo: nat, n1: nat, n: nat, cmp: Comparison<T>)
    requires lo + n <= |s| && n1 == n / 2 && n > 1
    requires |Sort(s[lo..lo + n1], cmp)| == n1
    requires
      var u := Patch(s, lo, Sort(s[lo..lo + n1], cmp));
      && |Sort(u[lo + n1..lo + n], cmp)| == n - n1
      && t == Patch(u, lo + n1, Sort(u[lo + n1..lo + n], cmp))
    ensures |t| == |s| && t[..lo] == s[..lo] && t[lo + n..] == s[lo + n..]
    ensures Sort(s[lo..lo + n], cmp) == Merge(t[lo..lo + n1], t[lo + n1..lo + n], cmp)
  {
    hide Patch, Merge, Sort;
    var x := Sort(s[lo..lo + n1], cmp);
    var u := Patch(s, lo, x);
    PatchParts(s, lo, x);
    SameTail(s, u, lo + n1, n - n1);
    var y := Sort(s[lo + n1..lo + n], cmp);
    PatchParts(u, lo + n1, y);
    assert t[..lo] == t[..lo + n1][..lo] && t[lo..lo + n1] == t[..lo + n1][lo..];
    SortHalves(s, lo, n1, n, cmp);
  }

  lemma SortHalves<T>(s: seq<T>, lo: nat, n1: nat, n: nat, cmp: Comparison<T>)
    requires lo + n <= |s| && n1 == n / 2 && n > 1
    ensures Sort(s[lo..lo + n], cmp) == Merge(Sort(s[lo..lo + n1], cmp), Sort(s[lo + n1..lo + n], cmp), cmp)
  {
    hide Merge;
    assert s[lo..lo + n][..n1] == s[lo..lo + n1];
    assert s[lo..lo + n][n1..] == s[lo + n1..lo + n];
  }

  lemma PatchParts<T>(s: seq<T>, lo: nat, r: seq<T>)
    requires lo + |r| <= |s|
    ensures var t := Patch(s, lo, r);
            t[..lo] == s[..lo] && t[lo..lo + |r|] == r && t[lo + |r|..] == s[lo + |r|..] && t[..lo + |r|] == s[..lo] + r
  {
  }

  lemma SameTail<T>(s: seq<T>, u: seq<T>, at: nat, n: nat)
    requires |s| == |u| && at + n <= |s| && s[at..] == u[at..]
    ensures s[at..at + n] == u[at..at + n] && s[at + n..] == u[at + n..]
  {
    assert s[at..][..n] == s[at..at + n] && u[at..][..n] == u[at..at + n];
    assert s[at..][n..] == s[at + n..] && u[at..][n..] == u[at + n..];
  }

  lemma Assembled<T>(s: seq<T>, t: seq<T>, lo: nat, k: nat, n: nat, w: seq<T>, m: seq<T>)
    requires lo + n <= |s| == |t| && k <= n && |w| == k && |m| == n
    requires t[..lo] == s[..lo] && t[lo + n..] == s[lo + n..]
    requires w + t[lo + k..lo + n] == m
    ensures Patch(t, lo, w) == Patch(s, lo, m)
  {
    assert t[lo + k..] == t[lo + k..lo + n] + t[lo + n..];
  }

  // ---- large elements: sort pointers, then move each element once ----

  // The elements of `s` in the order of the indices `p`.
  ghost function Gather<T>(s: seq<T>, p: seq<nat>): seq<T>
    requires forall i :: 0 <= i < |p| ==> p[i] < |s|
  {
    if p == [] then [] else [s[p[0]]] + Gather(s, p[1..])
  }

  lemma {:induction false} GatherAt<T>(s: seq<T>, p: seq<nat>, i: nat)
    requires forall i :: 0 <= i < |p| ==> p[i] < |s|
    requires i < |p|
    ensures |Gather(s, p)| == |p| && Gather(s, p)[i] == s[p[i]]
  {
    if i > 0 {
      GatherAt(s, p[1..], i - 1);
    } else if |p| > 1 {
      GatherAt(s, p[1..], 0);
    }
  }

  lemma {:induction false} GatherAppend<T>(s: seq<T>, p: seq<nat>, q: seq<nat>)
    requires forall i :: 0 <= i < |p| ==> p[i] < |s|
    requires forall i :: 0 <= i < |q| ==> q[i] < |s|
    ensures Gather(s, p + q) == Gather(s, p) + Gather(s, q)
  {
    if p == [] {
      assert p + q == q;
    } else {
      var r := p + q;
      assert r[0] == p[0] && r[1..] == p[1..] + q;
      GatherAppend(s, p[1..], q);
      Associate([s[p[0]]], Gather(s, p[1..]), Gather(s, q));
    }
  }

  // Comparing pointers compares what they point to.
  function Through<T>(s: seq<T>, cmp: Comparison<T>): Comparison<nat> {
    (i: nat, j: nat) => if i < |s| && j < |s| then cmp(s[i], s[j]) else 0
  }

  lemma {:induction false} GatherMerge<T>(s: seq<T>, p: seq<nat>, q: seq<nat>, cmp: Comparison<T>)
    requires forall i :: 0 <= i < |p| ==> p[i] < |s|
    requires forall i :: 0 <= i < |q| ==> q[i] < |s|
    ensures Below(Merge(p, q, Through(s, cmp)), |s|)
    ensures Gather(s, Merge(p, q, Through(s, cmp))) == Merge(Gather(s, p), Gather(s, q), cmp)
  {
    if p == [] || q == [] {
    } else if cmp(s[p[0]], s[q[0]]) <= 0 {
      GatherMerge(s, p[1..], q, cmp);
    } else {
      GatherMerge(s, p, q[1..], cmp);
    }
  }

  ghost predicate Below(p: seq<nat>, n: nat) {
    forall i :: 0 <= i < |p| ==> p[i] < n
  }

  // Sorting pointers and then gathering is sorting.
  lemma {:induction false} GatherSort<T>(s: seq<T>, p: seq<nat>, cmp: Comparison<T>)
    requires Below(p, |s|)
    ensures Below(Sort(p, Through(s, cmp)), |s|)
    ensures Gather(s, Sort(p, Through(s, cmp))) == Sort(Gather(s, p), cmp)
    decreases |p|
  {
    if p == [] {
    } else if |p| == 1 {
      GatherAt(s, p, 0);
    } else {
      var n1 := |p| / 2;
      var x, y := p[..n1], p[n1..];
      GatherSort(s, x, cmp);
      GatherSort(s, y, cmp);
      GatherMerge(s, Sort(x, Through(s, cmp)), Sort(y, Through(s, cmp)), cmp);
      GatherHalves(s, p, n1);
    }
  }

  lemma GatherHalves<T>(s: seq<T>, p: seq<nat>, n1: nat)
    requires Below(p, |s|) && n1 <= |p|
    ensures |Gather(s, p)| == |p|
    ensures Gather(s, p)[..n1] == Gather(s, p[..n1]) && Gather(s, p)[n1..] == Gather(s, p[n1..])
  {
    assert p == p[..n1] + p[n1..];
    GatherAppend(s, p[..n1], p[n1..]);
    if n1 > 0 {
      GatherAt(s, p[..n1], 0);
    }
    if p != [] {
      GatherAt(s, p, 0);
    }
  }

  function Iota(n: nat): seq<nat> {
    if n == 0 then [] else Iota(n - 1) + [n - 1]
  }

  lemma {:induction false} GatherAll<T>(s: seq<T>, n: nat)
    requires n <= |s|
    ensures Below(Iota(n), n) && |Iota(n)| == n && Gather(s, Iota(n)) == s[..n]
  {
    if n > 0 {
      GatherAll(s, n - 1);
      GatherAppend(s, Iota(n - 1), [n - 1]);
      GatherAt(s, [n - 1], 0);
      assert s[..n] == s[..n - 1] + [s[n - 1]];
    }
  }

  lemma {:induction false} OnceEach(n: nat, x: nat)
    ensures multiset(Iota(n))[x] == if x < n then 1 else 0
  {
    if n > 0 {
      OnceEach(n - 1, x);
    }
  }

  // `p` lists each index once.
  ghost predicate Permutation(p: seq<nat>) {
    && Below(p, |p|)
    && (forall i, j :: 0 <= i < j < |p| ==> p[i] != p[j])
  }

  lemma PermutationOfIota(p: seq<nat>)
    requires multiset(p) == multiset(Iota(|p|))
    ensures Permutation(p)
  {
    hide Iota;
    forall i | 0 <= i < |p|
      ensures p[i] < |p|
    {
      OnceEach(|p|, p[i]);
      assert p[i] in multiset(p);
    }
    forall i, j | 0 <= i < j < |p|
      ensures p[i] != p[j]
    {
      OnceEach(|p|, p[i]);
      Repeated(p, i, j);
    }
  }

  lemma Repeated(p: seq<nat>, i: nat, j: nat)
    requires i < j < |p|
    ensures p[i] == p[j] ==> multiset(p)[p[i]] >= 2
  {
    var q := p[i + 1..];
    assert p == p[..i] + [p[i]] + q;
    assert q[j - i - 1] in multiset(q);
  }

  // Index `x` still holds its old element (unless that has been moved out, leaving a hole) and pointer,
  // or has received the element it should hold.
  ghost predicate Settled<T>(s: seq<T>, p: seq<nat>, a: seq<T>, tp: seq<nat>, todo: set<nat>, hole: int, x: nat)
    requires x < |s| == |p| == |a| == |tp| && Below(p, |p|)
  {
    if x in todo then tp[x] == p[x] && (x == hole || a[x] == s[x])
    else tp[x] == x && a[x] == s[p[x]]
  }

  // What is still to do consists of whole cycles, except that the one through `start` is under way
  // and has got to `hole`.
  ghost predicate Rotating<T>(s: seq<T>, p: seq<nat>, a: seq<T>, tp: seq<nat>, todo: set<nat>, start: int, hole: int) {
    && |s| == |p| == |a| == |tp| && Permutation(p)
    && (forall x: nat {:trigger Settled(s, p, a, tp, todo, hole, x)} :: x < |s| ==> Settled(s, p, a, tp, todo, hole, x))
    && (forall x: nat :: x < |s| && x in todo ==> p[x] in todo || p[x] == start)
    && (forall x: nat :: x < |s| && x in todo ==> p[x] != hole || hole == start)
    && (0 <= start ==> (start in todo <==> hole == start))
  }

  lemma RotateStep<T>(s: seq<T>, p: seq<nat>, a: seq<T>, tp: seq<nat>, todo: set<nat>, start: nat, j: nat)
    requires Rotating(s, p, a, tp, todo, start, j) && start < |s| && j < |s| && j in todo
    requires p[j] != start && p[start] != start
    ensures Rotating(s, p, a[j := a[p[j]]], tp[j := j], todo - {j}, start, p[j])
    ensures p[j] in todo && p[j] != j && tp[p[j]] == p[p[j]] && p[p[j]] < |s|
  {
    var k := p[j];
    assert k in todo && k != j;
    assert Settled(s, p, a, tp, todo, j, k);
    var a', tp', todo' := a[j := a[k]], tp[j := j], todo - {j};
    forall x: nat | x < |s|
      ensures Settled(s, p, a', tp', todo', k, x)
    {
      assert Settled(s, p, a, tp, todo, j, x);
    }
  }

  lemma RotateEnd<T>(s: seq<T>, p: seq<nat>, a: seq<T>, tp: seq<nat>, todo: set<nat>, start: nat, j: nat)
    requires Rotating(s, p, a, tp, todo, start, j) && j < |s| && j in todo && p[j] == start && j != start && start < |s|
    ensures Rotating(s, p, a[j := s[start]], tp[j := j], todo - {j}, -1, -1)
    ensures start !in todo
  {
    var a', tp', todo' := a[j := s[start]], tp[j := j], todo - {j};
    forall x: nat | x < |s|
      ensures Settled(s, p, a', tp', todo', -1, x)
    {
      assert Settled(s, p, a, tp, todo, j, x);
    }
  }

  lemma RotateStart<T>(s: seq<T>, p: seq<nat>, a: seq<T>, tp: seq<nat>, todo: set<nat>, i: nat)
    requires Rotating(s, p, a, tp, todo, -1, -1) && i < |s| && tp[i] != i
    ensures Rotating(s, p, a, tp, todo, i, i) && i in todo && a[i] == s[i] && tp[i] == p[i] < |s|
  {
    assert Settled(s, p, a, tp, todo, -1, i);
    forall x: nat | x < |s|
      ensures Settled(s, p, a, tp, todo, i, x)
    {
      assert Settled(s, p, a, tp, todo, -1, x);
    }
  }

  // Moves the elements of one cycle, beginning with `i`.
  method Rotate<T>(a: array<T>, tp: array<nat>, i: nat, ghost s: seq<T>, ghost p: seq<nat>, ghost todo0: set<nat>)
      returns (ghost todo: set<nat>)
    requires i < a.Length == tp.Length == |s| && tp[i] != i && a as object != tp as object
    requires Rotating(s, p, a[..], tp[..], todo0, -1, -1)
    modifies a, tp
    ensures Rotating(s, p, a[..], tp[..], todo, -1, -1)
    ensures todo <= todo0 && i !in todo
  {
    hide Rotating;
    RotateStart(s, p, a[..], tp[..], todo0, i);
    RotatingLength(s, p, a[..], tp[..], todo0, i, i);
    var kp := tp[i];
    var j := i;
    var saved := a[i];
    todo := todo0;
    while kp != i
      invariant j < a.Length && kp < a.Length && kp == p[j] && j in todo && todo <= todo0
      invariant Rotating(s, p, a[..], tp[..], todo, i, j)
      invariant kp == i ==> j != i
      decreases todo
    {
      RotateStep(s, p, a[..], tp[..], todo, i, j);
      var k := kp;
      tp[j] := j;
      a[j] := a[k];
      todo := todo - {j};
      j := k;
      kp := tp[k];
    }
    RotateEnd(s, p, a[..], tp[..], todo, i, j);
    tp[j] := j;
    a[j] := saved;
    todo := todo - {j};
  }

  lemma RotatingLength<T>(s: seq<T>, p: seq<nat>, a: seq<T>, tp: seq<nat>, todo: set<nat>, start: int, hole: int)
    requires Rotating(s, p, a, tp, todo, start, hole)
    ensures |s| == |p| == |a| == |tp| && Permutation(p)
  {
  }

  // Puts at each index the element its pointer names.
  method Rearrange<T>(a: array<T>, tp: array<nat>)
    requires a.Length == tp.Length && Permutation(tp[..]) && a as object != tp as object
    modifies a, tp
    ensures a[..] == Gather(old(a[..]), old(tp[..]))
  {
    hide Rotating;
    ghost var s, p := a[..], tp[..];
    ghost var todo := AllTodo(s, p);
    for i := 0 to a.Length
      invariant Rotating(s, p, a[..], tp[..], todo, -1, -1)
      invariant forall x :: 0 <= x < i ==> x !in todo || p[x] == x
    {
      Pointer(s, p, a[..], tp[..], todo, i);
      if tp[i] != i {
        todo := Rotate(a, tp, i, s, p, todo);
      }
    }
    AllSettled(s, p, a[..], tp[..], todo);
  }

  lemma AllTodo<T>(s: seq<T>, p: seq<nat>) returns (todo: set<nat>)
    requires |s| == |p| && Permutation(p)
    ensures Rotating(s, p, s, p, todo, -1, -1)
  {
    todo := set x | x in Iota(|s|);
    forall x: nat
      ensures x in todo <==> x < |s|
    {
      InIota(|s|, x);
    }
    assert forall x: nat {:trigger Settled(s, p, s, p, todo, -1, x)} :: x < |s| ==> Settled(s, p, s, p, todo, -1, x);
  }

  lemma InIota(n: nat, x: nat)
    ensures x in Iota(n) <==> x < n
  {
  }

  lemma Pointer<T>(s: seq<T>, p: seq<nat>, a: seq<T>, tp: seq<nat>, todo: set<nat>, i: nat)
    requires Rotating(s, p, a, tp, todo, -1, -1) && i < |s|
    ensures |tp| == |p| == |s| && (tp[i] == i ==> i !in todo || p[i] == i)
  {
    assert Settled(s, p, a, tp, todo, -1, i);
  }

  lemma AllSettled<T>(s: seq<T>, p: seq<nat>, a: seq<T>, tp: seq<nat>, todo: set<nat>)
    requires Rotating(s, p, a, tp, todo, -1, -1)
    requires forall x :: 0 <= x < |s| ==> x !in todo || p[x] == x
    ensures a == Gather(s, p)
  {
    if s != [] {
      GatherAt(s, p, 0);
    }
    forall i | 0 <= i < |s|
      ensures a[i] == Gather(s, p)[i]
    {
      GatherAt(s, p, i);
      assert Settled(s, p, a, tp, todo, -1, i);
    }
  }

  method Pointers(n: nat) returns (tp: array<nat>)
    ensures fresh(tp) && tp[..] == Iota(n)
  {
    tp := new nat[n];
    for i := 0 to n
      invariant tp[..i] == Iota(i)
    {
      tp[i] := i;
      assert tp[..i + 1] == tp[..i] + [i];
    }
    assert tp[..] == tp[..n];
  }

  method SortIndirect<T>(a: array<T>, cmp: Comparison<T>)
    modifies a
    ensures a[..] == Sort(old(a[..]), cmp)
  {
    hide Sort, Iota, Gather, Permutation, Below, Patch;
    var s := a[..];
    var n := a.Length;
    var tp := Pointers(n);
    IotaLength(n);
    var tmp := new nat[n];
    SortRun(tp, tmp, 0, n, Through(s, cmp));
    SortedPointers(s, tp[..], cmp);
    Rearrange(a, tp);
  }

  lemma IotaLength(n: nat)
    ensures |Iota(n)| == n
  {
  }

  lemma SortedPointers<T>(s: seq<T>, p: seq<nat>, cmp: Comparison<T>)
    requires |Iota(|s|)| == |s| == |Sort(Iota(|s|)[0..|s|], Through(s, cmp))|
    requires p == Patch(Iota(|s|), 0, Sort(Iota(|s|)[0..|s|], Through(s, cmp)))
    ensures |p| == |s| && Permutation(p) && Below(p, |s|)
    ensures Gather(s, p) == Sort(s, cmp)
  {
    var io := Iota(|s|);
    assert io[0..|s|] == io;
    assert p == Sort(io, Through(s, cmp));
    GatherAll(s, |s|);
    assert s[..|s|] == s;
    GatherSort(s, io, cmp);
    SortRearranges(io, Through(s, cmp));
    PermutationOfIota(p);
  }

  // The sorter: indirect for elements over 32 bytes; quicksort, which need not keep ties in order, when
  // there is no memory for the scratch buffer.
  method QsortR<T(==,!new)>(a: array<T>, elementSize: nat, cmp: Comparison<T>, memory: bool)
    requires Quicksort.TotalPreorder(cmp)
    modifies a
    ensures Quicksort.Ascending(a[..], cmp)
    ensures multiset(a[..]) == multiset(old(a[..]))
    ensures var size := if elementSize > 32 then 16 * a.Length + elementSize else a.Length * elementSize;
            size < 1024 || memory ==> forall x :: Tied(a[..], cmp, x) == Tied(old(a[..]), cmp, x)
  {
    hide Quicksort.TotalPreorder, Quicksort.Ascending, Tied, Sort, Patch;
    var size := if elementSize > 32 then 16 * a.Length + elementSize else a.Length * elementSize;
    if size >= 1024 && !memory {
      Quicksort.Quicksort(a, cmp);
      return;
    }
    SortCorrect(a[..], cmp);
    if elementSize > 32 {
      SortIndirect(a, cmp);
    } else if a.Length > 0 {
      var any := a[0];
      var tmp := new T[a.Length](_ => any);
      SortRun(a, tmp, 0, a.Length, cmp);
      SortedWhole(old(a[..]), a[..], cmp);
    } else {
      assert Sort([], cmp) == [] by { SortRearranges([], cmp); }
      assert a[..] == [];
    }
  }

  lemma SortedWhole<T>(s: seq<T>, t: seq<T>, cmp: Comparison<T>)
    requires |Sort(s[0..|s|], cmp)| == |s| && t == Patch(s, 0, Sort(s[0..|s|], cmp))
    ensures t == Sort(s, cmp)
  {
    assert s[0..|s|] == s;
  }
}
