/**
  Answering a quad pattern from the predicate trees.
 */
module Binding {
  import opened Rids
  import opened ChainScan
  import opened Indexes
  import Quicksort
  import MergeSort

  const DEFAULT_GRAPH: Rid := 0xDB4D_687E_BF8E_ED87
  const INT_MAX := 0x7fff_ffff

  // Which columns to bind, which of them must be equal (a code of four bits), and whether the
  // default graph is left out.
  datatype Request = Request(bindM: bool, bindS: bool, bindP: bool, bindO: bool, same: nat, noDefaultGraph: bool)

  function Slot(q: Quad, i: nat): Rid
    requires i < 4
  {
    if i == 0 then q.m else if i == 1 then q.s else if i == 2 then q.p else q.o
  }

  // Columns with the same letter, other than X, must be equal.
  function Letters(same: nat): string {
    match same
    case 1 => "XXAA" case 2 => "XAXA" case 3 => "XAAX" case 4 => "XAAA"
    case 5 => "AXXA" case 6 => "AXAX" case 7 => "AXAA" case 8 => "AAXX"
    case 9 => "AAXA" case 10 => "AAAX" case 11 => "AAAA" case 12 => "AABB"
    case 13 => "ABAB" case 14 => "ABBA" case _ => "XXXX"
  }

  ghost predicate Uniform(letters: string, q: Quad)
    requires |letters| == 4
  {
    forall i, j :: 0 <= i < j < 4 && letters[i] == letters[j] != 'X' ==> Slot(q, i) == Slot(q, j)
  }

  // bind_same
  function BindSame(q: Quad, same: nat): bool {
    match same
    case 1 => q.p == q.o
    case 2 => q.s == q.o
    case 3 => q.s == q.p
    case 4 => q.s == q.p && q.p == q.o
    case 5 => q.m == q.o
    case 6 => q.m == q.p
    case 7 => q.m == q.p && q.p == q.o
    case 8 => q.m == q.s
    case 9 => q.m == q.s && q.s == q.o
    case 10 => q.m == q.s && q.s == q.p
    case 11 => q.m == q.s && q.s == q.p && q.p == q.o
    case 12 => q.m == q.s && q.p == q.o
    case 13 => q.m == q.p && q.s == q.o
    case 14 => q.m == q.o && q.s == q.p
    case _ => true
  }

  lemma BindSameUniform(q: Quad, same: nat)
    ensures |Letters(same)| == 4
    ensures BindSame(q, same) <==> Uniform(Letters(same), q)
  {
    var l := Letters(same);
    assert Slot(q, 0) == q.m && Slot(q, 1) == q.s && Slot(q, 2) == q.p && Slot(q, 3) == q.o;
    if BindSame(q, same) {
      forall i, j | 0 <= i < j < 4 && l[i] == l[j] != 'X'
        ensures Slot(q, i) == Slot(q, j)
      {
      }
    }
  }

  // graph_ok
  predicate GraphOk(q: Quad, noDefaultGraph: bool) {
    !(noDefaultGraph && q.m == DEFAULT_GRAPH)
  }

  predicate Wanted(q: Quad, r: Request) {
    BindSame(q, r.same) && GraphOk(q, r.noDefaultGraph)
  }

  // What a request asks for: equal columns where the letters are equal, and nothing of the default graph if
  // that is left out.
  ghost predicate Asked(q: Quad, r: Request) {
    && |Letters(r.same)| == 4 && Uniform(Letters(r.same), q)
    && (r.noDefaultGraph ==> q.m != 0xDB4D_687E_BF8E_ED87)
  }

  lemma WantedIff(q: Quad, r: Request)
    ensures Wanted(q, r) <==> Asked(q, r)
  {
    hide Letters, Uniform, BindSame;
    BindSameUniform(q, r.same);
  }

  // ---- the vectors ----

  function ToSigned(r: Rid): int {
    if r < 0x8000_0000_0000_0000 then r else r - 0x1_0000_0000_0000_0000
  }

  function RidCompare(a: Rid, b: Rid): int {
    if ToSigned(a) > ToSigned(b) then 1 else if ToSigned(a) < ToSigned(b) then -1 else 0
  }

  ghost predicate Distinct(v: seq<Rid>) {
    forall i, j :: 0 <= i < j < |v| ==> v[i] != v[j]
  }

  // The entries kept from the first `row`: of each run of equal ones the last.
  ghost function Kept(v: seq<Rid>, row: nat): seq<Rid>
    requires row <= |v|
  {
    if row == 0 then []
    else Kept(v, row - 1) + if row < |v| && v[row - 1] == v[row] then [] else [v[row - 1]]
  }

  // fs_rid_vector_uniq, which moves the kept entries down in place.
  method Uniq(v: array<Rid>) returns (length: nat)
    modifies v
    ensures length <= v.Length && v[..length] == Kept(old(v[..]), v.Length)
  {
    ghost var s := v[..];
    length := 0;
    for row := 0 to v.Length
      invariant length <= row && v[..length] == Kept(s, row)
      invariant forall i :: row <= i < v.Length ==> v[i] == s[i]
    {
      if row < v.Length - 1 && v[row] == v[row + 1] {
      } else {
        ghost var was := v[..length];
        v[length] := v[row];
        length := length + 1;
        assert v[..length] == was + [s[row]];
      }
    }
  }

  lemma {:induction false} KeptOnce(v: seq<Rid>, row: nat)
    requires Quicksort.Ascending(v, RidCompare) && row <= |v|
    ensures Distinct(Kept(v, row))
    ensures forall x :: x in Kept(v, row) ==> x in v[..row] && (row < |v| ==> RidCompare(x, v[row]) < 0)
    ensures forall x :: x in v[..row] ==> x in Kept(v, row) || (row < |v| && x == v[row])
  {
    if row > 0 {
      KeptOnce(v, row - 1);
      assert v[..row] == v[..row - 1] + [v[row - 1]];
      var k, x := Kept(v, row - 1), v[row - 1];
      assert Kept(v, row) == if row < |v| && x == v[row] then k else k + [x];
      if row < |v| {
        InOrder(v, row);
      }
      hide Quicksort.Ascending, Kept, RidCompare;
      assert x !in k by {
        RidTie(x);
      }
    }
  }

  lemma InOrder(v: seq<Rid>, row: nat)
    requires Quicksort.Ascending(v, RidCompare) && 0 < row < |v|
    ensures v[row - 1] != v[row] ==> RidCompare(v[row - 1], v[row]) < 0
    ensures forall x: Rid :: RidCompare(x, v[row - 1]) < 0 ==> RidCompare(x, v[row]) < 0
  {
    assert RidCompare(v[row - 1], v[row]) <= 0;
  }

  lemma RidTie(x: Rid)
    ensures RidCompare(x, x) == 0
  {
  }

  method SortUniq(v: seq<Rid>) returns (r: seq<Rid>)
    ensures Distinct(r) && forall x :: x in r <==> x in v
  {
    hide Quicksort.Ascending;
    var a := new Rid[|v|](i requires 0 <= i < |v| => v[i]);
    assert a[..] == v;
    RidOrder();
    MergeSort.QsortR(a, 8, RidCompare, true);
    assert forall x :: x in a[..] <==> x in v by {
      assert forall x :: x in a[..] <==> x in multiset(a[..]);
      assert forall x :: x in v <==> x in multiset(v);
    }
    KeptOnce(a[..], a.Length);
    assert a[..][..a.Length] == a[..];
    var n := Uniq(a);
    r := a[..n];
  }

  lemma RidOrder()
    ensures Quicksort.TotalPreorder(RidCompare)
  {
  }

  // ---- the loops ----

  // The subject trees are keyed by subject and list (model, object) rows; the object trees are keyed by
  // object and list (model, subject) rows.
  datatype Side = BySubject | ByObject

  function ToQuad(side: Side, p: Rid, key: Rid, row: Pair): Quad {
    match side
    case BySubject => Quad(row.model, key, p, row.other)
    case ByObject => Quad(row.model, row.other, p, key)
  }

  // The quads among some rows that are wanted.
  ghost function WantedQuads(rows: seq<Pair>, side: Side, p: Rid, key: Rid, r: Request): seq<Quad> {
    if rows == [] then []
    else
      var q := ToQuad(side, p, key, rows[|rows| - 1]);
      WantedQuads(rows[..|rows| - 1], side, p, key, r) + if Wanted(q, r) then [q] else []
  }

  // The answers for each entry of a vector, one after the other.
  ghost function Concat(xs: seq<Rid>, f: Rid -> seq<Quad>): seq<Quad> {
    if xs == [] then [] else Concat(xs[..|xs| - 1], f) + f(xs[|xs| - 1])
  }

  // An empty vector stands for the wildcard.
  function OrAny(v: seq<Rid>): seq<Rid> {
    if v == [] then [RID_NULL] else v
  }

  // The four nested loops, innermost first.
  ghost function ForOther(trees: Trees, r: Request, side: Side, p: Rid, key: Rid, m: Rid): Rid -> seq<Quad> {
    (x: Rid) => WantedQuads(Select(Pair(m, x), RowsAt(trees, p, key)), side, p, key, r)
  }

  ghost function ForModel(trees: Trees, r: Request, side: Side, p: Rid, key: Rid, xs: seq<Rid>): Rid -> seq<Quad> {
    (m: Rid) => Concat(xs, ForOther(trees, r, side, p, key, m))
  }

  ghost function ForKey(trees: Trees, r: Request, side: Side, p: Rid, ms: seq<Rid>, xs: seq<Rid>): Rid -> seq<Quad> {
    (key: Rid) => Concat(ms, ForModel(trees, r, side, p, key, xs))
  }

  ghost function ForPredicate(trees: Trees, r: Request, side: Side, keys: seq<Rid>, ms: seq<Rid>,
                              xs: seq<Rid>): Rid -> seq<Quad> {
    (p: Rid) => Concat(keys, ForKey(trees, r, side, p, ms, xs))
  }

  // Everything the loops would return without a limit.
  ghost function Everything(trees: Trees, r: Request, side: Side, pv: seq<Rid>, keys: seq<Rid>, ms: seq<Rid>,
                            xs: seq<Rid>): seq<Quad> {
    Concat(pv, ForPredicate(trees, r, side, keys, ms, xs))
  }

  // At most `limit` rows.
  ghost function Take(limit: int, rows: seq<Quad>): seq<Quad> {
    if limit <= 0 then [] else if |rows| <= limit then rows else rows[..limit]
  }

  lemma TakeMore(limit: int, a: seq<Quad>, b: seq<Quad>)
    ensures Take(limit, Take(limit, a) + b) == Take(limit, a + b)
  {
  }

  lemma TakeFull(limit: int, a: seq<Quad>, b: seq<Quad>)
    requires |Take(limit, a)| >= limit
    ensures Take(limit, a + b) == Take(limit, a)
  {
  }

  lemma ConcatNext(xs: seq<Rid>, i: nat, f: Rid -> seq<Quad>)
    requires i < |xs|
    ensures Concat(xs[..i + 1], f) == Concat(xs[..i], f) + f(xs[i])
  {
    assert xs[..i + 1][..i] == xs[..i];
  }

  // What the rest of a loop would add makes no difference once the limit is reached.
  lemma {:induction false} TakeRest(limit: int, a: seq<Quad>, xs: seq<Rid>, i: nat, f: Rid -> seq<Quad>)
    requires i <= |xs| && |Take(limit, a + Concat(xs[..i], f))| >= limit
    ensures Take(limit, a + Concat(xs, f)) == Take(limit, a + Concat(xs[..i], f))
    decreases |xs| - i
  {
    hide Take, Concat;
    if i == |xs| {
      assert xs[..i] == xs;
    } else {
      ConcatNext(xs, i, f);
      TakeFull(limit, a + Concat(xs[..i], f), f(xs[i]));
      assert a + Concat(xs[..i + 1], f) == a + Concat(xs[..i], f) + f(xs[i]);
      TakeRest(limit, a, xs, i + 1, f);
    }
  }

  lemma WantedNext(rows: seq<Pair>, i: nat, side: Side, p: Rid, key: Rid, r: Request)
    requires i < |rows|
    ensures
      var q := ToQuad(side, p, key, rows[i]);
      WantedQuads(rows[..i + 1], side, p, key, r) ==
      if Wanted(q, r) then WantedQuads(rows[..i], side, p, key, r) + [q] else WantedQuads(rows[..i], side, p, key, r)
  {
    assert rows[..i + 1][..i] == rows[..i];
  }

  lemma {:induction false} TakeRestRows(limit: int, a: seq<Quad>, rows: seq<Pair>, i: nat, side: Side, p: Rid,
                                        key: Rid, r: Request)
    requires i <= |rows| && |Take(limit, a + WantedQuads(rows[..i], side, p, key, r))| >= limit
    ensures Take(limit, a + WantedQuads(rows, side, p, key, r)) ==
      Take(limit, a + WantedQuads(rows[..i], side, p, key, r))
    decreases |rows| - i
  {
    hide WantedQuads, Wanted, Take;
    if i == |rows| {
      assert rows[..i] == rows;
    } else {
      WantedNext(rows, i, side, p, key, r);
      var q, w := ToQuad(side, p, key, rows[i]), WantedQuads(rows[..i], side, p, key, r);
      if Wanted(q, r) {
        TakeFull(limit, a + w, [q]);
        assert a + w + [q] == a + (w + [q]);
      }
      TakeRestRows(limit, a, rows, i + 1, side, p, key, r);
    }
  }

  lemma TakeOne(limit: int, a: seq<Quad>, b: seq<Quad>, q: Quad)
    requires |Take(limit, a + b)| < limit
    ensures Take(limit, a + (b + [q])) == Take(limit, a + b) + [q]
  {
  }

  // The rows of one search.
  method ScanRows(trees: Trees, r: Request, side: Side, p: Rid, key: Rid, m: Rid, x: Rid, limit: int, out0: seq<Quad>)
      returns (out: seq<Quad>)
    requires out0 == Take(limit, out0)
    ensures out == Take(limit, out0 + ForOther(trees, r, side, p, key, m)(x))
  {
    hide Take, WantedQuads, Wanted;
    var rows := Select(Pair(m, x), RowsAt(trees, p, key));
    out := out0;
    var i := 0;
    NoRows(limit, out0, rows, side, p, key, r);
    while i < |rows| && |out| < limit
      invariant i <= |rows| && out == Take(limit, out0 + WantedQuads(rows[..i], side, p, key, r))
    {
      var q := ToQuad(side, p, key, rows[i]);
      WantedNext(rows, i, side, p, key, r);
      if Wanted(q, r) {
        TakeOne(limit, out0, WantedQuads(rows[..i], side, p, key, r), q);
        out := out + [q];
      }
      i := i + 1;
    }
    if i == |rows| {
      assert rows[..i] == rows;
    } else {
      TakeRestRows(limit, out0, rows, i, side, p, key, r);
    }
  }

  lemma NoRows(limit: int, a: seq<Quad>, rows: seq<Pair>, side: Side, p: Rid, key: Rid, r: Request)
    requires a == Take(limit, a)
    ensures a == Take(limit, a + WantedQuads(rows[..0], side, p, key, r))
  {
    assert a + [] == a;
  }

  lemma NoEntries(limit: int, a: seq<Quad>, xs: seq<Rid>, f: Rid -> seq<Quad>)
    requires a == Take(limit, a)
    ensures a == Take(limit, a + Concat(xs[..0], f))
  {
    assert a + [] == a;
  }

  // One more round of a loop.
  lemma Round(limit: int, a: seq<Quad>, xs: seq<Rid>, i: nat, f: Rid -> seq<Quad>, out: seq<Quad>)
    requires i < |xs| && out == Take(limit, a + Concat(xs[..i], f))
    ensures Take(limit, out + f(xs[i])) == Take(limit, a + Concat(xs[..i + 1], f)) && out == Take(limit, out)
  {
    ConcatNext(xs, i, f);
    TakeMore(limit, a + Concat(xs[..i], f), f(xs[i]));
    assert a + Concat(xs[..i + 1], f) == a + Concat(xs[..i], f) + f(xs[i]);
  }

  lemma LoopEnd(limit: int, a: seq<Quad>, xs: seq<Rid>, i: nat, f: Rid -> seq<Quad>, out: seq<Quad>)
    requires i <= |xs| && out == Take(limit, a + Concat(xs[..i], f)) && (i == |xs| || |out| >= limit)
    ensures out == Take(limit, a + Concat(xs, f))
  {
    if i == |xs| {
      assert xs[..i] == xs;
    } else {
      TakeRest(limit, a, xs, i, f);
    }
  }

  method LoopOther(trees: Trees, r: Request, side: Side, p: Rid, key: Rid, m: Rid, xs: seq<Rid>, limit: int,
                   out0: seq<Quad>)
      returns (out: seq<Quad>)
    requires out0 == Take(limit, out0)
    ensures out == Take(limit, out0 + ForModel(trees, r, side, p, key, xs)(m))
  {
    hide Take, Concat, ForOther;
    ghost var f := ForOther(trees, r, side, p, key, m);
    out := out0;
    var i := 0;
    NoEntries(limit, out0, xs, f);
    while i < |xs| && |out| < limit
      invariant i <= |xs| && out == Take(limit, out0 + Concat(xs[..i], f))
    {
      Round(limit, out0, xs, i, f, out);
      out := ScanRows(trees, r, side, p, key, m, xs[i], limit, out);
      i := i + 1;
    }
    LoopEnd(limit, out0, xs, i, f, out);
  }

  method LoopModels(trees: Trees, r: Request, side: Side, p: Rid, key: Rid, ms: seq<Rid>, xs: seq<Rid>, limit: int,
                    out0: seq<Quad>)
      returns (out: seq<Quad>)
    requires out0 == Take(limit, out0)
    ensures out == Take(limit, out0 + ForKey(trees, r, side, p, ms, xs)(key))
  {
    hide Take, Concat, ForModel;
    ghost var f := ForModel(trees, r, side, p, key, xs);
    out := out0;
    var i := 0;
    NoEntries(limit, out0, ms, f);
    while i < |ms| && |out| < limit
      invariant i <= |ms| && out == Take(limit, out0 + Concat(ms[..i], f))
    {
      Round(limit, out0, ms, i, f, out);
      out := LoopOther(trees, r, side, p, key, ms[i], xs, limit, out);
      i := i + 1;
    }
    LoopEnd(limit, out0, ms, i, f, out);
  }

  method LoopKeys(trees: Trees, r: Request, side: Side, p: Rid, keys: seq<Rid>, ms: seq<Rid>, xs: seq<Rid>,
                  limit: int, out0: seq<Quad>)
      returns (out: seq<Quad>)
    requires out0 == Take(limit, out0)
    ensures out == Take(limit, out0 + ForPredicate(trees, r, side, keys, ms, xs)(p))
  {
    hide Take, Concat, ForKey;
    ghost var f := ForKey(trees, r, side, p, ms, xs);
    out := out0;
    var i := 0;
    NoEntries(limit, out0, keys, f);
    while i < |keys| && |out| < limit
      invariant i <= |keys| && out == Take(limit, out0 + Concat(keys[..i], f))
    {
      Round(limit, out0, keys, i, f, out);
      out := LoopModels(trees, r, side, p, keys[i], ms, xs, limit, out);
      i := i + 1;
    }
    LoopEnd(limit, out0, keys, i, f, out);
  }

  // The loop over the predicates passes over those without a tree.
  method LoopPredicates(trees: Trees, r: Request, side: Side, pv: seq<Rid>, keys: seq<Rid>, ms: seq<Rid>,
                        xs: seq<Rid>, limit: int)
      returns (out: seq<Quad>)
    ensures out == Take(limit, Everything(trees, r, side, pv, keys, ms, xs))
  {
    hide Take, Concat, ForPredicate;
    ghost var f := ForPredicate(trees, r, side, keys, ms, xs);
    out := [];
    var i := 0;
    TakeNothing(limit);
    NoEntries(limit, [], pv, f);
    while i < |pv| && |out| < limit
      invariant i <= |pv| && out == Take(limit, [] + Concat(pv[..i], f))
    {
      Round(limit, [], pv, i, f, out);
      if pv[i] in trees {
        out := LoopKeys(trees, r, side, pv[i], keys, ms, xs, limit, out);
      } else {
        NoTree(trees, r, side, pv[i], keys, ms, xs);
        assert out + [] == out;
      }
      i := i + 1;
    }
    LoopEnd(limit, [], pv, i, f, out);
    assert [] + Concat(pv, f) == Concat(pv, f);
  }

  lemma TakeNothing(limit: int)
    ensures Take(limit, []) == []
  {
  }

  lemma {:induction false} ConcatNone(xs: seq<Rid>, f: Rid -> seq<Quad>)
    requires forall x: Rid :: f(x) == []
    ensures Concat(xs, f) == []
  {
    if xs != [] {
      ConcatNone(xs[..|xs| - 1], f);
    }
  }

  lemma NoTree(trees: Trees, r: Request, side: Side, p: Rid, keys: seq<Rid>, ms: seq<Rid>, xs: seq<Rid>)
    requires p !in trees
    ensures ForPredicate(trees, r, side, keys, ms, xs)(p) == []
  {
    forall key: Rid
      ensures ForKey(trees, r, side, p, ms, xs)(key) == []
    {
      forall m: Rid
        ensures ForModel(trees, r, side, p, key, xs)(m) == []
      {
        ConcatNone(xs, ForOther(trees, r, side, p, key, m));
      }
      ConcatNone(ms, ForModel(trees, r, side, p, key, xs));
    }
    ConcatNone(keys, ForKey(trees, r, side, p, ms, xs));
  }

  // ---- what the loops find ----

  ghost function Copies(trees: Trees, side: Side, q: Quad): nat {
    match side
    case BySubject => SCopies(trees, q)
    case ByObject => OCopies(trees, q)
  }

  function KeyOf(side: Side, q: Quad): Rid {
    match side
    case BySubject => q.s
    case ByObject => q.o
  }

  function RowOf(side: Side, q: Quad): Pair {
    match side
    case BySubject => Pair(q.m, q.o)
    case ByObject => Pair(q.m, q.s)
  }

  predicate Any(x: Rid, y: Rid) {
    x == RID_NULL || x == y
  }

  // How many entries of a vector equal `y`, or let it through.
  ghost function Equal(xs: seq<Rid>, y: Rid): nat {
    if xs == [] then 0 else Equal(xs[..|xs| - 1], y) + if xs[|xs| - 1] == y then 1 else 0
  }

  ghost function Letting(xs: seq<Rid>, y: Rid): nat {
    if xs == [] then 0 else Letting(xs[..|xs| - 1], y) + if Any(xs[|xs| - 1], y) then 1 else 0
  }

  lemma {:induction false} SelectCount(pattern: Pair, rows: seq<Pair>, row: Pair)
    ensures multiset(Select(pattern, rows))[row] == if Matches(pattern, row) then multiset(rows)[row] else 0
  {
    if rows != [] {
      SelectCount(pattern, rows[..|rows| - 1], row);
      assert rows == rows[..|rows| - 1] + [rows[|rows| - 1]];
    }
  }

  lemma {:induction false} WantedCount(rows: seq<Pair>, side: Side, p: Rid, key: Rid, r: Request, q: Quad)
    ensures multiset(WantedQuads(rows, side, p, key, r))[q] ==
            if q.p == p && KeyOf(side, q) == key && Wanted(q, r) then multiset(rows)[RowOf(side, q)] else 0
  {
    if rows != [] {
      var last := rows[|rows| - 1];
      WantedCount(rows[..|rows| - 1], side, p, key, r, q);
      assert rows == rows[..|rows| - 1] + [last];
      assert ToQuad(side, p, key, last) == q <==> q.p == p && KeyOf(side, q) == key && RowOf(side, q) == last;
    }
  }

  lemma OneMore(n: nat, hit: bool, c: nat)
    ensures (n + if hit then 1 else 0) * c == n * c + if hit then c else 0
  {
  }

  lemma {:induction false} ConcatEqual(xs: seq<Rid>, f: Rid -> seq<Quad>, q: Quad, y: Rid, c: nat)
    requires forall x: Rid :: multiset(f(x))[q] == if x == y then c else 0
    ensures multiset(Concat(xs, f))[q] == Equal(xs, y) * c
  {
    if xs != [] {
      var last := xs[|xs| - 1];
      ConcatEqual(xs[..|xs| - 1], f, q, y, c);
      ConcatLast(xs, f, q);
      OneMore(Equal(xs[..|xs| - 1], y), last == y, c);
    }
  }

  lemma {:induction false} ConcatLetting(xs: seq<Rid>, f: Rid -> seq<Quad>, q: Quad, y: Rid, c: nat)
    requires forall x: Rid :: multiset(f(x))[q] == if Any(x, y) then c else 0
    ensures multiset(Concat(xs, f))[q] == Letting(xs, y) * c
  {
    if xs != [] {
      var last := xs[|xs| - 1];
      ConcatLetting(xs[..|xs| - 1], f, q, y, c);
      ConcatLast(xs, f, q);
      OneMore(Letting(xs[..|xs| - 1], y), Any(last, y), c);
    }
  }

  lemma ConcatLast(xs: seq<Rid>, f: Rid -> seq<Quad>, q: Quad)
    requires xs != []
    ensures multiset(Concat(xs, f))[q] == multiset(Concat(xs[..|xs| - 1], f))[q] + multiset(f(xs[|xs| - 1]))[q]
  {
  }

  function Times(a: nat, b: nat): nat {
    a * b
  }

  // How often a quad is found by the innermost loop, the two innermost, and so on.
  ghost function PerOther(trees: Trees, side: Side, xs: seq<Rid>, q: Quad): nat {
    Times(Letting(xs, RowOf(side, q).other), Copies(trees, side, q))
  }

  ghost function PerModel(trees: Trees, side: Side, ms: seq<Rid>, xs: seq<Rid>, q: Quad): nat {
    Times(Letting(ms, q.m), PerOther(trees, side, xs, q))
  }

  ghost function PerKey(trees: Trees, side: Side, keys: seq<Rid>, ms: seq<Rid>, xs: seq<Rid>, q: Quad): nat {
    Times(Equal(keys, KeyOf(side, q)), PerModel(trees, side, ms, xs, q))
  }

  lemma CountOther(trees: Trees, r: Request, side: Side, p: Rid, key: Rid, m: Rid, x: Rid, q: Quad)
    ensures multiset(ForOther(trees, r, side, p, key, m)(x))[q] ==
            if q.p == p && KeyOf(side, q) == key && Wanted(q, r) && Any(m, q.m) && Any(x, RowOf(side, q).other)
            then Copies(trees, side, q) else 0
  {
    var rows := RowsAt(trees, p, key);
    WantedCount(Select(Pair(m, x), rows), side, p, key, r, q);
    SelectCount(Pair(m, x), rows, RowOf(side, q));
  }

  lemma CountModel(trees: Trees, r: Request, side: Side, p: Rid, key: Rid, xs: seq<Rid>, m: Rid, q: Quad)
    ensures multiset(ForModel(trees, r, side, p, key, xs)(m))[q] ==
            if q.p == p && KeyOf(side, q) == key && Wanted(q, r) && Any(m, q.m) then PerOther(trees, side, xs, q) else 0
  {
    hide Copies, Letting, Wanted, ForOther;
    var f := ForOther(trees, r, side, p, key, m);
    forall x: Rid
      ensures multiset(f(x))[q] ==
        if q.p == p && KeyOf(side, q) == key && Wanted(q, r) && Any(m, q.m) && Any(x, RowOf(side, q).other)
            then Copies(trees, side, q) else 0
    {
      CountOther(trees, r, side, p, key, m, x, q);
    }
    if q.p == p && KeyOf(side, q) == key && Wanted(q, r) && Any(m, q.m) {
      ConcatLetting(xs, f, q, RowOf(side, q).other, Copies(trees, side, q));
    } else {
      ConcatLetting(xs, f, q, RowOf(side, q).other, 0);
    }
  }

  lemma CountKey(trees: Trees, r: Request, side: Side, p: Rid, ms: seq<Rid>, xs: seq<Rid>, key: Rid, q: Quad)
    ensures multiset(ForKey(trees, r, side, p, ms, xs)(key))[q] ==
            if q.p == p && KeyOf(side, q) == key && Wanted(q, r) then PerModel(trees, side, ms, xs, q) else 0
  {
    hide PerOther, Letting, Wanted, ForModel;
    var f := ForModel(trees, r, side, p, key, xs);
    forall m: Rid
      ensures multiset(f(m))[q] ==
        if q.p == p && KeyOf(side, q) == key && Wanted(q, r) && Any(m, q.m) then PerOther(trees, side, xs, q) else 0
    {
      CountModel(trees, r, side, p, key, xs, m, q);
    }
    if q.p == p && KeyOf(side, q) == key && Wanted(q, r) {
      ConcatLetting(ms, f, q, q.m, PerOther(trees, side, xs, q));
    } else {
      ConcatLetting(ms, f, q, q.m, 0);
    }
  }

  lemma CountPredicate(trees: Trees, r: Request, side: Side, keys: seq<Rid>, ms: seq<Rid>, xs: seq<Rid>, p: Rid,
                       q: Quad)
    ensures multiset(ForPredicate(trees, r, side, keys, ms, xs)(p))[q] ==
            if q.p == p && Wanted(q, r) then PerKey(trees, side, keys, ms, xs, q) else 0
  {
    hide PerModel, Equal, Wanted, ForKey;
    var f := ForKey(trees, r, side, p, ms, xs);
    forall key: Rid
      ensures multiset(f(key))[q] ==
        if q.p == p && KeyOf(side, q) == key && Wanted(q, r) then PerModel(trees, side, ms, xs, q) else 0
    {
      CountKey(trees, r, side, p, ms, xs, key, q);
    }
    if q.p == p && Wanted(q, r) {
      ConcatEqual(keys, f, q, KeyOf(side, q), PerModel(trees, side, ms, xs, q));
    } else {
      ConcatEqual(keys, f, q, KeyOf(side, q), 0);
    }
  }

  // How often the loops return a quad, whatever the vectors hold: once per copy and per combination of
  // entries that lets it through.
  lemma Counted(trees: Trees, r: Request, side: Side, pv: seq<Rid>, keys: seq<Rid>, ms: seq<Rid>, xs: seq<Rid>, q: Quad)
    ensures multiset(Everything(trees, r, side, pv, keys, ms, xs))[q] ==
            if Wanted(q, r) then Equal(pv, q.p) * PerKey(trees, side, keys, ms, xs, q) else 0
  {
    hide PerKey, Equal, Wanted, ForPredicate;
    var f := ForPredicate(trees, r, side, keys, ms, xs);
    forall p: Rid
      ensures multiset(f(p))[q] == if q.p == p && Wanted(q, r) then PerKey(trees, side, keys, ms, xs, q) else 0
    {
      CountPredicate(trees, r, side, keys, ms, xs, p, q);
    }
    if Wanted(q, r) {
      ConcatEqual(pv, f, q, q.p, PerKey(trees, side, keys, ms, xs, q));
    } else {
      ConcatEqual(pv, f, q, q.p, 0);
    }
  }

  lemma {:induction false} EqualOnce(xs: seq<Rid>, y: Rid)
    requires Distinct(xs)
    ensures Equal(xs, y) == if y in xs then 1 else 0
  {
    if xs != [] {
      EqualOnce(xs[..|xs| - 1], y);
      assert xs == xs[..|xs| - 1] + [xs[|xs| - 1]];
    }
  }

  lemma {:induction false} LettingConcrete(xs: seq<Rid>, y: Rid)
    requires RID_NULL !in xs
    ensures Letting(xs, y) == Equal(xs, y)
  {
    if xs != [] {
      LettingConcrete(xs[..|xs| - 1], y);
      assert xs[|xs| - 1] in xs;
    }
  }

  lemma {:induction false} LettingSplit(xs: seq<Rid>, y: Rid)
    ensures Letting(xs, y) == Equal(xs, y) + if y == RID_NULL then 0 else Equal(xs, RID_NULL)
  {
    if xs != [] {
      LettingSplit(xs[..|xs| - 1], y);
    }
  }

  lemma LettingWays(v: seq<Rid>, y: Rid)
    requires Distinct(v)
    ensures Letting(OrAny(v), y) == Ways(v, y)
  {
    if v == [] {
      assert [RID_NULL][..0] == [];
      assert Letting([RID_NULL][..0], y) == 0;
    } else {
      LettingSplit(v, y);
      EqualOnce(v, y);
      EqualOnce(v, RID_NULL);
    }
  }

  // Given concrete subjects and objects, looking up by object finds the same quads as by subject.
  lemma BothWays(st: Trees, ot: Trees, r: Request, pv: seq<Rid>, sv: seq<Rid>, ms: seq<Rid>, ov: seq<Rid>)
    requires Agree(st, ot) && RID_NULL !in sv && RID_NULL !in ov
    ensures multiset(Everything(st, r, BySubject, pv, sv, ms, ov)) ==
      multiset(Everything(ot, r, ByObject, pv, ov, ms, sv))
  {
    forall q: Quad
      ensures multiset(Everything(st, r, BySubject, pv, sv, ms, ov))[q] ==
        multiset(Everything(ot, r, ByObject, pv, ov, ms, sv))[q]
    {
      Counted(st, r, BySubject, pv, sv, ms, ov, q);
      Counted(ot, r, ByObject, pv, ov, ms, sv, q);
      LettingConcrete(sv, q.s);
      LettingConcrete(ov, q.o);
      assert SCopies(st, q) == OCopies(ot, q);
      Exchange(Equal(sv, q.s), Letting(ms, q.m), Equal(ov, q.o), SCopies(st, q));
    }
  }

  lemma Exchange(a: nat, b: nat, c: nat, d: nat)
    ensures a * (b * (c * d)) == c * (b * (a * d))
  {
    assert a * (b * (c * d)) == (a * b * c) * d;
    assert c * (b * (a * d)) == (c * b * a) * d;
  }

  // ---- fs_bind ----

  // In how many ways a vector of different entries lets `y` through: an empty one as the wildcard does.
  ghost function Ways(v: seq<Rid>, y: Rid): nat {
    if v == [] then 1 else (if y in v then 1 else 0) + if RID_NULL in v && y != RID_NULL then 1 else 0
  }

  // The number of columns asked for.
  function Cols(r: Request): nat {
    (if r.bindM then 1 else 0) + (if r.bindS then 1 else 0) + (if r.bindP then 1 else 0) + (if r.bindO then 1 else 0)
  }

  // How often a quad should be found: once per copy and per way in which the vectors let it through.
  ghost function Expected(trees: Trees, r: Request, side: Side, mv: seq<Rid>, pv: seq<Rid>, keys: seq<Rid>,
                          xv: seq<Rid>, q: Quad): nat {
    if Asked(q, r) && q.p in pv && KeyOf(side, q) in keys
    then Ways(mv, q.m) * (Ways(xv, RowOf(side, q).other) * Copies(trees, side, q)) else 0
  }

  // For concrete entries that is as often as it is stored, if all vectors let it through.
  lemma ExpectedConcrete(trees: Trees, r: Request, side: Side, mv: seq<Rid>, pv: seq<Rid>, keys: seq<Rid>,
                         xv: seq<Rid>, q: Quad)
    requires RID_NULL !in mv && RID_NULL !in xv
    ensures Expected(trees, r, side, mv, pv, keys, xv, q) ==
      if Asked(q, r) && q.p in pv && KeyOf(side, q) in keys &&
         (mv == [] || q.m in mv) && (xv == [] || RowOf(side, q).other in xv)
      then Copies(trees, side, q) else 0
  {
  }

  // The number of rows asked for: one is enough when no column is to be bound.
  function Most(r: Request, limit: int): int {
    if Cols(r) == 0 then 1 else if limit == -1 then INT_MAX else limit
  }

  // Fewer rows than asked for, or no more. A limit of -1 stands for the largest number an int can hold, and
  // without columns the first row ends the search.
  ghost predicate Fewer(n: nat, r: Request, limit: int) {
    if Cols(r) == 0 then n == 0 else if limit == -1 then n < 0x7fff_ffff else n < limit
  }

  ghost predicate NoMore(n: nat, r: Request, limit: int) {
    n == 0 || if Cols(r) == 0 then n == 1 else if limit == -1 then n <= 0x7fff_ffff else n <= limit
  }

  /**
    The predicate-bound branches of fs_bind, for a query whose key vector (subjects or objects) is given
    and not paired with the predicates. Each quad is returned as often as it should be found, or less often
    if the limit cuts in. The columns returned are those of the rows found; without columns, `none` tells
    whether there was no row.
   */
  method Bind(trees: Trees, r: Request, side: Side, mv: seq<Rid>, pv: seq<Rid>, keys: seq<Rid>, xv: seq<Rid>,
              limit: int)
      returns (out: seq<Quad>, ret: seq<seq<Rid>>, none: bool)
    requires pv != [] && keys != [] && |pv| != |keys|
    ensures ret == Columns(out, r) && |ret| == Cols(r) && none == (out == [] && Cols(r) == 0)
    ensures NoMore(|out|, r, limit)
    ensures forall q: Quad :: multiset(out)[q] <= Expected(trees, r, side, mv, pv, keys, xv, q)
    ensures Fewer(|out|, r, limit) ==> forall q: Quad ::
      multiset(out)[q] == Expected(trees, r, side, mv, pv, keys, xv, q)
  {
    hide Take, Everything, Distinct, Wanted, Asked, Copies, OrAny, Expected;
    var most := Most(r, limit);
    var ms := SortUniq(mv);
    var ps := SortUniq(pv);
    var ks := SortUniq(keys);
    var xs := SortUniq(xv);
    out := LoopPredicates(trees, r, side, ps, ks, OrAny(ms), OrAny(xs), most);
    ghost var all := Everything(trees, r, side, ps, ks, OrAny(ms), OrAny(xs));
    forall q: Quad
      ensures multiset(all)[q] == Expected(trees, r, side, mv, pv, keys, xv, q)
    {
      CountedOnce(trees, r, side, ms, ps, ks, xs, q);
      SameExpected(trees, r, side, mv, pv, keys, xv, ms, ps, ks, xs, q);
    }
    TakeSome(most, all);
    ret := Collect(out, r);
    none := out == [] && Cols(r) == 0;
  }

  lemma TakeSome(limit: int, all: seq<Quad>)
    ensures |Take(limit, all)| <= if limit < 0 then 0 else limit
    ensures forall q :: multiset(Take(limit, all))[q] <= multiset(all)[q]
    ensures |Take(limit, all)| < limit ==> Take(limit, all) == all
  {
    var some := Take(limit, all);
    assert all == some + all[|some|..];
  }

  // Vectors of different entries.
  lemma CountedOnce(trees: Trees, r: Request, side: Side, ms: seq<Rid>, ps: seq<Rid>, ks: seq<Rid>, xs: seq<Rid>,
                    q: Quad)
    requires Distinct(ms) && Distinct(ps) && Distinct(ks) && Distinct(xs)
    ensures multiset(Everything(trees, r, side, ps, ks, OrAny(ms), OrAny(xs)))[q] ==
            Expected(trees, r, side, ms, ps, ks, xs, q)
  {
    hide Everything, Wanted, Asked, Equal, Letting, Copies, OrAny;
    Counted(trees, r, side, ps, ks, OrAny(ms), OrAny(xs), q);
    WantedIff(q, r);
    EqualOnce(ps, q.p);
    EqualOnce(ks, KeyOf(side, q));
    LettingWays(ms, q.m);
    LettingWays(xs, RowOf(side, q).other);
  }

  lemma SameExpected(trees: Trees, r: Request, side: Side, mv: seq<Rid>, pv: seq<Rid>, keys: seq<Rid>,
                     xv: seq<Rid>, ms: seq<Rid>, ps: seq<Rid>, ks: seq<Rid>, xs: seq<Rid>, q: Quad)
    requires (forall x :: x in ms <==> x in mv) && (forall x :: x in ps <==> x in pv)
    requires (forall x :: x in ks <==> x in keys) && (forall x :: x in xs <==> x in xv)
    ensures Expected(trees, r, side, ms, ps, ks, xs, q) == Expected(trees, r, side, mv, pv, keys, xv, q)
  {
    SameEmptiness(mv, ms);
    SameEmptiness(xv, xs);
  }

  lemma SameEmptiness(v: seq<Rid>, u: seq<Rid>)
    requires forall x :: x in u <==> x in v
    ensures u == [] <==> v == []
  {
    if v != [] {
      assert v[0] in u;
    }
    if u != [] {
      assert u[0] in v;
    }
  }

  // ---- result columns ----

  ghost function Column(rows: seq<Quad>, slot: nat): seq<Rid>
    requires slot < 4
  {
    if rows == [] then [] else Column(rows[..|rows| - 1], slot) + [Slot(rows[|rows| - 1], slot)]
  }

  // One vector per column asked for, in slot order.
  ghost function Columns(rows: seq<Quad>, r: Request): seq<seq<Rid>> {
    (if r.bindM then [Column(rows, 0)] else []) + (if r.bindS then [Column(rows, 1)] else []) +
    (if r.bindP then [Column(rows, 2)] else []) + (if r.bindO then [Column(rows, 3)] else [])
  }

  // bind_results: appends a quad's components to the vectors of the columns asked for.
  method BindResults(q: Quad, r: Request, ret: seq<seq<Rid>>, ghost rows: seq<Quad>) returns (ret': seq<seq<Rid>>)
    requires ret == Columns(rows, r)
    ensures ret' == Columns(rows + [q], r)
  {
    ColumnsNext(rows, q);
    ret' := ret;
    var col := 0;
    if r.bindM {
      ret' := ret'[col := ret'[col] + [q.m]];
      col := col + 1;
    }
    if r.bindS {
      ret' := ret'[col := ret'[col] + [q.s]];
      col := col + 1;
    }
    if r.bindP {
      ret' := ret'[col := ret'[col] + [q.p]];
      col := col + 1;
    }
    if r.bindO {
      ret' := ret'[col := ret'[col] + [q.o]];
      col := col + 1;
    }
  }

  // The columns of a result, row by row.
  method Collect(rows: seq<Quad>, r: Request) returns (ret: seq<seq<Rid>>)
    ensures ret == Columns(rows, r) && |ret| == Cols(r)
  {
    hide Column;
    ret := seq(Cols(r), _ => []);
    NoRowsYet(r);
    assert rows[..0] == [];
    for i := 0 to |rows|
      invariant ret == Columns(rows[..i], r)
    {
      ret := BindResults(rows[i], r, ret, rows[..i]);
      assert rows[..i + 1] == rows[..i] + [rows[i]];
    }
    assert rows[..|rows|] == rows;
  }

  lemma NoRowsYet(r: Request)
    ensures Columns([], r) == seq(Cols(r), _ => [])
  {
  }

  lemma ColumnsNext(rows: seq<Quad>, q: Quad)
    ensures forall slot: nat :: slot < 4 ==> Column(rows + [q], slot) == Column(rows, slot) + [Slot(q, slot)]
  {
    assert (rows + [q])[..|rows|] == rows;
  }
}
