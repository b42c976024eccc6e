/**
  The resource table: an open hash from resource identifiers to their entries, which doubles in place when
  the neighbourhood of a slot is full.
 */
module ResourceHash {
  import opened Rids
  import opened Literals
  import opened PrefixTries
  import opened Lexicon

  const BUCKET := 16
  const SEARCH_DIST := 32
  const MAX_PREFIXES := 256

  predicate IsUri(rid: Rid) {
    rid >= 0xC000_0000_0000_0000
  }

  // The two highest bits are set.
  lemma UriBits(rid: Rid)
    ensures IsUri(rid) <==> rid / 0x4000_0000_0000_0000 == 3
  {
  }

  // ---- the table ----

  function Mod(r: nat, s: nat): (m: nat)
    requires s > 0
    ensures m < s
  {
    r % s
  }

  // FS_RHASH_ENTRY: the first slot of the bucket a resource belongs to.
  function Home(size: nat, rid: Rid): nat
    requires size > 0
  {
    Mod(rid / 1024, size) * BUCKET
  }

  // The homes go round the table: the resources of one kilo share a bucket, those of the next have the next.
  lemma HomeCycles(size: nat, rid: Rid)
    requires size > 0
    ensures rid < 1024 ==> Home(size, rid) == 0
    ensures rid >= 1024 ==>
      var next := Home(size, rid - 1024) + BUCKET;
      Home(size, rid) == if next == size * BUCKET then 0 else next
  {
    hide Mod;
    if rid < 1024 {
      Remainder(0, size, 0, 0);
    } else {
      var r := rid / 1024;
      assert (rid - 1024) / 1024 == r - 1;
      var m := Mod(r - 1, size);
      var q := Divided(r - 1, size);
      Difference(size, q + 1, q);
      if m + 1 < size {
        Remainder(r, size, q, m + 1);
      } else {
        Remainder(r, size, q + 1, 0);
      }
    }
  }

  ghost predicate Near(entries: seq<Entry>, size: nat, a: nat)
    requires size > 0 && a < |entries|
  {
    entries[a].rid != 0 ==> Home(size, entries[a].rid) <= a < Home(size, entries[a].rid) + SEARCH_DIST
  }

  ghost function Occupied(entries: seq<Entry>): nat {
    if entries == [] then 0 else Occupied(entries[..|entries| - 1]) + if entries[|entries| - 1].rid != 0 then 1 else 0
  }

  // Every resource is near its home slot, and in one slot only.
  ghost predicate Placed(entries: seq<Entry>, size: nat) {
    && size > 0 && |entries| == size * BUCKET
    && (forall a: nat {:trigger Near(entries, size, a)} :: a < |entries| ==> Near(entries, size, a))
    && (forall a, b :: 0 <= a < b < |entries| && entries[a].rid != 0 ==> entries[a].rid != entries[b].rid)
  }

  lemma {:induction false} OccupiedSplit(a: seq<Entry>, b: seq<Entry>)
    ensures Occupied(a + b) == Occupied(a) + Occupied(b)
  {
    if b == [] {
      assert a + b == a;
    } else {
      assert (a + b)[..|a + b| - 1] == a + b[..|b| - 1];
      OccupiedSplit(a, b[..|b| - 1]);
    }
  }

  lemma OccupiedFilled(entries: seq<Entry>, k: nat, e: Entry)
    requires k < |entries| && entries[k].rid == 0 && e.rid != 0
    ensures Occupied(entries[k := e]) == Occupied(entries) + 1
  {
    var a, b := entries[..k], entries[k + 1..];
    assert entries == a + [entries[k]] + b;
    assert entries[k := e] == a + [e] + b;
    OccupiedSplit(a + [entries[k]], b);
    OccupiedSplit(a, [entries[k]]);
    OccupiedSplit(a + [e], b);
    OccupiedSplit(a, [e]);
    assert [e][..0] == [] && [entries[k]][..0] == [];
  }

  // ---- doubling ----

  lemma PlacedLength(entries: seq<Entry>, size: nat)
    requires Placed(entries, size)
    ensures |entries| == size * BUCKET
  {
  }

  // An entry moves to the upper half when its new home is there.
  predicate Moves(e: Entry, size: nat)
    requires size > 0
  {
    e.rid != 0 && Home(2 * size, e.rid) >= size * BUCKET
  }

  ghost function Lower(entries: seq<Entry>, size: nat): (r: seq<Entry>)
    requires size > 0
    ensures |r| == |entries|
  {
    seq(|entries|, a requires 0 <= a < |entries| => if Moves(entries[a], size) then BLANK else entries[a])
  }

  ghost function Upper(entries: seq<Entry>, size: nat): (r: seq<Entry>)
    requires size > 0
    ensures |r| == |entries|
  {
    seq(|entries|, a requires 0 <= a < |entries| => if Moves(entries[a], size) then entries[a] else BLANK)
  }

  lemma Multiple(s: int, d: int)
    requires s > 0
    ensures d >= 1 ==> s * d >= s
    ensures d <= -1 ==> s * d <= -s
  {
  }

  lemma Difference(s: int, q: int, k: int)
    ensures s * (q - k) == s * q - s * k
  {
  }

  lemma Divided(r: nat, s: nat) returns (q: nat)
    requires s > 0
    ensures r == s * q + Mod(r, s)
  {
    q := r / s;
  }

  lemma Remainder(r: nat, s: nat, k: nat, m: nat)
    requires r == s * k + m && m < s
    ensures Mod(r, s) == m
  {
    hide Mod;
    var q := Divided(r, s);
    Multiple(s, q - k);
    Difference(s, q, k);
  }

  // Doubling the divisor leaves a remainder as it is or adds the old divisor to it.
  lemma RemainderDoubled(r: nat, s: nat)
    requires s > 0
    ensures Mod(r, 2 * s) == Mod(r, s) + if Mod(r, 2 * s) >= s then s else 0
  {
    hide Mod;
    var k := Divided(r, 2 * s);
    var m := Mod(r, 2 * s);
    Twice(s, k);
    if m < s {
      Remainder(r, s, 2 * k, m);
    } else {
      Remainder(r, s, 2 * k + 1, m - s);
    }
  }

  lemma Twice(s: nat, k: nat)
    ensures (2 * s) * k == s * (2 * k) && (2 * s) * k + s == s * (2 * k + 1)
  {
  }

  // Doubling leaves a home slot where it is or moves it up by the old length of the table.
  lemma HomeDoubled(size: nat, rid: Rid)
    requires size > 0
    ensures Home(2 * size, rid) == Home(size, rid) + if Home(2 * size, rid) >= size * BUCKET then size * BUCKET else 0
  {
    hide Mod;
    RemainderDoubled(rid / 1024, size);
  }

  // Where an entry is after doubling.
  ghost function DoubledPlace(entries: seq<Entry>, size: nat, a: nat): nat
    requires size > 0 && a < |entries|
  {
    a + if Moves(entries[a], size) then |entries| else 0
  }

  // Every entry keeps its distance from home.
  lemma DistanceKept(entries: seq<Entry>, size: nat, a: nat)
    requires Placed(entries, size) && a < |entries| && entries[a].rid != 0
    ensures
      var a' := DoubledPlace(entries, size, a);
      && (Lower(entries, size) + Upper(entries, size))[a'] == entries[a]
      && a' - Home(2 * size, entries[a].rid) == a - Home(size, entries[a].rid)
  {
    HomeDoubled(size, entries[a].rid);
  }

  // So it stays near, and the only one for its resource.
  lemma DoubledPlaced(entries: seq<Entry>, size: nat)
    requires Placed(entries, size)
    ensures Placed(Lower(entries, size) + Upper(entries, size), 2 * size)
  {
    var n := |entries|;
    var e' := Lower(entries, size) + Upper(entries, size);
    forall a: nat | a < |e'|
      ensures Near(e', 2 * size, a)
    {
      var b := if a < n then a else a - n;
      assert Near(entries, size, b);
      if e'[a].rid != 0 {
        DistanceKept(entries, size, b);
      }
    }
  }

  lemma {:induction false} DoubledCount(entries: seq<Entry>, size: nat)
    requires size > 0
    ensures Occupied(Lower(entries, size)) + Occupied(Upper(entries, size)) == Occupied(entries)
  {
    if entries != [] {
      var n := |entries| - 1;
      DoubledCount(entries[..n], size);
      assert Lower(entries, size)[..n] == Lower(entries[..n], size);
      assert Upper(entries, size)[..n] == Upper(entries[..n], size);
    }
  }

  // ---- the class ----

  datatype Resource = Resource(attr: Rid, lex: Text)

  // What is known about a stored resource: its slot, its entry, and what it was first stored with.
  datatype Known = Known(slot: nat, entry: Entry, first: Resource)

  // The entry is in its slot, stands for the string, and has the attribute unless a prefix overlays it.
  ghost predicate InSlot(entries: seq<Entry>, l: Lex, z: Zlib, rid: Rid, k: Known) {
    && rid != 0 && k.slot < |entries| && entries[k.slot] == k.entry && k.entry.rid == rid
    && Holds(k.entry, k.first.lex, l, z)
    && (!Overlaid(k.entry.disp) ==> k.entry.attr == k.first.attr)
  }

  // Exactly the known resources are stored.
  ghost predicate Recorded(entries: seq<Entry>, l: Lex, z: Zlib, known: map<Rid, Known>) {
    && (forall rid {:trigger InSlot(entries, l, z, rid, known[rid])} ::
          rid in known ==> InSlot(entries, l, z, rid, known[rid]))
    && (forall a :: 0 <= a < |entries| && entries[a].rid != 0 ==> entries[a].rid in known)
    && (forall a :: 0 <= a < |entries| ==> EntryOk(entries[a]))
  }

  ghost function FirstOf(known: map<Rid, Known>): map<Rid, Resource> {
    map rid | rid in known :: known[rid].first
  }

  ghost function EntriesOf(known: map<Rid, Known>): map<Rid, Entry> {
    map rid | rid in known :: known[rid].entry
  }

  // One free slot has been filled.
  ghost predicate Filled(entries: seq<Entry>, entries': seq<Entry>, k: Known) {
    k.slot < |entries| && entries[k.slot].rid == 0 && entries' == entries[k.slot := k.entry]
  }

  // No slot from `from` on, within the search distance, is free.
  ghost predicate Crowded(entries: seq<Entry>, from: nat) {
    forall a :: from <= a < from + SEARCH_DIST && a < |entries| ==> entries[a].rid != 0
  }

  // The first slot from `from` on, within the search distance, that is free.
  ghost predicate FirstFree(entries: seq<Entry>, from: nat, slot: nat) {
    && from <= slot < from + SEARCH_DIST && slot < |entries| && entries[slot].rid == 0
    && forall a :: from <= a < slot ==> entries[a].rid != 0
  }

  lemma FreeSlot(entries: seq<Entry>, from: nat, slot: nat)
    requires FirstFree(entries, from, slot)
    ensures from <= slot < from + SEARCH_DIST && slot < |entries| && entries[slot].rid == 0
  {
  }

  lemma KeysOf(known: map<Rid, Known>)
    ensures FirstOf(known).Keys == known.Keys && EntriesOf(known).Keys == known.Keys
    ensures forall rid :: rid in known ==>
      FirstOf(known)[rid] == known[rid].first && EntriesOf(known)[rid] == known[rid].entry
  {
  }

  ghost function DoubledKnown(entries: seq<Entry>, size: nat, known: map<Rid, Known>): map<Rid, Known>
    requires size > 0
  {
    map rid | rid in known ::
      if known[rid].slot < |entries| then known[rid].(slot := DoubledPlace(entries, size, known[rid].slot))
        else known[rid]
  }

  lemma DoubledRecorded(entries: seq<Entry>, size: nat, l: Lex, z: Zlib, known: map<Rid, Known>)
    requires Placed(entries, size) && Recorded(entries, l, z, known)
    ensures Recorded(Lower(entries, size) + Upper(entries, size), l, z, DoubledKnown(entries, size, known))
    ensures FirstOf(DoubledKnown(entries, size, known)) == FirstOf(known)
    ensures EntriesOf(DoubledKnown(entries, size, known)) == EntriesOf(known)
  {
    hide Holds;
    var n, e', known' := |entries|, Lower(entries, size) + Upper(entries, size), DoubledKnown(entries, size, known);
    forall rid | rid in known'
      ensures InSlot(e', l, z, rid, known'[rid])
    {
      assert InSlot(entries, l, z, rid, known[rid]);
      DistanceKept(entries, size, known[rid].slot);
    }
    forall a | 0 <= a < |e'|
      ensures EntryOk(e'[a]) && (e'[a].rid != 0 ==> e'[a].rid in known')
    {
      var b := if a < n then a else a - n;
      assert EntryOk(entries[b]);
    }
  }

  lemma StoredRecorded(entries: seq<Entry>, l: Lex, z: Zlib, known: map<Rid, Known>, rid: Rid, k: Known)
    requires Recorded(entries, l, z, known) && k.slot < |entries| && entries[k.slot].rid == 0 && rid !in known
    requires EntryOk(k.entry) && InSlot(entries[k.slot := k.entry], l, z, rid, k)
    ensures Recorded(entries[k.slot := k.entry], l, z, known[rid := k])
    ensures FirstOf(known[rid := k]) == FirstOf(known)[rid := k.first]
    ensures EntriesOf(known[rid := k]) == EntriesOf(known)[rid := k.entry]
  {
    hide Holds;
    var e', known' := entries[k.slot := k.entry], known[rid := k];
    forall r | r in known'
      ensures InSlot(e', l, z, r, known'[r])
    {
      assert r != rid ==> InSlot(entries, l, z, r, known[r]);
    }
  }

  lemma StillRecorded(entries: seq<Entry>, l: Lex, l': Lex, z: Zlib, known: map<Rid, Known>)
    requires Recorded(entries, l, z, known) && Grown(l, l')
    ensures Recorded(entries, l', z, known)
  {
    hide Holds;
    forall rid | rid in known
      ensures InSlot(entries, l', z, rid, known[rid])
    {
      assert InSlot(entries, l, z, rid, known[rid]);
      HoldsStill(known[rid].entry, known[rid].first.lex, l, l', z);
    }
  }

  lemma StoredPlaced(entries: seq<Entry>, size: nat, k: nat, e: Entry)
    requires Placed(entries, size) && k < |entries| && e.rid != 0
    requires Home(size, e.rid) <= k < Home(size, e.rid) + SEARCH_DIST
    requires forall a :: 0 <= a < |entries| ==> entries[a].rid != e.rid
    ensures Placed(entries[k := e], size)
  {
    var e' := entries[k := e];
    forall a: nat | a < |entries|
      ensures Near(e', size, a)
    {
      assert Near(entries, size, a);
    }
  }

  // The buckets before `i` are done.
  ghost predicate Halfway(was: seq<Entry>, entries: seq<Entry>, size: nat, i: nat)
    requires size > 0
  {
    var n := size * BUCKET;
    && |was| == n && |entries| == 2 * n
    && (forall a {:trigger entries[a]} ::
          0 <= a < n ==> entries[a] == if a < i && Moves(was[a], size) then BLANK else was[a])
    && (forall a {:trigger entries[a]} ::
          n <= a < 2 * n ==> entries[a] == if a - n < i && Moves(was[a - n], size) then was[a - n] else BLANK)
  }

  // The bucket from `i` on is done.
  ghost predicate BucketSplit(was: seq<Entry>, entries: seq<Entry>, size: nat, i: nat)
    requires size > 0
  {
    var n := size * BUCKET;
    && |was| == |entries| == 2 * n && i + BUCKET <= n
    && (forall a {:trigger entries[a]} :: 0 <= a < n ==>
          entries[a] == if i <= a < i + BUCKET && Moves(was[a], size) then BLANK else was[a])
    && (forall a {:trigger entries[a]} :: n <= a < 2 * n ==>
          entries[a] == if i <= a - n < i + BUCKET then if Moves(was[a - n], size) then was[a - n]
            else BLANK else was[a])
  }

  // memcpy into the entries.
  function Paste(entries: seq<Entry>, at: nat, high: seq<Entry>): (r: seq<Entry>)
    requires at + |high| <= |entries|
    ensures |r| == |entries|
    ensures forall a {:trigger r[a]} :: 0 <= a < |r| ==>
      r[a] == if at <= a < at + |high| then high[a - at] else entries[a]
  {
    entries[..at] + high + entries[at + |high|..]
  }

  lemma BucketPasted(was: seq<Entry>, entries: seq<Entry>, high: seq<Entry>, size: nat, i: nat)
    requires size > 0 && |was| == |entries| == 2 * (size * BUCKET) && i + BUCKET <= size * BUCKET && |high| == BUCKET
    requires forall a :: 0 <= a < |was| ==>
      entries[a] == if i <= a < i + BUCKET && Moves(was[a], size) then BLANK else was[a]
    requires forall k :: 0 <= k < BUCKET ==> high[k] == if Moves(was[i + k], size) then was[i + k] else BLANK
    ensures BucketSplit(was, Paste(entries, size * BUCKET + i, high), size, i)
  {
    var n, r := size * BUCKET, Paste(entries, size * BUCKET + i, high);
    forall a | n <= a < 2 * n
      ensures r[a] == if i <= a - n < i + BUCKET then if Moves(was[a - n], size) then was[a - n] else BLANK else was[a]
    {
      if i <= a - n < i + BUCKET {
        assert r[a] == high[a - n - i];
      }
    }
  }

  lemma HalfwayStart(was: seq<Entry>, entries: seq<Entry>, size: nat)
    requires size > 0 && |was| == size * BUCKET && |entries| == 2 * |was| && entries[..|was|] == was
    requires forall a :: |was| <= a < |entries| ==> entries[a] == BLANK
    ensures Halfway(was, entries, size, 0)
  {
    assert forall a :: 0 <= a < |was| ==> entries[a] == entries[..|was|][a];
  }

  lemma HalfwayNext(was: seq<Entry>, entries: seq<Entry>, entries': seq<Entry>, size: nat, i: nat)
    requires size > 0 && Halfway(was, entries, size, i) && BucketSplit(entries, entries', size, i)
    ensures Halfway(was, entries', size, i + BUCKET)
  {
    var n := size * BUCKET;
    forall a | 0 <= a < n
      ensures entries'[a] == if a < i + BUCKET && Moves(was[a], size) then BLANK else was[a]
    {
      assert entries[a] == if a < i && Moves(was[a], size) then BLANK else was[a];
    }
    forall a | n <= a < 2 * n
      ensures entries'[a] == if a - n < i + BUCKET && Moves(was[a - n], size) then was[a - n] else BLANK
    {
      assert entries[a - n] == if a - n < i && Moves(was[a - n], size) then BLANK else was[a - n];
      assert entries[a] == if a - n < i && Moves(was[a - n], size) then was[a - n] else BLANK;
    }
  }

  lemma HalfwayEnd(was: seq<Entry>, entries: seq<Entry>, size: nat)
    requires size > 0 && Halfway(was, entries, size, size * BUCKET)
    ensures entries == Lower(was, size) + Upper(was, size)
  {
  }

  // A long string that compressing makes shorter.
  ghost predicate Shrinks(lex: Text, z: Zlib) {
    |lex| > 100 && 0 < |z.deflate(lex)| < |lex| - 4
  }

  // A string that fits into the entry without a prefix code.
  ghost predicate Inline(lex: Text) {
    |lex| <= INLINE_STR_LEN || Packable(BCD, lex) || Packable(BCDATE, lex)
  }

  // The first form that fits. `coded` says whether the string begins with a coded prefix, `plen` bytes long.
  ghost function FirstForm(lex: Text, coded: bool, plen: nat, z: Zlib): Disp {
    if |lex| <= INLINE_STR_LEN then Plain
    else if Packable(BCD, lex) then Number
    else if Packable(BCDATE, lex) then Date
    else if coded then if |lex| - plen > 22 then PrefixedFile else Prefixed
    else if Shrinks(lex, z) then Zipped
    else File
  }

  // A size after some doublings.
  ghost function Doubled(size: nat, rounds: nat): nat
    decreases rounds
  {
    if rounds == 0 then size else Doubled(2 * size, rounds - 1)
  }

  datatype PutResult = Present | Stored | Full

  class RHash {
    var size: nat               // in buckets
    var entries: seq<Entry>
    var count: nat
    var strings: seq<Text>      // the prefixes by code
    var file: seq<Byte>         // the lexical file
    const prefixes: Trie
    const z: Zlib
    ghost var known: map<Rid, Known>

    // The trie's codes are the numbers of the prefixes.
    ghost predicate PrefixesOk()
      reads `strings, prefixes
    {
      && prefixes.Valid() && |strings| <= MAX_PREFIXES
      && (forall code :: code in prefixes.registered ==> code < |strings| && strings[code] == prefixes.registered[code])
    }

    ghost predicate TableOk()
      reads `size, `entries, `count, `strings, `file, `known
    {
      && size > 0 && Placed(entries, size) && count == Occupied(entries) && Inverts(z)
      && Recorded(entries, Lex(strings, file), z, known)
    }

    ghost predicate Valid()
      reads this, prefixes
    {
      TableOk() && PrefixesOk()
    }

    // What each stored resource was first stored with, and the entry made for it then.
    ghost function First(): map<Rid, Resource>
      reads `known
    {
      FirstOf(known)
    }

    ghost function Entries(): map<Rid, Entry>
      reads `known
    {
      EntriesOf(known)
    }

    constructor (size: nat, z: Zlib)
      requires size > 0 && Inverts(z)
      ensures Valid() && First() == map[] && Entries() == map[] && fresh(prefixes)
    {
      this.size, this.z := size, z;
      entries := seq(size * BUCKET, _ => BLANK);
      count, strings, file := 0, [], [];
      prefixes := new Trie();
      known := map[];
      new;
      NothingOccupied(entries);
    }

    // The form a string is kept in: the first one that fits. Long strings go to the end of the file.
    method MakeEntry(rid: Rid, attr: Rid, lex: Text) returns (e: Entry)
      requires PrefixesOk() && |lex| < MAX_LENGTH
      modifies `file
      ensures old(file) <= file && PrefixesOk()
      ensures e.rid == rid && EntryOk(e) && Holds(e, lex, Lex(strings, file), z)
      ensures !Overlaid(e.disp) ==> e.attr == attr
      ensures e.disp == FirstForm(lex, IsUri(rid) && prefixes.Finds(lex), Uncoded(e), z)
      ensures Inline(lex) ==> file == old(file)
    {
      hide Written, Record, Trie.Finds, Holds, Trie.Valid, Trie.Longest, Coded, Packs, Packable;
      var fits;
      fits, e := InlineEntry(rid, attr, lex);
      if fits {
        return;
      }
      var code, plen := 0, 0;
      if IsUri(rid) {
        var stuck;
        code, plen, stuck := prefixes.GetCode(lex);
      }
      if code != 0 {
        e := PrefixEntry(rid, attr, lex, code, plen);
      } else {
        e := FileEntry(rid, attr, lex);
      }
    }

    // The length of the prefix that an entry keeps as a code.
    ghost function Uncoded(e: Entry): nat
      reads `strings
    {
      if |e.pstr| > 0 && e.pstr[0] < |strings| then |strings[e.pstr[0]]| else 0
    }

    // As it is, or packed, inside the entry.
    method InlineEntry(rid: Rid, attr: Rid, lex: Text) returns (fits: bool, e: Entry)
      ensures fits <==> Inline(lex)
      ensures fits ==> e.rid == rid && e.attr == attr && EntryOk(e) && Holds(e, lex, Lex(strings, file), z)
      ensures fits ==>
        e.disp == if |lex| <= INLINE_STR_LEN then Plain else if Packable(BCD, lex) then Number else Date
    {
      hide Packs, Packable, Written, Record;
      fits, e := true, BLANK;
      if |lex| <= INLINE_STR_LEN {
        e := Entry(rid, attr, [], Padded(lex, INLINE_STR_LEN), 0, Plain);
        return;
      }
      var failed, val := Compress(BCD, lex, false);
      if !failed {
        failed, val := Compress(BCD, lex, true);
        PacksLength(BCD, lex, val);
        e := Entry(rid, attr, [], val, 0, Number);
        return;
      }
      failed, val := Compress(BCDATE, lex, false);
      if !failed {
        failed, val := Compress(BCDATE, lex, true);
        PacksLength(BCDATE, lex, val);
        e := Entry(rid, attr, [], val, 0, Date);
        return;
      }
      fits := false;
    }

    // After a coded prefix: up to 22 bytes fit into the entry, more go to the file.
    method PrefixEntry(rid: Rid, attr: Rid, lex: Text, code: nat, plen: nat) returns (e: Entry)
      requires PrefixesOk() && code in prefixes.registered && |lex| < MAX_LENGTH
      requires plen <= |lex| && prefixes.registered[code] == lex[..plen]
      modifies `file
      ensures old(file) <= file && PrefixesOk()
      ensures e.rid == rid && EntryOk(e) && Holds(e, lex, Lex(strings, file), z)
      ensures e.disp == (if |lex| - Uncoded(e) > 22 then PrefixedFile else Prefixed) && Uncoded(e) == plen
    {
      hide Written, Record;
      var suffix: Text := lex[plen..];
      if |suffix| > 22 {
        WrittenLast(file, Record(suffix));
        e := Entry(rid, attr, [code], ZEROS, |file|, PrefixedFile);
        file := file + Record(suffix);
      } else {
        var pstr: seq<Byte> := [code] + Padded(suffix, 7);
        var val := if |suffix| > 7 then Padded(suffix[7..], INLINE_STR_LEN) else ZEROS;
        assert pstr[1..] == Padded(suffix, 7);
        e := Entry(rid, attr, pstr, val, 0, Prefixed);
      }
    }

    // In the file, compressed if it is long and that saves space.
    method FileEntry(rid: Rid, attr: Rid, lex: Text) returns (e: Entry)
      requires |lex| < MAX_LENGTH
      modifies `file
      ensures old(file) <= file
      ensures e.rid == rid && EntryOk(e) && Holds(e, lex, Lex(strings, file), z) && e.attr == attr
      ensures e.disp == if Shrinks(lex, z) then Zipped else File
    {
      hide Written, Record, ZippedRecord;
      var data := if |lex| > 100 then z.deflate(lex) else [];
      if 0 < |data| < |lex| - 4 {
        WrittenLast(file, ZippedRecord(data, |lex|));
        e := Entry(rid, attr, [], ZEROS, |file|, Zipped);
        file := file + ZippedRecord(data, |lex|);
      } else {
        WrittenLast(file, Record(lex));
        e := Entry(rid, attr, [], ZEROS, |file|, File);
        file := file + Record(lex);
      }
    }

    // One attempt of fs_rhash_put: finds the resource, or stores it in the first free slot near its home.
    method PutOnce(rid: Rid, attr: Rid, lex: Text) returns (r: PutResult)
      requires Valid() && rid != 0 && |lex| < MAX_LENGTH
      modifies `entries, `count, `file, `known
      ensures Valid()
      ensures r == Present <==> rid in old(known)
      ensures r != Stored ==> entries == old(entries) && count == old(count) && file == old(file) && known == old(known)
      ensures r == Stored ==> rid in known && known == old(known)[rid := known[rid]]
      ensures r == Stored ==> Filled(old(entries), entries, known[rid]) && count == old(count) + 1
      ensures r == Stored ==> FirstFree(old(entries), Home(size, rid), known[rid].slot)
      ensures r == Full ==> Crowded(entries, Home(size, rid))
      ensures r == Stored ==> First() == old(First())[rid := Resource(attr, lex)]
      ensures r == Stored ==> Entries() == old(Entries())[rid := known[rid].entry]
    {
      hide Placed, Recorded, Occupied, Holds, Inverts, FirstOf, EntriesOf, FirstFree, Crowded, FirstForm, Home;
      hide Trie.Valid, Inline;
      var home := Home(size, rid);
      var free := ScanNear(rid, home);
      if free == -2 {
        Listed(rid);
        return Present;
      }
      NotListed(rid, home);
      if free == -1 {
        return Full;
      }
      FreeSlot(entries, home, free);
      var e := MakeEntry(rid, attr, lex);
      StoredPlaced(entries, size, free, e);
      OccupiedFilled(entries, free, e);
      StillRecorded(entries, Lex(strings, old(file)), Lex(strings, file), z, known);
      ghost var k := Known(free, e, Resource(attr, lex));
      StoredRecorded(entries, Lex(strings, file), z, known, rid, k);
      entries := entries[free := e];
      count := count + 1;
      known := known[rid := k];
      return Stored;
    }

    // The scan of fs_rhash_put: -2 if the resource is there, else the first free slot, or -1.
    method ScanNear(rid: Rid, home: nat) returns (free: int)
      requires rid != 0
      ensures free == -2 ==> exists a :: 0 <= a < |entries| && entries[a].rid == rid
      ensures free != -2 ==> forall a :: home <= a < home + SEARCH_DIST && a < |entries| ==> entries[a].rid != rid
      ensures free >= 0 ==> FirstFree(entries, home, free)
      ensures free == -1 ==> Crowded(entries, home)
      ensures free >= -2
    {
      free := -1;
      var i := 0;
      while i < SEARCH_DIST && home + i < |entries| && free != -2
        invariant i <= SEARCH_DIST && free >= -2
        invariant free == -2 ==> exists a :: 0 <= a < |entries| && entries[a].rid == rid
        invariant free != -2 ==> forall a :: home <= a < home + i && a < |entries| ==> entries[a].rid != rid
        invariant free >= 0 ==> FirstFree(entries, home, free)
        invariant free == -1 ==> forall a :: home <= a < home + i && a < |entries| ==> entries[a].rid != 0
        decreases SEARCH_DIST - i, if free == -2 then 0 else 1
      {
        if entries[home + i].rid == rid {
          free := -2;
        } else {
          if entries[home + i].rid == 0 && free == -1 {
            free := home + i;
          }
          i := i + 1;
        }
      }
    }

    lemma Listed(rid: Rid)
      requires TableOk() && rid != 0 && exists a :: 0 <= a < |entries| && entries[a].rid == rid
      ensures rid in known
    {
    }

    // A resource that is not near its home is not in the table.
    lemma NotListed(rid: Rid, home: nat)
      requires TableOk() && rid != 0 && home == Home(size, rid)
      requires forall a :: home <= a < home + SEARCH_DIST && a < |entries| ==> entries[a].rid != rid
      ensures rid !in known && forall a :: 0 <= a < |entries| ==> entries[a].rid != rid
    {
      hide Holds;
      forall a | 0 <= a < |entries|
        ensures entries[a].rid != rid
      {
        assert Near(entries, size, a);
      }
      assert forall r :: r in known ==> known[r].slot < |entries| && entries[known[r].slot].rid == r by {
        assert forall r :: r in known ==> InSlot(entries, Lex(strings, file), z, r, known[r]);
      }
    }

    // double_size: bucket by bucket, entries whose home is in the new half move there.
    method Double()
      requires Valid()
      modifies `size, `entries, `known
      ensures Valid() && size == 2 * old(size)
      ensures entries == Lower(old(entries), old(size)) + Upper(old(entries), old(size))
      ensures First() == old(First()) && Entries() == old(Entries())
    {
      hide Occupied, Placed, Recorded, Inverts, FirstOf, EntriesOf;
      DoubledPlaced(entries, size);
      DoubledCount(entries, size);
      OccupiedSplit(Lower(entries, size), Upper(entries, size));
      DoubledRecorded(entries, size, Lex(strings, file), z, known);
      known := DoubledKnown(entries, size, known);
      PlacedLength(entries, size);
      Spread();
      size := size * 2;
    }

    // Grows the entries and goes through the buckets.
    method Spread()
      requires size > 0 && |entries| == size * BUCKET
      modifies `entries
      ensures entries == Lower(old(entries), size) + Upper(old(entries), size)
    {
      hide Halfway;
      var n := size * BUCKET;
      entries := entries + seq(n, _ => BLANK);
      HalfwayStart(old(entries), entries, size);
      var i := 0;
      while i < n
        invariant i % BUCKET == 0 && i <= n && |entries| == 2 * n
        invariant Halfway(old(entries), entries, size, i)
        decreases n - i
      {
        ghost var was := entries;
        SplitBucket(i, n, size);
        HalfwayNext(old(entries), was, entries, size, i);
        i := i + BUCKET;
      }
      HalfwayEnd(old(entries), entries, size);
    }

    method SplitBucket(i: nat, n: nat, oldsize: nat)
      requires oldsize > 0 && n == oldsize * BUCKET && i + BUCKET <= n && |entries| == 2 * n
      modifies `entries
      ensures BucketSplit(old(entries), entries, oldsize, i)
    {
      hide Home, BucketSplit;
      var high: seq<Entry> := seq(BUCKET, _ => BLANK);
      for j := 0 to BUCKET
        invariant |high| == BUCKET && |entries| == 2 * n
        invariant forall a :: 0 <= a < 2 * n ==>
          entries[a] == if i <= a < i + j && Moves(old(entries)[a], oldsize) then BLANK else old(entries)[a]
        invariant forall k :: 0 <= k < BUCKET ==>
          high[k] == if k < j && Moves(old(entries)[i + k], oldsize) then old(entries)[i + k] else BLANK
      {
        if entries[i + j].rid != 0 && Home(2 * oldsize, entries[i + j].rid) >= n {
          high := high[j := entries[i + j]];
          entries := entries[i + j := BLANK];
        }
      }
      BucketPasted(old(entries), entries, high, oldsize, i);
      entries := Paste(entries, n + i, high);
    }

    // fs_rhash_put, which doubles the table until there is room; `rounds` bounds how often. A completed put
    // leaves every entry stored before as it was, and the first entry of a resource for ever.
    method Put(rid: Rid, attr: Rid, lex: Text, rounds: nat) returns (done: bool)
      requires Valid() && rid != 0 && |lex| < MAX_LENGTH
      modifies `size, `entries, `count, `file, `known
      ensures Valid()
      ensures done ==> rid in Entries()
      ensures done ==> First() == if rid in old(First()) then old(First()) else old(First())[rid := Resource(attr, lex)]
      ensures done ==>
        Entries() == if rid in old(Entries()) then old(Entries()) else old(Entries())[rid := Entries()[rid]]
      ensures !done ==> First() == old(First()) && Entries() == old(Entries()) && count == old(count)
      ensures done ==> count == old(count) + if rid in old(Entries()) then 0 else 1
      ensures !done ==> size == Doubled(old(size), rounds) && Crowded(entries, Home(size, rid))
      ensures done ==> exists k: nat :: k <= rounds && size == Doubled(old(size), k)
      ensures rid in old(Entries()) || !old(Crowded(entries, Home(size, rid))) ==> done && size == old(size)
      decreases rounds
    {
      hide Placed, Recorded, Occupied, Holds, Inverts, FirstOf, EntriesOf, Filled, FirstFree, Crowded, Home;
      assert Doubled(size, 0) == size;
      KeysOf(known);
      var r := PutOnce(rid, attr, lex);
      done := r != Full;
      KeysOf(known);
      if !done && rounds > 0 {
        Double();
        ghost var size1 := size;
        done := Put(rid, attr, lex, rounds - 1);
        if done {
          ghost var k: nat :| k <= rounds - 1 && size == Doubled(size1, k);
          assert size == Doubled(old(size), k + 1);
        }
      }
    }

    // The slot `k` after the home of a resource. The scan of fs_rhash_get is not checked against the end of
    // the table: `beyond` is what lies there.
    function Probe(beyond: seq<Entry>, i: nat): Entry
      reads `entries
      requires i < |entries| + |beyond|
    {
      if i < |entries| then entries[i] else beyond[i - |entries|]
    }

    // fs_rhash_get: a stored resource is found with the entry first made for it, and its string comes back,
    // and its attribute unless a prefix took its place. Any other resource is reported missing, as long as
    // what lies beyond the table does not look like it.
    method Get(rid: Rid, beyond: seq<Entry>) returns (failed: bool, attr: Rid, lex: seq<Byte>, ghost found: Entry)
      requires Valid() && rid != 0
      requires |beyond| == SEARCH_DIST - BUCKET && forall i :: 0 <= i < |beyond| ==> EntryOk(beyond[i])
      ensures rid in known ==> !failed && found == Entries()[rid] && lex == First()[rid].lex
      ensures rid in known && !Overlaid(found.disp) ==> attr == First()[rid].attr
      ensures rid in known && found.disp == Prefixed ==> attr == RID_NULL
      ensures rid !in known && (forall i :: 0 <= i < |beyond| ==> beyond[i].rid != rid) ==> failed && attr == 0
    {
      hide Occupied, Holds, Inverts, Placed, Recorded, FirstOf, EntriesOf;
      var home := Home(size, rid);
      HomeInside(rid);
      var i := home;
      while i < home + SEARCH_DIST && Probe(beyond, i).rid != rid
        invariant home <= i <= home + SEARCH_DIST
        invariant forall j: nat :: home <= j < i ==> Probe(beyond, j).rid != rid
      {
        i := i + 1;
      }
      KeysOf(known);
      if rid in known {
        InTable(rid);
        assert Probe(beyond, known[rid].slot).rid == rid;
      } else {
        Missing(rid);
      }
      failed, attr, lex, found := true, 0, [], BLANK;
      if i < home + SEARCH_DIST {
        found := Probe(beyond, i);
        WellFormed(i);
        failed, attr, lex := GetEntry(Probe(beyond, i), Lex(strings, file), z);
      }
    }

    lemma HomeInside(rid: Rid)
      requires TableOk()
      ensures Home(size, rid) + BUCKET <= |entries|
    {
    }

    lemma WellFormed(i: nat)
      requires TableOk()
      ensures i < |entries| ==> EntryOk(entries[i])
    {
    }

    lemma Missing(rid: Rid)
      requires TableOk() && rid != 0 && rid !in known
      ensures forall a :: 0 <= a < |entries| ==> entries[a].rid != rid
    {
    }

    // A stored resource is in exactly one slot, within the search distance.
    lemma InTable(rid: Rid)
      requires TableOk() && rid in known
      ensures
        var k := known[rid];
        && rid != 0 && Home(size, rid) <= k.slot < |entries| && k.slot < Home(size, rid) + SEARCH_DIST
        && entries[k.slot] == k.entry && k.entry.rid == rid && Holds(k.entry, k.first.lex, Lex(strings, file), z)
        && (!Overlaid(k.entry.disp) ==> k.entry.attr == k.first.attr)
        && (forall a :: 0 <= a < |entries| && entries[a].rid == rid ==> a == k.slot)
    {
      hide Holds;
      assert InSlot(entries, Lex(strings, file), z, rid, known[rid]);
      assert Near(entries, size, known[rid].slot);
    }

    // A prefix found worth a code: it gets the next number, as long as there are any.
    method LearnPrefix(prefix: Text) returns (exhausted: bool)
      requires Valid()
      modifies `strings, prefixes
      ensures exhausted || Valid()
      ensures TableOk()
      ensures strings == if |old(strings)| < MAX_PREFIXES then old(strings) + [prefix] else old(strings)
      ensures !exhausted && |old(strings)| < MAX_PREFIXES ==>
        prefixes.registered == old(prefixes.registered)[|old(strings)| := prefix]
    {
      hide Recorded, Placed, Occupied, Inverts;
      exhausted := false;
      if |strings| < MAX_PREFIXES {
        StillRecorded(entries, Lex(strings, file), Lex(strings + [prefix], file), z, known);
        strings := strings + [prefix];
        var _, out := prefixes.AddCode(prefix, |strings| - 1);
        exhausted := out;
      }
    }
  }

  lemma {:induction false} NothingOccupied(entries: seq<Entry>)
    requires forall a :: 0 <= a < |entries| ==> entries[a].rid == 0
    ensures Occupied(entries) == 0
  {
    if entries != [] {
      NothingOccupied(entries[..|entries| - 1]);
    }
  }
}
