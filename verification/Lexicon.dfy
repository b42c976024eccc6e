/**
  The entries of the resource table: seven forms in which a lexical string is kept, four of them inside the
  entry and three in the lexical file.
 */
module Lexicon {
  import opened Rids
  import opened Literals

  // As it is, packed as a number or a date, as prefix and suffix; or in the file as it is, after a prefix,
  // or compressed.
  datatype Disp = Plain | Number | Date | Prefixed | File | PrefixedFile | Zipped

  // `pstr` overlays the attribute and `offset` the inline bytes; the disposition tells which are in use.
  datatype Entry = Entry(rid: Rid, attr: Rid, pstr: seq<Byte>, val: seq<Byte>, offset: nat, disp: Disp)

  const ZEROS: seq<Byte> := [0, 0, 0, 0, 0, 0, 0, 0, 0, 0, 0, 0, 0, 0, 0]
  const BLANK := Entry(0, 0, [], ZEROS, 0, Plain)

  // Lengths in the file are 32-bit signed numbers.
  const MAX_LENGTH := 0x8000_0000

  // What entries refer to: the prefixes by code, and the lexical file.
  datatype Lex = Lex(strings: seq<Text>, file: seq<Byte>)

  // The compression library. An empty result means that it failed.
  datatype Zlib = Zlib(deflate: seq<Byte> -> seq<Byte>, inflate: (seq<Byte>, nat) -> seq<Byte>)

  // Decompressing undoes compressing.
  ghost predicate Inverts(z: Zlib) {
    forall s: seq<Byte> :: z.inflate(z.deflate(s), |s|) == s
  }

  predicate EntryOk(e: Entry) {
    |e.val| == INLINE_STR_LEN && (e.disp == Prefixed ==> |e.pstr| == 8) && (e.disp == PrefixedFile ==> |e.pstr| == 1)
  }

  // Forms in which the code of a prefix has taken the place of the attribute.
  predicate Overlaid(d: Disp) {
    d == Prefixed || d == PrefixedFile
  }

  // ---- the lexical file ----

  // A string with its length in front.
  function Record(s: seq<Byte>): seq<Byte> {
    LittleEndian(|s|, 4) + s + [0]
  }

  // A compressed string, with the length of the original too.
  function ZippedRecord(data: seq<Byte>, length: nat): seq<Byte> {
    LittleEndian(|data|, 4) + LittleEndian(length, 4) + data + [0]
  }

  ghost predicate Written(file: seq<Byte>, at: nat, record: seq<Byte>) {
    at + |record| <= |file| && file[at..at + |record|] == record
  }

  lemma WrittenLast(file: seq<Byte>, record: seq<Byte>)
    ensures Written(file + record, |file|, record)
  {
  }

  lemma WrittenStill(file: seq<Byte>, more: seq<Byte>, at: nat, record: seq<Byte>)
    requires Written(file, at, record)
    ensures Written(file + more, at, record)
  {
    assert (file + more)[at..at + |record|] == file[at..at + |record|];
  }

  // `bytes` bytes from `at` on, or nothing if the file is too short.
  method Read(file: seq<Byte>, at: nat, bytes: nat) returns (failed: bool, s: seq<Byte>)
    ensures failed <==> at + bytes > |file|
    ensures !failed ==> s == file[at..at + bytes]
  {
    failed := at + bytes > |file|;
    s := if failed then [] else file[at..at + bytes];
  }

  lemma FourBytes(n: nat)
    requires n < MAX_LENGTH
    ensures FromLittleEndian(LittleEndian(n, 4)) == n
  {
    assert Power(1) == 256 && Power(2) == 65536 && Power(3) == 16777216 && Power(4) == 4294967296;
    LittleEndianBack(n, 4);
  }

  lemma Part(file: seq<Byte>, at: nat, record: seq<Byte>, i: nat, j: nat)
    requires Written(file, at, record) && i <= j <= |record|
    ensures file[at + i..at + j] == record[i..j]
  {
    var all := file[at..at + |record|];
    forall k | 0 <= k < j - i
      ensures file[at + i..at + j][k] == record[i..j][k]
    {
      assert all[i + k] == file[at + i + k];
    }
  }

  lemma RecordParts(file: seq<Byte>, at: nat, s: seq<Byte>)
    requires Written(file, at, Record(s)) && |s| < MAX_LENGTH
    ensures at + 4 + |s| <= |file|
    ensures FromLittleEndian(file[at..at + 4]) == |s| && file[at + 4..at + 4 + |s|] == s
  {
    var r := Record(s);
    Part(file, at, r, 0, 4);
    Part(file, at, r, 4, 4 + |s|);
    assert r[0..4] == LittleEndian(|s|, 4) && r[4..4 + |s|] == s;
    FourBytes(|s|);
  }

  // The compressed form of `t` is in the file.
  ghost predicate ZippedAt(file: seq<Byte>, at: nat, t: seq<Byte>, z: Zlib) {
    |t| < MAX_LENGTH && |z.deflate(t)| < MAX_LENGTH && Written(file, at, ZippedRecord(z.deflate(t), |t|))
  }

  lemma ZippedParts(file: seq<Byte>, at: nat, t: seq<Byte>, z: Zlib)
    requires ZippedAt(file, at, t, z)
    ensures
      var data := z.deflate(t);
      && at + 8 + |data| <= |file|
      && FromLittleEndian(file[at..at + 4]) == |data| && FromLittleEndian(file[at + 4..at + 8]) == |t|
      && file[at + 8..at + 8 + |data|] == data
  {
    var data, length := z.deflate(t), |t|;
    var r := ZippedRecord(data, length);
    Part(file, at, r, 0, 4);
    Part(file, at, r, 4, 8);
    Part(file, at, r, 8, 8 + |data|);
    assert r[0..4] == LittleEndian(|data|, 4) && r[4..8] == LittleEndian(length, 4) && r[8..8 + |data|] == data;
    FourBytes(|data|);
    FourBytes(length);
  }

  // A string of the file, with its length in front.
  method ReadRecord(file: seq<Byte>, at: nat) returns (failed: bool, s: seq<Byte>)
    ensures forall t: seq<Byte> :: |t| < MAX_LENGTH && Written(file, at, Record(t)) ==> !failed && s == t
  {
    hide Record, Written;
    var length;
    failed, length := Read(file, at, 4);
    s := [];
    if !failed {
      failed, s := Read(file, at + 4, FromLittleEndian(length));
    }
    forall t: seq<Byte> | |t| < MAX_LENGTH && Written(file, at, Record(t))
      ensures !failed && s == t
    {
      RecordParts(file, at, t);
    }
  }

  // A compressed string of the file.
  method ReadZipped(file: seq<Byte>, at: nat, z: Zlib) returns (failed: bool, s: seq<Byte>)
    ensures Inverts(z) ==> forall t: seq<Byte> :: ZippedAt(file, at, t, z) ==> !failed && s == t
  {
    hide Written, ZippedAt;
    s := [];
    var lengths, data;
    failed, lengths := Read(file, at, 8);
    if !failed {
      failed, data := Read(file, at + 8, FromLittleEndian(lengths[..4]));
      if !failed {
        s := z.inflate(data, FromLittleEndian(lengths[4..]));
      }
    }
    forall t: seq<Byte> | Inverts(z) && ZippedAt(file, at, t, z)
      ensures !failed && s == t
    {
      ZippedParts(file, at, t, z);
      assert file[at..at + 8][..4] == file[at..at + 4] && file[at..at + 8][4..] == file[at + 4..at + 8];
    }
  }

  // ---- what an entry stands for ----

  // The entry stands for the string.
  ghost predicate Holds(e: Entry, lex: Text, l: Lex, z: Zlib) {
    match e.disp
    case Plain => |lex| <= INLINE_STR_LEN && e.val == Padded(lex, INLINE_STR_LEN)
    case Number => Packable(BCD, lex) && Packs(BCD, lex, e.val)
    case Date => Packable(BCDATE, lex) && Packs(BCDATE, lex, e.val)
    case Prefixed =>
      && |e.pstr| == 8 && e.pstr[0] < |l.strings|
      && SplitAs(lex, l.strings[e.pstr[0]], e.pstr[1..], e.val)
    case File => |lex| < MAX_LENGTH && Written(l.file, e.offset, Record(lex))
    case PrefixedFile =>
      && |e.pstr| == 1 && e.pstr[0] < |l.strings| && |lex| < MAX_LENGTH
      && var prefix := l.strings[e.pstr[0]];
      && |prefix| <= |lex| && lex[..|prefix|] == prefix && Written(l.file, e.offset, Record(lex[|prefix|..]))
    case Zipped => ZippedAt(l.file, e.offset, lex, z)
  }

  // A prefix, seven bytes and fifteen more.
  ghost predicate SplitAs(lex: Text, prefix: Text, first: seq<Byte>, second: seq<Byte>) {
    && |prefix| <= |lex| <= |prefix| + 22 && lex[..|prefix|] == prefix
    && var suffix: Text := lex[|prefix|..];
    && first == Padded(suffix, 7)
    && second == if |suffix| > 7 then Padded(suffix[7..], INLINE_STR_LEN) else ZEROS
  }

  // Prefixes and file only grow.
  ghost predicate Grown(l: Lex, l': Lex) {
    l.strings <= l'.strings && l.file <= l'.file
  }

  // An entry goes on standing for its string.
  lemma HoldsStill(e: Entry, lex: Text, l: Lex, l': Lex, z: Zlib)
    requires Holds(e, lex, l, z) && Grown(l, l')
    ensures Holds(e, lex, l', z)
  {
    hide Record, ZippedRecord, Packs, Packable;
    var more := l'.file[|l.file|..];
    assert l'.file == l.file + more;
    match e.disp
    case File => WrittenStill(l.file, more, e.offset, Record(lex));
    case PrefixedFile => WrittenStill(l.file, more, e.offset, Record(lex[|l.strings[e.pstr[0]]|..]));
    case Zipped => WrittenStill(l.file, more, e.offset, ZippedRecord(z.deflate(lex), |lex|));
    case _ =>
  }

  lemma PaddedBack(s: Text, n: nat)
    requires |s| <= n
    ensures Terminated(Padded(s, n)) == s
  {
    TerminatedPadded(s, Padded(s, n));
  }

  // Of a longer string the first bytes are taken.
  lemma PaddedFirst(s: Text, n: nat)
    requires |s| > n
    ensures Padded(s, n) == Padded(s[..n], n)
  {
  }

  lemma NoText()
    ensures Terminated(ZEROS) == []
  {
  }

  lemma SplitBack(lex: Text, prefix: Text, first: seq<Byte>, second: seq<Byte>)
    requires SplitAs(lex, prefix, first, second)
    ensures prefix + Terminated(first) + Terminated(second) == lex
  {
    hide Terminated, Padded;
    var suffix: Text := lex[|prefix|..];
    if |suffix| > 7 {
      PaddedFirst(suffix, 7);
      PaddedBack(suffix[..7], 7);
      PaddedBack(suffix[7..], INLINE_STR_LEN);
      assert suffix == suffix[..7] + suffix[7..];
    } else {
      PaddedBack(suffix, 7);
      NoText();
    }
    assert lex == prefix + suffix;
  }

  // The string of an entry, form by form.
  method ReadText(e: Entry, l: Lex, z: Zlib) returns (failed: bool, lex: seq<Byte>)
    requires EntryOk(e)
    ensures Inverts(z) ==> forall s: Text :: Holds(e, s, l, z) ==> !failed && lex == s
  {
    failed, lex := false, [];
    match e.disp {
      case Plain =>
        lex := Terminated(e.val);
        forall s: Text | Holds(e, s, l, z)
          ensures lex == s
        {
          PaddedBack(s, INLINE_STR_LEN);
        }
      case Number => lex := Uncompress(BCD, e.val);
      case Date => lex := Uncompress(BCDATE, e.val);
      case Prefixed =>
        failed := e.pstr[0] >= |l.strings|;
        if !failed {
          lex := l.strings[e.pstr[0]] + Terminated(e.pstr[1..]) + Terminated(e.val);
          forall s: Text | Holds(e, s, l, z)
            ensures lex == s
          {
            SplitBack(s, l.strings[e.pstr[0]], e.pstr[1..], e.val);
          }
        }
      case File => failed, lex := ReadRecord(l.file, e.offset);
      case PrefixedFile => failed, lex := ReadPrefixed(e, l, z);
      case Zipped => failed, lex := ReadZipped(l.file, e.offset, z);
    }
  }

  method ReadPrefixed(e: Entry, l: Lex, z: Zlib) returns (failed: bool, lex: seq<Byte>)
    requires e.disp == PrefixedFile && |e.pstr| == 1
    ensures forall s: Text :: Holds(e, s, l, z) ==> !failed && lex == s
  {
    hide Record, Written;
    failed, lex := e.pstr[0] >= |l.strings|, [];
    if !failed {
      var prefix := l.strings[e.pstr[0]];
      var suffix;
      failed, suffix := ReadRecord(l.file, e.offset);
      lex := prefix + suffix;
      forall s: Text | Holds(e, s, l, z)
        ensures !failed && lex == s
      {
        assert s == s[..|prefix|] + s[|prefix|..];
      }
    }
  }

  // get_entry. The attribute of an inline prefixed entry is that of all URIs.
  method GetEntry(e: Entry, l: Lex, z: Zlib) returns (failed: bool, attr: Rid, lex: seq<Byte>)
    requires EntryOk(e)
    ensures Inverts(z) ==> forall s: Text :: Holds(e, s, l, z) ==> !failed && lex == s
    ensures !Overlaid(e.disp) ==> attr == e.attr
    ensures e.disp == Prefixed && !failed ==> attr == RID_NULL
  {
    hide Holds, Inverts;
    failed, lex := ReadText(e, l, z);
    attr := if e.disp == Prefixed && !failed then RID_NULL else e.attr;
  }
}
