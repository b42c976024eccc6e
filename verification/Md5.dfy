/**
  The streaming part of the MD5 digest: a message may arrive in any pieces. The block function is left
  open.
 */
module Md5 {
  import opened Literals

  type Word = n: nat | n < 0x1_0000_0000

  datatype Words = Words(a: Word, b: Word, c: Word, d: Word)

  // The compression function, of a state and a block of 64 bytes.
  type Compression = (Words, seq<Byte>) -> Words

  const INITIAL := Words(0x67452301, 0xefcdab89, 0x98badcfe, 0x10325476)

  // ---- section 3 of RFC 1321 ----

  // The state after whole blocks.
  ghost function Fold(process: Compression, m: seq<Byte>): Words {
    if |m| < 64 then INITIAL else process(Fold(process, m[..|m| - 64]), m[|m| - 64..])
  }

  lemma PadFits(n: nat)
    ensures (n + 1 + (55 - n) % 64 + 8) % 64 == 0
  {
    var k := (55 - n) / 64;
    assert 55 - n == 64 * k + (55 - n) % 64;
    assert n + 1 + (55 - n) % 64 + 8 == 64 * (1 - k);
  }

  // Sections 3.1 and 3.2: one bit, zeros up to 56 bytes modulo 64, and the low 64 bits of the length in bits.
  ghost function PaddedMessage(m: seq<Byte>): (p: seq<Byte>)
    ensures |p| % 64 == 0
  {
    var zeros := (55 - |m|) % 64;
    PadFits(|m|);
    m + [0x80] + seq(zeros, _ => 0) + LittleEndian((8 * |m|) % 0x1_0000_0000_0000_0000, 8)
  }

  // Byte k of the message is followed by a single one bit, zeros, and the length; the padding is the shortest
  // that fits.
  lemma PaddingRead(m: seq<Byte>)
    ensures
      var p := PaddedMessage(m);
      && |m| + 9 <= |p| < |m| + 73 && p[..|m|] == m && p[|m|] == 0x80
      && (forall i :: |m| < i < |p| - 8 ==> p[i] == 0)
      && FromLittleEndian(p[|p| - 8..]) == (8 * |m|) % 0x1_0000_0000_0000_0000
  {
    hide LittleEndian, FromLittleEndian;
    var p, length := PaddedMessage(m), (8 * |m|) % 0x1_0000_0000_0000_0000;
    assert p[|p| - 8..] == LittleEndian(length, 8);
    EightBytes();
    LittleEndianBack(length, 8);
  }

  lemma EightBytes()
    ensures Power(4) == 0x1_0000_0000 && Power(8) == 0x1_0000_0000_0000_0000
  {
    assert Power(1) == 256 && Power(2) == 65536 && Power(3) == 16777216;
    assert Power(5) == 256 * Power(4) && Power(6) == 256 * Power(5) && Power(7) == 256 * Power(6);
  }

  // Section 3.5: the four words one after the other, each with its low-order byte first.
  function Output(w: Words): (out: seq<Byte>)
    ensures |out| == 16
    ensures FromLittleEndian(out[..4]) == w.a && FromLittleEndian(out[4..8]) == w.b
    ensures FromLittleEndian(out[8..12]) == w.c && FromLittleEndian(out[12..]) == w.d
  {
    var a, b, c, d := LittleEndian(w.a, 4), LittleEndian(w.b, 4), LittleEndian(w.c, 4), LittleEndian(w.d, 4);
    var out := a + b + c + d;
    WordsBack(w);
    assert out[..4] == a && out[4..8] == b && out[8..12] == c && out[12..] == d;
    out
  }

  lemma WordsBack(w: Words)
    ensures FromLittleEndian(LittleEndian(w.a, 4)) == w.a && FromLittleEndian(LittleEndian(w.b, 4)) == w.b
    ensures FromLittleEndian(LittleEndian(w.c, 4)) == w.c && FromLittleEndian(LittleEndian(w.d, 4)) == w.d
  {
    hide LittleEndian, FromLittleEndian;
    EightBytes();
    LittleEndianBack(w.a, 4);
    LittleEndianBack(w.b, 4);
    LittleEndianBack(w.c, 4);
    LittleEndianBack(w.d, 4);
  }

  // Section 3.3: the words of the initial state, byte by byte.
  lemma InitialBytes()
    ensures Output(INITIAL) == [0x01, 0x23, 0x45, 0x67, 0x89, 0xab, 0xcd, 0xef,
                                0xfe, 0xdc, 0xba, 0x98, 0x76, 0x54, 0x32, 0x10]
  {
    hide LittleEndian;
    FourBytes(0x01, 0x23, 0x45, 0x67);
    FourBytes(0x89, 0xab, 0xcd, 0xef);
    FourBytes(0xfe, 0xdc, 0xba, 0x98);
    FourBytes(0x76, 0x54, 0x32, 0x10);
  }

  lemma FourBytes(a: Byte, b: Byte, c: Byte, d: Byte)
    ensures LittleEndian(a + 256 * (b + 256 * (c + 256 * d)), 4) == [a, b, c, d]
  {
    var x, y := b + 256 * (c + 256 * d), c + 256 * d;
    FirstByte(a, x);
    FirstByte(b, y);
    FirstByte(c, d);
    assert LittleEndian(d, 1) == [d] + LittleEndian(d / 256, 0);
    assert LittleEndian(y, 2) == [c] + LittleEndian(d, 1);
    assert LittleEndian(x, 3) == [b] + LittleEndian(y, 2);
  }

  ghost function Digest(process: Compression, m: seq<Byte>): seq<Byte> {
    Output(Fold(process, PaddedMessage(m)))
  }

  // ---- the state ----

  // The part of a message that makes up whole blocks.
  ghost function Whole(m: seq<Byte>): (w: seq<Byte>)
    ensures |w| % 64 == 0 && |w| <= |m| < |w| + 64 && w == m[..|w|]
  {
    m[..|m| - |m| % 64]
  }

  lemma FoldNext(process: Compression, m: seq<Byte>, block: seq<Byte>)
    requires |m| % 64 == 0 && |block| == 64
    ensures Fold(process, m + block) == process(Fold(process, m), block)
  {
    var n := m + block;
    assert n[..|n| - 64] == m && n[|n| - 64..] == block;
  }

  class State {
    const process: Compression
    var low: Word             // the length in bits, modulo 2^64
    var high: Word
    var abcd: Words
    var buf: seq<Byte>
    ghost var message: seq<Byte>

    ghost predicate Valid()
      reads this
    {
      && low + 0x1_0000_0000 * high == (8 * |message|) % 0x1_0000_0000_0000_0000
      && abcd == Fold(process, Whole(message))
      && |buf| == 64 && buf[..|message| % 64] == message[|Whole(message)|..]
    }

    // md5_init
    constructor (process: Compression)
      ensures Valid() && message == [] && this.process == process
    {
      this.process := process;
      low, high, abcd, buf, message := 0, 0, INITIAL, seq(64, _ => 0), [];
    }

    // How much of a block is buffered.
    lemma Offset()
      requires Valid()
      ensures (low / 8) % 64 == |message| % 64
    {
      BitsLow(|message|, low, high);
    }

    // The length fields, with carry.
    method Count(nbytes: nat)
      requires nbytes < 0x8000_0000
      requires low + 0x1_0000_0000 * high == (8 * |message|) % 0x1_0000_0000_0000_0000
      modifies `low, `high
      ensures low + 0x1_0000_0000 * high == (8 * (|message| + nbytes)) % 0x1_0000_0000_0000_0000
    {
      var nbits := (8 * nbytes) % 0x1_0000_0000;
      high := (high + nbytes / 0x2000_0000) % 0x1_0000_0000;
      low := (low + nbits) % 0x1_0000_0000;
      if low < nbits {
        high := (high + 1) % 0x1_0000_0000;
      }
      BitsAdded(|message|, nbytes, old(low), old(high), low, high);
    }

    // md5_append
    method Append(data: seq<Byte>)
      requires Valid() && |data| < 0x8000_0000 - 64
      modifies this
      ensures Valid() && message == old(message) + data
    {
      hide Fold, Whole;
      var offset := (low / 8) % 64;
      Offset();
      if |data| == 0 {
        assert message == old(message) + data;
        return;
      }
      Count(|data|);
      ghost var m := message;
      message := message + data;
      var p := 0;
      if offset > 0 {
        var full;
        p, full := FillBlock(data, offset, m);
        if !full {
          return;
        }
      } else {
        Aligned(m);
        assert m + data[..0] == m;
      }
      p := WholeBlocks(data, p, m);
      if p < |data| {
        buf := data[p..] + buf[|data| - p..];
      }
      Rest(m, data, p, buf);
    }

    // Completes a partial block, as far as the data goes.
    method FillBlock(data: seq<Byte>, offset: nat, ghost m: seq<Byte>) returns (p: nat, full: bool)
      requires 0 < offset == |m| % 64 && |buf| == 64 && buf[..offset] == m[|Whole(m)|..]
      requires abcd == Fold(process, Whole(m))
      modifies `buf, `abcd
      ensures |buf| == 64 && p <= |data|
      ensures full ==> (|m| + p) % 64 == 0 && abcd == Fold(process, m + data[..p])
      ensures !full ==>
        abcd == Fold(process, Whole(m + data)) && buf[..|m + data| % 64] == (m + data)[|Whole(m + data)|..]
    {
      hide Fold, Whole;
      var copy := if offset + |data| > 64 then 64 - offset else |data|;
      ghost var buf0 := buf;
      buf := buf[..offset] + data[..copy] + buf[offset + copy..];
      p := copy;
      full := offset + copy >= 64;
      if full {
        BlockFilled(process, m, data, copy, buf0, buf);
        abcd := process(abcd, buf);
      } else {
        Buffered(m, data, buf0, buf);
      }
    }

    // Processes whole blocks straight from the data.
    method WholeBlocks(data: seq<Byte>, p0: nat, ghost m: seq<Byte>) returns (p: nat)
      requires p0 <= |data| && (|m| + p0) % 64 == 0 && abcd == Fold(process, m + data[..p0])
      modifies `abcd
      ensures p0 <= p <= |data| < p + 64 && (|m| + p) % 64 == 0 && abcd == Fold(process, m + data[..p])
    {
      hide Fold;
      p := p0;
      while |data| - p >= 64
        invariant p0 <= p <= |data| && (|m| + p) % 64 == 0 && abcd == Fold(process, m + data[..p])
        decreases |data| - p
      {
        FoldNext(process, m + data[..p], data[p..p + 64]);
        NextBlock(|m| + p);
        assert m + data[..p] + data[p..p + 64] == m + data[..p + 64];
        abcd := process(abcd, data[p..p + 64]);
        p := p + 64;
      }
    }

    // md5_finish: the digest of the whole message.
    method Finish() returns (digest: seq<Byte>)
      requires Valid()
      modifies this
      ensures digest == Digest(process, old(message))
    {
      hide Fold, Whole, LittleEndian, PaddedMessage;
      ghost var m := message;
      var data := LittleEndian(low, 4) + LittleEndian(high, 4);
      LengthBytes(low, high);
      Offset();
      var zeros := (55 - low / 8) % 64;
      PadLength(low / 8, |m|);
      var pad: seq<Byte> := [0x80] + seq(zeros, _ => 0);
      PaddedSo(m, pad, data);
      Append(pad);
      Append(data);
      Aligned(message);
      digest := Output(abcd);
    }
  }

  // ---- arithmetic ----

  lemma BitsLow(n: nat, low: Word, high: Word)
    requires low + 0x1_0000_0000 * high == (8 * n) % 0x1_0000_0000_0000_0000
    ensures (low / 8) % 64 == n % 64
  {
    var k := (8 * n) / 0x1_0000_0000_0000_0000;
    assert 8 * n == low + 0x1_0000_0000 * high + 0x1_0000_0000_0000_0000 * k;
    var j := 0x80_0000 * high + 0x80_0000_0000_0000 * k;
    assert 8 * n == low + 8 * (64 * j);
    Eighth(n, low, 64 * j);
    Rest64(low / 8, j);
  }

  lemma Eighth(n: nat, low: nat, x: nat)
    requires 8 * n == low + 8 * x
    ensures n == low / 8 + x
  {
  }

  lemma Rest64(x: nat, j: nat)
    ensures (x + 64 * j) % 64 == x % 64
  {
  }

  lemma BitsAdded(n: nat, nbytes: nat, low: Word, high: Word, low': Word, high': Word)
    requires nbytes < 0x8000_0000
    requires low + 0x1_0000_0000 * high == (8 * n) % 0x1_0000_0000_0000_0000
    requires low' == (low + (8 * nbytes) % 0x1_0000_0000) % 0x1_0000_0000
    requires high' ==
      ((high + nbytes / 0x2000_0000) % 0x1_0000_0000 + if low' < (8 * nbytes) % 0x1_0000_0000 then 1
        else 0) % 0x1_0000_0000
    ensures low' + 0x1_0000_0000 * high' == (8 * (n + nbytes)) % 0x1_0000_0000_0000_0000
  {
    var nbits, up := (8 * nbytes) % 0x1_0000_0000, nbytes / 0x2000_0000;
    var carry := if low' < nbits then 1 else 0;
    var k, h := (8 * n) / 0x1_0000_0000_0000_0000, high + up + carry;
    Carry(low, nbits, low');
    Halves(nbytes);
    PlusModulo(high + up, carry);
    Whole64(8 * n);
    Whole32(h);
    Sum(n, nbytes, low, high, k, nbits, up, low', carry, high', h / 0x1_0000_0000);
    Modulo(8 * (n + nbytes), low' + 0x1_0000_0000 * high', k + h / 0x1_0000_0000);
  }

  lemma PlusModulo(x: nat, c: nat)
    ensures (x % 0x1_0000_0000 + c) % 0x1_0000_0000 == (x + c) % 0x1_0000_0000
  {
  }

  lemma Whole64(x: nat)
    ensures x == x % 0x1_0000_0000_0000_0000 + 0x1_0000_0000_0000_0000 * (x / 0x1_0000_0000_0000_0000)
  {
  }

  lemma Whole32(x: nat)
    ensures x == x % 0x1_0000_0000 + 0x1_0000_0000 * (x / 0x1_0000_0000)
  {
  }

  lemma Carry(low: Word, nbits: Word, low': Word)
    requires low' == (low + nbits) % 0x1_0000_0000
    ensures low + nbits == low' + 0x1_0000_0000 * if low' < nbits then 1 else 0
  {
  }

  lemma Halves(nbytes: nat)
    ensures 8 * nbytes == (8 * nbytes) % 0x1_0000_0000 + 0x1_0000_0000 * (nbytes / 0x2000_0000)
  {
  }

  lemma Sum(n: nat, nbytes: nat, low: nat, high: nat, k: nat, nbits: nat, up: nat, low': nat, carry: nat, high': nat,
            over: nat)
    requires 8 * n == low + 0x1_0000_0000 * high + 0x1_0000_0000_0000_0000 * k
    requires 8 * nbytes == nbits + 0x1_0000_0000 * up
    requires low + nbits == low' + 0x1_0000_0000 * carry && high + up + carry == high' + 0x1_0000_0000 * over
    ensures 8 * (n + nbytes) == low' + 0x1_0000_0000 * high' + 0x1_0000_0000_0000_0000 * (k + over)
  {
  }

  lemma Modulo(x: nat, r: nat, k: nat)
    requires x == r + 0x1_0000_0000_0000_0000 * k && r < 0x1_0000_0000_0000_0000
    ensures x % 0x1_0000_0000_0000_0000 == r
  {
  }

  lemma NextBlock(n: nat)
    requires n % 64 == 0
    ensures (n + 64) % 64 == 0
  {
  }

  lemma PadLength(c: nat, n: nat)
    requires c % 64 == n % 64
    ensures (55 - c) % 64 == (55 - n) % 64
  {
  }

  lemma LengthBytes(low: Word, high: Word)
    ensures LittleEndian(low, 4) + LittleEndian(high, 4) == LittleEndian(low + 0x1_0000_0000 * high, 8)
  {
    EightBytes();
    LittleEndianSplit(low, high, 4, 4);
  }

  lemma {:induction false} LittleEndianSplit(low: nat, high: nat, k: nat, j: nat)
    requires low < Power(k)
    ensures LittleEndian(low, k) + LittleEndian(high, j) == LittleEndian(low + Power(k) * high, k + j)
  {
    if k > 0 {
      Scaled(Power(k - 1), high);
      FirstByte(low, Power(k - 1) * high);
      LittleEndianSplit(low / 256, high, k - 1, j);
    }
  }

  lemma Scaled(c: nat, high: nat)
    ensures (256 * c) * high == 256 * (c * high)
  {
  }

  lemma PaddedSo(m: seq<Byte>, pad: seq<Byte>, data: seq<Byte>)
    requires pad == [0x80] + seq((55 - |m|) % 64, _ => 0)
    requires data == LittleEndian((8 * |m|) % 0x1_0000_0000_0000_0000, 8)
    ensures m + pad + data == PaddedMessage(m) && |m + pad + data| % 64 == 0
  {
    assert m + [0x80] + seq((55 - |m|) % 64, _ => 0) == m + pad;
  }

  // ---- pieces of a message ----

  lemma Aligned(m: seq<Byte>)
    requires |m| % 64 == 0
    ensures Whole(m) == m
  {
  }

  // The new bytes do not fill the block.
  lemma Buffered(m: seq<Byte>, data: seq<Byte>, buf0: seq<Byte>, buf: seq<Byte>)
    requires |buf0| == 64 && buf0[..|m| % 64] == m[|Whole(m)|..] && |m| % 64 + |data| < 64
    requires buf == buf0[..|m| % 64] + data + buf0[|m| % 64 + |data|..]
    ensures |buf| == 64 && Whole(m + data) == Whole(m)
    ensures buf[..|m + data| % 64] == (m + data)[|Whole(m + data)|..]
  {
    assert |m + data| % 64 == |m| % 64 + |data|;
  }

  // They fill it.
  lemma BlockFilled(process: Compression, m: seq<Byte>, data: seq<Byte>, copy: nat, buf0: seq<Byte>, buf: seq<Byte>)
    requires |buf0| == 64 && buf0[..|m| % 64] == m[|Whole(m)|..] && copy <= |data| && |m| % 64 + copy == 64
    requires buf == buf0[..|m| % 64] + data[..copy] + buf0[64..]
    ensures |buf| == 64 && (|m| + copy) % 64 == 0
    ensures Fold(process, m + data[..copy]) == process(Fold(process, Whole(m)), buf)
  {
    hide Fold;
    var w, o := Whole(m), |m| % 64;
    assert m == w + m[|w|..];
    assert buf0[64..] == [];
    assert buf == m[|w|..] + data[..copy];
    assert m + data[..copy] == w + buf;
    FoldNext(process, w, buf);
  }

  // What is left over after the whole blocks is buffered.
  lemma Rest(m: seq<Byte>, data: seq<Byte>, p: nat, buf: seq<Byte>)
    requires p <= |data| < p + 64 && (|m| + p) % 64 == 0 && |buf| == 64 && buf[..|data| - p] == data[p..]
    ensures Whole(m + data) == m + data[..p] && buf[..|m + data| % 64] == (m + data)[|Whole(m + data)|..]
  {
    assert |m + data| == (|m| + p) + (|data| - p);
    assert |m + data| % 64 == |data| - p;
  }

  ghost function Joined(pieces: seq<seq<Byte>>): seq<Byte> {
    if pieces == [] then [] else Joined(pieces[..|pieces| - 1]) + pieces[|pieces| - 1]
  }

  // However a message is cut up, the digest is that of the whole.
  method DigestOf(process: Compression, pieces: seq<seq<Byte>>) returns (digest: seq<Byte>)
    requires forall i :: 0 <= i < |pieces| ==> |pieces[i]| < 0x8000_0000 - 64
    ensures digest == Digest(process, Joined(pieces))
  {
    hide Digest;
    var state := new State(process);
    for i := 0 to |pieces|
      invariant state.Valid() && state.process == process && fresh(state) && state.message == Joined(pieces[..i])
    {
      state.Append(pieces[i]);
      assert pieces[..i + 1][..i] == pieces[..i];
    }
    assert pieces[..|pieces|] == pieces;
    digest := state.Finish();
  }
}
