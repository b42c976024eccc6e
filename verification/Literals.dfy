/**
  The compact forms in which the resource table keeps lexical strings: as they are, as digits packed two
  to a byte, or as the code of a known prefix and the rest of the string.
 */
module Literals {

  type Byte = n: nat | n < 256

  // A C string: bytes up to, and not including, the first zero.
  type Text = s: seq<Byte> | forall i :: 0 <= i < |s| ==> s[i] != 0

  const INLINE_STR_LEN := 15

  // What a C function reads from a buffer: the bytes before the first zero.
  function Terminated(buf: seq<Byte>): (s: Text)
    ensures |s| <= |buf| && s == buf[..|s|] && (|s| < |buf| ==> buf[|s|] == 0)
  {
    if buf == [] || buf[0] == 0 then [] else [buf[0]] + Terminated(buf[1..])
  }

  lemma {:induction false} TerminatedPadded(s: Text, buf: seq<Byte>)
    requires |s| <= |buf| && buf[..|s|] == s && (|s| < |buf| ==> buf[|s|] == 0)
    ensures Terminated(buf) == s
  {
    if s != [] {
      assert buf[0] == s[0];
      assert buf[1..][..|s| - 1] == s[1..];
      TerminatedPadded(s[1..], buf[1..]);
    }
  }

  // strncpy: at most `n` bytes, padded with zeros.
  function Padded(s: Text, n: nat): (buf: seq<Byte>)
    ensures |buf| == n
  {
    if |s| >= n then s[..n] else s + seq(n - |s|, _ => 0)
  }

  // ---- numbers as bytes ----

  // A number as bytes, low-order byte first.
  function LittleEndian(n: nat, bytes: nat): (s: seq<Byte>)
    ensures |s| == bytes
  {
    if bytes == 0 then [] else [n % 256] + LittleEndian(n / 256, bytes - 1)
  }

  function FromLittleEndian(s: seq<Byte>): nat {
    if s == [] then 0 else s[0] + 256 * FromLittleEndian(s[1..])
  }

  ghost function Power(k: nat): nat {
    if k == 0 then 1 else 256 * Power(k - 1)
  }

  lemma FirstByte(low: nat, x: nat)
    ensures (low + 256 * x) % 256 == low % 256 && (low + 256 * x) / 256 == low / 256 + x
  {
  }

  lemma {:induction false} LittleEndianBack(n: nat, bytes: nat)
    requires n < Power(bytes)
    ensures FromLittleEndian(LittleEndian(n, bytes)) == n
  {
    if bytes > 0 {
      LittleEndianBack(n / 256, bytes - 1);
      assert LittleEndian(n, bytes)[1..] == LittleEndian(n / 256, bytes - 1);
    }
  }

  // ---- digits packed two to a byte ----

  // The code of a byte is its position in the alphabet, counted from 1; 0 if it is not in it.
  function CodeOf(alphabet: seq<Byte>, c: Byte): (code: nat)
    ensures code <= |alphabet| && (code == 0 <==> c !in alphabet)
    ensures code > 0 ==> alphabet[code - 1] == c
  {
    if alphabet == [] then 0
    else if alphabet[0] == c then 1
    else
      var rest := CodeOf(alphabet[1..], c);
      if rest == 0 then 0 else rest + 1
  }

  // 1 2 3 4 5 6 7 8 9 0 . + - e
  const BCD: seq<Byte> := [49, 50, 51, 52, 53, 54, 55, 56, 57, 48, 46, 43, 45, 101]

  // 1 2 3 4 5 6 7 8 9 0 : + - T Z
  const BCDATE: seq<Byte> := [49, 50, 51, 52, 53, 54, 55, 56, 57, 48, 58, 43, 45, 84, 90]

  predicate Packable(alphabet: seq<Byte>, s: Text) {
    |s| <= 2 * INLINE_STR_LEN && forall i :: 0 <= i < |s| ==> CodeOf(alphabet, s[i]) != 0
  }

  // The code at one position of a packed buffer: even positions are in the low halves of the bytes.
  function Nibble(buf: seq<Byte>, pos: nat): nat
    requires pos / 2 < |buf|
  {
    if pos % 2 == 0 then buf[pos / 2] % 16 else buf[pos / 2] / 16
  }

  // write_bcd: sets bits in a half byte that is zero, where setting bits is adding.
  function WriteNibble(buf: seq<Byte>, pos: nat, val: nat): (r: seq<Byte>)
    requires pos / 2 < |buf| && val < 16 && Nibble(buf, pos) == 0
    ensures |r| == |buf|
    ensures forall k: nat :: k / 2 < |buf| ==> Nibble(r, k) == if k == pos then val else Nibble(buf, k)
  {
    var b := buf[pos / 2] + if pos % 2 == 0 then val else val * 16;
    var r := buf[pos / 2 := b];
    assert forall k: nat :: k / 2 < |buf| && k != pos && k / 2 == pos / 2 ==> k % 2 != pos % 2;
    r
  }

  // The buffer holds the codes of a string and zeros after them.
  ghost predicate Packs(alphabet: seq<Byte>, s: seq<Byte>, buf: seq<Byte>) {
    && |buf| == INLINE_STR_LEN && |s| <= 2 * INLINE_STR_LEN
    && (forall k {:trigger Nibble(buf, k)} :: 0 <= k < 2 * INLINE_STR_LEN ==>
          Nibble(buf, k) == if k < |s| then CodeOf(alphabet, s[k]) else 0)
  }

  lemma PacksLength(alphabet: seq<Byte>, s: seq<Byte>, buf: seq<Byte>)
    requires Packs(alphabet, s, buf)
    ensures |buf| == INLINE_STR_LEN
  {
  }

  // compress_bcd and compress_bcdate. Without `write` the string is only checked.
  method Compress(alphabet: seq<Byte>, s: Text, write: bool) returns (failed: bool, buf: seq<Byte>)
    requires |alphabet| < 16
    ensures failed <==> !Packable(alphabet, s)
    ensures !failed && write ==> Packs(alphabet, s, buf)
  {
    buf := seq(INLINE_STR_LEN, _ => 0);
    if |s| > 2 * INLINE_STR_LEN {
      failed := true;
      return;
    }
    failed := false;
    ZeroNibbles(buf);
    var i := 0;
    while i < |s| && !failed
      invariant i <= |s| && (forall j :: 0 <= j < i ==> CodeOf(alphabet, s[j]) != 0)
      invariant failed ==> i < |s| && CodeOf(alphabet, s[i]) == 0
      invariant |buf| == INLINE_STR_LEN && (!failed && write ==> Packs(alphabet, s[..i], buf))
      decreases |s| - i, !failed
    {
      var code := CodeOf(alphabet, s[i]);
      if code == 0 {
        failed := true;
      } else {
        if write {
          PackNext(alphabet, s, i, buf);
          buf := WriteNibble(buf, i, code);
        }
        i := i + 1;
      }
    }
    assert s[..|s|] == s;
  }

  lemma ZeroNibbles(buf: seq<Byte>)
    requires |buf| == INLINE_STR_LEN && forall i :: 0 <= i < |buf| ==> buf[i] == 0
    ensures forall alphabet: seq<Byte>, s: seq<Byte> :: Packs(alphabet, s[..0], buf)
  {
  }

  lemma PackNext(alphabet: seq<Byte>, s: seq<Byte>, i: nat, buf: seq<Byte>)
    requires i < |s| <= 2 * INLINE_STR_LEN && |alphabet| < 16 && Packs(alphabet, s[..i], buf)
    ensures Nibble(buf, i) == 0 && Packs(alphabet, s[..i + 1], WriteNibble(buf, i, CodeOf(alphabet, s[i])))
  {
    assert forall k :: 0 <= k < i ==> s[..i][k] == s[k];
  }

  // The byte a code stands for; the one code without a byte reads as a question mark.
  function Symbol(alphabet: seq<Byte>, code: nat): Byte
    requires 0 < code < 16
  {
    if code <= |alphabet| then alphabet[code - 1] else 63
  }

  // uncompress_bcd and uncompress_bcdate: reads codes up to the first zero.
  method Uncompress(alphabet: seq<Byte>, buf: seq<Byte>) returns (out: seq<Byte>)
    requires |alphabet| < 16 && |buf| == INLINE_STR_LEN
    ensures forall s: Text :: Packable(alphabet, s) && Packs(alphabet, s, buf) ==> out == s
  {
    out := [];
    var inpos := 0;
    while inpos < 2 * INLINE_STR_LEN && Nibble(buf, inpos) != 0
      invariant inpos == |out| <= 2 * INLINE_STR_LEN
      invariant forall k :: 0 <= k < inpos ==> 0 < Nibble(buf, k) < 16 && out[k] == Symbol(alphabet, Nibble(buf, k))
    {
      out := out + [Symbol(alphabet, Nibble(buf, inpos))];
      inpos := inpos + 1;
    }
    forall s: Text | Packable(alphabet, s) && Packs(alphabet, s, buf)
      ensures out == s
    {
      Unpacked(alphabet, s, buf, out);
    }
  }

  lemma Unpacked(alphabet: seq<Byte>, s: Text, buf: seq<Byte>, out: seq<Byte>)
    requires |alphabet| < 16 && Packable(alphabet, s) && Packs(alphabet, s, buf)
    requires |out| <= 2 * INLINE_STR_LEN && (|out| < 2 * INLINE_STR_LEN ==> Nibble(buf, |out|) == 0)
    requires forall k :: 0 <= k < |out| ==> 0 < Nibble(buf, k) < 16 && out[k] == Symbol(alphabet, Nibble(buf, k))
    ensures out == s
  {
    hide CodeOf, CodesFrom;
    CodesEnd(buf, |out|, 0);
    CodesEnd(buf, |s|, 0);
    assert |out| == |s|;
    hide Nibble;
    forall k | 0 <= k < |s|
      ensures out[k] == s[k]
    {
      assert Nibble(buf, k) == CodeOf(alphabet, s[k]);
    }
  }

  // How many codes precede the first zero from position `k` on.
  ghost function CodesFrom(buf: seq<Byte>, k: nat): nat
    requires |buf| == INLINE_STR_LEN && k <= 2 * INLINE_STR_LEN
    decreases 2 * INLINE_STR_LEN - k
  {
    if k == 2 * INLINE_STR_LEN || Nibble(buf, k) == 0 then 0 else 1 + CodesFrom(buf, k + 1)
  }

  lemma {:induction false} CodesEnd(buf: seq<Byte>, n: nat, k: nat)
    requires |buf| == INLINE_STR_LEN && k <= n <= 2 * INLINE_STR_LEN
    requires forall i {:trigger Nibble(buf, i)} :: k <= i < n ==> Nibble(buf, i) != 0
    requires n < 2 * INLINE_STR_LEN ==> Nibble(buf, n) == 0
    ensures CodesFrom(buf, k) == n - k
    decreases n - k
  {
    if k < n {
      CodesEnd(buf, n, k + 1);
    }
  }
}
