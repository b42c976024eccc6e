/**
  Positions in the radix tree. A node at level i is reached by the first i two-bit digits of a key,
  most significant first, so it is named by its level and those digits read as a number.
 */
module Addresses {
  import opened Rids

  const LEVELS := 32

  const BRANCHES := 4

  datatype Addr = Addr(level: nat, bits: nat)

  const TOP := Addr(0, 0)

  // key >> 2n
  function Shift(key: nat, n: nat): nat {
    if n == 0 then key else Shift(key, n - 1) / BRANCHES
  }

  // PK_BRANCH(key, i): the branch that `key` takes out of a node at level `i`.
  function Digit(key: Rid, i: nat): (d: nat)
    requires i < LEVELS
    ensures d < BRANCHES
  {
    Shift(key, LEVELS - 1 - i) % BRANCHES
  }

  function Parent(a: Addr): Addr
    requires a.level > 0
  {
    Addr(a.level - 1, a.bits / BRANCHES)
  }

  function Branch(a: Addr): nat {
    a.bits % BRANCHES
  }

  function Child(a: Addr, b: nat): (c: Addr)
    requires b < BRANCHES
    ensures c.level == a.level + 1
    ensures Parent(c) == a && Branch(c) == b
  {
    Addr(a.level + 1, BRANCHES * a.bits + b)
  }

  // The position at level `i` on the path of a key.
  function Path(key: Rid, i: nat): (a: Addr)
    requires i <= LEVELS
    ensures a.level == i
  {
    Addr(i, Shift(key, LEVELS - i))
  }

  lemma ChildOfParent(a: Addr)
    requires a.level > 0
    ensures Branch(a) < BRANCHES && Child(Parent(a), Branch(a)) == a
  {
  }

  lemma PathStep(key: Rid, i: nat)
    requires i < LEVELS
    ensures Path(key, i + 1) == Child(Path(key, i), Digit(key, i))
  {
    assert Shift(key, LEVELS - i) == Shift(key, LEVELS - i - 1) / BRANCHES;
  }

  // A full path names its key.
  lemma FullPath(key: Rid, other: Rid)
    ensures Path(key, LEVELS) == Path(other, LEVELS) ==> key == other
  {
  }

  function Power(n: nat): nat {
    if n == 0 then 1 else BRANCHES * Power(n - 1)
  }

  lemma {:induction false} ShiftBound(key: nat, n: nat, m: nat)
    requires key < Power(n + m)
    ensures Shift(key, n) < Power(m)
    decreases n
  {
    if n > 0 {
      ShiftBound(key, n - 1, m + 1);
    }
  }

  // Every key starts at the root.
  lemma PathTop(key: Rid)
    ensures Path(key, 0) == TOP
  {
    assert Power(4) == 256;
    assert Power(8) == 65536;
    assert Power(16) == 0x1_0000_0000 by {
      assert Power(12) == 0x100_0000;
    }
    assert Power(24) == 0x1_0000_0000_0000 by {
      assert Power(20) == 0x100_0000_0000;
    }
    assert Power(32) == 0x1_0000_0000_0000_0000 by {
      assert Power(28) == 0x100_0000_0000_0000;
    }
    ShiftBound(key, LEVELS, 0);
  }

  // Paths that agree at a level agree above it.
  lemma {:induction false} PathPrefix(key: Rid, other: Rid, i: nat, j: nat)
    requires i <= j <= LEVELS
    requires Path(key, j) == Path(other, j)
    ensures Path(key, i) == Path(other, i)
    decreases j - i
  {
    if i < j {
      PathStep(key, j - 1);
      PathStep(other, j - 1);
      PathPrefix(key, other, i, j - 1);
    }
  }
}
