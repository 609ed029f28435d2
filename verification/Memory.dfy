/**
 Physical memory as the TSM sees it through raw pointers: one byte per 64-bit address.
 Page-table entries are little-endian 64-bit words in the same bytes.
 */
module Memory {

  const PAGE_SIZE: nat := 4096
  const SPACE: nat := 0x1_0000_0000_0000_0000

  type Byte = b: int | 0 <= b < 256

  type Memory = m: seq<Byte> | |m| == SPACE ghost witness seq(SPACE, i => 0)

  datatype Option<+T> = None | Some(value: T)

  /** `m` with `data` stored from address `a` on. */
  function Patch(m: Memory, a: nat, data: seq<Byte>): (m': Memory)
    requires a + |data| <= SPACE
    ensures forall i {:trigger m'[i]} | 0 <= i < SPACE ::
              m'[i] == if a <= i < a + |data| then data[i - a] else m[i]
  {
    m[..a] + data + m[a + |data|..]
  }

  ghost predicate SameOutside(m: Memory, m': Memory, lo: nat, hi: nat) {
    forall i {:trigger m'[i]} | 0 <= i < SPACE && !(lo <= i < hi) :: m'[i] == m[i]
  }

  function ToBytes(v: nat, n: nat): (s: seq<Byte>)
    ensures |s| == n
  {
    if n == 0 then [] else [v % 256] + ToBytes(v / 256, n - 1)
  }

  function FromBytes(s: seq<Byte>): nat {
    if s == [] then 0 else s[0] + 256 * FromBytes(s[1..])
  }

  function Pow256(n: nat): (r: nat)
    ensures r > 0
  {
    if n == 0 then 1 else 256 * Pow256(n - 1)
  }

  lemma {:induction false} FromBytesBound(s: seq<Byte>)
    ensures FromBytes(s) < Pow256(|s|)
  {
    if s != [] {
      FromBytesBound(s[1..]);
    }
  }

  lemma {:induction false} BytesRoundTrip(v: nat, n: nat)
    requires v < Pow256(n)
    ensures FromBytes(ToBytes(v, n)) == v
  {
    if n != 0 {
      BytesRoundTrip(v / 256, n - 1);
      assert ToBytes(v, n)[1..] == ToBytes(v / 256, n - 1);
    }
  }

  lemma Pow256Of8()
    ensures Pow256(8) == SPACE
  {
    assert Pow256(4) == 0x1_0000_0000;
    assert Pow256(8) == 256 * (256 * (256 * (256 * Pow256(4))));
  }

  /** The 64-bit load of the walk and of `core::ptr::read`. */
  function LoadWord(m: Memory, a: nat): (w: nat)
    requires a + 8 <= SPACE
    ensures w < SPACE
  {
    FromBytesBound(m[a..a + 8]);
    Pow256Of8();
    FromBytes(m[a..a + 8])
  }

  function StoreWord(m: Memory, a: nat, w: nat): Memory
    requires a + 8 <= SPACE
  {
    Patch(m, a, ToBytes(w, 8))
  }

  /** A stored word reads back, and a store leaves every word it does not overlap alone. */
  lemma StoreLoad(m: Memory, a: nat, w: nat)
    requires a + 8 <= SPACE && w < SPACE
    ensures LoadWord(StoreWord(m, a, w), a) == w
    ensures forall b {:trigger LoadWord(StoreWord(m, a, w), b)} |
              0 <= b && b + 8 <= SPACE && (b + 8 <= a || a + 8 <= b) ::
              LoadWord(StoreWord(m, a, w), b) == LoadWord(m, b)
  {
    Pow256Of8();
    BytesRoundTrip(w, 8);
    var m' := StoreWord(m, a, w);
    assert m'[a..a + 8] == ToBytes(w, 8);
    forall b | 0 <= b && b + 8 <= SPACE && (b + 8 <= a || a + 8 <= b)
      ensures LoadWord(m', b) == LoadWord(m, b)
    {
      assert m'[b..b + 8] == m[b..b + 8];
    }
  }

  lemma LoadSame(m: Memory, m': Memory, a: nat)
    requires a + 8 <= SPACE
    requires forall i {:trigger m'[i]} | a <= i < a + 8 :: m'[i] == m[i]
    ensures LoadWord(m', a) == LoadWord(m, a)
  {
    assert m'[a..a + 8] == m[a..a + 8];
  }

  lemma {:induction false} FromZeros(s: seq<Byte>)
    requires forall i | 0 <= i < |s| :: s[i] == 0
    ensures FromBytes(s) == 0
  {
    if s != [] {
      FromZeros(s[1..]);
    }
  }

  lemma LoadZero(m: Memory, a: nat)
    requires a + 8 <= SPACE
    requires forall i | a <= i < a + 8 :: m[i] == 0
    ensures LoadWord(m, a) == 0
  {
    FromZeros(m[a..a + 8]);
  }

  /** The machine's physical memory; every raw-pointer store of the TSM goes through it. */
  class Ram {
    var bytes: Memory

    constructor (initial: Memory)
      ensures bytes == initial
    {
      bytes := initial;
    }

    method WriteWord(a: nat, w: nat)
      requires a + 8 <= SPACE && w < SPACE
      modifies this
      ensures bytes == StoreWord(old(bytes), a, w)
    {
      bytes := StoreWord(bytes, a, w);
    }

    /** `write_bytes(ptr, 0, n)`. */
    method Zero(a: nat, n: nat)
      requires a + n <= SPACE
      modifies this
      ensures forall i | a <= i < a + n :: bytes[i] == 0
      ensures SameOutside(old(bytes), bytes, a, a + n)
    {
      bytes := Patch(bytes, a, seq(n, i => 0));
    }

    /** `copy_nonoverlapping` from a slice. */
    method Put(a: nat, data: seq<Byte>)
      requires a + |data| <= SPACE
      modifies this
      ensures bytes[a..a + |data|] == data
      ensures SameOutside(old(bytes), bytes, a, a + |data|)
    {
      bytes := Patch(bytes, a, data);
    }
  }
}
