/**
 Programming the physical memory protection (PMP) entries of a domain, against the NAPOT decoding of
 section 3.7 of the RISC-V Privileged ISA.
 */
module Pmp {

  import opened Bits

  datatype Region = Region(base: nat, order: nat)

  // ----- what an entry means

  function TrailingOnes(a: nat): nat {
    if a % 2 == 0 then 0 else 1 + TrailingOnes(a / 2)
  }

  /** Address range of a NAPOT entry: `y...y01...1` with `t` ones is `2^(t+3)` bytes at `y...y0...0`. */
  function NapotSize(a: nat): nat {
    Pow2(TrailingOnes(a) + 3)
  }

  function NapotStart(a: nat): int {
    4 * (a - (Pow2(TrailingOnes(a)) - 1))
  }

  predicate Decodes(a: nat, start: int, size: nat) {
    NapotStart(a) == start && NapotSize(a) == size
  }

  predicate Covers(a: nat, lo: nat, hi: nat) {
    NapotStart(a) <= lo && hi <= NapotStart(a) + NapotSize(a)
  }

  /** A configuration byte: lock in bit 7, address mode in bits 4 and 3, then execute, write and read. */
  datatype Config = Config(locked: bool, mode: bv64, execute: bool, write: bool, read: bool)

  function ConfigOf(b: bv64): Config {
    Config((b >> 7) & 1 == 1, (b >> 3) & 3, (b >> 2) & 1 == 1, (b >> 1) & 1 == 1, b & 1 == 1)
  }

  /** Address mode 3: naturally aligned power of two, 8 bytes or more. */
  const NAPOT: bv64 := 3

  /** A NAPOT entry that allows everything and can be written again. */
  predicate GrantsAll(b: bv64) {
    b <= 0xff && ConfigOf(b) == Config(false, NAPOT, true, true, true)
  }

  // ----- what is written

  /** The shift that builds the ones is done on 32-bit signed numbers and must not overflow. */
  predicate OrderOk(order: nat) {
    3 <= order <= 33
  }

  function PmpAddr(r: Region): nat
    requires OrderOk(r.order)
  {
    BitOr(r.base / 4, Pow2(r.order - 3) - 1)
  }

  /** NAPOT, readable, writable, executable, not locked. */
  const NAPOT_RWX: bv64 := 0x1f

  // ----- address registers

  /** Clears the low `k` bits. */
  function Down(x: nat, k: nat): nat {
    if k == 0 then x else 2 * Down(x / 2, k - 1)
  }

  lemma {:induction false} DownIs(x: nat, k: nat)
    ensures Down(x, k) == x - x % Pow2(k)
  {
    if k > 0 {
      DownIs(x / 2, k - 1);
      DivDouble(x, Pow2(k - 1));
    }
  }

  lemma AddrOfHalf(r: Region)
    requires OrderOk(r.order) && r.order > 3
    ensures PmpAddr(r) == 2 * PmpAddr(Region(r.base / 2, r.order - 1)) + 1
  {
    var ones := Pow2(r.order - 4) - 1;
    assert Pow2(r.order - 3) - 1 == 2 * ones + 1;
    assert (2 * ones + 1) / 2 == ones && r.base / 4 / 2 == r.base / 2 / 4;
  }

  lemma BlockOfOdd(h: nat)
    ensures NapotStart(2 * h + 1) == 2 * NapotStart(h) && NapotSize(2 * h + 1) == 2 * NapotSize(h)
  {
    assert (2 * h + 1) / 2 == h;
  }

  lemma SmallestAddr(base: nat)
    ensures PmpAddr(Region(base, 3)) == base / 4
  {
    OrZero(base / 4);
  }

  lemma SmallestEven(base: nat)
    requires !Bit(base, 2)
    ensures Decodes(PmpAddr(Region(base, 3)), Down(base, 3), Pow2(3))
  {
    hide Bit, Down, PmpAddr, NapotSize, NapotStart, Pow2;
    LowBits(base);
    SmallestAddr(base);
    Pow2Small();
    EvenBlock(base / 4);
    assert 4 * (base / 4) == base / 8 * 8;
  }

  lemma SmallestOdd(base: nat)
    requires Bit(base, 2)
    ensures NapotSize(PmpAddr(Region(base, 3))) >= 2 * Pow2(3)
    ensures Covers(PmpAddr(Region(base, 3)), base, base + Pow2(3) + 1)
  {
    hide Bit, Down, PmpAddr, NapotSize, NapotStart, Pow2;
    LowBits(base);
    SmallestAddr(base);
    Pow2Small();
    OddBlock(base / 4);
  }

  lemma HalfDown(x: nat, k: nat)
    requires k > 0
    ensures Down(x, k) == 2 * Down(x / 2, k - 1) && (k > 1 ==> Bit(x, k - 1) == Bit(x / 2, k - 2))
    ensures Pow2(k) == 2 * Pow2(k - 1)
  {
  }

  /** The bit below the order is clear: the entry is the naturally aligned block around the base. */
  lemma {:induction false} DecodeEven(r: Region)
    requires OrderOk(r.order) && !Bit(r.base, r.order - 1)
    ensures Decodes(PmpAddr(r), Down(r.base, r.order), Pow2(r.order))
    decreases r.order
  {
    hide BitOr, PmpAddr, NapotStart, NapotSize, TrailingOnes, Down, Bit, Pow2;
    if r.order == 3 {
      SmallestEven(r.base);
    } else {
      var half := Region(r.base / 2, r.order - 1);
      AddrOfHalf(r);
      HalfDown(r.base, r.order);
      BlockOfOdd(PmpAddr(half));
      DecodeEven(half);
    }
  }

  lemma LowBits(x: nat)
    ensures Bit(x, 2) <==> x / 4 % 2 == 1
    ensures Down(x, 3) == x / 8 * 8
  {
    Eighth(x);
    var x1 := x / 2;
    var x2 := x1 / 2;
    var x3 := x2 / 2;
    assert Bit(x, 2) == Bit(x1, 1) == Bit(x2, 0);
    assert Down(x, 3) == 2 * Down(x1, 2);
    assert Down(x1, 2) == 2 * Down(x2, 1);
    assert Down(x2, 1) == 2 * Down(x3, 0) == 2 * x3;
  }

  lemma Eighth(x: nat)
    ensures x / 2 / 2 == x / 4 && x / 2 / 2 / 2 == x / 8
  {
  }

  lemma EvenBlock(a: nat)
    requires a % 2 == 0
    ensures NapotStart(a) == 4 * a && NapotSize(a) == 8
  {
    Pow2Small();
    assert TrailingOnes(a) == 0 && Pow2(0) == 1;
  }

  lemma {:induction false} OddBlock(a: nat)
    requires a % 2 == 1
    ensures NapotSize(a) >= 16
    ensures NapotStart(a) <= 4 * a - 4 && 4 * a + 12 <= NapotStart(a) + NapotSize(a)
  {
    BlockOfOdd(a / 2);
    if a / 2 % 2 == 1 {
      OddBlock(a / 2);
    } else {
      Pow2Small();
    }
  }

  /** The bit below the order is set: the entry is a larger block, which still holds the whole region. */
  lemma {:induction false} DecodeOdd(r: Region)
    requires OrderOk(r.order) && Bit(r.base, r.order - 1)
    ensures NapotSize(PmpAddr(r)) >= 2 * Pow2(r.order)
    ensures Covers(PmpAddr(r), r.base, r.base + Pow2(r.order) + 1)
    decreases r.order
  {
    hide BitOr, PmpAddr, NapotStart, NapotSize, TrailingOnes, Down, Bit, Pow2;
    if r.order == 3 {
      SmallestOdd(r.base);
    } else {
      var half := Region(r.base / 2, r.order - 1);
      AddrOfHalf(r);
      HalfDown(r.base, r.order);
      BlockOfOdd(PmpAddr(half));
      DecodeOdd(half);
    }
  }

  /** The two results in terms of the base's bits alone. */
  lemma EntryBits(r: Region)
    requires OrderOk(r.order)
    ensures Decodes(PmpAddr(r), r.base, Pow2(r.order)) <==> Down(r.base, r.order) == r.base
    ensures Covers(PmpAddr(r), r.base, r.base + Pow2(r.order))
            <==> Down(r.base, r.order) == r.base || Bit(r.base, r.order - 1)
  {
    hide PmpAddr, NapotStart, NapotSize, Down, Bit, Pow2;
    DownBelow(r.base, r.order);
    if Bit(r.base, r.order - 1) {
      DecodeOdd(r);
      DownBit(r.base, r.order);
    } else {
      DecodeEven(r);
    }
  }

  lemma {:induction false} DownBelow(x: nat, k: nat)
    ensures Down(x, k) <= x
  {
    if k > 0 {
      DownBelow(x / 2, k - 1);
    }
  }

  lemma {:induction false} DownBit(x: nat, k: nat)
    requires k > 0 && Bit(x, k - 1)
    ensures Down(x, k) < x
  {
    if k > 1 {
      DownBit(x / 2, k - 1);
    } else {
      assert Down(x, 1) == 2 * Down(x / 2, 0);
    }
  }

  /** Exact: the entry is the region itself precisely when the base is a multiple of the size. */
  lemma EntryExact(r: Region)
    requires OrderOk(r.order)
    ensures Decodes(PmpAddr(r), r.base, Pow2(r.order)) <==> r.base % Pow2(r.order) == 0
  {
    hide PmpAddr, Decodes, Down, Pow2;
    EntryBits(r);
    DownIs(r.base, r.order);
  }

  /** Exact: the entry holds the region when the base is aligned, or when it overshoots it. */
  lemma EntryCovers(r: Region)
    requires OrderOk(r.order)
    ensures Covers(PmpAddr(r), r.base, r.base + Pow2(r.order))
            <==> r.base % Pow2(r.order) == 0 || r.base / Pow2(r.order - 1) % 2 == 1
  {
    hide PmpAddr, Covers, Down, Bit, Pow2;
    EntryBits(r);
    DownIs(r.base, r.order);
    BitIs(r.base, r.order - 1);
  }

  // ----- configuration register

  predicate IsShift(s: bv64) {
    s == 0 || s == 8 || s == 16 || s == 24 || s == 32 || s == 40 || s == 48 || s == 56
  }

  /** Byte offset `8 * i` of entry `i` in `pmpcfg0`. */
  function Shift(i: nat): (s: bv64)
    requires i < 8
    ensures IsShift(s)
  {
    match i
    case 0 => 0
    case 1 => 8
    case 2 => 16
    case 3 => 24
    case 4 => 32
    case 5 => 40
    case 6 => 48
    case _ => 56
  }

  function ConfigByte(x: bv64, s: bv64): bv64
    requires IsShift(s)
  {
    (x >> s) & 0xff
  }

  /** Read, mask out one byte, or the new one in. */
  function Written(old_: bv64, v: bv64, s: bv64): bv64
    requires IsShift(s)
  {
    (old_ & !(0xff << s)) | (v << s)
  }

  lemma OwnByte(x: bv64, v: bv64, s: bv64)
    requires IsShift(s) && v <= 0xff
    ensures ConfigByte(Written(x, v, s), s) == v
  {
  }

  lemma OtherByte(x: bv64, v: bv64, s: bv64, t: bv64)
    requires IsShift(s) && IsShift(t) && v <= 0xff && s != t
    ensures ConfigByte(Written(x, v, s), t) == ConfigByte(x, t)
  {
    if t == 0 {
    } else if t == 8 {
    } else if t == 16 {
    } else if t == 24 {
    } else if t == 32 {
    } else if t == 40 {
    } else if t == 48 {
    } else {
    }
  }

  lemma OnlyByte(x: bv64, v: bv64, i: nat, j: nat)
    requires i < 8 && j < 8 && v <= 0xff
    ensures ConfigByte(Written(x, v, Shift(i)), Shift(j)) == if i == j then v else ConfigByte(x, Shift(j))
  {
    hide ConfigByte, Written;
    if i == j {
      OwnByte(x, v, Shift(i));
    } else {
      OtherByte(x, v, Shift(i), Shift(j));
    }
  }

  /** Lists that can be programmed: one configuration register, and orders the shift can build. */
  predicate Programmable(regions: seq<Region>) {
    |regions| <= 8 && forall r | r in regions :: OrderOk(r.order)
  }

  /** Entry `i` holds region `r`. */
  predicate Holds(addr: seq<nat>, cfg0: bv64, i: nat, r: Region)
    requires |addr| == 16
  {
    i < 8 && OrderOk(r.order) && addr[i] == PmpAddr(r) && ConfigByte(cfg0, Shift(i)) == NAPOT_RWX
  }

  /** What one entry of the register file says: its address register and its configuration byte. */
  datatype Entry = Entry(addr: nat, config: bv64)

  type Entries = p: seq<Entry> | |p| == 8 witness seq(8, i => Entry(0, 0))

  function EntryAt(addr: seq<nat>, cfg0: bv64, i: nat): Entry
    requires |addr| == 16 && i < 8
  {
    Entry(addr[i], ConfigByte(cfg0, Shift(i)))
  }

  function EntriesOf(addr: seq<nat>, cfg0: bv64): Entries
    requires |addr| == 16
  {
    seq(8, i requires 0 <= i < 8 => EntryAt(addr, cfg0, i))
  }

  function EntryFor(r: Region): Entry
    requires OrderOk(r.order)
  {
    Entry(PmpAddr(r), NAPOT_RWX)
  }

  /** The list from entry 0 on, and what was there behind it. */
  function Programmed(p: Entries, regions: seq<Region>): Entries
    requires Programmable(regions)
  {
    seq(8, i requires 0 <= i < 8 => if i < |regions| then EntryFor(regions[i]) else p[i])
  }

  lemma ProgrammedIs(addr: seq<nat>, cfg0: bv64, addr': seq<nat>, cfg0': bv64, regions: seq<Region>)
    requires |addr| == |addr'| == 16 && Programmable(regions)
    requires forall i | 0 <= i < |regions| :: Holds(addr', cfg0', i, regions[i])
    requires addr'[|regions|..] == addr[|regions|..]
    requires forall j | |regions| <= j < 8 :: ConfigByte(cfg0', Shift(j)) == ConfigByte(cfg0, Shift(j))
    ensures EntriesOf(addr', cfg0') == Programmed(EntriesOf(addr, cfg0), regions)
  {
    hide ConfigByte, PmpAddr;
    var p, n := EntriesOf(addr', cfg0'), |regions|;
    forall i | 0 <= i < 8 ensures p[i] == Programmed(EntriesOf(addr, cfg0), regions)[i] {
      if i < n {
        assert Holds(addr', cfg0', i, regions[i]);
      } else {
        assert addr'[i] == addr'[n..][i - n] == addr[n..][i - n];
      }
    }
  }

  /** An entry allows everything, on its region exactly when the base is a multiple of the size. */
  predicate Opens(e: Entry, r: Region) {
    GrantsAll(e.config) && (Decodes(e.addr, r.base, Pow2(r.order)) <==> r.base % Pow2(r.order) == 0)
  }

  lemma EntryOpens(r: Region)
    requires OrderOk(r.order)
    ensures Opens(EntryFor(r), r)
  {
    GrantsRwx();
    EntryExact(r);
  }

  lemma HeldOpens(addr: seq<nat>, cfg0: bv64, regions: seq<Region>)
    requires |addr| == 16 && |regions| <= 8 && forall i | 0 <= i < |regions| :: Holds(addr, cfg0, i, regions[i])
    ensures forall i | 0 <= i < |regions| :: Opens(EntryAt(addr, cfg0, i), regions[i])
  {
    hide ConfigByte, PmpAddr, Opens;
    forall i | 0 <= i < |regions| ensures Opens(EntryAt(addr, cfg0, i), regions[i]) {
      assert Holds(addr, cfg0, i, regions[i]);
      EntryOpens(regions[i]);
      assert EntryAt(addr, cfg0, i) == EntryFor(regions[i]);
    }
  }

  lemma GrantsRwx()
    ensures GrantsAll(NAPOT_RWX)
  {
  }

  class PmpRegisters {
    var addr: seq<nat>
    var cfg0: bv64

    /** Entries 8 to 15 ask for configuration register 1, which RV64 does not have: the write stops. */
    method WritePmpcfg(index: nat, val: bv64) returns (ok: bool)
      requires index < 16 && val <= 0xff
      modifies this`cfg0
      ensures ok <==> index < 8
      ensures ok ==> forall j | 0 <= j < 8 ::
                ConfigByte(cfg0, Shift(j)) == if j == index then val else ConfigByte(old(cfg0), Shift(j))
      ensures !ok ==> cfg0 == old(cfg0)
    {
      if index / 8 != 0 {
        return false;
      }
      cfg0 := Written(cfg0, val, Shift(index));
      forall j: nat | j < 8
        ensures ConfigByte(cfg0, Shift(j)) == if j == index then val else ConfigByte(old(cfg0), Shift(j))
      {
        OnlyByte(old(cfg0), val, index, j);
      }
      ok := true;
    }

    /** Stops exactly on lists that cannot be programmed; entries past the list keep their contents. */
    method ProgramPmpFromRegions(regions: seq<Region>) returns (ok: bool)
      requires |addr| == 16
      modifies this
      ensures |addr| == 16
      ensures ok <==> Programmable(regions)
      ensures ok ==> forall i | 0 <= i < |regions| :: Holds(addr, cfg0, i, regions[i])
      ensures ok ==> forall i | 0 <= i < |regions| :: Opens(EntryAt(addr, cfg0, i), regions[i])
      ensures ok ==> addr[|regions|..] == old(addr[|regions|..])
      ensures ok ==> forall j | |regions| <= j < 8 :: ConfigByte(cfg0, Shift(j)) == ConfigByte(old(cfg0), Shift(j))
    {
      hide ConfigByte, Opens, BitOr, Pow2, PmpAddr;
      ok := true;
      for i := 0 to |regions|
        invariant i <= 8 && |addr| == 16 && forall r | r in regions[..i] :: OrderOk(r.order)
        invariant forall k | 0 <= k < i :: Holds(addr, cfg0, k, regions[k])
        invariant |old(addr)| == 16 && forall k {:trigger addr[k]} | i <= k < 16 :: addr[k] == old(addr)[k]
        invariant forall j | i <= j < 8 :: ConfigByte(cfg0, Shift(j)) == ConfigByte(old(cfg0), Shift(j))
      {
        var r := regions[i];
        assert r in regions;
        if r.order < 3 || r.order > 33 {
          return false;
        }
        addr := addr[i := PmpAddr(r)];
        ok := WritePmpcfg(i, NAPOT_RWX);
        if !ok {
          return;
        }
        assert regions[..i + 1] == regions[..i] + [r];
      }
      assert regions[..|regions|] == regions;
      HeldOpens(addr, cfg0, regions);
    }
  }
}
