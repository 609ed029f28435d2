/**
 The list of the benchmark: list heads and data items live in one memory block, so a pointer is
 an index into the block and NULL is -1. Operations relink `next` and `info` in place.
 */
module ListArena {

  import opened Bits
  import opened Sets

  const NULL: int := -1

  /** A data word as a 16-bit pattern: upper byte backup, bit 7 cache flag, low bits value. */
  type Word16 = v: int | 0 <= v < 0x1_0000

  // ----- chains

  ghost predicate Distinct(s: seq<nat>) {
    forall i, j | 0 <= i < j < |s| :: s[i] != s[j]
  }

  function Succ(s: seq<nat>, i: nat): int
    requires i < |s|
  {
    if i + 1 < |s| then s[i + 1] else NULL
  }

  function Head(s: seq<nat>): int {
    if s == [] then NULL else s[0]
  }

  /** `s` is the NULL-ended chain that starts at `head`. */
  ghost predicate IsChain(next: seq<int>, head: int, s: seq<nat>) {
    && head == Head(s)
    && Distinct(s)
    && (forall i | 0 <= i < |s| :: s[i] < |next|)
    && (forall i {:trigger next[s[i]]} | 0 <= i < |s| :: next[s[i]] == Succ(s, i))
  }

  function Reverse(s: seq<nat>): seq<nat> {
    if s == [] then [] else Reverse(s[1..]) + [s[0]]
  }

  // ----- data words

  function High(v: Word16): nat {
    v / 256
  }

  function Low(v: Word16): nat {
    v % 256
  }

  /** Low byte restored from the backup in the high byte. */
  function Regen(v: Word16): Word16 {
    High(v) * 256 + High(v)
  }

  predicate Cached(v: Word16) {
    v / 128 % 2 == 1
  }

  function Value(v: Word16): nat {
    v % 128
  }

  /** A backup byte with a cached value below it. */
  lemma CachedWord(high: nat, value: nat)
    requires high < 256 && value < 128
    ensures var v := high * 256 + 128 + value; v < 0x1_0000 && Cached(v) && High(v) == high && Value(v) == value
  {
    var v := high * 256 + 128 + value;
    DivUnique(v, 256, high, 128 + value);
    DivUnique(v, 128, 2 * high + 1, value);
    DivUnique(2 * high + 1, 2, high, 1);
  }

  /** Comparators of the sort: by index (restoring data when `regen`), by computed value, or any fixed order. */
  datatype Cmp = ByIdx(regen: bool) | ByData | Fixed(order: (nat, nat) -> int, key: nat -> int)

  /** The fixed order is the order of its keys; `PreorderHasKey` gives keys to every total preorder. */
  ghost predicate Orderly(cmp: Cmp, n: nat) {
    cmp.Fixed? ==> forall a, b {:trigger cmp.order(a, b)} | 0 <= a < n && 0 <= b < n ::
                     cmp.order(a, b) <= 0 <==> cmp.key(a) <= cmp.key(b)
  }

  ghost predicate TotalPreorder(order: (nat, nat) -> int, n: nat) {
    && (forall a, b {:trigger order(a, b)} | 0 <= a < n && 0 <= b < n :: order(a, b) <= 0 || order(b, a) <= 0)
    && (forall a, b, c {:trigger order(a, b), order(b, c)} | 0 <= a < n && 0 <= b < n && 0 <= c < n ::
          order(a, b) <= 0 && order(b, c) <= 0 ==> order(a, c) <= 0)
  }

  ghost function Beneath(order: (nat, nat) -> int, n: nat, a: nat): set<nat> {
    set x: nat | x < n && order(a, x) > 0
  }

  lemma SmallerSet(s: set<nat>, t: set<nat>)
    requires s < t
    ensures |s| < |t|
  {
    var x :| x in t && x !in s;
    SubsetSize(s, t - {x});
  }

  /** Every total preorder on the data items is the order of some keys. */
  lemma PreorderHasKey(order: (nat, nat) -> int, n: nat)
    requires TotalPreorder(order, n)
    ensures Orderly(Fixed(order, (a: nat) => |Beneath(order, n, a)|), n)
  {
    forall a: nat, b: nat | a < n && b < n
      ensures order(a, b) <= 0 <==> |Beneath(order, n, a)| <= |Beneath(order, n, b)|
    {
      if order(a, b) <= 0 {
        SubsetSize(Beneath(order, n, a), Beneath(order, n, b));
      } else {
        assert order(b, b) <= 0;
        assert b in Beneath(order, n, a) && b !in Beneath(order, n, b);
        SmallerSet(Beneath(order, n, b), Beneath(order, n, a));
      }
    }
  }

  /** What a comparator sorts by, in the current state of the data. */
  function Key(cmp: Cmp, data: seq<Word16>, idx: seq<int>, d: nat): int
    requires d < |data| == |idx|
  {
    match cmp
    case ByIdx(_) => idx[d]
    case ByData => Value(data[d])
    case Fixed(_, key) => key(d)
  }

  /** What comparisons of the data items in `compared` have done to the data words. */
  ghost predicate DataInv(cmp: Cmp, before: seq<Word16>, now: seq<Word16>, compared: set<nat>) {
    && |now| == |before|
    && (forall d {:trigger now[d]} | 0 <= d < |now| ::
          && High(now[d]) == High(before[d])
          && (d !in compared ==> now[d] == before[d])
          && (d in compared ==>
                match cmp
                case ByIdx(regen) => now[d] == if regen then Regen(before[d]) else before[d]
                case ByData => Cached(now[d]) && (Cached(before[d]) ==> now[d] == before[d])
                case Fixed(_, _) => now[d] == before[d]))
  }

  class Arena {
    var next: seq<int>
    var info: seq<nat>
    var data16: seq<Word16>
    const idx: seq<int>
    var crc: nat
    const kernel: (nat, nat, nat) -> nat
    const crcStep: (nat, nat) -> nat

    constructor (next: seq<int>, info: seq<nat>, data16: seq<Word16>, idx: seq<int>, crc: nat,
                 kernel: (nat, nat, nat) -> nat, crcStep: (nat, nat) -> nat)
      requires |info| == |next| && |idx| == |data16| && forall n | 0 <= n < |info| :: info[n] < |data16|
      ensures Valid() && this.next == next && this.info == info && this.data16 == data16 && this.idx == idx
    {
      this.next, this.info, this.data16, this.idx := next, info, data16, idx;
      this.crc, this.kernel, this.crcStep := crc, kernel, crcStep;
    }

    ghost predicate Valid()
      reads this
    {
      && |info| == |next| && |idx| == |data16|
      && (forall n | 0 <= n < |info| :: info[n] < |data16|)
    }

    /** The state, matrix or plain result of an uncached word; the benchmark kernels are parameters. */
    function RawValue(v: Word16, crc: nat): nat {
      var flag, dtype := v % 8, v / 8 % 16 * 17;
      if flag == 0 then kernel(0, if dtype < 0x22 then 0x22 else dtype, crc)
      else if flag == 1 then kernel(1, dtype, crc)
      else v
    }

    /** The nibble in bits 3 to 6 is doubled into a byte, at least 0x22 for the state kernel; bits 0 to 2 choose the kernel. */
    lemma RawValueIs(high: nat, nibble: nat, op: nat, crc: nat)
      requires high < 256 && nibble < 16 && op < 8
      ensures !Cached(256 * high + 8 * nibble + op)
      ensures RawValue(256 * high + 8 * nibble + op, crc)
              == if op == 0 then kernel(0, if nibble < 2 then 0x22 else 16 * nibble + nibble, crc)
                 else if op == 1 then kernel(1, 16 * nibble + nibble, crc)
                 else 256 * high + 8 * nibble + op
    {
      var v := 256 * high + 8 * nibble + op;
      DivUnique(v, 8, 32 * high + nibble, op);
      DivUnique(32 * high + nibble, 16, 2 * high, nibble);
      DivUnique(v, 128, 2 * high, 8 * nibble + op);
      DivUnique(2 * high, 2, high, 0);
    }

    /** Reads the cached value of an item, computing and caching it first when there is none. */
    method CalcFunc(d: nat) returns (r: int)
      requires Valid() && d < |data16|
      modifies this`data16, this`crc
      ensures Valid() && |data16| == |old(data16)| && r == Value(data16[d])
      ensures Cached(old(data16)[d]) ==> data16 == old(data16)
      ensures !Cached(old(data16)[d]) ==>
                data16 == old(data16)[d := High(old(data16)[d]) * 256 + 128 + RawValue(old(data16)[d], old(crc)) % 128]
      ensures Cached(data16[d]) && High(data16[d]) == High(old(data16)[d])
      ensures crc == if Cached(old(data16)[d]) then old(crc) else crcStep(RawValue(old(data16)[d], old(crc)), old(crc))
    {
      var v := data16[d];
      if Cached(v) {
        return Value(v);
      }
      var raw := RawValue(v, crc);
      CachedWord(High(v), raw % 128);
      hide RawValue, Cached, High, Value;
      crc := crcStep(raw, crc);
      r := raw % 128;
      data16 := data16[d := High(v) * 256 + 128 + r];
    }

    /** One comparator call; the sign of the result follows the keys after the call. */
    method Compare(cmp: Cmp, a: nat, b: nat, ghost before: seq<Word16>, ghost compared: set<nat>) returns (c: int)
      requires Valid() && a < |data16| && b < |data16| && DataInv(cmp, before, data16, compared)
      modifies this`data16, this`crc
      ensures Valid() && DataInv(cmp, before, data16, compared + {a, b})
      ensures |data16| == |old(data16)|
      ensures Orderly(cmp, |data16|) ==> (c <= 0 <==> Key(cmp, data16, idx, a) <= Key(cmp, data16, idx, b))
      ensures forall d | d in compared && d < |data16| :: Key(cmp, data16, idx, d) == Key(cmp, old(data16), idx, d)
    {
      hide RawValue;
      match cmp {
        case ByIdx(regen) =>
          if regen {
            data16 := data16[a := Regen(data16[a])];
            data16 := data16[b := Regen(data16[b])];
          }
          c := idx[a] - idx[b];
        case ByData =>
          var v1 := CalcFunc(a);
          var v2 := CalcFunc(b);
          c := v1 - v2;
        case Fixed(order, key) =>
          c := order(a, b);
      }
    }
  }
}
