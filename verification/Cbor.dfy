/**
 The guest's CBOR reader: item heads and the recursive skipper, against encodings of CBOR items
 (section 3 of RFC 8949, definite lengths, major types 0 to 6).
 */
module Cbor {

  import opened Memory

  // ----- heads

  /** Where the argument of a head is kept: in the first byte or in 1, 2, 4 or 8 bytes after it. */
  datatype Width = Short | One | Two | Four | Eight

  function Extra(w: Width): nat {
    match w
    case Short => 0
    case One => 1
    case Two => 2
    case Four => 4
    case Eight => 8
  }

  predicate Fits(w: Width, val: nat) {
    if w.Short? then val < 24 else val < Pow256(Extra(w))
  }

  function BigEndian(v: nat, n: nat): (s: seq<Byte>)
    ensures |s| == n
  {
    if n == 0 then [] else BigEndian(v / 256, n - 1) + [v % 256]
  }

  function FromBigEndian(s: seq<Byte>): nat {
    if s == [] then 0 else FromBigEndian(s[..|s| - 1]) * 256 + s[|s| - 1]
  }

  /** Low five bits of the first byte of a head. */
  function InfoBits(w: Width, val: nat): nat
    requires Fits(w, val)
  {
    match w
    case Short => val
    case One => 24
    case Two => 25
    case Four => 26
    case Eight => 27
  }

  function HeadBytes(mt: nat, w: Width, val: nat): seq<Byte>
    requires mt < 8 && Fits(w, val)
  {
    [mt * 32 + InfoBits(w, val)] + BigEndian(val, Extra(w))
  }

  datatype Head = NoHead | Head(mt: nat, w: Width, val: nat, end: nat)

  /** Width announced by the low five bits; 28 to 31 are not handled. */
  datatype MaybeWidth = NoWidth | OfWidth(w: Width)

  function WidthOf(info: nat): MaybeWidth {
    if info < 24 then OfWidth(Short)
    else if info == 24 then OfWidth(One)
    else if info == 25 then OfWidth(Two)
    else if info == 26 then OfWidth(Four)
    else if info == 27 then OfWidth(Eight)
    else NoWidth
  }

  function HeadAt(buf: seq<Byte>, pos: nat): (h: Head)
    ensures h.Head? ==> pos < h.end <= |buf| && h.mt < 8
  {
    if pos >= |buf| then NoHead
    else
      var mt, info := buf[pos] / 32, buf[pos] % 32;
      match WidthOf(info)
      case NoWidth => NoHead
      case OfWidth(w) =>
        if pos + 1 + Extra(w) > |buf| then NoHead
        else Head(mt, w, if w.Short? then info else FromBigEndian(buf[pos + 1..pos + 1 + Extra(w)]), pos + 1 + Extra(w))
  }

  lemma {:induction false} BigEndianRoundTrip(v: nat, n: nat)
    requires v < Pow256(n)
    ensures FromBigEndian(BigEndian(v, n)) == v
    decreases n
  {
    if n != 0 {
      var q, r, p := v / 256, v % 256, Pow256(n - 1);
      assert BigEndian(v, n) == BigEndian(q, n - 1) + [r];
      assert v < 256 * p;
      hide FromBigEndian, BigEndian, Pow256;
      FewerDigits(v, p);
      BigEndianRoundTrip(q, n - 1);
      LastDigit(BigEndian(q, n - 1), r);
    }
  }

  lemma FewerDigits(v: nat, p: nat)
    requires v < 256 * p
    ensures v / 256 < p && v / 256 * 256 + v % 256 == v
  {
  }

  lemma LastDigit(s: seq<Byte>, b: Byte)
    ensures FromBigEndian(s + [b]) == FromBigEndian(s) * 256 + b
  {
    assert (s + [b])[..|s|] == s;
  }

  lemma {:induction false} FromBigEndianRoundTrip(s: seq<Byte>)
    ensures FromBigEndian(s) < Pow256(|s|) && BigEndian(FromBigEndian(s), |s|) == s
  {
    if s != [] {
      FromBigEndianRoundTrip(s[..|s| - 1]);
      assert s == s[..|s| - 1] + [s[|s| - 1]];
    }
  }

  lemma EncodedHeadIsRead(buf: seq<Byte>, pos: nat, mt: nat, w: Width, val: nat)
    requires mt < 8 && Fits(w, val)
    requires pos + 1 + Extra(w) <= |buf| && buf[pos..pos + 1 + Extra(w)] == HeadBytes(mt, w, val)
    ensures HeadAt(buf, pos) == Head(mt, w, val, pos + 1 + Extra(w))
  {
    hide BigEndian, FromBigEndian, Pow256;
    var end := pos + 1 + Extra(w);
    assert buf[pos] == buf[pos..end][0] == mt * 32 + InfoBits(w, val);
    assert buf[pos + 1..end] == buf[pos..end][1..] == BigEndian(val, Extra(w));
    FirstByte(mt, InfoBits(w, val));
    if !w.Short? {
      BigEndianRoundTrip(val, Extra(w));
    }
  }

  lemma ReadHeadIsEncoded(buf: seq<Byte>, pos: nat, mt: nat, w: Width, val: nat)
    requires mt < 8 && Fits(w, val) && HeadAt(buf, pos) == Head(mt, w, val, pos + 1 + Extra(w))
    ensures pos + 1 + Extra(w) <= |buf| && buf[pos..pos + 1 + Extra(w)] == HeadBytes(mt, w, val)
  {
    var end := pos + 1 + Extra(w);
    hide BigEndian, FromBigEndian, Pow256, Fits;
    FromBigEndianRoundTrip(buf[pos + 1..end]);
    FirstAndRest(buf, pos, end);
    assert buf[pos] == mt * 32 + InfoBits(w, val);
    if w.Short? {
      NoDigits(val);
    }
    assert buf[pos + 1..end] == BigEndian(val, Extra(w));
  }

  lemma FirstAndRest(buf: seq<Byte>, pos: nat, end: nat)
    requires pos < end <= |buf|
    ensures buf[pos..end] == [buf[pos]] + buf[pos + 1..end]
  {
  }

  lemma NoDigits(val: nat)
    ensures BigEndian(val, 0) == []
  {
  }

  /** A head is read exactly where its encoding stands. */
  lemma HeadExact(buf: seq<Byte>, pos: nat, mt: nat, w: Width, val: nat)
    requires mt < 8 && Fits(w, val)
    ensures HeadAt(buf, pos) == Head(mt, w, val, pos + 1 + Extra(w))
            <==> pos + 1 + Extra(w) <= |buf| && buf[pos..pos + 1 + Extra(w)] == HeadBytes(mt, w, val)
  {
    hide HeadAt, HeadBytes, Fits;
    if HeadAt(buf, pos) == Head(mt, w, val, pos + 1 + Extra(w)) {
      ReadHeadIsEncoded(buf, pos, mt, w, val);
    } else if pos + 1 + Extra(w) <= |buf| && buf[pos..pos + 1 + Extra(w)] == HeadBytes(mt, w, val) {
      EncodedHeadIsRead(buf, pos, mt, w, val);
    }
  }

  lemma FirstByte(mt: nat, info: nat)
    requires mt < 8 && info < 32
    ensures (mt * 32 + info) / 32 == mt && (mt * 32 + info) % 32 == info
  {
  }

  lemma HeadFits(buf: seq<Byte>, pos: nat)
    requires HeadAt(buf, pos).Head?
    ensures var h := HeadAt(buf, pos); Fits(h.w, h.val) && h.end == pos + 1 + Extra(h.w) && h.val < SPACE
  {
    var h := HeadAt(buf, pos);
    if !h.w.Short? {
      FromBigEndianRoundTrip(buf[pos + 1..h.end]);
    }
    PowersOf256();
  }

  lemma PowersOf256()
    ensures Pow256(1) == 256 && Pow256(2) == 0x1_0000 && Pow256(4) == 0x1_0000_0000 && Pow256(8) == SPACE
  {
    assert Pow256(3) == 0x100_0000;
    assert Pow256(4) == 0x1_0000_0000;
    assert Pow256(6) == 0x1_0000_0000_0000;
  }

  // ----- items

  /** A CBOR item, with the width chosen for its head. Map entries are listed key, value, key, value. */
  datatype Item =
    | Number(negative: bool, w: Width, val: nat)
    | Str(text: bool, w: Width, bytes: seq<Byte>)
    | Arr(w: Width, items: seq<Item>)
    | Map(w: Width, entries: seq<Item>)
    | Tag(w: Width, tag: nat, content: Item)

  predicate WellFormed(t: Item) {
    match t
    case Number(_, w, val) => Fits(w, val)
    case Str(_, w, bytes) => Fits(w, |bytes|)
    case Arr(w, items) => Fits(w, |items|) && forall x | x in items :: WellFormed(x)
    case Map(w, entries) => |entries| % 2 == 0 && Fits(w, |entries| / 2) && forall x | x in entries :: WellFormed(x)
    case Tag(w, tag, content) => Fits(w, tag) && WellFormed(content)
  }

  function Encode(t: Item): (s: seq<Byte>)
    requires WellFormed(t)
    ensures |s| >= 1
    decreases t, 0
  {
    match t
    case Number(negative, w, val) => HeadBytes(if negative then 1 else 0, w, val)
    case Str(text, w, bytes) => HeadBytes(if text then 3 else 2, w, |bytes|) + bytes
    case Arr(w, items) => HeadBytes(4, w, |items|) + EncodeAll(items)
    case Map(w, entries) => HeadBytes(5, w, |entries| / 2) + EncodeAll(entries)
    case Tag(w, tag, content) => HeadBytes(6, w, tag) + Encode(content)
  }

  function EncodeAll(items: seq<Item>): (s: seq<Byte>)
    requires forall x | x in items :: WellFormed(x)
    ensures |s| >= |items|
    decreases items, 1
  {
    if items == [] then [] else Encode(items[0]) + EncodeAll(items[1..])
  }

  // ----- skipping

  /** A buffer of `n` bytes at address `base`, away from the last bytes of the address space. */
  predicate Placed(base: nat, n: nat) {
    base + n + 8 < SPACE
  }

  /**
   Outcome of a skip: a failure; a string head at `at` whose length carries the cursor past the end
   of the address space and back to address `to`; or the end of the item, and whether some map
   count on the way doubled past 64 bits.
   */
  datatype Skip = Bad | Back(at: nat, to: nat) | Skipped(end: nat, wrapped: bool)

  /** The cursor after a string of `val` bytes: pointer and length are added modulo 2^64. */
  function Advanced(base: nat, end: nat, val: nat): nat {
    (base + end + val) % 0x1_0000_0000_0000_0000
  }

  function SkipString(base: nat, buf: seq<Byte>, pos: nat, h: Head): (r: Skip)
    requires h.Head? && pos < h.end <= |buf|
    ensures r.Skipped? ==> pos < r.end <= |buf|
  {
    if Advanced(base, h.end, h.val) > base + |buf| then Bad
    else if base + h.end + h.val >= SPACE then Back(pos, Advanced(base, h.end, h.val))
    else Skipped(h.end + h.val, false)
  }

  function SkipItem(base: nat, buf: seq<Byte>, pos: nat): (r: Skip)
    ensures r.Skipped? ==> pos < r.end <= |buf|
    decreases |buf| - pos, 0
  {
    var h := HeadAt(buf, pos);
    if h.NoHead? then Bad
    else if h.mt <= 1 then Skipped(h.end, false)
    else if h.mt <= 3 then SkipString(base, buf, pos, h)
    else if h.mt == 4 then SkipMany(base, buf, h.end, h.val)
    else if h.mt == 5 then
      var r := SkipMany(base, buf, h.end, 2 * h.val % SPACE);
      if !r.Skipped? then r else Skipped(r.end, r.wrapped || 2 * h.val >= SPACE)
    else if h.mt == 6 then SkipItem(base, buf, h.end)
    else Bad
  }

  function SkipMany(base: nat, buf: seq<Byte>, pos: nat, count: nat): (r: Skip)
    requires pos <= |buf|
    ensures r.Skipped? ==> pos <= r.end <= |buf|
    decreases |buf| - pos, 1
  {
    if count == 0 then Skipped(pos, false)
    else
      var r := SkipItem(base, buf, pos);
      if !r.Skipped? then r
      else
        var rest := SkipMany(base, buf, r.end, count - 1);
        if !rest.Skipped? then rest else Skipped(rest.end, r.wrapped || rest.wrapped)
  }

  /** A string is skipped to its end exactly when it fits the buffer. */
  lemma StringFits(base: nat, buf: seq<Byte>, pos: nat, h: Head)
    requires h.Head? && pos < h.end <= |buf|
    ensures SkipString(base, buf, pos, h).Skipped? ==>
              SkipString(base, buf, pos, h) == Skipped(h.end + h.val, false) && h.end + h.val <= |buf|
    ensures Placed(base, |buf|) && h.end + h.val <= |buf| ==> SkipString(base, buf, pos, h).Skipped?
  {
  }

  /** The encoding of `t` stands at `pos`. */
  ghost predicate Stands(buf: seq<Byte>, pos: nat, t: Item, end: nat) {
    WellFormed(t) && pos <= end <= |buf| && buf[pos..end] == Encode(t)
  }

  ghost predicate StandAll(buf: seq<Byte>, pos: nat, items: seq<Item>, end: nat) {
    (forall x | x in items :: WellFormed(x)) && pos <= end <= |buf| && buf[pos..end] == EncodeAll(items)
  }

  /** An encoding that starts with a head: the head is read, and the rest stands behind it. */
  lemma HeadThenRest(buf: seq<Byte>, pos: nat, end: nat, mt: nat, w: Width, val: nat, rest: seq<Byte>)
    requires mt < 8 && Fits(w, val) && pos <= end <= |buf|
    ensures buf[pos..end] == HeadBytes(mt, w, val) + rest
            <==> HeadAt(buf, pos) == Head(mt, w, val, pos + 1 + Extra(w)) && pos + 1 + Extra(w) <= end
                 && buf[pos + 1 + Extra(w)..end] == rest
  {
    var mid, hb := pos + 1 + Extra(w), HeadBytes(mt, w, val);
    HeadExact(buf, pos, mt, w, val);
    assert |hb| == mid - pos;
    hide HeadBytes, HeadAt, Fits, Extra;
    if mid <= end {
      assert buf[pos..end] == buf[pos..mid] + buf[mid..end];
      if buf[pos..end] == hb + rest {
        assert buf[pos..mid] == (hb + rest)[..|hb|] && buf[mid..end] == (hb + rest)[|hb|..];
      }
    } else {
      assert |hb + rest| > end - pos;
    }
  }

  lemma NumberStands(buf: seq<Byte>, pos: nat)
    requires HeadAt(buf, pos).Head? && HeadAt(buf, pos).mt <= 1
    ensures var h := HeadAt(buf, pos); Stands(buf, pos, Number(h.mt == 1, h.w, h.val), h.end)
  {
    hide HeadAt, HeadBytes, Fits, FromBigEndian, BigEndian, Pow256, WidthOf;
    var h := HeadAt(buf, pos);
    HeadFits(buf, pos);
    HeadThenRest(buf, pos, h.end, h.mt, h.w, h.val, []);
    assert HeadBytes(h.mt, h.w, h.val) + [] == HeadBytes(h.mt, h.w, h.val);
  }

  lemma StringStands(buf: seq<Byte>, pos: nat, end: nat)
    requires HeadAt(buf, pos).Head? && 2 <= HeadAt(buf, pos).mt <= 3
    requires end == HeadAt(buf, pos).end + HeadAt(buf, pos).val <= |buf|
    ensures var h := HeadAt(buf, pos); Stands(buf, pos, Str(h.mt == 3, h.w, buf[h.end..end]), end)
  {
    hide HeadAt, HeadBytes, Fits, FromBigEndian, BigEndian, Pow256, WidthOf;
    var h := HeadAt(buf, pos);
    HeadFits(buf, pos);
    HeadThenRest(buf, pos, end, h.mt, h.w, h.val, buf[h.end..end]);
  }

  lemma ArrayStands(buf: seq<Byte>, pos: nat, items: seq<Item>, end: nat)
    requires HeadAt(buf, pos).Head? && HeadAt(buf, pos).mt == 4 && |items| == HeadAt(buf, pos).val
    requires StandAll(buf, HeadAt(buf, pos).end, items, end)
    ensures Stands(buf, pos, Arr(HeadAt(buf, pos).w, items), end)
  {
    hide HeadAt, HeadBytes, Fits, EncodeAll, FromBigEndian, BigEndian, Pow256, WidthOf;
    var h := HeadAt(buf, pos);
    HeadFits(buf, pos);
    HeadThenRest(buf, pos, end, 4, h.w, h.val, EncodeAll(items));
  }

  lemma MapStands(buf: seq<Byte>, pos: nat, entries: seq<Item>, end: nat)
    requires HeadAt(buf, pos).Head? && HeadAt(buf, pos).mt == 5 && |entries| == 2 * HeadAt(buf, pos).val
    requires StandAll(buf, HeadAt(buf, pos).end, entries, end)
    ensures Stands(buf, pos, Map(HeadAt(buf, pos).w, entries), end)
  {
    hide HeadAt, HeadBytes, Fits, EncodeAll, FromBigEndian, BigEndian, Pow256, WidthOf;
    var h := HeadAt(buf, pos);
    HeadFits(buf, pos);
    HeadThenRest(buf, pos, end, 5, h.w, h.val, EncodeAll(entries));
  }

  lemma TagStands(buf: seq<Byte>, pos: nat, content: Item, end: nat)
    requires HeadAt(buf, pos).Head? && HeadAt(buf, pos).mt == 6
    requires Stands(buf, HeadAt(buf, pos).end, content, end)
    ensures var h := HeadAt(buf, pos); Stands(buf, pos, Tag(h.w, h.val, content), end)
  {
    hide HeadAt, HeadBytes, Fits, EncodeAll, FromBigEndian, BigEndian, Pow256, WidthOf;
    var h := HeadAt(buf, pos);
    HeadFits(buf, pos);
    HeadThenRest(buf, pos, end, 6, h.w, h.val, Encode(content));
  }

  /** Sound: without a wrapped map count, what is skipped is the encoding of an item. */
  lemma {:induction false} SkipIsSound(base: nat, buf: seq<Byte>, pos: nat) returns (t: Item)
    requires SkipItem(base, buf, pos).Skipped? && !SkipItem(base, buf, pos).wrapped
    ensures Stands(buf, pos, t, SkipItem(base, buf, pos).end)
    decreases |buf| - pos, 0
  {
    hide HeadAt, Stands, StandAll, SkipString;
    var h, end := HeadAt(buf, pos), SkipItem(base, buf, pos).end;
    if h.mt <= 1 {
      t := Number(h.mt == 1, h.w, h.val);
      NumberStands(buf, pos);
    } else if h.mt <= 3 {
      StringFits(base, buf, pos, h);
      t := Str(h.mt == 3, h.w, buf[h.end..end]);
      StringStands(buf, pos, end);
    } else if h.mt == 4 {
      var items := SkipManyIsSound(base, buf, h.end, h.val);
      t := Arr(h.w, items);
      ArrayStands(buf, pos, items, end);
    } else if h.mt == 5 {
      assert 2 * h.val < SPACE;
      var items := SkipManyIsSound(base, buf, h.end, 2 * h.val);
      t := Map(h.w, items);
      MapStands(buf, pos, items, end);
    } else {
      var content := SkipIsSound(base, buf, h.end);
      t := Tag(h.w, h.val, content);
      TagStands(buf, pos, content, end);
    }
  }

  lemma {:induction false} SkipManyIsSound(base: nat, buf: seq<Byte>, pos: nat, count: nat) returns (items: seq<Item>)
    requires pos <= |buf| && SkipMany(base, buf, pos, count).Skipped? && !SkipMany(base, buf, pos, count).wrapped
    ensures |items| == count && StandAll(buf, pos, items, SkipMany(base, buf, pos, count).end)
    decreases |buf| - pos, 1
  {
    items := [];
    if count > 0 {
      var mid, end := SkipItem(base, buf, pos).end, SkipMany(base, buf, pos, count).end;
      var first := SkipIsSound(base, buf, pos);
      var rest := SkipManyIsSound(base, buf, mid, count - 1);
      items := [first] + rest;
      assert items[1..] == rest;
      assert buf[pos..end] == buf[pos..mid] + buf[mid..end];
    }
  }

  lemma LeafHead(buf: seq<Byte>, pos: nat, t: Item, end: nat)
    requires Stands(buf, pos, t, end) && (t.Number? || t.Str?)
    ensures var h := HeadAt(buf, pos);
            && h.Head?
            && (t.Number? ==> h.mt <= 1 && h.end == end)
            && (t.Str? ==> 2 <= h.mt <= 3 && h.end + h.val == end)
  {
    hide HeadAt, HeadBytes, Fits, FromBigEndian, BigEndian, Pow256, WidthOf;
    match t {
      case Number(negative, w, val) =>
        var mt := if negative then 1 else 0;
        assert HeadBytes(mt, w, val) + [] == HeadBytes(mt, w, val);
        HeadThenRest(buf, pos, end, mt, w, val, []);
      case Str(text, w, bytes) =>
        HeadThenRest(buf, pos, end, if text then 3 else 2, w, |bytes|, bytes);
    }
  }

  lemma ArrayHead(buf: seq<Byte>, pos: nat, w: Width, items: seq<Item>, end: nat)
    requires Stands(buf, pos, Arr(w, items), end)
    ensures var h := HeadAt(buf, pos); h.Head? && h.mt == 4 && h.val == |items| && StandAll(buf, h.end, items, end)
  {
    hide HeadAt, HeadBytes, Fits, EncodeAll, FromBigEndian, BigEndian, Pow256, WidthOf;
    HeadThenRest(buf, pos, end, 4, w, |items|, EncodeAll(items));
  }

  lemma MapHead(buf: seq<Byte>, pos: nat, w: Width, entries: seq<Item>, end: nat)
    requires Stands(buf, pos, Map(w, entries), end)
    ensures var h := HeadAt(buf, pos);
            h.Head? && h.mt == 5 && 2 * h.val == |entries| <= |buf| && StandAll(buf, h.end, entries, end)
  {
    assert |entries| <= |EncodeAll(entries)|;
    hide HeadAt, HeadBytes, Fits, EncodeAll, FromBigEndian, BigEndian, Pow256, WidthOf;
    HeadThenRest(buf, pos, end, 5, w, |entries| / 2, EncodeAll(entries));
    assert 2 * (|entries| / 2) == |entries|;
  }

  lemma TagHead(buf: seq<Byte>, pos: nat, w: Width, tag: nat, content: Item, end: nat)
    requires Stands(buf, pos, Tag(w, tag, content), end)
    ensures var h := HeadAt(buf, pos); h.Head? && h.mt == 6 && Stands(buf, h.end, content, end)
  {
    hide HeadAt, HeadBytes, Fits, EncodeAll, FromBigEndian, BigEndian, Pow256, WidthOf;
    HeadThenRest(buf, pos, end, 6, w, tag, Encode(content));
  }

  /** The skip by the kind of head, where no map count wraps. */
  lemma SkipAt(base: nat, buf: seq<Byte>, pos: nat)
    requires HeadAt(buf, pos).Head?
    ensures var h, r := HeadAt(buf, pos), SkipItem(base, buf, pos);
            && (h.mt <= 1 ==> r == Skipped(h.end, false))
            && (2 <= h.mt <= 3 ==> r == SkipString(base, buf, pos, h))
            && (h.mt == 4 ==> r == SkipMany(base, buf, h.end, h.val))
            && (h.mt == 5 && 2 * h.val < SPACE ==> r == SkipMany(base, buf, h.end, 2 * h.val))
            && (h.mt == 6 ==> r == SkipItem(base, buf, h.end))
  {
    hide HeadAt, SkipMany, SkipString;
  }

  /** Complete: the encoding of any item is skipped, exactly. */
  lemma {:induction false} SkipIsComplete(base: nat, buf: seq<Byte>, pos: nat, t: Item, end: nat)
    requires Placed(base, |buf|) && Stands(buf, pos, t, end)
    ensures SkipItem(base, buf, pos) == Skipped(end, false)
    decreases t, 0
  {
    assert end <= |buf|;
    hide HeadAt, Stands, StandAll, SkipString, SkipMany, SkipItem;
    var h := HeadAt(buf, pos);
    if h.Head? {
      SkipAt(base, buf, pos);
    }
    match t {
      case Number(negative, w, val) =>
        LeafHead(buf, pos, t, end);
      case Str(text, w, bytes) =>
        LeafHead(buf, pos, t, end);
        StringFits(base, buf, pos, h);
      case Arr(w, items) =>
        ArrayHead(buf, pos, w, items, end);
        SkipManyIsComplete(base, buf, h.end, items, end);
      case Map(w, entries) =>
        MapHead(buf, pos, w, entries, end);
        SkipManyIsComplete(base, buf, h.end, entries, end);
      case Tag(w, tag, content) =>
        TagHead(buf, pos, w, tag, content, end);
        SkipIsComplete(base, buf, h.end, content, end);
    }
  }

  lemma {:induction false} SkipManyIsComplete(base: nat, buf: seq<Byte>, pos: nat, items: seq<Item>, end: nat)
    requires Placed(base, |buf|) && StandAll(buf, pos, items, end)
    ensures SkipMany(base, buf, pos, |items|) == Skipped(end, false)
    decreases items, 1
  {
    if items != [] {
      var first, rest := Encode(items[0]), EncodeAll(items[1..]);
      var mid := pos + |first|;
      assert buf[pos..end] == first + rest;
      assert buf[pos..mid] == (first + rest)[..|first|] && buf[mid..end] == (first + rest)[|first|..];
      SkipIsComplete(base, buf, pos, items[0], mid);
      SkipManyIsComplete(base, buf, mid, items[1..], end);
    }
  }

  /** Some item is encoded from `pos` to `end`. */
  ghost predicate ItemAt(buf: seq<Byte>, pos: nat, end: nat) {
    exists t :: Stands(buf, pos, t, end)
  }

  /** Exact: the skip ends at `end` without wrapping precisely when an item is encoded there. */
  lemma SkipExact(base: nat, buf: seq<Byte>, pos: nat, end: nat)
    requires Placed(base, |buf|)
    ensures SkipItem(base, buf, pos) == Skipped(end, false) <==> ItemAt(buf, pos, end)
  {
    if SkipItem(base, buf, pos) == Skipped(end, false) {
      var t := SkipIsSound(base, buf, pos);
    }
    if ItemAt(buf, pos, end) {
      var t :| Stands(buf, pos, t, end);
      SkipIsComplete(base, buf, pos, t, end);
    }
  }

  /** A 64-bit map head that announces 2^63 entries or more. */
  predicate HugeMapHead(buf: seq<Byte>, i: nat) {
    i + 1 < |buf| && buf[i] == 0xbb && buf[i + 1] >= 0x80
  }

  lemma Digit(v: nat, b: Byte, d: nat, p: nat)
    requires d * p <= v < (d + 1) * p
    ensures d * (256 * p) <= v * 256 + b < (d + 1) * (256 * p)
  {
    var low, high := d * p, (d + 1) * p;
    assert d * (256 * p) == 256 * low;
    assert (d + 1) * (256 * p) == 256 * high;
  }

  lemma {:induction false} TopByte(s: seq<Byte>)
    requires s != []
    ensures s[0] * Pow256(|s| - 1) <= FromBigEndian(s) < (s[0] + 1) * Pow256(|s| - 1)
  {
    if |s| > 1 {
      var n := |s| - 1;
      TopByte(s[..n]);
      Digit(FromBigEndian(s[..n]), s[n], s[0], Pow256(n - 1));
    } else {
      assert s[..0] == [];
    }
  }

  /** The doubled count of a map head exceeds 64 bits exactly for a head that looks like this. */
  lemma HugeMapExact(buf: seq<Byte>, pos: nat)
    requires HeadAt(buf, pos).Head? && HeadAt(buf, pos).mt == 5
    ensures 2 * HeadAt(buf, pos).val >= SPACE <==> HugeMapHead(buf, pos)
  {
    var h := HeadAt(buf, pos);
    HeadFits(buf, pos);
    PowersOf256();
    if h.w.Eight? {
      TopByte(buf[pos + 1..h.end]);
      assert buf[pos] == 5 * 32 + 27;
      assert Pow256(7) == 0x100_0000_0000_0000;
    }
  }

  /** A string head whose length carries the cursor past the end of the address space. */
  predicate WrapsString(base: nat, buf: seq<Byte>, i: nat) {
    var h := HeadAt(buf, i);
    h.Head? && (h.mt == 2 || h.mt == 3) && base + h.end + h.val >= SPACE
  }

  /** Exact: such a head passes the bounds test and moves the cursor back; no other string does. */
  lemma StringBackExact(base: nat, buf: seq<Byte>, pos: nat)
    requires Placed(base, |buf|) && HeadAt(buf, pos).Head? && (HeadAt(buf, pos).mt == 2 || HeadAt(buf, pos).mt == 3)
    ensures SkipItem(base, buf, pos).Back? <==> WrapsString(base, buf, pos)
    ensures SkipItem(base, buf, pos).Back? ==> SkipItem(base, buf, pos).to < base + HeadAt(buf, pos).end
  {
    hide HeadAt;
    HeadFits(buf, pos);
  }

  /** Away from the last four gigabytes these are the byte `5b` or `7b` and a length that large. */
  lemma WrapsStringBytes(base: nat, buf: seq<Byte>, i: nat)
    requires base + |buf| + 0x1_0000_0000 <= SPACE
    ensures WrapsString(base, buf, i)
            <==> i + 9 <= |buf| && (buf[i] == 0x5b || buf[i] == 0x7b)
                 && FromBigEndian(buf[i + 1..i + 9]) >= SPACE - (base + i + 9)
  {
    if HeadAt(buf, i).Head? {
      HeadFits(buf, i);
    }
    PowersOf256();
  }

  /** No map count doubles past 64 bits and no string length wraps the cursor, wherever reading starts. */
  ghost predicate Tame(base: nat, buf: seq<Byte>) {
    && (forall i | 0 <= i < |buf| :: !HugeMapHead(buf, i))
    && (forall i | 0 <= i < |buf| :: !WrapsString(base, buf, i))
  }

  /** From `pos` on, `count` items are encoded one behind the other. */
  ghost predicate ItemsFrom(buf: seq<Byte>, pos: nat, count: nat) {
    exists items, end :: |items| == count && StandAll(buf, pos, items, end)
  }

  /** A huge map head with as many items encoded behind it as the doubled count keeps of 64 bits. */
  ghost predicate FilledHugeMap(buf: seq<Byte>, i: nat) {
    var h := HeadAt(buf, i);
    HugeMapHead(buf, i) && h.Head? && ItemsFrom(buf, h.end, 2 * h.val % SPACE)
  }

  /** The same, but a huge map is harmless where too few items are encoded behind it. */
  ghost predicate Guarded(base: nat, buf: seq<Byte>) {
    && (forall i | 0 <= i < |buf| :: !WrapsString(base, buf, i))
    && (forall i | 0 <= i < |buf| :: !FilledHugeMap(buf, i))
  }

  /** Only such heads make a skip wrap. */
  lemma {:induction false} NoWrap(base: nat, buf: seq<Byte>, pos: nat)
    requires Placed(base, |buf|) && Guarded(base, buf)
    ensures var r := SkipItem(base, buf, pos); !r.Back? && (r.Skipped? ==> !r.wrapped)
    decreases |buf| - pos, 0
  {
    var h := HeadAt(buf, pos);
    hide HeadAt;
    if h.Head? && 2 <= h.mt <= 6 {
      if h.mt <= 3 {
        StringBackExact(base, buf, pos);
      } else if h.mt == 4 {
        NoWrapMany(base, buf, h.end, h.val);
      } else if h.mt == 5 {
        NoWrapMany(base, buf, h.end, 2 * h.val % SPACE);
        HugeMapExact(buf, pos);
        var inside := SkipMany(base, buf, h.end, 2 * h.val % SPACE);
        if inside.Skipped? {
          var items := SkipManyIsSound(base, buf, h.end, 2 * h.val % SPACE);
          assert ItemsFrom(buf, h.end, 2 * h.val % SPACE);
          assert !FilledHugeMap(buf, pos);
        }
      } else {
        NoWrap(base, buf, h.end);
      }
    }
  }

  lemma {:induction false} NoWrapMany(base: nat, buf: seq<Byte>, pos: nat, count: nat)
    requires pos <= |buf| && Placed(base, |buf|) && Guarded(base, buf)
    ensures var r := SkipMany(base, buf, pos, count); !r.Back? && (r.Skipped? ==> !r.wrapped)
    decreases |buf| - pos, 1
  {
    if count > 0 {
      NoWrap(base, buf, pos);
      var r := SkipItem(base, buf, pos);
      if r.Skipped? {
        NoWrapMany(base, buf, r.end, count - 1);
      }
    }
  }

  /** On bytes without such heads, the skipper accepts exactly the positions where an item is encoded. */
  lemma SkipAccepts(base: nat, buf: seq<Byte>, pos: nat)
    requires Placed(base, |buf|) && Guarded(base, buf)
    ensures SkipItem(base, buf, pos).Skipped? <==> exists end :: ItemAt(buf, pos, end)
    ensures SkipItem(base, buf, pos).Bad? <==> forall end :: !ItemAt(buf, pos, end)
    ensures forall end | ItemAt(buf, pos, end) :: SkipItem(base, buf, pos) == Skipped(end, false)
  {
    hide Guarded, ItemAt, SkipItem;
    NoWrap(base, buf, pos);
    var r := SkipItem(base, buf, pos);
    if r.Skipped? {
      SkipExact(base, buf, pos, r.end);
    }
    forall end | ItemAt(buf, pos, end)
      ensures r == Skipped(end, false)
    {
      SkipExact(base, buf, pos, end);
    }
  }

  // ----- the run of the skipper, which need not end

  /**
   The skipper in the middle of its work: the cursor, and for each array, map or tag it is inside
   of how many items are still to come. `Strayed` is a cursor in front of the buffer.
   */
  datatype Machine = Failed | Strayed | Done(cur: nat) | Running(cur: nat, todo: seq<nat>)

  /** The innermost count, one lower. */
  function OneLess(todo: seq<nat>): seq<nat>
    requires todo != [] && todo[|todo| - 1] > 0
  {
    todo[|todo| - 1 := todo[|todo| - 1] - 1]
  }

  function ReadItem(base: nat, buf: seq<Byte>, cur: nat, todo: seq<nat>): Machine
    requires base <= cur && todo != [] && todo[|todo| - 1] > 0
  {
    var h, rest := HeadAt(buf, cur - base), OneLess(todo);
    if h.NoHead? then Failed
    else if h.mt <= 1 then Running(base + h.end, rest)
    else if h.mt <= 3 then
      if Advanced(base, h.end, h.val) > base + |buf| then Failed else Running(Advanced(base, h.end, h.val), rest)
    else if h.mt == 4 then Running(base + h.end, rest + [h.val])
    else if h.mt == 5 then Running(base + h.end, rest + [2 * h.val % SPACE])
    else if h.mt == 6 then Running(base + h.end, rest + [1])
    else Failed
  }

  function Step(base: nat, buf: seq<Byte>, m: Machine): Machine {
    if !m.Running? then m
    else if m.todo == [] then Done(m.cur)
    else if m.todo[|m.todo| - 1] == 0 then Running(m.cur, m.todo[..|m.todo| - 1])
    else if m.cur < base then Strayed
    else ReadItem(base, buf, m.cur, m.todo)
  }

  function Steps(base: nat, buf: seq<Byte>, m: Machine, n: nat): Machine
    decreases n
  {
    if n == 0 then m else Steps(base, buf, Step(base, buf, m), n - 1)
  }

  function Start(base: nat, pos: nat): Machine {
    Running(base + pos, [1])
  }

  lemma {:induction false} StepsAdd(base: nat, buf: seq<Byte>, m: Machine, i: nat, j: nat)
    ensures Steps(base, buf, m, i + j) == Steps(base, buf, Steps(base, buf, m, i), j)
    decreases i
  {
    if i > 0 {
      StepsAdd(base, buf, Step(base, buf, m), i - 1, j);
    }
  }

  /** The same outcome, apart from the flag. */
  predicate SameEnd(r: Skip, q: Skip) {
    match r
    case Bad => q == Bad
    case Back(at, to) => q == Back(at, to)
    case Skipped(end, _) => q.Skipped? && q.end == end
  }

  /** How a run stands to the outcome of a skip that it completes, with `todo` left over. */
  predicate Reaches(m: Machine, base: nat, r: Skip, todo: seq<nat>) {
    match r
    case Bad => m == Failed
    case Back(_, to) => m.Running? && m.cur == to
    case Skipped(end, _) => m == Running(base + end, todo)
  }

  lemma FirstStep(base: nat, buf: seq<Byte>, pos: nat, todo: seq<nat>, k: nat)
    requires todo != [] && todo[|todo| - 1] > 0
    ensures Steps(base, buf, Running(base + pos, todo), 1 + k) == Steps(base, buf, ReadItem(base, buf, base + pos, todo), k)
  {
    hide ReadItem;
    assert Step(base, buf, Running(base + pos, todo)) == ReadItem(base, buf, base + pos, todo);
  }

  /** An item that is read in one step. */
  lemma LeafRead(base: nat, buf: seq<Byte>, pos: nat, todo: seq<nat>)
    requires todo != [] && todo[|todo| - 1] > 0
    requires var h := HeadAt(buf, pos); h.Head? ==> h.mt < 4 || h.mt > 6
    ensures Reaches(ReadItem(base, buf, base + pos, todo), base, SkipItem(base, buf, pos), OneLess(todo))
  {
    hide HeadAt, OneLess;
  }

  /** The items inside a tag, an array or a map. */
  function Inside(h: Head): nat
    requires h.Head?
  {
    if h.mt == 4 then h.val else if h.mt == 5 then 2 * h.val % SPACE else 1
  }

  lemma NestedRead(base: nat, buf: seq<Byte>, pos: nat, todo: seq<nat>)
    requires todo != [] && todo[|todo| - 1] > 0
    requires HeadAt(buf, pos).Head? && 4 <= HeadAt(buf, pos).mt <= 6
    ensures var h := HeadAt(buf, pos);
            && ReadItem(base, buf, base + pos, todo) == Running(base + h.end, OneLess(todo) + [Inside(h)])
            && SameEnd(SkipItem(base, buf, pos), SkipMany(base, buf, h.end, Inside(h)))
  {
    hide HeadAt, OneLess;
    var h := HeadAt(buf, pos);
    if h.mt == 6 {
      assert forall e | h.end < e <= |buf| :: SkipMany(base, buf, e, 0) == Skipped(e, false);
    }
  }

  lemma ReachesSame(m: Machine, base: nat, r: Skip, q: Skip, todo: seq<nat>)
    requires SameEnd(r, q) && Reaches(m, base, q, todo)
    ensures Reaches(m, base, r, todo)
  {
  }

  lemma LeafRuns(base: nat, buf: seq<Byte>, pos: nat, todo: seq<nat>)
    requires todo != [] && todo[|todo| - 1] > 0
    requires var h := HeadAt(buf, pos); h.Head? ==> h.mt < 4 || h.mt > 6
    ensures Reaches(Steps(base, buf, Running(base + pos, todo), 1), base, SkipItem(base, buf, pos), OneLess(todo))
  {
    hide HeadAt, OneLess, SkipItem, ReadItem, Reaches, Step;
    FirstStep(base, buf, pos, todo, 0);
    LeafRead(base, buf, pos, todo);
  }

  lemma NestedRuns(base: nat, buf: seq<Byte>, pos: nat, todo: seq<nat>, k: nat)
    requires todo != [] && todo[|todo| - 1] > 0
    requires var h := HeadAt(buf, pos);
             && h.Head? && 4 <= h.mt <= 6
             && Reaches(Steps(base, buf, Running(base + h.end, OneLess(todo) + [Inside(h)]), k), base,
                        SkipMany(base, buf, h.end, Inside(h)), OneLess(todo))
    ensures Reaches(Steps(base, buf, Running(base + pos, todo), 1 + k), base, SkipItem(base, buf, pos), OneLess(todo))
  {
    hide HeadAt, OneLess, SkipItem, SkipMany, ReadItem, Reaches, SameEnd, Step, Steps, Inside;
    var h := HeadAt(buf, pos);
    NestedRead(base, buf, pos, todo);
    FirstStep(base, buf, pos, todo, k);
    ReachesSame(Steps(base, buf, Running(base + pos, todo), 1 + k), base,
                SkipItem(base, buf, pos), SkipMany(base, buf, h.end, Inside(h)), OneLess(todo));
  }

  lemma {:induction false} ItemRuns(base: nat, buf: seq<Byte>, pos: nat, todo: seq<nat>) returns (n: nat)
    requires todo != [] && todo[|todo| - 1] > 0
    ensures Reaches(Steps(base, buf, Running(base + pos, todo), n), base, SkipItem(base, buf, pos), OneLess(todo))
    decreases |buf| - pos, 0
  {
    hide HeadAt, OneLess, SkipItem, SkipMany, ReadItem, Reaches, Step, Steps, Inside;
    var h := HeadAt(buf, pos);
    if h.Head? && 4 <= h.mt <= 6 {
      var k := ManyRuns(base, buf, h.end, Inside(h), OneLess(todo));
      NestedRuns(base, buf, pos, todo, k);
      n := 1 + k;
    } else {
      LeafRuns(base, buf, pos, todo);
      n := 1;
    }
  }

  /** A count of zero is dropped. */
  lemma PopRuns(base: nat, buf: seq<Byte>, m: Machine, n: nat, cur: nat, todo: seq<nat>)
    requires Steps(base, buf, m, n) == Running(cur, todo + [0])
    ensures Steps(base, buf, m, n + 1) == Running(cur, todo)
  {
    StepsAdd(base, buf, m, n, 1);
    var m1 := Running(cur, todo + [0]);
    assert (todo + [0])[..|todo|] == todo;
    assert Steps(base, buf, Step(base, buf, m1), 0) == Step(base, buf, m1);
  }

  lemma {:induction false} ManyRuns(base: nat, buf: seq<Byte>, pos: nat, count: nat, todo: seq<nat>) returns (n: nat)
    requires pos <= |buf|
    ensures Reaches(Steps(base, buf, Running(base + pos, todo + [count]), n), base, SkipMany(base, buf, pos, count), todo)
    decreases |buf| - pos, 1
  {
    hide Step, HeadAt, SkipItem, OneLess;
    var m := Running(base + pos, todo + [count]);
    if count == 0 {
      assert Steps(base, buf, m, 0) == m;
      PopRuns(base, buf, m, 0, base + pos, todo);
      n := 1;
    } else {
      n := ItemRuns(base, buf, pos, todo + [count]);
      var r := SkipItem(base, buf, pos);
      if r.Skipped? {
        LastOneLess(todo, count);
        var k := ManyRuns(base, buf, r.end, count - 1, todo);
        StepsAdd(base, buf, m, n, k);
        n := n + k;
      }
    }
  }

  /** The run follows the skip: it fails, ends behind the item, or comes to the wrapped cursor. */
  lemma RunFollowsSkip(base: nat, buf: seq<Byte>, pos: nat) returns (n: nat)
    ensures var m := Steps(base, buf, Start(base, pos), n);
            match SkipItem(base, buf, pos)
            case Bad => m == Failed
            case Back(_, to) => m.Running? && m.cur == to
            case Skipped(end, _) => m == Done(base + end)
  {
    hide SkipItem, ReadItem;
    n := ItemRuns(base, buf, pos, [1]);
    var r := SkipItem(base, buf, pos);
    if r.Skipped? {
      assert OneLess([1]) == [] + [0];
      PopRuns(base, buf, Start(base, pos), n, base + r.end, []);
      StepsAdd(base, buf, Start(base, pos), n + 1, 1);
      var last := Running(base + r.end, []);
      assert Steps(base, buf, Step(base, buf, last), 0) == Step(base, buf, last);
      n := n + 2;
    }
  }

  /** A run that has ended as it should: behind an item if one is encoded there, else in failure. */
  ghost predicate Right(base: nat, buf: seq<Byte>, pos: nat, m: Machine) {
    || (m == Failed && forall end :: !ItemAt(buf, pos, end))
    || (m.Done? && m.cur >= base && ItemAt(buf, pos, m.cur - base))
  }

  ghost predicate EndsRight(base: nat, buf: seq<Byte>, pos: nat) {
    exists n: nat :: Right(base, buf, pos, Steps(base, buf, Start(base, pos), n))
  }

  lemma {:induction false} EndedStays(base: nat, buf: seq<Byte>, m: Machine, n: nat)
    requires !m.Running?
    ensures Steps(base, buf, m, n) == m
    decreases n
  {
    if n > 0 {
      EndedStays(base, buf, m, n - 1);
    }
  }

  /** All runs that end do so in the same place. */
  lemma SameEnding(base: nat, buf: seq<Byte>, m: Machine, i: nat, j: nat)
    requires !Steps(base, buf, m, i).Running? && !Steps(base, buf, m, j).Running?
    ensures Steps(base, buf, m, i) == Steps(base, buf, m, j)
  {
    var lo, hi := if i < j then i else j, if i < j then j else i;
    StepsAdd(base, buf, m, lo, hi - lo);
    EndedStays(base, buf, Steps(base, buf, m, lo), hi - lo);
  }

  lemma GuardedEndsRight(base: nat, buf: seq<Byte>, pos: nat)
    requires Placed(base, |buf|) && Guarded(base, buf)
    ensures EndsRight(base, buf, pos)
  {
    hide Guarded, ItemAt, SkipItem, Steps;
    var n := RunFollowsSkip(base, buf, pos);
    SkipAccepts(base, buf, pos);
    var r := SkipItem(base, buf, pos);
    if r.Skipped? {
      SkipExact(base, buf, pos, r.end);
    }
    assert Right(base, buf, pos, Steps(base, buf, Start(base, pos), n));
  }

  /** Started at a wrapping string, the run ends in success before the string's end. */
  lemma WrappedStringEnds(base: nat, buf: seq<Byte>, i: nat) returns (m: Machine)
    requires Placed(base, |buf|) && WrapsString(base, buf, i)
    ensures m.Done? && m == Steps(base, buf, Start(base, i), 3) && SkipItem(base, buf, i).Back?
  {
    StringBackExact(base, buf, i);
    hide HeadAt;
    var h := HeadAt(buf, i);
    HeadFits(buf, i);
    var to := Advanced(base, h.end, h.val);
    LastOneLess([], 1);
    assert [] + [1] == [1] && [] + [0] == [0];
    var m0, m1, m2 := Start(base, i), Running(to, [0]), Running(to, []);
    m := Done(to);
    assert Step(base, buf, m0) == m1;
    assert Step(base, buf, m1) == m2 && Step(base, buf, m2) == m;
    assert Steps(base, buf, m0, 3) == Steps(base, buf, m1, 2) == Steps(base, buf, m2, 1) == Steps(base, buf, m, 0);
  }

  lemma WrongEnding(base: nat, buf: seq<Byte>, i: nat, k: nat)
    requires Placed(base, |buf|) && Steps(base, buf, Start(base, i), k).Done?
    requires SkipItem(base, buf, i).Back? || (SkipItem(base, buf, i).Skipped? && SkipItem(base, buf, i).wrapped)
    ensures !EndsRight(base, buf, i)
  {
    hide SkipItem, Steps, ItemAt, Placed;
    if n: nat :| Right(base, buf, i, Steps(base, buf, Start(base, i), n)) {
      SameEnding(base, buf, Start(base, i), n, k);
      SkipExact(base, buf, i, Steps(base, buf, Start(base, i), k).cur - base);
    }
  }

  /** Started at a huge map with items behind it, or at a wrapping string, the run does not end right. */
  lemma UnguardedEndsWrong(base: nat, buf: seq<Byte>, i: nat)
    requires Placed(base, |buf|) && (WrapsString(base, buf, i) || FilledHugeMap(buf, i))
    ensures !EndsRight(base, buf, i)
  {
    hide SkipItem, Steps, HeadAt, FilledHugeMap, WrapsString, EndsRight, Placed;
    if WrapsString(base, buf, i) {
      var m := WrappedStringEnds(base, buf, i);
      WrongEnding(base, buf, i, 3);
    } else {
      var k := RunFollowsSkip(base, buf, i);
      HugeMapWraps(base, buf, i);
      WrongEnding(base, buf, i, k);
    }
  }

  /** Such a map is skipped behind those items, with a wrapped count. */
  lemma HugeMapWraps(base: nat, buf: seq<Byte>, i: nat)
    requires Placed(base, |buf|) && FilledHugeMap(buf, i)
    ensures SkipItem(base, buf, i).Skipped? && SkipItem(base, buf, i).wrapped
  {
    var h := HeadAt(buf, i);
    assert h.mt == 5;
    HugeMapExact(buf, i);
    hide HeadAt, HugeMapHead;
    var items, end :| |items| == 2 * h.val % SPACE && StandAll(buf, h.end, items, end);
    SkipManyIsComplete(base, buf, h.end, items, end);
  }

  /**
   Exact: wherever in the buffer reading starts, the run ends, behind an item if one is encoded
   there and else in failure, precisely when no string wraps and no huge map has enough items behind it.
   */
  lemma EveryStartExact(base: nat, buf: seq<Byte>)
    requires Placed(base, |buf|)
    ensures (forall pos: nat | pos < |buf| :: EndsRight(base, buf, pos)) <==> Guarded(base, buf)
  {
    hide EndsRight, WrapsString, FilledHugeMap;
    if Guarded(base, buf) {
      forall pos: nat | pos < |buf| ensures EndsRight(base, buf, pos) {
        GuardedEndsRight(base, buf, pos);
      }
    } else {
      var i: nat :| i < |buf| && (WrapsString(base, buf, i) || FilledHugeMap(buf, i));
      UnguardedEndsWrong(base, buf, i);
    }
  }

  /** The check on the bytes alone suffices. */
  lemma TameEndsRight(base: nat, buf: seq<Byte>, pos: nat)
    requires Placed(base, |buf|) && Tame(base, buf)
    ensures Guarded(base, buf) && EndsRight(base, buf, pos)
  {
    hide HugeMapHead, WrapsString, EndsRight;
    GuardedEndsRight(base, buf, pos);
  }

  // ----- inputs outside the condition

  lemma HugeHead(buf: seq<Byte>)
    requires buf == [0xbb, 0x80, 0, 0, 0, 0, 0, 0, 0]
    ensures HeadAt(buf, 0) == Head(5, Eight, 0x8000_0000_0000_0000, 9)
  {
    TopHalf();
    PowersOf256();
    BigEndianRoundTrip(0x8000_0000_0000_0000, 8);
    assert buf[1..9] == BigEndian(0x8000_0000_0000_0000, 8);
    hide BigEndian, FromBigEndian, Pow256;
  }

  /** A map of 2^63 entries without any entry: accepted, though no item is encoded there. */
  lemma EmptyHugeMap(base: nat, buf: seq<Byte>, end: nat)
    requires buf == [0xbb, 0x80, 0, 0, 0, 0, 0, 0, 0] && Placed(base, |buf|)
    ensures SkipItem(base, buf, 0) == Skipped(9, true) && !ItemAt(buf, 0, end)
  {
    hide HeadAt, ItemAt, Placed;
    HugeHead(buf);
    assert SkipMany(base, buf, 9, 0) == Skipped(9, false);
    SkipExact(base, buf, 0, end);
  }

  lemma TopHalf()
    ensures BigEndian(0x8000_0000_0000_0000, 8) == [0x80, 0, 0, 0, 0, 0, 0, 0]
  {
    assert BigEndian(0x80_0000, 3) == [0x80, 0, 0];
    assert BigEndian(0x80_0000_0000, 5) == [0x80, 0, 0, 0, 0];
    assert BigEndian(0x80_0000_0000_0000, 7) == [0x80, 0, 0, 0, 0, 0, 0];
  }

  lemma AppendByte(s: seq<Byte>, i: nat)
    requires i < |s| <= 8
    ensures FromBigEndian(s[..i + 1]) == FromBigEndian(s[..i]) * 256 % SPACE + s[i]
  {
    assert s[..i + 1][..i] == s[..i];
    FromBigEndianRoundTrip(s[..i]);
    PowerBelow(i);
  }

  lemma PowerBelow(i: nat)
    requires i < 8
    ensures Pow256(i) <= 0x100_0000_0000_0000
  {
    assert Pow256(3) == 0x100_0000;
    assert Pow256(5) == 0x100_0000_0000;
    assert Pow256(7) == 0x100_0000_0000_0000;
  }

  lemma HighBytes(last: Byte)
    ensures BigEndian(0xffff_ffff_ffff_ff00 + last, 8) == [0xff, 0xff, 0xff, 0xff, 0xff, 0xff, 0xff, last]
  {
    assert BigEndian(0xff_ffff, 3) == [0xff, 0xff, 0xff];
    assert BigEndian(0xff_ffff_ffff, 5) == [0xff, 0xff, 0xff, 0xff, 0xff];
    assert BigEndian(0xff_ffff_ffff_ffff, 7) == [0xff, 0xff, 0xff, 0xff, 0xff, 0xff, 0xff];
  }

  lemma LongString(buf: seq<Byte>, i: nat, last: Byte)
    requires i + 9 <= |buf| && buf[i..i + 9] == [0x5b, 0xff, 0xff, 0xff, 0xff, 0xff, 0xff, 0xff, last]
    ensures HeadAt(buf, i) == Head(2, Eight, 0xffff_ffff_ffff_ff00 + last, i + 9)
  {
    HighBytes(last);
    PowersOf256();
    BigEndianRoundTrip(0xffff_ffff_ffff_ff00 + last, 8);
    assert buf[i] == buf[i..i + 9][0];
    assert buf[i + 1..i + 9] == buf[i..i + 9][1..];
  }

  /** A string of 2^64 - 1 bytes: accepted with the cursor moved back by one, though no item is encoded there. */
  lemma BackwardString(base: nat, buf: seq<Byte>, end: nat)
    requires buf == [0x5b, 0xff, 0xff, 0xff, 0xff, 0xff, 0xff, 0xff, 0xff] && Placed(base, |buf|)
    ensures Steps(base, buf, Start(base, 0), 3) == Done(base + 8)
    ensures SkipItem(base, buf, 0) == Back(0, base + 8) && !ItemAt(buf, 0, end)
  {
    assert buf[0..9] == buf;
    LongString(buf, 0, 0xff);
    hide HeadAt;
    SkipExact(base, buf, 0, end);
    var m, m1, m2 := Start(base, 0), Running(base + 8, [0]), Running(base + 8, []);
    assert Step(base, buf, m) == m1;
    assert Step(base, buf, m1) == m2;
    assert Steps(base, buf, m, 3) == Steps(base, buf, m1, 2) == Steps(base, buf, m2, 1);
  }

  /** An array of two, whose first element is a string of 2^64 - 10 bytes: the cursor is back at the array. */
  const LOOP: seq<Byte> := [0x82, 0x5b, 0xff, 0xff, 0xff, 0xff, 0xff, 0xff, 0xff, 0xf6]

  lemma LoopHeads()
    ensures HeadAt(LOOP, 0) == Head(4, Short, 2, 1)
    ensures HeadAt(LOOP, 1) == Head(2, Eight, 0xffff_ffff_ffff_fff6, 10)
  {
    assert LOOP[1..10] == [0x5b, 0xff, 0xff, 0xff, 0xff, 0xff, 0xff, 0xff, 0xf6];
    LongString(LOOP, 1, 0xf6);
  }

  lemma {:induction false} LoopRuns(base: nat, todo: seq<nat>, n: nat)
    requires Placed(base, |LOOP|) && todo != [] && todo[|todo| - 1] > 0
    ensures Steps(base, LOOP, Running(base, todo), n).Running?
    decreases n
  {
    LoopHeads();
    hide HeadAt, OneLess;
    var first := Running(base + 1, OneLess(todo) + [2]);
    assert Step(base, LOOP, Running(base, todo)) == first;
    if n > 1 {
      var again := OneLess(OneLess(todo) + [2]);
      LastOneLess(OneLess(todo), 2);
      assert Step(base, LOOP, first) == Running(base, again);
      LoopRuns(base, again, n - 2);
    }
  }

  lemma LastOneLess(todo: seq<nat>, k: nat)
    requires k > 0
    ensures OneLess(todo + [k]) == todo + [k - 1]
  {
  }

  /** Ten bytes without a huge map head on which the skipper runs for ever. */
  lemma LoopForever(base: nat, n: nat)
    requires Placed(base, |LOOP|)
    ensures Steps(base, LOOP, Start(base, 0), n).Running?
    ensures forall i | 0 <= i < |LOOP| :: !HugeMapHead(LOOP, i)
    ensures WrapsString(base, LOOP, 1)
  {
    LoopHeads();
    LoopRuns(base, [1], n);
  }

  // ----- the guest's code

  /** What a call answers: success, failure, or a cursor that a string length has moved back. */
  datatype Answer = Ok | Err | MovedBack

  /** A cursor over a buffer: both are addresses. */
  class Cursor {
    const base: nat
    const buf: seq<Byte>
    var cur: nat

    constructor (base: nat, buf: seq<Byte>)
      ensures this.base == base && this.buf == buf && cur == base
    {
      this.base, this.buf, cur := base, buf, base;
    }

    /** The cursor as an offset into the buffer. */
    function Pos(): nat
      requires base <= cur
      reads this
    {
      cur - base
    }

    /** Big-endian read of `n` bytes, shifting a 64-bit value left by eight bits at a time. */
    method ReadArgument(n: nat) returns (val: nat)
      requires base <= cur && n <= 8 && Pos() + n <= |buf|
      ensures val == FromBigEndian(buf[Pos()..Pos() + n])
    {
      val := 0;
      ghost var s := buf[Pos()..Pos() + n];
      for i := 0 to n
        invariant val == FromBigEndian(s[..i])
      {
        AppendByte(s, i);
        val := val * 256 % SPACE + buf[cur - base + i];
      }
      assert s[..n] == s;
    }

    /** Reads one head. A head that is cut short or not handled leaves the cursor behind its first byte. */
    method CborReadHead() returns (ok: bool, mt: nat, val: nat)
      requires Placed(base, |buf|) && base <= cur
      modifies this`cur
      ensures ok <==> HeadAt(buf, old(Pos())).Head?
      ensures ok ==> var h := HeadAt(buf, old(Pos())); mt == h.mt && val == h.val && cur == base + h.end
      ensures !ok ==> cur == old(cur) + (if old(Pos()) < |buf| then 1 else 0)
    {
      ok, mt, val := false, 0, 0;
      if cur >= base + |buf| {
        return;
      }
      var first := buf[cur - base];
      cur := cur + 1;
      mt := first / 32;
      var info := first % 32;
      if info < 24 {
        val := info;
      } else if info == 24 {
        if cur + 1 > base + |buf| {
          return;
        }
        val := ReadArgument(1);
        cur := cur + 1;
      } else if info == 25 {
        if cur + 2 > base + |buf| {
          return;
        }
        val := ReadArgument(2);
        cur := cur + 2;
      } else if info == 26 {
        if cur + 4 > base + |buf| {
          return;
        }
        val := ReadArgument(4);
        cur := cur + 4;
      } else if info == 27 {
        if cur + 8 > base + |buf| {
          return;
        }
        val := ReadArgument(8);
        cur := cur + 8;
      } else {
        return;
      }
      ok := true;
    }

    /** Skips `count` items in a row. */
    method SkipItems(count: nat) returns (a: Answer)
      requires Placed(base, |buf|) && base <= cur <= base + |buf|
      modifies this`cur
      ensures Answers(SkipMany(base, buf, old(Pos()), count), a, cur)
      ensures a != MovedBack ==> old(cur) <= cur
      ensures cur <= base + |buf|
      decreases |buf| - Pos(), 1
    {
      hide HeadAt, SkipItem;
      ghost var all := SkipMany(base, buf, Pos(), count);
      var i := 0;
      while i < count
        invariant i <= count && old(cur) <= cur <= base + |buf|
        invariant SameEnd(all, SkipMany(base, buf, Pos(), count - i))
      {
        a := CborSkip();
        if a != Ok {
          return;
        }
        i := i + 1;
      }
      a := Ok;
    }

    /** What the answer and the cursor say about the outcome of a skip. */
    predicate Answers(r: Skip, a: Answer, at: nat) {
      match r
      case Bad => a == Err
      case Back(_, to) => a == MovedBack && at == to
      case Skipped(end, _) => a == Ok && at == base + end
    }

    /** Passes a string of `val` bytes behind its head, which started at `pos`. */
    method PassString(val: nat, ghost pos: nat) returns (a: Answer)
      requires Placed(base, |buf|) && base <= cur && pos < Pos() <= |buf| && HeadAt(buf, pos).Head?
      requires val == HeadAt(buf, pos).val && val < SPACE && Pos() == HeadAt(buf, pos).end
      modifies this`cur
      ensures Answers(SkipString(base, buf, pos, HeadAt(buf, pos)), a, cur)
      ensures a != MovedBack ==> old(cur) <= cur
      ensures cur <= base + |buf|
    {
      hide HeadAt;
      var to := (cur + val) % SPACE;
      if to > base + |buf| {
        return Err;
      }
      a := if cur + val >= SPACE then MovedBack else Ok;
      cur := to;
    }

    /**
     Skips one item. The cursor never passes the end of the buffer. When a string length moves it
     back the method returns at once; the run continues as `Step` says.
     */
    method CborSkip() returns (a: Answer)
      requires Placed(base, |buf|) && base <= cur
      modifies this`cur
      ensures Answers(SkipItem(base, buf, old(Pos())), a, cur)
      ensures a != MovedBack ==> old(cur) <= cur
      ensures old(cur) <= base + |buf| ==> cur <= base + |buf|
      decreases |buf| - Pos(), 0
    {
      hide HeadAt;
      a := Err;
      var read, mt, val := CborReadHead();
      if !read {
        return;
      }
      HeadFits(buf, old(Pos()));
      hide SkipString, SkipMany;
      if mt == 0 || mt == 1 {
      } else if mt == 2 || mt == 3 {
        a := PassString(val, old(Pos()));
        return;
      } else if mt == 4 {
        a := SkipItems(val);
        return;
      } else if mt == 5 {
        a := SkipItems(2 * val % SPACE);
        return;
      } else if mt == 6 {
        a := CborSkip();
        return;
      } else {
        return;
      }
      a := Ok;
    }
  }
}
