/**
 One pass of the list benchmark: finds, reversals and relinks, a sort by computed value, a remove
 and its undo, and the sort by index that puts the list back.
 */
module BenchList {
  import opened Bits
  import opened ListArena
  import opened MergeSort

  // ----- find

  /** The search key: by index when it is not negative, else by the low data byte. */
  predicate Matches(data: seq<Word16>, idx: seq<int>, d: nat, wantIdx: int, wantData: int)
    requires d < |data| == |idx|
  {
    if wantIdx >= 0 then idx[d] == wantIdx else Low(data[d]) == wantData
  }

  /** Every node has a data item. */
  predicate HaveItems(info: seq<nat>, s: seq<nat>, n: nat) {
    forall k | 0 <= k < |s| :: s[k] < |info| && info[s[k]] < n
  }

  /** Place of the first node that matches, or the length of the list. */
  function FirstMatch(data: seq<Word16>, idx: seq<int>, info: seq<nat>, s: seq<nat>, wantIdx: int, wantData: int): (k: nat)
    requires |idx| == |data| && HaveItems(info, s, |data|)
    ensures k <= |s| && (k < |s| ==> Matches(data, idx, info[s[k]], wantIdx, wantData))
    ensures forall u | 0 <= u < k :: !Matches(data, idx, info[s[u]], wantIdx, wantData)
  {
    if s == [] || Matches(data, idx, info[s[0]], wantIdx, wantData) then 0
    else
      assert forall u | 0 <= u < |s[1..]| :: s[1..][u] == s[u + 1];
      1 + FirstMatch(data, idx, info, s[1..], wantIdx, wantData)
  }

  method CoreListFind(ar: Arena, list: int, wantIdx: int, wantData: int, ghost s: seq<nat>) returns (node: int, ghost k: nat)
    requires ar.Valid() && IsChain(ar.next, list, s)
    ensures k <= |s| && node == At(s, k)
    ensures k < |s| ==> Matches(ar.data16, ar.idx, ar.info[s[k]], wantIdx, wantData)
    ensures forall u | 0 <= u < k :: !Matches(ar.data16, ar.idx, ar.info[s[u]], wantIdx, wantData)
    ensures wantIdx >= 0 && node != NULL ==> ar.idx[ar.info[s[k]]] == wantIdx
    ensures wantIdx >= 0 ==> forall u | 0 <= u < k :: ar.idx[ar.info[s[u]]] != wantIdx
    ensures wantIdx < 0 && node != NULL ==> ar.data16[ar.info[s[k]]] % 256 == wantData
    ensures wantIdx < 0 ==> forall u | 0 <= u < k :: ar.data16[ar.info[s[u]]] % 256 != wantData
    ensures node == NULL <==> forall u | 0 <= u < |s| :: !Matches(ar.data16, ar.idx, ar.info[s[u]], wantIdx, wantData)
  {
    node, k := list, 0;
    while node != NULL && !Matches(ar.data16, ar.idx, ar.info[node], wantIdx, wantData)
      invariant k <= |s| && node == At(s, k)
      invariant forall u | 0 <= u < k :: !Matches(ar.data16, ar.idx, ar.info[s[u]], wantIdx, wantData)
      decreases |s| - k
    {
      node := ar.next[node];
      k := k + 1;
    }
  }

  // ----- reverse

  lemma {:induction false} ReverseFacts(s: seq<nat>)
    ensures |Reverse(s)| == |s|
    ensures forall k | 0 <= k < |s| :: Reverse(s)[k] == s[|s| - 1 - k]
    ensures multiset(Reverse(s)) == multiset(s)
  {
    if s != [] {
      ReverseFacts(s[1..]);
      assert s == [s[0]] + s[1..];
    }
  }

  /** Nodes `done` are linked backwards, nodes `todo` forwards. */
  ghost predicate HalfReversed(next: seq<int>, s: seq<nat>, k: nat) {
    && k <= |s| && Distinct(s)
    && (forall i | 0 <= i < |s| :: s[i] < |next|)
    && (forall i {:trigger next[s[i]]} | 0 <= i < k :: next[s[i]] == if i > 0 then s[i - 1] else NULL)
    && (forall i {:trigger next[s[i]]} | k <= i < |s| :: next[s[i]] == Succ(s, i))
  }

  function Before(s: seq<nat>, k: nat): int
    requires k <= |s|
  {
    if k > 0 then s[k - 1] else NULL
  }

  lemma OneMoreReversed(next0: seq<int>, next: seq<int>, s: seq<nat>, k: nat)
    requires HalfReversed(next, s, k) && Untouched(next0, next, s) && k < |s|
    ensures s[k] < |next| && next[s[k]] == At(s, k + 1)
    ensures var next' := next[s[k] := Before(s, k)]; HalfReversed(next', s, k + 1) && Untouched(next0, next', s)
  {
    assert next[s[k]] == Succ(s, k);
    forall i | 0 <= i < |s| && i != k ensures s[i] != s[k] {
    }
  }

  method CoreListReverse(ar: Arena, list0: int, ghost s: seq<nat>) returns (head: int)
    requires IsChain(ar.next, list0, s)
    modifies ar`next
    ensures IsChain(ar.next, head, Reverse(s)) && Untouched(old(ar.next), ar.next, s)
  {
    var list := list0;
    ghost var k := 0;
    head := NULL;
    assert HalfReversed(ar.next, s, 0) && Untouched(ar.next, ar.next, s);
    hide HalfReversed, Untouched, IsChain;
    while list != NULL
      invariant k <= |s| && list == At(s, k) && head == Before(s, k)
      invariant HalfReversed(ar.next, s, k) && Untouched(old(ar.next), ar.next, s)
      decreases |s| - k
    {
      OneMoreReversed(old(ar.next), ar.next, s, k);
      var tmp := ar.next[list];
      ar.next := ar.next[list := head];
      head := list;
      list := tmp;
      k := k + 1;
    }
    ReversedChain(ar.next, s, head);
  }

  lemma ReversedChain(next: seq<int>, s: seq<nat>, head: int)
    requires HalfReversed(next, s, |s|) && head == (if |s| > 0 then s[|s| - 1] else NULL)
    ensures IsChain(next, head, Reverse(s))
  {
    ReverseFacts(s);
    var t := Reverse(s);
    SameDistinct(s, t);
    forall i | 0 <= i < |t| ensures next[t[i]] == Succ(t, i) {
      assert t[i] == s[|s| - 1 - i];
      if i + 1 < |t| {
        assert t[i + 1] == s[|s| - 1 - i - 1];
      }
    }
  }

  // ----- moving a found item's successor to the second place

  function MoveSecond(s: seq<nat>, m: nat): seq<nat>
    requires 0 < m < |s|
  {
    [s[0], s[m]] + s[1..m] + s[m + 1..]
  }

  function MovedFrom(m: nat, i: nat): nat {
    if i == 0 then 0 else if i == 1 then m else if i <= m then i - 1 else i
  }

  lemma MoveSecondAt(s: seq<nat>, m: nat, i: nat)
    requires 0 < m < |s| && i < |s|
    ensures |MoveSecond(s, m)| == |s| && MoveSecond(s, m)[i] == s[MovedFrom(m, i)]
  {
  }

  lemma MoveSecondMembers(s: seq<nat>, m: nat)
    requires 0 < m < |s|
    ensures multiset(MoveSecond(s, m)) == multiset(s)
  {
    assert s == [s[0]] + s[1..m] + [s[m]] + s[m + 1..];
  }

  /** Caches the successor of `found` behind the head, if there is one. */
  method CacheNext(ar: Arena, list: int, found: int, ghost s: seq<nat>, ghost k: nat) returns (ghost t: seq<nat>)
    requires IsChain(ar.next, list, s) && k < |s| && found == s[k]
    modifies ar`next
    ensures t == if k + 1 < |s| then MoveSecond(s, k + 1) else s
    ensures IsChain(ar.next, list, t) && multiset(t) == multiset(s) && Untouched(old(ar.next), ar.next, s)
  {
    t := s;
    if ar.next[found] != NULL {
      ghost var next0 := ar.next;
      var finder := ar.next[found];
      ar.next := ar.next[found := ar.next[finder]];
      ar.next := ar.next[finder := ar.next[list]];
      ar.next := ar.next[list := finder];
      t := MoveSecond(s, k + 1);
      MoveSecondMembers(s, k + 1);
      SameDistinct(s, t);
      assert ar.next == Relinked(next0, s, k);
      CachedChain(next0, s, k);
    }
  }

  /** The three stores of the relink. */
  function Relinked(next: seq<int>, s: seq<nat>, k: nat): seq<int>
    requires k + 1 < |s| && s[0] < |next| && s[k] < |next| && s[k + 1] < |next|
  {
    var n1 := next[s[k] := next[s[k + 1]]];
    var n2 := n1[s[k + 1] := n1[s[0]]];
    n2[s[0] := s[k + 1]]
  }

  lemma RelinkedAt(next: seq<int>, s: seq<nat>, k: nat, u: nat)
    requires IsChain(next, Head(s), s) && k + 1 < |s| && u < |s|
    ensures Relinked(next, s, k)[s[u]] == if u == 0 then s[k + 1]
                                          else if u == k + 1 then (if k == 0 then Succ(s, 1) else s[1])
                                          else if u == k then Succ(s, k + 1) else Succ(s, u)
  {
    assert next[s[u]] == Succ(s, u) && next[s[0]] == Succ(s, 0) && next[s[k + 1]] == Succ(s, k + 1);
    assert u != 0 ==> s[u] != s[0];
    assert u != k ==> s[u] != s[k];
    assert u != k + 1 ==> s[u] != s[k + 1];
    assert k != 0 ==> s[k] != s[0];
  }

  lemma CachedLink(next: seq<int>, s: seq<nat>, k: nat, i: nat)
    requires IsChain(next, Head(s), s) && k + 1 < |s| && i < |s|
    ensures var t := MoveSecond(s, k + 1); |t| == |s| && Relinked(next, s, k)[t[i]] == Succ(t, i)
  {
    hide MoveSecond, Relinked;
    MoveSecondAt(s, k + 1, i);
    RelinkedAt(next, s, k, MovedFrom(k + 1, i));
    hide IsChain;
    if i + 1 < |s| {
      MoveSecondAt(s, k + 1, i + 1);
    }
  }

  lemma CachedChain(next: seq<int>, s: seq<nat>, k: nat)
    requires IsChain(next, Head(s), s) && k + 1 < |s| && Distinct(MoveSecond(s, k + 1))
    ensures IsChain(Relinked(next, s, k), Head(s), MoveSecond(s, k + 1))
  {
    var t, next' := MoveSecond(s, k + 1), Relinked(next, s, k);
    assert |next'| == |next|;
    MoveSecondAt(s, k + 1, 0);
    hide MoveSecond, Distinct, Relinked, Succ, MovedFrom;
    forall i | 0 <= i < |t| ensures t[i] < |next'| && next'[t[i]] == Succ(t, i) {
      MoveSecondAt(s, k + 1, i);
      CachedLink(next, s, k, i);
    }
  }

  // ----- remove and undo

  function Without(s: seq<nat>, k: nat): seq<nat>
    requires k < |s|
  {
    s[..k] + s[k + 1..]
  }

  function Swap(info: seq<nat>, x: nat, y: nat): seq<nat>
    requires x < |info| && y < |info|
  {
    info[x := info[y]][y := info[x]]
  }

  /** Removes the item at place `k` by taking over its successor's data and unlinking the successor. */
  method CoreListRemove(ar: Arena, item: int, ghost list: int, ghost s: seq<nat>, ghost k: nat) returns (ret: int)
    requires ar.Valid() && IsChain(ar.next, list, s) && k + 1 < |s| && item == s[k]
    modifies ar`next, ar`info
    ensures ar.Valid() && ret == s[k + 1]
    ensures ar.next == old(ar.next)[s[k] := old(ar.next)[s[k + 1]]][s[k + 1] := NULL]
    ensures ar.info == Swap(old(ar.info), s[k], s[k + 1])
    ensures IsChain(ar.next, list, Without(s, k + 1))
  {
    ret := ar.next[item];
    var tmp := ar.info[item];
    ar.info := ar.info[item := ar.info[ret]];
    ar.info := ar.info[ret := tmp];
    ghost var next0 := ar.next;
    ar.next := ar.next[item := ar.next[ar.next[item]]];
    ar.next := ar.next[ret := NULL];
    RemovedChain(next0, ar.next, list, s, k);
  }

  lemma RemovedChain(next: seq<int>, next': seq<int>, list: int, s: seq<nat>, k: nat)
    requires IsChain(next, list, s) && k + 1 < |s|
    requires next' == next[s[k] := next[s[k + 1]]][s[k + 1] := NULL]
    ensures IsChain(next', list, Without(s, k + 1))
  {
    var t := Without(s, k + 1);
    WithoutDistinct(s, k);
    WithoutAt(s, k, 0);
    hide Without, Distinct, Succ;
    forall i | 0 <= i < |t| ensures t[i] < |next'| && next'[t[i]] == Succ(t, i) {
      WithoutAt(s, k, i);
      if i + 1 < |t| {
        WithoutAt(s, k, i + 1);
      }
      RemovedLink(next, next', list, s, t, k, i);
    }
  }

  lemma WithoutAt(s: seq<nat>, k: nat, i: nat)
    requires k + 1 < |s| && i < |s| - 1
    ensures |Without(s, k + 1)| == |s| - 1 && Without(s, k + 1)[i] == if i <= k then s[i] else s[i + 1]
  {
  }

  lemma WithoutDistinct(s: seq<nat>, k: nat)
    requires k + 1 < |s| && Distinct(s)
    ensures Distinct(Without(s, k + 1))
  {
    var t := Without(s, k + 1);
    forall i, j | 0 <= i < j < |t| ensures t[i] != t[j] {
      WithoutAt(s, k, i);
      WithoutAt(s, k, j);
    }
  }

  lemma RemovedLink(next: seq<int>, next': seq<int>, list: int, s: seq<nat>, t: seq<nat>, k: nat, i: nat)
    requires IsChain(next, list, s) && k + 1 < |s| && |t| == |s| - 1 && i < |t|
    requires next' == next[s[k] := next[s[k + 1]]][s[k + 1] := NULL]
    requires t[i] == if i <= k then s[i] else s[i + 1]
    requires i + 1 < |t| ==> t[i + 1] == if i + 1 <= k then s[i + 1] else s[i + 2]
    ensures next'[t[i]] == Succ(t, i)
  {
    var u := if i <= k then i else i + 1;
    assert next[s[u]] == Succ(s, u);
    assert next[s[k + 1]] == Succ(s, k + 1);
    assert s[u] != s[k + 1];
    assert i != k ==> s[u] != s[k];
  }

  /** Links the removed item back behind the modified one and swaps their data again. */
  method CoreListUndoRemove(ar: Arena, removed: int, modified: int, ghost list: int, ghost t: seq<nat>, ghost k: nat)
    requires ar.Valid() && IsChain(ar.next, list, t) && k < |t| && modified == t[k]
    requires 0 <= removed < |ar.next| && removed !in t
    modifies ar`next, ar`info
    ensures ar.Valid()
    ensures ar.next == old(ar.next)[removed := old(ar.next)[modified]][modified := removed]
    ensures ar.info == Swap(old(ar.info), removed, modified)
  {
    var tmp := ar.info[removed];
    ar.info := ar.info[removed := ar.info[modified]];
    ar.info := ar.info[modified := tmp];
    ar.next := ar.next[removed := ar.next[modified]];
    ar.next := ar.next[modified := removed];
  }

  /** Undo restores links and data pointers exactly. */
  lemma UndoRestores(next: seq<int>, info: seq<nat>, s: seq<nat>, list: int, k: nat)
    requires IsChain(next, list, s) && k + 1 < |s| && |info| == |next|
    ensures var x, y := s[k], s[k + 1];
            var n1, i1 := next[x := next[y]][y := NULL], Swap(info, x, y);
            n1[y := n1[x]][x := y] == next && Swap(i1, y, x) == info
  {
    assert next[s[k]] == s[k + 1];
  }

  // ----- the benchmark pass

  /** Signed 16-bit increment. */
  function NextIdx(i: int): int {
    (i + 0x8001) % 0x1_0000 - 0x8000
  }

  lemma NextIdxIs(i: int)
    requires -0x8000 <= i < 0x8000
    ensures i < 0x7fff ==> NextIdx(i) == i + 1
    ensures i == 0x7fff ==> NextIdx(i) == -0x8000
  {
  }

  /** The arena when the pass starts: links, data pointers, data words, and the nodes of the list. */
  datatype Origin = Origin(next: seq<int>, info: seq<nat>, data: seq<Word16>, nodes: seq<nat>)

  /** Data words keep their high bytes, and those that belong to no node of the list are not touched. */
  ghost predicate DataKept(o: Origin, data: seq<Word16>) {
    && |data| == |o.data|
    && (forall d {:trigger data[d]} | 0 <= d < |data| ::
          High(data[d]) == High(o.data[d]) && (!HasItem(o.info, o.nodes, d) ==> data[d] == o.data[d]))
  }

  /** What every step before the final sort keeps: the nodes, all other links, data pointers and high bytes. */
  ghost predicate Kept(ar: Arena, o: Origin, list: int, s: seq<nat>)
    reads ar
  {
    && ar.Valid() && ar.info == o.info
    && IsChain(ar.next, list, s) && multiset(s) == multiset(o.nodes) && |s| == |o.nodes|
    && Untouched(o.next, ar.next, o.nodes) && DataKept(o, ar.data16)
  }

  /** A step that leaves other links alone keeps them alone, in whatever order the nodes are. */
  lemma LinksKept(o: Origin, next1: seq<int>, next2: seq<int>, s: seq<nat>)
    requires Untouched(o.next, next1, o.nodes) && Untouched(next1, next2, s) && multiset(s) == multiset(o.nodes)
    ensures Untouched(o.next, next2, o.nodes) && |next2| == |next1|
  {
    PassKeeps(o.next, next1, next2, o.nodes, s, s);
  }

  /** A sort only writes words of the list's items. */
  lemma SortKeepsData(o: Origin, cmp: Cmp, before: seq<Word16>, data: seq<Word16>, s: seq<nat>, compared: set<nat>)
    requires DataKept(o, before) && DataInv(cmp, before, data, compared)
    requires Belong(o.info, s, compared) && multiset(s) == multiset(o.nodes)
    ensures DataKept(o, data)
  {
    BelongSame(o.info, s, o.nodes, compared);
    forall d | 0 <= d < |data|
      ensures High(data[d]) == High(o.data[d]) && (!HasItem(o.info, o.nodes, d) ==> data[d] == o.data[d])
    {
      assert High(before[d]) == High(o.data[d]);
    }
  }

  // ----- the finds

  /** The list after some finds, the next index looked for, hits and misses, and the bits the finds have added up. */
  datatype Finds = Finds(order: seq<nat>, want: int, found: nat, missed: nat, bits: nat)

  ghost predicate FindsOk(o: Origin, n: nat, f: Finds) {
    && HaveItems(o.info, o.nodes, n) && HaveItems(o.info, f.order, n)
    && multiset(f.order) == multiset(o.nodes) && |f.order| == |o.nodes| >= 3
  }

  /** Bit 9 of a found word counts when bit 0 is set. */
  function FoundBit(v: Word16): nat {
    if v % 2 == 1 then v / 512 % 2 else 0
  }

  function MissedBit(v: Word16): nat {
    v / 256 % 2
  }

  lemma BitsOfWord(v: Word16)
    ensures FoundBit(v) == if Bit(v, 0) && Bit(v, 9) then 1 else 0
    ensures MissedBit(v) == if Bit(v, 8) then 1 else 0
  {
    Pow2Small();
    assert Pow2(9) == 512;
    BitIs(v, 8);
    BitIs(v, 9);
  }

  /** The list with the successor of the found node, place `k` before the reversal, moved to the second place. */
  function AfterHit(s: seq<nat>, k: nat): seq<nat>
    requires k < |s|
  {
    ReverseFacts(s);
    if k == 0 then Reverse(s) else MoveSecond(Reverse(s), |s| - k)
  }

  lemma AfterHitMembers(s: seq<nat>, k: nat)
    requires k < |s|
    ensures multiset(AfterHit(s, k)) == multiset(s) && |AfterHit(s, k)| == |s|
  {
    ReverseFacts(s);
    if k > 0 {
      MoveSecondMembers(Reverse(s), |s| - k);
      MoveSecondAt(Reverse(s), |s| - k, 0);
    }
  }

  lemma ItemsKept(info: seq<nat>, s: seq<nat>, t: seq<nat>, n: nat)
    requires HaveItems(info, s, n) && multiset(t) == multiset(s)
    ensures HaveItems(info, t, n)
  {
    forall k | 0 <= k < |t| ensures t[k] < |info| && info[t[k]] < n {
      SameMembers(t, s, t[k]);
      var u :| 0 <= u < |s| && s[u] == t[k];
    }
  }

  /** Find number `i` on the list as a sequence: search, reverse, move the successor of a hit. */
  ghost function FindOnce(o: Origin, idx: seq<int>, f: Finds, i: nat): (g: Finds)
    requires |idx| == |o.data| && FindsOk(o, |o.data|, f)
    ensures FindsOk(o, |o.data|, g)
  {
    var k := FirstMatch(o.data, idx, o.info, f.order, f.want, i % 256);
    var want := if f.want >= 0 then NextIdx(f.want) else f.want;
    ReverseFacts(f.order);
    ItemsKept(o.info, f.order, Reverse(f.order), |o.data|);
    if k == |f.order| then
      Finds(Reverse(f.order), want, f.found, f.missed + 1, f.bits + MissedBit(o.data[o.info[Reverse(f.order)[1]]]))
    else
      AfterHitMembers(f.order, k);
      ItemsKept(o.info, f.order, AfterHit(f.order, k), |o.data|);
      Finds(AfterHit(f.order, k), want, f.found + 1, f.missed, f.bits + FoundBit(o.data[o.info[f.order[k]]]))
  }

  ghost function FindsAfter(o: Origin, idx: seq<int>, finderIdx: int, n: nat): (f: Finds)
    requires |idx| == |o.data| && HaveItems(o.info, o.nodes, |o.data|) && |o.nodes| >= 3
    ensures FindsOk(o, |o.data|, f)
  {
    if n == 0 then Finds(o.nodes, finderIdx, 0, 0, 0) else FindOnce(o, idx, FindsAfter(o, idx, finderIdx, n - 1), n - 1)
  }

  /** One find: search, reverse, and cache the successor of a found item. */
  method FindRound(ar: Arena, list0: int, wantIdx: int, i: nat, ghost o: Origin, ghost f: Finds)
    returns (list: int, hit: bool, bit: nat, ghost g: Finds)
    requires Kept(ar, o, list0, f.order) && ar.data16 == o.data && FindsOk(o, |o.data|, f) && wantIdx == f.want
    modifies ar`next
    ensures |ar.idx| == |o.data| && g == FindOnce(o, ar.idx, f, i) && Kept(ar, o, list, g.order) && g.bits == f.bits + bit
    ensures g.found == (if hit then f.found + 1 else f.found) && g.missed == (if hit then f.missed else f.missed + 1)
  {
    hide *;
    KeptChain(ar, o, list0, f.order);
    ghost var next0, s := ar.next, f.order;
    var found; ghost var k;
    found, k := CoreListFind(ar, list0, wantIdx, i % 256, s);
    SameFirst(o, ar.idx, f, i, k);
    ReverseFacts(s);
    list := CoreListReverse(ar, list0, s);
    LinksKept(o, next0, ar.next, s);
    ghost var t := Reverse(s);
    hit := found != NULL;
    if hit {
      bit := FoundBit(ar.data16[ar.info[found]]);
      ghost var next1 := ar.next;
      t := CacheNext(ar, list, found, t, |s| - 1 - k);
      LinksKept(o, next1, ar.next, Reverse(s));
    } else {
      var second := SecondOf(ar, list, t);
      bit := MissedBit(ar.data16[ar.info[second]]);
    }
    g := FindOnce(o, ar.idx, f, i);
    StillKept(ar, o, list, t);
  }

  /** The find as a step on sequences, by where the first match is. */
  lemma SameFirst(o: Origin, idx: seq<int>, f: Finds, i: nat, k: nat)
    requires |idx| == |o.data| && FindsOk(o, |o.data|, f) && k <= |f.order|
    requires k < |f.order| ==> Matches(o.data, idx, o.info[f.order[k]], f.want, i % 256)
    requires forall u | 0 <= u < k :: !Matches(o.data, idx, o.info[f.order[u]], f.want, i % 256)
    ensures |f.order| == |o.nodes| >= 3 && |Reverse(f.order)| == |f.order| && HaveItems(o.info, f.order, |o.data|)
    ensures At(f.order, k) == NULL <==> k == |f.order|
    ensures Reverse(f.order)[1] < |o.info| && o.info[Reverse(f.order)[1]] < |o.data|
    ensures k < |f.order| ==> f.order[k] < |o.info| && o.info[f.order[k]] < |o.data|
    ensures var g := FindOnce(o, idx, f, i);
            if k == |f.order| then
              && g.order == Reverse(f.order) && g.found == f.found && g.missed == f.missed + 1
              && g.bits == f.bits + MissedBit(o.data[o.info[Reverse(f.order)[1]]])
            else
              && At(f.order, k) == f.order[k] == Reverse(f.order)[|f.order| - 1 - k]
              && g.order == (if k > 0 then MoveSecond(Reverse(f.order), |f.order| - k) else Reverse(f.order))
              && g.found == f.found + 1 && g.missed == f.missed && g.bits == f.bits + FoundBit(o.data[o.info[f.order[k]]])
  {
    hide FirstMatch, Matches, Reverse, MoveSecond, FoundBit, MissedBit, NextIdx;
    FirstIs(o.data, idx, o.info, f.order, f.want, i % 256, k);
    ReverseFacts(f.order);
    ItemsKept(o.info, f.order, Reverse(f.order), |o.data|);
  }

  lemma StillKept(ar: Arena, o: Origin, list: int, t: seq<nat>)
    requires ar.Valid() && ar.info == o.info && ar.data16 == o.data && IsChain(ar.next, list, t)
    requires multiset(t) == multiset(o.nodes) && Untouched(o.next, ar.next, o.nodes)
    ensures Kept(ar, o, list, t)
  {
    SameMembers(o.nodes, t, 0);
  }

  method SecondOf(ar: Arena, list: int, ghost s: seq<nat>) returns (second: int)
    requires IsChain(ar.next, list, s) && |s| >= 2
    ensures second == s[1]
  {
    second := ar.next[list];
    assert ar.next[s[0]] == Succ(s, 0);
  }

  /** A 16-bit sum. */
  function Wrap(x: int): nat {
    x % 0x1_0000
  }

  lemma WrapSum(x: int, y: int)
    ensures Wrap(Wrap(x) + y) == Wrap(x + y)
  {
  }

  /** All finds, and what they add to the checksum. */
  method FindRounds(ar: Arena, list0: int, findNum: nat, finderIdx: int, ghost o: Origin)
    returns (list: int, wantIdx: int, wantData: int, value: nat, ghost f: Finds)
    requires Kept(ar, o, list0, o.nodes) && ar.data16 == o.data && |o.nodes| >= 3 && HaveItems(o.info, o.nodes, |o.data|)
    modifies ar`next
    ensures |ar.idx| == |o.data| && f == FindsAfter(o, ar.idx, finderIdx, findNum) && Kept(ar, o, list, f.order)
    ensures wantIdx == f.want && wantData == LastWanted(findNum) && value == Wrap(f.bits + (f.found * 4 - f.missed))
  {
    hide *;
    KeptItems(ar, o, list0, o.nodes);
    ghost var idx := ar.idx;
    NoFinds(o, idx, finderIdx);
    list, wantIdx, wantData, value, f := list0, finderIdx, 0, 0, Finds(o.nodes, finderIdx, 0, 0, 0);
    var found, missed := 0, 0;
    for i := 0 to findNum
      invariant f == FindsAfter(o, idx, finderIdx, i) && Kept(ar, o, list, f.order)
      invariant wantIdx == f.want && found == f.found && missed == f.missed && value == Wrap(f.bits)
      invariant wantData == LastWanted(i)
    {
      NextFind(o, idx, finderIdx, i);
      wantData := i % 256;
      var hit, bit;
      ghost var before := f;
      list, hit, bit, f := FindRound(ar, list, wantIdx, i, o, before);
      WrapSum(before.bits, bit);
      value := Wrap(value + bit);
      if hit {
        found := found + 1;
      } else {
        missed := missed + 1;
      }
      if wantIdx >= 0 {
        wantIdx := NextIdx(wantIdx);
      }
    }
    WrapSum(f.bits, found * 4 - missed);
    value := Wrap(value + (found * 4 - missed));
  }

  lemma NoFinds(o: Origin, idx: seq<int>, finderIdx: int)
    requires |idx| == |o.data| && HaveItems(o.info, o.nodes, |o.data|) && |o.nodes| >= 3
    ensures FindsAfter(o, idx, finderIdx, 0) == Finds(o.nodes, finderIdx, 0, 0, 0) && LastWanted(0) == 0 == Wrap(0)
  {
  }

  lemma NextFind(o: Origin, idx: seq<int>, finderIdx: int, i: nat)
    requires |idx| == |o.data| && HaveItems(o.info, o.nodes, |o.data|) && |o.nodes| >= 3
    ensures var f := FindsAfter(o, idx, finderIdx, i);
            var g := FindOnce(o, idx, f, i);
            FindsAfter(o, idx, finderIdx, i + 1) == g && g.want == (if f.want >= 0 then NextIdx(f.want) else f.want)
    ensures LastWanted(i + 1) == i % 256
  {
  }

  /** The data value of the last find, zero when there was none. */
  function LastWanted(n: nat): int {
    if n == 0 then 0 else (n - 1) % 256
  }

  /** The sort by computed value only touches low bytes and the order; afterwards every value is cached. */
  method SortByData(ar: Arena, list0: int, ghost o: Origin, ghost s: seq<nat>)
    returns (list: int, ghost t: seq<nat>)
    requires Kept(ar, o, list0, s) && |s| >= 2
    modifies ar`next, ar`data16, ar`crc
    ensures Kept(ar, o, list, t) && ByValue(ar.data16, ar.idx, o.info, s, t)
  {
    hide IsChain, DataKept, DataInv, Untouched, Belong;
    ghost var compared, next0, before;
    next0, before := ar.next, ar.data16;
    list, t, compared := CoreListMergesort(ar, ByData, list0, s);
    LinksKept(o, next0, ar.next, s);
    SortKeepsData(o, ByData, before, ar.data16, s, compared);
    SameMembers(o.nodes, t, 0);
    KeptItems(ar, o, list, t);
    AllCached(before, ar.data16, o.info, t, compared);
    hide SortedStable;
  }

  lemma KeptChain(ar: Arena, o: Origin, list: int, s: seq<nat>)
    requires Kept(ar, o, list, s)
    ensures ar.Valid() && ar.info == o.info && IsChain(ar.next, list, s) && |s| == |o.nodes|
    ensures Untouched(o.next, ar.next, o.nodes) && multiset(s) == multiset(o.nodes)
    ensures |s| >= 2 ==> s[1] == At(s, 1) && s[0] < |o.info| && o.info[s[0]] < |ar.data16|
  {
  }

  lemma KeptItems(ar: Arena, o: Origin, list: int, s: seq<nat>)
    requires Kept(ar, o, list, s)
    ensures HaveItems(o.info, s, |ar.data16|) && HaveItems(o.info, o.nodes, |ar.data16|)
    ensures |ar.idx| == |ar.data16| == |o.data| && |s| == |o.nodes|
  {
    ItemsKept(o.info, s, o.nodes, |ar.data16|);
  }

  /** `t` is `s` in stable order of the values, all of which are cached. */
  ghost predicate ByValue(data: seq<Word16>, idx: seq<int>, info: seq<nat>, s: seq<nat>, t: seq<nat>) {
    && |idx| == |data| && HaveItems(info, t, |data|) && multiset(t) == multiset(s)
    && SortedStable(ByData, data, idx, info, s, t)
    && forall k | 0 <= k < |t| :: Cached(data[info[t[k]]])
  }

  lemma AllCached(before: seq<Word16>, data: seq<Word16>, info: seq<nat>, t: seq<nat>, compared: set<nat>)
    requires DataInv(ByData, before, data, compared) && HaveItems(info, t, |data|)
    requires forall k | 0 <= k < |t| :: info[t[k]] in compared
    ensures forall k | 0 <= k < |t| :: Cached(data[info[t[k]]])
  {
  }

  // ----- the checksum over a list

  /** A checksum step with the same word, `n` times. */
  function Folded(step: (nat, nat) -> nat, v: nat, c: nat, n: nat): nat {
    if n == 0 then c else step(v, Folded(step, v, c, n - 1))
  }

  /** Walks to the end of the list from its node at place `k`, with one step on the word of the head for each node. */
  method CrcFrom(ar: Arena, list: int, from: int, value0: nat, ghost s: seq<nat>, ghost k: nat) returns (value: nat)
    requires ar.Valid() && IsChain(ar.next, list, s) && s != [] && k <= |s| && from == At(s, k)
    ensures list == s[0] && s[0] < |ar.info|
    ensures value == Folded(ar.crcStep, ar.data16[ar.info[s[0]]], value0, |s| - k)
  {
    value := value0;
    var finder := from;
    ghost var i := k;
    while finder != NULL
      invariant k <= i <= |s| && finder == At(s, i)
      invariant value == Folded(ar.crcStep, ar.data16[ar.info[s[0]]], value0, i - k)
      decreases |s| - i
    {
      value := ar.crcStep(ar.data16[ar.info[list]], value);
      finder := ar.next[finder];
      i := i + 1;
    }
  }

  /** Nodes from the one that is found in the list without its third node, or from the second node. */
  ghost function Remaining(data: seq<Word16>, idx: seq<int>, info: seq<nat>, s: seq<nat>, wantIdx: int, wantData: int): nat
    requires |s| >= 3 && |idx| == |data| && HaveItems(info, s, |data|)
  {
    var swapped, t := Swap(info, s[1], s[2]), Without(s, 2);
    SwappedItems(info, s, |data|);
    var k := FirstMatch(data, idx, swapped, t, wantIdx, wantData);
    if k == |t| then |t| - 1 else |t| - k
  }

  lemma SwappedItems(info: seq<nat>, s: seq<nat>, n: nat)
    requires |s| >= 3 && HaveItems(info, s, n)
    ensures HaveItems(Swap(info, s[1], s[2]), Without(s, 2), n)
  {
  }

  /** Removes the second item, searches what is left, folds the checksum from there on, and puts the item back. */
  method RemoveAndUndo(ar: Arena, list: int, wantIdx: int, wantData: int, value0: nat, ghost o: Origin, ghost s: seq<nat>)
    returns (value: nat)
    requires Kept(ar, o, list, s) && |s| >= 3 && HaveItems(o.info, s, |ar.data16|)
    modifies ar`next, ar`info
    ensures Kept(ar, o, list, s)
    ensures ar.next == old(ar.next)
    ensures value == Folded(ar.crcStep, ar.data16[o.info[s[0]]], value0,
                            Remaining(ar.data16, ar.idx, o.info, s, wantIdx, wantData))
  {
    hide *;
    KeptChain(ar, o, list, s);
    ghost var t, k := Without(s, 2), 0;
    RemovalFacts(ar.next, ar.info, list, s);
    SwappedItems(o.info, s, |ar.data16|);
    var item := ar.next[list];
    var remover := CoreListRemove(ar, item, list, s, 1);
    SecondFollows(ar.next, list, t);
    var finder;
    finder, k := CoreListFind(ar, list, wantIdx, wantData, t);
    FirstIs(ar.data16, ar.idx, ar.info, t, wantIdx, wantData, k);
    RemainingIs(ar.data16, ar.idx, o.info, s, wantIdx, wantData, k);
    if finder == NULL {
      finder, k := ar.next[list], 1;
    }
    value := CrcFrom(ar, list, finder, value0, t, k);
    item := ar.next[list];
    CoreListUndoRemove(ar, remover, item, list, t, 1);
    assert ar.next == old(ar.next) && ar.info == o.info;
  }

  lemma SecondFollows(next: seq<int>, list: int, s: seq<nat>)
    requires IsChain(next, list, s) && |s| >= 2
    ensures list == s[0] && s[0] < |next| && next[s[0]] == s[1] == At(s, 1)
  {
    assert next[s[0]] == Succ(s, 0);
  }

  /** What removing the second item touches, and that undoing it restores everything. */
  lemma RemovalFacts(next: seq<int>, info: seq<nat>, list: int, s: seq<nat>)
    requires IsChain(next, list, s) && |s| >= 3 && |info| == |next|
    ensures list == s[0] && next[s[0]] == s[1] && forall k | 0 <= k < |s| :: s[k] < |next|
    ensures var t := Without(s, 2); |t| == |s| - 1 && t[0] == s[0] && t[1] == s[1] && s[2] !in t
    ensures var n1, i1 := next[s[1] := next[s[2]]][s[2] := NULL], Swap(info, s[1], s[2]);
            |i1| == |info| && n1[s[2] := n1[s[1]]][s[1] := s[2]] == next && Swap(i1, s[2], s[1]) == info && i1[s[0]] == info[s[0]]
  {
    UndoRestores(next, info, s, list, 1);
    assert next[s[0]] == Succ(s, 0);
  }

  lemma FirstIs(data: seq<Word16>, idx: seq<int>, info: seq<nat>, s: seq<nat>, wantIdx: int, wantData: int, k: nat)
    requires |idx| == |data| && HaveItems(info, s, |data|) && k <= |s|
    requires k < |s| ==> Matches(data, idx, info[s[k]], wantIdx, wantData)
    requires forall u | 0 <= u < k :: !Matches(data, idx, info[s[u]], wantIdx, wantData)
    ensures FirstMatch(data, idx, info, s, wantIdx, wantData) == k && (At(s, k) == NULL <==> k == |s|)
  {
    assert k == FirstMatch(data, idx, info, s, wantIdx, wantData);
  }

  lemma RemainingIs(data: seq<Word16>, idx: seq<int>, info: seq<nat>, s: seq<nat>, wantIdx: int, wantData: int, k: nat)
    requires |s| >= 3 && |idx| == |data| && HaveItems(info, s, |data|) && s[1] < |info| && s[2] < |info|
    requires HaveItems(Swap(info, s[1], s[2]), Without(s, 2), |data|)
    requires FirstMatch(data, idx, Swap(info, s[1], s[2]), Without(s, 2), wantIdx, wantData) == k
    ensures |Without(s, 2)| == |s| - 1
    ensures Remaining(data, idx, info, s, wantIdx, wantData) == if k == |s| - 1 then |s| - 2 else |s| - 1 - k
  {
    hide FirstMatch, HaveItems, Swap;
  }

  ghost predicate IdxAscending(idx: seq<int>, info: seq<nat>, s: seq<nat>)
    requires forall k | 0 <= k < |s| :: s[k] < |info| && info[s[k]] < |idx|
  {
    forall u, v | 0 <= u < v < |s| :: idx[info[s[u]]] <= idx[info[s[v]]]
  }

  ghost predicate IdxDistinct(idx: seq<int>, info: seq<nat>, s: seq<nat>)
    requires forall k | 0 <= k < |s| :: s[k] < |info| && info[s[k]] < |idx|
  {
    forall u, v | 0 <= u < v < |s| :: idx[info[s[u]]] != idx[info[s[v]]]
  }

  /** Every low byte equals its backup. */
  ghost predicate Clean(data: seq<Word16>, info: seq<nat>, s: seq<nat>)
    requires forall k | 0 <= k < |s| :: s[k] < |info| && info[s[k]] < |data|
  {
    forall k | 0 <= k < |s| :: Low(data[info[s[k]]]) == High(data[info[s[k]]])
  }

  /** Two ascending arrangements of the same nodes with distinct indices are the same list. */
  lemma {:induction false} SortedUnique(idx: seq<int>, info: seq<nat>, s: seq<nat>, t: seq<nat>)
    requires multiset(s) == multiset(t)
    requires forall k | 0 <= k < |s| :: s[k] < |info| && info[s[k]] < |idx|
    requires forall k | 0 <= k < |t| :: t[k] < |info| && info[t[k]] < |idx|
    requires IdxAscending(idx, info, s) && IdxAscending(idx, info, t) && IdxDistinct(idx, info, s)
    ensures s == t
    decreases |s|
  {
    SameMembers(s, t, 0);
    if s != [] {
      HeadsEqual(idx, info, s, t);
      TailMultiset(s, t);
      TailAscends(idx, info, s);
      TailAscends(idx, info, t);
      SortedUnique(idx, info, s[1..], t[1..]);
      assert s == [s[0]] + s[1..] && t == [t[0]] + t[1..];
    }
  }

  lemma HeadsEqual(idx: seq<int>, info: seq<nat>, s: seq<nat>, t: seq<nat>)
    requires multiset(s) == multiset(t) && s != [] && t != []
    requires forall k | 0 <= k < |s| :: s[k] < |info| && info[s[k]] < |idx|
    requires forall k | 0 <= k < |t| :: t[k] < |info| && info[t[k]] < |idx|
    requires IdxAscending(idx, info, s) && IdxAscending(idx, info, t) && IdxDistinct(idx, info, s)
    ensures s[0] == t[0]
  {
    SameMembers(s, t, t[0]);
    SameMembers(s, t, s[0]);
    var i :| 0 <= i < |s| && s[i] == t[0];
    var j :| 0 <= j < |t| && t[j] == s[0];
    FirstIsLeast(idx, info, s, i);
    FirstIsLeast(idx, info, t, j);
  }

  lemma FirstIsLeast(idx: seq<int>, info: seq<nat>, s: seq<nat>, i: nat)
    requires i < |s| && forall k | 0 <= k < |s| :: s[k] < |info| && info[s[k]] < |idx|
    requires IdxAscending(idx, info, s)
    ensures idx[info[s[0]]] <= idx[info[s[i]]]
  {
    if i > 0 {
      assert idx[info[s[0]]] <= idx[info[s[i]]];
    }
  }

  lemma TailMultiset(s: seq<nat>, t: seq<nat>)
    requires multiset(s) == multiset(t) && s != [] && t != [] && s[0] == t[0]
    ensures multiset(s[1..]) == multiset(t[1..])
  {
    assert s == [s[0]] + s[1..] && t == [t[0]] + t[1..];
    assert multiset(s[1..]) == multiset(s) - multiset{s[0]};
    assert multiset(t[1..]) == multiset(t) - multiset{t[0]};
  }

  lemma TailAscends(idx: seq<int>, info: seq<nat>, s: seq<nat>)
    requires s != [] && forall k | 0 <= k < |s| :: s[k] < |info| && info[s[k]] < |idx|
    ensures forall k | 0 <= k < |s[1..]| :: s[1..][k] < |info| && info[s[1..][k]] < |idx|
    ensures IdxAscending(idx, info, s) ==> IdxAscending(idx, info, s[1..])
    ensures IdxDistinct(idx, info, s) ==> IdxDistinct(idx, info, s[1..])
  {
    var t := s[1..];
    assert forall k | 0 <= k < |t| :: t[k] == s[k + 1];
  }

  /** State after the pass, for every starting list. */
  ghost predicate Benched(idx: seq<int>, info: seq<nat>, data0: seq<Word16>, data: seq<Word16>, s0: seq<nat>, t: seq<nat>) {
    && |data| == |data0| == |idx| && multiset(t) == multiset(s0)
    && (forall k | 0 <= k < |s0| :: s0[k] < |info| && info[s0[k]] < |idx|)
    && (forall k | 0 <= k < |t| :: t[k] < |info| && info[t[k]] < |idx|)
    && IdxAscending(idx, info, t)
    && (forall k | 0 <= k < |t| :: data[info[t[k]]] == Regen(data0[info[t[k]]]))
  }

  ghost predicate SameData(info: seq<nat>, data0: seq<Word16>, data: seq<Word16>, s: seq<nat>)
    requires |data| == |data0| && forall k | 0 <= k < |s| :: s[k] < |info| && info[s[k]] < |data|
  {
    forall k | 0 <= k < |s| :: data[info[s[k]]] == data0[info[s[k]]]
  }

  /** With distinct indices, the list is back to its original state exactly when it started sorted and clean. */
  lemma RestorationExact(idx: seq<int>, info: seq<nat>, data0: seq<Word16>, data: seq<Word16>, s0: seq<nat>, t: seq<nat>)
    requires Benched(idx, info, data0, data, s0, t) && IdxDistinct(idx, info, s0)
    ensures t == s0 && SameData(info, data0, data, s0) <==> IdxAscending(idx, info, s0) && Clean(data0, info, s0)
  {
    if IdxAscending(idx, info, s0) {
      SortedUnique(idx, info, s0, t);
    }
    forall k | 0 <= k < |s0|
      ensures data[info[s0[k]]] == Regen(data0[info[s0[k]]])
      ensures Regen(data0[info[s0[k]]]) == data0[info[s0[k]]] <==> Low(data0[info[s0[k]]]) == High(data0[info[s0[k]]])
    {
      SameMembers(s0, t, s0[k]);
      var u :| 0 <= u < |t| && t[u] == s0[k];
      RegenFixed(data0[info[s0[k]]]);
    }
  }

  lemma RegenFixed(v: Word16)
    ensures Regen(v) == v <==> Low(v) == High(v)
  {
  }

  /** The final sort by index, restoring the data from the backups. */
  method SortByIdx(ar: Arena, list0: int, ghost o: Origin, ghost s: seq<nat>) returns (list: int, ghost t: seq<nat>)
    requires Kept(ar, o, list0, s) && |s| >= 2
    modifies ar`next, ar`data16, ar`crc
    ensures Kept(ar, o, list, t)
    ensures Benched(ar.idx, o.info, o.data, ar.data16, o.nodes, t) && Clean(ar.data16, o.info, t)
  {
    hide DataKept, DataInv, Untouched, Belong, SortedStable, IsChain, Benched, Clean;
    ghost var compared, next0, before;
    next0, before := ar.next, ar.data16;
    list, t, compared := CoreListMergesort(ar, ByIdx(true), list0, s);
    LinksKept(o, next0, ar.next, s);
    SortKeepsData(o, ByIdx(true), before, ar.data16, s, compared);
    SameMembers(o.nodes, t, 0);
    ByIdxIsOrderly(|ar.data16|);
    SortedByIdx(ar, o, before, s, t, list, compared);
    BenchedClean(ar.idx, o.info, o.data, ar.data16, o.nodes, t);
  }

  lemma ByIdxIsOrderly(n: nat)
    ensures Orderly(ByIdx(true), n)
  {
  }

  /** Sorting by index with restoration reaches every item, so every low byte is its backup again. */
  lemma BenchedClean(idx: seq<int>, info: seq<nat>, data0: seq<Word16>, data: seq<Word16>, s0: seq<nat>, t: seq<nat>)
    requires Benched(idx, info, data0, data, s0, t)
    ensures Clean(data, info, t)
  {
    forall k | 0 <= k < |t| ensures Low(data[info[t[k]]]) == High(data[info[t[k]]]) {
      RegenFixed(Regen(data0[info[t[k]]]));
    }
  }

  lemma SortedByIdx(ar: Arena, o: Origin, before: seq<Word16>, s: seq<nat>, t: seq<nat>, list: int, compared: set<nat>)
    requires ar.Valid() && ar.info == o.info && DataKept(o, before) && multiset(s) == multiset(o.nodes)
    requires DataInv(ByIdx(true), before, ar.data16, compared) && IsChain(ar.next, list, t) && multiset(t) == multiset(s)
    requires forall k | 0 <= k < |t| :: ar.info[t[k]] in compared
    requires SortedStable(ByIdx(true), ar.data16, ar.idx, ar.info, s, t)
    ensures Benched(ar.idx, o.info, o.data, ar.data16, o.nodes, t)
  {
    forall k | 0 <= k < |o.nodes| ensures o.nodes[k] < |o.info| && o.info[o.nodes[k]] < |ar.idx| {
      SameMembers(o.nodes, t, o.nodes[k]);
    }
    forall k | 0 <= k < |t| ensures ar.data16[o.info[t[k]]] == Regen(o.data[o.info[t[k]]]) {
      var d := o.info[t[k]];
      assert High(before[d]) == High(o.data[d]);
      assert ar.data16[d] == Regen(before[d]);
    }
  }

  /** A negative number of finds is none. */
  function Rounds(findNum: int): nat {
    if findNum > 0 then findNum else 0
  }

  /** The list and the data between the finds, with their sort, and the final sort. */
  datatype Middle = Middle(order: seq<nat>, data: seq<Word16>)

  /** The finds, and after them the stable sort by value exactly when the start index is positive. */
  ghost predicate IsMiddle(o: Origin, idx: seq<int>, finderIdx: int, findNum: nat, mid: Middle)
    requires |idx| == |o.data| && HaveItems(o.info, o.nodes, |o.data|) && |o.nodes| >= 3
  {
    var f := FindsAfter(o, idx, finderIdx, findNum);
    && |mid.data| == |o.data| && |mid.order| == |o.nodes| && HaveItems(o.info, mid.order, |mid.data|)
    && (if finderIdx > 0 then ByValue(mid.data, idx, o.info, f.order, mid.order)
        else mid.order == f.order && mid.data == o.data)
  }

  /** The first half of the pass. */
  method FindsAndSort(ar: Arena, list0: int, findNum: nat, finderIdx: int, ghost o: Origin)
    returns (list: int, wantIdx: int, wantData: int, value: nat, ghost mid: Middle)
    requires Kept(ar, o, list0, o.nodes) && ar.data16 == o.data && |o.nodes| >= 3 && HaveItems(o.info, o.nodes, |o.data|)
    modifies ar`next, ar`data16, ar`crc
    ensures Kept(ar, o, list, mid.order) && mid.data == ar.data16 && IsMiddle(o, ar.idx, finderIdx, findNum, mid)
    ensures var f := FindsAfter(o, ar.idx, finderIdx, findNum);
            && value == Wrap(f.bits + (f.found * 4 - f.missed))
            && wantIdx == f.want && wantData == LastWanted(findNum)
  {
    hide *;
    KeptItems(ar, o, list0, o.nodes);
    ghost var f;
    list, wantIdx, wantData, value, f := FindRounds(ar, list0, findNum, finderIdx, o);
    ghost var s := f.order;
    KeptItems(ar, o, list, s);
    if finderIdx > 0 {
      list, s := SortByData(ar, list, o, s);
      KeptItems(ar, o, list, s);
    }
    mid := Middle(s, ar.data16);
    MakeMiddle(o, ar.idx, finderIdx, findNum, mid);
  }

  lemma MakeMiddle(o: Origin, idx: seq<int>, finderIdx: int, findNum: nat, mid: Middle)
    requires |idx| == |o.data| && HaveItems(o.info, o.nodes, |o.data|) && |o.nodes| >= 3
    requires |mid.data| == |o.data| && |mid.order| == |o.nodes| && HaveItems(o.info, mid.order, |mid.data|)
    requires var f := FindsAfter(o, idx, finderIdx, findNum);
             if finderIdx > 0 then ByValue(mid.data, idx, o.info, f.order, mid.order)
             else mid.order == f.order && mid.data == o.data
    ensures IsMiddle(o, idx, finderIdx, findNum, mid)
  {
    hide FindsAfter, ByValue, HaveItems;
  }

  lemma MiddleValueIs(step: (nat, nat) -> nat, o: Origin, idx: seq<int>, finderIdx: int, findNum: nat, mid: Middle, f: Finds)
    requires |idx| == |o.data| && HaveItems(o.info, o.nodes, |o.data|) && |o.nodes| >= 3
    requires IsMiddle(o, idx, finderIdx, findNum, mid) && f == FindsAfter(o, idx, finderIdx, findNum)
    ensures |mid.data| == |o.data| && |mid.order| == |o.nodes| && HaveItems(o.info, mid.order, |mid.data|)
    ensures mid.order[0] < |o.info| && o.info[mid.order[0]] < |mid.data|
    ensures MiddleValue(step, o, idx, finderIdx, findNum, mid)
            == Folded(step, mid.data[o.info[mid.order[0]]], Wrap(f.bits + (f.found * 4 - f.missed)),
                      Remaining(mid.data, idx, o.info, mid.order, f.want, LastWanted(findNum)))
  {
    hide FindsAfter, ByValue, Folded, Remaining, Wrap, LastWanted;
  }

  /** The checksum before the final sort. */
  ghost function MiddleValue(step: (nat, nat) -> nat, o: Origin, idx: seq<int>, finderIdx: int, findNum: nat, mid: Middle): nat
    requires |idx| == |o.data| && HaveItems(o.info, o.nodes, |o.data|) && |o.nodes| >= 3
    requires IsMiddle(o, idx, finderIdx, findNum, mid)
  {
    var f := FindsAfter(o, idx, finderIdx, findNum);
    Folded(step, mid.data[o.info[mid.order[0]]], Wrap(f.bits + (f.found * 4 - f.missed)),
           Remaining(mid.data, idx, o.info, mid.order, f.want, LastWanted(findNum)))
  }

  /** All steps of a pass in order. */
  method PassSteps(ar: Arena, list0: int, findNum: nat, finderIdx: int, ghost o: Origin)
    returns (list: int, value: nat, ghost t: seq<nat>, ghost mid: Middle)
    requires Kept(ar, o, list0, o.nodes) && ar.data16 == o.data && |o.nodes| >= 3 && HaveItems(o.info, o.nodes, |o.data|)
    modifies ar`next, ar`info, ar`data16, ar`crc
    ensures Kept(ar, o, list, t) && Benched(ar.idx, o.info, o.data, ar.data16, o.nodes, t) && Clean(ar.data16, o.info, t)
    ensures |t| == |o.nodes| && HaveItems(o.info, t, |ar.data16|) && IsMiddle(o, ar.idx, finderIdx, findNum, mid)
    ensures value == Folded(ar.crcStep, ar.data16[o.info[t[0]]],
                            MiddleValue(ar.crcStep, o, ar.idx, finderIdx, findNum, mid), |t| - 1)
  {
    hide *;
    KeptItems(ar, o, list0, o.nodes);
    var wantIdx, wantData;
    list, wantIdx, wantData, value, mid := FindsAndSort(ar, list0, findNum, finderIdx, o);
    KeptItems(ar, o, list, mid.order);
    MiddleValueIs(ar.crcStep, o, ar.idx, finderIdx, findNum, mid, FindsAfter(o, ar.idx, finderIdx, findNum));
    value := RemoveAndUndo(ar, list, wantIdx, wantData, value, o, mid.order);
    list, t := SortByIdx(ar, list, o, mid.order);
    KeptItems(ar, o, list, t);
    KeptChain(ar, o, list, t);
    var second := SecondOf(ar, list, t);
    value := CrcFrom(ar, list, second, value, t, 1);
  }

  /**
   One benchmark pass. Whatever the list, it ends as the same nodes in index order, with the same
   data pointers and every low byte restored, and nothing outside the list is written;
   `RestorationExact` says when that is the original list. The checksum is that of the finds, of the
   list as they and the sort by value leave it, and of the final list.
   */
  method CoreBenchList(ar: Arena, list0: int, findNum: int, finderIdx: int, ghost s0: seq<nat>)
    returns (list: int, value: nat, ghost t: seq<nat>, ghost mid: Middle)
    requires ar.Valid() && IsChain(ar.next, list0, s0) && |s0| >= 3
    modifies ar`next, ar`info, ar`data16, ar`crc
    ensures ar.Valid() && ar.info == old(ar.info) && IsChain(ar.next, list, t)
    ensures Benched(ar.idx, old(ar.info), old(ar.data16), ar.data16, s0, t) && Clean(ar.data16, ar.info, t)
    ensures Untouched(old(ar.next), ar.next, s0)
    ensures forall d | 0 <= d < |ar.data16| && !HasItem(ar.info, s0, d) :: ar.data16[d] == old(ar.data16)[d]
    ensures IdxDistinct(ar.idx, old(ar.info), s0) && IdxAscending(ar.idx, old(ar.info), s0) && Clean(old(ar.data16), old(ar.info), s0)
            ==> ar.next == old(ar.next) && ar.data16 == old(ar.data16) && list == list0
    ensures HaveItems(old(ar.info), s0, |ar.data16|) && HaveItems(old(ar.info), t, |ar.data16|) && |t| == |s0|
    ensures var o := Origin(old(ar.next), old(ar.info), old(ar.data16), s0);
            && IsMiddle(o, ar.idx, finderIdx, Rounds(findNum), mid)
            && value == Folded(ar.crcStep, ar.data16[o.info[t[0]]],
                               MiddleValue(ar.crcStep, o, ar.idx, finderIdx, Rounds(findNum), mid), |t| - 1)
  {
    ghost var o := Origin(ar.next, ar.info, ar.data16, s0);
    hide Benched, Clean, IdxDistinct, IdxAscending, IsMiddle, MiddleValue, Folded, FindsAfter;
    KeptItems(ar, o, list0, s0);
    list, value, t, mid := PassSteps(ar, list0, Rounds(findNum), finderIdx, o);
    hide IsChain, Untouched;
    BenchedRanges(ar.idx, o.info, o.data, ar.data16, s0, t);
    if IdxDistinct(ar.idx, o.info, s0) && IdxAscending(ar.idx, o.info, s0) && Clean(o.data, o.info, s0) {
      RestorationExact(ar.idx, o.info, o.data, ar.data16, s0, t);
      AllRestored(ar, o, list0, list);
    }
  }

  lemma BenchedRanges(idx: seq<int>, info: seq<nat>, data0: seq<Word16>, data: seq<Word16>, s0: seq<nat>, t: seq<nat>)
    requires Benched(idx, info, data0, data, s0, t)
    ensures |data| == |data0| == |idx| && forall k | 0 <= k < |s0| :: s0[k] < |info| && info[s0[k]] < |idx|
    ensures forall k | 0 <= k < |t| :: t[k] < |info| && info[t[k]] < |idx|
  {
  }

  /** The same chain with the same data, and nothing else written: the whole arena is as before. */
  lemma AllRestored(ar: Arena, o: Origin, list0: int, list: int)
    requires Kept(ar, o, list, o.nodes) && IsChain(o.next, list0, o.nodes)
    requires forall k | 0 <= k < |o.nodes| :: o.nodes[k] < |o.info| && o.info[o.nodes[k]] < |o.data|
    requires SameData(o.info, o.data, ar.data16, o.nodes)
    ensures ar.next == o.next && ar.data16 == o.data && list == list0
  {
    forall n | 0 <= n < |ar.next| ensures ar.next[n] == o.next[n] {
      if n in o.nodes {
        var k :| 0 <= k < |o.nodes| && o.nodes[k] == n;
        assert ar.next[o.nodes[k]] == Succ(o.nodes, k) == o.next[o.nodes[k]];
      }
    }
    forall d | 0 <= d < |o.data| ensures ar.data16[d] == o.data[d] {
      if HasItem(o.info, o.nodes, d) {
        var n :| n in o.nodes && n < |o.info| && o.info[n] == d;
        var k :| 0 <= k < |o.nodes| && o.nodes[k] == n;
        assert ar.data16[o.info[o.nodes[k]]] == o.data[o.info[o.nodes[k]]];
      }
    }
  }
}
