/** The iterative bottom-up merge sort on linked nodes, with a comparator that may write the data. */
module MergeSort {
  import opened ListArena

  // ----- distinct nodes and rearrangements

  lemma {:induction false} AtMostOnce(s: seq<nat>, x: nat)
    requires Distinct(s)
    ensures multiset(s)[x] <= 1
  {
    if s != [] {
      var n := |s| - 1;
      AtMostOnce(s[..n], x);
      assert s == s[..n] + [s[n]];
      if s[n] == x {
        assert x !in s[..n];
      }
    }
  }

  /** A rearrangement of distinct nodes is distinct. */
  lemma SameDistinct(s: seq<nat>, t: seq<nat>)
    requires Distinct(s) && multiset(s) == multiset(t)
    ensures Distinct(t)
  {
    forall u, v | 0 <= u < v < |t| ensures t[u] != t[v] {
      if t[u] == t[v] {
        assert t == t[..u] + [t[u]] + t[u + 1..v] + [t[v]] + t[v + 1..];
        AtMostOnce(s, t[u]);
        assert false;
      }
    }
  }

  lemma SameMembers(s: seq<nat>, t: seq<nat>, x: nat)
    requires multiset(s) == multiset(t)
    ensures x in s <==> x in t
    ensures |s| == |t|
  {
    assert x in s <==> x in multiset(s);
    assert x in t <==> x in multiset(t);
    assert |s| == |multiset(s)| && |t| == |multiset(t)|;
  }

  // ----- links in the middle of a merge

  /** Nodes of `rest` still waiting: those of its first run from `i` on, and those from `la + j` on. */
  function Waiting(rest: seq<nat>, la: nat, i: nat, j: nat): seq<nat>
    requires i <= la && la + j <= |rest|
  {
    rest[i..la] + rest[la + j..]
  }

  predicate IsWaiting(rest: seq<nat>, la: nat, i: nat, j: nat, k: nat) {
    k < |rest| && (i <= k < la || la + j <= k)
  }

  /** Nodes `o` are linked in their new order; waiting nodes of `rest` keep their old links. */
  ghost predicate Linked(next: seq<int>, s: seq<nat>, o: seq<nat>, rest: seq<nat>, la: nat, i: nat, j: nat) {
    && i <= la && la + j <= |rest|
    && Distinct(s)
    && multiset(o + Waiting(rest, la, i, j)) == multiset(s)
    && (forall k | 0 <= k < |o| :: o[k] < |next|)
    && (forall k | 0 <= k < |rest| :: rest[k] < |next|)
    && (forall k {:trigger next[o[k]]} | 0 <= k < |o| - 1 :: next[o[k]] == o[k + 1])
    && (forall k {:trigger next[rest[k]]} | 0 <= k < |rest| && IsWaiting(rest, la, i, j, k) :: next[rest[k]] == Succ(rest, k))
  }

  /** `next` after appending node `e` behind `o`. */
  function Append(next: seq<int>, o: seq<nat>, e: nat): seq<int>
    requires o != [] ==> o[|o| - 1] < |next|
  {
    if o == [] then next else next[o[|o| - 1] := e]
  }

  lemma PlacedIsNotWaiting(o: seq<nat>, rest: seq<nat>, la: nat, i: nat, j: nat, t: nat, k: nat)
    requires i <= la && la + j <= |rest| && Distinct(o + Waiting(rest, la, i, j))
    requires t < |o| && IsWaiting(rest, la, i, j, k)
    ensures o[t] != rest[k]
  {
    var w := Waiting(rest, la, i, j);
    var u := if k < la then k - i else la - i + (k - (la + j));
    assert w[u] == rest[k];
    assert (o + w)[|o| + u] == rest[k] && (o + w)[t] == o[t];
  }

  /** Taking the next node of the first run (`k == i`) or of the second (`k == la + j`). */
  lemma TakeNode(next: seq<int>, s: seq<nat>, o: seq<nat>, rest: seq<nat>, la: nat, i: nat, j: nat, k: nat, i': nat, j': nat)
    requires Linked(next, s, o, rest, la, i, j)
    requires if i' == i then k == la + j < |rest| && j' == j + 1 else k == i < la && i' == i + 1 && j' == j
    ensures Linked(Append(next, o, rest[k]), s, o + [rest[k]], rest, la, i', j')
  {
    var e := rest[k];
    var next', o' := Append(next, o, e), o + [e];
    TakeBalance(o, rest, la, i, j, k, i', j');
    SameDistinct(s, o + Waiting(rest, la, i, j));
    if o != [] {
      var t := |o| - 1;
      forall u | 0 <= u < |rest| && IsWaiting(rest, la, i', j', u) ensures next'[rest[u]] == Succ(rest, u) {
        assert IsWaiting(rest, la, i, j, u);
        PlacedIsNotWaiting(o, rest, la, i, j, t, u);
      }
      forall u | 0 <= u < |o'| - 1 ensures next'[o'[u]] == o'[u + 1] {
        assert o'[u] == o[u];
        if u < t {
          var w := o + Waiting(rest, la, i, j);
          assert w[u] == o[u] && w[t] == o[t];
        }
      }
    } else {
      forall u | 0 <= u < |rest| && IsWaiting(rest, la, i', j', u) ensures next'[rest[u]] == Succ(rest, u) {
        assert IsWaiting(rest, la, i, j, u);
      }
    }
  }

  lemma TakeBalance(o: seq<nat>, rest: seq<nat>, la: nat, i: nat, j: nat, k: nat, i': nat, j': nat)
    requires i <= la && la + j <= |rest|
    requires if i' == i then k == la + j < |rest| && j' == j + 1 else k == i < la && i' == i + 1 && j' == j
    ensures multiset(o + [rest[k]] + Waiting(rest, la, i', j')) == multiset(o + Waiting(rest, la, i, j))
  {
    var front, back := rest[i'..la], rest[la + j'..];
    if i' == i {
      assert rest[la + j..] == [rest[k]] + back;
      Rearrange(o, [rest[k]], front, back);
    } else {
      assert rest[i..la] == [rest[k]] + front;
    }
  }

  lemma Rearrange(o: seq<nat>, x: seq<nat>, a: seq<nat>, b: seq<nat>)
    ensures multiset(o + x + (a + b)) == multiset(o + (a + (x + b)))
  {
  }

  // ----- order

  /**
   What orders nodes: their keys, their positions in the original list (to break ties), and
   whether they have been compared yet. With `ordered` false the comparator is arbitrary.
   */
  datatype Rank = Rank(key: seq<int>, pos: seq<nat>, done: seq<bool>, ordered: bool)

  ghost predicate RankOk(r: Rank, n: nat) {
    |r.key| == n && |r.pos| == n && |r.done| == n
  }

  ghost predicate InArena(s: seq<nat>, r: Rank) {
    RankOk(r, |r.key|) && forall k | 0 <= k < |s| :: s[k] < |r.key|
  }

  /** Strict order by key, then by original position: ascending means sorted and stable. */
  predicate Less(r: Rank, x: nat, y: nat)
    requires x < |r.key| && y < |r.key| && |r.pos| == |r.key|
  {
    r.key[x] < r.key[y] || (r.key[x] == r.key[y] && r.pos[x] < r.pos[y])
  }

  ghost predicate Ascending(r: Rank, s: seq<nat>)
    requires InArena(s, r)
  {
    forall u, v | 0 <= u < v < |s| :: Less(r, s[u], s[v])
  }

  ghost predicate AllDone(r: Rank, s: seq<nat>)
    requires InArena(s, r)
  {
    forall k | 0 <= k < |s| :: r.done[s[k]]
  }

  /** A finished run: at most one node, or all compared and in order. */
  ghost predicate RunOk(r: Rank, s: seq<nat>)
    requires InArena(s, r)
  {
    |s| <= 1 || (AllDone(r, s) && (r.ordered ==> Ascending(r, s)))
  }

  ghost predicate PosBefore(r: Rank, s: seq<nat>, t: seq<nat>)
    requires InArena(s, r) && InArena(t, r)
  {
    forall u, v | 0 <= u < |s| && 0 <= v < |t| :: r.pos[s[u]] < r.pos[t[v]]
  }

  /** More nodes have been compared; the keys of those compared before are unchanged. */
  ghost predicate Extends(r: Rank, r': Rank) {
    && RankOk(r, |r.key|) && RankOk(r', |r.key|)
    && r'.pos == r.pos && r'.ordered == r.ordered
    && (forall n | 0 <= n < |r.key| && r.done[n] :: r'.done[n] && r'.key[n] == r.key[n])
  }

  lemma RunExtends(r: Rank, r': Rank, s: seq<nat>)
    requires InArena(s, r) && RunOk(r, s) && Extends(r, r')
    ensures InArena(s, r') && RunOk(r', s)
  {
  }

  /** The list splits into finished runs of width `w`, in order of original position. */
  ghost predicate GoodRuns(r: Rank, s: seq<nat>, w: nat)
    requires InArena(s, r) && w > 0
    decreases |s|
  {
    if |s| <= w then RunOk(r, s)
    else RunOk(r, s[..w]) && PosBefore(r, s[..w], s[w..]) && GoodRuns(r, s[w..], w)
  }

  /** The same with every run full. */
  ghost predicate FullRuns(r: Rank, s: seq<nat>, w: nat)
    requires InArena(s, r) && w > 0
    decreases |s|
  {
    s == [] || (|s| >= w && RunOk(r, s[..w]) && PosBefore(r, s[..w], s[w..]) && FullRuns(r, s[w..], w))
  }

  lemma {:induction false} GoodExtends(r: Rank, r': Rank, s: seq<nat>, w: nat)
    requires InArena(s, r) && w > 0 && GoodRuns(r, s, w) && Extends(r, r')
    ensures InArena(s, r') && GoodRuns(r', s, w)
    decreases |s|
  {
    if |s| <= w {
      RunExtends(r, r', s);
    } else {
      RunExtends(r, r', s[..w]);
      GoodExtends(r, r', s[w..], w);
    }
  }

  lemma {:induction false} FullExtends(r: Rank, r': Rank, s: seq<nat>, w: nat)
    requires InArena(s, r) && w > 0 && FullRuns(r, s, w) && Extends(r, r')
    ensures InArena(s, r') && FullRuns(r', s, w)
    decreases |s|
  {
    if s != [] {
      RunExtends(r, r', s[..w]);
      FullExtends(r, r', s[w..], w);
    }
  }

  lemma ConsRun(r: Rank, a: seq<nat>, b: seq<nat>, w: nat)
    requires InArena(a, r) && InArena(b, r) && w > 0 && |a| == w && RunOk(r, a) && PosBefore(r, a, b)
    ensures InArena(a + b, r)
    ensures b != [] && GoodRuns(r, b, w) ==> GoodRuns(r, a + b, w)
    ensures FullRuns(r, b, w) ==> FullRuns(r, a + b, w)
  {
    hide PosBefore, RunOk;
    assert (a + b)[..w] == a && (a + b)[w..] == b;
  }

  lemma SplitRun(r: Rank, s: seq<nat>, w: nat)
    requires InArena(s, r) && w > 0 && s != [] && FullRuns(r, s, w)
    ensures |s| >= w && InArena(s[..w], r) && InArena(s[w..], r) && s == s[..w] + s[w..]
    ensures RunOk(r, s[..w]) && PosBefore(r, s[..w], s[w..]) && FullRuns(r, s[w..], w)
  {
    hide PosBefore, RunOk;
  }

  lemma OneRun(r: Rank, t: seq<nat>, w: nat)
    requires InArena(t, r) && w > 0 && RunOk(r, t) && 0 < |t| <= w
    ensures GoodRuns(r, t, w) && (|t| == w ==> FullRuns(r, t, w))
  {
    if |t| == w {
      assert t[..w] == t && t[w..] == [];
    }
  }

  lemma {:induction false} AppendRun(r: Rank, s: seq<nat>, t: seq<nat>, w: nat)
    requires InArena(s, r) && InArena(t, r) && w > 0 && FullRuns(r, s, w)
    requires RunOk(r, t) && 0 < |t| <= w && PosBefore(r, s, t)
    ensures InArena(s + t, r) && GoodRuns(r, s + t, w)
    ensures |t| == w ==> FullRuns(r, s + t, w)
    decreases |s|
  {
    hide PosBefore, RunOk, GoodRuns, FullRuns;
    if s == [] {
      assert s + t == t;
      OneRun(r, t, w);
    } else {
      SplitRun(r, s, w);
      var a, b := s[..w], s[w..];
      BeforeSum(r, a, b, t);
      AppendRun(r, b, t, w);
      ConsRun(r, a, b + t, w);
      assert s + t == a + (b + t);
    }
  }

  lemma BeforeSum(r: Rank, a: seq<nat>, b: seq<nat>, t: seq<nat>)
    requires InArena(a, r) && InArena(b, r) && InArena(t, r)
    requires PosBefore(r, a, b) && PosBefore(r, a + b, t)
    ensures InArena(b + t, r) && PosBefore(r, a, b + t) && PosBefore(r, b, t)
  {
    var ab, bt := a + b, b + t;
    forall u, v | 0 <= u < |a| && 0 <= v < |bt| ensures r.pos[a[u]] < r.pos[bt[v]] {
      assert a[u] == ab[u];
    }
    forall u, v | 0 <= u < |b| && 0 <= v < |t| ensures r.pos[b[u]] < r.pos[t[v]] {
      assert b[u] == ab[|a| + u];
    }
  }

  // ----- order in the middle of a merge

  ghost predicate Under(r: Rank, mr: seq<nat>, s: seq<nat>)
    requires InArena(mr, r) && InArena(s, r)
  {
    forall u, v | 0 <= u < |mr| && 0 <= v < |s| :: Less(r, mr[u], s[v])
  }

  /** Runs `a` and `b` are being merged into `mr`; `i` and `j` of their nodes have been taken. */
  ghost predicate Merging(r: Rank, mr: seq<nat>, a: seq<nat>, b: seq<nat>, i: nat, j: nat) {
    && InArena(mr, r) && InArena(a, r) && InArena(b, r)
    && a != [] && i <= |a| && j <= |b| && |mr| == i + j
    && RunOk(r, a) && RunOk(r, b) && PosBefore(r, a, b)
    && multiset(mr) == multiset(a[..i]) + multiset(b[..j])
    && (b == [] ==> mr == a[..i])
    && (b != [] && mr != [] ==> AllDone(r, a) && AllDone(r, b))
    && (b != [] && r.ordered ==> Ascending(r, mr) && Under(r, mr, a[i..]) && Under(r, mr, b[j..]))
  }

  lemma MergingStart(r: Rank, a: seq<nat>, b: seq<nat>)
    requires InArena(a, r) && InArena(b, r) && a != [] && RunOk(r, a) && RunOk(r, b) && PosBefore(r, a, b)
    ensures Merging(r, [], a, b, 0, 0)
  {
  }

  lemma MergingExtends(r: Rank, r': Rank, mr: seq<nat>, a: seq<nat>, b: seq<nat>, i: nat, j: nat)
    requires Merging(r, mr, a, b, i, j) && Extends(r, r') && i < |a| && j < |b|
    requires r'.done[a[i]] && r'.done[b[j]]
    ensures Merging(r', mr, a, b, i, j) && AllDone(r', a) && AllDone(r', b)
  {
    RunExtends(r, r', a);
    RunExtends(r, r', b);
    AllCompared(r', a, i);
    AllCompared(r', b, j);
    if mr != [] {
      MembersDone(r, mr, a, b, i, j);
    }
  }

  lemma AllCompared(r: Rank, s: seq<nat>, i: nat)
    requires InArena(s, r) && RunOk(r, s) && i < |s| && r.done[s[i]]
    ensures AllDone(r, s)
  {
  }

  lemma MembersDone(r: Rank, mr: seq<nat>, a: seq<nat>, b: seq<nat>, i: nat, j: nat)
    requires Merging(r, mr, a, b, i, j) && AllDone(r, a) && AllDone(r, b)
    ensures AllDone(r, mr)
  {
    forall k | 0 <= k < |mr| ensures r.done[mr[k]] {
      assert mr[k] in multiset(mr);
      if mr[k] in a[..i] {
      } else {
        assert mr[k] in b[..j];
      }
    }
  }

  /** The smaller head is under everything that waits. */
  lemma HeadUnder(r: Rank, a: seq<nat>, i: nat, e: nat)
    requires InArena(a, r) && r.ordered && RunOk(r, a) && i < |a| && e < |r.key|
    requires e == a[i] || Less(r, e, a[i])
    ensures forall v | i < v < |a| :: Less(r, e, a[v])
    ensures e != a[i] ==> forall v | i <= v < |a| :: Less(r, e, a[v])
  {
    forall v | i < v < |a| ensures Less(r, e, a[v]) {
      assert Less(r, a[i], a[v]);
    }
  }

  lemma TakeA(r: Rank, mr: seq<nat>, a: seq<nat>, b: seq<nat>, i: nat, j: nat)
    requires Merging(r, mr, a, b, i, j) && i < |a|
    requires b != [] ==> AllDone(r, a) && AllDone(r, b) && (r.ordered && j < |b| ==> Less(r, a[i], b[j]))
    ensures Merging(r, mr + [a[i]], a, b, i + 1, j)
  {
    var e, mr' := a[i], mr + [a[i]];
    assert a[..i + 1] == a[..i] + [e];
    if b != [] && r.ordered {
      assert a[i..][0] == e;
      HeadUnder(r, a, i, e);
      if j < |b| {
        HeadUnder(r, b, j, e);
      }
      var tail := a[i + 1..];
      forall u, v | 0 <= u < |mr'| && 0 <= v < |tail| ensures Less(r, mr'[u], tail[v]) {
        assert tail[v] == a[i..][v + 1] == a[i + 1 + v];
      }
      forall u, v | 0 <= u < |mr'| && 0 <= v < |b[j..]| ensures Less(r, mr'[u], b[j..][v]) {
        assert b[j..][v] == b[j + v];
      }
    }
  }

  lemma TakeB(r: Rank, mr: seq<nat>, a: seq<nat>, b: seq<nat>, i: nat, j: nat)
    requires Merging(r, mr, a, b, i, j) && j < |b|
    requires AllDone(r, a) && AllDone(r, b) && (r.ordered && i < |a| ==> Less(r, b[j], a[i]))
    ensures Merging(r, mr + [b[j]], a, b, i, j + 1)
  {
    var e, mr' := b[j], mr + [b[j]];
    assert b[..j + 1] == b[..j] + [e];
    if r.ordered {
      assert b[j..][0] == e;
      HeadUnder(r, b, j, e);
      if i < |a| {
        HeadUnder(r, a, i, e);
      }
      var tail := b[j + 1..];
      forall u, v | 0 <= u < |mr'| && 0 <= v < |tail| ensures Less(r, mr'[u], tail[v]) {
        assert tail[v] == b[j..][v + 1] == b[j + 1 + v];
      }
      forall u, v | 0 <= u < |mr'| && 0 <= v < |a[i..]| ensures Less(r, mr'[u], a[i..][v]) {
        assert a[i..][v] == a[i + v];
      }
    }
  }

  lemma MergingEnd(r: Rank, mr: seq<nat>, a: seq<nat>, b: seq<nat>)
    requires Merging(r, mr, a, b, |a|, |b|)
    ensures RunOk(r, mr) && multiset(mr) == multiset(a + b)
  {
    assert a[..|a|] == a && b[..|b|] == b;
    if b != [] {
      MembersDone(r, mr, a, b, |a|, |b|);
    }
  }

  // ----- ranks of the arena

  ghost function RankOf(cmp: Cmp, data: seq<Word16>, idx: seq<int>, info: seq<nat>, pos: seq<nat>, compared: set<nat>): (r: Rank)
    requires |idx| == |data| && |pos| == |info| && forall n | 0 <= n < |info| :: info[n] < |data|
    ensures RankOk(r, |info|)
  {
    Rank(seq(|info|, n requires 0 <= n < |info| => Key(cmp, data, idx, info[n])), pos,
         seq(|info|, n requires 0 <= n < |info| => info[n] in compared), Orderly(cmp, |data|))
  }

  lemma RankExtends(cmp: Cmp, data: seq<Word16>, data': seq<Word16>, idx: seq<int>, info: seq<nat>, pos: seq<nat>,
                    compared: set<nat>, compared': set<nat>)
    requires |idx| == |data| == |data'| && |pos| == |info| && forall n | 0 <= n < |info| :: info[n] < |data|
    requires compared <= compared'
    requires forall d | d in compared && d < |data| :: Key(cmp, data', idx, d) == Key(cmp, data, idx, d)
    ensures Extends(RankOf(cmp, data, idx, info, pos, compared), RankOf(cmp, data', idx, info, pos, compared'))
  {
  }

  // ----- the sort

  function Last(s: seq<nat>): int {
    if s == [] then NULL else s[|s| - 1]
  }

  function At(s: seq<nat>, k: nat): int {
    if k < |s| then s[k] else NULL
  }

  function RunLength(n: nat, w: nat): nat {
    if n < w then n else w
  }

  ghost predicate Ready(a: Arena, pos: seq<nat>)
    reads a
  {
    a.Valid() && |pos| == |a.info|
  }

  ghost function RankNow(a: Arena, cmp: Cmp, pos: seq<nat>, compared: set<nat>): Rank
    requires Ready(a, pos)
    reads a
  {
    RankOf(cmp, a.data16, a.idx, a.info, pos, compared)
  }

  /** Steps at most `w` nodes along from `p`. */
  method FindSecondRun(a: Arena, p: int, w: nat, ghost s: seq<nat>, ghost out: seq<nat>, ghost rest: seq<nat>)
    returns (q: int, psize: nat)
    requires w > 0 && rest != [] && p == rest[0] && Linked(a.next, s, out, rest, |rest|, 0, 0)
    ensures psize == RunLength(|rest|, w) && q == At(rest, psize)
  {
    q := p;
    psize := 0;
    while psize < w
      invariant psize <= w && psize < |rest| && q == rest[psize]
    {
      assert IsWaiting(rest, |rest|, 0, 0, psize);
      psize := psize + 1;
      q := a.next[q];
      if q == NULL {
        break;
      }
    }
  }

  /** The two runs being merged, as slices of the rest of the list. */
  ghost function RunA(rest: seq<nat>, la: nat): seq<nat>
    requires la <= |rest|
  {
    rest[..la]
  }

  ghost function RunB(rest: seq<nat>, la: nat, lb: nat): seq<nat>
    requires la + lb <= |rest|
  {
    rest[la..la + lb]
  }

  /** Which node comes next: from the first run (`true`) or from the second. */
  ghost predicate Chosen(rest: seq<nat>, la: nat, lb: nat, i: nat, j: nat, fromA: bool, e: int) {
    if fromA then i < la <= |rest| && e == rest[i] else j < lb && la + lb <= |rest| && e == rest[la + j]
  }

  lemma ExhaustedTakes(r: Rank, mr: seq<nat>, a: seq<nat>, b: seq<nat>, i: nat, j: nat)
    requires Merging(r, mr, a, b, i, j)
    ensures i == |a| && j < |b| ==> Merging(r, mr + [b[j]], a, b, i, j + 1)
    ensures i < |a| && j == |b| ==> Merging(r, mr + [a[i]], a, b, i + 1, j)
  {
    if i == |a| && j < |b| {
      TakeB(r, mr, a, b, i, j);
    } else if i < |a| && j == |b| {
      TakeA(r, mr, a, b, i, j);
    }
  }

  lemma ComparedTakes(r: Rank, r': Rank, mr: seq<nat>, a: seq<nat>, b: seq<nat>, i: nat, j: nat, c: int)
    requires Merging(r, mr, a, b, i, j) && Extends(r, r') && i < |a| && j < |b|
    requires a[i] < |r'.key| && b[j] < |r'.key| && r'.done[a[i]] && r'.done[b[j]]
    requires r'.ordered ==> (c <= 0 <==> r'.key[a[i]] <= r'.key[b[j]])
    ensures c <= 0 ==> Merging(r', mr + [a[i]], a, b, i + 1, j)
    ensures c > 0 ==> Merging(r', mr + [b[j]], a, b, i, j + 1)
  {
    MergingExtends(r, r', mr, a, b, i, j);
    assert r'.pos[a[i]] < r'.pos[b[j]];
    if c <= 0 {
      TakeA(r', mr, a, b, i, j);
    } else {
      TakeB(r', mr, a, b, i, j);
    }
  }

  /** Data item `d` belongs to a node of `s`. */
  ghost predicate HasItem(info: seq<nat>, s: seq<nat>, d: nat) {
    exists n :: n in s && n < |info| && info[n] == d
  }

  /** Only items of the list have been compared. */
  ghost predicate Belong(info: seq<nat>, s: seq<nat>, compared: set<nat>) {
    forall d | d in compared :: HasItem(info, s, d)
  }

  lemma BelongMore(info: seq<nat>, s: seq<nat>, compared: set<nat>, p: nat, q: nat)
    requires Belong(info, s, compared) && p in s && q in s && p < |info| && q < |info|
    ensures Belong(info, s, compared + {info[p], info[q]})
  {
  }

  lemma BelongSame(info: seq<nat>, s: seq<nat>, t: seq<nat>, compared: set<nat>)
    requires Belong(info, s, compared) && multiset(s) == multiset(t)
    ensures Belong(info, t, compared)
  {
    forall d | d in compared ensures HasItem(info, t, d) {
      var n :| n in s && n < |info| && info[n] == d;
      SameMembers(s, t, n);
    }
  }

  // ----- one merge

  /** What a merge or a pass starts from: nodes and positions of the list, data words before the sort, rank and links. */
  datatype Start = Start(s: seq<nat>, pos: seq<nat>, before: seq<Word16>, rank: Rank, next: seq<int>)

  /** A merge under way: of the runs of `la` and `lb` nodes at the head of `rest`, `i` and `j` are taken into `mr`. */
  datatype Merge = Merge(out: seq<nat>, rest: seq<nat>, la: nat, lb: nat, i: nat, j: nat, mr: seq<nat>, compared: set<nat>)

  function Took(g: Merge, fromA: bool, e: nat, compared: set<nat>): Merge {
    g.(i := if fromA then g.i + 1 else g.i, j := if fromA then g.j else g.j + 1, mr := g.mr + [e], compared := compared)
  }

  /** Everything the merge loop keeps. */
  ghost predicate MergeInv(ar: Arena, cmp: Cmp, z: Start, g: Merge)
    reads ar
  {
    && g.la + g.lb <= |g.rest| && g.i <= g.la && g.j <= g.lb
    && Ready(ar, z.pos) && DataInv(cmp, z.before, ar.data16, g.compared) && Belong(ar.info, z.s, g.compared)
    && Linked(ar.next, z.s, g.out + g.mr, g.rest, g.la, g.i, g.j) && Untouched(z.next, ar.next, z.s)
    && Merging(RankNow(ar, cmp, z.pos, g.compared), g.mr, RunA(g.rest, g.la), RunB(g.rest, g.la, g.lb), g.i, g.j)
    && Extends(z.rank, RankNow(ar, cmp, z.pos, g.compared))
  }

  /** `p` and `q` are the heads of what is left of the two runs; behind a run stands what follows it. */
  predicate AtHeads(g: Merge, p: int, q: int) {
    p == At(g.rest, g.i) && q == At(g.rest, g.la + g.j)
  }

  /** Both heads of a merge are at hand, and one of them is there. */
  ghost predicate Heads(g: Merge, p: int, q: int, psize: nat, qsize: nat) {
    && psize == g.la - g.i && (qsize > 0 && q != NULL <==> g.j < g.lb) && (psize > 0 || (qsize > 0 && q != NULL))
    && AtHeads(g, p, q)
  }

  /** The order facts of a merge, and its two heads as nodes of the list. */
  ghost predicate Comparing(ar: Arena, cmp: Cmp, z: Start, g: Merge)
    reads ar
  {
    && g.la + g.lb <= |g.rest| && g.i <= g.la && g.j <= g.lb
    && Ready(ar, z.pos) && DataInv(cmp, z.before, ar.data16, g.compared) && Belong(ar.info, z.s, g.compared)
    && Merging(RankNow(ar, cmp, z.pos, g.compared), g.mr, RunA(g.rest, g.la), RunB(g.rest, g.la, g.lb), g.i, g.j)
    && (g.i < g.la ==> g.rest[g.i] in z.s) && (g.j < g.lb ==> g.rest[g.la + g.j] in z.s)
  }

  /** Compares the two heads. */
  method CompareHeads(ar: Arena, cmp: Cmp, p: int, q: int, ghost z: Start, ghost g: Merge)
    returns (c: int, ghost compared: set<nat>)
    requires Comparing(ar, cmp, z, g) && g.i < g.la && g.j < g.lb && p == g.rest[g.i] && q == g.rest[g.la + g.j]
    modifies ar`data16, ar`crc
    ensures Ready(ar, z.pos) && DataInv(cmp, z.before, ar.data16, compared) && g.compared <= compared
    ensures Extends(old(RankNow(ar, cmp, z.pos, g.compared)), RankNow(ar, cmp, z.pos, compared)) && Belong(ar.info, z.s, compared)
    ensures var a, b, r := RunA(g.rest, g.la), RunB(g.rest, g.la, g.lb), RankNow(ar, cmp, z.pos, compared);
            if c <= 0 then Merging(r, g.mr + [g.rest[g.i]], a, b, g.i + 1, g.j)
            else Merging(r, g.mr + [g.rest[g.la + g.j]], a, b, g.i, g.j + 1)
  {
    hide DataInv, Merging, Key, Belong, Extends;
    ghost var a, b, r := RunA(g.rest, g.la), RunB(g.rest, g.la, g.lb), RankNow(ar, cmp, z.pos, g.compared);
    MergingSizes(r, g.mr, a, b, g.i, g.j);
    assert a[g.i] == p && b[g.j] == q;
    hide RunA, RunB;
    ghost var data := ar.data16;
    c := ar.Compare(cmp, ar.info[p], ar.info[q], z.before, g.compared);
    BelongMore(ar.info, z.s, g.compared, p, q);
    compared := g.compared + {ar.info[p], ar.info[q]};
    RankExtends(cmp, data, ar.data16, ar.idx, ar.info, z.pos, g.compared, compared);
    ComparedTakes(r, RankNow(ar, cmp, z.pos, compared), g.mr, a, b, g.i, g.j, c);
  }

  lemma RankRefl(ar: Arena, cmp: Cmp, pos: seq<nat>, compared: set<nat>)
    requires Ready(ar, pos)
    ensures Extends(RankNow(ar, cmp, pos, compared), RankNow(ar, cmp, pos, compared))
  {
    ExtendsRefl(RankNow(ar, cmp, pos, compared));
  }

  /** Decides which run the next node of the merge comes from, comparing the two heads if both have one. */
  method Choose(ar: Arena, cmp: Cmp, p: int, q: int, psize: nat, qsize: nat, ghost z: Start, ghost g: Merge)
    returns (fromA: bool, e: int, ghost compared: set<nat>)
    requires Comparing(ar, cmp, z, g) && Heads(g, p, q, psize, qsize)
    modifies ar`data16, ar`crc
    ensures Ready(ar, z.pos) && DataInv(cmp, z.before, ar.data16, compared) && g.compared <= compared
    ensures Extends(old(RankNow(ar, cmp, z.pos, g.compared)), RankNow(ar, cmp, z.pos, compared))
    ensures Chosen(g.rest, g.la, g.lb, g.i, g.j, fromA, e) && Belong(ar.info, z.s, compared)
    ensures e >= 0 && Merging(RankNow(ar, cmp, z.pos, compared), g.mr + [e], RunA(g.rest, g.la), RunB(g.rest, g.la, g.lb),
                              if fromA then g.i + 1 else g.i, if fromA then g.j else g.j + 1)
  {
    hide DataInv, Merging, Key, Belong, Extends, RankOf;
    RankRefl(ar, cmp, z.pos, g.compared);
    ghost var a, b, r := RunA(g.rest, g.la), RunB(g.rest, g.la, g.lb), RankNow(ar, cmp, z.pos, g.compared);
    assert g.j < g.lb ==> b[g.j] == g.rest[g.la + g.j];
    compared := g.compared;
    if psize == 0 {
      fromA, e := false, q;
      ExhaustedTakes(r, g.mr, a, b, g.i, g.j);
    } else if qsize == 0 || q == NULL {
      fromA, e := true, p;
      ExhaustedTakes(r, g.mr, a, b, g.i, g.j);
    } else {
      var c;
      c, compared := CompareHeads(ar, cmp, p, q, z, g);
      fromA, e := c <= 0, if c <= 0 then p else q;
    }
  }

  lemma MergingSizes(r: Rank, mr: seq<nat>, a: seq<nat>, b: seq<nat>, i: nat, j: nat)
    requires Merging(r, mr, a, b, i, j)
    ensures InArena(a, r) && InArena(b, r)
  {
  }

  lemma ExtendsTrans(r0: Rank, r1: Rank, r2: Rank)
    requires Extends(r0, r1) && Extends(r1, r2)
    ensures Extends(r0, r2)
  {
  }

  lemma ExtendsRefl(r: Rank)
    requires RankOk(r, |r.key|)
    ensures Extends(r, r)
  {
  }

  /** Links read from the heads of the two runs. */
  lemma HeadLinks(next: seq<int>, s: seq<nat>, o: seq<nat>, rest: seq<nat>, la: nat, lb: nat, i: nat, j: nat)
    requires Linked(next, s, o, rest, la, i, j) && la + lb <= |rest|
    ensures i < la ==> rest[i] < |next| && next[rest[i]] == At(rest, i + 1)
    ensures j < lb ==> rest[la + j] < |next| && next[rest[la + j]] == At(rest, la + (j + 1))
    ensures (i < la ==> rest[i] in s) && (j < lb ==> rest[la + j] in s)
    ensures o != [] ==> Last(o) < |next| && Last(o) in s
  {
    var w := o + Waiting(rest, la, i, j);
    if o != [] {
      assert w[|o| - 1] == Last(o);
      SameMembers(s, w, Last(o));
    }
    if i < la {
      assert IsWaiting(rest, la, i, j, i);
      assert w[|o|] == rest[i];
      SameMembers(s, w, rest[i]);
    }
    if j < lb {
      assert IsWaiting(rest, la, i, j, la + j);
      assert w[|o| + (la - i)] == rest[la + j];
      SameMembers(s, w, rest[la + j]);
    }
  }

  /** Nodes outside the list keep their links. */
  ghost predicate Untouched(next0: seq<int>, next: seq<int>, s: seq<nat>) {
    |next| == |next0| && forall n | 0 <= n < |next| && n !in s :: next[n] == next0[n]
  }

  /** Adds node `e` to the list whose nodes are `o`. */
  method AppendNode(ar: Arena, list0: int, tail0: int, e: nat, ghost o: seq<nat>, ghost s: seq<nat>) returns (list: int, tail: int)
    requires list0 == Head(o) && tail0 == Last(o) && (o != [] ==> Last(o) < |ar.next| && Last(o) in s)
    modifies ar`next
    ensures ar.next == Append(old(ar.next), o, e) && Untouched(old(ar.next), ar.next, s)
    ensures list == Head(o + [e]) && tail == Last(o + [e])
  {
    list := list0;
    if tail0 != NULL {
      ar.next := ar.next[tail0 := e];
    } else {
      list := e;
    }
    tail := e;
  }

  lemma MergeNext(ar: Arena, cmp: Cmp, z: Start, g: Merge, fromA: bool, e: nat, g': Merge)
    requires g' == Took(g, fromA, e, g'.compared) && Chosen(g.rest, g.la, g.lb, g.i, g.j, fromA, e)
    requires g.la + g.lb <= |g.rest| && g.i <= g.la && g.j <= g.lb
    requires Ready(ar, z.pos) && DataInv(cmp, z.before, ar.data16, g'.compared) && Belong(ar.info, z.s, g'.compared)
    requires Linked(ar.next, z.s, g.out + g.mr + [e], g.rest, g.la, g'.i, g'.j) && Untouched(z.next, ar.next, z.s)
    requires Merging(RankNow(ar, cmp, z.pos, g'.compared), g.mr + [e], RunA(g.rest, g.la), RunB(g.rest, g.la, g.lb), g'.i, g'.j)
    requires Extends(z.rank, RankNow(ar, cmp, z.pos, g'.compared))
    ensures MergeInv(ar, cmp, z, g')
  {
    hide Merging, DataInv, Extends, Linked, RankOf, RunA, RunB, Belong, Untouched;
    assert g.out + g.mr + [e] == g.out + g'.mr;
  }

  /** The merge loop's invariant holds what choosing needs. */
  lemma MergeParts(ar: Arena, cmp: Cmp, z: Start, g: Merge)
    requires MergeInv(ar, cmp, z, g)
    ensures g.la + g.lb <= |g.rest| && g.i <= g.la && g.j <= g.lb && Comparing(ar, cmp, z, g)
    ensures Linked(ar.next, z.s, g.out + g.mr, g.rest, g.la, g.i, g.j) && Untouched(z.next, ar.next, z.s)
    ensures Ready(ar, z.pos) && Extends(z.rank, RankNow(ar, cmp, z.pos, g.compared))
  {
    hide Merging, DataInv, Extends, Linked, RankOf, RunA, RunB, Belong, Untouched;
    HeadLinks(ar.next, z.s, g.out + g.mr, g.rest, g.la, g.lb, g.i, g.j);
  }

  lemma TakeFirst(next: seq<int>, s: seq<nat>, o: seq<nat>, g: Merge)
    requires Linked(next, s, o, g.rest, g.la, g.i, g.j) && g.i < g.la <= |g.rest|
    ensures g.rest[g.i] < |next| && next[g.rest[g.i]] == At(g.rest, g.i + 1)
    ensures Linked(Append(next, o, g.rest[g.i]), s, o + [g.rest[g.i]], g.rest, g.la, g.i + 1, g.j)
  {
    hide Linked, Append, At;
    HeadLinks(next, s, o, g.rest, g.la, 0, g.i, g.j);
    TakeNode(next, s, o, g.rest, g.la, g.i, g.j, g.i, g.i + 1, g.j);
  }

  lemma TakeSecond(next: seq<int>, s: seq<nat>, o: seq<nat>, g: Merge)
    requires Linked(next, s, o, g.rest, g.la, g.i, g.j) && g.j < g.lb && g.la + g.lb <= |g.rest|
    ensures var k := g.la + g.j;
            && g.rest[k] < |next| && next[g.rest[k]] == At(g.rest, g.la + (g.j + 1))
            && Linked(Append(next, o, g.rest[k]), s, o + [g.rest[k]], g.rest, g.la, g.i, g.j + 1)
  {
    hide Linked, Append, At;
    HeadLinks(next, s, o, g.rest, g.la, g.lb, g.i, g.j);
    TakeNode(next, s, o, g.rest, g.la, g.i, g.j, g.la + g.j, g.i, g.j + 1);
  }

  /** Steps along the run the node was taken from. */
  method Advance(ar: Arena, p0: int, q0: int, fromA: bool, ghost s: seq<nat>, ghost o: seq<nat>, ghost g: Merge, ghost g': Merge,
                 ghost e: nat)
    returns (p: int, q: int)
    requires AtHeads(g, p0, q0) && Linked(ar.next, s, o, g.rest, g.la, g.i, g.j) && g.la + g.lb <= |g.rest|
    requires g' == Took(g, fromA, e, g'.compared) && Chosen(g.rest, g.la, g.lb, g.i, g.j, fromA, e)
    ensures AtHeads(g', p, q) && Linked(Append(ar.next, o, e), s, o + [e], g.rest, g.la, g'.i, g'.j)
  {
    hide Linked, Append;
    p, q := p0, q0;
    if fromA {
      TakeFirst(ar.next, s, o, g);
      p := ar.next[p];
    } else {
      TakeSecond(ar.next, s, o, g);
      q := ar.next[q];
    }
  }

  /** One turn of the merge loop. */
  method MergeStep(ar: Arena, cmp: Cmp, p0: int, q0: int, psize: nat, qsize: nat, list0: int, tail0: int,
                   ghost z: Start, ghost g: Merge)
    returns (list: int, tail: int, p: int, q: int, fromA: bool, ghost e: nat, ghost g': Merge)
    requires MergeInv(ar, cmp, z, g) && Heads(g, p0, q0, psize, qsize)
    requires list0 == Head(g.out + g.mr) && tail0 == Last(g.out + g.mr)
    modifies ar`next, ar`data16, ar`crc
    ensures if fromA then g.i < g.la else g.j < g.lb
    ensures MergeInv(ar, cmp, z, g') && g.compared <= g'.compared && g' == Took(g, fromA, e, g'.compared)
    ensures AtHeads(g', p, q) && list == Head(g'.out + g'.mr) && tail == Last(g'.out + g'.mr)
  {
    hide MergeInv, Comparing, Merging, DataInv, Extends, Linked, RankOf, Append, RunA, RunB, Succ, Belong,
         Untouched, Head, Last,
         AtHeads;
    MergeParts(ar, cmp, z, g);
    ghost var o, n1, r1 := g.out + g.mr, ar.next, RankNow(ar, cmp, z.pos, g.compared);
    HeadLinks(ar.next, z.s, o, g.rest, g.la, g.lb, g.i, g.j);
    var node;
    ghost var compared;
    fromA, node, compared := Choose(ar, cmp, p0, q0, psize, qsize, z, g);
    ExtendsTrans(z.rank, r1, RankNow(ar, cmp, z.pos, compared));
    e, g' := node, Took(g, fromA, node, compared);
    p, q := Advance(ar, p0, q0, fromA, z.s, o, g, g', e);
    list, tail := AppendNode(ar, list0, tail0, node, o, z.s);
    UntouchedTrans(z.next, n1, ar.next, z.s);
    MergeNext(ar, cmp, z, g, fromA, e, g');
    assert o + [e] == g.out + g'.mr;
  }

  lemma UntouchedRefl(next: seq<int>, s: seq<nat>)
    ensures Untouched(next, next, s)
  {
  }

  /**
   Merges the run of `g.la` nodes at `p0` with the run of at most `w` nodes at `q0`, appending to
   the list that ends at `tail0`.
   */
  method MergeRuns(ar: Arena, cmp: Cmp, p0: int, q0: int, la: nat, w: nat, list0: int, tail0: int,
                   ghost z: Start, ghost g: Merge)
    returns (list: int, tail: int, q: int, ghost g': Merge)
    requires MergeInv(ar, cmp, z, g) && g.i == g.j == 0 && g.mr == []
    requires 0 < la == g.la && g.lb == RunLength(|g.rest| - la, w)
    requires p0 == g.rest[0] && q0 == At(g.rest, la) && list0 == Head(g.out) && tail0 == Last(g.out)
    modifies ar`next, ar`data16, ar`crc
    ensures MergeInv(ar, cmp, z, g') && g.compared <= g'.compared
    ensures g' == g.(i := g.la, j := g.lb, mr := g'.mr, compared := g'.compared)
    ensures q == At(g.rest, g.la + g.lb) && list == Head(g.out + g'.mr) && tail == Last(g.out + g'.mr)
  {
    hide MergeInv, Head, Last;
    var p, psize, qsize := p0, la, w;
    list, tail, q := list0, tail0, q0;
    g' := g;
    assert g.out + g.mr == g.out;
    while psize > 0 || (qsize > 0 && q != NULL)
      invariant MergeInv(ar, cmp, z, g') && g.compared <= g'.compared
      invariant g' == g.(i := g'.i, j := g'.j, mr := g'.mr, compared := g'.compared)
      invariant g'.i <= la && g'.j <= g.lb && psize == la - g'.i && qsize == w - g'.j
      invariant AtHeads(g', p, q) && list == Head(g.out + g'.mr) && tail == Last(g.out + g'.mr)
      decreases la - g'.i + g.lb - g'.j
    {
      var fromA; ghost var e;
      list, tail, p, q, fromA, e, g' := MergeStep(ar, cmp, p, q, psize, qsize, list, tail, z, g');
      if fromA {
        psize := psize - 1;
      } else {
        qsize := qsize - 1;
      }
    }
  }

  // ----- a pass over the list

  lemma Regroup(next: seq<int>, s: seq<nat>, o: seq<nat>, rest: seq<nat>, la: nat, la': nat)
    requires Linked(next, s, o, rest, la, 0, 0) && la' <= |rest|
    ensures Linked(next, s, o, rest, la', 0, 0)
  {
    assert Waiting(rest, la, 0, 0) == rest && Waiting(rest, la', 0, 0) == rest;
    forall k | 0 <= k < |rest| ensures next[rest[k]] == Succ(rest, k) {
      assert IsWaiting(rest, la, 0, 0, k);
    }
  }

  /** After a merge the rest of the list starts behind both runs. */
  lemma DropMerged(next: seq<int>, s: seq<nat>, o: seq<nat>, rest: seq<nat>, la: nat, lb: nat)
    requires Linked(next, s, o, rest, la, la, lb)
    ensures Linked(next, s, o, rest[la + lb..], 0, 0, 0)
  {
    var rest' := rest[la + lb..];
    assert Waiting(rest, la, la, lb) == rest' && Waiting(rest', 0, 0, 0) == rest';
    StillLinked(next, s, o, rest, la, lb, rest');
  }

  lemma StillLinked(next: seq<int>, s: seq<nat>, o: seq<nat>, rest: seq<nat>, la: nat, lb: nat, tail: seq<nat>)
    requires Linked(next, s, o, rest, la, la, lb) && |tail| == |rest| - (la + lb)
    requires Waiting(tail, 0, 0, 0) == Waiting(rest, la, la, lb)
    requires forall k {:trigger tail[k]} | 0 <= k < |tail| :: tail[k] == rest[la + lb + k]
    ensures Linked(next, s, o, tail, 0, 0, 0)
  {
    hide Waiting, Distinct;
    forall k | 0 <= k < |tail| ensures next[tail[k]] == Succ(tail, k) {
      var u := la + lb + k;
      assert tail[k] == rest[u] && IsWaiting(rest, la, la, lb, u);
      assert k + 1 < |tail| ==> tail[k + 1] == rest[u + 1];
    }
  }

  /** The first two runs of a good list are ready to be merged. */
  lemma FirstTwoRuns(r: Rank, rest: seq<nat>, w: nat, la: nat, lb: nat)
    requires InArena(rest, r) && w > 0 && rest != [] && GoodRuns(r, rest, w)
    requires la == RunLength(|rest|, w) && lb == RunLength(|rest| - la, w)
    ensures Merging(r, [], RunA(rest, la), RunB(rest, la, lb), 0, 0)
    ensures InArena(rest[la + lb..], r) && PosBefore(r, rest[..la + lb], rest[la + lb..])
    ensures rest[la + lb..] != [] ==> la + lb == 2 * w && GoodRuns(r, rest[la + lb..], w)
  {
    hide Merging, AllDone, Ascending;
    if |rest| <= w {
      assert rest[..la] == rest && RunB(rest, la, lb) == [];
    } else {
      var bc := rest[w..];
      assert RunB(rest, la, lb) == bc[..lb];
      if |bc| <= w {
        assert bc[..lb] == bc;
      } else {
        assert bc[w..] == rest[la + lb..];
        TwoBefore(r, rest, w);
      }
    }
    MergingStart(r, RunA(rest, la), RunB(rest, la, lb));
  }

  /** Two runs that come before the rest one after the other come before it together. */
  lemma TwoBefore(r: Rank, rest: seq<nat>, w: nat)
    requires InArena(rest, r) && 2 * w <= |rest|
    requires PosBefore(r, rest[..w], rest[w..]) && PosBefore(r, rest[w..][..w], rest[w..][w..])
    ensures PosBefore(r, rest[..2 * w], rest[2 * w..])
  {
    var pre, post := rest[..2 * w], rest[2 * w..];
    var a, bc := rest[..w], rest[w..];
    var b, c := bc[..w], bc[w..];
    forall u, v | 0 <= u < |pre| && 0 <= v < |post| ensures r.pos[pre[u]] < r.pos[post[v]] {
      assert post[v] == c[v] == bc[w + v];
      if u < w {
        assert pre[u] == a[u];
      } else {
        assert pre[u] == b[u - w];
      }
    }
  }

  lemma SamePos(r: Rank, s: seq<nat>, t: seq<nat>, u: seq<nat>)
    requires InArena(s, r) && InArena(t, r) && InArena(u, r) && PosBefore(r, s, u) && multiset(t) == multiset(s)
    ensures PosBefore(r, t, u)
  {
    forall i, j | 0 <= i < |t| && 0 <= j < |u| ensures r.pos[t[i]] < r.pos[u[j]] {
      assert t[i] in multiset(t);
      assert t[i] in s;
      var k :| 0 <= k < |s| && s[k] == t[i];
    }
  }

  lemma SamePosRight(r: Rank, s: seq<nat>, t: seq<nat>, u: seq<nat>)
    requires InArena(s, r) && InArena(t, r) && InArena(u, r) && PosBefore(r, u, s) && multiset(t) == multiset(s)
    ensures PosBefore(r, u, t)
  {
    forall i, j | 0 <= i < |u| && 0 <= j < |t| ensures r.pos[u[i]] < r.pos[t[j]] {
      assert t[j] in multiset(t);
      assert t[j] in s;
      var k :| 0 <= k < |s| && s[k] == t[j];
    }
  }

  /** Order facts between two merges of a pass: `out` is done, `rest` is to come. */
  ghost predicate MidPass(r: Rank, out: seq<nat>, rest: seq<nat>, w: nat)
    requires w > 0
  {
    && InArena(out, r) && InArena(rest, r)
    && (if rest == [] then GoodRuns(r, out, 2 * w)
        else FullRuns(r, out, 2 * w) && PosBefore(r, out, rest) && GoodRuns(r, rest, w))
  }

  lemma PassStep(r: Rank, r': Rank, out: seq<nat>, rest: seq<nat>, w: nat, la: nat, lb: nat, mr: seq<nat>)
    requires w > 0 && rest != [] && MidPass(r, out, rest, w) && Extends(r, r')
    requires la == RunLength(|rest|, w) && lb == RunLength(|rest| - la, w)
    requires InArena(mr, r') && RunOk(r', mr) && multiset(mr) == multiset(rest[..la + lb])
    ensures MidPass(r', out + mr, rest[la + lb..], w)
  {
    var pre, rest' := rest[..la + lb], rest[la + lb..];
    FirstTwoRuns(r, rest, w, la, lb);
    FullExtends(r, r', out, 2 * w);
    assert |mr| == |multiset(mr)| == la + lb;
    assert forall k | 0 <= k < |pre| :: pre[k] == rest[k];
    SamePosRight(r', pre, mr, out);
    AppendRun(r', out, mr, 2 * w);
    if rest' != [] {
      GoodExtends(r, r', rest', w);
      assert forall k | 0 <= k < |rest'| :: rest'[k] == rest[la + lb + k];
      SamePos(r', pre, mr, rest');
    }
  }

  lemma StartPass(next: seq<int>, list: int, s: seq<nat>)
    requires IsChain(next, list, s)
    ensures Linked(next, s, [], s, 0, 0, 0) && list == Head(s)
  {
    assert [] + Waiting(s, 0, 0, 0) == s;
  }

  lemma EndPass(next: seq<int>, s: seq<nat>, o: seq<nat>)
    requires Linked(next, s, o, [], 0, 0, 0) && o != []
    ensures IsChain(next[Last(o) := NULL], Head(o), o) && multiset(o) == multiset(s)
  {
    assert o + Waiting([], 0, 0, 0) == o;
    SameDistinct(s, o);
  }

  /** One merge of a pass: the two runs at the head of `rest` move behind `out`. */
  method MergeRound(ar: Arena, cmp: Cmp, p0: int, w: nat, list0: int, tail0: int,
                    ghost z: Start, ghost out: seq<nat>, ghost rest: seq<nat>, ghost compared0: set<nat>)
    returns (list: int, tail: int, p: int, ghost mr: seq<nat>, ghost rest': seq<nat>, ghost compared: set<nat>)
    requires Ready(ar, z.pos) && DataInv(cmp, z.before, ar.data16, compared0) && Belong(ar.info, z.s, compared0)
    requires z.rank == RankNow(ar, cmp, z.pos, compared0) && z.next == ar.next
    requires w > 0 && rest != [] && p0 == Head(rest) && list0 == Head(out) && tail0 == Last(out)
    requires Linked(ar.next, z.s, out, rest, 0, 0, 0) && MidPass(z.rank, out, rest, w)
    modifies ar`next, ar`data16, ar`crc
    ensures Ready(ar, z.pos) && DataInv(cmp, z.before, ar.data16, compared) && compared0 <= compared
    ensures Extends(z.rank, RankNow(ar, cmp, z.pos, compared))
    ensures Linked(ar.next, z.s, out + mr, rest', 0, 0, 0) && Untouched(z.next, ar.next, z.s)
    ensures p == Head(rest') && list == Head(out + mr) && tail == Last(out + mr)
    ensures MidPass(RankNow(ar, cmp, z.pos, compared), out + mr, rest', w)
    ensures |mr| + |rest'| == |rest| && mr != [] && (rest' != [] ==> |mr| == 2 * w)
    ensures InArena(mr, RankNow(ar, cmp, z.pos, compared)) && RunOk(RankNow(ar, cmp, z.pos, compared), mr)
    ensures Belong(ar.info, z.s, compared)
  {
    hide Belong, DataInv, Extends, Linked, GoodRuns, FullRuns, Merging, RankOf, RunOk, Untouched;
    Regroup(ar.next, z.s, out, rest, 0, |rest|);
    var q, psize := FindSecondRun(ar, p0, w, z.s, out, rest);
    ghost var lb := RunLength(|rest| - psize, w);
    Regroup(ar.next, z.s, out, rest, 0, psize);
    FirstTwoRuns(z.rank, rest, w, psize, lb);
    UntouchedRefl(z.next, z.s);
    ExtendsRefl(z.rank);
    ghost var g := Merge(out, rest, psize, lb, 0, 0, [], compared0);
    assert out + [] == out;
    list, tail, p, g := MergeRuns(ar, cmp, p0, q, psize, w, list0, tail0, z, g);
    mr, compared, rest' := g.mr, g.compared, rest[psize + lb..];
    ghost var r' := RankNow(ar, cmp, z.pos, compared);
    MergedRun(r', mr, rest, psize, lb);
    PassStep(z.rank, r', out, rest, w, psize, lb, mr);
    DropMerged(ar.next, z.s, out + mr, rest, psize, lb);
  }

  /** Progress of a pass: after one merge a single run, after two a list longer than two runs. */
  ghost predicate Counted(r: Rank, s: seq<nat>, out: seq<nat>, rest: seq<nat>, w: nat, nmerges: nat) {
    && InArena(out, r) && |out| + |rest| == |s|
    && (nmerges == 0 ==> out == []) && (nmerges > 0 ==> out != [])
    && (nmerges == 1 ==> RunOk(r, out))
    && (nmerges > 1 ==> 2 * w < |s|)
    && (nmerges > 0 && rest != [] ==> 2 * w <= |out|)
  }

  lemma CountStep(r: Rank, r': Rank, s: seq<nat>, out: seq<nat>, rest: seq<nat>, w: nat, n: nat, mr: seq<nat>, rest': seq<nat>)
    requires Counted(r, s, out, rest, w, n) && rest != [] && mr != [] && |mr| + |rest'| == |rest|
    requires rest' != [] ==> |mr| == 2 * w
    requires InArena(out + mr, r') && InArena(mr, r') && RunOk(r', mr)
    ensures Counted(r', s, out + mr, rest', w, n + 1)
  {
    assert out == [] ==> out + mr == mr;
  }

  lemma UntouchedTrans(n0: seq<int>, n1: seq<int>, n2: seq<int>, s: seq<nat>)
    requires Untouched(n0, n1, s) && Untouched(n1, n2, s)
    ensures Untouched(n0, n2, s)
  {
  }

  /** A pass under way: `out` is merged, in `nmerges` merges, and `rest` is still to come. */
  datatype Pass = Pass(out: seq<nat>, rest: seq<nat>, compared: set<nat>, nmerges: nat)

  /** Everything a pass over runs of width `w` keeps. */
  ghost predicate PassInv(ar: Arena, cmp: Cmp, w: nat, z: Start, h: Pass)
    reads ar
  {
    && w > 0 && Ready(ar, z.pos) && DataInv(cmp, z.before, ar.data16, h.compared)
    && Extends(z.rank, RankNow(ar, cmp, z.pos, h.compared))
    && Linked(ar.next, z.s, h.out, h.rest, 0, 0, 0) && Untouched(z.next, ar.next, z.s) && Belong(ar.info, z.s, h.compared)
    && MidPass(RankNow(ar, cmp, z.pos, h.compared), h.out, h.rest, w)
    && Counted(RankNow(ar, cmp, z.pos, h.compared), z.s, h.out, h.rest, w, h.nmerges)
  }

  method PassRound(ar: Arena, cmp: Cmp, p0: int, w: nat, list0: int, tail0: int, ghost z: Start, ghost h: Pass)
    returns (list: int, tail: int, p: int, ghost h': Pass)
    requires PassInv(ar, cmp, w, z, h) && h.rest != [] && p0 == Head(h.rest) && list0 == Head(h.out) && tail0 == Last(h.out)
    modifies ar`next, ar`data16, ar`crc
    ensures PassInv(ar, cmp, w, z, h') && h'.nmerges == h.nmerges + 1 && |h'.rest| < |h.rest| && h.compared <= h'.compared
    ensures p == Head(h'.rest) && list == Head(h'.out) && tail == Last(h'.out)
  {
    hide DataInv, Extends, Linked, MidPass, RankOf, RunOk, Untouched, Counted, InArena, Belong;
    ghost var r, next1 := RankNow(ar, cmp, z.pos, h.compared), ar.next;
    ghost var mr, rest', compared;
    list, tail, p, mr, rest', compared :=
      MergeRound(ar, cmp, p0, w, list0, tail0, z.(rank := r, next := next1), h.out, h.rest, h.compared);
    ghost var r' := RankNow(ar, cmp, z.pos, compared);
    h' := Pass(h.out + mr, rest', compared, h.nmerges + 1);
    ExtendsTrans(z.rank, r, r');
    UntouchedTrans(z.next, next1, ar.next, z.s);
    MidPassArena(r', h'.out, rest', w);
    CountStep(r, r', z.s, h.out, h.rest, w, h.nmerges, mr, rest');
  }

  /** The merges of one pass, up to the last node. */
  method MergeAll(ar: Arena, cmp: Cmp, list0: int, w: nat, ghost z: Start, ghost compared0: set<nat>)
    returns (list: int, tail: int, nmerges: nat, ghost h: Pass)
    requires list0 == Head(z.s) && PassInv(ar, cmp, w, z, Pass([], z.s, compared0, 0))
    modifies ar`next, ar`data16, ar`crc
    ensures PassInv(ar, cmp, w, z, h) && h.rest == [] && h.nmerges == nmerges && compared0 <= h.compared
    ensures list == Head(h.out) && tail == Last(h.out)
  {
    hide PassInv;
    var p := list0;
    h := Pass([], z.s, compared0, 0);
    list, tail, nmerges := NULL, NULL, 0;
    while p != NULL
      invariant PassInv(ar, cmp, w, z, h) && h.nmerges == nmerges && compared0 <= h.compared
      invariant p == Head(h.rest) && list == Head(h.out) && tail == Last(h.out)
      decreases |h.rest|
    {
      list, tail, p, h := PassRound(ar, cmp, p, w, list, tail, z, h);
      nmerges := nmerges + 1;
    }
  }

  lemma MidPassArena(r: Rank, out: seq<nat>, rest: seq<nat>, w: nat)
    requires w > 0 && MidPass(r, out, rest, w)
    ensures InArena(out, r)
  {
  }

  /** One pass: merges neighbouring runs of width `w` over the whole list. */
  method SortPass(ar: Arena, cmp: Cmp, list0: int, w: nat,
                  ghost s: seq<nat>, ghost pos: seq<nat>, ghost before: seq<Word16>, ghost compared0: set<nat>)
    returns (list: int, nmerges: nat, ghost t: seq<nat>, ghost compared: set<nat>)
    requires Ready(ar, pos) && DataInv(cmp, before, ar.data16, compared0)
    requires w > 0 && s != [] && IsChain(ar.next, list0, s) && Belong(ar.info, s, compared0)
    requires InArena(s, RankNow(ar, cmp, pos, compared0)) && GoodRuns(RankNow(ar, cmp, pos, compared0), s, w)
    modifies ar`next, ar`data16, ar`crc
    ensures Ready(ar, pos) && DataInv(cmp, before, ar.data16, compared) && compared0 <= compared
    ensures Extends(old(RankNow(ar, cmp, pos, compared0)), RankNow(ar, cmp, pos, compared))
    ensures IsChain(ar.next, list, t) && multiset(t) == multiset(s) && Untouched(old(ar.next), ar.next, s)
    ensures Belong(ar.info, s, compared)
    ensures var r := RankNow(ar, cmp, pos, compared);
            && InArena(t, r) && GoodRuns(r, t, 2 * w)
            && (nmerges <= 1 ==> RunOk(r, t)) && (nmerges > 1 ==> 2 * w < |s|)
  {
    hide DataInv, Extends, Linked, GoodRuns, FullRuns, RankOf, RunOk, IsChain, Belong;
    ghost var z := Start(s, pos, before, RankNow(ar, cmp, pos, compared0), ar.next);
    StartPass(ar.next, list0, s);
    PassBegins(z.rank, s, w);
    ExtendsRefl(z.rank);
    var tail;
    ghost var h;
    list, tail, nmerges, h := MergeAll(ar, cmp, list0, w, z, compared0);
    t, compared := h.out, h.compared;
    EndPass(ar.next, s, t);
    LastInArena(ar.next, s, t);
    ar.next := ar.next[tail := NULL];
  }

  lemma PassBegins(r: Rank, s: seq<nat>, w: nat)
    requires InArena(s, r) && w > 0 && s != [] && GoodRuns(r, s, w)
    ensures MidPass(r, [], s, w) && Counted(r, s, [], s, w, 0)
  {
  }

  lemma MergedRun(r: Rank, mr: seq<nat>, rest: seq<nat>, la: nat, lb: nat)
    requires la + lb <= |rest| && Merging(r, mr, RunA(rest, la), RunB(rest, la, lb), la, lb)
    ensures InArena(mr, r) && RunOk(r, mr) && multiset(mr) == multiset(rest[..la + lb]) && |mr| == la + lb
  {
    MergingEnd(r, mr, RunA(rest, la), RunB(rest, la, lb));
    assert RunA(rest, la) + RunB(rest, la, lb) == rest[..la + lb];
  }

  lemma LastInArena(next: seq<int>, s: seq<nat>, o: seq<nat>)
    requires Linked(next, s, o, [], 0, 0, 0) && o != []
    ensures 0 <= Last(o) < |next| && Last(o) in s
  {
    assert o + Waiting([], 0, 0, 0) == o;
    SameMembers(s, o, Last(o));
  }

  // ----- the whole sort

  function IndexOf(s: seq<nat>, x: nat): (k: nat)
    requires x in s
    ensures k < |s| && s[k] == x
  {
    if s[0] == x then 0 else 1 + IndexOf(s[1..], x)
  }

  ghost function Positions(s: seq<nat>, n: nat): (pos: seq<nat>)
    ensures |pos| == n
  {
    seq(n, x requires 0 <= x < n => if x in s then IndexOf(s, x) else 0)
  }

  lemma PositionIs(s: seq<nat>, n: nat, k: nat)
    requires Distinct(s) && k < |s| && s[k] < n
    ensures Positions(s, n)[s[k]] == k
  {
    assert s[IndexOf(s, s[k])] == s[k];
  }

  ghost predicate PositionsRise(r: Rank, s: seq<nat>)
    requires InArena(s, r)
  {
    forall u, v | 0 <= u < v < |s| :: r.pos[s[u]] < r.pos[s[v]]
  }

  lemma {:induction false} SingleRuns(r: Rank, s: seq<nat>)
    requires InArena(s, r) && PositionsRise(r, s)
    ensures GoodRuns(r, s, 1)
    decreases |s|
  {
    if |s| > 1 {
      assert forall k | 0 <= k < |s[1..]| :: s[1..][k] == s[k + 1];
      SingleRuns(r, s[1..]);
    }
  }

  /** Ascending by key; equal keys in the order of the original list `s`. */
  ghost predicate SortedStable(cmp: Cmp, data: seq<Word16>, idx: seq<int>, info: seq<nat>, s: seq<nat>, t: seq<nat>)
    requires |idx| == |data| && multiset(t) == multiset(s)
    requires forall k | 0 <= k < |t| :: t[k] < |info| && info[t[k]] < |data|
  {
    forall u, v | 0 <= u < v < |t| ::
      var ku, kv := Key(cmp, data, idx, info[t[u]]), Key(cmp, data, idx, info[t[v]]);
      ku < kv || (ku == kv && (SameMembers(s, t, t[u]); SameMembers(s, t, t[v]); IndexOf(s, t[u]) < IndexOf(s, t[v])))
  }

  ghost predicate SortInv(ar: Arena, cmp: Cmp, before: seq<Word16>, next0: seq<int>, s: seq<nat>, list: int, t: seq<nat>,
                          compared: set<nat>)
    reads ar
  {
    && ar.Valid() && DataInv(cmp, before, ar.data16, compared)
    && IsChain(ar.next, list, t) && multiset(t) == multiset(s) && Untouched(next0, ar.next, s)
    && Belong(ar.info, s, compared)
  }

  /**
   Sorts the chain `s` in place: the result is a NULL-ended chain of the same nodes, sorted and
   stable under every orderly comparator; every node of a list of two or more was compared, and no
   link or data word outside the list was written.
   */
  method CoreListMergesort(ar: Arena, cmp: Cmp, list0: int, ghost s: seq<nat>)
    returns (list: int, ghost t: seq<nat>, ghost compared: set<nat>)
    requires ar.Valid() && s != [] && IsChain(ar.next, list0, s)
    modifies ar`next, ar`data16, ar`crc
    ensures SortInv(ar, cmp, old(ar.data16), old(ar.next), s, list, t, compared)
    ensures |s| >= 2 ==> forall k | 0 <= k < |t| :: ar.info[t[k]] in compared
    ensures Orderly(cmp, |ar.data16|) ==> SortedStable(cmp, ar.data16, ar.idx, ar.info, s, t)
  {
    hide GoodRuns, RunOk, Extends, DataInv, Untouched, IsChain, HasItem;
    ghost var pos := Positions(s, |ar.next|);
    list, t, compared := list0, s, {};
    ghost var next0, before := ar.next, ar.data16;
    SortBegins(ar.next, list0, s, ar.data16, cmp);
    SortRank(RankNow(ar, cmp, pos, {}), ar.next, list0, s);
    var insize := 1;
    while true
      invariant insize > 0 && Ready(ar, pos) && t != [] && |t| == |s|
      invariant SortInv(ar, cmp, before, next0, s, list, t, compared)
      invariant InArena(t, RankNow(ar, cmp, pos, compared)) && GoodRuns(RankNow(ar, cmp, pos, compared), t, insize)
      decreases |s| - insize
    {
      var nmerges;
      ghost var t0, next1 := t, ar.next;
      BelongSame(ar.info, s, t, compared);
      list, nmerges, t, compared := SortPass(ar, cmp, list, insize, t, pos, before, compared);
      BelongSame(ar.info, t0, s, compared);
      PassKeeps(next0, next1, ar.next, s, t0, t);
      if nmerges <= 1 {
        SortEnds(ar, cmp, pos, compared, s, t);
        return;
      }
      insize := insize * 2;
    }
  }

  lemma SortBegins(next: seq<int>, list: int, s: seq<nat>, data: seq<Word16>, cmp: Cmp)
    requires IsChain(next, list, s)
    ensures Untouched(next, next, s) && DataInv(cmp, data, data, {})
  {
  }

  lemma SortRank(r: Rank, next: seq<int>, list: int, s: seq<nat>)
    requires IsChain(next, list, s) && RankOk(r, |next|) && r.pos == Positions(s, |next|)
    ensures InArena(s, r) && GoodRuns(r, s, 1)
  {
    forall u, v | 0 <= u < v < |s| ensures r.pos[s[u]] < r.pos[s[v]] {
      PositionIs(s, |next|, u);
      PositionIs(s, |next|, v);
    }
    SingleRuns(r, s);
  }

  lemma PassKeeps(next0: seq<int>, next1: seq<int>, next2: seq<int>, s: seq<nat>, t0: seq<nat>, t: seq<nat>)
    requires Untouched(next0, next1, s) && Untouched(next1, next2, t0)
    requires multiset(t0) == multiset(s) && multiset(t) == multiset(t0)
    ensures Untouched(next0, next2, s) && multiset(t) == multiset(s) && |t| == |s|
  {
    forall n | 0 <= n < |next2| && n !in s ensures next2[n] == next0[n] {
      SameMembers(s, t0, n);
    }
    SameMembers(s, t, 0);
  }

  lemma SortEnds(ar: Arena, cmp: Cmp, pos: seq<nat>, compared: set<nat>, s: seq<nat>, t: seq<nat>)
    requires Ready(ar, pos) && pos == Positions(s, |ar.next|) && multiset(t) == multiset(s)
    requires InArena(t, RankNow(ar, cmp, pos, compared)) && RunOk(RankNow(ar, cmp, pos, compared), t)
    ensures |s| >= 2 ==> forall k | 0 <= k < |t| :: ar.info[t[k]] in compared
    ensures Orderly(cmp, |ar.data16|) ==> SortedStable(cmp, ar.data16, ar.idx, ar.info, s, t)
  {
    SameMembers(s, t, 0);
    var r := RankNow(ar, cmp, pos, compared);
    if Orderly(cmp, |ar.data16|) {
      forall u, v | 0 <= u < v < |t|
        ensures t[u] in s && t[v] in s
        ensures Less(r, t[u], t[v])
      {
        SameMembers(s, t, t[u]);
        SameMembers(s, t, t[v]);
      }
    }
  }
}
