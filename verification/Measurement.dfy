/**
 What is measured is what the guest sees: over every run, the stream the TSM hashes is the
 concatenation of the measured pages, and the guest reads exactly those bytes.
 */
module Measurement {
  import opened Memory
  import opened PageTable
  import opened Mapping
  import opened GuestMemory
  import opened Hypervisor
  import opened Covh
  import opened Lifecycle

  /** One successful measured-pages call: where the guest sees it, where it lives, its source bytes. */
  datatype Fill = Fill(gpa: nat, dst: nat, n: nat, data: seq<Byte>)

  /** The measured calls since the TVM was created, and the digest the last finalize must give. */
  datatype Log = Log(fills: seq<Fill>, expected: seq<Byte>)

  function Stream(fills: seq<Fill>): seq<Byte> {
    if fills == [] then [] else Stream(fills[..|fills| - 1]) + fills[|fills| - 1].data
  }

  /** The source bytes of a measured-pages call. */
  function SourceOf(s: Snapshot, c: Call): seq<Byte>
    requires c.AddMeasuredPages?
  {
    if c.src + Bytes(c.n) <= SPACE then s.mem[c.src..c.src + Bytes(c.n)] else []
  }

  ghost function After(l: Log, s: Snapshot, e: Env, c: Call, r: Reply): Log {
    if !r.Ret? || r.a0 != 0 then l
    else
      match c
      case CreateTvm(_, _) => Log([], [])
      case AddMeasuredPages(_, _, dst, _, n, gpa) => l.(fills := l.fills + [Fill(gpa, dst, n, SourceOf(s, c))])
      case FinalizeTvm(_, _, _) =>
        l.(expected := e.hash(if s.tvm.Some? && s.tvm.value.state.Initializing? then Stream(l.fills) else []))
      case _ => l
  }

  ghost predicate Disjoint(a: nat, n: nat, b: nat, m: nat) {
    a + n <= b || b + m <= a
  }

  ghost predicate HasPages(d: Directory, first: nat, dst: nat, n: nat) {
    && (n > 0 ==> 0 in d.roots)
    && (forall x {:trigger d.pages[x]} {:trigger x in d.pages} | first <= x < first + n ::
          x in d.pages && d.pages[x] == FrameAt(first, dst, x))
  }

  /** A fill is still in place: its pages are mapped to its frames and the frames hold its bytes. */
  ghost predicate InPlace(m: Memory, root: nat, f: Fill)
    requires RootOk(root)
  {
    && f.gpa % 4096 == 0 && f.gpa + Bytes(f.n) <= GIB
    && |f.data| == Bytes(f.n) && f.dst + Bytes(f.n) <= SPACE
    && OutsideDirectory(root, f.dst, f.dst + Bytes(f.n))
    && HasPages(View(m, root), f.gpa / 4096, f.dst, f.n)
    && m[f.dst..f.dst + Bytes(f.n)] == f.data
  }

  ghost predicate MeasInv(s: Snapshot, l: Log) {
    s.tvm.Some? ==>
      var t := s.tvm.value;
      && RootOk(t.pageTable)
      && LifeInv(s)
      && t.absorbed == (if t.state.Initializing? then Stream(l.fills) else [])
      && (t.state.Runnable? ==> t.measure == l.expected && s.measurement == Some(l.expected))
      && forall k | 0 <= k < |l.fills| :: InPlace(s.mem, t.pageTable, l.fills[k])
  }

  /** The host's own ranges stay apart: sources from destinations, and fills from one another. */
  ghost predicate Orderly(s: Snapshot, l: Log, c: Call) {
    && Benign(s, c)
    && match c
       case GetTsmInfo(addr, _) =>
         forall k | 0 <= k < |l.fills| :: Disjoint(addr, INFO_SIZE, l.fills[k].dst, Bytes(l.fills[k].n))
       case AddMeasuredPages(_, src, dst, _, n, gpa) =>
         && Disjoint(src, Bytes(n), dst, Bytes(n))
         && (forall k | 0 <= k < |l.fills| :: Disjoint(dst, Bytes(n), l.fills[k].dst, Bytes(l.fills[k].n)))
         && (forall k | 0 <= k < |l.fills| :: Disjoint(gpa, Bytes(n), l.fills[k].gpa, Bytes(l.fills[k].n)))
       case AddZeroPages(_, _, _, n, gpa) =>
         forall k | 0 <= k < |l.fills| :: Disjoint(gpa, Bytes(n), l.fills[k].gpa, Bytes(l.fills[k].n))
       case _ => true
  }

  /** A store off the directory and off a fill's frames leaves the fill in place. */
  lemma StoreElsewhere(m: Memory, m': Memory, root: nat, f: Fill, lo: nat, n: nat)
    requires RootOk(root) && InPlace(m, root, f)
    requires SameOutside(m, m', lo, lo + n) && OutsideDirectory(root, lo, lo + n) && Disjoint(lo, n, f.dst, Bytes(f.n))
    ensures InPlace(m', root, f)
  {
    SameTableOutside(m, m', root, lo, lo + n);
    assert m'[f.dst..f.dst + Bytes(f.n)] == m[f.dst..f.dst + Bytes(f.n)];
  }

  /** Mapping other guest pages leaves a fill in place. */
  lemma MapElsewhere(m: Memory, m': Memory, root: nat, f: Fill, gpa: nat, pa: nat, n: nat)
    requires RootOk(root) && InPlace(m, root, f)
    requires RegionMapped(m, m', root, gpa, pa, n, PERMS)
    requires gpa % 4096 == 0 && pa % 4096 == 0 && gpa + Bytes(n) <= GIB
    requires Disjoint(gpa, Bytes(n), f.gpa, Bytes(f.n))
    ensures InPlace(m', root, f)
  {
    var d, d' := View(m, root), View(m', root);
    RegionApplied(d, gpa, pa, n, PERMS);
    forall x | f.gpa / 4096 <= x < f.gpa / 4096 + f.n
      ensures x in d'.pages && d'.pages[x] == FrameAt(f.gpa / 4096, f.dst, x)
    {
      assert x in d.pages && d.pages[x] == FrameAt(f.gpa / 4096, f.dst, x);
      PagesApart(gpa, n, f.gpa, f.n, x);
    }
    assert m'[f.dst..f.dst + Bytes(f.n)] == m[f.dst..f.dst + Bytes(f.n)];
  }

  lemma PagesApart(a: nat, n: nat, b: nat, m: nat, x: nat)
    requires a % 4096 == 0 && b % 4096 == 0 && Disjoint(a, Bytes(n), b, Bytes(m))
    requires b / 4096 <= x < b / 4096 + m
    ensures !(a / 4096 <= x < a / 4096 + n)
  {
    assert a == 4096 * (a / 4096) && b == 4096 * (b / 4096);
  }

  /** A measured-pages call puts its own fill in place. */
  lemma FillInPlace(m: Memory, m': Memory, root: nat, gpa: nat, dst: nat, n: nat, data: seq<Byte>)
    requires RootOk(root) && RegionMapped(m, m', root, gpa, dst, n, PERMS)
    requires gpa % 4096 == 0 && dst % 4096 == 0 && gpa + Bytes(n) <= GIB
    requires |data| == Bytes(n) && dst + Bytes(n) <= SPACE && m[dst..dst + Bytes(n)] == data
    requires OutsideDirectory(root, dst, dst + Bytes(n))
    ensures InPlace(m', root, Fill(gpa, dst, n, data))
  {
    hide Shape, View, SameOutside, HasPages;
    SameFrames(m, m', root, dst, Bytes(n));
    RegionHasPages(m, m', root, gpa, dst, n);
  }

  lemma RegionHasPages(m: Memory, m': Memory, root: nat, gpa: nat, dst: nat, n: nat)
    requires RootOk(root) && RegionMapped(m, m', root, gpa, dst, n, PERMS)
    requires gpa % 4096 == 0 && dst % 4096 == 0 && gpa + Bytes(n) <= GIB
    ensures HasPages(View(m', root), gpa / 4096, dst, n)
  {
    hide Shape, View, SameOutside, HasPages, RegionPages, RegionOps, Apply;
    RegionApplied(View(m, root), gpa, dst, n, PERMS);
    PagesMapped(View(m, root), gpa / 4096, dst, n);
  }

  lemma SameFrames(m: Memory, m': Memory, root: nat, lo: nat, n: nat)
    requires SameOutside(m, m', root, root + DIRECTORY_SIZE) && OutsideDirectory(root, lo, lo + n) && lo + n <= SPACE
    ensures m'[lo..lo + n] == m[lo..lo + n]
  {
  }

  lemma PagesMapped(d: Directory, first: nat, dst: nat, n: nat)
    ensures HasPages(Directory(if n == 0 then d.roots else d.roots + {0}, d.pages + RegionPages(first, dst, n)), first, dst, n)
  {
    var rp := RegionPages(first, dst, n);
    forall x | first <= x < first + n
      ensures x in d.pages + rp && (d.pages + rp)[x] == FrameAt(first, dst, x)
    {
      assert x in rp && rp[x] == FrameAt(first, dst, x);
    }
  }

  lemma FillRange(s: Snapshot, gpa: nat, n: nat)
    requires s.tvm.Some? && RegionsOk(s.tvm.value.regions) && SomeRegionCovers(s.tvm.value.regions, gpa, gpa + Bytes(n))
    ensures gpa + Bytes(n) <= GIB
  {
    var rs := s.tvm.value.regions;
    var k :| 0 <= k < |rs| && RegionCovers(rs[k], gpa, gpa + Bytes(n));
  }

  lemma CopyFacts(m: Memory, src: nat, dst: nat, n: nat)
    requires src + n <= SPACE && dst + n <= SPACE && Disjoint(src, n, dst, n)
    ensures Copied(m, src, dst, n)[src..src + n] == m[src..src + n]
    ensures Copied(m, src, dst, n)[dst..dst + n] == m[src..src + n]
    ensures SameOutside(m, Copied(m, src, dst, n), dst, dst + n)
  {
  }

  /** Memory part of a measured-pages call: older fills stay, the new one is in place. */
  lemma FillsInPlace(m0: Memory, m1: Memory, m2: Memory, root: nat, fills: seq<Fill>, f: Fill)
    requires RootOk(root)
    requires forall k | 0 <= k < |fills| :: InPlace(m0, root, fills[k])
    requires SameOutside(m0, m1, f.dst, f.dst + Bytes(f.n)) && OutsideDirectory(root, f.dst, f.dst + Bytes(f.n))
    requires RegionMapped(m1, m2, root, f.gpa, f.dst, f.n, PERMS)
    requires f.gpa % 4096 == 0 && f.dst % 4096 == 0 && f.gpa + Bytes(f.n) <= GIB
    requires |f.data| == Bytes(f.n) && f.dst + Bytes(f.n) <= SPACE && m1[f.dst..f.dst + Bytes(f.n)] == f.data
    requires forall k | 0 <= k < |fills| :: Disjoint(f.dst, Bytes(f.n), fills[k].dst, Bytes(fills[k].n))
    requires forall k | 0 <= k < |fills| :: Disjoint(f.gpa, Bytes(f.n), fills[k].gpa, Bytes(fills[k].n))
    ensures forall k | 0 <= k < |fills + [f]| :: InPlace(m2, root, (fills + [f])[k])
  {
    FillInPlace(m1, m2, root, f.gpa, f.dst, f.n, f.data);
    forall k | 0 <= k < |fills| ensures InPlace(m2, root, fills[k]) {
      OlderFillKept(m0, m1, m2, root, fills[k], f.gpa, f.dst, f.n);
    }
  }

  lemma MeasuredRecord(s: Snapshot, l: Log, e: Env, c: Call, s': Snapshot)
    requires Sane(s) && MeasInv(s, l) && CopyDefined(c) && c.AddMeasuredPages?
    requires MeasuredStep(s, c.id, c.src, c.dst, c.ty, c.n, c.gpa, s', Accept)
    ensures s.tvm.Some? && s'.tvm.Some? && s'.tvm.value.pageTable == s.tvm.value.pageTable
    ensures s.tvm.value.state.Initializing? && s'.tvm.value.state.Initializing?
    ensures s'.tvm.value.absorbed == Stream(After(l, s, e, c, Ret(0, 0)).fills)
  {
    hide LifeInv, InPlace, Filled, Stream, Copied;
    DigestGrows(s, l, c);
  }

  lemma MeasuredMemory(s: Snapshot, l: Log, c: Call, s': Snapshot)
    requires Sane(s) && MeasInv(s, l) && Orderly(s, l, c) && c.AddMeasuredPages?
    requires MeasuredStep(s, c.id, c.src, c.dst, c.ty, c.n, c.gpa, s', Accept)
    ensures s.tvm.Some? && RootOk(s.tvm.value.pageTable)
    ensures var fills := l.fills + [Fill(c.gpa, c.dst, c.n, SourceOf(s, c))];
            forall k | 0 <= k < |fills| :: InPlace(s'.mem, s.tvm.value.pageTable, fills[k])
  {
    hide InPlace, Shape, View, RootOk, Stream, DirectoryOk;
    var t := s.tvm.value;
    var f, m := Fill(c.gpa, c.dst, c.n, SourceOf(s, c)), Copied(s.mem, c.src, c.dst, Bytes(c.n));
    FillRange(s, c.gpa, c.n);
    CopyFacts(s.mem, c.src, c.dst, Bytes(c.n));
    hide Copied;
    SameTableOutside(s.mem, m, t.pageTable, c.dst, c.dst + Bytes(c.n));
    FillsInPlace(s.mem, m, s'.mem, t.pageTable, l.fills, f);
  }

  lemma MeasuredStepKept(s: Snapshot, l: Log, e: Env, c: Call, s': Snapshot)
    requires Sane(s) && MeasInv(s, l) && Orderly(s, l, c) && c.AddMeasuredPages?
    requires MeasuredStep(s, c.id, c.src, c.dst, c.ty, c.n, c.gpa, s', Accept)
    ensures MeasInv(s', After(l, s, e, c, Ret(0, 0)))
  {
    MeasuredRecord(s, l, e, c, s');
    MeasuredMemory(s, l, c, s');
    hide InPlace, Shape, View, RootOk, Stream, DirectoryOk, MeasuredStep;
    MeasuredKept(s, c.id, c.src, c.dst, c.ty, c.n, c.gpa, s');
    hide LifeInv;
  }

  lemma OlderFillKept(m0: Memory, m1: Memory, m2: Memory, root: nat, f: Fill, gpa: nat, dst: nat, n: nat)
    requires RootOk(root) && InPlace(m0, root, f)
    requires SameOutside(m0, m1, dst, dst + Bytes(n)) && OutsideDirectory(root, dst, dst + Bytes(n))
    requires RegionMapped(m1, m2, root, gpa, dst, n, PERMS)
    requires gpa % 4096 == 0 && dst % 4096 == 0 && gpa + Bytes(n) <= GIB
    requires Disjoint(dst, Bytes(n), f.dst, Bytes(f.n)) && Disjoint(gpa, Bytes(n), f.gpa, Bytes(f.n))
    ensures InPlace(m2, root, f)
  {
    StoreElsewhere(m0, m1, root, f, dst, Bytes(n));
    MapElsewhere(m1, m2, root, f, gpa, dst, n);
  }

  lemma ZeroStepKept(s: Snapshot, l: Log, c: Call, s': Snapshot)
    requires Sane(s) && MeasInv(s, l) && Orderly(s, l, c) && c.AddZeroPages?
    requires ZeroStep(s, c.id, c.base, c.ty, c.n, c.gpa, s', Accept)
    ensures MeasInv(s', l)
  {
    var root := s.tvm.value.pageTable;
    ZeroKept(s, c.id, c.base, c.ty, c.n, c.gpa, s');
    FillRange(s, c.gpa, c.n);
    forall k | 0 <= k < |l.fills| ensures InPlace(s'.mem, root, l.fills[k]) {
      MapElsewhere(s.mem, s'.mem, root, l.fills[k], c.gpa, c.base, c.n);
    }
  }

  lemma InfoStepKept(s: Snapshot, l: Log, e: Env, c: Call, s': Snapshot)
    requires |e.info| == INFO_SIZE && Sane(s) && MeasInv(s, l) && Orderly(s, l, c) && c.GetTsmInfo?
    requires Next(s, e, c, s', Ret(0, INFO_SIZE))
    ensures MeasInv(s', l)
  {
    LifeInvStep(s, e, c, s', Ret(0, INFO_SIZE));
    if s.tvm.Some? {
      forall k | 0 <= k < |l.fills| ensures InPlace(s'.mem, s.tvm.value.pageTable, l.fills[k]) {
        StoreElsewhere(s.mem, s'.mem, s.tvm.value.pageTable, l.fills[k], c.addr, INFO_SIZE);
      }
    }
  }

  /** Every returning call of an orderly host keeps measurement and guest memory in step. */
  lemma MeasInvStep(s: Snapshot, l: Log, e: Env, c: Call, s': Snapshot, r: Reply)
    requires |e.info| == INFO_SIZE && Sane(s) && Next(s, e, c, s', r) && r.Ret?
    requires MeasInv(s, l) && Orderly(s, l, c)
    ensures MeasInv(s', After(l, s, e, c, r))
  {
    hide InPlace, Shape, View, DirectoryOk;
    match c {
      case GetTsmInfo(addr, len) =>
        InfoStepKept(s, l, e, c, s');
      case AddMeasuredPages(id, src, dst, ty, n, gpa) =>
        if r == Ret(0, 0) {
          MeasuredStepKept(s, l, e, c, s');
        }
      case AddZeroPages(id, base, ty, n, gpa) =>
        if r == Ret(0, 0) {
          ZeroStepKept(s, l, c, s');
        }
      case CreateTvm(params, len) =>
        if s.tvm.None? {
          LifeInvStep(s, e, c, s', r);
        }
      case _ =>
        if s.tvm.Some? {
          LifeInvStep(s, e, c, s', r);
        }
    }
  }

  /** A run together with the log of its measured calls. */
  ghost predicate IsLoggedRun(e: Env, ss: seq<Snapshot>, ls: seq<Log>, cs: seq<Call>, rs: seq<Reply>)
    requires |e.info| == INFO_SIZE
  {
    && IsRun(e, ss, cs, rs) && |ls| == |ss|
    && (forall i {:trigger cs[i]} | 0 <= i < |cs| ::
          Orderly(ss[i], ls[i], cs[i]) && ls[i + 1] == After(ls[i], ss[i], e, cs[i], rs[i]))
  }

  lemma {:induction false} MeasurementInvariant(e: Env, ss: seq<Snapshot>, ls: seq<Log>, cs: seq<Call>, rs: seq<Reply>)
    requires |e.info| == INFO_SIZE && IsLoggedRun(e, ss, ls, cs, rs) && ss[0].tvm.None?
    ensures MeasInv(ss[|cs|], ls[|cs|])
  {
    if cs != [] {
      var n := |cs| - 1;
      RunPrefix(e, ss, cs, rs);
      assert forall i | 0 <= i < n :: cs[..n][i] == cs[i];
      MeasurementInvariant(e, ss[..n + 1], ls[..n + 1], cs[..n], rs[..n]);
      assert cs[n] == cs[n];
      MeasInvStep(ss[n], ls[n], e, cs[n], ss[n + 1], rs[n]);
    }
  }

  // ----- the digest, for any host

  /** What the hasher has absorbed, whatever the host maps, overlaps or overwrites. */
  ghost predicate DigestInv(s: Snapshot, l: Log) {
    s.tvm.Some? ==> s.tvm.value.absorbed == if s.tvm.value.state.Initializing? then Stream(l.fills) else []
  }

  /** The copy of a measured call is defined: its own source and destination do not overlap. */
  ghost predicate CopyDefined(c: Call) {
    c.AddMeasuredPages? ==> Disjoint(c.src, Bytes(c.n), c.dst, Bytes(c.n))
  }

  lemma DigestStep(s: Snapshot, l: Log, e: Env, c: Call, s': Snapshot, r: Reply)
    requires |e.info| == INFO_SIZE && Sane(s) && Next(s, e, c, s', r) && r.Ret?
    requires DigestInv(s, l) && CopyDefined(c)
    ensures DigestInv(s', After(l, s, e, c, r))
  {
    hide Filled, Zeroed, Patch, LoadWord, Stream;
    if c.AddMeasuredPages? && r == Ret(0, 0) {
      DigestGrows(s, l, c);
    }
    EmptyStream();
  }

  lemma DigestGrows(s: Snapshot, l: Log, c: Call)
    requires c.AddMeasuredPages? && CopyDefined(c) && c.src + Bytes(c.n) <= SPACE && c.dst + Bytes(c.n) <= SPACE
    ensures var f := Fill(c.gpa, c.dst, c.n, SourceOf(s, c));
            Stream(l.fills + [f]) == Stream(l.fills) + Copied(s.mem, c.src, c.dst, Bytes(c.n))[c.src..c.src + Bytes(c.n)]
  {
    CopyFacts(s.mem, c.src, c.dst, Bytes(c.n));
    hide Copied;
    var f := Fill(c.gpa, c.dst, c.n, SourceOf(s, c));
    assert (l.fills + [f])[..|l.fills|] == l.fills;
  }

  lemma EmptyStream()
    ensures Stream([]) == []
  {
  }

  /** A run of any host together with the log of its measured calls. */
  ghost predicate IsDigestRun(e: Env, ss: seq<Snapshot>, ls: seq<Log>, cs: seq<Call>, rs: seq<Reply>)
    requires |e.info| == INFO_SIZE
  {
    && IsRun(e, ss, cs, rs) && |ls| == |ss|
    && (forall i {:trigger cs[i]} | 0 <= i < |cs| ::
          CopyDefined(cs[i]) && ls[i + 1] == After(ls[i], ss[i], e, cs[i], rs[i]))
  }

  lemma {:induction false} DigestInvariant(e: Env, ss: seq<Snapshot>, ls: seq<Log>, cs: seq<Call>, rs: seq<Reply>)
    requires |e.info| == INFO_SIZE && IsDigestRun(e, ss, ls, cs, rs) && ss[0].tvm.None?
    ensures DigestInv(ss[|cs|], ls[|cs|])
  {
    if cs != [] {
      var n := |cs| - 1;
      RunPrefix(e, ss, cs, rs);
      assert forall i | 0 <= i < n :: cs[..n][i] == cs[i];
      DigestInvariant(e, ss[..n + 1], ls[..n + 1], cs[..n], rs[..n]);
      assert cs[n] == cs[n];
      DigestStep(ss[n], ls[n], e, cs[n], ss[n + 1], rs[n]);
    }
  }

  /** For any host, the first finalize digests the measured pages in call order. */
  lemma FirstFinalize(e: Env, ss: seq<Snapshot>, ls: seq<Log>, cs: seq<Call>, rs: seq<Reply>, s': Snapshot, c: Call)
    requires |e.info| == INFO_SIZE && IsDigestRun(e, ss, ls, cs, rs) && ss[0].tvm.None? && c.FinalizeTvm?
    requires var s := ss[|cs|];
             s.tvm.Some? && s.tvm.value.state.Initializing? && Sane(s) && Next(s, e, c, s', Ret(0, 0))
    ensures s'.measurement == Some(e.hash(Stream(ls[|cs|].fills)))
    ensures s'.tvm.Some? && s'.tvm.value.measure == e.hash(Stream(ls[|cs|].fills))
  {
    DigestInvariant(e, ss, ls, cs, rs);
  }

  /** ... and every measured byte is what the guest reads at its address. */
  lemma MeasuredIsSeen(s: Snapshot, l: Log, k: nat, i: nat)
    requires MeasInv(s, l) && s.tvm.Some? && k < |l.fills| && i < |l.fills[k].data|
    ensures GuestByte(s.mem, s.tvm.value.pageTable, l.fills[k].gpa + i) == Some(l.fills[k].data[i])
  {
    hide InPlace, GuestByte, Stream, DirectoryOk, Shape;
    assert InPlace(s.mem, s.tvm.value.pageTable, l.fills[k]);
    FillIsSeen(s.mem, s.tvm.value.pageTable, l.fills[k], i);
  }

  lemma FillIsSeen(m: Memory, root: nat, f: Fill, i: nat)
    requires RootOk(root) && Shape(m, root) && InPlace(m, root, f) && i < |f.data|
    ensures GuestByte(m, root, f.gpa + i) == Some(f.data[i])
  {
    hide Shape, View, GuestByte, Vpn2, LowPage;
    var d, x := View(m, root), f.gpa / 4096 + i / 4096;
    OffsetInFill(f.gpa, f.n, i);
    GuestByteIs(m, root, f.gpa + i);
    assert d.pages[x] + i % 4096 == f.dst + i;
    assert m[f.dst..f.dst + Bytes(f.n)][i] == f.data[i];
  }

  lemma OffsetInFill(gpa: nat, n: nat, i: nat)
    requires gpa % 4096 == 0 && i < Bytes(n) && gpa + Bytes(n) <= GIB
    ensures Vpn2(gpa + i) == 0
    ensures LowPage(gpa + i) == gpa / 4096 + i / 4096 && (gpa + i) % 4096 == i % 4096
  {
    assert gpa + i == 4096 * (gpa / 4096 + i / 4096) + i % 4096;
    assert (gpa + i) / 4096 == gpa / 4096 + i / 4096;
  }

  /** Neither a finalize nor a destroy call. */
  predicate Leaves(c: Call) {
    !c.FinalizeTvm? && !c.DestroyTvm?
  }

  lemma LeavesMeasurement(s: Snapshot, e: Env, c: Call, s': Snapshot, r: Reply)
    requires |e.info| == INFO_SIZE && Sane(s) && Next(s, e, c, s', r) && r.Ret? && s.tvm.Some? && Leaves(c)
    ensures s'.tvm.Some? && s'.tvm.value.measure == s.tvm.value.measure && s'.measurement == s.measurement
  {
  }

  lemma {:induction false} MeasurementStays(e: Env, ss: seq<Snapshot>, cs: seq<Call>, rs: seq<Reply>)
    requires |e.info| == INFO_SIZE && IsRun(e, ss, cs, rs) && ss[0].tvm.Some? && forall c | c in cs :: Leaves(c)
    ensures ss[|cs|].tvm.Some? && ss[|cs|].tvm.value.measure == ss[0].tvm.value.measure
    ensures ss[|cs|].measurement == ss[0].measurement
  {
    if cs != [] {
      var n := |cs| - 1;
      RunPrefix(e, ss, cs, rs);
      hide Next;
      MeasurementStays(e, ss[..n + 1], cs[..n], rs[..n]);
      LeavesMeasurement(ss[n], e, cs[n], ss[n + 1], rs[n]);
    }
  }

  /**
   For any host: after the first finalize `c` and any further calls `ds` but finalize and destroy, the measurement
   is still the digest of the pages measured before it.
   */
  lemma MeasurementStable(e: Env, ss: seq<Snapshot>, ls: seq<Log>, cs: seq<Call>, rs: seq<Reply>, c: Call,
                          ts: seq<Snapshot>, ds: seq<Call>, qs: seq<Reply>)
    requires |e.info| == INFO_SIZE && IsDigestRun(e, ss, ls, cs, rs) && ss[0].tvm.None? && c.FinalizeTvm?
    requires IsRun(e, ts, ds, qs) && forall d | d in ds :: Leaves(d)
    requires var s := ss[|cs|];
             s.tvm.Some? && s.tvm.value.state.Initializing? && Sane(s) && Next(s, e, c, ts[0], Ret(0, 0))
    ensures ts[|ds|].measurement == Some(e.hash(Stream(ls[|cs|].fills)))
    ensures ts[|ds|].tvm.Some? && ts[|ds|].tvm.value.measure == e.hash(Stream(ls[|cs|].fills))
  {
    hide Next, Stream;
    FirstFinalize(e, ss, ls, cs, rs, ts[0], c);
    MeasurementStays(e, ts, ds, qs);
  }

  /** For any host, a second finalize replaces the measurement by the digest of the empty stream. */
  lemma SecondFinalize(e: Env, ss: seq<Snapshot>, ls: seq<Log>, cs: seq<Call>, rs: seq<Reply>, s': Snapshot, c: Call)
    requires |e.info| == INFO_SIZE && IsDigestRun(e, ss, ls, cs, rs) && ss[0].tvm.None? && c.FinalizeTvm?
    requires var s := ss[|cs|];
             s.tvm.Some? && s.tvm.value.state.Runnable? && Sane(s) && Next(s, e, c, s', Ret(0, 0))
    ensures s'.measurement == Some(e.hash([])) && s'.tvm.Some? && s'.tvm.value.measure == e.hash([])
  {
    DigestInvariant(e, ss, ls, cs, rs);
  }
}
