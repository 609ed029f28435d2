/**
 Runs of CoVH calls. Confidential blocks are conserved over every run; and as long as the host
 keeps regions in the first gigabyte and its buffers off the page directory, every translating
 guest address lies in exactly one declared region and in a tracked confidential block.
 */
module Lifecycle {
  import opened Memory
  import opened PageTable
  import opened Mapping
  import opened GuestMemory
  import opened Hypervisor
  import opened Covh

  /** A run: `ss[i]` is the state before call `cs[i]`, which returned `rs[i]` to the host. */
  ghost predicate IsRun(e: Env, ss: seq<Snapshot>, cs: seq<Call>, rs: seq<Reply>)
    requires |e.info| == INFO_SIZE
  {
    && |ss| == |cs| + 1 && |rs| == |cs|
    && Sane(ss[0])
    && (forall i {:trigger cs[i]} | 0 <= i < |cs| ::
          rs[i].Ret? && Sane(ss[i]) && Next(ss[i], e, cs[i], ss[i + 1], rs[i]))
  }

  lemma RunPrefix(e: Env, ss: seq<Snapshot>, cs: seq<Call>, rs: seq<Reply>)
    requires |e.info| == INFO_SIZE && IsRun(e, ss, cs, rs) && cs != []
    ensures var n := |cs| - 1;
            && IsRun(e, ss[..n + 1], cs[..n], rs[..n])
            && rs[n].Ret? && Sane(ss[n]) && Next(ss[n], e, cs[n], ss[n + 1], rs[n])
  {
    hide Next, Sane;
    var n := |cs| - 1;
    var last := cs[n];
    assert rs[n].Ret? && Sane(ss[n]) && Next(ss[n], e, last, ss[n + 1], rs[n]);
    var ss', cs', rs' := ss[..n + 1], cs[..n], rs[..n];
    var first := cs[0];
    assert ss'[0] == ss[0] && Sane(ss[0]);
    forall i | 0 <= i < n
      ensures rs'[i].Ret? && Sane(ss'[i]) && Next(ss'[i], e, cs'[i], ss'[i + 1], rs'[i])
    {
      assert cs'[i] == cs[i] && ss'[i] == ss[i] && ss'[i + 1] == ss[i + 1];
    }
  }

  // ----- conservation of confidential blocks

  ghost function Pairs(blocks: seq<Block>): seq<(nat, nat)> {
    seq(|blocks|, i requires 0 <= i < |blocks| => (blocks[i].base, blocks[i].pages))
  }

  ghost function Ids(blocks: seq<Block>): multiset<(nat, nat)> {
    multiset(Pairs(blocks))
  }

  ghost function Converted(cs: seq<Call>): multiset<(nat, nat)> {
    if cs == [] then multiset{}
    else
      Converted(cs[..|cs| - 1]) + Gained(cs[|cs| - 1])
  }

  ghost function Reclaimed(cs: seq<Call>, rs: seq<Reply>): multiset<(nat, nat)>
    requires |rs| == |cs|
  {
    if cs == [] then multiset{}
    else
      var n := |cs| - 1;
      Reclaimed(cs[..n], rs[..n]) + Lost(cs[n], rs[n])
  }

  lemma IdsOfRemoval(blocks: seq<Block>, i: nat)
    requires i < |blocks|
    ensures Ids(blocks) == Ids(blocks[..i] + blocks[i + 1..]) + multiset{(blocks[i].base, blocks[i].pages)}
  {
    var ps := Pairs(blocks);
    assert Pairs(blocks[..i] + blocks[i + 1..]) == ps[..i] + ps[i + 1..];
    assert ps == ps[..i] + [ps[i]] + ps[i + 1..];
  }

  lemma IdsOfAddition(blocks: seq<Block>, b: Block)
    ensures Ids(blocks + [b]) == Ids(blocks) + multiset{(b.base, b.pages)}
  {
    assert Pairs(blocks + [b]) == Pairs(blocks) + [(b.base, b.pages)];
  }

  lemma IdsOfOwned(blocks: seq<Block>, i: nat)
    requires i < |blocks|
    ensures Ids(Own(blocks, i)) == Ids(blocks)
  {
    assert Pairs(Own(blocks, i)) == Pairs(blocks);
  }

  lemma IdsOfCreation(blocks: seq<Block>, pt: nat, st: nat)
    ensures Ids(Owned(blocks, pt, st)) == Ids(blocks)
  {
    var d, t := ScanBlocks(blocks, 0, pt, pt + DIRECTORY_SIZE), ScanBlocks(blocks, 0, st, st + PAGE_SIZE);
    if d.Hit? && t.Hit? {
      IdsOfOwned(blocks, d.index);
      IdsOfOwned(Own(blocks, d.index), t.index);
    }
  }

  /** The only calls that touch the list of tracked blocks. */
  lemma BlocksStep(s: Snapshot, e: Env, c: Call, s': Snapshot, r: Reply)
    requires |e.info| == INFO_SIZE && Sane(s) && Next(s, e, c, s', r) && r.Ret?
    ensures match c
            case ConvertPages(base, n) => s'.blocks == s.blocks + [Block(base, n, None)]
            case ReclaimPages(base, n) =>
              if r == Ret(0, 0) then
                var i := Match(s.blocks, 0, base, n);
                i.Some? && s'.blocks == s.blocks[..i.value] + s.blocks[i.value + 1..]
              else s'.blocks == s.blocks
            case CreateTvm(_, _) => s'.blocks == s.blocks || exists pt, st :: s'.blocks == Owned(s.blocks, pt, st)
            case _ => s'.blocks == s.blocks
  {
  }

  ghost function Gained(c: Call): multiset<(nat, nat)> {
    if c.ConvertPages? then multiset{(c.base, c.n)} else multiset{}
  }

  ghost function Lost(c: Call, r: Reply): multiset<(nat, nat)> {
    if c.ReclaimPages? && r == Ret(0, 0) then multiset{(c.base, c.n)} else multiset{}
  }

  lemma ConservationStep(s: Snapshot, e: Env, c: Call, s': Snapshot, r: Reply)
    requires |e.info| == INFO_SIZE && Sane(s) && Next(s, e, c, s', r) && r.Ret?
    ensures Ids(s'.blocks) + Lost(c, r) == Ids(s.blocks) + Gained(c)
  {
    BlocksStep(s, e, c, s', r);
    match c {
      case ConvertPages(base, n) =>
        IdsOfAddition(s.blocks, Block(base, n, None));
      case ReclaimPages(base, n) =>
        if r == Ret(0, 0) {
          IdsOfRemoval(s.blocks, Match(s.blocks, 0, base, n).value);
        }
      case CreateTvm(params, len) =>
        if s'.blocks != s.blocks {
          var pt, st :| s'.blocks == Owned(s.blocks, pt, st);
          IdsOfCreation(s.blocks, pt, st);
        }
      case _ =>
    }
  }

  /** Over every run the tracked blocks are the initial ones, plus conversions, minus successful reclaims. */
  lemma {:induction false} BlocksConserved(e: Env, ss: seq<Snapshot>, cs: seq<Call>, rs: seq<Reply>)
    requires |e.info| == INFO_SIZE && IsRun(e, ss, cs, rs)
    ensures Ids(ss[|cs|].blocks) + Reclaimed(cs, rs) == Ids(ss[0].blocks) + Converted(cs)
  {
    if cs != [] {
      var n := |cs| - 1;
      RunPrefix(e, ss, cs, rs);
      BlocksConserved(e, ss[..n + 1], cs[..n], rs[..n]);
      ConservationStep(ss[n], e, cs[n], ss[n + 1], rs[n]);
      Balance(Ids(ss[0].blocks), Ids(ss[n].blocks), Ids(ss[n + 1].blocks), Converted(cs[..n]), Reclaimed(cs[..n], rs[..n]),
              Gained(cs[n]), Lost(cs[n], rs[n]));
    }
  }

  lemma Balance<T>(start: multiset<T>, before: multiset<T>, after: multiset<T>,
                   ins: multiset<T>, outs: multiset<T>, i: multiset<T>, o: multiset<T>)
    requires before + outs == start + ins && after + o == before + i
    ensures after + (outs + o) == start + (ins + i)
  {
    assert after + (outs + o) == (after + o) + outs;
    assert (before + i) + outs == (before + outs) + i;
  }

  /**
   A successful reclaim happens only without a TVM, drops the first matching block, keeps the
   rest in order and leaves its range zero and all other memory as it was.
   */
  lemma ReclaimExact(s: Snapshot, e: Env, base: Usize, n: Usize, s': Snapshot)
    requires |e.info| == INFO_SIZE && Sane(s) && Next(s, e, ReclaimPages(base, n), s', Ret(0, 0))
    ensures s.tvm.None? && SameOutside(s.mem, s'.mem, base, base + Bytes(n))
    ensures base + Bytes(n) <= SPACE && forall i | base <= i < base + Bytes(n) :: s'.mem[i] == 0
    ensures exists i ::
              && 0 <= i < |s.blocks| && s.blocks[i].base == base && s.blocks[i].pages == n
              && s'.blocks == s.blocks[..i] + s.blocks[i + 1..]
              && forall k | 0 <= k < i :: s.blocks[k].base != base || s.blocks[k].pages != n
  {
    var i := Match(s.blocks, 0, base, n).value;
    assert s'.blocks == s.blocks[..i] + s.blocks[i + 1..];
  }

  // ----- the lifecycle invariant

  ghost predicate Apart(a: MemoryRegion, b: MemoryRegion) {
    RegionEnd(a) <= b.base || RegionEnd(b) <= a.base
  }

  /** Declared regions are aligned, non-empty, pairwise disjoint and in the first gigabyte. */
  ghost predicate RegionsOk(rs: seq<MemoryRegion>) {
    && (forall k | 0 <= k < |rs| :: rs[k].base % 4096 == 0 && rs[k].pages > 0 && RegionEnd(rs[k]) <= GIB)
    && (forall j, k | 0 <= j < k < |rs| :: Apart(rs[j], rs[k]))
  }

  ghost predicate Declared(rs: seq<MemoryRegion>, x: nat) {
    exists k :: 0 <= k < |rs| && RegionCovers(rs[k], x * 4096, x * 4096 + 4096)
  }

  ghost predicate Backed(blocks: seq<Block>, pa: nat) {
    exists k :: 0 <= k < |blocks| && BlockCovers(blocks[k], pa, pa + 4096)
  }

  ghost predicate DirectoryOk(d: Directory, rs: seq<MemoryRegion>, blocks: seq<Block>) {
    && d.roots <= {0}
    && (forall x {:trigger d.pages[x]} | x in d.pages :: Declared(rs, x) && Backed(blocks, d.pages[x]))
  }

  ghost predicate LifeInv(s: Snapshot) {
    s.tvm.Some? ==>
      var t := s.tvm.value;
      && RootOk(t.pageTable) && Shape(s.mem, t.pageTable)
      && RegionsOk(t.regions)
      && DirectoryOk(View(s.mem, t.pageTable), t.regions, s.blocks)
  }

  /** The host keeps regions below 1 GiB and points no buffer of its own at the page directory. */
  ghost predicate Benign(s: Snapshot, c: Call) {
    match c
    case GetTsmInfo(addr, _) => s.tvm.Some? ==> OutsideDirectory(s.tvm.value.pageTable, addr, addr + INFO_SIZE)
    case AddMemoryRegion(_, gpa, len) => gpa + len <= GIB
    case AddMeasuredPages(_, _, dst, _, n, _) =>
      s.tvm.Some? ==> OutsideDirectory(s.tvm.value.pageTable, dst, dst + Bytes(n))
    case _ => true
  }

  lemma FillKeeps(d: Directory, rs: seq<MemoryRegion>, blocks: seq<Block>, gpa: nat, pa: nat, n: nat, i: nat)
    requires RegionsOk(rs) && DirectoryOk(d, rs, blocks)
    requires gpa % 4096 == 0 && pa % 4096 == 0
    requires SomeRegionCovers(rs, gpa, gpa + Bytes(n))
    requires i < |blocks| && BlockCovers(blocks[i], pa, pa + Bytes(n))
    ensures DirectoryOk(Apply(d, RegionOps(gpa, pa, n, PERMS)), rs, blocks)
    ensures gpa + Bytes(n) <= GIB
  {
    var k :| 0 <= k < |rs| && RegionCovers(rs[k], gpa, gpa + Bytes(n));
    RegionApplied(d, gpa, pa, n, PERMS);
    var d' := Apply(d, RegionOps(gpa, pa, n, PERMS));
    forall x | x in d'.pages ensures Declared(rs, x) && Backed(blocks, d'.pages[x]) {
      if x in RegionPages(gpa / 4096, pa, n) {
        PageInRange(gpa, pa, n, x);
        assert RegionCovers(rs[k], x * 4096, x * 4096 + 4096);
        assert BlockCovers(blocks[i], d'.pages[x], d'.pages[x] + 4096);
      } else {
        assert d'.pages[x] == d.pages[x];
      }
    }
  }

  lemma PageInRange(gpa: nat, pa: nat, n: nat, x: nat)
    requires gpa % 4096 == 0 && x in RegionPages(gpa / 4096, pa, n)
    ensures gpa <= x * 4096 && x * 4096 + 4096 <= gpa + Bytes(n)
    ensures var f := RegionPages(gpa / 4096, pa, n)[x]; pa <= f && f + 4096 <= pa + Bytes(n)
  {
    assert gpa == 4096 * (gpa / 4096);
    assert RegionPages(gpa / 4096, pa, n)[x] == FrameAt(gpa / 4096, pa, x);
  }

  lemma MoreBlocks(d: Directory, rs: seq<MemoryRegion>, blocks: seq<Block>, b: Block)
    requires DirectoryOk(d, rs, blocks)
    ensures DirectoryOk(d, rs, blocks + [b])
  {
    forall x | x in d.pages ensures Backed(blocks + [b], d.pages[x]) {
      var k :| 0 <= k < |blocks| && BlockCovers(blocks[k], d.pages[x], d.pages[x] + 4096);
      assert (blocks + [b])[k] == blocks[k];
    }
  }

  lemma MoreRegions(d: Directory, rs: seq<MemoryRegion>, blocks: seq<Block>, r: MemoryRegion)
    requires DirectoryOk(d, rs, blocks)
    ensures DirectoryOk(d, rs + [r], blocks)
  {
    forall x | x in d.pages ensures Declared(rs + [r], x) {
      var k :| 0 <= k < |rs| && RegionCovers(rs[k], x * 4096, x * 4096 + 4096);
      assert (rs + [r])[k] == rs[k];
    }
  }

  lemma RegionAdded(s: Snapshot, id: nat, gpa: Usize, len: nat, s': Snapshot)
    requires LifeInv(s) && AddRegionStep(s, id, gpa, len, s', Accept) && gpa + len <= GIB
    ensures LifeInv(s')
  {
    var rs, r := s.tvm.value.regions, MemoryRegion(gpa, len / 4096);
    assert RegionEnd(r) == gpa + len;
    MoreRegions(View(s.mem, s.tvm.value.pageTable), rs, s.blocks, r);
    forall k | 0 <= k < |rs| ensures Apart(rs[k], r) {
      assert !Overlaps(rs[k], gpa, gpa + len);
    }
  }

  lemma MeasuredKept(s: Snapshot, id: nat, src: nat, dst: nat, ty: nat, n: nat, gpa: nat, s': Snapshot)
    requires Sane(s) && LifeInv(s) && MeasuredStep(s, id, src, dst, ty, n, gpa, s', Accept)
    requires OutsideDirectory(s.tvm.value.pageTable, dst, dst + Bytes(n))
    ensures LifeInv(s')
  {
    var t := s.tvm.value;
    var m := Copied(s.mem, src, dst, Bytes(n));
    SameTableOutside(s.mem, m, t.pageTable, dst, dst + Bytes(n));
    var i := ScanBlocks(s.blocks, 0, dst, dst + Bytes(n)).index;
    FillKeeps(View(m, t.pageTable), t.regions, s.blocks, gpa, dst, n, i);
  }

  lemma ZeroKept(s: Snapshot, id: nat, base: nat, ty: nat, n: nat, gpa: nat, s': Snapshot)
    requires Sane(s) && LifeInv(s) && ZeroStep(s, id, base, ty, n, gpa, s', Accept)
    ensures LifeInv(s')
  {
    var t := s.tvm.value;
    var i := ScanBlocks(s.blocks, 0, base, base + Bytes(n)).index;
    FillKeeps(View(s.mem, t.pageTable), t.regions, s.blocks, gpa, base, n, i);
  }

  lemma CreateKept(s: Snapshot, pt: nat, st: nat, s': Snapshot)
    requires CreateStep(s, pt, st, s', Accept)
    ensures LifeInv(s')
  {
    ZeroIsEmpty(s'.mem, pt);
  }

  /** Every returning call of a benign host keeps the invariant. */
  lemma LifeInvStep(s: Snapshot, e: Env, c: Call, s': Snapshot, r: Reply)
    requires |e.info| == INFO_SIZE && Sane(s) && Next(s, e, c, s', r) && r.Ret?
    requires LifeInv(s) && Benign(s, c)
    ensures LifeInv(s')
  {
    hide Shape, View, Leaves, DirectoryOk, RegionMapped, ScanBlocks;
    match c {
      case GetTsmInfo(addr, len) =>
        if s.tvm.Some? {
          SameTableOutside(s.mem, s'.mem, s.tvm.value.pageTable, addr, addr + INFO_SIZE);
        }
      case ConvertPages(base, n) =>
        if s.tvm.Some? {
          MoreBlocks(View(s.mem, s.tvm.value.pageTable), s.tvm.value.regions, s.blocks, Block(base, n, None));
        }
      case CreateTvm(params, len) =>
        var pt, st := LoadWord(s.mem, params), LoadWord(s.mem, params + 8);
        if CreateVerdict(s, pt, st).Accept? {
          CreateKept(s, pt, st, s');
        }
      case AddMemoryRegion(id, gpa, len) =>
        if r == Ret(0, 0) {
          RegionAdded(s, id, gpa, len, s');
        }
      case AddMeasuredPages(id, src, dst, ty, n, gpa) =>
        if r == Ret(0, 0) {
          MeasuredKept(s, id, src, dst, ty, n, gpa, s');
        }
      case AddZeroPages(id, base, ty, n, gpa) =>
        if r == Ret(0, 0) {
          ZeroKept(s, id, base, ty, n, gpa, s');
        }
      case _ =>
    }
  }

  ghost predicate BenignRun(ss: seq<Snapshot>, cs: seq<Call>)
    requires |ss| == |cs| + 1
  {
    forall i {:trigger cs[i]} | 0 <= i < |cs| :: Benign(ss[i], cs[i])
  }

  /** The invariant holds after every benign run from a state without a TVM. */
  lemma {:induction false} LifecycleInvariant(e: Env, ss: seq<Snapshot>, cs: seq<Call>, rs: seq<Reply>)
    requires |e.info| == INFO_SIZE && IsRun(e, ss, cs, rs) && BenignRun(ss, cs) && ss[0].tvm.None?
    ensures LifeInv(ss[|cs|])
  {
    if cs != [] {
      var n := |cs| - 1;
      RunPrefix(e, ss, cs, rs);
      assert forall i | 0 <= i < n :: cs[..n][i] == cs[i];
      LifecycleInvariant(e, ss[..n + 1], cs[..n], rs[..n]);
      assert Benign(ss[n], cs[n]);
      LifeInvStep(ss[n], e, cs[n], ss[n + 1], rs[n]);
    }
  }

  ghost predicate InRegion(r: MemoryRegion, gpa: nat) {
    r.base <= gpa < RegionEnd(r)
  }

  /** What the invariant means for a guest address. */
  lemma TranslatedIsDeclared(s: Snapshot, gpa: nat)
    requires LifeInv(s) && s.tvm.Some? && gpa < SV39_SPACE
    requires TranslateGpaToPa(s.mem, s.tvm.value.pageTable, gpa).Some?
    ensures var rs, pa := s.tvm.value.regions, TranslateGpaToPa(s.mem, s.tvm.value.pageTable, gpa).value;
            && (exists k :: 0 <= k < |rs| && InRegion(rs[k], gpa))
            && (forall j, k | 0 <= j < |rs| && 0 <= k < |rs| && InRegion(rs[j], gpa) && InRegion(rs[k], gpa) :: j == k)
            && Backed(s.blocks, PageBase(pa))
  {
    var t := s.tvm.value;
    var d, x := View(s.mem, t.pageTable), LowPage(gpa);
    TranslateIsLookUp(s.mem, t.pageTable, gpa);
    FrameInSpace(s.mem, t.pageTable, x);
    FirstGigabyte(gpa);
    BaseOfSum(d.pages[x], gpa % 4096);
    RegionFound(t.regions, x, gpa);
    RegionUnique(t.regions, gpa);
  }

  lemma RegionFound(rs: seq<MemoryRegion>, x: nat, gpa: nat)
    requires Declared(rs, x) && x * 4096 <= gpa < x * 4096 + 4096
    ensures exists k :: 0 <= k < |rs| && InRegion(rs[k], gpa)
  {
    var k :| 0 <= k < |rs| && RegionCovers(rs[k], x * 4096, x * 4096 + 4096);
    assert InRegion(rs[k], gpa);
  }

  lemma RegionUnique(rs: seq<MemoryRegion>, gpa: nat)
    requires RegionsOk(rs)
    ensures forall j, k | 0 <= j < |rs| && 0 <= k < |rs| && InRegion(rs[j], gpa) && InRegion(rs[k], gpa) :: j == k
  {
    forall j, k | 0 <= j < k < |rs| ensures !(InRegion(rs[j], gpa) && InRegion(rs[k], gpa)) {
      assert Apart(rs[j], rs[k]);
    }
  }

  lemma FirstGigabyte(gpa: nat)
    requires gpa < SV39_SPACE && Vpn2(gpa) == 0
    ensures LowPage(gpa) * 4096 <= gpa < LowPage(gpa) * 4096 + 4096
  {
    GigabyteOfPage(gpa);
  }

  lemma BaseOfSum(frame: nat, off: nat)
    requires frame % 4096 == 0 && off < 4096
    ensures PageBase(frame + off) == frame
  {
    assert frame == 4096 * (frame / 4096);
  }
}
