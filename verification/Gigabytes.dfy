/**
 Regions anywhere: without the bound to the first gigabyte, a translating address need not be
 declared, because all gigabytes share one L1 table. This is exactly when it is, over every run.
 */
module Gigabytes {
  import opened Memory
  import opened PageTable
  import opened Mapping
  import opened GuestMemory
  import opened Hypervisor
  import opened Covh
  import opened Lifecycle

  // ----- the directory as the log of accepted fills

  /** The host points no buffer of its own at the page directory; it may declare regions anywhere. */
  ghost predicate KeepsDirectory(s: Snapshot, c: Call) {
    match c
    case GetTsmInfo(addr, _) => s.tvm.Some? ==> OutsideDirectory(s.tvm.value.pageTable, addr, addr + INFO_SIZE)
    case AddMeasuredPages(_, _, dst, _, n, _) =>
      s.tvm.Some? ==> OutsideDirectory(s.tvm.value.pageTable, dst, dst + Bytes(n))
    case _ => true
  }

  /** The pages of accepted fills since the TVM was created, one mapping call each. */
  ghost function Filed(ops: seq<MapOp>, c: Call, r: Reply): seq<MapOp> {
    if !r.Ret? || r.a0 != 0 then ops
    else
      match c
      case CreateTvm(_, _) => []
      case AddMeasuredPages(_, _, dst, _, n, gpa) => ops + RegionOps(gpa, dst, n, PERMS)
      case AddZeroPages(_, base, _, n, gpa) => ops + RegionOps(gpa, base, n, PERMS)
      case _ => ops
  }

  ghost function FillsOf(cs: seq<Call>, rs: seq<Reply>): seq<MapOp>
    requires |rs| == |cs|
  {
    if cs == [] then []
    else
      var n := |cs| - 1;
      Filed(FillsOf(cs[..n], rs[..n]), cs[n], rs[n])
  }

  ghost predicate AllAccess(ops: seq<MapOp>) {
    forall i | 0 <= i < |ops| :: HasAccess(ops[i].perms)
  }

  ghost predicate TableInv(s: Snapshot, ops: seq<MapOp>) {
    && AllAccess(ops)
    && (s.tvm.Some? ==>
          var root := s.tvm.value.pageTable;
          && RootOk(root) && Shape(s.mem, root) && View(s.mem, root) == Apply(EMPTY, ops)
          && Flagged(View(s.mem, root), Leaves(s.mem, root), PERMS))
  }

  lemma {:induction false} ApplyAppend(d: Directory, a: seq<MapOp>, b: seq<MapOp>)
    ensures Apply(d, a + b) == Apply(Apply(d, a), b)
  {
    if b == [] {
      assert a + b == a;
    } else {
      var n := |b| - 1;
      ApplyAppend(d, a, b[..n]);
      assert (a + b)[..|a| + n] == a + b[..n];
    }
  }

  lemma FillFiled(m: Memory, m': Memory, root: nat, ops: seq<MapOp>, gpa: nat, pa: nat, n: nat)
    requires RootOk(root) && RegionMapped(m, m', root, gpa, pa, n, PERMS)
    requires View(m, root) == Apply(EMPTY, ops) && AllAccess(ops)
    requires RegionFits(gpa, n) && Flagged(View(m, root), Leaves(m, root), PERMS)
    ensures View(m', root) == Apply(EMPTY, ops + RegionOps(gpa, pa, n, PERMS))
    ensures AllAccess(ops + RegionOps(gpa, pa, n, PERMS)) && Flagged(View(m', root), Leaves(m', root), PERMS)
  {
    hide Apply, Shape, View, SameOutside, Leaves, Flagged, WrittenLeaves;
    FlaggedRegion(View(m, root), Leaves(m, root), gpa, pa, n, PERMS);
    ApplyAppend(EMPTY, ops, RegionOps(gpa, pa, n, PERMS));
    var more := RegionOps(gpa, pa, n, PERMS);
    forall i | 0 <= i < |ops + more| ensures HasAccess((ops + more)[i].perms) {
    }
  }

  lemma TableStep(s: Snapshot, ops: seq<MapOp>, e: Env, c: Call, s': Snapshot, r: Reply)
    requires |e.info| == INFO_SIZE && Sane(s) && Next(s, e, c, s', r) && r.Ret?
    requires TableInv(s, ops) && KeepsDirectory(s, c)
    ensures TableInv(s', Filed(ops, c, r))
  {
    hide Apply, RegionOps, Flagged, Leaves;
    match c {
      case GetTsmInfo(addr, len) =>
        if s.tvm.Some? {
          SameTableOutside(s.mem, s'.mem, s.tvm.value.pageTable, addr, addr + INFO_SIZE);
        }
      case CreateTvm(params, len) =>
        if r.a0 == 0 {
          CreatedEmpty(s, LoadWord(s.mem, params), LoadWord(s.mem, params + 8), s');
        }
      case AddMeasuredPages(id, src, dst, ty, n, gpa) =>
        if r == Ret(0, 0) {
          var root, m := s.tvm.value.pageTable, Copied(s.mem, src, dst, Bytes(n));
          SameTableOutside(s.mem, m, root, dst, dst + Bytes(n));
          FillFiled(m, s'.mem, root, ops, gpa, dst, n);
        }
      case AddZeroPages(id, base, ty, n, gpa) =>
        if r == Ret(0, 0) {
          FillFiled(s.mem, s'.mem, s.tvm.value.pageTable, ops, gpa, base, n);
        }
      case _ =>
    }
  }

  lemma CreatedEmpty(s: Snapshot, pt: nat, st: nat, s': Snapshot)
    requires CreateStep(s, pt, st, s', Accept)
    ensures TableInv(s', [])
  {
    ZeroIsEmpty(s'.mem, pt);
    assert Apply(EMPTY, []) == EMPTY;
  }

  lemma {:induction false} TableInvariant(e: Env, ss: seq<Snapshot>, cs: seq<Call>, rs: seq<Reply>)
    requires |e.info| == INFO_SIZE && IsRun(e, ss, cs, rs) && ss[0].tvm.None?
    requires forall i {:trigger cs[i]} | 0 <= i < |cs| :: KeepsDirectory(ss[i], cs[i])
    ensures TableInv(ss[|cs|], FillsOf(cs, rs))
  {
    if cs != [] {
      var n := |cs| - 1;
      RunPrefix(e, ss, cs, rs);
      assert forall i | 0 <= i < n :: cs[..n][i] == cs[i];
      hide TableInv, Filed, Next;
      TableInvariant(e, ss[..n + 1], cs[..n], rs[..n]);
      assert KeepsDirectory(ss[n], cs[n]);
      TableStep(ss[n], FillsOf(cs[..n], rs[..n]), e, cs[n], ss[n + 1], rs[n]);
    }
  }

  /** Over every such run: each page of the guest is valid, readable, writable, executable and not yet accessed or dirty. */
  lemma FilledPagesOpen(e: Env, ss: seq<Snapshot>, cs: seq<Call>, rs: seq<Reply>, gpa: nat)
    requires |e.info| == INFO_SIZE && IsRun(e, ss, cs, rs) && ss[0].tvm.None? && ss[|cs|].tvm.Some?
    requires forall i {:trigger cs[i]} | 0 <= i < |cs| :: KeepsDirectory(ss[i], cs[i])
    ensures var s, root := ss[|cs|], ss[|cs|].tvm.value.pageTable;
            && RootOk(root)
            && (TranslateGpaToPa(s.mem, root, gpa).Some? ==>
                  LowPage(gpa) < LEAVES && OpenLeaf(LeafFor(s.mem, root, gpa)) && UnusedLeaf(LeafFor(s.mem, root, gpa)))
  {
    TableInvariant(e, ss, cs, rs);
    hide FillsOf, IsRun, Shape, View, Apply, Flagged;
    var s := ss[|cs|];
    if TranslateGpaToPa(s.mem, s.tvm.value.pageTable, gpa).Some? {
      FillLeaf(s.mem, s.tvm.value.pageTable, gpa);
    }
  }

  // ----- the exact condition

  function PageNumber(v: nat, x: nat): nat {
    v * 0x4_0000 + x
  }

  lemma Sv39Page(gpa: nat)
    requires gpa < SV39_SPACE
    ensures gpa / 4096 == PageNumber(Vpn2(gpa), LowPage(gpa))
  {
    VirtualPageSplit(gpa);
    assert gpa / 4096 < 0x800_0000;
  }

  lemma AddressPage(v: nat, x: nat)
    requires v < ENTRIES && x < 0x4_0000
    ensures Address(v, x) < SV39_SPACE && Address(v, x) / 4096 == PageNumber(v, x)
  {
  }

  lemma {:induction false} FilledPages(ops: seq<MapOp>, x: nat)
    requires AllAccess(ops)
    ensures x in Apply(EMPTY, ops).pages <==> LowTouched(ops, x)
  {
    if ops != [] {
      var n := |ops| - 1;
      var init := ops[..n];
      FilledPages(init, x);
      assert HasAccess(ops[n].perms);
      if LowTouched(init, x) {
        var i :| 0 <= i < |init| && LowPage(init[i].gpa) == x;
        assert ops[i] == init[i];
      }
      if LowTouched(ops, x) && LowPage(ops[n].gpa) != x {
        var i :| 0 <= i < |ops| && LowPage(ops[i].gpa) == x;
        assert init[i] == ops[i];
      }
    }
  }

  /** Every address that translates lies in a declared region. */
  ghost predicate TranslatedDeclared(s: Snapshot)
    requires s.tvm.Some? && RootOk(s.tvm.value.pageTable)
  {
    forall gpa: nat {:trigger TranslateGpaToPa(s.mem, s.tvm.value.pageTable, gpa)} |
      gpa < SV39_SPACE && TranslateGpaToPa(s.mem, s.tvm.value.pageTable, gpa).Some? :: Declared(s.tvm.value.regions, gpa / 4096)
  }

  /** For any two filled pages, the page with the second's low number in the first's gigabyte is declared. */
  ghost predicate FillsClosed(ops: seq<MapOp>, rs: seq<MemoryRegion>) {
    forall i, j {:trigger ops[i], ops[j]} | 0 <= i < |ops| && 0 <= j < |ops| ::
      Declared(rs, PageNumber(Vpn2(ops[i].gpa), LowPage(ops[j].gpa)))
  }

  lemma FilledTranslates(ops: seq<MapOp>, gpa: nat)
    requires AllAccess(ops)
    ensures LookUp(Apply(EMPTY, ops), gpa).Some? <==> Touched(ops, Vpn2(gpa)) && LowTouched(ops, LowPage(gpa))
  {
    TouchedRoots(ops, Vpn2(gpa));
    FilledPages(ops, LowPage(gpa));
  }

  lemma ClosedSuffices(s: Snapshot, ops: seq<MapOp>, gpa: nat)
    requires s.tvm.Some? && TableInv(s, ops) && FillsClosed(ops, s.tvm.value.regions) && gpa < SV39_SPACE
    requires TranslateGpaToPa(s.mem, s.tvm.value.pageTable, gpa).Some?
    ensures Declared(s.tvm.value.regions, gpa / 4096)
  {
    hide Apply, Walk, Declared;
    TranslateIsLookUp(s.mem, s.tvm.value.pageTable, gpa);
    FilledTranslates(ops, gpa);
    var i :| 0 <= i < |ops| && Vpn2(ops[i].gpa) == Vpn2(gpa);
    var j :| 0 <= j < |ops| && LowPage(ops[j].gpa) == LowPage(gpa);
    assert ops[i] == ops[i] && ops[j] == ops[j];
    Sv39Page(gpa);
  }

  lemma ClosedNeeded(s: Snapshot, ops: seq<MapOp>, i: nat, j: nat)
    requires s.tvm.Some? && TableInv(s, ops) && TranslatedDeclared(s) && i < |ops| && j < |ops|
    ensures Declared(s.tvm.value.regions, PageNumber(Vpn2(ops[i].gpa), LowPage(ops[j].gpa)))
  {
    hide Apply, Walk, Declared;
    var v, x := Vpn2(ops[i].gpa), LowPage(ops[j].gpa);
    AddressOf(v, x);
    AddressPage(v, x);
    FilledTranslates(ops, Address(v, x));
    TranslateIsLookUp(s.mem, s.tvm.value.pageTable, Address(v, x));
  }

  /**
   Exact, over every run of a host that leaves the directory alone: all translating addresses are
   declared precisely when the pages the host filled are closed under mixing gigabytes.
   */
  lemma DeclaredExact(e: Env, ss: seq<Snapshot>, cs: seq<Call>, rs: seq<Reply>)
    requires |e.info| == INFO_SIZE && IsRun(e, ss, cs, rs) && ss[0].tvm.None? && ss[|cs|].tvm.Some?
    requires forall i {:trigger cs[i]} | 0 <= i < |cs| :: KeepsDirectory(ss[i], cs[i])
    ensures RootOk(ss[|cs|].tvm.value.pageTable)
    ensures TranslatedDeclared(ss[|cs|]) <==> FillsClosed(FillsOf(cs, rs), ss[|cs|].tvm.value.regions)
  {
    TableInvariant(e, ss, cs, rs);
    var s, ops := ss[|cs|], FillsOf(cs, rs);
    hide FillsOf, IsRun, Declared, TranslateGpaToPa;
    if TranslatedDeclared(s) {
      forall i, j | 0 <= i < |ops| && 0 <= j < |ops|
        ensures Declared(s.tvm.value.regions, PageNumber(Vpn2(ops[i].gpa), LowPage(ops[j].gpa)))
      {
        ClosedNeeded(s, ops, i, j);
      }
    }
    if FillsClosed(ops, s.tvm.value.regions) {
      forall gpa: nat | gpa < SV39_SPACE && TranslateGpaToPa(s.mem, s.tvm.value.pageTable, gpa).Some?
        ensures Declared(s.tvm.value.regions, gpa / 4096)
      {
        ClosedSuffices(s, ops, gpa);
      }
    }
  }

  // ----- a run on which it fails

  const FIRST_BLOCK: Block := Block(0x8000_0000, 8, None)
  const TAKEN_BLOCK: Block := FIRST_BLOCK.(owner := Some(TVM_ID))

  lemma Created(s: Snapshot, e: Env, s': Snapshot, r: Reply)
    requires |e.info| == INFO_SIZE && Sane(s) && s.tvm.None? && s.blocks == [FIRST_BLOCK]
    requires LoadWord(s.mem, 0x1000) == 0x8000_0000 && LoadWord(s.mem, 0x1008) == 0x8000_4000
    requires Next(s, e, Call.CreateTvm(0x1000, 16), s', r)
    ensures r == Ret(0, TVM_ID) && s'.tvm == Some(NewTvm(0x8000_0000, 0x8000_4000))
    ensures s'.blocks == [TAKEN_BLOCK] && TableInv(s', [])
  {
    CreatedEmpty(s, 0x8000_0000, 0x8000_4000, s');
  }

  lemma RegionTaken(s: Snapshot, e: Env, gpa: Usize, s': Snapshot, r: Reply)
    requires |e.info| == INFO_SIZE && Sane(s) && s.tvm.Some? && s.tvm.value.state.Initializing?
    requires gpa % 4096 == 0 && gpa + 4096 < SPACE
    requires forall k | 0 <= k < |s.tvm.value.regions| :: !Overlaps(s.tvm.value.regions[k], gpa, gpa + 4096)
    requires Next(s, e, AddMemoryRegion(TVM_ID, gpa, 4096), s', r)
    ensures r == Ret(0, 0)
    ensures s' == s.(tvm := Some(s.tvm.value.(regions := s.tvm.value.regions + [MemoryRegion(gpa, 1)])))
  {
  }

  lemma ZeroAccepted(s: Snapshot, base: Usize, gpa: Usize, k: nat)
    requires Sane(s) && s.tvm.Some? && s.blocks == [TAKEN_BLOCK]
    requires base % 4096 == 0 && 0x8000_0000 <= base && base + 4096 <= 0x8000_8000
    requires k < |s.tvm.value.regions| && s.tvm.value.regions[k] == MemoryRegion(gpa, 1)
    requires gpa % 4096 == 0 && gpa + 4096 < SPACE
    ensures ZeroVerdict(s, TVM_ID, base, 0, 1, gpa) == Accept
  {
    assert RegionCovers(s.tvm.value.regions[k], gpa, gpa + Bytes(1));
    assert BlockCovers(s.blocks[0], base, base + Bytes(1));
    assert ScanBlocks(s.blocks, 0, base, base + Bytes(1)) == Hit(0);
  }

  lemma ZeroTaken(s: Snapshot, ops: seq<MapOp>, e: Env, base: Usize, gpa: Usize, s': Snapshot, r: Reply)
    requires |e.info| == INFO_SIZE && Sane(s) && s.tvm.Some? && TableInv(s, ops)
    requires ZeroVerdict(s, TVM_ID, base, 0, 1, gpa) == Accept && Vpn1(gpa) < 2
    requires Next(s, e, AddZeroPages(TVM_ID, base, 0, 1, gpa), s', r)
    ensures r == Ret(0, 0) && SameRecord(s', s) && TableInv(s', ops + [MapOp(gpa, base, PERMS)])
  {
    hide ZeroVerdict, Shape, View, Apply;
    assert RegionFits(gpa, 1) by {
      assert PageAt(gpa, 0) == gpa;
    }
    assert RegionOps(gpa, base, 1, PERMS) == [MapOp(gpa, base, PERMS)];
    FillFiled(s.mem, s'.mem, s.tvm.value.pageTable, ops, gpa, base, 1);
  }

  /** One region call of the run. */
  method OpenRegion(hv: HypervisorState, info: seq<Byte>, gpa: Usize, ghost ops: seq<MapOp>) returns (r: Reply)
    requires |info| == INFO_SIZE && hv.Valid() && hv.tvm.Some? && hv.tvm.value.state.Initializing?
    requires gpa % 4096 == 0 && gpa + 4096 < SPACE && TableInv(hv.Snap(), ops)
    requires forall k | 0 <= k < |hv.tvm.value.regions| :: !Overlaps(hv.tvm.value.regions[k], gpa, gpa + 4096)
    modifies hv, hv.ram
    ensures r == Ret(0, 0) && hv.Valid() && TableInv(hv.Snap(), ops)
    ensures var t := old(hv.tvm).value;
            hv.Snap() == old(hv.Snap()).(tvm := Some(t.(regions := t.regions + [MemoryRegion(gpa, 1)])))
  {
    hide Next, Shape, View, Apply;
    ghost var s := hv.Snap();
    r := HandleCovh(hv, info, TVM_ID, gpa, 4096, 0, 0, 0, 9);
    RegionTaken(s, Env(hv.sha384, info), gpa, hv.Snap(), r);
  }

  /** One zero-page call of the run, for the region at place `k`. */
  method OpenPage(hv: HypervisorState, info: seq<Byte>, base: Usize, gpa: Usize, ghost k: nat, ghost ops: seq<MapOp>)
    returns (r: Reply)
    requires |info| == INFO_SIZE && hv.Valid() && hv.tvm.Some? && hv.confidential == [TAKEN_BLOCK]
    requires base % 4096 == 0 && 0x8000_0000 <= base && base + 4096 <= 0x8000_8000
    requires k < |hv.tvm.value.regions| && hv.tvm.value.regions[k] == MemoryRegion(gpa, 1)
    requires gpa % 4096 == 0 && gpa + 4096 < SPACE && Vpn1(gpa) < 2 && TableInv(hv.Snap(), ops)
    modifies hv, hv.ram
    ensures r == Ret(0, 0) && hv.Valid()
    ensures SameRecord(hv.Snap(), old(hv.Snap())) && TableInv(hv.Snap(), ops + [MapOp(gpa, base, PERMS)])
  {
    hide Next, Shape, View, Apply, ZeroVerdict;
    ghost var s := hv.Snap();
    ZeroAccepted(s, base, gpa, k);
    r := HandleCovh(hv, info, TVM_ID, base, 0, 1, gpa, 0, 12);
    ZeroTaken(s, ops, Env(hv.sha384, info), base, gpa, hv.Snap(), r);
  }

  /** The block and the TVM of the run. */
  method OpenTvm(hv: HypervisorState, info: seq<Byte>) returns (r: Reply, q: Reply)
    requires |info| == INFO_SIZE && hv.Valid() && hv.tvm.None? && hv.confidential == []
    requires LoadWord(hv.ram.bytes, 0x1000) == 0x8000_0000 && LoadWord(hv.ram.bytes, 0x1008) == 0x8000_4000
    modifies hv, hv.ram
    ensures r == Ret(0, 0) && q == Ret(0, TVM_ID) && hv.Valid() && hv.confidential == [TAKEN_BLOCK]
    ensures hv.tvm == Some(NewTvm(0x8000_0000, 0x8000_4000)) && TableInv(hv.Snap(), [])
  {
    hide LoadWord, Shape, View, Apply;
    r := HandleCovh(hv, info, 0x8000_0000, 8, 0, 0, 0, 0, 1);
    ghost var s := hv.Snap();
    q := HandleCovh(hv, info, 0x1000, 16, 0, 0, 0, 0, 5);
    Created(s, Env(hv.sha384, info), hv.Snap(), q);
  }

  lemma SharedPage(s: Snapshot, ops: seq<MapOp>)
    requires ops == [MapOp(0x4000_0000, 0x8000_5000, PERMS)] + [MapOp(0x1000, 0x8000_6000, PERMS)]
    requires s.tvm.Some? && TableInv(s, ops)
    ensures RootOk(s.tvm.value.pageTable) && TranslateGpaToPa(s.mem, s.tvm.value.pageTable, 0) == Some(0x8000_5000)
  {
    hide TranslateGpaToPa, Shape, View, Apply;
    TranslateIsLookUp(s.mem, s.tvm.value.pageTable, 0);
    RunLooksUp(ops, 0);
    assert Vpn2(ops[1].gpa) == 0;
    assert ops[..1] == [ops[0]];
    assert LastAlias(ops, 0) == LastAlias([ops[0]], 0);
  }

  /**
   Six accepted CoVH calls: a block, a TVM, a region at 1 GiB and one at 4 KiB, a zero page in
   each. Address 0, in no region, then translates to the page of the region at 1 GiB.
   */
  method SharedTableRun(hash: seq<Byte> -> seq<Byte>, info: seq<Byte>) returns (hv: HypervisorState, rs: seq<Reply>)
    requires |info| == INFO_SIZE
    ensures fresh(hv) && hv.Valid() && hv.tvm.Some?
    ensures rs == [Ret(0, 0), Ret(0, TVM_ID), Ret(0, 0), Ret(0, 0), Ret(0, 0), Ret(0, 0)]
    ensures TranslateGpaToPa(hv.ram.bytes, hv.tvm.value.pageTable, 0) == Some(0x8000_5000)
    ensures forall k | 0 <= k < |hv.tvm.value.regions| :: !InRegion(hv.tvm.value.regions[k], 0)
  {
    hide TableInv, TranslateGpaToPa, Sane;
    hv := Prepared(hash);
    var r0, r1 := OpenTvm(hv, info);
    var r2 := OpenRegion(hv, info, 0x4000_0000, []);
    var r3 := OpenRegion(hv, info, 0x1000, []);
    var r4 := OpenPage(hv, info, 0x8000_5000, 0x4000_0000, 0, []);
    ghost var a, b := MapOp(0x4000_0000, 0x8000_5000, PERMS), MapOp(0x1000, 0x8000_6000, PERMS);
    assert [] + [a] == [a];
    var r5 := OpenPage(hv, info, 0x8000_6000, 0x1000, 1, [a]);
    SharedPage(hv.Snap(), [a] + [b]);
    rs := [r0, r1, r2, r3, r4, r5];
  }

  /** A monitor without a TVM, and the host's creation record in memory. */
  method Prepared(hash: seq<Byte> -> seq<Byte>) returns (hv: HypervisorState)
    ensures fresh(hv) && fresh(hv.ram) && hv.Valid() && hv.tvm.None? && hv.confidential == []
    ensures LoadWord(hv.ram.bytes, 0x1000) == 0x8000_0000 && LoadWord(hv.ram.bytes, 0x1008) == 0x8000_4000
  {
    var ram := new Ram(seq(SPACE, i => 0));
    ghost var blank := ram.bytes;
    ram.WriteWord(0x1000, 0x8000_0000);
    StoreLoad(blank, 0x1000, 0x8000_0000);
    ghost var one := ram.bytes;
    ram.WriteWord(0x1008, 0x8000_4000);
    StoreLoad(one, 0x1008, 0x8000_4000);
    hide LoadWord, StoreWord;
    hv := new HypervisorState(ram, hash);
  }
}
