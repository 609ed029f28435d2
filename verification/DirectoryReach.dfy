/**
 The fills of a zero-pages call may name any confidential page, the page directory included. This is
 exactly when no address of the guest leads to its own directory, over every run.
 */
module DirectoryReach {
  import opened Bits
  import opened Memory
  import opened PageTable
  import opened Mapping
  import opened GuestMemory
  import opened Hypervisor
  import opened Covh
  import opened Lifecycle
  import opened Gigabytes

  predicate InDirectory(root: nat, a: nat) {
    root <= a < root + DIRECTORY_SIZE
  }

  /** No guest address translates into the directory that translates it. */
  ghost predicate Unreached(s: Snapshot)
    requires s.tvm.Some? && RootOk(s.tvm.value.pageTable)
  {
    var root := s.tvm.value.pageTable;
    forall gpa: nat {:trigger TranslateGpaToPa(s.mem, root, gpa)} | TranslateGpaToPa(s.mem, root, gpa).Some? ::
      !InDirectory(root, TranslateGpaToPa(s.mem, root, gpa).value)
  }

  /** No later fill has the low page number of fill `i`. */
  predicate IsLast(ops: seq<MapOp>, i: nat)
    requires i < |ops|
  {
    forall k | i < k < |ops| :: LowPage(ops[k].gpa) != LowPage(ops[i].gpa)
  }

  /** The last fill of each low page keeps its frame off the directory. */
  ghost predicate KeepsOff(ops: seq<MapOp>, root: nat) {
    forall i | 0 <= i < |ops| && IsLast(ops, i) :: OutsideDirectory(root, PageBase(ops[i].pa), PageBase(ops[i].pa) + 4096)
  }

  lemma {:induction false} LastDecides(ops: seq<MapOp>, i: nat, gpa: nat)
    requires AllAccess(ops) && i < |ops| && IsLast(ops, i) && LowPage(gpa) == LowPage(ops[i].gpa)
    ensures LastAlias(ops, gpa) == Some(PageBase(ops[i].pa) + gpa % 4096)
  {
    hide LowPage;
    var n := |ops| - 1;
    if i < n {
      assert forall k | 0 <= k < n :: ops[..n][k] == ops[k];
      LastDecides(ops[..n], i, gpa);
    }
  }

  lemma {:induction false} LastOf(ops: seq<MapOp>, gpa: nat) returns (i: nat)
    requires LastAlias(ops, gpa).Some?
    ensures i < |ops| && IsLast(ops, i) && LowPage(gpa) == LowPage(ops[i].gpa)
  {
    hide LowPage;
    var n := |ops| - 1;
    if LowPage(ops[n].gpa) == LowPage(gpa) {
      i := n;
    } else {
      i := LastOf(ops[..n], gpa);
      assert forall k | 0 <= k < n :: ops[..n][k] == ops[k];
    }
  }

  /** A page and the directory are both page aligned, so they meet in the first byte of the page or nowhere. */
  lemma FrameMeets(root: nat, pa: nat, o: nat)
    requires root % 0x4000 == 0 && o < 4096
    ensures OutsideDirectory(root, PageBase(pa), PageBase(pa) + 4096) <==> !InDirectory(root, PageBase(pa))
    ensures OutsideDirectory(root, PageBase(pa), PageBase(pa) + 4096) ==> !InDirectory(root, PageBase(pa) + o)
  {
    var q, r := pa / 4096, root / 0x4000;
    assert PageBase(pa) == 4096 * q && root == 0x4000 * r;
    hide PageBase;
    FrameUnits(q, r);
  }

  lemma FrameUnits(q: nat, r: nat)
    ensures 0x4000 * r <= 4096 * q < 0x4000 * r + 0x4000 <==> 4 * r <= q < 4 * r + 4
    ensures 4096 * q + 4096 <= 0x4000 * r || 0x4000 * r + 0x4000 <= 4096 * q <==> q < 4 * r || q >= 4 * r + 4
  {
  }

  lemma SamePage(gpa: nat)
    ensures Vpn2(PageBase(gpa)) == Vpn2(gpa) && LowPage(PageBase(gpa)) == LowPage(gpa) && PageBase(gpa) % 4096 == 0
  {
    DivUnique(PageBase(gpa), 4096, gpa / 4096, 0);
    hide Vpn2, LowPage, PageBase;
    SamePageIff(PageBase(gpa), gpa);
  }

  lemma Reaches(s: Snapshot, ops: seq<MapOp>, i: nat)
    requires s.tvm.Some? && TableInv(s, ops) && i < |ops| && IsLast(ops, i)
    ensures TranslateGpaToPa(s.mem, s.tvm.value.pageTable, PageBase(ops[i].gpa)) == Some(PageBase(ops[i].pa))
  {
    hide Apply, Walk, LowPage, Vpn2, IsLast, Shape, View, LastAlias, TranslateGpaToPa;
    var gpa := PageBase(ops[i].gpa);
    SamePage(ops[i].gpa);
    TranslateIsLookUp(s.mem, s.tvm.value.pageTable, gpa);
    RunLooksUp(ops, gpa);
    LastDecides(ops, i, gpa);
  }

  lemma ReachedByLast(s: Snapshot, ops: seq<MapOp>, gpa: nat)
    requires s.tvm.Some? && TableInv(s, ops) && TranslateGpaToPa(s.mem, s.tvm.value.pageTable, gpa).Some?
    ensures exists i | 0 <= i < |ops| && IsLast(ops, i) ::
              TranslateGpaToPa(s.mem, s.tvm.value.pageTable, gpa) == Some(PageBase(ops[i].pa) + gpa % 4096)
  {
    hide Apply, Walk, LowPage, Vpn2, IsLast, Shape, View, LastAlias, TranslateGpaToPa;
    TranslateIsLookUp(s.mem, s.tvm.value.pageTable, gpa);
    RunLooksUp(ops, gpa);
    var i := LastOf(ops, gpa);
    LastDecides(ops, i, gpa);
  }

  /**
   Exact, over every run of a host that leaves the directory alone: no guest address reaches the directory
   precisely when the last fill of each low page has its frame off it.
   */
  lemma UnreachedExact(e: Env, ss: seq<Snapshot>, cs: seq<Call>, rs: seq<Reply>)
    requires |e.info| == INFO_SIZE && IsRun(e, ss, cs, rs) && ss[0].tvm.None? && ss[|cs|].tvm.Some?
    requires forall i {:trigger cs[i]} | 0 <= i < |cs| :: KeepsDirectory(ss[i], cs[i])
    ensures RootOk(ss[|cs|].tvm.value.pageTable)
    ensures Unreached(ss[|cs|]) <==> KeepsOff(FillsOf(cs, rs), ss[|cs|].tvm.value.pageTable)
  {
    TableInvariant(e, ss, cs, rs);
    var s, ops := ss[|cs|], FillsOf(cs, rs);
    var root := s.tvm.value.pageTable;
    hide FillsOf, IsRun, TranslateGpaToPa, IsLast, Shape, View, Apply, OutsideDirectory;
    if Unreached(s) {
      forall i | 0 <= i < |ops| && IsLast(ops, i)
        ensures OutsideDirectory(root, PageBase(ops[i].pa), PageBase(ops[i].pa) + 4096)
      {
        Reaches(s, ops, i);
        FrameMeets(root, ops[i].pa, 0);
      }
    }
    if KeepsOff(ops, root) {
      forall gpa: nat | TranslateGpaToPa(s.mem, root, gpa).Some?
        ensures !InDirectory(root, TranslateGpaToPa(s.mem, root, gpa).value)
      {
        ReachedByLast(s, ops, gpa);
        var i :| 0 <= i < |ops| && IsLast(ops, i) && TranslateGpaToPa(s.mem, root, gpa) == Some(PageBase(ops[i].pa) + gpa % 4096);
        FrameMeets(root, ops[i].pa, gpa % 4096);
      }
    }
  }

  /** Four accepted CoVH calls: a block, a TVM, a region, and a zero page in the directory's own frame. */
  method DirectoryFillRun(hash: seq<Byte> -> seq<Byte>, info: seq<Byte>) returns (hv: HypervisorState, rs: seq<Reply>)
    requires |info| == INFO_SIZE
    ensures fresh(hv) && hv.Valid() && hv.tvm.Some? && rs == [Ret(0, 0), Ret(0, TVM_ID), Ret(0, 0), Ret(0, 0)]
    ensures TranslateGpaToPa(hv.ram.bytes, hv.tvm.value.pageTable, 0x1000) == Some(hv.tvm.value.pageTable)
  {
    hide TranslateGpaToPa, Sane, Shape, View, Apply;
    hv := Prepared(hash);
    var r0, r1 := OpenTvm(hv, info);
    var r2 := OpenRegion(hv, info, 0x1000, []);
    var r3 := OpenPage(hv, info, 0x8000_0000, 0x1000, 0, []);
    ghost var op := MapOp(0x1000, 0x8000_0000, PERMS);
    assert [] + [op] == [op];
    Reaches(hv.Snap(), [op], 0);
    rs := [r0, r1, r2, r3];
  }
}
