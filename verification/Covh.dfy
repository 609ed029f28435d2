/**
 The CoVH dispatcher: the calls the host can make as a step relation over snapshots of the TSM,
 the method that answers them, and what holds of every single call.
 */
module Covh {
  import opened Bits
  import opened Memory
  import opened PageTable
  import opened Mapping
  import opened GuestMemory
  import opened Hypervisor

  datatype Call =
    | GetTsmInfo(addr: Usize, len: Usize)
    | ConvertPages(base: Usize, n: Usize)
    | ReclaimPages(base: Usize, n: Usize)
    | CreateTvm(params: Usize, len: Usize)
    | FinalizeTvm(sepc: Usize, arg: Usize, identity: Usize)
    | DestroyTvm
    | AddMemoryRegion(id: Usize, gpa: Usize, len: Usize)
    | AddMeasuredPages(id: Usize, src: Usize, dst: Usize, ty: Usize, n: Usize, gpa: Usize)
    | AddZeroPages(id: Usize, base: Usize, ty: Usize, n: Usize, gpa: Usize)
    | CreateVcpu(id: Usize, vcpuId: Usize)
    | RunVcpu(id: Usize)
    | Unknown

  /** What the host gets back: the a0/a1 pair, nothing because the TSM stopped, or a running guest. */
  datatype Reply = Ret(a0: int, a1: int) | Halted | GuestEntered

  const INFO_SIZE: nat := 48

  /** What the TSM is built with: its digest function and the image of its information record. */
  datatype Env = Env(hash: seq<Byte> -> seq<Byte>, info: seq<Byte>)

  const FAILURE := Ret(-1, 0)

  /** The function identifier is the low half-word of a6. */
  function Decode(a0: Usize, a1: Usize, a2: Usize, a3: Usize, a4: Usize, a5: Usize, a6: Usize): Call {
    var fid := a6 % 0x1_0000;
    if fid == 0 then GetTsmInfo(a0, a1)
    else if fid == 1 then ConvertPages(a0, a1)
    else if fid == 2 then ReclaimPages(a0, a1)
    else if fid == 5 then CreateTvm(a0, a1)
    else if fid == 6 then FinalizeTvm(a1, a2, a3)
    else if fid == 8 then DestroyTvm
    else if fid == 9 then AddMemoryRegion(a0, a1, a2)
    else if fid == 11 then AddMeasuredPages(a0, a1, a2, a3, a4, a5)
    else if fid == 12 then AddZeroPages(a0, a1, a2, a3, a4)
    else if fid == 14 then CreateVcpu(a0, a1)
    else if fid == 15 then RunVcpu(a0)
    else Unknown
  }

  function Answer(v: Verdict, value: int): Reply {
    match v
    case Accept => Ret(0, value)
    case Reject => FAILURE
    case Stop => Halted
  }

  /** The whole effect of one CoVH call. Nothing is said about the state after a halt. */
  ghost predicate Next(s: Snapshot, e: Env, c: Call, s': Snapshot, r: Reply)
    requires Sane(s) && |e.info| == INFO_SIZE
  {
    match c
    case GetTsmInfo(addr, len) =>
      if len < INFO_SIZE || addr + INFO_SIZE > SPACE then r == Halted
      else r == Ret(0, INFO_SIZE) && s' == s.(mem := Patch(s.mem, addr, e.info))
    case ConvertPages(base, n) =>
      r == Ret(0, 0) && s' == s.(blocks := s.blocks + [Block(base, n, None)])
    case ReclaimPages(base, n) =>
      exists v :: r == Answer(v, 0) && ReclaimStep(s, base, n, s', v)
    case CreateTvm(params, len) =>
      if len != 16 || params + 16 > SPACE then r == Halted
      else
        var pt, st := LoadWord(s.mem, params), LoadWord(s.mem, params + 8);
        exists v :: r == Answer(v, TVM_ID) && CreateStep(s, pt, st, s', v)
    case FinalizeTvm(sepc, arg, identity) =>
      exists v :: r == Answer(v, 0) && FinalizeStep(s, e.hash, sepc, arg, identity, s', v)
    case DestroyTvm =>
      r == Ret(0, 0) && DestroyStep(s, s')
    case AddMemoryRegion(id, gpa, len) =>
      exists v :: r == Answer(v, 0) && AddRegionStep(s, id, gpa, len, s', v)
    case AddMeasuredPages(id, src, dst, ty, n, gpa) =>
      exists v :: r == Answer(v, 0) && MeasuredStep(s, id, src, dst, ty, n, gpa, s', v)
    case AddZeroPages(id, base, ty, n, gpa) =>
      exists v :: r == Answer(v, 0) && ZeroStep(s, id, base, ty, n, gpa, s', v)
    case CreateVcpu(id, vcpuId) =>
      && r == Answer(VcpuVerdict(s, id), 0)
      && s' == if VcpuVerdict(s, id).Accept? then s.(tvm := Some(s.tvm.value.(vcpu := Some(vcpuId)))) else s
    case RunVcpu(id) =>
      if RunVerdict(s, id).Accept? then r == GuestEntered && s' == s.(hgatp := MakeHgatp(s.tvm.value.pageTable))
      else r == FAILURE && s' == s
    case Unknown => r == FAILURE && s' == s
  }

  method HandleCovh(hv: HypervisorState, info: seq<Byte>,
                    a0: Usize, a1: Usize, a2: Usize, a3: Usize, a4: Usize, a5: Usize, a6: Usize)
    returns (r: Reply)
    requires hv.Valid() && |info| == INFO_SIZE
    modifies hv, hv.ram
    ensures hv.Valid()
    ensures Next(old(hv.Snap()), Env(hv.sha384, info), Decode(a0, a1, a2, a3, a4, a5, a6), hv.Snap(), r)
  {
    var v;
    match a6 % 0x1_0000 {
      case 0 =>
        if a1 < INFO_SIZE || a0 + INFO_SIZE > SPACE {
          return Halted;
        }
        hv.ram.bytes := Patch(hv.ram.bytes, a0, info);
        r := Ret(0, INFO_SIZE);
      case 1 =>
        hv.AddConfidentialPages(a0, a1);
        r := Ret(0, 0);
      case 2 =>
        v := hv.ReclaimPages(a0, a1);
        r := Answer(v, 0);
      case 5 =>
        if a1 != 16 || a0 + 16 > SPACE {
          return Halted;
        }
        v := hv.CreateTvm(LoadWord(hv.ram.bytes, a0), LoadWord(hv.ram.bytes, a0 + 8));
        r := Answer(v, TVM_ID);
      case 6 =>
        v := hv.FinalizeTvm(a1, a2, a3);
        r := Answer(v, 0);
      case 8 =>
        hv.DestroyTvm();
        r := Ret(0, 0);
      case 9 =>
        v := hv.AddTvmMemoryRegion(a0, a1, a2);
        r := Answer(v, 0);
      case 11 =>
        v := hv.AddTvmMeasuredPages(a0, a1, a2, a3, a4, a5);
        r := Answer(v, 0);
      case 12 =>
        v := hv.AddTvmZeroPages(a0, a1, a2, a3, a4);
        r := Answer(v, 0);
      case 14 =>
        v := hv.CreateTvmVcpu(a0, a1);
        r := Answer(v, 0);
      case 15 =>
        v := hv.RunTvmVcpu(a0);
        r := if v.Accept? then GuestEntered else FAILURE;
      case _ =>
        r := FAILURE;
    }
  }

  /** A call answered with an error leaves the TVM, the blocks, the measurement and all of memory alone. */
  lemma FailedCallsAreAtomic(s: Snapshot, e: Env, c: Call, s': Snapshot)
    requires Sane(s) && |e.info| == INFO_SIZE && Next(s, e, c, s', FAILURE)
    ensures s' == s
  {
  }

  lemma SaneKept(s: Snapshot, e: Env, c: Call, s': Snapshot, r: Reply)
    requires Sane(s) && |e.info| == INFO_SIZE && Next(s, e, c, s', r) && r != Halted
    ensures Sane(s')
  {
  }

  // ----- the calls in terms of registers

  /** The whole dispatcher for one set of registers. */
  ghost predicate Called(s: Snapshot, e: Env, a: seq<Usize>, s': Snapshot, r: Reply)
    requires Sane(s) && |e.info| == INFO_SIZE && |a| == 7
  {
    Next(s, e, Decode(a[0], a[1], a[2], a[3], a[4], a[5], a[6]), s', r)
  }

  /** Function 0 stores the record at a0 when a1 bytes hold it; 1 tracks a1 pages from a0 on. */
  lemma InfoAndConvert(s: Snapshot, e: Env, a: seq<Usize>, s': Snapshot, r: Reply)
    requires Sane(s) && |e.info| == INFO_SIZE && |a| == 7 && Called(s, e, a, s', r)
    ensures a[6] % 0x1_0000 == 0 ==>
              && (r == Halted <==> a[1] < 48 || a[0] + 48 > SPACE)
              && (r != Halted ==>
                    var lo: nat := a[0];
                    r == Ret(0, 48) && SameRecord(s', s) && s'.mem[lo..lo + 48] == e.info && SameOutside(s.mem, s'.mem, lo, lo + 48))
    ensures a[6] % 0x1_0000 == 1 ==> r == Ret(0, 0) && s' == s.(blocks := s.blocks + [Block(a[0], a[1], None)])
  {
  }

  /** Function 2 gives back the block of a1 pages at a0, cleared, when there is no TVM. */
  lemma ReclaimInRegisters(s: Snapshot, e: Env, a: seq<Usize>, s': Snapshot, r: Reply)
    requires Sane(s) && |e.info| == INFO_SIZE && |a| == 7 && Called(s, e, a, s', r) && a[6] % 0x1_0000 == 2
    ensures r == FAILURE <==> s.tvm.Some? || forall k | 0 <= k < |s.blocks| :: !(s.blocks[k].base == a[0] && s.blocks[k].pages == a[1])
    ensures r == Ret(0, 0) ==>
              && SameOutside(s.mem, s'.mem, a[0], a[0] + Bytes(a[1]))
              && (forall i | a[0] <= i < a[0] + Bytes(a[1]) :: s'.mem[i] == 0)
              && |s'.blocks| == |s.blocks| - 1
  {
  }

  /** Function 5 reads the directory and the state page from a record of a1 = 16 bytes at a0; 8 drops the TVM. */
  lemma CreateInRegisters(s: Snapshot, e: Env, a: seq<Usize>, s': Snapshot, r: Reply)
    requires Sane(s) && |e.info| == INFO_SIZE && |a| == 7 && Called(s, e, a, s', r)
    ensures a[6] % 0x1_0000 == 5 && r.Ret? && r.a0 == 0 ==>
              && r.a1 == 1 && s.tvm.None? && a[1] == 16 && s'.tvm.Some? && var t := s'.tvm.value;
                 && t.pageTable == LoadWord(s.mem, a[0]) && t.stateAddr == LoadWord(s.mem, a[0] + 8) && t.pageTable % 0x4000 == 0
                 && t.id == 1 && t.regions == [] && t.vcpu == None && t.state.Initializing? && t.absorbed == []
    ensures a[6] % 0x1_0000 == 8 ==>
              && r == Ret(0, 0) && s'.tvm == None && s'.blocks == s.blocks && s'.measurement == s.measurement
              && (s.tvm.Some? ==> Zeroed(s.mem, s'.mem, s.tvm.value.pageTable, s.tvm.value.pageTable + DIRECTORY_SIZE))
  {
  }

  /** Function 6 sets the entry from a1, a2 and a3; it is refused only without a TVM. */
  lemma FinalizeInRegisters(s: Snapshot, e: Env, a: seq<Usize>, s': Snapshot, r: Reply)
    requires Sane(s) && |e.info| == INFO_SIZE && |a| == 7 && Called(s, e, a, s', r) && a[6] % 0x1_0000 == 6
    ensures r == if s.tvm.Some? then Ret(0, 0) else FAILURE
    ensures s.tvm.Some? ==>
              && s'.tvm.Some? && s'.mem == s.mem && s'.blocks == s.blocks && var t, t' := s.tvm.value, s'.tvm.value;
                 && t'.entrySepc == a[1] && t'.entryArg == a[2] && t'.identityAddr == a[3] && t'.state.Runnable?
                 && t'.measure == e.hash(t.absorbed) && s'.measurement == Some(t'.measure)
                 && t'.regions == t.regions && t'.pageTable == t.pageTable && t'.vcpu == t.vcpu
  {
  }

  /** Function 9 declares a2 bytes at a1 for TVM a0; when, and what else changes. */
  lemma RegionInRegisters(s: Snapshot, e: Env, a: seq<Usize>, s': Snapshot, r: Reply)
    requires Sane(s) && |e.info| == INFO_SIZE && |a| == 7 && Called(s, e, a, s', r) && a[6] % 0x1_0000 == 9
    ensures r == Ret(0, 0) <==>
            && s.tvm.Some? && a[0] == 1 && s.tvm.value.state.Initializing?
            && a[1] % 4096 == 0 && a[2] % 4096 == 0 && 0 < a[2] && a[1] + a[2] < SPACE
            && forall k | 0 <= k < |s.tvm.value.regions| ::
                 a[1] + a[2] <= s.tvm.value.regions[k].base || RegionEnd(s.tvm.value.regions[k]) <= a[1]
    ensures r == Halted <==>
            && s.tvm.Some? && a[0] == 1 && s.tvm.value.state.Initializing?
            && a[1] % 4096 == 0 && a[2] % 4096 == 0 && 0 < a[2] && a[1] + a[2] >= SPACE
    ensures r != Ret(0, 0) && r != Halted ==> r == FAILURE
    ensures r == Ret(0, 0) ==>
              s' == s.(tvm := Some(s.tvm.value.(regions := s.tvm.value.regions + [MemoryRegion(a[1], a[2] / 4096)])))
  {
  }

  /** Function 14 gives TVM a0 the VCPU a1; 15 enters TVM a0, with its directory installed. */
  lemma VcpuInRegisters(s: Snapshot, e: Env, a: seq<Usize>, s': Snapshot, r: Reply)
    requires Sane(s) && |e.info| == INFO_SIZE && |a| == 7 && Called(s, e, a, s', r)
    ensures a[6] % 0x1_0000 == 14 ==>
              && r == (if s.tvm.Some? && a[0] == 1 then Ret(0, 0) else FAILURE)
              && (r == Ret(0, 0) ==> s' == s.(tvm := Some(s.tvm.value.(vcpu := Some(a[1])))))
    ensures a[6] % 0x1_0000 == 15 ==>
              && (r == GuestEntered <==> s.tvm.Some? && a[0] == 1 && s.tvm.value.vcpu.Some? && s.tvm.value.state.Runnable?)
              && (r != GuestEntered ==> r == FAILURE)
              && (r == GuestEntered ==> s' == s.(hgatp := s'.hgatp) && s'.hgatp / 0x1000_0000_0000_0000 == 8
                                        && s'.hgatp % 0x1000_0000_0000 == s.tvm.value.pageTable / 4096 % 0x1000_0000_0000)
  {
    if a[6] % 0x1_0000 == 15 && s.tvm.Some? {
      HgatpFields(s.tvm.value.pageTable);
    }
  }

  /** The mode field holds 8, Sv39x4, and the low 44 bits the page number of the directory. */
  lemma HgatpFields(pt: nat)
    ensures MakeHgatp(pt) / 0x1000_0000_0000_0000 == 8
    ensures MakeHgatp(pt) % 0x1000_0000_0000 == pt / 4096 % 0x1000_0000_0000
  {
    var q := pt / 4096 % 0x1000_0000_0000;
    assert MakeHgatp(pt) == 8 * 0x1000_0000_0000_0000 + q;
    assert 8 * 0x1000_0000_0000_0000 == 0x8_0000 * 0x1000_0000_0000;
    DivUnique(MakeHgatp(pt), 0x1000_0000_0000_0000, 8, q);
    DivUnique(MakeHgatp(pt), 0x1000_0000_0000, 0x8_0000, q);
  }

  /**
   Functions 11 and 12 fill a4 pages at guest address a5 from a2, or a3 pages at a4 from a1: the pages are mapped
   in order, 11 measures the bytes at a1 as they are after the copy, and 12 writes no memory but the directory.
   */
  lemma FillInRegisters(s: Snapshot, e: Env, a: seq<Usize>, s': Snapshot, r: Reply)
    requires Sane(s) && |e.info| == INFO_SIZE && |a| == 7 && Called(s, e, a, s', r) && r == Ret(0, 0) && s.tvm.Some?
    ensures a[6] % 0x1_0000 == 11 ==>
              && a[0] == 1 && s.tvm.value.state.Initializing? && a[1] + Bytes(a[4]) <= SPACE && a[2] + Bytes(a[4]) <= SPACE
              && s'.tvm.Some? && var m, root := Copied(s.mem, a[1], a[2], Bytes(a[4])), s.tvm.value.pageTable;
                 && s'.tvm.value.absorbed == s.tvm.value.absorbed + m[a[1]..a[1] + Bytes(a[4])]
                 && (Shape(m, root) ==> RegionMapped(m, s'.mem, root, a[5], a[2], a[4], PERMS))
    ensures a[6] % 0x1_0000 == 12 ==>
              && a[0] == 1 && s'.tvm == s.tvm && var root := s.tvm.value.pageTable;
                 Shape(s.mem, root) ==> RegionMapped(s.mem, s'.mem, root, a[4], a[1], a[3], PERMS)
  {
    hide Shape, RegionMapped, RegionFits, SameOutside, PoolVerdict, SomeRegionCovers;
  }

  /** A create call is accepted exactly so, and takes the first blocks that cover the directory and the state page. */
  lemma CreateExact(s: Snapshot, e: Env, a: seq<Usize>, s': Snapshot, r: Reply, k: nat)
    requires Sane(s) && |e.info| == INFO_SIZE && |a| == 7 && Called(s, e, a, s', r) && a[6] % 0x1_0000 == 5
    requires a[1] == 16 && a[0] + 16 <= SPACE && k < |s.blocks|
    ensures var pt, st := LoadWord(s.mem, a[0]), LoadWord(s.mem, a[0] + 8);
            r == Ret(0, 1) <==>
            && s.tvm.None? && pt % 0x4000 == 0 && pt + 0x4000 < SPACE && st + 4096 < SPACE && (st < pt || st > pt + 0x4000 - 8)
            && Tracked(s.blocks, pt, pt + 0x4000) && Tracked(s.blocks, st, st + 4096)
    ensures r == Ret(0, 1) ==>
              var pt, st := LoadWord(s.mem, a[0]), LoadWord(s.mem, a[0] + 8);
              && |s'.blocks| == |s.blocks| && Zeroed(s.mem, s'.mem, pt, pt + 0x4000)
              && s'.blocks[k] == if FirstCovers(s.blocks, pt, pt + 0x4000, k) || FirstCovers(s.blocks, st, st + 4096, k)
                                 then s.blocks[k].(owner := Some(1)) else s.blocks[k]
  {
    hide Called, LoadWord, FirstCovers, Tracked, CreateVerdict, Owned, Sane, Zeroed;
    var pt, st := LoadWord(s.mem, a[0]), LoadWord(s.mem, a[0] + 8);
    CreateAnswer(s, e, a, s', r);
    CreateVerdictExact(s, pt, st);
    if r == Ret(0, 1) {
      CreateEffect(s, e, a, s');
      OwnedExact(s.blocks, pt, st, k);
    }
  }

  lemma CreateEffect(s: Snapshot, e: Env, a: seq<Usize>, s': Snapshot)
    requires Sane(s) && |e.info| == INFO_SIZE && |a| == 7 && Called(s, e, a, s', Ret(0, 1)) && a[6] % 0x1_0000 == 5
    requires a[0] + 16 <= SPACE
    ensures var pt, st := LoadWord(s.mem, a[0]), LoadWord(s.mem, a[0] + 8);
            s'.blocks == Owned(s.blocks, pt, st) && pt + 0x4000 <= SPACE && Zeroed(s.mem, s'.mem, pt, pt + 0x4000)
  {
    hide LoadWord, Owned, Zeroed;
  }

  lemma CreateAnswer(s: Snapshot, e: Env, a: seq<Usize>, s': Snapshot, r: Reply)
    requires Sane(s) && |e.info| == INFO_SIZE && |a| == 7 && Called(s, e, a, s', r) && a[6] % 0x1_0000 == 5
    ensures r == if a[1] != 16 || a[0] + 16 > SPACE then Halted
                 else Answer(CreateVerdict(s, LoadWord(s.mem, a[0]), LoadWord(s.mem, a[0] + 8)), 1)
  {
    hide LoadWord, CreateVerdict, Owned, Zeroed;
  }

  /** It stops the TSM exactly so, and is refused otherwise. */
  lemma CreateHalts(s: Snapshot, e: Env, a: seq<Usize>, s': Snapshot, r: Reply)
    requires Sane(s) && |e.info| == INFO_SIZE && |a| == 7 && Called(s, e, a, s', r) && a[6] % 0x1_0000 == 5
    ensures r == Halted <==>
            || a[1] != 16 || a[0] + 16 > SPACE
            || var pt, st := LoadWord(s.mem, a[0]), LoadWord(s.mem, a[0] + 8);
               && s.tvm.None? && pt % 0x4000 == 0
               && (|| pt + 0x4000 >= SPACE || pt <= st <= pt + 0x4000 - 8 || Overruns(s.blocks, pt, pt + 0x4000)
                   || (Tracked(s.blocks, pt, pt + 0x4000) && (st + 4096 >= SPACE || Overruns(s.blocks, st, st + 4096))))
    ensures r == Halted || r == Ret(0, 1) || r == FAILURE
  {
    hide Called, LoadWord, Tracked, Overruns, CreateVerdict, Sane;
    CreateAnswer(s, e, a, s', r);
    if a[1] == 16 && a[0] + 16 <= SPACE {
      CreateStopExact(s, LoadWord(s.mem, a[0]), LoadWord(s.mem, a[0] + 8));
    }
  }

  /** The first block that covers the range is free or belongs to TVM 1. */
  ghost predicate Granted(blocks: seq<Block>, lo: nat, hi: nat) {
    exists k: nat :: FirstCovers(blocks, lo, hi, k) && (blocks[k].owner.None? || blocks[k].owner.value == 1)
  }

  lemma GrantedExact(blocks: seq<Block>, lo: nat, hi: nat)
    ensures PoolVerdict(blocks, TVM_ID, lo, hi) == Accept <==> Granted(blocks, lo, hi)
    ensures PoolVerdict(blocks, TVM_ID, lo, hi) == Stop <==> Overruns(blocks, lo, hi)
  {
    ScanExact(blocks, lo, hi);
    OverrunFrom(blocks, 0, lo, hi);
    hide FirstCovers, Overruns;
  }

  /** A fill with zero pages is accepted exactly so, whether or not the TVM was finalized. */
  lemma ZeroFillAccepted(s: Snapshot, e: Env, a: seq<Usize>, s': Snapshot, r: Reply)
    requires Sane(s) && |e.info| == INFO_SIZE && |a| == 7 && Called(s, e, a, s', r) && a[6] % 0x1_0000 == 12
    requires s.tvm.Some? && Shape(s.mem, s.tvm.value.pageTable)
    ensures r == Ret(0, 0) <==>
            && a[0] == 1 && a[2] == 0 && a[1] % 4096 == 0 && a[4] % 4096 == 0
            && a[1] + Bytes(a[3]) < SPACE && a[4] + Bytes(a[3]) < SPACE
            && Granted(s.blocks, a[1], a[1] + Bytes(a[3]))
            && SomeRegionCovers(s.tvm.value.regions, a[4], a[4] + Bytes(a[3]))
            && RegionFits(a[4], a[3])
    ensures r == FAILURE <==>
            || a[0] != 1
            || (a[2] == 0 && (a[1] % 4096 != 0 || a[4] % 4096 != 0))
            || (a[2] == 0 && a[1] + Bytes(a[3]) < SPACE
                && !Granted(s.blocks, a[1], a[1] + Bytes(a[3])) && !Overruns(s.blocks, a[1], a[1] + Bytes(a[3])))
            || (a[2] == 0 && a[1] + Bytes(a[3]) < SPACE && a[4] + Bytes(a[3]) < SPACE
                && Granted(s.blocks, a[1], a[1] + Bytes(a[3])) && !SomeRegionCovers(s.tvm.value.regions, a[4], a[4] + Bytes(a[3])))
  {
    hide Called, Shape, RegionFits, PoolVerdict, Granted, Overruns, SomeRegionCovers;
    ZeroAnswer(s, e, a, s', r);
    GrantedExact(s.blocks, a[1], a[1] + Bytes(a[3]));
  }

  lemma ZeroAnswer(s: Snapshot, e: Env, a: seq<Usize>, s': Snapshot, r: Reply)
    requires Sane(s) && |e.info| == INFO_SIZE && |a| == 7 && Called(s, e, a, s', r) && a[6] % 0x1_0000 == 12
    requires s.tvm.Some? && Shape(s.mem, s.tvm.value.pageTable)
    ensures var v := ZeroVerdict(s, a[0], a[1], a[2], a[3], a[4]);
            r == Answer(if v != Accept then v else if RegionFits(a[4], a[3]) then Accept else Stop, 0)
  {
    hide Shape, RegionMapped, RegionFits, SameOutside, ZeroVerdict;
  }

  /** A measured fill is accepted exactly so: only before the finalize call, and from any source that has an address. */
  lemma MeasuredFillAccepted(s: Snapshot, e: Env, a: seq<Usize>, s': Snapshot, r: Reply)
    requires Sane(s) && |e.info| == INFO_SIZE && |a| == 7 && Called(s, e, a, s', r) && a[6] % 0x1_0000 == 11
    requires s.tvm.Some? && Shape(s.mem, s.tvm.value.pageTable)
    requires OutsideDirectory(s.tvm.value.pageTable, a[2], a[2] + Bytes(a[4]))
    ensures r == Ret(0, 0) <==>
            && s.tvm.value.state.Initializing? && a[0] == 1 && a[3] == 0 && a[2] % 4096 == 0 && a[5] % 4096 == 0
            && a[1] + Bytes(a[4]) <= SPACE && a[2] + Bytes(a[4]) < SPACE && a[5] + Bytes(a[4]) < SPACE
            && Granted(s.blocks, a[2], a[2] + Bytes(a[4]))
            && SomeRegionCovers(s.tvm.value.regions, a[5], a[5] + Bytes(a[4]))
            && RegionFits(a[5], a[4])
    ensures r == FAILURE <==>
            || a[0] != 1 || !s.tvm.value.state.Initializing?
            || (a[3] == 0 && (a[2] % 4096 != 0 || a[5] % 4096 != 0))
            || (a[3] == 0 && a[5] + Bytes(a[4]) < SPACE && !SomeRegionCovers(s.tvm.value.regions, a[5], a[5] + Bytes(a[4])))
            || (a[3] == 0 && a[5] + Bytes(a[4]) < SPACE && a[2] + Bytes(a[4]) < SPACE
                && !Granted(s.blocks, a[2], a[2] + Bytes(a[4])) && !Overruns(s.blocks, a[2], a[2] + Bytes(a[4])))
  {
    hide Called, Shape, RegionFits, PoolVerdict, Granted, Overruns, SomeRegionCovers;
    MeasuredAnswer(s, e, a, s', r);
    GrantedExact(s.blocks, a[2], a[2] + Bytes(a[4]));
  }

  lemma MeasuredAnswer(s: Snapshot, e: Env, a: seq<Usize>, s': Snapshot, r: Reply)
    requires Sane(s) && |e.info| == INFO_SIZE && |a| == 7 && Called(s, e, a, s', r) && a[6] % 0x1_0000 == 11
    requires s.tvm.Some? && Shape(s.mem, s.tvm.value.pageTable)
    requires OutsideDirectory(s.tvm.value.pageTable, a[2], a[2] + Bytes(a[4]))
    ensures var v := MeasuredVerdict(s, a[0], a[1], a[2], a[3], a[4], a[5]);
            r == Answer(if v != Accept then v else if RegionFits(a[5], a[4]) then Accept else Stop, 0)
  {
    if a[1] + Bytes(a[4]) <= SPACE && a[2] + Bytes(a[4]) < SPACE {
      var m := Copied(s.mem, a[1], a[2], Bytes(a[4]));
      SameTableOutside(s.mem, m, s.tvm.value.pageTable, a[2], a[2] + Bytes(a[4]));
    }
    hide Shape, RegionMapped, RegionFits, SameOutside, PoolVerdict, SomeRegionCovers, Copied;
  }

  /** Every other function identifier is refused and changes nothing. */
  lemma UnknownInRegisters(s: Snapshot, e: Env, a: seq<Usize>, s': Snapshot, r: Reply)
    requires Sane(s) && |e.info| == INFO_SIZE && |a| == 7 && Called(s, e, a, s', r)
    requires a[6] % 0x1_0000 !in {0, 1, 2, 5, 6, 8, 9, 11, 12, 14, 15}
    ensures r == FAILURE && s' == s
  {
  }
}
