/**
 The TSM's hypervisor state and the calls that change it. Every call is a method on the class
 and is specified by a relation between snapshots of the whole state, physical memory included.
 */
module Hypervisor {
  import opened Bits
  import opened Memory
  import opened PageTable
  import opened Mapping

  type Usize = x: nat | x < SPACE

  datatype MemoryRegion = MemoryRegion(base: Usize, pages: nat)

  /** A block of confidential memory: base address, page count, owning TVM. */
  datatype Block = Block(base: Usize, pages: Usize, owner: Option<nat>)

  datatype TvmState = Initializing | Runnable

  /** The hasher is the byte stream it has absorbed so far. */
  datatype Tvm = Tvm(id: nat, pageTable: nat, stateAddr: nat, regions: seq<MemoryRegion>, state: TvmState,
                     vcpu: Option<nat>, entrySepc: nat, entryArg: nat, identityAddr: nat,
                     absorbed: seq<Byte>, measure: seq<Byte>)

  datatype Snapshot = Snapshot(mem: Memory, tvm: Option<Tvm>, blocks: seq<Block>,
                               measurement: Option<seq<Byte>>, hgatp: nat)

  /** How a call answers: with success, with an error, or not at all (a failed assertion or overflow). */
  datatype Verdict = Accept | Reject | Stop

  const PERMS: nat := 0x1e // R | W | X | U

  const TVM_ID: nat := 1

  // ----- ranges and look-ups

  function Bytes(pages: nat): nat {
    pages * 4096
  }

  function BlockEnd(b: Block): nat {
    b.base + Bytes(b.pages)
  }

  function RegionEnd(r: MemoryRegion): nat {
    r.base + Bytes(r.pages)
  }

  predicate BlockCovers(b: Block, lo: nat, hi: nat) {
    b.base <= lo && hi <= BlockEnd(b)
  }

  predicate RegionCovers(r: MemoryRegion, lo: nat, hi: nat) {
    r.base <= lo && hi <= RegionEnd(r)
  }

  datatype Scan = Hit(index: nat) | Miss | Overflow

  /** First block from `i` on that covers the range; a block end that overflows stops the scan. */
  function ScanBlocks(blocks: seq<Block>, i: nat, lo: nat, hi: nat): (r: Scan)
    requires i <= |blocks|
    ensures r.Hit? ==> i <= r.index < |blocks| && BlockCovers(blocks[r.index], lo, hi) && BlockEnd(blocks[r.index]) < SPACE
    ensures r.Miss? ==> forall k | i <= k < |blocks| :: !BlockCovers(blocks[k], lo, hi)
    ensures r.Hit? ==> forall k | i <= k < r.index :: !BlockCovers(blocks[k], lo, hi)
    decreases |blocks| - i
  {
    if i == |blocks| then Miss
    else if BlockEnd(blocks[i]) >= SPACE then Overflow
    else if BlockCovers(blocks[i], lo, hi) then Hit(i)
    else ScanBlocks(blocks, i + 1, lo, hi)
  }

  /** Block `k` is the first that covers the range, and no block up to it runs over the end of the address space. */
  predicate FirstCovers(blocks: seq<Block>, lo: nat, hi: nat, k: nat) {
    && k < |blocks| && BlockCovers(blocks[k], lo, hi)
    && (forall i | 0 <= i < k :: !BlockCovers(blocks[i], lo, hi))
    && (forall i | 0 <= i <= k :: BlockEnd(blocks[i]) < SPACE)
  }

  ghost predicate Tracked(blocks: seq<Block>, lo: nat, hi: nat) {
    exists k: nat :: FirstCovers(blocks, lo, hi, k)
  }

  lemma {:induction false} ScanFrom(blocks: seq<Block>, i: nat, lo: nat, hi: nat, k: nat)
    requires i <= |blocks| && i <= k && forall j | 0 <= j < i :: !BlockCovers(blocks[j], lo, hi) && BlockEnd(blocks[j]) < SPACE
    ensures ScanBlocks(blocks, i, lo, hi) == Hit(k) <==> FirstCovers(blocks, lo, hi, k)
    decreases |blocks| - i
  {
    if i < |blocks| && BlockEnd(blocks[i]) < SPACE && !BlockCovers(blocks[i], lo, hi) {
      if k > i {
        ScanFrom(blocks, i + 1, lo, hi, k);
      }
    }
  }

  lemma ScanExact(blocks: seq<Block>, lo: nat, hi: nat)
    ensures ScanBlocks(blocks, 0, lo, hi).Hit? <==> Tracked(blocks, lo, hi)
    ensures forall k: nat :: ScanBlocks(blocks, 0, lo, hi) == Hit(k) <==> FirstCovers(blocks, lo, hi, k)
  {
    forall k: nat ensures ScanBlocks(blocks, 0, lo, hi) == Hit(k) <==> FirstCovers(blocks, lo, hi, k) {
      ScanFrom(blocks, 0, lo, hi, k);
    }
    var r := ScanBlocks(blocks, 0, lo, hi);
    if r.Hit? {
      assert FirstCovers(blocks, lo, hi, r.index);
    }
  }

  /** The scan meets a block that runs over the end of the address space before it finds one that covers the range. */
  ghost predicate Overruns(blocks: seq<Block>, lo: nat, hi: nat) {
    exists k | 0 <= k < |blocks| ::
      BlockEnd(blocks[k]) >= SPACE && forall i | 0 <= i < k :: !BlockCovers(blocks[i], lo, hi) && BlockEnd(blocks[i]) < SPACE
  }

  lemma {:induction false} OverrunFrom(blocks: seq<Block>, i: nat, lo: nat, hi: nat)
    requires i <= |blocks| && forall j | 0 <= j < i :: !BlockCovers(blocks[j], lo, hi) && BlockEnd(blocks[j]) < SPACE
    ensures ScanBlocks(blocks, i, lo, hi) == Overflow <==> Overruns(blocks, lo, hi)
    decreases |blocks| - i
  {
    if i < |blocks| {
      if BlockEnd(blocks[i]) >= SPACE {
        assert Overruns(blocks, lo, hi);
      } else if !BlockCovers(blocks[i], lo, hi) {
        OverrunFrom(blocks, i + 1, lo, hi);
      }
    }
  }

  predicate SomeRegionCovers(regions: seq<MemoryRegion>, lo: nat, hi: nat) {
    exists k | 0 <= k < |regions| :: RegionCovers(regions[k], lo, hi)
  }

  predicate Overlaps(r: MemoryRegion, lo: nat, hi: nat) {
    !(hi <= r.base || RegionEnd(r) <= lo)
  }

  /** The scan of the fill calls, with the ownership check on the block it finds. */
  function PoolVerdict(blocks: seq<Block>, id: nat, lo: nat, hi: nat): Verdict {
    match ScanBlocks(blocks, 0, lo, hi)
    case Overflow => Stop
    case Miss => Reject
    case Hit(i) => if blocks[i].owner.Some? && blocks[i].owner.value != id then Reject else Accept
  }

  // ----- what each call checks, in the order it checks it

  function CreateVerdict(s: Snapshot, pt: nat, st: nat): Verdict {
    if s.tvm.Some? then Reject
    else if pt % 0x4000 != 0 then Reject
    else if pt + DIRECTORY_SIZE >= SPACE then Stop
    else if !(st < pt || st > pt + DIRECTORY_SIZE - 8) then Stop
    else
      match ScanBlocks(s.blocks, 0, pt, pt + DIRECTORY_SIZE)
      case Overflow => Stop
      case Miss => Reject
      case Hit(_) =>
        if st + PAGE_SIZE >= SPACE then Stop
        else
          match ScanBlocks(s.blocks, 0, st, st + PAGE_SIZE)
          case Overflow => Stop
          case Miss => Reject
          case Hit(_) => Accept
  }

  function RegionVerdict(s: Snapshot, id: nat, gpa: nat, len: nat): Verdict {
    if s.tvm.None? then Reject
    else if s.tvm.value.id != id then Reject
    else if !s.tvm.value.state.Initializing? then Reject
    else if gpa % 4096 != 0 || len % 4096 != 0 || len == 0 then Reject
    else if gpa + len >= SPACE then Stop
    else if exists k | 0 <= k < |s.tvm.value.regions| :: Overlaps(s.tvm.value.regions[k], gpa, gpa + len) then Reject
    else Accept
  }

  function MeasuredVerdict(s: Snapshot, id: nat, src: nat, dst: nat, ty: nat, n: nat, gpa: nat): Verdict {
    if s.tvm.None? then Reject
    else if s.tvm.value.id != id then Reject
    else if !s.tvm.value.state.Initializing? then Reject
    else if ty != 0 then Stop
    else if dst % 4096 != 0 || gpa % 4096 != 0 then Reject
    else if gpa + Bytes(n) >= SPACE then Stop
    else if !SomeRegionCovers(s.tvm.value.regions, gpa, gpa + Bytes(n)) then Reject
    else if dst + Bytes(n) >= SPACE then Stop
    else if PoolVerdict(s.blocks, id, dst, dst + Bytes(n)) != Accept then PoolVerdict(s.blocks, id, dst, dst + Bytes(n))
    else if src + Bytes(n) > SPACE then Stop
    else Accept
  }

  function ZeroVerdict(s: Snapshot, id: nat, base: nat, ty: nat, n: nat, gpa: nat): Verdict {
    if s.tvm.None? then Reject
    else if s.tvm.value.id != id then Reject
    else if ty != 0 then Stop
    else if base % 4096 != 0 || gpa % 4096 != 0 then Reject
    else if base + Bytes(n) >= SPACE then Stop
    else if PoolVerdict(s.blocks, id, base, base + Bytes(n)) != Accept then PoolVerdict(s.blocks, id, base, base + Bytes(n))
    else if gpa + Bytes(n) >= SPACE then Stop
    else if !SomeRegionCovers(s.tvm.value.regions, gpa, gpa + Bytes(n)) then Reject
    else Accept
  }

  function Match(blocks: seq<Block>, i: nat, base: nat, n: nat): (r: Option<nat>)
    requires i <= |blocks|
    ensures r.Some? ==> i <= r.value < |blocks| && blocks[r.value].base == base && blocks[r.value].pages == n
    ensures r.Some? ==> forall k | i <= k < r.value :: !(blocks[k].base == base && blocks[k].pages == n)
    ensures r.None? ==> forall k | i <= k < |blocks| :: !(blocks[k].base == base && blocks[k].pages == n)
    decreases |blocks| - i
  {
    if i == |blocks| then None
    else if blocks[i].base == base && blocks[i].pages == n then Some(i)
    else Match(blocks, i + 1, base, n)
  }

  function ReclaimVerdict(s: Snapshot, base: nat, n: nat): Verdict {
    if s.tvm.Some? then Reject
    else if Match(s.blocks, 0, base, n).None? then Reject
    else if base + Bytes(n) > SPACE then Stop
    else Accept
  }

  function VcpuVerdict(s: Snapshot, id: nat): Verdict {
    if s.tvm.Some? && s.tvm.value.id == id then Accept else Reject
  }

  function RunVerdict(s: Snapshot, id: nat): Verdict {
    if s.tvm.Some? && s.tvm.value.id == id && s.tvm.value.vcpu.Some? && s.tvm.value.state.Runnable?
    then Accept else Reject
  }

  // ----- what each accepted call does

  function NewTvm(pt: nat, st: nat): Tvm {
    Tvm(TVM_ID, pt, st, [], Initializing, None, 0, 0, 0, [], [])
  }

  function Own(blocks: seq<Block>, i: nat): seq<Block>
    requires i < |blocks|
  {
    blocks[i := blocks[i].(owner := Some(TVM_ID))]
  }

  /** Blocks after the directory's and the state page's blocks are marked as owned. */
  function Owned(blocks: seq<Block>, pt: nat, st: nat): seq<Block> {
    var d, t := ScanBlocks(blocks, 0, pt, pt + DIRECTORY_SIZE), ScanBlocks(blocks, 0, st, st + PAGE_SIZE);
    if d.Hit? && t.Hit? then Own(Own(blocks, d.index), t.index) else blocks
  }

  /** Which create calls are accepted. */
  lemma CreateVerdictExact(s: Snapshot, pt: nat, st: nat)
    ensures CreateVerdict(s, pt, st) == Accept <==>
            && s.tvm.None? && pt % 0x4000 == 0 && pt + 0x4000 < SPACE && st + 4096 < SPACE && (st < pt || st > pt + 0x4000 - 8)
            && Tracked(s.blocks, pt, pt + 0x4000) && Tracked(s.blocks, st, st + 4096)
  {
    ScanExact(s.blocks, pt, pt + 0x4000);
    ScanExact(s.blocks, st, st + 4096);
    hide Tracked, FirstCovers, ScanBlocks;
  }

  /** Which create calls stop the TSM; all others that are not accepted are refused. */
  lemma CreateStopExact(s: Snapshot, pt: nat, st: nat)
    ensures CreateVerdict(s, pt, st) == Stop <==>
            && s.tvm.None? && pt % 0x4000 == 0
            && (|| pt + 0x4000 >= SPACE || pt <= st <= pt + 0x4000 - 8 || Overruns(s.blocks, pt, pt + 0x4000)
                || (Tracked(s.blocks, pt, pt + 0x4000) && (st + 4096 >= SPACE || Overruns(s.blocks, st, st + 4096))))
  {
    ScanExact(s.blocks, pt, pt + 0x4000);
    OverrunFrom(s.blocks, 0, pt, pt + 0x4000);
    OverrunFrom(s.blocks, 0, st, st + 4096);
    hide Tracked, FirstCovers, ScanBlocks, Overruns;
  }

  /** The first blocks that cover the directory and the state page become the TVM's, the others stay. */
  lemma OwnedExact(blocks: seq<Block>, pt: nat, st: nat, k: nat)
    requires Tracked(blocks, pt, pt + 0x4000) && Tracked(blocks, st, st + 4096) && k < |blocks|
    ensures |Owned(blocks, pt, st)| == |blocks|
    ensures Owned(blocks, pt, st)[k]
            == if FirstCovers(blocks, pt, pt + 0x4000, k) || FirstCovers(blocks, st, st + 4096, k)
               then blocks[k].(owner := Some(1)) else blocks[k]
  {
    ScanExact(blocks, pt, pt + 0x4000);
    ScanExact(blocks, st, st + 4096);
    hide Tracked, FirstCovers, ScanBlocks;
  }

  function MakeHgatp(pt: nat): nat {
    8 * 0x1000_0000_0000_0000 + pt / 4096 % 0x1000_0000_0000
  }

  function Copied(m: Memory, src: nat, dst: nat, n: nat): Memory
    requires src + n <= SPACE && dst + n <= SPACE
  {
    Patch(m, dst, m[src..src + n])
  }

  ghost predicate Zeroed(m: Memory, m': Memory, lo: nat, hi: nat)
    requires hi <= SPACE
  {
    SameOutside(m, m', lo, hi) && forall i {:trigger m'[i]} | lo <= i < hi :: m'[i] == 0
  }

  /** Mapping step of the fill calls; a page with no leaf table stops the call. */
  ghost predicate Filled(m: Memory, m': Memory, root: nat, gpa: nat, pa: nat, n: nat, v: Verdict)
    requires RootOk(root)
  {
    Shape(m, root) ==>
      && Shape(m', root)
      && SameOutside(m, m', root, root + DIRECTORY_SIZE)
      && (v.Accept? <==> RegionFits(gpa, n))
      && (v.Accept? ==> RegionMapped(m, m', root, gpa, pa, n, PERMS))
  }

  /** A page of a fill is open to the guest and marked neither accessed nor dirty. */
  lemma FillLeaf(m: Memory, root: nat, gpa: nat)
    requires RootOk(root) && Shape(m, root) && Flagged(View(m, root), Leaves(m, root), PERMS)
    requires TranslateGpaToPa(m, root, gpa).Some?
    ensures LowPage(gpa) < LEAVES && OpenLeaf(LeafFor(m, root, gpa)) && UnusedLeaf(LeafFor(m, root, gpa))
  {
    hide TranslateGpaToPa, Shape, View, Flagged, LeafFor;
    FlaggedLeaf(m, root, gpa, PERMS, 0);
    forall k: nat | k < 8 ensures Bit(LeafFor(m, root, gpa), k) <==> k == 0 || k == 4 || Bit(PERMS, k) {
      FlaggedLeaf(m, root, gpa, PERMS, k);
    }
    FillBits();
  }

  lemma FillBits()
    ensures Bit(PERMS, 1) && Bit(PERMS, 2) && Bit(PERMS, 3) && !Bit(PERMS, 6) && !Bit(PERMS, 7)
  {
  }

  /** Facts about the TVM record that hold whatever the host asks for. */
  predicate Sane(s: Snapshot) {
    s.tvm.Some? ==>
      && s.tvm.value.id == TVM_ID
      && RootOk(s.tvm.value.pageTable)
      && forall k | 0 <= k < |s.tvm.value.regions| :: RegionEnd(s.tvm.value.regions[k]) < SPACE
  }

  /** Everything but memory is as in `t`. */
  ghost predicate SameRecord(s: Snapshot, t: Snapshot) {
    s == t.(mem := s.mem)
  }

  ghost predicate CreateStep(s: Snapshot, pt: nat, st: nat, s': Snapshot, v: Verdict) {
    && v == CreateVerdict(s, pt, st)
    && (v.Reject? ==> s' == s)
    && (v.Accept? ==>
          && SameRecord(s', s.(tvm := Some(NewTvm(pt, st)), blocks := Owned(s.blocks, pt, st)))
          && Zeroed(s.mem, s'.mem, pt, pt + DIRECTORY_SIZE))
  }

  ghost predicate AddRegionStep(s: Snapshot, id: nat, gpa: Usize, len: nat, s': Snapshot, v: Verdict) {
    && v == RegionVerdict(s, id, gpa, len)
    && (v.Reject? ==> s' == s)
    && (v.Accept? ==>
          var t := s.tvm.value;
          s' == s.(tvm := Some(t.(regions := t.regions + [MemoryRegion(gpa, len / 4096)]))))
  }

  ghost predicate MeasuredStep(s: Snapshot, id: nat, src: nat, dst: nat, ty: nat, n: nat, gpa: nat,
                               s': Snapshot, v: Verdict)
    requires Sane(s)
  {
    var check := MeasuredVerdict(s, id, src, dst, ty, n, gpa);
    && (check != Accept ==> v == check)
    && (check.Reject? ==> s' == s)
    && (check.Accept? ==>
          var t, m := s.tvm.value, Copied(s.mem, src, dst, Bytes(n));
          && v != Reject
          && SameRecord(s', s.(tvm := Some(t.(absorbed := t.absorbed + m[src..src + Bytes(n)]))))
          && Filled(m, s'.mem, t.pageTable, gpa, dst, n, v))
  }

  ghost predicate ZeroStep(s: Snapshot, id: nat, base: nat, ty: nat, n: nat, gpa: nat, s': Snapshot, v: Verdict)
    requires Sane(s)
  {
    var check := ZeroVerdict(s, id, base, ty, n, gpa);
    && (check != Accept ==> v == check)
    && (check.Reject? ==> s' == s)
    && (check.Accept? ==>
          && v != Reject
          && SameRecord(s', s)
          && Filled(s.mem, s'.mem, s.tvm.value.pageTable, gpa, base, n, v))
  }

  ghost predicate FinalizeStep(s: Snapshot, hash: seq<Byte> -> seq<Byte>, sepc: nat, arg: nat, identity: nat,
                               s': Snapshot, v: Verdict) {
    && v == (if s.tvm.Some? then Accept else Reject)
    && (v.Reject? ==> s' == s)
    && (v.Accept? ==>
          var t := s.tvm.value;
          var digest := hash(t.absorbed);
          s' == s.(tvm := Some(t.(entrySepc := sepc, entryArg := arg, identityAddr := identity,
                                  state := Runnable, measure := digest, absorbed := [])),
                   measurement := Some(digest)))
  }

  ghost predicate DestroyStep(s: Snapshot, s': Snapshot)
    requires Sane(s)
  {
    && SameRecord(s', s.(tvm := None))
    && (if s.tvm.Some? then Zeroed(s.mem, s'.mem, s.tvm.value.pageTable, s.tvm.value.pageTable + DIRECTORY_SIZE)
        else s'.mem == s.mem)
  }

  ghost predicate ReclaimStep(s: Snapshot, base: nat, n: nat, s': Snapshot, v: Verdict) {
    && v == ReclaimVerdict(s, base, n)
    && (v.Reject? ==> s' == s)
    && (v.Accept? ==>
          var i := Match(s.blocks, 0, base, n).value;
          && SameRecord(s', s.(blocks := s.blocks[..i] + s.blocks[i + 1..]))
          && Zeroed(s.mem, s'.mem, base, base + Bytes(n)))
  }

  // ----- the calls

  class HypervisorState {
    const ram: Ram
    const sha384: seq<Byte> -> seq<Byte>
    var tvm: Option<Tvm>
    var confidential: seq<Block>
    var measurement: Option<seq<Byte>>
    var hgatp: nat

    constructor (ram: Ram, sha384: seq<Byte> -> seq<Byte>)
      ensures this.ram == ram && this.sha384 == sha384 && tvm == None && confidential == [] && measurement == None
    {
      this.ram := ram;
      this.sha384 := sha384;
      tvm := None;
      confidential := [];
      measurement := None;
      hgatp := 0;
    }

    ghost function Snap(): Snapshot
      reads this, ram
    {
      Snapshot(ram.bytes, tvm, confidential, measurement, hgatp)
    }

    ghost predicate Valid()
      reads this, ram
    {
      Sane(Snap())
    }

    method AddConfidentialPages(base: Usize, n: Usize)
      requires Valid()
      modifies this
      ensures Snap() == old(Snap()).(blocks := old(confidential) + [Block(base, n, None)])
      ensures Valid()
    {
      confidential := confidential + [Block(base, n, None)];
    }

    method FindConfidentialBlockIdxCovering(lo: nat, hi: nat) returns (r: Scan)
      ensures r == ScanBlocks(confidential, 0, lo, hi)
    {
      var i := 0;
      while i < |confidential|
        invariant i <= |confidential|
        invariant ScanBlocks(confidential, 0, lo, hi) == ScanBlocks(confidential, i, lo, hi)
      {
        if BlockEnd(confidential[i]) >= SPACE {
          return Overflow;
        }
        if BlockCovers(confidential[i], lo, hi) {
          return Hit(i);
        }
        i := i + 1;
      }
      r := Miss;
    }

    method CreateTvm(pt: Usize, st: Usize) returns (v: Verdict)
      requires Valid()
      modifies this, ram
      ensures CreateStep(old(Snap()), pt, st, Snap(), v)
      ensures Valid()
    {
      if tvm.Some? {
        return Reject;
      }
      if pt % 0x4000 != 0 {
        return Reject;
      }
      if pt + DIRECTORY_SIZE >= SPACE || !(st < pt || st > pt + DIRECTORY_SIZE - 8) {
        return Stop;
      }
      var directory := FindConfidentialBlockIdxCovering(pt, pt + DIRECTORY_SIZE);
      if !directory.Hit? {
        return if directory.Miss? then Reject else Stop;
      }
      if st + PAGE_SIZE >= SPACE {
        return Stop;
      }
      var state := FindConfidentialBlockIdxCovering(st, st + PAGE_SIZE);
      if !state.Hit? {
        return if state.Miss? then Reject else Stop;
      }
      confidential := Own(confidential, directory.index);
      confidential := Own(confidential, state.index);
      ram.Zero(pt, DIRECTORY_SIZE);
      tvm := Some(NewTvm(pt, st));
      v := Accept;
    }

    method FinalizeTvm(sepc: nat, arg: nat, identity: nat) returns (v: Verdict)
      requires Valid()
      modifies this
      ensures FinalizeStep(old(Snap()), sha384, sepc, arg, identity, Snap(), v)
      ensures Valid()
    {
      if tvm.None? {
        return Reject;
      }
      var t := tvm.value.(entrySepc := sepc, entryArg := arg, identityAddr := identity, state := Runnable);
      t := t.(measure := sha384(t.absorbed), absorbed := []);
      tvm := Some(t);
      measurement := Some(t.measure);
      v := Accept;
    }

    method DestroyTvm()
      requires Valid()
      modifies this, ram
      ensures DestroyStep(old(Snap()), Snap())
      ensures Valid()
    {
      if tvm.Some? {
        ram.Zero(tvm.value.pageTable, DIRECTORY_SIZE);
      }
      tvm := None;
    }

    method AddTvmMemoryRegion(id: nat, gpa: Usize, len: Usize) returns (v: Verdict)
      requires Valid()
      modifies this
      ensures AddRegionStep(old(Snap()), id, gpa, len, Snap(), v)
      ensures Valid()
    {
      if tvm.None? || tvm.value.id != id || !tvm.value.state.Initializing? {
        return Reject;
      }
      if gpa % 4096 != 0 || len % 4096 != 0 || len == 0 {
        return Reject;
      }
      if gpa + len >= SPACE {
        return Stop;
      }
      var regions := tvm.value.regions;
      var k := 0;
      while k < |regions|
        invariant k <= |regions|
        invariant forall j | 0 <= j < k :: !Overlaps(regions[j], gpa, gpa + len)
      {
        if Overlaps(regions[k], gpa, gpa + len) {
          return Reject;
        }
        k := k + 1;
      }
      tvm := Some(tvm.value.(regions := regions + [MemoryRegion(gpa, len / 4096)]));
      v := Accept;
    }

    method RegionFound(lo: nat, hi: nat) returns (found: bool)
      requires tvm.Some?
      ensures found == SomeRegionCovers(tvm.value.regions, lo, hi)
    {
      var regions := tvm.value.regions;
      var k := 0;
      found := false;
      while k < |regions|
        invariant k <= |regions|
        invariant forall j | 0 <= j < k :: !RegionCovers(regions[j], lo, hi)
      {
        if RegionCovers(regions[k], lo, hi) {
          return true;
        }
        k := k + 1;
      }
    }

    method PoolFound(id: nat, lo: nat, hi: nat) returns (v: Verdict)
      ensures v == PoolVerdict(confidential, id, lo, hi)
    {
      var block := FindConfidentialBlockIdxCovering(lo, hi);
      match block {
        case Overflow => v := Stop;
        case Miss => v := Reject;
        case Hit(i) =>
          v := if confidential[i].owner.Some? && confidential[i].owner.value != id then Reject else Accept;
      }
    }

    method AddTvmMeasuredPages(id: nat, src: Usize, dst: Usize, ty: nat, n: Usize, gpa: Usize) returns (v: Verdict)
      requires Valid()
      modifies this, ram
      ensures MeasuredStep(old(Snap()), id, src, dst, ty, n, gpa, Snap(), v)
      ensures Valid()
    {
      if tvm.None? || tvm.value.id != id || !tvm.value.state.Initializing? {
        return Reject;
      }
      if ty != 0 {
        return Stop;
      }
      if dst % 4096 != 0 || gpa % 4096 != 0 {
        return Reject;
      }
      if gpa + Bytes(n) >= SPACE {
        return Stop;
      }
      var found := RegionFound(gpa, gpa + Bytes(n));
      if !found {
        return Reject;
      }
      if dst + Bytes(n) >= SPACE {
        return Stop;
      }
      v := PoolFound(id, dst, dst + Bytes(n));
      if v != Accept {
        return;
      }
      if src + Bytes(n) > SPACE {
        return Stop;
      }
      ram.bytes := Copied(ram.bytes, src, dst, Bytes(n));
      tvm := Some(tvm.value.(absorbed := tvm.value.absorbed + ram.bytes[src..src + Bytes(n)]));
      var ok := MapRegion(ram, tvm.value.pageTable, gpa, dst, n, PERMS);
      v := if ok then Accept else Stop;
    }

    method AddTvmZeroPages(id: nat, base: Usize, ty: nat, n: Usize, gpa: Usize) returns (v: Verdict)
      requires Valid()
      modifies this, ram
      ensures ZeroStep(old(Snap()), id, base, ty, n, gpa, Snap(), v)
      ensures Valid()
    {
      if tvm.None? || tvm.value.id != id {
        return Reject;
      }
      if ty != 0 {
        return Stop;
      }
      if base % 4096 != 0 || gpa % 4096 != 0 {
        return Reject;
      }
      if base + Bytes(n) >= SPACE {
        return Stop;
      }
      v := PoolFound(id, base, base + Bytes(n));
      if v != Accept {
        return;
      }
      if gpa + Bytes(n) >= SPACE {
        return Stop;
      }
      var found := RegionFound(gpa, gpa + Bytes(n));
      if !found {
        return Reject;
      }
      var ok := MapRegion(ram, tvm.value.pageTable, gpa, base, n, PERMS);
      v := if ok then Accept else Stop;
    }

    method CreateTvmVcpu(id: nat, vcpuId: nat) returns (v: Verdict)
      requires Valid()
      modifies this
      ensures v == VcpuVerdict(old(Snap()), id) && Valid()
      ensures Snap() == if v.Accept? then old(Snap()).(tvm := Some(old(tvm).value.(vcpu := Some(vcpuId)))) else old(Snap())
    {
      if tvm.None? || tvm.value.id != id {
        return Reject;
      }
      tvm := Some(tvm.value.(vcpu := Some(vcpuId)));
      v := Accept;
    }

    /** An accepted run points `hgatp` at the directory and never returns to the host. */
    method RunTvmVcpu(id: nat) returns (v: Verdict)
      requires Valid()
      modifies this
      ensures v == RunVerdict(old(Snap()), id) && Valid()
      ensures Snap() == if v.Accept? then old(Snap()).(hgatp := MakeHgatp(old(tvm).value.pageTable)) else old(Snap())
    {
      if tvm.None? || tvm.value.id != id || tvm.value.vcpu.None? || !tvm.value.state.Runnable? {
        return Reject;
      }
      hgatp := MakeHgatp(tvm.value.pageTable);
      v := Accept;
    }

    method ReclaimPages(base: Usize, n: Usize) returns (v: Verdict)
      requires Valid()
      modifies this, ram
      ensures ReclaimStep(old(Snap()), base, n, Snap(), v)
      ensures Valid()
    {
      if tvm.Some? {
        return Reject;
      }
      var i := 0;
      while i < |confidential| && !(confidential[i].base == base && confidential[i].pages == n)
        invariant i <= |confidential|
        invariant Match(confidential, 0, base, n) == Match(confidential, i, base, n)
      {
        i := i + 1;
      }
      if i == |confidential| {
        return Reject;
      }
      if base + Bytes(n) > SPACE {
        return Stop;
      }
      ram.Zero(base, Bytes(n));
      confidential := confidential[..i] + confidential[i + 1..];
      v := Accept;
    }
  }
}
