/**
 Whole runs of mapping calls: what a directory built by any sequence of `Map4kLeaf` calls
 translates, against a last-write-wins list of the calls.
 */
module Mapping {
  import opened Memory
  import opened PageTable
  import opened Bits

  datatype MapOp = MapOp(gpa: nat, pa: nat, perms: nat)

  function Apply(d: Directory, ops: seq<MapOp>): Directory {
    if ops == [] then d
    else
      var op := ops[|ops| - 1];
      MapOne(Apply(d, ops[..|ops| - 1]), op.gpa, op.pa, op.perms)
  }

  /** Leaf words after the calls: each writes the word of its low page. */
  function WrittenLeaves(l: seq<nat>, ops: seq<MapOp>): (r: seq<nat>)
    ensures |r| == |l|
  {
    if ops == [] then l
    else
      var op := ops[|ops| - 1];
      WithLeaf(WrittenLeaves(l, ops[..|ops| - 1]), LowPage(op.gpa), LeafWord(op.pa, op.perms))
  }

  const NO_LEAVES: seq<nat> := seq(LEAVES, i => 0)

  /** The 27-bit Sv39 page number. */
  function VirtualPage(gpa: nat): nat {
    gpa / 4096 % 0x800_0000
  }

  /** Reference: the last call for the page of `gpa` decides. */
  function LastWrite(ops: seq<MapOp>, gpa: nat): Option<nat> {
    if ops == [] then None
    else
      var op := ops[|ops| - 1];
      if VirtualPage(op.gpa) == VirtualPage(gpa) then
        if HasAccess(op.perms) then Some(PageBase(op.pa) + gpa % 4096) else None
      else LastWrite(ops[..|ops| - 1], gpa)
  }

  /** Reference without a bound on addresses: gigabytes share the L1 table, so they alias. */
  function LastAlias(ops: seq<MapOp>, gpa: nat): Option<nat> {
    if ops == [] then None
    else
      var op := ops[|ops| - 1];
      if LowPage(op.gpa) == LowPage(gpa) then
        if HasAccess(op.perms) then Some(PageBase(op.pa) + gpa % 4096) else None
      else LastAlias(ops[..|ops| - 1], gpa)
  }

  ghost predicate Touched(ops: seq<MapOp>, v: nat) {
    exists i :: 0 <= i < |ops| && Vpn2(ops[i].gpa) == v
  }

  ghost predicate InGigabyte(ops: seq<MapOp>, v: nat) {
    forall i | 0 <= i < |ops| :: Vpn2(ops[i].gpa) == v
  }

  lemma VirtualPageSplit(gpa: nat)
    ensures VirtualPage(gpa) == Vpn2(gpa) * 0x4_0000 + LowPage(gpa)
  {
    var p := gpa / 4096;
    assert gpa / 0x4000_0000 == p / 0x4_0000;
  }

  lemma SamePageIff(a: nat, b: nat)
    ensures VirtualPage(a) == VirtualPage(b) <==> Vpn2(a) == Vpn2(b) && LowPage(a) == LowPage(b)
  {
    VirtualPageSplit(a);
    VirtualPageSplit(b);
  }

  lemma {:induction false} TouchedRoots(ops: seq<MapOp>, v: nat)
    ensures v in Apply(EMPTY, ops).roots <==> Touched(ops, v)
  {
    if ops != [] {
      var init := ops[..|ops| - 1];
      TouchedRoots(init, v);
      if Touched(init, v) {
        var i :| 0 <= i < |init| && Vpn2(init[i].gpa) == v;
        assert ops[i] == init[i];
      }
      if Touched(ops, v) && Vpn2(ops[|ops| - 1].gpa) != v {
        var i :| 0 <= i < |ops| && Vpn2(ops[i].gpa) == v;
        assert init[i] == ops[i];
      }
    }
  }

  /** Every run, every address: translated exactly when its gigabyte was touched and an alias of its page is mapped. */
  lemma {:induction false} RunLooksUp(ops: seq<MapOp>, gpa: nat)
    ensures LookUp(Apply(EMPTY, ops), gpa) == if Touched(ops, Vpn2(gpa)) then LastAlias(ops, gpa) else None
  {
    TouchedRoots(ops, Vpn2(gpa));
    RunPages(ops, gpa);
  }

  lemma {:induction false} RunPages(ops: seq<MapOp>, gpa: nat)
    ensures var d := Apply(EMPTY, ops);
            LastAlias(ops, gpa) == if LowPage(gpa) in d.pages then Some(d.pages[LowPage(gpa)] + gpa % 4096) else None
  {
    if ops != [] {
      RunPages(ops[..|ops| - 1], gpa);
    }
  }

  /** Within one gigabyte aliases are the page itself. */
  lemma {:induction false} AliasIsWrite(ops: seq<MapOp>, v: nat, gpa: nat)
    requires InGigabyte(ops, v)
    ensures LastWrite(ops, gpa) == if Vpn2(gpa) == v then LastAlias(ops, gpa) else None
  {
    if ops != [] {
      var op := ops[|ops| - 1];
      assert Vpn2(op.gpa) == v;
      AliasIsWrite(ops[..|ops| - 1], v, gpa);
      SamePageIff(op.gpa, gpa);
    }
  }

  /** Runs that stay in one gigabyte, as the layout assumes, are last-write-wins page maps. */
  lemma GigabyteRun(ops: seq<MapOp>, v: nat, gpa: nat)
    requires InGigabyte(ops, v)
    ensures LookUp(Apply(EMPTY, ops), gpa) == LastWrite(ops, gpa)
  {
    RunLooksUp(ops, gpa);
    AliasIsWrite(ops, v, gpa);
    if Vpn2(gpa) == v {
      if ops == [] {
      } else {
        assert Vpn2(ops[0].gpa) == v;
      }
    } else if Touched(ops, Vpn2(gpa)) {
      assert false;
    }
  }

  // ----- when gigabytes may be mixed

  function Address(v: nat, x: nat): nat {
    v * 0x4000_0000 + x * 4096
  }

  lemma AddressOf(v: nat, x: nat)
    requires v < ENTRIES && x < 0x4_0000
    ensures Vpn2(Address(v, x)) == v && LowPage(Address(v, x)) == x && Address(v, x) % 4096 == 0
  {
    var gpa := Address(v, x);
    assert gpa / 4096 == v * 0x4_0000 + x;
    assert gpa / 0x4000_0000 == v;
  }

  /** The byte `off` bytes into a frame. */
  function Moved(frame: Option<nat>, off: nat): Option<nat> {
    if frame.None? then None else Some(frame.value + off)
  }

  lemma {:induction false} WriteOfPage(ops: seq<MapOp>, gpa: nat)
    ensures LastWrite(ops, gpa) == Moved(LastWrite(ops, Address(Vpn2(gpa), LowPage(gpa))), gpa % 4096)
  {
    AddressOf(Vpn2(gpa), LowPage(gpa));
    if ops != [] {
      var op := ops[|ops| - 1];
      WriteOfPage(ops[..|ops| - 1], gpa);
      SamePageIff(op.gpa, gpa);
      SamePageIff(op.gpa, Address(Vpn2(gpa), LowPage(gpa)));
    }
  }

  lemma {:induction false} AliasOfPage(ops: seq<MapOp>, gpa: nat, other: nat)
    requires LowPage(other) == LowPage(gpa) && other % 4096 == 0
    ensures LastAlias(ops, gpa) == Moved(LastAlias(ops, other), gpa % 4096)
  {
    if ops != [] {
      AliasOfPage(ops[..|ops| - 1], gpa, other);
    }
  }

  lemma {:induction false} UntouchedIsUnwritten(ops: seq<MapOp>, gpa: nat)
    requires !Touched(ops, Vpn2(gpa))
    ensures LastWrite(ops, gpa) == None
  {
    if ops != [] {
      var init := ops[..|ops| - 1];
      assert forall i | 0 <= i < |init| :: init[i] == ops[i];
      UntouchedIsUnwritten(init, gpa);
      assert Vpn2(ops[|ops| - 1].gpa) != Vpn2(gpa);
      SamePageIff(ops[|ops| - 1].gpa, gpa);
    }
  }

  ghost predicate LowTouched(ops: seq<MapOp>, x: nat) {
    exists i :: 0 <= i < |ops| && LowPage(ops[i].gpa) == x
  }

  lemma {:induction false} NoAlias(ops: seq<MapOp>, gpa: nat)
    requires !LowTouched(ops, LowPage(gpa))
    ensures LastAlias(ops, gpa) == None && LastWrite(ops, gpa) == None
  {
    if ops != [] {
      var init := ops[..|ops| - 1];
      assert forall i | 0 <= i < |init| :: init[i] == ops[i];
      NoAlias(init, gpa);
      assert LowPage(ops[|ops| - 1].gpa) != LowPage(gpa);
      SamePageIff(ops[|ops| - 1].gpa, gpa);
    }
  }

  /** The alias that decides is the last write of some gigabyte in use. */
  lemma {:induction false} AliasOwner(ops: seq<MapOp>, x: nat) returns (u: nat)
    requires LowTouched(ops, x) && x < 0x4_0000
    ensures u < ENTRIES && Touched(ops, u)
    ensures LastAlias(ops, Address(u, x)) == LastWrite(ops, Address(u, x))
  {
    var n := |ops| - 1;
    var init, op := ops[..n], ops[n];
    if LowPage(op.gpa) == x {
      u := Vpn2(op.gpa);
    } else {
      assert LowTouched(init, x) by {
        var i :| 0 <= i < |ops| && LowPage(ops[i].gpa) == x;
        assert init[i] == ops[i];
      }
      u := AliasOwner(init, x);
      var i :| 0 <= i < |init| && Vpn2(init[i].gpa) == u;
      assert ops[i] == init[i];
    }
    AddressOf(u, x);
    SamePageIff(op.gpa, Address(u, x));
  }

  /** Any two gigabytes in use were last written alike, low page by low page. */
  ghost predicate AlikeGigabytes(ops: seq<MapOp>) {
    forall v: nat, w: nat, x: nat {:trigger Address(v, x), Address(w, x)} |
      Touched(ops, v) && Touched(ops, w) && v < ENTRIES && w < ENTRIES && x < 0x4_0000 ::
      LastWrite(ops, Address(v, x)) == LastWrite(ops, Address(w, x))
  }

  /** Sufficient: then the directory is a last-write-wins map at every address. */
  lemma AlikeAgree(ops: seq<MapOp>, gpa: nat)
    requires AlikeGigabytes(ops)
    ensures LookUp(Apply(EMPTY, ops), gpa) == LastWrite(ops, gpa)
  {
    RunLooksUp(ops, gpa);
    var v, x := Vpn2(gpa), LowPage(gpa);
    hide LastWrite, LastAlias;
    if !LowTouched(ops, x) {
      NoAlias(ops, gpa);
    } else if Touched(ops, v) {
      var u := AliasOwner(ops, x);
      AddressOf(u, x);
      WriteOfPage(ops, gpa);
      AliasOfPage(ops, gpa, Address(u, x));
      assert LastWrite(ops, Address(v, x)) == LastWrite(ops, Address(u, x));
    } else {
      UntouchedIsUnwritten(ops, gpa);
    }
  }

  /** Necessary: otherwise a concrete address on which the directory and the reference differ. */
  lemma Disagreement(ops: seq<MapOp>) returns (gpa: nat)
    requires !AlikeGigabytes(ops)
    ensures LookUp(Apply(EMPTY, ops), gpa) != LastWrite(ops, gpa)
  {
    hide LastWrite, LastAlias, Apply, Address, LookUp;
    var v: nat, w: nat, x: nat :| Touched(ops, v) && Touched(ops, w) && v < ENTRIES && w < ENTRIES && x < 0x4_0000
      && LastWrite(ops, Address(v, x)) != LastWrite(ops, Address(w, x));
    var a, b := Address(v, x), Address(w, x);
    AddressOf(v, x);
    AddressOf(w, x);
    RunLooksUp(ops, a);
    RunLooksUp(ops, b);
    AliasOfPage(ops, a, b);
    gpa := if LookUp(Apply(EMPTY, ops), a) != LastWrite(ops, a) then a else b;
  }

  /**
   Exact, for every run: the directory agrees with last-write-wins at all addresses precisely when
   the gigabytes in use were written alike.
   */
  lemma GigabytesExact(ops: seq<MapOp>)
    ensures (forall gpa: nat :: LookUp(Apply(EMPTY, ops), gpa) == LastWrite(ops, gpa)) <==> AlikeGigabytes(ops)
  {
    if AlikeGigabytes(ops) {
      forall gpa: nat ensures LookUp(Apply(EMPTY, ops), gpa) == LastWrite(ops, gpa) {
        AlikeAgree(ops, gpa);
      }
    } else {
      var gpa := Disagreement(ops);
    }
  }

  // ----- runs over memory

  ghost predicate ZeroDirectory(m: Memory, root: nat)
    requires RootOk(root)
  {
    forall i {:trigger m[i]} | root <= i < root + DIRECTORY_SIZE :: m[i] == 0
  }

  lemma ZeroIsEmpty(m: Memory, root: nat)
    requires RootOk(root) && ZeroDirectory(m, root)
    ensures Shape(m, root) && View(m, root) == EMPTY && Leaves(m, root) == NO_LEAVES
  {
    var t := Table(m, root);
    forall k | 0 <= k < 2048 ensures t[k] == 0 {
      LoadZero(m, root + 8 * k);
    }
    assert forall x | 0 <= x < LEAVES :: Leaf(t, x) == 0;
    assert View(m, root).pages == map[];
    assert View(m, root).roots == {};
  }

  /** `ms` are the memories between the calls of a run that starts from a zeroed directory. */
  ghost predicate IsMapRun(ms: seq<Memory>, root: nat, ops: seq<MapOp>)
    requires RootOk(root)
  {
    && |ms| == |ops| + 1
    && ZeroDirectory(ms[0], root)
    && (forall i {:trigger ops[i]} | 0 <= i < |ops| ::
          Mapped(ms[i], ms[i + 1], root, ops[i].gpa, ops[i].pa, ops[i].perms, true))
  }

  lemma {:induction false} RunView(ms: seq<Memory>, root: nat, ops: seq<MapOp>)
    requires RootOk(root) && IsMapRun(ms, root, ops)
    ensures Shape(ms[|ops|], root) && View(ms[|ops|], root) == Apply(EMPTY, ops)
    ensures Leaves(ms[|ops|], root) == WrittenLeaves(NO_LEAVES, ops)
    ensures SameOutside(ms[0], ms[|ops|], root, root + DIRECTORY_SIZE)
  {
    if ops == [] {
      ZeroIsEmpty(ms[0], root);
    } else {
      var n := |ops| - 1;
      var ops', ms' := ops[..n], ms[..n + 1];
      assert forall i | 0 <= i < |ops'| :: ops'[i] == ops[i];
      RunView(ms', root, ops');
      assert Mapped(ms[n], ms[n + 1], root, ops[n].gpa, ops[n].pa, ops[n].perms, true);
    }
  }

  /** Page-table refinement over whole runs of the mapping code on physical memory. */
  lemma RunRefinement(ms: seq<Memory>, root: nat, ops: seq<MapOp>, v: nat, gpa: nat)
    requires RootOk(root) && IsMapRun(ms, root, ops) && InGigabyte(ops, v)
    ensures TranslateGpaToPa(ms[|ops|], root, gpa) == LastWrite(ops, gpa)
  {
    RunView(ms, root, ops);
    TranslateIsLookUp(ms[|ops|], root, gpa);
    GigabyteRun(ops, v, gpa);
  }

  /** Exact, on memory: the walk is a last-write-wins map precisely when the gigabytes in use were written alike. */
  lemma RunRefinementExact(ms: seq<Memory>, root: nat, ops: seq<MapOp>)
    requires RootOk(root) && IsMapRun(ms, root, ops)
    ensures (forall gpa: nat :: TranslateGpaToPa(ms[|ops|], root, gpa) == LastWrite(ops, gpa)) <==> AlikeGigabytes(ops)
  {
    RunView(ms, root, ops);
    hide IsMapRun, AlikeGigabytes, LastWrite, Walk, Shape, View;
    forall gpa: nat ensures TranslateGpaToPa(ms[|ops|], root, gpa) == LookUp(Apply(EMPTY, ops), gpa) {
      TranslateIsLookUp(ms[|ops|], root, gpa);
    }
    GigabytesExact(ops);
  }

  /** The same with no bound on the addresses of the run. */
  lemma RunRefinementAliased(ms: seq<Memory>, root: nat, ops: seq<MapOp>, gpa: nat)
    requires RootOk(root) && IsMapRun(ms, root, ops)
    ensures TranslateGpaToPa(ms[|ops|], root, gpa) == if Touched(ops, Vpn2(gpa)) then LastAlias(ops, gpa) else None
  {
    RunView(ms, root, ops);
    TranslateIsLookUp(ms[|ops|], root, gpa);
    RunLooksUp(ops, gpa);
  }

  // ----- regions

  function PageAt(base: nat, i: nat): nat {
    base + i * 4096
  }

  function RegionOps(gpa: nat, pa: nat, n: nat, perms: nat): seq<MapOp> {
    seq(n, i requires 0 <= i < n => MapOp(PageAt(gpa, i), PageAt(pa, i), perms))
  }

  lemma RegionOpsStep(gpa: nat, pa: nat, n: nat, perms: nat, d: Directory, l: seq<nat>)
    ensures Apply(d, RegionOps(gpa, pa, n + 1, perms))
            == MapOne(Apply(d, RegionOps(gpa, pa, n, perms)), PageAt(gpa, n), PageAt(pa, n), perms)
    ensures WrittenLeaves(l, RegionOps(gpa, pa, n + 1, perms))
            == WithLeaf(WrittenLeaves(l, RegionOps(gpa, pa, n, perms)), LowPage(PageAt(gpa, n)), LeafWord(PageAt(pa, n), perms))
  {
    assert RegionOps(gpa, pa, n + 1, perms)[..n] == RegionOps(gpa, pa, n, perms);
  }

  ghost predicate RegionFits(gpa: nat, n: nat) {
    forall i {:trigger PageAt(gpa, i)} | 0 <= i < n :: Vpn1(PageAt(gpa, i)) < 2
  }

  /** Memory after `n` pages of a region have been mapped. */
  ghost predicate RegionMapped(m: Memory, m': Memory, root: nat, gpa: nat, pa: nat, n: nat, perms: nat)
    requires RootOk(root)
  {
    && Shape(m', root)
    && SameOutside(m, m', root, root + DIRECTORY_SIZE)
    && View(m', root) == Apply(View(m, root), RegionOps(gpa, pa, n, perms))
    && Leaves(m', root) == WrittenLeaves(Leaves(m, root), RegionOps(gpa, pa, n, perms))
  }

  lemma EmptyRegion(m: Memory, root: nat, gpa: nat, pa: nat, perms: nat)
    requires RootOk(root)
    ensures Shape(m, root) ==> RegionMapped(m, m, root, gpa, pa, 0, perms)
  {
  }

  lemma RegionStep(m: Memory, m1: Memory, m2: Memory, root: nat, gpa: nat, pa: nat, n: nat, perms: nat, ok: bool)
    requires RootOk(root) && RegionMapped(m, m1, root, gpa, pa, n, perms) && RegionFits(gpa, n)
    requires Mapped(m1, m2, root, PageAt(gpa, n), PageAt(pa, n), perms, ok)
    ensures ok ==> RegionMapped(m, m2, root, gpa, pa, n + 1, perms) && RegionFits(gpa, n + 1)
    ensures !ok ==> Vpn1(PageAt(gpa, n)) >= 2
    ensures Shape(m2, root) && SameOutside(m, m2, root, root + DIRECTORY_SIZE)
  {
    hide Apply, WrittenLeaves, RegionOps, Shape, View, Leaves, MapOne, LeafWord;
    RegionOpsStep(gpa, pa, n, perms, View(m, root), Leaves(m, root));
  }

  /** Every mapped page has a leaf word with its frame and the flags of `perms`. */
  ghost predicate Flagged(d: Directory, l: seq<nat>, perms: nat) {
    |l| == LEAVES && forall x | x in d.pages :: x < LEAVES && l[x] == LeafWord(d.pages[x], perms)
  }

  lemma FlaggedOne(d: Directory, l: seq<nat>, gpa: nat, pa: nat, perms: nat)
    requires Flagged(d, l, perms) && LowPage(gpa) < LEAVES
    ensures Flagged(MapOne(d, gpa, pa, perms), WithLeaf(l, LowPage(gpa), LeafWord(pa, perms)), perms)
  {
    hide LeafFlags, LowPage;
    assert PageBase(pa) / 4096 == pa / 4096;
  }

  lemma {:induction false} FlaggedRegion(d: Directory, l: seq<nat>, gpa: nat, pa: nat, n: nat, perms: nat)
    requires Flagged(d, l, perms) && RegionFits(gpa, n)
    ensures Flagged(Apply(d, RegionOps(gpa, pa, n, perms)), WrittenLeaves(l, RegionOps(gpa, pa, n, perms)), perms)
  {
    if n > 0 {
      hide Flagged, MapOne, LeafWord, RegionOps, Apply, WrittenLeaves, PageAt;
      assert RegionFits(gpa, n - 1);
      FlaggedRegion(d, l, gpa, pa, n - 1, perms);
      RegionOpsStep(gpa, pa, n - 1, perms, d, l);
      VpnSplit(PageAt(gpa, n - 1));
      FlaggedOne(Apply(d, RegionOps(gpa, pa, n - 1, perms)), WrittenLeaves(l, RegionOps(gpa, pa, n - 1, perms)),
                 PageAt(gpa, n - 1), PageAt(pa, n - 1), perms);
    }
  }

  /** Flags of the leaf that translates `gpa`. */
  ghost function LeafFor(m: Memory, root: nat, gpa: nat): nat
    requires RootOk(root) && LowPage(gpa) < LEAVES
  {
    Leaves(m, root)[LowPage(gpa)]
  }

  /** Valid, readable, writable, executable and for the guest's own level. */
  predicate OpenLeaf(w: nat) {
    Bit(w, 0) && Bit(w, 1) && Bit(w, 2) && Bit(w, 3) && Bit(w, 4)
  }

  /** Marked as accessed and dirty. */
  predicate UsedLeaf(w: nat) {
    Bit(w, 6) && Bit(w, 7)
  }

  predicate UnusedLeaf(w: nat) {
    !Bit(w, 6) && !Bit(w, 7)
  }

  /** The leaf behind a translating address: its frame, and bit by bit its flags. */
  lemma FlaggedLeaf(m: Memory, root: nat, gpa: nat, perms: nat, k: nat)
    requires RootOk(root) && Shape(m, root) && Flagged(View(m, root), Leaves(m, root), perms)
    requires TranslateGpaToPa(m, root, gpa).Some? && perms < 1024 && k < 10
    ensures LowPage(gpa) < LEAVES
    ensures TranslateGpaToPa(m, root, gpa) == Some(LeafFor(m, root, gpa) / 1024 * 4096 + gpa % 4096)
    ensures Bit(LeafFor(m, root, gpa), k) <==> k == 0 || k == 4 || Bit(perms, k)
  {
    hide TranslateGpaToPa, Shape, LeafWord, Bit, LowPage, Vpn2;
    TranslateIsLookUp(m, root, gpa);
    var frame := View(m, root).pages[LowPage(gpa)];
    assert frame % 4096 == 0;
    hide View;
    LeafBits(frame, perms, k);
    assert frame / 4096 * 4096 == frame;
  }

  /** Maps `n` contiguous pages; `ok` is false when a page has no leaf table in the directory. */
  method MapRegion(ram: Ram, root: nat, gpa: nat, pa: nat, n: nat, perms: nat) returns (ok: bool)
    requires RootOk(root) && perms < 1024 && pa + n * 4096 <= SPACE
    modifies ram
    ensures old(Shape(ram.bytes, root)) ==>
              && Shape(ram.bytes, root)
              && SameOutside(old(ram.bytes), ram.bytes, root, root + DIRECTORY_SIZE)
              && (ok <==> RegionFits(gpa, n))
              && (ok ==> RegionMapped(old(ram.bytes), ram.bytes, root, gpa, pa, n, perms))
  {
    hide Shape, View, Leaves, Apply, WrittenLeaves, RegionOps;
    ghost var m, shaped := ram.bytes, Shape(ram.bytes, root);
    EmptyRegion(m, root, gpa, pa, perms);
    var i := 0;
    while i < n
      invariant i <= n
      invariant shaped ==> RegionMapped(m, ram.bytes, root, gpa, pa, i, perms) && RegionFits(gpa, i)
    {
      ghost var m1 := ram.bytes;
      ok := Map4kLeaf(ram, root, PageAt(gpa, i), PageAt(pa, i), perms);
      if shaped {
        RegionStep(m, m1, ram.bytes, root, gpa, pa, i, perms, ok);
      }
      if !ok {
        return;
      }
      i := i + 1;
    }
    ok := true;
  }

  function FrameAt(first: nat, pa: nat, x: nat): int {
    pa + (x - first) * 4096
  }

  /** Pages of a region of `n` pages from page `first`, mapped contiguously from `pa`. */
  ghost function RegionPages(first: nat, pa: nat, n: nat): map<nat, nat> {
    map x | first <= x < first + n :: FrameAt(first, pa, x)
  }

  /** What a directory becomes when pages `first .. first + n` of the first gigabyte are mapped. */
  ghost function WithPages(d: Directory, first: nat, pa: nat, n: nat): Directory {
    Directory(if n == 0 then d.roots else d.roots + {0}, d.pages + RegionPages(first, pa, n))
  }

  /** Below one gigabyte a region maps exactly its pages, over whatever was there. */
  lemma {:induction false} RegionApplied(d: Directory, gpa: nat, pa: nat, n: nat, perms: nat)
    requires gpa % 4096 == 0 && pa % 4096 == 0 && gpa + n * 4096 <= GIB && HasAccess(perms)
    ensures Apply(d, RegionOps(gpa, pa, n, perms))
            == Directory(if n == 0 then d.roots else d.roots + {0}, d.pages + RegionPages(gpa / 4096, pa, n))
  {
    RegionIs(d, gpa, pa, n, perms);
  }

  lemma {:induction false} RegionIs(d: Directory, gpa: nat, pa: nat, n: nat, perms: nat)
    requires gpa % 4096 == 0 && pa % 4096 == 0 && gpa + n * 4096 <= GIB && HasAccess(perms)
    ensures Apply(d, RegionOps(gpa, pa, n, perms)) == WithPages(d, gpa / 4096, pa, n)
  {
    if n == 0 {
      assert d.pages + RegionPages(gpa / 4096, pa, 0) == d.pages;
    } else {
      hide Apply, RegionOps, WithPages, PageAt, MapOne;
      RegionIs(d, gpa, pa, n - 1, perms);
      RegionOpsStep(gpa, pa, n - 1, perms, d, []);
      PagesNext(d, gpa, pa, n - 1, perms);
    }
  }

  lemma PagesNext(d: Directory, gpa: nat, pa: nat, i: nat, perms: nat)
    requires gpa % 4096 == 0 && pa % 4096 == 0 && gpa + i * 4096 < GIB && HasAccess(perms)
    ensures MapOne(WithPages(d, gpa / 4096, pa, i), PageAt(gpa, i), PageAt(pa, i), perms) == WithPages(d, gpa / 4096, pa, i + 1)
  {
    hide MapOne, RegionPages, PageAt;
    var d1 := WithPages(d, gpa / 4096, pa, i);
    OneMorePage(d1.roots, d1.pages, gpa, pa, i, perms);
    RegionPagesStep(d.pages, gpa / 4096, pa, i);
    assert d1.roots + {0} == d.roots + {0};
  }

  lemma OneMorePage(roots: set<nat>, pages: map<nat, nat>, gpa: nat, pa: nat, i: nat, perms: nat)
    requires gpa % 4096 == 0 && pa % 4096 == 0 && gpa + i * 4096 < GIB && HasAccess(perms)
    ensures MapOne(Directory(roots, pages), PageAt(gpa, i), PageAt(pa, i), perms)
            == Directory(roots + {0}, pages[gpa / 4096 + i := PageAt(pa, i)])
  {
    LowAddress(gpa, i);
    PageAligned(pa, i);
  }

  lemma RegionPagesStep(pages: map<nat, nat>, first: nat, pa: nat, n: nat)
    ensures pages + RegionPages(first, pa, n + 1) == (pages + RegionPages(first, pa, n))[first + n := PageAt(pa, n)]
  {
    assert FrameAt(first, pa, first + n) == PageAt(pa, n);
  }

  lemma LowAddress(gpa: nat, i: nat)
    requires gpa % 4096 == 0 && gpa + i * 4096 < 0x4000_0000
    ensures Vpn2(PageAt(gpa, i)) == 0 && LowPage(PageAt(gpa, i)) == gpa / 4096 + i
  {
    assert (gpa + i * 4096) / 4096 == gpa / 4096 + i;
  }

  lemma PageAligned(pa: nat, i: nat)
    requires pa % 4096 == 0
    ensures PageBase(PageAt(pa, i)) == PageAt(pa, i)
  {
    assert pa + i * 4096 == 4096 * (pa / 4096 + i);
  }
}
