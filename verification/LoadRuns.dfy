/** The two ways a guest can differ from its file, as loads that the monitor accepts. */
module LoadRuns {
  import opened Memory
  import opened PageTable
  import opened Mapping
  import opened GuestMemory
  import opened GuestImage
  import opened Hypervisor
  import opened EagerLoader
  import opened LazyLoader
  import opened LoadAcceptance
  import opened Sets

  const ROOT: nat := 0x8000_0000
  const STATE: nat := 0x8000_4000
  const POOL: nat := 0x8010_0000
  const SCRATCH: nat := 0x9000_0000

  /** A monitor without a TVM, cleared memory and one confidential block of 4 MiB. */
  method Monitor(hash: seq<Byte> -> seq<Byte>) returns (hv: HypervisorState)
    ensures fresh(hv) && fresh(hv.ram) && hv.Valid() && HostReady(hv.Snap(), ROOT, STATE, POOL)
    ensures forall a {:trigger hv.ram.bytes[a]} | 0 <= a < SPACE :: hv.ram.bytes[a] == 0
  {
    var ram := new Ram(seq(SPACE, i => 0));
    hv := new HypervisorState(ram, hash);
    hv.AddConfidentialPages(0x8000_0000, 0x400);
    assert hv.confidential[0] == Block(0x8000_0000, 0x400, None);
    assert Covered(hv.confidential, ROOT, ROOT + DIRECTORY_SIZE) by {
      assert BlockCovers(hv.confidential[0], ROOT, ROOT + DIRECTORY_SIZE);
    }
    assert Covered(hv.confidential, STATE, STATE + PAGE_SIZE) by {
      assert BlockCovers(hv.confidential[0], STATE, STATE + PAGE_SIZE);
    }
    assert Covered(hv.confidential, POOL, POOL + RAM_SIZE) by {
      assert BlockCovers(hv.confidential[0], POOL, POOL + RAM_SIZE);
    }
  }

  /** A file of one segment, with its scratchpad. */
  lemma OneSegment(m: Memory, seg: Segment, data: seq<Byte>, heap: seq<Option<Usize>>)
    requires seg.filesz <= seg.memsz && heap == [Some(SCRATCH)]
    requires forall a {:trigger m[a]} | 0 <= a < SPACE :: m[a] == 0
    ensures GoodStart(m, Job(ROOT, POOL, [seg], data), heap)
  {
  }

  lemma OneLoadable(s: Snapshot, seg: Segment, data: seq<Byte>, heap: seq<Option<Usize>>)
    requires HostReady(s, ROOT, STATE, POOL) && heap == [Some(SCRATCH)]
    requires seg.filesz <= seg.memsz && SegmentEnd(seg) <= RAM_SIZE
    requires seg.filesz > 0 ==> seg.offset + seg.filesz <= |data|
    ensures LoadVerdict(s, [seg], |data|, ROOT, STATE, POOL, heap) == Accept
  {
    MemoryBound(seg);
    hide HostReady, LoadVerdict, SegmentEnd;
    LoadExact(s, Job(ROOT, POOL, [seg], data), STATE, heap);
  }

  lemma MemoryBound(seg: Segment)
    requires SegmentEnd(seg) <= RAM_SIZE
    ensures seg.vaddr + seg.memsz <= RAM_SIZE && Bytes(TotalPages(seg)) <= RAM_SIZE
  {
  }

  /** Eager load of a one-segment file on a fresh monitor. */
  method LoadOne(hash: seq<Byte> -> seq<Byte>, seg: Segment, data: seq<Byte>) returns (hv: HypervisorState, ghost used: nat)
    requires seg.filesz <= seg.memsz && SegmentEnd(seg) <= RAM_SIZE
    requires seg.filesz > 0 ==> seg.offset + seg.filesz <= |data|
    ensures fresh(hv) && fresh(hv.ram) && hv.Valid() && hv.tvm.Some? && hv.tvm.value.state.Runnable?
    ensures hv.tvm.value.pageTable == ROOT && JobOk(Job(ROOT, POOL, [seg], data))
    ensures EagerlyLoaded(hv.ram.bytes, Job(ROOT, POOL, [seg], data), used)
  {
    hide HostReady, GoodStart, LoadVerdict, EagerlyLoaded;
    hv := Monitor(hash);
    var heap: seq<Option<Usize>> := [Some(SCRATCH)];
    OneSegment(hv.ram.bytes, seg, data, heap);
    OneLoadable(hv.Snap(), seg, data, heap);
    var v;
    v, used := BootstrapLoadElf(hv, data, [seg], seg.vaddr, ROOT, STATE, POOL, heap);
  }

  /** Whatever unaligned segment has no file bytes: it is loaded and its first byte is not mapped. */
  method SkippedPageRun(hash: seq<Byte> -> seq<Byte>, seg: Segment, data: seq<Byte>) returns (hv: HypervisorState)
    requires seg.vaddr % 4096 != 0 && seg.filesz == 0 < seg.memsz && SegmentEnd(seg) <= RAM_SIZE
    ensures fresh(hv) && hv.Valid() && hv.tvm.Some? && hv.tvm.value.state.Runnable? && hv.tvm.value.pageTable == ROOT
    ensures GuestByte(hv.ram.bytes, ROOT, seg.vaddr) == None
  {
    hide EagerlyLoaded, GuestByte;
    ghost var used;
    hv, used := LoadOne(hash, seg, data);
    FirstByteLost(hv.ram.bytes, Job(ROOT, POOL, [seg], data), used, 0);
  }

  /** The first fault of a guest whose only segment starts inside the page: the page is filled with zeros. */
  lemma HeadCleared(seg: Segment, data: seq<Byte>, l: LazyState)
    requires seg.vaddr % 4096 != 0 && seg.vaddr + seg.memsz <= RAM_SIZE
    requires l == LazyState([seg], data, POOL, POOL + RAM_SIZE)
    ensures FaultEnding(l, seg.vaddr) == Answered
    ensures LazyByte([seg], data, PageBase(seg.vaddr), seg.vaddr % 4096) == 0
  {
    var page := PageBase(seg.vaddr);
    assert !Overlapping(seg, page);
    assert [seg][..0] == [];
    assert FillEnding([], |data|, page) == Answered;
    assert Vpn1(page) < 2;
  }

  lemma UnmappedAtFirst(m: Memory, root: nat, gpa: nat)
    requires RootOk(root) && Shape(m, root) && View(m, root) == EMPTY
    ensures TranslateGpaToPa(m, root, gpa) == None
  {
    hide Shape, View, TranslateGpaToPa;
    TranslateIsLookUp(m, root, gpa);
  }

  /** Lazy start of the same file on a fresh monitor, and the guest's first access to the segment. */
  method FaultOne(hash: seq<Byte> -> seq<Byte>, seg: Segment, data: seq<Byte>) returns (hv: HypervisorState, e: Ending)
    requires seg.vaddr % 4096 != 0 && seg.vaddr + seg.memsz <= RAM_SIZE
    ensures fresh(hv) && hv.tvm.Some? && hv.tvm.value.state.Runnable? && hv.tvm.value.pageTable == ROOT
    ensures e == Answered && GuestByte(hv.ram.bytes, ROOT, seg.vaddr) == Some(0)
  {
    hide HostReady, CreateVerdict, Shape, View, LazyByte, FaultEnding, FaultStep, GuestByte,
         TranslateGpaToPa, LazyInv, RootOf, MakeHgatp;
    hv := Monitor(hash);
    var handler := new FaultHandler(hv.ram);
    CreateAccepted(hv.Snap(), ROOT, STATE, POOL);
    var v := BootstrapLoadElfLazy(hv, handler, data, [seg], seg.vaddr, ROOT, STATE, POOL);
    ghost var m, l := hv.ram.bytes, handler.lazy.value;
    HeadCleared(seg, data, l);
    UnmappedAtFirst(m, ROOT, seg.vaddr);
    RootRoundTrip(ROOT);
    e := handler.HandlePageFault(MakeHgatp(ROOT), seg.vaddr);
    FaultInstalls(m, l, ROOT, POOL, 0, seg.vaddr, hv.ram.bytes, handler.lazy.value, seg.vaddr % 4096);
  }

  /**
   Whatever file byte comes first in an unaligned segment: the guest of the eager loader reads it, the guest of
   the lazy loader reads zero.
   */
  method LazyHeadRun(hash: seq<Byte> -> seq<Byte>, seg: Segment, data: seq<Byte>)
    returns (eager: HypervisorState, lazy: HypervisorState, e: Ending)
    requires seg.vaddr % 4096 != 0 && 0 < seg.filesz <= seg.memsz && SegmentEnd(seg) <= RAM_SIZE
    requires seg.offset + seg.filesz <= |data|
    ensures fresh(eager) && fresh(lazy) && eager.tvm.Some? && lazy.tvm.Some? && e == Answered
    ensures eager.tvm.value.state.Runnable? && lazy.tvm.value.state.Runnable?
    ensures eager.tvm.value.pageTable == lazy.tvm.value.pageTable == ROOT
    ensures GuestByte(eager.ram.bytes, ROOT, seg.vaddr) == Some(data[seg.offset])
    ensures GuestByte(lazy.ram.bytes, ROOT, seg.vaddr) == Some(0)
  {
    hide EagerlyLoaded, GuestByte;
    MemoryBound(seg);
    lazy, e := FaultOne(hash, seg, data);
    ghost var used;
    eager, used := LoadOne(hash, seg, data);
    EagerSegmentExact(eager.ram.bytes, Job(ROOT, POOL, [seg], data), used, 0);
    assert SegmentAddress(seg, 0) == seg.vaddr;
  }

  // ----- a guest that touches all of its RAM

  /** Guest pages of the first `k` faults. */
  ghost function FaultPages(gpas: seq<Usize>, k: nat): set<nat>
    requires k <= |gpas|
  {
    set i | 0 <= i < k :: gpas[i] / 4096
  }

  predicate DistinctPages(gpas: seq<Usize>) {
    forall i, k | 0 <= i < k < |gpas| :: gpas[i] / 4096 != gpas[k] / 4096
  }

  /** After `k` faults on pages of the RAM: these pages are mapped and hold the handler's content. */
  ghost predicate Faulted(m: Memory, l: LazyState, root: nat, base: nat, gpas: seq<Usize>, k: nat)
    requires k <= |gpas|
  {
    && LazyInv(m, l, root, base, k) && l.limit == base + RAM_SIZE < SPACE
    && View(m, root).pages.Keys == FaultPages(gpas, k)
    && forall i, o | 0 <= i < k && 0 <= o < 4096 :: HoldsContent(m, l, root, gpas[i], o)
  }

  ghost predicate HoldsContent(m: Memory, l: LazyState, root: nat, gpa: nat, o: nat)
    requires RootOk(root)
  {
    && TranslateGpaToPa(m, root, PageBase(gpa) + o).Some?
    && GuestByte(m, root, PageBase(gpa) + o) == Some(LazyByte(l.segs, l.data, PageBase(gpa), o))
  }

  /** The pool has a page for every page of the RAM that is not mapped yet. */
  lemma PoolForRam(m: Memory, l: LazyState, root: nat, base: nat, gpas: seq<Usize>, k: nat)
    requires k < |gpas| && Faulted(m, l, root, base, gpas, k) && DistinctPages(gpas)
    requires forall i | 0 <= i < |gpas| :: gpas[i] < RAM_SIZE
    ensures PoolLeft(l) && TranslateGpaToPa(m, root, gpas[k]) == None
  {
    hide LazyInv, View, Shape, TranslateGpaToPa, Flagged, HoldsContent;
    NewPage(gpas, k);
    PoolFor(m, l, root, base, k, gpas[k] / 4096);
    InvRoot(m, l, root, base, k);
    InvShape(m, l, root, base, k);
    TranslateIsLookUp(m, root, gpas[k]);
    BelowGigabyte(gpas[k]);
  }

  lemma NewPage(gpas: seq<Usize>, k: nat)
    requires k < |gpas| && DistinctPages(gpas) && forall i | 0 <= i < |gpas| :: gpas[i] < RAM_SIZE
    ensures gpas[k] / 4096 !in FaultPages(gpas, k) && gpas[k] / 4096 < RAM_PAGES
    ensures forall x | x in FaultPages(gpas, k) :: x < RAM_PAGES
  {
  }

  lemma InvShape(m: Memory, l: LazyState, root: nat, base: nat, k: nat)
    requires LazyInv(m, l, root, base, k)
    ensures RootOk(root) && Shape(m, root)
  {
  }

  lemma PoolFor(m: Memory, l: LazyState, root: nat, base: nat, k: nat, x: nat)
    requires LazyInv(m, l, root, base, k) && l.limit == base + RAM_SIZE < SPACE
    requires x !in View(m, root).pages && x < RAM_PAGES && forall y | y in View(m, root).pages.Keys :: y < RAM_PAGES
    ensures PoolLeft(l)
  {
    hide View, Shape, Leaves, Flagged;
    var d := View(m, root);
    assert |d.pages.Keys| == |d.pages| == k;
    OnePageMore(d.pages.Keys, x);
  }

  lemma OnePageMore(keys: set<nat>, x: nat)
    requires x !in keys && x < RAM_PAGES && forall y | y in keys :: y < RAM_PAGES
    ensures |keys| < RAM_PAGES
  {
    var all := keys + {x};
    forall y | y in all ensures y in Range(0, RAM_PAGES) {
      assert InRange(0, RAM_PAGES, y);
    }
    RangeSize(0, RAM_PAGES);
    SubsetSize(all, Range(0, RAM_PAGES));
  }

  lemma FaultedStep(m: Memory, l: LazyState, root: nat, base: nat, gpas: seq<Usize>, k: nat, m': Memory, l': LazyState)
    requires k < |gpas| && Faulted(m, l, root, base, gpas, k) && FaultStep(m, l, root, gpas[k], m', l')
    requires gpas[k] < RAM_SIZE && TranslateGpaToPa(m, root, gpas[k]) == None
    ensures Faulted(m', l', root, base, gpas, k + 1)
  {
    hide LazyInv, FaultStep, TranslateGpaToPa, HoldsContent, RootOk, View, FaultPages;
    InvRoot(m, l, root, base, k);
    FaultAllocates(m, l, root, base, k, gpas[k], m', l');
    TakesNext(m, l, root, gpas[k], m', l');
    FaultedPages(m, l, root, base, gpas, k, m', l');
    forall i, o | 0 <= i < k + 1 && 0 <= o < 4096 ensures HoldsContent(m', l', root, gpas[i], o) {
      if i < k {
        assert HoldsContent(m, l, root, gpas[i], o);
      }
      ContentStep(m, l, root, base, k, gpas[k], m', l', gpas[i], o);
    }
  }

  lemma ContentStep(m: Memory, l: LazyState, root: nat, base: nat, k: nat, gpa: nat, m': Memory, l': LazyState, g: nat, o: nat)
    requires LazyInv(m, l, root, base, k) && FaultStep(m, l, root, gpa, m', l') && o < 4096
    requires gpa < GIB && TranslateGpaToPa(m, root, gpa) == None && (g == gpa || HoldsContent(m, l, root, g, o))
    ensures HoldsContent(m', l', root, g, o)
  {
    hide LazyInv, FaultStep, TranslateGpaToPa, GuestByte, LazyByte, PageBase, RootOk;
    InvRoot(m, l, root, base, k);
    TakesNext(m, l, root, gpa, m', l');
    if g == gpa {
      FaultInstalls(m, l, root, base, k, gpa, m', l', o);
      SeenTranslates(m', root, PageBase(gpa) + o);
    } else {
      FaultKeeps(m, l, root, base, k, gpa, m', l', PageBase(g) + o);
    }
  }

  lemma InvRoot(m: Memory, l: LazyState, root: nat, base: nat, k: nat)
    requires LazyInv(m, l, root, base, k)
    ensures RootOk(root)
  {
  }

  lemma SeenTranslates(m: Memory, root: nat, g: nat)
    requires RootOk(root) && GuestByte(m, root, g).Some?
    ensures TranslateGpaToPa(m, root, g).Some?
  {
  }

  lemma FaultedPages(m: Memory, l: LazyState, root: nat, base: nat, gpas: seq<Usize>, k: nat, m': Memory, l': LazyState)
    requires k < |gpas| && LazyInv(m, l, root, base, k) && FaultStep(m, l, root, gpas[k], m', l') && gpas[k] < GIB
    requires View(m, root).pages.Keys == FaultPages(gpas, k)
    ensures View(m', root).pages.Keys == FaultPages(gpas, k + 1)
  {
    hide FaultStep, View, Shape, Leaves, Flagged, Allocated;
    TakesNext(m, l, root, gpas[k], m', l');
    NextPage(base, k, l.limit);
    FaultView(m, l, root, gpas[k], m', l');
    assert FaultPages(gpas, k + 1) == FaultPages(gpas, k) + {gpas[k] / 4096};
  }

  /**
   Faults on distinct pages of the RAM, up to all 512 of them, in any order: each is answered, and at the end
   every page holds the handler's content.
   */
  method TouchPages(handler: FaultHandler, hgatp: nat, gpas: seq<Usize>, ghost base: nat) returns (es: seq<Ending>)
    requires RootOk(RootOf(hgatp)) && handler.lazy.Some?
    requires Faulted(handler.ram.bytes, handler.lazy.value, RootOf(hgatp), base, gpas, 0)
    requires WholeFile(handler.lazy.value.segs, handler.lazy.value.data)
    requires DistinctPages(gpas) && forall i | 0 <= i < |gpas| :: gpas[i] < RAM_SIZE
    modifies handler, handler.ram
    ensures |es| == |gpas| && (forall i | 0 <= i < |es| :: es[i] == Answered)
    ensures handler.lazy.Some? && Faulted(handler.ram.bytes, handler.lazy.value, RootOf(hgatp), base, gpas, |gpas|)
    ensures handler.lazy.value.segs == old(handler.lazy).value.segs && handler.lazy.value.data == old(handler.lazy).value.data
  {
    hide Faulted, FaultStep, Shape, DistinctPages;
    es := [];
    for k := 0 to |gpas|
      invariant |es| == k && forall i | 0 <= i < k :: es[i] == Answered
      invariant handler.lazy.Some? && Faulted(handler.ram.bytes, handler.lazy.value, RootOf(hgatp), base, gpas, k)
      invariant handler.lazy.value.segs == old(handler.lazy).value.segs && handler.lazy.value.data == old(handler.lazy).value.data
    {
      ghost var m, l := handler.ram.bytes, handler.lazy.value;
      PoolForRam(m, l, RootOf(hgatp), base, gpas, k);
      WholeFileAnswers(l, gpas[k]);
      FaultedNext(m, l, RootOf(hgatp), base, gpas, k);
      var e := handler.HandlePageFault(hgatp, gpas[k]);
      FaultedStep(m, l, RootOf(hgatp), base, gpas, k, handler.ram.bytes, handler.lazy.value);
      TakesNext(m, l, RootOf(hgatp), gpas[k], handler.ram.bytes, handler.lazy.value);
      es := es + [e];
    }
  }

  lemma FaultedNext(m: Memory, l: LazyState, root: nat, base: nat, gpas: seq<Usize>, k: nat)
    requires k <= |gpas| && Faulted(m, l, root, base, gpas, k) && PoolLeft(l)
    ensures RootOk(root) && Shape(m, root) && OutsideDirectory(root, l.nextFree, l.nextFree + 4096)
  {
    hide Shape, View, Flagged, Allocated;
    NextPage(base, k, l.limit);
  }

  /** One fault more than the RAM has pages ends in a panic. */
  lemma PoolExhausted(m: Memory, l: LazyState, root: nat, base: nat, gpa: nat)
    requires LazyInv(m, l, root, base, RAM_PAGES) && l.limit == base + RAM_SIZE
    ensures FaultEnding(l, gpa) == Panicked
  {
  }

  /** A guest started lazily on a fresh monitor can touch every page of its RAM. */
  method TouchRam(hash: seq<Byte> -> seq<Byte>, segs: seq<Segment>, data: seq<Byte>, entry: Usize, gpas: seq<Usize>)
    returns (hv: HypervisorState, es: seq<Ending>)
    requires WholeFile(segs, data) && DistinctPages(gpas) && forall i | 0 <= i < |gpas| :: gpas[i] < RAM_SIZE
    ensures fresh(hv) && hv.tvm.Some? && hv.tvm.value.state.Runnable? && hv.tvm.value.pageTable == ROOT
    ensures |es| == |gpas| && (forall i | 0 <= i < |es| :: es[i] == Answered)
    ensures forall i, o | 0 <= i < |gpas| && 0 <= o < 4096 ::
              GuestByte(hv.ram.bytes, ROOT, PageBase(gpas[i]) + o) == Some(LazyByte(segs, data, PageBase(gpas[i]), o))
  {
    hide HostReady, CreateVerdict, Shape, View, LazyByte, GuestByte, RootOf, MakeHgatp, WholeFile, DistinctPages, LazyInv;
    hv := Monitor(hash);
    var handler := new FaultHandler(hv.ram);
    CreateAccepted(hv.Snap(), ROOT, STATE, POOL);
    var v := BootstrapLoadElfLazy(hv, handler, data, segs, entry, ROOT, STATE, POOL);
    RootRoundTrip(ROOT);
    assert Faulted(hv.ram.bytes, handler.lazy.value, ROOT, POOL, gpas, 0);
    es := TouchPages(handler, MakeHgatp(ROOT), gpas, POOL);
    forall i, o | 0 <= i < |gpas| && 0 <= o < 4096
      ensures GuestByte(hv.ram.bytes, ROOT, PageBase(gpas[i]) + o) == Some(LazyByte(segs, data, PageBase(gpas[i]), o))
    {
      assert HoldsContent(hv.ram.bytes, handler.lazy.value, ROOT, gpas[i], o);
    }
  }
}
