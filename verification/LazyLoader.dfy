/**
 The lazy ELF loader: the TVM starts with an empty directory and every guest page fault takes
 the next pool page, fills it from the file and maps it. Over page-aligned segments it installs
 the same pages as the eager loader.
 */
module LazyLoader {
  import opened Bits
  import opened Memory
  import opened PageTable
  import opened Mapping
  import opened GuestMemory
  import opened GuestImage
  import opened Hypervisor
  import opened EagerLoader

  const FAULT_PERMS: nat := 0xde // R | W | X | U | A | D

  /** State of the fault handler: the segments, the file and the bump allocator of pool pages. */
  datatype LazyState = LazyState(segs: seq<Segment>, data: seq<Byte>, nextFree: nat, limit: nat)

  predicate Overlapping(s: Segment, page: nat) {
    s.vaddr <= page < s.vaddr + s.memsz
  }

  /** The handler copies the byte at offset `o` of the page from this segment. */
  predicate Serves(s: Segment, page: nat, o: nat) {
    Overlapping(s, page) && page + o < s.vaddr + s.memsz && page + o < s.vaddr + s.filesz
  }

  /** Content the handler gives offset `o` of a page: later segments overwrite earlier ones. */
  function LazyByte(segs: seq<Segment>, data: seq<Byte>, page: nat, o: nat): Byte {
    if segs == [] then 0
    else
      var s := segs[|segs| - 1];
      if Serves(s, page, o) then FileByte(s, data, page + o) else LazyByte(segs[..|segs| - 1], data, page, o)
  }

  function RootOf(hgatp: nat): nat {
    hgatp % 0x1000_0000_0000 * 4096
  }

  /** The root the handler reads back is the directory the run call installed, exactly below 2^56. */
  lemma RootRoundTrip(pt: nat)
    requires RootOk(pt)
    ensures RootOf(MakeHgatp(pt)) == pt % 0x100_0000_0000_0000 && RootOk(RootOf(MakeHgatp(pt)))
    ensures RootOf(MakeHgatp(pt)) == pt <==> pt < 0x100_0000_0000_0000
  {
    var q := pt / 4096;
    var lo, hi := q % 0x1000_0000_0000, q / 0x1000_0000_0000;
    HgatpDigits(lo);
    Bits.DivUnique(pt, 0x100_0000_0000_0000, hi, 4096 * lo);
    StillAligned(hi, lo, pt / 0x4000);
  }

  lemma StillAligned(hi: nat, lo: nat, k: nat)
    requires 0x100_0000_0000_0000 * hi + 4096 * lo == 0x4000 * k && lo < 0x1000_0000_0000
    ensures 4096 * lo % 0x4000 == 0 && 4096 * lo + DIRECTORY_SIZE <= SPACE
  {
    var r := k - 0x400_0000_0000 * hi;
    assert 4096 * lo == 0x4000 * r;
    Bits.DivUnique(4096 * lo, 0x4000, r, 0);
  }

  lemma HgatpDigits(q: nat)
    requires q < 0x1000_0000_0000
    ensures (8 * 0x1000_0000_0000_0000 + q) % 0x1000_0000_0000 == q
  {
    assert 8 * 0x1000_0000_0000_0000 == 0x8_0000 * 0x1000_0000_0000;
  }

  ghost predicate PageHolds(m: Memory, pa: nat, segs: seq<Segment>, data: seq<Byte>, page: nat)
    requires pa + 4096 <= SPACE
  {
    forall o {:trigger ByteAt(m, pa, o)} | 0 <= o < 4096 :: ByteAt(m, pa, o) == LazyByte(segs, data, page, o)
  }

  /** One fault answered: the next pool page is taken, filled and mapped; nothing else changes. */
  ghost predicate FaultStep(m: Memory, l: LazyState, root: nat, gpa: nat, m': Memory, l': LazyState)
    requires RootOk(root)
  {
    && l' == l.(nextFree := l.nextFree + 4096)
    && l.nextFree < l.limit && l.nextFree + 4096 <= SPACE
    && (Shape(m, root) && OutsideDirectory(root, l.nextFree, l.nextFree + 4096) ==>
          exists m1: Memory ::
            && SameOutside(m, m1, l.nextFree, l.nextFree + 4096)
            && PageHolds(m1, l.nextFree, l.segs, l.data, PageBase(gpa))
            && Mapped(m1, m', root, PageBase(gpa), l.nextFree, FAULT_PERMS, true))
  }

  /** File bytes of the segment that the handler copies into a page it overlaps. */
  function CopyLength(s: Segment, page: nat): nat
    requires Overlapping(s, page)
  {
    var end := if s.vaddr + s.memsz < page + 4096 then s.vaddr + s.memsz else page + 4096;
    var fileEnd := if end < s.vaddr + s.filesz then end else s.vaddr + s.filesz;
    if fileEnd > page then fileEnd - page else 0
  }

  /** How a fault ends: answered, with a panic, or with a copy from behind the end of the file. */
  datatype Ending = Answered | Panicked | ReadPastFile

  /** What one segment makes of it, with a file of `size` bytes. */
  function CopyEnding(s: Segment, size: nat, page: nat): Ending {
    if s.vaddr + s.memsz >= SPACE then Panicked
    else if !Overlapping(s, page) then Answered
    else if page + 4096 >= SPACE || s.vaddr + s.filesz >= SPACE then Panicked
    else if CopyLength(s, page) == 0 then Answered
    else if s.offset + (page - s.vaddr) >= SPACE then Panicked
    else if s.offset + (page - s.vaddr) + CopyLength(s, page) > size then ReadPastFile
    else Answered
  }

  /** The first segment that is not copied decides. */
  function FillEnding(segs: seq<Segment>, size: nat, page: nat): Ending {
    if segs == [] then Answered
    else
      var n := |segs| - 1;
      var before := FillEnding(segs[..n], size, page);
      if before.Answered? then CopyEnding(segs[n], size, page) else before
  }

  /** The pool has a page left, every segment can be copied and the guest page has a leaf table. */
  function FaultEnding(l: LazyState, gpa: nat): Ending {
    if l.nextFree >= l.limit || l.nextFree + 4096 >= SPACE then Panicked
    else if !FillEnding(l.segs, |l.data|, PageBase(gpa)).Answered? then FillEnding(l.segs, |l.data|, PageBase(gpa))
    else if Vpn1(PageBase(gpa)) >= 2 then Panicked
    else Answered
  }

  // ----- when a fault is answered

  /** Place in the file of the byte at offset `o` of the page. */
  function FilePlace(s: Segment, page: nat, o: nat): nat
    requires s.vaddr <= page
  {
    s.offset + (page - s.vaddr) + o
  }

  /** Ends of the segment, and of a page in it, are addresses. */
  predicate Addressable(s: Segment, page: nat) {
    && s.vaddr + s.memsz < SPACE
    && (Overlapping(s, page) ==> page + 4096 < SPACE && s.vaddr + s.filesz < SPACE)
    && (Serves(s, page, 0) ==> FilePlace(s, page, 0) < SPACE)
  }

  /** The file has every byte the segment puts on the page. */
  ghost predicate Complete(s: Segment, size: nat, page: nat) {
    forall o: nat | o < 4096 && Serves(s, page, o) :: FilePlace(s, page, o) < size
  }

  ghost predicate Copyable(s: Segment, size: nat, page: nat) {
    Addressable(s, page) && Complete(s, size, page)
  }

  ghost predicate PoolLeft(l: LazyState) {
    l.nextFree < l.limit && l.nextFree + 4096 < SPACE
  }

  /** A pool page is left, every segment can be copied and the page lies below 4 MiB in its gigabyte. */
  ghost predicate Answerable(l: LazyState, gpa: nat) {
    && PoolLeft(l) && LowPage(gpa) < LEAVES
    && forall k | 0 <= k < |l.segs| :: Copyable(l.segs[k], |l.data|, PageBase(gpa))
  }

  /** Segment `k`, the first that cannot be copied, lies in the address space but not in the file. */
  ghost predicate FailsAt(segs: seq<Segment>, size: nat, page: nat, k: nat) {
    && k < |segs| && Addressable(segs[k], page) && !Complete(segs[k], size, page)
    && forall i | 0 <= i < k :: Copyable(segs[i], size, page)
  }

  ghost predicate PastFile(l: LazyState, gpa: nat) {
    PoolLeft(l) && exists k | 0 <= k < |l.segs| :: FailsAt(l.segs, |l.data|, PageBase(gpa), k)
  }

  lemma CopyExact(s: Segment, size: nat, page: nat)
    ensures CopyEnding(s, size, page) == Answered <==> Copyable(s, size, page)
    ensures CopyEnding(s, size, page) == ReadPastFile <==> Addressable(s, page) && !Complete(s, size, page)
  {
    if Overlapping(s, page) && CopyLength(s, page) > 0 {
      var n := CopyLength(s, page);
      assert forall o | 0 <= o < 4096 :: Serves(s, page, o) <==> o < n;
      assert Serves(s, page, n - 1);
    }
  }

  lemma {:induction false} FillExact(segs: seq<Segment>, size: nat, page: nat, k: nat)
    requires k <= |segs|
    ensures FillEnding(segs[..k], size, page) == Answered <==> forall i | 0 <= i < k :: Copyable(segs[i], size, page)
    ensures FillEnding(segs[..k], size, page) == ReadPastFile
            <==> exists i | 0 <= i < k :: FailsAt(segs, size, page, i)
  {
    if k > 0 {
      hide Copyable, Addressable, Complete, CopyEnding;
      FillExact(segs, size, page, k - 1);
      CopyExact(segs[k - 1], size, page);
      assert segs[..k][..k - 1] == segs[..k - 1];
      if FillEnding(segs[..k], size, page) == ReadPastFile && FillEnding(segs[..k - 1], size, page) == Answered {
        assert FailsAt(segs, size, page, k - 1);
      }
      if exists i | 0 <= i < k :: FailsAt(segs, size, page, i) {
        var i :| 0 <= i < k && FailsAt(segs, size, page, i);
        if i < k - 1 {
          assert FailsAt(segs, size, page, i);
        }
      }
    }
  }

  /** How a fault ends, exactly and in terms of the segments, the file and the pool. */
  lemma FaultExact(l: LazyState, gpa: nat)
    ensures FaultEnding(l, gpa) == Answered <==> Answerable(l, gpa)
    ensures FaultEnding(l, gpa) == ReadPastFile <==> PastFile(l, gpa)
  {
    FillExact(l.segs, |l.data|, PageBase(gpa), |l.segs|);
    assert l.segs[..|l.segs|] == l.segs;
    PageOfBase(gpa);
    VpnSplit(PageBase(gpa));
    hide Copyable, FailsAt, FillEnding, Vpn1, LowPage;
  }

  /** A whole file: every segment has its bytes in it and ends in the address space. */
  ghost predicate WholeFile(segs: seq<Segment>, data: seq<Byte>) {
    |data| < SPACE && forall k | 0 <= k < |segs| ::
      segs[k].offset + segs[k].filesz <= |data| && segs[k].filesz <= segs[k].memsz && segs[k].vaddr + segs[k].memsz < SPACE
  }

  /** With a whole file, a page left in the pool and an address below 4 MiB, a fault is answered. */
  lemma WholeFileAnswers(l: LazyState, gpa: nat)
    requires WholeFile(l.segs, l.data) && PoolLeft(l) && gpa < 0x40_0000
    ensures Answerable(l, gpa) && FaultEnding(l, gpa) == Answered
  {
    FaultExact(l, gpa);
    BelowGigabyte(gpa);
    forall k | 0 <= k < |l.segs| ensures Copyable(l.segs[k], |l.data|, PageBase(gpa)) {
    }
  }

  class FaultHandler {
    const ram: Ram
    var lazy: Option<LazyState>

    constructor (ram: Ram)
      ensures this.ram == ram && lazy == None
    {
      this.ram := ram;
      lazy := None;
    }

    /** Copies the part of one segment that falls into the page. */
    method CopySegment(s: Segment, data: seq<Byte>, page: nat, pa: nat, ghost done: seq<Segment>) returns (e: Ending)
      requires page % 4096 == 0 && pa + 4096 <= SPACE
      requires PageHolds(ram.bytes, pa, done, data, page)
      modifies ram
      ensures SameOutside(old(ram.bytes), ram.bytes, pa, pa + 4096)
      ensures e == CopyEnding(s, |data|, page)
      ensures e.Answered? ==> PageHolds(ram.bytes, pa, done + [s], data, page)
    {
      var m := ram.bytes;
      if s.vaddr + s.memsz >= SPACE {
        return Panicked;
      }
      if Overlapping(s, page) {
        if page + 4096 >= SPACE || s.vaddr + s.filesz >= SPACE {
          return Panicked;
        }
        var startInPage := if s.vaddr > page then s.vaddr - page else 0;
        var endInPage := if s.vaddr + s.memsz < page + 4096 then s.vaddr + s.memsz - page else 4096;
        var copyStart, copyEnd := page + startInPage, page + endInPage;
        var fileEnd := s.vaddr + s.filesz;
        var effectiveEnd := if copyEnd < fileEnd then copyEnd else fileEnd;
        if effectiveEnd > copyStart {
          var len, off := effectiveEnd - copyStart, s.offset + (copyStart - s.vaddr);
          if off >= SPACE {
            return Panicked;
          }
          if off + len > |data| {
            return ReadPastFile;
          }
          ram.bytes := Patch(ram.bytes, pa + startInPage, data[off..off + len]);
        }
      }
      e := Answered;
      assert (done + [s])[..|done|] == done;
      forall o | 0 <= o < 4096 ensures ByteAt(ram.bytes, pa, o) == LazyByte(done + [s], data, page, o) {
        assert ByteAt(m, pa, o) == LazyByte(done, data, page, o);
      }
    }

    /** Fills a fresh page from all segments in order. */
    method FillPage(l: LazyState, page: nat, pa: nat) returns (e: Ending)
      requires page % 4096 == 0 && pa + 4096 <= SPACE
      modifies ram
      ensures SameOutside(old(ram.bytes), ram.bytes, pa, pa + 4096)
      ensures e == FillEnding(l.segs, |l.data|, page)
      ensures e.Answered? ==> PageHolds(ram.bytes, pa, l.segs, l.data, page)
    {
      ram.Zero(pa, 4096);
      var k := 0;
      while k < |l.segs|
        invariant k <= |l.segs|
        invariant SameOutside(old(ram.bytes), ram.bytes, pa, pa + 4096)
        invariant PageHolds(ram.bytes, pa, l.segs[..k], l.data, page)
        invariant FillEnding(l.segs[..k], |l.data|, page).Answered?
      {
        e := CopySegment(l.segs[k], l.data, page, pa, l.segs[..k]);
        NextEnding(l.segs, |l.data|, page, k);
        if !e.Answered? {
          return;
        }
        assert l.segs[..k + 1] == l.segs[..k] + [l.segs[k]];
        k := k + 1;
      }
      e := Answered;
      assert l.segs[..k] == l.segs;
    }

    /** Answers a guest page fault. Without lazy state it panics and changes nothing. */
    method HandlePageFault(hgatp: nat, gpa: Usize) returns (e: Ending)
      requires RootOk(RootOf(hgatp))
      modifies this, ram
      ensures old(lazy).None? ==> e == Panicked && ram.bytes == old(ram.bytes) && lazy == None
      ensures old(lazy).Some? && old(Shape(ram.bytes, RootOf(hgatp)))
              && OutsideDirectory(RootOf(hgatp), old(lazy).value.nextFree, old(lazy).value.nextFree + 4096)
              ==> (e.Answered? <==> Answerable(old(lazy).value, gpa))
                  && (e.ReadPastFile? <==> PastFile(old(lazy).value, gpa))
      ensures e.Answered? ==>
                && old(lazy).Some? && lazy.Some?
                && FaultStep(old(ram.bytes), old(lazy).value, RootOf(hgatp), gpa, ram.bytes, lazy.value)
    {
      if lazy.None? {
        return Panicked;
      }
      var l := lazy.value;
      var page := PageBase(gpa);
      if l.nextFree >= l.limit {
        return Panicked;
      }
      var pa := l.nextFree;
      if pa + 4096 >= SPACE {
        return Panicked;
      }
      lazy := Some(l.(nextFree := pa + 4096));
      ghost var m := ram.bytes;
      FaultExact(l, gpa);
      hide FillEnding, Answerable, PastFile, PageHolds, Shape, Mapped;
      e := FillPage(l, page, pa);
      if !e.Answered? {
        return;
      }
      ghost var m1 := ram.bytes;
      var root := RootOf(hgatp);
      var ok := Map4kLeaf(ram, root, page, pa, FAULT_PERMS);
      if Shape(m, root) && OutsideDirectory(root, pa, pa + 4096) {
        SameTableOutside(m, m1, root, pa, pa + 4096);
      }
      e := if ok then Answered else Panicked;
    }
  }

  /** Endings along the segments: the outcome at `k` is that of the whole when it is not an answer. */
  lemma {:induction false} NextEnding(segs: seq<Segment>, size: nat, page: nat, k: nat)
    requires k < |segs| && FillEnding(segs[..k], size, page).Answered?
    ensures FillEnding(segs[..k + 1], size, page) == CopyEnding(segs[k], size, page)
    ensures !CopyEnding(segs[k], size, page).Answered? ==> FillEnding(segs, size, page) == CopyEnding(segs[k], size, page)
  {
    assert segs[..k + 1][..k] == segs[..k];
    if !CopyEnding(segs[k], size, page).Answered? {
      EndingStays(segs, size, page, k + 1);
    }
  }

  lemma {:induction false} EndingStays(segs: seq<Segment>, size: nat, page: nat, k: nat)
    requires k <= |segs| && !FillEnding(segs[..k], size, page).Answered?
    ensures FillEnding(segs, size, page) == FillEnding(segs[..k], size, page)
  {
    var n := |segs| - 1;
    if k == |segs| {
      assert segs[..k] == segs;
    } else {
      assert segs[..n][..k] == segs[..k];
      EndingStays(segs[..n], size, page, k);
    }
  }

  /** A file that holds every segment's bytes is never read past its end, on any fault. */
  lemma {:induction false} FilesInside(segs: seq<Segment>, size: nat, page: nat)
    requires forall k | 0 <= k < |segs| :: segs[k].offset + segs[k].filesz <= size
    ensures FillEnding(segs, size, page) != ReadPastFile
  {
    if segs != [] {
      FilesInside(segs[..|segs| - 1], size, page);
    }
  }

  // ----- allocation over runs of faults

  /** After `n` faults: one pool page per mapped guest page, taken in order from `base`. */
  ghost predicate LazyInv(m: Memory, l: LazyState, root: nat, base: nat, n: nat) {
    && RootOk(root) && Shape(m, root)
    && base % 4096 == 0 && (l.limit - base) % 4096 == 0 && base <= l.limit <= SPACE
    && OutsideDirectory(root, base, l.limit)
    && l.nextFree == base + Bytes(n) <= l.limit
    && Allocated(View(m, root), base, l.nextFree, n)
    && Flagged(View(m, root), Leaves(m, root), FAULT_PERMS)
  }

  ghost predicate Allocated(d: Directory, base: nat, next: nat, n: nat) {
    && d.roots <= {0} && |d.pages| == n
    && (forall x | x in d.pages :: 0 in d.roots && base <= d.pages[x] && d.pages[x] + 4096 <= next)
    && (forall x, y | x in d.pages && y in d.pages && x != y :: d.pages[x] != d.pages[y])
  }

  lemma PageOfBase(gpa: nat)
    ensures Vpn2(PageBase(gpa)) == Vpn2(gpa) && LowPage(PageBase(gpa)) == LowPage(gpa) && PageBase(gpa) % 4096 == 0
  {
    var q := gpa / 4096;
    assert PageBase(gpa) == 4096 * q;
    GigabyteOfPage(gpa);
    GigabyteOfPage(PageBase(gpa));
  }

  lemma BelowGigabyte(gpa: nat)
    requires gpa < GIB
    ensures Vpn2(gpa) == 0 && LowPage(gpa) == gpa / 4096
  {
  }

  /** The directory after one answered fault. */
  lemma FaultView(m: Memory, l: LazyState, root: nat, gpa: nat, m': Memory, l': LazyState)
    requires RootOk(root) && FaultStep(m, l, root, gpa, m', l') && Shape(m, root) && gpa < GIB
    requires OutsideDirectory(root, l.nextFree, l.nextFree + 4096) && l.nextFree % 4096 == 0
    ensures Shape(m', root)
    ensures View(m', root) == Directory(View(m, root).roots + {0}, View(m, root).pages[gpa / 4096 := l.nextFree])
    ensures forall i {:trigger m'[i]} | 0 <= i < SPACE && !(l.nextFree <= i < l.nextFree + 4096) && !(root <= i < root + DIRECTORY_SIZE)
              :: m'[i] == m[i]
    ensures PageHolds(m', l.nextFree, l.segs, l.data, PageBase(gpa))
    ensures Flagged(View(m, root), Leaves(m, root), FAULT_PERMS) ==> Flagged(View(m', root), Leaves(m', root), FAULT_PERMS)
  {
    var m1: Memory :|
      && SameOutside(m, m1, l.nextFree, l.nextFree + 4096)
      && PageHolds(m1, l.nextFree, l.segs, l.data, PageBase(gpa))
      && Mapped(m1, m', root, PageBase(gpa), l.nextFree, FAULT_PERMS, true);
    hide FaultStep, Shape, View, Leaves, Flagged, PageHolds, LazyByte, RootOk;
    SameTableOutside(m, m1, root, l.nextFree, l.nextFree + 4096);
    PageMapped(m1, m', root, gpa, l.nextFree);
    if Flagged(View(m, root), Leaves(m, root), FAULT_PERMS) {
      VpnSplit(PageBase(gpa));
      FlaggedOne(View(m1, root), Leaves(m1, root), PageBase(gpa), l.nextFree, FAULT_PERMS);
    }
    PageKept(m1, m', root, l.nextFree, l.segs, l.data, PageBase(gpa));
  }

  lemma PageMapped(m: Memory, m': Memory, root: nat, gpa: nat, pa: nat)
    requires RootOk(root) && Mapped(m, m', root, PageBase(gpa), pa, FAULT_PERMS, true) && gpa < GIB && pa % 4096 == 0
    ensures View(m', root) == Directory(View(m, root).roots + {0}, View(m, root).pages[gpa / 4096 := pa])
  {
    hide Shape, View, Leaves, RootOk, LeafWord, WithLeaf, PageBase, LowPage, MapOne;
    FaultMaps(View(m, root), gpa, pa);
  }

  lemma FaultMaps(d: Directory, gpa: nat, pa: nat)
    requires gpa < GIB && pa % 4096 == 0
    ensures MapOne(d, PageBase(gpa), pa, FAULT_PERMS) == Directory(d.roots + {0}, d.pages[gpa / 4096 := pa])
  {
    FaultAccess(pa);
    hide PageBase, HasAccess, LowPage, Vpn2;
    PageOfBase(gpa);
    BelowGigabyte(gpa);
  }

  lemma FaultAccess(pa: nat)
    requires pa % 4096 == 0
    ensures HasAccess(FAULT_PERMS) && PageBase(pa) == pa
  {
  }

  lemma PageKept(m: Memory, m': Memory, root: nat, pa: nat, segs: seq<Segment>, data: seq<Byte>, page: nat)
    requires RootOk(root) && SameOutside(m, m', root, root + DIRECTORY_SIZE)
    requires pa + 4096 <= SPACE && OutsideDirectory(root, pa, pa + 4096)
    requires PageHolds(m, pa, segs, data, page)
    ensures PageHolds(m', pa, segs, data, page)
  {
    hide LazyByte, RootOk;
    forall o | 0 <= o < 4096 ensures ByteAt(m', pa, o) == LazyByte(segs, data, page, o) {
      assert ByteAt(m, pa, o) == LazyByte(segs, data, page, o);
    }
  }

  lemma AllocatedStep(d: Directory, base: nat, next: nat, n: nat, x: nat)
    requires Allocated(d, base, next, n) && x !in d.pages && base <= next
    ensures Allocated(Directory(d.roots + {0}, d.pages[x := next]), base, next + 4096, n + 1)
  {
    var p := d.pages[x := next];
    assert p.Keys == d.pages.Keys + {x};
    assert |p| == |p.Keys|;
  }

  lemma FaultingPage(m: Memory, root: nat, gpa: nat)
    requires RootOk(root) && Shape(m, root) && gpa < GIB && TranslateGpaToPa(m, root, gpa) == None
    requires forall x | x in View(m, root).pages :: 0 in View(m, root).roots
    ensures gpa / 4096 !in View(m, root).pages
  {
    TranslateIsLookUp(m, root, gpa);
    BelowGigabyte(gpa);
  }

  lemma TakesNext(m: Memory, l: LazyState, root: nat, gpa: nat, m': Memory, l': LazyState)
    requires RootOk(root) && FaultStep(m, l, root, gpa, m', l')
    ensures l' == l.(nextFree := l.nextFree + 4096) && l.nextFree < l.limit
  {
  }

  /** A fault on an unmapped page takes exactly one more pool page. */
  lemma FaultAllocates(m: Memory, l: LazyState, root: nat, base: nat, n: nat, gpa: nat, m': Memory, l': LazyState)
    requires LazyInv(m, l, root, base, n) && FaultStep(m, l, root, gpa, m', l')
    requires gpa < GIB && TranslateGpaToPa(m, root, gpa) == None
    ensures LazyInv(m', l', root, base, n + 1)
  {
    hide FaultStep, Shape, View, Leaves, Flagged, TranslateGpaToPa, PageHolds;
    TakesNext(m, l, root, gpa, m', l');
    NextPage(base, n, l.limit);
    FaultView(m, l, root, gpa, m', l');
    FaultingPage(m, root, gpa);
    AllocatedStep(View(m, root), base, l.nextFree, n, gpa / 4096);
  }

  lemma NextPage(base: nat, n: nat, limit: nat)
    requires base % 4096 == 0 && (limit - base) % 4096 == 0 && base + Bytes(n) < limit
    ensures base + Bytes(n) + 4096 <= limit && (base + Bytes(n)) % 4096 == 0
  {
    var a, b := base / 4096, (limit - base) / 4096;
    assert base == 4096 * a && limit - base == 4096 * b;
    assert base + Bytes(n) == 4096 * (a + n);
  }

  /** It changes no translation that existed and no byte reachable through one. */
  lemma FaultKeeps(m: Memory, l: LazyState, root: nat, base: nat, n: nat, gpa: nat, m': Memory, l': LazyState, g: nat)
    requires LazyInv(m, l, root, base, n) && FaultStep(m, l, root, gpa, m', l')
    requires gpa < GIB && TranslateGpaToPa(m, root, gpa) == None && TranslateGpaToPa(m, root, g).Some?
    ensures TranslateGpaToPa(m', root, g) == TranslateGpaToPa(m, root, g)
    ensures GuestByte(m', root, g) == GuestByte(m, root, g) && GuestByte(m, root, g).Some?
  {
    hide View, Shape, FaultStep, TranslateGpaToPa, GuestByte, Vpn2, LowPage, PageHolds;
    TakesNext(m, l, root, gpa, m', l');
    NextPage(base, n, l.limit);
    FaultView(m, l, root, gpa, m', l');
    FaultingPage(m, root, gpa);
    KeptAlong(m, m', root, g, gpa / 4096, base, l.nextFree, l.limit);
  }

  lemma KeptAlong(m: Memory, m': Memory, root: nat, g: nat, x: nat, base: nat, next: nat, limit: nat)
    requires RootOk(root) && Shape(m, root) && Shape(m', root) && x !in View(m, root).pages
    requires View(m', root) == Directory(View(m, root).roots + {0}, View(m, root).pages[x := next])
    requires forall y | y in View(m, root).pages :: base <= View(m, root).pages[y] && View(m, root).pages[y] + 4096 <= next
    requires OutsideDirectory(root, base, limit) && next + 4096 <= limit
    requires forall i {:trigger m'[i]} | 0 <= i < SPACE && !(next <= i < next + 4096) && !(root <= i < root + DIRECTORY_SIZE)
               :: m'[i] == m[i]
    requires TranslateGpaToPa(m, root, g).Some?
    ensures TranslateGpaToPa(m', root, g) == TranslateGpaToPa(m, root, g)
    ensures GuestByte(m', root, g) == GuestByte(m, root, g) && GuestByte(m, root, g).Some?
  {
    hide View, Shape, TranslateGpaToPa, Vpn2, LowPage, RootOk;
    TranslateIsLookUp(m, root, g);
    TranslateIsLookUp(m', root, g);
    FrameInSpace(m, root, LowPage(g));
  }

  /** A page the handler installs is open to the guest and marked accessed and dirty. */
  lemma FaultLeaf(m: Memory, l: LazyState, root: nat, base: nat, n: nat, g: nat)
    requires LazyInv(m, l, root, base, n) && TranslateGpaToPa(m, root, g).Some?
    ensures LowPage(g) < LEAVES && OpenLeaf(LeafFor(m, root, g)) && UsedLeaf(LeafFor(m, root, g))
  {
    hide TranslateGpaToPa, Shape, View, Leaves, Flagged, Allocated, LeafFor;
    FlaggedLeaf(m, root, g, FAULT_PERMS, 0);
    forall k: nat | k < 8 ensures Bit(LeafFor(m, root, g), k) <==> k == 0 || k == 4 || Bit(FAULT_PERMS, k) {
      FlaggedLeaf(m, root, g, FAULT_PERMS, k);
    }
    FaultBits();
  }

  lemma FaultBits()
    ensures Bit(FAULT_PERMS, 1) && Bit(FAULT_PERMS, 2) && Bit(FAULT_PERMS, 3) && Bit(FAULT_PERMS, 6) && Bit(FAULT_PERMS, 7)
  {
  }

  /** Over every run of faults, with the guest writing in between: each of its pages is such a page. */
  lemma FaultRunOpen(root: nat, base: nat, bs: seq<Memory>, afters: seq<Memory>, ls: seq<LazyState>, gpas: seq<nat>, g: nat)
    requires RootOk(root) && IsFaultRun(root, bs, afters, ls, gpas) && LazyInv(bs[0], ls[0], root, base, 0)
    requires TranslateGpaToPa(bs[|gpas|], root, g).Some?
    ensures LowPage(g) < LEAVES && OpenLeaf(LeafFor(bs[|gpas|], root, g)) && UsedLeaf(LeafFor(bs[|gpas|], root, g))
  {
    hide LazyInv, FaultRound, TranslateGpaToPa;
    FaultRunAllocates(root, base, bs, afters, ls, gpas);
    FaultLeaf(bs[|gpas|], ls[|gpas|], root, base, |gpas|, g);
  }

  /** Between faults the guest only writes pages that are mapped for it. */
  ghost predicate GuestRan(m: Memory, m': Memory, root: nat)
    requires RootOk(root)
  {
    forall a {:trigger m'[a]} | 0 <= a < SPACE && !InFrame(View(m, root), a) :: m'[a] == m[a]
  }

  ghost predicate InFrame(d: Directory, a: nat) {
    exists x :: x in d.pages && d.pages[x] <= a < d.pages[x] + 4096
  }

  lemma GuestKeepsInv(m: Memory, l: LazyState, root: nat, base: nat, n: nat, m': Memory)
    requires LazyInv(m, l, root, base, n) && GuestRan(m, m', root)
    ensures LazyInv(m', l, root, base, n) && View(m', root) == View(m, root)
  {
    forall i | root <= i < root + DIRECTORY_SIZE ensures m'[i] == m[i] {
      assert !InFrame(View(m, root), i);
    }
    SameTable(m, m', root);
  }

  /** One round: a fault at an unmapped `gpa` leaves `after`, and the guest runs on to `next`. */
  ghost predicate FaultRound(root: nat, before: Memory, l: LazyState, gpa: nat, after: Memory, l': LazyState, next: Memory)
    requires RootOk(root)
  {
    && gpa < GIB && TranslateGpaToPa(before, root, gpa) == None
    && FaultStep(before, l, root, gpa, after, l')
    && GuestRan(after, next, root)
  }

  ghost predicate IsFaultRun(root: nat, bs: seq<Memory>, afters: seq<Memory>, ls: seq<LazyState>, gpas: seq<nat>)
    requires RootOk(root)
  {
    && |bs| == |gpas| + 1 && |ls| == |gpas| + 1 && |afters| == |gpas|
    && (forall i {:trigger gpas[i]} | 0 <= i < |gpas| ::
          FaultRound(root, bs[i], ls[i], gpas[i], afters[i], ls[i + 1], bs[i + 1]))
  }

  lemma FaultPrefix(root: nat, bs: seq<Memory>, afters: seq<Memory>, ls: seq<LazyState>, gpas: seq<nat>)
    requires RootOk(root) && IsFaultRun(root, bs, afters, ls, gpas) && gpas != []
    ensures var n := |gpas| - 1;
            && IsFaultRun(root, bs[..n + 1], afters[..n], ls[..n + 1], gpas[..n])
            && FaultRound(root, bs[n], ls[n], gpas[n], afters[n], ls[n + 1], bs[n + 1])
  {
    hide FaultRound;
    var n := |gpas| - 1;
    forall i | 0 <= i < n
      ensures FaultRound(root, bs[..n + 1][i], ls[..n + 1][i], gpas[..n][i], afters[..n][i], ls[..n + 1][i + 1], bs[..n + 1][i + 1])
    {
      assert gpas[..n][i] == gpas[i];
    }
    assert gpas[n] == gpas[n];
  }

  lemma RoundAllocates(root: nat, base: nat, n: nat, before: Memory, l: LazyState, gpa: nat, after: Memory, l': LazyState, next: Memory)
    requires LazyInv(before, l, root, base, n) && FaultRound(root, before, l, gpa, after, l', next)
    ensures LazyInv(next, l', root, base, n + 1)
  {
    hide LazyInv;
    FaultAllocates(before, l, root, base, n, gpa, after, l');
    GuestKeepsInv(after, l', root, base, n + 1, next);
  }

  lemma RoundKeeps(root: nat, base: nat, n: nat, before: Memory, l: LazyState, gpa: nat, after: Memory, l': LazyState, next: Memory, g: nat)
    requires LazyInv(before, l, root, base, n) && FaultRound(root, before, l, gpa, after, l', next)
    requires TranslateGpaToPa(before, root, g).Some?
    ensures TranslateGpaToPa(next, root, g) == TranslateGpaToPa(before, root, g)
  {
    FaultAllocates(before, l, root, base, n, gpa, after, l');
    FaultKeeps(before, l, root, base, n, gpa, after, l', g);
    GuestKeepsInv(after, l', root, base, n + 1, next);
    TranslateIsLookUp(after, root, g);
    TranslateIsLookUp(next, root, g);
    hide View, Shape, TranslateGpaToPa, LookUp, FaultRound, GuestByte, FaultStep;
  }

  /** `k` faults use exactly `k` pool pages, pairwise distinct and inside the pool. */
  lemma {:induction false} FaultRunAllocates(root: nat, base: nat, bs: seq<Memory>, afters: seq<Memory>, ls: seq<LazyState>,
                                             gpas: seq<nat>)
    requires RootOk(root) && IsFaultRun(root, bs, afters, ls, gpas) && LazyInv(bs[0], ls[0], root, base, 0)
    ensures LazyInv(bs[|gpas|], ls[|gpas|], root, base, |gpas|)
  {
    hide LazyInv, FaultRound;
    if gpas != [] {
      var n := |gpas| - 1;
      FaultPrefix(root, bs, afters, ls, gpas);
      FaultRunAllocates(root, base, bs[..n + 1], afters[..n], ls[..n + 1], gpas[..n]);
      RoundAllocates(root, base, n, bs[n], ls[n], gpas[n], afters[n], ls[n + 1], bs[n + 1]);
    }
  }

  /** A translation, once there, stays for the rest of the run. */
  lemma {:induction false} FaultRunKeeps(root: nat, base: nat, bs: seq<Memory>, afters: seq<Memory>, ls: seq<LazyState>,
                                         gpas: seq<nat>, i: nat, g: nat)
    requires RootOk(root) && IsFaultRun(root, bs, afters, ls, gpas) && LazyInv(bs[0], ls[0], root, base, 0)
    requires i <= |gpas| && TranslateGpaToPa(bs[i], root, g).Some?
    ensures TranslateGpaToPa(bs[|gpas|], root, g) == TranslateGpaToPa(bs[i], root, g)
  {
    hide LazyInv, FaultRound, TranslateGpaToPa;
    if i < |gpas| {
      var n := |gpas| - 1;
      FaultPrefix(root, bs, afters, ls, gpas);
      FaultRunKeeps(root, base, bs[..n + 1], afters[..n], ls[..n + 1], gpas[..n], i, g);
      FaultRunAllocates(root, base, bs[..n + 1], afters[..n], ls[..n + 1], gpas[..n]);
      RoundKeeps(root, base, n, bs[n], ls[n], gpas[n], afters[n], ls[n + 1], bs[n + 1], g);
    }
  }

  // ----- content of the installed pages

  /** The page a fault installs reads as the handler's content. */
  lemma FaultInstalls(m: Memory, l: LazyState, root: nat, base: nat, n: nat, gpa: nat, m': Memory, l': LazyState, o: nat)
    requires LazyInv(m, l, root, base, n) && FaultStep(m, l, root, gpa, m', l')
    requires gpa < GIB && TranslateGpaToPa(m, root, gpa) == None && o < 4096
    ensures GuestByte(m', root, PageBase(gpa) + o) == Some(LazyByte(l.segs, l.data, PageBase(gpa), o))
  {
    hide View, Shape, FaultStep, TranslateGpaToPa, Vpn2, LowPage, LazyByte, Allocated, GuestByte;
    TakesNext(m, l, root, gpa, m', l');
    NextPage(base, n, l.limit);
    FaultView(m, l, root, gpa, m', l');
    InstalledAddress(gpa, o);
    GuestByteIs(m', root, PageBase(gpa) + o);
    assert ByteAt(m', l.nextFree, o) == LazyByte(l.segs, l.data, PageBase(gpa), o);
  }

  lemma InstalledAddress(gpa: nat, o: nat)
    requires gpa < GIB && o < 4096
    ensures Vpn2(PageBase(gpa) + o) == 0 && LowPage(PageBase(gpa) + o) == gpa / 4096 && (PageBase(gpa) + o) % 4096 == o
  {
    var q := gpa / 4096;
    var g := 4096 * q + o;
    assert PageBase(gpa) == 4096 * q;
    assert g / 4096 == q;
    BelowGigabyte(g);
  }

  ghost predicate PageAlignedSegments(segs: seq<Segment>) {
    forall k | 0 <= k < |segs| :: segs[k].vaddr % 4096 == 0
  }

  /** Over page-aligned segments the handler's pages are the image. */
  lemma {:induction false} LazyIsImage(segs: seq<Segment>, data: seq<Byte>, x: nat, o: nat)
    requires PageAlignedSegments(segs) && FileFits(segs) && o < 4096
    ensures LazyByte(segs, data, x * 4096, o) == ImageByte(segs, data, x * 4096 + o)
  {
    if segs != [] {
      var s := segs[|segs| - 1];
      LazyIsImage(segs[..|segs| - 1], data, x, o);
      assert s.vaddr == 4096 * (s.vaddr / 4096);
    }
  }

  /** In general a file byte reaches the guest exactly when its page starts at or after the segment. */
  lemma {:induction false} LazyByteExact(segs: seq<Segment>, data: seq<Byte>, k: nat, x: nat, o: nat)
    requires PageDisjoint(segs) && FileFits(segs) && k < |segs| && o < 4096 && InFile(segs[k], x * 4096 + o)
    ensures LazyByte(segs, data, x * 4096, o)
            == if segs[k].vaddr <= x * 4096 then FileByte(segs[k], data, x * 4096 + o) else 0
  {
    var n := |segs| - 1;
    var g := x * 4096 + o;
    assert g / 4096 == x;
    TouchedByFile(segs[k], g);
    if k == n {
      if segs[k].vaddr > x * 4096 {
        NobodyServes(segs[..n], data, x, o) by {
          OthersOff(segs, k, x, o);
        }
      }
    } else {
      OthersOff(segs, k, x, o);
      PrefixDisjoint(segs);
      LazyByteExact(segs[..n], data, k, x, o);
    }
  }

  lemma PrefixDisjoint(segs: seq<Segment>)
    requires PageDisjoint(segs) && segs != []
    ensures PageDisjoint(segs[..|segs| - 1])
  {
    var n := |segs| - 1;
    forall i, j, x | 0 <= i < n && 0 <= j < n && Touches(segs[..n][i], x) && Touches(segs[..n][j], x) ensures i == j {
      assert Touches(segs[i], x) && Touches(segs[j], x);
    }
  }

  lemma OthersOff(segs: seq<Segment>, k: nat, x: nat, o: nat)
    requires PageDisjoint(segs) && k < |segs| && Touches(segs[k], x) && o < 4096
    ensures forall i | 0 <= i < |segs| && i != k :: !Serves(segs[i], x * 4096, o)
  {
    forall i | 0 <= i < |segs| && i != k ensures !Serves(segs[i], x * 4096, o) {
      if Serves(segs[i], x * 4096, o) {
        assert (x * 4096 + o) / 4096 == x;
        TouchedByFile(segs[i], x * 4096 + o);
        assert false;
      }
    }
  }

  lemma {:induction false} NobodyServes(segs: seq<Segment>, data: seq<Byte>, x: nat, o: nat)
    requires forall i | 0 <= i < |segs| :: !Serves(segs[i], x * 4096, o)
    ensures LazyByte(segs, data, x * 4096, o) == 0
  {
    if segs != [] {
      NobodyServes(segs[..|segs| - 1], data, x, o);
    }
  }

  /**
   Lazy refines eager: on every guest page the eager loader maps, the page a fault installs is
   the same byte for byte.
   */
  lemma LazyRefinesEager(eager: Memory, j: Job, used: nat,
                         m: Memory, l: LazyState, root: nat, base: nat, n: nat, gpa: nat, m': Memory, l': LazyState, o: nat)
    requires JobOk(j) && EagerlyLoaded(eager, j, used) && PageAlignedSegments(j.segs)
    requires l.segs == j.segs && l.data == j.data
    requires LazyInv(m, l, root, base, n) && FaultStep(m, l, root, gpa, m', l')
    requires gpa < GIB && TranslateGpaToPa(m, root, gpa) == None && o < 4096
    requires gpa / 4096 in View(eager, j.root).pages
    ensures GuestByte(m', root, PageBase(gpa) + o) == GuestByte(eager, j.root, PageBase(gpa) + o)
  {
    hide EagerlyLoaded, LazyInv, FaultStep, View, ImageByte, LazyByte, GuestByte, PageDisjoint;
    assert PageBase(gpa) == gpa / 4096 * 4096;
    LazyIsImage(j.segs, j.data, gpa / 4096, o);
    BothBytes(eager, j, used, m, l, root, base, n, gpa, m', l', o);
  }

  /** No segment that starts inside page `x` has a file byte other than zero on it. */
  ghost predicate HeadBlank(segs: seq<Segment>, data: seq<Byte>, x: nat) {
    forall k, g: nat {:trigger InFile(segs[k], g)} |
      0 <= k < |segs| && x * 4096 < segs[k].vaddr && InFile(segs[k], g) && g / 4096 == x :: FileByte(segs[k], data, g) == 0
  }

  lemma LazyByteAgrees(segs: seq<Segment>, data: seq<Byte>, x: nat, o: nat)
    requires PageDisjoint(segs) && FileFits(segs) && o < 4096 && HeadBlank(segs, data, x)
    ensures LazyByte(segs, data, x * 4096, o) == ImageByte(segs, data, x * 4096 + o)
  {
    hide ImageByte, LazyByte, Touches, PageDisjoint, FileFits;
    var g := x * 4096 + o;
    assert g / 4096 == x;
    if k :| 0 <= k < |segs| && InFile(segs[k], g) {
      TouchedByFile(segs[k], g);
      LazyByteExact(segs, data, k, x, o);
      ImageOnPage(segs, data, k, g);
    } else {
      ImageElsewhere(segs, data, g);
      NobodyServes(segs, data, x, o);
    }
  }

  /** Exact: the handler's page is the image's page precisely when no file byte is lost at its head. */
  lemma LazyPageExact(segs: seq<Segment>, data: seq<Byte>, x: nat)
    requires PageDisjoint(segs) && FileFits(segs)
    ensures (forall o | 0 <= o < 4096 :: LazyByte(segs, data, x * 4096, o) == ImageAddress(segs, data, x, o))
            <==> HeadBlank(segs, data, x)
  {
    hide ImageByte, LazyByte, Touches, PageDisjoint, FileFits;
    if HeadBlank(segs, data, x) {
      forall o | 0 <= o < 4096 ensures LazyByte(segs, data, x * 4096, o) == ImageAddress(segs, data, x, o) {
        LazyByteAgrees(segs, data, x, o);
      }
    }
    if forall o | 0 <= o < 4096 :: LazyByte(segs, data, x * 4096, o) == ImageAddress(segs, data, x, o) {
      forall k, g: nat | 0 <= k < |segs| && x * 4096 < segs[k].vaddr && InFile(segs[k], g) && g / 4096 == x
        ensures FileByte(segs[k], data, g) == 0
      {
        var o := g % 4096;
        assert g == x * 4096 + o;
        TouchedByFile(segs[k], g);
        LazyByteExact(segs, data, k, x, o);
        ImageOnPage(segs, data, k, g);
        assert LazyByte(segs, data, x * 4096, o) == ImageAddress(segs, data, x, o);
      }
    }
  }

  function ImageAddress(segs: seq<Segment>, data: seq<Byte>, x: nat, o: nat): Byte {
    ImageByte(segs, data, x * 4096 + o)
  }

  /** The same page in the eager guest and in the lazy one after the fault. */
  ghost predicate SamePageBytes(eager: Memory, eagerRoot: nat, m: Memory, root: nat, x: nat)
    requires RootOk(eagerRoot) && RootOk(root)
  {
    forall o | 0 <= o < 4096 :: SeenAt(m, root, x, o) == SeenAt(eager, eagerRoot, x, o)
  }

  /** The byte the guest reads at offset `o` of page `x`. */
  ghost function SeenAt(m: Memory, root: nat, x: nat, o: nat): Option<Byte>
    requires RootOk(root)
  {
    GuestByte(m, root, x * 4096 + o)
  }

  /** With no alignment asked: the installed page agrees with the eager one exactly under the same condition. */
  lemma LazyEagerExact(eager: Memory, j: Job, used: nat,
                       m: Memory, l: LazyState, root: nat, base: nat, n: nat, gpa: nat, m': Memory, l': LazyState)
    requires JobOk(j) && EagerlyLoaded(eager, j, used)
    requires l.segs == j.segs && l.data == j.data
    requires LazyInv(m, l, root, base, n) && FaultStep(m, l, root, gpa, m', l')
    requires gpa < GIB && TranslateGpaToPa(m, root, gpa) == None
    requires gpa / 4096 in View(eager, j.root).pages
    ensures SamePageBytes(eager, j.root, m', root, gpa / 4096) <==> HeadBlank(j.segs, j.data, gpa / 4096)
  {
    hide EagerlyLoaded, FaultStep, View, ImageByte, LazyByte, GuestByte, PageDisjoint, FileFits, HeadBlank, ImageAddress;
    var x := gpa / 4096;
    LazyPageExact(j.segs, j.data, x);
    forall o | 0 <= o < 4096
      ensures SeenAt(m', root, x, o) == SeenAt(eager, j.root, x, o)
              <==> LazyByte(j.segs, j.data, x * 4096, o) == ImageAddress(j.segs, j.data, x, o)
    {
      BothBytes(eager, j, used, m, l, root, base, n, gpa, m', l', o);
    }
  }

  lemma BothBytes(eager: Memory, j: Job, used: nat,
                  m: Memory, l: LazyState, root: nat, base: nat, n: nat, gpa: nat, m': Memory, l': LazyState, o: nat)
    requires JobOk(j) && EagerlyLoaded(eager, j, used)
    requires l.segs == j.segs && l.data == j.data
    requires LazyInv(m, l, root, base, n) && FaultStep(m, l, root, gpa, m', l')
    requires gpa < GIB && TranslateGpaToPa(m, root, gpa) == None && o < 4096
    requires gpa / 4096 in View(eager, j.root).pages
    ensures GuestByte(m', root, gpa / 4096 * 4096 + o) == Some(LazyByte(j.segs, j.data, gpa / 4096 * 4096, o))
    ensures GuestByte(eager, j.root, gpa / 4096 * 4096 + o) == Some(ImageAddress(j.segs, j.data, gpa / 4096, o))
  {
    hide EagerlyLoaded, LazyInv, FaultStep, View, ImageByte, LazyByte, GuestByte, PageDisjoint;
    assert PageBase(gpa) == gpa / 4096 * 4096;
    FaultInstalls(m, l, root, base, n, gpa, m', l', o);
    EagerBytes(eager, j, used, gpa / 4096, o);
  }

  // ----- whole runs against the eager loader

  /** The guest only faults: nothing else writes memory between two faults. */
  ghost predicate QuietRun(root: nat, bs: seq<Memory>, afters: seq<Memory>, ls: seq<LazyState>, gpas: seq<nat>)
    requires RootOk(root)
  {
    IsFaultRun(root, bs, afters, ls, gpas) && forall i {:trigger afters[i]} | 0 <= i < |afters| :: bs[i + 1] == afters[i]
  }

  /** Only the faulting page is new. */
  lemma MappedBefore(m: Memory, l: LazyState, root: nat, base: nat, n: nat, gpa: nat, m': Memory, l': LazyState, g: nat)
    requires LazyInv(m, l, root, base, n) && FaultStep(m, l, root, gpa, m', l')
    requires gpa < GIB && g < GIB && g / 4096 != gpa / 4096
    requires TranslateGpaToPa(m, root, gpa) == None && TranslateGpaToPa(m', root, g).Some?
    ensures TranslateGpaToPa(m, root, g).Some?
  {
    hide View, Shape, FaultStep, TranslateGpaToPa, Vpn2, LowPage;
    TakesNext(m, l, root, gpa, m', l');
    NextPage(base, n, l.limit);
    FaultView(m, l, root, gpa, m', l');
    BelowGigabyte(g);
    TranslateIsLookUp(m', root, g);
    TranslateIsLookUp(m, root, g);
  }

  lemma RoundContent(m: Memory, l: LazyState, root: nat, base: nat, n: nat, gpa: nat, m': Memory, l': LazyState, x: nat, o: nat)
    requires LazyInv(m, l, root, base, n) && FaultStep(m, l, root, gpa, m', l')
    requires gpa < GIB && TranslateGpaToPa(m, root, gpa) == None && x * 4096 + o < GIB && o < 4096
    requires TranslateGpaToPa(m', root, x * 4096 + o).Some?
    requires TranslateGpaToPa(m, root, x * 4096 + o).Some? ==>
               GuestByte(m, root, x * 4096 + o) == Some(LazyByte(l.segs, l.data, x * 4096, o))
    ensures GuestByte(m', root, x * 4096 + o) == Some(LazyByte(l.segs, l.data, x * 4096, o))
  {
    hide LazyInv, FaultStep, TranslateGpaToPa, LazyByte, GuestByte;
    assert (x * 4096 + o) / 4096 == x;
    if x == gpa / 4096 {
      assert PageBase(gpa) == x * 4096;
      FaultInstalls(m, l, root, base, n, gpa, m', l', o);
    } else {
      MappedBefore(m, l, root, base, n, gpa, m', l', x * 4096 + o);
      FaultKeeps(m, l, root, base, n, gpa, m', l', x * 4096 + o);
    }
  }

  lemma QuietPrefix(root: nat, bs: seq<Memory>, afters: seq<Memory>, ls: seq<LazyState>, gpas: seq<nat>)
    requires RootOk(root) && QuietRun(root, bs, afters, ls, gpas) && gpas != []
    ensures var n := |gpas| - 1;
            && QuietRun(root, bs[..n + 1], afters[..n], ls[..n + 1], gpas[..n])
            && bs[n + 1] == afters[n] && gpas[n] < GIB && TranslateGpaToPa(bs[n], root, gpas[n]) == None
            && FaultStep(bs[n], ls[n], root, gpas[n], bs[n + 1], ls[n + 1])
  {
    RunLengths(root, bs, afters, ls, gpas);
    hide FaultStep, TranslateGpaToPa, IsFaultRun;
    var n := |gpas| - 1;
    FaultPrefix(root, bs, afters, ls, gpas);
    assert bs[n + 1] == afters[n];
    assert forall i | 0 <= i < n :: afters[..n][i] == afters[i];
  }

  lemma RunLengths(root: nat, bs: seq<Memory>, afters: seq<Memory>, ls: seq<LazyState>, gpas: seq<nat>)
    requires RootOk(root) && IsFaultRun(root, bs, afters, ls, gpas)
    ensures |bs| == |gpas| + 1 && |ls| == |gpas| + 1 && |afters| == |gpas|
  {
  }

  /** At the end of a quiet run every page that translates holds the handler's content. */
  lemma {:induction false} QuietRunContent(root: nat, base: nat, bs: seq<Memory>, afters: seq<Memory>, ls: seq<LazyState>,
                                           gpas: seq<nat>, x: nat, o: nat)
    requires RootOk(root) && QuietRun(root, bs, afters, ls, gpas) && LazyInv(bs[0], ls[0], root, base, 0)
    requires o < 4096 && x * 4096 + o < GIB && TranslateGpaToPa(bs[|gpas|], root, x * 4096 + o).Some?
    ensures GuestByte(bs[|gpas|], root, x * 4096 + o) == Some(LazyByte(ls[0].segs, ls[0].data, x * 4096, o))
    ensures ls[|gpas|].segs == ls[0].segs && ls[|gpas|].data == ls[0].data
  {
    hide LazyInv, FaultStep, TranslateGpaToPa, LazyByte, GuestByte, FaultRound;
    QuietFiles(root, bs, afters, ls, gpas, |gpas|);
    if gpas == [] {
      NothingMapped(bs[0], ls[0], root, base, x * 4096 + o);
    } else {
      var n := |gpas| - 1;
      QuietPrefix(root, bs, afters, ls, gpas);
      FaultRunAllocates(root, base, bs[..n + 1], afters[..n], ls[..n + 1], gpas[..n]);
      QuietFiles(root, bs, afters, ls, gpas, n);
      hide QuietRun;
      if TranslateGpaToPa(bs[n], root, x * 4096 + o).Some? {
        QuietRunContent(root, base, bs[..n + 1], afters[..n], ls[..n + 1], gpas[..n], x, o);
      }
      RoundContent(bs[n], ls[n], root, base, n, gpas[n], bs[n + 1], ls[n + 1], x, o);
    }
  }

  lemma {:induction false} QuietFiles(root: nat, bs: seq<Memory>, afters: seq<Memory>, ls: seq<LazyState>, gpas: seq<nat>, i: nat)
    requires RootOk(root) && QuietRun(root, bs, afters, ls, gpas) && i <= |gpas|
    ensures ls[i].segs == ls[0].segs && ls[i].data == ls[0].data
  {
    hide Shape, OutsideDirectory, Mapped, PageHolds, TranslateGpaToPa, GuestRan;
    if i > 0 {
      var k := i - 1;
      QuietFiles(root, bs, afters, ls, gpas, k);
      assert FaultRound(root, bs[k], ls[k], gpas[k], afters[k], ls[k + 1], bs[k + 1]);
    }
  }

  lemma NothingMapped(m: Memory, l: LazyState, root: nat, base: nat, g: nat)
    requires LazyInv(m, l, root, base, 0)
    ensures TranslateGpaToPa(m, root, g) == None
  {
    hide View, Shape, TranslateGpaToPa;
    assert View(m, root).pages == map[];
    TranslateIsLookUp(m, root, g);
  }

  /**
   Lazy against eager over whole runs: at the end, every page that both guests have mapped is the
   same byte for byte precisely when no file byte was lost at its head.
   */
  lemma QuietRunExact(eager: Memory, j: Job, used: nat, root: nat, base: nat,
                      bs: seq<Memory>, afters: seq<Memory>, ls: seq<LazyState>, gpas: seq<nat>, x: nat)
    requires JobOk(j) && EagerlyLoaded(eager, j, used)
    requires RootOk(root) && QuietRun(root, bs, afters, ls, gpas) && LazyInv(bs[0], ls[0], root, base, 0)
    requires ls[0].segs == j.segs && ls[0].data == j.data
    requires x in View(eager, j.root).pages && x in View(bs[|gpas|], root).pages
    ensures SamePageBytes(eager, j.root, bs[|gpas|], root, x) <==> HeadBlank(j.segs, j.data, x)
  {
    RunLengths(root, bs, afters, ls, gpas);
    hide EagerlyLoaded, QuietRun, LazyInv, View, ImageByte, LazyByte, GuestByte, PageDisjoint, FileFits, HeadBlank, ImageAddress;
    LazyPageExact(j.segs, j.data, x);
    forall o | 0 <= o < 4096
      ensures SeenAt(bs[|gpas|], root, x, o) == SeenAt(eager, j.root, x, o)
              <==> LazyByte(j.segs, j.data, x * 4096, o) == ImageAddress(j.segs, j.data, x, o)
    {
      BothAtEnd(eager, j, used, root, base, bs, afters, ls, gpas, x, o);
    }
  }

  lemma MappedTranslates(m: Memory, l: LazyState, root: nat, base: nat, n: nat, x: nat, o: nat)
    requires LazyInv(m, l, root, base, n) && x in View(m, root).pages && x < 0x4_0000 && o < 4096
    ensures x * 4096 + o < GIB && TranslateGpaToPa(m, root, x * 4096 + o).Some?
  {
    hide View, Shape, TranslateGpaToPa;
    assert (x * 4096 + o) / 4096 == x;
    BelowGigabyte(x * 4096 + o);
    TranslateIsLookUp(m, root, x * 4096 + o);
  }

  lemma BothAtEnd(eager: Memory, j: Job, used: nat, root: nat, base: nat,
                  bs: seq<Memory>, afters: seq<Memory>, ls: seq<LazyState>, gpas: seq<nat>, x: nat, o: nat)
    requires JobOk(j) && EagerlyLoaded(eager, j, used) && o < 4096
    requires RootOk(root) && QuietRun(root, bs, afters, ls, gpas) && LazyInv(bs[0], ls[0], root, base, 0)
    requires ls[0].segs == j.segs && ls[0].data == j.data
    requires x in View(eager, j.root).pages && x in View(bs[|gpas|], root).pages
    ensures SeenAt(bs[|gpas|], root, x, o) == Some(LazyByte(j.segs, j.data, x * 4096, o))
    ensures SeenAt(eager, j.root, x, o) == Some(ImageAddress(j.segs, j.data, x, o))
  {
    RunLengths(root, bs, afters, ls, gpas);
    assert x < 0x4_0000;
    hide EagerlyLoaded, LazyInv, View, ImageByte, LazyByte, GuestByte, PageDisjoint, FileFits, TranslateGpaToPa, FaultRound;
    FaultRunAllocates(root, base, bs, afters, ls, gpas);
    EagerPages(eager, j, used, x);
    MappedTranslates(bs[|gpas|], ls[|gpas|], root, base, |gpas|, x, o);
    QuietRunContent(root, base, bs, afters, ls, gpas, x, o);
    EagerBytes(eager, j, used, x, o);
  }

  // ----- start-up

  /** Records the lazy state, then creates and finalizes a TVM whose directory is still empty. */
  method BootstrapLoadElfLazy(hv: HypervisorState, handler: FaultHandler, data: seq<Byte>, segs: seq<Segment>,
                              entry: Usize, pt: Usize, st: Usize, pool: Usize)
    returns (v: Verdict)
    requires hv.Valid() && handler.ram == hv.ram
    modifies hv, hv.ram, handler
    ensures hv.Valid()
    ensures v == if pool + RAM_SIZE >= SPACE then Stop else CreateVerdict(old(hv.Snap()), pt, st)
    ensures handler.lazy == if pool + RAM_SIZE >= SPACE then old(handler.lazy)
                            else Some(LazyState(segs, data, pool, pool + RAM_SIZE))
    ensures v.Accept? ==>
              && hv.tvm.Some? && hv.tvm.value.pageTable == pt && hv.tvm.value.state.Runnable?
              && hv.tvm.value.entrySepc == entry && hv.tvm.value.entryArg == 0 && hv.tvm.value.identityAddr == 0
              && hv.tvm.value.regions == [MemoryRegion(0x1000, 512)]
              && hv.measurement == Some(hv.sha384([])) && hv.tvm.value.measure == hv.sha384([]) && hv.tvm.value.absorbed == []
              && RootOk(pt) && Shape(hv.ram.bytes, pt) && View(hv.ram.bytes, pt) == EMPTY
              && SameOutside(old(hv.ram.bytes), hv.ram.bytes, pt, pt + DIRECTORY_SIZE)
    ensures v.Accept? && pool % 4096 == 0 && OutsideDirectory(pt, pool, pool + RAM_SIZE) ==>
              LazyInv(hv.ram.bytes, handler.lazy.value, pt, pool, 0)
  {
    if pool + RAM_SIZE >= SPACE {
      return Stop;
    }
    handler.lazy := Some(LazyState(segs, data, pool, pool + RAM_SIZE));
    v := hv.CreateTvm(pt, st);
    if !v.Accept? {
      return;
    }
    ZeroIsEmpty(hv.ram.bytes, pt);
    v := hv.AddTvmMemoryRegion(TVM_ID, 0x1000, RAM_SIZE);
    if !v.Accept? {
      return;
    }
    v := hv.FinalizeTvm(entry, 0, 0);
  }
}
