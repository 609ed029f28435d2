/**
 The eager ELF loader: it creates a TVM, copies every segment into a pool of confidential pages
 through the measured-pages and zero-pages calls, and maps the rest of the 2 MiB of guest RAM.
 */
module EagerLoader {
  import opened Memory
  import opened PageTable
  import opened Mapping
  import opened GuestMemory
  import opened GuestImage
  import opened Hypervisor
  import opened Sets

  // ----- page arithmetic of one segment

  function FirstPage(s: Segment): nat {
    s.vaddr / 4096
  }

  function PagesFor(n: nat): nat {
    (n + 4095) / 4096
  }

  function MeasuredPages(s: Segment): nat {
    PagesFor(s.vaddr % 4096 + s.filesz)
  }

  function TotalPages(s: Segment): nat {
    PagesFor(s.vaddr % 4096 + s.memsz)
  }

  function SegmentEnd(s: Segment): nat {
    Bytes(FirstPage(s)) + Bytes(TotalPages(s))
  }

  /** End of the highest of the segments, page rounded. */
  function HighestEnd(segs: seq<Segment>): nat {
    if segs == [] then 0
    else
      var rest, end := HighestEnd(segs[..|segs| - 1]), SegmentEnd(segs[|segs| - 1]);
      if rest > end then rest else end
  }

  /** The first page of a segment without file bytes at an unaligned address is counted but never mapped. */
  predicate Skipped(s: Segment, x: nat) {
    s.filesz == 0 && s.vaddr % 4096 != 0 && x == FirstPage(s)
  }

  predicate Loads(s: Segment, x: nat) {
    Touches(s, x) && !Skipped(s, x)
  }

  predicate InMeasured(s: Segment, x: nat) {
    s.filesz > 0 && FirstPage(s) <= x < FirstPage(s) + MeasuredPages(s)
  }

  predicate InZero(s: Segment, x: nat) {
    s.memsz > s.filesz && FirstPage(s) + MeasuredPages(s) <= x < FirstPage(s) + TotalPages(s)
  }

  lemma LastPage(vaddr: nat, n: nat)
    requires n > 0
    ensures (vaddr + n - 1) / 4096 == vaddr / 4096 + PagesFor(vaddr % 4096 + n) - 1
  {
    var q, r := vaddr / 4096, vaddr % 4096;
    var t := PagesFor(r + n);
    assert 4096 * (t - 1) <= r + n - 1 < 4096 * t;
    var a, b := vaddr + n - 1, q + t - 1;
    assert a == 4096 * b + (r + n - 1 - 4096 * (t - 1));
    QuotientIs(a, b);
  }

  lemma QuotientIs(a: nat, b: nat)
    requires 4096 * b <= a < 4096 * b + 4096
    ensures a / 4096 == b
  {
  }

  /** The two fill calls for a segment map exactly the pages it loads. */
  lemma SegmentPages(s: Segment, x: nat)
    requires s.filesz <= s.memsz
    ensures Loads(s, x) <==> InMeasured(s, x) || InZero(s, x)
    ensures Touches(s, x) ==> x * 4096 < SegmentEnd(s)
  {
    if s.memsz > 0 {
      LastPage(s.vaddr, s.memsz);
      PagesMonotone(s.vaddr % 4096 + s.filesz, s.vaddr % 4096 + s.memsz);
    }
  }

  lemma PagesMonotone(a: nat, b: nat)
    requires a <= b
    ensures PagesFor(a) <= PagesFor(b)
    ensures a > 0 ==> PagesFor(a) >= 1
    ensures a == 0 ==> PagesFor(a) == 0
    ensures a <= 4096 ==> PagesFor(a) <= 1
    ensures a <= Bytes(PagesFor(a))
  {
  }

  // ----- what has been loaded so far

  function PageByte(m: Memory, d: Directory, x: nat, o: nat): Byte {
    if x in d.pages && d.pages[x] + o < SPACE then m[d.pages[x] + o] else 0
  }

  function ByteAt(m: Memory, base: nat, i: nat): Byte
    requires base + i < SPACE
  {
    m[base + i]
  }

  ghost predicate BlankFrom(m: Memory, lo: nat, hi: nat)
    requires hi <= SPACE
  {
    forall a {:trigger m[a]} | lo <= a < hi :: m[a] == 0
  }

  /** Pages are taken from the pool in order, one per guest page, and the rest of the pool is zero. */
  ghost predicate Packed(m: Memory, d: Directory, pool: nat, cur: nat)
    requires pool + RAM_SIZE <= SPACE
  {
    && d.roots <= {0} && FramesPacked(d, pool, cur)
    && cur == pool + Bytes(|d.pages|)
    && BlankFrom(m, cur, pool + RAM_SIZE)
  }

  ghost predicate FramesPacked(d: Directory, pool: nat, cur: nat) {
    && (forall x | x in d.pages :: 0 in d.roots && x < RAM_PAGES && pool <= d.pages[x] && d.pages[x] + 4096 <= cur)
    && (forall x, y | x in d.pages && y in d.pages && x != y :: d.pages[x] != d.pages[y])
  }

  /** Every mapped page shows the guest image. */
  ghost predicate Shows(m: Memory, d: Directory, segs: seq<Segment>, data: seq<Byte>) {
    forall x, o {:trigger PageByte(m, d, x, o)} | x in d.pages && 0 <= o < 4096 ::
      PageByte(m, d, x, o) == ImageByte(segs, data, x * 4096 + o)
  }

  predicate InRange(first: nat, n: nat, x: nat) {
    first <= x < first + n
  }

  ghost function Range(first: nat, n: nat): set<nat> {
    set x | first <= x < first + n && InRange(first, n, x)
  }

  lemma {:induction false} RangeSize(first: nat, n: nat)
    ensures |Range(first, n)| == n
  {
    if n == 0 {
      assert Range(first, 0) == {};
    } else {
      RangeSize(first, n - 1);
      assert Range(first, n) == Range(first, n - 1) + {first + n - 1};
    }
  }

  /** A pool of 512 pages has room for every set of guest pages that is still unmapped. */
  lemma RoomFor(m: Memory, d: Directory, pool: nat, cur: nat, first: nat, n: nat)
    requires pool + RAM_SIZE <= SPACE && Packed(m, d, pool, cur)
    requires first + n <= RAM_PAGES && forall x | first <= x < first + n :: x !in d.pages
    ensures cur + Bytes(n) <= pool + RAM_SIZE
  {
    RangeSize(0, RAM_PAGES);
    RangeSize(first, n);
    SubsetSize(d.pages.Keys + Range(first, n), Range(0, RAM_PAGES));
    assert |d.pages.Keys + Range(first, n)| == |d.pages.Keys| + |Range(first, n)|;
  }

  ghost function Extended(d: Directory, first: nat, pa: nat, n: nat): Directory {
    Directory(if n == 0 then d.roots else d.roots + {0}, d.pages + RegionPages(first, pa, n))
  }

  lemma ExtendedSize(d: Directory, first: nat, pa: nat, n: nat)
    requires forall x | first <= x < first + n :: x !in d.pages
    ensures |Extended(d, first, pa, n).pages| == |d.pages| + n
    ensures Extended(d, first, pa, n).pages.Keys == d.pages.Keys + Range(first, n)
  {
    RangeSize(first, n);
    var d' := Extended(d, first, pa, n);
    assert RegionPages(first, pa, n).Keys == Range(first, n);
    assert d'.pages.Keys == d.pages.Keys + Range(first, n);
    assert |d'.pages| == |d'.pages.Keys|;
  }

  /** One fill: `n` fresh pages from `cur` hold the image of guest pages `first ..`. */
  ghost predicate FreshFill(m0: Memory, m1: Memory, cur: nat, first: nat, n: nat, segs: seq<Segment>, data: seq<Byte>)
    requires cur + Bytes(n) <= SPACE
  {
    && SameOutside(m0, m1, cur, cur + Bytes(n))
    && forall i {:trigger ByteAt(m1, cur, i)} | 0 <= i < Bytes(n) ::
         ByteAt(m1, cur, i) == ImageByte(segs, data, first * 4096 + i)
  }

  lemma FillPacked(m0: Memory, m1: Memory, d: Directory, pool: nat, cur: nat, first: nat, n: nat)
    requires pool + RAM_SIZE <= SPACE && Packed(m0, d, pool, cur)
    requires first + n <= RAM_PAGES && cur + Bytes(n) <= pool + RAM_SIZE
    requires forall x | first <= x < first + n :: x !in d.pages
    requires SameOutside(m0, m1, cur, cur + Bytes(n))
    ensures Packed(m1, Extended(d, first, cur, n), pool, cur + Bytes(n))
  {
    hide Extended, BlankFrom, FramesPacked, SameOutside;
    ExtendedCount(d, first, cur, n);
    ExtendedRoots(d, first, cur, n);
    StillBlank(m0, m1, cur, cur + Bytes(n), pool + RAM_SIZE);
    FillPages(d, pool, cur, first, n);
  }

  lemma ExtendedCount(d: Directory, first: nat, pa: nat, n: nat)
    requires forall x | first <= x < first + n :: x !in d.pages
    ensures |Extended(d, first, pa, n).pages| == |d.pages| + n
  {
    ExtendedSize(d, first, pa, n);
  }

  lemma ExtendedRoots(d: Directory, first: nat, pa: nat, n: nat)
    requires d.roots <= {0}
    ensures Extended(d, first, pa, n).roots <= {0}
  {
  }

  lemma StillBlank(m0: Memory, m1: Memory, lo: nat, mid: nat, hi: nat)
    requires lo <= mid <= hi <= SPACE && BlankFrom(m0, lo, hi) && SameOutside(m0, m1, lo, mid)
    ensures BlankFrom(m1, mid, hi)
  {
  }

  /** Old frames end below `cur`, the new ones start there and follow each other. */
  lemma FillPages(d: Directory, pool: nat, cur: nat, first: nat, n: nat)
    requires first + n <= RAM_PAGES && pool <= cur && FramesPacked(d, pool, cur)
    ensures FramesPacked(Extended(d, first, cur, n), pool, cur + Bytes(n))
  {
    var d' := Extended(d, first, cur, n);
    assert forall x | x in d'.pages :: 0 in d'.roots;
    hide Extended, RegionPages;
    forall x | x in d'.pages
      ensures x < RAM_PAGES && pool <= d'.pages[x] && d'.pages[x] + 4096 <= cur + Bytes(n)
    {
      ExtendedPage(d, first, cur, n, x);
    }
    forall x, y | x in d'.pages && y in d'.pages && x != y ensures d'.pages[x] != d'.pages[y] {
      ExtendedPage(d, first, cur, n, x);
      ExtendedPage(d, first, cur, n, y);
    }
  }

  lemma FillShows(m0: Memory, m1: Memory, d: Directory, cur: nat, first: nat, n: nat,
                  segs: seq<Segment>, data: seq<Byte>)
    requires Shows(m0, d, segs, data) && forall x | x in d.pages :: d.pages[x] + 4096 <= cur
    requires cur + Bytes(n) <= SPACE && FreshFill(m0, m1, cur, first, n, segs, data)
    ensures Shows(m1, Extended(d, first, cur, n), segs, data)
  {
    var d' := Extended(d, first, cur, n);
    forall x, o | x in d'.pages && 0 <= o < 4096
      ensures PageByte(m1, d', x, o) == ImageByte(segs, data, x * 4096 + o)
    {
      ExtendedPage(d, first, cur, n, x);
      if InRange(first, n, x) {
        FreshByte(m0, m1, d'.pages[x], cur, first, n, x, o, segs, data);
      } else {
        assert d.pages[x] + 4096 <= cur;
        OldByte(m0, m1, d, d', x, o, cur, n);
        assert PageByte(m0, d, x, o) == ImageByte(segs, data, x * 4096 + o);
      }
    }
  }

  lemma ExtendedPage(d: Directory, first: nat, pa: nat, n: nat, x: nat)
    requires x in Extended(d, first, pa, n).pages
    ensures var f := Extended(d, first, pa, n).pages[x];
            if InRange(first, n, x) then f == FrameAt(first, pa, x) else x in d.pages && f == d.pages[x]
  {
    assert x in RegionPages(first, pa, n) <==> InRange(first, n, x);
  }

  lemma OldByte(m0: Memory, m1: Memory, d: Directory, d': Directory, x: nat, o: nat, cur: nat, n: nat)
    requires x in d.pages && x in d'.pages && d'.pages[x] == d.pages[x] && o < 4096
    requires d.pages[x] + 4096 <= cur <= SPACE && SameOutside(m0, m1, cur, cur + Bytes(n))
    ensures PageByte(m1, d', x, o) == PageByte(m0, d, x, o)
  {
  }

  lemma FreshByte(m0: Memory, m1: Memory, frame: nat, cur: nat, first: nat, n: nat, x: nat, o: nat,
                  segs: seq<Segment>, data: seq<Byte>)
    requires cur + Bytes(n) <= SPACE && FreshFill(m0, m1, cur, first, n, segs, data)
    requires first <= x < first + n && o < 4096 && frame == FrameAt(first, cur, x)
    ensures frame + o < SPACE && m1[frame + o] == ImageByte(segs, data, x * 4096 + o)
  {
    var i := (x - first) * 4096 + o;
    assert ByteAt(m1, cur, i) == ImageByte(segs, data, first * 4096 + i);
  }

  /** Nothing loaded depends on memory outside the pool. */
  lemma OutsidePool(m: Memory, m': Memory, d: Directory, pool: nat, cur: nat, segs: seq<Segment>, data: seq<Byte>)
    requires pool + RAM_SIZE <= SPACE && Packed(m, d, pool, cur) && Shows(m, d, segs, data) && cur <= pool + RAM_SIZE
    requires forall a {:trigger m'[a]} | pool <= a < pool + RAM_SIZE :: m'[a] == m[a]
    ensures Packed(m', d, pool, cur) && Shows(m', d, segs, data)
  {
    forall x, o | x in d.pages && 0 <= o < 4096
      ensures PageByte(m', d, x, o) == ImageByte(segs, data, x * 4096 + o)
    {
      assert PageByte(m, d, x, o) == ImageByte(segs, data, x * 4096 + o);
    }
  }

  // ----- fill calls as loading steps

  /** One run of the loader: the directory, the pool of pages, and the file. */
  datatype Job = Job(root: nat, pool: nat, segs: seq<Segment>, data: seq<Byte>)

  const RAM: MemoryRegion := MemoryRegion(0, 512)

  /** Directory and pool lie apart, and the segments are page disjoint with file sizes in bounds. */
  ghost predicate JobOk(j: Job) {
    && RootOk(j.root) && j.pool + RAM_SIZE <= SPACE
    && OutsideDirectory(j.root, j.pool, j.pool + RAM_SIZE)
    && PageDisjoint(j.segs) && FileFits(j.segs)
  }

  /** Guest pages `keys` are loaded, from pool pages below `cur`. */
  ghost predicate Loaded(m: Memory, j: Job, cur: nat, keys: set<nat>)
    requires JobOk(j)
  {
    && Shape(m, j.root)
    && View(m, j.root).pages.Keys == keys
    && Packed(m, View(m, j.root), j.pool, cur)
    && Shows(m, View(m, j.root), j.segs, j.data)
    && Flagged(View(m, j.root), Leaves(m, j.root), PERMS)
  }

  ghost predicate Guest(t: Option<Tvm>, j: Job) {
    t.Some? && t.value.id == TVM_ID && t.value.pageTable == j.root && t.value.regions == [RAM]
  }

  /** The guest while it is being loaded. */
  ghost predicate Filling(t: Option<Tvm>, j: Job) {
    Guest(t, j) && t.value.state.Initializing?
  }

  // ----- what the loader answers

  /** Answer to a measured fill of guest pages `first .. first + n` from pool address `cur`. */
  function MeasuredFill(blocks: seq<Block>, cur: nat, first: nat, n: nat): Verdict {
    if cur % 4096 != 0 then Reject
    else if first * 4096 + Bytes(n) >= SPACE then Stop
    else if first + n > RAM_PAGES then Reject
    else if cur + Bytes(n) >= SPACE then Stop
    else PoolVerdict(blocks, TVM_ID, cur, cur + Bytes(n))
  }

  function ZeroFill(blocks: seq<Block>, cur: nat, first: nat, n: nat): Verdict {
    if cur % 4096 != 0 then Reject
    else if cur + Bytes(n) >= SPACE then Stop
    else if PoolVerdict(blocks, TVM_ID, cur, cur + Bytes(n)) != Accept then PoolVerdict(blocks, TVM_ID, cur, cur + Bytes(n))
    else if first * 4096 + Bytes(n) >= SPACE then Stop
    else if first + n > RAM_PAGES then Reject
    else Accept
  }

  function FilePages(s: Segment): nat {
    if s.filesz > 0 then MeasuredPages(s) else 0
  }

  function ZeroPages(s: Segment): nat {
    if s.memsz > s.filesz && TotalPages(s) > MeasuredPages(s) then TotalPages(s) - MeasuredPages(s) else 0
  }

  /** Answer to the file part, with a file of `size` bytes; `scratch` says whether the heap gave a scratchpad. */
  function FileVerdict(blocks: seq<Block>, s: Segment, size: nat, scratch: bool, cur: nat): Verdict {
    if s.vaddr % 4096 + s.filesz + 4095 >= SPACE then Stop
    else if s.filesz == 0 then Accept
    else if Bytes(MeasuredPages(s)) > MAX_LAYOUT then Stop
    else if !scratch then Reject
    else if s.offset + s.filesz > size then Stop
    else MeasuredFill(blocks, cur, FirstPage(s), MeasuredPages(s))
  }

  function BssVerdict(blocks: seq<Block>, s: Segment, cur: nat): Verdict {
    if s.memsz <= s.filesz then Accept
    else if s.vaddr % 4096 + s.memsz + 4095 >= SPACE then Stop
    else if ZeroPages(s) == 0 then Accept
    else if (FirstPage(s) + MeasuredPages(s)) * 4096 >= SPACE then Stop
    else ZeroFill(blocks, cur, FirstPage(s) + MeasuredPages(s), ZeroPages(s))
  }

  function SegmentVerdict(blocks: seq<Block>, s: Segment, size: nat, scratch: bool, cur: nat): Verdict {
    var file, bss := FileVerdict(blocks, s, size, scratch, cur), BssVerdict(blocks, s, cur + Bytes(FilePages(s)));
    if file != Accept then file
    else if bss != Accept then bss
    else if s.vaddr % 4096 + s.memsz + 4095 >= SPACE || SegmentEnd(s) >= SPACE then Stop
    else Accept
  }

  /** Pool address behind the pages of the first `k` segments. */
  function CurAt(segs: seq<Segment>, pool: nat, k: nat): nat
    requires k <= |segs|
  {
    if k == 0 then pool else CurAt(segs, pool, k - 1) + Bytes(FilePages(segs[k - 1])) + Bytes(ZeroPages(segs[k - 1]))
  }

  /** Answer to the first `k` segments. */
  function SegmentsVerdict(blocks: seq<Block>, segs: seq<Segment>, size: nat, heap: seq<Option<Usize>>, pool: nat, k: nat): Verdict
    requires k <= |segs| == |heap|
  {
    if k == 0 then Accept
    else
      var before := SegmentsVerdict(blocks, segs, size, heap, pool, k - 1);
      if before != Accept then before
      else SegmentVerdict(blocks, segs[k - 1], size, heap[k - 1].Some?, CurAt(segs, pool, k - 1))
  }

  /** Answer to the mapping of the RAM above the segments. */
  function TailVerdict(blocks: seq<Block>, segs: seq<Segment>, pool: nat): Verdict {
    var highest := HighestEnd(segs);
    if highest < RAM_SIZE then ZeroFill(blocks, CurAt(segs, pool, |segs|), highest / 4096, (RAM_SIZE - highest) / 4096)
    else Accept
  }

  /** Answer to a whole load. */
  function LoadVerdict(s: Snapshot, segs: seq<Segment>, size: nat, pt: nat, st: nat, pool: nat, heap: seq<Option<Usize>>): Verdict
    requires |segs| == |heap|
  {
    var blocks := Owned(s.blocks, pt, st);
    if CreateVerdict(s, pt, st) != Accept then CreateVerdict(s, pt, st)
    else if SegmentsVerdict(blocks, segs, size, heap, pool, |segs|) != Accept
    then SegmentsVerdict(blocks, segs, size, heap, pool, |segs|)
    else TailVerdict(blocks, segs, pool)
  }

  lemma {:induction false} FailureStays(blocks: seq<Block>, segs: seq<Segment>, size: nat, heap: seq<Option<Usize>>, pool: nat,
                                        k: nat, n: nat)
    requires k <= n <= |segs| == |heap| && SegmentsVerdict(blocks, segs, size, heap, pool, k) != Accept
    ensures SegmentsVerdict(blocks, segs, size, heap, pool, n) == SegmentsVerdict(blocks, segs, size, heap, pool, k)
    decreases n - k
  {
    if k < n {
      FailureStays(blocks, segs, size, heap, pool, k, n - 1);
    }
  }

  lemma RamFits(first: nat, n: nat)
    requires first + n <= RAM_PAGES
    ensures RegionFits(first * 4096, n)
  {
    forall i {:trigger PageAt(first * 4096, i)} | 0 <= i < n ensures Vpn1(PageAt(first * 4096, i)) < 2 {
      assert PageAt(first * 4096, i) == (first + i) * 4096 < 0x20_0000;
    }
  }

  lemma RamCovers(first: nat, n: nat)
    ensures SomeRegionCovers([RAM], first * 4096, first * 4096 + Bytes(n)) <==> first + n <= RAM_PAGES
  {
    assert [RAM][0] == RAM;
  }

  /** The fill calls answer exactly that on a guest that is loaded so far. */
  lemma MeasuredFillExact(s: Snapshot, j: Job, cur: nat, keys: set<nat>, src: nat, first: nat, n: nat, s': Snapshot, v: Verdict)
    requires Sane(s) && JobOk(j) && Filling(s.tvm, j) && Loaded(s.mem, j, cur, keys) && keys !! Range(first, n)
    requires MeasuredStep(s, TVM_ID, src, cur, 0, n, first * 4096, s', v) && src + Bytes(n) <= SPACE
    ensures v == MeasuredFill(s.blocks, cur, first, n)
  {
    MeasuredCheck(s, j, cur, src, first, n);
    hide Shape, View, Packed, Shows, RegionMapped, RegionFits, SameOutside, PageDisjoint, FileFits, MeasuredVerdict;
    if MeasuredFill(s.blocks, cur, first, n).Accept? {
      var m1 := Copied(s.mem, src, cur, Bytes(n));
      KeysRoom(s.mem, j, cur, keys, first, n);
      SameTableOutside(s.mem, m1, j.root, cur, cur + Bytes(n));
      RamFits(first, n);
    }
  }

  lemma MeasuredCheck(s: Snapshot, j: Job, cur: nat, src: nat, first: nat, n: nat)
    requires Filling(s.tvm, j) && src + Bytes(n) <= SPACE
    ensures MeasuredVerdict(s, TVM_ID, src, cur, 0, n, first * 4096) == MeasuredFill(s.blocks, cur, first, n)
  {
    RamCovers(first, n);
    hide SomeRegionCovers, PoolVerdict;
  }

  lemma ZeroFillExact(s: Snapshot, j: Job, cur: nat, keys: set<nat>, first: nat, n: nat, s': Snapshot, v: Verdict)
    requires Sane(s) && JobOk(j) && Filling(s.tvm, j) && Loaded(s.mem, j, cur, keys)
    requires ZeroStep(s, TVM_ID, cur, 0, n, first * 4096, s', v)
    ensures v == ZeroFill(s.blocks, cur, first, n)
  {
    ZeroCheck(s, j, cur, first, n);
    hide Shape, View, Packed, Shows, RegionMapped, RegionFits, OutsideDirectory, SameOutside, PageDisjoint,
         FileFits, ZeroVerdict;
    if ZeroFill(s.blocks, cur, first, n).Accept? {
      RamFits(first, n);
    }
  }

  lemma ZeroCheck(s: Snapshot, j: Job, cur: nat, first: nat, n: nat)
    requires Filling(s.tvm, j)
    ensures ZeroVerdict(s, TVM_ID, cur, 0, n, first * 4096) == ZeroFill(s.blocks, cur, first, n)
  {
    RamCovers(first, n);
    hide SomeRegionCovers, PoolVerdict;
  }

  lemma KeysRoom(m: Memory, j: Job, cur: nat, keys: set<nat>, first: nat, n: nat)
    requires JobOk(j) && Loaded(m, j, cur, keys) && keys !! Range(first, n) && first + n <= RAM_PAGES
    ensures cur + Bytes(n) <= j.pool + RAM_SIZE
    ensures forall x | first <= x < first + n :: x !in View(m, j.root).pages
  {
    forall x | first <= x < first + n ensures x !in View(m, j.root).pages {
      assert InRange(first, n, x);
    }
    RoomFor(m, View(m, j.root), j.pool, cur, first, n);
  }

  /** A store into the pool followed by the mapping of its pages. */
  lemma FillLoads(m0: Memory, m1: Memory, m2: Memory, j: Job, cur: nat, keys: set<nat>, first: nat, n: nat)
    requires JobOk(j) && Loaded(m0, j, cur, keys) && keys !! Range(first, n)
    requires first + n <= RAM_PAGES && cur % 4096 == 0 && cur + Bytes(n) <= j.pool + RAM_SIZE
    requires FreshFill(m0, m1, cur, first, n, j.segs, j.data)
    requires RegionMapped(m1, m2, j.root, first * 4096, cur, n, PERMS)
    ensures Loaded(m2, j, cur + Bytes(n), keys + Range(first, n))
  {
    LoadedFlagged(m0, j, cur, keys);
    hide Shape, View, Packed, Shows, Extended, Range, JobOk, Loaded, FreshFill, RegionMapped, Leaves, Flagged;
    FillPool(m0, m1, j, cur, keys, first, n);
    FillMapped(m0, m1, m2, j, cur, keys, first, n);
  }

  lemma LoadedFlagged(m: Memory, j: Job, cur: nat, keys: set<nat>)
    requires JobOk(j) && Loaded(m, j, cur, keys)
    ensures Flagged(View(m, j.root), Leaves(m, j.root), PERMS)
  {
  }

  /** The store alone: the pool holds the image of the new pages too, the directory is as before. */
  lemma FillPool(m0: Memory, m1: Memory, j: Job, cur: nat, keys: set<nat>, first: nat, n: nat)
    requires JobOk(j) && Loaded(m0, j, cur, keys) && keys !! Range(first, n)
    requires first + n <= RAM_PAGES && cur + Bytes(n) <= j.pool + RAM_SIZE
    requires FreshFill(m0, m1, cur, first, n, j.segs, j.data)
    ensures View(m1, j.root) == View(m0, j.root) && Leaves(m1, j.root) == Leaves(m0, j.root)
    ensures var d' := Extended(View(m0, j.root), first, cur, n);
            && Packed(m1, d', j.pool, cur + Bytes(n)) && Shows(m1, d', j.segs, j.data)
            && d'.pages.Keys == keys + Range(first, n)
  {
    hide Shape, View, Shows, Extended, Range, BlankFrom, Leaves, Flagged;
    var d := View(m0, j.root);
    KeysRoom(m0, j, cur, keys, first, n);
    SameTableOutside(m0, m1, j.root, cur, cur + Bytes(n));
    FillPacked(m0, m1, d, j.pool, cur, first, n);
    FillShows(m0, m1, d, cur, first, n, j.segs, j.data);
    ExtendedSize(d, first, cur, n);
  }

  /** The mapping after it. */
  lemma FillMapped(m0: Memory, m1: Memory, m2: Memory, j: Job, cur: nat, keys: set<nat>, first: nat, n: nat)
    requires JobOk(j) && first + n <= RAM_PAGES && cur % 4096 == 0 && cur + Bytes(n) <= j.pool + RAM_SIZE
    requires RegionMapped(m1, m2, j.root, first * 4096, cur, n, PERMS)
    requires View(m1, j.root) == View(m0, j.root) && Flagged(View(m1, j.root), Leaves(m1, j.root), PERMS)
    requires var d' := Extended(View(m0, j.root), first, cur, n);
             && Packed(m1, d', j.pool, cur + Bytes(n)) && Shows(m1, d', j.segs, j.data)
             && d'.pages.Keys == keys + Range(first, n)
    ensures Loaded(m2, j, cur + Bytes(n), keys + Range(first, n))
  {
    hide Shape, View, Packed, Shows, Extended, Range, RegionOps, Apply, Leaves, Flagged, WrittenLeaves;
    RamFits(first, n);
    FlaggedRegion(View(m1, j.root), Leaves(m1, j.root), first * 4096, cur, n, PERMS);
    FillView(m1, m2, j.root, first, cur, n);
    OutsidePool(m1, m2, Extended(View(m0, j.root), first, cur, n), j.pool, cur + Bytes(n), j.segs, j.data);
  }

  lemma FillView(m1: Memory, m2: Memory, root: nat, first: nat, cur: nat, n: nat)
    requires RootOk(root) && RegionMapped(m1, m2, root, first * 4096, cur, n, PERMS)
    requires first + n <= RAM_PAGES && cur % 4096 == 0
    ensures View(m2, root) == Extended(View(m1, root), first, cur, n)
  {
    assert first * 4096 % 4096 == 0 && first * 4096 / 4096 == first;
    RegionApplied(View(m1, root), first * 4096, cur, n, PERMS);
  }

  lemma InRam(t: Tvm, first: nat, n: nat)
    requires t.regions == [RAM] && SomeRegionCovers(t.regions, first * 4096, first * 4096 + Bytes(n))
    ensures first + n <= RAM_PAGES
  {
  }

  lemma MeasuredLoads(s: Snapshot, j: Job, cur: nat, keys: set<nat>, src: nat, first: nat, n: nat, s': Snapshot)
    requires Sane(s) && JobOk(j) && Filling(s.tvm, j) && Loaded(s.mem, j, cur, keys) && keys !! Range(first, n)
    requires MeasuredStep(s, TVM_ID, src, cur, 0, n, first * 4096, s', Accept)
    requires src + Bytes(n) <= j.pool || j.pool + RAM_SIZE <= src
    requires src + Bytes(n) <= SPACE
    requires forall i {:trigger ByteAt(s.mem, src, i)} | 0 <= i < Bytes(n) ::
               ByteAt(s.mem, src, i) == ImageByte(j.segs, j.data, first * 4096 + i)
    ensures Filling(s'.tvm, j) && Loaded(s'.mem, j, cur + Bytes(n), keys + Range(first, n))
  {
    FillInRam(s, j, cur, src, first, n, s');
    KeysRoom(s.mem, j, cur, keys, first, n);
    hide Loaded, JobOk, View, Shape, Leaves, RegionMapped;
    var m1 := Copied(s.mem, src, cur, Bytes(n));
    forall i | 0 <= i < Bytes(n) ensures ByteAt(m1, cur, i) == ImageByte(j.segs, j.data, first * 4096 + i) {
      assert ByteAt(s.mem, src, i) == ImageByte(j.segs, j.data, first * 4096 + i);
    }
    SameTableOutside(s.mem, m1, j.root, cur, cur + Bytes(n));
    FillLoads(s.mem, m1, s'.mem, j, cur, keys, first, n);
  }

  lemma ZeroLoads(s: Snapshot, j: Job, cur: nat, keys: set<nat>, first: nat, n: nat, s': Snapshot)
    requires Sane(s) && JobOk(j) && Filling(s.tvm, j) && Loaded(s.mem, j, cur, keys) && keys !! Range(first, n)
    requires ZeroStep(s, TVM_ID, cur, 0, n, first * 4096, s', Accept)
    requires Blank(j, first, n)
    ensures Filling(s'.tvm, j) && Loaded(s'.mem, j, cur + Bytes(n), keys + Range(first, n))
  {
    InRam(s.tvm.value, first, n);
    KeysRoom(s.mem, j, cur, keys, first, n);
    ZeroFresh(s.mem, j, cur, j.pool + RAM_SIZE, first, n);
    FillLoads(s.mem, s.mem, s'.mem, j, cur, keys, first, n);
  }

  lemma ZeroRecord(s: Snapshot, id: nat, base: nat, ty: nat, n: nat, gpa: nat, s': Snapshot)
    requires Sane(s) && ZeroStep(s, id, base, ty, n, gpa, s', Accept)
    ensures s'.tvm == s.tvm && s'.blocks == s.blocks && base + Bytes(n) < SPACE
  {
  }

  lemma ZeroFresh(m: Memory, j: Job, cur: nat, hi: nat, first: nat, n: nat)
    requires cur + Bytes(n) <= hi <= SPACE && BlankFrom(m, cur, hi)
    requires Blank(j, first, n)
    ensures FreshFill(m, m, cur, first, n, j.segs, j.data)
  {
    forall i | 0 <= i < Bytes(n) ensures ByteAt(m, cur, i) == ImageByte(j.segs, j.data, first * 4096 + i) {
      var x, o := first + i / 4096, i % 4096;
      assert ImageAt(j, x, o) == 0;
      assert first * 4096 + i == x * 4096 + o;
    }
  }

  ghost function ImageAt(j: Job, x: nat, o: nat): Byte {
    ImageByte(j.segs, j.data, x * 4096 + o)
  }

  /** The image has no content on `n` pages from `first` on. */
  ghost predicate Blank(j: Job, first: nat, n: nat) {
    forall x, o {:trigger ImageAt(j, x, o)} | first <= x < first + n && 0 <= o < 4096 :: ImageAt(j, x, o) == 0
  }

  // ----- what the loader measures

  /** The image on `n` pages from `first` on. */
  ghost function PagesImage(j: Job, first: nat, n: nat): seq<Byte> {
    seq<Byte>(Bytes(n), i requires 0 <= i < Bytes(n) => ImageByte(j.segs, j.data, first * 4096 + i))
  }

  /** The image on the pages that hold file bytes of the segment. */
  ghost function FileImage(j: Job, s: Segment): seq<Byte> {
    if s.filesz > 0 then PagesImage(j, FirstPage(s), MeasuredPages(s)) else []
  }

  /** The same of the first `k` segments, in file order. */
  ghost function FilesImage(j: Job, k: nat): seq<Byte>
    requires k <= |j.segs|
  {
    if k == 0 then [] else FilesImage(j, k - 1) + FileImage(j, j.segs[k - 1])
  }

  /** The record has absorbed `bytes` since it was `t0`, and is otherwise as it was. */
  ghost predicate Absorbed(t0: Option<Tvm>, t: Option<Tvm>, bytes: seq<Byte>) {
    t0.Some? && t == Some(t0.value.(absorbed := t0.value.absorbed + bytes))
  }

  lemma AbsorbedNothing(t: Option<Tvm>)
    requires t.Some?
    ensures Absorbed(t, t, [])
  {
    assert t.value.absorbed + [] == t.value.absorbed;
  }

  lemma AbsorbedMore(t0: Option<Tvm>, t1: Option<Tvm>, t2: Option<Tvm>, a: seq<Byte>, b: seq<Byte>)
    requires Absorbed(t0, t1, a) && Absorbed(t1, t2, b)
    ensures Absorbed(t0, t2, a + b)
  {
    assert t0.value.absorbed + a + b == t0.value.absorbed + (a + b);
  }

  lemma MeasuredAbsorbs(s: Snapshot, j: Job, cur: nat, src: nat, first: nat, n: nat, s': Snapshot)
    requires Sane(s) && MeasuredStep(s, TVM_ID, src, cur, 0, n, first * 4096, s', Accept)
    requires src + Bytes(n) <= SPACE && (src + Bytes(n) <= cur || cur + Bytes(n) <= src)
    requires forall i {:trigger ByteAt(s.mem, src, i)} | 0 <= i < Bytes(n) ::
               ByteAt(s.mem, src, i) == ImageByte(j.segs, j.data, first * 4096 + i)
    ensures Absorbed(s.tvm, s'.tvm, PagesImage(j, first, n))
  {
    hide Filled, ImageByte;
    var m1 := Copied(s.mem, src, cur, Bytes(n));
    var read := m1[src..src + Bytes(n)];
    forall i | 0 <= i < Bytes(n) ensures read[i] == PagesImage(j, first, n)[i] {
      assert ByteAt(s.mem, src, i) == ImageByte(j.segs, j.data, first * 4096 + i);
    }
    assert read == PagesImage(j, first, n);
  }

  // ----- the image of one segment's pages

  ghost predicate SegmentOf(j: Job, k: nat, seg: Segment, data: seq<Byte>) {
    k < |j.segs| && j.segs[k] == seg && j.data == data
  }

  lemma MeasuredImage(j: Job, k: nat, i: nat)
    requires JobOk(j) && k < |j.segs| && j.segs[k].filesz > 0 && i < Bytes(MeasuredPages(j.segs[k]))
    ensures var s := j.segs[k];
            var off := s.vaddr % 4096;
            ImageByte(j.segs, j.data, FirstPage(s) * 4096 + i)
            == if off <= i < off + s.filesz && s.offset + i - off < |j.data| then j.data[s.offset + i - off] else 0
  {
    var s := j.segs[k];
    var g := FirstPage(s) * 4096 + i;
    assert g / 4096 == FirstPage(s) + i / 4096;
    assert InMeasured(s, g / 4096);
    SegmentPages(s, g / 4096);
    ImageOnPage(j.segs, j.data, k, g);
  }

  lemma ZeroImage(j: Job, k: nat, x: nat, o: nat)
    requires JobOk(j) && k < |j.segs| && InZero(j.segs[k], x) && o < 4096
    ensures ImageAt(j, x, o) == 0
  {
    var s := j.segs[k];
    SegmentPages(s, x);
    assert (x * 4096 + o) / 4096 == x;
    ImageOnPage(j.segs, j.data, k, x * 4096 + o);
    PagesMonotone(s.vaddr % 4096 + s.filesz, s.vaddr % 4096 + s.filesz);
  }

  lemma {:induction false} BelowHighest(segs: seq<Segment>, k: nat)
    requires k < |segs|
    ensures SegmentEnd(segs[k]) <= HighestEnd(segs)
  {
    if k < |segs| - 1 {
      BelowHighest(segs[..|segs| - 1], k);
    }
  }

  lemma TailImage(j: Job, x: nat, o: nat)
    requires JobOk(j) && HighestEnd(j.segs) <= x * 4096 && o < 4096
    ensures ImageAt(j, x, o) == 0
    ensures forall k | 0 <= k < |j.segs| :: !Touches(j.segs[k], x)
  {
    var g := x * 4096 + o;
    assert g / 4096 == x;
    forall k | 0 <= k < |j.segs| ensures !Touches(j.segs[k], x) && !InFile(j.segs[k], g) {
      BelowHighest(j.segs, k);
      SegmentPages(j.segs[k], x);
      if InFile(j.segs[k], g) {
        TouchedByFile(j.segs[k], g);
      }
    }
    ImageElsewhere(j.segs, j.data, g);
  }

  // ----- the loader

  ghost function MeasuredRange(s: Segment): set<nat> {
    if s.filesz > 0 then Range(FirstPage(s), MeasuredPages(s)) else {}
  }

  ghost function ZeroRange(s: Segment): set<nat> {
    if s.memsz > s.filesz && TotalPages(s) > MeasuredPages(s)
    then Range(FirstPage(s) + MeasuredPages(s), TotalPages(s) - MeasuredPages(s)) else {}
  }

  /** A scratchpad of the TSM heap lies apart from the page directory and from the pool. */
  ghost predicate ScratchApart(j: Job, scratch: nat, n: nat) {
    && (scratch + n <= j.pool || j.pool + RAM_SIZE <= scratch)
    && OutsideDirectory(j.root, scratch, scratch + n)
  }

  lemma ScratchKeepsLoaded(m: Memory, m': Memory, j: Job, cur: nat, keys: set<nat>, scratch: nat, n: nat)
    requires JobOk(j) && Loaded(m, j, cur, keys) && ScratchApart(j, scratch, n) && SameOutside(m, m', scratch, scratch + n)
    ensures Loaded(m', j, cur, keys)
  {
    SameTableOutside(m, m', j.root, scratch, scratch + n);
    KeysRoom(m, j, cur, keys, 0, 0);
    OutsidePool(m, m', View(m, j.root), j.pool, cur, j.segs, j.data);
  }

  const MAX_LAYOUT: nat := 0x7fff_ffff_ffff_f000

  /** Scratchpad holding `file` at offset `off`, zero elsewhere. */
  ghost predicate Staged(m: Memory, scratch: nat, n: nat, off: nat, file: seq<Byte>)
    requires scratch + n <= SPACE
  {
    forall i {:trigger ByteAt(m, scratch, i)} | 0 <= i < n ::
      ByteAt(m, scratch, i) == if off <= i < off + |file| then file[i - off] else 0
  }

  method StageFile(ram: Ram, scratch: nat, n: nat, off: nat, file: seq<Byte>)
    requires scratch + n <= SPACE && off + |file| <= n
    modifies ram
    ensures Staged(ram.bytes, scratch, n, off, file)
    ensures SameOutside(old(ram.bytes), ram.bytes, scratch, scratch + n)
  {
    ram.Zero(scratch, n);
    ram.bytes := Patch(ram.bytes, scratch + off, file);
  }

  lemma StagedImage(m: Memory, j: Job, k: nat, scratch: nat)
    requires JobOk(j) && k < |j.segs| && j.segs[k].filesz > 0 && j.segs[k].offset + j.segs[k].filesz <= |j.data|
    requires scratch + Bytes(MeasuredPages(j.segs[k])) <= SPACE
    requires var s := j.segs[k];
             Staged(m, scratch, Bytes(MeasuredPages(s)), s.vaddr % 4096, j.data[s.offset..s.offset + s.filesz])
    ensures forall i {:trigger ByteAt(m, scratch, i)} | 0 <= i < Bytes(MeasuredPages(j.segs[k])) ::
              ByteAt(m, scratch, i) == ImageByte(j.segs, j.data, FirstPage(j.segs[k]) * 4096 + i)
  {
    forall i | 0 <= i < Bytes(MeasuredPages(j.segs[k]))
      ensures ByteAt(m, scratch, i) == ImageByte(j.segs, j.data, FirstPage(j.segs[k]) * 4096 + i)
    {
      MeasuredImage(j, k, i);
    }
  }

  lemma FileLoaded(m0: Memory, s: Snapshot, j: Job, k: nat, cur: nat, keys: set<nat>, scratch: nat, s': Snapshot)
    requires JobOk(j) && k < |j.segs| && j.segs[k].filesz > 0 && j.segs[k].offset + j.segs[k].filesz <= |j.data|
    requires var n := Bytes(MeasuredPages(j.segs[k]));
             && scratch + n <= SPACE && ScratchApart(j, scratch, n) && SameOutside(m0, s.mem, scratch, scratch + n)
             && Staged(s.mem, scratch, n, j.segs[k].vaddr % 4096,
                       j.data[j.segs[k].offset..j.segs[k].offset + j.segs[k].filesz])
    requires Sane(s) && Filling(s.tvm, j) && Loaded(m0, j, cur, keys) && keys !! MeasuredRange(j.segs[k])
    requires MeasuredStep(s, TVM_ID, scratch, cur, 0, MeasuredPages(j.segs[k]), FirstPage(j.segs[k]) * 4096, s', Accept)
    ensures Loaded(s'.mem, j, cur + Bytes(MeasuredPages(j.segs[k])), keys + MeasuredRange(j.segs[k]))
    ensures Absorbed(s.tvm, s'.tvm, FileImage(j, j.segs[k]))
  {
    hide Loaded, JobOk, Filling, PagesFor, ImageByte, PagesImage, Absorbed;
    StagedImage(s.mem, j, k, scratch);
    StagedLoads(m0, s, j, cur, keys, scratch, FirstPage(j.segs[k]), MeasuredPages(j.segs[k]), s');
  }

  lemma StagedLoads(m0: Memory, s: Snapshot, j: Job, cur: nat, keys: set<nat>, scratch: nat, first: nat, n: nat, s': Snapshot)
    requires JobOk(j) && scratch + Bytes(n) <= SPACE && ScratchApart(j, scratch, Bytes(n))
    requires SameOutside(m0, s.mem, scratch, scratch + Bytes(n))
    requires Sane(s) && Filling(s.tvm, j) && Loaded(m0, j, cur, keys) && keys !! Range(first, n)
    requires MeasuredStep(s, TVM_ID, scratch, cur, 0, n, first * 4096, s', Accept)
    requires forall i {:trigger ByteAt(s.mem, scratch, i)} | 0 <= i < Bytes(n) ::
               ByteAt(s.mem, scratch, i) == ImageByte(j.segs, j.data, first * 4096 + i)
    ensures Loaded(s'.mem, j, cur + Bytes(n), keys + Range(first, n)) && Absorbed(s.tvm, s'.tvm, PagesImage(j, first, n))
  {
    hide Loaded, ImageByte, PagesImage, Absorbed, MeasuredStep, Filling, JobOk, Sane, SameOutside, OutsideDirectory;
    ScratchKeepsLoaded(m0, s.mem, j, cur, keys, scratch, Bytes(n));
    MeasuredLoads(s, j, cur, keys, scratch, first, n, s');
    FillInRam(s, j, cur, scratch, first, n, s');
    KeysRoom(s.mem, j, cur, keys, first, n);
    PoolFrom(s.mem, j, cur, keys);
    MeasuredAbsorbs(s, j, cur, scratch, first, n, s');
  }

  lemma FillInRam(s: Snapshot, j: Job, cur: nat, src: nat, first: nat, n: nat, s': Snapshot)
    requires Sane(s) && Filling(s.tvm, j) && MeasuredStep(s, TVM_ID, src, cur, 0, n, first * 4096, s', Accept)
    ensures first + n <= RAM_PAGES
  {
    hide Filled;
    InRam(s.tvm.value, first, n);
  }

  lemma PoolFrom(m: Memory, j: Job, cur: nat, keys: set<nat>)
    requires JobOk(j) && Loaded(m, j, cur, keys)
    ensures j.pool <= cur
  {
  }

  lemma FileInPages(seg: Segment)
    ensures seg.vaddr % 4096 + seg.filesz <= Bytes(MeasuredPages(seg))
  {
  }

  /** What the loader has established before segment `k`, when the job meets its assumptions. */
  ghost predicate Ready(s: Snapshot, j: Job, k: nat, seg: Segment, data: seq<Byte>, cur: nat, keys: set<nat>) {
    JobOk(j) && SegmentOf(j, k, seg, data) && Filling(s.tvm, j) && Loaded(s.mem, j, cur, keys)
  }

  lemma MeasureFileLoads(s0: Snapshot, s: Snapshot, j: Job, k: nat, seg: Segment, data: seq<Byte>, cur: nat, keys: set<nat>,
                         scratch: nat, s': Snapshot)
    requires Sane(s) && seg.filesz > 0 && seg.offset + seg.filesz <= |data|
    requires var n := Bytes(MeasuredPages(seg));
             && scratch + n <= SPACE && SameOutside(s0.mem, s.mem, scratch, scratch + n) && s.tvm == s0.tvm
             && Staged(s.mem, scratch, n, seg.vaddr % 4096, data[seg.offset..seg.offset + seg.filesz])
    requires MeasuredStep(s, TVM_ID, scratch, cur, 0, MeasuredPages(seg), FirstPage(seg) * 4096, s', Accept)
    ensures cur + Bytes(MeasuredPages(seg)) < SPACE && s'.blocks == s.blocks
    ensures Filling(s0.tvm, j) ==> Filling(s'.tvm, j)
    ensures Ready(s0, j, k, seg, data, cur, keys) && keys !! MeasuredRange(seg)
            && ScratchApart(j, scratch, Bytes(MeasuredPages(seg)))
            ==> Loaded(s'.mem, j, cur + Bytes(MeasuredPages(seg)), keys + MeasuredRange(seg))
                && Absorbed(s0.tvm, s'.tvm, FileImage(j, seg))
  {
    if Ready(s0, j, k, seg, data, cur, keys) && keys !! MeasuredRange(seg) && ScratchApart(j, scratch, Bytes(MeasuredPages(seg))) {
      FileLoaded(s0.mem, s, j, k, cur, keys, scratch, s');
    }
  }

  lemma MeasureFileAnswers(s0: Snapshot, s: Snapshot, j: Job, k: nat, seg: Segment, data: seq<Byte>, cur: nat, keys: set<nat>,
                           scratch: nat, s': Snapshot, v: Verdict)
    requires Sane(s) && seg.filesz > 0
    requires var n := Bytes(MeasuredPages(seg));
             scratch + n <= SPACE && SameOutside(s0.mem, s.mem, scratch, scratch + n) && s.tvm == s0.tvm && s.blocks == s0.blocks
    requires MeasuredStep(s, TVM_ID, scratch, cur, 0, MeasuredPages(seg), FirstPage(seg) * 4096, s', v)
    ensures Ready(s0, j, k, seg, data, cur, keys) && keys !! MeasuredRange(seg)
            && ScratchApart(j, scratch, Bytes(MeasuredPages(seg)))
            ==> v == MeasuredFill(s0.blocks, cur, FirstPage(seg), MeasuredPages(seg))
  {
    hide Loaded, JobOk, Filling, PagesFor, MeasuredStep, MeasuredFill, Range;
    if Ready(s0, j, k, seg, data, cur, keys) && keys !! MeasuredRange(seg) && ScratchApart(j, scratch, Bytes(MeasuredPages(seg))) {
      ScratchKeepsLoaded(s0.mem, s.mem, j, cur, keys, scratch, Bytes(MeasuredPages(seg)));
      MeasuredFillExact(s, j, cur, keys, scratch, FirstPage(seg), MeasuredPages(seg), s', v);
    }
  }

  /** Stages, copies, measures and maps the file bytes of a segment that has some. */
  method MeasureFile(hv: HypervisorState, seg: Segment, data: seq<Byte>, scratch: Usize, cur: Usize,
                     ghost j: Job, ghost k: nat, ghost keys: set<nat>)
    returns (v: Verdict)
    requires hv.Valid() && seg.vaddr < SPACE && seg.filesz > 0 && seg.offset + seg.filesz <= |data|
    requires scratch + Bytes(MeasuredPages(seg)) <= SPACE && MeasuredPages(seg) < SPACE
    modifies hv, hv.ram
    ensures hv.Valid()
    ensures v.Accept? ==> cur + Bytes(MeasuredPages(seg)) < SPACE && hv.confidential == old(hv.confidential)
    ensures old(Filling(hv.tvm, j)) && v.Accept? ==> Filling(hv.tvm, j)
    ensures old(Ready(hv.Snap(), j, k, seg, data, cur, keys)) && keys !! MeasuredRange(seg)
            && ScratchApart(j, scratch, Bytes(MeasuredPages(seg)))
            ==> v == MeasuredFill(old(hv.confidential), cur, FirstPage(seg), MeasuredPages(seg))
    ensures v.Accept? && old(Ready(hv.Snap(), j, k, seg, data, cur, keys)) && keys !! MeasuredRange(seg)
            && ScratchApart(j, scratch, Bytes(MeasuredPages(seg)))
            ==> Loaded(hv.ram.bytes, j, cur + Bytes(MeasuredPages(seg)), keys + MeasuredRange(seg))
                && Absorbed(old(hv.tvm), hv.tvm, FileImage(j, seg))
  {
    var n, off := MeasuredPages(seg), seg.vaddr % 4096;
    ghost var s0 := hv.Snap();
    FileInPages(seg);
    StageFile(hv.ram, scratch, Bytes(n), off, data[seg.offset..seg.offset + seg.filesz]);
    ghost var s := hv.Snap();
    v := hv.AddTvmMeasuredPages(TVM_ID, scratch, cur, 0, n, FirstPage(seg) * 4096);
    MeasureFileAnswers(s0, s, j, k, seg, data, cur, keys, scratch, hv.Snap(), v);
    if v.Accept? {
      MeasureFileLoads(s0, s, j, k, seg, data, cur, keys, scratch, hv.Snap());
    }
  }

  /** The file part of a segment; without file bytes it only counts the pages. */
  method LoadFile(hv: HypervisorState, seg: Segment, data: seq<Byte>, scratch: Option<Usize>, cur: Usize,
                  ghost j: Job, ghost k: nat, ghost keys: set<nat>)
    returns (v: Verdict, next: Usize)
    requires hv.Valid() && seg.vaddr < SPACE
    requires scratch.Some? ==> scratch.value + Bytes(MeasuredPages(seg)) <= SPACE
    modifies hv, hv.ram
    ensures hv.Valid()
    ensures v.Accept? ==> seg.vaddr % 4096 + seg.filesz + 4095 < SPACE
    ensures v.Accept? ==> hv.confidential == old(hv.confidential) && next == cur + Bytes(FilePages(seg))
    ensures old(Filling(hv.tvm, j)) && v.Accept? ==> Filling(hv.tvm, j)
    ensures old(Ready(hv.Snap(), j, k, seg, data, cur, keys)) && keys !! MeasuredRange(seg)
            && (scratch.Some? ==> ScratchApart(j, scratch.value, Bytes(MeasuredPages(seg))))
            ==> v == FileVerdict(old(hv.confidential), seg, |data|, scratch.Some?, cur)
    ensures v.Accept? && old(Ready(hv.Snap(), j, k, seg, data, cur, keys)) && keys !! MeasuredRange(seg)
            && (scratch.Some? ==> ScratchApart(j, scratch.value, Bytes(MeasuredPages(seg))))
            ==> Loaded(hv.ram.bytes, j, next, keys + MeasuredRange(seg)) && Absorbed(old(hv.tvm), hv.tvm, FileImage(j, seg))
  {
    hide Loaded, JobOk, Absorbed, PagesImage;
    next := cur;
    if seg.vaddr % 4096 + seg.filesz + 4095 >= SPACE {
      return Stop, next;
    }
    if seg.filesz == 0 {
      if hv.tvm.Some? {
        AbsorbedNothing(hv.tvm);
      }
      assert keys + MeasuredRange(seg) == keys;
      return Accept, next;
    }
    var n := MeasuredPages(seg);
    if Bytes(n) > MAX_LAYOUT {
      return Stop, next;
    }
    if scratch.None? {
      return Reject, next;
    }
    if seg.offset + seg.filesz > |data| {
      return Stop, next;
    }
    v := MeasureFile(hv, seg, data, scratch.value, cur, j, k, keys);
    if v.Accept? {
      next := cur + Bytes(n);
    }
  }

  lemma BssImage(j: Job, k: nat, first: nat, n: nat)
    requires JobOk(j) && k < |j.segs| && j.segs[k].memsz > j.segs[k].filesz
    requires first == FirstPage(j.segs[k]) + MeasuredPages(j.segs[k])
    requires first + n == FirstPage(j.segs[k]) + TotalPages(j.segs[k])
    ensures Blank(j, first, n)
  {
    forall x, o | first <= x < first + n && 0 <= o < 4096 ensures ImageAt(j, x, o) == 0 {
      assert InZero(j.segs[k], x);
      ZeroImage(j, k, x, o);
    }
  }

  /** Maps `n` pool pages without writing them; they show the image when it is blank there. */
  method MapBlank(hv: HypervisorState, cur: Usize, first: nat, n: Usize, ghost j: Job, ghost keys: set<nat>)
    returns (v: Verdict, next: Usize)
    requires hv.Valid() && first * 4096 < SPACE
    modifies hv, hv.ram
    ensures hv.Valid()
    ensures v.Accept? ==> hv.confidential == old(hv.confidential) && next == cur + Bytes(n) && hv.tvm == old(hv.tvm)
    ensures old(Filling(hv.tvm, j)) && v.Accept? ==> Filling(hv.tvm, j)
    ensures old(JobOk(j) && Filling(hv.tvm, j) && Loaded(hv.ram.bytes, j, cur, keys))
            ==> v == ZeroFill(old(hv.confidential), cur, first, n)
    ensures v.Accept? && old(JobOk(j) && Filling(hv.tvm, j) && Loaded(hv.ram.bytes, j, cur, keys))
            && keys !! Range(first, n) && Blank(j, first, n)
            ==> Loaded(hv.ram.bytes, j, next, keys + Range(first, n))
  {
    hide Loaded, Blank, Range, JobOk, ZeroStep, ZeroFill;
    ghost var s := hv.Snap();
    next := cur;
    v := hv.AddTvmZeroPages(TVM_ID, cur, 0, n, first * 4096);
    if JobOk(j) && Filling(s.tvm, j) && Loaded(s.mem, j, cur, keys) {
      ZeroFillExact(s, j, cur, keys, first, n, hv.Snap(), v);
    }
    if v.Accept? {
      ZeroRecord(s, TVM_ID, cur, 0, n, first * 4096, hv.Snap());
      next := cur + Bytes(n);
      if JobOk(j) && Filling(s.tvm, j) && Loaded(s.mem, j, cur, keys) && keys !! Range(first, n) && Blank(j, first, n) {
        ZeroLoads(s, j, cur, keys, first, n, hv.Snap());
      }
    }
  }

  /** How many pages the zero-filled suffix of a segment needs, and from which page on. */
  method PlanBss(seg: Segment) returns (v: Verdict, first: nat, n: nat)
    requires seg.vaddr < SPACE
    ensures v.Accept? ==> first * 4096 < SPACE && n < SPACE && ZeroRange(seg) == Range(first, n)
    ensures v.Accept? && n > 0 ==> seg.memsz > seg.filesz && first == FirstPage(seg) + MeasuredPages(seg)
                                   && first + n == FirstPage(seg) + TotalPages(seg)
    ensures v.Accept? ==> n == ZeroPages(seg)
    ensures forall blocks, cur :: (v != Accept || n == 0) ==> BssVerdict(blocks, seg, cur) == v
    ensures forall blocks, cur :: v.Accept? && n > 0 ==> BssVerdict(blocks, seg, cur) == ZeroFill(blocks, cur, first, n)
  {
    if seg.memsz <= seg.filesz {
      assert Range(0, 0) == {};
      return Accept, 0, 0;
    }
    if seg.vaddr % 4096 + seg.memsz + 4095 >= SPACE {
      return Stop, 0, 0;
    }
    PagesMonotone(seg.vaddr % 4096 + seg.filesz, seg.vaddr % 4096 + seg.memsz);
    n := TotalPages(seg) - MeasuredPages(seg);
    if n == 0 {
      assert Range(0, 0) == {};
      return Accept, 0, 0;
    }
    first := FirstPage(seg) + MeasuredPages(seg);
    v := if first * 4096 >= SPACE then Stop else Accept;
  }

  /** The zero-filled suffix of a segment. */
  method LoadBss(hv: HypervisorState, seg: Segment, data: seq<Byte>, cur: Usize, ghost j: Job, ghost k: nat, ghost keys: set<nat>)
    returns (v: Verdict, next: Usize)
    requires hv.Valid() && seg.vaddr < SPACE
    modifies hv, hv.ram
    ensures hv.Valid()
    ensures v.Accept? ==> hv.confidential == old(hv.confidential) && next == cur + Bytes(ZeroPages(seg)) && hv.tvm == old(hv.tvm)
    ensures old(Filling(hv.tvm, j)) && v.Accept? ==> Filling(hv.tvm, j)
    ensures old(Ready(hv.Snap(), j, k, seg, data, cur, keys)) ==> v == BssVerdict(old(hv.confidential), seg, cur)
    ensures v.Accept? && old(Ready(hv.Snap(), j, k, seg, data, cur, keys)) && keys !! ZeroRange(seg)
            ==> Loaded(hv.ram.bytes, j, next, keys + ZeroRange(seg))
  {
    next := cur;
    var first, n;
    v, first, n := PlanBss(seg);
    if !v.Accept? {
      return;
    }
    if n == 0 {
      assert Range(first, 0) == {};
      assert keys + {} == keys;
      return;
    }
    if JobOk(j) && SegmentOf(j, k, seg, data) {
      BssImage(j, k, first, n);
    }
    v, next := MapBlank(hv, cur, first, n, j, keys);
  }

  // ----- the whole loader

  ghost predicate LoadedBy(segs: seq<Segment>, k: nat, x: nat) {
    exists i :: 0 <= i < k <= |segs| && Loads(segs[i], x)
  }

  ghost predicate KeysFor(keys: set<nat>, segs: seq<Segment>, k: nat) {
    forall x {:trigger x in keys} :: x in keys <==> x >= 0 && LoadedBy(segs, k, x)
  }

  lemma SegmentRanges(s: Segment, x: nat)
    requires s.filesz <= s.memsz
    ensures x in MeasuredRange(s) <==> InMeasured(s, x)
    ensures x in ZeroRange(s) <==> InZero(s, x)
    ensures x in MeasuredRange(s) + ZeroRange(s) <==> Loads(s, x)
    ensures !(x in MeasuredRange(s) && x in ZeroRange(s))
  {
    SegmentPages(s, x);
    PagesMonotone(s.vaddr % 4096 + s.filesz, s.vaddr % 4096 + s.memsz);
    if s.filesz > 0 {
      assert x in Range(FirstPage(s), MeasuredPages(s)) <==> InRange(FirstPage(s), MeasuredPages(s), x);
    }
    if TotalPages(s) > MeasuredPages(s) {
      var first, n := FirstPage(s) + MeasuredPages(s), TotalPages(s) - MeasuredPages(s);
      assert x in Range(first, n) <==> InRange(first, n, x);
    }
  }

  /** The pages of segment `k` are new, and its two parts do not meet. */
  lemma NewRanges(j: Job, keys: set<nat>, k: nat)
    requires JobOk(j) && k < |j.segs| && KeysFor(keys, j.segs, k)
    ensures keys !! MeasuredRange(j.segs[k]) && (keys + MeasuredRange(j.segs[k])) !! ZeroRange(j.segs[k])
    ensures KeysFor(keys + MeasuredRange(j.segs[k]) + ZeroRange(j.segs[k]), j.segs, k + 1)
  {
    var s := j.segs[k];
    var all := keys + MeasuredRange(s) + ZeroRange(s);
    forall x: nat
      ensures !(x in keys && Loads(s, x))
      ensures x in MeasuredRange(s) + ZeroRange(s) <==> Loads(s, x)
      ensures !(x in MeasuredRange(s) && x in ZeroRange(s))
    {
      SegmentRanges(s, x);
    }
    forall x ensures x in all <==> x >= 0 && LoadedBy(j.segs, k + 1, x) {
      if x >= 0 && LoadedBy(j.segs, k + 1, x) {
        var i :| 0 <= i < k + 1 && Loads(j.segs[i], x);
        if i < k {
          assert LoadedBy(j.segs, k, x);
        }
      }
      if x in all {
        if x in keys {
          var i :| 0 <= i < k && Loads(j.segs[i], x);
        } else {
          assert Loads(j.segs[k], x);
        }
      }
    }
  }

  /** One PT_LOAD segment: file part, zero part, and the end of what is mapped. */
  method LoadSegment(hv: HypervisorState, seg: Segment, data: seq<Byte>, scratch: Option<Usize>, cur: Usize,
                     ghost j: Job, ghost k: nat, ghost keys: set<nat>)
    returns (v: Verdict, next: Usize, end: nat)
    requires hv.Valid() && seg.vaddr < SPACE
    requires scratch.Some? ==> scratch.value + Bytes(MeasuredPages(seg)) <= SPACE
    modifies hv, hv.ram
    ensures hv.Valid()
    ensures v.Accept? ==> end == SegmentEnd(seg) < SPACE && hv.confidential == old(hv.confidential)
    ensures v.Accept? ==> next == cur + Bytes(FilePages(seg)) + Bytes(ZeroPages(seg))
    ensures old(Filling(hv.tvm, j)) && v.Accept? ==> Filling(hv.tvm, j)
    ensures old(Ready(hv.Snap(), j, k, seg, data, cur, keys)) && KeysFor(keys, j.segs, k)
            && (scratch.Some? ==> ScratchApart(j, scratch.value, Bytes(MeasuredPages(seg))))
            ==> v == SegmentVerdict(old(hv.confidential), seg, |data|, scratch.Some?, cur)
    ensures v.Accept? && old(Ready(hv.Snap(), j, k, seg, data, cur, keys)) && KeysFor(keys, j.segs, k)
            && (scratch.Some? ==> ScratchApart(j, scratch.value, Bytes(MeasuredPages(seg))))
            ==> Loaded(hv.ram.bytes, j, next, keys + MeasuredRange(seg) + ZeroRange(seg))
                && KeysFor(keys + MeasuredRange(seg) + ZeroRange(seg), j.segs, k + 1)
                && Absorbed(old(hv.tvm), hv.tvm, FileImage(j, seg))
  {
    hide Absorbed, FileImage, Loaded, KeysFor, MeasuredRange, ZeroRange, FileVerdict, BssVerdict, FilePages, ZeroPages,
         SegmentEnd, JobOk, ScratchApart, Filling;
    end := 0;
    if JobOk(j) && SegmentOf(j, k, seg, data) && KeysFor(keys, j.segs, k) {
      NewRanges(j, keys, k);
    }
    v, next := LoadFile(hv, seg, data, scratch, cur, j, k, keys);
    if !v.Accept? {
      return;
    }
    v, next := LoadBss(hv, seg, data, next, j, k, keys + MeasuredRange(seg));
    if !v.Accept? {
      return;
    }
    if seg.vaddr % 4096 + seg.memsz + 4095 >= SPACE || SegmentEnd(seg) >= SPACE {
      return Stop, next, end;
    }
    end := SegmentEnd(seg);
  }

  /** The guest after a successful eager load: used pool pages end at `used`. */
  ghost predicate EagerlyLoaded(m: Memory, j: Job, used: nat)
    requires JobOk(j)
  {
    && Loaded(m, j, used, View(m, j.root).pages.Keys)
    && (forall x {:trigger x in View(m, j.root).pages} ::
          x in View(m, j.root).pages <==>
          x >= 0 && (LoadedBy(j.segs, |j.segs|, x) || HighestEnd(j.segs) / 4096 <= x < RAM_PAGES))
  }

  lemma FreshTvm(m0: Memory, m: Memory, j: Job)
    requires JobOk(j) && Zeroed(m0, m, j.root, j.root + DIRECTORY_SIZE)
    requires forall a | j.pool <= a < j.pool + RAM_SIZE :: m0[a] == 0
    ensures Loaded(m, j, j.pool, {}) && KeysFor({}, j.segs, 0)
  {
    ZeroIsEmpty(m, j.root);
  }

  lemma {:induction false} HighestAligned(segs: seq<Segment>)
    ensures HighestEnd(segs) % 4096 == 0
  {
    if segs != [] {
      HighestAligned(segs[..|segs| - 1]);
      EndAligned(segs[|segs| - 1]);
      hide SegmentEnd;
    }
  }

  lemma EndAligned(s: Segment)
    ensures SegmentEnd(s) % 4096 == 0
  {
    hide FirstPage, TotalPages;
    var n := FirstPage(s) + TotalPages(s);
    assert SegmentEnd(s) == 4096 * n;
  }

  lemma TailBlank(j: Job, keys: set<nat>, first: nat, n: nat)
    requires JobOk(j) && KeysFor(keys, j.segs, |j.segs|) && HighestEnd(j.segs) == first * 4096
    ensures Blank(j, first, n) && keys !! Range(first, n)
  {
    forall x, o | first <= x < first + n && 0 <= o < 4096 ensures ImageAt(j, x, o) == 0 {
      TailImage(j, x, o);
    }
    forall x | x in Range(first, n) ensures x !in keys {
      TailImage(j, x, 0);
    }
  }

  lemma LoadComplete(m: Memory, j: Job, used: nat, keys: set<nat>, first: nat, n: nat)
    requires JobOk(j) && KeysFor(keys, j.segs, |j.segs|)
    requires Loaded(m, j, used, keys + Range(first, n))
    requires if HighestEnd(j.segs) < RAM_SIZE
             then first == HighestEnd(j.segs) / 4096 && first + n == RAM_PAGES else n == 0
    ensures EagerlyLoaded(m, j, used)
  {
    hide Packed, Shows, JobOk, LoadedBy, HighestEnd, View;
    var all := keys + Range(first, n);
    forall x ensures x in all <==> x >= 0 && (LoadedBy(j.segs, |j.segs|, x) || HighestEnd(j.segs) / 4096 <= x < RAM_PAGES) {
      assert x in Range(first, n) <==> x >= 0 && InRange(first, n, x);
      assert x in keys <==> x >= 0 && LoadedBy(j.segs, |j.segs|, x);
    }
  }

  /** `heap[k]` is where the allocator puts the scratchpad of segment `k`, or nothing when it is full. */
  ghost predicate HeapApart(j: Job, heap: seq<Option<Usize>>) {
    forall k | 0 <= k < |heap| && k < |j.segs| ::
      heap[k].Some? ==> ScratchApart(j, heap[k].value, Bytes(MeasuredPages(j.segs[k])))
  }

  /** The assumptions under which the loader shows the whole image. */
  ghost predicate GoodStart(m: Memory, j: Job, heap: seq<Option<Usize>>) {
    && JobOk(j) && HeapApart(j, heap)
    && forall a {:trigger m[a]} | j.pool <= a < j.pool + RAM_SIZE :: m[a] == 0
  }

  /** Before the first segment: nothing is mapped and the scratchpads lie apart. */
  ghost predicate LoadReady(m: Memory, j: Job, heap: seq<Option<Usize>>) {
    JobOk(j) && HeapApart(j, heap) && Loaded(m, j, j.pool, {}) && KeysFor({}, j.segs, 0)
  }

  /** The guest record: a directory cleared at `pt` and one declared region, the whole RAM. */
  method OpenGuest(hv: HypervisorState, pt: Usize, st: Usize, ghost j: Job, ghost heap: seq<Option<Usize>>) returns (v: Verdict)
    requires hv.Valid() && j.root == pt
    modifies hv, hv.ram
    ensures hv.Valid() && v == CreateVerdict(old(hv.Snap()), pt, st)
    ensures v.Accept? ==> Filling(hv.tvm, j) && hv.tvm.value.absorbed == [] && hv.confidential == Owned(old(hv.confidential), pt, st)
    ensures v.Accept? && old(GoodStart(hv.ram.bytes, j, heap)) ==> Loaded(hv.ram.bytes, j, j.pool, {}) && KeysFor({}, j.segs, 0)
  {
    hide Loaded, KeysFor, CreateVerdict, Owned;
    ghost var m0 := hv.ram.bytes;
    v := hv.CreateTvm(pt, st);
    if !v.Accept? {
      return;
    }
    if GoodStart(m0, j, heap) {
      FreshTvm(m0, hv.ram.bytes, j);
    }
    v := hv.AddTvmMemoryRegion(TVM_ID, 0, RAM_SIZE);
  }

  lemma FillingStarts(t: Option<Tvm>, j: Job)
    requires Filling(t, j)
    ensures Absorbed(t, t, [])
  {
    AbsorbedNothing(t);
  }

  lemma SegmentsStart(j: Job, blocks: seq<Block>, size: nat, heap: seq<Option<Usize>>)
    requires |heap| == |j.segs|
    ensures CurAt(j.segs, j.pool, 0) == j.pool && HighestEnd(j.segs[..0]) == 0 && FilesImage(j, 0) == []
    ensures SegmentsVerdict(blocks, j.segs, size, heap, j.pool, 0) == Accept
  {
  }

  lemma SegmentsNext(j: Job, blocks: seq<Block>, size: nat, heap: seq<Option<Usize>>, k: nat)
    requires k < |j.segs| == |heap|
    ensures var s := j.segs[k];
            && CurAt(j.segs, j.pool, k + 1) == CurAt(j.segs, j.pool, k) + Bytes(FilePages(s)) + Bytes(ZeroPages(s))
            && FilesImage(j, k + 1) == FilesImage(j, k) + FileImage(j, s)
            && HighestEnd(j.segs[..k + 1]) == (if HighestEnd(j.segs[..k]) > SegmentEnd(s) then HighestEnd(j.segs[..k])
                                               else SegmentEnd(s))
            && (SegmentsVerdict(blocks, j.segs, size, heap, j.pool, k) == Accept ==>
                  SegmentsVerdict(blocks, j.segs, size, heap, j.pool, k + 1)
                  == SegmentVerdict(blocks, s, size, heap[k].Some?, CurAt(j.segs, j.pool, k)))
  {
    hide SegmentVerdict, FileImage, FilePages, ZeroPages, SegmentEnd;
    assert j.segs[..k + 1][..k] == j.segs[..k];
  }

  /** All segments in file order. */
  method LoadSegments(hv: HypervisorState, data: seq<Byte>, segs: seq<Segment>, pool: Usize, heap: seq<Option<Usize>>,
                      ghost j: Job)
    returns (v: Verdict, cur: Usize, highest: nat, ghost keys: set<nat>)
    requires hv.Valid() && |heap| == |segs| && Filling(hv.tvm, j) && j.pool == pool && j.segs == segs && j.data == data
    requires forall k | 0 <= k < |segs| :: segs[k].vaddr < SPACE
    requires forall k | 0 <= k < |segs| && heap[k].Some? :: heap[k].value + Bytes(MeasuredPages(segs[k])) <= SPACE
    modifies hv, hv.ram
    ensures hv.Valid() && (v.Accept? ==> Filling(hv.tvm, j) && hv.confidential == old(hv.confidential))
    ensures v.Accept? ==> cur == CurAt(segs, pool, |segs|) && highest == HighestEnd(segs)
    ensures old(LoadReady(hv.ram.bytes, j, heap)) ==> v == SegmentsVerdict(old(hv.confidential), segs, |data|, heap, pool, |segs|)
    ensures v.Accept? && old(LoadReady(hv.ram.bytes, j, heap)) ==>
              Loaded(hv.ram.bytes, j, cur, keys) && KeysFor(keys, segs, |segs|)
              && Absorbed(old(hv.tvm), hv.tvm, FilesImage(j, |segs|))
  {
    hide Absorbed, FileImage, FilesImage, Loaded, KeysFor, SegmentEnd, SegmentVerdict, SegmentsVerdict, CurAt, HighestEnd,
         JobOk, Filling, MeasuredRange, ZeroRange, FilePages, ZeroPages, ScratchApart, Sane, MeasuredPages;
    FillingStarts(hv.tvm, j);
    SegmentsStart(j, hv.confidential, |data|, heap);
    ghost var good, blocks := LoadReady(hv.ram.bytes, j, heap), hv.confidential;
    v, cur, highest, keys := Accept, pool, 0, {};
    var k := 0;
    while k < |segs|
      invariant k <= |segs| && hv.Valid() && Filling(hv.tvm, j) && v.Accept?
      invariant hv.confidential == blocks && cur == CurAt(segs, pool, k) && highest == HighestEnd(segs[..k])
      invariant good ==> SegmentsVerdict(blocks, segs, |data|, heap, pool, k) == Accept
      invariant good ==> Loaded(hv.ram.bytes, j, cur, keys) && KeysFor(keys, segs, k)
      invariant good ==> Absorbed(old(hv.tvm), hv.tvm, FilesImage(j, k))
    {
      var end;
      ghost var t := hv.tvm;
      SegmentsNext(j, blocks, |data|, heap, k);
      v, cur, end := LoadSegment(hv, segs[k], data, heap[k], cur, j, k, keys);
      if !v.Accept? {
        if good {
          FailureStays(blocks, segs, |data|, heap, pool, k + 1, |segs|);
        }
        return;
      }
      if good {
        AbsorbedMore(old(hv.tvm), t, hv.tvm, FilesImage(j, k), FileImage(j, segs[k]));
      }
      keys := keys + MeasuredRange(segs[k]) + ZeroRange(segs[k]);
      highest := if highest > end then highest else end;
      k := k + 1;
    }
    assert segs[..k] == segs;
  }

  /** Zero pages from the highest segment to the end of the RAM. */
  method LoadTail(hv: HypervisorState, cur: Usize, highest: nat, ghost j: Job, ghost keys: set<nat>)
    returns (v: Verdict, ghost used: nat)
    requires hv.Valid() && Filling(hv.tvm, j) && highest == HighestEnd(j.segs) && cur == CurAt(j.segs, j.pool, |j.segs|)
    modifies hv, hv.ram
    ensures hv.Valid() && (v.Accept? ==> hv.tvm == old(hv.tvm))
    ensures old(JobOk(j) && Loaded(hv.ram.bytes, j, cur, keys)) ==> v == TailVerdict(old(hv.confidential), j.segs, j.pool)
    ensures v.Accept? && old(JobOk(j) && Loaded(hv.ram.bytes, j, cur, keys)) && KeysFor(keys, j.segs, |j.segs|) ==>
              EagerlyLoaded(hv.ram.bytes, j, used)
  {
    hide Loaded, KeysFor, EagerlyLoaded, Blank, ZeroFill, JobOk, Filling, HighestEnd, CurAt;
    v, used := Accept, cur;
    HighestAligned(j.segs);
    ghost var good := JobOk(j) && Loaded(hv.ram.bytes, j, cur, keys) && KeysFor(keys, j.segs, |j.segs|);
    if highest < RAM_SIZE {
      var first, n := highest / 4096, (RAM_SIZE - highest) / 4096;
      if good {
        TailBlank(j, keys, first, n);
      }
      var next;
      v, next := MapBlank(hv, cur, first, n, j, keys);
      used := next;
      if good && v.Accept? {
        LoadComplete(hv.ram.bytes, j, next, keys, first, n);
      }
    } else if good {
      assert keys + Range(0, 0) == keys;
      LoadComplete(hv.ram.bytes, j, cur, keys, 0, 0);
    }
  }

  method BootstrapLoadElf(hv: HypervisorState, data: seq<Byte>, segs: seq<Segment>, entry: Usize,
                          pt: Usize, st: Usize, pool: Usize, heap: seq<Option<Usize>>)
    returns (v: Verdict, ghost used: nat)
    requires hv.Valid() && |heap| == |segs|
    requires forall k | 0 <= k < |segs| :: segs[k].vaddr < SPACE
    requires forall k | 0 <= k < |segs| && heap[k].Some? :: heap[k].value + Bytes(MeasuredPages(segs[k])) <= SPACE
    modifies hv, hv.ram
    ensures hv.Valid()
    ensures v.Accept? ==> Guest(hv.tvm, Job(pt, pool, segs, data)) && hv.tvm.value.state.Runnable?
                          && hv.tvm.value.entrySepc == entry && hv.tvm.value.entryArg == 0 && hv.tvm.value.identityAddr == 0
    ensures v.Accept? && GoodStart(old(hv.ram.bytes), Job(pt, pool, segs, data), heap) ==>
              var digest := hv.sha384(FilesImage(Job(pt, pool, segs, data), |segs|));
              hv.measurement == Some(digest) && hv.tvm.value.measure == digest && hv.tvm.value.absorbed == []
    ensures GoodStart(old(hv.ram.bytes), Job(pt, pool, segs, data), heap) ==>
              v == LoadVerdict(old(hv.Snap()), segs, |data|, pt, st, pool, heap)
    ensures v.Accept? && GoodStart(old(hv.ram.bytes), Job(pt, pool, segs, data), heap) ==>
              EagerlyLoaded(hv.ram.bytes, Job(pt, pool, segs, data), used)
  {
    hide FilesImage, Loaded, KeysFor, EagerlyLoaded, CreateVerdict, SegmentsVerdict, TailVerdict, HighestEnd, CurAt, JobOk, Owned;
    ghost var j := Job(pt, pool, segs, data);
    used := pool;
    v := OpenGuest(hv, pt, st, j, heap);
    if !v.Accept? {
      return;
    }
    var cur, highest;
    ghost var keys;
    v, cur, highest, keys := LoadSegments(hv, data, segs, pool, heap, j);
    if !v.Accept? {
      return;
    }
    assert [] + FilesImage(j, |segs|) == FilesImage(j, |segs|);
    v, used := LoadTail(hv, cur, highest, j, keys);
    if !v.Accept? {
      return;
    }
    v := hv.FinalizeTvm(entry, 0, 0);
  }

  // ----- what the guest sees afterwards

  /** Every mapped page reads as the image, byte for byte. */
  lemma EagerBytes(m: Memory, j: Job, used: nat, x: nat, o: nat)
    requires JobOk(j) && EagerlyLoaded(m, j, used) && x in View(m, j.root).pages && o < 4096
    ensures GuestByte(m, j.root, x * 4096 + o) == Some(ImageAt(j, x, o))
  {
    PageSeen(m, j.root, x, o);
    assert PageByte(m, View(m, j.root), x, o) == ImageByte(j.segs, j.data, x * 4096 + o);
  }

  /** Every page of the guest is readable, writable and executable to it. */
  lemma EagerPagesOpen(m: Memory, j: Job, used: nat, g: nat)
    requires JobOk(j) && EagerlyLoaded(m, j, used) && TranslateGpaToPa(m, j.root, g).Some?
    ensures LowPage(g) < LEAVES && OpenLeaf(LeafFor(m, j.root, g)) && UnusedLeaf(LeafFor(m, j.root, g))
  {
    hide TranslateGpaToPa, Packed, Shows, Flagged, PageDisjoint;
    FillLeaf(m, j.root, g);
  }

  lemma PageSeen(m: Memory, root: nat, x: nat, o: nat)
    requires RootOk(root) && Shape(m, root) && x in View(m, root).pages && 0 in View(m, root).roots
    requires x < RAM_PAGES && o < 4096
    ensures GuestByte(m, root, x * 4096 + o) == Some(PageByte(m, View(m, root), x, o))
  {
    hide View, Shape, GuestByte, Vpn2, LowPage;
    FrameInSpace(m, root, x);
    LowPageOf(x, o);
    GuestByteIs(m, root, x * 4096 + o);
  }

  lemma LowPageOf(x: nat, o: nat)
    requires x < RAM_PAGES && o < 4096
    ensures Vpn2(x * 4096 + o) == 0 && LowPage(x * 4096 + o) == x && (x * 4096 + o) % 4096 == o
  {
    assert (x * 4096 + o) / 4096 == x;
  }

  /** Distinct guest pages sit in distinct pool pages. */
  lemma EagerFramesDistinct(m: Memory, j: Job, used: nat, x: nat, y: nat)
    requires JobOk(j) && EagerlyLoaded(m, j, used) && x != y
    requires x in View(m, j.root).pages && y in View(m, j.root).pages
    ensures var p := View(m, j.root).pages;
            p[x] + 4096 <= p[y] || p[y] + 4096 <= p[x]
    ensures used == j.pool + Bytes(|View(m, j.root).pages|) <= j.pool + RAM_SIZE
  {
    FrameInSpace(m, j.root, x);
    FrameInSpace(m, j.root, y);
    var p := View(m, j.root).pages;
    DistinctFrames(p[x], p[y], 0, 0, 4096);
    DistinctFrames(p[y], p[x], 0, 0, 4096);
    KeysRoom(m, j, used, p.Keys, 0, 0);
  }

  function SegmentAddress(s: Segment, i: nat): nat {
    s.vaddr + i
  }

  /** Every byte of segment `k` reads as its file byte, or as zero past the file size. */
  ghost predicate SegmentRight(m: Memory, j: Job, k: nat)
    requires RootOk(j.root) && k < |j.segs|
  {
    var s := j.segs[k];
    forall i {:trigger SegmentAddress(s, i)} | 0 <= i < s.memsz ::
      GuestByte(m, j.root, SegmentAddress(s, i))
      == Some(if i < s.filesz then FileByte(s, j.data, SegmentAddress(s, i)) else 0)
  }

  lemma ByteTouches(s: Segment, i: nat)
    requires i < s.memsz
    ensures Touches(s, (s.vaddr + i) / 4096)
  {
  }

  /** The same by guest address. */
  lemma EagerByteAt(m: Memory, j: Job, used: nat, g: nat)
    requires JobOk(j) && EagerlyLoaded(m, j, used) && g / 4096 in View(m, j.root).pages
    ensures GuestByte(m, j.root, g) == Some(ImageByte(j.segs, j.data, g))
  {
    hide EagerlyLoaded, JobOk, View;
    EagerBytes(m, j, used, g / 4096, g % 4096);
    assert g / 4096 * 4096 + g % 4096 == g;
  }

  lemma ImageOfSegment(j: Job, k: nat, i: nat)
    requires JobOk(j) && k < |j.segs| && i < j.segs[k].memsz
    ensures var s := j.segs[k];
            ImageByte(j.segs, j.data, s.vaddr + i) == if i < s.filesz then FileByte(s, j.data, s.vaddr + i) else 0
  {
    ByteTouches(j.segs[k], i);
    ImageOnPage(j.segs, j.data, k, j.segs[k].vaddr + i);
  }

  /** Which pages end up mapped. */
  lemma EagerPages(m: Memory, j: Job, used: nat, x: nat)
    requires JobOk(j) && EagerlyLoaded(m, j, used)
    ensures x in View(m, j.root).pages <==> LoadedBy(j.segs, |j.segs|, x) || HighestEnd(j.segs) / 4096 <= x < RAM_PAGES
    ensures Shape(m, j.root) && View(m, j.root).roots <= {0}
  {
  }

  lemma SegmentByteRight(m: Memory, j: Job, used: nat, k: nat, i: nat)
    requires JobOk(j) && EagerlyLoaded(m, j, used) && k < |j.segs| && i < j.segs[k].memsz
    requires !Skipped(j.segs[k], (j.segs[k].vaddr + i) / 4096)
    ensures var s := j.segs[k];
            GuestByte(m, j.root, s.vaddr + i) == Some(if i < s.filesz then FileByte(s, j.data, s.vaddr + i) else 0)
  {
    hide EagerlyLoaded, View, ImageByte, FileByte, PageDisjoint;
    var g := j.segs[k].vaddr + i;
    ByteTouches(j.segs[k], i);
    assert Loads(j.segs[k], g / 4096);
    EagerPages(m, j, used, g / 4096);
    EagerByteAt(m, j, used, g);
    ImageOfSegment(j, k, i);
  }

  lemma SkippedPage(j: Job, k: nat)
    requires JobOk(j) && k < |j.segs| && j.segs[k].memsz > 0 && Skipped(j.segs[k], FirstPage(j.segs[k]))
    ensures !LoadedBy(j.segs, |j.segs|, FirstPage(j.segs[k]))
    ensures !(HighestEnd(j.segs) / 4096 <= FirstPage(j.segs[k]))
  {
    var s := j.segs[k];
    ByteTouches(s, 0);
    BelowHighest(j.segs, k);
    HighestAligned(j.segs);
    SegmentPages(s, FirstPage(s));
  }

  lemma UnmappedPage(m: Memory, root: nat, g: nat)
    requires RootOk(root) && Shape(m, root) && View(m, root).roots <= {0}
    requires g < SV39_SPACE && g / 4096 !in View(m, root).pages
    ensures GuestByte(m, root, g) == None
  {
    GuestByteIs(m, root, g);
    if Vpn2(g) == 0 {
      LowPageBelow(g);
    }
  }

  lemma LowPageBelow(g: nat)
    requires g < SV39_SPACE && Vpn2(g) == 0
    ensures LowPage(g) == g / 4096
  {
    GigabyteOfPage(g);
  }

  /** Exactly the segments with file bytes, or at an aligned address, or empty, are loaded right. */
  lemma EagerSegmentExact(m: Memory, j: Job, used: nat, k: nat)
    requires JobOk(j) && EagerlyLoaded(m, j, used) && k < |j.segs|
    requires j.segs[k].vaddr < SV39_SPACE
    ensures SegmentRight(m, j, k)
            <==> j.segs[k].memsz == 0 || j.segs[k].filesz > 0 || j.segs[k].vaddr % 4096 == 0
  {
    hide EagerlyLoaded, View, PageDisjoint, GuestByte, FileByte;
    var s := j.segs[k];
    if s.memsz == 0 || s.filesz > 0 || s.vaddr % 4096 == 0 {
      forall i | 0 <= i < s.memsz
        ensures GuestByte(m, j.root, SegmentAddress(s, i))
                == Some(if i < s.filesz then FileByte(s, j.data, SegmentAddress(s, i)) else 0)
      {
        SegmentByteRight(m, j, used, k, i);
      }
    } else {
      FirstByteLost(m, j, used, k);
      assert SegmentAddress(s, 0) == s.vaddr;
    }
  }

  lemma FirstByteLost(m: Memory, j: Job, used: nat, k: nat)
    requires JobOk(j) && EagerlyLoaded(m, j, used) && k < |j.segs| && j.segs[k].vaddr < SV39_SPACE
    requires j.segs[k].memsz > 0 && j.segs[k].filesz == 0 && j.segs[k].vaddr % 4096 != 0
    ensures GuestByte(m, j.root, j.segs[k].vaddr) == None
  {
    SkippedPage(j, k);
    EagerPages(m, j, used, FirstPage(j.segs[k]));
    UnmappedPage(m, j.root, j.segs[k].vaddr);
  }

  /** All of RAM above the highest segment is mapped and reads zero. */
  lemma EagerTail(m: Memory, j: Job, used: nat, g: nat)
    requires JobOk(j) && EagerlyLoaded(m, j, used) && HighestEnd(j.segs) <= g < RAM_SIZE
    ensures GuestByte(m, j.root, g) == Some(0)
  {
    hide EagerlyLoaded, View, HighestEnd, ImageByte;
    HighestAligned(j.segs);
    EagerPages(m, j, used, g / 4096);
    EagerByteAt(m, j, used, g);
    TailImage(j, g / 4096, g % 4096);
    assert g / 4096 * 4096 + g % 4096 == g;
  }
}
