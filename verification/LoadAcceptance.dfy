/** Which files the eager loader accepts on a monitor that has the memory for a guest. */
module LoadAcceptance {
  import opened Memory
  import opened GuestImage
  import opened PageTable
  import opened Hypervisor
  import opened EagerLoader
  import opened Sets

  // ----- confidential blocks

  /** Every block ends in the address space and is free for the one TVM. */
  predicate Usable(blocks: seq<Block>) {
    forall k | 0 <= k < |blocks| ::
      BlockEnd(blocks[k]) < SPACE && (blocks[k].owner.None? || blocks[k].owner.value == TVM_ID)
  }

  predicate Covered(blocks: seq<Block>, lo: nat, hi: nat) {
    exists k | 0 <= k < |blocks| :: BlockCovers(blocks[k], lo, hi)
  }

  lemma {:induction false} ScanHits(blocks: seq<Block>, i: nat, k: nat, lo: nat, hi: nat)
    requires i <= k < |blocks| && Usable(blocks) && BlockCovers(blocks[k], lo, hi)
    ensures ScanBlocks(blocks, i, lo, hi).Hit?
    decreases |blocks| - i
  {
    if i < k {
      ScanHits(blocks, i + 1, k, lo, hi);
    }
  }

  lemma CoveredHits(blocks: seq<Block>, lo: nat, hi: nat)
    requires Usable(blocks) && Covered(blocks, lo, hi)
    ensures ScanBlocks(blocks, 0, lo, hi).Hit?
  {
    var k :| 0 <= k < |blocks| && BlockCovers(blocks[k], lo, hi);
    ScanHits(blocks, 0, k, lo, hi);
  }

  /** A part of covered memory is granted. */
  lemma PoolGranted(blocks: seq<Block>, lo: nat, hi: nat, from: nat, to: nat)
    requires Usable(blocks) && Covered(blocks, lo, hi) && lo <= from <= to <= hi
    ensures PoolVerdict(blocks, TVM_ID, from, to) == Accept
  {
    var k :| 0 <= k < |blocks| && BlockCovers(blocks[k], lo, hi);
    assert BlockCovers(blocks[k], from, to);
    CoveredHits(blocks, from, to);
  }

  lemma OwnedUsable(blocks: seq<Block>, pt: nat, st: nat, lo: nat, hi: nat)
    requires Usable(blocks) && Covered(blocks, lo, hi)
    ensures Usable(Owned(blocks, pt, st)) && Covered(Owned(blocks, pt, st), lo, hi)
  {
    var k :| 0 <= k < |blocks| && BlockCovers(blocks[k], lo, hi);
    assert BlockCovers(Owned(blocks, pt, st)[k], lo, hi);
  }

  // ----- monitor and file

  /** A monitor without a TVM whose blocks hold a directory, a state page and a pool of 512 pages. */
  predicate HostReady(s: Snapshot, pt: nat, st: nat, pool: nat) {
    && s.tvm.None? && pt % 0x4000 == 0 && pool % 4096 == 0
    && pt + DIRECTORY_SIZE < SPACE && st + PAGE_SIZE < SPACE && (st < pt || st > pt + DIRECTORY_SIZE - 8)
    && Usable(s.blocks)
    && Covered(s.blocks, pt, pt + DIRECTORY_SIZE) && Covered(s.blocks, st, st + PAGE_SIZE)
    && Covered(s.blocks, pool, pool + RAM_SIZE)
  }

  /**
   File bytes exist and have a scratchpad, and the segment ends in the RAM when it fills any page. One that fills
   no page, being empty or all in a first page that is skipped, only has to end in the address space.
   */
  predicate Loadable(s: Segment, size: nat, scratch: bool) {
    && (s.filesz > 0 ==> scratch && s.offset + s.filesz <= size)
    && s.vaddr % 4096 + s.memsz + 4095 < SPACE && SegmentEnd(s) < SPACE
    && (FilePages(s) + ZeroPages(s) > 0 ==> SegmentEnd(s) <= RAM_SIZE)
  }

  lemma PagesSplit(s: Segment)
    requires s.filesz <= s.memsz
    ensures MeasuredPages(s) <= TotalPages(s)
    ensures s.filesz > 0 ==> MeasuredPages(s) > 0
    ensures FilePages(s) + ZeroPages(s) > 0 ==>
              FirstPage(s) + TotalPages(s) == FirstPage(s) + MeasuredPages(s) + ZeroPages(s)
  {
    PagesMonotone(s.vaddr % 4096 + s.filesz, s.vaddr % 4096 + s.memsz);
  }

  /** One segment with room for its pages. */
  lemma SegmentAccepted(blocks: seq<Block>, s: Segment, size: nat, scratch: bool, pool: nat, cur: nat)
    requires s.filesz <= s.memsz && Usable(blocks) && Covered(blocks, pool, pool + RAM_SIZE)
    requires pool <= cur && cur % 4096 == 0
    requires Loadable(s, size, scratch) ==> cur + Bytes(FilePages(s)) + Bytes(ZeroPages(s)) <= pool + RAM_SIZE
    ensures SegmentVerdict(blocks, s, size, scratch, cur) == Accept <==> Loadable(s, size, scratch)
  {
    hide SegmentVerdict, Loadable;
    if Loadable(s, size, scratch) {
      LoadableAccepted(blocks, s, size, scratch, pool, cur);
    }
    if SegmentVerdict(blocks, s, size, scratch, cur) == Accept {
      AcceptedLoadable(blocks, s, size, scratch, cur);
    }
  }

  lemma StillAligned(cur: nat, n: nat)
    requires cur % 4096 == 0
    ensures (cur + Bytes(n)) % 4096 == 0
  {
    assert cur + Bytes(n) == 4096 * (cur / 4096 + n);
  }

  lemma LoadableAccepted(blocks: seq<Block>, s: Segment, size: nat, scratch: bool, pool: nat, cur: nat)
    requires s.filesz <= s.memsz && Usable(blocks) && Covered(blocks, pool, pool + RAM_SIZE)
    requires pool <= cur && cur % 4096 == 0 && Loadable(s, size, scratch)
    requires cur + Bytes(FilePages(s)) + Bytes(ZeroPages(s)) <= pool + RAM_SIZE
    ensures SegmentVerdict(blocks, s, size, scratch, cur) == Accept
  {
    hide FileVerdict, BssVerdict, PagesFor, FirstPage, MeasuredPages, TotalPages, PoolVerdict, Usable, Covered;
    PagesSplit(s);
    var mid := cur + Bytes(FilePages(s));
    StillAligned(cur, FilePages(s));
    PoolInSpace(blocks, pool);
    PoolGranted(blocks, pool, pool + RAM_SIZE, cur, mid);
    PoolGranted(blocks, pool, pool + RAM_SIZE, mid, mid + Bytes(ZeroPages(s)));
    FileAccepted(blocks, s, size, scratch, cur);
    BssAccepted(blocks, s, mid);
  }

  lemma AcceptedLoadable(blocks: seq<Block>, s: Segment, size: nat, scratch: bool, cur: nat)
    requires s.filesz <= s.memsz && cur % 4096 == 0 && SegmentVerdict(blocks, s, size, scratch, cur) == Accept
    ensures Loadable(s, size, scratch)
  {
    hide FileVerdict, BssVerdict, PagesFor, FirstPage, MeasuredPages, TotalPages;
    PagesSplit(s);
    var mid := cur + Bytes(FilePages(s));
    StillAligned(cur, FilePages(s));
    FileAccepted(blocks, s, size, scratch, cur);
    BssAccepted(blocks, s, mid);
  }

  /**
   Of segments with file bytes: without a scratchpad the load is refused, a file that is too short stops the TSM,
   and a segment above the RAM is refused.
   */
  lemma SegmentRefusals(blocks: seq<Block>, s: Segment, size: nat, scratch: bool, cur: nat)
    requires s.filesz > 0 && s.vaddr % 4096 + s.filesz + 4095 < SPACE && Bytes(MeasuredPages(s)) <= 0x7fff_ffff_ffff_f000
    ensures !scratch ==> SegmentVerdict(blocks, s, size, scratch, cur) == Reject
    ensures scratch && s.offset + s.filesz > size ==> SegmentVerdict(blocks, s, size, scratch, cur) == Stop
    ensures scratch && s.offset + s.filesz <= size && cur % 4096 == 0
            && RAM_PAGES < FirstPage(s) + MeasuredPages(s) && (FirstPage(s) + MeasuredPages(s)) * 4096 < SPACE
            ==> SegmentVerdict(blocks, s, size, scratch, cur) == Reject
  {
    hide PagesFor, PoolVerdict, FirstPage, BssVerdict;
  }

  lemma FileAccepted(blocks: seq<Block>, s: Segment, size: nat, scratch: bool, cur: nat)
    requires s.filesz <= s.memsz && cur % 4096 == 0
    ensures FileVerdict(blocks, s, size, scratch, cur) == Accept ==>
              s.filesz > 0 ==> scratch && s.offset + s.filesz <= size && FirstPage(s) + MeasuredPages(s) <= RAM_PAGES
    ensures s.vaddr % 4096 + s.memsz + 4095 < SPACE
            && (s.filesz > 0 ==> && scratch && s.offset + s.filesz <= size && FirstPage(s) + MeasuredPages(s) <= RAM_PAGES
                                 && cur + Bytes(MeasuredPages(s)) < SPACE
                                 && PoolVerdict(blocks, TVM_ID, cur, cur + Bytes(MeasuredPages(s))) == Accept)
            ==> FileVerdict(blocks, s, size, scratch, cur) == Accept
  {
    hide PagesFor, PoolVerdict, FirstPage;
  }

  lemma BssAccepted(blocks: seq<Block>, s: Segment, cur: nat)
    requires s.filesz <= s.memsz && cur % 4096 == 0
    ensures BssVerdict(blocks, s, cur) == Accept && ZeroPages(s) > 0 ==>
              FirstPage(s) + MeasuredPages(s) + ZeroPages(s) <= RAM_PAGES
    ensures s.vaddr % 4096 + s.memsz + 4095 < SPACE
            && (ZeroPages(s) > 0 ==> && FirstPage(s) + MeasuredPages(s) + ZeroPages(s) <= RAM_PAGES
                                     && cur + Bytes(ZeroPages(s)) < SPACE
                                     && PoolVerdict(blocks, TVM_ID, cur, cur + Bytes(ZeroPages(s))) == Accept)
            ==> BssVerdict(blocks, s, cur) == Accept
  {
    hide PagesFor, PoolVerdict, FirstPage;
  }

  lemma PoolInSpace(blocks: seq<Block>, pool: nat)
    requires Usable(blocks) && Covered(blocks, pool, pool + RAM_SIZE)
    ensures pool + RAM_SIZE < SPACE
  {
  }

  // ----- room in the pool

  ghost predicate AllLoadable(segs: seq<Segment>, size: nat, heap: seq<Option<Usize>>, k: nat)
    requires k <= |segs| == |heap|
  {
    forall i | 0 <= i < k :: Loadable(segs[i], size, heap[i].Some?)
  }

  /** The pool address is ahead by one page for each guest page loaded. */
  ghost predicate Counted(j: Job, k: nat, keys: set<nat>)
    requires k <= |j.segs|
  {
    KeysFor(keys, j.segs, k) && keys <= Range(0, RAM_PAGES) && CurAt(j.segs, j.pool, k) == j.pool + Bytes(|keys|)
  }

  lemma RangeSizes(s: Segment)
    ensures |MeasuredRange(s)| == FilePages(s) && |ZeroRange(s)| == ZeroPages(s)
  {
    hide PagesFor, Range;
    RangeSize(FirstPage(s), MeasuredPages(s));
    if TotalPages(s) > MeasuredPages(s) {
      RangeSize(FirstPage(s) + MeasuredPages(s), TotalPages(s) - MeasuredPages(s));
    }
  }

  lemma RangesInRam(s: Segment, size: nat, scratch: bool)
    requires s.filesz <= s.memsz && Loadable(s, size, scratch)
    ensures MeasuredRange(s) <= Range(0, RAM_PAGES) && ZeroRange(s) <= Range(0, RAM_PAGES)
  {
    PagesSplit(s);
    hide PagesFor;
    forall x | x in MeasuredRange(s) + ZeroRange(s) ensures x in Range(0, RAM_PAGES) {
      assert InRange(0, RAM_PAGES, x);
    }
  }

  lemma Room(keys: set<nat>, more: set<nat>)
    requires keys <= Range(0, RAM_PAGES) && more <= Range(0, RAM_PAGES) && keys !! more
    ensures |keys + more| == |keys| + |more| <= RAM_PAGES
  {
    RangeSize(0, RAM_PAGES);
    SubsetSize(keys + more, Range(0, RAM_PAGES));
  }

  lemma CountSegment(j: Job, size: nat, scratch: bool, k: nat, keys: set<nat>) returns (all: set<nat>)
    requires JobOk(j) && k < |j.segs| && Counted(j, k, keys) && Loadable(j.segs[k], size, scratch)
    ensures Counted(j, k + 1, all) && |all| <= RAM_PAGES
  {
    var s := j.segs[k];
    NewRanges(j, keys, k);
    RangesInRam(s, size, scratch);
    RangeSizes(s);
    hide KeysFor, Range, MeasuredRange, ZeroRange, FilePages, ZeroPages, Loadable, PageDisjoint;
    Room(keys, MeasuredRange(s));
    Room(keys + MeasuredRange(s), ZeroRange(s));
    all := keys + MeasuredRange(s) + ZeroRange(s);
  }

  /** By the file's page disjointness the first `k` segments are accepted exactly when each is loadable. */
  lemma {:induction false} SegmentsAccepted(j: Job, blocks: seq<Block>, size: nat, heap: seq<Option<Usize>>, k: nat)
    returns (keys: set<nat>)
    requires JobOk(j) && k <= |j.segs| == |heap| && j.pool % 4096 == 0
    requires Usable(blocks) && Covered(blocks, j.pool, j.pool + RAM_SIZE)
    ensures SegmentsVerdict(blocks, j.segs, size, heap, j.pool, k) == Accept <==> AllLoadable(j.segs, size, heap, k)
    ensures AllLoadable(j.segs, size, heap, k) ==> Counted(j, k, keys)
  {
    hide SegmentVerdict, Loadable, KeysFor, Range, Usable, Covered, FilePages, ZeroPages;
    keys := {};
    if k == 0 {
      NothingLoaded(j);
    } else {
      keys := SegmentsAccepted(j, blocks, size, heap, k - 1);
      if AllLoadable(j.segs, size, heap, k - 1) {
        var s, scratch, before := j.segs[k - 1], heap[k - 1].Some?, keys;
        if Loadable(s, size, scratch) {
          keys := CountSegment(j, size, scratch, k - 1, before);
        }
        SegmentAccepted(blocks, s, size, scratch, j.pool, CurAt(j.segs, j.pool, k - 1));
      }
    }
  }

  lemma NothingLoaded(j: Job)
    ensures Counted(j, 0, {})
  {
  }

  /** On such a monitor a file with page-disjoint segments loads if and only if each segment is loadable. */
  lemma LoadExact(s: Snapshot, j: Job, st: nat, heap: seq<Option<Usize>>)
    requires JobOk(j) && |heap| == |j.segs| && HostReady(s, j.root, st, j.pool)
    ensures LoadVerdict(s, j.segs, |j.data|, j.root, st, j.pool, heap) == Accept
            <==> forall k | 0 <= k < |j.segs| :: Loadable(j.segs[k], |j.data|, heap[k].Some?)
  {
    CreateAccepted(s, j.root, st, j.pool);
    OwnedUsable(s.blocks, j.root, st, j.pool, j.pool + RAM_SIZE);
    var blocks := Owned(s.blocks, j.root, st);
    hide Loadable, Usable, Covered, Owned, TailVerdict, CurAt, HighestEnd, KeysFor, CreateVerdict, SegmentsVerdict, JobOk;
    var keys := SegmentsAccepted(j, blocks, |j.data|, heap, |j.segs|);
    if AllLoadable(j.segs, |j.data|, heap, |j.segs|) {
      TailAccepted(j, blocks, keys);
    }
  }

  lemma CreateAccepted(s: Snapshot, pt: nat, st: nat, pool: nat)
    requires HostReady(s, pt, st, pool)
    ensures CreateVerdict(s, pt, st) == Accept
  {
    CoveredHits(s.blocks, pt, pt + DIRECTORY_SIZE);
    CoveredHits(s.blocks, st, st + PAGE_SIZE);
  }

  lemma TailAccepted(j: Job, blocks: seq<Block>, keys: set<nat>)
    requires JobOk(j) && j.pool % 4096 == 0 && Usable(blocks) && Covered(blocks, j.pool, j.pool + RAM_SIZE)
    requires Counted(j, |j.segs|, keys)
    ensures TailVerdict(blocks, j.segs, j.pool) == Accept
  {
    hide KeysFor, Usable, Covered, PoolVerdict, CurAt, HighestEnd, JobOk;
    var highest := HighestEnd(j.segs);
    if highest < RAM_SIZE {
      HighestAligned(j.segs);
      var first, n := highest / 4096, (RAM_SIZE - highest) / 4096;
      TailBlank(j, keys, first, n);
      TailRoom(keys, first, n);
      hide Range;
      var cur := CurAt(j.segs, j.pool, |j.segs|);
      PoolInSpace(blocks, j.pool);
      PoolGranted(blocks, j.pool, j.pool + RAM_SIZE, cur, cur + Bytes(n));
    }
  }

  lemma TailRoom(keys: set<nat>, first: nat, n: nat)
    requires keys <= Range(0, RAM_PAGES) && keys !! Range(first, n) && first + n <= RAM_PAGES
    ensures |keys| + n <= RAM_PAGES
  {
    RangeSize(first, n);
    forall x | x in Range(first, n) ensures x in Range(0, RAM_PAGES) {
      assert InRange(0, RAM_PAGES, x);
    }
    hide Range;
    Room(keys, Range(first, n));
  }
}
