/**
 The guest page table of the TSM: three Sv39 levels packed into one 16 KiB directory.

   root + 0x0000  L2 table (512 entries)
   root + 0x1000  the one L1 table, shared by every L2 entry
   root + 0x2000  L0 table for VPN[1] = 0
   root + 0x3000  L0 table for VPN[1] = 1

 The two L0 tables are adjacent, so they are indexed here by one number below 1024.
 */
module PageTable {
  import opened Bits
  import opened Memory

  const DIRECTORY_SIZE: nat := 0x4000
  const ENTRIES: nat := 512
  const LEAVES: nat := 1024
  const GIB: nat := 0x4000_0000
  const SV39_SPACE: nat := 0x80_0000_0000

  const PTE_V: nat := 1
  const PTE_U: nat := 16

  // ----- pure helpers of the walk

  function Vpn2(gpa: nat): (v: nat)
    ensures v < ENTRIES
  {
    gpa / 0x4000_0000 % 512
  }

  function Vpn1(gpa: nat): (v: nat)
    ensures v < ENTRIES
  {
    gpa / 0x20_0000 % 512
  }

  function Vpn0(gpa: nat): (v: nat)
    ensures v < ENTRIES
  {
    gpa / 4096 % 512
  }

  function PaToPpn(pa: nat): nat {
    pa / 4096
  }

  /** The shift drops the bits above the 64th. */
  function PpnToPa(ppn: nat): (pa: nat)
    ensures pa < SPACE && pa % 4096 == 0 && pa + PAGE_SIZE <= SPACE
  {
    AlignedMod(ppn);
    ppn * 4096 % 0x1_0000_0000_0000_0000
  }

  lemma AlignedMod(ppn: nat)
    ensures ppn * 4096 % 0x1_0000_0000_0000_0000 == ppn % 0x10_0000_0000_0000 * 4096
  {
    var q, r := ppn / 0x10_0000_0000_0000, ppn % 0x10_0000_0000_0000;
    assert ppn * 4096 == q * 0x1_0000_0000_0000_0000 + r * 4096;
  }

  predicate Valid(pte: nat) {
    pte % 2 == 1
  }

  /** Any of the R, W and X bits. */
  predicate IsLeaf(pte: nat) {
    pte / 2 % 8 != 0
  }

  predicate HasAccess(perms: nat) {
    perms / 2 % 8 != 0
  }

  /** Entry pointing to the next-level table: page number shifted by ten, with V set. */
  function Pointer(table: nat): nat {
    table / 4096 * 1024 + 1
  }

  /** Where a walk ends: a fault, or the frame of a leaf found at level 2, 1 or 0. */
  datatype Walked = Fault | Huge(frame: nat) | Large(frame: nat) | Page(frame: nat)

  function Walk(m: Memory, root: nat, v2: nat, v1: nat, v0: nat): Walked
    requires root + PAGE_SIZE <= SPACE && v2 < ENTRIES && v1 < ENTRIES && v0 < ENTRIES
  {
    var pte2 := LoadWord(m, root + v2 * 8);
    if !Valid(pte2) then Fault
    else if IsLeaf(pte2) then Huge(PpnToPa(pte2 / 1024))
    else
      var pte1 := LoadWord(m, PpnToPa(pte2 / 1024) + v1 * 8);
      if !Valid(pte1) then Fault
      else if IsLeaf(pte1) then Large(PpnToPa(pte1 / 1024))
      else
        var pte0 := LoadWord(m, PpnToPa(pte1 / 1024) + v0 * 8);
        if !Valid(pte0) || !IsLeaf(pte0) then Fault
        else Page(PpnToPa(pte0 / 1024))
  }

  /** Guest physical to host physical address; `None` when the address is not mapped. */
  function TranslateGpaToPa(m: Memory, root: nat, gpa: nat): Option<nat>
    requires root + PAGE_SIZE <= SPACE
  {
    match Walk(m, root, Vpn2(gpa), Vpn1(gpa), Vpn0(gpa))
    case Fault => None
    case Huge(frame) => Some(BitOr(frame, gpa % 0x4000_0000))
    case Large(frame) => Some(BitOr(frame, gpa % 0x20_0000))
    case Page(frame) => Some(BitOr(frame, gpa % 4096))
  }

  // ----- the abstract directory

  /** Which gigabytes have a root entry, and the frame of each page within a gigabyte. */
  datatype Directory = Directory(roots: set<nat>, pages: map<nat, nat>)

  const EMPTY := Directory({}, map[])

  /** Page number within the gigabyte that the shared L1 table serves. */
  function LowPage(gpa: nat): nat {
    gpa / 4096 % 0x4_0000
  }

  function LookUp(d: Directory, gpa: nat): Option<nat> {
    if Vpn2(gpa) in d.roots && LowPage(gpa) in d.pages
    then Some(d.pages[LowPage(gpa)] + gpa % 4096)
    else None
  }

  function PageBase(a: nat): nat {
    a - a % 4096
  }

  function WithRoot(d: Directory, v: nat): Directory {
    Directory(d.roots + {v}, d.pages)
  }

  /** A leaf without R, W or X translates nowhere, so installing one removes the page. */
  function WithPage(d: Directory, x: nat, frame: nat, access: bool): Directory {
    Directory(d.roots, if access then d.pages[x := frame] else d.pages - {x})
  }

  function MapOne(d: Directory, gpa: nat, pa: nat, perms: nat): Directory {
    WithPage(WithRoot(d, Vpn2(gpa)), LowPage(gpa), PageBase(pa), HasAccess(perms))
  }

  // ----- the directory in memory

  predicate RootOk(root: nat) {
    root % 0x4000 == 0 && root + DIRECTORY_SIZE <= SPACE
  }

  /** The 2048 words of the directory: L2 from 0, L1 from 512, the two L0 tables from 1024. */
  ghost function Table(m: Memory, root: nat): (t: seq<nat>)
    requires RootOk(root)
    ensures |t| == 2048
  {
    seq(2048, k requires 0 <= k < 2048 => LoadWord(m, root + 8 * k))
  }

  /**
   Shape of every directory the TSM builds: interior entries are absent or point to the one
   table the layout gives them, and a leaf table that is not linked yet is all zero.
   */
  ghost predicate Shaped(t: seq<nat>, root: nat)
    requires |t| == 2048
  {
    && (forall k {:trigger t[k]} | 0 <= k < 512 :: t[k] == 0 || t[k] == Pointer(root + 0x1000))
    && (t[512] == 0 || t[512] == Pointer(root + 0x2000))
    && (t[513] == 0 || t[513] == Pointer(root + 0x3000))
    && (forall k {:trigger t[k]} | 514 <= k < 1024 :: t[k] == 0)
    && (t[512] == 0 ==> forall k {:trigger t[k]} | 1024 <= k < 1536 :: t[k] == 0)
    && (t[513] == 0 ==> forall k {:trigger t[k]} | 1536 <= k < 2048 :: t[k] == 0)
  }

  ghost predicate Shape(m: Memory, root: nat)
    requires RootOk(root)
  {
    Shaped(Table(m, root), root)
  }

  ghost function Leaf(t: seq<nat>, x: nat): nat
    requires |t| == 2048 && x < LEAVES
  {
    t[1024 + x]
  }

  /** All leaf words of a directory. */
  ghost function Leaves(m: Memory, root: nat): (l: seq<nat>)
    requires RootOk(root)
    ensures |l| == LEAVES
  {
    Table(m, root)[1024..]
  }

  /** A page without a leaf table has no leaf word either. */
  function WithLeaf(l: seq<nat>, x: nat, w: nat): (r: seq<nat>)
    ensures |r| == |l|
  {
    if x < |l| then l[x := w] else l
  }

  ghost function ViewOf(t: seq<nat>): Directory
    requires |t| == 2048
  {
    Directory(set k | 0 <= k < 512 && t[k] != 0,
              map x | 0 <= x < LEAVES && Valid(Leaf(t, x)) && IsLeaf(Leaf(t, x)) :: PpnToPa(Leaf(t, x) / 1024))
  }

  ghost function View(m: Memory, root: nat): Directory
    requires RootOk(root)
  {
    ViewOf(Table(m, root))
  }

  lemma PointerFacts(table: nat)
    requires table % 4096 == 0 && table < SPACE
    ensures 0 < Pointer(table) < SPACE
    ensures Valid(Pointer(table)) && !IsLeaf(Pointer(table))
    ensures PpnToPa(Pointer(table) / 1024) == table
  {
    var q := table / 4096;
    AlignedMod(q);
    assert (q * 1024 + 1) / 2 == q * 512;
  }

  lemma PointerOr(q: nat)
    ensures BitOr(q * 1024, 1) == q * 1024 + 1
  {
    Pow2Small();
    OrDisjoint(q, 1, 10);
  }

  /** The entry as the mapping code assembles it. */
  method PointerEntry(table: nat) returns (pte: nat)
    requires table < SPACE
    ensures pte == Pointer(table) && 0 < pte < SPACE
    ensures table % 4096 == 0 ==> Valid(pte) && !IsLeaf(pte) && PpnToPa(pte / 1024) == table
  {
    var ppn := PaToPpn(table);
    PointerOr(ppn);
    if table % 4096 == 0 {
      PointerFacts(table);
    }
    pte := BitOr(ppn * 1024, PTE_V);
  }

  function LeafEntry(pa: nat, perms: nat): nat {
    BitOr(BitOr(BitOr(PaToPpn(pa) * 1024, perms), PTE_V), PTE_U)
  }

  /** The flags of a leaf: the given ones with V (bit 0) and U (bit 4) set. */
  function LeafFlags(perms: nat): nat {
    perms / 32 * 32 + perms / 2 % 8 * 2 + 17
  }

  /** The word of a leaf: the frame number above ten flag bits. */
  function LeafWord(pa: nat, perms: nat): nat {
    PaToPpn(pa) * 1024 + LeafFlags(perms)
  }

  /** Bit by bit: V and U are set, every other flag is as given, and the frame is that of `pa`. */
  lemma LeafBits(pa: nat, perms: nat, k: nat)
    requires perms < 1024 && k < 10
    ensures Bit(LeafWord(pa, perms), k) <==> k == 0 || k == 4 || Bit(perms, k)
    ensures LeafWord(pa, perms) / 1024 == pa / 4096
  {
    hide Bit, Pow2, LeafFlags;
    var q := PaToPpn(pa);
    FlagParts(perms);
    LeafArithmetic(q, perms);
    FlagBits(perms / 32, perms / 2 % 8, perms / 16 % 2, perms % 2, k);
    Pow2Small();
    BitBeside(q, LeafFlags(perms), 10, k);
  }

  lemma FlagParts(perms: nat)
    requires perms < 1024
    ensures perms / 32 < 32 && perms == perms / 32 * 32 + (perms / 16 % 2 * 16 + perms / 2 % 8 * 2 + perms % 2)
    ensures LeafFlags(perms) == perms / 32 * 32 + (perms / 2 % 8 * 2 + 17) < 1024
  {
    FlagDigits(perms);
  }

  lemma FlagBits(h: nat, m: nat, b4: nat, b0: nat, k: nat)
    requires h < 32 && m < 8 && b4 < 2 && b0 < 2 && k < 10
    ensures Bit(h * 32 + (m * 2 + 17), k) <==> k == 0 || k == 4 || Bit(h * 32 + (b4 * 16 + m * 2 + b0), k)
  {
    assert Pow2(5) == 32 by {
      assert Pow2(3) == 8;
    }
    var a, b := m * 2 + 17, b4 * 16 + m * 2 + b0;
    BitBeside(h, a, 5, k);
    BitBeside(h, b, 5, k);
    if k < 5 {
      LowBits(m, b4, b0, k);
    }
  }

  lemma LowBits(m: nat, b4: nat, b0: nat, k: nat)
    requires m < 8 && b4 < 2 && b0 < 2 && k < 5
    ensures Bit(m * 2 + 17, k) <==> k == 0 || k == 4 || Bit(b4 * 16 + m * 2 + b0, k)
  {
    if k > 0 {
      assert (m * 2 + 17) / 2 == 8 + m && (b4 * 16 + m * 2 + b0) / 2 == 8 * b4 + m;
      MiddleBits(m, b4, k - 1);
    }
  }

  lemma MiddleBits(m: nat, b4: nat, k: nat)
    requires m < 8 && b4 < 2 && k < 4
    ensures Bit(8 + m, k) <==> k == 3 || Bit(8 * b4 + m, k)
  {
    Pow2Small();
    assert Pow2(3) == 8;
    BitBeside(1, m, 3, k);
    BitBeside(b4, m, 3, k);
  }

  lemma LeafSum(q: nat, perms: nat)
    requires perms < 1024
    ensures BitOr(BitOr(BitOr(q * 1024, perms), PTE_V), PTE_U) == q * 1024 + LeafFlags(perms)
  {
    hide BitOr, Pow2, LeafFlags;
    Pow2Small();
    OrDisjoint(q, perms, 10);
    LeafDigits(q, perms);
    SetVU(q * 1024 + perms);
  }

  lemma SetVU(a: nat)
    ensures BitOr(BitOr(a, PTE_V), PTE_U) == a + (1 - a % 2) + (if (a + 1 - a % 2) / 16 % 2 == 0 then 16 else 0)
  {
    hide BitOr;
    OrBit0(a);
    OrBit4(a + 1 - a % 2);
  }

  lemma LeafDigits(q: nat, perms: nat)
    requires perms < 1024
    ensures var a := q * 1024 + perms;
            a + (1 - a % 2) + (if (a + 1 - a % 2) / 16 % 2 == 0 then 16 else 0) == q * 1024 + LeafFlags(perms)
  {
    FlagDigits(perms);
    DigitSum(q * 32 + perms / 32, perms / 16 % 2, perms / 2 % 8, perms % 2);
  }

  lemma DigitSum(h: nat, b4: nat, m: nat, b0: nat)
    requires b4 < 2 && m < 8 && b0 < 2
    ensures var a := 32 * h + 16 * b4 + 2 * m + b0;
            a % 2 == b0 && (a + 1 - a % 2) / 16 % 2 == b4
  {
    var a := 32 * h + 16 * b4 + 2 * m + b0;
    DivUnique(a, 2, 16 * h + 8 * b4 + m, b0);
    DivUnique(a + 1 - b0, 16, 2 * h + b4, 2 * m + 1);
    DivUnique(2 * h + b4, 2, h, b4);
  }

  lemma FlagDigits(perms: nat)
    ensures perms == perms / 32 * 32 + perms / 16 % 2 * 16 + perms / 2 % 8 * 2 + perms % 2
  {
    var p1 := perms / 2;
    assert perms / 16 == p1 / 8 && perms / 32 == p1 / 16;
    assert p1 / 16 == p1 / 8 / 2;
  }

  lemma LeafFacts(pa: nat, perms: nat)
    requires pa < SPACE && perms < 1024
    ensures LeafEntry(pa, perms) < SPACE && Valid(LeafEntry(pa, perms))
    ensures LeafEntry(pa, perms) == LeafWord(pa, perms)
    ensures IsLeaf(LeafEntry(pa, perms)) <==> HasAccess(perms)
    ensures PpnToPa(LeafEntry(pa, perms) / 1024) == PageBase(pa)
  {
    var q := PaToPpn(pa);
    LeafSum(q, perms);
    LeafArithmetic(q, perms);
    PageBaseFacts(pa);
  }

  lemma PageBaseFacts(pa: nat)
    requires pa < SPACE
    ensures PpnToPa(pa / 4096) == PageBase(pa)
  {
    AlignedMod(pa / 4096);
  }

  lemma LeafArithmetic(q: nat, perms: nat)
    requires perms < 1024
    ensures var w := q * 1024 + LeafFlags(perms);
            LeafFlags(perms) < 1024 && w / 1024 == q && w % 2 == 1 && w / 2 % 8 == perms / 2 % 8
  {
    LeafParts(q, perms / 32, perms / 2 % 8);
  }

  lemma LeafParts(q: nat, h: nat, m: nat)
    requires h <= 31 && m < 8
    ensures var w := q * 1024 + (h * 32 + m * 2 + 17);
            w / 1024 == q && w % 2 == 1 && w / 2 % 8 == m
  {
    var w := q * 1024 + (h * 32 + m * 2 + 17);
    var k := q * 64 + 2 * h + 1;
    DivUnique(w, 1024, q, h * 32 + m * 2 + 17);
    DivUnique(w, 2, 8 * k + m, 1);
    DivUnique(8 * k + m, 8, k, m);
  }

  lemma OffsetFacts(frame: nat, off: nat)
    requires frame % 4096 == 0 && off < 4096
    ensures BitOr(frame, off) == frame + off
  {
    hide BitOr, Pow2;
    Pow2Small();
    OrDisjoint(frame / 4096, off, 12);
  }

  lemma VpnSplit(gpa: nat)
    ensures LowPage(gpa) == Vpn1(gpa) * 512 + Vpn0(gpa)
    ensures LowPage(gpa) < LEAVES <==> Vpn1(gpa) < 2
  {
    var p := gpa / 4096;
    var q := p / 512;
    DivUnique(gpa, 0x20_0000, q, p % 512 * 4096 + gpa % 4096);
    DivUnique(p, 0x4_0000, q / 512, q % 512 * 512 + p % 512);
  }

  /** The four tables of a directory are page aligned. */
  lemma TablesAligned(root: nat)
    requires root % 0x4000 == 0
    ensures (root + 0x1000) % 4096 == 0 && (root + 0x2000) % 4096 == 0 && (root + 0x3000) % 4096 == 0
  {
    var k := root / 0x4000;
    PageMultiple(4 * k + 1);
    PageMultiple(4 * k + 2);
    PageMultiple(4 * k + 3);
  }

  lemma PageMultiple(k: nat)
    ensures 4096 * k % 4096 == 0
  {
  }

  lemma RootEntry(m: Memory, root: nat, v: nat)
    requires RootOk(root) && Shape(m, root) && v < ENTRIES
    ensures var pte := LoadWord(m, root + v * 8);
            && pte == Table(m, root)[v]
            && (Valid(pte) <==> v in View(m, root).roots)
            && (Valid(pte) ==> !IsLeaf(pte) && PpnToPa(pte / 1024) == root + 0x1000)
            && (!Valid(pte) ==> pte == 0)
  {
    var t := Table(m, root);
    assert t[v] == LoadWord(m, root + v * 8);
    TablesAligned(root);
    PointerFacts(root + 0x1000);
  }

  lemma MiddleEntry(m: Memory, root: nat, v: nat)
    requires RootOk(root) && Shape(m, root) && v < ENTRIES
    ensures var pte := LoadWord(m, root + 0x1000 + v * 8);
            && pte == Table(m, root)[512 + v]
            && (Valid(pte) ==> v < 2 && !IsLeaf(pte) && PpnToPa(pte / 1024) == root + 0x2000 + v * 0x1000)
            && (!Valid(pte) ==> pte == 0 && forall x | v * 512 <= x < v * 512 + 512 && x < LEAVES ::
                                              Leaf(Table(m, root), x) == 0)
  {
    var t := Table(m, root);
    assert t[512 + v] == LoadWord(m, root + 0x1000 + v * 8);
    TablesAligned(root);
    PointerFacts(root + 0x2000);
    PointerFacts(root + 0x3000);
  }

  lemma LeafOf(m: Memory, root: nat, v1: nat, v0: nat)
    requires RootOk(root) && v1 < 2 && v0 < ENTRIES
    ensures var pte, x := LoadWord(m, root + 0x2000 + v1 * 0x1000 + v0 * 8), v1 * 512 + v0;
            && pte == Leaf(Table(m, root), x)
            && (Valid(pte) && IsLeaf(pte) <==> x in View(m, root).pages)
            && (x in View(m, root).pages ==> View(m, root).pages[x] == PpnToPa(pte / 1024))
  {
    var x := v1 * 512 + v0;
    assert Leaf(Table(m, root), x) == LoadWord(m, root + 8 * (1024 + x));
  }

  /** A walk of a shaped directory never meets a huge page and finds exactly the mapped pages. */
  lemma WalkShaped(m: Memory, root: nat, v2: nat, v1: nat, v0: nat)
    requires RootOk(root) && Shape(m, root) && v2 < ENTRIES && v1 < ENTRIES && v0 < ENTRIES
    ensures var d, x := View(m, root), v1 * 512 + v0;
            Walk(m, root, v2, v1, v0) == if v2 in d.roots && x in d.pages then Page(d.pages[x]) else Fault
  {
    RootEntry(m, root, v2);
    MiddleEntry(m, root, v1);
    if v1 < 2 {
      LeafOf(m, root, v1, v0);
    }
  }

  /** The concrete walk over a well-shaped directory is the abstract look-up, for every address. */
  lemma TranslateIsLookUp(m: Memory, root: nat, gpa: nat)
    requires RootOk(root) && Shape(m, root)
    ensures TranslateGpaToPa(m, root, gpa) == LookUp(View(m, root), gpa)
  {
    hide Walk, Shape, View, Vpn2, Vpn1, Vpn0, LowPage, BitOr;
    VpnSplit(gpa);
    WalkShaped(m, root, Vpn2(gpa), Vpn1(gpa), Vpn0(gpa));
    if LowPage(gpa) in View(m, root).pages {
      FrameOffset(m, root, LowPage(gpa), gpa % 4096);
    }
  }

  lemma FrameOffset(m: Memory, root: nat, x: nat, off: nat)
    requires RootOk(root) && x in View(m, root).pages && off < 4096
    ensures BitOr(View(m, root).pages[x], off) == View(m, root).pages[x] + off
  {
    OffsetFacts(View(m, root).pages[x], off);
  }

  // ----- single stores into a directory

  lemma StoreTable(m: Memory, root: nat, k: nat, w: nat)
    requires RootOk(root) && k < 2048 && w < SPACE
    ensures Table(StoreWord(m, root + 8 * k, w), root) == Table(m, root)[k := w]
    ensures SameOutside(m, StoreWord(m, root + 8 * k, w), root, root + DIRECTORY_SIZE)
  {
    StoreLoad(m, root + 8 * k, w);
  }

  lemma SetL2(t: seq<nat>, root: nat, v: nat)
    requires |t| == 2048 && Shaped(t, root) && v < ENTRIES
    ensures var t' := t[v := Pointer(root + 0x1000)];
            Shaped(t', root) && ViewOf(t') == WithRoot(ViewOf(t), v)
  {
    var t' := t[v := Pointer(root + 0x1000)];
    assert forall x | 0 <= x < LEAVES :: Leaf(t', x) == Leaf(t, x);
    assert ViewOf(t').pages == ViewOf(t).pages;
  }

  lemma SetL1(t: seq<nat>, root: nat, v: nat)
    requires |t| == 2048 && Shaped(t, root) && v < 2
    ensures var t' := t[512 + v := Pointer(root + 0x2000 + v * 0x1000)];
            Shaped(t', root) && ViewOf(t') == ViewOf(t)
  {
    var t' := t[512 + v := Pointer(root + 0x2000 + v * 0x1000)];
    assert forall x | 0 <= x < LEAVES :: Leaf(t', x) == Leaf(t, x);
    assert ViewOf(t').pages == ViewOf(t).pages;
  }

  lemma SetL0(t: seq<nat>, root: nat, x: nat, pa: nat, perms: nat)
    requires |t| == 2048 && Shaped(t, root) && x < LEAVES && pa < SPACE && perms < 1024
    requires t[512 + x / 512] != 0
    ensures var t' := t[1024 + x := LeafEntry(pa, perms)];
            && Shaped(t', root)
            && ViewOf(t') == WithPage(ViewOf(t), x, PageBase(pa), HasAccess(perms))
  {
    LeafFacts(pa, perms);
    var w := LeafEntry(pa, perms);
    SetLeaf(t, root, x, w);
  }

  lemma SetLeaf(t: seq<nat>, root: nat, x: nat, w: nat)
    requires |t| == 2048 && Shaped(t, root) && x < LEAVES && t[512 + x / 512] != 0 && Valid(w)
    ensures var t' := t[1024 + x := w];
            && Shaped(t', root)
            && ViewOf(t') == WithPage(ViewOf(t), x, PpnToPa(w / 1024), IsLeaf(w))
  {
    var t' := t[1024 + x := w];
    assert forall y | 0 <= y < LEAVES :: Leaf(t', y) == if y == x then w else Leaf(t, y);
    var before, after := ViewOf(t).pages, ViewOf(t').pages;
    assert ViewOf(t').roots == ViewOf(t).roots;
    assert after == if IsLeaf(w) then before[x := PpnToPa(w / 1024)] else before - {x};
  }

  // ----- mapping

  /** Effect of one mapping call; `ok` says whether its in-directory assertion held. */
  ghost predicate Mapped(m: Memory, m': Memory, root: nat, gpa: nat, pa: nat, perms: nat, ok: bool)
    requires RootOk(root)
  {
    && Shape(m', root)
    && SameOutside(m, m', root, root + DIRECTORY_SIZE)
    && (ok <==> Vpn1(gpa) < 2)
    && View(m', root) == (if ok then MapOne(View(m, root), gpa, pa, perms)
                          else WithRoot(View(m, root), Vpn2(gpa)))
    && Leaves(m', root) == if ok then WithLeaf(Leaves(m, root), LowPage(gpa), LeafWord(pa, perms)) else Leaves(m, root)
  }

  /** Level 2: the base of the L1 table, after linking it when the root entry is not valid. */
  method EnterL1(ram: Ram, root: nat, v: nat) returns (base: nat)
    requires RootOk(root) && v < ENTRIES
    modifies ram
    ensures base + PAGE_SIZE <= SPACE
    ensures old(Shape(ram.bytes, root)) ==>
              && base == root + 0x1000 && Shape(ram.bytes, root)
              && SameOutside(old(ram.bytes), ram.bytes, root, root + DIRECTORY_SIZE)
              && View(ram.bytes, root) == WithRoot(View(old(ram.bytes), root), v)
              && Leaves(ram.bytes, root) == Leaves(old(ram.bytes), root)
  {
    ghost var m, shaped := ram.bytes, Shape(ram.bytes, root);
    var pte := LoadWord(ram.bytes, root + v * 8);
    if shaped { RootEntry(m, root, v); }
    if !Valid(pte) {
      base := root + 0x1000;
      pte := PointerEntry(base);
      if shaped { LinkL1(m, root, v); }
      ram.WriteWord(root + v * 8, pte);
    } else {
      base := PpnToPa(pte / 1024);
      assert shaped ==> View(m, root).roots == View(m, root).roots + {v};
    }
  }

  lemma LinkL1(m: Memory, root: nat, v: nat)
    requires RootOk(root) && Shape(m, root) && v < ENTRIES && Pointer(root + 0x1000) < SPACE
    ensures var m' := StoreWord(m, root + v * 8, Pointer(root + 0x1000));
            && Shape(m', root) && SameOutside(m, m', root, root + DIRECTORY_SIZE)
            && View(m', root) == WithRoot(View(m, root), v) && Leaves(m', root) == Leaves(m, root)
  {
    StoreTable(m, root, v, Pointer(root + 0x1000));
    SetL2(Table(m, root), root, v);
  }

  /** The leaf table for VPN[1] is linked. */
  ghost predicate Linked(m: Memory, root: nat, v: nat)
    requires RootOk(root) && v < 2
  {
    Table(m, root)[512 + v] != 0
  }

  /**
   Level 1: the base of the L0 table, after linking it when the L1 entry is not valid. `ok` is
   false when the assertion that a new L0 table fits the directory fails.
   */
  method EnterL0(ram: Ram, root: nat, l1Base: nat, v: nat) returns (ok: bool, base: nat)
    requires RootOk(root) && l1Base + PAGE_SIZE <= SPACE && v < ENTRIES
    modifies ram
    ensures ok ==> base + PAGE_SIZE <= SPACE
    ensures !ok ==> ram.bytes == old(ram.bytes)
    ensures old(Shape(ram.bytes, root)) && l1Base == root + 0x1000 ==>
              && (ok <==> v < 2)
              && Shape(ram.bytes, root)
              && SameOutside(old(ram.bytes), ram.bytes, root, root + DIRECTORY_SIZE)
              && View(ram.bytes, root) == View(old(ram.bytes), root)
              && Leaves(ram.bytes, root) == Leaves(old(ram.bytes), root)
              && (ok ==> base == root + 0x2000 + v * 0x1000 && Linked(ram.bytes, root, v))
  {
    hide Shape, View;
    ghost var m, shaped := ram.bytes, Shape(ram.bytes, root) && l1Base == root + 0x1000;
    var pte := LoadWord(ram.bytes, l1Base + v * 8);
    if shaped { MiddleEntry(m, root, v); }
    if !Valid(pte) {
      base := root + 0x2000 + v * 4096;
      if base + PAGE_SIZE > root + DIRECTORY_SIZE {
        return false, base;
      }
      pte := PointerEntry(base);
      if shaped { LinkL0(m, root, v); }
      ram.WriteWord(l1Base + v * 8, pte);
    } else {
      base := PpnToPa(pte / 1024);
    }
    ok := true;
  }

  lemma LinkL0(m: Memory, root: nat, v: nat)
    requires RootOk(root) && Shape(m, root) && v < 2 && 0 < Pointer(root + 0x2000 + v * 0x1000) < SPACE
    ensures var m' := StoreWord(m, root + 0x1000 + v * 8, Pointer(root + 0x2000 + v * 0x1000));
            && Shape(m', root) && SameOutside(m, m', root, root + DIRECTORY_SIZE)
            && View(m', root) == View(m, root) && Linked(m', root, v) && Leaves(m', root) == Leaves(m, root)
  {
    var w := Pointer(root + 0x2000 + v * 0x1000);
    assert root + 0x1000 + v * 8 == root + 8 * (512 + v);
    StoreTable(m, root, 512 + v, w);
    SetL1(Table(m, root), root, v);
  }

  lemma PutLeaf(m: Memory, root: nat, v1: nat, v0: nat, pa: nat, perms: nat)
    requires RootOk(root) && Shape(m, root) && v1 < 2 && v0 < ENTRIES && pa < SPACE && perms < 1024
    requires Linked(m, root, v1) && LeafEntry(pa, perms) < SPACE
    ensures var m', x := StoreWord(m, root + 0x2000 + v1 * 0x1000 + v0 * 8, LeafEntry(pa, perms)), v1 * 512 + v0;
            && Shape(m', root) && SameOutside(m, m', root, root + DIRECTORY_SIZE)
            && View(m', root) == WithPage(View(m, root), x, PageBase(pa), HasAccess(perms))
            && Leaves(m', root) == WithLeaf(Leaves(m, root), x, LeafEntry(pa, perms))
  {
    var x := v1 * 512 + v0;
    assert root + 0x2000 + v1 * 0x1000 + v0 * 8 == root + 8 * (1024 + x);
    StoreTable(m, root, 1024 + x, LeafEntry(pa, perms));
    SetL0(Table(m, root), root, x, pa, perms);
  }

  /** Level 0: the leaf itself. */
  method WriteLeaf(ram: Ram, root: nat, l0Base: nat, ghost v1: nat, v0: nat, pa: nat, perms: nat)
    requires RootOk(root) && l0Base + PAGE_SIZE <= SPACE && v0 < ENTRIES && pa < SPACE && perms < 1024
    modifies ram
    ensures old(Shape(ram.bytes, root)) && v1 < 2 && old(Linked(ram.bytes, root, v1)) && l0Base == root + 0x2000 + v1 * 0x1000 ==>
              && Shape(ram.bytes, root)
              && SameOutside(old(ram.bytes), ram.bytes, root, root + DIRECTORY_SIZE)
              && View(ram.bytes, root) == WithPage(View(old(ram.bytes), root), v1 * 512 + v0, PageBase(pa), HasAccess(perms))
              && Leaves(ram.bytes, root) == WithLeaf(Leaves(old(ram.bytes), root), v1 * 512 + v0, LeafWord(pa, perms))
  {
    hide Shape, View, LeafEntry, LeafWord, WithPage, Linked, Leaves;
    LeafFacts(pa, perms);
    if Shape(ram.bytes, root) && v1 < 2 && Linked(ram.bytes, root, v1) && l0Base == root + 0x2000 + v1 * 0x1000 {
      PutLeaf(ram.bytes, root, v1, v0, pa, perms);
    }
    ram.WriteWord(l0Base + v0 * 8, LeafEntry(pa, perms));
  }

  /**
   Installs one 4 KiB leaf, creating the tables above it on demand. `ok` is false when the
   assertion that the leaf table fits the directory fails, which stops the TSM.
   */
  method Map4kLeaf(ram: Ram, root: nat, gpa: nat, pa: nat, perms: nat) returns (ok: bool)
    requires RootOk(root) && pa < SPACE && perms < 1024
    modifies ram
    ensures old(Shape(ram.bytes, root)) ==>
              Mapped(old(ram.bytes), ram.bytes, root, gpa, pa, perms, ok)
  {
    hide Shape, View, Leaves, LeafWord, Linked;
    var vpn2, vpn1, vpn0 := Vpn2(gpa), Vpn1(gpa), Vpn0(gpa);
    VpnSplit(gpa);
    var l1Base := EnterL1(ram, root, vpn2);
    var l0Base;
    ok, l0Base := EnterL0(ram, root, l1Base, vpn1);
    if ok {
      WriteLeaf(ram, root, l0Base, vpn1, vpn0, pa, perms);
    }
  }
}
