/** Guest accesses through the page table: reads, writes and single guest bytes. */
module GuestMemory {
  import Bits
  import opened Memory
  import opened PageTable

  /** The byte a guest sees at `gpa`. */
  function GuestByte(m: Memory, root: nat, gpa: nat): Option<Byte>
    requires RootOk(root)
  {
    match TranslateGpaToPa(m, root, gpa)
    case None => None
    case Some(pa) => if pa < SPACE then Some(m[pa]) else None
  }

  /** Different guest pages have different frames, and only one gigabyte is in use. */
  ghost predicate Injective(d: Directory) {
    && (forall v, w :: v in d.roots && w in d.roots ==> v == w)
    && (forall x, y :: x in d.pages && y in d.pages && x != y ==> d.pages[x] != d.pages[y])
  }

  ghost predicate OutsideDirectory(root: nat, lo: nat, hi: nat) {
    hi <= root || root + DIRECTORY_SIZE <= lo
  }

  /** Stores outside the directory leave the table alone. */
  lemma SameTable(m: Memory, m': Memory, root: nat)
    requires RootOk(root)
    requires forall i {:trigger m'[i]} | root <= i < root + DIRECTORY_SIZE :: m'[i] == m[i]
    ensures Table(m', root) == Table(m, root)
  {
    forall k | 0 <= k < 2048 ensures Table(m', root)[k] == Table(m, root)[k] {
      LoadSame(m, m', root + 8 * k);
    }
  }

  lemma SameTableOutside(m: Memory, m': Memory, root: nat, lo: nat, hi: nat)
    requires RootOk(root) && SameOutside(m, m', lo, hi) && OutsideDirectory(root, lo, hi)
    ensures Table(m', root) == Table(m, root)
    ensures Shape(m', root) == Shape(m, root) && View(m', root) == View(m, root) && Leaves(m', root) == Leaves(m, root)
  {
    SameTable(m, m', root);
  }

  lemma FrameInSpace(m: Memory, root: nat, x: nat)
    requires RootOk(root) && x in View(m, root).pages
    ensures View(m, root).pages[x] % 4096 == 0 && View(m, root).pages[x] + PAGE_SIZE <= SPACE
  {
  }

  /** What a guest byte is, in terms of the abstract directory. */
  lemma GuestByteIs(m: Memory, root: nat, gpa: nat)
    requires RootOk(root) && Shape(m, root)
    ensures var d := View(m, root);
            GuestByte(m, root, gpa) ==
            if Vpn2(gpa) in d.roots && LowPage(gpa) in d.pages && d.pages[LowPage(gpa)] + gpa % 4096 < SPACE
            then Some(m[d.pages[LowPage(gpa)] + gpa % 4096]) else None
  {
    TranslateIsLookUp(m, root, gpa);
  }

  predicate CrossesPage(gpa: nat, len: nat) {
    gpa % 4096 + len > 4096
  }

  /** `None` is the error return: the range crosses a page or its first byte is not mapped. */
  method ReadGuestMemory(ram: Ram, root: nat, gpa: nat, len: nat) returns (data: Option<seq<Byte>>)
    requires RootOk(root) && Shape(ram.bytes, root)
    ensures data.Some? <==> !CrossesPage(gpa, len) && TranslateGpaToPa(ram.bytes, root, gpa).Some?
    ensures data.Some? ==> |data.value| == len
    ensures data.Some? ==> forall i {:trigger data.value[i]} | 0 <= i < len ::
              GuestByte(ram.bytes, root, gpa + i) == Some(data.value[i])
  {
    if CrossesPage(gpa, len) {
      return None;
    }
    var host := TranslateGpaToPa(ram.bytes, root, gpa);
    if host.None? {
      return None;
    }
    TranslateIsLookUp(ram.bytes, root, gpa);
    FrameInSpace(ram.bytes, root, LowPage(gpa));
    data := Some(ram.bytes[host.value..host.value + len]);
    forall i | 0 <= i < len ensures GuestByte(ram.bytes, root, gpa + i) == Some(data.value[i]) {
      WithinPage(ram.bytes, root, gpa, i);
    }
  }

  /** Bytes of one page are contiguous in physical memory. */
  lemma WithinPage(m: Memory, root: nat, gpa: nat, i: nat)
    requires RootOk(root) && Shape(m, root) && gpa % 4096 + i < 4096
    requires TranslateGpaToPa(m, root, gpa).Some?
    ensures var pa := TranslateGpaToPa(m, root, gpa).value;
            pa + i < SPACE && GuestByte(m, root, gpa + i) == Some(m[pa + i])
  {
    hide TranslateGpaToPa, Shape, View, Vpn2, LowPage;
    TranslateIsLookUp(m, root, gpa);
    FrameInSpace(m, root, LowPage(gpa));
    TranslateIsLookUp(m, root, gpa + i);
    SamePage(gpa, i);
  }

  lemma SamePage(gpa: nat, i: nat)
    requires gpa % 4096 + i < 4096
    ensures Vpn2(gpa + i) == Vpn2(gpa) && LowPage(gpa + i) == LowPage(gpa)
    ensures (gpa + i) % 4096 == gpa % 4096 + i
  {
    SamePageNumber(gpa, i);
    GigabyteOfPage(gpa);
    GigabyteOfPage(gpa + i);
  }

  lemma SamePageNumber(gpa: nat, i: nat)
    requires gpa % 4096 + i < 4096
    ensures (gpa + i) / 4096 == gpa / 4096 && (gpa + i) % 4096 == gpa % 4096 + i
  {
    assert gpa + i == 4096 * (gpa / 4096) + (gpa % 4096 + i);
  }

  lemma GigabyteOfPage(gpa: nat)
    ensures gpa / 0x4000_0000 == gpa / 4096 / 0x4_0000
  {
  }

  /**
   A successful write reads back. Under an injective mapping it changes no other guest byte,
   and no translation; a failed one changes nothing.
   */
  method WriteGuestMemory(ram: Ram, root: nat, gpa: nat, data: seq<Byte>) returns (ok: bool)
    requires RootOk(root) && Shape(ram.bytes, root)
    modifies ram
    ensures ok <==> !CrossesPage(gpa, |data|) && old(TranslateGpaToPa(ram.bytes, root, gpa)).Some?
    ensures !ok ==> ram.bytes == old(ram.bytes)
    ensures ok ==>
              var pa := old(TranslateGpaToPa(ram.bytes, root, gpa)).value;
              && pa + |data| <= SPACE
              && ram.bytes[pa..pa + |data|] == data
              && SameOutside(old(ram.bytes), ram.bytes, pa, pa + |data|)
  {
    if CrossesPage(gpa, |data|) {
      return false;
    }
    var host := TranslateGpaToPa(ram.bytes, root, gpa);
    if host.None? {
      return false;
    }
    TranslateIsLookUp(ram.bytes, root, gpa);
    FrameInSpace(ram.bytes, root, LowPage(gpa));
    ram.Put(host.value, data);
    ok := true;
  }

  /** Memory after a successful write of `data` at `gpa` whose frame is not a directory page. */
  ghost predicate Wrote(m: Memory, m': Memory, root: nat, gpa: nat, data: seq<Byte>)
    requires RootOk(root)
  {
    && !CrossesPage(gpa, |data|)
    && TranslateGpaToPa(m, root, gpa).Some?
    && var pa := TranslateGpaToPa(m, root, gpa).value;
    && pa + |data| <= SPACE
    && m'[pa..pa + |data|] == data
    && SameOutside(m, m', pa, pa + |data|)
    && OutsideDirectory(root, pa, pa + |data|)
  }

  lemma WriteKeepsTranslations(m: Memory, m': Memory, root: nat, gpa: nat, data: seq<Byte>, g: nat)
    requires RootOk(root) && Shape(m, root) && Wrote(m, m', root, gpa, data)
    ensures Shape(m', root) && View(m', root) == View(m, root)
    ensures TranslateGpaToPa(m', root, g) == TranslateGpaToPa(m, root, g)
  {
    var pa := TranslateGpaToPa(m, root, gpa).value;
    SameTableOutside(m, m', root, pa, pa + |data|);
    TranslateIsLookUp(m, root, g);
    TranslateIsLookUp(m', root, g);
  }

  /** Round trip: the written range reads as the data. */
  lemma WriteThenRead(m: Memory, m': Memory, root: nat, gpa: nat, data: seq<Byte>, i: nat)
    requires RootOk(root) && Shape(m, root) && Wrote(m, m', root, gpa, data) && i < |data|
    ensures GuestByte(m', root, gpa + i) == Some(data[i])
  {
    hide TranslateGpaToPa, Shape, View, GuestByte;
    var pa := TranslateGpaToPa(m, root, gpa).value;
    WriteKeepsTranslations(m, m', root, gpa, data, gpa);
    WithinPage(m', root, gpa, i);
    assert m'[pa + i] == m'[pa..pa + |data|][i];
  }

  /** Frame: every other guest byte below the Sv39 limit keeps its value. */
  lemma WriteElsewhere(m: Memory, m': Memory, root: nat, gpa: nat, data: seq<Byte>, g: nat)
    requires RootOk(root) && Shape(m, root) && Wrote(m, m', root, gpa, data) && Injective(View(m, root))
    requires gpa < SV39_SPACE && g < SV39_SPACE && !(gpa <= g < gpa + |data|)
    ensures GuestByte(m', root, g) == GuestByte(m, root, g)
  {
    WriteKeepsTranslations(m, m', root, gpa, data, g);
    GuestByteIs(m, root, g);
    GuestByteIs(m', root, g);
    TranslateIsLookUp(m, root, gpa);
    var d := View(m, root);
    if Vpn2(g) in d.roots && LowPage(g) in d.pages {
      FrameInSpace(m, root, LowPage(g));
      FrameInSpace(m, root, LowPage(gpa));
      if LowPage(g) == LowPage(gpa) {
        SameVirtualPage(g, gpa);
      } else {
        DistinctFrames(d.pages[LowPage(g)], d.pages[LowPage(gpa)], g % 4096, gpa % 4096, |data|);
      }
    }
  }

  lemma SameVirtualPage(g: nat, gpa: nat)
    requires g < SV39_SPACE && gpa < SV39_SPACE && Vpn2(g) == Vpn2(gpa) && LowPage(g) == LowPage(gpa)
    ensures g / 4096 == gpa / 4096
  {
    PageInSv39(g);
    PageInSv39(gpa);
  }

  lemma PageInSv39(g: nat)
    requires g < SV39_SPACE
    ensures g / 4096 == Vpn2(g) * 0x4_0000 + LowPage(g)
  {
    var p := g / 4096;
    var q := p / 0x4_0000;
    Bits.DivUnique(g, 0x4000_0000, q, p % 0x4_0000 * 4096 + g % 4096);
  }

  lemma DistinctFrames(f1: nat, f2: nat, o1: nat, o2: nat, n: nat)
    requires f1 % 4096 == 0 && f2 % 4096 == 0 && f1 != f2 && o1 < 4096 && o2 + n <= 4096
    ensures !(f2 + o2 <= f1 + o1 < f2 + o2 + n)
  {
    assert f1 == 4096 * (f1 / 4096) && f2 == 4096 * (f2 / 4096);
  }
}
