/** The guest memory an ELF file describes: the reference both loaders are held to. */
module GuestImage {
  import opened Memory

  /** A PT_LOAD program header. */
  datatype Segment = Segment(vaddr: nat, memsz: nat, filesz: nat, offset: nat)

  const RAM_SIZE: nat := 0x20_0000
  const RAM_PAGES: nat := 512

  predicate InFile(s: Segment, g: nat) {
    s.vaddr <= g < s.vaddr + s.filesz
  }

  function FileByte(s: Segment, data: seq<Byte>, g: nat): Byte
    requires InFile(s, g)
  {
    var i := s.offset + (g - s.vaddr);
    if i < |data| then data[i] else 0
  }

  /** The byte at guest address `g`: from the last segment with a file byte there, else zero. */
  function ImageByte(segs: seq<Segment>, data: seq<Byte>, g: nat): Byte {
    if segs == [] then 0
    else
      var s := segs[|segs| - 1];
      if InFile(s, g) then FileByte(s, data, g) else ImageByte(segs[..|segs| - 1], data, g)
  }

  function Size(s: Segment): nat {
    if s.filesz > s.memsz then s.filesz else s.memsz
  }

  /** Page `x` holds a byte of the segment. */
  predicate Touches(s: Segment, x: nat) {
    Size(s) > 0 && s.vaddr / 4096 <= x <= (s.vaddr + Size(s) - 1) / 4096
  }

  ghost predicate PageDisjoint(segs: seq<Segment>) {
    forall j, k, x {:trigger Touches(segs[j], x), Touches(segs[k], x)} |
      0 <= j < |segs| && 0 <= k < |segs| && Touches(segs[j], x) && Touches(segs[k], x) :: j == k
  }

  ghost predicate FileFits(segs: seq<Segment>) {
    forall k | 0 <= k < |segs| :: segs[k].filesz <= segs[k].memsz
  }

  lemma TouchedByFile(s: Segment, g: nat)
    requires InFile(s, g)
    ensures Touches(s, g / 4096)
  {
  }

  /** With disjoint pages, a page of one segment shows that segment's file bytes and zeros. */
  lemma {:induction false} ImageOnPage(segs: seq<Segment>, data: seq<Byte>, k: nat, g: nat)
    requires PageDisjoint(segs) && k < |segs| && Touches(segs[k], g / 4096)
    ensures ImageByte(segs, data, g) == if InFile(segs[k], g) then FileByte(segs[k], data, g) else 0
  {
    var n := |segs| - 1;
    if InFile(segs[n], g) {
      TouchedByFile(segs[n], g);
      assert k == n;
    } else if k < n {
      assert PageDisjoint(segs[..n]) by {
        forall i, j, x | 0 <= i < n && 0 <= j < n && Touches(segs[..n][i], x) && Touches(segs[..n][j], x) ensures i == j {
          assert Touches(segs[i], x) && Touches(segs[j], x);
        }
      }
      ImageOnPage(segs[..n], data, k, g);
    } else {
      forall j | 0 <= j < n ensures !InFile(segs[j], g) {
        if InFile(segs[j], g) {
          TouchedByFile(segs[j], g);
        }
      }
      ImageElsewhere(segs[..n], data, g);
    }
  }

  lemma {:induction false} ImageElsewhere(segs: seq<Segment>, data: seq<Byte>, g: nat)
    requires forall k | 0 <= k < |segs| :: !InFile(segs[k], g)
    ensures ImageByte(segs, data, g) == 0
  {
    if segs != [] {
      ImageElsewhere(segs[..|segs| - 1], data, g);
    }
  }
}
