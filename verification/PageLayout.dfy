/** The two-level page layout of src/inc/paging.h: a page frame is 1024 little-endian words, seen either as words
    (page tables) or as 4096 bytes (user data). */
module PageLayout {
  import opened Wrappers

  const PAGE_SIZE: int := 0x1000
  const ENTRIES: int := 1024
  // One past the last virtual page number of a 32-bit address space.
  const VPAGES: int := 0x10_0000
  // PDE_INDEX(VM_TASK_BASE), and the first virtual page number of the user half.
  const USER_DIR: int := 256
  const USER_PAGE: int := 0x4_0000

  type byte = b: int | 0 <= b < 256
  type word = w: int | 0 <= w < 0x1_0000_0000
  type Page = p: seq<word> | |p| == 1024 witness seq(1024, i => 0)

  function ZeroPage(): (p: Page)
    ensures forall i | 0 <= i < ENTRIES :: p[i] == 0
  {
    seq(ENTRIES, i => 0)
  }

  /** What one leaf entry says: the frame number and the low twelve flag bits. */
  datatype Mapping = Mapping(frame: nat, flags: nat)

  predicate Present(w: word) { w % 2 == 1 }

  // (p)->index
  function Frame(w: word): (f: nat)
    ensures f < VPAGES
  {
    w / PAGE_SIZE
  }

  lemma LowBits(q: nat, r: nat)
    requires r < PAGE_SIZE
    ensures var w := q * PAGE_SIZE + r;
      w / PAGE_SIZE == q && w % PAGE_SIZE == r && w % 1024 == r % 1024 && w % 2 == r % 2
  {
    Remainder4096(q, r);
    var r10, r1 := r / 1024, r / 2;
    Remainder1024(4 * q + r10, r - 1024 * r10);
    Remainder2(2048 * q + r1, r - 2 * r1);
  }

  lemma Remainder4096(a: nat, b: nat)
    requires b < 4096
    ensures (4096 * a + b) / 4096 == a && (4096 * a + b) % 4096 == b
  {
  }

  lemma Remainder1024(a: nat, b: nat)
    requires b < 1024
    ensures (1024 * a + b) / 1024 == a && (1024 * a + b) % 1024 == b
  {
  }

  lemma Remainder2(a: nat, b: nat)
    requires b < 2
    ensures (2 * a + b) % 2 == b
  {
  }

  // `paddr | flags` for a page-aligned paddr: the two bit fields do not overlap.
  function MakeEntry(frame: nat, flags: nat): (w: word)
    requires frame < VPAGES && flags < PAGE_SIZE
    ensures Frame(w) == frame && w % PAGE_SIZE == flags && w % 1024 == flags % 1024
    ensures Present(w) <==> flags % 2 == 1
  {
    LowBits(frame, flags);
    frame * PAGE_SIZE + flags
  }

  // `perm | PTE_P`
  function WithPresent(perm: nat): (r: nat)
    requires perm < PAGE_SIZE
    ensures r < PAGE_SIZE && r % 2 == 1 && r / 2 == perm / 2
  {
    if perm % 2 == 1 then perm else perm + 1
  }

  // Reads entry i of frame f; a frame that is not in memory reads as zeros.
  function Entry(ram: seq<Page>, f: nat, i: nat): word
    requires i < ENTRIES
  {
    if f < |ram| then ram[f][i] else 0
  }

  function SetEntry(ram: seq<Page>, f: nat, i: nat, w: word): (r: seq<Page>)
    requires i < ENTRIES
    ensures |r| == |ram|
  {
    if f < |ram| then ram[f := ram[f][i := w]] else ram
  }

  function PageAt(ram: seq<Page>, f: nat): Page {
    if f < |ram| then ram[f] else ZeroPage()
  }

  /** What the memory management unit finds for virtual page vp under directory d. */
  function Lookup(ram: seq<Page>, d: nat, vp: nat): (m: Option<Mapping>)
    requires vp < VPAGES
    ensures m.Some? ==> m.value.frame < VPAGES && m.value.flags < PAGE_SIZE && m.value.flags % 2 == 1
  {
    var e := Entry(ram, d, vp / ENTRIES);
    if !Present(e) then None else
      var w := Entry(ram, Frame(e), vp % ENTRIES);
      LowBits(w / PAGE_SIZE, w % PAGE_SIZE);
      if Present(w) then Some(Mapping(Frame(w), w % PAGE_SIZE)) else None
  }

  // ---- bytes inside words

  function ByteOf(w: word, k: nat): byte
    requires k < 4
  {
    if k == 0 then w % 0x100
    else if k == 1 then w / 0x100 % 0x100
    else if k == 2 then w / 0x1_0000 % 0x100
    else w / 0x100_0000
  }

  function FromBytes(b0: byte, b1: byte, b2: byte, b3: byte): word {
    b0 + 0x100 * b1 + 0x1_0000 * b2 + 0x100_0000 * b3
  }

  lemma BytesOfWord(b0: byte, b1: byte, b2: byte, b3: byte)
    ensures var w := FromBytes(b0, b1, b2, b3);
      ByteOf(w, 0) == b0 && ByteOf(w, 1) == b1 && ByteOf(w, 2) == b2 && ByteOf(w, 3) == b3
  {
    var w := FromBytes(b0, b1, b2, b3);
    assert w / 0x100 == b1 + 0x100 * b2 + 0x1_0000 * b3;
    assert w / 0x1_0000 == b2 + 0x100 * b3;
  }

  lemma WordOfBytes(w: word)
    ensures w == FromBytes(ByteOf(w, 0), ByteOf(w, 1), ByteOf(w, 2), ByteOf(w, 3))
  {
    var w1, w2 := w / 0x100, w / 0x1_0000;
    assert w == 0x100 * w1 + ByteOf(w, 0);
    assert w1 / 0x100 == w2;
    assert w1 == 0x100 * w2 + ByteOf(w, 1);
    assert w2 / 0x100 == ByteOf(w, 3);
  }

  // Stores byte k of a word, leaving the other three.
  function PutByte(w: word, k: nat, b: byte): (r: word)
    requires k < 4
    ensures forall j: nat | j < 4 :: ByteOf(r, j) == if j == k then b else ByteOf(w, j)
  {
    var b0, b1, b2, b3 := ByteOf(w, 0), ByteOf(w, 1), ByteOf(w, 2), ByteOf(w, 3);
    BytesOfWord(b, b1, b2, b3);
    BytesOfWord(b0, b, b2, b3);
    BytesOfWord(b0, b1, b, b3);
    BytesOfWord(b0, b1, b2, b);
    if k == 0 then FromBytes(b, b1, b2, b3)
    else if k == 1 then FromBytes(b0, b, b2, b3)
    else if k == 2 then FromBytes(b0, b1, b, b3)
    else FromBytes(b0, b1, b2, b)
  }

  function ByteAt(p: Page, o: nat): byte
    requires o < PAGE_SIZE
  {
    ByteOf(p[o / 4], o % 4)
  }

  function SetByte(p: Page, o: nat, b: byte): (r: Page)
    requires o < PAGE_SIZE
    ensures forall j: nat | j < PAGE_SIZE :: ByteAt(r, j) == if j == o then b else ByteAt(p, j)
  {
    p[o / 4 := PutByte(p[o / 4], o % 4, b)]
  }

  /** Two pages are equal when all their bytes are: a byte-by-byte copy copies the words. */
  lemma PageFromBytes(p: Page, q: Page)
    requires forall o: nat | o < PAGE_SIZE :: ByteAt(p, o) == ByteAt(q, o)
    ensures p == q
  {
    forall i | 0 <= i < 1024
      ensures p[i] == q[i]
    {
      forall k: nat | k < 4
        ensures ByteOf(p[i], k) == ByteOf(q[i], k)
      {
        assert ByteAt(p, 4 * i + k) == ByteAt(q, 4 * i + k);
      }
      WordOfBytes(p[i]);
      WordOfBytes(q[i]);
    }
  }
}
