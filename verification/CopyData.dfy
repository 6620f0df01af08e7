/** memory32_copy_page_data: copying bytes into another address space across page boundaries. */
module CopyData {
  import opened Wrappers
  import opened PageLayout
  import opened Memory32
  import opened PageMap
  import opened Isolation

  // A store to a physical address; one outside memory is lost.
  function StoreByte(s: Phys, pa: nat, b: byte): (r: Phys)
    ensures r.used == s.used && |r.ram| == |s.ram|
  {
    var f := pa / PAGE_SIZE;
    if f < |s.ram| then s.(ram := s.ram[f := SetByte(s.ram[f], pa % PAGE_SIZE, b)]) else s
  }

  // Addresses have 32 bits.
  function Low(a: nat): (r: nat)
    ensures r < 0x1_0000_0000 && (a < 0x1_0000_0000 ==> r == a)
  {
    a % 0x1_0000_0000
  }

  lemma LowNext(a: nat, n: nat)
    ensures Low(Low(a) + n) == Low(a + n)
  {
  }

  // The byte loop of kernel_memcpy from a virtual address of the running space cur to a physical one.
  function CopyBytes(s: Phys, cur: nat, pa: nat, from: nat, n: nat): (r: Phys)
    ensures r.used == s.used && |r.ram| == |s.ram|
    decreases n
  {
    if n == 0 then s else
      var b := match ReadByte(s, cur, Low(from)) case Some(b) => b case None => 0;
      CopyBytes(StoreByte(s, pa, b), cur, pa + 1, from + 1, n - 1)
  }

  // One turn of that loop.
  lemma ByteTurn(s: Phys, cur: nat, pa: nat, from: nat, n: nat)
    ensures CopyBytes(s, cur, pa, from, n) ==
      if n == 0 then s else
        var b := match ReadByte(s, cur, Low(from)) case Some(b) => b case None => 0;
        CopyBytes(StoreByte(s, pa, b), cur, pa + 1, from + 1, n - 1)
  {
    hide ReadByte, StoreByte, Low;
  }

  lemma ByteTurnIn(s: Phys, cur: nat, pa: nat, from: nat, n: nat, b: byte)
    requires n > 0 && from < 0x1_0000_0000 && ReadByte(s, cur, from) == Some(b)
    ensures CopyBytes(s, cur, pa, from, n) == CopyBytes(StoreByte(s, pa, b), cur, pa + 1, from + 1, n - 1)
  {
    hide *;
    ByteTurn(s, cur, pa, from, n);
  }

  // Only the low 32 bits of the source address count.
  lemma {:induction false} CopyBytesWraps(s: Phys, cur: nat, pa: nat, from: nat, from2: nat, n: nat)
    requires Low(from) == Low(from2)
    ensures CopyBytes(s, cur, pa, from, n) == CopyBytes(s, cur, pa, from2, n)
    decreases n
  {
    hide ReadByte, StoreByte, Low;
    if n == 0 {
    } else {
      var b := match ReadByte(s, cur, Low(from)) case Some(b) => b case None => 0;
      LowNext(from, 1);
      LowNext(from2, 1);
      CopyBytesWraps(StoreByte(s, pa, b), cur, pa + 1, from + 1, from2 + 1, n - 1);
    }
  }

  function Min(a: nat, b: nat): (m: nat)
    ensures m <= a && m <= b && (m == a || m == b)
  {
    if a < b then a else b
  }

  // memory32_copy_page_data; kernel_memcpy does nothing for a null source.
  function CopyPageData(s: Phys, cur: nat, to: nat, d: nat, from: nat, size: nat): (r: (Phys, int))
    ensures r.0.used == s.used && |r.0.ram| == |s.ram|
    decreases size
  {
    if size == 0 then (s, 0) else
      var pa := GetPaddr(s, d, Low(to));
      if pa == 0 then (s, -1) else
        var n := Min(PAGE_SIZE - pa % PAGE_SIZE, size);
        var s1 := if Low(from) == 0 then s else CopyBytes(s, cur, pa, from, n);
        CopyPageData(s1, cur, to + n, d, from + n, size - n)
  }

  // One turn of the loop.
  lemma ChunkTurn(s: Phys, cur: nat, to: nat, d: nat, from: nat, size: nat)
    ensures size == 0 ==> CopyPageData(s, cur, to, d, from, size) == (s, 0)
    ensures size > 0 ==> var pa := GetPaddr(s, d, Low(to));
      CopyPageData(s, cur, to, d, from, size) ==
        if pa == 0 then (s, -1) else
          var n := Min(PAGE_SIZE - pa % PAGE_SIZE, size);
          CopyPageData(if Low(from) == 0 then s else CopyBytes(s, cur, pa, from, n), cur, to + n, d, from + n, size - n)
  {
    hide GetPaddr, CopyBytes, Low;
  }

  lemma ChunkTurnIn(s: Phys, cur: nat, to: nat, d: nat, from: nat, size: nat, n: nat)
    requires 0 < size && to < 0x1_0000_0000 && 0 < from < 0x1_0000_0000 && GetPaddr(s, d, to) > 0
    requires n == Min(PAGE_SIZE - GetPaddr(s, d, to) % PAGE_SIZE, size)
    ensures CopyPageData(s, cur, to, d, from, size) ==
      CopyPageData(CopyBytes(s, cur, GetPaddr(s, d, to), from, n), cur, to + n, d, from + n, size - n)
  {
    hide *;
    ChunkTurn(s, cur, to, d, from, size);
  }

  // The frame behind an address.
  function FrameAt(s: Phys, d: nat, va: nat): Option<nat>
    requires va < 0x1_0000_0000
  {
    match Lookup(s.ram, d, va / PAGE_SIZE)
    case None => None
    case Some(m) => Some(m.frame)
  }

  ghost predicate Mapped(s: Phys, d: nat, va: nat, size: nat)
    requires va + size <= 0x1_0000_0000
  {
    forall a: nat | va <= a < va + size :: FrameAt(s, d, a).Some?
  }

  /** The two ranges are mapped, and no source byte lies in a destination frame. */
  ghost predicate Apart(s: Phys, cur: nat, from: nat, d: nat, to: nat, size: nat)
    requires to + size <= 0x1_0000_0000 && from + size <= 0x1_0000_0000
  {
    && Mapped(s, d, to, size) && Mapped(s, cur, from, size)
    && forall a: nat, b: nat | from <= a < from + size && to <= b < to + size :: FrameAt(s, cur, a) != FrameAt(s, d, b)
  }

  /** Only bytes o..o+n-1 of frame f changed, and they hold what the source range reads as in s. */
  ghost predicate Moved(s: Phys, s': Phys, cur: nat, from: nat, f: nat, o: nat, n: nat)
    requires from + n <= 0x1_0000_0000
  {
    && |s'.ram| == |s.ram| && s'.used == s.used && f < |s.ram|
    && (forall g: nat | g < |s.ram| && g != f :: s'.ram[g] == s.ram[g])
    && (forall x: nat | x < PAGE_SIZE :: Some(ByteAt(s'.ram[f], x)) ==
          if o <= x < o + n then ReadByte(s, cur, from + (x - o)) else Some(ByteAt(s.ram[f], x)))
  }

  /** Nothing about roles or translations has changed. */
  ghost predicate SameMaps(w: World, s': Phys) {
    && Inv(w.(phys := s'))
    && forall e: nat, q: nat | e in w.spaces && q < VPAGES :: Lookup(s'.ram, e, q) == Lookup(w.phys.ram, e, q)
  }

  /** One store to a byte of a user page. */
  lemma StoreByteMoves(w: World, d: nat, vp: nat, o: nat, b: byte)
    requires Inv(w) && Occupied(w, Leaf(d, vp)) && o < PAGE_SIZE
    ensures var f := FrameOf(w, Leaf(d, vp)); f < |w.phys.ram|
    ensures var f := FrameOf(w, Leaf(d, vp));
      var s1 := StoreByte(w.phys, f * PAGE_SIZE + o, b);
      SameMaps(w, s1) && s1.ram == w.phys.ram[f := SetByte(w.phys.ram[f], o, b)]
  {
    var f := FrameOf(w, Leaf(d, vp));
    Remainder4096(f, o);
    ContentWrite(w, d, vp, SetByte(w.phys.ram[f], o, b));
  }

  /** A write through one user address changes what that address of that space reads, and nothing else that any space
      can read above VM_TASK_BASE, nor any translation. */
  lemma UserWriteIsolated(w: World, d: nat, va: nat, b: byte, e: nat, va2: nat)
    requires Inv(w) && d in w.spaces && e in w.spaces && va < 0x1_0000_0000 && va2 < 0x1_0000_0000
    requires USER_PAGE <= va / PAGE_SIZE && USER_PAGE <= va2 / PAGE_SIZE && FrameAt(w.phys, d, va).Some?
    ensures var s' := StoreByte(w.phys, GetPaddr(w.phys, d, va), b);
      SameMaps(w, s') && ReadByte(s', e, va2) == if e == d && va2 == va then Some(b) else ReadByte(w.phys, e, va2)
  {
    hide Lookup;
    var x, y := Leaf(d, va / PAGE_SIZE), Leaf(e, va2 / PAGE_SIZE);
    assert Occupied(w, x);
    StoreByteMoves(w, d, va / PAGE_SIZE, va % PAGE_SIZE, b);
    GetPaddrMeans(w.phys, d, va);
    var s' := StoreByte(w.phys, GetPaddr(w.phys, d, va), b);
    assert Lookup(s'.ram, e, va2 / PAGE_SIZE) == Lookup(w.phys.ram, e, va2 / PAGE_SIZE);
    if FrameAt(w.phys, e, va2).Some? {
      assert Occupied(w, y);
      assert x == y || FrameOf(w, x) != FrameOf(w, y);
    }
  }

  /** What kernel_memcpy asks for: the bytes fit the page behind vp, and the source is mapped in other frames. */
  ghost predicate Copyable(w: World, cur: nat, d: nat, vp: nat, o: nat, from: nat, n: nat) {
    && Inv(w) && d in w.spaces && cur in w.spaces && Occupied(w, Leaf(d, vp))
    && o + n <= PAGE_SIZE && from + n <= 0x1_0000_0000 && Mapped(w.phys, cur, from, n)
    && forall a: nat | from <= a < from + n :: FrameAt(w.phys, cur, a) != Some(FrameOf(w, Leaf(d, vp)))
  }

  // The memory after it.
  function Stored(w: World, cur: nat, d: nat, vp: nat, o: nat, from: nat, n: nat): Phys
    requires Occupied(w, Leaf(d, vp))
  {
    CopyBytes(w.phys, cur, FrameOf(w, Leaf(d, vp)) * PAGE_SIZE + o, from, n)
  }

  /** Then those bytes of that page hold what the source reads as, and nothing else has changed. */
  ghost predicate Moves(w: World, cur: nat, d: nat, vp: nat, o: nat, from: nat, n: nat) {
    && Copyable(w, cur, d, vp, o, from, n)
    && var s' := Stored(w, cur, d, vp, o, from, n);
       SameMaps(w, s') && Moved(w.phys, s', cur, from, FrameOf(w, Leaf(d, vp)), o, n)
  }

  // The first byte: afterwards the rest can still be copied, and reads as before.
  ghost predicate FirstStored(w: World, w1: World, cur: nat, d: nat, vp: nat, o: nat, from: nat, n: nat, b: byte) {
    && n > 0 && Copyable(w, cur, d, vp, o, from, n) && Copyable(w1, cur, d, vp, o + 1, from + 1, n - 1)
    && var f := FrameOf(w, Leaf(d, vp));
       && ReadByte(w.phys, cur, from) == Some(b) && SameMaps(w, w1.phys) && f < |w.phys.ram|
       && w1 == w.(phys := w.phys.(ram := w.phys.ram[f := SetByte(w.phys.ram[f], o, b)]))
       && Stored(w, cur, d, vp, o, from, n) == Stored(w1, cur, d, vp, o + 1, from + 1, n - 1)
       && FrameOf(w1, Leaf(d, vp)) == f
       && forall a: nat | from + 1 <= a < from + n :: ReadByte(w1.phys, cur, a) == ReadByte(w.phys, cur, a)
  }

  lemma StoreFirst(w: World, cur: nat, d: nat, vp: nat, o: nat, from: nat, n: nat) returns (w1: World, b: byte)
    requires Copyable(w, cur, d, vp, o, from, n) && n > 0
    ensures FirstStored(w, w1, cur, d, vp, o, from, n, b)
    ensures Copyable(w1, cur, d, vp, o + 1, from + 1, n - 1)
  {
    hide Inv, Lookup, ByteAt, SetByte, StoreByte, CopyBytes, ReadByte, SameMaps, Low;
    var (f, pa) := (FrameOf(w, Leaf(d, vp)), FrameOf(w, Leaf(d, vp)) * PAGE_SIZE + o);
    assert FrameAt(w.phys, cur, from).Some?;
    MappedReads(w.phys, cur, from);
    b := ReadByte(w.phys, cur, from).value;
    ByteTurnIn(w.phys, cur, pa, from, n, b);
    StoreByteMoves(w, d, vp, o, b);
    var s1 := StoreByte(w.phys, pa, b);
    SourceUnchanged(w, s1, cur, f, o, b, from + 1, n - 1);
    SameLeaf(w, s1, d, vp);
    w1 := w.(phys := s1);
    assert f * PAGE_SIZE + (o + 1) == pa + 1;
  }

  lemma MovesMore(w: World, w1: World, cur: nat, d: nat, vp: nat, o: nat, from: nat, n: nat, b: byte)
    requires FirstStored(w, w1, cur, d, vp, o, from, n, b) && Moves(w1, cur, d, vp, o + 1, from + 1, n - 1)
    ensures Moves(w, cur, d, vp, o, from, n)
  {
    hide Inv, Lookup, ByteAt, SetByte, StoreByte, CopyBytes, ReadByte, SameMaps, Low, Stored, Moved;
    var s' := Stored(w, cur, d, vp, o, from, n);
    MovedStep(w.phys, w1.phys, s', cur, from, FrameOf(w, Leaf(d, vp)), o, n, b);
    SameMapsTrans(w, w1.phys, s');
  }

  lemma MovesNone(w: World, cur: nat, d: nat, vp: nat, o: nat, from: nat)
    requires Copyable(w, cur, d, vp, o, from, 0)
    ensures Moves(w, cur, d, vp, o, from, 0)
  {
    assert Used(w.phys, FrameOf(w, Leaf(d, vp)));
    hide Lookup, ByteAt;
  }

  /** One call of kernel_memcpy that stays in one destination page. */
  lemma {:induction false} CopyBytesMoves(w: World, cur: nat, d: nat, vp: nat, o: nat, from: nat, n: nat)
    requires Copyable(w, cur, d, vp, o, from, n)
    ensures Moves(w, cur, d, vp, o, from, n)
    decreases n
  {
    hide *;
    if n == 0 {
      MovesNone(w, cur, d, vp, o, from);
    } else {
      var w1, b := StoreFirst(w, cur, d, vp, o, from, n);
      CopyBytesMoves(w1, cur, d, vp, o + 1, from + 1, n - 1);
      MovesMore(w, w1, cur, d, vp, o, from, n, b);
    }
  }

  lemma SameMapsTrans(w: World, s1: Phys, s2: Phys)
    requires SameMaps(w, s1) && SameMaps(w.(phys := s1), s2)
    ensures SameMaps(w, s2)
  {
  }

  lemma SameLeaf(w: World, s1: Phys, d: nat, vp: nat)
    requires SameMaps(w, s1) && Occupied(w, Leaf(d, vp))
    ensures Occupied(w.(phys := s1), Leaf(d, vp)) && FrameOf(w.(phys := s1), Leaf(d, vp)) == FrameOf(w, Leaf(d, vp))
    ensures Inv(w.(phys := s1))
  {
  }

  lemma MappedReads(s: Phys, d: nat, va: nat)
    requires va < 0x1_0000_0000
    ensures ReadByte(s, d, va).Some? <==> FrameAt(s, d, va).Some?
  {
    hide Lookup, ByteAt;
  }

  lemma SourceUnchanged(w: World, s1: Phys, cur: nat, f: nat, o: nat, b: byte, from: nat, n: nat)
    requires cur in w.spaces && SameMaps(w, s1) && f < |w.phys.ram| && from + n <= 0x1_0000_0000
    requires o < PAGE_SIZE && s1.ram == w.phys.ram[f := SetByte(w.phys.ram[f], o, b)]
    requires forall a: nat | from <= a < from + n :: FrameAt(w.phys, cur, a).Some? && FrameAt(w.phys, cur, a) != Some(f)
    ensures forall a: nat | from <= a < from + n :: FrameAt(s1, cur, a) == FrameAt(w.phys, cur, a)
    ensures forall a: nat | from <= a < from + n :: ReadByte(s1, cur, a) == ReadByte(w.phys, cur, a)
  {
    hide Inv, Lookup, ByteAt, SetByte;
    forall a: nat | from <= a < from + n
      ensures FrameAt(s1, cur, a) == FrameAt(w.phys, cur, a) && ReadByte(s1, cur, a) == ReadByte(w.phys, cur, a)
    {
      assert FrameAt(w.phys, cur, a) != Some(f);
      assert Lookup(s1.ram, cur, a / PAGE_SIZE) == Lookup(w.phys.ram, cur, a / PAGE_SIZE);
    }
  }

  lemma MovedStep(s: Phys, s1: Phys, s': Phys, cur: nat, from: nat, f: nat, o: nat, n: nat, b: byte)
    requires 0 < n && o + n <= PAGE_SIZE && from + n <= 0x1_0000_0000 && f < |s.ram|
    requires s1 == s.(ram := s.ram[f := SetByte(s.ram[f], o, b)]) && ReadByte(s, cur, from) == Some(b)
    requires Moved(s1, s', cur, from + 1, f, o + 1, n - 1)
    requires forall a: nat | from + 1 <= a < from + n :: ReadByte(s1, cur, a) == ReadByte(s, cur, a)
    ensures Moved(s, s', cur, from, f, o, n)
  {
    hide ByteAt, ReadByte;
    forall x: nat | x < PAGE_SIZE
      ensures Some(ByteAt(s'.ram[f], x)) ==
        if o <= x < o + n then ReadByte(s, cur, from + (x - o)) else Some(ByteAt(s.ram[f], x))
    {
      if o < x < o + n {
        var a := from + 1 + (x - (o + 1));
        assert a == from + (x - o);
        assert ReadByte(s1, cur, a) == ReadByte(s, cur, a);
      }
    }
  }

  /** Virtual bytes [to, to+size) of d now hold what [from, from+size) of cur read as, every byte of memory outside
      their frames' positions is as before, and so is every role and translation. */
  ghost predicate CopiedRange(w: World, s': Phys, cur: nat, from: nat, d: nat, to: nat, size: nat)
    requires to + size <= 0x1_0000_0000 && from + size <= 0x1_0000_0000
  {
    && SameMaps(w, s') && |s'.ram| == |w.phys.ram| && s'.used == w.phys.used
    && (forall b: nat | to <= b < to + size :: ReadByte(s', d, b) == ReadByte(w.phys, cur, from + (b - to)))
    && (forall g: nat, x: nat | g < |s'.ram| && x < PAGE_SIZE && !Hit(w.phys, d, to, size, g, x) ::
          ByteAt(s'.ram[g], x) == ByteAt(w.phys.ram[g], x))
  }

  // Byte x of frame g lies behind some address of the range.
  ghost predicate Hit(s: Phys, d: nat, to: nat, size: nat, g: nat, x: nat)
    requires to + size <= 0x1_0000_0000
  {
    exists b: nat :: to <= b < to + size && FrameAt(s, d, b) == Some(g) && b % PAGE_SIZE == x
  }

  lemma SamePage(to: nat, b: nat, n: nat)
    requires to <= b < to + n && to % PAGE_SIZE + n <= PAGE_SIZE
    ensures b / PAGE_SIZE == to / PAGE_SIZE && b % PAGE_SIZE == to % PAGE_SIZE + (b - to)
  {
    Remainder4096(to / PAGE_SIZE, to % PAGE_SIZE + (b - to));
  }

  /** The chunk that ends with the page or with the data: one turn of the loop. */
  lemma ChunkCopied(w: World, cur: nat, d: nat, to: nat, from: nat, n: nat)
    requires Inv(w) && d in w.spaces && cur in w.spaces && USER_PAGE <= to / PAGE_SIZE && 0 < n
    requires to + n <= 0x1_0000_0000 && from + n <= 0x1_0000_0000 && to % PAGE_SIZE + n <= PAGE_SIZE
    requires Apart(w.phys, cur, from, d, to, n)
    ensures CopiedRange(w, CopyBytes(w.phys, cur, GetPaddr(w.phys, d, to), from, n), cur, from, d, to, n)
  {
    hide Inv, SameMaps, ByteAt, Lookup, Moved, ReadByte, CopyBytes, Hit;
    var vp, o := to / PAGE_SIZE, to % PAGE_SIZE;
    assert FrameAt(w.phys, d, to).Some?;
    GetPaddrMeans(w.phys, d, to);
    var f := FrameAt(w.phys, d, to).value;
    assert Occupied(w, Leaf(d, vp)) && FrameOf(w, Leaf(d, vp)) == f;
    forall a: nat | from <= a < from + n
      ensures FrameAt(w.phys, cur, a) != Some(f)
    {
    }
    CopyBytesMoves(w, cur, d, vp, o, from, n);
    var s' := CopyBytes(w.phys, cur, f * PAGE_SIZE + o, from, n);
    ChunkReads(w, s', cur, d, to, from, n, f);
    ChunkRest(w.phys, s', cur, d, to, from, n, f);
  }

  lemma ChunkRest(s: Phys, s': Phys, cur: nat, d: nat, to: nat, from: nat, n: nat, f: nat)
    requires to + n <= 0x1_0000_0000 && from + n <= 0x1_0000_0000 && to % PAGE_SIZE + n <= PAGE_SIZE && 0 < n
    requires Moved(s, s', cur, from, f, to % PAGE_SIZE, n) && FrameAt(s, d, to) == Some(f)
    ensures forall g: nat, x: nat | g < |s'.ram| && x < PAGE_SIZE && !Hit(s, d, to, n, g, x) ::
      ByteAt(s'.ram[g], x) == ByteAt(s.ram[g], x)
  {
    hide ByteAt, Lookup;
    var o := to % PAGE_SIZE;
    forall x: nat | o <= x < o + n
      ensures Hit(s, d, to, n, f, x)
    {
      var b := to + (x - o);
      SamePage(to, b, n);
      assert FrameAt(s, d, b) == Some(f);
    }
  }

  lemma ChunkReads(w: World, s': Phys, cur: nat, d: nat, to: nat, from: nat, n: nat, f: nat)
    requires d in w.spaces && to + n <= 0x1_0000_0000 && from + n <= 0x1_0000_0000 && to % PAGE_SIZE + n <= PAGE_SIZE
    requires SameMaps(w, s') && Moved(w.phys, s', cur, from, f, to % PAGE_SIZE, n) && 0 < n
    requires FrameAt(w.phys, d, to) == Some(f)
    ensures forall b: nat | to <= b < to + n :: ReadByte(s', d, b) == ReadByte(w.phys, cur, from + (b - to))
  {
    hide Inv, ByteAt, Lookup;
    forall b: nat | to <= b < to + n
      ensures ReadByte(s', d, b) == ReadByte(w.phys, cur, from + (b - to))
    {
      SamePage(to, b, n);
      assert Lookup(s'.ram, d, b / PAGE_SIZE) == Lookup(w.phys.ram, d, to / PAGE_SIZE);
    }
  }

  /** The chunks already copied and the rest join: later chunks go to other frames. */
  lemma JoinChunks(w: World, s1: Phys, s': Phys, cur: nat, from: nat, d: nat, to: nat, n: nat, size: nat)
    requires 0 < n < size && d in w.spaces && cur in w.spaces && Inv(w)
    requires USER_PAGE <= to / PAGE_SIZE && (to + n) % PAGE_SIZE == 0
    requires to + size <= 0x1_0000_0000 && from + size <= 0x1_0000_0000 && Apart(w.phys, cur, from, d, to, size)
    requires CopiedRange(w, s1, cur, from, d, to, n)
    requires CopiedRange(w.(phys := s1), s', cur, from + n, d, to + n, size - n)
    ensures CopiedRange(w, s', cur, from, d, to, size)
  {
    hide Inv, ByteAt, Lookup;
    forall b: nat | to <= b < to + size
      ensures ReadByte(s', d, b) == ReadByte(w.phys, cur, from + (b - to))
    {
      if b < to + n {
        EarlierChunkKept(w, s1, s', cur, from, d, to, n, size, b);
      } else {
        SourceKept(w, s1, cur, from, d, to, n, size, from + (b - to));
        assert from + n + (b - (to + n)) == from + (b - to);
      }
    }
    forall g: nat, x: nat | g < |s'.ram| && x < PAGE_SIZE && !Hit(w.phys, d, to, size, g, x)
      ensures ByteAt(s'.ram[g], x) == ByteAt(w.phys.ram[g], x)
    {
      HitMono(w.phys, d, to, n, size, g, x);
      HitTail(w, s1, d, to, n, size, g, x);
    }
  }

  lemma HitMono(s: Phys, d: nat, to: nat, n: nat, size: nat, g: nat, x: nat)
    requires n <= size && to + size <= 0x1_0000_0000
    ensures Hit(s, d, to, n, g, x) ==> Hit(s, d, to, size, g, x)
  {
  }

  lemma HitTail(w: World, s1: Phys, d: nat, to: nat, n: nat, size: nat, g: nat, x: nat)
    requires n <= size && to + size <= 0x1_0000_0000 && SameMaps(w, s1) && d in w.spaces
    ensures Hit(s1, d, to + n, size - n, g, x) ==> Hit(w.phys, d, to, size, g, x)
  {
    hide Lookup, Inv;
    if Hit(s1, d, to + n, size - n, g, x) {
      var b: nat :| to + n <= b < to + size && FrameAt(s1, d, b) == Some(g) && b % PAGE_SIZE == x;
      assert FrameAt(w.phys, d, b) == FrameAt(s1, d, b);
    }
  }

  // A source byte still to be read is not touched by the chunk.
  lemma SourceKept(w: World, s1: Phys, cur: nat, from: nat, d: nat, to: nat, n: nat, size: nat, a: nat)
    requires n <= size && d in w.spaces && cur in w.spaces && from <= a < from + size
    requires to + size <= 0x1_0000_0000 && from + size <= 0x1_0000_0000 && Apart(w.phys, cur, from, d, to, size)
    requires CopiedRange(w, s1, cur, from, d, to, n)
    ensures FrameAt(s1, cur, a) == FrameAt(w.phys, cur, a) && ReadByte(s1, cur, a) == ReadByte(w.phys, cur, a)
  {
    hide Inv, ByteAt, Lookup;
    assert FrameAt(w.phys, cur, a).Some?;
    assert Lookup(s1.ram, cur, a / PAGE_SIZE) == Lookup(w.phys.ram, cur, a / PAGE_SIZE);
    var g := FrameAt(w.phys, cur, a).value;
    assert !Hit(w.phys, d, to, n, g, a % PAGE_SIZE);
  }

  // A byte copied earlier lies in another page, hence in another frame, than the rest of the destination.
  lemma EarlierChunkKept(w: World, s1: Phys, s': Phys, cur: nat, from: nat, d: nat, to: nat, n: nat, size: nat, b: nat)
    requires 0 < n < size && d in w.spaces && cur in w.spaces && Inv(w) && to <= b < to + n
    requires USER_PAGE <= to / PAGE_SIZE && (to + n) % PAGE_SIZE == 0
    requires to + size <= 0x1_0000_0000 && from + size <= 0x1_0000_0000 && Apart(w.phys, cur, from, d, to, size)
    requires CopiedRange(w, s1, cur, from, d, to, n)
    requires CopiedRange(w.(phys := s1), s', cur, from + n, d, to + n, size - n)
    ensures ReadByte(s', d, b) == ReadByte(w.phys, cur, from + (b - to))
  {
    hide Inv, ByteAt, Lookup, CopyBytes;
    assert FrameAt(w.phys, d, b).Some?;
    var g := FrameAt(w.phys, d, b).value;
    assert Lookup(s'.ram, d, b / PAGE_SIZE) == Lookup(s1.ram, d, b / PAGE_SIZE) == Lookup(w.phys.ram, d, b / PAGE_SIZE);
    forall c: nat | to + n <= c < to + size
      ensures FrameAt(s1, d, c) != Some(g)
    {
      assert Lookup(s1.ram, d, c / PAGE_SIZE) == Lookup(w.phys.ram, d, c / PAGE_SIZE);
      DistinctPages(w, d, b, c);
    }
    var x := b % PAGE_SIZE;
    assert !Hit(s1, d, to + n, size - n, g, x);
    assert g < |s'.ram| ==> ByteAt(s'.ram[g], x) == ByteAt(s1.ram[g], x);
    assert ReadByte(s', d, b) == ReadByte(s1, d, b);
  }

  lemma DistinctPages(w: World, d: nat, b: nat, c: nat)
    requires Inv(w) && d in w.spaces && USER_PAGE <= b / PAGE_SIZE && b < 0x1_0000_0000 && c < 0x1_0000_0000
    requires USER_PAGE <= c / PAGE_SIZE && b / PAGE_SIZE != c / PAGE_SIZE && FrameAt(w.phys, d, b).Some?
    ensures FrameAt(w.phys, d, c) != FrameAt(w.phys, d, b)
  {
    hide Lookup;
    if FrameAt(w.phys, d, c).Some? {
      assert Occupied(w, Leaf(d, b / PAGE_SIZE)) && Occupied(w, Leaf(d, c / PAGE_SIZE));
    }
  }

  /** memory32_copy_page_data terminates with 0 when every destination page is mapped and the source lies elsewhere,
      and then the range is copied, even when consecutive pages sit in unrelated frames. */
  lemma {:induction false} CopyPageDataCopies(w: World, cur: nat, to: nat, d: nat, from: nat, size: nat)
    requires Inv(w) && d in w.spaces && cur in w.spaces && USER_PAGE <= to / PAGE_SIZE && 0 < from
    requires to + size <= 0x1_0000_0000 && from + size <= 0x1_0000_0000 && Apart(w.phys, cur, from, d, to, size)
    ensures var (s', code) := CopyPageData(w.phys, cur, to, d, from, size);
      code == 0 && CopiedRange(w, s', cur, from, d, to, size)
    decreases size
  {
    hide CopyBytes, Lookup, CopiedRange, Inv, Apart, GetPaddr, CopyPageData, Min, Low;
    if size == 0 {
      NothingCopied(w, cur, from, d, to);
      ChunkTurn(w.phys, cur, to, d, from, 0);
    } else {
      var n := Min(PAGE_SIZE - to % PAGE_SIZE, size);
      WholeChunk(to, size, size);
      ApartPrefix(w.phys, cur, from, d, to, n, size);
      MappedPaddr(w, cur, from, d, to, size);
      ChunkCopied(w, cur, d, to, from, n);
      ChunkTurnIn(w.phys, cur, to, d, from, size, n);
      var s1 := CopyBytes(w.phys, cur, GetPaddr(w.phys, d, to), from, n);
      CopiedKeepsInv(w, s1, cur, from, d, to, n);
      if n < size {
        NextPage(to);
        ApartRest(w, s1, cur, from, d, to, n, size);
        CopyPageDataCopies(w.(phys := s1), cur, to + n, d, from + n, size - n);
        JoinChunks(w, s1, CopyPageData(s1, cur, to + n, d, from + n, size - n).0, cur, from, d, to, n, size);
      } else {
        ChunkTurn(s1, cur, to + size, d, from + size, 0);
      }
    }
  }

  lemma NextPage(to: nat)
    ensures var t := to + (PAGE_SIZE - to % PAGE_SIZE); t % PAGE_SIZE == 0 && t / PAGE_SIZE == to / PAGE_SIZE + 1
  {
    Remainder4096(to / PAGE_SIZE + 1, 0);
  }

  lemma MappedPaddr(w: World, cur: nat, from: nat, d: nat, to: nat, size: nat)
    requires Inv(w) && d in w.spaces && USER_PAGE <= to / PAGE_SIZE && 0 < size
    requires to + size <= 0x1_0000_0000 && from + size <= 0x1_0000_0000 && Apart(w.phys, cur, from, d, to, size)
    ensures GetPaddr(w.phys, d, to) > 0 && GetPaddr(w.phys, d, to) % PAGE_SIZE == to % PAGE_SIZE
  {
    hide Lookup;
    assert FrameAt(w.phys, d, to).Some?;
    assert Occupied(w, Leaf(d, to / PAGE_SIZE));
    assert Used(w.phys, FrameOf(w, Leaf(d, to / PAGE_SIZE)));
    GetPaddrMeans(w.phys, d, to);
    Remainder4096(FrameAt(w.phys, d, to).value, to % PAGE_SIZE);
  }

  lemma NothingCopied(w: World, cur: nat, from: nat, d: nat, to: nat)
    requires Inv(w) && to <= 0x1_0000_0000 && from <= 0x1_0000_0000
    ensures CopiedRange(w, w.phys, cur, from, d, to, 0)
  {
    hide Lookup, ByteAt, ReadByte;
  }

  lemma CopiedKeepsInv(w: World, s1: Phys, cur: nat, from: nat, d: nat, to: nat, n: nat)
    requires to + n <= 0x1_0000_0000 && from + n <= 0x1_0000_0000 && CopiedRange(w, s1, cur, from, d, to, n)
    ensures Inv(w.(phys := s1))
  {
  }

  lemma ApartPrefix(s: Phys, cur: nat, from: nat, d: nat, to: nat, n: nat, size: nat)
    requires n <= size && to + size <= 0x1_0000_0000 && from + size <= 0x1_0000_0000
    requires Apart(s, cur, from, d, to, size)
    ensures Apart(s, cur, from, d, to, n)
  {
  }

  lemma ApartRest(w: World, s1: Phys, cur: nat, from: nat, d: nat, to: nat, n: nat, size: nat)
    requires n <= size && to + size <= 0x1_0000_0000 && from + size <= 0x1_0000_0000
    requires d in w.spaces && cur in w.spaces && Apart(w.phys, cur, from, d, to, size)
    requires CopiedRange(w, s1, cur, from, d, to, n)
    ensures Apart(s1, cur, from + n, d, to + n, size - n)
  {
    hide Inv, Lookup;
    forall e: nat, a: nat | e in w.spaces && a < 0x1_0000_0000
      ensures FrameAt(s1, e, a) == FrameAt(w.phys, e, a)
    {
      assert Lookup(s1.ram, e, a / PAGE_SIZE) == Lookup(w.phys.ram, e, a / PAGE_SIZE);
    }
  }

  /** Between two user ranges of different spaces the source is never in a destination frame: isolation gives it. */
  lemma DifferentSpacesApart(w: World, cur: nat, from: nat, d: nat, to: nat, size: nat)
    requires Inv(w) && d in w.spaces && cur in w.spaces && d != cur
    requires to + size <= 0x1_0000_0000 && from + size <= 0x1_0000_0000
    requires USER_PAGE <= to / PAGE_SIZE && USER_PAGE <= from / PAGE_SIZE
    requires Mapped(w.phys, d, to, size) && Mapped(w.phys, cur, from, size)
    ensures Apart(w.phys, cur, from, d, to, size)
  {
    hide Lookup;
    forall a: nat, b: nat | from <= a < from + size && to <= b < to + size
      ensures FrameAt(w.phys, cur, a) != FrameAt(w.phys, d, b)
    {
      assert FrameAt(w.phys, cur, a).Some? && FrameAt(w.phys, d, b).Some?;
      assert Occupied(w, Leaf(cur, a / PAGE_SIZE)) && Occupied(w, Leaf(d, b / PAGE_SIZE));
      assert Leaf(cur, a / PAGE_SIZE) != Leaf(d, b / PAGE_SIZE);
    }
  }

  // ---- a missing destination page

  /** The chunks before a page boundary come first. */
  lemma {:induction false} PrefixFirst(w: World, cur: nat, to: nat, d: nat, from: nat, n: nat, size: nat)
    requires Inv(w) && d in w.spaces && cur in w.spaces && USER_PAGE <= to / PAGE_SIZE && 0 < from
    requires n <= size && to + size <= 0x1_0000_0000 && from + size <= 0x1_0000_0000 && Apart(w.phys, cur, from, d, to, n)
    requires n == 0 || n == size || (to + n) % PAGE_SIZE == 0
    ensures var s1 := CopyPageData(w.phys, cur, to, d, from, n).0;
      CopyPageData(w.phys, cur, to, d, from, size) == CopyPageData(s1, cur, to + n, d, from + n, size - n)
    decreases n
  {
    hide CopyBytes, Lookup, CopiedRange, Inv, Apart, GetPaddr, CopyPageData, Min, Low;
    ChunkTurn(w.phys, cur, to, d, from, 0);
    if n == 0 {
    } else {
      var c := Min(PAGE_SIZE - to % PAGE_SIZE, n);
      MappedPaddr(w, cur, from, d, to, n);
      WholeChunk(to, n, size);
      ApartPrefix(w.phys, cur, from, d, to, c, n);
      ChunkCopied(w, cur, d, to, from, c);
      ChunkTurnIn(w.phys, cur, to, d, from, size, c);
      ChunkTurnIn(w.phys, cur, to, d, from, n, c);
      var s1 := CopyBytes(w.phys, cur, GetPaddr(w.phys, d, to), from, c);
      CopiedKeepsInv(w, s1, cur, from, d, to, c);
      if c < n {
        NextPage(to);
        ApartRest(w, s1, cur, from, d, to, c, n);
        PrefixFirst(w.(phys := s1), cur, to + c, d, from + c, n - c, size - c);
      } else {
        ChunkTurn(s1, cur, to + n, d, from + n, 0);
      }
    }
  }

  // The first chunk is the same for the prefix.
  lemma WholeChunk(to: nat, n: nat, size: nat)
    requires 0 < n <= size && (n == size || (to + n) % PAGE_SIZE == 0)
    ensures Min(PAGE_SIZE - to % PAGE_SIZE, size) == Min(PAGE_SIZE - to % PAGE_SIZE, n)
    ensures 0 < Min(PAGE_SIZE - to % PAGE_SIZE, n) && to % PAGE_SIZE + Min(PAGE_SIZE - to % PAGE_SIZE, n) <= PAGE_SIZE
  {
    if n < PAGE_SIZE - to % PAGE_SIZE && n < size {
      Remainder4096(to / PAGE_SIZE, to % PAGE_SIZE + n);
    }
  }

  // The entry that would map page q.
  function PageEntry(s: Phys, d: nat, q: nat): word
    requires q < VPAGES
  {
    Entry(s.ram, Table(s, d, q / ENTRIES), q % ENTRIES)
  }

  // A frame that is a directory or a table is no destination of the copy.
  lemma RoleNoUserFrame(w: World, d: nat, b: nat, x: Slot)
    requires Inv(w) && d in w.spaces && b < 0x1_0000_0000 && USER_PAGE <= b / PAGE_SIZE
    requires Occupied(w, x) && !x.Leaf?
    ensures FrameAt(w.phys, d, b) != Some(FrameOf(w, x))
  {
    hide Lookup;
    var y := Leaf(d, b / PAGE_SIZE);
    assert FrameAt(w.phys, d, b).Some? ==> Occupied(w, y) && FrameOf(w, y) == FrameAt(w.phys, d, b).value;
    assert Occupied(w, y) ==> FrameOf(w, y) != FrameOf(w, x);
  }

  lemma RolesNotHit(w: World, d: nat, to: nat, size: nat, x: Slot, k: nat)
    requires Inv(w) && d in w.spaces && to + size <= 0x1_0000_0000 && USER_PAGE <= to / PAGE_SIZE
    requires Occupied(w, x) && !x.Leaf?
    ensures !Hit(w.phys, d, to, size, FrameOf(w, x), k)
  {
    hide Inv, Lookup, FrameAt, Occupied, FrameOf;
    forall b: nat | to <= b < to + size
      ensures FrameAt(w.phys, d, b) != Some(FrameOf(w, x))
    {
      RoleNoUserFrame(w, d, b, x);
    }
  }

  lemma RolesKept(w: World, s': Phys, cur: nat, from: nat, d: nat, to: nat, size: nat, x: Slot)
    requires Inv(w) && d in w.spaces && USER_PAGE <= to / PAGE_SIZE
    requires to + size <= 0x1_0000_0000 && from + size <= 0x1_0000_0000
    requires CopiedRange(w, s', cur, from, d, to, size) && Occupied(w, x) && !x.Leaf?
    ensures PageAt(s'.ram, FrameOf(w, x)) == PageAt(w.phys.ram, FrameOf(w, x))
  {
    hide Lookup, ByteAt, Hit, SameMaps;
    var g := FrameOf(w, x);
    if g < |s'.ram| {
      forall k: nat | k < PAGE_SIZE
        ensures ByteAt(s'.ram[g], k) == ByteAt(w.phys.ram[g], k)
      {
        RolesNotHit(w, d, to, size, x, k);
      }
      PageFromBytes(s'.ram[g], w.phys.ram[g]);
    }
  }

  // Copying user bytes leaves the entries of every user page alone, present or not.
  lemma EntriesKept(w: World, s': Phys, cur: nat, from: nat, d: nat, to: nat, size: nat, q: nat)
    requires Inv(w) && d in w.spaces && USER_PAGE <= to / PAGE_SIZE && UserPage(q)
    requires to + size <= 0x1_0000_0000 && from + size <= 0x1_0000_0000
    requires CopiedRange(w, s', cur, from, d, to, size)
    ensures HasTable(s', d, q / ENTRIES) == HasTable(w.phys, d, q / ENTRIES)
    ensures HasTable(w.phys, d, q / ENTRIES) ==> PageEntry(s', d, q) == PageEntry(w.phys, d, q)
  {
    assert Occupied(w, Directory(d)) && FrameOf(w, Directory(d)) == d;
    RolesKept(w, s', cur, from, d, to, size, Directory(d));
    if HasTable(w.phys, d, q / ENTRIES) {
      var x := UserTable(d, q / ENTRIES);
      assert Occupied(w, x) && FrameOf(w, x) == Table(w.phys, d, q / ENTRIES);
      RolesKept(w, s', cur, from, d, to, size, x);
    }
    hide Inv, CopiedRange, Lookup;
  }

  /** Where the copy meets a page without mapping: its table is missing, or its entry names frame 0 and the address is
      aligned, which it is but in the first page. */
  predicate Stops(s: Phys, d: nat, va: nat)
    requires va < 0x1_0000_0000
  {
    var q := va / PAGE_SIZE;
    !HasTable(s, d, q / ENTRIES) || (Frame(PageEntry(s, d, q)) == 0 && va % PAGE_SIZE == 0)
  }

  lemma StopsMeans(s: Phys, d: nat, va: nat)
    requires va < 0x1_0000_0000
    ensures GetPaddr(s, d, va) == 0 <==> Stops(s, d, va)
    ensures GetPaddr(s, d, va) % PAGE_SIZE == if HasTable(s, d, va / PAGE_SIZE / ENTRIES) then va % PAGE_SIZE else 0
  {
    var q := va / PAGE_SIZE;
    if HasTable(s, d, q / ENTRIES) {
      Remainder4096(Frame(PageEntry(s, d, q)), va % PAGE_SIZE);
    }
  }

  lemma StopsKept(w: World, s': Phys, cur: nat, from: nat, d: nat, to: nat, n: nat)
    requires Inv(w) && d in w.spaces && USER_PAGE <= to / PAGE_SIZE && to + n < 0x1_0000_0000 && from + n <= 0x1_0000_0000
    requires CopiedRange(w, s', cur, from, d, to, n)
    ensures Stops(s', d, to + n) == Stops(w.phys, d, to + n)
  {
    hide Inv, CopiedRange, HasTable, PageEntry;
    EntriesKept(w, s', cur, from, d, to, n, (to + n) / PAGE_SIZE);
  }

  // The turn of the loop at that page.
  lemma StopsTurn(s: Phys, cur: nat, to: nat, d: nat, from: nat, size: nat)
    requires size > 0 && to < 0x1_0000_0000 && 0 < from < 0x1_0000_0000
    ensures Stops(s, d, to) ==> CopyPageData(s, cur, to, d, from, size) == (s, -1)
    ensures !Stops(s, d, to) ==> CopyPageData(s, cur, to, d, from, size) == PassedPage(s, cur, to, d, from, size)
  {
    hide *;
    ChunkTurn(s, cur, to, d, from, size);
    StopsMeans(s, d, to);
    PassedMeans(s, cur, to, d, from, size);
  }

  /** get_paddr gave an address: the bytes for the page go there, and the loop goes on behind it. */
  function PassedPage(s: Phys, cur: nat, to: nat, d: nat, from: nat, size: nat): (Phys, int)
    requires to < 0x1_0000_0000
  {
    var pa := GetPaddr(s, d, to);
    var c := Min(PAGE_SIZE - pa % PAGE_SIZE, size);
    CopyPageData(CopyBytes(s, cur, pa, from, c), cur, to + c, d, from + c, size - c)
  }

  lemma PassedMeans(s: Phys, cur: nat, to: nat, d: nat, from: nat, size: nat)
    requires to < 0x1_0000_0000
    ensures PassedPage(s, cur, to, d, from, size) ==
      var pa := GetPaddr(s, d, to);
      var c := Min(PAGE_SIZE - pa % PAGE_SIZE, size);
      CopyPageData(CopyBytes(s, cur, pa, from, c), cur, to + c, d, from + c, size - c)
  {
    hide GetPaddr, CopyPageData, CopyBytes, Min;
  }

  /** The first unmapped destination page, n bytes into the range, for every size: the n bytes before it are copied; then
      -1 is returned exactly when the table is missing, or the entry names frame 0 and the address is aligned. Otherwise
      get_paddr gives an address, the bytes for that page go there, and the loop goes on. */
  lemma MissingPage(w: World, cur: nat, to: nat, d: nat, from: nat, n: nat, size: nat)
    requires Inv(w) && d in w.spaces && cur in w.spaces && USER_PAGE <= to / PAGE_SIZE && 0 < from
    requires n < size && to + size <= 0x1_0000_0000 && from + size <= 0x1_0000_0000
    requires Apart(w.phys, cur, from, d, to, n) && FrameAt(w.phys, d, to + n) == None
    requires n == 0 || (to + n) % PAGE_SIZE == 0
    ensures CopiedRange(w, CopyPageData(w.phys, cur, to, d, from, n).0, cur, from, d, to, n)
    ensures CopyPageData(w.phys, cur, to, d, from, size) ==
      var s1 := CopyPageData(w.phys, cur, to, d, from, n).0;
      if Stops(w.phys, d, to + n) then (s1, -1) else PassedPage(s1, cur, to + n, d, from + n, size - n)
  {
    hide *;
    CopyPageDataCopies(w, cur, to, d, from, n);
    PrefixFirst(w, cur, to, d, from, n, size);
    var s1 := CopyPageData(w.phys, cur, to, d, from, n).0;
    StopsKept(w, s1, cur, from, d, to, n);
    StopsTurn(s1, cur, to + n, d, from + n, size - n);
  }

  /** For a range that ends in that page, -1 is the answer exactly then. */
  lemma MissingLastPage(w: World, cur: nat, to: nat, d: nat, from: nat, n: nat, size: nat)
    requires Inv(w) && d in w.spaces && cur in w.spaces && USER_PAGE <= to / PAGE_SIZE && 0 < from
    requires n < size && to + size <= 0x1_0000_0000 && from + size <= 0x1_0000_0000
    requires Apart(w.phys, cur, from, d, to, n) && FrameAt(w.phys, d, to + n) == None
    requires n == 0 || (to + n) % PAGE_SIZE == 0
    requires (to + n) % PAGE_SIZE + (size - n) <= PAGE_SIZE
    ensures CopyPageData(w.phys, cur, to, d, from, size).1 == if Stops(w.phys, d, to + n) then -1 else 0
  {
    hide *;
    MissingPage(w, cur, to, d, from, n, size);
    var s1 := CopyPageData(w.phys, cur, to, d, from, n).0;
    CopyPageDataCopies(w, cur, to, d, from, n);
    StopsKept(w, s1, cur, from, d, to, n);
    PassedLast(s1, cur, to + n, d, from + n, size - n);
  }

  lemma PassedLast(s: Phys, cur: nat, to: nat, d: nat, from: nat, size: nat)
    requires to < 0x1_0000_0000 && to % PAGE_SIZE + size <= PAGE_SIZE
    ensures Stops(s, d, to) || PassedPage(s, cur, to, d, from, size).1 == 0
  {
    hide GetPaddr, CopyPageData, CopyBytes, Min, HasTable, PageEntry;
    StopsMeans(s, d, to);
    var pa := GetPaddr(s, d, to);
    var c := Min(PAGE_SIZE - pa % PAGE_SIZE, size);
    ChunkTurn(CopyBytes(s, cur, pa, from, c), cur, to + c, d, from + c, 0);
  }

  // ---- a null source

  /** kernel_memcpy does nothing for a source at 0: a copy from there into one page leaves memory as it was, and still
      returns 0 when get_paddr gives an address. */
  lemma NullSource(s: Phys, cur: nat, to: nat, d: nat, size: nat)
    requires to < 0x1_0000_0000 && 0 < size && GetPaddr(s, d, to) % PAGE_SIZE + size <= PAGE_SIZE
    ensures CopyPageData(s, cur, to, d, 0, size) == (s, if GetPaddr(s, d, to) == 0 then -1 else 0)
  {
    hide GetPaddr, CopyBytes, CopyPageData;
    ChunkTurn(s, cur, to, d, 0, size);
    ChunkTurn(s, cur, to + size, d, size, 0);
  }
}
