/** Page frames, page tables and fork as functions of memory (src/kernel32/memory32.c). Frames and pages are named by
    number; the C code carries addresses, 4096 times those numbers. */
module Memory32 {
  import opened Wrappers
  import opened PageLayout
  import opened FrameBits

  // PM_EXT_START / PAGE_SIZE: the first frame the bitmap manages.
  const FIRST: int := 256

  /** Physical memory and the frame bitmap. Frame FIRST+i is in use when used[i] is set. */
  datatype Phys = Phys(ram: seq<Page>, used: seq<bool>)

  predicate WellFormed(s: Phys) { |s.ram| == FIRST + |s.used| <= VPAGES }

  predicate Used(s: Phys, f: int) { FIRST <= f < FIRST + |s.used| && s.used[f - FIRST] }

  predicate Free(s: Phys, f: int) { FIRST <= f < FIRST + |s.used| && !s.used[f - FIRST] }

  // memory32_alloc_page with count 1. None is the C code's address 0.
  function AllocPage(s: Phys): (r: (Phys, Option<nat>))
    ensures r.0.ram == s.ram && |r.0.used| == |s.used|
    ensures r.1.Some? ==> Free(s, r.1.value)
    ensures forall f :: Used(r.0, f) <==> Used(s, f) || (r.1.Some? && f == r.1.value)
    ensures r.1.None? <==> forall f :: !Free(s, f)
  {
    var i := LowestClear(s.used, 0);
    if i < |s.used| then
      assert Free(s, FIRST + i);
      (s.(used := s.used[i := true]), Some(FIRST + i))
    else (s, None)
  }

  // memory32_free_page with count 1. Below FIRST the unsigned index is past the end of the map, which clips it.
  function FreePage(s: Phys, f: nat): (r: Phys)
    ensures r.ram == s.ram && |r.used| == |s.used|
    ensures forall g :: Used(r, g) <==> Used(s, g) && g != f
  {
    if FIRST <= f < FIRST + |s.used| then s.(used := s.used[f - FIRST := false]) else s
  }

  // find_pte with alloc set: the frame of the table that covers vp, allocating and zeroing it when absent.
  function FindPte(s: Phys, d: nat, vp: nat): (r: (Phys, Option<nat>))
    requires WellFormed(s) && vp < VPAGES
    ensures WellFormed(r.0) && |r.0.used| == |s.used|
  {
    var e := Entry(s.ram, d, vp / ENTRIES);
    if Present(e) then (s, Some(Frame(e))) else
      var (s1, t) := AllocPage(s);
      match t
      case None => (s1, None)
      case Some(t) => (s1.(ram := SetEntry(s1.ram, d, vp / ENTRIES, MakeEntry(t, 7))[t := ZeroPage()]), Some(t))
  }

  // One turn of the loop of memory32_create_map.
  function MapPage(s: Phys, d: nat, vp: nat, f: nat, perm: nat): (r: (Phys, bool))
    requires WellFormed(s) && vp < VPAGES && f < VPAGES && perm < PAGE_SIZE
    ensures WellFormed(r.0) && |r.0.used| == |s.used|
  {
    var (s1, t) := FindPte(s, d, vp);
    match t
    case None => (s1, false)
    case Some(t) => (s1.(ram := SetEntry(s1.ram, t, vp % ENTRIES, MakeEntry(f, WithPresent(perm)))), true)
  }

  // memory32_create_map; running off its end counts as success. Both addresses wrap at 32 bits.
  function CreateMap(s: Phys, d: nat, vp: nat, f: nat, count: nat, perm: nat): (r: (Phys, bool))
    requires WellFormed(s) && vp < VPAGES && f < VPAGES && perm < PAGE_SIZE
    ensures WellFormed(r.0) && |r.0.used| == |s.used|
    decreases count
  {
    if count == 0 then (s, true) else
      var (s1, ok) := MapPage(s, d, vp, f, perm);
      if ok then CreateMap(s1, d, (vp + 1) % VPAGES, (f + 1) % VPAGES, count - 1, perm) else (s1, false)
  }

  // One turn of the loop of memory32_alloc_task_pages.
  function AllocOne(s: Phys, d: nat, vp: nat, perm: nat): (r: (Phys, bool))
    requires WellFormed(s) && vp < VPAGES && perm < PAGE_SIZE
    ensures WellFormed(r.0) && |r.0.used| == |s.used|
  {
    var (s1, f) := AllocPage(s);
    if f.None? then (s1, false) else CreateMap(s1, d, vp, f.value, 1, perm)
  }

  // memory32_alloc_task_pages for count pages; the address wraps at 32 bits.
  function AllocTaskPages(s: Phys, d: nat, vp: nat, count: nat, perm: nat): (r: (Phys, bool))
    requires WellFormed(s) && vp < VPAGES && perm < PAGE_SIZE
    ensures WellFormed(r.0) && |r.0.used| == |s.used|
    decreases count
  {
    if count == 0 then (s, true) else
      var (s1, ok) := AllocOne(s, d, vp, perm);
      if ok then AllocTaskPages(s1, d, (vp + 1) % VPAGES, count - 1, perm) else (s1, false)
  }

  // What memory32_create_pde writes into a new directory.
  function NewDirectory(ram: seq<Page>, kdir: nat): (p: Page)
    ensures forall i | 0 <= i < ENTRIES :: p[i] == if i < USER_DIR then Entry(ram, kdir, i) else 0
  {
    seq(ENTRIES, i requires 0 <= i < ENTRIES => if i < USER_DIR then Entry(ram, kdir, i) else 0)
  }

  // memory32_create_pde
  function CreatePde(s: Phys, kdir: nat): (r: (Phys, Option<nat>))
    requires WellFormed(s)
    ensures WellFormed(r.0) && |r.0.used| == |s.used|
  {
    var (s1, d) := AllocPage(s);
    match d
    case None => (s1, None)
    case Some(d) => (s1.(ram := s1.ram[d := NewDirectory(s1.ram, kdir)]), Some(d))
  }

  // kernel_memcpy((void *)page, (void *)vaddr, PAGE_SIZE) while the running directory is parent.
  function CopyFrame(s: Phys, parent: nat, vp: nat, page: nat): (r: Phys)
    requires WellFormed(s) && vp < VPAGES && page < |s.ram|
    ensures WellFormed(r) && r.used == s.used
  {
    match Lookup(s.ram, parent, vp)
    case None => s
    case Some(m) => s.(ram := s.ram[page := PageAt(s.ram, m.frame)])
  }

  // The body of the inner loop of copy_page for a present entry.
  function CopyOne(s: Phys, parent: nat, child: nat, vp: nat): (r: (Phys, bool))
    requires WellFormed(s) && vp < VPAGES && Lookup(s.ram, parent, vp).Some?
    ensures WellFormed(r.0) && |r.0.used| == |s.used|
  {
    var perm := Lookup(s.ram, parent, vp).value.flags % 1024;
    var (s1, page) := AllocPage(s);
    if page.None? then (s1, false) else
      var (s2, ok) := CreateMap(s1, child, vp, page.value, 1, perm);
      if ok then (CopyFrame(s2, parent, vp, page.value), true) else (s2, false)
  }

  // The two nested loops of copy_page, from virtual page vp on.
  function CopyFrom(s: Phys, parent: nat, child: nat, vp: nat): (r: (Phys, bool))
    requires WellFormed(s) && vp <= VPAGES
    ensures WellFormed(r.0) && |r.0.used| == |s.used|
    decreases VPAGES - vp
  {
    if vp == VPAGES then (s, true)
    else if Lookup(s.ram, parent, vp).None? then CopyFrom(s, parent, child, vp + 1)
    else
      var (s1, ok) := CopyOne(s, parent, child, vp);
      if ok then CopyFrom(s1, parent, child, vp + 1) else (s1, false)
  }

  // The loops of destroy_pde: free every frame mapped in the user half.
  function FreeLeaves(s: Phys, d: nat, vp: nat): (r: Phys)
    requires WellFormed(s) && vp <= VPAGES
    ensures WellFormed(r) && r.ram == s.ram && |r.used| == |s.used|
    decreases VPAGES - vp
  {
    if vp == VPAGES then s
    else match Lookup(s.ram, d, vp)
      case None => FreeLeaves(s, d, vp + 1)
      case Some(m) => FreeLeaves(FreePage(s, m.frame), d, vp + 1)
  }

  // destroy_pde frees last the frame named by the word after the directory, the first word of the next frame; the
  // directory and its tables stay in use.
  function StrayFrame(s: Phys, d: nat): nat { Frame(Entry(s.ram, d + 1, 0)) }

  function DestroyPde(s: Phys, d: nat): (r: Phys)
    requires WellFormed(s)
    ensures WellFormed(r) && r.ram == s.ram && |r.used| == |s.used|
  {
    FreePage(FreeLeaves(s, d, USER_PAGE), StrayFrame(s, d))
  }

  // copy_page
  function CopyPage(s: Phys, kdir: nat, parent: nat): (r: (Phys, Option<nat>))
    requires WellFormed(s)
    ensures WellFormed(r.0) && |r.0.used| == |s.used|
  {
    var (s1, child) := CreatePde(s, kdir);
    if child.None? then (s1, None) else
      var (s2, ok) := CopyFrom(s1, parent, child.value, USER_PAGE);
      if ok then (s2, child) else (DestroyPde(s2, child.value), None)
  }

  // get_paddr for a non-zero directory: it tests the directory entry only, not the page entry.
  function GetPaddr(s: Phys, d: nat, va: nat): nat
    requires va < 0x1_0000_0000
  {
    var vp := va / PAGE_SIZE;
    var e := Entry(s.ram, d, vp / ENTRIES);
    if !Present(e) then 0 else Frame(Entry(s.ram, Frame(e), vp % ENTRIES)) * PAGE_SIZE + va % PAGE_SIZE
  }

  /** What one byte of virtual memory reads as, if its page is mapped. */
  function ReadByte(s: Phys, d: nat, va: nat): Option<byte>
    requires va < 0x1_0000_0000
  {
    match Lookup(s.ram, d, va / PAGE_SIZE)
    case None => None
    case Some(m) => Some(ByteAt(PageAt(s.ram, m.frame), va % PAGE_SIZE))
  }
}
