/** The memory manager over a memory it writes in place, method for method (src/kernel32/memory32.c). Each method
    computes the function of Memory32.dfy or CopyData.dfy it stands for. */
module MemoryMachine {
  import opened Wrappers
  import opened PageLayout
  import opened FrameBits
  import opened Memory32
  import opened PageMap
  import opened Isolation
  import opened Fork
  import opened CopyData
  import Bitmap

  class Machine {
    // The frame of kernel_pde.
    const kdir: nat
    const ram: array<Page>
    const bitmap: Bitmap.BitMap

    ghost predicate Valid()
      reads this, bitmap
    {
      && bitmap.Valid() && ram.Length == FIRST + bitmap.bitSize <= VPAGES && kdir < FIRST
      && ram as object != bitmap.bits && ram as object != bitmap
    }

    function View(): (s: Phys)
      reads this, ram, bitmap, bitmap.bits
      requires Valid()
      ensures WellFormed(s)
    {
      Phys(ram[..], bitmap.Bits())
    }

    // init_memory32_info: the managed frames follow FIRST, all free.
    constructor (ram: array<Page>, kdir: nat, bits: array<bv8>)
      requires ram as object != bits && FIRST <= ram.Length <= VPAGES && kdir < FIRST && (ram.Length - FIRST + 7) / 8 <= bits.Length
      modifies bits
      ensures Valid() && this.ram == ram && this.kdir == kdir && fresh(bitmap) && bitmap.bits == bits
      ensures View() == Phys(old(ram[..]), seq(ram.Length - FIRST, _ => false))
    {
      this.kdir := kdir;
      this.ram := ram;
      bitmap := new Bitmap.BitMap(bits, ram.Length - FIRST);
      new;
      assert ram[..] == old(ram[..]);
    }

    // memory32_alloc_page with count 1: a frame address, or 0.
    method AllocPage() returns (addr: nat)
      requires Valid()
      modifies bitmap.bits
      ensures Valid() && bitmap.bits == old(bitmap.bits)
      ensures var (s, f) := Memory32.AllocPage(old(View()));
        View() == s && addr == (match f case None => 0 case Some(f) => f * PAGE_SIZE) && (f.Some? ==> addr > 0)
    {
      addr := 0;
      ghost var was := bitmap.Bits();
      Bitmap.AllocOneIsLowest(was, 0);
      var index := bitmap.AllocBits(false, 1);
      if index >= 0 {
        addr := FIRST * PAGE_SIZE + index * PAGE_SIZE;
        assert bitmap.Bits() == was[index := true];
      }
      assert ram[..] == old(ram[..]);
    }

    // memory32_free_page with count 1; the index is an unsigned 32-bit quotient.
    method FreePage(addr: nat)
      requires Valid() && addr < 0x1_0000_0000
      modifies bitmap.bits
      ensures Valid() && bitmap.bits == old(bitmap.bits)
      ensures View() == Memory32.FreePage(old(View()), addr / PAGE_SIZE)
    {
      ghost var was := bitmap.Bits();
      var index := (addr - FIRST * PAGE_SIZE) % 0x1_0000_0000 / PAGE_SIZE;
      FreeIndex(addr);
      bitmap.SetBits(index, 1, false);
      assert bitmap.Bits() == Memory32.FreePage(old(View()), addr / PAGE_SIZE).used;
      assert ram[..] == old(ram[..]);
    }

    static lemma FreeIndex(addr: nat)
      requires addr < 0x1_0000_0000
      ensures var index := (addr - FIRST * PAGE_SIZE) % 0x1_0000_0000 / PAGE_SIZE;
        index == if addr / PAGE_SIZE >= FIRST then addr / PAGE_SIZE - FIRST else addr / PAGE_SIZE - FIRST + VPAGES
    {
      var f, o := addr / PAGE_SIZE, addr % PAGE_SIZE;
      if f >= FIRST {
        Remainder4096(f - FIRST, o);
      } else {
        Remainder4096(f - FIRST + VPAGES, o);
      }
    }

    // kernel_memset(frame, 0, PAGE_SIZE), byte by byte.
    method ClearFrame(f: nat)
      requires Valid() && f < ram.Length
      modifies ram
      ensures Valid() && View() == old(View()).(ram := old(ram[..])[f := ZeroPage()])
    {
      for o := 0 to PAGE_SIZE
        invariant forall j: nat | j < o :: ByteAt(ram[f], j) == 0
        invariant forall g | 0 <= g < ram.Length && g != f :: ram[g] == old(ram[g])
      {
        ram[f] := SetByte(ram[f], o, 0);
      }
      forall j: nat | j < PAGE_SIZE
        ensures ByteAt(ZeroPage(), j) == 0
      {
        assert ZeroPage()[j / 4] == 0;
      }
      PageFromBytes(ram[f], ZeroPage());
    }

    // pde->v = ... or pte->v = ...
    method StoreEntry(f: nat, i: nat, w: word)
      requires Valid() && i < ENTRIES
      modifies ram
      ensures Valid() && View() == old(View()).(ram := SetEntry(old(ram[..]), f, i, w))
    {
      if f < ram.Length {
        ram[f] := ram[f][i := w];
      }
    }

    // find_pte with alloc set: the table's frame, or failure.
    method FindPte(d: nat, vaddr: nat) returns (t: nat, ok: bool)
      requires Valid() && vaddr < 0x1_0000_0000
      modifies ram, bitmap.bits
      ensures Valid() && bitmap.bits == old(bitmap.bits)
      ensures Memory32.FindPte(old(View()), d, vaddr / PAGE_SIZE) == (View(), if ok then Some(t) else None)
    {
      DirIndex(vaddr);
      var e := Entry(ram[..], d, vaddr / 0x40_0000);
      if Present(e) {
        return Frame(e), true;
      }
      ghost var s := View();
      var addr := AllocPage();
      if addr == 0 {
        return 0, false;
      }
      t := addr / PAGE_SIZE;
      Remainder4096(t, 0);
      assert Memory32.AllocPage(s).1 == Some(t) && t < VPAGES && t < ram.Length;
      StoreEntry(d, vaddr / 0x40_0000, MakeEntry(t, 7));
      ClearFrame(t);
      ok := true;
    }

    // PDE_INDEX and PTE_INDEX pick the upper and lower half of the page number.
    static lemma DirIndex(vaddr: nat)
      requires vaddr < 0x1_0000_0000
      ensures vaddr / 0x40_0000 == vaddr / PAGE_SIZE / ENTRIES && vaddr / PAGE_SIZE < VPAGES
    {
    }

    // memory32_create_map
    method CreateMap(d: nat, vaddr0: nat, paddr0: nat, count: nat, perm: nat) returns (r: int)
      requires Valid() && vaddr0 < 0x1_0000_0000 && paddr0 < 0x1_0000_0000 && paddr0 % PAGE_SIZE == 0 && perm < PAGE_SIZE
      modifies ram, bitmap.bits
      ensures Valid() && bitmap.bits == old(bitmap.bits)
      ensures Memory32.CreateMap(old(View()), d, vaddr0 / PAGE_SIZE, paddr0 / PAGE_SIZE, count, perm) == (View(), r == 0)
      ensures r == 0 || r == -1
    {
      var vaddr: nat, paddr: nat, i := vaddr0, paddr0, 0;
      ghost var result := Memory32.CreateMap(View(), d, vaddr0 / PAGE_SIZE, paddr0 / PAGE_SIZE, count, perm);
      while i < count
        invariant 0 <= i <= count && vaddr < 0x1_0000_0000 && paddr < 0x1_0000_0000 && paddr % PAGE_SIZE == 0
        invariant Valid() && bitmap.bits == old(bitmap.bits)
        invariant Memory32.CreateMap(View(), d, vaddr / PAGE_SIZE, paddr / PAGE_SIZE, count - i, perm) == result
      {
        DirIndex(vaddr);
        ghost var s := View();
        var t, ok := FindPte(d, vaddr);
        if !ok {
          return -1;
        }
        StoreEntry(t, vaddr / PAGE_SIZE % ENTRIES, MakeEntry(paddr / PAGE_SIZE, WithPresent(perm)));
        assert Memory32.MapPage(s, d, vaddr / PAGE_SIZE, paddr / PAGE_SIZE, perm) == (View(), true);
        NextAddress(vaddr);
        NextAddress(paddr);
        vaddr := (vaddr + PAGE_SIZE) % 0x1_0000_0000;
        paddr := (paddr + PAGE_SIZE) % 0x1_0000_0000;
        i := i + 1;
      }
      r := 0;
    }

    static lemma NextAddress(a: nat)
      requires a < 0x1_0000_0000
      ensures var b := (a + PAGE_SIZE) % 0x1_0000_0000;
        b / PAGE_SIZE == (a / PAGE_SIZE + 1) % VPAGES && b % PAGE_SIZE == a % PAGE_SIZE
    {
      var f, o := a / PAGE_SIZE, a % PAGE_SIZE;
      if f + 1 < VPAGES {
        Remainder4096(f + 1, o);
      } else {
        Remainder4096(0, o);
      }
    }

    // memory32_create_pde: the frame of the new directory, or failure.
    method CreatePde() returns (d: nat, ok: bool)
      requires Valid()
      modifies ram, bitmap.bits
      ensures Valid() && bitmap.bits == old(bitmap.bits)
      ensures Memory32.CreatePde(old(View()), kdir) == (View(), if ok then Some(d) else None)
    {
      ghost var s := View();
      var addr := AllocPage();
      if addr == 0 {
        return 0, false;
      }
      d, ok := addr / PAGE_SIZE, true;
      Remainder4096(Memory32.AllocPage(s).1.value, 0);
      assert Memory32.AllocPage(s).1 == Some(d) && d < ram.Length && d != kdir;
      ghost var s1 := View();
      ClearFrame(d);
      for i := 0 to USER_DIR
        invariant Valid() && bitmap.bits == old(bitmap.bits)
        invariant View().used == s1.used && forall g | 0 <= g < ram.Length && g != d :: ram[g] == s1.ram[g]
        invariant forall j | 0 <= j < ENTRIES :: ram[d][j] == if j < i then Entry(s1.ram, kdir, j) else 0
      {
        StoreEntry(d, i, Entry(ram[..], kdir, i));
      }
      assert ram[d] == NewDirectory(s1.ram, kdir);
      assert View().ram == s1.ram[d := NewDirectory(s1.ram, kdir)];
    }

    // ceil_page: the sum wraps at 32 bits.
    static function CeilPage(value: nat): nat { (value + PAGE_SIZE - 1) % 0x1_0000_0000 / PAGE_SIZE * PAGE_SIZE }

    /** ceil_page rounds up to a page boundary; in the last page of the address space it wraps to 0. */
    static lemma CeilPageRounds(value: nat)
      requires value < 0x1_0000_0000
      ensures CeilPage(value) % PAGE_SIZE == 0
      ensures if value <= 0xFFFF_F000 then value <= CeilPage(value) < value + PAGE_SIZE else CeilPage(value) == 0
    {
      Remainder4096((value + PAGE_SIZE - 1) % 0x1_0000_0000 / PAGE_SIZE, 0);
    }

    // The body of the loop of memory32_alloc_task_pages.
    method AllocOne(d: nat, current: nat, perm: nat) returns (r: int)
      requires Valid() && current < 0x1_0000_0000 && perm < PAGE_SIZE
      modifies ram, bitmap.bits
      ensures Valid() && bitmap.bits == old(bitmap.bits) && (r == 0 || r == -1)
      ensures current / PAGE_SIZE < VPAGES
      ensures Memory32.AllocOne(old(View()), d, current / PAGE_SIZE, perm) == (View(), r == 0)
    {
      hide Memory32.AllocPage, Memory32.CreateMap;
      ghost var s := View();
      DirIndex(current);
      var paddr := AllocPage();
      if paddr == 0 {
        return -1;
      }
      Remainder4096(Memory32.AllocPage(s).1.value, 0);
      r := CreateMap(d, current, paddr, 1, perm);
    }

    // memory32_alloc_task_pages
    method AllocTaskPages(d: nat, index: nat, size: nat, perm: nat) returns (r: int)
      requires Valid() && index < 0x1_0000_0000 && size < 0x1_0000_0000 && perm < PAGE_SIZE
      modifies ram, bitmap.bits
      ensures Valid() && bitmap.bits == old(bitmap.bits) && (r == 0 || r == -1)
      ensures Memory32.AllocTaskPages(old(View()), d, index / PAGE_SIZE, CeilPage(size) / PAGE_SIZE, perm) == (View(), r == 0)
    {
      hide Memory32.AllocOne;
      var current: nat, count, i := index, CeilPage(size) / PAGE_SIZE, 0;
      ghost var result := Memory32.AllocTaskPages(View(), d, index / PAGE_SIZE, count, perm);
      while i < count
        invariant 0 <= i <= count && current < 0x1_0000_0000
        invariant Valid() && bitmap.bits == old(bitmap.bits)
        invariant Memory32.AllocTaskPages(View(), d, current / PAGE_SIZE, count - i, perm) == result
      {
        r := AllocOne(d, current, perm);
        if r < 0 {
          return;
        }
        NextAddress(current);
        current := (current + PAGE_SIZE) % 0x1_0000_0000;
        i := i + 1;
      }
      r := 0;
    }

    // get_paddr: directory 0 stands for the kernel's.
    method GetPaddr(pde: nat, vaddr: nat) returns (pa: nat)
      requires Valid() && vaddr < 0x1_0000_0000
      ensures pa == Memory32.GetPaddr(View(), if pde == 0 then kdir else pde, vaddr)
    {
      var d := if pde == 0 then kdir else pde;
      DirIndex(vaddr);
      var e := Entry(ram[..], d, vaddr / 0x40_0000);
      if !Present(e) {
        return 0;
      }
      pa := Frame(Entry(ram[..], Frame(e), vaddr / PAGE_SIZE % ENTRIES)) * PAGE_SIZE + vaddr % PAGE_SIZE;
    }

    // kernel_memcpy to a physical address from a virtual one of the running space; a page fault reads as 0.
    method Memcpy(pa0: nat, cur: nat, from0: nat, size: nat)
      requires Valid() && from0 < 0x1_0000_0000
      modifies ram
      ensures Valid()
      ensures View() == CopyBytes(old(View()), cur, pa0, from0, size)
    {
      hide ReadByte, ByteAt, SetByte, CopyBytes, Low;
      var pa: nat, from: nat, left: nat := pa0, from0, size;
      ghost var result := CopyBytes(View(), cur, pa0, from0, size);
      while left > 0
        invariant Valid() && left <= size && from == Low(from0 + (size - left))
        invariant CopyBytes(View(), cur, pa, from0 + (size - left), left) == result
      {
        ghost var s := View();
        ByteTurn(s, cur, pa, from0 + (size - left), left);
        LowNext(from0 + (size - left), 1);
        var b: byte := match ReadByte(View(), cur, from) case Some(b) => b case None => 0;
        if pa / PAGE_SIZE < ram.Length {
          ram[pa / PAGE_SIZE] := SetByte(ram[pa / PAGE_SIZE], pa % PAGE_SIZE, b);
        }
        assert View() == StoreByte(s, pa, b);
        pa, from, left := pa + 1, Low(from + 1), left - 1;
      }
      ByteTurn(View(), cur, pa, from0 + size, 0);
    }

    // memory32_copy_page_data
    method CopyPageData(to0: nat, pde: nat, from0: nat, size0: nat, cur: nat) returns (r: int)
      requires Valid() && to0 < 0x1_0000_0000 && from0 < 0x1_0000_0000
      modifies ram
      ensures Valid()
      ensures CopyData.CopyPageData(old(View()), cur, to0, if pde == 0 then kdir else pde, from0, size0) == (View(), r)
    {
      hide Memory32.GetPaddr, CopyBytes, CopyData.CopyPageData, Low;
      var to: nat, from: nat, size: nat := to0, from0, size0;
      ghost var d := if pde == 0 then kdir else pde;
      ghost var result := CopyData.CopyPageData(View(), cur, to0, d, from0, size0);
      ghost var done: nat := 0;
      while size > 0
        invariant Valid() && done + size == size0 && to == Low(to0 + done) && from == Low(from0 + done)
        invariant CopyData.CopyPageData(View(), cur, to0 + done, d, from0 + done, size) == result
        decreases size
      {
        ChunkTurn(View(), cur, to0 + done, d, from0 + done, size);
        var pa := GetPaddr(pde, to);
        if pa == 0 {
          return -1;
        }
        var n := PAGE_SIZE - pa % PAGE_SIZE;
        if n > size {
          n := size;
        }
        CopyBytesWraps(View(), cur, pa, from, from0 + done, n);
        LowNext(to0 + done, n);
        LowNext(from0 + done, n);
        if from != 0 {
          Memcpy(pa, cur, from, n);
        }
        size, to, from, done := size - n, Low(to + n), Low(from + n), done + n;
      }
      ChunkTurn(View(), cur, to0 + done, d, from0 + done, 0);
      r := 0;
    }

    // An absent directory entry skips 1024 pages.
    static lemma {:induction false} SkipTableFree(s: Phys, d: nat, i: nat, k: nat)
      requires WellFormed(s) && i < ENTRIES && k <= ENTRIES && !HasTable(s, d, i)
      ensures FreeLeaves(s, d, i * ENTRIES + k) == FreeLeaves(s, d, (i + 1) * ENTRIES)
      decreases ENTRIES - k
    {
      if k < ENTRIES {
        Remainder1024(i, k);
        SkipTableFree(s, d, i, k + 1);
      }
    }

    // destroy_pde
    method DestroyPde(d: nat)
      requires Valid()
      modifies bitmap.bits
      ensures Valid() && bitmap.bits == old(bitmap.bits)
      ensures View() == Memory32.DestroyPde(old(View()), d)
    {
      hide Lookup, Memory32.FreePage;
      ghost var s := View();
      for i := USER_DIR to ENTRIES
        invariant Valid() && bitmap.bits == old(bitmap.bits) && ram[..] == s.ram
        invariant FreeLeaves(View(), d, i * ENTRIES) == FreeLeaves(s, d, USER_PAGE)
      {
        var e := Entry(ram[..], d, i);
        if !Present(e) {
          SkipTableFree(View(), d, i, 0);
          continue;
        }
        FreeTable(d, i, Frame(e));
      }
      assert FreeLeaves(View(), d, VPAGES) == View();
      var stray := Frame(Entry(ram[..], d + 1, 0));
      Remainder4096(stray, 0);
      FreePage(stray * PAGE_SIZE);
    }

    static lemma TablePage(s: Phys, d: nat, i: nat, k: nat)
      requires i < ENTRIES && k < ENTRIES && HasTable(s, d, i)
      ensures i * ENTRIES + k < VPAGES
      ensures var (m, e) := (Lookup(s.ram, d, i * ENTRIES + k), Entry(s.ram, Table(s, d, i), k));
        (m.Some? <==> Present(e)) && (m.Some? ==> m.value.frame == Frame(e))
    {
      Remainder1024(i, k);
    }

    // The inner loop of destroy_pde over table t of directory entry i.
    method FreeTable(d: nat, i: nat, t: nat)
      requires Valid() && i < ENTRIES && HasTable(View(), d, i) && t == Table(View(), d, i)
      modifies bitmap.bits
      ensures Valid() && bitmap.bits == old(bitmap.bits) && ram[..] == old(ram[..])
      ensures FreeLeaves(View(), d, (i + 1) * ENTRIES) == FreeLeaves(old(View()), d, i * ENTRIES)
    {
      hide Memory32.FreePage, Lookup;
      ghost var s := View();
      for k := 0 to ENTRIES
        invariant Valid() && bitmap.bits == old(bitmap.bits) && ram[..] == s.ram
        invariant FreeLeaves(View(), d, i * ENTRIES + k) == FreeLeaves(s, d, i * ENTRIES)
      {
        TablePage(View(), d, i, k);
        var w := Entry(ram[..], t, k);
        if Present(w) {
          Remainder4096(Frame(w), 0);
          FreePage(Frame(w) * PAGE_SIZE);
        }
      }
    }

    static lemma {:induction false} SkipTableCopy(w: World, s: Phys, parent: nat, child: nat, i: nat, k: nat)
      requires WellFormed(s) && USER_DIR <= i < ENTRIES && k <= ENTRIES && !HasTable(s, parent, i)
      requires Inv(w) && parent in w.spaces && Copying(w, s, parent, child, i * ENTRIES + k)
      ensures CopyFrom(s, parent, child, i * ENTRIES + k) == CopyFrom(s, parent, child, (i + 1) * ENTRIES)
      ensures Copying(w, s, parent, child, (i + 1) * ENTRIES)
      decreases ENTRIES - k
    {
      hide Copying, Inv, CopyFrom, HasTable, WellFormed;
      if k == ENTRIES {
      } else {
        Remainder1024(i, k);
        SkipAbsent(w, s, parent, child, i * ENTRIES + k);
        SkipTableCopy(w, s, parent, child, i, k + 1);
      }
    }

    static lemma SkipAbsent(w: World, s: Phys, parent: nat, child: nat, vp: nat)
      requires WellFormed(s) && UserPage(vp) && !HasTable(s, parent, vp / ENTRIES)
      requires Inv(w) && parent in w.spaces && Copying(w, s, parent, child, vp)
      ensures CopyFrom(s, parent, child, vp) == CopyFrom(s, parent, child, vp + 1)
      ensures Copying(w, s, parent, child, vp + 1)
    {
      hide Copying, Inv, CopyOne;
      CopyingPreserves(w, s, parent, child, vp);
      PreservedLookups(w, s, parent, vp);
      SkipPage(w, s, parent, child, vp);
    }

    static lemma CopyingPreserves(w: World, s: Phys, parent: nat, child: nat, vp: nat)
      requires Copying(w, s, parent, child, vp)
      ensures WellFormed(s) && Preserves(w.phys, s) && Inv(ForkWorld(w, s, child))
    {
    }

    // The directory entry of the parent, read once for each table, stays as it was.
    static lemma ParentEntryStands(w: World, s: Phys, parent: nat, i: nat)
      requires Inv(w) && parent in w.spaces && Preserves(w.phys, s) && i < ENTRIES
      ensures Entry(s.ram, parent, i) == Entry(w.phys.ram, parent, i)
    {
      assert Occupied(w, Directory(parent)) && Used(w.phys, FrameOf(w, Directory(parent)));
    }

    /** Copying a page byte by byte through the parent's own address copies the frame. */
    static lemma CopyFrameByBytes(w: World, parent: nat, child: nat, vp: nat, page: nat)
      requires Inv(w) && parent in w.spaces && child in w.spaces && parent != child && UserPage(vp)
      requires Lookup(w.phys.ram, parent, vp).Some? && Lookup(w.phys.ram, child, vp).Some?
      requires Lookup(w.phys.ram, child, vp).value.frame == page
      ensures page < |w.phys.ram|
      ensures CopyBytes(w.phys, parent, page * PAGE_SIZE, vp * PAGE_SIZE, PAGE_SIZE) == CopyFrame(w.phys, parent, vp, page)
    {
      hide Lookup, CopyBytes, ByteAt, SameMaps;
      assert Occupied(w, Leaf(child, vp)) && Occupied(w, Leaf(parent, vp));
      assert Used(w.phys, FrameOf(w, Leaf(child, vp)));
      var m := Lookup(w.phys.ram, parent, vp).value;
      forall a: nat | vp * PAGE_SIZE <= a < vp * PAGE_SIZE + PAGE_SIZE
        ensures a / PAGE_SIZE == vp && FrameAt(w.phys, parent, a) == Some(m.frame)
      {
        Remainder4096(vp, a - vp * PAGE_SIZE);
      }
      CopyBytesMoves(w, parent, child, vp, 0, vp * PAGE_SIZE, PAGE_SIZE);
      var s' := CopyBytes(w.phys, parent, page * PAGE_SIZE + 0, vp * PAGE_SIZE, PAGE_SIZE);
      forall o: nat | o < PAGE_SIZE
        ensures ByteAt(s'.ram[page], o) == ByteAt(PageAt(w.phys.ram, m.frame), o)
      {
        Remainder4096(vp, o);
        assert Some(ByteAt(s'.ram[page], o)) == ReadByte(w.phys, parent, vp * PAGE_SIZE + o);
      }
      PageFromBytes(s'.ram[page], PageAt(w.phys.ram, m.frame));
      assert s'.ram == CopyFrame(w.phys, parent, vp, page).ram;
    }

    // The body of the inner loop of copy_page for a present entry.
    method CopyOnePage(ghost w: World, parent: nat, child: nat, vp: nat, perm: nat) returns (ok: bool)
      requires Valid() && Inv(w) && parent in w.spaces && UserPage(vp) && Copying(w, View(), parent, child, vp)
      requires Lookup(View().ram, parent, vp).Some? && perm == Lookup(View().ram, parent, vp).value.flags % 1024
      modifies ram, bitmap.bits
      ensures Valid() && bitmap.bits == old(bitmap.bits)
      ensures Memory32.CopyOne(old(View()), parent, child, vp) == (View(), ok)
    {
      hide Lookup, Inv, Copying, Preserves, Memory32.CreateMap, Memory32.CopyFrame, CopyBytes, Memory32.AllocPage;
      ghost var s := View();
      CopyingPreserves(w, s, parent, child, vp);
      PreservedLookups(w, s, parent, vp);
      var addr := AllocPage();
      ghost var page := Memory32.AllocPage(s).1;
      if addr == 0 {
        return false;
      }
      ghost var s1 := View();
      Remainder4096(page.value, 0);
      Remainder4096(vp, 0);
      var r := CreateMap(child, vp * PAGE_SIZE, addr, 1, perm);
      if r < 0 {
        return false;
      }
      ghost var s2 := View();
      ChildMapped(w, s, s1, s2, parent, child, vp, page.value, perm);
      CopyFrameByBytes(ForkWorld(w, s2, child), parent, child, vp, page.value);
      Memcpy(addr, parent, vp * PAGE_SIZE, PAGE_SIZE);
      ok := true;
    }

    static lemma ChildMapped(w: World, s: Phys, s1: Phys, s2: Phys, parent: nat, child: nat, vp: nat, page: nat, perm: nat)
      requires Inv(w) && parent in w.spaces && UserPage(vp) && Copying(w, s, parent, child, vp)
      requires Lookup(w.phys.ram, parent, vp).Some? && perm == Lookup(w.phys.ram, parent, vp).value.flags % 1024
      requires Memory32.AllocPage(s) == (s1, Some(page)) && page < VPAGES
      requires Memory32.CreateMap(s1, child, vp, page, 1, perm) == (s2, true)
      ensures Inv(ForkWorld(w, s2, child)) && parent != child
      ensures Lookup(s2.ram, parent, vp).Some? && Lookup(s2.ram, child, vp).Some?
      ensures Lookup(s2.ram, child, vp).value.frame == page
    {
      hide Lookup, Memory32.AllocPage, MapPage, Extends, Tidy, WritesOnly;
      AllocInv(ForkWorld(w, s, child));
      CopyingAfterAlloc(w, s, s1, parent, child, vp);
      MapOne(s1, child, vp, page, perm);
      MapUserPage(ForkWorld(w, s1, child), child, vp, page, perm);
      MapChild(w, s1, parent, child, vp, page);
      PreservedLookups(w, s2, parent, vp);
      assert Occupied(w, Directory(parent));
    }

    // The inner loop of copy_page over the parent's table t for directory entry i.
    method CopyTable(ghost w: World, parent: nat, child: nat, i: nat, t: nat) returns (ok: bool)
      requires Valid() && Inv(w) && parent in w.spaces && USER_DIR <= i < ENTRIES
      requires Copying(w, View(), parent, child, i * ENTRIES)
      requires HasTable(View(), parent, i) && t == Table(View(), parent, i)
      modifies ram, bitmap.bits
      ensures Valid() && bitmap.bits == old(bitmap.bits)
      ensures ok ==> Copying(w, View(), parent, child, (i + 1) * ENTRIES)
      ensures CopyFrom(old(View()), parent, child, i * ENTRIES) ==
        if ok then CopyFrom(View(), parent, child, (i + 1) * ENTRIES) else (View(), false)
    {
      hide Inv, Copying, CopyOne, Preserves, Lookup;
      ghost var s := View();
      CopyingPreserves(w, s, parent, child, i * ENTRIES);
      ParentEntryStands(w, s, parent, i);
      for k := 0 to ENTRIES
        invariant Valid() && bitmap.bits == old(bitmap.bits)
        invariant Copying(w, View(), parent, child, i * ENTRIES + k)
        invariant CopyFrom(View(), parent, child, i * ENTRIES + k) == CopyFrom(s, parent, child, i * ENTRIES)
      {
        var vp := i * ENTRIES + k;
        ParentPage(w, View(), parent, child, i, k, t);
        var e := Entry(ram[..], t, k);
        if Present(e) {
          CopyOneStep(w, View(), parent, child, vp);
          ok := CopyOnePage(w, parent, child, vp, e % 1024);
          if !ok {
            return;
          }
        } else {
          SkipPage(w, View(), parent, child, vp);
        }
      }
      ok := true;
    }

    // The parent's table still says what it said when copy_page began.
    static lemma ParentPage(w: World, s: Phys, parent: nat, child: nat, i: nat, k: nat, t: nat)
      requires Inv(w) && parent in w.spaces && USER_DIR <= i < ENTRIES && k < ENTRIES
      requires Copying(w, s, parent, child, i * ENTRIES + k)
      requires HasTable(w.phys, parent, i) && t == Table(w.phys, parent, i)
      ensures WellFormed(s) && UserPage(i * ENTRIES + k)
      ensures var (m, e) := (Lookup(s.ram, parent, i * ENTRIES + k), Entry(s.ram, t, k));
        && m == Lookup(w.phys.ram, parent, i * ENTRIES + k)
        && (m.Some? <==> Present(e)) && (m.Some? ==> m.value.flags % 1024 == e % 1024)
    {
      hide Inv, Copying, Preserves;
      var vp := i * ENTRIES + k;
      Remainder1024(i, k);
      CopyingPreserves(w, s, parent, child, vp);
      ParentEntryStands(w, s, parent, i);
      PreservedLookups(w, s, parent, vp);
      var e := Entry(s.ram, t, k);
      LowBits(e / PAGE_SIZE, e % PAGE_SIZE);
    }

    // copy_page of the running space, whose world is w: the frame of the new directory, or failure.
    method CopyPage(ghost w: World, parent: nat) returns (child: nat, ok: bool)
      requires Valid() && Inv(w) && w.phys == View() && w.kdir == kdir && parent in w.spaces
      modifies ram, bitmap.bits
      ensures Valid() && bitmap.bits == old(bitmap.bits)
      ensures Memory32.CopyPage(old(View()), kdir, parent) == (View(), if ok then Some(child) else None)
    {
      hide Lookup, Inv, Copying, CopyOne, Preserves, Memory32.CreatePde, Memory32.DestroyPde;
      child, ok := CreatePde();
      if !ok {
        return;
      }
      StartCopying(w, parent) by { hide *; }
      ghost var s1 := View();
      for i := USER_DIR to ENTRIES
        invariant Valid() && bitmap.bits == old(bitmap.bits) && ok
        invariant Copying(w, View(), parent, child, i * ENTRIES)
        invariant CopyFrom(View(), parent, child, i * ENTRIES) == CopyFrom(s1, parent, child, USER_PAGE)
      {
        var e := Entry(ram[..], parent, i);
        if !Present(e) {
          SkipTableCopy(w, View(), parent, child, i, 0);
          continue;
        }
        ok := CopyTable(w, parent, child, i, Frame(e));
        if !ok {
          DestroyPde(child);
          return;
        }
      }
      assert CopyFrom(View(), parent, child, VPAGES) == (View(), true);
    }
  }
}
