/** What allocation and fork cost: how many frames decide success, which pages a failing call has mapped, and which frames
    are in use afterwards. */
module FrameBudget {
  import opened Wrappers
  import opened PageLayout
  import opened FrameBits
  import opened Memory32
  import opened PageMap
  import opened Isolation
  import opened Fork
  import opened FailedFork
  import opened MemoryRuns

  // ---- memory32_alloc_task_pages

  // The directory entries that the pages [vp, vp+count) need and that have no table yet.
  function Missing(s: Phys, d: nat, vp: nat, count: nat): set<nat> {
    set i: nat | i < ENTRIES && count > 0 && vp / ENTRIES <= i <= (vp + count - 1) / ENTRIES && !HasTable(s, d, i)
  }

  // One page takes a frame, and one more when it is the first of its table.
  function Needs(s: Phys, d: nat, vp: nat): nat
    requires vp < VPAGES
  {
    if HasTable(s, d, vp / ENTRIES) then 1 else 2
  }

  ghost predicate TookOne(w: World, s': Phys, d: nat, vp: nat, perm: nat, ok: bool)
    requires vp < VPAGES && perm < PAGE_SIZE
  {
    var v := vp / ENTRIES;
    var need := Needs(w.phys, d, vp);
    && (ok <==> CountClear(w.phys.used) >= need)
    && (ok ==> CountClear(s'.used) == CountClear(w.phys.used) - need && HasTable(s', d, v))
    && (!ok ==> CountClear(s'.used) == 0 && forall q: nat | q < VPAGES :: Lookup(s'.ram, d, q) == Lookup(w.phys.ram, d, q))
    && (forall i: nat | i < ENTRIES && i != v :: HasTable(s', d, i) == HasTable(w.phys, d, i))
  }

  lemma OneTakes(w: World, d: nat, vp: nat, perm: nat)
    requires Inv(w) && d in w.spaces && UserPage(vp) && perm < PAGE_SIZE
    ensures WellFormed(w.phys)
    ensures var (s', ok) := AllocOne(w.phys, d, vp, perm); TookOne(w, s', d, vp, perm, ok)
  {
    hide Lookup, MapPage, Tidy, WritesOnly, Extends, WritesUser, Inv;
    GoodIsWellFormed(w);
    AllocCount(w.phys);
    AllocInv(w);
    var (s1, f) := AllocPage(w.phys);
    if f.Some? {
      AllocCount(s1);
      MapOne(s1, d, vp, f.value, perm);
      SpaceIsTidy(w.(phys := s1), d);
      MapPageRefines(s1, d, vp, f.value, perm);
      var (s2, ok) := MapPage(s1, d, vp, f.value, perm);
      if ok {
        MapPageCount(s1, d, vp, f.value, perm);
      }
    }
  }

  lemma MissingNext(w: World, s2: Phys, d: nat, vp: nat, count: nat, perm: nat)
    requires vp + count <= VPAGES && 1 <= count && perm < PAGE_SIZE && TookOne(w, s2, d, vp, perm, true)
    ensures |Missing(w.phys, d, vp, count)| ==
      |Missing(s2, d, vp + 1, count - 1)| + Needs(w.phys, d, vp) - 1
  {
    hide Lookup, HasTable;
    var v := vp / ENTRIES;
    var (a, b) := (Missing(w.phys, d, vp, count), Missing(s2, d, vp + 1, count - 1));
    forall i
      ensures i in b <==> i in a && i != v
    {
    }
    assert b == a - {v};
  }

  lemma NoneMissing(s: Phys, d: nat, vp: nat)
    ensures Missing(s, d, vp, 0) == {}
  {
  }

  /** Pages [vp, vp+n) of d have new frames, and every other page of d reads as before. */
  ghost predicate GivenTo(w: World, s': Phys, d: nat, vp: nat, n: nat, perm: nat)
    requires vp + n <= VPAGES && perm < PAGE_SIZE
  {
    && (forall q: nat | vp <= q < vp + n ::
          Lookup(s'.ram, d, q).Some? && Lookup(s'.ram, d, q).value.flags == WithPresent(perm)
          && Free(w.phys, Lookup(s'.ram, d, q).value.frame))
    && (forall q: nat | q < VPAGES && !(vp <= q < vp + n) :: Lookup(s'.ram, d, q) == Lookup(w.phys.ram, d, q))
  }

  lemma GivenMore(w: World, s2: Phys, s3: Phys, d: nat, vp: nat, n: nat, perm: nat)
    requires vp + 1 + n <= VPAGES && perm < PAGE_SIZE
    requires Allocated(w, s2, d, vp, 1, perm, true) && GivenTo(w.(phys := s2), s3, d, vp + 1, n, perm)
    ensures GivenTo(w, s3, d, vp, n + 1, perm)
  {
    hide Lookup, Inv;
    assert Lookup(s3.ram, d, vp) == Lookup(s2.ram, d, vp);
  }

  /** memory32_alloc_task_pages on a user range returns 0 if and only if the pages and the tables missing in the range are
      no more than the free frames, and takes exactly that many. When it fails, memory has run out, and exactly a proper
      prefix of the range has been given new frames. */
  lemma {:induction false} AllocExactly(w: World, d: nat, vp: nat, count: nat, perm: nat) returns (n: nat)
    requires Inv(w) && d in w.spaces && perm < PAGE_SIZE && USER_PAGE <= vp < VPAGES && vp + count <= VPAGES
    ensures WellFormed(w.phys) && n <= count
    ensures var (s', ok) := AllocTaskPages(w.phys, d, vp, count, perm);
      var (free, need) := (CountClear(w.phys.used), count + |Missing(w.phys, d, vp, count)|);
      && (ok <==> free >= need) && (ok <==> n == count)
      && CountClear(s'.used) == (if ok then free - need else 0)
      && GivenTo(w, s', d, vp, n, perm)
    decreases count
  {
    hide Inv, Lookup, Allocated, AllocOne, TookOne, Missing, GivenTo;
    GoodIsWellFormed(w);
    if count == 0 {
      n := 0;
      NoneMissing(w.phys, d, vp);
      GivenNone(w, w.phys, d, vp, perm);
    } else {
      OneTakes(w, d, vp, perm);
      AllocOneInv(w, d, vp, perm);
      var (s2, ok) := AllocOne(w.phys, d, vp, perm);
      TookMeans(w, s2, d, vp, count, perm, ok);
      if !ok {
        n := 0;
        GivenNone(w, s2, d, vp, perm);
      } else {
        MissingNext(w, s2, d, vp, count, perm);
        AllocatedGood(w, s2, d, vp, 1, perm, true);
        if count == 1 {
          n := 1;
          NoneMissing(s2, d, vp + 1);
          GivenNone(w.(phys := s2), s2, d, vp + 1, perm);
          GivenMore(w, s2, s2, d, vp, 0, perm);
        } else {
          n := AllocExactly(w.(phys := s2), d, vp + 1, count - 1, perm);
          GivenMore(w, s2, AllocTaskPages(s2, d, vp + 1, count - 1, perm).0, d, vp, n, perm);
          n := n + 1;
        }
      }
    }
  }

  lemma GivenNone(w: World, s': Phys, d: nat, vp: nat, perm: nat)
    requires vp <= VPAGES && perm < PAGE_SIZE && forall q: nat | q < VPAGES :: Lookup(s'.ram, d, q) == Lookup(w.phys.ram, d, q)
    ensures GivenTo(w, s', d, vp, 0, perm)
  {
  }

  lemma TookMeans(w: World, s': Phys, d: nat, vp: nat, count: nat, perm: nat, ok: bool)
    requires 1 <= count && vp + count <= VPAGES && perm < PAGE_SIZE && TookOne(w, s', d, vp, perm, ok)
    ensures var need := Needs(w.phys, d, vp);
      && (ok <==> CountClear(w.phys.used) >= need) && (ok ==> CountClear(s'.used) == CountClear(w.phys.used) - need)
    ensures !ok ==> CountClear(s'.used) == 0 && forall q: nat | q < VPAGES :: Lookup(s'.ram, d, q) == Lookup(w.phys.ram, d, q)
    ensures Needs(w.phys, d, vp) <= 1 + |Missing(w.phys, d, vp, count)|
  {
    hide Lookup, HasTable;
    if Needs(w.phys, d, vp) == 2 {
      assert vp / ENTRIES in Missing(w.phys, d, vp, count);
    }
  }

  // ---- destroy_pde

  /** destroy_pde releases every frame that d maps in its user half, and the stray one, and no other. */
  lemma DestroyFrees(s: Phys, d: nat)
    requires WellFormed(s)
    ensures forall g: nat :: Used(DestroyPde(s, d), g) <==>
      Used(s, g) && !MappedFrom(s, d, USER_PAGE, g) && g != StrayFrame(s, d)
  {
    hide FreeLeaves, MappedFrom, Used;
    FreeLeavesFrees(s, d, USER_PAGE);
  }

  // ---- copy_page that fails

  // g is a table or a page of the child's.
  ghost predicate ChildTable(s: Phys, child: nat, g: nat) {
    exists i: nat :: USER_DIR <= i < ENTRIES && HasTable(s, child, i) && Table(s, child, i) == g
  }

  ghost predicate ChildPage(s: Phys, child: nat, g: nat) { MappedFrom(s, child, USER_PAGE, g) }

  // In use are the frames of w0, the child's directory, tables and pages, and one more perhaps.
  ghost predicate InUse(w0: World, s: Phys, child: nat, leak: Option<nat>) {
    forall g: nat :: Used(s, g) <==>
      Used(w0.phys, g) || g == child || ChildTable(s, child, g) || ChildPage(s, child, g) || leak == Some(g)
  }

  /** Whether a copy that starts with so many free frames at page vp runs out after it has taken a frame for a page, and
      before it could take one for the table. */
  function Leaks(ram: seq<Page>, parent: nat, vp: nat, inTable: bool, free: nat): bool
    requires vp <= VPAGES
    decreases VPAGES - vp
  {
    if vp == VPAGES then false
    else if Lookup(ram, parent, vp).None? then Leaks(ram, parent, vp + 1, inTable && (vp + 1) % ENTRIES != 0, free)
    else
      var need := if inTable then 1 else 2;
      if free < need then free == 1 else Leaks(ram, parent, vp + 1, (vp + 1) % ENTRIES != 0, free - need)
  }

  // What one page adds to the frames in use.
  lemma MapPageUses(s: Phys, d: nat, vp: nat, f: nat, perm: nat)
    requires Tidy(s, d) && vp < VPAGES && f < VPAGES && perm < PAGE_SIZE
    ensures var (s', ok) := MapPage(s, d, vp, f, perm);
      forall g: nat :: Used(s', g) <==>
        Used(s, g) || (ok && !HasTable(s, d, vp / ENTRIES) && g == Table(s', d, vp / ENTRIES))
  {
    hide Lookup, WritesOnly;
    FindPteKeeps(s, d, vp);
    var (s1, t) := FindPte(s, d, vp);
    if t.Some? {
      MapPageTable(s, d, vp, f, perm);
    }
  }

  lemma MapPageTable(s: Phys, d: nat, vp: nat, f: nat, perm: nat)
    requires Tidy(s, d) && vp < VPAGES && f < VPAGES && perm < PAGE_SIZE && FindPte(s, d, vp).1.Some?
    ensures var (s', ok) := MapPage(s, d, vp, f, perm); Table(s', d, vp / ENTRIES) == FindPte(s, d, vp).1.value
  {
    hide Lookup, WritesOnly;
    FindPteKeeps(s, d, vp);
    var (s1, t) := FindPte(s, d, vp);
    WriteEntryKeeps(s1, MapPage(s, d, vp, f, perm).0, d, vp / ENTRIES, vp % ENTRIES, MakeEntry(f, WithPresent(perm)));
  }

  // The child's pages are frames that were free, and play no other part.
  ghost predicate PagesFresh(w0: World, s: Phys, child: nat, leak: Option<nat>) {
    forall g: nat | ChildPage(s, child, g) :: Free(w0.phys, g) && g != child && !ChildTable(s, child, g) && leak != Some(g)
  }

  lemma FreshPages(w0: World, s: Phys, parent: nat, child: nat, vp: nat)
    requires Copying(w0, s, parent, child, vp)
    ensures PagesFresh(w0, s, child, None) && forall g: nat | ChildPage(s, child, g) :: Used(s, g)
  {
    hide Lookup;
    var w := ForkWorld(w0, s, child);
    forall g: nat | ChildPage(s, child, g)
      ensures Free(w0.phys, g) && g != child && !ChildTable(s, child, g) && Used(s, g)
    {
      var q: nat :| USER_PAGE <= q < VPAGES && Lookup(s.ram, child, q).Some? && Lookup(s.ram, child, q).value.frame == g;
      assert q < vp && Copied(w0, s, parent, child, q);
      assert Occupied(w, Leaf(child, q)) && FrameOf(w, Leaf(child, q)) == g;
      assert Occupied(w, Directory(child)) && FrameOf(w, Directory(child)) == child;
      forall i: nat | USER_DIR <= i < ENTRIES && HasTable(s, child, i)
        ensures Table(s, child, i) != g
      {
        assert Occupied(w, UserTable(child, i)) && FrameOf(w, UserTable(child, i)) == Table(s, child, i);
      }
    }
  }

  // The child's directory after one more page.
  lemma TablesAfter(s: Phys, s2: Phys, s3: Phys, child: nat, vp: nat)
    requires UserPage(vp) && forall i: nat | i < ENTRIES :: Entry(s3.ram, child, i) == Entry(s2.ram, child, i)
    requires forall i: nat | i < ENTRIES && i != vp / ENTRIES :: Entry(s2.ram, child, i) == Entry(s.ram, child, i)
    requires HasTable(s, child, vp / ENTRIES) ==> Entry(s2.ram, child, vp / ENTRIES) == Entry(s.ram, child, vp / ENTRIES)
    requires HasTable(s2, child, vp / ENTRIES)
    ensures forall g: nat :: ChildTable(s3, child, g) <==>
      ChildTable(s, child, g) || (!HasTable(s, child, vp / ENTRIES) && g == Table(s2, child, vp / ENTRIES))
  {
    var v := vp / ENTRIES;
    forall g: nat
      ensures ChildTable(s3, child, g) <==> ChildTable(s, child, g) || (!HasTable(s, child, v) && g == Table(s2, child, v))
    {
      assert HasTable(s3, child, v) && Table(s3, child, v) == Table(s2, child, v);
      if ChildTable(s3, child, g) {
        var i: nat :| USER_DIR <= i < ENTRIES && HasTable(s3, child, i) && Table(s3, child, i) == g;
        assert i == v || (HasTable(s, child, i) && Table(s, child, i) == g);
      }
      if ChildTable(s, child, g) {
        var i: nat :| USER_DIR <= i < ENTRIES && HasTable(s, child, i) && Table(s, child, i) == g;
        assert HasTable(s3, child, i) && Table(s3, child, i) == g;
      }
    }
  }

  lemma PagesAfter(s: Phys, s3: Phys, child: nat, vp: nat, page: nat)
    requires UserPage(vp) && Placed(s, s3, child, vp, page) && Lookup(s.ram, child, vp) == None
    ensures forall g: nat :: ChildPage(s3, child, g) <==> ChildPage(s, child, g) || g == page
  {
    hide Lookup;
    forall g: nat
      ensures ChildPage(s3, child, g) <==> ChildPage(s, child, g) || g == page
    {
      if ChildPage(s, child, g) {
        var q: nat :| USER_PAGE <= q < VPAGES && Lookup(s.ram, child, q).Some? && Lookup(s.ram, child, q).value.frame == g;
        assert Lookup(s3.ram, child, q) == Lookup(s.ram, child, q);
      }
      if ChildPage(s3, child, g) {
        var q: nat :| USER_PAGE <= q < VPAGES && Lookup(s3.ram, child, q).Some? && Lookup(s3.ram, child, q).value.frame == g;
        assert q == vp || Lookup(s3.ram, child, q) == Lookup(s.ram, child, q);
      }
    }
  }

  // Both are told from the memory alone.
  lemma SameRoles(s: Phys, s': Phys, child: nat)
    requires s'.ram == s.ram
    ensures forall g: nat :: ChildTable(s', child, g) <==> ChildTable(s, child, g)
    ensures forall g: nat :: ChildPage(s', child, g) <==> ChildPage(s, child, g)
  {
    hide Lookup;
    assert forall i: nat | i < ENTRIES :: HasTable(s', child, i) == HasTable(s, child, i) && Table(s', child, i) == Table(s, child, i);
    forall g: nat
      ensures ChildTable(s', child, g) <==> ChildTable(s, child, g)
    {
      if ChildTable(s, child, g) {
        var i: nat :| USER_DIR <= i < ENTRIES && HasTable(s, child, i) && Table(s, child, i) == g;
        assert HasTable(s', child, i);
      }
      if ChildTable(s', child, g) {
        var i: nat :| USER_DIR <= i < ENTRIES && HasTable(s', child, i) && Table(s', child, i) == g;
        assert HasTable(s, child, i);
      }
    }
  }

  lemma SameRamInUse(w0: World, s: Phys, s': Phys, child: nat, leak: Option<nat>)
    requires InUse(w0, s, child, None) && s'.ram == s.ram
    requires forall g: nat :: Used(s', g) <==> Used(s, g) || leak == Some(g)
    ensures InUse(w0, s', child, leak)
  {
    hide Used, ChildTable, ChildPage;
    SameRoles(s, s', child);
  }

  // The stores of one page that is copied.
  lemma OneCopied(w0: World, s: Phys, parent: nat, child: nat, vp: nat)
    requires Inv(w0) && parent in w0.spaces && UserPage(vp) && Copying(w0, s, parent, child, vp)
    requires WellFormed(s) && Lookup(w0.phys.ram, parent, vp).Some? && Lookup(s.ram, parent, vp) == Lookup(w0.phys.ram, parent, vp)
    requires AllocPage(s).1.Some?
    ensures var (s1, page) := AllocPage(s);
      var (s', ok) := CopyOne(s, parent, child, vp);
      var (s2, ok2) := MapPage(s1, child, vp, page.value, Lookup(w0.phys.ram, parent, vp).value.flags % 1024);
      && ok == ok2 && s'.used == s2.used && (!ok ==> s' == s2 == s1) && page.value != child
      && (ok ==> forall i: nat | i < ENTRIES :: Entry(s'.ram, child, i) == Entry(s2.ram, child, i))
      && (ok ==> HasTable(s2, child, vp / ENTRIES))
      && (forall i: nat | i < ENTRIES && i != vp / ENTRIES :: Entry(s2.ram, child, i) == Entry(s.ram, child, i))
      && (HasTable(s, child, vp / ENTRIES) ==> Entry(s2.ram, child, vp / ENTRIES) == Entry(s.ram, child, vp / ENTRIES))
      && (forall g: nat :: Used(s2, g) <==>
            Used(s, g) || g == page.value || (ok && !HasTable(s, child, vp / ENTRIES) && g == Table(s2, child, vp / ENTRIES)))
  {
    hide Lookup, Tidy, WritesOnly, Extends, MapPage;
    var perm := Lookup(w0.phys.ram, parent, vp).value.flags % 1024;
    var (s1, page) := AllocPage(s);
    AllocInv(ForkWorld(w0, s, child));
    SpaceIsTidy(ForkWorld(w0, s1, child), child);
    MapOne(s1, child, vp, page.value, perm);
    MapPageRefines(s1, child, vp, page.value, perm);
    MapPageUses(s1, child, vp, page.value, perm);
    assert Occupied(ForkWorld(w0, s, child), Directory(child));
    hide Inv, Copying;
  }

  lemma CopyOneUses(w0: World, s: Phys, parent: nat, child: nat, vp: nat) returns (leak: Option<nat>)
    requires Inv(w0) && parent in w0.spaces && UserPage(vp) && Copying(w0, s, parent, child, vp)
    requires Lookup(w0.phys.ram, parent, vp).Some? && InUse(w0, s, child, None)
    ensures WellFormed(s) && Lookup(s.ram, parent, vp) == Lookup(w0.phys.ram, parent, vp)
    ensures var (s', ok) := CopyOne(s, parent, child, vp);
      && InUse(w0, s', child, leak) && (leak.Some? <==> !ok && CountClear(s.used) == 1)
      && (leak.Some? ==> Free(w0.phys, leak.value) && !Used(s, leak.value))
  {
    hide Lookup, CopyOne, MapPage, Inv, ChildTable, MappedFrom;
    CopyOneStep(w0, s, parent, child, vp);
    AllocCount(s);
    var (s1, page) := AllocPage(s);
    var (s', ok) := CopyOne(s, parent, child, vp);
    leak := None;
    if page.None? {
      NoPage(s, parent, child, vp);
      SameRamInUse(w0, s, s', child, None);
    } else {
      OneCopied(w0, s, parent, child, vp);
      var s2 := MapPage(s1, child, vp, page.value, Lookup(w0.phys.ram, parent, vp).value.flags % 1024).0;
      if ok {
        TablesAfter(s, s2, s', child, vp);
        PagesAfter(s, s', child, vp, page.value);
        forall g: nat
          ensures Used(s', g) <==> Used(s2, g)
        {
        }
      } else {
        leak := page;
        SameRamInUse(w0, s, s', child, leak);
      }
    }
  }

  lemma NoPage(s: Phys, parent: nat, child: nat, vp: nat)
    requires WellFormed(s) && vp < VPAGES && Lookup(s.ram, parent, vp).Some? && AllocPage(s).1.None?
    ensures CopyOne(s, parent, child, vp) == (AllocPage(s).0, false) && AllocPage(s).0 == s
  {
  }

  lemma {:induction false} CopyFromUses(w0: World, s: Phys, parent: nat, child: nat, vp: nat) returns (leak: Option<nat>)
    requires Inv(w0) && parent in w0.spaces && USER_PAGE <= vp <= VPAGES && Copying(w0, s, parent, child, vp)
    requires InUse(w0, s, child, None)
    ensures WellFormed(s)
    ensures var (s', ok) := CopyFrom(s, parent, child, vp);
      && InUse(w0, s', child, leak) && PagesFresh(w0, s', child, leak)
      && (leak.Some? <==> Leaks(w0.phys.ram, parent, vp, InTable(s, child, vp), CountClear(s.used)))
      && (leak.Some? ==> Free(w0.phys, leak.value) && !ok)
    decreases VPAGES - vp
  {
    hide Lookup, CopyOne, Preserves, Inv, InUse, PagesFresh;
    CopyingGood(w0, s, parent, child, vp);
    FreshPages(w0, s, parent, child, vp);
    if vp == VPAGES {
      leak := None;
    } else {
      NextTable(vp);
      PreservedLookups(w0, s, parent, vp);
      if Lookup(w0.phys.ram, parent, vp).None? {
        SkipPage(w0, s, parent, child, vp);
        leak := CopyFromUses(w0, s, parent, child, vp + 1);
      } else {
        CopyOneStep(w0, s, parent, child, vp);
        leak := CopyOneUses(w0, s, parent, child, vp);
        var (s1, ok) := CopyOne(s, parent, child, vp);
        if ok {
          leak := CopyFromUses(w0, s1, parent, child, vp + 1);
        } else {
          StillFresh(w0, s, s1, child, leak);
        }
      }
    }
  }

  lemma StillFresh(w0: World, s: Phys, s': Phys, child: nat, leak: Option<nat>)
    requires PagesFresh(w0, s, child, None) && s'.ram == s.ram && forall g: nat | ChildPage(s, child, g) :: Used(s, g)
    requires leak.Some? ==> !Used(s, leak.value)
    ensures PagesFresh(w0, s', child, leak)
  {
    hide Used, ChildTable, ChildPage;
    SameRoles(s, s', child);
  }

  lemma StartInUse(w: World)
    requires Inv(w) && CreatePde(w.phys, w.kdir).1.Some?
    ensures var (s1, c) := CreatePde(w.phys, w.kdir); InUse(w, s1, c.value, None)
  {
    CreatePdeInv(w);
    hide Lookup;
  }

  /** A copy_page that succeeds puts in use the child's directory, tables and pages, and no other frame. */
  lemma ForkUses(w: World, parent: nat)
    requires Inv(w) && parent in w.spaces && EnoughFrames(w, parent)
    ensures WellFormed(w.phys)
    ensures var (s', c) := CopyPage(w.phys, w.kdir, parent); c.Some? && InUse(w, s', c.value, None)
  {
    hide Lookup, CopyFrom, Inv, InUse, FramesNeeded, Leaks;
    GoodIsWellFormed(w);
    ForkDuplicates(w, parent);
    StartInUse(w);
    StartCopying(w, parent);
    var (s1, c) := CreatePde(w.phys, w.kdir);
    var leak := CopyFromUses(w, s1, parent, c.value, USER_PAGE);
  }

  // In use are the frames of w, the child's directory and tables, and one more perhaps, but not the stray one.
  ghost predicate LeftInUse(w: World, s: Phys, child: nat, leak: Option<nat>, stray: nat) {
    forall g: nat :: Used(s, g) <==>
      (Used(w.phys, g) || g == child || ChildTable(s, child, g) || leak == Some(g)) && g != stray
  }

  /** A copy_page that runs out of frames leaves in use what was, and the child's directory and tables; its pages are free
      again, but for a page for which a frame was taken and no table could be; and the stray frame is released. */
  lemma FailedForkUses(w: World, parent: nat) returns (leak: Option<nat>)
    requires Inv(w) && parent in w.spaces && WellFormed(w.phys) && CreatePde(w.phys, w.kdir).1.Some? && !EnoughFrames(w, parent)
    ensures CopyPage(w.phys, w.kdir, parent).1 == None
    ensures LeftInUse(w, CopyPage(w.phys, w.kdir, parent).0, CreatePde(w.phys, w.kdir).1.value, leak, Frame(StrayWord(w, parent)))
    ensures CountClear(w.phys.used) >= 1
    ensures leak.Some? <==> Leaks(w.phys.ram, parent, USER_PAGE, false, CountClear(w.phys.used) - 1)
    ensures leak.Some? ==> Free(w.phys, leak.value)
  {
    hide Lookup, CopyFrom, Inv, FramesNeeded, Leaks, StrayWord, InUse, PagesFresh, LeftInUse, CreatePde, DestroyPde;
    ForkDuplicates(w, parent);
    StartInUse(w);
    StartCopying(w, parent);
    CreateCount(w);
    var (s1, c) := CreatePde(w.phys, w.kdir);
    leak := CopyFromUses(w, s1, parent, c.value, USER_PAGE);
    var s2 := CopyFrom(s1, parent, c.value, USER_PAGE).0;
    StrayForetold(w, parent);
    CleanUp(w, s2, c.value, leak);
  }

  lemma CleanUp(w: World, s: Phys, child: nat, leak: Option<nat>)
    requires WellFormed(s) && InUse(w, s, child, leak) && PagesFresh(w, s, child, leak)
    ensures LeftInUse(w, DestroyPde(s, child), child, leak, StrayFrame(s, child))
  {
    hide Used, ChildTable, MappedFrom, DestroyPde, StrayFrame;
    DestroyFrees(s, child);
    var r := DestroyPde(s, child);
    SameRoles(s, r, child);
    FreeNotUsed(w.phys);
    forall g: nat
      ensures Used(r, g) <==>
        (Used(w.phys, g) || g == child || ChildTable(r, child, g) || leak == Some(g)) && g != StrayFrame(s, child)
    {
      assert ChildPage(s, child, g) ==> Free(w.phys, g);
    }
  }

  lemma FreeNotUsed(s: Phys)
    ensures forall g: nat | Free(s, g) :: !Used(s, g)
  {
  }
}
