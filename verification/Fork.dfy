/** copy_page duplicates an address space: the child reads as the parent did, in frames that were free. */
module Fork {
  import opened Wrappers
  import opened PageLayout
  import opened Memory32
  import opened PageMap
  import opened Isolation
  import opened FrameBits

  /** User page q of the child is what the parent had there in w0: absent if absent, otherwise with the same low ten
      flag bits and the same contents, in a frame that was free. */
  ghost predicate Copied(w0: World, s: Phys, parent: nat, child: nat, q: nat)
    requires UserPage(q)
  {
    match (Lookup(w0.phys.ram, parent, q), Lookup(s.ram, child, q))
    case (None, None) => true
    case (Some(m), Some(c)) =>
      c.flags == m.flags % 1024 && Free(w0.phys, c.frame) && PageAt(s.ram, c.frame) == PageAt(w0.phys.ram, m.frame)
    case _ => false
  }

  /** Nothing that was in use, or outside the managed frames, has changed; nothing was released. */
  ghost predicate Preserves(s0: Phys, s: Phys) {
    && |s.ram| == |s0.ram| && |s.used| == |s0.used|
    && (forall g: nat | g < |s0.ram| && !Free(s0, g) :: s.ram[g] == s0.ram[g])
    && (forall g: nat :: Used(s0, g) ==> Used(s, g))
    && (forall g: nat :: Free(s, g) ==> Free(s0, g))
  }

  function ForkWorld(w0: World, s: Phys, child: nat): World { World(s, w0.kdir, w0.spaces + {child}) }

  /** The invariant of the loops of copy_page when all pages below vp are done. */
  ghost predicate Copying(w0: World, s: Phys, parent: nat, child: nat, vp: nat) {
    && Inv(ForkWorld(w0, s, child)) && Free(w0.phys, child) && Preserves(w0.phys, s)
    && (forall i: nat | USER_DIR <= i < ENTRIES && HasTable(s, child, i) :: Free(w0.phys, Table(s, child, i)))
    && (forall i: nat | USER_DIR <= i < ENTRIES && vp <= i * ENTRIES :: !HasTable(s, child, i))
    && (forall q: nat | UserPage(q) && q < vp :: Copied(w0, s, parent, child, q))
    && (forall q: nat | UserPage(q) && vp <= q :: Lookup(s.ram, child, q) == None)
  }

  /** What was in use in a good world is translated as before after any change that preserves it. */
  lemma PreservedLookups(w0: World, s: Phys, e: nat, q: nat)
    requires Inv(w0) && e in w0.spaces && q < VPAGES && Preserves(w0.phys, s)
    ensures Lookup(s.ram, e, q) == Lookup(w0.phys.ram, e, q)
    ensures UserPage(q) && Lookup(s.ram, e, q).Some? ==>
      PageAt(s.ram, Lookup(s.ram, e, q).value.frame) == PageAt(w0.phys.ram, Lookup(s.ram, e, q).value.frame)
  {
    var i := q / ENTRIES;
    assert Occupied(w0, Directory(e)) && FrameOf(w0, Directory(e)) == e;
    if HasTable(w0.phys, e, i) {
      if i < USER_DIR {
        assert Entry(w0.phys.ram, e, i) == Entry(w0.phys.ram, w0.kdir, i);
      }
      assert Occupied(w0, TableSlot(e, i)) && Used(w0.phys, FrameOf(w0, TableSlot(e, i)));
    }
    if UserPage(q) && Lookup(w0.phys.ram, e, q).Some? {
      assert Occupied(w0, Leaf(e, q)) && Used(w0.phys, FrameOf(w0, Leaf(e, q)));
    }
  }

  /** Page vp of the child is in this frame, and its other pages are where they were. */
  ghost predicate Placed(s: Phys, s': Phys, child: nat, vp: nat, page: nat)
    requires UserPage(vp)
  {
    && Lookup(s'.ram, child, vp).Some? && Lookup(s'.ram, child, vp).value.frame == page
    && forall q: nat | q < VPAGES && q != vp :: Lookup(s'.ram, child, q) == Lookup(s.ram, child, q)
  }

  /** Mapping and filling the child's page vp. */
  lemma MapChild(w0: World, s: Phys, parent: nat, child: nat, vp: nat, page: nat)
    requires Inv(w0) && parent in w0.spaces && UserPage(vp) && Copying(w0, s, parent, child, vp)
    requires Unowned(ForkWorld(w0, s, child), page) && Free(w0.phys, page) && page < VPAGES
    requires Lookup(w0.phys.ram, parent, vp).Some?
    ensures var (s', ok) := MapPage(s, child, vp, page, Lookup(w0.phys.ram, parent, vp).value.flags % 1024);
      && Inv(ForkWorld(w0, s', child)) && Preserves(w0.phys, s')
      && (!ok <==> !HasTable(s, child, vp / ENTRIES) && forall g :: !Free(s, g))
      && (ok ==> CountClear(s'.used) == CountClear(s.used) - if HasTable(s, child, vp / ENTRIES) then 0 else 1)
      && (!ok ==> s'.ram == s.ram)
      && (ok ==> HasTable(CopyFrame(s', parent, vp, page), child, vp / ENTRIES))
      && (ok ==> Copying(w0, CopyFrame(s', parent, vp, page), parent, child, vp + 1))
      && (ok ==> Placed(s, CopyFrame(s', parent, vp, page), child, vp, page))
  {
    hide Lookup, WritesOnly, Extends, Tidy;
    var m := Lookup(w0.phys.ram, parent, vp).value;
    var perm := m.flags % 1024;
    var w := ForkWorld(w0, s, child);
    MapUserPage(w, child, vp, page, perm);
    SpaceIsTidy(w, child);
    var (s', ok) := MapPage(s, child, vp, page, perm);
    ChildWritesPreserve(w0, s, s', child);
    if ok {
      PreservedLookups(w0, s', parent, vp);
      assert WithPresent(perm) == perm;
      assert Lookup(s'.ram, child, vp) == Some(Mapping(page, perm));
      FillChild(w0, s, s', parent, child, vp, page);
      MapPageCount(s, child, vp, page, perm);
      MapPageRefines(s, child, vp, page, perm);
    }
  }

  lemma ChildWritesPreserve(w0: World, s: Phys, s': Phys, child: nat)
    requires Preserves(w0.phys, s) && Free(w0.phys, child) && WritesUser(ForkWorld(w0, s, child), s', child)
    requires forall i: nat | USER_DIR <= i < ENTRIES && HasTable(s, child, i) :: Free(w0.phys, Table(s, child, i))
    ensures Preserves(w0.phys, s')
  {
    forall g: nat | g < |s.ram| && !Free(w0.phys, g)
      ensures s'.ram[g] == s.ram[g]
    {
      assert !Touches(ForkWorld(w0, s, child), child, g);
    }
  }

  lemma FillChild(w0: World, s: Phys, s': Phys, parent: nat, child: nat, vp: nat, page: nat)
    requires Inv(w0) && parent in w0.spaces && UserPage(vp) && Copying(w0, s, parent, child, vp)
    requires Inv(ForkWorld(w0, s', child)) && Preserves(w0.phys, s') && Free(w0.phys, page)
    requires Lookup(w0.phys.ram, parent, vp).Some?
    requires Lookup(s'.ram, parent, vp) == Lookup(w0.phys.ram, parent, vp)
    requires Lookup(s'.ram, child, vp) == Some(Mapping(page, Lookup(w0.phys.ram, parent, vp).value.flags % 1024))
    requires forall q: nat | q < VPAGES && q != vp :: Lookup(s'.ram, child, q) == Lookup(s.ram, child, q)
    requires forall i: nat | USER_DIR <= i < ENTRIES && HasTable(s', child, i) ::
      Entry(s'.ram, child, i) == Entry(s.ram, child, i) || (i == vp / ENTRIES && Free(s, Table(s', child, i)))
    requires WritesUser(ForkWorld(w0, s, child), s', child)
    ensures Copying(w0, CopyFrame(s', parent, vp, page), parent, child, vp + 1)
    ensures Placed(s, CopyFrame(s', parent, vp, page), child, vp, page)
    ensures forall i: nat | i < ENTRIES ::
      Entry(CopyFrame(s', parent, vp, page).ram, child, i) == Entry(s'.ram, child, i)
  {
    hide Lookup;
    var w' := ForkWorld(w0, s', child);
    assert Occupied(w', Leaf(child, vp)) && FrameOf(w', Leaf(child, vp)) == page;
    var m := Lookup(w0.phys.ram, parent, vp).value;
    PreservedLookups(w0, s', parent, vp);
    var p := PageAt(s'.ram, m.frame);
    ContentWrite(w', child, vp, p);
    var s2 := CopyFrame(s', parent, vp, page);
    assert s2 == s'.(ram := s'.ram[page := p]);
    forall q: nat | UserPage(q) && q < vp
      ensures Copied(w0, s2, parent, child, q)
    {
      assert Copied(w0, s, parent, child, q);
      if Lookup(s.ram, child, q).Some? {
        var c := Lookup(s.ram, child, q).value.frame;
        assert Occupied(w', Leaf(child, q)) && FrameOf(w', Leaf(child, q)) == c && c != page;
        ChildPageKept(w0, s, s', child, q);
      }
    }
    forall q: nat | UserPage(q) && vp + 1 <= q
      ensures Lookup(s2.ram, child, q) == None
    {
    }
    assert Copied(w0, s2, parent, child, vp);
    forall i: nat | USER_DIR <= i < ENTRIES && vp + 1 <= i * ENTRIES
      ensures !HasTable(s2, child, i)
    {
      assert i != vp / ENTRIES && !HasTable(s, child, i);
      assert Entry(s2.ram, child, i) == Entry(s'.ram, child, i);
    }
    assert Inv(ForkWorld(w0, s2, child));
    assert Preserves(w0.phys, s2);
    forall i: nat | USER_DIR <= i < ENTRIES && HasTable(s2, child, i)
      ensures Free(w0.phys, Table(s2, child, i))
    {
      assert Entry(s2.ram, child, i) == Entry(s'.ram, child, i);
      assert HasTable(s', child, i) && Table(s2, child, i) == Table(s', child, i);
      if Entry(s'.ram, child, i) == Entry(s.ram, child, i) {
        assert HasTable(s, child, i) && Free(w0.phys, Table(s, child, i));
      } else {
        assert Free(s, Table(s', child, i));
      }
    }
  }

  lemma ChildPageKept(w0: World, s: Phys, s': Phys, child: nat, q: nat)
    requires Inv(ForkWorld(w0, s, child)) && UserPage(q) && WritesUser(ForkWorld(w0, s, child), s', child)
    requires Lookup(s.ram, child, q).Some?
    ensures PageAt(s'.ram, Lookup(s.ram, child, q).value.frame) == PageAt(s.ram, Lookup(s.ram, child, q).value.frame)
  {
    RoleNotTouched(ForkWorld(w0, s, child), s', child, Leaf(child, q));
  }

  lemma MapPageCount(s: Phys, d: nat, vp: nat, f: nat, perm: nat)
    requires WellFormed(s) && vp < VPAGES && f < VPAGES && perm < PAGE_SIZE
    requires MapPage(s, d, vp, f, perm).1
    ensures CountClear(MapPage(s, d, vp, f, perm).0.used) == CountClear(s.used) - if HasTable(s, d, vp / ENTRIES) then 0 else 1
  {
    AllocCount(s);
  }

  lemma AllocCount(s: Phys)
    ensures AllocPage(s).1.Some? ==> CountClear(AllocPage(s).0.used) == CountClear(s.used) - 1
    ensures AllocPage(s).1.None? <==> CountClear(s.used) == 0
  {
    CountZero(s.used);
    var i := LowestClear(s.used, 0);
    if i < |s.used| {
      CountAfterSet(s.used, i);
    }
  }

  /** One present page: allocate, map, copy. It fails only when memory has run out. */
  lemma CopyOneStep(w0: World, s: Phys, parent: nat, child: nat, vp: nat)
    requires Inv(w0) && parent in w0.spaces && UserPage(vp) && Copying(w0, s, parent, child, vp)
    requires Lookup(w0.phys.ram, parent, vp).Some?
    ensures WellFormed(s) && Lookup(s.ram, parent, vp) == Lookup(w0.phys.ram, parent, vp)
    ensures var (s', ok) := CopyOne(s, parent, child, vp);
      var need := if HasTable(s, child, vp / ENTRIES) then 1 else 2;
      && Inv(ForkWorld(w0, s', child)) && Preserves(w0.phys, s')
      && (ok <==> CountClear(s.used) >= need)
      && (ok ==> CountClear(s'.used) == CountClear(s.used) - need && HasTable(s', child, vp / ENTRIES)
                 && Copying(w0, s', parent, child, vp + 1))
      && (if ok then Placed(s, s', child, vp, AllocPage(s).1.value) else s'.ram == s.ram)
  {
    hide Lookup, MapPage, Tidy, WritesOnly, Extends;
    PreservedLookups(w0, s, parent, vp);
    AllocInv(ForkWorld(w0, s, child));
    AllocCount(s);
    var (s1, page) := AllocPage(s);
    if page.Some? {
      CopyingAfterAlloc(w0, s, s1, parent, child, vp);
      MapChild(w0, s1, parent, child, vp, page.value);
      AllocCount(s1);
      MapOne(s1, child, vp, page.value, Lookup(w0.phys.ram, parent, vp).value.flags % 1024);
    }
  }

  lemma CopyingAfterAlloc(w0: World, s: Phys, s1: Phys, parent: nat, child: nat, vp: nat)
    requires Copying(w0, s, parent, child, vp) && s1.ram == s.ram && |s1.used| == |s.used|
    requires Inv(ForkWorld(w0, s1, child)) && forall g: nat :: Used(s, g) ==> Used(s1, g)
    ensures Copying(w0, s1, parent, child, vp)
  {
    forall q: nat | UserPage(q) && q < vp
      ensures Copied(w0, s1, parent, child, q)
    {
      assert Copied(w0, s, parent, child, q);
    }
    assert forall i: nat | i < ENTRIES :: HasTable(s1, child, i) == HasTable(s, child, i);
    assert forall g: nat :: Free(s1, g) ==> Free(s, g) || Used(s, g);
  }

  lemma MapOne(s: Phys, d: nat, vp: nat, f: nat, perm: nat)
    requires WellFormed(s) && vp < VPAGES && f < VPAGES && perm < PAGE_SIZE
    ensures CreateMap(s, d, vp, f, 1, perm) == MapPage(s, d, vp, f, perm)
  {
    var (s1, ok) := MapPage(s, d, vp, f, perm);
    if ok {
      assert CreateMap(s1, d, (vp + 1) % VPAGES, (f + 1) % VPAGES, 0, perm) == (s1, true);
    }
  }

  /** How many frames copying pages vp and up takes: one a page, one more for each table begun. */
  function FramesNeeded(ram: seq<Page>, parent: nat, vp: nat, inTable: bool): nat
    requires vp <= VPAGES
    decreases VPAGES - vp
  {
    if vp == VPAGES then 0
    else if Lookup(ram, parent, vp).None? then FramesNeeded(ram, parent, vp + 1, inTable && (vp + 1) % ENTRIES != 0)
    else (if inTable then 1 else 2) + FramesNeeded(ram, parent, vp + 1, (vp + 1) % ENTRIES != 0)
  }

  // Whether the child already has the table that page vp falls in.
  predicate InTable(s: Phys, child: nat, vp: nat)
    requires vp <= VPAGES
  {
    vp < VPAGES && HasTable(s, child, vp / ENTRIES)
  }

  /** The loops of copy_page from page vp on: they succeed exactly when enough frames are free. */
  lemma {:induction false} CopyLoop(w0: World, s: Phys, parent: nat, child: nat, vp: nat)
    requires Inv(w0) && parent in w0.spaces && USER_PAGE <= vp <= VPAGES && Copying(w0, s, parent, child, vp)
    ensures var (s', ok) := CopyFrom(s, parent, child, vp);
      && Inv(ForkWorld(w0, s', child)) && Preserves(w0.phys, s')
      && (ok <==> CountClear(s.used) >= FramesNeeded(w0.phys.ram, parent, vp, InTable(s, child, vp)))
      && (ok ==> Copying(w0, s', parent, child, VPAGES))
    decreases VPAGES - vp
  {
    hide Lookup, CopyOne, Preserves, Inv;
    if vp == VPAGES {
    } else {
      assert UserPage(vp);
      NextTable(vp);
      PreservedLookups(w0, s, parent, vp);
      if Lookup(w0.phys.ram, parent, vp).None? {
        SkipPage(w0, s, parent, child, vp);
        CopyLoop(w0, s, parent, child, vp + 1);
      } else {
        CopyOneStep(w0, s, parent, child, vp);
        var (s1, ok) := CopyOne(s, parent, child, vp);
        if ok {
          CopyLoop(w0, s1, parent, child, vp + 1);
        }
      }
    }
  }

  lemma NextTable(vp: nat)
    ensures (vp + 1) % ENTRIES != 0 ==> (vp + 1) / ENTRIES == vp / ENTRIES
    ensures (vp + 1) % ENTRIES == 0 ==> vp + 1 == (vp + 1) / ENTRIES * ENTRIES
  {
  }

  lemma SkipPage(w0: World, s: Phys, parent: nat, child: nat, vp: nat)
    requires Copying(w0, s, parent, child, vp) && UserPage(vp) && Lookup(w0.phys.ram, parent, vp).None?
    ensures Copying(w0, s, parent, child, vp + 1)
  {
    assert Copied(w0, s, parent, child, vp);
  }

  /** Fork preserves meaning. copy_page succeeds exactly when enough frames are free; then the child is a new space of
      the world, with exactly the parent's user pages and their permissions, in frames that were free; it reads every
      user byte as the parent did; it shares the kernel half; and nothing that was in use has changed. */
  lemma ForkDuplicates(w: World, parent: nat)
    requires Inv(w) && parent in w.spaces
    ensures var (s', child) := CopyPage(w.phys, w.kdir, parent);
      && (child.Some? <==> CountClear(w.phys.used) >= 1 + FramesNeeded(w.phys.ram, parent, USER_PAGE, false))
      && (child.Some? ==>
            && Free(w.phys, child.value) && Inv(ForkWorld(w, s', child.value)) && Preserves(w.phys, s')
            && (forall q: nat | UserPage(q) :: Copied(w, s', parent, child.value, q))
            && (forall q: nat | q < USER_PAGE :: Lookup(s'.ram, child.value, q) == Lookup(w.phys.ram, parent, q))
            && (forall e: nat, q: nat | e in w.spaces && q < VPAGES :: Lookup(s'.ram, e, q) == Lookup(w.phys.ram, e, q)))
  {
    hide CopyFrom, Lookup;
    var (s', child) := CopyPage(w.phys, w.kdir, parent);
    var (s1, c) := CreatePde(w.phys, w.kdir);
    CreatePdeInv(w);
    CreateCount(w);
    if c.Some? {
      StartCopying(w, parent);
      CopyLoop(w, s1, parent, c.value, USER_PAGE);
      if child.Some? {
        forall e: nat, q: nat | e in w.spaces && q < VPAGES
          ensures Lookup(s'.ram, e, q) == Lookup(w.phys.ram, e, q)
        {
          PreservedLookups(w, s', e, q);
        }
        SharedHalf(ForkWorld(w, s', child.value), parent, child.value);
      }
    }
  }

  lemma CreateCount(w: World)
    requires Inv(w)
    ensures var (s', d) := CreatePde(w.phys, w.kdir);
      && (d.Some? <==> CountClear(w.phys.used) >= 1)
      && (d.Some? ==> CountClear(s'.used) == CountClear(w.phys.used) - 1)
  {
    AllocCount(w.phys);
  }

  lemma StartCopying(w: World, parent: nat)
    requires Inv(w) && CreatePde(w.phys, w.kdir).1.Some?
    ensures var (s1, c) := CreatePde(w.phys, w.kdir);
      Copying(w, s1, parent, c.value, USER_PAGE) && !InTable(s1, c.value, USER_PAGE)
  {
    CreatePdeInv(w);
    var (s1, c) := CreatePde(w.phys, w.kdir);
    assert forall g: nat :: Free(s1, g) ==> Free(w.phys, g) || Used(w.phys, g);
  }

  /** All spaces of a good world translate the addresses below VM_TASK_BASE alike. */
  lemma SharedHalf(w: World, d: nat, e: nat)
    requires Inv(w) && d in w.spaces && e in w.spaces
    ensures forall q: nat | q < USER_PAGE :: Lookup(w.phys.ram, d, q) == Lookup(w.phys.ram, e, q)
  {
    forall q: nat | q < USER_PAGE
      ensures Lookup(w.phys.ram, d, q) == Lookup(w.phys.ram, e, q)
    {
      assert Entry(w.phys.ram, d, q / ENTRIES) == Entry(w.phys.ram, w.kdir, q / ENTRIES);
      assert Entry(w.phys.ram, e, q / ENTRIES) == Entry(w.phys.ram, w.kdir, q / ENTRIES);
    }
  }

  /** Every user byte reads the same in parent and child, and in the parent as before the call. */
  lemma ForkReadsAlike(w: World, parent: nat, va: nat)
    requires Inv(w) && parent in w.spaces && USER_PAGE * PAGE_SIZE <= va < 0x1_0000_0000
    requires CopyPage(w.phys, w.kdir, parent).1.Some?
    ensures var (s', child) := CopyPage(w.phys, w.kdir, parent);
      ReadByte(s', child.value, va) == ReadByte(w.phys, parent, va) == ReadByte(s', parent, va)
  {
    hide Lookup, CopyPage;
    ForkDuplicates(w, parent);
    var (s', child) := CopyPage(w.phys, w.kdir, parent);
    var q := va / PAGE_SIZE;
    assert Copied(w, s', parent, child.value, q);
    PreservedLookups(w, s', parent, q);
  }
}
