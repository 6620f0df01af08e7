/** What a fork that runs out of memory does: copy_page calls destroy_pde, which releases one frame too many. The frame is
    named before the call, and the invariant survives exactly when it plays no role. */
module FailedFork {
  import opened Wrappers
  import opened PageLayout
  import opened FrameBits
  import opened Memory32
  import opened PageMap
  import opened Isolation
  import opened Fork

  // ---- destroy_pde

  // Frame g is mapped by d at some user page from vp up.
  ghost predicate MappedFrom(s: Phys, d: nat, vp: nat, g: nat) {
    exists q: nat :: vp <= q < VPAGES && Lookup(s.ram, d, q).Some? && Lookup(s.ram, d, q).value.frame == g
  }

  lemma {:induction false} FreeLeavesFrees(s: Phys, d: nat, vp: nat)
    requires WellFormed(s) && vp <= VPAGES
    ensures forall g: nat :: Used(FreeLeaves(s, d, vp), g) <==> Used(s, g) && !MappedFrom(s, d, vp, g)
    decreases VPAGES - vp
  {
    hide Lookup, Used, FreePage;
    if vp == VPAGES {
    } else {
      var m := Lookup(s.ram, d, vp);
      var s1 := if m.Some? then FreePage(s, m.value.frame) else s;
      FreeLeavesFrees(s1, d, vp + 1);
      forall g: nat
        ensures MappedFrom(s, d, vp, g) <==> MappedFrom(s1, d, vp + 1, g) || (m.Some? && m.value.frame == g)
      {
      }
    }
  }

  /** The world once destroy_pde has run on d, which is no longer an address space. */
  function AfterDestroy(w: World, d: nat): World
    requires WellFormed(w.phys)
  {
    World(DestroyPde(w.phys, d), w.kdir, w.spaces - {d})
  }

  // Slot x belongs to space d.
  predicate RoleOf(x: Slot, d: nat) { !x.KernelTable? && x.d == d }

  // The frame that destroy_pde frees last plays a role in what remains.
  ghost predicate StrayHasRole(w: World, d: nat) {
    exists x :: Occupied(w, x) && !RoleOf(x, d) && FrameOf(w, x) == StrayFrame(w.phys, d)
  }

  /** destroy_pde keeps the invariant exactly when the frame named by the word after the directory has no role left. */
  lemma DestroyExactly(w: World, d: nat)
    requires Inv(w) && d in w.spaces
    ensures Inv(AfterDestroy(w, d)) <==> !StrayHasRole(w, d)
  {
    hide Lookup, Used, FreePage, FreeLeaves;
    var w' := AfterDestroy(w, d);
    var s1 := FreeLeaves(w.phys, d, USER_PAGE);
    FreeLeavesFrees(w.phys, d, USER_PAGE);
    assert w'.phys.ram == w.phys.ram;
    forall x
      ensures Occupied(w', x) <==> Occupied(w, x) && !RoleOf(x, d)
      ensures Occupied(w', x) ==> FrameOf(w', x) == FrameOf(w, x)
    {
    }
    forall x | Occupied(w', x)
      ensures Used(s1, FrameOf(w', x))
      ensures Used(w'.phys, FrameOf(w', x)) <==> FrameOf(w, x) != StrayFrame(w.phys, d)
    {
      var g := FrameOf(w, x);
      assert Used(w.phys, g);
      forall q: nat | USER_PAGE <= q < VPAGES && Lookup(w.phys.ram, d, q).Some?
        ensures Lookup(w.phys.ram, d, q).value.frame != g
      {
        assert Occupied(w, Leaf(d, q));
      }
    }
    if StrayHasRole(w, d) {
      var x :| Occupied(w, x) && !RoleOf(x, d) && FrameOf(w, x) == StrayFrame(w.phys, d);
      assert Occupied(w', x) && !Used(w'.phys, FrameOf(w', x));
    }
  }

  // ---- the word that destroy_pde takes for an entry

  // The world as copy_page leaves it for destroy_pde when it runs out of frames.
  function HalfCopied(w: World, parent: nat): World
    requires WellFormed(w.phys) && CreatePde(w.phys, w.kdir).1.Some?
  {
    var (s1, child) := CreatePde(w.phys, w.kdir);
    ForkWorld(w, CopyFrom(s1, parent, child.value, USER_PAGE).0, child.value)
  }

  /** Enough frames are free for copy_page to finish. */
  predicate EnoughFrames(w: World, parent: nat) {
    CountClear(w.phys.used) >= 1 + FramesNeeded(w.phys.ram, parent, USER_PAGE, false)
  }

  // The first mapped page from vp up, or VPAGES.
  function FirstMapped(ram: seq<Page>, d: nat, vp: nat): (q: nat)
    requires vp <= VPAGES
    ensures vp <= q <= VPAGES && (q < VPAGES ==> Lookup(ram, d, q).Some?)
    decreases VPAGES - vp
  {
    if vp == VPAGES || Lookup(ram, d, vp).Some? then vp else FirstMapped(ram, d, vp + 1)
  }

  // The frame the next allocation takes, if there is one.
  function NextFree(s: Phys): nat { FIRST + LowestClear(s.used, 0) }

  /** The word that a failing fork of parent takes for an entry: word 0 of the frame above the child's directory. When
      that frame is free and a third one is too, the copy of the parent's first user page has gone there by then. */
  function StrayWord(w: World, parent: nat): word {
    var f := NextFree(w.phys) + 1;
    var q := FirstMapped(w.phys.ram, parent, USER_PAGE);
    if Free(w.phys, f) && CountClear(w.phys.used) >= 3 && q < VPAGES
    then Entry(w.phys.ram, Lookup(w.phys.ram, parent, q).value.frame, 0)
    else Entry(w.phys.ram, f, 0)
  }

  // The frame handed out first keeps the copy until the loops end.
  lemma {:induction false} CopyStays(w0: World, s: Phys, parent: nat, child: nat, vp: nat, q: nat, f: nat)
    requires Inv(w0) && parent in w0.spaces && USER_PAGE <= vp <= VPAGES && Copying(w0, s, parent, child, vp)
    requires UserPage(q) && q < vp && Lookup(s.ram, child, q).Some? && Lookup(s.ram, child, q).value.frame == f
    ensures WellFormed(s) && PageAt(CopyFrom(s, parent, child, vp).0.ram, f) == PageAt(s.ram, f)
    decreases VPAGES - vp
  {
    hide Lookup, CopyOne, Preserves, Inv;
    CopyingGood(w0, s, parent, child, vp);
    if vp == VPAGES {
    } else {
      PreservedLookups(w0, s, parent, vp);
      if Lookup(w0.phys.ram, parent, vp).None? {
        SkipPage(w0, s, parent, child, vp);
        CopyStays(w0, s, parent, child, vp + 1, q, f);
      } else {
        CopyOneStep(w0, s, parent, child, vp);
        var (s1, ok) := CopyOne(s, parent, child, vp);
        if ok {
          CopyKept(w0, s, s1, parent, child, vp, q);
          CopyStays(w0, s1, parent, child, vp + 1, q, f);
        }
      }
    }
  }

  lemma CopyingGood(w0: World, s: Phys, parent: nat, child: nat, vp: nat)
    requires Copying(w0, s, parent, child, vp)
    ensures WellFormed(s) && Preserves(w0.phys, s)
  {
  }

  lemma CopyKept(w0: World, s: Phys, s1: Phys, parent: nat, child: nat, vp: nat, q: nat)
    requires Copying(w0, s, parent, child, vp) && Copying(w0, s1, parent, child, vp + 1) && UserPage(q) && q < vp
    requires Lookup(s.ram, child, q).Some? && Lookup(s1.ram, child, q) == Lookup(s.ram, child, q)
    ensures var f := Lookup(s.ram, child, q).value.frame; PageAt(s1.ram, f) == PageAt(s.ram, f)
  {
    assert Copied(w0, s, parent, child, q) && Copied(w0, s1, parent, child, q);
    hide *;
  }

  // After the loops of copy_page, from a child without user tables: the first free frame holds the first page, or, with
  // fewer than two free frames or nothing to copy, nothing has been written.
  ghost predicate FirstCopy(w0: World, s: Phys, s': Phys, parent: nat, vp: nat)
    requires vp <= VPAGES
  {
    var q := FirstMapped(w0.phys.ram, parent, vp);
    if q < VPAGES && CountClear(s.used) >= 2
    then PageAt(s'.ram, NextFree(s)) == PageAt(w0.phys.ram, Lookup(w0.phys.ram, parent, q).value.frame)
    else s'.ram == s.ram
  }

  lemma {:induction false} CopyFromFirst(w0: World, s: Phys, parent: nat, child: nat, vp: nat)
    requires Inv(w0) && parent in w0.spaces && USER_PAGE <= vp <= VPAGES && Copying(w0, s, parent, child, vp)
    requires forall i: nat | USER_DIR <= i < ENTRIES :: !HasTable(s, child, i)
    ensures WellFormed(s) && FirstCopy(w0, s, CopyFrom(s, parent, child, vp).0, parent, vp)
    decreases VPAGES - vp
  {
    hide Lookup, CopyOne, Preserves, Inv;
    CopyingGood(w0, s, parent, child, vp);
    if vp == VPAGES {
    } else {
      PreservedLookups(w0, s, parent, vp);
      if Lookup(w0.phys.ram, parent, vp).None? {
        SkipPage(w0, s, parent, child, vp);
        CopyFromFirst(w0, s, parent, child, vp + 1);
      } else {
        CopyOneStep(w0, s, parent, child, vp);
        assert !HasTable(s, child, vp / ENTRIES);
        var (s1, ok) := CopyOne(s, parent, child, vp);
        if ok {
          AllocCount(s);
          CopyStays(w0, s1, parent, child, vp + 1, vp, NextFree(s));
          assert Copied(w0, s1, parent, child, vp);
        }
      }
    }
  }

  /** Without enough frames something was left to copy. */
  lemma {:induction false} NeedsPage(ram: seq<Page>, d: nat, vp: nat, inTable: bool)
    requires vp <= VPAGES
    ensures FramesNeeded(ram, d, vp, inTable) > 0 <==> FirstMapped(ram, d, vp) < VPAGES
    decreases VPAGES - vp
  {
    hide Lookup;
    if vp == VPAGES {
    } else if Lookup(ram, d, vp).None? {
      NeedsPage(ram, d, vp + 1, inTable && (vp + 1) % ENTRIES != 0);
    }
  }

  // With the lowest free frame taken, the next one is the frame above it, if that is free.
  lemma NextIsAbove(s: Phys, s1: Phys)
    requires NextFree(s) < FIRST + |s.used| && s1.used == s.used[NextFree(s) - FIRST := true]
    requires Free(s, NextFree(s) + 1)
    ensures NextFree(s1) == NextFree(s) + 1
  {
    var i := LowestClear(s.used, 0);
    assert forall j | 0 <= j <= i :: s1.used[j];
    assert !s1.used[i + 1];
  }

  /** The stray frame of the failed copy is the one StrayWord names. */
  lemma StrayForetold(w: World, parent: nat)
    requires Inv(w) && parent in w.spaces && CreatePde(w.phys, w.kdir).1.Some? && !EnoughFrames(w, parent)
    ensures WellFormed(w.phys)
    ensures StrayFrame(HalfCopied(w, parent).phys, CreatePde(w.phys, w.kdir).1.value) == Frame(StrayWord(w, parent))
  {
    hide Lookup, CopyFrom, Inv, FramesNeeded;
    GoodIsWellFormed(w);
    var (s1, child) := CreatePde(w.phys, w.kdir);
    var f := child.value + 1;
    StrayCopied(w, parent);
    var s' := CopyFrom(s1, parent, child.value, USER_PAGE).0;
    NeedsPage(w.phys.ram, parent, USER_PAGE, false);
    if Free(w.phys, f) {
      NextIsAbove(w.phys, s1);
      assert Entry(s1.ram, f, 0) == Entry(w.phys.ram, f, 0);
    }
  }

  lemma GoodIsWellFormed(w: World)
    requires Inv(w)
    ensures WellFormed(w.phys)
  {
  }

  lemma StrayCopied(w: World, parent: nat)
    requires Inv(w) && parent in w.spaces && CreatePde(w.phys, w.kdir).1.Some?
    ensures var (s1, child) := CreatePde(w.phys, w.kdir);
      var s' := CopyFrom(s1, parent, child.value, USER_PAGE).0;
      && child.value == NextFree(w.phys) < FIRST + |w.phys.used| && s1.used == w.phys.used[child.value - FIRST := true]
      && (forall g: nat | g != child.value :: PageAt(s1.ram, g) == PageAt(w.phys.ram, g))
      && CountClear(s1.used) == CountClear(w.phys.used) - 1
      && FirstCopy(w, s1, s', parent, USER_PAGE) && Preserves(w.phys, s')
      && Inv(ForkWorld(w, s', child.value))
  {
    hide Lookup, CopyFrom, FirstCopy, FramesNeeded;
    var (s1, child) := CreatePde(w.phys, w.kdir);
    CreatePdeInv(w);
    CreateCount(w);
    StartCopying(w, parent);
    CopyFromFirst(w, s1, parent, child.value, USER_PAGE);
    CopyLoop(w, s1, parent, child.value, USER_PAGE);
  }

  // Roles other than the child's are those of w.
  lemma RolesOfOthers(w: World, s': Phys, child: nat, x: Slot)
    requires Inv(w) && Preserves(w.phys, s') && Free(w.phys, child)
    ensures var h := ForkWorld(w, s', child);
      && (Occupied(h, x) && !RoleOf(x, child) <==> Occupied(w, x))
      && (Occupied(w, x) ==> FrameOf(h, x) == FrameOf(w, x))
  {
    hide Lookup;
    FreshDirectory(w, child);
    match x
    case KernelTable(i) =>
    case Directory(d) =>
    case UserTable(d, i) =>
      if d in w.spaces {
        assert Occupied(w, Directory(d)) && FrameOf(w, Directory(d)) == d;
      }
    case Leaf(d, vp) =>
      if d in w.spaces && UserPage(vp) {
        PreservedLookups(w, s', d, vp);
      }
  }

  lemma FreshDirectory(w: World, d: nat)
    requires Inv(w) && Free(w.phys, d)
    ensures d !in w.spaces
  {
    assert d in w.spaces ==> Occupied(w, Directory(d));
  }

  lemma StrayRole(w: World, s': Phys, child: nat)
    requires Inv(w) && Preserves(w.phys, s') && Free(w.phys, child)
    ensures var h := ForkWorld(w, s', child);
      StrayHasRole(h, child) <==> !NoRole(w, StrayFrame(s', child))
  {
    hide Inv, Preserves, Occupied, FrameOf, StrayFrame, RoleOf;
    forall x
      ensures var h := ForkWorld(w, s', child);
        && (Occupied(h, x) && !RoleOf(x, child) <==> Occupied(w, x))
        && (Occupied(w, x) ==> FrameOf(h, x) == FrameOf(w, x))
    {
      RolesOfOthers(w, s', child, x);
    }
  }

  // ---- copy_page, whole

  function AfterFork(w: World, parent: nat): World
    requires WellFormed(w.phys)
  {
    var (s, d) := CopyPage(w.phys, w.kdir, parent);
    World(s, w.kdir, if d.Some? then w.spaces + {d.value} else w.spaces)
  }

  /** A fork that finishes, cannot start, or whose stray word names a frame without a role. */
  ghost predicate Harmless(w: World, parent: nat) {
    EnoughFrames(w, parent) || CountClear(w.phys.used) == 0 || NoRole(w, Frame(StrayWord(w, parent)))
  }

  /** copy_page keeps the invariant exactly then. */
  lemma DuplicateExactly(w: World, parent: nat)
    requires Inv(w) && parent in w.spaces
    ensures WellFormed(w.phys) && (Inv(AfterFork(w, parent)) <==> Harmless(w, parent))
  {
    hide Lookup, Inv, CopyFrom, CreatePde, StrayHasRole, DestroyPde, EnoughFrames, StrayWord, NoRole, FirstCopy;
    GoodIsWellFormed(w);
    ForkDuplicates(w, parent);
    CreateCount(w);
    var (s1, child) := CreatePde(w.phys, w.kdir);
    if child.None? {
      CreateFails(w);
    } else {
      StrayCopied(w, parent);
      FailedCopy(w, parent);
    }
  }

  lemma FailedCopy(w: World, parent: nat)
    requires Inv(w) && parent in w.spaces && CreatePde(w.phys, w.kdir).1.Some?
    ensures WellFormed(w.phys)
    ensures EnoughFrames(w, parent) ==> Inv(AfterFork(w, parent))
    ensures !EnoughFrames(w, parent) ==> (Inv(AfterFork(w, parent)) <==> NoRole(w, Frame(StrayWord(w, parent))))
  {
    hide Lookup, Inv, CopyFrom, StrayHasRole, DestroyPde, StrayWord, NoRole, FirstCopy, FramesNeeded;
    GoodIsWellFormed(w);
    ForkDuplicates(w, parent);
    if !EnoughFrames(w, parent) {
      var (s1, child) := CreatePde(w.phys, w.kdir);
      var h := HalfCopied(w, parent);
      StrayCopied(w, parent);
      StrayForetold(w, parent);
      FreshDirectory(w, child.value);
      StrayRole(w, h.phys, child.value);
      DestroyExactly(h, child.value);
      assert AfterDestroy(h, child.value).spaces == w.spaces;
      assert AfterFork(w, parent) == AfterDestroy(h, child.value);
    }
  }

  lemma CreateFails(w: World)
    requires Inv(w) && CreatePde(w.phys, w.kdir).1.None?
    ensures CreatePde(w.phys, w.kdir).0 == w.phys
  {
  }
}
