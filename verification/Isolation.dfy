/** No frame has two roles: over every run, directories, tables and user pages of all address spaces occupy distinct
    frames that are in use, and all spaces share the kernel half. */
module Isolation {
  import opened Wrappers
  import opened PageLayout
  import opened Memory32
  import opened PageMap

  /** Memory together with the kernel directory and the directories handed out so far. */
  datatype World = World(phys: Phys, kdir: nat, spaces: set<nat>)

  /** The roles a frame can play. */
  datatype Slot =
    | KernelTable(i: nat)
    | Directory(d: nat)
    | UserTable(d: nat, i: nat)
    | Leaf(d: nat, vp: nat)

  predicate UserPage(vp: nat) { USER_PAGE <= vp < VPAGES }

  predicate Occupied(w: World, x: Slot) {
    match x
    case KernelTable(i) => i < USER_DIR && HasTable(w.phys, w.kdir, i)
    case Directory(d) => d in w.spaces
    case UserTable(d, i) => d in w.spaces && USER_DIR <= i < ENTRIES && HasTable(w.phys, d, i)
    case Leaf(d, vp) => d in w.spaces && UserPage(vp) && Lookup(w.phys.ram, d, vp).Some?
  }

  function FrameOf(w: World, x: Slot): nat
    requires Occupied(w, x)
  {
    match x
    case KernelTable(i) => Table(w.phys, w.kdir, i)
    case Directory(d) => d
    case UserTable(d, i) => Table(w.phys, d, i)
    case Leaf(d, vp) => Lookup(w.phys.ram, d, vp).value.frame
  }

  ghost predicate SharedKernelHalf(w: World) {
    forall d, i: nat | d in w.spaces && i < USER_DIR :: Entry(w.phys.ram, d, i) == Entry(w.phys.ram, w.kdir, i)
  }

  /** The invariant of the memory manager. */
  ghost predicate Inv(w: World) {
    && WellFormed(w.phys) && w.kdir < FIRST
    && SharedKernelHalf(w)
    && (forall x | Occupied(w, x) :: Used(w.phys, FrameOf(w, x)))
    && (forall x, y | Occupied(w, x) && Occupied(w, y) && x != y :: FrameOf(w, x) != FrameOf(w, y))
  }

  /** Frame f is in use but plays no role yet. */
  ghost predicate Unowned(w: World, f: nat) {
    Used(w.phys, f) && NoRole(w, f)
  }

  ghost predicate NoRole(w: World, f: nat) {
    forall x | Occupied(w, x) :: FrameOf(w, x) != f
  }

  lemma FreeHasNoRole(w: World, f: nat)
    requires Inv(w) && Free(w.phys, f)
    ensures NoRole(w, f)
  {
  }

  /** Every slot of w' is a slot of w with the same frame, or the one new slot n with frame f. */
  ghost predicate GrowsBy(w: World, w': World, n: Slot, f: nat) {
    && (Occupied(w', n) ==> FrameOf(w', n) == f)
    && (forall x | Occupied(w', x) && x != n :: Occupied(w, x) && FrameOf(w', x) == FrameOf(w, x))
    && (forall g: nat :: Used(w.phys, g) ==> Used(w'.phys, g))
  }

  lemma GrowKeepsInv(w: World, w': World, n: Slot, f: nat)
    requires Inv(w) && WellFormed(w'.phys) && w'.kdir == w.kdir && SharedKernelHalf(w')
    requires GrowsBy(w, w', n, f) && NoRole(w, f) && Used(w'.phys, f)
    ensures Inv(w')
  {
  }

  function TableSlot(d: nat, i: nat): Slot { if i < USER_DIR then KernelTable(i) else UserTable(d, i) }

  /** Every directory of a good world is tidy. */
  lemma SpaceIsTidy(w: World, d: nat)
    requires Inv(w) && d in w.spaces
    ensures Tidy(w.phys, d)
  {
    assert Occupied(w, Directory(d)) && FrameOf(w, Directory(d)) == d;
    forall i: nat | i < ENTRIES && HasTable(w.phys, d, i)
      ensures Occupied(w, TableSlot(d, i)) && FrameOf(w, TableSlot(d, i)) == Table(w.phys, d, i)
    {
      if i < USER_DIR {
        assert Entry(w.phys.ram, d, i) == Entry(w.phys.ram, w.kdir, i);
      }
    }
    forall i: nat, j: nat | i < j < ENTRIES && HasTable(w.phys, d, i) && HasTable(w.phys, d, j)
      ensures Table(w.phys, d, i) != Table(w.phys, d, j)
    {
      assert TableSlot(d, i) != TableSlot(d, j);
    }
  }

  // g is directory d or one of its user tables.
  ghost predicate Touches(w: World, d: nat, g: nat) {
    g == d || exists i: nat :: USER_DIR <= i < ENTRIES && HasTable(w.phys, d, i) && Table(w.phys, d, i) == g
  }

  /** From w to s' only free frames, the directory of d above its kernel half, and the user tables of d were written. */
  ghost predicate WritesUser(w: World, s': Phys, d: nat) {
    && |s'.ram| == |w.phys.ram| && |s'.used| == |w.phys.used|
    && (forall g: nat | g < |s'.ram| && !Free(w.phys, g) && !Touches(w, d, g) :: s'.ram[g] == w.phys.ram[g])
    && (forall i: nat | i < USER_DIR :: Entry(s'.ram, d, i) == Entry(w.phys.ram, d, i))
    && (forall g: nat :: Used(w.phys, g) ==> Used(s', g))
    && (forall g: nat :: Free(s', g) ==> Free(w.phys, g))
  }

  // A frame with some other role is not written on behalf of d.
  lemma RoleNotTouched(w: World, s': Phys, d: nat, x: Slot)
    requires Inv(w) && d in w.spaces && WritesUser(w, s', d)
    requires Occupied(w, x) && x != Directory(d) && !(x.UserTable? && x.d == d)
    ensures FrameOf(w, x) < |s'.ram| && s'.ram[FrameOf(w, x)] == w.phys.ram[FrameOf(w, x)]
  {
    var g := FrameOf(w, x);
    assert Occupied(w, Directory(d));
    if Touches(w, d, g) && g != d {
      var i: nat :| USER_DIR <= i < ENTRIES && HasTable(w.phys, d, i) && Table(w.phys, d, i) == g;
      assert Occupied(w, UserTable(d, i));
    }
  }

  /** Writes made on behalf of one space change no translation of any other, kernel half included. */
  lemma OthersKeepLookups(w: World, s': Phys, d: nat, e: nat)
    requires Inv(w) && d in w.spaces && WritesUser(w, s', d)
    requires (e in w.spaces && e != d) || e == w.kdir
    ensures forall i: nat | i < ENTRIES :: Entry(s'.ram, e, i) == Entry(w.phys.ram, e, i)
    ensures forall q: nat | q < VPAGES && (e in w.spaces || q < USER_PAGE) :: Lookup(s'.ram, e, q) == Lookup(w.phys.ram, e, q)
  {
    if e in w.spaces {
      RoleNotTouched(w, s', d, Directory(e));
    } else {
      assert !Touches(w, d, e) by {
        assert Occupied(w, Directory(d));
        forall i: nat | USER_DIR <= i < ENTRIES && HasTable(w.phys, d, i)
          ensures Table(w.phys, d, i) != e
        {
          assert Occupied(w, UserTable(d, i));
        }
      }
    }
    forall q: nat | q < VPAGES && (e in w.spaces || q < USER_PAGE)
      ensures Lookup(s'.ram, e, q) == Lookup(w.phys.ram, e, q)
    {
      var i := q / ENTRIES;
      if HasTable(w.phys, e, i) {
        if i < USER_DIR {
          assert Entry(w.phys.ram, e, i) == Entry(w.phys.ram, w.kdir, i);
        }
        RoleNotTouched(w, s', d, TableSlot(e, i));
      }
    }
  }

  /** Directories other than d are unread by the writes: their entries and translations stand. */
  ghost predicate OthersStand(w: World, s': Phys, d: nat) {
    && (forall e: nat, i: nat | (e in w.spaces || e == w.kdir) && e != d && i < ENTRIES ::
          Entry(s'.ram, e, i) == Entry(w.phys.ram, e, i))
    && (forall e: nat, q: nat | e in w.spaces && e != d && q < VPAGES ::
          Lookup(s'.ram, e, q) == Lookup(w.phys.ram, e, q))
  }

  lemma WritesUserOthersStand(w: World, s': Phys, d: nat)
    requires Inv(w) && d in w.spaces && WritesUser(w, s', d)
    ensures OthersStand(w, s', d)
  {
    forall e: nat, i: nat | (e in w.spaces || e == w.kdir) && e != d && i < ENTRIES
      ensures Entry(s'.ram, e, i) == Entry(w.phys.ram, e, i)
    {
      OthersKeepLookups(w, s', d, e);
    }
    forall e: nat, q: nat | e in w.spaces && e != d && q < VPAGES
      ensures Lookup(s'.ram, e, q) == Lookup(w.phys.ram, e, q)
    {
      OthersKeepLookups(w, s', d, e);
    }
  }

  /** find_pte on a user page keeps the invariant: a table it adds was free, and starts with no entries. */
  lemma FindPteInv(w: World, d: nat, vp: nat)
    requires Inv(w) && d in w.spaces && UserPage(vp)
    ensures var w1 := w.(phys := FindPte(w.phys, d, vp).0);
      Inv(w1) && WritesUser(w, w1.phys, d) && forall f: nat | Unowned(w, f) :: Unowned(w1, f)
  {
    hide Tidy, WritesOnly;
    var (s1, t) := FindPte(w.phys, d, vp);
    var w1, v := w.(phys := s1), vp / ENTRIES;
    SpaceIsTidy(w, d);
    FindPteKeeps(w.phys, d, vp);
    if t.Some? && !HasTable(w.phys, d, v) {
      assert WritesUser(w, s1, d);
      WritesUserOthersStand(w, s1, d);
      hide WritesUser;
      FreeHasNoRole(w, t.value);
      assert d != w.kdir by { assert Occupied(w, Directory(d)); }
      NewTableGrows(w, w1, d, v);
      GrowKeepsInv(w, w1, UserTable(d, v), t.value);
    }
  }

  lemma NewTableGrows(w: World, w1: World, d: nat, v: nat)
    requires Inv(w) && d in w.spaces && w1.kdir == w.kdir && w1.spaces == w.spaces && USER_DIR <= v < ENTRIES
    requires d != w.kdir && WellFormed(w1.phys) && OthersStand(w, w1.phys, d)
    requires forall q: nat | q < VPAGES :: Lookup(w1.phys.ram, d, q) == Lookup(w.phys.ram, d, q)
    requires forall i: nat | i < ENTRIES && i != v :: Entry(w1.phys.ram, d, i) == Entry(w.phys.ram, d, i)
    requires HasTable(w1.phys, d, v) && forall g: nat :: Used(w.phys, g) ==> Used(w1.phys, g)
    ensures GrowsBy(w, w1, UserTable(d, v), Table(w1.phys, d, v)) && SharedKernelHalf(w1)
  {
    forall x | Occupied(w1, x) && x != UserTable(d, v)
      ensures Occupied(w, x) && FrameOf(w1, x) == FrameOf(w, x)
    {
      match x
      case KernelTable(i) => assert Entry(w1.phys.ram, w.kdir, i) == Entry(w.phys.ram, w.kdir, i);
      case Directory(e) =>
      case UserTable(e, i) => assert Entry(w1.phys.ram, e, i) == Entry(w.phys.ram, e, i);
      case Leaf(e, q) => assert Lookup(w1.phys.ram, e, q) == Lookup(w.phys.ram, e, q);
    }
  }

  /** Writing one entry of a user table, for a frame without a role, keeps the invariant. */
  lemma WriteEntryInv(w: World, d: nat, vp: nat, f: nat, perm: nat)
    requires Inv(w) && d in w.spaces && UserPage(vp) && Unowned(w, f) && f < VPAGES && perm < PAGE_SIZE
    requires HasTable(w.phys, d, vp / ENTRIES)
    ensures var w1 := w.(phys := w.phys.(ram := SetEntry(w.phys.ram, Table(w.phys, d, vp / ENTRIES), vp % ENTRIES,
                                                         MakeEntry(f, WithPresent(perm)))));
      Inv(w1) && WritesUser(w, w1.phys, d) && forall g: nat | Unowned(w, g) && g != f :: Unowned(w1, g)
  {
    hide Tidy, WritesOnly, Lookup;
    var v, k, e := vp / ENTRIES, vp % ENTRIES, MakeEntry(f, WithPresent(perm));
    var t := Table(w.phys, d, v);
    var s1 := w.phys.(ram := SetEntry(w.phys.ram, t, k, e));
    var w1 := w.(phys := s1);
    SpaceIsTidy(w, d);
    assert vp == v * ENTRIES + k;
    WriteEntryKeeps(w.phys, s1, d, v, k, e);
    assert Occupied(w, UserTable(d, v)) && Touches(w, d, t);
    assert WritesUser(w, s1, d);
    WritesUserOthersStand(w, s1, d);
    hide WritesUser, SetEntry;
    assert d != w.kdir by { assert Occupied(w, Directory(d)); }
    NewLeafGrows(w, w1, d, vp, f);
    GrowKeepsInv(w, w1, Leaf(d, vp), f);
  }

  lemma NewLeafGrows(w: World, w1: World, d: nat, vp: nat, f: nat)
    requires Inv(w) && d in w.spaces && w1.kdir == w.kdir && w1.spaces == w.spaces && UserPage(vp)
    requires d != w.kdir && WellFormed(w1.phys) && OthersStand(w, w1.phys, d)
    requires forall q: nat | q < VPAGES && q != vp :: Lookup(w1.phys.ram, d, q) == Lookup(w.phys.ram, d, q)
    requires Lookup(w1.phys.ram, d, vp).Some? && Lookup(w1.phys.ram, d, vp).value.frame == f
    requires forall i: nat | i < ENTRIES :: Entry(w1.phys.ram, d, i) == Entry(w.phys.ram, d, i)
    requires forall g: nat :: Used(w.phys, g) ==> Used(w1.phys, g)
    ensures GrowsBy(w, w1, Leaf(d, vp), f) && SharedKernelHalf(w1)
  {
    hide Lookup;
    forall x | Occupied(w1, x) && x != Leaf(d, vp)
      ensures Occupied(w, x) && FrameOf(w1, x) == FrameOf(w, x)
    {
      match x
      case KernelTable(i) => assert Entry(w1.phys.ram, w.kdir, i) == Entry(w.phys.ram, w.kdir, i);
      case Directory(e) =>
      case UserTable(e, i) => assert Entry(w1.phys.ram, e, i) == Entry(w.phys.ram, e, i);
      case Leaf(e, q) => assert Lookup(w1.phys.ram, e, q) == Lookup(w.phys.ram, e, q);
    }
  }

  lemma WritesUserTrans(w: World, w1: World, s2: Phys, d: nat)
    requires w1.spaces == w.spaces && WritesUser(w, w1.phys, d) && WritesUser(w1, s2, d)
    requires forall i: nat | USER_DIR <= i < ENTRIES && HasTable(w1.phys, d, i) ::
               (HasTable(w.phys, d, i) && Table(w.phys, d, i) == Table(w1.phys, d, i)) || Free(w.phys, Table(w1.phys, d, i))
    ensures WritesUser(w, s2, d)
  {
    forall g: nat | !Free(w.phys, g) && Touches(w1, d, g)
      ensures Touches(w, d, g)
    {
      if g != d {
        var i: nat :| USER_DIR <= i < ENTRIES && HasTable(w1.phys, d, i) && Table(w1.phys, d, i) == g;
        assert HasTable(w.phys, d, i);
      }
    }
  }

  /** Mapping a frame without a role at a user page keeps every role distinct and every other translation. */
  lemma MapUserPage(w: World, d: nat, vp: nat, f: nat, perm: nat)
    requires Inv(w) && d in w.spaces && UserPage(vp) && Unowned(w, f) && f < VPAGES && perm < PAGE_SIZE
    ensures var (s', ok) := MapPage(w.phys, d, vp, f, perm);
      && Inv(w.(phys := s')) && WritesUser(w, s', d)
      && MapsRange(w.phys, s', d, vp, f, if ok then 1 else 0, perm)
      && (forall g: nat | Unowned(w, g) && g != f :: Unowned(w.(phys := s'), g))
      && (!ok <==> !HasTable(w.phys, d, vp / ENTRIES) && forall g :: !Free(w.phys, g))
      && (forall i: nat | USER_DIR <= i < ENTRIES && HasTable(s', d, i) ::
            Entry(s'.ram, d, i) == Entry(w.phys.ram, d, i) ||
            (i == vp / ENTRIES && Free(w.phys, Table(s', d, i))))
  {
    hide Tidy, WritesOnly, Lookup, MapsRange, Extends;
    SpaceIsTidy(w, d);
    MapPageRefines(w.phys, d, vp, f, perm);
    FindPteInv(w, d, vp);
    FindPteKeeps(w.phys, d, vp);
    var (s1, t) := FindPte(w.phys, d, vp);
    if t.Some? {
      var w1 := w.(phys := s1);
      WriteEntryInv(w1, d, vp, f, perm);
      WritesUserTrans(w, w1, MapPage(w.phys, d, vp, f, perm).0, d);
    }
  }

  /** Taking a free frame gives it no role and changes nothing else. */
  lemma AllocInv(w: World)
    requires Inv(w)
    ensures var (s', f) := AllocPage(w.phys);
      && Inv(w.(phys := s'))
      && (f.Some? ==> Free(w.phys, f.value) && Unowned(w.(phys := s'), f.value))
      && (forall g: nat | Unowned(w, g) :: Unowned(w.(phys := s'), g))
      && (forall g: nat :: Free(s', g) ==> Free(w.phys, g))
  {
    var (s', f) := AllocPage(w.phys);
    var w' := w.(phys := s');
    forall x
      ensures Occupied(w', x) <==> Occupied(w, x)
      ensures Occupied(w, x) ==> FrameOf(w', x) == FrameOf(w, x)
    {
    }
    if f.Some? {
      FreeHasNoRole(w, f.value);
    }
  }

  /** Writing the contents of a user page moves no role and no translation. */
  lemma ContentWrite(w: World, d: nat, vp: nat, p: Page)
    requires Inv(w) && Occupied(w, Leaf(d, vp))
    ensures FrameOf(w, Leaf(d, vp)) < |w.phys.ram|
    ensures var w' := w.(phys := w.phys.(ram := w.phys.ram[FrameOf(w, Leaf(d, vp)) := p]));
      && Inv(w')
      && (forall e: nat, i: nat | (e in w.spaces || e == w.kdir) && i < ENTRIES ::
            Entry(w'.phys.ram, e, i) == Entry(w.phys.ram, e, i))
      && (forall e: nat, q: nat | e in w.spaces && q < VPAGES :: Lookup(w'.phys.ram, e, q) == Lookup(w.phys.ram, e, q))
      && (forall g: nat | Unowned(w, g) :: Unowned(w', g))
  {
    var f := FrameOf(w, Leaf(d, vp));
    assert Used(w.phys, f);
    var w' := w.(phys := w.phys.(ram := w.phys.ram[f := p]));
    forall e: nat, i: nat | (e in w.spaces || e == w.kdir) && i < ENTRIES
      ensures Entry(w'.phys.ram, e, i) == Entry(w.phys.ram, e, i)
    {
      if e in w.spaces {
        assert Occupied(w, Directory(e)) && Directory(e) != Leaf(d, vp);
      }
    }
    forall e: nat, q: nat | e in w.spaces && q < VPAGES
      ensures Lookup(w'.phys.ram, e, q) == Lookup(w.phys.ram, e, q)
    {
      var i := q / ENTRIES;
      if HasTable(w.phys, e, i) {
        if i < USER_DIR {
          assert Entry(w.phys.ram, e, i) == Entry(w.phys.ram, w.kdir, i);
        }
        assert Occupied(w, TableSlot(e, i)) && TableSlot(e, i) != Leaf(d, vp);
      }
    }
    SameRoles(w, w');
  }

  lemma SameRoles(w: World, w': World)
    requires Inv(w) && WellFormed(w'.phys) && w'.kdir == w.kdir && w'.spaces == w.spaces && w'.phys.used == w.phys.used
    requires forall e: nat, i: nat | (e in w.spaces || e == w.kdir) && i < ENTRIES ::
      Entry(w'.phys.ram, e, i) == Entry(w.phys.ram, e, i)
    requires forall e: nat, q: nat | e in w.spaces && q < VPAGES :: Lookup(w'.phys.ram, e, q) == Lookup(w.phys.ram, e, q)
    ensures Inv(w') && forall g: nat | Unowned(w, g) :: Unowned(w', g)
  {
    hide Lookup;
    forall x
      ensures Occupied(w', x) <==> Occupied(w, x)
      ensures Occupied(w, x) ==> FrameOf(w', x) == FrameOf(w, x)
    {
      match x
      case KernelTable(i) => assert i < USER_DIR ==> Entry(w'.phys.ram, w.kdir, i) == Entry(w.phys.ram, w.kdir, i);
      case Directory(e) =>
      case UserTable(e, i) =>
        assert e in w.spaces && i < ENTRIES ==> Entry(w'.phys.ram, e, i) == Entry(w.phys.ram, e, i);
      case Leaf(e, q) =>
        assert e in w.spaces && q < VPAGES ==> Lookup(w'.phys.ram, e, q) == Lookup(w.phys.ram, e, q);
    }
  }

  /** memory32_create_pde: a fresh directory with the kernel half and an empty user half. */
  lemma CreatePdeInv(w: World)
    requires Inv(w)
    ensures var (s', d) := CreatePde(w.phys, w.kdir);
      && (d.None? ==> s' == w.phys && forall g :: !Free(w.phys, g))
      && (d.Some? ==>
            && Free(w.phys, d.value) && Inv(World(s', w.kdir, w.spaces + {d.value}))
            && s'.ram == w.phys.ram[d.value := s'.ram[d.value]]
            && (forall q: nat | UserPage(q) :: Lookup(s'.ram, d.value, q) == None)
            && (forall i: nat | USER_DIR <= i < ENTRIES :: !HasTable(s', d.value, i))
            && (forall g: nat :: Used(s', g) <==> Used(w.phys, g) || g == d.value))
  {
    var (s', d) := CreatePde(w.phys, w.kdir);
    if d.Some? {
      var n := d.value;
      assert s'.ram[n] == NewDirectory(w.phys.ram, w.kdir);
      AllocInv(w);
      var wa := w.(phys := AllocPage(w.phys).0);
      var w' := World(s', w.kdir, w.spaces + {n});
      NewSpaceRoles(wa, w', n);
      GrowKeepsInv(wa, w', Directory(n), n);
    }
  }

  lemma NewSpaceRoles(w: World, w': World, n: nat)
    requires Inv(w) && Unowned(w, n)
    requires w' == World(w.phys.(ram := w.phys.ram[n := NewDirectory(w.phys.ram, w.kdir)]), w.kdir, w.spaces + {n})
    ensures GrowsBy(w, w', Directory(n), n) && SharedKernelHalf(w')
    ensures forall q: nat | UserPage(q) :: Lookup(w'.phys.ram, n, q) == None
  {
    var ram' := w'.phys.ram;
    assert n in w.spaces ==> Occupied(w, Directory(n));
    assert ram'[n] == NewDirectory(w.phys.ram, w.kdir);
    forall e: nat, i: nat | e in w.spaces + {w.kdir} && i < ENTRIES
      ensures Entry(ram', e, i) == Entry(w.phys.ram, e, i)
    {
    }
    forall e: nat, q: nat | e in w.spaces && UserPage(q)
      ensures Lookup(ram', e, q) == Lookup(w.phys.ram, e, q)
    {
      assert HasTable(w.phys, e, q / ENTRIES) ==> Occupied(w, UserTable(e, q / ENTRIES));
    }
    forall x | Occupied(w', x) && x != Directory(n)
      ensures Occupied(w, x) && FrameOf(w', x) == FrameOf(w, x)
    {
      match x
      case KernelTable(i) =>
      case Directory(e) =>
      case UserTable(e, i) => assert e != n;
      case Leaf(e, q) => assert e != n;
    }
    forall e, i: nat | e in w'.spaces && i < USER_DIR
      ensures Entry(ram', e, i) == Entry(ram', w.kdir, i)
    {
    }
  }
}
