/** Isolation over whole runs of the memory manager, from boot on. */
module MemoryRuns {
  import opened Wrappers
  import opened PageLayout
  import opened FrameBits
  import opened Memory32
  import opened PageMap
  import opened Isolation
  import opened Fork
  import opened FailedFork
  import opened CopyData

  /** What happens to address spaces: the calls that build, copy and give them up, a store by a user program to virtual
      address va of space d, and memory32_copy_page_data while cur runs. Alloc carries the first page and the page count
      of its range. */
  datatype Call =
    | Create
    | Alloc(d: nat, vp: nat, count: nat, perm: nat)
    | Duplicate(parent: nat)
    | Destroy(d: nat)
    | Store(d: nat, va: nat, b: byte)
    | CopyTo(cur: nat, to: nat, d: nat, from: nat, size: nat)

  // The numbers fit the machine.
  predicate Fits(c: Call) {
    && (c.Alloc? ==> c.vp < VPAGES && c.perm < PAGE_SIZE)
    && (c.Store? ==> c.va < 0x1_0000_0000)
  }

  function Step(w: World, c: Call): (r: World)
    requires WellFormed(w.phys) && Fits(c)
    ensures WellFormed(r.phys) && r.kdir == w.kdir
  {
    match c
    case Create =>
      var (s, d) := CreatePde(w.phys, w.kdir);
      World(s, w.kdir, if d.Some? then w.spaces + {d.value} else w.spaces)
    case Alloc(d, vp, count, perm) => w.(phys := AllocTaskPages(w.phys, d, vp, count, perm).0)
    case Duplicate(parent) => AfterFork(w, parent)
    case Destroy(d) => AfterDestroy(w, d)
    case Store(d, va, b) => w.(phys := StoreByte(w.phys, GetPaddr(w.phys, d, va), b))
    case CopyTo(cur, to, d, from, size) => w.(phys := CopyPageData(w.phys, cur, to, d, from, size).0)
  }

  // ---- memory32_alloc_task_pages

  /** Pages [vp, vp+count) of d were given new frames; every other translation, and every frame with another role, stands. */
  ghost predicate Allocated(w: World, s': Phys, d: nat, vp: nat, count: nat, perm: nat, ok: bool)
    requires vp + count <= VPAGES && perm < PAGE_SIZE
  {
    && Inv(w.(phys := s')) && WritesUser(w, s', d)
    && (forall q: nat | q < VPAGES && !(vp <= q < vp + count) :: Lookup(s'.ram, d, q) == Lookup(w.phys.ram, d, q))
    && (ok ==> forall q: nat | vp <= q < vp + count ::
          Lookup(s'.ram, d, q).Some? && Lookup(s'.ram, d, q).value.flags == WithPresent(perm)
          && Free(w.phys, Lookup(s'.ram, d, q).value.frame))
    && (forall i: nat | USER_DIR <= i < ENTRIES && HasTable(s', d, i) ::
          Entry(s'.ram, d, i) == Entry(w.phys.ram, d, i) || Free(w.phys, Table(s', d, i)))
  }

  lemma AllocOneInv(w: World, d: nat, vp: nat, perm: nat)
    requires Inv(w) && d in w.spaces && perm < PAGE_SIZE && UserPage(vp)
    ensures var (s', ok) := AllocOne(w.phys, d, vp, perm);
      Allocated(w, s', d, vp, 1, perm, ok)
  {
    hide Lookup, Allocated, WritesUser, MapPage, AllocPage;
    var (s1, f) := AllocPage(w.phys);
    AllocInv(w);
    if f.None? {
      AllocatedNone(w, s1, d, vp, 1, perm, false);
    } else {
      MapUserPage(w.(phys := s1), d, vp, f.value, perm);
      MapOne(s1, d, vp, f.value, perm);
      var (s2, ok) := MapPage(s1, d, vp, f.value, perm);
      AllocatedOne(w, s1, s2, d, vp, f.value, perm, ok);
    }
  }

  /** memory32_alloc_task_pages on a user range, whether it succeeds or runs out of memory. */
  lemma {:induction false} AllocTaskPagesInv(w: World, d: nat, vp: nat, count: nat, perm: nat)
    requires Inv(w) && d in w.spaces && perm < PAGE_SIZE
    requires USER_PAGE <= vp < VPAGES && vp + count <= VPAGES
    ensures var (s', ok) := AllocTaskPages(w.phys, d, vp, count, perm);
      Allocated(w, s', d, vp, count, perm, ok)
    decreases count
  {
    hide Inv, Lookup, Allocated, WritesUser, AllocOne;
    assert WellFormed(w.phys) by { GoodIsWellFormed(w); }
    if count == 0 {
      AllocatedNone(w, w.phys, d, vp, 0, perm, true);
    } else {
      AllocOneInv(w, d, vp, perm);
      var (s2, ok) := AllocOne(w.phys, d, vp, perm);
      if !ok {
        AllocatedMore(w, s2, d, vp, count, perm);
      } else if count == 1 {
        assert AllocTaskPages(s2, d, (vp + 1) % VPAGES, 0, perm) == (s2, true);
      } else {
        AllocatedGood(w, s2, d, vp, 1, perm, true);
        AllocTaskPagesInv(w.(phys := s2), d, vp + 1, count - 1, perm);
        var (s3, ok3) := AllocTaskPages(s2, d, vp + 1, count - 1, perm);
        AllocatedJoin(w, s2, s3, d, vp, count, perm, ok3);
      }
    }
  }

  lemma AllocatedGood(w: World, s': Phys, d: nat, vp: nat, count: nat, perm: nat, ok: bool)
    requires vp + count <= VPAGES && perm < PAGE_SIZE && Allocated(w, s', d, vp, count, perm, ok)
    ensures Inv(w.(phys := s'))
  {
  }

  // Nothing written yet.
  lemma AllocatedNone(w: World, s': Phys, d: nat, vp: nat, count: nat, perm: nat, ok: bool)
    requires vp + count <= VPAGES && perm < PAGE_SIZE && s'.ram == w.phys.ram && |s'.used| == |w.phys.used|
    requires Inv(w) && Inv(w.(phys := s')) && (forall g: nat :: Used(w.phys, g) <==> Used(s', g)) && (ok ==> count == 0)
    ensures Allocated(w, s', d, vp, count, perm, ok)
  {
    forall g: nat
      ensures Free(s', g) ==> Free(w.phys, g)
    {
      assert Used(w.phys, g) <==> Used(s', g);
    }
  }

  lemma AllocatedOne(w: World, s1: Phys, s2: Phys, d: nat, vp: nat, f: nat, perm: nat, ok: bool)
    requires Inv(w) && vp < VPAGES && perm < PAGE_SIZE && Free(w.phys, f) && Inv(w.(phys := s2))
    requires s1 == AllocPage(w.phys).0 && WritesUser(w.(phys := s1), s2, d)
    requires MapsRange(s1, s2, d, vp, f, if ok then 1 else 0, perm)
    requires forall i: nat | USER_DIR <= i < ENTRIES && HasTable(s2, d, i) ::
      Entry(s2.ram, d, i) == Entry(s1.ram, d, i) || (i == vp / ENTRIES && Free(s1, Table(s2, d, i)))
    ensures Allocated(w, s2, d, vp, 1, perm, ok)
  {
    hide Lookup, Inv;
    forall g: nat
      ensures Free(s1, g) ==> Free(w.phys, g)
    {
      assert Used(w.phys, g) ==> Used(s1, g);
    }
    forall i: nat | i < ENTRIES
      ensures HasTable(s1, d, i) == HasTable(w.phys, d, i) && Table(s1, d, i) == Table(w.phys, d, i)
    {
    }
    forall g: nat
      ensures Touches(w.(phys := s1), d, g) ==> Touches(w, d, g)
    {
    }
    assert WritesUser(w, s2, d);
  }

  lemma AllocatedMore(w: World, s': Phys, d: nat, vp: nat, count: nat, perm: nat)
    requires 1 <= count && vp + count <= VPAGES && perm < PAGE_SIZE && Allocated(w, s', d, vp, 1, perm, false)
    ensures Allocated(w, s', d, vp, count, perm, false)
  {
  }

  lemma AllocatedJoin(w: World, s2: Phys, s3: Phys, d: nat, vp: nat, count: nat, perm: nat, ok: bool)
    requires 1 < count && vp + count <= VPAGES && perm < PAGE_SIZE
    requires Allocated(w, s2, d, vp, 1, perm, true) && Allocated(w.(phys := s2), s3, d, vp + 1, count - 1, perm, ok)
    ensures Allocated(w, s3, d, vp, count, perm, ok)
  {
    hide Lookup, Inv;
    var w2 := w.(phys := s2);
    forall i: nat | USER_DIR <= i < ENTRIES && HasTable(w2.phys, d, i)
      ensures (HasTable(w.phys, d, i) && Table(w.phys, d, i) == Table(w2.phys, d, i)) || Free(w.phys, Table(w2.phys, d, i))
    {
    }
    WritesUserTrans(w, w2, s3, d);
    assert Lookup(s3.ram, d, vp) == Lookup(s2.ram, d, vp);
  }

  // ---- single calls

  /** What a caller has to see to: ranges lie in the user half of a live space; stores and copies go to mapped pages; a
      fork and a clean-up release no frame in use. */
  ghost predicate Legal(w: World, c: Call) {
    match c
    case Create => true
    case Alloc(d, vp, count, perm) =>
      d in w.spaces && USER_PAGE <= vp < VPAGES && vp + count <= VPAGES && perm < PAGE_SIZE
    case Duplicate(parent) => parent in w.spaces && Harmless(w, parent)
    case Destroy(d) => d in w.spaces && !StrayHasRole(w, d)
    case Store(d, va, b) =>
      d in w.spaces && va < 0x1_0000_0000 && USER_PAGE <= va / PAGE_SIZE && FrameAt(w.phys, d, va).Some?
    case CopyTo(cur, to, d, from, size) =>
      && d in w.spaces && cur in w.spaces && USER_PAGE <= to / PAGE_SIZE && 0 < from
      && to + size <= 0x1_0000_0000 && from + size <= 0x1_0000_0000 && Apart(w.phys, cur, from, d, to, size)
  }

  // The call is meant to change the translation of page q of space e.
  predicate Remaps(c: Call, e: nat, q: nat) {
    (c.Alloc? && c.d == e && c.vp <= q < c.vp + c.count) || c == Destroy(e)
  }

  // The call is meant to change the contents of page q of space e.
  predicate Writes(c: Call, e: nat, q: nat) {
    || (c.Store? && c.d == e && c.va / PAGE_SIZE == q)
    || (c.CopyTo? && c.d == e && c.to < (q + 1) * PAGE_SIZE && q * PAGE_SIZE < c.to + c.size)
  }

  /** Page q of space e is translated as before and holds what it held. */
  predicate SameView(w: World, w': World, e: nat, q: nat)
    requires q < VPAGES
  {
    var m := Lookup(w.phys.ram, e, q);
    Lookup(w'.phys.ram, e, q) == m && (m.Some? ==> PageAt(w'.phys.ram, m.value.frame) == PageAt(w.phys.ram, m.value.frame))
  }

  /** The invariant and the spaces are kept, and user pages that the call is not meant to change are not changed. */
  ghost predicate Isolated(w: World, w': World, c: Call) {
    && Inv(w') && w'.kdir == w.kdir && (forall e | e in w.spaces && c != Destroy(e) :: e in w'.spaces)
    && (forall e: nat, q: nat | e in w.spaces && UserPage(q) && !Remaps(c, e, q) ::
          Lookup(w'.phys.ram, e, q) == Lookup(w.phys.ram, e, q))
    && (forall e: nat, q: nat | e in w.spaces && UserPage(q) && !Remaps(c, e, q) && !Writes(c, e, q) ::
          SameView(w, w', e, q))
  }

  /** One call does that. */
  lemma StepIsolates(w: World, c: Call)
    requires Inv(w) && Legal(w, c)
    ensures Fits(c) && WellFormed(w.phys) && Isolated(w, Step(w, c), c)
  {
    hide *;
    GoodIsWellFormed(w);
    LegalFits(w, c);
    match c
    case Create => CreateIsolates(w);
    case Alloc(d, vp, count, perm) => AllocIsolates(w, d, vp, count, perm);
    case Duplicate(parent) => DuplicateIsolates(w, parent);
    case Destroy(d) => DestroyIsolates(w, d);
    case Store(d, va, b) => StoreIsolates(w, d, va, b);
    case CopyTo(cur, to, d, from, size) => CopyIsolates(w, cur, to, d, from, size);
  }

  lemma LegalFits(w: World, c: Call)
    requires Legal(w, c)
    ensures Fits(c)
  {
  }

  lemma CreateIsolates(w: World)
    requires Inv(w) && WellFormed(w.phys)
    ensures Isolated(w, Step(w, Create), Create)
  {
    hide Lookup, Inv;
    CreatePdeInv(w);
    CreatePreserves(w);
    PreservedViews(w, Step(w, Create));
  }

  lemma AllocIsolates(w: World, d: nat, vp: nat, count: nat, perm: nat)
    requires Inv(w) && WellFormed(w.phys) && Legal(w, Alloc(d, vp, count, perm))
    ensures Isolated(w, Step(w, Alloc(d, vp, count, perm)), Alloc(d, vp, count, perm))
  {
    hide Lookup, Inv;
    var c := Alloc(d, vp, count, perm);
    AllocTaskPagesInv(w, d, vp, count, perm);
    var w' := Step(w, c);
    WritesUserOthersStand(w, w'.phys, d);
    forall e: nat, q: nat | e in w.spaces && UserPage(q) && !Remaps(c, e, q)
      ensures SameView(w, w', e, q)
    {
      LeafNotTouched(w, w'.phys, d, e, q);
    }
  }

  lemma DuplicateIsolates(w: World, parent: nat)
    requires Inv(w) && WellFormed(w.phys) && Legal(w, Duplicate(parent))
    ensures Isolated(w, Step(w, Duplicate(parent)), Duplicate(parent))
  {
    hide Lookup, Inv, CopyFrom, CreatePde, StrayHasRole, DestroyPde, Harmless, FirstCopy;
    DuplicateExactly(w, parent);
    CreateCount(w);
    var w' := Step(w, Duplicate(parent));
    if CreatePde(w.phys, w.kdir).1.None? {
      CreateFails(w);
    } else {
      StrayCopied(w, parent);
      PreservedViews(w, HalfCopied(w, parent));
      assert w'.phys.ram == HalfCopied(w, parent).phys.ram;
    }
  }

  lemma DestroyIsolates(w: World, d: nat)
    requires Inv(w) && WellFormed(w.phys) && Legal(w, Destroy(d))
    ensures Isolated(w, Step(w, Destroy(d)), Destroy(d))
  {
    hide Lookup, Inv, DestroyPde, StrayHasRole;
    DestroyExactly(w, d);
  }

  lemma StoreIsolates(w: World, d: nat, va: nat, b: byte)
    requires Inv(w) && WellFormed(w.phys) && Legal(w, Store(d, va, b))
    ensures Isolated(w, Step(w, Store(d, va, b)), Store(d, va, b))
  {
    hide Lookup, SetByte, StoreByte;
    var x := Leaf(d, va / PAGE_SIZE);
    assert Occupied(w, x);
    StoreByteMoves(w, d, va / PAGE_SIZE, va % PAGE_SIZE, b);
    GetPaddrMeans(w.phys, d, va);
    forall e: nat, q: nat | e in w.spaces && UserPage(q) && Leaf(e, q) != x && Lookup(w.phys.ram, e, q).Some?
      ensures Lookup(w.phys.ram, e, q).value.frame != FrameOf(w, x)
    {
      assert Occupied(w, Leaf(e, q)) && FrameOf(w, Leaf(e, q)) != FrameOf(w, x);
    }
  }

  lemma CopyIsolates(w: World, cur: nat, to: nat, d: nat, from: nat, size: nat)
    requires Inv(w) && WellFormed(w.phys) && Legal(w, CopyTo(cur, to, d, from, size))
    ensures Isolated(w, Step(w, CopyTo(cur, to, d, from, size)), CopyTo(cur, to, d, from, size))
  {
    hide Lookup, Inv, CopyPageData, ReadByte, ByteAt, Hit;
    var c := CopyTo(cur, to, d, from, size);
    CopyPageDataCopies(w, cur, to, d, from, size);
    var w' := Step(w, c);
    forall e: nat, q: nat | e in w.spaces && UserPage(q) && !Writes(c, e, q)
      ensures SameView(w, w', e, q)
    {
      if Lookup(w.phys.ram, e, q).Some? {
        PageNotHit(w, w'.phys, cur, from, d, to, size, e, q);
      }
    }
  }

  // A page outside the range shares no frame with it.
  lemma PageNotHit(w: World, s': Phys, cur: nat, from: nat, d: nat, to: nat, size: nat, e: nat, q: nat)
    requires Inv(w) && d in w.spaces && e in w.spaces && UserPage(q) && Lookup(w.phys.ram, e, q).Some?
    requires to + size <= 0x1_0000_0000 && from + size <= 0x1_0000_0000 && USER_PAGE <= to / PAGE_SIZE
    requires CopiedRange(w, s', cur, from, d, to, size) && !Writes(CopyTo(cur, to, d, from, size), e, q)
    ensures var f := Lookup(w.phys.ram, e, q).value.frame; PageAt(s'.ram, f) == PageAt(w.phys.ram, f)
  {
    hide Lookup, ReadByte, ByteAt, SameMaps;
    var f := Lookup(w.phys.ram, e, q).value.frame;
    forall b: nat | to <= b < to + size
      ensures FrameAt(w.phys, d, b) != Some(f)
    {
      assert Leaf(d, b / PAGE_SIZE) != Leaf(e, q);
      assert Occupied(w, Leaf(e, q)) && FrameOf(w, Leaf(e, q)) == f;
      assert FrameAt(w.phys, d, b).Some? ==> Occupied(w, Leaf(d, b / PAGE_SIZE));
    }
    assert forall x: nat :: !Hit(w.phys, d, to, size, f, x);
    if f < |s'.ram| {
      PageFromBytes(s'.ram[f], w.phys.ram[f]);
    }
  }

  lemma CreatePreserves(w: World)
    requires Inv(w)
    ensures Preserves(w.phys, CreatePde(w.phys, w.kdir).0)
  {
    CreatePdeInv(w);
    var s' := CreatePde(w.phys, w.kdir).0;
    forall g: nat
      ensures Free(s', g) ==> Free(w.phys, g)
    {
      assert Used(w.phys, g) ==> Used(s', g);
    }
  }

  lemma PreservedViews(w: World, w': World)
    requires Inv(w) && Preserves(w.phys, w'.phys)
    ensures forall e: nat, q: nat | e in w.spaces && UserPage(q) :: SameView(w, w', e, q)
  {
    forall e: nat, q: nat | e in w.spaces && UserPage(q)
      ensures SameView(w, w', e, q)
    {
      PreservedLookups(w, w'.phys, e, q);
    }
  }

  lemma LeafNotTouched(w: World, s': Phys, d: nat, e: nat, q: nat)
    requires Inv(w) && d in w.spaces && e in w.spaces && UserPage(q) && WritesUser(w, s', d)
    ensures var m := Lookup(w.phys.ram, e, q);
      m.Some? ==> PageAt(s'.ram, m.value.frame) == PageAt(w.phys.ram, m.value.frame)
  {
    if Lookup(w.phys.ram, e, q).Some? {
      RoleNotTouched(w, s', d, Leaf(e, q));
    }
  }

  // ---- runs

  function Run(w: World, calls: seq<Call>): (r: World)
    requires WellFormed(w.phys) && forall c | c in calls :: Fits(c)
    ensures WellFormed(r.phys)
    decreases |calls|
  {
    if calls == [] then w else
      assert calls[0] in calls;
      Run(Step(w, calls[0]), calls[1..])
  }

  ghost predicate LegalRun(w: World, calls: seq<Call>): (ok: bool)
    requires WellFormed(w.phys)
    ensures ok ==> forall c | c in calls :: Fits(c)
    decreases |calls|
  {
    calls == [] || (Legal(w, calls[0]) && Fits(calls[0]) && LegalRun(Step(w, calls[0]), calls[1..]))
  }

  // No call is meant to change page q of space e.
  predicate Untouched(calls: seq<Call>, e: nat, q: nat) {
    forall c | c in calls :: !Remaps(c, e, q) && !Writes(c, e, q)
  }

  /** Isolation over every run: roles stay distinct, and a user page that no call is meant to change keeps its mapping
      and its contents. */
  lemma {:induction false} RunIsolates(w: World, calls: seq<Call>)
    requires Inv(w) && WellFormed(w.phys) && LegalRun(w, calls)
    ensures var w' := Run(w, calls);
      && Inv(w') && (forall e | e in w.spaces && Destroy(e) !in calls :: e in w'.spaces)
      && forall e: nat, q: nat | e in w.spaces && UserPage(q) && Untouched(calls, e, q) :: SameView(w, w', e, q)
    decreases |calls|
  {
    hide Lookup, Inv, Step, Legal, Fits, Writes;
    if calls == [] {
    } else {
      StepIsolates(w, calls[0]);
      var w1 := Step(w, calls[0]);
      RunIsolates(w1, calls[1..]);
      var w' := Run(w, calls);
      assert calls[0] in calls && forall c | c in calls[1..] :: c in calls;
      forall e: nat, q: nat | e in w.spaces && UserPage(q) && Untouched(calls, e, q)
        ensures SameView(w, w', e, q)
      {
        assert calls[0] != Destroy(e);
        assert SameView(w, w1, e, q) && SameView(w1, w', e, q);
      }
    }
  }

  // ---- boot

  /** The kernel directory after boot: tidy, with tables in use and only below VM_TASK_BASE. */
  ghost predicate KernelReady(s: Phys, kdir: nat) {
    && Tidy(s, kdir) && kdir < FIRST
    && (forall i: nat | i < ENTRIES && HasTable(s, kdir, i) :: i < USER_DIR && Used(s, Table(s, kdir, i)))
  }

  datatype Region = Region(vp: nat, f: nat, count: nat, perm: nat)

  predicate BelowBase(regions: seq<Region>) {
    forall r | r in regions :: r.vp < USER_PAGE && r.vp + r.count <= USER_PAGE && r.f < VPAGES && r.perm < PAGE_SIZE
  }

  // kernel_pagging: one memory32_create_map for each region, results ignored.
  function KernelPaging(s: Phys, kdir: nat, regions: seq<Region>): (r: Phys)
    requires WellFormed(s) && forall r | r in regions :: r.vp < VPAGES && r.f < VPAGES && r.perm < PAGE_SIZE
    ensures WellFormed(r)
    decreases |regions|
  {
    if regions == [] then s else
      assert regions[0] in regions;
      KernelPaging(CreateMap(s, kdir, regions[0].vp, regions[0].f, regions[0].count, regions[0].perm).0, kdir, regions[1..])
  }

  lemma {:induction false} KernelMapReady(s: Phys, kdir: nat, vp: nat, f: nat, count: nat, perm: nat)
    requires KernelReady(s, kdir) && perm < PAGE_SIZE && f < VPAGES && vp < USER_PAGE && vp + count <= USER_PAGE
    ensures KernelReady(CreateMap(s, kdir, vp, f, count, perm).0, kdir)
    decreases count
  {
    hide Tidy, Lookup, WritesOnly, Extends, MapPage;
    TidyWrites(s, kdir);
    if count == 0 {
    } else {
      MapPageRefines(s, kdir, vp, f, perm);
      var (s1, ok) := MapPage(s, kdir, vp, f, perm);
      KernelEntryReady(s, s1, kdir, vp / ENTRIES);
      if ok && count > 1 {
        KernelMapReady(s1, kdir, vp + 1, (f + 1) % VPAGES, count - 1, perm);
      } else if ok {
        assert CreateMap(s1, kdir, (vp + 1) % VPAGES, (f + 1) % VPAGES, 0, perm) == (s1, true);
      }
    }
  }

  lemma KernelEntryReady(s: Phys, s1: Phys, kdir: nat, v: nat)
    requires KernelReady(s, kdir) && Tidy(s1, kdir) && Extends(s, s1, kdir) && v < USER_DIR
    requires forall i: nat | i < ENTRIES && i != v :: Entry(s1.ram, kdir, i) == Entry(s.ram, kdir, i)
    requires HasTable(s, kdir, v) ==> Entry(s1.ram, kdir, v) == Entry(s.ram, kdir, v)
    requires HasTable(s1, kdir, v) && !HasTable(s, kdir, v) ==> Free(s, Table(s1, kdir, v))
    ensures KernelReady(s1, kdir)
  {
    forall i: nat | i < ENTRIES && HasTable(s1, kdir, i)
      ensures i < USER_DIR && Used(s1, Table(s1, kdir, i))
    {
      if HasTable(s, kdir, i) {
        assert Used(s, Table(s, kdir, i));
      }
    }
  }

  // The world after boot.
  function Booted(s: Phys, kdir: nat, regions: seq<Region>): (w: World)
    requires WellFormed(s) && BelowBase(regions)
    ensures WellFormed(w.phys)
  {
    World(KernelPaging(s, kdir, regions), kdir, {})
  }

  /** From a zeroed kernel directory and an empty bitmap, boot leaves a good world without spaces, whatever regions
      below VM_TASK_BASE the kernel maps and whether or not memory runs out. */
  lemma {:induction false} BootIsolates(s: Phys, kdir: nat, regions: seq<Region>)
    requires KernelReady(s, kdir) && BelowBase(regions)
    ensures WellFormed(s) && Inv(Booted(s, kdir, regions))
    decreases |regions|
  {
    if regions == [] {
      forall x, y | Occupied(World(s, kdir, {}), x) && Occupied(World(s, kdir, {}), y) && x != y
        ensures FrameOf(World(s, kdir, {}), x) != FrameOf(World(s, kdir, {}), y)
      {
        assert Table(s, kdir, x.i) != Table(s, kdir, y.i);
      }
    } else {
      var r := regions[0];
      assert r in regions;
      KernelMapReady(s, kdir, r.vp, r.f, r.count, r.perm);
      assert forall q | q in regions[1..] :: q in regions;
      BootIsolates(CreateMap(s, kdir, r.vp, r.f, r.count, r.perm).0, kdir, regions[1..]);
    }
  }

  // No page is in two regions, and the frames exist.
  predicate Disjoint(regions: seq<Region>) {
    && (forall r | r in regions :: r.f + r.count <= VPAGES)
    && forall i, j | 0 <= i < j < |regions| ::
         regions[i].vp + regions[i].count <= regions[j].vp || regions[j].vp + regions[j].count <= regions[i].vp
  }

  /** The kernel directory maps each region as told, and the other pages as before. */
  ghost predicate MapsRegions(s: Phys, s': Phys, kdir: nat, regions: seq<Region>) {
    && (forall r, q: nat | r in regions && r.vp <= q < r.vp + r.count && q < VPAGES && r.perm < PAGE_SIZE ::
          Lookup(s'.ram, kdir, q) == Some(Mapping(r.f + q - r.vp, WithPresent(r.perm))))
    && (forall q: nat | q < VPAGES && (forall r | r in regions :: !(r.vp <= q < r.vp + r.count)) ::
          Lookup(s'.ram, kdir, q) == Lookup(s.ram, kdir, q))
  }

  // Boot releases no frame.
  lemma {:induction false} PagingFrees(s: Phys, kdir: nat, regions: seq<Region>)
    requires KernelReady(s, kdir) && BelowBase(regions) && Disjoint(regions)
    ensures forall g: nat :: Free(KernelPaging(s, kdir, regions), g) ==> Free(s, g)
    decreases |regions|
  {
    hide KernelReady, Lookup, Tidy, MapsRange, Free;
    if regions == [] {
    } else {
      var s1, n := OneRegionMaps(s, kdir, regions);
      PagingFrees(s1, kdir, regions[1..]);
    }
  }

  // The first region.
  lemma OneRegionMaps(s: Phys, kdir: nat, regions: seq<Region>) returns (s1: Phys, n: nat)
    requires KernelReady(s, kdir) && BelowBase(regions) && Disjoint(regions) && regions != []
    ensures WellFormed(s) && KernelReady(s1, kdir) && BelowBase(regions[1..]) && Disjoint(regions[1..])
    ensures KernelPaging(s, kdir, regions) == KernelPaging(s1, kdir, regions[1..])
    ensures n <= regions[0].count && (n < regions[0].count ==> forall g: nat :: !Free(s1, g))
    ensures var r := regions[0];
      r.vp + n <= VPAGES && r.perm < PAGE_SIZE && MapsRange(s, s1, kdir, r.vp, r.f, n, r.perm)
    ensures forall g: nat :: Free(s1, g) ==> Free(s, g)
  {
    hide Lookup, MapsRange;
    var r := regions[0];
    assert r in regions && forall q | q in regions[1..] :: q in regions;
    s1 := CreateMap(s, kdir, r.vp, r.f, r.count, r.perm).0;
    n := 0;
    KernelMapReady(s, kdir, r.vp, r.f, r.count, r.perm);
    n := CreateMapAny(s, kdir, r.vp, r.f, r.count, r.perm);
  }

  lemma CreateMapAny(s: Phys, d: nat, vp: nat, f: nat, count: nat, perm: nat) returns (n: nat)
    requires Tidy(s, d) && perm < PAGE_SIZE && vp < VPAGES && vp + count <= VPAGES && f < VPAGES && f + count <= VPAGES
    ensures WellFormed(s)
    ensures var (s', ok) := CreateMap(s, d, vp, f, count, perm);
      && n <= count && (n < count ==> forall g: nat :: !Free(s', g)) && MapsRange(s, s', d, vp, f, n, perm)
      && forall g: nat :: Free(s', g) ==> Free(s, g)
  {
    hide Lookup, MapsRange, Tidy;
    n := CreateMapRefines(s, d, vp, f, count, perm);
  }

  /** When boot leaves some frame free, every region is mapped as told, page by page, and nothing else. */
  lemma {:induction false} BootMaps(s: Phys, kdir: nat, regions: seq<Region>, g: nat)
    requires WellFormed(s) && KernelReady(s, kdir) && BelowBase(regions) && Disjoint(regions)
    requires Free(Booted(s, kdir, regions).phys, g)
    ensures MapsRegions(s, Booted(s, kdir, regions).phys, kdir, regions)
    decreases |regions|
  {
    hide KernelReady, Lookup, Tidy, MapsRange, Free, MapsRegions;
    if regions == [] {
      NoRegions(s, kdir);
    } else {
      var s1, n := OneRegionMaps(s, kdir, regions);
      PagingFrees(s1, kdir, regions[1..]);
      ReadyWellFormed(s1, kdir);
      BootMaps(s1, kdir, regions[1..], g);
      MoreRegions(s, s1, KernelPaging(s1, kdir, regions[1..]), kdir, regions);
    }
  }

  lemma ReadyWellFormed(s: Phys, kdir: nat)
    requires KernelReady(s, kdir)
    ensures WellFormed(s)
  {
  }

  lemma NoRegions(s: Phys, kdir: nat)
    ensures MapsRegions(s, s, kdir, [])
  {
  }

  lemma MoreRegions(s: Phys, s1: Phys, s2: Phys, kdir: nat, regions: seq<Region>)
    requires regions != [] && BelowBase(regions) && Disjoint(regions) && regions[0] in regions
    requires var r := regions[0];
      r.vp + r.count <= VPAGES && r.perm < PAGE_SIZE && MapsRange(s, s1, kdir, r.vp, r.f, r.count, r.perm)
    requires MapsRegions(s1, s2, kdir, regions[1..])
    ensures MapsRegions(s, s2, kdir, regions)
  {
    hide Lookup;
    var r := regions[0];
    forall q: nat | r.vp <= q < r.vp + r.count && q < VPAGES
      ensures Lookup(s2.ram, kdir, q) == Some(Mapping(r.f + q - r.vp, WithPresent(r.perm)))
    {
      forall p | p in regions[1..]
        ensures !(p.vp <= q < p.vp + p.count)
      {
        var j :| 0 <= j < |regions[1..]| && regions[1..][j] == p;
        assert regions[j + 1] == p;
      }
    }
    forall p, q: nat | p in regions && p.vp <= q < p.vp + p.count && q < VPAGES && p.perm < PAGE_SIZE
      ensures Lookup(s2.ram, kdir, q) == Some(Mapping(p.f + q - p.vp, WithPresent(p.perm)))
    {
      assert p == r || p in regions[1..];
    }
    forall q: nat | q < VPAGES && (forall p | p in regions :: !(p.vp <= q < p.vp + p.count))
      ensures Lookup(s2.ram, kdir, q) == Lookup(s.ram, kdir, q)
    {
      assert forall p | p in regions[1..] :: p in regions;
    }
  }

  lemma ZeroedIsReady(s: Phys, kdir: nat)
    requires WellFormed(s) && kdir < FIRST && s.ram[kdir] == ZeroPage()
    ensures KernelReady(s, kdir)
  {
  }

  /** From boot on: whatever the kernel has mapped and whatever was called before, any further run keeps all roles
      distinct, and every user page that it is not meant to change keeps its mapping and its contents. */
  lemma BootRunIsolates(s: Phys, kdir: nat, regions: seq<Region>, before: seq<Call>, after: seq<Call>)
    requires WellFormed(s) && KernelReady(s, kdir) && BelowBase(regions)
    requires LegalRun(Booted(s, kdir, regions), before)
    requires LegalRun(Run(Booted(s, kdir, regions), before), after)
    ensures var w1 := Run(Booted(s, kdir, regions), before);
      var w2 := Run(w1, after);
      && Inv(w1) && Inv(w2) && (forall e | e in w1.spaces && Destroy(e) !in after :: e in w2.spaces)
      && forall e: nat, q: nat | e in w1.spaces && UserPage(q) && Untouched(after, e, q) :: SameView(w1, w2, e, q)
  {
    hide *;
    BootIsolates(s, kdir, regions);
    RunIsolates(Booted(s, kdir, regions), before);
    RunIsolates(Run(Booted(s, kdir, regions), before), after);
  }

  // ---- a reachable fork that releases a kernel table

  // Eight managed frames, all memory zero.
  function ZeroMemory(): (s: Phys)
    ensures WellFormed(s) && KernelReady(s, 0)
  {
    Phys(seq(264, f => ZeroPage()), seq(8, i => false))
  }

  // One mapped kernel page.
  function OneRegion(): (regions: seq<Region>)
    ensures BelowBase(regions)
  {
    [Region(0, 0, 1, 3)]
  }

  // A program with two pages stores 0x10 into byte 2 of the first.
  function OneProgram(): seq<Call> {
    [Create, Alloc(257, USER_PAGE, 2, 7), Store(257, USER_PAGE * PAGE_SIZE + 2, 0x10)]
  }

  // The first n managed frames are in use; the first holds the kernel's table.
  ghost predicate Stage(w: World, n: nat) {
    && Inv(w) && w.kdir == 0 && |w.phys.ram| == 264 && |w.phys.used| == 8
    && (forall i: nat | i < 8 :: w.phys.used[i] <==> i < n)
    && HasTable(w.phys, 0, 0) && Table(w.phys, 0, 0) == 256
  }

  lemma StageAlloc(s: Phys, n: nat)
    requires |s.used| == 8 && n < 8 && forall i: nat | i < 8 :: s.used[i] <==> i < n
    ensures AllocPage(s) == (s.(used := s.used[n := true]), Some(FIRST + n)) && NextFree(s) == FIRST + n
    ensures CountClear(s.used) == 8 - n
  {
    var r := LowestClear(s.used, 0);
    assert !s.used[n];
    CountTaken(s.used, n);
  }

  lemma {:induction false} CountTaken(bits: seq<bool>, n: nat)
    requires n <= |bits| && forall i: nat | i < |bits| :: bits[i] <==> i < n
    ensures CountClear(bits) == |bits| - n
  {
    if bits == [] {
    } else {
      CountTaken(bits[1..], if n == 0 then 0 else n - 1);
    }
  }

  lemma BootStage() returns (w: World)
    ensures w == Booted(ZeroMemory(), 0, OneRegion()) && Stage(w, 1) && w.spaces == {}
    ensures forall f: nat | f > 256 :: PageAt(w.phys.ram, f) == ZeroPage()
  {
    var (s, regions) := (ZeroMemory(), OneRegion());
    w := Booted(s, 0, regions);
    BootIsolates(s, 0, regions);
    PageMapped(s, 0, Region(0, 0, 1, 3));
    FirstTable(s, w.phys);
  }

  lemma PageMapped(s: Phys, kdir: nat, r: Region)
    requires WellFormed(s) && BelowBase([r]) && r.count == 1
    ensures KernelPaging(s, kdir, [r]) == MapPage(s, kdir, r.vp, r.f, r.perm).0
  {
    hide MapPage;
    assert [r][1..] == [];
    MapOne(s, kdir, r.vp, r.f, r.perm);
  }

  lemma FirstTable(s: Phys, s1: Phys)
    requires s == ZeroMemory() && s1 == MapPage(s, 0, 0, 0, 3).0
    ensures |s1.ram| == 264 && |s1.used| == 8 && (forall i: nat | i < 8 :: s1.used[i] <==> i < 1)
    ensures HasTable(s1, 0, 0) && Table(s1, 0, 0) == 256
    ensures forall f: nat | f > 256 :: PageAt(s1.ram, f) == ZeroPage()
  {
    StageAlloc(s, 0);
    assert !HasTable(s, 0, 0);
    var (s', t) := FindPte(s, 0, 0);
    assert t == Some(256) && s'.ram == s.ram[0 := ZeroPage()[0 := MakeEntry(256, 7)]][256 := ZeroPage()];
  }

  lemma CreateStage(w: World) returns (w1: World)
    requires Stage(w, 1) && w.spaces == {} && forall f: nat | f > 256 :: PageAt(w.phys.ram, f) == ZeroPage()
    ensures WellFormed(w.phys) && w1 == Step(w, Create) && Stage(w1, 2) && w1.spaces == {257}
    ensures PageAt(w1.phys.ram, 258) == ZeroPage() && !HasTable(w1.phys, 257, USER_DIR)
  {
    GoodIsWellFormed(w);
    w1 := Step(w, Create);
    StageAlloc(w.phys, 1);
    CreatePdeInv(w);
    assert PageAt(w.phys.ram, 258) == ZeroPage() && w1.phys.ram[258] == w.phys.ram[258];
    assert w1.phys.ram[257] == NewDirectory(w.phys.ram, 0);
  }

  // The first user page is in frame 258.
  ghost predicate FirstPage(w: World, p: Page) {
    && w.spaces == {257} && Lookup(w.phys.ram, 257, USER_PAGE).Some?
    && Lookup(w.phys.ram, 257, USER_PAGE).value.frame == 258 && PageAt(w.phys.ram, 258) == p
  }

  lemma FirstPageStage(w: World) returns (s1: Phys)
    requires Stage(w, 2) && w.spaces == {257} && PageAt(w.phys.ram, 258) == ZeroPage()
    requires !HasTable(w.phys, 257, USER_DIR)
    ensures WellFormed(w.phys) && AllocOne(w.phys, 257, USER_PAGE, 7) == (s1, true)
    ensures var w1 := w.(phys := s1);
      Stage(w1, 4) && FirstPage(w1, ZeroPage()) && HasTable(s1, 257, USER_DIR)
  {
    GoodIsWellFormed(w);
    var sa := AllocPage(w.phys).0;
    StageAlloc(w.phys, 2);
    StageAlloc(sa, 3);
    AllocOneInv(w, 257, USER_PAGE, 7);
    MapOne(sa, 257, USER_PAGE, 258, 7);
    s1 := AllocOne(w.phys, 257, USER_PAGE, 7).0;
    WritesUserOthersStand(w, s1, 257);
  }

  lemma SecondPageStage(w: World) returns (s1: Phys)
    requires Stage(w, 4) && FirstPage(w, ZeroPage()) && HasTable(w.phys, 257, USER_DIR)
    ensures WellFormed(w.phys) && AllocOne(w.phys, 257, USER_PAGE + 1, 7) == (s1, true)
    ensures var w1 := w.(phys := s1);
      Stage(w1, 5) && FirstPage(w1, ZeroPage()) && Lookup(s1.ram, 257, USER_PAGE + 1).Some?
  {
    GoodIsWellFormed(w);
    var sa := AllocPage(w.phys).0;
    StageAlloc(w.phys, 4);
    AllocOneInv(w, 257, USER_PAGE + 1, 7);
    MapOne(sa, 257, USER_PAGE + 1, 260, 7);
    s1 := AllocOne(w.phys, 257, USER_PAGE + 1, 7).0;
    WritesUserOthersStand(w, s1, 257);
    LeafNotTouched(w, s1, 257, 257, USER_PAGE);
  }

  lemma AllocStage(w: World) returns (w1: World)
    requires Stage(w, 2) && w.spaces == {257} && PageAt(w.phys.ram, 258) == ZeroPage()
    requires !HasTable(w.phys, 257, USER_DIR)
    ensures WellFormed(w.phys) && w1 == Step(w, Alloc(257, USER_PAGE, 2, 7))
    ensures Stage(w1, 5) && FirstPage(w1, ZeroPage()) && Lookup(w1.phys.ram, 257, USER_PAGE + 1).Some?
  {
    hide Lookup, Inv, AllocOne, FirstPage, HasTable;
    var s1 := FirstPageStage(w);
    var s2 := SecondPageStage(w.(phys := s1));
    w1 := Step(w, Alloc(257, USER_PAGE, 2, 7));
    assert AllocTaskPages(s2, 257, USER_PAGE + 2, 0, 7) == (s2, true);
    assert AllocTaskPages(s1, 257, USER_PAGE + 1, 1, 7) == (s2, true);
    assert w.(phys := s1).(phys := s2) == w.(phys := s2);
  }

  lemma StoreStage(w: World) returns (w1: World)
    requires Stage(w, 5) && FirstPage(w, ZeroPage()) && Lookup(w.phys.ram, 257, USER_PAGE + 1).Some?
    ensures WellFormed(w.phys) && w1 == Step(w, Store(257, USER_PAGE * PAGE_SIZE + 2, 0x10))
    ensures Legal(w, Store(257, USER_PAGE * PAGE_SIZE + 2, 0x10))
    ensures Stage(w1, 5) && FirstPage(w1, SetByte(ZeroPage(), 2, 0x10)) && Lookup(w1.phys.ram, 257, USER_PAGE + 1).Some?
  {
    hide Lookup, SetByte;
    GoodIsWellFormed(w);
    assert Occupied(w, Leaf(257, USER_PAGE));
    StoreByteMoves(w, 257, USER_PAGE, 2, 0x10);
    GetPaddrMeans(w.phys, 257, USER_PAGE * PAGE_SIZE + 2);
    w1 := Step(w, Store(257, USER_PAGE * PAGE_SIZE + 2, 0x10));
  }

  lemma StageHarm(w: World)
    requires Stage(w, 5) && FirstPage(w, SetByte(ZeroPage(), 2, 0x10)) && Lookup(w.phys.ram, 257, USER_PAGE + 1).Some?
    ensures !Harmless(w, 257)
  {
    hide Lookup, Inv, SetByte;
    StageAlloc(w.phys, 5);
    StoredWord();
    assert FirstMapped(w.phys.ram, 257, USER_PAGE) == USER_PAGE;
    assert FramesNeeded(w.phys.ram, 257, USER_PAGE, false) >= 3 by {
      assert FramesNeeded(w.phys.ram, 257, USER_PAGE + 1, true) >= 1;
    }
    assert StrayWord(w, 257) == 0x10_0000;
    assert Occupied(w, KernelTable(0)) && FrameOf(w, KernelTable(0)) == 256;
  }

  lemma StoredWord()
    ensures SetByte(ZeroPage(), 2, 0x10)[0] == 0x10_0000
  {
    assert ZeroPage()[0] == 0;
  }

  lemma RunThree(w: World, a: Call, b: Call, c: Call)
    requires WellFormed(w.phys) && Legal(w, a) && Fits(a) && Fits(b) && Fits(c)
    requires Legal(Step(w, a), b) && Legal(Step(Step(w, a), b), c)
    ensures LegalRun(w, [a, b, c]) && Run(w, [a, b, c]) == Step(Step(Step(w, a), b), c)
  {
    hide Step, Legal, Fits;
    var w1 := Step(w, a);
    var w2 := Step(w1, b);
    assert [a, b, c][1..] == [b, c] && [b, c][1..] == [c] && [c][1..] == [];
    assert LegalRun(Step(w2, c), []) && Run(Step(w2, c), []) == Step(w2, c);
    assert LegalRun(w2, [c]) && Run(w2, [c]) == Step(w2, c);
    assert LegalRun(w1, [b, c]) && Run(w1, [b, c]) == Step(w2, c);
  }

  // The program above can run, and then its fork is harmful.
  lemma ProgramRuns()
    ensures LegalRun(Booted(ZeroMemory(), 0, OneRegion()), OneProgram())
    ensures var w := Run(Booted(ZeroMemory(), 0, OneRegion()), OneProgram());
      Inv(w) && 257 in w.spaces && !Harmless(w, 257)
  {
    hide Inv, Step, Harmless, Lookup, Legal, LegalRun, Run, Booted, Fits, HasTable, Table;
    var w0 := BootStage();
    var w1 := CreateStage(w0);
    var w2 := AllocStage(w1);
    var w3 := StoreStage(w2);
    StageHarm(w3);
    ProgramLegal(w0, w1);
    RunThree(w0, Create, Alloc(257, USER_PAGE, 2, 7), Store(257, USER_PAGE * PAGE_SIZE + 2, 0x10));
  }

  lemma ProgramLegal(w0: World, w1: World)
    requires 257 in w1.spaces
    ensures Legal(w0, Create) && Legal(w1, Alloc(257, USER_PAGE, 2, 7))
    ensures Fits(Create) && Fits(Alloc(257, USER_PAGE, 2, 7)) && Fits(Store(257, USER_PAGE * PAGE_SIZE + 2, 0x10))
  {
  }

  /** From boot a kernel table can be lost: after one kernel page is mapped, a program is given two pages and stores one
      byte; with three of eight frames left, its fork fails, and releases the table that every space uses. */
  lemma FailedForkBreaksIsolation()
    ensures LegalRun(Booted(ZeroMemory(), 0, OneRegion()), OneProgram())
    ensures var w := Run(Booted(ZeroMemory(), 0, OneRegion()), OneProgram());
      Inv(w) && 257 in w.spaces && !Inv(Step(w, Duplicate(257)))
  {
    hide Inv, Harmless, Lookup, Legal, LegalRun, Run, Booted, OneProgram, AfterFork;
    ProgramRuns();
    DuplicateExactly(Run(Booted(ZeroMemory(), 0, OneRegion()), OneProgram()), 257);
  }
}
