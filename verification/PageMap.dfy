/** The two-level table behaves as a finite map from virtual pages to mappings, although directory and tables live in
    the memory being written. */
module PageMap {
  import opened Wrappers
  import opened PageLayout
  import opened Memory32

  predicate HasTable(s: Phys, d: nat, i: nat)
    requires i < ENTRIES
  {
    Present(Entry(s.ram, d, i))
  }

  function Table(s: Phys, d: nat, i: nat): nat
    requires i < ENTRIES
  {
    Frame(Entry(s.ram, d, i))
  }

  /** A directory whose tables are distinct frames in memory, none free and none the directory itself. */
  ghost predicate Tidy(s: Phys, d: nat) {
    && WellFormed(s)
    && d < |s.ram| && !Free(s, d)
    && (forall i: nat | i < ENTRIES && HasTable(s, d, i) ::
          Table(s, d, i) < |s.ram| && !Free(s, Table(s, d, i)) && Table(s, d, i) != d)
    && (forall i: nat, j: nat | i < j < ENTRIES && HasTable(s, d, i) && HasTable(s, d, j) ::
          Table(s, d, i) != Table(s, d, j))
  }

  // g is the directory or one of the tables of d.
  ghost predicate Owns(s: Phys, d: nat, g: nat) {
    g == d || exists i: nat :: i < ENTRIES && HasTable(s, d, i) && Table(s, d, i) == g
  }

  /** Every frame that was not free, and is not among the owned ones, keeps its contents; used frames stay used. */
  ghost predicate WritesOnly(s: Phys, s': Phys, d: nat) {
    && |s'.ram| == |s.ram| && |s'.used| == |s.used|
    && (forall g: nat | g < |s.ram| && !Free(s, g) && !Owns(s, d, g) :: s'.ram[g] == s.ram[g])
    && (forall g: nat :: Used(s, g) ==> Used(s', g))
    && (forall g: nat :: Free(s', g) ==> Free(s, g))
  }

  /** Putting the zeroed, formerly free frame t in as table v: the directory stays tidy and no translation changes. */
  lemma NewTableKeeps(s: Phys, s': Phys, d: nat, v: nat, t: nat)
    requires Tidy(s, d) && v < ENTRIES && !HasTable(s, d, v) && Free(s, t) && t < VPAGES
    requires s'.ram == s.ram[d := s.ram[d][v := MakeEntry(t, 7)]][t := ZeroPage()]
    requires s'.used == s.used[t - FIRST := true]
    ensures Tidy(s', d) && WritesOnly(s, s', d)
    ensures HasTable(s', d, v) && Table(s', d, v) == t
    ensures forall i: nat | i < ENTRIES && i != v :: Entry(s'.ram, d, i) == Entry(s.ram, d, i)
    ensures forall q: nat | q < VPAGES :: Lookup(s'.ram, d, q) == Lookup(s.ram, d, q)
  {
    assert t != d;
    assert s'.ram[d] == s.ram[d][v := MakeEntry(t, 7)];
    forall i: nat | i < ENTRIES && HasTable(s', d, i)
      ensures Table(s', d, i) == if i == v then t else Table(s, d, i)
      ensures i != v ==> HasTable(s, d, i)
      ensures !Free(s', Table(s', d, i))
    {
    }
    forall q: nat | q < VPAGES
      ensures Lookup(s'.ram, d, q) == Lookup(s.ram, d, q)
    {
      if q / ENTRIES == v {
        assert Entry(s'.ram, t, q % ENTRIES) == 0;
      } else if HasTable(s, d, q / ENTRIES) {
        assert HasTable(s', d, q / ENTRIES);
      }
    }
  }

  /** find_pte: it gives the table of vp, and neither a new nor an old table changes any translation. */
  lemma FindPteKeeps(s: Phys, d: nat, vp: nat)
    requires Tidy(s, d) && vp < VPAGES
    ensures var (s', t) := FindPte(s, d, vp);
      && Tidy(s', d) && WritesOnly(s, s', d)
      && (t.Some? ==> HasTable(s', d, vp / ENTRIES) && Table(s', d, vp / ENTRIES) == t.value)
      && (t.None? ==> s' == s && !HasTable(s, d, vp / ENTRIES) && forall f :: !Free(s, f))
      && (HasTable(s, d, vp / ENTRIES) ==> s' == s)
      && (t.Some? && !HasTable(s, d, vp / ENTRIES) ==> Free(s, t.value))
      && (forall q: nat | q < VPAGES :: Lookup(s'.ram, d, q) == Lookup(s.ram, d, q))
      && (forall i: nat | i < ENTRIES && i != vp / ENTRIES :: Entry(s'.ram, d, i) == Entry(s.ram, d, i))
  {
    hide Tidy, WritesOnly;
    TidyWrites(s, d);
    var (s', t) := FindPte(s, d, vp);
    if !HasTable(s, d, vp / ENTRIES) && t.Some? {
      NewTableKeeps(s, s', d, vp / ENTRIES, t.value);
    }
  }

  lemma TidyWrites(s: Phys, d: nat)
    requires Tidy(s, d)
    ensures WritesOnly(s, s, d) && WellFormed(s) && d < |s.ram| && !Free(s, d)
  {
  }

  /** Writing entry k of table v: it sets that one translation. */
  lemma WriteEntryKeeps(s: Phys, s': Phys, d: nat, v: nat, k: nat, e: word)
    requires Tidy(s, d) && v < ENTRIES && k < ENTRIES && HasTable(s, d, v) && Present(e)
    requires s' == s.(ram := SetEntry(s.ram, Table(s, d, v), k, e))
    ensures Tidy(s', d) && WritesOnly(s, s', d)
    ensures Lookup(s'.ram, d, v * ENTRIES + k) == Some(Mapping(Frame(e), e % PAGE_SIZE))
    ensures forall q: nat | q < VPAGES && q != v * ENTRIES + k :: Lookup(s'.ram, d, q) == Lookup(s.ram, d, q)
    ensures forall i: nat | i < ENTRIES :: Entry(s'.ram, d, i) == Entry(s.ram, d, i)
  {
    var t := Table(s, d, v);
    assert s'.ram[d] == s.ram[d];
    assert forall i: nat | i < ENTRIES :: HasTable(s', d, i) == HasTable(s, d, i) && Table(s', d, i) == Table(s, d, i);
    assert forall g: nat :: Free(s', g) <==> Free(s, g);
    forall q: nat | q < VPAGES && q != v * ENTRIES + k
      ensures Lookup(s'.ram, d, q) == Lookup(s.ram, d, q)
    {
      if HasTable(s, d, q / ENTRIES) && q / ENTRIES != v {
        assert Table(s, d, q / ENTRIES) != t;
      }
    }
  }

  /** One page of memory32_create_map: it maps that page and no other, allocating at most the table it needs. */
  lemma MapPageRefines(s: Phys, d: nat, vp: nat, f: nat, perm: nat)
    requires Tidy(s, d) && vp < VPAGES && f < VPAGES && perm < PAGE_SIZE
    ensures var (s', ok) := MapPage(s, d, vp, f, perm);
      && Tidy(s', d) && Extends(s, s', d)
      && MapsRange(s, s', d, vp, f, if ok then 1 else 0, perm)
      && (!ok <==> !HasTable(s, d, vp / ENTRIES) && forall g :: !Free(s, g))
      && (!ok ==> s' == s)
      && (forall i: nat | i < ENTRIES && i != vp / ENTRIES :: Entry(s'.ram, d, i) == Entry(s.ram, d, i))
      && (HasTable(s, d, vp / ENTRIES) ==> forall i: nat | i < ENTRIES :: Entry(s'.ram, d, i) == Entry(s.ram, d, i))
      && (ok ==> HasTable(s', d, vp / ENTRIES))
      && (ok && !HasTable(s, d, vp / ENTRIES) ==> Free(s, Table(s', d, vp / ENTRIES)))
  {
    hide Tidy, WritesOnly, Lookup;
    TidyWrites(s, d);
    FindPteKeeps(s, d, vp);
    var (s1, t) := FindPte(s, d, vp);
    if t.Some? {
      var s' := MapPage(s, d, vp, f, perm).0;
      WriteEntryKeeps(s1, s', d, vp / ENTRIES, vp % ENTRIES, MakeEntry(f, WithPresent(perm)));
      assert vp == vp / ENTRIES * ENTRIES + vp % ENTRIES;
      OwnedBefore(s, s1, d, vp / ENTRIES);
      OwnedBefore(s1, s', d, vp / ENTRIES);
      ExtendsTrans(s, s1, s', d);
    } else {
      ExtendsRefl(s, d);
    }
  }

  // A directory whose entries changed in place v at most, and there from absent to a frame that was free.
  lemma OwnedBefore(s: Phys, s': Phys, d: nat, v: nat)
    requires v < ENTRIES && Tidy(s', d) && WritesOnly(s, s', d)
    requires forall i: nat | i < ENTRIES && i != v :: Entry(s'.ram, d, i) == Entry(s.ram, d, i)
    requires Entry(s'.ram, d, v) == Entry(s.ram, d, v) || Free(s, Table(s', d, v))
    ensures Extends(s, s', d)
  {
    forall g: nat | !Free(s, g) && Owns(s', d, g)
      ensures Owns(s, d, g)
    {
      if g != d {
        var i: nat :| i < ENTRIES && HasTable(s', d, i) && Table(s', d, i) == g;
        assert HasTable(s, d, i);
      }
    }
  }

  /** Pages vp, vp+1, ..., vp+n-1 map to frames f, f+1, ..., with the given permissions; other pages read as before. */
  ghost predicate MapsRange(s: Phys, s': Phys, d: nat, vp: nat, f: nat, n: nat, perm: nat)
    requires vp + n <= VPAGES && perm < PAGE_SIZE
  {
    && (forall q: nat | vp <= q < vp + n :: Lookup(s'.ram, d, q) == Some(Mapping(f + q - vp, WithPresent(perm))))
    && (forall q: nat | q < VPAGES && !(vp <= q < vp + n) :: Lookup(s'.ram, d, q) == Lookup(s.ram, d, q))
  }

  /** A call on directory d kept it tidy, wrote only to it, its tables and free frames, and gave it only free frames. */
  ghost predicate Extends(s: Phys, s': Phys, d: nat) {
    && Tidy(s', d) && WritesOnly(s, s', d)
    && (forall g: nat | !Free(s, g) && Owns(s', d, g) :: Owns(s, d, g))
  }

  lemma ExtendsRefl(s: Phys, d: nat)
    requires Tidy(s, d)
    ensures Extends(s, s, d)
  {
  }

  lemma ExtendsTrans(s0: Phys, s1: Phys, s2: Phys, d: nat)
    requires Extends(s0, s1, d) && Extends(s1, s2, d)
    ensures Extends(s0, s2, d)
  {
  }

  lemma MapsRangeTrans(s0: Phys, s1: Phys, s2: Phys, d: nat, vp: nat, f: nat, n: nat, perm: nat)
    requires vp + 1 + n <= VPAGES && perm < PAGE_SIZE
    requires MapsRange(s0, s1, d, vp, f, 1, perm) && MapsRange(s1, s2, d, vp + 1, f + 1, n, perm)
    ensures MapsRange(s0, s2, d, vp, f, n + 1, perm)
  {
  }

  /** memory32_create_map: on success the whole range is mapped and nothing else moved; on failure a proper prefix is,
      and memory has run out. */
  lemma {:induction false} CreateMapRefines(s: Phys, d: nat, vp: nat, f: nat, count: nat, perm: nat) returns (n: nat)
    requires Tidy(s, d) && perm < PAGE_SIZE
    requires vp < VPAGES && vp + count <= VPAGES && f < VPAGES && f + count <= VPAGES
    ensures var (s', ok) := CreateMap(s, d, vp, f, count, perm);
      && Extends(s, s', d)
      && n <= count && (ok <==> n == count) && (!ok ==> forall g :: !Free(s', g))
      && MapsRange(s, s', d, vp, f, n, perm)
    decreases count
  {
    hide Extends, MapPage, Tidy, Lookup;
    TidyWrites(s, d);
    if count == 0 {
      ExtendsRefl(s, d);
      n := 0;
    } else {
      MapPageRefines(s, d, vp, f, perm);
      var (s1, ok1) := MapPage(s, d, vp, f, perm);
      if !ok1 {
        n := 0;
      } else if count == 1 {
        n := 1;
        assert CreateMap(s, d, vp, f, 1, perm) == (s1, true);
      } else {
        var m := CreateMapRefines(s1, d, vp + 1, f + 1, count - 1, perm);
        var s' := CreateMap(s1, d, vp + 1, f + 1, count - 1, perm).0;
        n := m + 1;
        ExtendsTrans(s, s1, s', d);
        MapsRangeTrans(s, s1, s', d, vp, f, m, perm);
      }
    }
  }

  /** get_paddr gives the mapped address; for a page that is not mapped it gives 0, or, when a table is there, the bare
      page offset. */
  lemma GetPaddrMeans(s: Phys, d: nat, va: nat)
    requires va < 0x1_0000_0000
    ensures match Lookup(s.ram, d, va / PAGE_SIZE)
      case Some(m) => GetPaddr(s, d, va) == m.frame * PAGE_SIZE + va % PAGE_SIZE
      case None => HasTable(s, d, va / PAGE_SIZE / ENTRIES) || GetPaddr(s, d, va) == 0
  {
  }

  /** memory32_create_map seen through get_paddr: v+k goes to p+k, every other mapped or table-less address as before. */
  lemma CreateMapPaddr(s: Phys, d: nat, v: nat, p: nat, count: nat, perm: nat, va: nat)
    requires Tidy(s, d) && perm < PAGE_SIZE && va < 0x1_0000_0000
    requires v % PAGE_SIZE == 0 && p % PAGE_SIZE == 0
    requires v / PAGE_SIZE < VPAGES && v / PAGE_SIZE + count <= VPAGES
    requires p / PAGE_SIZE < VPAGES && p / PAGE_SIZE + count <= VPAGES
    requires CreateMap(s, d, v / PAGE_SIZE, p / PAGE_SIZE, count, perm).1
    ensures var s' := CreateMap(s, d, v / PAGE_SIZE, p / PAGE_SIZE, count, perm).0;
      var (before, after) := (Lookup(s.ram, d, va / PAGE_SIZE), Lookup(s'.ram, d, va / PAGE_SIZE));
      if v <= va < v + count * PAGE_SIZE then
        after.Some? && after.value.flags == WithPresent(perm) && GetPaddr(s', d, va) == p + (va - v)
      else
        after == before && (before.Some? ==> GetPaddr(s', d, va) == GetPaddr(s, d, va))
  {
    var n := CreateMapRefines(s, d, v / PAGE_SIZE, p / PAGE_SIZE, count, perm);
    var s' := CreateMap(s, d, v / PAGE_SIZE, p / PAGE_SIZE, count, perm).0;
    var q := va / PAGE_SIZE;
    GetPaddrMeans(s, d, va);
    GetPaddrMeans(s', d, va);
    assert va == q * PAGE_SIZE + va % PAGE_SIZE;
    assert v == v / PAGE_SIZE * PAGE_SIZE && p == p / PAGE_SIZE * PAGE_SIZE;
    assert v <= va < v + count * PAGE_SIZE <==> v / PAGE_SIZE <= q < v / PAGE_SIZE + count;
  }
}
