/** What a program may do with a page: the memory management unit asks both the directory entry and the page entry. */
module Rights {
  import opened Wrappers
  import opened PageLayout
  import opened Memory32
  import opened PageMap

  // PTE_W and PTE_U
  predicate Writable(w: word) { w / 2 % 2 == 1 }

  predicate ForUsers(w: word) { w / 4 % 2 == 1 }

  /** May a program read page vp of directory d, and may it write it? */
  function Access(s: Phys, d: nat, vp: nat): (bool, bool)
    requires vp < VPAGES
  {
    var (e, w) := (Entry(s.ram, d, vp / ENTRIES), Entry(s.ram, Table(s, d, vp / ENTRIES), vp % ENTRIES));
    if !Present(e) || !Present(w) then (false, false)
    else (ForUsers(e) && ForUsers(w), ForUsers(e) && ForUsers(w) && Writable(e) && Writable(w))
  }

  // What the permission argument asks for.
  function Asked(perm: nat): (bool, bool) { (perm / 4 % 2 == 1, perm / 4 % 2 == 1 && perm / 2 % 2 == 1) }

  /** No table takes away what its pages allow. */
  ghost predicate Open(s: Phys, d: nat) {
    forall i: nat | i < ENTRIES && HasTable(s, d, i) :: ForUsers(Entry(s.ram, d, i)) && Writable(Entry(s.ram, d, i))
  }

  lemma EntryRights(f: nat, perm: nat)
    requires f < VPAGES && perm < PAGE_SIZE
    ensures var w := MakeEntry(f, WithPresent(perm)); (ForUsers(w), ForUsers(w) && Writable(w)) == Asked(perm)
  {
    var (w, r) := (MakeEntry(f, WithPresent(perm)), WithPresent(perm));
    assert w == PAGE_SIZE * f + r;
    assert w / 2 == 2048 * f + r / 2 && w / 4 == 1024 * f + r / 4;
    Remainder2(1024 * f + r / 2 / 2, r / 2 % 2);
    Remainder2(512 * f + r / 4 / 2, r / 4 % 2);
    assert r / 4 == r / 2 / 2 && perm / 4 == perm / 2 / 2;
  }

  /** A page mapped in a directory whose tables are open has the rights asked for, with a table that find_pte has made or
      without, and the tables stay open. */
  lemma MapRights(s: Phys, d: nat, vp: nat, f: nat, perm: nat)
    requires Tidy(s, d) && Open(s, d) && vp < VPAGES && f < VPAGES && perm < PAGE_SIZE
    ensures var (s', ok) := MapPage(s, d, vp, f, perm);
      Tidy(s', d) && Open(s', d) && (ok ==> Access(s', d, vp) == Asked(perm))
  {
    hide Lookup, WritesOnly;
    MapPageRefines(s, d, vp, f, perm);
    FindPteKeeps(s, d, vp);
    var (s1, t) := FindPte(s, d, vp);
    OpenFound(s, d, vp);
    if t.Some? {
      var s' := MapPage(s, d, vp, f, perm).0;
      var (v, k) := (vp / ENTRIES, vp % ENTRIES);
      WriteEntryKeeps(s1, s', d, v, k, MakeEntry(f, WithPresent(perm)));
      assert t.value < |s1.ram| && s'.ram[t.value][k] == MakeEntry(f, WithPresent(perm));
      EntryRights(f, perm);
    }
  }

  lemma OpenFound(s: Phys, d: nat, vp: nat)
    requires Tidy(s, d) && Open(s, d) && vp < VPAGES
    ensures Open(FindPte(s, d, vp).0, d)
  {
    hide Lookup, WritesOnly;
    FindPteKeeps(s, d, vp);
    var (s1, t) := FindPte(s, d, vp);
    if t.Some? && !HasTable(s, d, vp / ENTRIES) {
      assert d < |s.ram| && t.value != d;
      assert Entry(s1.ram, d, vp / ENTRIES) == MakeEntry(t.value, 7);
      SevenIsOpen(t.value);
    }
  }

  lemma SevenIsOpen(f: nat)
    requires f < VPAGES
    ensures var w := MakeEntry(f, 7); ForUsers(w) && Writable(w)
  {
    assert WithPresent(7) == 7;
    EntryRights(f, 7);
  }

  /** memory32_create_map gives every page of the range the rights asked for. */
  lemma {:induction false} RangeRights(s: Phys, d: nat, vp: nat, f: nat, count: nat, perm: nat)
    requires Tidy(s, d) && Open(s, d) && perm < PAGE_SIZE
    requires vp < VPAGES && vp + count <= VPAGES && f < VPAGES && f + count <= VPAGES
    ensures WellFormed(s)
    ensures var (s', ok) := CreateMap(s, d, vp, f, count, perm);
      && Tidy(s', d) && Open(s', d)
      && (forall q: nat | q < vp :: Access(s', d, q) == Access(s, d, q))
      && (ok ==> forall q: nat | vp <= q < vp + count :: Access(s', d, q) == Asked(perm))
    decreases count
  {
    hide Tidy, Open, MapPage, Access, Lookup;
    TidyWrites(s, d);
    if count == 0 {
    } else {
      MapRights(s, d, vp, f, perm);
      OthersRights(s, d, vp, f, perm);
      var (s1, ok) := MapPage(s, d, vp, f, perm);
      if ok && count > 1 {
        RangeRights(s1, d, vp + 1, f + 1, count - 1, perm);
      } else if ok {
        assert CreateMap(s1, d, (vp + 1) % VPAGES, (f + 1) % VPAGES, 0, perm) == (s1, true);
      }
    }
  }

  // Mapping one page leaves the rights of the others.
  lemma OthersRights(s: Phys, d: nat, vp: nat, f: nat, perm: nat)
    requires Tidy(s, d) && vp < VPAGES && f < VPAGES && perm < PAGE_SIZE
    ensures var s' := MapPage(s, d, vp, f, perm).0;
      forall q: nat | q < VPAGES && q != vp :: Access(s', d, q) == Access(s, d, q)
  {
    hide WritesOnly, Lookup, Access, Tidy;
    TidyWrites(s, d);
    FindPteKeeps(s, d, vp);
    FoundRights(s, d, vp);
    var (s1, t) := FindPte(s, d, vp);
    if t.Some? {
      var s' := MapPage(s, d, vp, f, perm).0;
      forall q: nat | q < VPAGES && q != vp
        ensures Access(s', d, q) == Access(s1, d, q)
      {
        WriteRights(s1, d, vp, MakeEntry(f, WithPresent(perm)), q);
      }
    }
  }

  // A new table allows nothing.
  lemma FoundRights(s: Phys, d: nat, vp: nat)
    requires Tidy(s, d) && vp < VPAGES
    ensures forall q: nat | q < VPAGES :: Access(FindPte(s, d, vp).0, d, q) == Access(s, d, q)
  {
    var (s1, t) := FindPte(s, d, vp);
    var v := vp / ENTRIES;
    if t.Some? && !HasTable(s, d, v) {
      assert d < |s.ram| && t.value != d && !Free(s, d);
      assert s1.ram[t.value] == ZeroPage() && s1.ram[d] == s.ram[d][v := MakeEntry(t.value, 7)];
      forall q: nat | q < VPAGES
        ensures Access(s1, d, q) == Access(s, d, q)
      {
        var i := q / ENTRIES;
        if i != v && HasTable(s, d, i) {
          assert Table(s, d, i) != t.value && Table(s, d, i) != d;
        }
      }
    }
  }

  lemma WriteRights(s: Phys, d: nat, vp: nat, e: word, q: nat)
    requires Tidy(s, d) && vp < VPAGES && HasTable(s, d, vp / ENTRIES) && q < VPAGES && q != vp
    ensures var s' := s.(ram := SetEntry(s.ram, Table(s, d, vp / ENTRIES), vp % ENTRIES, e)); Access(s', d, q) == Access(s, d, q)
  {
    var (v, i) := (vp / ENTRIES, q / ENTRIES);
    var t := Table(s, d, v);
    assert t != d && t < |s.ram|;
    if HasTable(s, d, i) && i != v {
      assert Table(s, d, i) != t;
    }
  }
}
