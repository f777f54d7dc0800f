/** Which frames an address space owns: its tables, and the pages it maps writable. Cleaning a
    space frees exactly those; everything else that is held belongs to someone else. */
module PageOwnership {
  import opened Options
  import opened PageEntry
  import opened PageTree

  /** pages records the one path at which each writable page is mapped. */
  ghost predicate Owned(s: Space, pages: map<nat, Path>) {
    && (forall f :: f in pages ==> f in s.held && f !in s.tabs && OwnPage(s, pages[f], f))
    && (forall q :: PagePath(q) ==> PageOwner(s, pages, q))
  }

  ghost predicate OwnPage(s: Space, q: Path, f: nat) {
    PagePath(q) && Slot(s.mem, s.root, q).Some? && Slot(s.mem, s.root, q).value.addr == f
    && Slot(s.mem, s.root, q).value.writable
  }

  ghost predicate PageOwner(s: Space, pages: map<nat, Path>, q: Path)
    requires PagePath(q)
  {
    match Slot(s.mem, s.root, q)
    case None => true
    case Some(e) => if e.writable then e.addr in pages && pages[e.addr] == q else e.addr !in pages
  }

  /** Frames held by the rest of the system. */
  ghost function Others(s: Space, pages: map<nat, Path>): set<nat> {
    s.held - s.tabs.Keys - pages.Keys
  }

  /** t holds the same foreign frames as s, with the same contents. */
  ghost predicate OthersKept(s: Space, pages: map<nat, Path>, t: Space, pages': map<nat, Path>) {
    && Others(t, pages') == Others(s, pages)
    && forall f :: f in Others(s, pages) ==> At(t.mem, f) == At(s.mem, f)
  }

  ghost predicate Unmapped(s: Space, lo: int, hi: int) {
    forall q :: PagePath(q) && lo <= Rank(q) < hi ==> Slot(s.mem, s.root, q) == None
  }

  /** Writable pages mapped where nothing was mapped belong to the space that got them. */
  lemma GrownOwned(s: Space, t: Space, lo: int, hi: int, news: map<nat, Path>, pages: map<nat, Path>)
    requires s.Tree() && Owned(s, pages) && Grown(s, t, lo, hi, true, news) && Unmapped(s, lo, hi)
    ensures Owned(t, pages + news)
    ensures OthersKept(s, pages, t, pages + news)
  {
    hide Reach, Slot, Rank, UserPath, Blank, At, Space.Tree;
    TablesHeld(s);
    forall f | f in pages + news
      ensures f in t.held && f !in t.tabs && OwnPage(t, (pages + news)[f], f)
    {
      if f in news {
      } else {
        assert f in s.held && f !in s.tabs;
      }
    }
    forall q | PagePath(q)
      ensures PageOwner(t, pages + news, q)
    {
      if !(lo <= Rank(q) < hi) {
        GrownOwner(s, t, lo, hi, news, pages, q);
      }
    }
  }

  lemma GrownOwner(s: Space, t: Space, lo: int, hi: int, news: map<nat, Path>, pages: map<nat, Path>, q: Path)
    requires s.Tree() && PagePath(q) && PageOwner(s, pages, q)
    requires Slot(t.mem, t.root, q) == Slot(s.mem, s.root, q) && NewPages(s, t, lo, hi, news)
    ensures PageOwner(t, pages + news, q)
  {
    hide Reach, Slot, Rank, UserPath, Blank, At, Space.Tree;
    if Slot(s.mem, s.root, q).Some? {
      HeldPage(s, q);
      assert Slot(s.mem, s.root, q).value.addr !in news;
    }
  }

  /** CopyOnePage: page c, so far mapped read-only, now sits in frame g, writable, with the
      contents it had; every other page stays where it was. */
  ghost predicate Copied(s: Space, t: Space, c: Path, g: nat) {
    && PagePath(c) && Slot(s.mem, s.root, c).Some?
    && g !in s.held && g < 0x100_0000_0000
    && t.root == s.root && t.tabs == s.tabs && t.held == s.held + {g}
    && LeafWritten(s, t.mem, c, Some(Repoint(Slot(s.mem, s.root, c).value, g)))
    && At(t.mem, g) == At(s.mem, Slot(s.mem, s.root, c).value.addr)
    && forall f :: f in s.held && f !in s.tabs ==> At(t.mem, f) == At(s.mem, f)
  }

  lemma CopyOwned(s: Space, t: Space, c: Path, g: nat, pages: map<nat, Path>)
    requires s.Tree() && Owned(s, pages) && Copied(s, t, c, g) && !Slot(s.mem, s.root, c).value.writable
    ensures t.Tree() && Owned(t, pages[g := c])
    ensures OthersKept(s, pages, t, pages[g := c])
  {
    hide Reach, Slot, UserPath, At, Space.Tree;
    TablesHeld(s);
    var e := Slot(s.mem, s.root, c).value;
    forall q | PagePath(q) && Slot(s.mem, s.root, q).Some?
      ensures Slot(s.mem, s.root, q).value.addr in s.held
    {
      HeldPage(s, q);
    }
    TreeLeafWritten(s, t, c, Some(Repoint(e, g)));
    forall f | f in pages
      ensures f in t.held && f !in t.tabs && OwnPage(t, pages[f], f)
    {
      assert OwnPage(s, pages[f], f);
      assert pages[f] != c;
    }
    forall q | PagePath(q)
      ensures PageOwner(t, pages[g := c], q)
    {
      assert PageOwner(s, pages, q);
      assert g !in pages;
    }
  }

  /** The paths that pass from the table at p through its slots lo .. hi - 1. */
  ghost function Through(p: Path, lo: nat, hi: nat): iset<Path> {
    iset q: Path | p < q && lo <= q[|p|] < hi
  }

  /** t is s without the slots, tables and owned pages at the paths in gone: their frames are
      free again, and nothing else changed. */
  ghost predicate Pruned(s: Space, pages: map<nat, Path>, t: Space, pages': map<nat, Path>, gone: iset<Path>) {
    && t.root == s.root
    && (forall q :: UserPath(q) && q != [] ==> Slot(t.mem, t.root, q) == if q in gone then None else Slot(s.mem, s.root, q))
    && MapPruned(s.tabs, t.tabs, gone) && MapPruned(pages, pages', gone)
    && (forall f :: f in t.held <==> f in s.held && !(f in s.tabs && s.tabs[f] in gone) && !(f in pages && pages[f] in gone))
    && (forall f :: f !in s.tabs ==> At(t.mem, f) == At(s.mem, f))
  }

  ghost predicate MapPruned(m: map<nat, Path>, m': map<nat, Path>, gone: iset<Path>) {
    && (forall f :: f in m' <==> f in m && m[f] !in gone)
    && (forall f :: f in m' ==> m'[f] == m[f])
  }

  lemma PrunedTrans(s: Space, pages: map<nat, Path>, t: Space, pages': map<nat, Path>, u: Space, pages'': map<nat, Path>,
                    gone1: iset<Path>, gone2: iset<Path>)
    requires Pruned(s, pages, t, pages', gone1) && Pruned(t, pages', u, pages'', gone2)
    ensures Pruned(s, pages, u, pages'', gone1 + gone2)
  {
    hide Slot, Reach, UserPath, At;
  }

  lemma ThroughJoin(p: Path, lo: nat, mid: nat, hi: nat)
    requires lo <= mid <= hi
    ensures Through(p, lo, mid) + Through(p, mid, hi) == Through(p, lo, hi)
  {
  }

  lemma ThroughChild(p: Path, i: nat)
    ensures Through(p + [i], 0, 512) + Through(p, i, i + 1) == Through(p, i, i + 1)
  {
  }

  /** Where a path of s still leads after the pruning. */
  lemma PrunedReach(s: Space, pages: map<nat, Path>, t: Space, pages': map<nat, Path>, gone: iset<Path>, q: Path)
    requires Pruned(s, pages, t, pages', gone) && [] !in gone && UserPath(q)
    ensures Reach(t.mem, t.root, q) == if q in gone then None else Reach(s.mem, s.root, q)
  {
    hide Slot, UserPath, At, MapPruned;
  }

  lemma PrunedTree(s: Space, pages: map<nat, Path>, t: Space, pages': map<nat, Path>, gone: iset<Path>)
    requires s.Tree() && Owned(s, pages) && Pruned(s, pages, t, pages', gone) && [] !in gone
    ensures t.Tree()
  {
    hide Slot, Reach, UserPath, At, OwnPage;
    forall q | UserPath(q)
      ensures Reach(t.mem, t.root, q) == if q in gone then None else Reach(s.mem, s.root, q)
    {
      PrunedReach(s, pages, t, pages', gone, q);
    }
    forall q | PagePath(q) && Reach(t.mem, t.root, q).Some?
      ensures Reach(t.mem, t.root, q).value in t.held && Reach(t.mem, t.root, q).value !in t.tabs
    {
      ReachSlot(s.mem, s.root, q);
      assert PageOwner(s, pages, q);
    }
  }

  lemma ReachSlot(mem: Memory, root: nat, q: Path)
    requires q != []
    ensures Reach(mem, root, q) == match Slot(mem, root, q) case None => None case Some(e) => Some(e.addr)
  {
  }

  lemma PrunedOwned(s: Space, pages: map<nat, Path>, t: Space, pages': map<nat, Path>, gone: iset<Path>)
    requires s.Tree() && Owned(s, pages) && Pruned(s, pages, t, pages', gone)
    ensures Owned(t, pages')
    ensures OthersKept(s, pages, t, pages')
  {
    hide Slot, Reach, UserPath, At, Space.Tree;
    forall f | f in pages'
      ensures f in t.held && f !in t.tabs && OwnPage(t, pages'[f], f)
    {
      assert OwnPage(s, pages[f], f);
    }
    forall q | PagePath(q)
      ensures PageOwner(t, pages', q)
    {
      assert PageOwner(s, pages, q);
    }
    TablesHeld(s);
    assert forall f :: f in pages ==> f !in s.tabs;
    assert Others(t, pages') == Others(s, pages);
  }

  /** An absent slot has nothing to prune. */
  lemma PruneAbsent(s: Space, pages: map<nat, Path>, p: Path, i: nat)
    requires s.Tree() && Owned(s, pages) && Slot(s.mem, s.root, p + [i]) == None
    ensures Pruned(s, pages, s, pages, Through(p, i, i + 1))
  {
    hide UserPath, At;
    forall q | q in Through(p, i, i + 1)
      ensures Slot(s.mem, s.root, q) == None
    {
      assert p + [i] <= q;
      BelowAbsent(s.mem, s.root, p + [i], q);
    }
    NothingThere(s, pages, Through(p, i, i + 1));
  }

  /** No table and no owned page sits at an absent path. */
  lemma NothingThere(s: Space, pages: map<nat, Path>, gone: iset<Path>)
    requires s.Tree() && Owned(s, pages) && [] !in gone
    requires forall q :: q in gone && UserPath(q) ==> q != [] && Slot(s.mem, s.root, q) == None
    ensures forall f :: f in s.tabs ==> s.tabs[f] !in gone
    ensures forall f :: f in pages ==> pages[f] !in gone
  {
    hide Slot, UserPath, At;
    forall f | f in s.tabs
      ensures s.tabs[f] !in gone
    {
      assert Reach(s.mem, s.root, s.tabs[f]) == Some(f);
    }
    forall f | f in pages
      ensures pages[f] !in gone
    {
      assert OwnPage(s, pages[f], f);
    }
  }

  /** CleanPageMap's last step on a present slot below which nothing is left: the frame goes back
      if the entry was writable, and the entry is zeroed. */
  ghost function Unlinked(s: Space, f: nat, i: nat): Space
    requires f in s.tabs && i < 512
  {
    var e := At(s.mem, f)[i];
    Space(s.mem[f := At(s.mem, f)[i := EMPTY]], if e.writable then s.held - {e.addr} else s.held, s.root, s.tabs - {e.addr})
  }

  lemma UnlinkSlots(s: Space, f: nat, i: nat, q: Path)
    requires s.Tree() && f in s.tabs && i < 512 && UserPath(s.tabs[f] + [i]) && UserPath(q) && q != []
    ensures Slot(Unlinked(s, f, i).mem, s.root, q) ==
            if q in Through(s.tabs[f], i, i + 1) then None else Slot(s.mem, s.root, q)
  {
    hide Slot, Reach, UserPath, Space.Tree;
    assert q in Through(s.tabs[f], i, i + 1) <==> s.tabs[f] + [i] <= q;
    assert SlotChanged(s.mem, Unlinked(s, f, i).mem, s.tabs, f, i);
    SlotCleared(s, Unlinked(s, f, i).mem, f, i, q);
  }

  lemma SlotCleared(s: Space, mem': Memory, f: nat, i: nat, q: Path)
    requires s.Tree() && f in s.tabs && i < 512 && UserPath(s.tabs[f] + [i]) && UserPath(q) && q != []
    requires SlotChanged(s.mem, mem', s.tabs, f, i) && !At(mem', f)[i].present
    ensures Slot(mem', s.root, q) == if s.tabs[f] + [i] <= q then None else Slot(s.mem, s.root, q)
  {
    hide At, SlotChanged, Reach;
    var c := s.tabs[f] + [i];
    assert TablesIn(s.mem, s.root, s.tabs);
    if c <= q {
      assert Init(c) == s.tabs[f];
      ReachFrame(s.mem, mem', s.root, s.tabs, f, i, s.tabs[f]);
      BelowAbsent(mem', s.root, c, q);
    } else {
      ReachFrame(s.mem, mem', s.root, s.tabs, f, i, q);
    }
  }

  lemma UnlinkTable(s: Space, pages: map<nat, Path>, f: nat, i: nat)
    requires s.Tree() && Owned(s, pages) && f in s.tabs && |s.tabs[f]| <= 2
    requires i < 512 && UserPath(s.tabs[f] + [i]) && At(s.mem, f)[i].present
    requires forall q :: q in Through(s.tabs[f] + [i], 0, 512) && UserPath(q) ==> Slot(s.mem, s.root, q) == None
    ensures var e := At(s.mem, f)[i];
            && e.writable && e.addr in s.held
            && MapPruned(s.tabs, s.tabs - {e.addr}, Through(s.tabs[f], i, i + 1))
            && MapPruned(pages, pages - {e.addr}, Through(s.tabs[f], i, i + 1))
            && forall g :: g == e.addr <==> (g in s.tabs && s.tabs[g] in Through(s.tabs[f], i, i + 1))
                                            || (g in pages && pages[g] in Through(s.tabs[f], i, i + 1))
  {
    hide Slot, Reach, UserPath, At, Space.Tree, OwnPage, PageOwner;
    var c := s.tabs[f] + [i];
    var e := At(s.mem, f)[i];
    ChildTable(s, f, i);
    HeldTable(s, e.addr);
    NothingThere(s, pages, Through(c, 0, 512));
    forall g | g in s.tabs && s.tabs[g] in Through(s.tabs[f], i, i + 1)
      ensures g == e.addr
    {
      HeldTable(s, g);
      ThroughHere(s.tabs[f], i, s.tabs[g]);
      if s.tabs[g] == c {
        SameTable(s, g, e.addr);
      }
    }
    forall g | g in pages
      ensures pages[g] !in Through(s.tabs[f], i, i + 1)
    {
      PageAt(s, pages, g);
      if pages[g] in Through(s.tabs[f], i, i + 1) {
        ThroughHere(s.tabs[f], i, pages[g]);
      }
    }
  }

  lemma PageAt(s: Space, pages: map<nat, Path>, g: nat)
    requires Owned(s, pages) && g in pages
    ensures PagePath(pages[g]) && OwnPage(s, pages[g], g) && g in s.held && g !in s.tabs
  {
    hide Slot, PageOwner;
  }

  lemma SameTable(s: Space, g: nat, h: nat)
    requires s.Tree() && g in s.tabs && h in s.tabs && s.tabs[g] == s.tabs[h]
    ensures g == h
  {
    hide Slot, Reach, UserPath;
    assert Reach(s.mem, s.root, s.tabs[g]) == Some(g);
  }

  /** A user path through slot i is the path of the slot itself or passes through its table. */
  lemma ThroughHere(p: Path, i: nat, q: Path)
    requires UserPath(q) && q in Through(p, i, i + 1)
    ensures p + [i] == q || q in Through(p + [i], 0, 512)
  {
    assert p + [i] <= q;
  }

  lemma UnlinkPage(s: Space, pages: map<nat, Path>, f: nat, i: nat)
    requires s.Tree() && Owned(s, pages) && f in s.tabs && |s.tabs[f]| == 3
    requires i < 512 && UserPath(s.tabs[f] + [i]) && At(s.mem, f)[i].present
    ensures var e := At(s.mem, f)[i];
            && e.addr !in s.tabs && e.addr in s.held && (!e.writable ==> e.addr !in pages)
            && MapPruned(s.tabs, s.tabs - {e.addr}, Through(s.tabs[f], i, i + 1))
            && MapPruned(pages, pages - {e.addr}, Through(s.tabs[f], i, i + 1))
            && forall g :: e.writable && g == e.addr <==> (g in s.tabs && s.tabs[g] in Through(s.tabs[f], i, i + 1))
                                                          || (g in pages && pages[g] in Through(s.tabs[f], i, i + 1))
  {
    hide Slot, Reach, UserPath, At, Space.Tree, Owned;
    var c := s.tabs[f] + [i];
    var e := At(s.mem, f)[i];
    PresentSlot(s, f, i);
    HeldPage(s, c);
    OwnerOf(s, pages, c);
    forall g | g in s.tabs
      ensures s.tabs[g] !in Through(s.tabs[f], i, i + 1)
    {
      HeldTable(s, g);
    }
    forall g | g in pages
      ensures pages[g] in Through(s.tabs[f], i, i + 1) <==> e.writable && g == e.addr
    {
      PageAt(s, pages, g);
      if pages[g] in Through(s.tabs[f], i, i + 1) {
        assert pages[g] == c;
      }
    }
  }

  lemma PresentSlot(s: Space, f: nat, i: nat)
    requires s.Tree() && f in s.tabs && i < 512 && At(s.mem, f)[i].present
    ensures Slot(s.mem, s.root, s.tabs[f] + [i]) == Some(At(s.mem, f)[i])
  {
    assert Init(s.tabs[f] + [i]) == s.tabs[f];
  }

  lemma OwnerOf(s: Space, pages: map<nat, Path>, q: Path)
    requires Owned(s, pages) && PagePath(q)
    ensures PageOwner(s, pages, q)
  {
    hide Slot, OwnPage, UserPath;
  }

  /** Unlinking prunes exactly the paths through the slot. */
  lemma Unlink(s: Space, pages: map<nat, Path>, f: nat, i: nat)
    requires s.Tree() && Owned(s, pages) && f in s.tabs && i < 512 && UserPath(s.tabs[f] + [i]) && At(s.mem, f)[i].present
    requires forall q :: q in Through(s.tabs[f] + [i], 0, 512) && UserPath(q) ==> Slot(s.mem, s.root, q) == None
    ensures At(s.mem, f)[i].addr in s.held
    ensures Pruned(s, pages, Unlinked(s, f, i), pages - {At(s.mem, f)[i].addr}, Through(s.tabs[f], i, i + 1))
  {
    hide Slot, Reach, UserPath, Space.Tree, Owned, Through, MapPruned;
    forall q | UserPath(q) && q != []
      ensures Slot(Unlinked(s, f, i).mem, s.root, q) ==
              if q in Through(s.tabs[f], i, i + 1) then None else Slot(s.mem, s.root, q)
    {
      UnlinkSlots(s, f, i, q);
    }
    HeldTable(s, f);
    if |s.tabs[f]| <= 2 {
      UnlinkTable(s, pages, f, i);
    } else {
      UnlinkPage(s, pages, f, i);
    }
  }

  lemma PruneNone(s: Space, pages: map<nat, Path>, p: Path, i: nat)
    ensures Pruned(s, pages, s, pages, Through(p, i, i))
  {
    hide Slot, Reach, UserPath, At;
  }

  lemma UserSlot(s: Space, f: nat, i: nat)
    requires s.Tree() && f in s.tabs && i < 512 && (s.tabs[f] == [] ==> FIRST_USER_INDEX <= i)
    ensures UserPath(s.tabs[f] + [i])
  {
    hide Slot, Reach;
  }

  /** The entry behind a slot path. */
  lemma SlotEntry(s: Space, f: nat, i: nat)
    requires s.Tree() && f in s.tabs && i < 512
    ensures Slot(s.mem, s.root, s.tabs[f] + [i]) == if At(s.mem, f)[i].present then Some(At(s.mem, f)[i]) else None
  {
    assert Init(s.tabs[f] + [i]) == s.tabs[f];
  }

  /** Pruning the table behind slot i leaves the slot itself. */
  lemma ChildPruned(s: Space, pages: map<nat, Path>, t: Space, pages': map<nat, Path>, f: nat, i: nat)
    requires s.Tree() && f in s.tabs && i < 512 && At(s.mem, f)[i].present && UserPath(s.tabs[f] + [i])
    requires t.Tree() && Pruned(s, pages, t, pages', Through(s.tabs[f] + [i], 0, 512))
    ensures f in t.tabs && t.tabs[f] == s.tabs[f] && At(t.mem, f)[i] == At(s.mem, f)[i]
    ensures forall q :: q in Through(t.tabs[f] + [i], 0, 512) && UserPath(q) ==> Slot(t.mem, t.root, q) == None
  {
    hide Slot, Reach, At, UserPath, Space.Tree;
    SlotEntry(s, f, i);
    assert f in t.tabs && t.tabs[f] == s.tabs[f];
    SlotEntry(t, f, i);
  }

  /** Nothing lies below a page. */
  lemma PruneBelowPage(s: Space, pages: map<nat, Path>, c: Path)
    requires s.Tree() && Owned(s, pages) && PagePath(c)
    ensures Pruned(s, pages, s, pages, Through(c, 0, 512))
    ensures forall q :: q in Through(c, 0, 512) && UserPath(q) ==> Slot(s.mem, s.root, q) == None
  {
    hide Slot, Reach, At;
    NothingThere(s, pages, Through(c, 0, 512));
  }

  /** What cleaning one present slot does, once nothing is left below it. */
  lemma CleanedSlot(s: Space, pages: map<nat, Path>, t: Space, pages1: map<nat, Path>, f: nat, i: nat)
    requires f in s.tabs && f in t.tabs && t.tabs[f] == s.tabs[f] && i < 512 && UserPath(s.tabs[f] + [i])
    requires t.Tree() && Owned(t, pages1) && Pruned(s, pages, t, pages1, Through(s.tabs[f] + [i], 0, 512))
    requires At(t.mem, f)[i].present
    requires forall q :: q in Through(t.tabs[f] + [i], 0, 512) && UserPath(q) ==> Slot(t.mem, t.root, q) == None
    ensures var e := At(t.mem, f)[i];
            var u := Unlinked(t, f, i);
            && e.addr in t.held
            && u.Tree() && Owned(u, pages1 - {e.addr}) && f in u.tabs && u.tabs[f] == t.tabs[f]
            && Pruned(s, pages, u, pages1 - {e.addr}, Through(s.tabs[f], i, i + 1))
  {
    hide Slot, Reach, UserPath, At, Space.Tree, Owned, Pruned, Through;
    var e := At(t.mem, f)[i];
    var u := Unlinked(t, f, i);
    Unlink(t, pages1, f, i);
    RootStays(t.tabs[f], i);
    PrunedTree(t, pages1, u, pages1 - {e.addr}, Through(t.tabs[f], i, i + 1));
    PrunedOwned(t, pages1, u, pages1 - {e.addr}, Through(t.tabs[f], i, i + 1));
    ParentStays(t, pages1, u, pages1 - {e.addr}, f, i);
    PrunedTrans(s, pages, t, pages1, u, pages1 - {e.addr}, Through(t.tabs[f] + [i], 0, 512), Through(t.tabs[f], i, i + 1));
    ThroughChild(t.tabs[f], i);
  }

  lemma RootStays(p: Path, i: nat)
    ensures [] !in Through(p, i, i + 1)
  {
  }

  lemma ParentStays(s: Space, pages: map<nat, Path>, t: Space, pages': map<nat, Path>, f: nat, i: nat)
    requires f in s.tabs && Pruned(s, pages, t, pages', Through(s.tabs[f], i, i + 1))
    ensures f in t.tabs && t.tabs[f] == s.tabs[f]
  {
    hide Slot, At, UserPath;
  }

  /** What SetPageContent does to memory: the last-level slot of page c points to frame g, writable. */
  ghost predicate Repointed(s: Space, mem': Memory, c: Path, g: nat) {
    && PagePath(c) && Slot(s.mem, s.root, c).Some? && g < 0x100_0000_0000
    && LeafWritten(s, mem', c, Some(Repoint(Slot(s.mem, s.root, c).value, g)))
    && forall f :: f !in s.tabs ==> At(mem', f) == At(s.mem, f)
  }

  lemma RepointLeaf(s: Space, mem': Memory, f: nat, c: Path, g: nat)
    requires s.Tree() && PagePath(c) && f in s.tabs && s.tabs[f] == c[..3]
    requires Slot(s.mem, s.root, c).Some? && g < 0x100_0000_0000
    requires mem' == s.mem[f := At(s.mem, f)[c[3] := Repoint(At(s.mem, f)[c[3]], g)]]
    ensures Repointed(s, mem', c, g)
  {
    hide Slot, Reach;
    assert c[..3] + [c[3]] == c;
    SlotEntry(s, f, c[3]);
    assert SlotChanged(s.mem, mem', s.tabs, f, c[3]);
    LeafWrite(s, mem', f, c[3]);
  }

  /** Below a mapped page path every table on the way is there. */
  lemma {:induction false} OnTheWay(mem: Memory, root: nat, q: Path, n: nat)
    requires n < |q| && Slot(mem, root, q).Some?
    ensures Slot(mem, root, q[..n + 1]).Some?
    decreases |q| - n
  {
    if n + 1 == |q| {
      assert q[..n + 1] == q;
    } else {
      OnTheWay(mem, root, q, n + 1);
      SlotInit(mem, root, q[..n + 2]);
      assert Init(q[..n + 2]) == q[..n + 1];
    }
  }

  lemma SlotInit(mem: Memory, root: nat, q: Path)
    requires |q| > 1 && Slot(mem, root, q).Some?
    ensures Slot(mem, root, Init(q)).Some?
  {
  }

  lemma NextTable(s: Space, f: nat, q: Path, n: nat)
    requires s.Tree() && PagePath(q) && Slot(s.mem, s.root, q).Some? && n <= 3
    requires f in s.tabs && s.tabs[f] == q[..n]
    ensures At(s.mem, f)[q[n]].present
    ensures n < 3 ==> At(s.mem, f)[q[n]].addr in s.tabs && s.tabs[At(s.mem, f)[q[n]].addr] == q[..n + 1]
    ensures n == 3 ==> Slot(s.mem, s.root, q) == Some(At(s.mem, f)[q[n]])
  {
    hide Slot, Reach;
    OnTheWay(s.mem, s.root, q, n);
    assert q[..n] + [q[n]] == q[..n + 1];
    SlotEntry(s, f, q[n]);
    if n < 3 {
      ChildTable(s, f, q[n]);
    } else {
      assert q[..4] == q;
    }
  }

  lemma PartOfPath(a: Address, part: nat)
    requires 1 <= part <= 4
    ensures Part(a, part) == PathOf(a)[4 - part]
  {
  }

  lemma RootTable(s: Space)
    requires s.Tree()
    ensures s.root in s.tabs && s.tabs[s.root] == []
  {
    assert Reach(s.mem, s.root, []) == Some(s.root);
  }

  /** Writing a frame outside the tree, just allocated, keeps the tree. */
  lemma NewPageKept(s: Space, mem': Memory, g: nat)
    requires s.Tree() && g !in s.held
    requires forall f :: f != g ==> At(mem', f) == At(s.mem, f)
    ensures Space(mem', s.held + {g}, s.root, s.tabs).Tree()
    ensures forall q :: UserPath(q) && q != [] ==> Slot(mem', s.root, q) == Slot(s.mem, s.root, q)
  {
    hide UserPath, At;
    TablesHeld(s);
    var t := Space(mem', s.held + {g}, s.root, s.tabs);
    forall q | UserPath(q)
      ensures Reach(mem', s.root, q) == Reach(s.mem, s.root, q)
      ensures q != [] ==> Slot(mem', s.root, q) == Slot(s.mem, s.root, q)
    {
      OutsideTree(s, mem', q);
    }
    KeptTree(s, t);
  }

  lemma OutsideTree(s: Space, mem': Memory, q: Path)
    requires s.Tree() && UserPath(q)
    requires forall f :: f in s.tabs ==> At(mem', f) == At(s.mem, f)
    ensures Reach(mem', s.root, q) == Reach(s.mem, s.root, q)
    ensures q != [] ==> Slot(mem', s.root, q) == Slot(s.mem, s.root, q)
  {
    hide Slot, Reach, At;
    assert TablesIn(s.mem, s.root, s.tabs);
    RootTable(s);
    assert SlotChanged(s.mem, mem', s.tabs, s.root, 0);
    ReachFrame(s.mem, mem', s.root, s.tabs, s.root, 0, q);
  }

  lemma KeptTree(s: Space, t: Space)
    requires s.Tree() && t.root == s.root && t.tabs == s.tabs && s.held <= t.held
    requires forall q :: UserPath(q) ==> Reach(t.mem, s.root, q) == Reach(s.mem, s.root, q)
    requires forall q :: UserPath(q) && q != [] ==> Slot(t.mem, s.root, q) == Slot(s.mem, s.root, q)
    ensures t.Tree()
  {
    hide Slot, Reach, UserPath;
  }

  lemma CopiedNow(s: Space, t: Space, u: Space, c: Path, g: nat)
    requires s.Tree() && PagePath(c) && Slot(s.mem, s.root, c).Some? && g !in s.held
    requires t == Space(s.mem[g := At(s.mem, Slot(s.mem, s.root, c).value.addr)], s.held + {g}, s.root, s.tabs)
    requires forall q :: UserPath(q) && q != [] ==> Slot(t.mem, s.root, q) == Slot(s.mem, s.root, q)
    requires u == t.(mem := u.mem) && Repointed(t, u.mem, c, g)
    ensures Copied(s, u, c, g)
  {
    hide Slot, Reach, UserPath;
    TablesHeld(s);
  }

  /** The pages owned anew are among lo .. hi - 1. */
  ghost predicate NewOwnPages(pages: map<nat, Path>, pages': map<nat, Path>, lo: int, hi: int) {
    && (forall f :: f in pages ==> f in pages' && pages'[f] == pages[f])
    && (forall f :: f in pages' && f !in pages ==> PagePath(pages'[f]) && lo <= Rank(pages'[f]) < hi)
  }

  lemma GrownNewOwnPages(s: Space, t: Space, pages: map<nat, Path>, lo: int, hi: int, news: map<nat, Path>)
    requires Grown(s, t, lo, hi, true, news) && forall f :: f in pages ==> f in s.held
    ensures NewOwnPages(pages, pages + news, lo, hi)
  {
    hide Slot, Reach, Rank, Blank, UserPath, At;
  }

  lemma OwnPagesHeld(s: Space, pages: map<nat, Path>)
    requires Owned(s, pages)
    ensures forall f :: f in pages ==> f in s.held
  {
    hide Slot, Reach, UserPath;
  }
}
