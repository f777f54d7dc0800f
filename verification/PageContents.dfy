/** What an application can see of its address space: the contents of each of its pages. */
module PageContents {
  import opened Options
  import opened PageEntry
  import opened PageTree
  import opened PageOwnership
  import opened PageSharing

  ghost function Contents(s: Space, q: Path): Option<Table>
    requires PagePath(q)
  {
    match Slot(s.mem, s.root, q)
    case None => None
    case Some(e) => Some(At(s.mem, e.addr))
  }

  /** The application sees the same pages with the same contents in both spaces. */
  ghost predicate SameContents(s: Space, t: Space) {
    forall q :: PagePath(q) ==> Contents(t, q) == Contents(s, q)
  }

  /** The application sees one more page, full of zeros. */
  ghost predicate PageAdded(s: Space, t: Space, c: Path) {
    && PagePath(c) && Contents(s, c) == None && Contents(t, c) == Some(Blank())
    && forall q :: PagePath(q) && q != c ==> Contents(t, q) == Contents(s, q)
  }

  /** The application sees one page overwritten. */
  ghost predicate PageStored(s: Space, t: Space, c: Path, now: Table) {
    && PagePath(c) && Contents(t, c) == Some(now)
    && forall q :: PagePath(q) && q != c ==> Contents(t, q) == Contents(s, q)
  }

  /** The application sees one word changed. */
  ghost predicate WordStored(s: Space, t: Space, c: Path, i: nat, value: Entry) {
    PagePath(c) && Contents(s, c).Some? && i < 512 && PageStored(s, t, c, Contents(s, c).value[i := value])
  }

  lemma CopySees(s: Space, t: Space, c: Path, g: nat)
    requires s.Tree() && Copied(s, t, c, g)
    ensures SameContents(s, t)
  {
    hide Reach, Slot, UserPath, At, Space.Tree;
    forall q | PagePath(q)
      ensures Contents(t, q) == Contents(s, q)
    {
      if Slot(s.mem, s.root, q).Some? {
        HeldPage(s, q);
      }
    }
  }

  /** Growing a tree never changes a page that was mapped before. */
  lemma GrowSees(s: Space, t: Space, lo: int, hi: int, writable: bool, news: map<nat, Path>, q: Path)
    requires s.Tree() && Grown(s, t, lo, hi, writable, news) && PagePath(q)
    ensures Contents(t, q) ==
            if lo <= Rank(q) < hi && Contents(s, q) == None then Some(Blank()) else Contents(s, q)
  {
    hide Reach, Slot, UserPath, At, Space.Tree, Rank, Blank;
    if Slot(s.mem, s.root, q).Some? {
      HeldPage(s, q);
    }
  }

  /** s with the frame behind page c overwritten. */
  ghost function Overwritten(s: Space, c: Path, now: Table): Space
    requires PagePath(c) && Slot(s.mem, s.root, c).Some?
  {
    s.(mem := s.mem[Slot(s.mem, s.root, c).value.addr := now])
  }

  /** Overwriting a page, whatever its writable bit, changes one frame and no translation. */
  lemma OverwriteKept(s: Space, pages: map<nat, Path>, c: Path, now: Table)
    requires s.Tree() && Owned(s, pages) && PagePath(c) && Slot(s.mem, s.root, c).Some?
    ensures var t := Overwritten(s, c, now);
            && t.Tree() && SlotsKept(s, t) && Owned(t, pages) && Others(t, pages) == Others(s, pages)
            && Slot(s.mem, s.root, c).value.addr in s.held
            && (!Slot(s.mem, s.root, c).value.writable ==> Slot(s.mem, s.root, c).value.addr in Others(s, pages))
            && (Slot(s.mem, s.root, c).value.writable ==> Slot(s.mem, s.root, c).value.addr !in Others(s, pages))
  {
    hide Slot, Reach, UserPath, At, Space.Tree, Owned, SlotsKept;
    var f := Slot(s.mem, s.root, c).value.addr;
    OwnerOf(s, pages, c);
    HeldPage(s, c);
    AtAllElse(s.mem, f, now);
    StoreSlots(s, Overwritten(s, c, now), f);
    StoreTree(s, Overwritten(s, c, now));
    StoreOwned(s, pages, Overwritten(s, c, now));
  }

  /** Overwriting a page of its own, the application sees that page change and nobody else anything. */
  lemma StoreKept(s: Space, pages: map<nat, Path>, c: Path, now: Table)
    requires s.Tree() && Owned(s, pages) && PagePath(c)
    requires Slot(s.mem, s.root, c).Some? && Slot(s.mem, s.root, c).value.writable
    ensures var t := Overwritten(s, c, now);
            t.Tree() && Owned(t, pages) && OthersKept(s, pages, t, pages) && PageStored(s, t, c, now) && ReadOnlyKept(s, t)
  {
    hide Slot, Reach, UserPath, At, Space.Tree, Owned, PageStored, Others, ReadOnlyKept, SlotsKept;
    OverwriteKept(s, pages, c, now);
    AtAllElse(s.mem, Slot(s.mem, s.root, c).value.addr, now);
    StoreSees(s, pages, Overwritten(s, c, now), c, now);
    SlotsReadOnly(s, Overwritten(s, c, now));
  }

  lemma SlotsReadOnly(s: Space, t: Space)
    requires SlotsKept(s, t)
    ensures ReadOnlyKept(s, t)
  {
    hide Slot;
  }

  lemma AtAllElse(mem: Memory, f: nat, t: Table)
    ensures forall g :: g != f ==> At(mem[f := t], g) == At(mem, g)
  {
  }

  ghost predicate SlotsKept(s: Space, t: Space) {
    && t.root == s.root && t.held == s.held && t.tabs == s.tabs
    && forall q :: UserPath(q) && q != [] ==> Slot(t.mem, t.root, q) == Slot(s.mem, s.root, q)
  }

  lemma StoreSlots(s: Space, t: Space, f: nat)
    requires s.Tree() && f !in s.tabs && t == s.(mem := t.mem) && forall g :: g != f ==> At(t.mem, g) == At(s.mem, g)
    ensures SlotsKept(s, t)
  {
    hide Slot, Reach, At, UserPath, Space.Tree;
    forall q | UserPath(q) && q != []
      ensures Slot(t.mem, t.root, q) == Slot(s.mem, s.root, q)
    {
      OutsideTree(s, t.mem, q);
    }
  }

  lemma StoreTree(s: Space, t: Space)
    requires s.Tree() && SlotsKept(s, t)
    ensures t.Tree()
  {
    hide Slot, UserPath;
    forall q | UserPath(q)
      ensures Reach(t.mem, s.root, q) == Reach(s.mem, s.root, q)
    {
    }
  }

  lemma StoreOwned(s: Space, pages: map<nat, Path>, t: Space)
    requires Owned(s, pages) && SlotsKept(s, t)
    ensures Owned(t, pages)
  {
    hide Slot, Reach, UserPath, At;
    forall g | g in pages
      ensures g in t.held && g !in t.tabs && OwnPage(t, pages[g], g)
    {
      assert OwnPage(s, pages[g], g);
    }
    forall q | PagePath(q)
      ensures PageOwner(t, pages, q)
    {
      assert PageOwner(s, pages, q);
    }
  }

  lemma StoreSees(s: Space, pages: map<nat, Path>, t: Space, c: Path, now: Table)
    requires s.Tree() && Owned(s, pages) && SlotsKept(s, t) && PagePath(c)
    requires Slot(s.mem, s.root, c).Some? && Slot(s.mem, s.root, c).value.writable
    requires t.mem == s.mem[Slot(s.mem, s.root, c).value.addr := now]
    ensures PageStored(s, t, c, now)
  {
    hide Slot, Reach, UserPath, Space.Tree;
    OwnerOf(s, pages, c);
    forall q | PagePath(q) && q != c
      ensures Contents(t, q) == Contents(s, q)
    {
      OwnerOf(s, pages, q);
    }
  }

  /** A whole copy shows the pages of its source. */
  lemma ShareSees(s: Space, t: Space, src: Space, these: iset<Path>, q: Path)
    requires Shared(s, t, src, these, true) && src.Tree() && PagePath(q) && q in these
    requires forall f :: f in src.held && f !in src.tabs ==> f in s.held && f !in s.tabs && At(s.mem, f) == At(src.mem, f)
    ensures Contents(t, q) == Contents(src, q)
  {
    hide Slot, Reach, UserPath, At, Space.Tree;
    if Slot(src.mem, src.root, q).Some? {
      HeldPage(src, q);
    }
  }

  /** Pages lo .. hi - 1 became visible, blank and writable where they were absent; all other pages show what
      they showed. */
  ghost predicate Zeroed(s: Space, t: Space, lo: int, hi: int) {
    forall q :: PagePath(q) ==>
      if lo <= Rank(q) < hi && Contents(s, q) == None
      then Contents(t, q) == Some(Blank()) && Slot(t.mem, t.root, q).value.writable
      else Contents(t, q) == Contents(s, q)
  }

  lemma GrowZeroed(s: Space, t: Space, lo: int, hi: int, news: map<nat, Path>)
    requires s.Tree() && Grown(s, t, lo, hi, true, news)
    ensures Zeroed(s, t, lo, hi)
  {
    hide Reach, Slot, UserPath, At, Space.Tree, Rank, Blank;
    forall q | PagePath(q)
      ensures if lo <= Rank(q) < hi && Contents(s, q) == None
              then Contents(t, q) == Some(Blank()) && Slot(t.mem, t.root, q).value.writable
              else Contents(t, q) == Contents(s, q)
    {
      GrowSees(s, t, lo, hi, true, news, q);
    }
  }

  /** Page c was absent and is now present, blank and writable; nothing else changed. */
  ghost predicate PageMapped(s: Space, t: Space, c: Path) {
    PageAdded(s, t, c) && Slot(t.mem, t.root, c).value.writable
  }

  lemma Narrower(s: Space, lo: int, mid: int, hi: int)
    requires Unmapped(s, lo, hi) && mid <= hi
    ensures Unmapped(s, lo, mid)
  {
    hide Slot, Rank, UserPath;
  }

  lemma OnePageUnmapped(s: Space, c: Path)
    requires PagePath(c) && Slot(s.mem, s.root, c) == None
    ensures Unmapped(s, Rank(c), Rank(c) + 1)
  {
    forall q | PagePath(q) && Rank(q) == Rank(c)
      ensures q == c
    {
      RankInjective(q, c);
    }
    hide Slot;
  }

  lemma OthersSelf(s: Space, pages: map<nat, Path>)
    ensures OthersKept(s, pages, s, pages) && SameContents(s, s)
  {
    hide Slot, At, UserPath;
  }

  lemma RoomLeft(a: Address)
    ensures Room(a, 4) >= 1
  {
  }

  lemma ZeroedPage(s: Space, t: Space, c: Path, done: nat)
    requires PagePath(c) && Slot(s.mem, s.root, c) == None && Zeroed(s, t, Rank(c), Rank(c) + done) && done <= 1
    ensures done == 1 ==> PageMapped(s, t, c)
    ensures done == 0 ==> SameContents(s, t)
  {
    forall q | PagePath(q) && Rank(q) == Rank(c)
      ensures q == c
    {
      RankInjective(q, c);
    }
    hide Slot, Blank, At, UserPath;
  }

  /** What t maps read-only s mapped in the same way. */
  ghost predicate ReadOnlyKept(s: Space, t: Space) {
    forall q :: PagePath(q) && Slot(t.mem, t.root, q).Some? && !Slot(t.mem, t.root, q).value.writable ==>
      Slot(t.mem, t.root, q) == Slot(s.mem, s.root, q)
  }

  lemma ReadOnlySelf(s: Space)
    ensures ReadOnlyKept(s, s)
  {
  }

  lemma ReadOnlyTrans(s: Space, t: Space, u: Space)
    requires ReadOnlyKept(s, t) && ReadOnlyKept(t, u)
    ensures ReadOnlyKept(s, u)
  {
    hide Slot, UserPath;
  }

  lemma GrownReadOnly(s: Space, t: Space, lo: int, hi: int, news: map<nat, Path>)
    requires Grown(s, t, lo, hi, true, news)
    ensures ReadOnlyKept(s, t)
  {
    hide Slot, Rank, UserPath;
  }

  lemma CopiedReadOnly(s: Space, t: Space, c: Path, g: nat)
    requires Copied(s, t, c, g)
    ensures ReadOnlyKept(s, t)
  {
    hide Slot, UserPath, At;
  }
}
