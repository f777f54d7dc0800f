/** Counting the frames an address space takes. */
module FrameCounts {
  import opened Options
  import opened PageEntry
  import opened PageTree
  import opened PageOwnership

  /** The free frames of the allocator's range. */
  ghost function FreeFrames(held: set<nat>, begin: nat, end: nat): set<nat> {
    set f: nat | f < end && begin <= f && f !in held
  }

  /** The frame the allocator hands out next, if it lies below end. */
  ghost function LowestFree(held: set<nat>, begin: nat, end: nat): nat
    decreases end - begin
  {
    if begin < end && begin in held then LowestFree(held, begin + 1, end) else begin
  }

  lemma {:induction false} LowestFreeIs(held: set<nat>, begin: nat, end: nat, f: nat)
    requires begin <= f < end && f !in held && forall g: nat :: begin <= g < f ==> g in held
    ensures LowestFree(held, begin, end) == f
    decreases end - begin
  {
    if begin < f {
      LowestFreeIs(held, begin + 1, end, f);
    }
  }

  /** The last frame the allocator hands out before it has none left. */
  ghost function HighestFree(held: set<nat>, begin: nat, end: nat): nat
    decreases end - begin
  {
    if begin >= end then 0 else if end - 1 in held then HighestFree(held, begin, end - 1) else end - 1
  }

  lemma {:induction false} HighestFreeIs(held: set<nat>, begin: nat, end: nat, f: nat)
    requires begin <= f < end && f !in held && forall g: nat :: f < g < end ==> g in held
    ensures HighestFree(held, begin, end) == f
    decreases end - begin
  {
    if f < end - 1 {
      HighestFreeIs(held, begin, end - 1, f);
    }
  }

  lemma {:induction false} LowestFreeFound(held: set<nat>, begin: nat, end: nat)
    requires FreeFrames(held, begin, end) != {}
    ensures LowestFree(held, begin, end) in FreeFrames(held, begin, end)
    ensures forall g: nat :: begin <= g < LowestFree(held, begin, end) ==> g in held
    decreases end - begin
  {
    var f :| f in FreeFrames(held, begin, end);
    if begin in held {
      assert f in FreeFrames(held, begin + 1, end);
      LowestFreeFound(held, begin + 1, end);
    }
  }

  lemma {:induction false} InjectiveCount(m: map<nat, Path>)
    requires forall f, g :: f in m && g in m && m[f] == m[g] ==> f == g
    ensures |m.Values| == |m.Keys|
    decreases |m|
  {
    if m.Keys != {} {
      var f :| f in m;
      var rest := m - {f};
      InjectiveCount(rest);
      assert m.Keys == rest.Keys + {f};
      forall q | q in m.Values
        ensures q in rest.Values + {m[f]}
      {
        var g :| g in m && m[g] == q;
        assert g != f ==> g in rest && rest[g] == q;
      }
      assert m.Values == rest.Values + {m[f]};
      assert m[f] !in rest.Values;
    } else {
      assert m.Values == {};
    }
  }

  lemma TabsCount(t: Space)
    requires t.Tree()
    ensures |t.tabs.Values| == |t.tabs.Keys|
  {
    hide Slot, Reach, Space.Tree;
    forall f, g | f in t.tabs && g in t.tabs && t.tabs[f] == t.tabs[g]
      ensures f == g
    {
      SameTable(t, f, g);
    }
    InjectiveCount(t.tabs);
  }

  lemma PagesCount(t: Space, pages: map<nat, Path>)
    requires Owned(t, pages)
    ensures |pages.Values| == |pages.Keys| && pages.Keys !! t.tabs.Keys && pages.Keys <= t.held
  {
    hide Slot, Reach;
    forall f, g | f in pages && g in pages && pages[f] == pages[g]
      ensures f == g
    {
      assert OwnPage(t, pages[f], f) && OwnPage(t, pages[g], g);
    }
    InjectiveCount(pages);
  }

  /** What an address space took: a frame for each of its tables and each page it owns. */
  lemma TakenCount(t: Space, pages: map<nat, Path>, held: set<nat>)
    requires t.Tree() && Owned(t, pages) && Others(t, pages) == held
    ensures |t.held - held| == |t.tabs.Values| + |pages.Values|
  {
    hide Slot, Reach, Space.Tree, Owned;
    TabsCount(t);
    PagesCount(t, pages);
    TablesHeld(t);
    assert t.held - held == t.tabs.Keys + pages.Keys;
  }

  lemma {:induction false} SubsetCount<T>(a: set<T>, b: set<T>)
    requires a <= b
    ensures |a| <= |b| && (a != b ==> |a| < |b|)
  {
    if a != b {
      var x :| x in b && x !in a;
      SubsetBound(a, b - {x});
    }
  }

  lemma {:induction false} SubsetBound<T>(a: set<T>, b: set<T>)
    requires a <= b
    ensures |a| <= |b|
  {
    if a != {} {
      var x :| x in a;
      SubsetBound(a - {x}, b - {x});
    }
  }

  /** The tables on the way to a page. */
  ghost function TablesTo(c: Path): set<Path>
    requires |c| == 4
  {
    {c[..0], c[..1], c[..2], c[..3]}
  }

  /** How many frames mapping an absent page takes. */
  ghost function Missing(s: Space, c: Path): nat
    requires |c| == 4
  {
    |TablesTo(c) - s.tabs.Values| + 1
  }

  lemma OnTheWayToPage(c: Path, q: Path)
    requires PagePath(c) && OnTheWayTo(q, Rank(c), Rank(c) + 1) && |q| <= 3
    ensures q in TablesTo(c)
  {
    hide Rank, UserPath;
    var d: Path :| PagePath(d) && Rank(c) <= Rank(d) < Rank(c) + 1 && q <= d;
    RankInjective(c, d);
    assert q == c[..|q|];
  }

  lemma TablesToThere(t: Space, c: Path)
    requires t.Tree() && PagePath(c) && Slot(t.mem, t.root, c).Some?
    ensures TablesTo(c) <= t.tabs.Values
  {
    hide Slot, Reach;
    forall n | 0 <= n <= 3
      ensures c[..n] in t.tabs.Values
    {
      ReachOnTheWay(t, c, n);
      assert t.tabs[Reach(t.mem, t.root, c[..n]).value] == c[..n];
    }
  }

  lemma ReachOnTheWay(t: Space, c: Path, n: nat)
    requires PagePath(c) && Slot(t.mem, t.root, c).Some? && n <= 3
    ensures Reach(t.mem, t.root, c[..n]).Some? && UserPath(c[..n])
  {
    if n > 0 {
      OnTheWay(t.mem, t.root, c, n - 1);
    } else {
      assert c[..0] == [];
    }
  }

  /** The tables after a page was mapped, or after that failed half-way. */
  lemma TablesGrownTo(s: Space, t: Space, c: Path)
    requires t.Tree() && PagePath(c) && NewTables(s, t, Rank(c), Rank(c) + 1)
    requires forall f :: f in s.tabs ==> f in t.tabs && t.tabs[f] == s.tabs[f]
    ensures s.tabs.Values <= t.tabs.Values <= s.tabs.Values + TablesTo(c)
  {
    hide Slot, Reach, Rank, Space.Tree, OnTheWayTo;
    forall q | q in s.tabs.Values
      ensures q in t.tabs.Values
    {
      var f :| f in s.tabs && s.tabs[f] == q;
      assert t.tabs[f] == q;
    }
    forall q | q in t.tabs.Values
      ensures q in s.tabs.Values + TablesTo(c)
    {
      var f :| f in t.tabs && t.tabs[f] == q;
      HeldTable(t, f);
      if f in s.tabs {
        assert q in s.tabs.Values;
      } else {
        OnTheWayToPage(c, q);
      }
    }
  }

  /** The pages owned after that. */
  lemma PagesGrownTo(s: Space, pages: map<nat, Path>, t: Space, pages': map<nat, Path>, c: Path, done: nat)
    requires Owned(s, pages) && Owned(t, pages') && PagePath(c) && done <= 1 && Slot(s.mem, s.root, c) == None
    requires NewOwnPages(pages, pages', Rank(c), Rank(c) + done)
    requires done == 1 ==> Slot(t.mem, t.root, c).Some? && Slot(t.mem, t.root, c).value.writable
    ensures c !in pages.Values && pages'.Values == if done == 1 then pages.Values + {c} else pages.Values
  {
    hide Slot, Reach, Rank, UserPath;
    forall f | f in pages
      ensures pages[f] != c
    {
      assert OwnPage(s, pages[f], f);
    }
    forall q | q in pages'.Values
      ensures q in pages.Values || (q == c && done == 1)
    {
      var f :| f in pages' && pages'[f] == q;
      if f in pages {
        assert q in pages.Values;
      } else {
        RankInjective(q, c);
      }
    }
    forall q | q in pages.Values
      ensures q in pages'.Values
    {
      var f :| f in pages && pages[f] == q;
      assert pages'[f] == q;
    }
    if done == 1 {
      assert PageOwner(t, pages', c);
      assert pages'[Slot(t.mem, t.root, c).value.addr] == c;
    }
  }

  /** Mapping an absent page of its own takes an address space exactly the frames that are missing: it
      succeeds exactly when there are so many. */
  lemma PageTaken(s: Space, pages: map<nat, Path>, t: Space, pages': map<nat, Path>, c: Path, done: nat, begin: nat, end: nat)
    requires s.Tree() && t.Tree() && Owned(s, pages) && Owned(t, pages') && Others(t, pages') == Others(s, pages)
    requires PagePath(c) && done <= 1 && Slot(s.mem, s.root, c) == None
    requires NewTables(s, t, Rank(c), Rank(c) + 1) && NewOwnPages(pages, pages', Rank(c), Rank(c) + done)
    requires forall f :: f in s.tabs ==> f in t.tabs && t.tabs[f] == s.tabs[f]
    requires done == 1 ==> Slot(t.mem, t.root, c).Some? && Slot(t.mem, t.root, c).value.writable
    requires Within(s.held, t.held, begin, end)
    requires done == 0 ==> forall f: nat :: begin <= f < end ==> f in t.held
    ensures done == 1 <==> |FreeFrames(s.held, begin, end)| >= Missing(s, c)
  {
    hide Slot, Reach, Rank, Space.Tree, Owned, Others, NewTables, UserPath, TablesTo, FreeFrames, Missing, NewOwnPages;
    var held := Others(s, pages);
    TakenCount(s, pages, held);
    TakenCount(t, pages', held);
    TablesGrownTo(s, t, c);
    PagesGrownTo(s, pages, t, pages', c, done);
    OwnPagesKept(pages, pages', Rank(c), Rank(c) + done);
    HeldGrown(s, pages, t, pages', held);
    TakenBetween(s, t, held, begin, end);
    if done == 1 {
      TablesToThere(t, c);
    }
    TablesCounted(s, t, c);
    assert c !in pages.Values && |pages.Values + {c}| == |pages.Values| + 1;
  }

  lemma TablesCounted(s: Space, t: Space, c: Path)
    requires |c| == 4 && s.tabs.Values <= t.tabs.Values <= s.tabs.Values + TablesTo(c)
    ensures |t.tabs.Values| < |s.tabs.Values| + Missing(s, c)
    ensures TablesTo(c) <= t.tabs.Values ==> |t.tabs.Values| + 1 == |s.tabs.Values| + Missing(s, c)
  {
    hide TablesTo;
    var more := TablesTo(c) - s.tabs.Values;
    SubsetCount(t.tabs.Values, s.tabs.Values + more);
    assert |s.tabs.Values + more| == |s.tabs.Values| + |more|;
    if TablesTo(c) <= t.tabs.Values {
      assert t.tabs.Values == s.tabs.Values + more;
    }
  }

  lemma OwnPagesKept(pages: map<nat, Path>, pages': map<nat, Path>, lo: int, hi: int)
    requires NewOwnPages(pages, pages', lo, hi)
    ensures forall f :: f in pages ==> f in pages'
  {
  }

  lemma HeldGrown(s: Space, pages: map<nat, Path>, t: Space, pages': map<nat, Path>, held: set<nat>)
    requires s.Tree() && t.Tree() && Owned(s, pages) && Owned(t, pages') && Others(s, pages) == held && Others(t, pages') == held
    requires forall f :: f in s.tabs ==> f in t.tabs
    requires forall f :: f in pages ==> f in pages'
    ensures held <= s.held <= t.held
  {
    hide Slot, Reach, Space.Tree;
    TablesHeld(t);
    forall f | f in s.held
      ensures f in t.held
    {
      if f !in s.tabs && f !in pages {
        assert f in held;
      }
    }
  }

  lemma TakenBetween(s: Space, t: Space, held: set<nat>, begin: nat, end: nat)
    requires held <= s.held <= t.held && Within(s.held, t.held, begin, end)
    ensures |t.held - s.held| == |t.held - held| - |s.held - held|
    ensures |t.held - s.held| <= |FreeFrames(s.held, begin, end)|
    ensures (forall f: nat :: begin <= f < end ==> f in t.held) ==> |t.held - s.held| == |FreeFrames(s.held, begin, end)|
  {
    assert t.held - held == (t.held - s.held) + (s.held - held);
    SubsetCount(t.held - s.held, FreeFrames(s.held, begin, end));
    if forall f: nat :: begin <= f < end ==> f in t.held {
      assert t.held - s.held == FreeFrames(s.held, begin, end);
    }
  }
}
