/** kernel/system.cpp: the life of an application's address space, from its second page-map root to
    the return of its last frame. */
module System {
  import opened Options
  import opened PageEntry
  import opened PageTree
  import opened PageOwnership
  import opened PageSharing
  import opened PageContents
  import opened MemoryManager
  import opened KernelHalf
  import opened Paging
  import opened Actions
  import opened FrameCounts
  import opened AppFrames

  /** How far a launch gets, from the second root on. */
  datatype Outcome = NoRoot | Abandoned | Refused | Launched

  /** The tree of a root whose upper half is blank. */
  lemma FreshRoot(mem: Memory, held: set<nat>, root: nat)
    requires root in held
    requires forall i :: FIRST_USER_INDEX <= i < 512 ==> At(mem, root)[i] == EMPTY
    ensures var s := Space(mem, held, root, map[root := []]);
            s.Tree() && Owned(s, map[]) && AbsentThrough(s, Through([], FIRST_USER_INDEX, 512))
  {
    var s := Space(mem, held, root, map[root := []]);
    forall q | UserPath(q) && q != []
      ensures Slot(mem, root, q) == None
    {
      NothingMapped(mem, root, q);
    }
  }

  lemma {:induction false} NothingMapped(mem: Memory, root: nat, q: Path)
    requires UserPath(q) && q != []
    requires forall i :: FIRST_USER_INDEX <= i < 512 ==> At(mem, root)[i] == EMPTY
    ensures Slot(mem, root, q) == None
    decreases |q|
  {
    if |q| > 1 {
      NothingMapped(mem, root, Init(q));
    }
  }

  /** A new root: the kernel's half of the current one, and a blank application half. */
  method SetupPML4(m: Machine) returns (ok: bool, ghost tabs: map<nat, Path>)
    requires m.mm.Valid() && m.cr3 in m.mm.held
    modifies m`mem, m`cr3, m.mm`held, m.mm.allocMap
    ensures m.mm.Valid()
    ensures !ok ==> m.mem == old(m.mem) && m.cr3 == old(m.cr3) && m.mm.held == old(m.mm.held) && m.Exhausted()
    ensures ok ==>
              && m.cr3 !in old(m.mm.held) && m.mm.held == old(m.mm.held) + {m.cr3} && tabs == map[m.cr3 := []]
              && (forall f :: f in old(m.mm.held) ==> At(m.mem, f) == At(old(m.mem), f))
              && Lower(m.mem, m.cr3) == old(Lower(m.mem, m.cr3))
              && m.View(m.cr3, tabs).Tree() && Owned(m.View(m.cr3, tabs), map[])
              && AbsentThrough(m.View(m.cr3, tabs), Through([], FIRST_USER_INDEX, 512))
    ensures Within(old(m.mm.held), m.mm.held, m.mm.rangeBegin, m.mm.rangeEnd)
  {
    hide Slot, Reach, UserPath, Space.Tree, Owned, AbsentThrough, Through, Within, BitmapMemoryManager.Valid, Machine.Exhausted;
    tabs := map[];
    var pml4 := m.NewPageMap();
    ok := pml4.Allocated?;
    if ok {
      var current := At(m.mem, m.cr3);
      m.mem := m.mem[pml4.frame := current[..FIRST_USER_INDEX] + At(m.mem, pml4.frame)[FIRST_USER_INDEX..]];
      assert At(m.mem, pml4.frame)[..FIRST_USER_INDEX] == current[..FIRST_USER_INDEX];
      m.cr3 := pml4.frame;
      tabs := map[m.cr3 := []];
      FreshRoot(m.mem, m.mm.held, m.cr3);
    }
  }

  /** Gives the root itself back and returns to the kernel's page table. */
  method FreePML4(m: Machine, kernelRoot: nat)
    requires m.mm.Valid() && m.cr3 in m.mm.held
    modifies m`cr3, m`strayFrees, m.mm`held, m.mm.allocMap
    ensures m.mm.Valid() && m.cr3 == kernelRoot
    ensures m.mm.held == old(m.mm.held) - {old(m.cr3)} && m.strayFrees == old(m.strayFrees)
  {
    hide BitmapMemoryManager.Valid;
    var frame := m.cr3;
    m.cr3 := kernelRoot;
    m.mm.HeldBound(frame);
    m.FreeFrame(frame);
  }

  lemma OthersTrans(s: Space, pages: map<nat, Path>, t: Space, pages': map<nat, Path>, u: Space, pages'': map<nat, Path>)
    requires OthersKept(s, pages, t, pages') && OthersKept(t, pages', u, pages'')
    ensures OthersKept(s, pages, u, pages'')
  {
    hide Others, At;
  }

  /** The application's pages before its first instruction: those of the image, what MakeArgVector made of
      the argument page, and blank stack pages. */
  ghost predicate Loaded(image: Space, t: Space, args: Table) {
    forall q :: PagePath(q) ==>
      Contents(t, q) == if Rank(q) == PageNumber(ARGS_ADDRESS) then Some(args) else if InStack(q) then Some(Blank()) else Contents(image, q)
  }

  ghost predicate InStack(q: Path)
    requires PagePath(q)
  {
    PageNumber(STACK_ADDRESS) <= Rank(q) < PageNumber(STACK_ADDRESS) + STACK_PAGES
  }

  ghost predicate RoomForStack(image: Space) {
    && Unmapped(image, PageNumber(STACK_ADDRESS), PageNumber(STACK_ADDRESS) + STACK_PAGES)
    && Unmapped(image, PageNumber(ARGS_ADDRESS), PageNumber(ARGS_ADDRESS) + 1)
  }

  /** The second half of LoadApp: a root of its own and a read-only copy of the image tree. */
  method LoadImage(m: Machine, image: nat, ghost imageTabs: map<nat, Path>)
    returns (outcome: Outcome, ghost tabs: map<nat, Path>)
    requires m.mm.Valid() && m.View(image, imageTabs).Tree() && m.cr3 == image
    requires RoomForStack(m.View(image, imageTabs))
    modifies m`mem, m`cr3, m.mm`held, m.mm.allocMap
    ensures m.mm.Valid()
    ensures outcome.NoRoot? ==> m.mm.held == old(m.mm.held) && m.mem == old(m.mem) && m.cr3 == image
    ensures !outcome.NoRoot? ==>
              && m.View(m.cr3, tabs).Tree() && Owned(m.View(m.cr3, tabs), map[]) && m.cr3 !in old(m.mm.held)
              && Others(m.View(m.cr3, tabs), map[]) == old(m.mm.held)
              && tabs.Values <= imageTabs.Values
              && Lower(m.mem, m.cr3) == old(Lower(m.mem, image))
    ensures forall f :: f in old(m.mm.held) ==> At(m.mem, f) == At(old(m.mem), f)
    ensures outcome.Launched? ==>
              && SameContents(old(m.View(image, imageTabs)), m.View(m.cr3, tabs)) && tabs.Values == imageTabs.Values
              && Unmapped(m.View(m.cr3, tabs), PageNumber(ARGS_ADDRESS), PageNumber(ARGS_ADDRESS) + 1)
              && ReadOnlyFrom(old(m.View(image, imageTabs)), m.View(m.cr3, tabs))
    ensures !outcome.Launched? ==> m.Exhausted() && outcome != Refused
    ensures Within(old(m.mm.held), m.mm.held, m.mm.rangeBegin, m.mm.rangeEnd)
  {
    hide Lower, ReadOnlyFrom, Slot, Reach, UserPath, Space.Tree, Owned, Others, OthersKept, Apart, Shared, At, Through, AbsentThrough, Unmapped, RoomForStack, PageNumber,
      SameContents, Within, BitmapMemoryManager.Valid, Machine.Exhausted;
    ghost var src := m.View(image, imageTabs);
    RootTable(src);
    HeldTable(src, image);
    tabs := map[];
    var ok;
    ok, tabs := SetupPML4(m);
    if !ok {
      return NoRoot, tabs;
    }
    ghost var s1 := m.View(m.cr3, tabs);
    ApartAtFirst(src, s1);
    OthersAtFirst(src.held, s1);
    ok, tabs := m.CopyPageMaps(m.cr3, image, 4, FIRST_USER_INDEX, m.cr3, tabs, src);
    ghost var s2 := m.View(m.cr3, tabs);
    CopiedTree(src, s1, s2, ok);
    CopiedPaths(src, s1, s2, ok);
    CopiedFrom(src, s1, s2, ok);
    WithinTrans(src.held, s1.held, s2.held, m.mm.rangeBegin, m.mm.rangeEnd);
    OthersChain(src, s1, s2, map[]);
    outcome := if ok then Launched else Abandoned;
  }

  lemma CopiedFrom(src: Space, s: Space, t: Space, whole: bool)
    requires Shared(s, t, src, Through([], FIRST_USER_INDEX, 512), whole)
    ensures ReadOnlyFrom(src, t)
  {
    hide Slot, Reach, At, Through, SharedTables, FramesGrown;
    forall q | PagePath(q)
      ensures q in Through([], FIRST_USER_INDEX, 512)
    {
      InAppHalf(q);
    }
  }

  /** LoadApp's copy of the image and the set-up in ExecuteApp: an argument page, filled by MakeArgVector
      unless the arguments do not fit, and a stack. */
  method LaunchApp(m: Machine, image: nat, elfNextPage: nat, args: Option<Table>, ghost imageTabs: map<nat, Path>)
    returns (outcome: Outcome, ghost tabs: map<nat, Path>, ghost pages: map<nat, Path>)
    requires m.mm.Valid() && m.View(image, imageTabs).Tree() && m.cr3 == image
    requires RoomForStack(m.View(image, imageTabs))
    modifies m`mem, m`cr3, m`dpagingBegin, m`dpagingEnd, m.mm`held, m.mm.allocMap
    ensures m.mm.Valid()
    ensures outcome.NoRoot? ==> m.mm.held == old(m.mm.held) && m.mem == old(m.mem) && m.cr3 == image
    ensures !outcome.NoRoot? ==>
              && m.View(m.cr3, tabs).Tree() && Owned(m.View(m.cr3, tabs), pages) && m.cr3 !in old(m.mm.held)
              && Others(m.View(m.cr3, tabs), pages) == old(m.mm.held)
              && Lower(m.mem, m.cr3) == old(Lower(m.mem, image))
    ensures forall f :: f in old(m.mm.held) ==> At(m.mem, f) == At(old(m.mem), f)
    ensures outcome.Launched? ==>
              && args.Some? && Loaded(old(m.View(image, imageTabs)), m.View(m.cr3, tabs), args.value)
              && ReadOnlyFrom(old(m.View(image, imageTabs)), m.View(m.cr3, tabs))
              && m.dpagingBegin == m.dpagingEnd == elfNextPage
    ensures outcome.Refused? ==> args == None
    ensures outcome.NoRoot? || outcome.Abandoned? ==> m.Exhausted()
    ensures Within(old(m.mm.held), m.mm.held, m.mm.rangeBegin, m.mm.rangeEnd)
    ensures outcome.Abandoned? ==> Partial(old(m.View(image, imageTabs)), tabs, pages, args.Some?)
    ensures outcome.Refused? || outcome.Launched? ==>
              tabs.Values == TablePaths(old(m.View(image, imageTabs))) && pages.Values == OwnPaths(args.Some?)
  {
    hide Lower, Slot, Reach, UserPath, Space.Tree, Owned, Others, OthersKept, At, Unmapped, Zeroed, Loaded, RoomForStack, PageNumber, ReadOnlyFrom,
      ReadOnlyKept, ArgsReady, PageStored, SameContents, Within, NewTables, NewOwnPages, Partial, StackPaths, OwnPaths, StackTables,
      BitmapMemoryManager.Valid, Machine.Exhausted;
    ghost var src := m.View(image, imageTabs);
    pages := map[];
    outcome, tabs := LoadImage(m, image, imageTabs);
    ghost var s2 := m.View(m.cr3, tabs);
    if outcome != Launched {
      if outcome == Abandoned {
        NothingOwned(src, tabs, args.Some?);
      }
      return;
    }
    var ok;
    ghost var done;
    ok, tabs, pages, done := m.SetupOwnPages(ARGS_ADDRESS, 1, tabs, pages);
    ghost var s3 := m.View(m.cr3, tabs);
    WithinTrans(src.held, s2.held, s3.held, m.mm.rangeBegin, m.mm.rangeEnd);
    ArgsPaths(src, s2, s3, pages, done);
    if !ok {
      OthersChain(src, s2, s3, pages);
      NothingOwnedYet(src, tabs, pages, args.Some?);
      return Abandoned, tabs, pages;
    }
    AppAddresses();
    if args == None {
      OthersChain(src, s2, s3, pages);
      return Refused, tabs, pages;
    }
    ghost var pages3 := pages;
    ArgsThere(s2, s3);
    var frame := Slot(m.mem, m.cr3, PathOf(ARGS_ADDRESS)).value.addr;
    StoreKept(s3, pages, PathOf(ARGS_ADDRESS), args.value);
    m.mem := m.mem[frame := args.value];
    ghost var s3' := m.View(m.cr3, tabs);
    assert s3' == Overwritten(s3, PathOf(ARGS_ADDRESS), args.value);
    PageNotRoot(s3, PathOf(ARGS_ADDRESS), args.value);
    ArgsFilled(s2, s3, s3', args.value);
    StackStillUnmapped(src, s2, s3', args.value);
    OthersTrans(s2, map[], s3, pages3, s3', pages3);
    ok, tabs, pages, done := m.SetupOwnPages(STACK_ADDRESS, STACK_PAGES, tabs, pages);
    ghost var s4 := m.View(m.cr3, tabs);
    OthersTrans(s2, map[], s3', pages3, s4, pages);
    OthersChain(src, s2, s4, pages);
    WithinTrans(src.held, s3.held, s4.held, m.mm.rangeBegin, m.mm.rangeEnd);
    StackPathsThere(src, s2, s3', s4, pages3, pages, done);
    if !ok {
      return Abandoned, tabs, pages;
    }
    m.dpagingBegin := elfNextPage;
    m.dpagingEnd := elfNextPage;
    StackMapped(src, s2, s3', s4, args.value);
    ReadOnlyFromKept(src, s2, s3);
    ReadOnlyFromKept(src, s3, s3');
    ReadOnlyFromKept(src, s3', s4);
  }

  lemma ArgsThere(s: Space, t: Space)
    requires Unmapped(s, PageNumber(ARGS_ADDRESS), PageNumber(ARGS_ADDRESS) + 1)
    requires Zeroed(s, t, PageNumber(ARGS_ADDRESS), PageNumber(ARGS_ADDRESS) + 1)
    ensures var c := PathOf(ARGS_ADDRESS);
            PagePath(c) && Slot(t.mem, t.root, c).Some? && Slot(t.mem, t.root, c).value.writable
  {
    hide Slot, Reach, Blank, At;
    assert Contents(s, PathOf(ARGS_ADDRESS)) == None;
    assert Contents(t, PathOf(ARGS_ADDRESS)).Some?;
  }

  /** The argument page is there and filled. */
  ghost predicate ArgsReady(s: Space, t: Space, args: Table) {
    forall q :: PagePath(q) ==> Contents(t, q) == if Rank(q) == PageNumber(ARGS_ADDRESS) then Some(args) else Contents(s, q)
  }

  lemma ArgsFilled(s: Space, t: Space, u: Space, args: Table)
    requires Zeroed(s, t, PageNumber(ARGS_ADDRESS), PageNumber(ARGS_ADDRESS) + 1) && PageStored(t, u, PathOf(ARGS_ADDRESS), args)
    ensures ArgsReady(s, u, args)
  {
    var c := PathOf(ARGS_ADDRESS);
    forall q | PagePath(q) && Rank(q) == PageNumber(ARGS_ADDRESS)
      ensures q == c
    {
      RankInjective(q, c);
    }
    hide Slot, Reach, Blank, At, UserPath, Contents;
  }

  /** A launch on its way: tables and pages only where they belong, and a page still missing. */
  ghost predicate Partial(image: Space, tabs: map<nat, Path>, pages: map<nat, Path>, fits: bool) {
    tabs.Values <= TablePaths(image) && pages.Values <= OwnPaths(fits) && pages.Values != OwnPaths(fits)
  }

  /** The copy has tables at paths of the image's tables, and once it is whole at all of them. */
  lemma CopiedPaths(src: Space, s: Space, t: Space, whole: bool)
    requires src.Tree() && s.tabs == map[s.root := []]
    requires Shared(s, t, src, Through([], FIRST_USER_INDEX, 512), whole)
    ensures t.tabs.Values <= src.tabs.Values && (whole ==> t.tabs.Values == src.tabs.Values)
    ensures forall f :: f in s.tabs ==> f in t.tabs && t.tabs[f] == s.tabs[f]
  {
    hide Slot, Reach, At, Space.Tree;
    RootTable(src);
    assert src.tabs[src.root] in src.tabs.Values;
    forall q | q in t.tabs.Values
      ensures q in src.tabs.Values
    {
      var f :| f in t.tabs && t.tabs[f] == q;
    }
    if whole {
      forall q | q in src.tabs.Values
        ensures q in t.tabs.Values
      {
        var g :| g in src.tabs && src.tabs[g] == q;
        HeldTable(src, g);
        if q == [] {
          assert t.tabs[s.root] == [];
        }
      }
    }
  }

  lemma NothingOwned(image: Space, tabs: map<nat, Path>, fits: bool)
    requires tabs.Values <= image.tabs.Values
    ensures Partial(image, tabs, map[], fits)
  {
    hide StackTables;
    var none: map<nat, Path> := map[];
    assert none.Values == {};
    NothingOwnedYet(image, tabs, none, fits);
  }

  lemma NothingOwnedYet(image: Space, tabs: map<nat, Path>, pages: map<nat, Path>, fits: bool)
    requires tabs.Values <= TablePaths(image) && pages.Values == {}
    ensures Partial(image, tabs, pages, fits)
  {
    hide TablePaths;
    assert ARGS_PATH in StackPaths() && ARGS_PATH in OwnPaths(fits);
  }

  /** New tables on the way to stack or argument pages are where they belong. */
  lemma NewTablePaths(image: Space, s: Space, t: Space, lo: int, hi: int)
    requires NewTables(s, t, lo, hi) && PageNumber(STACK_ADDRESS) <= lo && hi <= PageNumber(STACK_ADDRESS) + STACK_PAGES + 1
    requires t.Tree() && s.tabs.Values <= TablePaths(image) && forall f :: f in s.tabs ==> f in t.tabs && t.tabs[f] == s.tabs[f]
    ensures t.tabs.Values <= TablePaths(image) && s.tabs.Values <= t.tabs.Values
  {
    hide Slot, Reach, PageNumber, Rank, StackTables, Space.Tree;
    forall q | q in t.tabs.Values
      ensures q in TablePaths(image)
    {
      var f :| f in t.tabs && t.tabs[f] == q;
      HeldTable(t, f);
      if f in s.tabs {
        assert q in s.tabs.Values;
      } else {
        var c: Path :| PagePath(c) && lo <= Rank(c) < hi && q <= c;
        OnTheWayToStack(q);
      }
    }
    forall q | q in s.tabs.Values
      ensures q in t.tabs.Values
    {
      var f :| f in s.tabs && s.tabs[f] == q;
      assert t.tabs[f] == q;
    }
  }

  /** After the argument page. */
  lemma ArgsPaths(image: Space, s: Space, t: Space, pages: map<nat, Path>, done: nat)
    requires t.Tree() && s.tabs.Values == image.tabs.Values && done <= 1
    requires NewTables(s, t, PageNumber(ARGS_ADDRESS), PageNumber(ARGS_ADDRESS) + 1)
    requires NewOwnPages(map[], pages, PageNumber(ARGS_ADDRESS), PageNumber(ARGS_ADDRESS) + done) && Owned(t, pages)
    requires forall f :: f in s.tabs ==> f in t.tabs && t.tabs[f] == s.tabs[f]
    requires Unmapped(s, PageNumber(ARGS_ADDRESS), PageNumber(ARGS_ADDRESS) + 1)
    requires Zeroed(s, t, PageNumber(ARGS_ADDRESS), PageNumber(ARGS_ADDRESS) + done)
    ensures t.tabs.Values <= TablePaths(image) && s.tabs.Values <= t.tabs.Values
    ensures done == 0 ==> pages.Values == {}
    ensures done == 1 ==> t.tabs.Values == TablePaths(image) && pages.Values == OwnPaths(false)
  {
    hide Slot, Reach, Rank, Space.Tree, Owned, Zeroed, Unmapped, NewTables, StackTables;
    AppAddresses();
    NewTablePaths(image, s, t, PageNumber(ARGS_ADDRESS), PageNumber(ARGS_ADDRESS) + 1);
    forall q | q in pages.Values
      ensures q == ARGS_PATH && done == 1
    {
      var f :| f in pages && pages[f] == q;
      assert PagePath(q) && PageNumber(ARGS_ADDRESS) <= Rank(q) < PageNumber(ARGS_ADDRESS) + done;
      InLastPages(q);
    }
    if done == 1 {
      ArgsPageOwned(s, t, pages);
      StackTablesThere(t, pages);
    }
  }

  lemma ArgsPageOwned(s: Space, t: Space, pages: map<nat, Path>)
    requires Owned(t, pages) && Unmapped(s, PageNumber(ARGS_ADDRESS), PageNumber(ARGS_ADDRESS) + 1)
    requires Zeroed(s, t, PageNumber(ARGS_ADDRESS), PageNumber(ARGS_ADDRESS) + 1)
    ensures ARGS_PATH in pages.Values
  {
    hide Slot, Reach, Blank, At;
    var q := ARGS_PATH;
    assert PagePath(q) && Rank(q) == PageNumber(ARGS_ADDRESS);
    assert Contents(s, q) == None;
    assert Contents(t, q).Some? && Slot(t.mem, t.root, q).value.writable;
    assert PageOwner(t, pages, q);
    assert pages[Slot(t.mem, t.root, q).value.addr] == q;
  }

  /** After the stack pages, whether or not all of them could be had. */
  lemma StackPathsThere(image: Space, s2: Space, s3: Space, s4: Space, pages3: map<nat, Path>, pages: map<nat, Path>, done: nat)
    requires s4.Tree() && Owned(s4, pages) && s3.tabs.Values <= TablePaths(image) && done <= STACK_PAGES
    requires s2.tabs.Values == image.tabs.Values && s2.tabs.Values <= s3.tabs.Values
    requires NewTables(s3, s4, PageNumber(STACK_ADDRESS), PageNumber(STACK_ADDRESS) + STACK_PAGES)
    requires NewOwnPages(pages3, pages, PageNumber(STACK_ADDRESS), PageNumber(STACK_ADDRESS) + done)
    requires forall f :: f in s3.tabs ==> f in s4.tabs && s4.tabs[f] == s3.tabs[f]
    requires pages3.Values == OwnPaths(false)
    requires Unmapped(s3, PageNumber(STACK_ADDRESS), PageNumber(STACK_ADDRESS) + STACK_PAGES)
    requires Zeroed(s3, s4, PageNumber(STACK_ADDRESS), PageNumber(STACK_ADDRESS) + done)
    ensures done < STACK_PAGES ==> Partial(image, s4.tabs, pages, true)
    ensures done == STACK_PAGES ==> s4.tabs.Values == TablePaths(image) && pages.Values == OwnPaths(true)
  {
    hide Slot, Reach, Space.Tree, Owned, Zeroed, Unmapped, NewTables, NewOwnPages, PageNumber;
    AppAddresses();
    NewTablePaths(image, s3, s4, PageNumber(STACK_ADDRESS), PageNumber(STACK_ADDRESS) + STACK_PAGES);
    StackPagesOwned(s3, s4, pages3, pages, done);
    StackTablesThere(s4, pages);
  }

  /** The pages owned after the stack was set up as far as done. */
  lemma StackPagesOwned(s: Space, t: Space, pages3: map<nat, Path>, pages: map<nat, Path>, done: nat)
    requires Owned(t, pages) && done <= STACK_PAGES
    requires NewOwnPages(pages3, pages, PageNumber(STACK_ADDRESS), PageNumber(STACK_ADDRESS) + done)
    requires pages3.Values == OwnPaths(false)
    requires Unmapped(s, PageNumber(STACK_ADDRESS), PageNumber(STACK_ADDRESS) + STACK_PAGES)
    requires Zeroed(s, t, PageNumber(STACK_ADDRESS), PageNumber(STACK_ADDRESS) + done)
    ensures pages.Values <= StackPaths() && ARGS_PATH in pages.Values
    ensures (pages.Values == StackPaths()) == (done == STACK_PAGES)
  {
    hide Slot, Reach, Blank, At;
    var last := ARGS_PATH;
    var l :| l in pages3 && pages3[l] == last;
    assert pages[l] == last;
    forall q | q in pages.Values
      ensures q in StackPaths() && (q == last || q[3] < 495 + done)
    {
      var f :| f in pages && pages[f] == q;
      if f in pages3 {
        assert q in pages3.Values;
      } else {
        InLastPages(q);
      }
    }
    if done < STACK_PAGES {
      var missing: Path := [511, 511, 511, 495 + done];
      assert missing in StackPaths() && missing[3] == 495 + done && missing != last;
    } else {
      forall q | q in StackPaths()
        ensures q in pages.Values
      {
        var i: nat :| 495 <= i < 512 && q == [511, 511, 511, i];
        if i < 511 {
          StackPageOwned(s, t, pages, q, i);
        }
      }
    }
  }

  lemma StackPageOwned(s: Space, t: Space, pages: map<nat, Path>, q: Path, i: nat)
    requires Owned(t, pages) && 495 <= i < 511 && q == [511, 511, 511, i]
    requires Unmapped(s, PageNumber(STACK_ADDRESS), PageNumber(STACK_ADDRESS) + STACK_PAGES)
    requires Zeroed(s, t, PageNumber(STACK_ADDRESS), PageNumber(STACK_ADDRESS) + STACK_PAGES)
    ensures q in pages.Values
  {
    hide Slot, Reach, Blank, At;
    assert PagePath(q) && Rank(q) == PageNumber(STACK_ADDRESS) + i - 495;
    assert Contents(s, q) == None;
    assert Contents(t, q).Some? && Slot(t.mem, t.root, q).value.writable;
    assert PageOwner(t, pages, q);
    assert pages[Slot(t.mem, t.root, q).value.addr] == q;
  }

  /** Above a mapped stack page there is every table on the way. */
  lemma StackTablesThere(t: Space, pages: map<nat, Path>)
    requires t.Tree() && Owned(t, pages) && ARGS_PATH in pages.Values
    ensures StackTables() <= t.tabs.Values
  {
    hide Slot, Reach;
    var c := ARGS_PATH;
    var f :| f in pages && pages[f] == c;
    assert OwnPage(t, c, f);
    forall q | q in StackTables()
      ensures q in t.tabs.Values
    {
      assert q == c[..|q|] && UserPath(q);
      ReachOnTheWay(t, c, |q|);
      assert t.tabs[Reach(t.mem, t.root, q).value] == q;
    }
  }

  lemma ApartAtFirst(src: Space, s: Space)
    requires src.Tree() && s.root !in src.held && s.tabs == map[s.root := []] && src.held <= s.held
    requires forall f :: f in src.held ==> At(s.mem, f) == At(src.mem, f)
    ensures Apart(src, s)
  {
    hide Slot, Reach, UserPath, At, Space.Tree;
    TablesHeld(src);
    forall q | PagePath(q) && Slot(src.mem, src.root, q).Some?
      ensures Slot(src.mem, src.root, q).value.addr in s.held && Slot(src.mem, src.root, q).value.addr !in s.tabs
    {
      HeldPage(src, q);
    }
  }

  lemma OthersAtFirst(held: set<nat>, s: Space)
    requires s.root !in held && s.held == held + {s.root} && s.tabs == map[s.root := []]
    ensures Others(s, map[]) == held
  {
    hide At;
  }

  lemma OthersChain(src: Space, s: Space, t: Space, pages: map<nat, Path>)
    requires Others(s, map[]) == src.held && OthersKept(s, map[], t, pages)
    requires forall f :: f in src.held ==> At(s.mem, f) == At(src.mem, f)
    ensures Others(t, pages) == src.held
    ensures forall f :: f in src.held ==> At(t.mem, f) == At(src.mem, f)
  {
    hide At, Others;
  }

  lemma InAppHalf(q: Path)
    requires PagePath(q)
    ensures q in Through([], FIRST_USER_INDEX, 512)
  {
  }

  /** The copy of the image tree: owned by the new root, disturbing nobody, showing the image. */
  lemma CopiedTree(src: Space, s: Space, t: Space, whole: bool)
    requires src.Tree() && s.Tree() && t.Tree() && Owned(s, map[]) && Others(s, map[]) == src.held
    requires AbsentThrough(s, Through([], FIRST_USER_INDEX, 512))
    requires Shared(s, t, src, Through([], FIRST_USER_INDEX, 512), whole)
    requires forall f :: f in src.held ==> At(s.mem, f) == At(src.mem, f)
    requires RoomForStack(src)
    ensures Owned(t, map[]) && OthersKept(s, map[], t, map[])
    ensures whole ==> SameContents(src, t) && Unmapped(t, PageNumber(ARGS_ADDRESS), PageNumber(ARGS_ADDRESS) + 1)
  {
    hide Slot, Reach, UserPath, At, Space.Tree, Through, PageNumber, Owned, Rank;
    TablesHeld(src);
    forall q | PagePath(q)
      ensures q in Through([], FIRST_USER_INDEX, 512)
      ensures Slot(src.mem, src.root, q).Some? ==> Slot(src.mem, src.root, q).value.addr in Others(s, map[])
    {
      InAppHalf(q);
      if Slot(src.mem, src.root, q).Some? {
        HeldPage(src, q);
      }
    }
    SharedOwned(s, t, src, Through([], FIRST_USER_INDEX, 512), whole, map[]);
    if whole {
      forall q | PagePath(q)
        ensures Contents(t, q) == Contents(src, q)
        ensures Slot(src.mem, src.root, q) == None ==> Slot(t.mem, t.root, q) == None
      {
        ShareSees(s, t, src, Through([], FIRST_USER_INDEX, 512), q);
      }
    }
  }

  lemma StackStillUnmapped(src: Space, s: Space, t: Space, args: Table)
    requires RoomForStack(src) && SameContents(src, s) && ArgsReady(s, t, args)
    ensures Unmapped(t, PageNumber(STACK_ADDRESS), PageNumber(STACK_ADDRESS) + STACK_PAGES)
  {
    hide Slot, Reach, UserPath, At, Rank, Blank;
    forall q | PagePath(q) && PageNumber(STACK_ADDRESS) <= Rank(q) < PageNumber(STACK_ADDRESS) + STACK_PAGES
      ensures Slot(t.mem, t.root, q) == None
    {
      assert Contents(src, q) == None && Contents(t, q) == None;
    }
  }

  lemma StackMapped(src: Space, s2: Space, s3: Space, s4: Space, args: Table)
    requires RoomForStack(src) && SameContents(src, s2) && ArgsReady(s2, s3, args)
    requires Zeroed(s3, s4, PageNumber(STACK_ADDRESS), PageNumber(STACK_ADDRESS) + STACK_PAGES)
    ensures Loaded(src, s4, args)
  {
    hide Slot, Reach, UserPath, At, Rank, Blank;
    forall q | PagePath(q)
      ensures Contents(s4, q) == if Rank(q) == PageNumber(ARGS_ADDRESS) then Some(args) else if InStack(q) then Some(Blank()) else Contents(src, q)
    {
    }
  }

  /** The application's end: its half is emptied, then its root goes back. */
  method RetireApp(m: Machine, kernelRoot: nat, ghost tabs: map<nat, Path>, ghost pages: map<nat, Path>)
    requires m.mm.Valid() && m.View(m.cr3, tabs).Tree() && Owned(m.View(m.cr3, tabs), pages)
    modifies m`mem, m`cr3, m`strayFrees, m.mm`held, m.mm.allocMap
    ensures m.mm.Valid() && m.cr3 == kernelRoot
    ensures m.mm.held == old(Others(m.View(m.cr3, tabs), pages))
    ensures forall f :: f in m.mm.held ==> At(m.mem, f) == At(old(m.mem), f)
    ensures m.strayFrees == old(m.strayFrees)
  {
    hide Slot, Reach, UserPath, Space.Tree, Owned, Others, Pruned, At, Through, BitmapMemoryManager.Valid;
    ghost var s := m.View(m.cr3, tabs);
    RootTable(s);
    ghost var tabs', pages' := m.CleanPageMap(m.cr3, 4, APP_BASE, m.cr3, tabs, pages);
    ghost var t := m.View(m.cr3, tabs');
    OnlyRootLeft(s, pages, t, pages');
    FreePML4(m, kernelRoot);
  }

  lemma OnlyRootLeft(s: Space, pages: map<nat, Path>, t: Space, pages': map<nat, Path>)
    requires s.Tree() && Owned(s, pages) && Pruned(s, pages, t, pages', Through([], FIRST_USER_INDEX, 512))
    ensures t.held - {t.root} == Others(s, pages) && t.root in t.held
    ensures forall f :: f in Others(s, pages) ==> At(t.mem, f) == At(s.mem, f)
  {
    hide Slot, At, Reach, Space.Tree;
    RootTable(s);
    HeldTable(s, s.root);
    forall f | f in s.tabs && f != s.root
      ensures s.tabs[f] in Through([], FIRST_USER_INDEX, 512)
    {
      HeldTable(s, f);
      if s.tabs[f] == [] {
        SameTable(s, f, s.root);
      }
    }
    forall f | f in pages
      ensures pages[f] in Through([], FIRST_USER_INDEX, 512)
    {
      PageAt(s, pages, f);
      InAppHalf(pages[f]);
    }
  }

  /** How far a launch gets, by the number of free frames, how many it needs, and whether the arguments
      fit. */
  function OutcomeOf(free: nat, need: nat, fits: bool): Outcome {
    if free == 0 then NoRoot else if free < need then Abandoned else if fits then Launched else Refused
  }

  /** The tree of an application is still there, beside the frames of others. */
  ghost predicate TreeLeft(t: Space, pages: map<nat, Path>, others: set<nat>) {
    t.Tree() && Owned(t, pages) && Others(t, pages) == others
  }

  /** The kernel's half below the root is mapped, by tables that are held. */
  ghost predicate KernelBelow(mem: Memory, root: nat, held: set<nat>) {
    OneToOne(mem, root) && forall f :: KernelTable(mem, root, f) ==> f in held
  }

  /** The application was started and came to its end: by its own doing, or killed. */
  predicate Ended(outcome: Outcome, fate: Fate) {
    outcome == Launched && (fate == Alive || fate == Killed)
  }

  /** From the second root to the end, for an image that is there. Frames: how far the launch gets depends
      on how many are free and whether the arguments fit; once the application has come to its end they are
      all given back, but for those a store to the kernel's half took; where the launch stopped half-way or
      the kernel halts, they stay with the application's tree; none is given back twice. Isolation: the
      frames held before are what they were in every view of the run, exactly if no action changed a word of
      them; and those that are no pages of the image and that nobody aims at through the kernel's half stay
      as they were in any case. */
  method RunImage(m: Machine, image: nat, elfNextPage: nat, kernelRoot: nat, args: Option<Table>, actions: seq<Action>,
                  ghost imageTabs: map<nat, Path>)
    returns (outcome: Outcome, fate: Fate, ghost views: seq<Space>, ghost tabs: map<nat, Path>, ghost pages: map<nat, Path>)
    requires m.mm.Valid() && m.View(image, imageTabs).Tree() && m.cr3 == image && KernelBelow(m.mem, image, m.mm.held)
    requires RoomForStack(m.View(image, imageTabs)) && 0x8000_0000_0000 <= elfNextPage
    modifies m, m.mm`held, m.mm.allocMap
    ensures m.mm.Valid() && m.strayFrees == old(m.strayFrees) && old(m.mm.held) <= m.mm.held
    ensures outcome == OutcomeOf(|FreeFrames(old(m.mm.held), m.mm.rangeBegin, m.mm.rangeEnd)|, Need(old(m.View(image, imageTabs)), args.Some?), args.Some?)
    ensures outcome != Launched ==> fate == Alive
    ensures outcome == NoRoot ==> m.mm.held == old(m.mm.held)
    ensures outcome == Launched ==>
              var st := Setting(elfNextPage, elfNextPage, m.mm.rangeBegin, m.mm.rangeEnd);
              && RunOf(views, actions, fate, st, old(m.mm.held))
              && Loaded(old(m.View(image, imageTabs)), views[0], args.value)
              && (forall f :: f in old(m.mm.held) ==> At(views[0].mem, f) == At(old(m.mem), f))
              && (forall f :: f in old(m.mm.held) ==> At(m.mem, f) == At(views[|views| - 1].mem, f))
              && (Isolated(views, old(m.mm.held)) <==> NothingSpoilt(views, actions, st, old(m.mm.held)))
              && LeakOf(views, actions, st) !! old(m.mm.held)
              && (Ended(outcome, fate) ==> m.cr3 == kernelRoot && m.mm.held == old(m.mm.held) + LeakOf(views, actions, st))
    ensures outcome == Abandoned || outcome == Refused || fate == Halted ==>
              TreeLeft(m.View(m.cr3, tabs), pages, old(m.mm.held)) && m.mm.held != old(m.mm.held)
    ensures forall f :: f in old(m.mm.held) && (outcome == Launched ==> !PageFrame(old(m.View(image, imageTabs)), f) && !Aimed(actions, f)) ==>
              At(m.mem, f) == At(old(m.mem), f)
  {
    hide Slot, Reach, UserPath, Space.Tree, Owned, OthersKept, Others, At, RoomForStack, RunOf, Loaded, FreeFrames, Need, TablePaths, OwnPaths, Within,
      Partial, Isolated, NothingSpoilt, PageFrame, ReadOnlyFrom, KernelBelow, KernelMapped, Lower, LeakOf, Aimed, BitmapMemoryManager.Valid,
      Machine.Exhausted;
    fate, views := Alive, [];
    ghost var src := m.View(image, imageTabs);
    ghost var held := m.mm.held;
    outcome, tabs, pages := LaunchApp(m, image, elfNextPage, args, imageTabs);
    ghost var s := m.View(m.cr3, tabs);
    NeedsSome(src, args.Some?);
    if outcome != Launched {
      if outcome == NoRoot {
        AllTaken(m);
        NoFrames(src.held, m.mm.rangeBegin, m.mm.rangeEnd);
      } else {
        RootLeaks(s, pages, src.held);
        if outcome == Abandoned {
          AllTaken(m);
          PartialCount(src, s, pages, m.mm.rangeBegin, m.mm.rangeEnd, args.Some?);
        } else {
          EnoughFrames(src, s, pages, src.held, m.mm.rangeBegin, m.mm.rangeEnd, false);
        }
      }
      return;
    }
    EnoughFrames(src, s, pages, src.held, m.mm.rangeBegin, m.mm.rangeEnd, true);
    StartsMapped(src, s, pages);
    ghost var st := SettingOf(m);
    fate, tabs, pages, views := RunActions(m, actions, tabs, pages);
    RunIsolated(views, actions, fate, st, held);
    RunHasView(views, actions, fate, st, held);
    forall f | f in held && !PageFrame(src, f) && !Aimed(actions, f)
      ensures At(views[|views| - 1].mem, f) == At(src.mem, f)
    {
      OnlyImagePages(src, views, actions, fate, st, held, |views| - 1, f);
    }
    if fate == Halted {
      RootLeaks(m.View(m.cr3, tabs), pages, held);
    } else if fate != Astray {
      RetireApp(m, kernelRoot, tabs, pages);
    }
  }

  /** The application's root takes the kernel's half over from that of the image. */
  lemma StartsMapped(src: Space, s: Space, pages: map<nat, Path>)
    requires KernelBelow(src.mem, src.root, src.held) && Others(s, pages) == src.held && Lower(s.mem, s.root) == Lower(src.mem, src.root)
    requires forall f :: f in src.held ==> At(s.mem, f) == At(src.mem, f)
    ensures KernelMapped(s, pages)
  {
    hide OneToOne, KernelTable, Others, Lower, At;
    KernelStays(src.mem, src.root, s.mem, s.root);
  }

  lemma AllTaken(m: Machine)
    requires m.Exhausted()
    ensures forall f: nat :: m.mm.rangeBegin <= f < m.mm.rangeEnd ==> f in m.mm.held
  {
  }

  lemma NoFrames(held: set<nat>, begin: nat, end: nat)
    requires forall f: nat :: begin <= f < end ==> f in held
    ensures |FreeFrames(held, begin, end)| == 0
  {
    assert FreeFrames(held, begin, end) == {};
  }

  lemma NeedsSome(image: Space, fits: bool)
    ensures Need(image, fits) > 0
  {
    assert ARGS_PATH in StackPaths();
  }

  lemma PartialCount(src: Space, t: Space, pages: map<nat, Path>, begin: nat, end: nat, fits: bool)
    requires t.Tree() && Owned(t, pages) && Others(t, pages) == src.held && t.root !in src.held
    requires Within(src.held, t.held, begin, end) && (forall f: nat :: begin <= f < end ==> f in t.held)
    requires Partial(src, t.tabs, pages, fits)
    ensures 0 < |FreeFrames(src.held, begin, end)| < Need(src, fits)
  {
    hide Slot, Reach, Owned, Others, Space.Tree, FreeFrames, Need, TablePaths, OwnPaths, Within;
    RootTable(t);
    HeldTable(t, t.root);
    TooFewFrames(src, t, pages, src.held, begin, end, fits);
  }

  lemma RootLeaks(s: Space, pages: map<nat, Path>, held: set<nat>)
    requires s.Tree() && Others(s, pages) == held && s.root !in held
    ensures held < s.held
  {
    hide Slot, Reach, UserPath, At, Space.Tree;
    RootTable(s);
    HeldTable(s, s.root);
  }

  /** Whoever keeps the frames of a tree that are not its pages keeps the tree and every translation; and
      if its pages' frames are kept too, every word seen through it. */
  lemma TreeIntact(src: Space, mem': Memory, held': set<nat>)
    requires src.Tree() && src.held <= held'
    requires forall f :: f in src.held && !PageFrame(src, f) ==> At(mem', f) == At(src.mem, f)
    ensures var t := Space(mem', held', src.root, src.tabs);
            && t.Tree() && (forall q :: UserPath(q) && q != [] ==> Slot(mem', src.root, q) == Slot(src.mem, src.root, q))
            && ((forall f :: f in src.held ==> At(mem', f) == At(src.mem, f)) ==> SameContents(src, t))
  {
    hide Slot, Reach, At, UserPath, Space.Tree;
    TablesHeld(src);
    var t := Space(mem', held', src.root, src.tabs);
    forall f | f in src.tabs
      ensures !PageFrame(src, f)
    {
      TableNoPage(src, f);
    }
    forall q | UserPath(q)
      ensures Reach(mem', src.root, q) == Reach(src.mem, src.root, q)
      ensures q != [] ==> Slot(mem', src.root, q) == Slot(src.mem, src.root, q)
    {
      OutsideTree(src, mem', q);
    }
    KeptTree(src, t);
    forall q | PagePath(q) && forall f :: f in src.held ==> At(mem', f) == At(src.mem, f)
      ensures Contents(t, q) == Contents(src, q)
    {
      if Slot(src.mem, src.root, q).Some? {
        HeldPage(src, q);
      }
    }
  }

  lemma TableNoPage(src: Space, f: nat)
    requires src.Tree() && f in src.tabs
    ensures !PageFrame(src, f)
  {
    hide Slot, Reach, UserPath, Space.Tree;
    forall q | PagePath(q) && Slot(src.mem, src.root, q).Some?
      ensures Slot(src.mem, src.root, q).value.addr != f
    {
      HeldPage(src, q);
    }
  }
}
