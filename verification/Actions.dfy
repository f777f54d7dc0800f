/** What an application does between CallApp and its end, with the system calls it makes and the faults
    that come of it (kernel/interrupt.cpp, kernel/syscall.cpp). */
module Actions {
  import opened Options
  import opened PageEntry
  import opened PageTree
  import opened PageOwnership
  import opened PageContents
  import opened MemoryManager
  import opened KernelHalf
  import opened FrameCounts
  import opened Paging

  type Index = i: nat | i < 512

  /** A word of physical memory. */
  datatype Word = Word(frame: nat, index: Index)

  /** KernelLoad and KernelStore are a system call's accesses through a pointer of the application's. The
      pointers are not checked, and the kernel runs with write protection off. */
  datatype Action =
    | Load(addr: Address)
    | Store(addr: Address, index: Index, value: Entry)
    | KernelLoad(addr: Address)
    | KernelStore(addr: Address, index: Index, value: Entry)
    | DemandPages(pages: nat)
  {
    predicate ByCall() {
      KernelLoad? || KernelStore?
    }

    /** The word that is written through the kernel's half: by a system call the one its pointer names; by
        the application the one the page-fault handler takes for the entry of the page. */
    function Target(): Option<Word> {
      if DemandPages? || !Canonical(addr) || !Mapped(addr) then None
      else if Store? then Some(Word(RegionBase(addr), addr.page))
      else if KernelStore? then Some(Word(PageNumber(addr), index))
      else None
    }
  }

  /** What becomes of the application: it goes on; it is killed by the fault handler; the fault came from
      the kernel, which then halts for ever; or a table was overwritten, after which nothing is said. */
  datatype Fate = Alive | Killed | Halted | Astray

  /** KillApp returns at once if the fault did not come from user mode, and the handler halts. */
  function Faulted(a: Action): Fate {
    if a.ByCall() then Halted else Killed
  }

  /** What decides how a fault ends, besides the tree: the demand-paging area of the task and the range
      of the allocator. */
  datatype Setting = Setting(areaBegin: nat, areaEnd: nat, rangeBegin: nat, rangeEnd: nat) {
    /** The setting after an action. */
    function After(a: Action): Setting {
      if a.DemandPages? then this.(areaEnd := (areaEnd + 0x1000 * a.pages) % 0x1_0000_0000_0000_0000) else this
    }

    ghost function Free(s: Space): set<nat> {
      FreeFrames(s.held, rangeBegin, rangeEnd)
    }
  }

  ghost function SettingOf(m: Machine): Setting
    reads m, m.mm
  {
    Setting(m.dpagingBegin, m.dpagingEnd, m.mm.rangeBegin, m.mm.rangeEnd)
  }

  /** One access in the application's half: the processor walks the tables, raises a page fault where they
      do not permit the access, and repeats the access once the handler is done. Only the application's
      own writes need the writable bit. */
  method Touch(m: Machine, addr: Address, write: bool, ghost tabs: map<nat, Path>, ghost pages: map<nat, Path>)
    returns (alive: bool, ghost tabs': map<nat, Path>, ghost pages': map<nat, Path>)
    requires m.mm.Valid() && m.View(m.cr3, tabs).Tree() && Owned(m.View(m.cr3, tabs), pages) && InApp(addr)
    modifies m`mem, m.mm`held, m.mm.allocMap
    ensures m.mm.Valid() && m.View(m.cr3, tabs').Tree() && Owned(m.View(m.cr3, tabs'), pages')
    ensures OthersKept(old(m.View(m.cr3, tabs)), pages, m.View(m.cr3, tabs'), pages')
    ensures Touched(old(m.View(m.cr3, tabs)), m.View(m.cr3, tabs'), PathOf(addr), alive, write)
    ensures alive <==> Bearable(old(m.View(m.cr3, tabs)), addr, write, SettingOf(m))
    ensures Lower(m.mem, m.cr3) == old(Lower(m.mem, m.cr3))
  {
    hide Lower, Slot, Reach, UserPath, Space.Tree, Owned, OthersKept, Touched, Copied, PageMapped, SameContents, Within, ReadOnlyKept, FreeFrames, Missing,
      KernelMapped, BitmapMemoryManager.Valid, Machine.Exhausted;
    ghost var s := m.View(m.cr3, tabs);
    ghost var c := PathOf(addr);
    OthersSelf(s, pages);
    tabs', pages', alive := tabs, pages, true;
    var slot := Slot(m.mem, m.cr3, PathOf(addr));
    if slot.None? || (write && !slot.value.writable) {
      var r;
      r, tabs', pages' := m.HandlePageFault(slot.Some?, write, true, addr, tabs, pages);
      alive := r.Handled?;
      TouchedByFault(s, m.View(m.cr3, tabs'), c, slot.Some?, alive, write);
    } else {
      TouchedInPlace(s, c, write);
    }
  }

  /** An access can be made, at once or after its fault: a page that is there can be read, and written
      once there is a frame for a copy if it is shared; one that is absent must lie in the demand area,
      and there must be a frame for it and for each table missing on the way. */
  ghost predicate Bearable(s: Space, addr: Address, write: bool, st: Setting)
    requires InApp(addr)
  {
    match Slot(s.mem, s.root, PathOf(addr))
    case Some(e) => !write || e.writable || |st.Free(s)| > 0
    case None => st.areaBegin <= Value(addr) < st.areaEnd && |st.Free(s)| >= Missing(s, PathOf(addr))
  }

  /** After an access the application sees what it saw, except that an absent page is a blank one now;
      where the tables permitted the access nothing changed at all. */
  ghost predicate Touched(s: Space, t: Space, c: Path, alive: bool, write: bool) {
    && PagePath(c) && ReadOnlyKept(s, t)
    && (if alive && Slot(s.mem, s.root, c) == None then PageAdded(s, t, c) else SameContents(s, t))
    && (alive ==> Slot(t.mem, t.root, c).Some? && (write ==> Slot(t.mem, t.root, c).value.writable))
    && (match Slot(s.mem, s.root, c)
        case None => alive ==> Slot(t.mem, t.root, c).value.writable
        case Some(e) => (!write || e.writable) ==> t == s)
  }

  lemma TouchedInPlace(s: Space, c: Path, write: bool)
    requires PagePath(c) && Slot(s.mem, s.root, c).Some? && (write ==> Slot(s.mem, s.root, c).value.writable)
    ensures Touched(s, s, c, true, write)
  {
    hide Slot, Reach, UserPath, At;
  }

  lemma TouchedByFault(s: Space, t: Space, c: Path, present: bool, alive: bool, write: bool)
    requires s.Tree() && PagePath(c) && present == Slot(s.mem, s.root, c).Some?
    requires present ==> write && !Slot(s.mem, s.root, c).value.writable
    requires ReadOnlyKept(s, t)
    requires !alive ==> SameContents(s, t)
    requires alive && present ==> exists g :: Copied(s, t, c, g)
    requires alive && !present ==> PageMapped(s, t, c)
    ensures Touched(s, t, c, alive, write)
  {
    hide Slot, Reach, UserPath, At, Space.Tree, SameContents, ReadOnlyKept;
    if alive && present {
      var g :| Copied(s, t, c, g);
      CopySees(s, t, c, g);
    }
  }

  /** A table of the application. */
  predicate OwnTable(mem: Memory, root: nat, f: nat) {
    || f == root
    || (exists i | FIRST_USER_INDEX <= i < 512 :: Reach(mem, root, [i]) == Some(f))
    || (exists i, j | FIRST_USER_INDEX <= i < 512 && 0 <= j < 512 :: Reach(mem, root, [i, j]) == Some(f))
    || (exists i, j, k | FIRST_USER_INDEX <= i < 512 && 0 <= j < 512 && 0 <= k < 512 :: Reach(mem, root, [i, j, k]) == Some(f))
  }

  lemma OwnTables(s: Space, f: nat)
    requires s.Tree()
    ensures OwnTable(s.mem, s.root, f) <==> f in s.tabs
  {
    hide Slot, Reach;
    RootTable(s);
    if f in s.tabs {
      var q := s.tabs[f];
      assert UserPath(q) && |q| <= 3 && Reach(s.mem, s.root, q) == Some(f);
      if |q| == 0 {
        SameTable(s, f, s.root);
      } else if |q| == 1 {
        assert q == [q[0]];
      } else if |q| == 2 {
        assert q == [q[0], q[1]];
      } else {
        assert q == [q[0], q[1], q[2]];
      }
    }
  }

  /** The frame is a table the processor walks: a write to it may change any translation. */
  ghost predicate IsTable(s: Space, f: nat) {
    f in s.tabs || KernelTable(s.mem, s.root, f)
  }

  /** An entry as the page-fault handler leaves it. */
  function Pointed(e: Entry, frame: nat): Entry {
    if frame < 0x100_0000_0000 then Repoint(e, frame) else e
  }

  /** The application stores to a page of the kernel's half. The entry of the page is not the one the
      handler rewrites, so the store faults again, and each time a frame is gone, until none is left;
      unless the word that is overwritten is one of a table. */
  ghost predicate Drained(s: Space, u: Space, addr: Address, fate: Fate, st: Setting) {
    if st.Free(s) == {} then fate == Killed && u == s
    else
      && fate == (if IsTable(s, RegionBase(addr)) then Astray else Killed)
      && u.root == s.root && u.tabs == s.tabs
      && u.held == s.held + (if fate == Astray then {LastTaken(s, addr, st)} else st.Free(s))
      && forall f :: f in s.held ==> At(u.mem, f) == WithWord(s, RegionBase(addr), addr.page, LastTaken(s, addr, st), f)
  }

  /** The frame the word points to in the end. */
  ghost function LastTaken(s: Space, addr: Address, st: Setting): nat {
    if IsTable(s, RegionBase(addr)) then LowestFree(s.held, st.rangeBegin, st.rangeEnd) else HighestFree(s.held, st.rangeBegin, st.rangeEnd)
  }

  /** Frame f, with the entry at index i of frame b pointing to g. */
  ghost function WithWord(s: Space, b: nat, i: Index, g: nat, f: nat): Table {
    if f == b then At(s.mem, f)[i := Pointed(At(s.mem, f)[i], g)] else At(s.mem, f)
  }

  /** On the way there: the free frames up to last are taken. */
  ghost predicate DrainedTo(s: Space, u: Space, addr: Address, last: nat, st: Setting) {
    && u.root == s.root && u.tabs == s.tabs && last in st.Free(s)
    && (forall f :: f in u.held <==> f in s.held || (f in st.Free(s) && f <= last))
    && forall f :: f in s.held ==> At(u.mem, f) == WithWord(s, RegionBase(addr), addr.page, last, f)
  }

  lemma DrainFirst(s: Space, u: Space, addr: Address, st: Setting)
    requires st.Free(s) != {} && Turned(s, u, addr, LowestFree(s.held, st.rangeBegin, st.rangeEnd))
    ensures DrainedTo(s, u, addr, LowestFree(s.held, st.rangeBegin, st.rangeEnd), st)
  {
    LowestFreeFound(s.held, st.rangeBegin, st.rangeEnd);
  }

  lemma DrainNext(s: Space, t: Space, u: Space, addr: Address, last: nat, st: Setting)
    requires DrainedTo(s, t, addr, last, st) && st.Free(t) != {} && Turned(t, u, addr, LowestFree(t.held, st.rangeBegin, st.rangeEnd))
    ensures DrainedTo(s, u, addr, LowestFree(t.held, st.rangeBegin, st.rangeEnd), st)
  {
    hide At, LowestFree;
    LowestFreeFound(t.held, st.rangeBegin, st.rangeEnd);
    var g := LowestFree(t.held, st.rangeBegin, st.rangeEnd);
    assert g in st.Free(s) && g > last;
    forall f
      ensures f in u.held <==> f in s.held || (f in st.Free(s) && f <= g)
    {
      assert f in st.Free(s) && last < f < g ==> f in t.held;
    }
  }

  lemma DrainEnd(s: Space, u: Space, addr: Address, last: nat, st: Setting)
    requires DrainedTo(s, u, addr, last, st) && st.Free(u) == {} && !IsTable(s, RegionBase(addr))
    ensures Drained(s, u, addr, Killed, st)
  {
    hide At, KernelTable;
    forall g: nat | last < g < st.rangeEnd
      ensures g in s.held
    {
      assert g !in st.Free(u);
    }
    HighestFreeIs(s.held, st.rangeBegin, st.rangeEnd, last);
    forall f | f in st.Free(s)
      ensures f in u.held
    {
      assert f !in st.Free(u);
    }
    assert u.held == s.held + st.Free(s);
  }

  lemma DrainAstray(s: Space, u: Space, addr: Address, st: Setting)
    requires st.Free(s) != {} && Turned(s, u, addr, LowestFree(s.held, st.rangeBegin, st.rangeEnd)) && IsTable(s, RegionBase(addr))
    ensures Drained(s, u, addr, Astray, st)
  {
    hide At, KernelTable;
  }

  /** A turn that hits no table leaves the application's tree, what it owns and the kernel's map. */
  lemma TurnKeeps(s: Space, pages: map<nat, Path>, u: Space, addr: Address, g: nat)
    requires s.Tree() && Owned(s, pages) && KernelMapped(s, pages) && Turned(s, u, addr, g) && !IsTable(s, RegionBase(addr))
    ensures u.Tree() && Owned(u, pages) && KernelMapped(u, pages) && ReadOnlyKept(s, u) && !IsTable(u, RegionBase(addr))
  {
    hide Slot, Reach, UserPath, Space.Tree, At, OneToOne, KernelTable;
    TablesHeld(s);
    RootTable(s);
    forall q | UserPath(q)
      ensures Reach(u.mem, s.root, q) == Reach(s.mem, s.root, q)
      ensures q != [] ==> Slot(u.mem, s.root, q) == Slot(s.mem, s.root, q)
    {
      OutsideTree(s, u.mem, q);
    }
    KeptTree(s, u);
    KernelStays(s.mem, s.root, u.mem, s.root);
  }

  lemma TableTold(s: Space, f: nat)
    requires s.Tree()
    ensures IsTable(s, f) <==> OwnTable(s.mem, s.root, f) || KernelTable(s.mem, s.root, f)
  {
    hide KernelTable, OwnTable, Space.Tree;
    OwnTables(s, f);
  }

  lemma StillMapped(s: Space, pages: map<nat, Path>, addr: Address)
    requires KernelMapped(s, pages) && Mapped(addr)
    ensures FrameBehind(s.mem, s.root, addr).Some? && !InApp(addr)
  {
    InMap(s, pages, addr);
  }

  lemma DrainNothing(s: Space, addr: Address, st: Setting)
    requires st.Free(s) == {}
    ensures Drained(s, s, addr, Killed, st)
  {
  }

  lemma NoneFree(s: Space, st: Setting)
    ensures |st.Free(s)| == 0 <==> st.Free(s) == {}
  {
  }

  lemma FewerFree(s: Space, u: Space, addr: Address, st: Setting)
    requires st.Free(s) != {} && Turned(s, u, addr, LowestFree(s.held, st.rangeBegin, st.rangeEnd))
    ensures |st.Free(u)| < |st.Free(s)|
  {
    LowestFreeFound(s.held, st.rangeBegin, st.rangeEnd);
    assert st.Free(s) == st.Free(u) + {LowestFree(s.held, st.rangeBegin, st.rangeEnd)};
  }

  /** The store in the kernel's half, with all its faults. */
  method DrainFrames(m: Machine, addr: Address, ghost tabs: map<nat, Path>, ghost pages: map<nat, Path>) returns (fate: Fate)
    requires m.mm.Valid() && m.View(m.cr3, tabs).Tree() && Owned(m.View(m.cr3, tabs), pages) && KernelMapped(m.View(m.cr3, tabs), pages)
    requires Mapped(addr) && Value(addr) < m.dpagingBegin
    modifies m`mem, m.mm`held, m.mm.allocMap
    ensures m.mm.Valid() && Drained(old(m.View(m.cr3, tabs)), m.View(m.cr3, tabs), addr, fate, SettingOf(m))
    ensures fate == Killed || fate == Astray
    ensures fate == Killed ==> m.View(m.cr3, tabs).Tree() && Owned(m.View(m.cr3, tabs), pages) && ReadOnlyKept(old(m.View(m.cr3, tabs)), m.View(m.cr3, tabs))
  {
    hide Slot, Reach, UserPath, Space.Tree, Owned, At, Lower, KernelMapped, Turned, Drained, DrainedTo, IsTable, LowestFree, FreeFrames, ReadOnlyKept,
      OwnTable, KernelTable, Value, BitmapMemoryManager.Valid, Machine.Exhausted;
    ghost var s := m.View(m.cr3, tabs);
    ghost var st := SettingOf(m);
    ghost var last := 0;
    var table := OwnTable(m.mem, m.cr3, RegionBase(addr)) || KernelTable(m.mem, m.cr3, RegionBase(addr));
    TableTold(s, RegionBase(addr));
    ReadOnlySelf(s);
    while true
      invariant m.mm.Valid() && m.View(m.cr3, tabs).Tree() && Owned(m.View(m.cr3, tabs), pages) && KernelMapped(m.View(m.cr3, tabs), pages)
      invariant m.View(m.cr3, tabs) == s || (!table && DrainedTo(s, m.View(m.cr3, tabs), addr, last, st))
      invariant ReadOnlyKept(s, m.View(m.cr3, tabs)) && (table <==> IsTable(m.View(m.cr3, tabs), RegionBase(addr)))
      decreases |st.Free(m.View(m.cr3, tabs))|
    {
      ghost var t := m.View(m.cr3, tabs);
      StillMapped(t, pages, addr);
      var r;
      ghost var tabs1, pages1;
      r, tabs1, pages1 := m.HandlePageFault(true, true, true, addr, tabs, pages);
      NoneFree(t, st);
      if r != Handled {
        if t == s {
          DrainNothing(s, addr, st);
        } else {
          DrainEnd(s, t, addr, last, st);
        }
        return Killed;
      }
      ghost var u := m.View(m.cr3, tabs);
      FewerFree(t, u, addr, st);
      if table {
        DrainAstray(s, u, addr, st);
        return Astray;
      }
      if t == s {
        DrainFirst(s, u, addr, st);
      } else {
        DrainNext(s, t, u, addr, last, st);
      }
      TurnKeeps(t, pages, u, addr, LowestFree(t.held, st.rangeBegin, st.rangeEnd));
      ReadOnlyTrans(s, t, u);
      last := LowestFree(t.held, st.rangeBegin, st.rangeEnd);
    }
  }

  /** A value for a word. */
  datatype Put = Put(word: Word, value: Entry)

  /** The word outside of the application's own frames that an action may overwrite: of a page that is still
      shared, by a system call; or of any frame, through the kernel's half. */
  ghost function Hit(s: Space, a: Action, st: Setting): Option<Put> {
    if a.KernelStore? && Canonical(a.addr) && InApp(a.addr) then
      match Slot(s.mem, s.root, PathOf(a.addr))
      case None => None
      case Some(e) => if e.writable then None else Some(Put(Word(e.addr, a.index), a.value))
    else
      match a.Target()
      case None => None
      case Some(w) =>
        if a.KernelStore? then Some(Put(w, a.value))
        else if st.Free(s) == {} then None
        else Some(Put(w, Pointed(At(s.mem, w.frame)[w.index], LastTaken(s, a.addr, st))))
  }

  ghost function AfterHit(s: Space, a: Action, st: Setting, f: nat): Table {
    match Hit(s, a, st)
    case None => At(s.mem, f)
    case Some(p) => if p.word.frame == f then At(s.mem, f)[p.word.index := p.value] else At(s.mem, f)
  }

  /** The frames of others keep their contents, but for that word. */
  ghost predicate Foreign(s: Space, u: Space, a: Action, st: Setting, others: set<nat>) {
    forall f :: f in others ==> At(u.mem, f) == AfterHit(s, a, st, f)
  }

  /** The action changes a word of a frame of others. */
  ghost predicate Spoils(s: Space, a: Action, st: Setting, others: set<nat>) {
    match Hit(s, a, st)
    case None => false
    case Some(p) => p.word.frame in others && At(s.mem, p.word.frame)[p.word.index] != p.value
  }

  /** The frames that an action takes for good. */
  ghost function Leak(s: Space, a: Action, st: Setting): set<nat> {
    if a.Store? && a.Target().Some? then st.Free(s) else {}
  }

  /** One word of the frame behind page c overwritten. */
  ghost function WordForced(t: Space, c: Path, index: Index, value: Entry): Space {
    if PagePath(c) && Slot(t.mem, t.root, c).Some?
    then Overwritten(t, c, At(t.mem, Slot(t.mem, t.root, c).value.addr)[index := value]) else t
  }

  /** The page is one of the kernel's tables. */
  ghost predicate Strays(t: Space, c: Path)
    requires c != []
  {
    Slot(t.mem, t.root, c).Some? && KernelTable(t.mem, t.root, Slot(t.mem, t.root, c).value.addr)
  }

  /** An action in the application's half. It fails exactly when its access cannot be borne; a store changes
      the one word it names; otherwise pages only appear, blank, where there were none. */
  ghost predicate DoneInApp(s: Space, u: Space, a: Action, fate: Fate, st: Setting)
    requires !a.DemandPages? && InApp(a.addr)
  {
    var c := PathOf(a.addr);
    var ok := Bearable(s, a.addr, a.Store?, st);
    && (!ok ==> fate == Faulted(a))
    && match a
       case Store(_, index, value) =>
         (ok ==> fate == Alive) && exists t :: Touched(s, t, c, ok, true) && if ok then WordStored(t, u, c, index, value) else u == t
       case KernelStore(_, index, value) =>
         exists t :: Touched(s, t, c, ok, false)
                     && if ok then u == WordForced(t, c, index, value) && fate == (if Strays(t, c) then Astray else Alive) else u == t
       case _ =>
         (ok ==> fate == Alive) && Touched(s, u, c, ok, false)
  }

  /** An action in the kernel's half, in the part that is mapped. */
  ghost predicate DoneInKernel(s: Space, u: Space, a: Action, fate: Fate, st: Setting)
    requires !a.DemandPages?
  {
    match a
    case Load(_) => fate == Killed && u == s
    case KernelLoad(_) => fate == Alive && u == s
    case Store(addr, _, _) => Drained(s, u, addr, fate, st)
    case KernelStore(addr, index, value) =>
      var f := PageNumber(addr);
      u == s.(mem := s.mem[f := At(s.mem, f)[index := value]]) && fate == if IsTable(s, f) then Astray else Alive
  }

  /** What an action did to the application's view, to the application, and to the frames of others. */
  ghost predicate Performed(s: Space, u: Space, a: Action, fate: Fate, st: Setting, others: set<nat>) {
    && Foreign(s, u, a, st, others) && (fate != Astray ==> ReadOnlyKept(s, u))
    && if a.DemandPages? then fate == Alive && u == s
       else if Canonical(a.addr) && InApp(a.addr) then DoneInApp(s, u, a, fate, st)
       else if Canonical(a.addr) && Mapped(a.addr) then DoneInKernel(s, u, a, fate, st)
       else fate == Faulted(a) && u == s
  }

  /** What an action leaves to go on with. */
  ghost predicate Leaves(s: Space, pages: map<nat, Path>, u: Space, pages': map<nat, Path>, a: Action, fate: Fate, st: Setting) {
    && (fate != Astray ==> u.Tree() && Owned(u, pages') && Others(u, pages') == Others(s, pages) + Leak(s, a, st))
    && (fate == Alive ==> KernelMapped(u, pages'))
    && (fate == Alive || fate == Halted ==> Leak(s, a, st) == {})
    && Others(s, pages) <= u.held
  }

  lemma KernelKept(s: Space, pages: map<nat, Path>, u: Space, pages': map<nat, Path>)
    requires KernelMapped(s, pages) && Lower(u.mem, u.root) == Lower(s.mem, s.root) && Others(s, pages) <= Others(u, pages')
    requires forall f :: KernelTable(s.mem, s.root, f) ==> At(u.mem, f) == At(s.mem, f)
    ensures KernelMapped(u, pages')
  {
    hide Slot, Reach, At, OneToOne, KernelTable, Lower, Others;
    KernelStays(s.mem, s.root, u.mem, u.root);
  }

  lemma TouchKeeps(s: Space, pages: map<nat, Path>, t: Space, pages': map<nat, Path>)
    requires KernelMapped(s, pages) && Lower(t.mem, t.root) == Lower(s.mem, s.root) && OthersKept(s, pages, t, pages')
    ensures KernelMapped(t, pages')
  {
    hide OneToOne, KernelTable, Lower, Others, At;
    KernelKept(s, pages, t, pages');
  }

  /** An action of the application's half. */
  method PerformInApp(m: Machine, a: Action, ghost tabs: map<nat, Path>, ghost pages: map<nat, Path>)
    returns (fate: Fate, ghost tabs': map<nat, Path>, ghost pages': map<nat, Path>)
    requires m.mm.Valid() && m.View(m.cr3, tabs).Tree() && Owned(m.View(m.cr3, tabs), pages) && KernelMapped(m.View(m.cr3, tabs), pages)
    requires !a.DemandPages? && Canonical(a.addr) && InApp(a.addr)
    modifies m`mem, m.mm`held, m.mm.allocMap
    ensures m.mm.Valid()
    ensures Performed(old(m.View(m.cr3, tabs)), m.View(m.cr3, tabs'), a, fate, SettingOf(m), old(Others(m.View(m.cr3, tabs), pages)))
    ensures Leaves(old(m.View(m.cr3, tabs)), pages, m.View(m.cr3, tabs'), pages', a, fate, SettingOf(m))
  {
    hide Slot, Reach, UserPath, Space.Tree, Owned, Others, OthersKept, Touched, Performed, PageStored, Bearable, Foreign, SlotsKept, At, Blank, Lower,
      KernelMapped, KernelTable, Leaves, DoneInApp, Canonical, BitmapMemoryManager.Valid;
    ghost var s := m.View(m.cr3, tabs);
    ghost var st := SettingOf(m);
    var c := PathOf(a.addr);
    var alive;
    alive, tabs', pages' := Touch(m, a.addr, a.Store?, tabs, pages);
    ghost var t := m.View(m.cr3, tabs');
    TouchKeeps(s, pages, t, pages');
    fate := if alive then Alive else Faulted(a);
    if alive && (a.Store? || a.KernelStore?) {
      TouchedSlot(s, t, c, a.Store?);
      var frame := Slot(m.mem, m.cr3, c).value.addr;
      if KernelTable(m.mem, m.cr3, frame) {
        fate := Astray;
      }
      m.WriteEntry(frame, a.index, a.value);
      assert m.View(m.cr3, tabs') == Overwritten(t, c, At(t.mem, frame)[a.index := a.value]);
    }
    if a.Store? {
      PerformedStore(s, pages, t, pages', m.View(m.cr3, tabs'), a, alive, fate, st);
    } else if a.KernelStore? {
      PerformedKernelStore(s, pages, t, pages', m.View(m.cr3, tabs'), a, alive, fate, st);
    } else {
      PerformedLoad(s, pages, t, pages', a, alive, st);
    }
  }

  lemma TouchedSlot(s: Space, t: Space, c: Path, write: bool)
    requires Touched(s, t, c, true, write)
    ensures PagePath(c) && Slot(t.mem, t.root, c).Some? && (write ==> Slot(t.mem, t.root, c).value.writable)
  {
    hide Slot, SameContents, PageAdded, UserPath;
  }

  lemma PerformedLoad(s: Space, pages: map<nat, Path>, t: Space, pages': map<nat, Path>, a: Action, alive: bool, st: Setting)
    requires (a.Load? || a.KernelLoad?) && Canonical(a.addr) && InApp(a.addr)
    requires Touched(s, t, PathOf(a.addr), alive, false) && (alive <==> Bearable(s, a.addr, false, st))
    requires OthersKept(s, pages, t, pages') && t.Tree() && Owned(t, pages') && KernelMapped(t, pages')
    ensures Performed(s, t, a, if alive then Alive else Faulted(a), st, Others(s, pages))
    ensures Leaves(s, pages, t, pages', a, if alive then Alive else Faulted(a), st)
  {
    hide Slot, Others, SameContents, PageAdded, Bearable, Space.Tree, Owned, KernelMapped, Canonical, At, PathOf;
    NoTarget(a);
    OthersHeld(t, pages');
  }

  lemma OthersHeld(s: Space, pages: map<nat, Path>)
    ensures Others(s, pages) <= s.held
  {
  }

  lemma NoTarget(a: Action)
    requires !a.DemandPages? && InApp(a.addr)
    ensures a.Target() == None
  {
  }

  lemma PerformedStore(s: Space, pages: map<nat, Path>, t: Space, pages': map<nat, Path>, u: Space, a: Action, alive: bool, fate: Fate, st: Setting)
    requires a.Store? && Canonical(a.addr) && InApp(a.addr)
    requires Touched(s, t, PathOf(a.addr), alive, true) && (alive <==> Bearable(s, a.addr, true, st))
    requires OthersKept(s, pages, t, pages') && t.Tree() && Owned(t, pages') && KernelMapped(t, pages')
    requires if alive then PagePath(PathOf(a.addr)) && Slot(t.mem, t.root, PathOf(a.addr)).Some?
                           && u == WordForced(t, PathOf(a.addr), a.index, a.value)
                           && fate == (if KernelTable(t.mem, t.root, Slot(t.mem, t.root, PathOf(a.addr)).value.addr) then Astray else Alive)
             else u == t && fate == Killed
    ensures Performed(s, u, a, fate, st, Others(s, pages)) && Leaves(s, pages, u, pages', a, fate, st)
  {
    hide Slot, Others, SameContents, PageAdded, Bearable, Space.Tree, Owned, KernelMapped, Canonical, At, PathOf, KernelTable, PageStored, ReadOnlyKept,
      Overwritten;
    NoTarget(a);
    OthersHeld(u, pages');
    var c := PathOf(a.addr);
    if alive {
      TouchedSlot(s, t, c, true);
      var now := At(t.mem, Slot(t.mem, t.root, c).value.addr)[a.index := a.value];
      StoreKept(t, pages', c, now);
      OwnNotKernel(t, pages', c);
      ReadOnlyTrans(s, t, u);
      StoredWord(t, u, c, a.index, a.value);
      WriteKeepsMap(t, pages', u, c, now);
      assert Touched(s, t, c, true, true) && WordStored(t, u, c, a.index, a.value);
    }
  }

  /** A page of the application's own is not one of the kernel's tables. */
  lemma OwnNotKernel(t: Space, pages: map<nat, Path>, c: Path)
    requires Owned(t, pages) && KernelMapped(t, pages) && PagePath(c) && Slot(t.mem, t.root, c).Some? && Slot(t.mem, t.root, c).value.writable
    ensures !KernelTable(t.mem, t.root, Slot(t.mem, t.root, c).value.addr)
  {
    hide Slot, OneToOne, KernelTable, UserPath;
    OwnerOf(t, pages, c);
  }

  lemma StoredWord(t: Space, u: Space, c: Path, index: Index, value: Entry)
    requires PagePath(c) && Slot(t.mem, t.root, c).Some?
    requires PageStored(t, u, c, At(t.mem, Slot(t.mem, t.root, c).value.addr)[index := value])
    ensures WordStored(t, u, c, index, value)
  {
    hide Slot, At, PageStored;
  }

  /** A page overwritten that is none of the kernel's tables leaves the kernel's map. */
  lemma WriteKeepsMap(t: Space, pages: map<nat, Path>, u: Space, c: Path, now: Table)
    requires t.Tree() && KernelMapped(t, pages) && PagePath(c) && Slot(t.mem, t.root, c).Some? && u == Overwritten(t, c, now)
    requires !KernelTable(t.mem, t.root, Slot(t.mem, t.root, c).value.addr) && Others(u, pages) == Others(t, pages)
    ensures KernelMapped(u, pages)
  {
    hide Slot, Reach, UserPath, Space.Tree, Others, OneToOne, KernelTable, At;
    HeldPage(t, c);
    RootTable(t);
    AtAllElse(t.mem, Slot(t.mem, t.root, c).value.addr, now);
    KernelKept(t, pages, u, pages);
  }

  lemma PerformedKernelStore(s: Space, pages: map<nat, Path>, t: Space, pages': map<nat, Path>, u: Space, a: Action, alive: bool, fate: Fate, st: Setting)
    requires a.KernelStore? && Canonical(a.addr) && InApp(a.addr)
    requires Touched(s, t, PathOf(a.addr), alive, false) && (alive <==> Bearable(s, a.addr, false, st))
    requires OthersKept(s, pages, t, pages') && t.Tree() && Owned(t, pages') && KernelMapped(t, pages')
    requires if alive then PagePath(PathOf(a.addr)) && Slot(t.mem, t.root, PathOf(a.addr)).Some?
                           && u == WordForced(t, PathOf(a.addr), a.index, a.value)
                           && fate == (if KernelTable(t.mem, t.root, Slot(t.mem, t.root, PathOf(a.addr)).value.addr) then Astray else Alive)
             else u == t && fate == Halted
    ensures Performed(s, u, a, fate, st, Others(s, pages)) && Leaves(s, pages, u, pages', a, fate, st)
  {
    hide Slot, Others, SameContents, PageAdded, Bearable, Space.Tree, Owned, KernelMapped, Canonical, At, PathOf, KernelTable, ReadOnlyKept, SlotsKept,
      Overwritten, UserPath;
    NoTarget(a);
    OthersHeld(u, pages');
    var c := PathOf(a.addr);
    if alive {
      var f := Slot(t.mem, t.root, c).value.addr;
      var now := At(t.mem, f)[a.index := a.value];
      OverwriteKept(t, pages', c, now);
      SlotsReadOnly(t, u);
      ReadOnlyTrans(s, t, u);
      ForcedForeign(s, t, u, Others(s, pages), a, st);
      if fate == Alive {
        WriteKeepsMap(t, pages', u, c, now);
      }
    } else {
      ReadBearable(s, a.addr, st);
    }
  }

  lemma ReadBearable(s: Space, addr: Address, st: Setting)
    requires InApp(addr)
    ensures Slot(s.mem, s.root, PathOf(addr)).Some? ==> Bearable(s, addr, false, st)
  {
    hide Slot;
  }

  lemma ForcedForeign(s: Space, t: Space, u: Space, others: set<nat>, a: Action, st: Setting)
    requires a.KernelStore? && Canonical(a.addr) && InApp(a.addr) && Touched(s, t, PathOf(a.addr), true, false)
    requires PagePath(PathOf(a.addr)) && Slot(t.mem, t.root, PathOf(a.addr)).Some? && u == WordForced(t, PathOf(a.addr), a.index, a.value)
    requires forall f :: f in others ==> At(t.mem, f) == At(s.mem, f)
    requires Slot(t.mem, t.root, PathOf(a.addr)).value.writable <==> Slot(t.mem, t.root, PathOf(a.addr)).value.addr !in others
    ensures Foreign(s, u, a, st, others)
  {
    hide Slot, SameContents, PageAdded, Canonical, At, PathOf, ReadOnlyKept, UserPath;
    var f := Slot(t.mem, t.root, PathOf(a.addr)).value.addr;
    AtAllElse(t.mem, f, At(t.mem, f)[a.index := a.value]);
    AtWritten(t.mem, f, At(t.mem, f)[a.index := a.value]);
  }

  /** An access to the kernel's half where it is mapped. */
  method PerformInKernel(m: Machine, a: Action, ghost tabs: map<nat, Path>, ghost pages: map<nat, Path>) returns (fate: Fate)
    requires m.mm.Valid() && m.View(m.cr3, tabs).Tree() && Owned(m.View(m.cr3, tabs), pages) && KernelMapped(m.View(m.cr3, tabs), pages)
    requires !a.DemandPages? && Canonical(a.addr) && Mapped(a.addr) && Value(a.addr) < m.dpagingBegin
    modifies m`mem, m.mm`held, m.mm.allocMap
    ensures m.mm.Valid()
    ensures Performed(old(m.View(m.cr3, tabs)), m.View(m.cr3, tabs), a, fate, SettingOf(m), old(Others(m.View(m.cr3, tabs), pages)))
    ensures Leaves(old(m.View(m.cr3, tabs)), pages, m.View(m.cr3, tabs), pages, a, fate, SettingOf(m))
  {
    hide Slot, Reach, UserPath, Space.Tree, Owned, Others, Performed, At, Lower, KernelMapped, KernelTable, OwnTable, IsTable, Leaves, DoneInKernel,
      Drained, Value, ReadOnlyKept, BitmapMemoryManager.Valid;
    ghost var s := m.View(m.cr3, tabs);
    ghost var st := SettingOf(m);
    StillMapped(s, pages, a.addr);
    match a
    case Load(addr) =>
      var r;
      ghost var tabs1, pages1;
      r, tabs1, pages1 := m.HandlePageFault(true, false, true, addr, tabs, pages);
      fate := Killed;
      PerformedNothing(s, pages, a, fate, st);
    case KernelLoad(_) =>
      fate := Alive;
      PerformedNothing(s, pages, a, fate, st);
    case Store(addr, _, _) =>
      fate := DrainFrames(m, addr, tabs, pages);
      PerformedDrain(s, pages, m.View(m.cr3, tabs), a, fate, st);
    case KernelStore(addr, index, value) =>
      var f := PageNumber(addr);
      TableTold(s, f);
      fate := if OwnTable(m.mem, m.cr3, f) || KernelTable(m.mem, m.cr3, f) then Astray else Alive;
      m.WriteEntry(f, index, value);
      PerformedHit(s, pages, m.View(m.cr3, tabs), a, fate, st);
  }

  /** An access that does nothing: it fails, or loads from the kernel's half. */
  lemma PerformedNothing(s: Space, pages: map<nat, Path>, a: Action, fate: Fate, st: Setting)
    requires s.Tree() && Owned(s, pages) && KernelMapped(s, pages) && !a.DemandPages?
    requires if Canonical(a.addr) && Mapped(a.addr) then (a.Load? && fate == Killed) || (a.KernelLoad? && fate == Alive)
             else (!Canonical(a.addr) || !InApp(a.addr)) && fate == Faulted(a)
    ensures Performed(s, s, a, fate, st, Others(s, pages)) && Leaves(s, pages, s, pages, a, fate, st)
  {
    hide Slot, Reach, UserPath, Space.Tree, Owned, Others, At, KernelMapped, Canonical;
    ReadOnlySelf(s);
    OthersHeld(s, pages);
  }

  lemma PerformedDrain(s: Space, pages: map<nat, Path>, u: Space, a: Action, fate: Fate, st: Setting)
    requires a.Store? && Canonical(a.addr) && Mapped(a.addr) && Drained(s, u, a.addr, fate, st) && (fate == Killed || fate == Astray)
    requires fate == Killed ==> u.Tree() && Owned(u, pages) && ReadOnlyKept(s, u)
    requires s.Tree() && Owned(s, pages)
    ensures Performed(s, u, a, fate, st, Others(s, pages)) && Leaves(s, pages, u, pages, a, fate, st)
  {
    hide Slot, Reach, UserPath, Space.Tree, Owned, At, KernelMapped, Canonical, ReadOnlyKept, IsTable, LastTaken;
    TablesHeld(s);
    OwnPagesHeld(s, pages);
  }

  lemma PerformedHit(s: Space, pages: map<nat, Path>, u: Space, a: Action, fate: Fate, st: Setting)
    requires a.KernelStore? && Canonical(a.addr) && Mapped(a.addr) && s.Tree() && Owned(s, pages) && KernelMapped(s, pages)
    requires u == s.(mem := s.mem[PageNumber(a.addr) := At(s.mem, PageNumber(a.addr))[a.index := a.value]])
    requires fate == if IsTable(s, PageNumber(a.addr)) then Astray else Alive
    ensures Performed(s, u, a, fate, st, Others(s, pages)) && Leaves(s, pages, u, pages, a, fate, st)
  {
    hide Slot, Reach, UserPath, Space.Tree, Owned, At, KernelMapped, Canonical, ReadOnlyKept, KernelTable, Others, SlotsKept, PageNumber;
    OthersHeld(s, pages);
    var f := PageNumber(a.addr);
    var now := At(s.mem, f)[a.index := a.value];
    AtAllElse(s.mem, f, now);
    AtWritten(s.mem, f, now);
    if fate == Alive {
      StoreSlots(s, u, f);
      StoreTree(s, u);
      StoreOwned(s, pages, u);
      SlotsReadOnly(s, u);
      SameHeld(s, pages, u);
      RootTable(s);
      KernelKept(s, pages, u, pages);
    }
  }

  lemma SameHeld(s: Space, pages: map<nat, Path>, u: Space)
    requires u.held == s.held && u.tabs == s.tabs
    ensures Others(u, pages) == Others(s, pages)
  {
  }

  /** Addresses of the kernel's half lie below every demand area. */
  lemma LowValue(addr: Address)
    requires Canonical(addr) && !InApp(addr)
    ensures Value(addr) < 0x8000_0000_0000
  {
    assert PageNumber(addr) < 512 * 512 * 512 * 256;
  }

  /** One action, start to end. */
  method Perform(m: Machine, a: Action, ghost tabs: map<nat, Path>, ghost pages: map<nat, Path>)
    returns (fate: Fate, ghost tabs': map<nat, Path>, ghost pages': map<nat, Path>)
    requires m.mm.Valid() && m.View(m.cr3, tabs).Tree() && Owned(m.View(m.cr3, tabs), pages) && KernelMapped(m.View(m.cr3, tabs), pages)
    requires 0x8000_0000_0000 <= m.dpagingBegin
    modifies m`mem, m`dpagingEnd, m.mm`held, m.mm.allocMap
    ensures m.mm.Valid()
    ensures Performed(old(m.View(m.cr3, tabs)), m.View(m.cr3, tabs'), a, fate, old(SettingOf(m)), old(Others(m.View(m.cr3, tabs), pages)))
    ensures Leaves(old(m.View(m.cr3, tabs)), pages, m.View(m.cr3, tabs'), pages', a, fate, old(SettingOf(m)))
    ensures SettingOf(m) == old(SettingOf(m)).After(a)
  {
    hide Slot, Reach, UserPath, Space.Tree, Owned, Others, Performed, At, KernelMapped, Leaves, Value, Canonical, FrameBehind,
      BitmapMemoryManager.Valid;
    ghost var s := m.View(m.cr3, tabs);
    ghost var st := SettingOf(m);
    tabs', pages' := tabs, pages;
    if a.DemandPages? {
      m.dpagingEnd := (m.dpagingEnd + 0x1000 * a.pages) % 0x1_0000_0000_0000_0000;
      PerformedDemand(s, pages, a, st);
      return Alive, tabs, pages;
    }
    if !Canonical(a.addr) {
      fate := Faulted(a);
      PerformedNothing(s, pages, a, fate, st);
    } else if InApp(a.addr) {
      fate, tabs', pages' := PerformInApp(m, a, tabs, pages);
    } else {
      LowValue(a.addr);
      InMap(s, pages, a.addr);
      if Mapped(a.addr) {
        fate := PerformInKernel(m, a, tabs, pages);
      } else {
        var r;
        ghost var tabs1, pages1;
        r, tabs1, pages1 := m.HandlePageFault(false, a.Store? || a.KernelStore?, !a.ByCall(), a.addr, tabs, pages);
        fate := Faulted(a);
        PerformedNothing(s, pages, a, fate, st);
      }
    }
  }

  lemma PerformedDemand(s: Space, pages: map<nat, Path>, a: Action, st: Setting)
    requires a.DemandPages? && s.Tree() && Owned(s, pages) && KernelMapped(s, pages)
    ensures Performed(s, s, a, Alive, st, Others(s, pages)) && Leaves(s, pages, s, pages, a, Alive, st)
  {
    hide Slot, Reach, UserPath, Space.Tree, Owned, Others, At, KernelMapped;
    ReadOnlySelf(s);
    OthersHeld(s, pages);
  }

  /** The setting after some actions. */
  function Elapsed(st: Setting, done: seq<Action>): Setting {
    if done == [] then st else Elapsed(st, done[..|done| - 1]).After(done[|done| - 1])
  }

  /** What becomes of the application at step k of a run that ends with this fate. */
  function FateAt(views: seq<Space>, fate: Fate, k: nat): Fate {
    if k + 2 < |views| then Alive else fate
  }

  /** Consecutive views of a run: each action did what it says. The run ends early exactly at an action the
      application does not go on after. */
  ghost predicate RunOf(views: seq<Space>, actions: seq<Action>, fate: Fate, st: Setting, others: set<nat>) {
    && 1 <= |views| <= |actions| + 1
    && (if fate == Alive then |views| == |actions| + 1 else 2 <= |views|)
    && forall k :: 0 <= k < |views| - 1 ==>
         Performed(views[k], views[k + 1], actions[k], FateAt(views, fate, k), Elapsed(st, actions[..k]), others)
  }

  lemma RunStep(views: seq<Space>, done: seq<Action>, u: Space, a: Action, fate: Fate, st: Setting, others: set<nat>)
    requires RunOf(views, done, Alive, st, others) && Performed(views[|views| - 1], u, a, fate, Elapsed(st, done), others)
    ensures RunOf(views + [u], done + [a], fate, st, others) && Elapsed(st, done + [a]) == Elapsed(st, done).After(a)
  {
    hide Performed;
    assert (done + [a])[..|done|] == done;
    forall k | 0 <= k < |views|
      ensures Performed((views + [u])[k], (views + [u])[k + 1], (done + [a])[k], FateAt(views + [u], fate, k), Elapsed(st, (done + [a])[..k]), others)
    {
      assert (done + [a])[..k] == done[..k];
    }
  }

  lemma RunLonger(views: seq<Space>, done: seq<Action>, actions: seq<Action>, fate: Fate, st: Setting, others: set<nat>)
    requires RunOf(views, done, fate, st, others) && done <= actions && fate != Alive
    ensures RunOf(views, actions, fate, st, others)
  {
    hide Performed;
    forall k | 0 <= k < |views| - 1
      ensures Performed(views[k], views[k + 1], actions[k], FateAt(views, fate, k), Elapsed(st, actions[..k]), others)
    {
      assert actions[..k] == done[..k];
    }
  }

  lemma RunNone(s: Space, st: Setting, others: set<nat>)
    ensures RunOf([s], [], Alive, st, others)
  {
    hide Performed;
  }

  lemma RunHasView(views: seq<Space>, actions: seq<Action>, fate: Fate, st: Setting, others: set<nat>)
    requires RunOf(views, actions, fate, st, others)
    ensures 1 <= |views| <= |actions| + 1
  {
    hide Performed;
  }

  /** The frames that a run takes for good: those its last action does. */
  ghost function LeakOf(views: seq<Space>, actions: seq<Action>, st: Setting): set<nat>
    requires 1 <= |views| <= |actions| + 1
  {
    if |views| == 1 then {}
    else Leak(views[|views| - 2], actions[|views| - 2], Elapsed(st, actions[..|views| - 2]))
  }

  /** CallApp: the application acts until it ends or does not go on. */
  method RunActions(m: Machine, actions: seq<Action>, ghost tabs: map<nat, Path>, ghost pages: map<nat, Path>)
    returns (fate: Fate, ghost tabs': map<nat, Path>, ghost pages': map<nat, Path>, ghost views: seq<Space>)
    requires m.mm.Valid() && m.View(m.cr3, tabs).Tree() && Owned(m.View(m.cr3, tabs), pages) && KernelMapped(m.View(m.cr3, tabs), pages)
    requires 0x8000_0000_0000 <= m.dpagingBegin
    modifies m`mem, m`dpagingEnd, m.mm`held, m.mm.allocMap
    ensures m.mm.Valid()
    ensures RunOf(views, actions, fate, old(SettingOf(m)), old(Others(m.View(m.cr3, tabs), pages)))
    ensures views[0] == old(m.View(m.cr3, tabs)) && views[|views| - 1] == m.View(m.cr3, tabs')
    ensures fate != Astray ==>
              && m.View(m.cr3, tabs').Tree() && Owned(m.View(m.cr3, tabs'), pages')
              && Others(m.View(m.cr3, tabs'), pages') == old(Others(m.View(m.cr3, tabs), pages)) + LeakOf(views, actions, old(SettingOf(m)))
    ensures LeakOf(views, actions, old(SettingOf(m))) !! old(Others(m.View(m.cr3, tabs), pages))
    ensures old(Others(m.View(m.cr3, tabs), pages)) <= m.mm.held
    ensures fate == Alive || fate == Halted ==> LeakOf(views, actions, old(SettingOf(m))) == {}
  {
    hide Slot, Reach, UserPath, Space.Tree, Owned, Others, Performed, RunOf, Leaves, KernelMapped, Leak, LeakOf, Elapsed, BitmapMemoryManager.Valid;
    ghost var s := m.View(m.cr3, tabs);
    ghost var st := SettingOf(m);
    ghost var others := Others(s, pages);
    LeakNone(s, st);
    tabs', pages', fate, views := tabs, pages, Alive, [s];
    RunNone(s, st, others);
    OthersHeld(s, pages);
    for k := 0 to |actions|
      invariant m.mm.Valid() && m.View(m.cr3, tabs').Tree() && Owned(m.View(m.cr3, tabs'), pages') && KernelMapped(m.View(m.cr3, tabs'), pages')
      invariant Others(m.View(m.cr3, tabs'), pages') == others <= m.mm.held
      invariant SettingOf(m) == Elapsed(st, actions[..k]) && 0x8000_0000_0000 <= m.dpagingBegin
      invariant RunOf(views, actions[..k], Alive, st, others) && |views| == k + 1 && views[0] == s
      invariant views[|views| - 1] == m.View(m.cr3, tabs')
      invariant LeakOf(views, actions[..k], st) == {}
    {
      ghost var t := m.View(m.cr3, tabs');
      ghost var pages1 := pages';
      fate, tabs', pages' := Perform(m, actions[k], tabs', pages');
      ghost var u := m.View(m.cr3, tabs');
      RunStep(views, actions[..k], u, actions[k], fate, st, others);
      NotOthers(t, pages1, actions[k], Elapsed(st, actions[..k]));
      LeavesSo(t, pages1, u, pages', actions[k], fate, Elapsed(st, actions[..k]));
      LeakStep(views, actions[..k], u, actions[k], st);
      views := views + [u];
      assert actions[..k] + [actions[k]] == actions[..k + 1];
      if fate != Alive {
        RunLonger(views, actions[..k + 1], actions, fate, st, others);
        LeakLonger(views, actions[..k + 1], actions, st);
        RunHasView(views, actions, fate, st, others);
        return;
      }
    }
    fate := Alive;
    assert actions[..|actions|] == actions;
    RunHasView(views, actions, fate, st, others);
  }

  lemma LeakNone(s: Space, st: Setting)
    ensures LeakOf([s], [], st) == {} && Elapsed(st, []) == st
  {
  }

  lemma LeakStep(views: seq<Space>, done: seq<Action>, u: Space, a: Action, st: Setting)
    requires |views| == |done| + 1
    ensures LeakOf(views + [u], done + [a], st) == Leak(views[|views| - 1], a, Elapsed(st, done))
  {
    hide Leak;
    assert (done + [a])[..|done|] == done;
  }

  lemma LeakLonger(views: seq<Space>, done: seq<Action>, actions: seq<Action>, st: Setting)
    requires 1 <= |views| <= |done| + 1 && done <= actions
    ensures LeakOf(views, actions, st) == LeakOf(views, done, st)
  {
    hide Leak;
    if |views| > 1 {
      assert actions[..|views| - 2] == done[..|views| - 2];
    }
  }

  lemma NotOthers(s: Space, pages: map<nat, Path>, a: Action, st: Setting)
    ensures Leak(s, a, st) !! Others(s, pages)
  {
  }

  lemma LeavesSo(s: Space, pages: map<nat, Path>, u: Space, pages': map<nat, Path>, a: Action, fate: Fate, st: Setting)
    requires Leaves(s, pages, u, pages', a, fate, st)
    ensures fate != Astray ==> u.Tree() && Owned(u, pages') && Others(u, pages') == Others(s, pages) + Leak(s, a, st)
    ensures fate == Alive || fate == Halted ==> Leak(s, a, st) == {} && Others(u, pages') == Others(s, pages)
    ensures fate == Alive ==> KernelMapped(u, pages')
    ensures Others(s, pages) <= u.held
  {
    hide Slot, Reach, UserPath, Space.Tree, Owned, Others, KernelMapped, Leak;
  }

  /** Nobody else's frames change in any view of a run. */
  ghost predicate Isolated(views: seq<Space>, others: set<nat>) {
    forall k, f :: 0 <= k < |views| && f in others ==> At(views[k].mem, f) == At(views[0].mem, f)
  }

  /** No action of a run changes a word of a frame of others: neither a system call, through a page that is
      still shared or through the kernel's half, nor the handler of a store to the kernel's half. */
  ghost predicate NothingSpoilt(views: seq<Space>, actions: seq<Action>, st: Setting, others: set<nat>)
    requires |views| <= |actions| + 1
  {
    forall k :: 0 <= k < |views| - 1 ==> !Spoils(views[k], actions[k], Elapsed(st, actions[..k]), others)
  }

  /** Isolation, exactly. */
  lemma RunIsolated(views: seq<Space>, actions: seq<Action>, fate: Fate, st: Setting, others: set<nat>)
    requires RunOf(views, actions, fate, st, others)
    ensures Isolated(views, others) <==> NothingSpoilt(views, actions, st, others)
  {
    hide Performed, Spoils, Foreign, At, Hit, Elapsed, FateAt;
    forall k | 0 <= k < |views| - 1
      ensures Foreign(views[k], views[k + 1], actions[k], Elapsed(st, actions[..k]), others)
    {
      StepForeign(views[k], views[k + 1], actions[k], FateAt(views, fate, k), Elapsed(st, actions[..k]), others);
    }
    if NothingSpoilt(views, actions, st, others) {
      forall k, f | 0 <= k < |views| && f in others
        ensures At(views[k].mem, f) == At(views[0].mem, f)
      {
        StillThere(views, actions, st, others, k, f);
      }
    } else {
      var k :| 0 <= k < |views| - 1 && Spoils(views[k], actions[k], Elapsed(st, actions[..k]), others);
      var f := Spoilt(views[k], views[k + 1], actions[k], Elapsed(st, actions[..k]), others);
      assert At(views[k + 1].mem, f) != At(views[k].mem, f);
    }
  }

  lemma StepForeign(s: Space, u: Space, a: Action, fate: Fate, st: Setting, others: set<nat>)
    requires Performed(s, u, a, fate, st, others)
    ensures Foreign(s, u, a, st, others) && (fate != Astray ==> ReadOnlyKept(s, u))
  {
    hide Foreign, ReadOnlyKept, DoneInApp, DoneInKernel;
  }

  lemma {:induction false} StillThere(views: seq<Space>, actions: seq<Action>, st: Setting, others: set<nat>, k: nat, f: nat)
    requires k < |views| <= |actions| + 1 && NothingSpoilt(views, actions, st, others) && f in others
    requires forall i :: 0 <= i < |views| - 1 ==> Foreign(views[i], views[i + 1], actions[i], Elapsed(st, actions[..i]), others)
    ensures At(views[k].mem, f) == At(views[0].mem, f)
  {
    hide Spoils, At, Foreign;
    if k > 0 {
      var i := k - 1;
      StillThere(views, actions, st, others, i, f);
      assert Foreign(views[i], views[i + 1], actions[i], Elapsed(st, actions[..i]), others);
      NotSpoilt(views[i], views[i + 1], actions[i], Elapsed(st, actions[..i]), others, f);
    }
  }

  lemma NotSpoilt(s: Space, u: Space, a: Action, st: Setting, others: set<nat>, f: nat)
    requires Foreign(s, u, a, st, others) && f in others && !Spoils(s, a, st, others)
    ensures At(u.mem, f) == At(s.mem, f)
  {
    hide At, Hit;
    if Hit(s, a, st).Some? {
      var p := Hit(s, a, st).value;
      if p.word.frame == f {
        assert At(s.mem, f)[p.word.index := p.value] == At(s.mem, f);
      }
    }
  }

  lemma Spoilt(s: Space, u: Space, a: Action, st: Setting, others: set<nat>) returns (f: nat)
    requires Foreign(s, u, a, st, others) && Spoils(s, a, st, others)
    ensures f in others && At(u.mem, f) != At(s.mem, f)
    ensures Hit(s, a, st).Some? && Hit(s, a, st).value.word.frame == f
  {
    hide At, Hit;
    var p := Hit(s, a, st).value;
    f := p.word.frame;
    assert At(u.mem, f)[p.word.index] == p.value != At(s.mem, f)[p.word.index];
  }

  /** A frame that src maps as a page. */
  ghost predicate PageFrame(src: Space, f: nat) {
    exists q :: PagePath(q) && Slot(src.mem, src.root, q).Some? && Slot(src.mem, src.root, q).value.addr == f
  }

  /** What t maps read-only are frames that src maps at the same paths. */
  ghost predicate ReadOnlyFrom(src: Space, t: Space) {
    forall q :: PagePath(q) && Slot(t.mem, t.root, q).Some? && !Slot(t.mem, t.root, q).value.writable ==>
      Slot(src.mem, src.root, q).Some? && Slot(src.mem, src.root, q).value.addr == Slot(t.mem, t.root, q).value.addr
  }

  lemma ReadOnlyFromKept(src: Space, t: Space, u: Space)
    requires ReadOnlyFrom(src, t) && ReadOnlyKept(t, u)
    ensures ReadOnlyFrom(src, u)
  {
    hide Slot, UserPath;
  }

  /** Some action of a run aims at a frame through the kernel's half. */
  predicate Aimed(actions: seq<Action>, f: nat) {
    exists k | 0 <= k < |actions| :: actions[k].Target().Some? && actions[k].Target().value.frame == f
  }

  /** Whatever is done in a run, the frames of others keep their contents that are no pages of the image and
      that nobody aims at through the kernel's half. */
  lemma {:induction false} OnlyImagePages(src: Space, views: seq<Space>, actions: seq<Action>, fate: Fate, st: Setting, others: set<nat>, k: nat, f: nat)
    requires RunOf(views, actions, fate, st, others) && ReadOnlyFrom(src, views[0]) && k < |views|
    requires f in others && !PageFrame(src, f) && !Aimed(actions, f)
    ensures k + 1 < |views| || fate != Astray ==> ReadOnlyFrom(src, views[k])
    ensures At(views[k].mem, f) == At(views[0].mem, f)
  {
    hide Performed, Spoils, Foreign, At, Slot, ReadOnlyFrom, ReadOnlyKept, PageFrame, Action.Target;
    if k > 0 {
      var i := k - 1;
      OnlyImagePages(src, views, actions, fate, st, others, i, f);
      var now := Elapsed(st, actions[..i]);
      StepForeign(views[i], views[i + 1], actions[i], FateAt(views, fate, i), now, others);
      if FateAt(views, fate, i) != Astray {
        ReadOnlyFromKept(src, views[i], views[i + 1]);
      }
      assert actions[i].Target().Some? ==> actions[i].Target().value.frame != f;
      OneStepForeign(src, views[i], views[i + 1], actions[i], now, others, f);
    }
  }

  lemma OneStepForeign(src: Space, s: Space, u: Space, a: Action, st: Setting, others: set<nat>, f: nat)
    requires Foreign(s, u, a, st, others) && ReadOnlyFrom(src, s) && f in others && !PageFrame(src, f)
    requires a.Target().Some? ==> a.Target().value.frame != f
    ensures At(u.mem, f) == At(s.mem, f)
  {
    hide At, Slot, Action.Target;
  }

  /** The access finds its page, at once or after its fault. */
  ghost predicate Served(s: Space, a: Action, st: Setting)
    requires !a.DemandPages?
  {
    Canonical(a.addr) && if InApp(a.addr) then Bearable(s, a.addr, a.Store?, st) else Mapped(a.addr) && a.ByCall()
  }

  /** The kernel halts exactly at an access of a system call that is not served, and the application is killed
      exactly at one of its own, unless that goes astray; no store to the kernel's half is served. */
  lemma FateIs(s: Space, u: Space, a: Action, fate: Fate, st: Setting, others: set<nat>)
    requires Performed(s, u, a, fate, st, others) && !a.DemandPages?
    ensures fate == Halted <==> a.ByCall() && !Served(s, a, st)
    ensures fate == Killed <==> !a.ByCall() && !Served(s, a, st) && fate != Astray
    ensures fate == Alive ==> Served(s, a, st)
    ensures fate == Astray ==> a.KernelStore? || (a.Target().Some? && IsTable(s, a.Target().value.frame))
  {
    hide Bearable, Touched, Foreign, IsTable, Canonical, ReadOnlyKept, KernelTable, LastTaken;
  }

  /** The address of a frame in the kernel's half. */
  function AddressOfFrame(f: nat): (a: Address)
    requires f < PAGE_DIRECTORIES * 512 * 512
    ensures Canonical(a) && Mapped(a) && PageNumber(a) == f
  {
    var a := f / 512;
    assert f == 512 * a + f % 512 && a == 512 * (a / 512) + a % 512;
    Address(0, f % 512, a % 512, a / 512, 0, 0)
  }

  /** Isolation fails for any frame of others below 64 GiB: a system call given its physical address writes to
      it, without a fault. */
  lemma PointerToFrame(s: Space, u: Space, f: nat, index: Index, value: Entry, fate: Fate, st: Setting, others: set<nat>)
    requires f < PAGE_DIRECTORIES * 512 * 512 && f in others && At(s.mem, f)[index] != value
    requires Performed(s, u, KernelStore(AddressOfFrame(f), index, value), fate, st, others)
    ensures Spoils(s, KernelStore(AddressOfFrame(f), index, value), st, others)
    ensures At(u.mem, f) == At(s.mem, f)[index := value] != At(s.mem, f) && (fate == Alive || fate == Astray)
  {
    hide At, PageNumber, Mapped, Canonical, IsTable, ReadOnlyKept;
    var a := KernelStore(AddressOfFrame(f), index, value);
    assert a.Target() == Some(Word(f, index));
    assert At(s.mem, f)[index := value][index] == value;
    AtWritten(s.mem, f, At(s.mem, f)[index := value]);
  }

  /** The address apps/fault/fault.cpp writes to when it is asked for wr_kernel. */
  const WR_KERNEL: Address := Address(0x100, 0, 0, 0, 0, 0)

  /** That program takes all frames that are free with it, and leaves a word of the first frame pointing to
      the last of them. */
  lemma WriteToKernel(views: seq<Space>, index: Index, value: Entry, fate: Fate, st: Setting, others: set<nat>)
    requires RunOf(views, [Store(WR_KERNEL, index, value)], fate, st, others)
    requires st.Free(views[0]) != {} && !IsTable(views[0], 0)
    ensures fate == Killed && LeakOf(views, [Store(WR_KERNEL, index, value)], st) == st.Free(views[0]) != {}
    ensures 0 in others && 0 in views[0].held ==>
              At(views[1].mem, 0)[0] == Pointed(At(views[0].mem, 0)[0], HighestFree(views[0].held, st.rangeBegin, st.rangeEnd))
  {
    hide At, IsTable, Performed, HighestFree, LowestFree, FreeFrames;
    var a := Store(WR_KERNEL, index, value);
    assert [a][..0] == [];
    assert Performed(views[0], views[0 + 1], [a][0], FateAt(views, fate, 0), Elapsed(st, [a][..0]), others);
    StoreDrains(views[0], views[1], a, fate, st, others);
    assert a.Target().Some? && RegionBase(WR_KERNEL) == 0;
  }

  lemma StoreDrains(s: Space, u: Space, a: Action, fate: Fate, st: Setting, others: set<nat>)
    requires a.Store? && Canonical(a.addr) && Mapped(a.addr) && Performed(s, u, a, fate, st, others)
    ensures Drained(s, u, a.addr, fate, st)
  {
    hide At, Drained, Foreign, ReadOnlyKept;
  }
}
