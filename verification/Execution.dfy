/** kernel/system.cpp: the whole life of an application in the kernel, from the first page-map root, under
    which its image is built, to the return of the second, under which it runs. */
module Execution {
  import opened Options
  import opened PageEntry
  import opened PageTree
  import opened PageOwnership
  import opened PageSharing
  import opened PageContents
  import opened MemoryManager
  import opened KernelHalf
  import opened FrameCounts
  import opened Paging
  import opened AppFrames
  import opened Actions
  import opened System
  import opened PageBytes
  import opened Segments
  import opened Images

  /** How a call ends: without a root; for a header that is none of an executable's; for want of frames; in
      the kernel's halt, at a page the copy of a segment misses; or somewhere behind the second root. */
  datatype Ending = NoImageRoot | NotExecutable | ImageCut | LoadHalted | Started(outcome: Outcome) {
    /** The launch stopped between the second root and the first instruction. */
    predicate HalfWay() {
      Started? && (outcome == Abandoned || outcome == Refused)
    }
  }

  /** The tree of an image: its root, its tables and its pages. */
  datatype Image = Image(root: nat, tabs: map<nat, Path>, pages: map<nat, Path>) {
    ghost function Frames(): set<nat> {
      tabs.Keys + pages.Keys
    }
  }

  /** The checks of the header: the type of the file, and the address of the first load segment. */
  predicate Executable(header: bool, segments: seq<Segment>) {
    header && segments != [] && Value(APP_BASE) <= Value(segments[0].vaddr)
  }

  /** vaddr_end of LoadELF. */
  function EndOf(segments: seq<Segment>): nat {
    if segments == [] then 0
    else
      var s := segments[|segments| - 1];
      var before := EndOf(segments[..|segments| - 1]);
      if before < Value(s.vaddr) + s.memsz then Value(s.vaddr) + s.memsz else before
  }

  /** elf_next_page, where the demand area begins. */
  function NextPage(segments: seq<Segment>): nat {
    (EndOf(segments) + 4095) / 4096 * 4096
  }

  lemma {:induction false} EndBehind(segments: seq<Segment>, k: nat)
    requires k < |segments|
    ensures Value(segments[k].vaddr) <= EndOf(segments)
  {
    hide Value;
    if k < |segments| - 1 {
      EndBehind(segments[..|segments| - 1], k);
    }
  }

  /** The demand area lies in the application's half. */
  lemma NextPageHigh(header: bool, segments: seq<Segment>)
    requires Executable(header, segments)
    ensures 0x8000_0000_0000 <= NextPage(segments)
  {
    AppAddresses();
    EndBehind(segments, 0);
  }

  /** How many frames a launch takes on top of the image. */
  ghost function LaunchNeed(segments: seq<Segment>, fits: bool): nat {
    |TablesOf(segments) + StackTables()| + |OwnPaths(fits)|
  }

  /** How a call ends, decided by what can be known before it: the free frames, the header, the segments,
      and whether the arguments fit. */
  ghost function EndingOf(free: nat, header: bool, segments: seq<Segment>, fits: bool): Ending {
    match LoadEnding(free, header, segments)
    case Some(ending) => ending
    case None => Started(OutcomeOf(free - ImageNeed(segments), LaunchNeed(segments, fits), fits))
  }

  /** Whether it ends before the second root. */
  ghost function LoadEnding(free: nat, header: bool, segments: seq<Segment>): (r: Option<Ending>)
    ensures r == None ==> free >= ImageNeed(segments)
  {
    if free == 0 then Some(NoImageRoot)
    else if !Executable(header, segments) then Some(NotExecutable)
    else if free < ImageNeed(Begun(segments)) then Some(ImageCut)
    else if Stop(segments, 0) < |segments| then Some(LoadHalted)
    else None
  }

  /** What an application sees before its first instruction. */
  ghost function FirstContents(segments: seq<Segment>, args: Table, q: Path): Option<Table>
    requires PagePath(q)
  {
    if Rank(q) == PageNumber(ARGS_ADDRESS) then Some(args)
    else if InStack(q) then Some(Blank())
    else ImageAt(segments, q)
  }

  /** A tree that the call leaves behind in memory mem. */
  ghost predicate LeftBehind(held: set<nat>, before: Memory, image: Image, mem: Memory) {
    Built(held, before, Space(mem, held + image.Frames(), image.root, image.tabs), image.pages)
  }

  /** Nobody aims at one of these frames through the kernel's half. */
  ghost predicate Unaimed(actions: seq<Action>, frames: set<nat>) {
    forall f :: f in frames ==> !Aimed(actions, f)
  }

  /** The run of an application that was started. */
  ghost predicate Life(views: seq<Space>, actions: seq<Action>, fate: Fate, segments: seq<Segment>, args: Option<Table>, st: Setting, others: set<nat>) {
    && args.Some? && 1 <= |views| <= |actions| + 1
    && RunOf(views, actions, fate, st, others)
    && (forall q :: PagePath(q) ==> Contents(views[0], q) == FirstContents(segments, args.value, q))
    && (Isolated(views, others) <==> NothingSpoilt(views, actions, st, others))
  }

  /** The first half of LoadApp: a root, and under it the tree of the image. */
  method BuildImage(m: Machine, header: bool, segments: seq<Segment>) returns (ending: Option<Ending>, ghost image: Image)
    requires m.mm.Valid() && m.dpagingEnd <= m.dpagingBegin && m.cr3 in m.mm.held && AllInPlace(segments)
    modifies m`mem, m`cr3, m.mm`held, m.mm.allocMap
    ensures m.mm.Valid()
    ensures ending == LoadEnding(|FreeFrames(old(m.mm.held), m.mm.rangeBegin, m.mm.rangeEnd)|, header, segments)
    ensures if ending == Some(NoImageRoot) then m.mm.held == old(m.mm.held) && m.mem == old(m.mem)
            else image.root == m.cr3 && Built(old(m.mm.held), old(m.mem), m.View(m.cr3, image.tabs), image.pages)
    ensures ending != Some(NoImageRoot) ==> Lower(m.mem, m.cr3) == old(Lower(m.mem, m.cr3))
    ensures ending == None || ending == Some(LoadHalted) ==>
              image.tabs.Values == TablesOf(Begun(segments)) && image.pages.Values == PagesOf(Begun(segments))
    ensures ending == None ==>
              && Begun(segments) == segments
              && (forall q :: PagePath(q) ==> Contents(m.View(m.cr3, image.tabs), q) == ImageAt(segments, q))
              && |FreeFrames(old(m.mm.held), m.mm.rangeBegin, m.mm.rangeEnd)| ==
                 |FreeFrames(m.mm.held, m.mm.rangeBegin, m.mm.rangeEnd)| + ImageNeed(segments)
  {
    hide Slot, Reach, UserPath, Space.Tree, Owned, At, Built, FreeFrames, TablesOf, PagesOf, Within, ImageAt, AllInPlace, AbsentThrough, Stop, Loads,
      Begun, Lower, Executable, BitmapMemoryManager.Valid, Machine.Exhausted;
    ghost var held, mem := m.mm.held, m.mem;
    ghost var begin, end := m.mm.rangeBegin, m.mm.rangeEnd;
    image := Image(0, map[], map[]);
    var ok;
    ghost var tabs, pages;
    ok, tabs := SetupPML4(m);
    if !ok {
      AllTaken(m);
      NoFrames(held, begin, end);
      return Some(NoImageRoot), image;
    }
    ghost var s := m.View(m.cr3, tabs);
    FirstRoot(held, mem, s, begin, end);
    image := Image(m.cr3, tabs, map[]);
    if !Executable(header, segments) {
      return Some(NotExecutable), image;
    }
    var r;
    ghost var at;
    r, tabs, pages, at := CopyLoadSegments(m, segments, tabs, held, mem);
    ghost var t := m.View(m.cr3, tabs);
    WithinTrans(held, s.held, t.held, begin, end);
    image := Image(m.cr3, tabs, pages);
    BuiltCount(held, mem, t, pages);
    FreeAfter(held, mem, t, pages, begin, end);
    StopIs(segments, at, r);
    match r
    case Complete => ending := None;
    case PageMissing => ending := Some(LoadHalted);
    case OutOfFrames =>
      AllTaken(m);
      NoFrames(t.held, begin, end);
      CutCount(segments, at, tabs, pages);
      ending := Some(ImageCut);
  }

  /** Where the load stops is where the first segment does not load. */
  lemma StopIs(segments: seq<Segment>, at: nat, r: LoadResult)
    requires at <= |segments| && (forall j :: 0 <= j < at ==> Loads(segments, j))
    requires at == |segments| || r != Complete
    requires r == Complete ==> at == |segments|
    requires r != Complete ==> at < |segments|
    requires r == PageMissing ==> !Loads(segments, at)
    ensures r == Complete ==> Stop(segments, 0) == |segments| && Begun(segments) == segments
    ensures r == PageMissing ==> Stop(segments, 0) == at && Begun(segments) == segments[..at + 1]
    ensures r == OutOfFrames ==> segments[..at + 1] <= Begun(segments)
  {
    hide Loads, ImageAt;
  }

  lemma CutCount(segments: seq<Segment>, at: nat, tabs: map<nat, Path>, pages: map<nat, Path>)
    requires at < |segments| && segments[..at + 1] <= Begun(segments)
    requires tabs.Values <= TablesOf(segments[..at + 1])
    requires pages.Values <= PagesOf(segments[..at + 1]) && pages.Values != PagesOf(segments[..at + 1])
    ensures |tabs.Values| + |pages.Values| < ImageNeed(Begun(segments))
  {
    hide TablesOf, PagesOf, Begun;
    var few, all := segments[..at + 1], Begun(segments);
    PagesOfFront(few, all);
    TablesMono(few, all);
    SubsetCount(tabs.Values, TablesOf(all));
    SubsetCount(pages.Values, PagesOf(all));
  }

  lemma PagesOfFront(few: seq<Segment>, all: seq<Segment>)
    requires few <= all
    ensures PagesOf(few) <= PagesOf(all)
  {
    hide PathAt;
    forall q | q in PagesOf(few)
      ensures q in PagesOf(all)
    {
      var i: nat :| i < |few| && q in few[i].Paths();
      assert all[i] == few[i];
    }
  }

  /** ExecuteApp as a whole. Frames: the image's tree is never given back, so what is held afterwards is
      what was held before, the frames of that tree, those a store to the kernel's half took, and, if the
      launch stopped half-way or the kernel halted under the application, those of the application's: the same
      as before only if there was no frame for the image's root. What was held before keeps its contents
      but for frames somebody aims at through the kernel's half. What the application sees at first is what
      its segments and arguments say; and all frames of others, the image's among them, stay as they were
      exactly if no action of the run changes a word of them. */
  method ExecuteApp(m: Machine, header: bool, segments: seq<Segment>, kernelRoot: nat, args: Option<Table>, actions: seq<Action>)
    returns (ending: Ending, fate: Fate, ghost views: seq<Space>, ghost image: Image, ghost tabs: map<nat, Path>, ghost pages: map<nat, Path>)
    requires m.mm.Valid() && m.dpagingEnd <= m.dpagingBegin && m.cr3 in m.mm.held && KernelBelow(m.mem, m.cr3, m.mm.held)
    requires AllInPlace(segments)
    modifies m, m.mm`held, m.mm.allocMap
    ensures m.mm.Valid() && m.strayFrees == old(m.strayFrees)
    ensures ending == EndingOf(|FreeFrames(old(m.mm.held), m.mm.rangeBegin, m.mm.rangeEnd)|, header, segments, args.Some?)
    ensures ending != Started(Launched) ==> fate == Alive
    ensures forall f :: f in old(m.mm.held) ==>
              f in m.mm.held && (At(m.mem, f) == At(old(m.mem), f) || (ending == Started(Launched) && Aimed(actions, f)))
    ensures m.mm.held == old(m.mm.held) <==> ending == NoImageRoot
    ensures ending != NoImageRoot && (ending == Started(Launched) ==> Unaimed(actions, old(m.mm.held) + image.Frames())) ==>
              LeftBehind(old(m.mm.held), old(m.mem), image, m.mem)
    ensures ending in {NotExecutable, ImageCut, LoadHalted, Started(NoRoot)} ==> m.mm.held == old(m.mm.held) + image.Frames()
    ensures ending.HalfWay() || fate == Halted ==> TreeLeft(m.View(m.cr3, tabs), pages, old(m.mm.held) + image.Frames())
    ensures ending.Started? || ending == LoadHalted ==>
              && image.tabs.Values == TablesOf(Begun(segments)) && image.pages.Values == PagesOf(Begun(segments))
              && |image.Frames()| == ImageNeed(Begun(segments))
    ensures ending == Started(Launched) ==>
              var st, others := Setting(NextPage(segments), NextPage(segments), m.mm.rangeBegin, m.mm.rangeEnd), old(m.mm.held) + image.Frames();
              && Life(views, actions, fate, segments, args, st, others)
              && LeakOf(views, actions, st) !! others
              && (Ended(Launched, fate) ==> m.cr3 == kernelRoot && m.mm.held == others + LeakOf(views, actions, st))
  {
    hide Slot, Reach, UserPath, Space.Tree, Owned, Others, At, Built, RunOf, Loaded, FreeFrames, Need, LaunchNeed, ImageNeed, TablesOf, PagesOf, Isolated,
      NothingSpoilt, PageFrame, ImageAt, AllInPlace, RoomForStack, FirstContents, LeftBehind, Image.Frames, Begun, Stop, Loads, Executable, Lower,
      KernelBelow, LeakOf, Aimed, Unaimed, TreeLeft, NextPage, LoadEnding, BitmapMemoryManager.Valid;
    ghost var held, mem := m.mm.held, m.mem;
    fate, views, tabs, pages := Alive, [], map[], map[];
    ghost var s := m.View(m.cr3, map[]);
    var early;
    early, image := BuildImage(m, header, segments);
    EarlyIs(|FreeFrames(held, m.mm.rangeBegin, m.mm.rangeEnd)|, header, segments, args.Some?);
    if early == Some(NoImageRoot) {
      return NoImageRoot, fate, views, image, tabs, pages;
    }
    ghost var src := m.View(m.cr3, image.tabs);
    FramesLeft(held, mem, src, image);
    if early.Some? {
      KeptBefore(held, mem, src, image.pages);
      if early == Some(LoadHalted) {
        FramesCount(held, mem, src, image, Begun(segments));
      }
      return early.value, fate, views, image, tabs, pages;
    }
    BuiltTree(held, mem, src, image.pages);
    StackIsFree(src, segments);
    FramesCount(held, mem, src, image, segments);
    StillBelow(s, held, mem, src, image.pages);
    NextPageHigh(header, segments);
    var outcome;
    outcome, fate, views, tabs, pages := RunImage(m, m.cr3, NextPage(segments), kernelRoot, args, actions, image.tabs);
    ending := Started(outcome);
    KeptAfter(held, mem, src, image, outcome == Launched, actions, m.mem);
    NeedOfImage(src, segments, args.Some?);
    if outcome == Launched {
      LifeOf(src, views, actions, fate, segments, args, Setting(NextPage(segments), NextPage(segments), m.mm.rangeBegin, m.mm.rangeEnd), src.held);
    }
  }

  lemma EarlyIs(free: nat, header: bool, segments: seq<Segment>, fits: bool)
    ensures match LoadEnding(free, header, segments)
            case Some(ending) => EndingOf(free, header, segments, fits) == ending && !ending.Started?
            case None => Executable(header, segments) && free >= ImageNeed(segments)
                         && EndingOf(free, header, segments, fits) ==
                            Started(OutcomeOf(free - ImageNeed(segments), LaunchNeed(segments, fits), fits))
  {
    hide ImageNeed, Executable, LaunchNeed, Stop, Loads;
  }

  /** The image's root has the kernel's half of the root before it. */
  lemma StillBelow(s: Space, held: set<nat>, mem: Memory, t: Space, pages: map<nat, Path>)
    requires s.mem == mem && KernelBelow(mem, s.root, held) && Built(held, mem, t, pages) && Lower(t.mem, t.root) == Lower(mem, s.root)
    ensures KernelBelow(t.mem, t.root, t.held)
  {
    hide Slot, Reach, UserPath, Space.Tree, At, OneToOne, KernelTable, Lower;
    KernelStays(mem, s.root, t.mem, t.root);
  }

  /** What the run left of what was there before it. */
  lemma KeptAfter(held: set<nat>, mem: Memory, t: Space, image: Image, launched: bool, actions: seq<Action>, mem': Memory)
    requires image == Image(t.root, t.tabs, image.pages) && t.held == held + image.Frames() && Built(held, mem, t, image.pages)
    requires forall f :: f in t.held && (launched ==> !PageFrame(t, f) && !Aimed(actions, f)) ==> At(mem', f) == At(t.mem, f)
    ensures forall f :: f in held ==> f in t.held && (At(mem', f) == At(mem, f) || (launched && Aimed(actions, f)))
    ensures (launched ==> Unaimed(actions, t.held)) ==> LeftBehind(held, mem, image, mem')
  {
    hide Slot, Reach, UserPath, Space.Tree, At, Built, PageFrame, Aimed, Image.Frames, LeftBehind;
    forall f | f in held
      ensures f in t.held && !PageFrame(t, f) && At(t.mem, f) == At(mem, f)
    {
      NotOfImage(held, mem, t, image.pages, f);
    }
    if launched ==> Unaimed(actions, t.held) {
      ImageKept(held, mem, t, image.pages, mem');
      ImageLeft(held, mem, t, image, mem');
    }
  }

  lemma KeptBefore(held: set<nat>, mem: Memory, t: Space, pages: map<nat, Path>)
    requires Built(held, mem, t, pages)
    ensures forall f :: f in held ==> f in t.held && At(t.mem, f) == At(mem, f)
  {
    hide Slot, Reach, UserPath, Space.Tree, At, Built, PageFrame;
    forall f | f in held
      ensures f in t.held && At(t.mem, f) == At(mem, f)
    {
      NotOfImage(held, mem, t, pages, f);
    }
  }

  lemma ImageLeft(held: set<nat>, mem: Memory, t: Space, image: Image, mem': Memory)
    requires image.root == t.root && image.tabs == t.tabs && t.held == held + image.Frames()
    requires Built(held, mem, t.(mem := mem'), image.pages)
    ensures LeftBehind(held, mem, image, mem')
  {
    hide Built, Image.Frames;
    assert t.(mem := mem') == Space(mem', held + image.Frames(), image.root, image.tabs);
  }

  lemma FramesCount(held: set<nat>, mem: Memory, t: Space, image: Image, segments: seq<Segment>)
    requires image == Image(t.root, t.tabs, image.pages) && Built(held, mem, t, image.pages)
    requires image.tabs.Values == TablesOf(segments) && image.pages.Values == PagesOf(segments)
    ensures |image.Frames()| == ImageNeed(segments)
  {
    hide Slot, Reach, UserPath, At, Space.Tree, TablesOf, PagesOf, Built, Image.Frames;
    BuiltCount(held, mem, t, image.pages);
    FramesLeft(held, mem, t, image);
    FramesApart(held, mem, t, image);
  }

  lemma FramesApart(held: set<nat>, mem: Memory, t: Space, image: Image)
    requires image == Image(t.root, t.tabs, image.pages) && Built(held, mem, t, image.pages)
    ensures t.held - held == image.Frames()
  {
    hide Slot, Reach, UserPath, At, Space.Tree;
  }

  lemma LifeOf(image: Space, views: seq<Space>, actions: seq<Action>, fate: Fate, segments: seq<Segment>, args: Option<Table>, st: Setting, others: set<nat>)
    requires RunOf(views, actions, fate, st, others) && args.Some? && Loaded(image, views[0], args.value)
    requires Isolated(views, others) <==> NothingSpoilt(views, actions, st, others)
    requires forall q :: PagePath(q) ==> Contents(image, q) == ImageAt(segments, q)
    ensures Life(views, actions, fate, segments, args, st, others)
  {
    hide Slot, UserPath, RunOf, Loaded, Isolated, NothingSpoilt, ImageAt, At, FirstContents;
    RunHasView(views, actions, fate, st, others);
    forall q | PagePath(q)
      ensures Contents(views[0], q) == FirstContents(segments, args.value, q)
    {
      FirstSeen(image, views[0], segments, args.value, q);
    }
  }

  lemma FirstRoot(held: set<nat>, mem: Memory, t: Space, begin: nat, end: nat)
    requires t.Tree() && t.root !in held && t.held == held + {t.root} && t.tabs == map[t.root := []] && Within(held, t.held, begin, end)
    requires forall f :: f in held ==> At(t.mem, f) == At(mem, f)
    requires AbsentThrough(t, Through([], FIRST_USER_INDEX, 512))
    ensures Built(held, mem, t, map[]) && |FreeFrames(held, begin, end)| > 0
  {
    hide Slot, Reach, Space.Tree, At, Built, Through;
    forall q | PagePath(q)
      ensures Slot(t.mem, t.root, q) == None
    {
      InAppHalf(q);
    }
    BuiltRoot(held, mem, t);
    assert t.root in FreeFrames(held, begin, end);
  }

  lemma FramesLeft(held: set<nat>, mem: Memory, t: Space, image: Image)
    requires image == Image(t.root, t.tabs, image.pages) && Built(held, mem, t, image.pages)
    ensures t.held == held + image.Frames() && LeftBehind(held, mem, image, t.mem) && t.held != held
  {
    hide Slot, Reach, UserPath, At;
    assert t.held == held + image.Frames();
    assert t == Space(t.mem, held + image.Frames(), image.root, image.tabs);
    RootTable(t);
    assert t.root in t.tabs && t.root in t.held && t.root !in held;
  }

  /** What an image took is no longer free. */
  lemma FreeAfter(held: set<nat>, mem: Memory, t: Space, pages: map<nat, Path>, begin: nat, end: nat)
    requires Built(held, mem, t, pages) && Within(held, t.held, begin, end)
    ensures held <= t.held && |FreeFrames(held, begin, end)| == |FreeFrames(t.held, begin, end)| + |t.held - held|
  {
    hide Slot, Reach, UserPath, Space.Tree, At;
    assert FreeFrames(held, begin, end) == FreeFrames(t.held, begin, end) + (t.held - held);
  }

  lemma BelowStack(segments: seq<Segment>, q: Path)
    requires AllInPlace(segments) && PagePath(q)
    ensures (exists k :: 0 <= k < |segments| && segments[k].Covers(q)) ==> Rank(q) < PageNumber(STACK_ADDRESS)
  {
    hide UserPath, Rank, PageNumber, Segment.InPlace;
    if k :| 0 <= k < |segments| && segments[k].Covers(q) {
      assert segments[k] in segments;
      SegmentBounds(segments[k], Rank(q) - PageNumber(segments[k].vaddr));
    }
  }

  lemma StackIsFree(src: Space, segments: seq<Segment>)
    requires AllInPlace(segments) && forall q :: PagePath(q) ==> Contents(src, q) == ImageAt(segments, q)
    ensures RoomForStack(src)
  {
    hide Slot, Reach, UserPath, At, Rank, ImageAt;
    AppAddresses();
    forall q | PagePath(q) && PageNumber(STACK_ADDRESS) <= Rank(q)
      ensures Slot(src.mem, src.root, q) == None
    {
      CoveredAt(segments, q);
      assert Contents(src, q) == ImageAt(segments, q);
      BelowStack(segments, q);
    }
  }

  /** The tree of an image in a memory that differs at most in its pages. */
  lemma ImageKept(held: set<nat>, mem: Memory, t: Space, pages: map<nat, Path>, mem': Memory)
    requires Built(held, mem, t, pages)
    requires forall f :: f in t.held && !PageFrame(t, f) ==> At(mem', f) == At(t.mem, f)
    ensures Built(held, mem, t.(mem := mem'), pages)
  {
    hide Slot, Reach, UserPath, Space.Tree, At, PageFrame;
    TreeIntact(t, mem', t.held);
    var u := t.(mem := mem');
    forall f | f in held
      ensures At(u.mem, f) == At(mem, f)
    {
      NotOfImage(held, mem, t, pages, f);
    }
    forall f | f in pages
      ensures SharedPage(u, pages[f], f)
    {
      assert SharedPage(t, pages[f], f);
    }
  }

  lemma NotOfImage(held: set<nat>, mem: Memory, t: Space, pages: map<nat, Path>, f: nat)
    requires Built(held, mem, t, pages) && f in held
    ensures !PageFrame(t, f) && f in t.held && At(t.mem, f) == At(mem, f)
  {
    hide Slot, Reach, UserPath, Space.Tree, At;
  }

  lemma NeedOfImage(image: Space, segments: seq<Segment>, fits: bool)
    requires image.tabs.Values == TablesOf(segments)
    ensures Need(image, fits) == LaunchNeed(segments, fits)
  {
    hide TablesOf, StackTables, OwnPaths;
  }

  lemma FirstSeen(image: Space, view: Space, segments: seq<Segment>, args: Table, q: Path)
    requires Loaded(image, view, args) && PagePath(q) && Contents(image, q) == ImageAt(segments, q)
    ensures Contents(view, q) == FirstContents(segments, args, q)
  {
    hide Slot, UserPath, Rank, ImageAt, At, PageNumber;
  }
}
