/** kernel/system.cpp: building the page-table tree of an application's image. */
module Images {
  import opened Options
  import opened PageEntry
  import opened PageTree
  import opened PageOwnership
  import opened PageContents
  import opened MemoryManager
  import opened FrameCounts
  import opened Paging
  import opened AppFrames
  import opened PageBytes
  import opened KernelHalf
  import opened Segments

  /** t is the tree of an image, as far as it is built: it and its pages, all read-only, took fresh
      frames, and held and mem are what was held and stored before. */
  ghost predicate Built(held: set<nat>, mem: Memory, t: Space, pages: map<nat, Path>) {
    && t.Tree()
    && (forall f :: f in t.held <==> f in held || f in t.tabs || f in pages)
    && (forall f :: f in held ==> f !in t.tabs && f !in pages && At(t.mem, f) == At(mem, f))
    && (forall f :: f in pages ==> f !in t.tabs && SharedPage(t, pages[f], f))
    && (forall q :: PagePath(q) && Slot(t.mem, t.root, q).Some? ==>
          Slot(t.mem, t.root, q).value.addr in pages && pages[Slot(t.mem, t.root, q).value.addr] == q)
  }

  ghost predicate SharedPage(t: Space, q: Path, f: nat) {
    PagePath(q) && Slot(t.mem, t.root, q).Some? && Slot(t.mem, t.root, q).value.addr == f && !Slot(t.mem, t.root, q).value.writable
  }

  lemma BuiltRoot(held: set<nat>, mem: Memory, t: Space)
    requires t.Tree() && t.root !in held && t.held == held + {t.root} && t.tabs == map[t.root := []]
    requires forall f :: f in held ==> At(t.mem, f) == At(mem, f)
    requires forall q :: PagePath(q) ==> Slot(t.mem, t.root, q) == None
    ensures Built(held, mem, t, map[])
  {
    hide Slot, At, UserPath, Space.Tree;
  }

  /** Read-only pages added to an image. */
  lemma BuiltGrown(held: set<nat>, mem: Memory, s: Space, pages: map<nat, Path>, t: Space, lo: int, hi: int, news: map<nat, Path>)
    requires Built(held, mem, s, pages) && t.Tree() && Grown(s, t, lo, hi, false, news)
    ensures Built(held, mem, t, pages + news)
  {
    hide Slot, Reach, At, UserPath, Space.Tree, Blank, Rank;
    TablesHeld(s);
    forall f | f in pages + news
      ensures f !in t.tabs && SharedPage(t, (pages + news)[f], f)
    {
      if f in news {
      } else {
        assert SharedPage(s, pages[f], f);
      }
    }
    forall q | PagePath(q) && Slot(t.mem, t.root, q).Some?
      ensures var e := Slot(t.mem, t.root, q).value; e.addr in pages + news && (pages + news)[e.addr] == q
    {
      if Slot(s.mem, s.root, q).Some? {
        assert Slot(s.mem, s.root, q).value.addr !in news;
      }
    }
  }

  /** One page of an image filled. */
  lemma BuiltFilled(held: set<nat>, mem: Memory, t: Space, pages: map<nat, Path>, c: Path, now: Table)
    requires Built(held, mem, t, pages) && PagePath(c) && Slot(t.mem, t.root, c).Some?
    ensures Built(held, mem, Overwritten(t, c, now), pages) && PageStored(t, Overwritten(t, c, now), c, now)
    ensures Overwritten(t, c, now).held == t.held && Overwritten(t, c, now).tabs == t.tabs
  {
    hide Slot, Reach, UserPath, Space.Tree, At, SharedPage, SlotsKept, PageStored;
    var u := Overwritten(t, c, now);
    var f := Slot(t.mem, t.root, c).value.addr;
    FilledPage(held, mem, t, pages, c);
    AtAllElse(t.mem, f, now);
    StoreSlots(t, u, f);
    StoreTree(t, u);
    forall g | g in pages
      ensures SharedPage(u, pages[g], g)
    {
      SharedStays(t, u, pages[g], g);
    }
    forall q | PagePath(q)
      ensures Slot(u.mem, u.root, q) == Slot(t.mem, t.root, q)
    {
      SlotStays(t, u, q);
    }
    FilledStored(held, mem, t, pages, c, now);
  }

  /** The page is one of the image's, and not held before. */
  lemma FilledPage(held: set<nat>, mem: Memory, t: Space, pages: map<nat, Path>, c: Path)
    requires Built(held, mem, t, pages) && PagePath(c) && Slot(t.mem, t.root, c).Some?
    ensures var f := Slot(t.mem, t.root, c).value.addr; f in pages && pages[f] == c && f !in t.tabs && f !in held
  {
    hide Slot, Reach, UserPath, Space.Tree, At;
  }

  lemma SharedStays(t: Space, u: Space, q: Path, f: nat)
    requires SharedPage(t, q, f) && SlotsKept(t, u)
    ensures SharedPage(u, q, f)
  {
    hide Slot, UserPath;
  }

  lemma SlotStays(t: Space, u: Space, q: Path)
    requires PagePath(q) && SlotsKept(t, u)
    ensures Slot(u.mem, u.root, q) == Slot(t.mem, t.root, q)
  {
    hide Slot, UserPath;
  }

  lemma FilledStored(held: set<nat>, mem: Memory, t: Space, pages: map<nat, Path>, c: Path, now: Table)
    requires Built(held, mem, t, pages) && PagePath(c) && Slot(t.mem, t.root, c).Some?
    requires forall q :: PagePath(q) ==> Slot(Overwritten(t, c, now).mem, t.root, q) == Slot(t.mem, t.root, q)
    ensures PageStored(t, Overwritten(t, c, now), c, now)
  {
    hide Slot, Reach, UserPath, Space.Tree, At;
    var f := Slot(t.mem, t.root, c).value.addr;
    AtAllElse(t.mem, f, now);
    AtWritten(t.mem, f, now);
    forall q | PagePath(q) && q != c
      ensures Contents(Overwritten(t, c, now), q) == Contents(t, q)
    {
      if Slot(t.mem, t.root, q).Some? {
        FilledPage(held, mem, t, pages, q);
        FilledPage(held, mem, t, pages, c);
      }
    }
  }

  /** What an image took: a frame for each of its tables and pages. */
  lemma BuiltCount(held: set<nat>, mem: Memory, t: Space, pages: map<nat, Path>)
    requires Built(held, mem, t, pages)
    ensures |t.held - held| == |t.tabs.Values| + |pages.Values|
  {
    hide Slot, Reach, UserPath, Space.Tree, At;
    TabsCount(t);
    forall f, g | f in pages && g in pages && pages[f] == pages[g]
      ensures f == g
    {
      assert SharedPage(t, pages[f], f) && SharedPage(t, pages[g], g);
    }
    InjectiveCount(pages);
    assert t.held - held == t.tabs.Keys + pages.Keys;
  }

  /** The pages of an image that is built as its segments say. */
  lemma BuiltPages(held: set<nat>, mem: Memory, t: Space, pages: map<nat, Path>, segments: seq<Segment>)
    requires Built(held, mem, t, pages) && AllInPlace(segments)
    requires forall q :: PagePath(q) && Contents(t, q).Some? ==> ImageAt(segments, q).Some?
    ensures pages.Values <= PagesOf(segments)
    ensures (forall q :: PagePath(q) && ImageAt(segments, q).Some? ==> Contents(t, q).Some?) <==> pages.Values == PagesOf(segments)
  {
    hide Slot, Reach, UserPath, Space.Tree, At, PagesOf, ImageAt, Segment.Covers, AllInPlace;
    forall q | q in pages.Values
      ensures PagePath(q) && Contents(t, q).Some? && q in PagesOf(segments)
    {
      var f :| f in pages && pages[f] == q;
      assert SharedPage(t, pages[f], f);
      CoveredAt(segments, q);
      InImage(segments, q);
    }
    forall q | PagePath(q) && Contents(t, q).Some?
      ensures q in pages.Values
    {
      assert pages[Slot(t.mem, t.root, q).value.addr] == q;
    }
    forall q
      ensures q in PagesOf(segments) <==> PagePath(q) && ImageAt(segments, q).Some?
    {
      InImage(segments, q);
      if PagePath(q) {
        CoveredAt(segments, q);
      }
    }
  }

  /** Its tables. */
  lemma BuiltTables(t: Space, segments: seq<Segment>)
    requires t.Tree() && AllInPlace(segments)
    requires forall q :: PagePath(q) && ImageAt(segments, q).Some? ==> Slot(t.mem, t.root, q).Some?
    ensures TablesOf(segments) <= t.tabs.Values
  {
    hide Slot, Reach, UserPath, Space.Tree, PagesOf, ImageAt, Segment.Covers, AllInPlace;
    forall p | p in TablesOf(segments)
      ensures p in t.tabs.Values
    {
      if p == [] {
        RootTable(t);
        assert t.tabs[t.root] == p;
      } else {
        var q, n: nat :| q in PagesOf(segments) && n < 4 && p == q[..n];
        InImage(segments, q);
        CoveredAt(segments, q);
        TablesToThere(t, q);
        assert q[..n] in TablesTo(q);
      }
    }
  }

  lemma SegmentTables(s: Space, t: Space, segments: seq<Segment>, k: nat)
    requires t.Tree() && AllInPlace(segments) && k < |segments| && s.tabs.Values <= TablesOf(segments)
    requires var lo := PageNumber(segments[k].vaddr); NewTables(s, t, lo, lo + segments[k].Pages())
    requires forall f :: f in s.tabs ==> f in t.tabs && t.tabs[f] == s.tabs[f]
    ensures t.tabs.Values <= TablesOf(segments)
  {
    hide Slot, Reach, UserPath, Space.Tree, PagesOf, PageNumber, Rank, AllInPlace;
    var lo := PageNumber(segments[k].vaddr);
    forall p | p in t.tabs.Values
      ensures p in TablesOf(segments)
    {
      var f :| f in t.tabs && t.tabs[f] == p;
      HeldTable(t, f);
      if f in s.tabs {
        assert p in s.tabs.Values;
      } else {
        var c: Path :| PagePath(c) && lo <= Rank(c) < lo + segments[k].Pages() && p <= c;
        InImage(segments, c);
        assert segments[k].Covers(c) && p == c[..|p|];
      }
    }
  }

  /** The path of the page a byte lies in. */
  function PathOfByte(b: nat): (q: Path)
    ensures |q| == 4
  {
    PathAt(b / PAGE)
  }

  /** Bytes of the application's half. */
  predicate ByteRange(start: nat, n: nat) {
    PAGE * FIRST_USER_INDEX * 512 * 512 * 512 <= start && start + n <= PAGE * 512 * 512 * 512 * 512
  }

  /** The page at q, after data were written from byte start on. */
  ghost function Written(was: Option<Table>, q: Path, start: nat, data: seq<byte>): Option<Table>
    requires PagePath(q)
  {
    match was
    case None => None
    case Some(t) => Some(LaidOn(t, PAGE * Rank(q), start, data))
  }

  /** The byte has a page. */
  ghost predicate ByteMapped(t: Space, b: nat) {
    Slot(t.mem, t.root, PathOfByte(b)).Some?
  }

  ghost predicate AllThere(t: Space, start: nat, end: nat) {
    forall b: nat :: start <= b < end ==> ByteMapped(t, b)
  }

  /** The address of a byte of the application's half. */
  function AddressOfByte(b: nat): (a: Address)
    requires ByteRange(b, 1)
    ensures InApp(a) && PathOf(a) == PathOfByte(b)
  {
    var n := b / PAGE;
    assert n / 512 / 512 / 512 < 512;
    Address(b % PAGE, n % 512, n / 512 % 512, n / 512 / 512 % 512, n / 512 / 512 / 512, 0xffff)
  }

  /** memcpy or memset to linear addresses, page by page. The kernel may write to read-only pages; where there
      is no page at all it faults, and halts unless the handler finds a demand area, which the task has
      none of yet. */
  method WriteBytes(m: Machine, start: nat, data: seq<byte>, ghost tabs: map<nat, Path>, ghost pages: map<nat, Path>, ghost held: set<nat>, ghost mem: Memory)
    returns (ok: bool)
    requires m.mm.Valid() && m.dpagingEnd <= m.dpagingBegin
    requires ByteRange(start, |data|) && Built(held, mem, m.View(m.cr3, tabs), pages)
    modifies m`mem, m.mm`held, m.mm.allocMap
    ensures m.mm.Valid() && m.mm.held == old(m.mm.held) && Built(held, mem, m.View(m.cr3, tabs), pages)
    ensures ok <==> AllThere(old(m.View(m.cr3, tabs)), start, start + |data|)
    ensures ok ==> forall q :: PagePath(q) ==> Contents(m.View(m.cr3, tabs), q) == Written(Contents(old(m.View(m.cr3, tabs)), q), q, start, data)
    ensures forall q :: PagePath(q) ==> (Contents(m.View(m.cr3, tabs), q).Some? <==> Contents(old(m.View(m.cr3, tabs)), q).Some?)
    ensures Lower(m.mem, m.cr3) == old(Lower(m.mem, m.cr3))
  {
    hide Slot, Reach, UserPath, Space.Tree, Built, Rank, At, Contents, PathAt, LaidOn, Written, Lower, Owned, Missing, FreeFrames, Value,
      AddressOfByte, KernelMapped, BitmapMemoryManager.Valid, Machine.Exhausted;
    ghost var s := m.View(m.cr3, tabs);
    var done := 0;
    NothingWritten(s, start);
    while done < |data|
      invariant m.mm.Valid() && m.mm.held == s.held
      invariant done <= |data| && Built(held, mem, m.View(m.cr3, tabs), pages) && Lower(m.mem, m.cr3) == Lower(s.mem, s.root)
      invariant forall q :: PagePath(q) ==> Contents(m.View(m.cr3, tabs), q) == Written(Contents(s, q), q, start, data[..done])
      invariant AllThere(s, start, start + done)
    {
      ghost var t := m.View(m.cr3, tabs);
      var b := start + done;
      var n := if PAGE - b % PAGE < |data| - done then PAGE - b % PAGE else |data| - done;
      var q := PathOfByte(b);
      BytePath(b);
      SameThere(s, t, q, start, data[..done]);
      var slot := Slot(m.mem, m.cr3, q);
      if slot.None? {
        MissingThere(s, t, start, done, data);
        BuiltOwned(held, mem, t, pages);
        var r;
        ghost var tabs1, pages1;
        r, tabs1, pages1 := m.HandlePageFault(false, true, false, AddressOfByte(b), tabs, map[]);
        return r == Handled;
      }
      var now := LaidOn(At(m.mem, slot.value.addr), PAGE * (b / PAGE), b, data[done..done + n]);
      BuiltFilled(held, mem, t, pages, q, now);
      BuiltLower(held, mem, t, pages, q, now);
      m.mem := m.mem[slot.value.addr := now];
      assert m.View(m.cr3, tabs) == Overwritten(t, q, now);
      PieceWritten(s, t, m.View(m.cr3, tabs), start, data, done, n, now);
      SamePagePiece(s, start, done, n);
      done := done + n;
    }
    assert data[..|data|] == data;
    ok := true;
    WrittenThere(s, m.View(m.cr3, tabs), start, data);
  }

  lemma WrittenThere(s: Space, t: Space, start: nat, data: seq<byte>)
    requires forall q :: PagePath(q) ==> Contents(t, q) == Written(Contents(s, q), q, start, data)
    ensures forall q :: PagePath(q) ==> (Contents(t, q).Some? <==> Contents(s, q).Some?)
  {
    hide UserPath, Contents, LaidOn, Rank;
  }

  lemma MissingThere(s: Space, t: Space, start: nat, done: nat, data: seq<byte>)
    requires done < |data| && !ByteMapped(s, start + done)
    requires forall q :: PagePath(q) ==> Contents(t, q) == Written(Contents(s, q), q, start, data[..done])
    ensures !AllThere(s, start, start + |data|)
    ensures forall q :: PagePath(q) ==> (Contents(t, q).Some? <==> Contents(s, q).Some?)
  {
    hide ByteMapped;
    WrittenThere(s, t, start, data[..done]);
  }

  /** An application that has the image for its tree owns none of its pages. */
  lemma BuiltOwned(held: set<nat>, mem: Memory, t: Space, pages: map<nat, Path>)
    requires Built(held, mem, t, pages)
    ensures t.Tree() && Owned(t, map[])
  {
    hide Slot, Reach, UserPath, Space.Tree, At;
    forall q | PagePath(q)
      ensures PageOwner(t, map[], q)
    {
      if Slot(t.mem, t.root, q).Some? {
        assert SharedPage(t, pages[Slot(t.mem, t.root, q).value.addr], Slot(t.mem, t.root, q).value.addr);
      }
    }
  }

  lemma NothingWritten(s: Space, start: nat)
    ensures forall q :: PagePath(q) ==> Contents(s, q) == Written(Contents(s, q), q, start, [])
  {
    hide Slot, UserPath, Rank, At, LaidOn;
    forall q | PagePath(q) && Contents(s, q).Some?
      ensures LaidOn(Contents(s, q).value, PAGE * Rank(q), start, []) == Contents(s, q).value
    {
      LaidElsewhere(Contents(s, q).value, PAGE * Rank(q), start, []);
    }
  }

  lemma BytePath(b: nat)
    requires ByteRange(b, 1)
    ensures PagePath(PathOfByte(b)) && Rank(PathOfByte(b)) == b / PAGE
  {
    assert FIRST_USER_INDEX * 512 * 512 * 512 <= b / PAGE < 512 * 512 * 512 * 512;
    PathAtRank(b / PAGE);
  }

  lemma SameThere(s: Space, t: Space, q: Path, start: nat, data: seq<byte>)
    requires PagePath(q) && Contents(t, q) == Written(Contents(s, q), q, start, data)
    ensures Slot(t.mem, t.root, q).Some? <==> Slot(s.mem, s.root, q).Some?
    ensures Slot(t.mem, t.root, q).Some? ==> Contents(t, q) == Some(At(t.mem, Slot(t.mem, t.root, q).value.addr))
  {
    hide Slot, UserPath, Rank, At, LaidOn;
  }

  /** A page filled is not the root. */
  lemma BuiltLower(held: set<nat>, mem: Memory, t: Space, pages: map<nat, Path>, c: Path, now: Table)
    requires Built(held, mem, t, pages) && PagePath(c) && Slot(t.mem, t.root, c).Some?
    ensures Lower(Overwritten(t, c, now).mem, t.root) == Lower(t.mem, t.root)
  {
    hide Slot, Reach, UserPath, Space.Tree, At;
    PageNotRoot(t, c, now);
  }

  lemma SamePagePiece(s: Space, start: nat, done: nat, n: nat)
    requires AllThere(s, start, start + done) && n > 0 && ByteMapped(s, start + done)
    requires (start + done) % PAGE + n <= PAGE
    ensures AllThere(s, start, start + done + n)
  {
    hide Slot, PathAt;
    forall b: nat | start + done <= b < start + done + n
      ensures ByteMapped(s, b)
    {
      assert b / PAGE == (start + done) / PAGE;
    }
  }

  /** One piece more, within one page. */
  lemma PieceWritten(s: Space, t: Space, u: Space, start: nat, data: seq<byte>, done: nat, n: nat, now: Table)
    requires done + n <= |data| && n > 0 && ByteRange(start, |data|) && (start + done) % PAGE + n <= PAGE
    requires forall q :: PagePath(q) ==> Contents(t, q) == Written(Contents(s, q), q, start, data[..done])
    requires PagePath(PathOfByte(start + done)) && Contents(t, PathOfByte(start + done)).Some?
    requires now == LaidOn(Contents(t, PathOfByte(start + done)).value, PAGE * ((start + done) / PAGE), start + done, data[done..done + n])
    requires PageStored(t, u, PathOfByte(start + done), now)
    ensures forall q :: PagePath(q) ==> Contents(u, q) == Written(Contents(s, q), q, start, data[..done + n])
  {
    hide Slot, UserPath, Rank, At, LaidOn, PathAt, Contents;
    var c := PathOfByte(start + done);
    BytePath(start + done);
    assert data[..done] + data[done..done + n] == data[..done + n];
    forall q | PagePath(q)
      ensures Contents(u, q) == Written(Contents(s, q), q, start, data[..done + n])
    {
      if Contents(s, q).Some? {
        var w := Contents(s, q).value;
        LaidTwice(w, PAGE * Rank(q), start, data[..done], data[done..done + n]);
        if q != c {
          OtherPage(q, c);
          LaidElsewhere(LaidOn(w, PAGE * Rank(q), start, data[..done]), PAGE * Rank(q), start + done, data[done..done + n]);
        }
      }
    }
  }

  lemma OtherPage(q: Path, c: Path)
    requires PagePath(q) && PagePath(c) && q != c
    ensures Rank(q) < Rank(c) || Rank(c) < Rank(q)
  {
    if Rank(q) == Rank(c) {
      RankInjective(q, c);
    }
  }

  datatype LoadResult = Complete | OutOfFrames | PageMissing

  /** One segment: its pages are mapped read-only, then its bytes are copied to them and the rest is
      cleared. */
  method LoadSegment(m: Machine, segment: Segment, ghost tabs: map<nat, Path>, ghost pages: map<nat, Path>, ghost held: set<nat>, ghost mem: Memory)
    returns (r: LoadResult, ghost tabs': map<nat, Path>, ghost pages': map<nat, Path>, ghost done: nat)
    requires m.mm.Valid() && m.dpagingEnd <= m.dpagingBegin && segment.InPlace() && Built(held, mem, m.View(m.cr3, tabs), pages)
    modifies m`mem, m.mm`held, m.mm.allocMap
    ensures m.mm.Valid() && Built(held, mem, m.View(m.cr3, tabs'), pages')
    ensures r == Complete ==> forall q :: PagePath(q) ==>
              Contents(m.View(m.cr3, tabs'), q) == segment.On(Contents(old(m.View(m.cr3, tabs)), q), q)
    ensures r != OutOfFrames ==> (r == Complete <==> segment.Fits() || TailMapped(segment, old(m.View(m.cr3, tabs))))
    ensures r == PageMissing ==> forall q :: PagePath(q) ==>
              (Contents(m.View(m.cr3, tabs'), q).Some? <==> segment.Covers(q) || Contents(old(m.View(m.cr3, tabs)), q).Some?)
    ensures r == OutOfFrames ==> m.Exhausted() && forall q :: PagePath(q) && Contents(m.View(m.cr3, tabs'), q).Some? ==>
              segment.Covers(q) || Contents(old(m.View(m.cr3, tabs)), q).Some?
    ensures r == OutOfFrames ==> done < segment.Pages() && PagePath(segment.PathTo(done)) && Contents(m.View(m.cr3, tabs'), segment.PathTo(done)) == None
    ensures Within(old(m.mm.held), m.mm.held, m.mm.rangeBegin, m.mm.rangeEnd)
    ensures NewTables(old(m.View(m.cr3, tabs)), m.View(m.cr3, tabs'), PageNumber(segment.vaddr), PageNumber(segment.vaddr) + segment.Pages())
    ensures forall f :: f in tabs ==> f in tabs' && tabs'[f] == tabs[f]
    ensures Lower(m.mem, m.cr3) == old(Lower(m.mem, m.cr3))
  {
    hide Slot, Reach, UserPath, Space.Tree, Grown, Built, Unmapped, PageNumber, Rank, Room, At, Within, NewTables, Contents, PathAt, PageStored,
      Ready, AllThere, Written, LaidOn, Lower, TailMapped, Segment.InPlace, Segment.Fits, Segment.Pages, Segment.Covers, Segment.On,
      BitmapMemoryManager.Valid, Machine.Exhausted;
    ghost var s := m.View(m.cr3, tabs);
    ghost var lo := PageNumber(segment.vaddr);
    ghost var news;
    BuiltTree(held, mem, s, pages);
    SegmentStart(segment);
    var ok;
    ok, tabs', done, news := m.SetupPageMaps(segment.vaddr, segment.Pages(), false, tabs);
    pages' := pages + news;
    ghost var t := m.View(m.cr3, tabs');
    BuiltGrown(held, mem, s, pages, t, lo, lo + done, news);
    AllTablesKept(s, t, lo, lo + done, false, news);
    if !ok {
      CoveredPage(segment, done);
      SegmentCut(segment, s, t, done, news);
      return OutOfFrames, tabs', pages', done;
    }
    SegmentMapped(segment, s, t, done, news);
    SegmentRange(segment);
    AllBytesThere(segment, s, t);
    ok := WriteBytes(m, segment.Start(), segment.file, tabs', pages', held, mem);
    ghost var u := m.View(m.cr3, tabs');
    if ok {
      AllThereStill(t, u, segment.Start() + |segment.file|, segment.memsz - |segment.file|);
      AllThereParts(t, segment.Start(), segment.Start() + |segment.file|, segment.Start() + segment.memsz);
      ok := WriteBytes(m, segment.Start() + |segment.file|, Zeros(segment.memsz - |segment.file|), tabs', pages', held, mem);
    } else {
      AllThereParts(t, segment.Start(), segment.Start() + |segment.file|, segment.Start() + segment.memsz);
    }
    ghost var v := m.View(m.cr3, tabs');
    NewTablesSame(s, t, v, lo, lo + segment.Pages());
    r := if ok then Complete else PageMissing;
    if ok {
      SegmentFilled(segment, s, t, u, v);
    } else {
      SegmentTorn(segment, s, t, v);
    }
  }

  /** The page behind the segment's own is mapped. */
  ghost predicate TailMapped(segment: Segment, s: Space) {
    var q := segment.PathTo(segment.Pages());
    PagePath(q) && Contents(s, q).Some?
  }

  lemma NewTablesSame(s: Space, t: Space, u: Space, lo: int, hi: int)
    requires NewTables(s, t, lo, hi) && u.tabs == t.tabs
    ensures NewTables(s, u, lo, hi)
  {
  }

  lemma BuiltTree(held: set<nat>, mem: Memory, t: Space, pages: map<nat, Path>)
    requires Built(held, mem, t, pages)
    ensures t.Tree()
  {
    hide Slot, Space.Tree;
  }

  lemma SegmentStart(s: Segment)
    requires s.InPlace()
    ensures FIRST_USER_INDEX <= s.vaddr.pml4 && s.Pages() <= Room(s.vaddr, 4)
  {
    if s.Pages() > 0 {
      SegmentBounds(s, 0);
    }
  }

  lemma SegmentRange(s: Segment)
    requires s.InPlace()
    ensures |s.file| <= s.memsz && |s.Bytes()| == s.memsz && ByteRange(s.Start(), |s.file|)
    ensures ByteRange(s.Start(), s.memsz) && ByteRange(s.Start() + |s.file|, s.memsz - |s.file|)
  {
    AppAddresses();
  }

  /** The pages of a segment are mapped, blank where they were not; the others show what they showed. */
  ghost predicate Ready(segment: Segment, s: Space, t: Space) {
    forall q :: PagePath(q) ==> Contents(t, q) == if segment.Covers(q) && Contents(s, q) == None then Some(Blank()) else Contents(s, q)
  }

  lemma SegmentMapped(segment: Segment, s: Space, t: Space, done: nat, news: map<nat, Path>)
    requires s.Tree() && done == segment.Pages() && Grown(s, t, PageNumber(segment.vaddr), PageNumber(segment.vaddr) + done, false, news)
    ensures Ready(segment, s, t)
  {
    hide Slot, Reach, UserPath, Space.Tree, Grown, PageNumber, Rank, Contents, At, Blank;
    forall q | PagePath(q)
      ensures Contents(t, q) == if segment.Covers(q) && Contents(s, q) == None then Some(Blank()) else Contents(s, q)
    {
      GrowSees(s, t, PageNumber(segment.vaddr), PageNumber(segment.vaddr) + done, false, news, q);
    }
  }

  lemma SegmentCut(segment: Segment, s: Space, t: Space, done: nat, news: map<nat, Path>)
    requires s.Tree() && done < segment.Pages() && Grown(s, t, PageNumber(segment.vaddr), PageNumber(segment.vaddr) + done, false, news)
    requires Unmapped(t, PageNumber(segment.vaddr) + done, PageNumber(segment.vaddr) + done + 1)
    requires PagePath(segment.PathTo(done)) && Rank(segment.PathTo(done)) == PageNumber(segment.vaddr) + done
    ensures Contents(t, segment.PathTo(done)) == None
    ensures forall q :: PagePath(q) && Contents(t, q).Some? ==> segment.Covers(q) || Contents(s, q).Some?
  {
    hide Slot, Reach, UserPath, Space.Tree, Grown, PageNumber, Rank, At, PathAt;
    forall q | PagePath(q) && Contents(t, q).Some?
      ensures segment.Covers(q) || Contents(s, q).Some?
    {
      GrowSees(s, t, PageNumber(segment.vaddr), PageNumber(segment.vaddr) + done, false, news, q);
    }
  }

  /** Which bytes of a segment have a page once its own are mapped. */
  lemma AllBytesThere(segment: Segment, s: Space, t: Space)
    requires segment.InPlace() && Ready(segment, s, t)
    ensures AllThere(t, segment.Start(), segment.Start() + segment.memsz) <==> segment.Fits() || TailMapped(segment, s)
  {
    hide Slot, UserPath, At, Rank, Blank, PathAt, PageNumber, Segment.Fits, ByteMapped;
    forall b: nat | segment.Start() <= b < segment.Start() + segment.memsz
      ensures ByteMapped(t, b) <==> b / PAGE < PageNumber(segment.vaddr) + segment.Pages() || TailMapped(segment, s)
    {
      ByteThere(segment, s, t, b - segment.Start());
    }
    EveryByteMapped(segment);
    if segment.memsz > 0 {
      TailPage(segment);
      var last := segment.Start() + segment.memsz - 1;
      assert ByteMapped(t, last) <==> segment.Fits() || TailMapped(segment, s);
      if segment.Fits() {
        forall b: nat | segment.Start() <= b < segment.Start() + segment.memsz
          ensures ByteMapped(t, b)
        {
          assert PageOfByte(segment, b - segment.Start()) == b / PAGE;
        }
      }
    }
  }

  lemma FirstPage(segment: Segment)
    ensures forall k: nat :: PageNumber(segment.vaddr) <= PageOfByte(segment, k)
  {
  }

  lemma ByteThere(segment: Segment, s: Space, t: Space, k: nat)
    requires segment.InPlace() && Ready(segment, s, t) && k < segment.memsz
    ensures ByteMapped(t, segment.Start() + k) <==>
            PageOfByte(segment, k) < PageNumber(segment.vaddr) + segment.Pages() || TailMapped(segment, s)
  {
    hide Slot, UserPath, At, Blank, PathAt;
    SegmentRange(segment);
    var q := PathOfByte(segment.Start() + k);
    BytePath(segment.Start() + k);
    FirstPage(segment);
    TailPage(segment);
    assert PageOfByte(segment, k) <= PageOfByte(segment, segment.memsz - 1);
    if !segment.Covers(q) {
      assert Rank(q) == PageNumber(segment.vaddr) + segment.Pages();
      assert q == segment.PathTo(segment.Pages());
    }
    assert Contents(t, q).Some? <==> segment.Covers(q) || Contents(s, q).Some?;
  }

  lemma AllThereStill(t: Space, u: Space, start: nat, n: nat)
    requires ByteRange(start, n)
    requires forall q :: PagePath(q) ==> (Contents(u, q).Some? <==> Contents(t, q).Some?)
    ensures AllThere(u, start, start + n) <==> AllThere(t, start, start + n)
  {
    hide Slot, UserPath, At, PathAt;
    forall b: nat | start <= b < start + n
      ensures ByteMapped(u, b) <==> ByteMapped(t, b)
    {
      BytePath(b);
      assert Contents(u, PathOfByte(b)).Some? <==> Contents(t, PathOfByte(b)).Some?;
    }
  }

  lemma AllThereParts(t: Space, start: nat, mid: nat, end: nat)
    requires start <= mid <= end
    ensures AllThere(t, start, end) <==> AllThere(t, start, mid) && AllThere(t, mid, end)
  {
    hide ByteMapped;
  }

  /** The bytes of the file and then the zeros: the pages hold the segment. */
  lemma SegmentFilled(segment: Segment, s: Space, t: Space, u: Space, v: Space)
    requires |segment.file| <= segment.memsz && Ready(segment, s, t)
    requires forall q :: PagePath(q) ==> Contents(u, q) == Written(Contents(t, q), q, segment.Start(), segment.file)
    requires forall q :: PagePath(q) ==>
               Contents(v, q) == Written(Contents(u, q), q, segment.Start() + |segment.file|, Zeros(segment.memsz - |segment.file|))
    ensures forall q :: PagePath(q) ==> Contents(v, q) == segment.On(Contents(s, q), q)
  {
    hide UserPath, Rank, Contents, LaidOn, Segment.Start, Segment.Covers, Zeros, Blank;
    forall q | PagePath(q)
      ensures Contents(v, q) == segment.On(Contents(s, q), q)
    {
      if Contents(t, q).Some? {
        LaidTwice(Contents(t, q).value, PAGE * Rank(q), segment.Start(), segment.file, Zeros(segment.memsz - |segment.file|));
      }
    }
  }

  lemma SegmentTorn(segment: Segment, s: Space, t: Space, v: Space)
    requires Ready(segment, s, t) && forall q :: PagePath(q) ==> (Contents(v, q).Some? <==> Contents(t, q).Some?)
    ensures forall q :: PagePath(q) ==> (Contents(v, q).Some? <==> segment.Covers(q) || Contents(s, q).Some?)
  {
    hide UserPath, Rank, Contents, Blank, Segment.Covers;
  }

  /** CopyLoadSegments: the image's tree holds exactly what the segments say, later ones over earlier
      ones, all of it read-only; or the copy of one of them missed a page; or the frames ran out, with a
      page still missing. */
  method CopyLoadSegments(m: Machine, segments: seq<Segment>, ghost tabs: map<nat, Path>, ghost held: set<nat>, ghost mem: Memory)
    returns (r: LoadResult, ghost tabs': map<nat, Path>, ghost pages: map<nat, Path>, ghost at: nat)
    requires m.mm.Valid() && m.dpagingEnd <= m.dpagingBegin && AllInPlace(segments) && tabs == map[m.cr3 := []] && Built(held, mem, m.View(m.cr3, tabs), map[])
    modifies m`mem, m.mm`held, m.mm.allocMap
    ensures m.mm.Valid() && Built(held, mem, m.View(m.cr3, tabs'), pages)
    ensures r == Complete ==>
              && at == |segments| && (forall j :: 0 <= j < at ==> Loads(segments, j))
              && (forall q :: PagePath(q) ==> Contents(m.View(m.cr3, tabs'), q) == ImageAt(segments, q))
              && tabs'.Values == TablesOf(segments) && pages.Values == PagesOf(segments)
    ensures r != Complete ==> at < |segments| && forall j :: 0 <= j < at ==> Loads(segments, j)
    ensures r == PageMissing ==>
              !Loads(segments, at) && tabs'.Values == TablesOf(segments[..at + 1]) && pages.Values == PagesOf(segments[..at + 1])
    ensures r == OutOfFrames ==>
              && m.Exhausted() && tabs'.Values <= TablesOf(segments[..at + 1])
              && pages.Values <= PagesOf(segments[..at + 1]) && pages.Values != PagesOf(segments[..at + 1])
    ensures Within(old(m.mm.held), m.mm.held, m.mm.rangeBegin, m.mm.rangeEnd)
    ensures Lower(m.mem, m.cr3) == old(Lower(m.mem, m.cr3))
  {
    hide Slot, Reach, UserPath, Space.Tree, Built, PageNumber, Rank, At, Within, NewTables, Contents, PathAt, ImageAt, Segment.Covers, Segment.InPlace,
      Segment.Fits, Segment.Pages, Segment.On, TailMapped, Loads, PagesOf, TablesOf, Lower, BitmapMemoryManager.Valid, Machine.Exhausted;
    ghost var s := m.View(m.cr3, tabs);
    tabs', pages, r, at := tabs, map[], Complete, |segments|;
    WithinNone(m.mm.held, m.mm.rangeBegin, m.mm.rangeEnd);
    NothingBuilt(held, mem, s, segments);
    for k := 0 to |segments|
      invariant m.mm.Valid() && Built(held, mem, m.View(m.cr3, tabs'), pages)
      invariant forall q :: PagePath(q) ==> Contents(m.View(m.cr3, tabs'), q) == ImageAt(segments[..k], q)
      invariant tabs'.Values <= TablesOf(segments[..k]) && forall j :: 0 <= j < k ==> Loads(segments, j)
      invariant Within(s.held, m.mm.held, m.mm.rangeBegin, m.mm.rangeEnd) && Lower(m.mem, m.cr3) == Lower(s.mem, s.root)
      invariant r == Complete && at == |segments|
    {
      ghost var t := m.View(m.cr3, tabs');
      ghost var done;
      assert segments[k] in segments;
      r, tabs', pages, done := LoadSegment(m, segments[k], tabs', pages, held, mem);
      ghost var u := m.View(m.cr3, tabs');
      WithinTrans(s.held, t.held, m.mm.held, m.mm.rangeBegin, m.mm.rangeEnd);
      BuiltTree(held, mem, u, pages);
      TablesMore(t, u, segments, k);
      LoadsIs(t, segments, k);
      forall q | PagePath(q)
        ensures ImageAt(segments[..k + 1], q) == segments[k].On(ImageAt(segments[..k], q), q)
      {
        ImageMore(segments, k, q);
      }
      if r != Complete {
        at := k;
        AllInFront(segments, k + 1);
        if r == OutOfFrames {
          ImageCut(held, mem, t, u, pages, segments, k, done);
        } else {
          ImageWhole(held, mem, u, pages, segments[..k + 1]);
        }
        return;
      }
    }
    assert segments[..|segments|] == segments;
    ghost var u := m.View(m.cr3, tabs');
    BuiltTree(held, mem, u, pages);
    ImageWhole(held, mem, u, pages, segments);
  }

  lemma AllInFront(segments: seq<Segment>, k: nat)
    requires AllInPlace(segments) && k <= |segments|
    ensures AllInPlace(segments[..k])
  {
  }

  lemma LoadsIs(t: Space, segments: seq<Segment>, k: nat)
    requires k < |segments| && forall q :: PagePath(q) ==> Contents(t, q) == ImageAt(segments[..k], q)
    ensures Loads(segments, k) <==> segments[k].Fits() || TailMapped(segments[k], t)
  {
    hide UserPath, Contents, ImageAt, PathAt, Segment.Fits, Segment.Pages;
  }

  lemma NothingBuilt(held: set<nat>, mem: Memory, s: Space, segments: seq<Segment>)
    requires Built(held, mem, s, map[]) && s.tabs == map[s.root := []]
    ensures forall q :: PagePath(q) ==> Contents(s, q) == ImageAt(segments[..0], q)
    ensures s.tabs.Values <= TablesOf(segments[..0])
  {
    hide Slot, Space.Tree, UserPath, At, PagesOf;
    forall q | q in s.tabs.Values
      ensures q == []
    {
      var f :| f in s.tabs && s.tabs[f] == q;
    }
  }

  lemma PagesGrow(segments: seq<Segment>, k: nat)
    requires k < |segments|
    ensures PagesOf(segments[..k]) <= PagesOf(segments[..k + 1])
  {
    hide PathAt;
    var few, more := segments[..k], segments[..k + 1];
    forall q | q in PagesOf(few)
      ensures q in PagesOf(more)
    {
      var i: nat :| i < |few| && q in few[i].Paths();
      assert more[i] == few[i];
    }
  }

  lemma TablesMore(t: Space, u: Space, segments: seq<Segment>, k: nat)
    requires u.Tree() && AllInPlace(segments) && k < |segments| && t.tabs.Values <= TablesOf(segments[..k])
    requires NewTables(t, u, PageNumber(segments[k].vaddr), PageNumber(segments[k].vaddr) + segments[k].Pages())
    requires forall f :: f in t.tabs ==> f in u.tabs && u.tabs[f] == t.tabs[f]
    ensures u.tabs.Values <= TablesOf(segments[..k + 1])
  {
    hide Slot, Reach, UserPath, Space.Tree, PagesOf, PageNumber, Rank, Segment.Pages, Segment.InPlace;
    PagesGrow(segments, k);
    TablesMono(segments[..k], segments[..k + 1]);
    AllInFront(segments, k + 1);
    SegmentTables(t, u, segments[..k + 1], k);
  }

  lemma TablesMono(a: seq<Segment>, b: seq<Segment>)
    requires PagesOf(a) <= PagesOf(b)
    ensures TablesOf(a) <= TablesOf(b)
  {
    hide PagesOf;
  }

  lemma ImageCut(held: set<nat>, mem: Memory, t: Space, u: Space, pages: map<nat, Path>, segments: seq<Segment>, k: nat, done: nat)
    requires Built(held, mem, u, pages) && AllInPlace(segments) && k < |segments| && done < segments[k].Pages()
    requires forall q :: PagePath(q) ==> Contents(t, q) == ImageAt(segments[..k], q)
    requires forall q :: PagePath(q) && Contents(u, q).Some? ==> segments[k].Covers(q) || Contents(t, q).Some?
    requires PagePath(segments[k].PathTo(done)) && Contents(u, segments[k].PathTo(done)) == None
    ensures pages.Values <= PagesOf(segments[..k + 1]) && pages.Values != PagesOf(segments[..k + 1])
  {
    hide Slot, Reach, UserPath, Built, PageNumber, Rank, At, Contents, PathAt, ImageAt, Segment.Covers, Segment.InPlace, Segment.Pages, Segment.On, PagesOf;
    var begun := segments[..k + 1];
    AllInFront(segments, k + 1);
    assert segments[k] in segments;
    forall q | PagePath(q)
      ensures ImageAt(begun, q).Some? <==> segments[k].Covers(q) || ImageAt(segments[..k], q).Some?
    {
      ImageMore(segments, k, q);
    }
    CoveredPage(segments[k], done);
    BuiltPages(held, mem, u, pages, begun);
  }

  lemma ImageWhole(held: set<nat>, mem: Memory, t: Space, pages: map<nat, Path>, segments: seq<Segment>)
    requires Built(held, mem, t, pages) && t.Tree() && AllInPlace(segments) && t.tabs.Values <= TablesOf(segments)
    requires forall q :: PagePath(q) ==> (Contents(t, q).Some? <==> ImageAt(segments, q).Some?)
    ensures t.tabs.Values == TablesOf(segments) && pages.Values == PagesOf(segments)
  {
    hide Slot, Reach, UserPath, Built, Space.Tree, Rank, At, PathAt, ImageAt, Segment.Covers, Segment.InPlace, PagesOf, TablesOf;
    BuiltPages(held, mem, t, pages, segments);
    BuiltTables(t, segments);
  }
}
