/** A four-level page-table tree in physical memory, seen through the index paths that reach its
    tables and pages. Only the upper half (root index 256 and up) belongs to an application. */
module PageTree {
  import opened Options
  import opened PageEntry

  type Memory = map<nat, Table>

  type Path = seq<nat>

  const FIRST_USER_INDEX: nat := 256

  function At(mem: Memory, frame: nat): Table {
    if frame in mem then mem[frame] else Blank()
  }

  ghost predicate UserPath(q: Path) {
    && |q| <= 4
    && (forall i :: 0 <= i < |q| ==> q[i] < 512)
    && (q != [] ==> FIRST_USER_INDEX <= q[0])
  }

  function Init(q: Path): Path
    requires q != []
  {
    q[..|q| - 1]
  }

  function Last(q: Path): nat
    requires q != []
  {
    q[|q| - 1]
  }

  /** The frame a path leads to, through present entries only. */
  function Reach(mem: Memory, root: nat, q: Path): Option<nat>
    decreases |q|, 0
  {
    if q == [] then Some(root)
    else
      match Slot(mem, root, q)
      case None => None
      case Some(e) => Some(e.addr)
  }

  /** The entry in which a path ends, when it is present. */
  function Slot(mem: Memory, root: nat, q: Path): Option<Entry>
    requires q != []
    decreases |q| - 1, 1
  {
    match Reach(mem, root, Init(q))
    case None => None
    case Some(table) => Present(At(mem, table), Last(q))
  }

  function Present(t: Table, i: nat): Option<Entry> {
    if i < 512 && t[i].present then Some(t[i]) else None
  }

  /** Each reachable table sits at one path only, the one tabs records. */
  ghost predicate TablesIn(mem: Memory, root: nat, tabs: map<nat, Path>) {
    forall q :: UserPath(q) && |q| <= 3 && Reach(mem, root, q).Some? ==>
      Reach(mem, root, q).value in tabs && tabs[Reach(mem, root, q).value] == q
  }

  /** mem' differs from mem, among the tables, at most in slot i of table f. */
  ghost predicate SlotChanged(mem: Memory, mem': Memory, tabs: map<nat, Path>, f: nat, i: nat) {
    && i < 512
    && (forall g :: g in tabs && g != f ==> At(mem', g) == At(mem, g))
    && (forall j :: 0 <= j < 512 && j != i ==> At(mem', f)[j] == At(mem, f)[j])
  }

  /** Changing one slot of one table leaves every path that avoids the slot as it was. */
  lemma {:induction false} ReachFrame(mem: Memory, mem': Memory, root: nat, tabs: map<nat, Path>, f: nat, i: nat, q: Path)
    requires TablesIn(mem, root, tabs) && SlotChanged(mem, mem', tabs, f, i)
    requires UserPath(q) && (f in tabs ==> !(tabs[f] + [i] <= q))
    ensures Reach(mem', root, q) == Reach(mem, root, q)
    ensures q != [] ==> Slot(mem', root, q) == Slot(mem, root, q)
    decreases |q|
  {
    hide At, Present;
    if q != [] {
      var p := Init(q);
      assert UserPath(p);
      assert p <= q;
      ReachFrame(mem, mem', root, tabs, f, i, p);
      if Reach(mem, root, p).Some? {
        var g := Reach(mem, root, p).value;
        assert g in tabs && tabs[g] == p;
        assert g == f ==> Last(q) != i by {
          if Last(q) == i {
            assert q == p + [i];
          }
        }
        PresentElsewhere(mem, mem', tabs, f, i, g, Last(q));
      }
    }
  }

  /** Nothing lies below an absent slot. */
  lemma {:induction false} BelowAbsent(mem: Memory, root: nat, c: Path, q: Path)
    requires c != [] && c <= q && Slot(mem, root, c) == None
    ensures Slot(mem, root, q) == None
    decreases |q|
  {
    if |q| > |c| {
      BelowAbsent(mem, root, c, Init(q));
    } else {
      assert q == c;
    }
  }

  /** Nothing lies below a blank table. */
  lemma {:induction false} BelowBlank(mem: Memory, root: nat, c: Path, q: Path)
    requires c < q && Reach(mem, root, c).Some? && At(mem, Reach(mem, root, c).value) == Blank()
    ensures Slot(mem, root, q) == None
    decreases |q|
  {
    if |q| > |c| + 1 {
      BelowBlank(mem, root, c, Init(q));
    } else {
      assert Init(q) == c;
    }
  }

  /** Rewriting the flags of one present slot moves nothing. */
  lemma {:induction false} FlagFrame(mem: Memory, mem': Memory, root: nat, tabs: map<nat, Path>, f: nat, i: nat, q: Path)
    requires TablesIn(mem, root, tabs) && SlotChanged(mem, mem', tabs, f, i)
    requires At(mem, f)[i].present && At(mem', f)[i].present && At(mem', f)[i].addr == At(mem, f)[i].addr
    requires UserPath(q)
    ensures Reach(mem', root, q) == Reach(mem, root, q)
    ensures q != [] && (f in tabs ==> tabs[f] + [i] != q) ==> Slot(mem', root, q) == Slot(mem, root, q)
    decreases |q|
  {
    hide Present, At, SlotChanged;
    if q != [] {
      var p := Init(q);
      FlagFrame(mem, mem', root, tabs, f, i, p);
      if Reach(mem, root, p).Some? {
        var g := Reach(mem, root, p).value;
        assert g in tabs && tabs[g] == p;
        if g == f && Last(q) == i {
          assert q == tabs[f] + [i];
          PresentHere(mem, mem', f, i);
        } else {
          PresentElsewhere(mem, mem', tabs, f, i, g, Last(q));
        }
      }
    }
  }

  lemma PresentHere(mem: Memory, mem': Memory, f: nat, i: nat)
    requires i < 512 && At(mem, f)[i].present && At(mem', f)[i].present
    ensures Present(At(mem, f), i) == Some(At(mem, f)[i])
    ensures Present(At(mem', f), i) == Some(At(mem', f)[i])
  {
  }

  lemma PresentElsewhere(mem: Memory, mem': Memory, tabs: map<nat, Path>, f: nat, i: nat, g: nat, j: nat)
    requires SlotChanged(mem, mem', tabs, f, i) && g in tabs && (g != f || j != i)
    ensures Present(At(mem', g), j) == Present(At(mem, g), j)
  {
  }

  /** The page number a full path spells in base 512. */
  function Rank(q: Path): nat
    requires |q| == 4
  {
    q[3] + 512 * (q[2] + 512 * (q[1] + 512 * q[0]))
  }

  ghost predicate PagePath(q: Path) {
    UserPath(q) && |q| == 4
  }

  /** An address space: memory, the frames the allocator holds, a root, and where each table sits. */
  datatype Space = Space(mem: Memory, held: set<nat>, root: nat, tabs: map<nat, Path>) {
    ghost predicate Tree() {
      && (forall f :: f in tabs ==>
            f in held && UserPath(tabs[f]) && |tabs[f]| <= 3 && Reach(mem, root, tabs[f]) == Some(f))
      && (forall q :: UserPath(q) && |q| <= 3 && Reach(mem, root, q).Some? ==>
            Reach(mem, root, q).value in tabs && tabs[Reach(mem, root, q).value] == q)
      && (forall q :: UserPath(q) && |q| == 4 && Reach(mem, root, q).Some? ==>
            Reach(mem, root, q).value in held && Reach(mem, root, q).value !in tabs)
      && (forall q :: UserPath(q) && 1 <= |q| <= 3 && Slot(mem, root, q).Some? ==>
            Slot(mem, root, q).value.writable)
    }
  }

  /** From s to t the pages lo .. hi - 1 became mapped with the given writable bit, and nothing
      else changed for anyone: news records the pages that were not mapped before. */
  ghost predicate Grown(s: Space, t: Space, lo: int, hi: int, writable: bool, news: map<nat, Path>) {
    && t.root == s.root
    && FramesGrown(s, t, news)
    && NewPages(s, t, lo, hi, news)
    && PagesMapped(s, t, lo, hi, writable, news)
  }

  ghost predicate FramesGrown(s: Space, t: Space, news: map<nat, Path>) {
    && (forall f :: f in s.tabs ==> f in t.tabs && t.tabs[f] == s.tabs[f])
    && (forall f :: f in t.tabs ==> f in s.tabs || f !in s.held)
    && (forall f :: f in t.held <==> f in s.held || f in t.tabs || f in news)
    && (forall f :: f in s.held && f !in s.tabs ==> At(t.mem, f) == At(s.mem, f))
  }

  ghost predicate NewPages(s: Space, t: Space, lo: int, hi: int, news: map<nat, Path>) {
    forall f :: f in news ==>
      && f !in s.held && f !in t.tabs && At(t.mem, f) == Blank()
      && PagePath(news[f]) && lo <= Rank(news[f]) < hi
      && Slot(s.mem, s.root, news[f]) == None
      && Slot(t.mem, t.root, news[f]).Some? && Slot(t.mem, t.root, news[f]).value.addr == f
  }

  ghost predicate PagesMapped(s: Space, t: Space, lo: int, hi: int, writable: bool, news: map<nat, Path>) {
    forall q :: PagePath(q) ==>
      if lo <= Rank(q) < hi
      then MappedAs(Slot(s.mem, s.root, q), Slot(t.mem, t.root, q), q, writable, news)
      else Slot(t.mem, t.root, q) == Slot(s.mem, s.root, q)
  }

  ghost predicate MappedAs(was: Option<Entry>, now: Option<Entry>, q: Path, writable: bool, news: map<nat, Path>) {
    && now.Some? && now.value.user && now.value.writable == writable
    && match was
       case Some(e) => now.value == e.(user := true, writable := writable)
       case None => now.value.addr in news && news[now.value.addr] == q
  }

  lemma GrownRefl(s: Space, at: int, writable: bool)
    requires s.Tree()
    ensures Grown(s, s, at, at, writable, map[])
  {
    hide Slot, Reach, Rank, UserPath;
  }

  lemma FramesGrownTrans(s: Space, t: Space, u: Space, news1: map<nat, Path>, news2: map<nat, Path>)
    requires FramesGrown(s, t, news1) && FramesGrown(t, u, news2)
    ensures FramesGrown(s, u, news1 + news2)
  {
    hide Blank;
  }

  lemma NewPagesTrans(s: Space, t: Space, u: Space, lo: int, mid: int, hi: int, writable: bool,
                      news1: map<nat, Path>, news2: map<nat, Path>)
    requires lo <= mid <= hi
    requires Grown(s, t, lo, mid, writable, news1) && Grown(t, u, mid, hi, writable, news2)
    ensures NewPages(s, u, lo, hi, news1 + news2)
  {
    hide Reach, Slot, Rank, UserPath, Blank, At;
    forall f | f in news1 + news2
      ensures && f !in s.held && f !in u.tabs && At(u.mem, f) == Blank()
              && var q := (news1 + news2)[f];
              && PagePath(q) && lo <= Rank(q) < hi
              && Slot(s.mem, s.root, q) == None
              && Slot(u.mem, u.root, q).Some? && Slot(u.mem, u.root, q).value.addr == f
    {
      if f in news2 {
        assert f !in t.held;
      } else {
        assert f in t.held && f !in t.tabs;
      }
    }
  }

  lemma PagesMappedTrans(s: Space, t: Space, u: Space, lo: int, mid: int, hi: int, writable: bool,
                         news1: map<nat, Path>, news2: map<nat, Path>)
    requires lo <= mid <= hi && t.root == s.root
    requires forall f :: f in news1 ==> f !in news2
    requires PagesMapped(s, t, lo, mid, writable, news1) && PagesMapped(t, u, mid, hi, writable, news2)
    ensures PagesMapped(s, u, lo, hi, writable, news1 + news2)
  {
    hide Reach, Slot, Rank, UserPath;
  }

  /** Two growths in a row are one growth over the joined range. */
  lemma GrownTrans(s: Space, t: Space, u: Space, lo: int, mid: int, hi: int, writable: bool,
                   news1: map<nat, Path>, news2: map<nat, Path>)
    requires lo <= mid <= hi
    requires Grown(s, t, lo, mid, writable, news1) && Grown(t, u, mid, hi, writable, news2)
    ensures Grown(s, u, lo, hi, writable, news1 + news2)
  {
    FramesGrownTrans(s, t, u, news1, news2);
    NewPagesTrans(s, t, u, lo, mid, hi, writable, news1, news2);
    assert forall f :: f in news1 ==> f !in news2 by {
      hide PagesMapped, Reach, Slot, Rank, UserPath, Blank, At;
      assert forall f :: f in news1 ==> f in t.held;
    }
    hide PagesMapped, FramesGrown, NewPages;
    PagesMappedTrans(s, t, u, lo, mid, hi, writable, news1, news2);
  }

  lemma TablesHeld(s: Space)
    requires s.Tree()
    ensures forall k :: k in s.tabs ==> k in s.held
  {
    hide Slot, Reach, UserPath;
  }

  lemma HeldPage(s: Space, q: Path)
    requires s.Tree() && PagePath(q) && Slot(s.mem, s.root, q).Some?
    ensures Slot(s.mem, s.root, q).value.addr in s.held && Slot(s.mem, s.root, q).value.addr !in s.tabs
  {
    hide Slot;
    assert Reach(s.mem, s.root, q).Some?;
  }

  lemma HeldTable(s: Space, f: nat)
    requires s.Tree() && f in s.tabs
    ensures f in s.held && UserPath(s.tabs[f]) && |s.tabs[f]| <= 3
  {
    hide Slot, Reach, UserPath;
  }

  /** Every slot after table f got, at index i, a present entry for the blank frame g. */
  ghost predicate LinkedAt(s: Space, mem': Memory, f: nat, i: nat, g: nat, e: Entry) {
    && f in s.tabs && i < 512 && UserPath(s.tabs[f] + [i]) && g !in s.held
    && Slot(s.mem, s.root, s.tabs[f] + [i]) == None
    && e.present && e.addr == g
    && mem' == s.mem[g := Blank()][f := At(s.mem, f)[i := e]]
  }

  lemma LinkedNow(s: Space, mem': Memory, f: nat, i: nat, g: nat, e: Entry)
    requires f in s.tabs && i < 512 && UserPath(s.tabs[f] + [i]) && g !in s.held
    requires Slot(s.mem, s.root, s.tabs[f] + [i]) == None && e.present && e.addr == g
    requires mem' == s.mem[g := Blank()][f := At(s.mem, f)[i := e]]
    ensures LinkedAt(s, mem', f, i, g, e)
  {
  }

  lemma LinkedSlot(s: Space, mem': Memory, f: nat, i: nat, g: nat, e: Entry, q: Path)
    requires s.Tree() && LinkedAt(s, mem', f, i, g, e) && UserPath(q) && q != []
    ensures s.tabs[f] + [i] <= q ==> Slot(s.mem, s.root, q) == None
    ensures Slot(mem', s.root, q) ==
            if q == s.tabs[f] + [i] then Some(e)
            else if s.tabs[f] + [i] <= q then None
            else Slot(s.mem, s.root, q)
  {
    var c := s.tabs[f] + [i];
    assert SlotChanged(s.mem, mem', s.tabs, f, i);
    assert TablesIn(s.mem, s.root, s.tabs);
    assert Init(c) == s.tabs[f];
    ReachFrame(s.mem, mem', s.root, s.tabs, f, i, s.tabs[f]);
    assert Slot(mem', s.root, c) == Some(e);
    if !(c <= q) {
      ReachFrame(s.mem, mem', s.root, s.tabs, f, i, q);
    } else {
      BelowAbsent(s.mem, s.root, c, q);
      if c < q {
        BelowBlank(mem', s.root, c, q);
      }
    }
  }

  /** The slots after a link, all at once. */
  ghost predicate LinkedSlots(s: Space, mem': Memory, c: Path, e: Entry) {
    forall q :: UserPath(q) && q != [] ==>
      && (c <= q ==> Slot(s.mem, s.root, q) == None)
      && Slot(mem', s.root, q) == if q == c then Some(e) else if c <= q then None else Slot(s.mem, s.root, q)
  }

  lemma LinkSlots(s: Space, mem': Memory, f: nat, i: nat, g: nat, e: Entry)
    requires s.Tree() && LinkedAt(s, mem', f, i, g, e)
    ensures LinkedSlots(s, mem', s.tabs[f] + [i], e)
  {
    var c := s.tabs[f] + [i];
    forall q | UserPath(q) && q != []
      ensures c <= q ==> Slot(s.mem, s.root, q) == None
      ensures Slot(mem', s.root, q) == if q == c then Some(e) else if c <= q then None else Slot(s.mem, s.root, q)
    {
      LinkedSlot(s, mem', f, i, g, e, q);
    }
  }

  /** The space after a fresh table g was hung at path c. */
  ghost function WithTable(s: Space, mem': Memory, c: Path, g: nat): Space {
    Space(mem', s.held + {g}, s.root, s.tabs[g := c])
  }

  lemma TreeWithTable(s: Space, mem': Memory, c: Path, g: nat, e: Entry)
    requires s.Tree() && LinkedSlots(s, mem', c, e)
    requires UserPath(c) && 1 <= |c| <= 3 && g !in s.held && e.present && e.writable && e.addr == g
    ensures WithTable(s, mem', c, g).Tree()
  {
    hide Slot, UserPath;
    var t := WithTable(s, mem', c, g);
    assert Reach(mem', s.root, c) == Some(g);
    forall k | k in t.tabs
      ensures k in t.held && UserPath(t.tabs[k]) && |t.tabs[k]| <= 3 && Reach(mem', s.root, t.tabs[k]) == Some(k)
    {
    }
    forall q | UserPath(q) && |q| <= 3 && Reach(mem', s.root, q).Some?
      ensures Reach(mem', s.root, q).value in t.tabs && t.tabs[Reach(mem', s.root, q).value] == q
    {
      if q != c && q != [] {
        assert Reach(s.mem, s.root, q) == Reach(mem', s.root, q);
      }
    }
    forall q | UserPath(q) && |q| == 4 && Reach(mem', s.root, q).Some?
      ensures Reach(mem', s.root, q).value in t.held && Reach(mem', s.root, q).value !in t.tabs
    {
      assert Reach(s.mem, s.root, q) == Reach(mem', s.root, q);
    }
  }

  lemma GrownWithTable(s: Space, mem': Memory, c: Path, g: nat, e: Entry, at: int, writable: bool)
    requires LinkedSlots(s, mem', c, e) && UserPath(c) && 1 <= |c| <= 3 && g !in s.held
    requires forall k :: k in s.tabs ==> k in s.held
    requires forall k :: k in s.held && k !in s.tabs ==> At(mem', k) == At(s.mem, k)
    ensures Grown(s, WithTable(s, mem', c, g), at, at, writable, map[])
  {
    hide Slot, Reach, At, Rank;
    var t := WithTable(s, mem', c, g);
    assert FramesGrown(s, t, map[]);
    forall q | PagePath(q)
      ensures Slot(mem', s.root, q) == Slot(s.mem, s.root, q)
    {
    }
  }

  /** Hanging a fresh blank table below an absent slot keeps the tree and maps nothing. */
  lemma LinkTable(s: Space, mem': Memory, f: nat, i: nat, g: nat, e: Entry, at: int, writable: bool)
    requires s.Tree() && LinkedAt(s, mem', f, i, g, e) && |s.tabs[f]| <= 2 && e.writable
    ensures WithTable(s, mem', s.tabs[f] + [i], g).Tree()
    ensures Grown(s, WithTable(s, mem', s.tabs[f] + [i], g), at, at, writable, map[])
  {
    hide Slot, Reach, Grown, LinkedSlots, UserPath, Space.Tree, Blank;
    var c := s.tabs[f] + [i];
    LinkSlots(s, mem', f, i, g, e);
    TreeWithTable(s, mem', c, g, e);
    TablesHeld(s);
    GrownWithTable(s, mem', c, g, e, at, writable);
  }

  /** The space after a fresh page g was mapped. */
  ghost function WithPage(s: Space, mem': Memory, g: nat): Space {
    Space(mem', s.held + {g}, s.root, s.tabs)
  }

  lemma TreeWithPage(s: Space, mem': Memory, c: Path, g: nat, e: Entry)
    requires s.Tree() && LinkedSlots(s, mem', c, e)
    requires PagePath(c) && g !in s.held && e.present && e.addr == g
    ensures WithPage(s, mem', g).Tree()
  {
    hide Slot, UserPath;
    var t := WithPage(s, mem', g);
    forall q | UserPath(q) && |q| <= 3
      ensures Reach(mem', s.root, q) == Reach(s.mem, s.root, q)
    {
    }
    forall q | UserPath(q) && |q| == 4 && Reach(mem', s.root, q).Some?
      ensures Reach(mem', s.root, q).value in t.held && Reach(mem', s.root, q).value !in t.tabs
    {
      if q != c {
        assert Reach(s.mem, s.root, q) == Reach(mem', s.root, q);
      }
    }
  }

  lemma GrownWithPage(s: Space, mem': Memory, c: Path, g: nat, e: Entry)
    requires LinkedSlots(s, mem', c, e) && PagePath(c) && g !in s.held
    requires e.present && e.user && e.addr == g && At(mem', g) == Blank()
    requires forall k :: k in s.tabs ==> k in s.held
    requires forall k :: k in s.held && k !in s.tabs ==> At(mem', k) == At(s.mem, k)
    ensures Grown(s, WithPage(s, mem', g), Rank(c), Rank(c) + 1, e.writable, map[g := c])
  {
    forall q | PagePath(q) && Rank(q) == Rank(c)
      ensures q == c
    {
      RankInjective(q, c);
    }
    hide Slot, Reach, At, Rank, UserPath, Blank;
    var t := WithPage(s, mem', g);
    assert FramesGrown(s, t, map[g := c]);
  }

  /** Mapping a fresh blank page through an absent last-level slot maps exactly that page. */
  lemma LinkPage(s: Space, mem': Memory, f: nat, i: nat, g: nat, e: Entry)
    requires s.Tree() && LinkedAt(s, mem', f, i, g, e) && |s.tabs[f]| == 3 && e.user
    ensures WithPage(s, mem', g).Tree()
    ensures var c := s.tabs[f] + [i];
            Grown(s, WithPage(s, mem', g), Rank(c), Rank(c) + 1, e.writable, map[g := c])
  {
    hide Slot, Reach, Grown, LinkedSlots, UserPath, Space.Tree, Blank;
    var c := s.tabs[f] + [i];
    LinkSlots(s, mem', f, i, g, e);
    TreeWithPage(s, mem', c, g, e);
    TablesHeld(s);
    GrownWithPage(s, mem', c, g, e);
  }

  lemma RankInjective(p: Path, q: Path)
    requires PagePath(p) && PagePath(q) && Rank(p) == Rank(q)
    ensures p == q
  {
    assert p[3] < 512 && q[3] < 512 && p[2] < 512 && q[2] < 512 && p[1] < 512 && q[1] < 512;
  }

  /** Slot i of table f, already present, had its user and writable bits rewritten to those of e. */
  ghost predicate FlaggedAt(s: Space, mem': Memory, f: nat, i: nat, e: Entry) {
    && f in s.tabs && i < 512 && UserPath(s.tabs[f] + [i])
    && At(s.mem, f)[i].present
    && e == At(s.mem, f)[i].(user := true, writable := e.writable)
    && mem' == s.mem[f := At(s.mem, f)[i := e]]
  }

  ghost predicate FlaggedSlots(s: Space, mem': Memory, c: Path, e: Entry) {
    && c != [] && Slot(s.mem, s.root, c).Some? && e.present
    && e == Slot(s.mem, s.root, c).value.(user := true, writable := e.writable)
    && forall q :: UserPath(q) && q != [] ==>
         Slot(mem', s.root, q) == if q == c then Some(e) else Slot(s.mem, s.root, q)
  }

  lemma FlagSlots(s: Space, mem': Memory, f: nat, i: nat, e: Entry)
    requires s.Tree() && FlaggedAt(s, mem', f, i, e)
    ensures FlaggedSlots(s, mem', s.tabs[f] + [i], e)
  {
    var c := s.tabs[f] + [i];
    assert SlotChanged(s.mem, mem', s.tabs, f, i);
    assert TablesIn(s.mem, s.root, s.tabs);
    assert Init(c) == s.tabs[f];
    FlagFrame(s.mem, mem', s.root, s.tabs, f, i, s.tabs[f]);
    assert Slot(mem', s.root, c) == Some(e);
    forall q | UserPath(q) && q != [] && q != c
      ensures Slot(mem', s.root, q) == Slot(s.mem, s.root, q)
    {
      FlagFrame(s.mem, mem', s.root, s.tabs, f, i, q);
    }
  }

  lemma TreeFlagged(s: Space, mem': Memory, c: Path, e: Entry)
    requires s.Tree() && UserPath(c) && FlaggedSlots(s, mem', c, e) && (|c| <= 3 ==> e.writable)
    ensures s.(mem := mem').Tree()
  {
    hide Slot, UserPath;
    var t := s.(mem := mem');
    forall q | UserPath(q)
      ensures Reach(mem', s.root, q) == Reach(s.mem, s.root, q)
    {
    }
  }

  lemma GrownFlagged(s: Space, mem': Memory, c: Path, e: Entry, lo: int, hi: int, writable: bool)
    requires UserPath(c) && FlaggedSlots(s, mem', c, e)
    requires forall k :: k in s.tabs ==> k in s.held
    requires forall k :: k in s.held && k !in s.tabs ==> At(mem', k) == At(s.mem, k)
    requires if |c| == 4 then lo == Rank(c) && hi == lo + 1 && writable == e.writable else lo == hi
    ensures Grown(s, s.(mem := mem'), lo, hi, writable, map[])
  {
    forall q | PagePath(q) && PagePath(c) && Rank(q) == Rank(c)
      ensures q == c
    {
      RankInjective(q, c);
    }
    hide Slot, Reach, At, Rank, UserPath;
    assert FramesGrown(s, s.(mem := mem'), map[]);
  }

  /** Rewriting the flags of an interior slot maps nothing; of a last-level slot, exactly its page. */
  lemma Flag(s: Space, mem': Memory, f: nat, i: nat, e: Entry, lo: int, hi: int, writable: bool)
    requires s.Tree() && FlaggedAt(s, mem', f, i, e)
    requires |s.tabs[f]| <= 2 ==> e.writable && lo == hi
    requires |s.tabs[f]| == 3 ==> lo == Rank(s.tabs[f] + [i]) && hi == lo + 1 && writable == e.writable
    ensures s.(mem := mem').Tree()
    ensures Grown(s, s.(mem := mem'), lo, hi, writable, map[])
  {
    hide Slot, Reach, Grown, FlaggedSlots, Space.Tree, Rank;
    var c := s.tabs[f] + [i];
    FlagSlots(s, mem', f, i, e);
    TreeFlagged(s, mem', c, e);
    TablesHeld(s);
    GrownFlagged(s, mem', c, e, lo, hi, writable);
  }

  /** The slots after slot i of a last-level table was overwritten. */
  ghost predicate LeafWritten(s: Space, mem': Memory, c: Path, now: Option<Entry>) {
    forall q :: UserPath(q) && q != [] ==> Slot(mem', s.root, q) == if q == c then now else Slot(s.mem, s.root, q)
  }

  lemma LeafWrite(s: Space, mem': Memory, f: nat, i: nat)
    requires s.Tree() && f in s.tabs && |s.tabs[f]| == 3 && UserPath(s.tabs[f] + [i])
    requires SlotChanged(s.mem, mem', s.tabs, f, i)
    ensures LeafWritten(s, mem', s.tabs[f] + [i], Present(At(mem', f), i))
  {
    var c := s.tabs[f] + [i];
    assert TablesIn(s.mem, s.root, s.tabs);
    assert Init(c) == s.tabs[f];
    ReachFrame(s.mem, mem', s.root, s.tabs, f, i, s.tabs[f]);
    assert Slot(mem', s.root, c) == Present(At(mem', f), i);
    forall q | UserPath(q) && q != [] && q != c
      ensures Slot(mem', s.root, q) == Slot(s.mem, s.root, q)
    {
      ReachFrame(s.mem, mem', s.root, s.tabs, f, i, q);
    }
  }

  lemma TreeLeafWritten(s: Space, t: Space, c: Path, now: Option<Entry>)
    requires s.Tree() && PagePath(c) && LeafWritten(s, t.mem, c, now)
    requires t.root == s.root && t.tabs == s.tabs
    requires forall f :: f in s.tabs ==> f in t.held
    requires now.Some? ==> now.value.addr in t.held && now.value.addr !in s.tabs
    requires forall q :: PagePath(q) && q != c && Slot(s.mem, s.root, q).Some? ==> Slot(s.mem, s.root, q).value.addr in t.held
    ensures t.Tree()
  {
    hide Slot, UserPath;
    forall q | UserPath(q) && |q| <= 3
      ensures Reach(t.mem, s.root, q) == Reach(s.mem, s.root, q)
    {
    }
    forall q | UserPath(q) && |q| == 4 && Reach(t.mem, t.root, q).Some?
      ensures Reach(t.mem, t.root, q).value in t.held && Reach(t.mem, t.root, q).value !in t.tabs
    {
      if q != c {
        assert Reach(s.mem, s.root, q) == Reach(t.mem, s.root, q);
        assert Slot(s.mem, s.root, q).Some?;
      }
    }
  }

  /** The index path of the page an address lies in. */
  function PathOf(a: Address): (q: Path)
    ensures |q| == 4 && Rank(q) == PageNumber(a)
    ensures FIRST_USER_INDEX <= a.pml4 ==> PagePath(q)
  {
    [a.pml4, a.pdp, a.dir, a.page]
  }

  /** Slot i of table f was made present, user-accessible and flagged, by one of the two ways
      SetNewPageMapIfNotPresent has of doing it. */
  ghost predicate Opened(s: Space, mem': Memory, held': set<nat>, f: nat, i: nat, e: Entry) {
    || (FlaggedAt(s, mem', f, i, e) && held' == s.held)
    || (LinkedAt(s, mem', f, i, e.addr, e) && e.user && held' == s.held + {e.addr})
  }

  /** What SetNewPageMapIfNotPresent leaves behind when it succeeds. */
  ghost predicate MadePresent(mem: Memory, held: set<nat>, mem': Memory, held': set<nat>, f: nat, i: nat, frame: nat) {
    && i < 512
    && var e := At(mem, f)[i];
       if e.present then frame == e.addr && mem' == mem && held' == held
       else
         && frame !in held && frame < 0x100_0000_0000 && held' == held + {frame}
         && mem' == mem[frame := Blank()][f := At(mem, f)[i := e.(addr := frame, present := true)]]
  }

  lemma AtWritten(mem: Memory, f: nat, t: Table)
    ensures At(mem[f := t], f) == t
  {
  }

  lemma WriteTwice(mem: Memory, f: nat, i: nat, e1: Entry, e2: Entry)
    requires i < 512
    ensures var m1 := mem[f := At(mem, f)[i := e1]];
            m1[f := At(m1, f)[i := e2]] == mem[f := At(mem, f)[i := e2]]
  {
    var m1 := mem[f := At(mem, f)[i := e1]];
    assert At(m1, f)[i := e2] == At(mem, f)[i := e2];
  }

  lemma OpenedBy(s: Space, mem': Memory, held': set<nat>, f: nat, i: nat, frame: nat, writable: bool)
    requires s.Tree() && f in s.tabs && UserPath(s.tabs[f] + [i]) && MadePresent(s.mem, s.held, mem', held', f, i, frame)
    ensures var e := At(mem', f)[i].(user := true, writable := writable);
            && e.addr == frame
            && Opened(s, mem'[f := At(mem', f)[i := e]], held', f, i, e)
  {
    hide Reach, Blank;
    var e := At(mem', f)[i].(user := true, writable := writable);
    HeldTable(s, f);
    if !At(s.mem, f)[i].present {
      AbsentSlot(s, f, i);
      var m0 := s.mem[frame := Blank()];
      assert At(m0, f) == At(s.mem, f);
      WriteTwice(m0, f, i, At(mem', f)[i], e);
    }
  }

  lemma AbsentSlot(s: Space, f: nat, i: nat)
    requires s.Tree() && f in s.tabs && i < 512 && !At(s.mem, f)[i].present
    ensures Slot(s.mem, s.root, s.tabs[f] + [i]) == None
  {
    assert Init(s.tabs[f] + [i]) == s.tabs[f];
  }

  lemma OpenInterior(s: Space, mem': Memory, held': set<nat>, f: nat, i: nat, e: Entry, at: int, writable: bool)
    returns (t: Space)
    requires s.Tree() && Opened(s, mem', held', f, i, e) && |s.tabs[f]| <= 2 && e.writable
    ensures t.mem == mem' && t.held == held' && t.root == s.root
    ensures t.Tree() && Grown(s, t, at, at, writable, map[])
    ensures e.addr in t.tabs && t.tabs[e.addr] == s.tabs[f] + [i]
    ensures forall g :: g in t.tabs && g !in s.tabs ==> g == e.addr
  {
    hide Slot, Reach, Grown, UserPath, Blank;
    if FlaggedAt(s, mem', f, i, e) && held' == s.held {
      t := s.(mem := mem');
      Flag(s, mem', f, i, e, at, at, writable);
      ChildTable(s, f, i);
    } else {
      t := WithTable(s, mem', s.tabs[f] + [i], e.addr);
      LinkTable(s, mem', f, i, e.addr, e, at, writable);
    }
  }

  /** The table a present interior slot points to sits at the path of that slot. */
  lemma ChildTable(s: Space, f: nat, i: nat)
    requires s.Tree() && f in s.tabs && |s.tabs[f]| <= 2 && UserPath(s.tabs[f] + [i])
    requires i < 512 && At(s.mem, f)[i].present
    ensures At(s.mem, f)[i].addr in s.tabs && s.tabs[At(s.mem, f)[i].addr] == s.tabs[f] + [i]
    ensures At(s.mem, f)[i].writable
  {
    var c := s.tabs[f] + [i];
    assert Init(c) == s.tabs[f];
    assert Slot(s.mem, s.root, c) == Some(At(s.mem, f)[i]);
    assert Reach(s.mem, s.root, c).Some?;
  }

  lemma OpenPage(s: Space, mem': Memory, held': set<nat>, f: nat, i: nat, e: Entry)
    returns (t: Space, news: map<nat, Path>)
    requires s.Tree() && Opened(s, mem', held', f, i, e) && |s.tabs[f]| == 3
    ensures t == Space(mem', held', s.root, s.tabs)
    ensures t.Tree()
    ensures var c := s.tabs[f] + [i];
            Grown(s, t, Rank(c), Rank(c) + 1, e.writable, news)
  {
    hide Slot, Reach, Grown, Rank, UserPath, Blank;
    var c := s.tabs[f] + [i];
    t := Space(mem', held', s.root, s.tabs);
    if FlaggedAt(s, mem', f, i, e) && held' == s.held {
      news := map[];
      Flag(s, mem', f, i, e, Rank(c), Rank(c) + 1, e.writable);
      assert t == s.(mem := mem');
    } else {
      news := map[e.addr := c];
      LinkPage(s, mem', f, i, e.addr, e);
    }
  }

  /** How many pages are left, from the page of a to the end of the table of the given level. */
  function Room(a: Address, level: nat): (n: nat)
    requires level <= 4
    ensures n > 0
  {
    match level
    case 0 => 1
    case 1 => 512 - a.page
    case 2 => 512 * 512 - (a.page + 512 * a.dir)
    case 3 => 512 * 512 * 512 - (a.page + 512 * (a.dir + 512 * a.pdp))
    case 4 => 512 * 512 * 512 * 512 - PageNumber(a)
  }

  lemma PartAfterSet(a: Address, level: nat, value: nat)
    requires 1 <= level <= 4
    ensures forall k: nat :: k <= 4 ==> Part(SetPart(a, level, value), k) == if k == level then value % 512 else Part(a, k)
  {
  }

  /** Room at one level is the room left in the current slot plus that of the later slots. */
  lemma RoomParts(a: Address, level: nat)
    requires 1 <= level <= 4
    ensures Room(a, 0) == 1 && Room(a, level - 1) <= Room(a, level)
    ensures Part(a, level) == 511 <==> Room(a, level - 1) == Room(a, level)
  {
  }

  /** The first page of the next slot, in numbers. */
  lemma PartsDecide(addr: Address, a: Address, level: nat)
    requires 1 <= level <= 4
    requires forall k: nat :: k <= 4 ==>
               Part(a, k) == if k == level then Part(addr, k) + 1 else if 0 < k < level then 0 else Part(addr, k)
    ensures PageNumber(a) == PageNumber(addr) + Room(addr, level - 1)
    ensures Room(a, level) == Room(addr, level) - Room(addr, level - 1)
    ensures PathOf(a)[..4 - level] == PathOf(addr)[..4 - level] && addr.pml4 <= a.pml4
  {
    assert a.page == Part(a, 1) && a.dir == Part(a, 2) && a.pdp == Part(a, 3) && a.pml4 == Part(a, 4);
    assert addr.page == Part(addr, 1) && addr.dir == Part(addr, 2) && addr.pdp == Part(addr, 3) && addr.pml4 == Part(addr, 4);
  }

  lemma PathParts(a: Address, level: nat)
    requires 1 <= level <= 4
    ensures Part(a, level) < 512
    ensures PathOf(a)[..4 - level] + [Part(a, level)] == PathOf(a)[..4 - (level - 1)]
    ensures FIRST_USER_INDEX <= a.pml4 ==> UserPath(PathOf(a)[..4 - (level - 1)])
  {
  }

  /** One turn of the SetupPageMap loop up to the recursive call. */
  lemma OpenedSlot(s: Space, t0: Space, mem': Memory, held': set<nat>, f: nat, i: nat, e: Entry, a: Address, level: nat,
                   lo: int, writable: bool, news: map<nat, Path>)
    returns (t1: Space, d1: nat, news1: map<nat, Path>)
    requires 1 <= level <= 4 && i == Part(a, level) && lo <= PageNumber(a) && FIRST_USER_INDEX <= a.pml4
    requires t0.Tree() && Grown(s, t0, lo, PageNumber(a), writable, news)
    requires f in t0.tabs && t0.tabs[f] == PathOf(a)[..4 - level]
    requires Opened(t0, mem', held', f, i, e) && e.writable == (level > 1 || writable)
    ensures t1.mem == mem' && t1.held == held' && t1.root == t0.root && t1.Tree()
    ensures d1 == if level == 1 then 1 else 0
    ensures Grown(s, t1, lo, PageNumber(a) + d1, writable, news1)
    ensures f in t1.tabs && t1.tabs[f] == t0.tabs[f]
    ensures level > 1 ==> e.addr in t1.tabs && t1.tabs[e.addr] == PathOf(a)[..4 - (level - 1)]
    ensures forall hi: int :: PageNumber(a) < hi ==> NewTables(t0, t1, PageNumber(a), hi)
  {
    hide Grown, Space.Tree, Slot, Reach, Blank, Opened, UserPath, Rank;
    PathParts(a, level);
    if level == 1 {
      var news2;
      t1, news2 := OpenPage(t0, mem', held', f, i, e);
      assert PathOf(a)[..4] == PathOf(a);
      GrownTrans(s, t0, t1, lo, PageNumber(a), PageNumber(a) + 1, writable, news, news2);
      d1, news1 := 1, news + news2;
    } else {
      t1 := OpenInterior(t0, mem', held', f, i, e, PageNumber(a), writable);
      GrownTrans(s, t0, t1, lo, PageNumber(a), PageNumber(a), writable, news, map[]);
      d1, news1 := 0, news + map[];
      TablesKept(t0, t1, PageNumber(a), PageNumber(a), writable, map[], f);
      forall hi: int | PageNumber(a) < hi
        ensures NewTables(t0, t1, PageNumber(a), hi)
      {
        OnePrefix(a, 4 - (level - 1), hi);
      }
    }
  }

  lemma TablesKept(s: Space, t: Space, lo: int, hi: int, writable: bool, news: map<nat, Path>, f: nat)
    requires Grown(s, t, lo, hi, writable, news) && f in s.tabs
    ensures f in t.tabs && t.tabs[f] == s.tabs[f]
  {
    hide Slot, Reach, Rank, Blank, UserPath;
  }

  /** The frames taken from held to held' lie in the allocator's range. */
  ghost predicate Within(held: set<nat>, held': set<nat>, begin: nat, end: nat) {
    forall f :: f in held' && f !in held ==> begin <= f < end
  }

  lemma WithinTrans(held: set<nat>, held1: set<nat>, held2: set<nat>, begin: nat, end: nat)
    requires Within(held, held1, begin, end) && Within(held1, held2, begin, end)
    ensures Within(held, held2, begin, end)
  {
  }

  lemma WithinNone(held: set<nat>, begin: nat, end: nat)
    ensures Within(held, held, begin, end)
  {
  }

  /** A table path on the way to one of the pages lo .. hi - 1. */
  ghost predicate OnTheWayTo(q: Path, lo: int, hi: int) {
    exists c: Path :: PagePath(c) && lo <= Rank(c) < hi && q <= c
  }

  /** The tables that are new in t are on the way to the pages lo .. hi - 1. */
  ghost predicate NewTables(s: Space, t: Space, lo: int, hi: int) {
    forall f :: f in t.tabs && f !in s.tabs ==> OnTheWayTo(t.tabs[f], lo, hi)
  }

  lemma NewTablesTrans(s: Space, t: Space, u: Space, lo: int, mid: int, hi: int)
    requires lo <= mid <= hi && NewTables(s, t, lo, hi) && NewTables(t, u, mid, hi)
    requires forall f :: f in t.tabs ==> f in u.tabs && u.tabs[f] == t.tabs[f]
    ensures NewTables(s, u, lo, hi)
  {
    hide Rank, UserPath;
    forall f | f in u.tabs && f !in s.tabs
      ensures OnTheWayTo(u.tabs[f], lo, hi)
    {
      if f !in t.tabs {
        var c: Path :| PagePath(c) && mid <= Rank(c) < hi && u.tabs[f] <= c;
      }
    }
  }

  lemma NewTablesNone(s: Space, lo: int, hi: int)
    ensures NewTables(s, s, lo, hi)
  {
  }

  /** A table on the way to the page of an address. */
  lemma OnePrefix(a: Address, n: nat, hi: int)
    requires n <= 4 && FIRST_USER_INDEX <= a.pml4 && PageNumber(a) < hi
    ensures OnTheWayTo(PathOf(a)[..n], PageNumber(a), hi)
  {
    assert PagePath(PathOf(a)) && PathOf(a)[..n] <= PathOf(a);
  }

  lemma AllTablesKept(s: Space, t: Space, lo: int, hi: int, writable: bool, news: map<nat, Path>)
    requires Grown(s, t, lo, hi, writable, news)
    ensures forall f :: f in s.tabs ==> f in t.tabs && t.tabs[f] == s.tabs[f]
  {
    hide Slot, Reach, Rank, Blank, UserPath;
  }
}
