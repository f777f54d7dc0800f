/** Copying a tree with CopyPageMaps: new tables, shared read-only pages. */
module PageSharing {
  import opened Options
  import opened PageEntry
  import opened PageTree
  import opened PageOwnership

  function ReadOnly(slot: Option<Entry>): Option<Entry> {
    match slot
    case None => None
    case Some(e) => Some(WriteProtect(e))
  }

  function WriteProtect(e: Entry): Entry {
    e.(writable := false)
  }

  /** The tables of src are held, lie outside the tree of t and still read as they did, and so its
      pages are held and lie outside too. */
  ghost predicate Apart(src: Space, t: Space) {
    && (forall f :: f in src.tabs ==> f in t.held && f !in t.tabs && At(t.mem, f) == At(src.mem, f))
    && (forall q :: PagePath(q) && Slot(src.mem, src.root, q).Some? ==>
          Slot(src.mem, src.root, q).value.addr in t.held && Slot(src.mem, src.root, q).value.addr !in t.tabs)
  }

  /** From s to t the pages at the paths in these became read-only copies of the slots of src (all
      of them, unless the copy stopped half-way), with fresh tables and nothing else changed. */
  ghost predicate Shared(s: Space, t: Space, src: Space, these: iset<Path>, whole: bool) {
    && t.root == s.root
    && FramesGrown(s, t, map[])
    && (forall q :: UserPath(q) && q != [] && q !in these ==> Slot(t.mem, t.root, q) == Slot(s.mem, s.root, q))
    && (forall q :: PagePath(q) && q in these ==>
          || Slot(t.mem, t.root, q) == ReadOnly(Slot(src.mem, src.root, q))
          || (!whole && Slot(t.mem, t.root, q) == None))
    && SharedTables(s, t, src, these, whole)
  }

  /** The new tables of t are at paths of tables of src, and a whole copy has one for each. */
  ghost predicate SharedTables(s: Space, t: Space, src: Space, these: iset<Path>, whole: bool) {
    && (forall f :: f in t.tabs && f !in s.tabs ==> t.tabs[f] in src.tabs.Values)
    && (whole ==> forall g :: g in src.tabs && src.tabs[g] in these ==> src.tabs[g] in t.tabs.Values)
  }

  ghost predicate AbsentThrough(s: Space, these: iset<Path>) {
    forall q :: UserPath(q) && q in these ==> q != [] && Slot(s.mem, s.root, q) == None
  }

  lemma SharedNone(s: Space, src: Space, p: Path, i: nat)
    requires s.Tree()
    ensures Shared(s, s, src, Through(p, i, i), true)
  {
    hide Slot, Reach, UserPath, At;
  }

  lemma SharedTrans(s: Space, t: Space, u: Space, src: Space, these1: iset<Path>, these2: iset<Path>, whole: bool)
    requires Shared(s, t, src, these1, true) && Shared(t, u, src, these2, whole) && these1 !! these2
    ensures Shared(s, u, src, these1 + these2, whole)
  {
    hide Slot, Reach, UserPath, At;
    var none: map<nat, Path> := map[];
    FramesGrownTrans(s, t, u, none, none);
    assert none + none == none;
  }

  lemma ApartKept(src: Space, s: Space, t: Space)
    requires Apart(src, s) && FramesGrown(s, t, map[])
    ensures Apart(src, t)
  {
    hide Slot, Reach, UserPath, At;
  }

  /** A slot that src does not have needs no copy. */
  lemma ShareAbsent(s: Space, src: Space, p: Path, i: nat)
    requires s.Tree() && src.Tree() && AbsentThrough(s, Through(p, i, i + 1)) && Slot(src.mem, src.root, p + [i]) == None
    ensures Shared(s, s, src, Through(p, i, i + 1), true)
  {
    hide At, UserPath;
    forall g | g in src.tabs
      ensures src.tabs[g] !in Through(p, i, i + 1)
    {
      if p + [i] <= src.tabs[g] {
        BelowAbsent(src.mem, src.root, p + [i], src.tabs[g]);
      }
    }
    forall q | q in Through(p, i, i + 1)
      ensures Slot(src.mem, src.root, q) == None
    {
      assert p + [i] <= q;
      BelowAbsent(src.mem, src.root, p + [i], q);
    }
    SharedNone(s, src, p, i);
  }

  /** Copying one last-level slot. */
  lemma SharePage(s: Space, mem': Memory, src: Space, f: nat, i: nat, e: Entry)
    requires s.Tree() && src.Tree() && f in s.tabs && |s.tabs[f]| == 3 && UserPath(s.tabs[f] + [i]) && Apart(src, s)
    requires i < 512 && e.present && Slot(src.mem, src.root, s.tabs[f] + [i]) == Some(e)
    requires mem' == s.mem[f := At(s.mem, f)[i := WriteProtect(e)]]
    ensures s.(mem := mem').Tree()
    ensures Shared(s, s.(mem := mem'), src, Through(s.tabs[f], i, i + 1), true)
  {
    hide Slot, Reach, UserPath, Space.Tree;
    var c := s.tabs[f] + [i];
    var t := s.(mem := mem');
    assert SlotChanged(s.mem, mem', s.tabs, f, i);
    LeafWrite(s, mem', f, i);
    TablesHeld(s);
    forall q | PagePath(q) && Slot(s.mem, s.root, q).Some?
      ensures Slot(s.mem, s.root, q).value.addr in s.held
    {
      HeldPage(s, q);
    }
    TreeLeafWritten(s, t, c, Some(WriteProtect(e)));
    HeldTable(s, f);
    forall g | g in src.tabs
      ensures src.tabs[g] !in Through(s.tabs[f], i, i + 1)
    {
      HeldTable(src, g);
    }
    forall q | PagePath(q) && q in Through(s.tabs[f], i, i + 1)
      ensures q == c
    {
    }
    assert c in Through(s.tabs[f], i, i + 1);
  }

  /** Hanging a fresh table for an interior slot of src, before it is filled. */
  lemma ShareTable(s: Space, mem': Memory, src: Space, f: nat, i: nat, g: nat, e: Entry) returns (t: Space)
    requires s.Tree() && LinkedAt(s, mem', f, i, g, e) && |s.tabs[f]| <= 2 && e.writable
    ensures t == WithTable(s, mem', s.tabs[f] + [i], g) && t.Tree()
    ensures FramesGrown(s, t, map[])
    ensures forall q :: UserPath(q) && q != [] && q !in Through(s.tabs[f], i, i + 1) ==>
              Slot(t.mem, t.root, q) == Slot(s.mem, s.root, q)
    ensures AbsentThrough(t, Through(s.tabs[f] + [i], 0, 512))
  {
    hide Slot, Reach, UserPath, Space.Tree, Blank, At;
    var c := s.tabs[f] + [i];
    t := WithTable(s, mem', c, g);
    LinkSlots(s, mem', f, i, g, e);
    LinkTable(s, mem', f, i, g, e, 0, true);
    forall q | q in Through(c, 0, 512)
      ensures c <= q && q != c
    {
    }
    forall q | UserPath(q) && q != [] && c <= q
      ensures q in Through(s.tabs[f], i, i + 1)
    {
      assert q[|s.tabs[f]|] == i;
    }
  }

  /** The slot is done once the table below it is. */
  lemma SharedSlot(s: Space, t1: Space, t2: Space, src: Space, p: Path, i: nat, whole: bool)
    requires |p| <= 2 && t1.root == s.root && FramesGrown(s, t1, map[])
    requires forall q :: UserPath(q) && q != [] && q !in Through(p, i, i + 1) ==>
               Slot(t1.mem, t1.root, q) == Slot(s.mem, s.root, q)
    requires Shared(t1, t2, src, Through(p + [i], 0, 512), whole)
    requires p + [i] in src.tabs.Values && p + [i] in t1.tabs.Values && src.Tree()
    requires forall f :: f in t1.tabs && f !in s.tabs ==> t1.tabs[f] == p + [i]
    ensures Shared(s, t2, src, Through(p, i, i + 1), whole)
  {
    hide Slot, Reach, At;
    SlotTables(s, t1, t2, src, p, i, whole);
    var none: map<nat, Path> := map[];
    FramesGrownTrans(s, t1, t2, none, none);
    assert none + none == none;
    ThroughChild(p, i);
    forall q | PagePath(q) && q in Through(p, i, i + 1)
      ensures q in Through(p + [i], 0, 512)
    {
      ThroughHere(p, i, q);
    }
  }

  lemma SlotTables(s: Space, t1: Space, t2: Space, src: Space, p: Path, i: nat, whole: bool)
    requires |p| <= 2 && FramesGrown(s, t1, map[]) && FramesGrown(t1, t2, map[]) && src.Tree()
    requires SharedTables(t1, t2, src, Through(p + [i], 0, 512), whole)
    requires p + [i] in src.tabs.Values && p + [i] in t1.tabs.Values
    requires forall f :: f in t1.tabs && f !in s.tabs ==> t1.tabs[f] == p + [i]
    ensures SharedTables(s, t2, src, Through(p, i, i + 1), whole)
  {
    hide Slot, Reach, At;
    if whole {
      forall g | g in src.tabs && src.tabs[g] in Through(p, i, i + 1)
        ensures src.tabs[g] in t2.tabs.Values
      {
        HeldTable(src, g);
        if src.tabs[g] != p + [i] {
          ThroughHere(p, i, src.tabs[g]);
        } else {
          var f :| f in t1.tabs && t1.tabs[f] == p + [i];
          assert t2.tabs[f] == p + [i];
        }
      }
    }
  }

  /** The copier owns its tables and none of the shared pages. */
  lemma SharedOwned(s: Space, t: Space, src: Space, these: iset<Path>, whole: bool, pages: map<nat, Path>)
    requires s.Tree() && t.Tree() && Owned(s, pages) && Shared(s, t, src, these, whole)
    requires forall f :: f in src.tabs ==> f in Others(s, pages)
    requires forall q :: PagePath(q) && Slot(src.mem, src.root, q).Some? ==> Slot(src.mem, src.root, q).value.addr in Others(s, pages)
    requires forall q :: PagePath(q) && q in these ==> Slot(s.mem, s.root, q) == None
    ensures Owned(t, pages)
    ensures OthersKept(s, pages, t, pages)
  {
    hide Slot, Reach, UserPath, At, Space.Tree;
    TablesHeld(s);
    forall f | f in pages
      ensures f in t.held && f !in t.tabs && OwnPage(t, pages[f], f)
    {
      assert OwnPage(s, pages[f], f);
    }
    forall q | PagePath(q)
      ensures PageOwner(t, pages, q)
    {
      assert PageOwner(s, pages, q);
    }
  }

  lemma SlotsLeft(s: Space, t: Space, src: Space, p: Path, start: nat, i: nat)
    requires start <= i < 512 && AbsentThrough(s, Through(p, start, 512)) && Shared(s, t, src, Through(p, start, i), true)
    ensures AbsentThrough(t, Through(p, i, i + 1))
  {
    hide Slot, At, UserPath;
  }

  lemma ThroughApart(p: Path, start: nat, i: nat)
    ensures Through(p, start, i) !! Through(p, i, i + 1)
  {
  }

  lemma SharedWiden(s: Space, t: Space, src: Space, p: Path, start: nat, i: nat, end: nat)
    requires start <= i <= end && AbsentThrough(s, Through(p, start, end)) && Shared(s, t, src, Through(p, start, i), false)
    ensures Shared(s, t, src, Through(p, start, end), false)
  {
    hide Slot, At, FramesGrown;
  }

  lemma ReadsSource(src: Space, s: Space, f: nat)
    requires Apart(src, s) && f in src.tabs
    ensures At(s.mem, f) == At(src.mem, f)
  {
    hide Slot, At, UserPath;
  }

  lemma SharedKeeps(s: Space, t: Space, src: Space, f: nat, these: iset<Path>, whole: bool)
    requires Shared(s, t, src, these, whole) && f in s.tabs && Apart(src, s)
    ensures f in t.tabs && t.tabs[f] == s.tabs[f] && Apart(src, t)
  {
    hide Slot, At, UserPath, Apart;
    ApartKept(src, s, t);
  }

  lemma ShareNothing(s: Space, src: Space, p: Path, i: nat)
    requires s.Tree() && AbsentThrough(s, Through(p, i, i + 1))
    ensures Shared(s, s, src, Through(p, i, i + 1), false)
  {
    hide Slot, Reach, UserPath, At;
  }

  lemma AtElsewhere(mem: Memory, g: nat, t: Table, f: nat)
    requires f != g
    ensures At(mem[g := t], f) == At(mem, f)
  {
  }

  lemma AbsentHere(s: Space, p: Path, i: nat)
    requires AbsentThrough(s, Through(p, i, i + 1)) && UserPath(p + [i])
    ensures Slot(s.mem, s.root, p + [i]) == None
  {
    assert p + [i] in Through(p, i, i + 1);
  }
}
