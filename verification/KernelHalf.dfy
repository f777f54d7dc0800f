/** kernel/paging.cpp, SetupIdentityPageTable: the kernel's half of every root, which maps physical memory
    one to one in pages of 2 MiB that user mode may not touch. */
module KernelHalf {
  import opened Options
  import opened PageEntry
  import opened PageTree
  import opened PageOwnership
  import opened PageContents

  /** kPageDirectoryCount: so many GiB are mapped. */
  const PAGE_DIRECTORIES: nat := 64

  /** The processor takes no other addresses. */
  predicate Canonical(a: Address) {
    a.high == if a.pml4 < FIRST_USER_INDEX then 0 else 0xffff
  }

  /** The entries of the kernel's half of a root. */
  function Lower(mem: Memory, root: nat): seq<Entry> {
    At(mem, root)[..FIRST_USER_INDEX]
  }

  /** The path to the entry that maps the 2 MiB an address lies in. */
  function RegionPath(a: Address): Path {
    [a.pml4, a.pdp, a.dir]
  }

  /** The first frame of the j-th region of the i-th GiB. */
  function RegionFrame(i: nat, j: nat): nat {
    512 * (j + 512 * i)
  }

  function RegionBase(a: Address): nat {
    RegionFrame(a.pdp, a.dir)
  }

  /** The address lies in the part that is mapped. */
  predicate Mapped(a: Address) {
    a.pml4 == 0 && a.pdp < PAGE_DIRECTORIES
  }

  ghost predicate RegionEntry(e: Option<Entry>, i: nat, j: nat) {
    e.Some? && e.value.addr == RegionFrame(i, j) && e.value.writable && !e.value.user
  }

  /** The kernel's half below a root is as it was set up at the start. */
  ghost predicate OneToOne(mem: Memory, root: nat) {
    && Slot(mem, root, [0]).Some? && (forall k :: 1 <= k < FIRST_USER_INDEX ==> Slot(mem, root, [k]) == None)
    && (forall i :: 0 <= i < 512 ==> (Slot(mem, root, [0, i]).Some? <==> i < PAGE_DIRECTORIES))
    && (forall i, j :: 0 <= i < PAGE_DIRECTORIES && 0 <= j < 512 ==> RegionEntry(Slot(mem, root, [0, i, j]), i, j))
  }

  /** The frame of one of the kernel's own tables. */
  predicate KernelTable(mem: Memory, root: nat, f: nat) {
    Reach(mem, root, [0]) == Some(f) || exists i | 0 <= i < 512 :: Reach(mem, root, [0, i]) == Some(f)
  }

  lemma ReachFirst(mem: Memory, root: nat, k: nat)
    requires k < FIRST_USER_INDEX
    ensures Slot(mem, root, [k]) == Present(At(mem, root), k) == Present(Lower(mem, root) + At(mem, root)[FIRST_USER_INDEX..], k)
  {
    assert Init([k]) == [];
    assert Lower(mem, root) + At(mem, root)[FIRST_USER_INDEX..] == At(mem, root);
  }

  lemma ReachBelow(mem: Memory, root: nat, q: Path, i: nat)
    ensures Slot(mem, root, q + [i]) == match Reach(mem, root, q) case None => None case Some(t) => Present(At(mem, t), i)
  {
    assert Init(q + [i]) == q;
  }

  /** Whoever leaves the kernel's tables and the kernel's half of the root alone leaves the map as it is. */
  lemma KernelStays(mem: Memory, root: nat, mem': Memory, root': nat)
    requires OneToOne(mem, root) && Lower(mem', root') == Lower(mem, root)
    requires forall f :: KernelTable(mem, root, f) ==> At(mem', f) == At(mem, f)
    ensures OneToOne(mem', root') && forall f :: KernelTable(mem', root', f) <==> KernelTable(mem, root, f)
  {
    hide Slot, Reach, At, Present, RegionEntry;
    forall k | 0 <= k < FIRST_USER_INDEX
      ensures Slot(mem', root', [k]) == Slot(mem, root, [k])
    {
      SameFirst(mem, root, mem', root', k);
    }
    forall i | 0 <= i < 512
      ensures Slot(mem', root', [0, i]) == Slot(mem, root, [0, i])
    {
      assert [0] + [i] == [0, i];
      assert Reach(mem, root, [0]).Some? ==> KernelTable(mem, root, Reach(mem, root, [0]).value);
      SameReach(mem, root, mem', root', [0]);
      SameBelow(mem, root, mem', root', [0], i);
    }
    forall i, j | 0 <= i < PAGE_DIRECTORIES && 0 <= j < 512
      ensures Slot(mem', root', [0, i, j]) == Slot(mem, root, [0, i, j])
    {
      assert [0, i] + [j] == [0, i, j];
      assert Reach(mem, root, [0, i]).Some? ==> KernelTable(mem, root, Reach(mem, root, [0, i]).value);
      SameBelow(mem, root, mem', root', [0, i], j);
    }
    SameReach(mem, root, mem', root', [0]);
    forall i | 0 <= i < 512
      ensures Reach(mem', root', [0, i]) == Reach(mem, root, [0, i])
    {
      SameReach(mem, root, mem', root', [0, i]);
    }
  }

  lemma SameFirst(mem: Memory, root: nat, mem': Memory, root': nat, k: nat)
    requires k < FIRST_USER_INDEX && Lower(mem', root') == Lower(mem, root)
    ensures Slot(mem', root', [k]) == Slot(mem, root, [k])
  {
    ReachFirst(mem, root, k);
    ReachFirst(mem', root', k);
    assert Lower(mem', root')[k] == Lower(mem, root)[k];
  }

  lemma SameReach(mem: Memory, root: nat, mem': Memory, root': nat, q: Path)
    requires q != [] && Slot(mem', root', q) == Slot(mem, root, q)
    ensures Reach(mem', root', q) == Reach(mem, root, q)
  {
  }

  lemma SameBelow(mem: Memory, root: nat, mem': Memory, root': nat, q: Path, i: nat)
    requires q != [] && Slot(mem', root', q) == Slot(mem, root, q)
    requires Reach(mem, root, q).Some? ==> At(mem', Reach(mem, root, q).value) == At(mem, Reach(mem, root, q).value)
    ensures Slot(mem', root', q + [i]) == Slot(mem, root, q + [i])
  {
    hide At, Present;
    SameReach(mem, root, mem', root', q);
    ReachBelow(mem, root, q, i);
    ReachBelow(mem', root', q, i);
  }

  /** The frame the processor finds behind an address. */
  function FrameBehind(mem: Memory, root: nat, addr: Address): Option<nat> {
    if FIRST_USER_INDEX <= addr.pml4 then
      match Slot(mem, root, PathOf(addr))
      case None => None
      case Some(e) => Some(e.addr)
    else
      match Slot(mem, root, RegionPath(addr))
      case None => None
      case Some(e) => Some(e.addr + addr.page)
  }

  /** In the kernel's half it is the frame of that number. */
  lemma FrameInKernel(mem: Memory, root: nat, addr: Address)
    requires OneToOne(mem, root) && addr.pml4 < FIRST_USER_INDEX
    ensures FrameBehind(mem, root, addr) == if Mapped(addr) then Some(PageNumber(addr)) else None
  {
    hide Reach, At, Slot;
    var q := [addr.pml4, addr.pdp];
    assert [addr.pml4] + [addr.pdp] == q && q + [addr.dir] == RegionPath(addr);
    NothingBelow(mem, root, [addr.pml4], addr.pdp);
    NothingBelow(mem, root, q, addr.dir);
    if Mapped(addr) {
      assert RegionEntry(Slot(mem, root, [0, addr.pdp, addr.dir]), addr.pdp, addr.dir);
    }
  }

  lemma NothingBelow(mem: Memory, root: nat, q: Path, i: nat)
    requires q != []
    ensures Slot(mem, root, q) == None ==> Slot(mem, root, q + [i]) == None
  {
    assert Init(q + [i]) == q;
  }

  /** What SetPageContent does to memory: it follows the entries of an address from a table on, whatever
      they are, and rewrites the one it takes for the last. */
  function Walked(mem: Memory, table: nat, part: nat, addr: Address, content: nat): Memory
    requires 1 <= part <= 4 && content < 0x100_0000_0000
    decreases part
  {
    var i := Part(addr, part);
    if part == 1 then mem[table := At(mem, table)[i := Repoint(At(mem, table)[i], content)]]
    else Walked(mem, At(mem, table)[i].addr, part - 1, addr, content)
  }

  /** In the kernel's half the walk takes a page of 2 MiB for a table: it overwrites a word of the first
      frame of that page. */
  lemma WalkedInKernel(mem: Memory, root: nat, addr: Address, content: nat)
    requires OneToOne(mem, root) && Mapped(addr) && content < 0x100_0000_0000
    ensures var b := RegionBase(addr);
            Walked(mem, root, 4, addr, content) == mem[b := At(mem, b)[addr.page := Repoint(At(mem, b)[addr.page], content)]]
  {
    hide At;
    var q := RegionPath(addr);
    assert q == [0, addr.pdp, addr.dir] == [0, addr.pdp] + [addr.dir] && [0, addr.pdp] == [0] + [addr.pdp] && [0] == [] + [0];
    ReachBelow(mem, root, [0, addr.pdp], addr.dir);
    ReachBelow(mem, root, [0], addr.pdp);
    ReachBelow(mem, root, [], 0);
    assert RegionEntry(Slot(mem, root, [0, addr.pdp, addr.dir]), addr.pdp, addr.dir);
    var t3 := At(mem, root)[0].addr;
    var t2 := At(mem, t3)[addr.pdp].addr;
    assert Walked(mem, root, 4, addr, content) == Walked(mem, t3, 3, addr, content);
    assert Walked(mem, t3, 3, addr, content) == Walked(mem, t2, 2, addr, content);
  }

  /** In the application's half it repoints the page, and leaves the kernel's half alone. */
  lemma {:induction false} WalkedInApp(s: Space, table: nat, part: nat, addr: Address, content: nat)
    requires s.Tree() && FIRST_USER_INDEX <= addr.pml4 && Slot(s.mem, s.root, PathOf(addr)).Some? && content < 0x100_0000_0000
    requires 1 <= part <= 4 && table in s.tabs && s.tabs[table] == PathOf(addr)[..4 - part]
    ensures Repointed(s, Walked(s.mem, table, part, addr, content), PathOf(addr), content)
    ensures Lower(Walked(s.mem, table, part, addr, content), s.root) == Lower(s.mem, s.root)
    decreases part
  {
    hide Slot, Reach, UserPath, Space.Tree, Repointed, At, Lower;
    var q := PathOf(addr);
    NextTable(s, table, q, 4 - part);
    PartOfPath(addr, part);
    var i := Part(addr, part);
    if part == 1 {
      var mem' := Walked(s.mem, table, part, addr, content);
      RepointLeaf(s, mem', table, q, content);
      assert q[..3] + [i] == q;
      WriteChanges(s, table, i, Repoint(At(s.mem, table)[i], content));
      LowerStays(s, mem', table, i);
    } else {
      WalkedInApp(s, At(s.mem, table)[i].addr, part - 1, addr, content);
    }
  }

  lemma WriteChanges(s: Space, f: nat, i: nat, e: Entry)
    requires i < 512
    ensures SlotChanged(s.mem, s.mem[f := At(s.mem, f)[i := e]], s.tabs, f, i)
  {
  }

  /** A slot of an application's tree is not in the kernel's half. */
  lemma LowerStays(s: Space, mem': Memory, f: nat, i: nat)
    requires s.Tree() && f in s.tabs && UserPath(s.tabs[f] + [i]) && SlotChanged(s.mem, mem', s.tabs, f, i)
    ensures Lower(mem', s.root) == Lower(s.mem, s.root)
  {
    hide Slot, Reach, Space.Tree, At;
    RootTable(s);
    if f == s.root {
      assert (s.tabs[f] + [i])[0] == i;
      assert forall j :: 0 <= j < FIRST_USER_INDEX ==> Lower(mem', s.root)[j] == At(mem', f)[j] == At(s.mem, f)[j] == Lower(s.mem, s.root)[j];
    }
  }

  lemma LinkedLower(s: Space, mem': Memory, f: nat, i: nat, g: nat, e: Entry)
    requires s.Tree() && LinkedAt(s, mem', f, i, g, e)
    ensures Lower(mem', s.root) == Lower(s.mem, s.root)
  {
    hide Slot, Reach, Space.Tree, Lower, UserPath, Blank;
    TablesHeld(s);
    LowerStays(s, mem', f, i);
  }

  lemma OpenedLower(s: Space, mem': Memory, held': set<nat>, f: nat, i: nat, e: Entry)
    requires s.Tree() && Opened(s, mem', held', f, i, e)
    ensures Lower(mem', s.root) == Lower(s.mem, s.root)
  {
    hide Slot, Reach, Space.Tree, Lower, UserPath, Blank;
    TablesHeld(s);
    LowerStays(s, mem', f, i);
  }

  /** Filling a page leaves the root alone. */
  lemma PageNotRoot(t: Space, c: Path, now: Table)
    requires t.Tree() && PagePath(c) && Slot(t.mem, t.root, c).Some?
    ensures Lower(Overwritten(t, c, now).mem, t.root) == Lower(t.mem, t.root)
  {
    hide Slot, Reach, UserPath, Space.Tree, At;
    HeldPage(t, c);
    RootTable(t);
    AtAllElse(t.mem, Slot(t.mem, t.root, c).value.addr, now);
  }
}
