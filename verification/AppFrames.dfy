/** Where kernel/system.cpp puts an application's stack and arguments, and how many frames its address
    space takes. */
module AppFrames {
  import opened Options
  import opened PageEntry
  import opened PageTree
  import opened PageOwnership
  import opened FrameCounts

  const STACK_PAGES: nat := 16

  /** 0xffff'ffff'ffff'f000, the argument page. */
  const ARGS_ADDRESS: Address := Address(0, 511, 511, 511, 511, 0xffff)

  /** The argument address less 16 * 4096. */
  const STACK_ADDRESS: Address := Address(0, 495, 511, 511, 511, 0xffff)

  /** 0xffff'8000'0000'0000, where the application's half begins. */
  const APP_BASE: Address := Address(0, 0, 0, 0, 256, 0xffff)

  lemma AppAddresses()
    ensures Value(ARGS_ADDRESS) == 0xffff_ffff_ffff_f000
    ensures Value(STACK_ADDRESS) == Value(ARGS_ADDRESS) - 0x1000 * STACK_PAGES
    ensures Value(APP_BASE) == 0xffff_8000_0000_0000
    ensures Room(ARGS_ADDRESS, 4) == 1 && Room(STACK_ADDRESS, 4) == STACK_PAGES + 1
  {
  }

  /** The paths of the argument page and the stack pages: the last 17 of the address space. */
  ghost function StackPaths(): set<Path> {
    set i: nat | 495 <= i < 512 :: [511, 511, 511, i]
  }

  /** The path of the argument page. */
  const ARGS_PATH: Path := [511, 511, 511, 511]

  /** The pages a launch maps for the application: when the arguments do not fit, it stops at theirs. */
  ghost function OwnPaths(fits: bool): set<Path> {
    if fits then StackPaths() else {ARGS_PATH}
  }

  /** The tables on the way to them. */
  ghost function StackTables(): set<Path> {
    {[], [511], [511, 511], [511, 511, 511]}
  }

  /** The tables of an application that was launched from an image. */
  ghost function TablePaths(image: Space): set<Path> {
    image.tabs.Values + StackTables()
  }

  /** How many frames a launch takes: a table for each of the image's, those missing on the way to the
      stack, and the argument and stack pages. */
  ghost function Need(image: Space, fits: bool): nat {
    |TablePaths(image)| + |OwnPaths(fits)|
  }

  lemma {:induction false} LastPages(n: nat)
    requires n <= 512
    ensures |set i: nat | n <= i < 512 :: [511, 511, 511, i]| == 512 - n
    decreases 512 - n
  {
    var s := set i: nat | n <= i < 512 :: [511, 511, 511, i];
    if n < 512 {
      LastPages(n + 1);
      var rest := set i: nat | n + 1 <= i < 512 :: [511, 511, 511, i];
      forall q | q in s
        ensures q in rest + {[511, 511, 511, n]}
      {
      }
      assert s == rest + {[511, 511, 511, n]};
      forall q | q in rest
        ensures q != [511, 511, 511, n]
      {
        assert q[3] > n;
      }
    } else {
      assert s == {};
    }
  }

  lemma StackPathCount()
    ensures |StackPaths()| == STACK_PAGES + 1
  {
    LastPages(495);
  }

  lemma InLastPages(q: Path)
    requires PagePath(q) && PageNumber(STACK_ADDRESS) <= Rank(q)
    ensures q in StackPaths() && q == [511, 511, 511, q[3]] && q[3] == 495 + Rank(q) - PageNumber(STACK_ADDRESS)
  {
    assert q == [q[0], q[1], q[2], q[3]];
    assert q[0] == 511 && q[1] == 511 && q[2] == 511;
  }

  lemma OnTheWayToStack(q: Path)
    requires OnTheWayTo(q, PageNumber(STACK_ADDRESS), PageNumber(STACK_ADDRESS) + STACK_PAGES + 1) && |q| <= 3
    ensures q in StackTables()
  {
    hide Rank, PageNumber;
    var c: Path :| PagePath(c) && PageNumber(STACK_ADDRESS) <= Rank(c) && q <= c;
    InLastPages(c);
    assert q == c[..|q|];
    assert c[..0] == [] && c[..1] == [511] && c[..2] == [511, 511] && c[..3] == [511, 511, 511];
  }

  /** A launch that got through took what it needs; so there were as many frames. */
  lemma EnoughFrames(image: Space, t: Space, pages: map<nat, Path>, held: set<nat>, begin: nat, end: nat, fits: bool)
    requires t.Tree() && Owned(t, pages) && Others(t, pages) == held && Within(held, t.held, begin, end)
    requires t.tabs.Values == TablePaths(image) && pages.Values == OwnPaths(fits)
    ensures |FreeFrames(held, begin, end)| >= Need(image, fits)
  {
    hide Space.Tree, Owned, Others, StackTables, OwnPaths;
    TakenCount(t, pages, held);
    SubsetCount(t.held - held, FreeFrames(held, begin, end));
  }

  /** One that was abandoned for want of a frame took fewer than it needs, and all there were. */
  lemma TooFewFrames(image: Space, t: Space, pages: map<nat, Path>, held: set<nat>, begin: nat, end: nat, fits: bool)
    requires t.Tree() && Owned(t, pages) && Others(t, pages) == held && t.root in t.held && t.root !in held
    requires Within(held, t.held, begin, end) && forall f: nat :: begin <= f < end ==> f in t.held
    requires t.tabs.Values <= TablePaths(image) && pages.Values <= OwnPaths(fits) && pages.Values != OwnPaths(fits)
    ensures 0 < |FreeFrames(held, begin, end)| < Need(image, fits)
  {
    hide Space.Tree, Owned, Others, StackTables, OwnPaths;
    TakenCount(t, pages, held);
    SubsetCount(t.tabs.Values, TablePaths(image));
    SubsetCount(pages.Values, OwnPaths(fits));
    assert FreeFrames(held, begin, end) == t.held - held;
    assert t.root in FreeFrames(held, begin, end);
  }

  /** In numbers: the argument page and the sixteen of the stack, or the argument page alone. */
  lemma NeedIs(image: Space, fits: bool)
    ensures Need(image, fits) == |image.tabs.Values + StackTables()| + if fits then STACK_PAGES + 1 else 1
  {
    StackPathCount();
  }
}
