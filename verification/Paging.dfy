/** kernel/paging.cpp: page-table surgery in physical memory, over the bitmap allocator. */
module Paging {
  import opened Options
  import opened PageEntry
  import opened PageTree
  import opened PageOwnership
  import opened PageSharing
  import opened PageContents
  import opened MemoryManager
  import opened FrameCounts
  import opened KernelHalf

  function Min(a: int, b: int): int {
    if a < b then a else b
  }

  datatype FaultResult = Handled | AlreadyPresent | OutOfRange | NoEnoughFrames

  predicate InApp(a: Address) {
    FIRST_USER_INDEX <= a.pml4
  }

  /** The kernel's half below the root is as it was set up, and its tables belong to nobody else. */
  ghost predicate KernelMapped(s: Space, pages: map<nat, Path>) {
    OneToOne(s.mem, s.root) && forall f :: KernelTable(s.mem, s.root, f) ==> f in Others(s, pages)
  }

  /** What a copy-on-write in the kernel's half does to the frames that were held: a word of the first
      frame of the 2 MiB region, in the place the page of addr has in it, points to the fresh frame. */
  ghost predicate Turned(s: Space, u: Space, addr: Address, g: nat) {
    && g !in s.held && g < 0x100_0000_0000
    && u.root == s.root && u.tabs == s.tabs && u.held == s.held + {g}
    && var b := RegionBase(addr);
       forall f :: f in s.held ==>
         At(u.mem, f) == if f == b then At(s.mem, f)[addr.page := Repoint(At(s.mem, f)[addr.page], g)] else At(s.mem, f)
  }

  class Machine {
    const mm: BitmapMemoryManager
    var mem: Memory
    var cr3: nat
    /** The demand-paging area of the current task. */
    var dpagingBegin: nat
    var dpagingEnd: nat
    /** How often a frame was given back that was not held. */
    ghost var strayFrees: nat

    constructor (mm: BitmapMemoryManager, mem: Memory, cr3: nat)
      ensures this.mm == mm && this.mem == mem && this.cr3 == cr3 && strayFrees == 0
    {
      this.mm := mm;
      this.mem := mem;
      this.cr3 := cr3;
      dpagingBegin, dpagingEnd := 0, 0;
      strayFrees := 0;
    }

    ghost function View(root: nat, tabs: map<nat, Path>): Space
      reads this, mm
    {
      Space(mem, mm.held, root, tabs)
    }

    ghost predicate Exhausted()
      reads mm
    {
      forall f: nat :: mm.rangeBegin <= f < mm.rangeEnd ==> f in mm.held
    }

    method NewPageMap() returns (r: AllocResult)
      requires mm.Valid()
      modifies this`mem, mm`held, mm.allocMap
      ensures mm.Valid()
      ensures r.Allocated? ==>
                && r.frame < FRAME_COUNT && r.frame !in old(mm.held)
                && mm.held == old(mm.held) + {r.frame}
                && mem == old(mem)[r.frame := Blank()]
      ensures r.Allocated? ==> r.frame == LowestFree(old(mm.held), mm.rangeBegin, mm.rangeEnd)
      ensures r.NoEnoughMemory? ==> mm.held == old(mm.held) && mem == old(mem) && Exhausted()
      ensures Within(old(mm.held), mm.held, mm.rangeBegin, mm.rangeEnd)
    {
      r := mm.Allocate(1);
      if r.Allocated? {
        FirstRunIs(old(mm.held), mm.rangeBegin, mm.rangeEnd, r.frame);
        assert InRun(r.frame, r.frame, 1);
        assert Run(r.frame, 1) == {r.frame};
        mem := mem[r.frame := Blank()];
      } else {
        forall f: nat | mm.rangeBegin <= f < mm.rangeEnd
          ensures f in mm.held
        {
          assert !FreeRun(mm.held, mm.rangeEnd, f, 1);
        }
      }
    }

    /** page_map[i] = e */
    method WriteEntry(table: nat, i: nat, e: Entry)
      requires i < 512
      modifies this`mem
      ensures mem == old(mem)[table := At(old(mem), table)[i := e]]
    {
      mem := mem[table := At(mem, table)[i := e]];
    }

    /** The entry of a page map, made to point to a fresh blank page map unless it was present. */
    method SetNewPageMapIfNotPresent(table: nat, i: nat) returns (r: AllocResult)
      requires mm.Valid() && i < 512 && table in mm.held
      modifies this`mem, mm`held, mm.allocMap
      ensures mm.Valid()
      ensures r.Allocated? ==> MadePresent(old(mem), old(mm.held), mem, mm.held, table, i, r.frame)
      ensures r.NoEnoughMemory? ==> mem == old(mem) && mm.held == old(mm.held) && Exhausted() && !At(mem, table)[i].present
      ensures Within(old(mm.held), mm.held, mm.rangeBegin, mm.rangeEnd)
    {
      var e := At(mem, table)[i];
      if e.present {
        return Allocated(e.addr);
      }
      r := NewPageMap();
      if r.Allocated? {
        WriteEntry(table, i, SetPointer(e, r.frame));
        WriteEntry(table, i, At(mem, table)[i].(present := true));
        WriteTwice(old(mem)[r.frame := Blank()], table, i, SetPointer(e, r.frame), e.(addr := r.frame, present := true));
      }
    }

    /** Moves an address to the first page of the next slot of a table of the given level. */
    method NextSlot(addr: Address, level: nat) returns (a: Address)
      requires 1 <= level <= 4 && Part(addr, level) < 511
      ensures PageNumber(a) == PageNumber(addr) + Room(addr, level - 1)
      ensures Room(a, level) == Room(addr, level) - Room(addr, level - 1)
      ensures Part(a, level) == Part(addr, level) + 1
      ensures PathOf(a)[..4 - level] == PathOf(addr)[..4 - level] && addr.pml4 <= a.pml4
    {
      a := SetPart(addr, level, Part(addr, level) + 1);
      PartAfterSet(addr, level, Part(addr, level) + 1);
      var l := level - 1;
      while l >= 1
        invariant 0 <= l < level
        invariant forall k: nat :: k <= 4 ==>
                    Part(a, k) == if k == level then Part(addr, k) + 1 else if l < k < level then 0 else Part(addr, k)
      {
        PartAfterSet(a, l, 0);
        a := SetPart(a, l, 0);
        l := l - 1;
      }
      PartsDecide(addr, a, level);
    }

    /** Makes slot i of a table present and sets its user and writable bits. */
    method OpenSlot(table: nat, i: nat, level: nat, writable: bool, ghost root: nat, ghost tabs: map<nat, Path>)
      returns (r: AllocResult, ghost e: Entry)
      requires mm.Valid() && View(root, tabs).Tree()
      requires table in tabs && i < 512 && UserPath(tabs[table] + [i]) && 1 <= level
      modifies this`mem, mm`held, mm.allocMap
      ensures mm.Valid()
      ensures r.Allocated? ==>
                && Opened(old(View(root, tabs)), mem, mm.held, table, i, e)
                && e.addr == r.frame && e.writable == (level > 1 || writable)
      ensures r.NoEnoughMemory? ==> mem == old(mem) && mm.held == old(mm.held) && Exhausted() && !At(mem, table)[i].present
      ensures Within(old(mm.held), mm.held, mm.rangeBegin, mm.rangeEnd)
      ensures Lower(mem, root) == old(Lower(mem, root))
    {
      hide Lower, Space.Tree, Slot, Reach, Blank, At, Opened, MadePresent, UserPath, Exhausted, Within, BitmapMemoryManager.Valid;
      ghost var s := View(root, tabs);
      HeldTable(s, table);
      e := EMPTY;
      r := SetNewPageMapIfNotPresent(table, i);
      if r.Allocated? {
        ghost var m1 := mem;
        ghost var e0 := At(m1, table)[i].(user := true);
        e := e0.(writable := level > 1 || writable);
        OpenedBy(s, m1, mm.held, table, i, r.frame, level > 1 || writable);
        WriteEntry(table, i, At(mem, table)[i].(user := true));
        ghost var m2 := mem;
        AtWritten(m1, table, At(m1, table)[i := e0]);
        assert At(m2, table)[i] == e0;
        if level == 1 {
          WriteEntry(table, i, At(mem, table)[i].(writable := writable));
        } else {
          WriteEntry(table, i, At(mem, table)[i].(writable := true));
        }
        assert mem == m2[table := At(m2, table)[i := e]];
        WriteTwice(m1, table, i, e0, e);
        OpenedLower(s, mem, mm.held, table, i, e);
      }
    }

    /** One turn of the SetupPageMap loop: opens the slot of a in one table and maps what of the
        num pages lies below that slot. */
    method SetupSlot(pageMap: nat, level: nat, a: Address, num: nat, writable: bool,
                     ghost root: nat, ghost tabs: map<nat, Path>)
      returns (remain: nat, ok: bool, ghost tabs': map<nat, Path>, ghost done: nat, ghost news: map<nat, Path>)
      requires mm.Valid() && View(root, tabs).Tree()
      requires 1 <= level <= 4 && FIRST_USER_INDEX <= a.pml4 && 0 < num
      requires pageMap in tabs && tabs[pageMap] == PathOf(a)[..4 - level]
      modifies this`mem, mm`held, mm.allocMap
      ensures mm.Valid() && View(root, tabs').Tree()
      ensures Grown(old(View(root, tabs)), View(root, tabs'), PageNumber(a), PageNumber(a) + done, writable, news)
      ensures ok ==> done == Min(num, Room(a, level - 1)) && remain == num - done
      ensures !ok ==> done < Min(num, Room(a, level - 1)) && Exhausted()
      ensures !ok ==> Unmapped(View(root, tabs'), PageNumber(a) + done, PageNumber(a) + done + 1)
      ensures Within(old(mm.held), mm.held, mm.rangeBegin, mm.rangeEnd)
      ensures NewTables(old(View(root, tabs)), View(root, tabs'), PageNumber(a), PageNumber(a) + num)
      ensures Lower(mem, root) == old(Lower(mem, root))
      decreases level, 0
    {
      hide Lower, Grown, Space.Tree, Slot, Reach, Blank, At, Opened, PathOf, PageNumber, UserPath, Room, Exhausted, Within, NewTables, Unmapped, BitmapMemoryManager.Valid;
      ghost var s := View(root, tabs);
      GrownRefl(s, PageNumber(a), writable);
      PathParts(a, level);
      RoomParts(a, level);
      tabs', done, news, remain := tabs, 0, map[], num;
      ghost var e;
      var r;
      ghost var held0 := mm.held;
      NewTablesNone(s, PageNumber(a), PageNumber(a) + num);
      r, e := OpenSlot(pageMap, Part(a, level), level, writable, root, tabs);
      ghost var held1 := mm.held;
      ok := r.Allocated?;
      if ok {
        ghost var t1;
        t1, done, news := OpenedSlot(s, s, mem, mm.held, pageMap, Part(a, level), e, a, level, PageNumber(a), writable, map[]);
        tabs' := t1.tabs;
        assert t1 == View(root, tabs');
        if level == 1 {
          remain := remain - 1;
        } else {
          ghost var done2, news2;
          remain, ok, tabs', done2, news2 := SetupPageMap(r.frame, level - 1, a, num, writable, root, t1.tabs);
          GrownTrans(s, t1, View(root, tabs'), PageNumber(a), PageNumber(a), PageNumber(a) + done2, writable, news, news2);
          WithinTrans(held0, held1, mm.held, mm.rangeBegin, mm.rangeEnd);
          AllTablesKept(t1, View(root, tabs'), PageNumber(a), PageNumber(a) + done2, writable, news2);
          NewTablesTrans(s, t1, View(root, tabs'), PageNumber(a), PageNumber(a), PageNumber(a) + num);
          done, news := done2, news + news2;
        }
      } else {
        SlotMissing(s, pageMap, a, level);
      }
    }

    /** Maps num pages from addr on below one table, as far as that table reaches. */
    method SetupPageMap(pageMap: nat, level: nat, addr: Address, num: nat, writable: bool,
                        ghost root: nat, ghost tabs: map<nat, Path>)
      returns (remain: nat, ok: bool, ghost tabs': map<nat, Path>, ghost done: nat, ghost news: map<nat, Path>)
      requires mm.Valid() && View(root, tabs).Tree()
      requires 1 <= level <= 4 && FIRST_USER_INDEX <= addr.pml4
      requires pageMap in tabs && tabs[pageMap] == PathOf(addr)[..4 - level]
      modifies this`mem, mm`held, mm.allocMap
      ensures mm.Valid() && View(root, tabs').Tree()
      ensures Grown(old(View(root, tabs)), View(root, tabs'), PageNumber(addr), PageNumber(addr) + done, writable, news)
      ensures ok ==> done == Min(num, Room(addr, level)) && remain == num - done
      ensures !ok ==> done < Min(num, Room(addr, level)) && Exhausted()
      ensures !ok ==> Unmapped(View(root, tabs'), PageNumber(addr) + done, PageNumber(addr) + done + 1)
      ensures Within(old(mm.held), mm.held, mm.rangeBegin, mm.rangeEnd)
      ensures NewTables(old(View(root, tabs)), View(root, tabs'), PageNumber(addr), PageNumber(addr) + num)
      ensures Lower(mem, root) == old(Lower(mem, root))
      decreases level, 1
    {
      hide Lower, Grown, Space.Tree, Slot, Reach, PathOf, PageNumber, Room, Blank, UserPath, Exhausted, Within, NewTables, Unmapped, BitmapMemoryManager.Valid;
      ghost var s := View(root, tabs);
      WithinNone(mm.held, mm.rangeBegin, mm.rangeEnd);
      NewTablesNone(s, PageNumber(addr), PageNumber(addr) + num);
      GrownRefl(s, PageNumber(addr), writable);
      var a := addr;
      remain := num;
      tabs', done, news := tabs, 0, map[];
      while remain > 0
        invariant mm.Valid() && View(root, tabs').Tree()
        invariant Grown(s, View(root, tabs'), PageNumber(addr), PageNumber(addr) + done, writable, news)
        invariant Within(s.held, mm.held, mm.rangeBegin, mm.rangeEnd)
        invariant NewTables(s, View(root, tabs'), PageNumber(addr), PageNumber(addr) + num)
        invariant Lower(mem, root) == Lower(s.mem, root)
        invariant remain == num - done && done <= Room(addr, level)
        invariant pageMap in tabs' && tabs'[pageMap] == tabs[pageMap]
        invariant remain > 0 ==>
                    && FIRST_USER_INDEX <= a.pml4 && tabs[pageMap] == PathOf(a)[..4 - level]
                    && PageNumber(a) == PageNumber(addr) + done && Room(a, level) == Room(addr, level) - done
        decreases 512 - Part(a, level)
      {
        RoomParts(a, level);
        PathParts(a, level);
        ghost var t := View(root, tabs');
        ghost var done2, news2;
        remain, ok, tabs', done2, news2 := SetupSlot(pageMap, level, a, remain, writable, root, tabs');
        GrownTrans(s, t, View(root, tabs'), PageNumber(addr), PageNumber(a), PageNumber(a) + done2, writable, news, news2);
        WithinTrans(s.held, t.held, mm.held, mm.rangeBegin, mm.rangeEnd);
        AllTablesKept(t, View(root, tabs'), PageNumber(a), PageNumber(a) + done2, writable, news2);
        NewTablesTrans(s, t, View(root, tabs'), PageNumber(addr), PageNumber(a), PageNumber(addr) + num);
        done, news := done + done2, news + news2;
        if !ok {
          return;
        }
        if Part(a, level) == 511 {
          break;
        }
        a := NextSlot(a, level);
      }
      ok := true;
    }
  
    /** memory_manager->Free(frame, 1) */
    method FreeFrame(frame: nat)
      requires mm.Valid() && frame < FRAME_COUNT
      modifies this`strayFrees, mm`held, mm.allocMap
      ensures mm.Valid() && mm.held == old(mm.held) - {frame}
      ensures strayFrees == old(strayFrees) + if frame in old(mm.held) then 0 else 1
    {
      strayFrees := strayFrees + if frame in mm.held then 0 else 1;
      mm.Free(frame, 1);
      assert Run(frame, 1) == {frame} by {
        assert forall f: nat :: InRun(f, frame, 1) <==> f == frame;
      }
    }

    /** Empties the slots of one table from the part of addr on, freeing what they own. */
    method CleanPageMap(pageMap: nat, level: nat, addr: Address,
                        ghost root: nat, ghost tabs: map<nat, Path>, ghost pages: map<nat, Path>)
      returns (ghost tabs': map<nat, Path>, ghost pages': map<nat, Path>)
      requires mm.Valid() && View(root, tabs).Tree() && Owned(View(root, tabs), pages)
      requires 1 <= level <= 4 && forall l :: 1 <= l < level ==> Part(addr, l) == 0
      requires pageMap in tabs && |tabs[pageMap]| == 4 - level
      requires level == 4 ==> FIRST_USER_INDEX <= Part(addr, 4)
      modifies this`mem, this`strayFrees, mm`held, mm.allocMap
      ensures mm.Valid() && View(root, tabs').Tree() && Owned(View(root, tabs'), pages')
      ensures Pruned(old(View(root, tabs)), pages, View(root, tabs'), pages', Through(tabs[pageMap], Part(addr, level), 512))
      ensures strayFrees == old(strayFrees)
      decreases level, 1
    {
      hide Space.Tree, Owned, Pruned, Slot, Reach, At, UserPath, BitmapMemoryManager.Valid, Through;
      ghost var s := View(root, tabs);
      ghost var p := tabs[pageMap];
      tabs', pages' := tabs, pages;
      PruneNone(s, pages, p, Part(addr, level));
      for i := Part(addr, level) to 512
        invariant mm.Valid() && View(root, tabs').Tree() && Owned(View(root, tabs'), pages')
        invariant pageMap in tabs' && tabs'[pageMap] == p
        invariant Pruned(s, pages, View(root, tabs'), pages', Through(p, Part(addr, level), i))
        invariant strayFrees == old(strayFrees)
      {
        ghost var t := View(root, tabs');
        ghost var pages1 := pages';
        UserSlot(t, pageMap, i);
        tabs', pages' := CleanSlot(pageMap, i, level, addr, root, tabs', pages');
        PrunedTrans(s, pages, t, pages1, View(root, tabs'), pages', Through(p, Part(addr, level), i), Through(p, i, i + 1));
        ThroughJoin(p, Part(addr, level), i, i + 1);
      }
    }

    /** One turn of the CleanPageMap loop. */
    method CleanSlot(pageMap: nat, i: nat, level: nat, addr: Address,
                     ghost root: nat, ghost tabs: map<nat, Path>, ghost pages: map<nat, Path>)
      returns (ghost tabs': map<nat, Path>, ghost pages': map<nat, Path>)
      requires mm.Valid() && View(root, tabs).Tree() && Owned(View(root, tabs), pages)
      requires 1 <= level <= 4 && forall l :: 1 <= l < level ==> Part(addr, l) == 0
      requires pageMap in tabs && |tabs[pageMap]| == 4 - level && i < 512 && UserPath(tabs[pageMap] + [i])
      modifies this`mem, this`strayFrees, mm`held, mm.allocMap
      ensures mm.Valid() && View(root, tabs').Tree() && Owned(View(root, tabs'), pages')
      ensures pageMap in tabs' && tabs'[pageMap] == tabs[pageMap]
      ensures Pruned(old(View(root, tabs)), pages, View(root, tabs'), pages', Through(tabs[pageMap], i, i + 1))
      ensures strayFrees == old(strayFrees)
      decreases level, 0
    {
      hide Space.Tree, Owned, Pruned, Slot, Reach, At, UserPath, BitmapMemoryManager.Valid, Through;
      ghost var s := View(root, tabs);
      ghost var p := tabs[pageMap];
      tabs', pages' := tabs, pages;
      var entry := At(mem, pageMap)[i];
      SlotEntry(s, pageMap, i);
      if !entry.present {
        PruneAbsent(s, pages, p, i);
        return;
      }
      if level > 1 {
        ChildTable(s, pageMap, i);
        tabs', pages' := CleanPageMap(entry.addr, level - 1, addr, root, tabs, pages);
        ChildPruned(s, pages, View(root, tabs'), pages', pageMap, i);
      } else {
        PruneBelowPage(s, pages, p + [i]);
      }
      ghost var t := View(root, tabs');
      CleanedSlot(s, pages, t, pages', pageMap, i);
      if entry.writable {
        mm.HeldBound(entry.addr);
        FreeFrame(entry.addr);
      }
      WriteEntry(pageMap, i, EMPTY);
      tabs', pages' := tabs' - {entry.addr}, pages' - {entry.addr};
      assert View(root, tabs') == Unlinked(t, pageMap, i);
    }
  
    /** Copies slots start .. 511 of one table of the source tree into the table at the same path
        of another tree. */
    method CopyPageMaps(dest: nat, src: nat, part: nat, start: nat,
                        ghost root: nat, ghost tabs: map<nat, Path>, ghost source: Space)
      returns (ok: bool, ghost tabs': map<nat, Path>)
      requires mm.Valid() && View(root, tabs).Tree() && source.Tree() && Apart(source, View(root, tabs))
      requires 1 <= part <= 4 && start <= 512 && (part == 4 ==> FIRST_USER_INDEX <= start)
      requires dest in tabs && src in source.tabs && tabs[dest] == source.tabs[src] && |tabs[dest]| == 4 - part
      requires AbsentThrough(View(root, tabs), Through(tabs[dest], start, 512))
      modifies this`mem, mm`held, mm.allocMap
      ensures mm.Valid() && View(root, tabs').Tree() && Apart(source, View(root, tabs'))
      ensures Shared(old(View(root, tabs)), View(root, tabs'), source, Through(tabs[dest], start, 512), ok)
      ensures !ok ==> Exhausted()
      ensures Within(old(mm.held), mm.held, mm.rangeBegin, mm.rangeEnd)
      ensures Lower(mem, root) == old(Lower(mem, root))
      decreases part, 1
    {
      hide Lower, Space.Tree, Shared, Apart, Slot, Reach, At, UserPath, AbsentThrough, Through, Exhausted, Within, BitmapMemoryManager.Valid;
      ghost var s := View(root, tabs);
      WithinNone(mm.held, mm.rangeBegin, mm.rangeEnd);
      ghost var p := tabs[dest];
      tabs', ok := tabs, true;
      SharedNone(s, source, p, start);
      for i := start to 512
        invariant mm.Valid() && View(root, tabs').Tree() && Apart(source, View(root, tabs'))
        invariant dest in tabs' && tabs'[dest] == p
        invariant Shared(s, View(root, tabs'), source, Through(p, start, i), true)
        invariant Within(s.held, mm.held, mm.rangeBegin, mm.rangeEnd)
        invariant Lower(mem, root) == Lower(s.mem, root)
      {
        ghost var t := View(root, tabs');
        SlotsLeft(s, t, source, p, start, i);
        UserSlot(t, dest, i);
        ok, tabs' := CopySlot(dest, src, part, i, root, tabs', source);
        WithinTrans(s.held, t.held, mm.held, mm.rangeBegin, mm.rangeEnd);
        ThroughApart(p, start, i);
        SharedTrans(s, t, View(root, tabs'), source, Through(p, start, i), Through(p, i, i + 1), ok);
        ThroughJoin(p, start, i, i + 1);
        if !ok {
          SharedWiden(s, View(root, tabs'), source, p, start, i + 1, 512);
          return;
        }
      }
      ok := true;
    }

    /** One turn of the loops of CopyPageMaps. */
    method CopySlot(dest: nat, src: nat, part: nat, i: nat,
                    ghost root: nat, ghost tabs: map<nat, Path>, ghost source: Space)
      returns (ok: bool, ghost tabs': map<nat, Path>)
      requires mm.Valid() && View(root, tabs).Tree() && source.Tree() && Apart(source, View(root, tabs))
      requires 1 <= part <= 4 && i < 512
      requires dest in tabs && src in source.tabs && tabs[dest] == source.tabs[src] && |tabs[dest]| == 4 - part
      requires UserPath(tabs[dest] + [i]) && AbsentThrough(View(root, tabs), Through(tabs[dest], i, i + 1))
      modifies this`mem, mm`held, mm.allocMap
      ensures mm.Valid() && View(root, tabs').Tree() && Apart(source, View(root, tabs'))
      ensures dest in tabs' && tabs'[dest] == tabs[dest]
      ensures Shared(old(View(root, tabs)), View(root, tabs'), source, Through(tabs[dest], i, i + 1), ok)
      ensures !ok ==> Exhausted()
      ensures Within(old(mm.held), mm.held, mm.rangeBegin, mm.rangeEnd)
      ensures Lower(mem, root) == old(Lower(mem, root))
      decreases part, 0
    {
      hide Lower, Space.Tree, Shared, Apart, Slot, Reach, At, UserPath, AbsentThrough, Through, Exhausted, Blank, FramesGrown, LinkedAt, Within, BitmapMemoryManager.Valid;
      ghost var s := View(root, tabs);
      WithinNone(mm.held, mm.rangeBegin, mm.rangeEnd);
      ghost var p := tabs[dest];
      tabs', ok := tabs, true;
      ReadsSource(source, s, src);
      SlotEntry(source, src, i);
      var e := At(mem, src)[i];
      if !e.present {
        ShareAbsent(s, source, p, i);
        return;
      }
      if part == 1 {
        WriteEntry(dest, i, e);
        AtWritten(s.mem, dest, At(s.mem, dest)[i := e]);
        WriteEntry(dest, i, At(mem, dest)[i].(writable := false));
        WriteTwice(s.mem, dest, i, e, WriteProtect(e));
        SharePage(s, mem, source, dest, i, e);
        WriteChanges(s, dest, i, WriteProtect(e));
        LowerStays(s, mem, dest, i);
        SharedKeeps(s, View(root, tabs'), source, dest, Through(p, i, i + 1), true);
        return;
      }
      ChildTable(source, src, i);
      var r := NewPageMap();
      if r.NoEnoughMemory? {
        ok := false;
        ShareNothing(s, source, p, i);
        return;
      }
      HeldTable(s, dest);
      AtElsewhere(s.mem, r.frame, Blank(), dest);
      ghost var m1 := mem;
      WriteEntry(dest, i, e);
      AtWritten(m1, dest, At(m1, dest)[i := e]);
      WriteEntry(dest, i, SetPointer(At(mem, dest)[i], r.frame));
      WriteTwice(m1, dest, i, e, SetPointer(e, r.frame));
      AbsentHere(s, p, i);
      LinkedNow(s, mem, dest, i, r.frame, SetPointer(e, r.frame));
      LinkedLower(s, mem, dest, i, r.frame, SetPointer(e, r.frame));
      ghost var t1 := ShareTable(s, mem, source, dest, i, r.frame, SetPointer(e, r.frame));
      assert t1 == View(root, t1.tabs);
      ApartKept(source, s, t1);
      ghost var held1 := mm.held;
      ok, tabs' := CopyPageMaps(r.frame, e.addr, part - 1, 0, root, t1.tabs, source);
      WithinTrans(s.held, held1, mm.held, mm.rangeBegin, mm.rangeEnd);
      SharedSlot(s, t1, View(root, tabs'), source, p, i, ok);
      SharedKeeps(s, View(root, tabs'), source, dest, Through(p, i, i + 1), ok);
    }
  
    /** Follows the entries of addr from a table on and makes the last of them point to content, writable. */
    method SetPageContent(table: nat, part: nat, addr: Address, content: nat)
      requires 1 <= part <= 4 && content < FRAME_COUNT
      modifies this`mem
      ensures mem == Walked(old(mem), table, part, addr, content)
      decreases part
    {
      var i := Part(addr, part);
      if part == 1 {
        ghost var e := At(mem, table)[i];
        WriteEntry(table, i, SetPointer(At(mem, table)[i], content));
        AtWritten(old(mem), table, At(old(mem), table)[i := SetPointer(e, content)]);
        WriteEntry(table, i, At(mem, table)[i].(writable := true));
        WriteTwice(old(mem), table, i, SetPointer(e, content), Repoint(e, content));
      } else {
        SetPageContent(At(mem, table)[i].addr, part - 1, addr, content);
      }
    }

    /** Moves the page of a faulting address to a fresh writable frame with the same contents; or, in the
        kernel's half, makes the walk hit a word of a frame that is no table. */
    method CopyOnePage(addr: Address, ghost tabs: map<nat, Path>, ghost pages: map<nat, Path>)
      returns (ok: bool, ghost pages': map<nat, Path>)
      requires mm.Valid() && View(cr3, tabs).Tree() && Owned(View(cr3, tabs), pages)
      requires if InApp(addr) then Slot(mem, cr3, PathOf(addr)).Some? && !Slot(mem, cr3, PathOf(addr)).value.writable
               else KernelMapped(View(cr3, tabs), pages) && Mapped(addr)
      modifies this`mem, mm`held, mm.allocMap
      ensures mm.Valid()
      ensures InApp(addr) ==>
                && View(cr3, tabs).Tree() && Owned(View(cr3, tabs), pages')
                && OthersKept(old(View(cr3, tabs)), pages, View(cr3, tabs), pages')
                && Lower(mem, cr3) == old(Lower(mem, cr3))
                && (ok ==> exists g :: Copied(old(View(cr3, tabs)), View(cr3, tabs), PathOf(addr), g))
      ensures !InApp(addr) && ok ==>
                && pages' == pages
                && Turned(old(View(cr3, tabs)), View(cr3, tabs), addr, LowestFree(old(mm.held), mm.rangeBegin, mm.rangeEnd))
      ensures !ok ==> mem == old(mem) && mm.held == old(mm.held) && pages' == pages && Exhausted()
      ensures Within(old(mm.held), mm.held, mm.rangeBegin, mm.rangeEnd)
      ensures ok ==> exists f: nat :: mm.rangeBegin <= f < mm.rangeEnd && f !in old(mm.held)
    {
      hide Slot, Reach, UserPath, Space.Tree, Owned, At, Blank, Lower, Exhausted, LeafWritten, Turned, KernelMapped, Walked, FrameBehind, LowestFree,
        BitmapMemoryManager.Valid;
      ghost var s := View(cr3, tabs);
      pages' := pages;
      var p := NewPageMap();
      ok := p.Allocated?;
      if ok {
        assert mm.rangeBegin <= p.frame < mm.rangeEnd;
        ReadBehind(s, pages, addr, p.frame);
        mem := mem[p.frame := At(mem, FrameBehind(mem, cr3, addr).value)];
        SetPageContent(cr3, 4, addr, p.frame);
        if InApp(addr) {
          pages' := pages[p.frame := PathOf(addr)];
          PageCopied(s, pages, View(cr3, tabs), addr, p.frame);
        } else {
          WordHit(s, pages, View(cr3, tabs), addr, p.frame);
        }
      }
    }

    method SetupPageMaps(addr: Address, num: nat, writable: bool, ghost tabs: map<nat, Path>)
      returns (ok: bool, ghost tabs': map<nat, Path>, ghost done: nat, ghost news: map<nat, Path>)
      requires mm.Valid() && View(cr3, tabs).Tree() && FIRST_USER_INDEX <= addr.pml4
      modifies this`mem, mm`held, mm.allocMap
      ensures mm.Valid() && View(cr3, tabs').Tree()
      ensures Grown(old(View(cr3, tabs)), View(cr3, tabs'), PageNumber(addr), PageNumber(addr) + done, writable, news)
      ensures ok ==> done == Min(num, Room(addr, 4))
      ensures !ok ==> done < Min(num, Room(addr, 4)) && Exhausted()
      ensures !ok ==> Unmapped(View(cr3, tabs'), PageNumber(addr) + done, PageNumber(addr) + done + 1)
      ensures Within(old(mm.held), mm.held, mm.rangeBegin, mm.rangeEnd)
      ensures NewTables(old(View(cr3, tabs)), View(cr3, tabs'), PageNumber(addr), PageNumber(addr) + num)
      ensures Lower(mem, cr3) == old(Lower(mem, cr3))
    {
      hide Lower, Grown, Space.Tree, Slot, Reach, PageNumber, Room, Blank, UserPath, Exhausted, Within, NewTables, Unmapped, BitmapMemoryManager.Valid;
      RootTable(View(cr3, tabs));
      assert PathOf(addr)[..4 - 4] == [];
      var remain;
      remain, ok, tabs', done, news := SetupPageMap(cr3, 4, addr, num, writable, cr3, tabs);
    }

    /** Maps writable pages where nothing is mapped yet: they are the application's own. */
    method SetupOwnPages(addr: Address, num: nat, ghost tabs: map<nat, Path>, ghost pages: map<nat, Path>)
      returns (ok: bool, ghost tabs': map<nat, Path>, ghost pages': map<nat, Path>, ghost done: nat)
      requires mm.Valid() && View(cr3, tabs).Tree() && Owned(View(cr3, tabs), pages) && FIRST_USER_INDEX <= addr.pml4
      requires Unmapped(View(cr3, tabs), PageNumber(addr), PageNumber(addr) + num)
      modifies this`mem, mm`held, mm.allocMap
      ensures mm.Valid() && View(cr3, tabs').Tree() && Owned(View(cr3, tabs'), pages')
      ensures OthersKept(old(View(cr3, tabs)), pages, View(cr3, tabs'), pages')
      ensures ok ==> done == Min(num, Room(addr, 4))
      ensures !ok ==> done < num && Exhausted()
      ensures Zeroed(old(View(cr3, tabs)), View(cr3, tabs'), PageNumber(addr), PageNumber(addr) + done)
      ensures Within(old(mm.held), mm.held, mm.rangeBegin, mm.rangeEnd)
      ensures NewTables(old(View(cr3, tabs)), View(cr3, tabs'), PageNumber(addr), PageNumber(addr) + num)
      ensures NewOwnPages(pages, pages', PageNumber(addr), PageNumber(addr) + done)
      ensures forall f :: f in tabs ==> f in tabs' && tabs'[f] == tabs[f]
      ensures ReadOnlyKept(old(View(cr3, tabs)), View(cr3, tabs'))
      ensures Lower(mem, cr3) == old(Lower(mem, cr3))
    {
      hide Lower, Grown, Space.Tree, Slot, Reach, PageNumber, Room, Blank, UserPath, Owned, ReadOnlyKept, OthersKept, Exhausted, Unmapped, Zeroed, Within, NewTables,
        NewOwnPages, BitmapMemoryManager.Valid;
      ghost var s := View(cr3, tabs);
      ghost var news;
      ok, tabs', done, news := SetupPageMaps(addr, num, true, tabs);
      pages' := pages + news;
      ghost var t := View(cr3, tabs');
      Narrower(s, PageNumber(addr), PageNumber(addr) + done, PageNumber(addr) + num);
      GrownOwned(s, t, PageNumber(addr), PageNumber(addr) + done, news, pages);
      GrowZeroed(s, t, PageNumber(addr), PageNumber(addr) + done, news);
      AllTablesKept(s, t, PageNumber(addr), PageNumber(addr) + done, true, news);
      GrownReadOnly(s, t, PageNumber(addr), PageNumber(addr) + done, news);
      OwnPagesHeld(s, pages);
      GrownNewOwnPages(s, t, pages, PageNumber(addr), PageNumber(addr) + done, news);
    }

    /** The page-fault handler. The processor reports whether the page was present, whether the
        access was a write and whether it came from user mode. */
    method HandlePageFault(present: bool, rw: bool, user: bool, addr: Address,
                           ghost tabs: map<nat, Path>, ghost pages: map<nat, Path>)
      returns (r: FaultResult, ghost tabs': map<nat, Path>, ghost pages': map<nat, Path>)
      requires mm.Valid() && View(cr3, tabs).Tree() && Owned(View(cr3, tabs), pages)
      requires present == FrameBehind(mem, cr3, addr).Some?
      requires InApp(addr) && present && rw && user ==> !Slot(mem, cr3, PathOf(addr)).value.writable
      requires !InApp(addr) ==> KernelMapped(View(cr3, tabs), pages) && Value(addr) < dpagingBegin
      modifies this`mem, mm`held, mm.allocMap
      ensures mm.Valid()
      ensures r == NoEnoughFrames ==> Exhausted()
      ensures r == NoEnoughFrames || r == Handled || (mem == old(mem) && mm.held == old(mm.held))
      ensures r == AlreadyPresent <==> present && !(rw && user)
      ensures r == OutOfRange <==> !present && !(dpagingBegin <= Value(addr) < dpagingEnd)
      ensures var free := |FreeFrames(old(mm.held), mm.rangeBegin, mm.rangeEnd)|;
              r == NoEnoughFrames <==>
              if present then rw && user && free == 0
              else dpagingBegin <= Value(addr) < dpagingEnd && free < Missing(old(View(cr3, tabs)), PathOf(addr))
      ensures Within(old(mm.held), mm.held, mm.rangeBegin, mm.rangeEnd)
      ensures InApp(addr) ==>
                && View(cr3, tabs').Tree() && Owned(View(cr3, tabs'), pages')
                && OthersKept(old(View(cr3, tabs)), pages, View(cr3, tabs'), pages')
                && (r == Handled && present ==> exists g :: Copied(old(View(cr3, tabs)), View(cr3, tabs'), PathOf(addr), g))
                && (r == Handled && !present ==> PageMapped(old(View(cr3, tabs)), View(cr3, tabs'), PathOf(addr)))
                && (r != Handled ==> SameContents(old(View(cr3, tabs)), View(cr3, tabs')))
                && ReadOnlyKept(old(View(cr3, tabs)), View(cr3, tabs'))
                && Lower(mem, cr3) == old(Lower(mem, cr3))
      ensures !InApp(addr) ==>
                && tabs' == tabs && pages' == pages
                && if r == Handled then
                     Turned(old(View(cr3, tabs)), View(cr3, tabs), addr, LowestFree(old(mm.held), mm.rangeBegin, mm.rangeEnd))
                   else mem == old(mem) && mm.held == old(mm.held)
    {
      hide KernelMapped, Turned, Lower, LowestFree, Value,
        Slot, Reach, UserPath, Space.Tree, Owned, OthersKept, At, Blank, Exhausted, Copied, Zeroed, PageNumber, Room, PageMapped, SameContents,
        Contents, Unmapped, Within, NewTables, NewOwnPages, ReadOnlyKept, FreeFrames, Missing, BitmapMemoryManager.Valid;
      ghost var s := View(cr3, tabs);
      tabs', pages' := tabs, pages;
      OthersSelf(s, pages);
      ReadOnlySelf(s);
      WithinNone(mm.held, mm.rangeBegin, mm.rangeEnd);
      ghost var c := PathOf(addr);
      if !InApp(addr) {
        InMap(s, pages, addr);
      }
      if present && rw && user {
        var ok;
        ok, pages' := CopyOnePage(addr, tabs, pages);
        CopyNeedsOne(s.held, mm.rangeBegin, mm.rangeEnd);
        if ok && InApp(addr) {
          ghost var g :| Copied(s, View(cr3, tabs), c, g);
          CopiedReadOnly(s, View(cr3, tabs), c, g);
        } else if !ok {
          AllHeld(this);
        }
        r := if ok then Handled else NoEnoughFrames;
        return;
      } else if present {
        return AlreadyPresent, tabs, pages;
      }
      if dpagingBegin <= Value(addr) && Value(addr) < dpagingEnd {
        OnePageUnmapped(s, c);
        var ok;
        ghost var done;
        ok, tabs', pages', done := SetupOwnPages(addr, 1, tabs, pages);
        RoomLeft(addr);
        r := if ok then Handled else NoEnoughFrames;
        ghost var t := View(cr3, tabs');
        ZeroedPage(s, t, c, done);
        if ok {
          MappedThere(s, t, c);
        } else {
          AllHeld(this);
        }
        SameOthers(s, pages, t, pages');
        PageTaken(s, pages, t, pages', c, done, mm.rangeBegin, mm.rangeEnd);
        return;
      }
      return OutOfRange, tabs, pages;
    }
  }

  /** What a copy reads: the frame behind the address, as it was before a fresh frame was blanked. */
  lemma ReadBehind(s: Space, pages: map<nat, Path>, addr: Address, g: nat)
    requires s.Tree() && g !in s.held
    requires if InApp(addr) then Slot(s.mem, s.root, PathOf(addr)).Some? else KernelMapped(s, pages) && Mapped(addr)
    ensures var m1 := s.mem[g := Blank()];
            && FrameBehind(m1, s.root, addr).Some?
            && if InApp(addr) then
                 var f := Slot(s.mem, s.root, PathOf(addr)).value.addr;
                 FrameBehind(m1, s.root, addr).value == f && At(m1, f) == At(s.mem, f)
               else KernelMapped(s.(mem := m1, held := s.held + {g}), pages)
  {
    hide Slot, Reach, UserPath, Space.Tree, Owned, At, Blank, Lower, KernelMapped;
    var m1 := s.mem[g := Blank()];
    AtAllElse(s.mem, g, Blank());
    if InApp(addr) {
      HeldPage(s, PathOf(addr));
      TablesHeld(s);
      NewPageKept(s, m1, g);
    } else {
      KernelFresh(s, pages, g, Blank());
      FrameInMap(s.(mem := m1, held := s.held + {g}), pages, addr);
    }
  }

  lemma InMap(s: Space, pages: map<nat, Path>, addr: Address)
    requires KernelMapped(s, pages) && !InApp(addr)
    ensures FrameBehind(s.mem, s.root, addr).Some? <==> Mapped(addr)
  {
    FrameInKernel(s.mem, s.root, addr);
  }

  lemma FrameInMap(s: Space, pages: map<nat, Path>, addr: Address)
    requires KernelMapped(s, pages) && Mapped(addr)
    ensures FrameBehind(s.mem, s.root, addr) == Some(PageNumber(addr))
  {
    FrameInKernel(s.mem, s.root, addr);
  }

  lemma KernelFresh(s: Space, pages: map<nat, Path>, g: nat, now: Table)
    requires s.Tree() && KernelMapped(s, pages) && g !in s.held
    ensures KernelMapped(s.(mem := s.mem[g := now], held := s.held + {g}), pages)
  {
    hide Slot, Reach, UserPath, Space.Tree, At, OneToOne, KernelTable;
    AtAllElse(s.mem, g, now);
    RootTable(s);
    TablesHeld(s);
    KernelStays(s.mem, s.root, s.mem[g := now], s.root);
  }

  /** The copy in the application's half. */
  lemma PageCopied(s: Space, pages: map<nat, Path>, u: Space, addr: Address, g: nat)
    requires s.Tree() && Owned(s, pages) && InApp(addr) && g !in s.held && g < 0x100_0000_0000
    requires Slot(s.mem, s.root, PathOf(addr)).Some? && !Slot(s.mem, s.root, PathOf(addr)).value.writable
    requires var m2 := s.mem[g := Blank()][g := At(s.mem, Slot(s.mem, s.root, PathOf(addr)).value.addr)];
             u == Space(Walked(m2, s.root, 4, addr, g), s.held + {g}, s.root, s.tabs)
    ensures Copied(s, u, PathOf(addr), g) && u.Tree() && Owned(u, pages[g := PathOf(addr)]) && OthersKept(s, pages, u, pages[g := PathOf(addr)])
    ensures Lower(u.mem, u.root) == Lower(s.mem, s.root)
  {
    hide Slot, Reach, UserPath, Space.Tree, Owned, At, Blank, LeafWritten, Repointed, Walked, Copied;
    var q := PathOf(addr);
    var was := At(s.mem, Slot(s.mem, s.root, q).value.addr);
    var t := Space(s.mem[g := was], s.held + {g}, s.root, s.tabs);
    assert s.mem[g := Blank()][g := was] == t.mem;
    HeldPage(s, q);
    TablesHeld(s);
    RootTable(s);
    AtAllElse(s.mem, g, was);
    AtWritten(s.mem, g, was);
    NewPageKept(s, t.mem, g);
    assert q[..4 - 4] == [];
    WalkedInApp(t, s.root, 4, addr, g);
    CopiedNow(s, t, u, q, g);
    CopyOwned(s, u, q, g, pages);
  }

  /** The copy in the kernel's half. */
  lemma WordHit(s: Space, pages: map<nat, Path>, u: Space, addr: Address, g: nat)
    requires s.Tree() && KernelMapped(s, pages) && Mapped(addr) && g !in s.held && g < 0x100_0000_0000
    requires var m1 := s.mem[g := Blank()];
             && FrameBehind(m1, s.root, addr).Some?
             && u == Space(Walked(m1[g := At(m1, FrameBehind(m1, s.root, addr).value)], s.root, 4, addr, g), s.held + {g}, s.root, s.tabs)
    ensures Turned(s, u, addr, g)
  {
    hide Slot, Reach, UserPath, Space.Tree, At, Blank, FrameBehind, Walked, KernelTable, OneToOne;
    var m1 := s.mem[g := Blank()];
    var now := At(m1, FrameBehind(m1, s.root, addr).value);
    var m2 := s.mem[g := now];
    assert m1[g := now] == m2;
    KernelFresh(s, pages, g, now);
    WalkedInKernel(m2, s.root, addr, g);
    var b := RegionBase(addr);
    AtAllElse(s.mem, g, now);
    AtAllElse(m2, b, At(m2, b)[addr.page := Repoint(At(m2, b)[addr.page], g)]);
    AtWritten(m2, b, At(m2, b)[addr.page := Repoint(At(m2, b)[addr.page], g)]);
  }

  lemma FirstRunIs(held: set<nat>, begin: nat, end: nat, f: nat)
    requires begin <= f && FreeRun(held, end, f, 1) && forall s: nat :: begin <= s < f ==> !FreeRun(held, end, s, 1)
    ensures LowestFree(held, begin, end) == f
  {
    hide LowestFree;
    assert f !in held;
    assert f < end;
    forall g: nat | begin <= g < f
      ensures g in held
    {
      BlockedFrame(held, end, g);
    }
    LowestFreeIs(held, begin, end, f);
  }

  lemma BlockedFrame(held: set<nat>, end: nat, g: nat)
    requires g < end && !FreeRun(held, end, g, 1)
    ensures g in held
  {
    var f: nat :| g <= f < g + 1 && !(f < end && f !in held);
  }

  lemma AllHeld(m: Machine)
    requires m.Exhausted()
    ensures forall f: nat :: m.mm.rangeBegin <= f < m.mm.rangeEnd ==> f in m.mm.held
  {
  }

  /** An absent slot leaves the page of every address that leads through it unmapped. */
  lemma SlotMissing(s: Space, f: nat, a: Address, level: nat)
    requires s.Tree() && 1 <= level <= 4 && FIRST_USER_INDEX <= a.pml4
    requires f in s.tabs && s.tabs[f] == PathOf(a)[..4 - level] && Part(a, level) < 512 && !At(s.mem, f)[Part(a, level)].present
    ensures Unmapped(s, PageNumber(a), PageNumber(a) + 1)
  {
    hide Slot, Reach, PageNumber, Space.Tree, Unmapped;
    PathParts(a, level);
    AbsentSlot(s, f, Part(a, level));
    var c := PathOf(a)[..4 - (level - 1)];
    assert c <= PathOf(a);
    BelowAbsent(s.mem, s.root, c, PathOf(a));
    OnePageUnmapped(s, PathOf(a));
  }

  lemma CopyNeedsOne(held: set<nat>, begin: nat, end: nat)
    ensures (exists f: nat :: begin <= f < end && f !in held) <==> |FreeFrames(held, begin, end)| > 0
  {
    if |FreeFrames(held, begin, end)| > 0 {
      var f :| f in FreeFrames(held, begin, end);
    } else {
      assert FreeFrames(held, begin, end) == {};
      forall f: nat | begin <= f < end
        ensures f in held
      {
        assert f !in FreeFrames(held, begin, end);
      }
    }
  }

  lemma MappedThere(s: Space, t: Space, c: Path)
    requires PageMapped(s, t, c)
    ensures Slot(t.mem, t.root, c).Some? && Slot(t.mem, t.root, c).value.writable
  {
    hide Slot, At, Blank;
  }

  lemma SameOthers(s: Space, pages: map<nat, Path>, t: Space, pages': map<nat, Path>)
    requires OthersKept(s, pages, t, pages')
    ensures Others(t, pages') == Others(s, pages)
  {
    hide At;
  }
}
