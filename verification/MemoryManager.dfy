/** kernel/memory_manager.cpp: first-fit allocation of physical frames over a bitmap. */
module MemoryManager {
  import opened Words

  const FRAME_COUNT: nat := 33554432
  const LINES: nat := 524288
  const BYTES_PER_FRAME: nat := 4096
  const HEAP_FRAMES: nat := 32768

  datatype AllocResult = Allocated(frame: nat) | NoEnoughMemory

  /** The frames start .. start + n - 1 are all below end and all free. */
  ghost predicate FreeRun(held: set<nat>, end: nat, start: nat, n: nat) {
    forall f: nat :: start <= f < start + n ==> f < end && f !in held
  }

  ghost predicate InRun(f: nat, start: nat, n: nat) {
    start <= f < start + n
  }

  ghost function Run(start: nat, n: nat): set<nat> {
    set f: nat | f < start + n && InRun(f, start, n)
  }

  datatype Descriptor = Descriptor(kind: nat, start: nat, pages: nat) {
    /** Boot-services code, boot-services data and conventional memory. */
    predicate Available() {
      kind == 3 || kind == 4 || kind == 7
    }

    function End(): nat {
      start + pages * BYTES_PER_FRAME
    }

    ghost predicate Covers(f: nat) {
      start <= f * BYTES_PER_FRAME < End()
    }
  }

  /** Page-aligned descriptors in ascending order that do not overlap. */
  ghost predicate Sorted(ds: seq<Descriptor>) {
    && (forall i :: 0 <= i < |ds| ==> ds[i].start % BYTES_PER_FRAME == 0)
    && (forall i, j :: 0 <= i < j < |ds| ==> ds[i].End() <= ds[j].start)
  }

  ghost predicate Usable(ds: seq<Descriptor>, f: nat) {
    exists i :: 0 <= i < |ds| && ds[i].Available() && ds[i].Covers(f)
  }

  /** Where the last available descriptor ends. */
  ghost function AvailableEnd(ds: seq<Descriptor>): nat {
    if ds == [] then 0
    else if ds[|ds| - 1].Available() then ds[|ds| - 1].End()
    else AvailableEnd(ds[..|ds| - 1])
  }

  class BitmapMemoryManager {
    const allocMap: array<Word>
    var rangeBegin: nat
    var rangeEnd: nat
    ghost var held: set<nat>

    ghost predicate Valid()
      reads this, allocMap
    {
      && allocMap.Length == LINES
      && rangeEnd <= FRAME_COUNT
      && (forall f :: f in held ==> f < FRAME_COUNT)
      && (forall f: nat :: f < FRAME_COUNT ==> (f in held <==> Test(allocMap[f / BITS_PER_LINE], f % BITS_PER_LINE)))
    }

    constructor ()
      ensures Valid() && fresh(allocMap)
      ensures held == {} && rangeBegin == 0 && rangeEnd == FRAME_COUNT
    {
      allocMap := new Word[LINES](_ => 0);
      rangeBegin := 0;
      rangeEnd := FRAME_COUNT;
      held := {};
      new;
      forall f: nat | f < FRAME_COUNT
        ensures !Test(allocMap[f / BITS_PER_LINE], f % BITS_PER_LINE)
      {
        TestZero(f % BITS_PER_LINE);
      }
    }

    lemma HeldBound(f: nat)
      requires Valid() && f in held
      ensures f < FRAME_COUNT
    {
    }

    method GetBit(frame: nat) returns (taken: bool)
      requires Valid() && frame < FRAME_COUNT
      ensures taken <==> frame in held
    {
      var lineIndex := frame / BITS_PER_LINE;
      var bitIndex := frame % BITS_PER_LINE;
      taken := And(allocMap[lineIndex], Mask(bitIndex)) != 0;
    }

    method SetBit(frame: nat, taken: bool)
      requires Valid() && frame < FRAME_COUNT
      modifies this`held, allocMap
      ensures Valid()
      ensures held == if taken then old(held) + {frame} else old(held) - {frame}
    {
      hide And, Or, AndNot, Mask;
      var lineIndex := frame / BITS_PER_LINE;
      var bitIndex := frame % BITS_PER_LINE;
      ghost var w := allocMap[lineIndex];
      if taken {
        allocMap[lineIndex] := Or(allocMap[lineIndex], Mask(bitIndex));
        held := held + {frame};
      } else {
        allocMap[lineIndex] := AndNot(allocMap[lineIndex], Mask(bitIndex));
        held := held - {frame};
      }
      forall f: nat | f < FRAME_COUNT
        ensures f in held <==> Test(allocMap[f / BITS_PER_LINE], f % BITS_PER_LINE)
      {
        TestRaised(w, bitIndex, f % BITS_PER_LINE);
        TestCleared(w, bitIndex, f % BITS_PER_LINE);
      }
    }

    method MarkAllocated(startFrame: nat, numFrames: nat)
      requires Valid() && (numFrames == 0 || startFrame + numFrames <= FRAME_COUNT)
      modifies this`held, allocMap
      ensures Valid()
      ensures held == old(held) + Run(startFrame, numFrames)
    {
      for i := 0 to numFrames
        invariant Valid()
        invariant held == old(held) + Run(startFrame, i)
      {
        SetBit(startFrame + i, true);
      }
    }

    method Free(startFrame: nat, numFrames: nat)
      requires Valid() && (numFrames == 0 || startFrame + numFrames <= FRAME_COUNT)
      modifies this`held, allocMap
      ensures Valid()
      ensures held == old(held) - Run(startFrame, numFrames)
    {
      for i := 0 to numFrames
        invariant Valid()
        invariant held == old(held) - Run(startFrame, i)
      {
        SetBit(startFrame + i, false);
      }
    }

    method Allocate(numFrames: nat) returns (r: AllocResult)
      requires Valid()
      modifies this`held, allocMap
      ensures Valid()
      ensures r.Allocated? ==>
                && rangeBegin <= r.frame
                && FreeRun(old(held), rangeEnd, r.frame, numFrames)
                && (forall s: nat :: rangeBegin <= s < r.frame ==> !FreeRun(old(held), rangeEnd, s, numFrames))
                && held == old(held) + Run(r.frame, numFrames)
      ensures r.NoEnoughMemory? ==>
                && held == old(held)
                && (forall s: nat :: rangeBegin <= s ==> !FreeRun(old(held), rangeEnd, s, numFrames))
    {
      var start := rangeBegin;
      ghost var h := held;
      while true
        invariant Valid() && rangeBegin <= start && held == h
        invariant forall s: nat :: rangeBegin <= s < start ==> !FreeRun(h, rangeEnd, s, numFrames)
        decreases rangeEnd - start
      {
        var i := 0;
        while i < numFrames
          modifies {}
          invariant i <= numFrames
          invariant forall f: nat :: start <= f < start + i ==> f < rangeEnd && f !in h
        {
          if start + i >= rangeEnd {
            NoRunFrom(h, rangeBegin, rangeEnd, start, start + i, numFrames);
            return NoEnoughMemory;
          }
          var taken := GetBit(start + i);
          if taken {
            break;
          }
          i := i + 1;
        }
        if i == numFrames {
          assert numFrames > 0 ==> var last := start + numFrames - 1; last in h || last !in h;
          assert FreeRun(h, rangeEnd, start, numFrames);
          MarkAllocated(start, numFrames);
          return Allocated(start);
        }
        RunBlocked(h, rangeEnd, start, start + i, numFrames);
        start := start + i + 1;
      }
    }

    method SetMemoryRange(begin: nat, end: nat)
      requires Valid() && end <= FRAME_COUNT
      modifies this`rangeBegin, this`rangeEnd
      ensures Valid() && rangeBegin == begin && rangeEnd == end
    {
      rangeBegin := begin;
      rangeEnd := end;
    }
  }

  ghost predicate UsableFrame(ds: seq<Descriptor>, end: nat, f: nat) {
    f < end && Usable(ds, f)
  }

  ghost predicate UsableRun(ds: seq<Descriptor>, end: nat, start: nat, n: nat) {
    forall f: nat :: start <= f < start + n ==> UsableFrame(ds, end, f)
  }

  /** The heap is the lowest run of usable frames that is long enough, if there is one. */
  ghost predicate FirstHeap(ds: seq<Descriptor>, end: nat, heap: AllocResult) {
    match heap
    case Allocated(frame) =>
      1 <= frame && UsableRun(ds, end, frame, HEAP_FRAMES) && forall s: nat :: 1 <= s < frame ==> !UsableRun(ds, end, s, HEAP_FRAMES)
    case NoEnoughMemory =>
      forall s: nat :: 1 <= s ==> !UsableRun(ds, end, s, HEAP_FRAMES)
  }

  /** InitializeMemoryManager: mark everything the memory map does not offer, then reserve the
      heap. A frame below the end of the range ends up free exactly when an available descriptor
      covers it and the heap did not take it. */
  method InitializeMemoryManager(ds: seq<Descriptor>) returns (mm: BitmapMemoryManager, heap: AllocResult)
    requires forall i :: 0 <= i < |ds| ==> ds[i].End() <= FRAME_COUNT * BYTES_PER_FRAME
    ensures fresh(mm) && fresh(mm.allocMap) && mm.Valid()
    ensures mm.rangeBegin == 1 && mm.rangeEnd == AvailableEnd(ds) / BYTES_PER_FRAME
    ensures Sorted(ds) ==> forall f: nat :: f < mm.rangeEnd ==>
              (f in mm.held <==> !Usable(ds, f) || (heap.Allocated? && InRun(f, heap.frame, HEAP_FRAMES)))
    ensures Sorted(ds) && heap.Allocated? ==>
              && (forall f: nat :: InRun(f, heap.frame, HEAP_FRAMES) ==> 1 <= f < mm.rangeEnd && Usable(ds, f))
    ensures Sorted(ds) ==> FirstHeap(ds, mm.rangeEnd, heap)
  {
    hide FirstHeap, BitmapMemoryManager.Valid, Usable, Settled, AvailableEnd, Words.Test, FreeRun, Run;
    mm := new BitmapMemoryManager();
    SettledNone(ds);
    var availableEnd := 0;
    for k := 0 to |ds|
      invariant mm.Valid() && fresh(mm) && fresh(mm.allocMap)
      invariant availableEnd == AvailableEnd(ds[..k]) <= FRAME_COUNT * BYTES_PER_FRAME
      invariant Sorted(ds) ==> Settled(ds, k, mm.held)
    {
      ghost var before := mm.held;
      AvailableEndStep(ds, k);
      var desc := ds[k];
      if availableEnd < desc.start {
        mm.MarkAllocated(availableEnd / BYTES_PER_FRAME, (desc.start - availableEnd) / BYTES_PER_FRAME);
      }
      if desc.Available() {
        availableEnd := desc.End();
      } else {
        mm.MarkAllocated(desc.start / BYTES_PER_FRAME, desc.pages * BYTES_PER_FRAME / BYTES_PER_FRAME);
      }
      if Sorted(ds) {
        assert mm.held == before + Marked(ds, k);
        SettleStep(ds, k, before);
      }
    }
    assert ds[..|ds|] == ds;
    mm.SetMemoryRange(1, availableEnd / BYTES_PER_FRAME);
    ghost var settled := mm.held;
    heap := mm.Allocate(HEAP_FRAMES);
    if Sorted(ds) {
      SettledAll(ds, settled);
      HeapTaken(ds, settled, mm.held, mm.rangeBegin, mm.rangeEnd, heap);
      HeapFirst(ds, settled, mm.rangeEnd, heap);
    }
  }

  lemma HeapFirst(ds: seq<Descriptor>, before: set<nat>, end: nat, heap: AllocResult)
    requires forall f: nat :: f < end ==> (f in before <==> !Usable(ds, f))
    requires heap.Allocated? ==>
               && 1 <= heap.frame && FreeRun(before, end, heap.frame, HEAP_FRAMES)
               && forall s: nat :: 1 <= s < heap.frame ==> !FreeRun(before, end, s, HEAP_FRAMES)
    requires heap.NoEnoughMemory? ==> forall s: nat :: 1 <= s ==> !FreeRun(before, end, s, HEAP_FRAMES)
    ensures FirstHeap(ds, end, heap)
  {
    hide Usable, FreeRun, UsableRun;
    forall s: nat
      ensures FreeRun(before, end, s, HEAP_FRAMES) <==> UsableRun(ds, end, s, HEAP_FRAMES)
    {
      if FreeRun(before, end, s, HEAP_FRAMES) {
        FreeIsUsable(ds, before, end, s, HEAP_FRAMES);
      } else {
        TakenIsUnusable(ds, before, end, s, HEAP_FRAMES);
      }
    }
  }

  lemma FreeIsUsable(ds: seq<Descriptor>, before: set<nat>, end: nat, s: nat, n: nat)
    requires (forall f: nat :: f < end ==> (f in before <==> !Usable(ds, f))) && FreeRun(before, end, s, n)
    ensures UsableRun(ds, end, s, n)
  {
    hide Usable;
    forall f: nat | s <= f < s + n
      ensures UsableFrame(ds, end, f)
    {
      assert f !in before;
    }
  }

  lemma TakenIsUnusable(ds: seq<Descriptor>, before: set<nat>, end: nat, s: nat, n: nat)
    requires (forall f: nat :: f < end ==> (f in before <==> !Usable(ds, f))) && !FreeRun(before, end, s, n)
    ensures !UsableRun(ds, end, s, n)
  {
    hide Usable;
    var f: nat :| s <= f < s + n && !(f < end && f !in before);
    assert !UsableFrame(ds, end, f);
  }

  lemma SettledNone(ds: seq<Descriptor>)
    ensures AvailableEnd(ds[..0]) == 0 && Settled(ds, 0, {})
  {
  }

  lemma SettledAll(ds: seq<Descriptor>, held: set<nat>)
    requires Sorted(ds) && Settled(ds, |ds|, held)
    ensures forall f: nat :: f < AvailableEnd(ds) / BYTES_PER_FRAME ==> (f in held <==> !Usable(ds, f))
  {
    BelowRangeEnd(ds);
    assert ds[..|ds|] == ds;
  }

  lemma HeapTaken(ds: seq<Descriptor>, before: set<nat>, after: set<nat>, begin: nat, end: nat, heap: AllocResult)
    requires begin == 1
    requires forall f: nat :: f < end ==> (f in before <==> !Usable(ds, f))
    requires heap.Allocated? ==> begin <= heap.frame && FreeRun(before, end, heap.frame, HEAP_FRAMES)
                                 && after == before + Run(heap.frame, HEAP_FRAMES)
    requires heap.NoEnoughMemory? ==> after == before
    ensures forall f: nat :: f < end ==>
              (f in after <==> !Usable(ds, f) || (heap.Allocated? && InRun(f, heap.frame, HEAP_FRAMES)))
    ensures heap.Allocated? ==>
              forall f: nat :: InRun(f, heap.frame, HEAP_FRAMES) ==> 1 <= f < end && Usable(ds, f)
  {
    hide Usable;
    if heap.Allocated? {
      forall f: nat | InRun(f, heap.frame, HEAP_FRAMES)
        ensures 1 <= f < end && Usable(ds, f)
      {
        assert f !in before;
      }
    }
  }

  lemma BelowRangeEnd(ds: seq<Descriptor>)
    requires Sorted(ds)
    ensures forall f: nat :: f < AvailableEnd(ds) / BYTES_PER_FRAME ==>
              f * BYTES_PER_FRAME < if ds == [] then 0 else ds[|ds| - 1].End()
  {
    if ds != [] {
      assert ds[..|ds|] == ds;
      AvailableEndStep(ds, |ds| - 1);
      AvailableEndBound(ds, |ds| - 1);
    }
  }

  /** A held frame rules out every run that would contain it. */
  lemma RunBlocked(held: set<nat>, end: nat, start: nat, blocker: nat, n: nat)
    requires start <= blocker < start + n && blocker in held
    ensures forall s: nat :: start <= s <= blocker ==> !FreeRun(held, end, s, n)
  {
  }

  lemma NoRunFrom(held: set<nat>, begin: nat, end: nat, start: nat, stop: nat, n: nat)
    requires start <= stop < start + n && end <= stop
    requires forall s: nat :: begin <= s < start ==> !FreeRun(held, end, s, n)
    ensures forall s: nat :: begin <= s ==> !FreeRun(held, end, s, n)
  {
    forall s: nat | start <= s
      ensures !FreeRun(held, end, s, n)
    {
      var last := s + n - 1;
      assert s <= last < s + n;
      assert last in held || last !in held;
    }
  }

  lemma AvailableEndStep(ds: seq<Descriptor>, k: nat)
    requires k < |ds|
    ensures AvailableEnd(ds[..k + 1]) == if ds[k].Available() then ds[k].End() else AvailableEnd(ds[..k])
  {
    assert ds[..k + 1][..k] == ds[..k];
  }

  lemma {:induction false} AvailableEndBound(ds: seq<Descriptor>, k: nat)
    requires Sorted(ds) && k <= |ds|
    ensures AvailableEnd(ds[..k]) % BYTES_PER_FRAME == 0
    ensures forall j :: k <= j < |ds| ==> AvailableEnd(ds[..k]) <= ds[j].start
  {
    if k > 0 {
      AvailableEndStep(ds, k - 1);
      AvailableEndBound(ds, k - 1);
    }
  }

  /** Every frame below the k-th descriptor is held exactly when no available descriptor covers it. */
  ghost predicate Settled(ds: seq<Descriptor>, k: nat, held: set<nat>)
    requires k <= |ds|
  {
    forall f: nat ::
      f in held <==> f * BYTES_PER_FRAME < (if k == 0 then 0 else ds[k - 1].End()) && !Usable(ds[..k], f)
  }

  lemma {:induction false} UsableBelowEnd(ds: seq<Descriptor>, k: nat, f: nat)
    requires Sorted(ds) && k <= |ds| && Usable(ds[..k], f)
    ensures f * BYTES_PER_FRAME < AvailableEnd(ds[..k])
  {
    hide AvailableEnd, Usable, Sorted, Descriptor.Available;
    if k == 0 {
      UsableNone(ds, f);
    } else {
      AvailableEndStep(ds, k - 1);
      AvailableEndBound(ds, k - 1);
      UsableStep(ds, k - 1, f);
      if Usable(ds[..k - 1], f) {
        UsableBelowEnd(ds, k - 1, f);
      }
    }
  }

  lemma UsableNone(ds: seq<Descriptor>, f: nat)
    ensures !Usable(ds[..0], f)
  {
  }

  lemma UsableStep(ds: seq<Descriptor>, k: nat, f: nat)
    requires k < |ds|
    ensures Usable(ds[..k + 1], f) <==> Usable(ds[..k], f) || (ds[k].Available() && ds[k].Covers(f))
  {
    if Usable(ds[..k], f) {
      var i :| 0 <= i < k && ds[i].Available() && ds[i].Covers(f);
      assert ds[..k + 1][i] == ds[i];
    }
    if ds[k].Available() && ds[k].Covers(f) {
      assert ds[..k + 1][k] == ds[k];
    }
    if Usable(ds[..k + 1], f) {
      var i :| 0 <= i < k + 1 && ds[..k + 1][i].Available() && ds[..k + 1][i].Covers(f);
      if i < k {
        assert ds[..k][i] == ds[i];
      }
    }
  }

  /** What one turn of the descriptor loop marks: the gap before the k-th descriptor, and the
      descriptor itself when it is not available. */
  ghost function Marked(ds: seq<Descriptor>, k: nat): set<nat>
    requires k < |ds|
  {
    var a := AvailableEnd(ds[..k]);
    (if a < ds[k].start then Run(a / BYTES_PER_FRAME, (ds[k].start - a) / BYTES_PER_FRAME) else {})
    + (if ds[k].Available() then {} else Run(ds[k].start / BYTES_PER_FRAME, ds[k].pages))
  }

  lemma SettleStep(ds: seq<Descriptor>, k: nat, held: set<nat>)
    requires Sorted(ds) && k < |ds| && Settled(ds, k, held)
    ensures Settled(ds, k + 1, held + Marked(ds, k))
  {
    AvailableEndBound(ds, k);
    var a := AvailableEnd(ds[..k]);
    var prev := if k == 0 then 0 else ds[k - 1].End();
    assert a <= prev <= ds[k].start by {
      if k > 0 {
        AvailableEndStep(ds, k - 1);
        AvailableEndBound(ds, k - 1);
      }
    }
    forall f: nat
      ensures f in held + Marked(ds, k) <==> f * BYTES_PER_FRAME < ds[k].End() && !Usable(ds[..k + 1], f)
    {
      UsableStep(ds, k, f);
      InMarked(ds, k, f);
      if Usable(ds[..k], f) {
        UsableBelowEnd(ds, k, f);
      }
    }
  }

  lemma InMarked(ds: seq<Descriptor>, k: nat, f: nat)
    requires Sorted(ds) && k < |ds|
    ensures f in Marked(ds, k) <==>
              || AvailableEnd(ds[..k]) <= f * BYTES_PER_FRAME < ds[k].start
              || (!ds[k].Available() && ds[k].Covers(f))
  {
    AvailableEndBound(ds, k);
  }
}
