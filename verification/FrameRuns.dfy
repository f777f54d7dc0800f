/** kernel/memory_manager.cpp over whole runs: initialisation, then allocations and releases in any
    order. */
module FrameRuns {
  import opened MemoryManager

  /** A block of frames that was handed out and not given back. */
  datatype Block = Block(start: nat, frames: nat)

  /** Take(n) asks for n frames; Give(k) gives the k-th block that is out back, if there is one. */
  datatype Request = Take(frames: nat) | Give(k: nat)

  ghost predicate Out(live: seq<Block>, f: nat) {
    exists i :: 0 <= i < |live| && InRun(f, live[i].start, live[i].frames)
  }

  /** No frame is out twice. */
  ghost predicate Apart(live: seq<Block>) {
    forall i, j, f: nat :: 0 <= i < j < |live| && InRun(f, live[i].start, live[i].frames) ==>
      !InRun(f, live[j].start, live[j].frames)
  }

  ghost predicate InRange(live: seq<Block>, begin: nat, end: nat) {
    forall i :: 0 <= i < |live| ==> begin <= live[i].start && (live[i].frames == 0 || live[i].start + live[i].frames <= end)
  }

  /** The frames taken are those that were from the start and those that are out; the two are
      separate. */
  ghost predicate Accounts(held: set<nat>, base: set<nat>, live: seq<Block>) {
    && (forall f: nat :: f in held <==> f in base || Out(live, f))
    && (forall f: nat :: f in base ==> !Out(live, f))
  }

  lemma OutMore(live: seq<Block>, b: Block, f: nat)
    ensures Out(live + [b], f) <==> Out(live, f) || InRun(f, b.start, b.frames)
  {
    if Out(live, f) {
      var i :| 0 <= i < |live| && InRun(f, live[i].start, live[i].frames);
      assert (live + [b])[i] == live[i];
    }
    if InRun(f, b.start, b.frames) {
      assert (live + [b])[|live|] == b;
    }
  }

  lemma OutLess(live: seq<Block>, k: nat, f: nat)
    requires k < |live| && Apart(live)
    ensures Out(live[..k] + live[k + 1..], f) <==> Out(live, f) && !InRun(f, live[k].start, live[k].frames)
  {
    var rest := live[..k] + live[k + 1..];
    if Out(live, f) {
      var i :| 0 <= i < |live| && InRun(f, live[i].start, live[i].frames);
      if i < k {
        assert rest[i] == live[i];
      } else if i > k {
        assert rest[i - 1] == live[i];
      }
    }
    if Out(rest, f) {
      var i :| 0 <= i < |rest| && InRun(f, rest[i].start, rest[i].frames);
      assert rest[i] == live[if i < k then i else i + 1];
    }
  }

  lemma TakenAccounts(held: set<nat>, base: set<nat>, live: seq<Block>, b: Block, begin: nat, end: nat)
    requires Accounts(held, base, live) && Apart(live) && InRange(live, begin, end) && begin <= b.start
    requires FreeRun(held, end, b.start, b.frames)
    ensures Accounts(held + Run(b.start, b.frames), base, live + [b]) && Apart(live + [b]) && InRange(live + [b], begin, end)
  {
    hide Out;
    forall f: nat
      ensures Out(live + [b], f) <==> Out(live, f) || InRun(f, b.start, b.frames)
    {
      OutMore(live, b, f);
    }
    forall i, f: nat | 0 <= i < |live| && InRun(f, live[i].start, live[i].frames)
      ensures !InRun(f, b.start, b.frames)
    {
      OutOne(live, i, f);
    }
    if b.frames > 0 {
      var last := b.start + b.frames - 1;
      assert last in held || last !in held;
    }
  }

  lemma OutOne(live: seq<Block>, i: nat, f: nat)
    requires i < |live| && InRun(f, live[i].start, live[i].frames)
    ensures Out(live, f)
  {
  }

  lemma GivenAccounts(held: set<nat>, base: set<nat>, live: seq<Block>, k: nat, begin: nat, end: nat)
    requires Accounts(held, base, live) && Apart(live) && InRange(live, begin, end) && k < |live|
    ensures var rest := live[..k] + live[k + 1..];
            && Accounts(held - Run(live[k].start, live[k].frames), base, rest) && Apart(rest) && InRange(rest, begin, end)
  {
    hide Out;
    var rest := live[..k] + live[k + 1..];
    forall f: nat
      ensures Out(rest, f) <==> Out(live, f) && !InRun(f, live[k].start, live[k].frames)
    {
      OutLess(live, k, f);
    }
    forall f: nat | InRun(f, live[k].start, live[k].frames)
      ensures Out(live, f)
    {
      OutOne(live, k, f);
    }
    assert forall i :: 0 <= i < |rest| ==> rest[i] == live[if i < k then i else i + 1];
  }

  /** The frames below the end of the range that are taken before the first request: those the memory
      map does not offer, and the heap's. */
  ghost predicate Reserved(ds: seq<Descriptor>, heap: AllocResult, f: nat) {
    !Usable(ds, f) || (heap.Allocated? && InRun(f, heap.frame, HEAP_FRAMES))
  }

  /** What the map and the blocks that are out alone make of a frame, and of a run: it is there to be
      had. */
  ghost predicate OpenFrame(ds: seq<Descriptor>, heap: AllocResult, end: nat, live: seq<Block>, f: nat) {
    f < end && !Reserved(ds, heap, f) && !Out(live, f)
  }

  ghost predicate Open(ds: seq<Descriptor>, heap: AllocResult, end: nat, live: seq<Block>, start: nat, n: nat) {
    forall f: nat :: start <= f < start + n ==> OpenFrame(ds, heap, end, live, f)
  }

  /** How one request changes the blocks that are out: taking adds the lowest open run, and nothing if
      there is none; giving back takes away the block that is named. */
  ghost predicate Answered(ds: seq<Descriptor>, heap: AllocResult, end: nat, request: Request, before: seq<Block>, after: seq<Block>) {
    match request
    case Take(n) =>
      || (after == before && forall s: nat :: 1 <= s ==> !Open(ds, heap, end, before, s, n))
      || (exists b: Block ::
            && after == before + [b] && b.frames == n && 1 <= b.start
            && Open(ds, heap, end, before, b.start, n)
            && forall s: nat :: 1 <= s < b.start ==> !Open(ds, heap, end, before, s, n))
    case Give(k) =>
      after == if k < |before| then before[..k] + before[k + 1..] else before
  }

  /** The map of frames shows a run as free exactly if it is open. */
  ghost predicate Shown(ds: seq<Descriptor>, heap: AllocResult, end: nat, base: set<nat>) {
    forall f: nat :: f < end ==> (f in base <==> Reserved(ds, heap, f))
  }

  lemma FreeToOpen(ds: seq<Descriptor>, heap: AllocResult, end: nat, held: set<nat>, base: set<nat>, live: seq<Block>, s: nat, n: nat)
    requires Accounts(held, base, live) && Shown(ds, heap, end, base) && FreeRun(held, end, s, n)
    ensures Open(ds, heap, end, live, s, n)
  {
    hide Reserved, Out;
    forall f: nat | s <= f < s + n
      ensures OpenFrame(ds, heap, end, live, f)
    {
      assert f !in held;
    }
  }

  lemma BlockedToShut(ds: seq<Descriptor>, heap: AllocResult, end: nat, held: set<nat>, base: set<nat>, live: seq<Block>, s: nat, n: nat)
    requires Accounts(held, base, live) && Shown(ds, heap, end, base) && !FreeRun(held, end, s, n)
    ensures !Open(ds, heap, end, live, s, n)
  {
    hide Reserved, Out;
    var f: nat :| s <= f < s + n && !(f < end && f !in held);
    assert !OpenFrame(ds, heap, end, live, f);
  }

  lemma FreeIsOpen(ds: seq<Descriptor>, heap: AllocResult, end: nat, held: set<nat>, base: set<nat>, live: seq<Block>, s: nat, n: nat)
    requires Accounts(held, base, live) && Shown(ds, heap, end, base)
    ensures FreeRun(held, end, s, n) <==> Open(ds, heap, end, live, s, n)
  {
    hide Reserved, Out, Open, OpenFrame, FreeRun;
    if FreeRun(held, end, s, n) {
      FreeToOpen(ds, heap, end, held, base, live, s, n);
    } else {
      BlockedToShut(ds, heap, end, held, base, live, s, n);
    }
  }

  lemma TakenAnswers(ds: seq<Descriptor>, heap: AllocResult, end: nat, held: set<nat>, base: set<nat>, live: seq<Block>, start: nat, n: nat)
    requires Accounts(held, base, live) && Shown(ds, heap, end, base)
    requires 1 <= start && FreeRun(held, end, start, n) && forall s: nat :: 1 <= s < start ==> !FreeRun(held, end, s, n)
    ensures Answered(ds, heap, end, Take(n), live, live + [Block(start, n)])
  {
    hide Accounts, Shown, FreeRun, Open;
    FreeIsOpen(ds, heap, end, held, base, live, start, n);
    forall s: nat | 1 <= s < start
      ensures !Open(ds, heap, end, live, s, n)
    {
      FreeIsOpen(ds, heap, end, held, base, live, s, n);
    }
    assert Block(start, n).frames == n;
  }

  lemma NoneAnswers(ds: seq<Descriptor>, heap: AllocResult, end: nat, held: set<nat>, base: set<nat>, live: seq<Block>, n: nat)
    requires Accounts(held, base, live) && Shown(ds, heap, end, base)
    requires forall s: nat :: 1 <= s ==> !FreeRun(held, end, s, n)
    ensures Answered(ds, heap, end, Take(n), live, live)
  {
    hide Accounts, Shown, FreeRun, Open;
    forall s: nat | 1 <= s
      ensures !Open(ds, heap, end, live, s, n)
    {
      FreeIsOpen(ds, heap, end, held, base, live, s, n);
    }
  }

  /** Whole runs: after initialisation from a sorted memory map, any series of requests is answered one
      by one as the blocks that are out alone say, the lowest open run to whoever takes; the heap itself is
      the lowest usable run that is long enough. In the end the
      frames below the end of the range that are taken are exactly the reserved ones and those of the
      blocks that are out; and no frame is out twice or reserved. */
  method ServeAll(ds: seq<Descriptor>, requests: seq<Request>)
    returns (mm: BitmapMemoryManager, heap: AllocResult, live: seq<Block>, ghost lives: seq<seq<Block>>)
    requires Sorted(ds) && forall i :: 0 <= i < |ds| ==> ds[i].End() <= FRAME_COUNT * BYTES_PER_FRAME
    ensures mm.Valid() && Apart(live) && InRange(live, 1, mm.rangeEnd) && mm.rangeEnd == AvailableEnd(ds) / BYTES_PER_FRAME
    ensures FirstHeap(ds, mm.rangeEnd, heap)
    ensures |lives| == |requests| + 1 && lives[0] == [] && lives[|requests|] == live
    ensures forall n :: 0 <= n < |requests| ==> Answered(ds, heap, mm.rangeEnd, requests[n], lives[n], lives[n + 1])
    ensures forall f: nat :: f < mm.rangeEnd ==> (f in mm.held <==> Reserved(ds, heap, f) || Out(live, f))
    ensures forall f: nat :: f < mm.rangeEnd && Out(live, f) ==> !Reserved(ds, heap, f)
  {
    hide FirstHeap, Usable, AvailableEnd, Accounts, Apart, Out, InRange, Run, FreeRun, Answered;
    mm, heap := InitializeMemoryManager(ds);
    ghost var base := mm.held;
    assert Shown(ds, heap, mm.rangeEnd, base);
    live, lives := [], [[]];
    NothingOut(base);
    for n := 0 to |requests|
      invariant mm.Valid() && fresh(mm) && fresh(mm.allocMap) && FirstHeap(ds, mm.rangeEnd, heap)
      invariant mm.rangeBegin == 1 && mm.rangeEnd == AvailableEnd(ds) / BYTES_PER_FRAME
      invariant Accounts(mm.held, base, live) && Apart(live) && InRange(live, 1, mm.rangeEnd)
      invariant |lives| == n + 1 && lives[0] == [] && lives[n] == live
      invariant forall m :: 0 <= m < n ==> Answered(ds, heap, mm.rangeEnd, requests[m], lives[m], lives[m + 1])
    {
      ghost var held, before := mm.held, live;
      match requests[n] {
        case Take(frames) =>
          var r := mm.Allocate(frames);
          if r.Allocated? {
            TakenAccounts(held, base, live, Block(r.frame, frames), 1, mm.rangeEnd);
            TakenAnswers(ds, heap, mm.rangeEnd, held, base, live, r.frame, frames);
            live := live + [Block(r.frame, frames)];
          } else {
            NoneAnswers(ds, heap, mm.rangeEnd, held, base, live, frames);
          }
        case Give(k) =>
          GivenAnswers(ds, heap, mm.rangeEnd, live, k);
          if k < |live| {
            BlockInRange(live, k, 1, mm.rangeEnd);
            GivenAccounts(held, base, live, k, 1, mm.rangeEnd);
            mm.Free(live[k].start, live[k].frames);
            live := live[..k] + live[k + 1..];
          }
      }
      assert Answered(ds, heap, mm.rangeEnd, requests[n], before, live);
      lives := lives + [live];
    }
    AccountsAre(mm.held, base, live);
  }

  lemma GivenAnswers(ds: seq<Descriptor>, heap: AllocResult, end: nat, live: seq<Block>, k: nat)
    ensures Answered(ds, heap, end, Give(k), live, if k < |live| then live[..k] + live[k + 1..] else live)
  {
  }

  lemma NothingOut(base: set<nat>)
    ensures Accounts(base, base, []) && Apart([]) && forall begin, end: nat :: InRange([], begin, end)
  {
  }

  lemma BlockInRange(live: seq<Block>, k: nat, begin: nat, end: nat)
    requires InRange(live, begin, end) && k < |live|
    ensures live[k].frames == 0 || live[k].start + live[k].frames <= end
  {
  }

  lemma AccountsAre(held: set<nat>, base: set<nat>, live: seq<Block>)
    requires Accounts(held, base, live)
    ensures forall f: nat :: f in held <==> f in base || Out(live, f)
    ensures forall f: nat :: Out(live, f) ==> f !in base
  {
  }
}
