/** The pipe between two applications: the one-slot descriptor of servers/am/filedescriptor.cpp and
    the write() and read() loops of libs/kinos/common/newlib_support.c on its two sides. */
module Pipe {
  import opened FatNames

  /** The bytes one message carries. */
  const SLOT: nat := 16

  /** What a client is told: its chunk was taken, bytes it asked for ([] ends the read), try again, or
      the pipe is closed. */
  datatype Reply = Received | Data(bytes: Bytes) | Retry | Closed

  /** The writer between chunks, or waiting for the reply to one. */
  datatype Writer = Ready | Waiting(chunk: Bytes)

  /** The reader between calls, or in a call for count bytes of which it has got some. */
  datatype Reader = Resting | Reading(count: nat, got: Bytes)

  /** slot and closed are the descriptor; toPipe and asked are requests under way to it, toWriter and
      toReader replies under way from it. The rest is history: the bytes of all chunks the writer sent
      for the first time, those the slot took, those that went out to the reader and those it copied;
      and the number of nonempty chunks taken and acknowledged. */
  datatype World = World(
    slot: Bytes, closed: bool,
    writer: Writer, toPipe: seq<Bytes>, toWriter: seq<Reply>,
    reader: Reader, asked: seq<nat>, toReader: seq<Reply>,
    written: Bytes, accepted: Bytes, delivered: Bytes, received: Bytes, taken: nat, acked: nat)

  datatype Step = SendChunk(chunk: Bytes) | WriterHears | PipeWrite | AskRead(count: nat) | ReaderHears | PipeRead | Close

  /** What the descriptor makes of a chunk: its new slot, and a reply if there is one now. */
  function Offered(slot: Bytes, closed: bool, chunk: Bytes): (Bytes, seq<Reply>) {
    if closed then (slot, [Closed])
    else if slot != [] then (slot, [Retry])
    else if chunk == [] then (slot, [Received])
    else (chunk, [])
  }

  /** What it makes of a read: its new slot, the replies to the reader and those to the writer. */
  function Drawn(slot: Bytes, closed: bool, count: nat): (Bytes, seq<Reply>, seq<Reply>) {
    if closed then (slot, [Data([])], [])
    else if slot == [] then (slot, [Retry], [])
    else if |slot| <= count then ([], [Data(slot), Data([])], [Received])
    else (slot[count..], [Data(slot[..count]), Data([])], [])
  }

  function Next(w: World, step: Step): World {
    match step
    case SendChunk(chunk) =>
      if w.writer == Ready && |chunk| <= SLOT then
        w.(writer := Waiting(chunk), toPipe := w.toPipe + [chunk], written := w.written + chunk)
      else w
    case WriterHears =>
      if w.writer == Ready || w.toWriter == [] then w
      else
        var r := w.(toWriter := w.toWriter[1..]);
        if w.toWriter[0] == Retry then r.(toPipe := r.toPipe + [w.writer.chunk]) else r.(writer := Ready)
    case PipeWrite =>
      if w.toPipe == [] then w
      else
        var (slot, replies) := Offered(w.slot, w.closed, w.toPipe[0]);
        var took := slot != w.slot;
        w.(slot := slot, toPipe := w.toPipe[1..], toWriter := w.toWriter + replies,
           accepted := if took then w.accepted + w.toPipe[0] else w.accepted, taken := if took then w.taken + 1 else w.taken)
    case AskRead(count) =>
      if w.reader == Resting then w.(reader := Reading(count, []), asked := w.asked + [count]) else w
    case ReaderHears =>
      if w.reader == Resting || w.toReader == [] then w
      else
        var r := w.(toReader := w.toReader[1..]);
        (match w.toReader[0]
         case Retry => r.(asked := r.asked + [w.reader.count])
         case Data(bytes) =>
           if bytes == [] then r.(reader := Resting)
           else r.(reader := Reading(w.reader.count, w.reader.got + bytes), received := r.received + bytes)
         case _ => r.(reader := Resting))
    case PipeRead =>
      if w.asked == [] then w
      else
        var (slot, toReader, toWriter) := Drawn(w.slot, w.closed, w.asked[0]);
        w.(slot := slot, asked := w.asked[1..], toReader := w.toReader + toReader, toWriter := w.toWriter + toWriter,
           delivered := w.delivered + Carried(toReader), acked := if toWriter == [] then w.acked else w.acked + 1)
    case Close => w.(closed := true, toWriter := w.toWriter + [Closed])
  }

  /** The bytes in a row of replies. */
  function Carried(q: seq<Reply>): Bytes {
    if q == [] then [] else Carried(q[..|q| - 1]) + if q[|q| - 1].Data? then q[|q| - 1].bytes else []
  }

  lemma {:induction false} CarriedConcat(a: seq<Reply>, b: seq<Reply>)
    ensures Carried(a + b) == Carried(a) + Carried(b)
  {
    if b == [] {
      assert a + b == a;
    } else {
      var front := b[..|b| - 1];
      assert (a + b)[..|a + b| - 1] == a + front;
      CarriedConcat(a, front);
    }
  }

  lemma CarriedRest(q: seq<Reply>)
    requires q != []
    ensures Carried(q) == (if q[0].Data? then q[0].bytes else []) + Carried(q[1..])
  {
    CarriedConcat([q[0]], q[1..]);
    assert q == [q[0]] + q[1..];
    assert [q[0]][..0] == [];
  }

  lemma CarriedOne(r: Reply)
    ensures Carried([r]) == if r.Data? then r.bytes else []
  {
    assert [r][..0] == [];
  }

  /** Where the one chunk under way is, as long as nobody closed the pipe: in a request, in the slot, or
      settled in the reply that acknowledges it. */
  ghost predicate WriterFits(w: World) {
    match w.writer
    case Ready => w.toPipe == [] && w.toWriter == [] && w.slot == [] && w.written == w.accepted
    case Waiting(chunk) =>
      || (w.toPipe == [chunk] && w.toWriter == [] && w.slot == [] && w.written == w.accepted + chunk)
      || (w.toPipe == [] && w.toWriter == [] && w.slot != [] && w.written == w.accepted)
      || (w.toPipe == [] && w.toWriter == [Received] && w.slot == [] && w.written == w.accepted)
  }

  /** Bytes taken are bytes sent out and bytes in the slot; bytes sent out are bytes copied and bytes
      under way; and chunks are acknowledged when they are out of the slot. */
  ghost predicate Inv(w: World) {
    && |w.slot| <= SLOT && (forall i :: 0 <= i < |w.toPipe| ==> |w.toPipe[i]| <= SLOT)
    && (w.writer.Waiting? ==> |w.writer.chunk| <= SLOT)
    && w.accepted == w.delivered + w.slot
    && w.delivered == w.received + Carried(w.toReader)
    && w.taken == w.acked + (if w.slot == [] then 0 else 1)
    && w.accepted <= w.written
    && (!w.closed ==> WriterFits(w))
  }

  lemma SendKeeps(w: World, chunk: Bytes)
    requires Inv(w)
    ensures Inv(Next(w, SendChunk(chunk)))
  {
  }

  lemma WriterHearsKeeps(w: World)
    requires Inv(w)
    ensures Inv(Next(w, WriterHears))
  {
  }

  lemma PipeWriteKeeps(w: World)
    requires Inv(w)
    ensures Inv(Next(w, PipeWrite))
  {
    if w.toPipe != [] && !w.closed && w.slot == [] {
      assert w.accepted + w.toPipe[0] == w.delivered + w.toPipe[0];
    }
  }

  lemma PipeReadKeeps(w: World)
    requires Inv(w)
    ensures Inv(Next(w, PipeRead))
  {
    hide Carried, Drawn, WriterFits;
    if w.asked != [] {
      var count := w.asked[0];
      var (slot, toReader, toWriter) := Drawn(w.slot, w.closed, count);
      CarriedConcat(w.toReader, toReader);
      DrawnCarries(w.slot, w.closed, count);
      Regroup(w.received, Carried(w.toReader), Carried(toReader));
      Regroup(w.delivered, Carried(toReader), slot);
      DrawnAcks(w.slot, w.closed, count);
      if !w.closed {
        DrawnWriter(w);
      }
    }
  }

  lemma Regroup(a: Bytes, b: Bytes, c: Bytes)
    ensures a + (b + c) == a + b + c
  {
  }

  lemma DrawnAcks(slot: Bytes, closed: bool, count: nat)
    ensures var (slot', toReader, toWriter) := Drawn(slot, closed, count);
            && |slot'| <= |slot|
            && ((toWriter == [] && (slot' == [] <==> slot == [])) || (toWriter == [Received] && slot != [] && slot' == []))
  {
  }

  lemma DrawnWriter(w: World)
    requires WriterFits(w) && !w.closed && w.asked != []
    ensures WriterFits(Next(w, PipeRead))
  {
    hide Carried;
    var count := w.asked[0];
    assert w.toWriter == [] ==> w.toWriter + [Received] == [Received];
  }

  /** A read sends out what it takes from the slot. */
  lemma DrawnCarries(slot: Bytes, closed: bool, count: nat)
    ensures Carried(Drawn(slot, closed, count).1) + Drawn(slot, closed, count).0 == slot
  {
    hide Carried;
    CarriedOne(Retry);
    CarriedOne(Data([]));
    if !closed && slot != [] {
      var b := if |slot| <= count then slot else slot[..count];
      CarriedOne(Data(b));
      CarriedConcat([Data(b)], [Data([])]);
      assert [Data(b)] + [Data([])] == [Data(b), Data([])];
    }
  }

  lemma ReaderHearsKeeps(w: World)
    requires Inv(w)
    ensures Inv(Next(w, ReaderHears))
  {
    hide Carried, WriterFits;
    if w.reader.Reading? && w.toReader != [] {
      CarriedRest(w.toReader);
      var rest := Carried(w.toReader[1..]);
      SameWriter(w, Next(w, ReaderHears));
      if w.toReader[0].Data? {
        Regroup(w.received, w.toReader[0].bytes, rest);
        Empty(w.received, w.toReader[0].bytes, rest);
      } else {
        Empty(w.received, [], rest);
      }
    }
  }

  lemma SameWriter(w: World, r: World)
    requires r == w.(reader := r.reader, asked := r.asked, toReader := r.toReader, received := r.received)
    ensures WriterFits(r) == WriterFits(w)
  {
  }

  lemma Empty(a: Bytes, b: Bytes, c: Bytes)
    ensures b == [] ==> a + b == a && b + c == c
  {
  }

  lemma NextKeeps(w: World, step: Step)
    requires Inv(w)
    ensures Inv(Next(w, step))
  {
    hide Inv, Next;
    match step
    case SendChunk(chunk) => SendKeeps(w, chunk);
    case WriterHears => WriterHearsKeeps(w);
    case PipeWrite => PipeWriteKeeps(w);
    case AskRead(count) => AskKeeps(w, count);
    case ReaderHears => ReaderHearsKeeps(w);
    case PipeRead => PipeReadKeeps(w);
    case Close => CloseKeeps(w);
  }

  lemma AskKeeps(w: World, count: nat)
    requires Inv(w)
    ensures Inv(Next(w, AskRead(count)))
  {
  }

  lemma CloseKeeps(w: World)
    requires Inv(w)
    ensures Inv(Next(w, Close))
  {
  }

  function Opened(): World {
    World([], false, Ready, [], [], Resting, [], [], [], [], [], [], 0, 0)
  }

  function Run(steps: seq<Step>): World {
    if steps == [] then Opened() else Next(Run(steps[..|steps| - 1]), steps[|steps| - 1])
  }

  lemma {:induction false} RunKeeps(steps: seq<Step>)
    ensures Inv(Run(steps))
  {
    hide Next;
    if steps != [] {
      RunKeeps(steps[..|steps| - 1]);
      NextKeeps(Run(steps[..|steps| - 1]), steps[|steps| - 1]);
    }
  }

  /** The stream: whatever the sizes of chunks and reads, the retries and the moment of a close, the
      bytes the reader copied are a prefix of those the writer wrote; bytes the pipe took are exactly
      those it gave out and the ones in its slot; and every nonempty chunk but the one in the slot was
      acknowledged once. */
  lemma ReaderGetsPrefix(steps: seq<Step>)
    ensures var w := Run(steps);
            && w.received <= w.written && w.accepted == w.delivered + w.slot
            && w.taken == w.acked + if w.slot == [] then 0 else 1
  {
    hide Run, Carried, WriterFits;
    RunKeeps(steps);
    var w := Run(steps);
    assert w.accepted == w.received + (Carried(w.toReader) + w.slot);
  }

  /** Nothing is lost or acknowledged early: while the pipe is open and the writer is not waiting, all it
      wrote is on its way to the reader or copied; and when no reply is under way, copied. */
  lemma WriterAheadOfNobody(steps: seq<Step>)
    requires !Run(steps).closed && Run(steps).writer == Ready
    ensures var w := Run(steps);
            w.written == w.delivered && (w.toReader == [] ==> w.received == w.written)
  {
    hide Run;
    RunKeeps(steps);
  }

  /** A reader whose calls ask for something has one request or one run of replies under way, and no
      more bytes than it asked for. */
  ghost predicate ReaderFits(w: World) {
    match w.reader
    case Resting => w.asked == [] && w.toReader == []
    case Reading(count, got) =>
      count > 0 &&
      if w.toReader == [] then w.asked == [count] && got == []
      else
        && w.asked == []
        && (|| (w.toReader == [Retry] && got == [])
            || (w.toReader == [Data([])] && |got| <= count)
            || (|w.toReader| == 2 && w.toReader[0].Data? && 0 < |w.toReader[0].bytes| <= count
                && w.toReader[1] == Data([]) && got == []))
  }

  ghost predicate AsksForSome(steps: seq<Step>) {
    forall i :: 0 <= i < |steps| && steps[i].AskRead? ==> steps[i].count > 0
  }

  /** No read() copies more than it was asked for, provided no read() asks for nothing. */
  lemma {:induction false} ReadFitsBuffer(steps: seq<Step>)
    requires AsksForSome(steps)
    ensures ReaderFits(Run(steps))
    ensures Run(steps).reader.Reading? ==> |Run(steps).reader.got| <= Run(steps).reader.count
  {
    hide Inv;
    if steps != [] {
      var front, e := steps[..|steps| - 1], steps[|steps| - 1];
      ReadFitsBuffer(front);
      ReaderStep(Run(front), e);
    }
  }

  lemma ReaderStep(w: World, step: Step)
    requires ReaderFits(w) && (step.AskRead? ==> step.count > 0)
    ensures ReaderFits(Next(w, step))
  {
    hide Next;
    match step
    case PipeRead => ReaderGiven(w);
    case ReaderHears => ReaderTakes(w);
    case _ => ReaderElse(w, step);
  }

  lemma ReaderElse(w: World, step: Step)
    requires ReaderFits(w) && !step.PipeRead? && !step.ReaderHears? && (step.AskRead? ==> step.count > 0)
    ensures ReaderFits(Next(w, step))
  {
    hide Carried, Offered, Drawn;
  }

  lemma ReaderGiven(w: World)
    requires ReaderFits(w)
    ensures ReaderFits(Next(w, PipeRead))
  {
    hide Carried, Offered;
    if w.asked != [] {
      assert w.asked[1..] == [] && w.toReader == [];
    }
  }

  lemma ReaderTakes(w: World)
    requires ReaderFits(w)
    ensures ReaderFits(Next(w, ReaderHears))
  {
    hide Carried, Offered, Drawn;
    if w.reader.Reading? && w.toReader != [] {
      var rest := w.toReader[1..];
      assert |w.toReader| == 2 ==> rest == [w.toReader[1]];
      assert |w.toReader| == 1 ==> rest == [];
    }
  }

  /** A read() that finds bytes in the pipe leaves the reader in order exactly when it asked for some:
      a read() for nothing leaves a terminator behind. */
  lemma ReadInOrderExactly(w: World, count: nat)
    requires ReaderFits(w) && w.reader == Resting && !w.closed && w.slot != []
    ensures ReaderFits(Next(Next(Next(w, AskRead(count)), PipeRead), ReaderHears)) <==> count > 0
  {
    hide Carried;
    var w2 := Next(Next(w, AskRead(count)), PipeRead);
    assert w2.toReader == [Data(if |w.slot| <= count then w.slot else w.slot[..count]), Data([])];
  }

  /** Behind a read() for nothing, a later read() gets the bytes of an earlier one: here three bytes
      where one was asked for. */
  lemma ReadForNothingOverruns() returns (steps: seq<Step>)
    ensures Run(steps).reader.Reading? && |Run(steps).reader.got| > Run(steps).reader.count
  {
    hide Run, Script, Next;
    steps := [];
    RunStart();
    for i := 0 to 10
      invariant Run(steps) == Overrun(i)
    {
      RunMore(steps, Script(i));
      OverrunStep(i);
      steps := steps + [Script(i)];
    }
  }

  lemma RunStart()
    ensures Run([]) == Opened()
  {
  }

  lemma RunMore(steps: seq<Step>, step: Step)
    ensures Run(steps + [step]) == Next(Run(steps), step)
  {
    assert (steps + [step])[..|steps|] == steps;
  }

  function Script(i: nat): Step {
    match i
    case 0 => SendChunk([1, 2, 3])
    case 1 => PipeWrite
    case 2 => AskRead(0)
    case 3 => PipeRead
    case 4 => ReaderHears
    case 5 => AskRead(3)
    case 6 => ReaderHears
    case 7 => PipeRead
    case 8 => AskRead(1)
    case _ => ReaderHears
  }

  /** The states the script goes through. */
  function Overrun(i: nat): World {
    var chunk: Bytes := [1, 2, 3];
    var full := Opened().(writer := Waiting(chunk), written := chunk, slot := chunk, accepted := chunk, taken := 1);
    match i
    case 0 => Opened()
    case 1 => Opened().(writer := Waiting(chunk), written := chunk, toPipe := [chunk])
    case 2 => full
    case 3 => full.(reader := Reading(0, []), asked := [0])
    case 4 => full.(reader := Reading(0, []), toReader := [Data([]), Data([])])
    case 5 => full.(toReader := [Data([])])
    case 6 => full.(toReader := [Data([])], reader := Reading(3, []), asked := [3])
    case 7 => full.(asked := [3])
    case 8 => full.(slot := [], toReader := [Data(chunk), Data([])], toWriter := [Received], delivered := chunk, acked := 1)
    case 9 => Overrun(8).(reader := Reading(1, []), asked := [1])
    case _ => Overrun(9).(toReader := [Data([])], reader := Reading(1, chunk), received := chunk)
  }

  lemma OverrunStep(i: nat)
    requires i < 10
    ensures Overrun(i + 1) == Next(Overrun(i), Script(i))
  {
    hide Next;
    if i < 3 {
      FillsSlot(i);
    } else if i == 3 {
      LeavesTerminator();
    } else if i < 7 {
      TakesTerminator(i);
    } else if i == 7 {
      HandsOver();
    } else {
      Overruns(i);
    }
  }

  lemma FillsSlot(i: nat)
    requires i < 3
    ensures Overrun(i + 1) == Next(Overrun(i), Script(i))
  {
    var chunk: Bytes, none: Bytes := [1, 2, 3], [];
    assert none + chunk == chunk;
  }

  lemma LeavesTerminator()
    ensures Overrun(4) == Next(Overrun(3), Script(3))
  {
    hide Carried;
    var chunk: Bytes, none: Bytes := [1, 2, 3], [];
    assert chunk[0..] == chunk && chunk[..0] == [] && none + none == none;
    TwoEnds();
  }

  lemma TakesTerminator(i: nat)
    requires 4 <= i < 7
    ensures Overrun(i + 1) == Next(Overrun(i), Script(i))
  {
    hide Carried, Drawn, Offered;
    var both: seq<Reply>, end: seq<Reply> := [Data([]), Data([])], [Data([])];
    assert both[1..] == end && end[1..] == [];
  }

  lemma HandsOver()
    ensures Overrun(8) == Next(Overrun(7), Script(7))
  {
    hide Carried;
    var chunk: Bytes, none: Bytes := [1, 2, 3], [];
    assert none + chunk == chunk;
    OneChunk(chunk);
  }

  lemma Overruns(i: nat)
    requires 8 <= i < 10
    ensures Overrun(i + 1) == Next(Overrun(i), Script(i))
  {
    hide Carried;
    var chunk: Bytes, none: Bytes := [1, 2, 3], [];
    assert none + chunk == chunk;
  }

  lemma TwoEnds()
    ensures Carried([Data([]), Data([])]) == []
  {
    OneChunk([]);
  }

  lemma OneChunk(b: Bytes)
    ensures Carried([Data(b), Data([])]) == b
  {
    CarriedOne(Data(b));
    CarriedOne(Data([]));
    CarriedConcat([Data(b)], [Data([])]);
    assert [Data(b)] + [Data([])] == [Data(b), Data([])];
  }

  /** The descriptor in the source's own fields. */
  class PipeFileDescriptor {
    const data: array<byte>
    var len: nat
    var closed: bool

    ghost predicate Valid()
      reads this
    {
      data.Length == SLOT && len <= SLOT
    }

    ghost function Slot(): Bytes
      reads this, data
      requires Valid()
    {
      data[..len]
    }

    constructor ()
      ensures Valid() && Slot() == [] && !closed && fresh(data)
    {
      data := new byte[SLOT](_ => 0);
      len, closed := 0, false;
    }

    method Write(chunk: Bytes) returns (toWriter: seq<Reply>)
      requires Valid() && |chunk| <= SLOT
      modifies this, data
      ensures Valid() && closed == old(closed) && (Slot(), toWriter) == Offered(old(Slot()), old(closed), chunk)
    {
      if closed {
        return [Closed];
      }
      if len != 0 {
        return [Retry];
      }
      if |chunk| == 0 {
        return [Received];
      }
      len := |chunk|;
      forall i | 0 <= i < len {
        data[i] := chunk[i];
      }
      assert data[..len] == chunk;
      return [];
    }

    method Read(count: nat) returns (toReader: seq<Reply>, toWriter: seq<Reply>)
      requires Valid()
      modifies this, data
      ensures Valid() && closed == old(closed) && (Slot(), toReader, toWriter) == Drawn(old(Slot()), old(closed), count)
    {
      if closed {
        return [Data([])], [];
      }
      if len == 0 {
        return [Retry], [];
      }
      if len <= count {
        var bytes := data[..len];
        len := 0;
        forall i | 0 <= i < data.Length {
          data[i] := 0;
        }
        return [Data(bytes), Data([])], [Received];
      }
      var bytes := data[..count];
      ghost var rest := data[count..len];
      assert bytes == Slot()[..count] && rest == Slot()[count..];
      len := len - count;
      forall i | 0 <= i < len {
        data[i] := data[count + i];
      }
      assert data[..len] == rest;
      return [Data(bytes), Data([])], [];
    }

    method Close() returns (toWriter: seq<Reply>)
      requires Valid()
      modifies this`closed
      ensures Valid() && closed && Slot() == old(Slot()) && toWriter == [Closed]
    {
      closed := true;
      return [Closed];
    }
  }
}
