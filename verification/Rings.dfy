/** kernel/usb/xhci/ring.cpp: the producer and the consumer of a TRB ring share nothing but its memory
    (xHCI specification, sections 4.9.2 to 4.9.4). This module interleaves their single dword accesses
    in every order. A linked ring (command and transfer rings) ends in a link TRB that leads back to
    its start; an event ring just wraps. */
module Rings {
  import opened Options

  datatype TRB = TRB(d0: nat, d1: nat, d2: nat, d3: nat)

  /** The TRB type of a link (section 6.4.4.1). */
  const LINK_TYPE: nat := 6

  predicate Cycle(t: TRB) {
    t.d3 % 2 == 1
  }

  predicate IsLink(t: TRB) {
    t.d3 / 1024 % 64 == LINK_TYPE
  }

  /** The toggle bit of a link. */
  predicate Toggles(t: TRB) {
    t.d3 / 2 % 2 == 1
  }

  function Cycled(t: TRB, cycle: bool): TRB {
    t.(d3 := t.d3 - t.d3 % 2 + if cycle then 1 else 0)
  }

  /** A TRB as it is compared between the two sides: without the cycle bit. */
  function Plain(t: TRB): TRB {
    Cycled(t, false)
  }

  lemma CycledIs(t: TRB, cycle: bool)
    ensures Cycle(Cycled(t, cycle)) == cycle && IsLink(Cycled(t, cycle)) == IsLink(t) && Plain(Cycled(t, cycle)) == Plain(t)
    ensures Toggles(Cycled(t, cycle)) == Toggles(t)
    ensures Cycled(Plain(t), cycle) == Cycled(t, cycle)
  {
    BitsAbove(t.d3, if cycle then 1 else 0);
    BitsAbove(t.d3, 0);
  }

  /** The lowest bit leaves the others alone. */
  lemma BitsAbove(d: nat, bit: nat)
    requires bit < 2
    ensures var d' := d - d % 2 + bit;
            d' / 2 == d / 2 && d' % 2 == bit && d' / 1024 == d / 1024
  {
    var d' := d - d % 2 + bit;
    assert d / 1024 == d / 2 / 512 && d' / 1024 == d' / 2 / 512;
  }

  /** The first k words of slot and t agree. */
  predicate SameWords(slot: TRB, t: TRB, k: nat) {
    && (k > 0 ==> slot.d0 == t.d0)
    && (k > 1 ==> slot.d1 == t.d1)
    && (k > 2 ==> slot.d2 == t.d2)
  }

  function WithWord(slot: TRB, t: TRB, k: nat): TRB {
    if k == 0 then slot.(d0 := t.d0) else if k == 1 then slot.(d1 := t.d1) else slot.(d2 := t.d2)
  }

  /** Storing(t, k): the first k words of t were stored in the slot at the write index. */
  datatype Producer = Waiting | Storing(t: TRB, k: nat)

  /** Fetching(t, k): the control word and the first k words of t were read from the slot. */
  datatype Consumer = Polling | Fetching(t: TRB, k: nat)

  /** size is the number of slots. lap and index count how often and how far each side went round;
      the parity of the lap is the side's cycle state. */
  datatype Ring = Ring(
    linked: bool, link: TRB, size: nat, slots: seq<TRB>,
    producer: Producer, lap: nat, writeIndex: nat,
    consumer: Consumer, readLap: nat, readIndex: nat,
    pushed: seq<TRB>, accepted: seq<TRB>)
  {
    function Outstanding(): int { |pushed| - |accepted| }

    /** A linked ring is kept at two less than its slots, an event ring may fill up. */
    predicate MayBegin() {
      producer == Waiting && Outstanding() < if linked then size - 2 else size
    }
  }

  /** The cycle state of lap n; the memory is cleared as if by lap -1. */
  predicate Parity(n: int) {
    n % 2 == 0
  }

  function Fresh(linked: bool, link: TRB, size: nat): Ring {
    Ring(linked, link, size, seq(size, _ => TRB(0, 0, 0, 0)), Waiting, 0, 0, Polling, 0, 0, [], [])
  }

  /** Begin: a push starts. Store: the producer's next dword store. Read: the consumer's next dword
      read. A step that is not possible does nothing. */
  datatype Step = Begin(t: TRB) | Store | Read

  function Next(r: Ring, step: Step): Ring {
    match step
    case Begin(t) => if r.MayBegin() && (r.linked ==> !IsLink(t)) then Started(r, t) else r
    case Store => if r.producer.Storing? && r.writeIndex < |r.slots| then Stored(r) else r
    case Read => if r.readIndex < |r.slots| then Reading(r) else r
  }

  function Started(r: Ring, t: TRB): Ring {
    r.(producer := Storing(t, 0), pushed := r.pushed + [Plain(t)])
  }

  function Stored(r: Ring): Ring
    requires r.producer.Storing? && r.writeIndex < |r.slots|
  {
    var slot := r.slots[r.writeIndex];
    var t, k := r.producer.t, r.producer.k;
    if k < 3 then
      r.(slots := r.slots[r.writeIndex := WithWord(slot, t, k)], producer := Storing(t, k + 1))
    else
      Published(r.(slots := r.slots[r.writeIndex := slot.(d3 := Cycled(t, Parity(r.lap)).d3)]))
  }

  /** The control word is out: on to the next slot, by way of the link where there is one. */
  function Published(r: Ring): Ring {
    if r.writeIndex + 1 == r.size then r.(producer := Waiting, writeIndex := 0, lap := r.lap + 1)
    else if r.linked && r.writeIndex + 2 == r.size then r.(producer := Storing(r.link, 0), writeIndex := r.writeIndex + 1)
    else r.(producer := Waiting, writeIndex := r.writeIndex + 1)
  }

  function Reading(r: Ring): Ring
    requires r.readIndex < |r.slots|
  {
    var slot := r.slots[r.readIndex];
    match r.consumer
    case Polling => if Cycle(slot) == Parity(r.readLap) then r.(consumer := Fetching(slot, 0)) else r
    case Fetching(t, k) =>
      var t' := WithWord(t, slot, k);
      if k < 2 then r.(consumer := Fetching(t', k + 1)) else Taken(r.(consumer := Polling), t')
  }

  /** A whole TRB was read. A link leads to the start, toggling the cycle state if it says so. */
  function Taken(r: Ring, t: TRB): Ring {
    if r.linked && IsLink(t) then r.(readIndex := 0, readLap := r.readLap + if Toggles(t) then 1 else 0)
    else
      var r' := r.(accepted := r.accepted + [Plain(t)]);
      if !r.linked && r.readIndex + 1 == r.size then r'.(readIndex := 0, readLap := r.readLap + 1)
      else r'.(readIndex := r.readIndex + 1)
  }

  function Run(r: Ring, steps: seq<Step>): Ring {
    if steps == [] then r else Next(Run(r, steps[..|steps| - 1]), steps[|steps| - 1])
  }

  /** The slot of the i-th outstanding entry. */
  function SlotOf(r: Ring, i: nat): nat {
    if r.readIndex + i < r.size then r.readIndex + i else r.readIndex + i - r.size
  }

  /** The entries without the links of a linked ring. */
  function Data(linked: bool, q: seq<TRB>): seq<TRB> {
    if q == [] then []
    else Data(linked, q[..|q| - 1]) + if linked && IsLink(q[|q| - 1]) then [] else [Plain(q[|q| - 1])]
  }

  /** The entries q between the two sides, links included, and what each side is in the middle of. */
  ghost predicate Holds(r: Ring, q: seq<TRB>) {
    && 2 <= r.size == |r.slots| && r.readIndex < r.size && r.writeIndex < r.size && IsLink(r.link) && Toggles(r.link)
    && (if r.lap == r.readLap then |q| == r.writeIndex - r.readIndex
        else r.lap == r.readLap + 1 && |q| == r.size - r.readIndex + r.writeIndex)
    && |q| <= r.size
    && Cycles(r) && Entries(r, q) && Links(r, q)
    && ProducerFits(r, q) && ConsumerFits(r, q)
    && r.pushed == r.accepted + Data(r.linked, q) + Begun(r)
    && (r.linked ==> r.Outstanding() <= r.size - 2)
  }

  /** The cycle bit of a slot tells the lap it was last written in. */
  ghost predicate Cycles(r: Ring) {
    forall j :: 0 <= j < |r.slots| ==> Cycle(r.slots[j]) == Parity(if j < r.writeIndex then r.lap else r.lap - 1)
  }

  ghost predicate Entries(r: Ring, q: seq<TRB>) {
    forall i :: 0 <= i < |q| ==> SlotOf(r, i) < |r.slots| && Plain(r.slots[SlotOf(r, i)]) == Plain(q[i])
  }

  /** Links are in the last slot and nowhere else. */
  ghost predicate Links(r: Ring, q: seq<TRB>) {
    r.linked ==> forall i :: 0 <= i < |q| ==> (IsLink(q[i]) <==> SlotOf(r, i) == r.size - 1) && (IsLink(q[i]) ==> Toggles(q[i]))
  }

  ghost predicate ProducerFits(r: Ring, q: seq<TRB>) {
    match r.producer
    case Waiting => r.linked ==> r.writeIndex != r.size - 1
    case Storing(t, k) =>
      && k <= 3 && |q| < r.size && r.writeIndex < |r.slots| && SameWords(r.slots[r.writeIndex], t, k)
      && (r.linked ==> (IsLink(t) <==> r.writeIndex == r.size - 1) && (IsLink(t) ==> Toggles(t)))
  }

  ghost predicate ConsumerFits(r: Ring, q: seq<TRB>) {
    match r.consumer
    case Polling => true
    case Fetching(t, k) =>
      k <= 2 && q != [] && r.readIndex < |r.slots| && SameWords(t, r.slots[r.readIndex], k) && t.d3 == r.slots[r.readIndex].d3
  }

  /** The TRB a push has begun and not yet published. */
  ghost function Begun(r: Ring): seq<TRB> {
    if r.producer.Storing? && !(r.linked && IsLink(r.producer.t)) then [Plain(r.producer.t)] else []
  }

  lemma FreshHolds(linked: bool, link: TRB, size: nat)
    requires 2 <= size && IsLink(link) && Toggles(link)
    ensures Holds(Fresh(linked, link, size), [])
  {
  }

  lemma SameMemory(r: Ring, r': Ring, q: seq<TRB>)
    requires Cycles(r) && Entries(r, q) && Links(r, q)
    requires r' == r.(consumer := r'.consumer, producer := r'.producer, pushed := r'.pushed)
    ensures Cycles(r') && Entries(r', q) && Links(r', q)
  {
    hide Cycle, Plain, IsLink, Toggles;
    assert forall i: nat :: SlotOf(r', i) == SlotOf(r, i);
  }

  lemma BeginHolds(r: Ring, q: seq<TRB>, t: TRB)
    requires Holds(r, q) && r.MayBegin() && (r.linked ==> !IsLink(t))
    ensures Holds(Started(r, t), q)
  {
    hide Cycle, IsLink, Toggles, Plain, Cycled, Cycles, Entries, Links, Data;
    DataLength(r, q);
    SameMemory(r, Started(r, t), q);
  }

  /** There is at most one link among the outstanding entries. */
  lemma DataLength(r: Ring, q: seq<TRB>)
    requires |q| <= r.size && r.readIndex < r.size && Links(r, q)
    ensures |q| - 1 <= |Data(r.linked, q)| <= |q| && (!r.linked ==> |Data(r.linked, q)| == |q|)
  {
    hide IsLink, Toggles, Plain;
    assert q[..|q|] == q;
    DataCount(r, q, |q|);
  }

  lemma {:induction false} DataCount(r: Ring, q: seq<TRB>, n: nat)
    requires n <= |q| <= r.size && r.readIndex < r.size && Links(r, q)
    ensures |Data(r.linked, q[..n])| == n - if r.linked && n > r.size - 1 - r.readIndex then 1 else 0
    decreases n
  {
    hide IsLink, Toggles, Plain;
    if n > 0 {
      DataCount(r, q, n - 1);
      assert q[..n][..n - 1] == q[..n - 1];
    }
  }

  /** The slot being written is none of the outstanding ones. */
  lemma WriteSlotFree(r: Ring, q: seq<TRB>, i: nat)
    requires Holds(r, q) && r.producer.Storing? && i < |q|
    ensures SlotOf(r, i) != r.writeIndex
  {
    hide Cycles, Entries, Links, ConsumerFits, Begun, Data;
  }

  /** One of the first three stores of an entry. */
  lemma WordHolds(r: Ring, q: seq<TRB>)
    requires Holds(r, q) && r.producer.Storing? && r.producer.k < 3
    ensures Holds(Stored(r), q)
  {
    hide IsLink, Toggles, Data;
    var r' := Stored(r);
    forall i | 0 <= i < |q|
      ensures SlotOf(r, i) != r.writeIndex
    {
      WriteSlotFree(r, q, i);
    }
    assert Entries(r', q);
    assert Links(r', q);
    if r.consumer.Fetching? {
      assert SlotOf(r, 0) == r.readIndex;
    }
    assert ConsumerFits(r', q);
  }

  lemma DataMore(linked: bool, q: seq<TRB>, t: TRB)
    ensures Data(linked, q + [t]) == Data(linked, q) + if linked && IsLink(t) then [] else [Plain(t)]
  {
    assert (q + [t])[..|q|] == q;
  }

  /** The last store of an entry: it is out. */
  lemma PublishHolds(r: Ring, q: seq<TRB>)
    requires Holds(r, q) && r.producer.Storing? && r.producer.k == 3
    ensures Holds(Stored(r), q + [r.producer.t])
  {
    hide IsLink, Toggles, Data, Cycles, Entries, Links, ProducerFits, ConsumerFits, Begun, Plain, Cycled;
    WriteSlotInRange(r, q);
    PublishCycles(r, q);
    PublishEntries(r, q);
    PublishProducer(r, q);
    PublishAccount(r, q);
  }

  lemma WriteSlotInRange(r: Ring, q: seq<TRB>)
    requires Holds(r, q) && r.producer.Storing?
    ensures r.writeIndex < |r.slots| && |q| < r.size
  {
    hide IsLink, Toggles, Data, Cycles, Entries, Links, ConsumerFits, Begun, Plain, Cycled;
  }

  lemma PublishEntries(r: Ring, q: seq<TRB>)
    requires Holds(r, q) && r.producer.Storing? && r.producer.k == 3
    ensures Entries(Stored(r), q + [r.producer.t]) && Links(Stored(r), q + [r.producer.t])
    ensures ConsumerFits(Stored(r), q + [r.producer.t])
  {
    hide IsLink, Toggles, Data, Cycles, Begun;
    var t := r.producer.t;
    CycledIs(t, Parity(r.lap));
    forall i | 0 <= i < |q|
      ensures SlotOf(r, i) != r.writeIndex
    {
      WriteSlotFree(r, q, i);
    }
    assert SlotOf(r, |q|) == r.writeIndex;
    assert r.consumer.Fetching? ==> SlotOf(r, 0) == r.readIndex;
  }

  lemma PublishAccount(r: Ring, q: seq<TRB>)
    requires Holds(r, q) && r.producer.Storing? && r.producer.k == 3
    ensures var r' := Stored(r);
            r'.pushed == r'.accepted + Data(r'.linked, q + [r.producer.t]) + Begun(r')
  {
    hide Toggles, Data, Cycles, Entries, Links, ConsumerFits;
    DataMore(r.linked, q, r.producer.t);
  }

  lemma PublishCycles(r: Ring, q: seq<TRB>)
    requires Holds(r, q) && r.producer.Storing? && r.producer.k == 3
    ensures Cycles(Stored(r))
  {
    hide IsLink, Toggles, Data, Entries, Links, ConsumerFits, Begun, Plain;
    CycledIs(r.producer.t, Parity(r.lap));
  }

  /** There is room for a link behind the last entry of a lap. */
  lemma PublishProducer(r: Ring, q: seq<TRB>)
    requires Holds(r, q) && r.producer.Storing? && r.producer.k == 3
    ensures ProducerFits(Stored(r), q + [r.producer.t])
  {
    hide IsLink, Toggles, Data, Entries, Cycles, ConsumerFits, Plain;
    DataLength(r, q);
    var r' := Stored(r);
  }

  /** The consumer finds its cycle state in a slot exactly when an entry is outstanding there. */
  lemma Visible(r: Ring, q: seq<TRB>)
    requires Holds(r, q)
    ensures r.readIndex < |r.slots| && (Cycle(r.slots[r.readIndex]) == Parity(r.readLap) <==> q != [])
  {
    hide IsLink, Toggles, Data, Entries, Links, ProducerFits, ConsumerFits, Begun, Plain, Cycle;
  }

  lemma {:induction false} DataHead(linked: bool, q: seq<TRB>)
    requires q != []
    ensures Data(linked, q) == (if linked && IsLink(q[0]) then [] else [Plain(q[0])]) + Data(linked, q[1..])
  {
    hide IsLink, Plain;
    if |q| > 1 {
      var front := q[..|q| - 1];
      DataHead(linked, front);
      assert q[1..][..|q| - 2] == front[1..];
    } else {
      assert q[..0] == [] && q[1..] == [];
    }
  }

  /** A read that is not the last of an entry. */
  lemma ReadHolds(r: Ring, q: seq<TRB>)
    requires Holds(r, q) && (r.consumer.Fetching? ==> r.consumer.k < 2)
    ensures r.readIndex < |r.slots| && Holds(Reading(r), q)
  {
    hide IsLink, Toggles, Data, Plain, Cycle, Cycles, Entries, Links;
    Visible(r, q);
    var r' := Reading(r);
    SameMemory(r, r', q);
  }

  lemma SameTRB(a: TRB, b: TRB)
    requires Plain(a) == Plain(b)
    ensures IsLink(a) == IsLink(b) && Toggles(a) == Toggles(b)
  {
    CycledIs(a, false);
    CycledIs(b, false);
  }

  /** The last read of an entry: it is taken, complete. */
  lemma TakeHolds(r: Ring, q: seq<TRB>)
    requires Holds(r, q) && r.consumer.Fetching? && r.consumer.k == 2
    ensures r.readIndex < |r.slots| && Holds(Reading(r), q[1..])
  {
    hide IsLink, Toggles, Data, Cycles, Entries, Links, ProducerFits, ConsumerFits, Begun, Plain, Cycled, Cycle, SlotOf;
    Visible(r, q);
    var t := Fetched(r, q);
    TakeEntries(r, q, t);
    DataHead(r.linked, q);
    TakeRest(r, q);
  }

  lemma Fetched(r: Ring, q: seq<TRB>) returns (t: TRB)
    requires Holds(r, q) && r.consumer.Fetching? && r.consumer.k == 2
    ensures r.readIndex < |r.slots| && q != [] && Plain(t) == Plain(q[0]) && Reading(r) == Taken(r.(consumer := Polling), t)
    ensures IsLink(t) == IsLink(q[0]) && Toggles(t) == Toggles(q[0])
    ensures r.linked ==> (IsLink(q[0]) <==> r.readIndex == r.size - 1) && (IsLink(q[0]) ==> Toggles(q[0]))
  {
    hide IsLink, Toggles, Data, Cycles, ProducerFits, Begun, Plain;
    t := WithWord(r.consumer.t, r.slots[r.readIndex], 2);
    assert t == r.slots[r.readIndex];
    assert SlotOf(r, 0) == r.readIndex;
    SameTRB(t, q[0]);
  }

  lemma TakeEntries(r: Ring, q: seq<TRB>, t: TRB)
    requires Holds(r, q) && q != [] && r.readIndex < |r.slots| && Reading(r) == Taken(r.(consumer := Polling), t)
    requires IsLink(t) == IsLink(q[0]) && Toggles(t) == Toggles(q[0])
    requires r.linked ==> (IsLink(q[0]) <==> r.readIndex == r.size - 1) && (IsLink(q[0]) ==> Toggles(q[0]))
    ensures var r' := Reading(r);
            && r' == r.(consumer := Polling, accepted := r'.accepted,
                        readIndex := if r.readIndex + 1 == r.size then 0 else r.readIndex + 1,
                        readLap := if r.readIndex + 1 == r.size then r.readLap + 1 else r.readLap)
            && r'.accepted == r.accepted + (if r.linked && IsLink(q[0]) then [] else [Plain(t)])
            && Cycles(r') && Entries(r', q[1..]) && Links(r', q[1..])
  {
    hide IsLink, Toggles, Data, Plain, Cycle, ProducerFits, ConsumerFits, Begun, Reading;
    var r' := Taken(r.(consumer := Polling), t);
    forall i | 0 <= i < |q| - 1
      ensures SlotOf(r', i) == SlotOf(r, i + 1)
    {
    }
  }

  lemma TakeRest(r: Ring, q: seq<TRB>)
    requires Holds(r, q) && q != [] && r.readIndex < |r.slots|
    requires var r' := Reading(r);
             r' == r.(consumer := Polling, accepted := r'.accepted, readIndex := r'.readIndex, readLap := r'.readLap)
    ensures ProducerFits(Reading(r), q[1..]) && Begun(Reading(r)) == Begun(r)
    ensures Reading(r).consumer == Polling && ConsumerFits(Reading(r), q[1..])
  {
    hide IsLink, Toggles, Data, Plain, Cycle, Cycles, Entries, Links, Reading;
  }

  /** Whatever the order of the two sides' accesses, the entries between them stay sound. */
  lemma {:induction false} RunHolds(r0: Ring, q0: seq<TRB>, steps: seq<Step>) returns (q: seq<TRB>)
    requires Holds(r0, q0)
    ensures Holds(Run(r0, steps), q)
  {
    hide Holds, Stored, Reading, Started;
    if steps == [] {
      q := q0;
    } else {
      q := RunHolds(r0, q0, steps[..|steps| - 1]);
      q := StepHolds(Run(r0, steps[..|steps| - 1]), q, steps[|steps| - 1]);
    }
  }

  lemma StepHolds(r: Ring, q: seq<TRB>, step: Step) returns (q': seq<TRB>)
    requires Holds(r, q)
    ensures Holds(Next(r, step), q')
    ensures q' == q || (exists t :: q' == q + [t]) || (q != [] && q' == q[1..])
  {
    hide Cycles, Entries, Links, Begun, Data, Stored, Reading, Started;
    q' := q;
    match step
    case Begin(t) =>
      if r.MayBegin() && (r.linked ==> !IsLink(t)) {
        BeginHolds(r, q, t);
      }
    case Store =>
      if r.producer.Storing? && r.producer.k < 3 {
        WordHolds(r, q);
      } else if r.producer.Storing? {
        q' := q + [r.producer.t];
        PublishHolds(r, q);
      }
    case Read =>
      if r.consumer.Fetching? && r.consumer.k == 2 {
        q' := q[1..];
        TakeHolds(r, q);
      } else {
        ReadHolds(r, q);
      }
  }

  lemma {:induction false} RunConcat(r: Ring, a: seq<Step>, b: seq<Step>)
    ensures Run(r, a + b) == Run(Run(r, a), b)
  {
    hide Next;
    if b == [] {
      assert a + b == a;
    } else {
      var front := b[..|b| - 1];
      assert (a + b)[..|a + b| - 1] == a + front;
      RunConcat(r, a, front);
    }
  }

  function Repeated(step: Step, n: nat): seq<Step> {
    seq(n, _ => step)
  }

  lemma RunFour(r: Ring, step: Step)
    ensures Run(r, Repeated(step, 4)) == Next(Next(Next(Next(r, step), step), step), step)
  {
    hide Next;
    var one: seq<Step>, two, three := [step], [step, step], [step, step, step];
    assert Repeated(step, 4)[..3] == three && three[..2] == two && two[..1] == one && one[..0] == [];
    assert Run(r, one) == Next(r, step);
    assert Run(r, two) == Next(Run(r, one), step);
    assert Run(r, three) == Next(Run(r, two), step);
  }

  /** Four stores in a row put a whole entry in its slot. */
  lemma StoreFour(r: Ring)
    requires r.producer.Storing? && r.producer.k == 0 && r.writeIndex < |r.slots|
    ensures Run(r, Repeated(Store, 4)) ==
            Published(r.(slots := r.slots[r.writeIndex := Cycled(r.producer.t, Parity(r.lap))]))
  {
    hide Published, Parity, Run, Next;
    RunFour(r, Store);
    var s3 := StoreThree(r);
    StoreLast(r, s3);
  }

  lemma StoreThree(r: Ring) returns (s: Ring)
    requires r.producer.Storing? && r.producer.k == 0 && r.writeIndex < |r.slots|
    ensures s == Next(Next(Next(r, Store), Store), Store)
    ensures |s.slots| == |r.slots| && s == r.(slots := r.slots[r.writeIndex := s.slots[r.writeIndex]], producer := Storing(r.producer.t, 3))
    ensures SameWords(s.slots[r.writeIndex], r.producer.t, 3)
  {
    hide Published, Parity, Cycled;
    var s1 := Next(r, Store);
    var s2 := Next(s1, Store);
    s := Next(s2, Store);
    assert s.slots == r.slots[r.writeIndex := s.slots[r.writeIndex]];
  }

  lemma StoreLast(r: Ring, s: Ring)
    requires r.producer.Storing? && r.writeIndex < |r.slots| == |s.slots|
    requires s == r.(slots := r.slots[r.writeIndex := s.slots[r.writeIndex]], producer := Storing(r.producer.t, 3))
    requires SameWords(s.slots[r.writeIndex], r.producer.t, 3)
    ensures Next(s, Store) == Published(r.(slots := r.slots[r.writeIndex := Cycled(r.producer.t, Parity(r.lap))]))
  {
    hide Parity;
    var last := s.slots[r.writeIndex].(d3 := Cycled(r.producer.t, Parity(r.lap)).d3);
    assert last == Cycled(r.producer.t, Parity(r.lap));
    assert s.slots[r.writeIndex := last] == r.slots[r.writeIndex := last];
  }

  /** Four reads in a row take the oldest entry. */
  lemma TakeFour(r: Ring, q: seq<TRB>)
    requires Holds(r, q) && r.consumer == Polling && q != []
    ensures var r' := Run(r, Repeated(Read, 4));
            && Holds(r', q[1..]) && r'.consumer == Polling
            && r' == r.(accepted := r'.accepted,
                        readIndex := if r.readIndex + 1 == r.size then 0 else r.readIndex + 1,
                        readLap := if r.readIndex + 1 == r.size then r.readLap + 1 else r.readLap)
            && r'.accepted == r.accepted + if r.linked && IsLink(q[0]) then [] else [Plain(q[0])]
    ensures r.linked ==> (IsLink(q[0]) <==> r.readIndex + 1 == r.size)
  {
    hide Holds, Taken, IsLink, Toggles, Plain, Cycle;
    RunFour(r, Read);
    Visible(r, q);
    ReadHolds(r, q);
    var s1 := Next(r, Read);
    ReadHolds(s1, q);
    var s2 := Next(s1, Read);
    ReadHolds(s2, q);
    var s3 := Next(s2, Read);
    TakeHolds(s3, q);
    var t := Fetched(s3, q);
    TakeEntries(s3, q, t);
  }

  /** Under every interleaving, what the consumer accepted is a prefix of what was pushed: each TRB
      whole, in order, once. */
  lemma AcceptedInOrder(linked: bool, link: TRB, size: nat, steps: seq<Step>)
    requires 2 <= size && IsLink(link) && Toggles(link)
    ensures var r := Run(Fresh(linked, link, size), steps);
            r.accepted <= r.pushed
  {
    hide Fresh, Cycles, Entries, Links, Data, Begun, ProducerFits, ConsumerFits, Run;
    FreshHolds(linked, link, size);
    var q := RunHolds(Fresh(linked, link, size), [], steps);
  }

  /** Nothing is lost: between pushes, a consumer that finds no entry has accepted every one. */
  lemma AcceptedAll(linked: bool, link: TRB, size: nat, steps: seq<Step>)
    requires 2 <= size && IsLink(link) && Toggles(link)
    ensures var r := Run(Fresh(linked, link, size), steps);
            r.producer == Waiting && r.readIndex < |r.slots| && Cycle(r.slots[r.readIndex]) != Parity(r.readLap) ==>
              r.accepted == r.pushed
  {
    hide Fresh, Cycles, Entries, Links, ProducerFits, ConsumerFits, Run, Cycle;
    FreshHolds(linked, link, size);
    var q := RunHolds(Fresh(linked, link, size), [], steps);
    Visible(Run(Fresh(linked, link, size), steps), q);
  }

  /** Nobody gets stuck: a consumer that is alone accepts the next outstanding TRB in four reads, or in
      eight if it has to pass the link first. */
  lemma AcceptsNext(linked: bool, link: TRB, size: nat, steps: seq<Step>)
    requires 2 <= size && IsLink(link) && Toggles(link)
    requires var r := Run(Fresh(linked, link, size), steps);
             r.producer == Waiting && r.consumer == Polling && r.Outstanding() > 0
    ensures var r := Run(Fresh(linked, link, size), steps);
            var n := if linked && r.readIndex + 1 == r.size then 8 else 4;
            |r.accepted| < |r.pushed| && Run(r, Repeated(Read, n)).accepted == r.accepted + [r.pushed[|r.accepted|]]
  {
    hide Holds, Run, IsLink, Plain, Next, Toggles;
    FreshHolds(linked, link, size);
    RunKeepsShape(Fresh(linked, link, size), steps);
    var r := Run(Fresh(linked, link, size), steps);
    var q := RunHolds(Fresh(linked, link, size), [], steps);
    FirstOutstanding(r, q);
    TakeFour(r, q);
    if linked && r.readIndex + 1 == r.size {
      var r4 := Run(r, Repeated(Read, 4));
      assert r.accepted + [] == r.accepted;
      FirstOutstanding(r4, q[1..]);
      TakeFour(r4, q[1..]);
      assert Repeated(Read, 8) == Repeated(Read, 4) + Repeated(Read, 4);
      RunConcat(r, Repeated(Read, 4), Repeated(Read, 4));
    }
  }

  lemma {:induction false} RunKeepsShape(r: Ring, steps: seq<Step>)
    ensures Run(r, steps).linked == r.linked && Run(r, steps).size == r.size && Run(r, steps).link == r.link
  {
    hide Next;
    if steps != [] {
      RunKeepsShape(r, steps[..|steps| - 1]);
      NextKeepsShape(Run(r, steps[..|steps| - 1]), steps[|steps| - 1]);
    }
  }

  lemma NextKeepsShape(r: Ring, step: Step)
    ensures Next(r, step).linked == r.linked && Next(r, step).size == r.size && Next(r, step).link == r.link
  {
    hide IsLink, Plain, WithWord, Cycled;
  }

  lemma FirstOutstanding(r: Ring, q: seq<TRB>)
    requires Holds(r, q) && r.producer == Waiting && r.Outstanding() > 0
    ensures q != [] && 2 <= r.size && |r.accepted| < |r.pushed|
    ensures r.linked && IsLink(q[0]) ==> |q| > 1 && r.readIndex + 1 == r.size
    ensures !(r.linked && IsLink(q[0])) ==> r.pushed[|r.accepted|] == Plain(q[0])
    ensures r.linked && IsLink(q[0]) ==> !IsLink(q[1])
  {
    hide IsLink, Plain, Cycles, Entries, Toggles;
    assert Data(r.linked, []) == [];
    DataHead(r.linked, q);
    assert |q| == 1 ==> q[1..] == [];
    assert SlotOf(r, 0) == r.readIndex;
    assert |q| > 1 ==> SlotOf(r, 1) != r.readIndex;
  }

  /** The stores of one push: the entry and, in the last slot but one, the link behind it. */
  function PushStores(r: Ring): nat {
    if r.linked && r.writeIndex + 2 == r.size then 8 else 4
  }

  /** A push that nothing comes between. */
  function Forced(r: Ring, t: TRB): Ring {
    Run(Started(r, t), Repeated(Store, PushStores(r)))
  }

  lemma ForcedIs(r: Ring, t: TRB)
    requires r.size == |r.slots| && r.writeIndex + 1 < r.size && r.linked && r.producer == Waiting
    ensures var slots := r.slots[r.writeIndex := Cycled(t, Parity(r.lap))];
            var wraps := r.writeIndex + 2 == r.size;
            Forced(r, t) ==
            r.(pushed := r.pushed + [Plain(t)],
               slots := if wraps then slots[r.size - 1 := Cycled(r.link, Parity(r.lap))] else slots,
               lap := if wraps then r.lap + 1 else r.lap,
               writeIndex := if wraps then 0 else r.writeIndex + 1)
  {
    hide Run, Cycled, Plain;
    var s0 := Started(r, t);
    StoreFour(s0);
    if r.writeIndex + 2 == r.size {
      var s1 := Run(s0, Repeated(Store, 4));
      StoreFour(s1);
      assert Repeated(Store, 8) == Repeated(Store, 4) + Repeated(Store, 4);
      RunConcat(s0, Repeated(Store, 4), Repeated(Store, 4));
    }
  }

  /** A push between which and the consumer's reads nothing comes keeps the oldest entry visible
      exactly when the consumer is in the same lap, or is ahead of the slot in the lap before and the
      push does not reach the link. How many TRBs are outstanding does not decide it. */
  lemma PushExact(r: Ring, q: seq<TRB>, t: TRB)
    requires Holds(r, q) && r.linked && r.producer == Waiting && !IsLink(t)
    ensures r.readIndex < |Forced(r, t).slots|
    ensures Cycle(Forced(r, t).slots[r.readIndex]) == Parity(r.readLap) <==>
            r.lap == r.readLap || (r.writeIndex < r.readIndex && r.writeIndex + 2 < r.size)
  {
    hide Run, IsLink, Toggles, Plain, Forced, Entries, Links, Data, Cycled, Cycle;
    ForcedIs(r, t);
    CycledIs(t, Parity(r.lap));
    CycledIs(r.link, Parity(r.lap));
  }

  /** A consumer that finds nothing in its slot stays there for as long as nobody writes. */
  lemma {:induction false} StuckForever(r: Ring, n: nat)
    requires r.consumer == Polling && r.readIndex < |r.slots| && Cycle(r.slots[r.readIndex]) != Parity(r.readLap)
    ensures Run(r, Repeated(Read, n)) == r
  {
    hide Cycle, Parity;
    if n > 0 {
      StuckForever(r, n - 1);
      assert Repeated(Read, n)[..n - 1] == Repeated(Read, n - 1);
    }
  }

  /** A push that fits, in one piece, as steps of a run. */
  lemma PushWhole(r0: Ring, q0: seq<TRB>, steps: seq<Step>, t: TRB) returns (steps': seq<Step>)
    requires Holds(r0, q0) && r0.linked && !IsLink(t) && Run(r0, steps).MayBegin()
    ensures Run(r0, steps') == Forced(Run(r0, steps), t)
  {
    hide Holds, Next, Stored, IsLink;
    var r := Run(r0, steps);
    RunKeepsShape(r0, steps);
    steps' := steps + [Begin(t)];
    assert steps'[..|steps|] == steps;
    NextBegin(r, t);
    RunConcat(r0, steps', Repeated(Store, PushStores(r)));
    steps' := steps' + Repeated(Store, PushStores(r));
  }

  lemma NextBegin(r: Ring, t: TRB)
    requires r.MayBegin() && (r.linked ==> !IsLink(t))
    ensures Next(r, Begin(t)) == Started(r, t)
  {
  }

  /** Where a run has left the two sides. */
  ghost predicate At(r: Ring, lap: nat, writeIndex: nat, readLap: nat, readIndex: nat, outstanding: nat) {
    && r.producer == Waiting && r.consumer == Polling && r.linked
    && r.lap == lap && r.writeIndex == writeIndex && r.readLap == readLap && r.readIndex == readIndex
    && r.Outstanding() == outstanding
  }

  lemma PushAt(r0: Ring, steps: seq<Step>, t: TRB, lap: nat, w: nat, readLap: nat, c: nat, n: nat) returns (steps': seq<Step>)
    requires Holds(r0, []) && r0.linked && !IsLink(t) && At(Run(r0, steps), lap, w, readLap, c, n) && n < r0.size - 2
    ensures if w + 2 == r0.size then At(Run(r0, steps'), lap + 1, 0, readLap, c, n + 1)
            else At(Run(r0, steps'), lap, w + 1, readLap, c, n + 1)
  {
    hide Run, Forced, IsLink, Toggles, Plain, Cycled, Entries, Links, Data, Cycles, ConsumerFits;
    RunKeepsShape(r0, steps);
    var q := RunHolds(r0, [], steps);
    steps' := PushWhole(r0, [], steps, t);
    ForcedIs(Run(r0, steps), t);
  }

  lemma TakeAt(r0: Ring, steps: seq<Step>, lap: nat, w: nat, c: nat, n: nat) returns (steps': seq<Step>)
    requires Holds(r0, []) && r0.linked && At(Run(r0, steps), lap, w, 0, c, n) && n > 0 && c + 1 < r0.size
    ensures At(Run(r0, steps'), lap, w, 0, c + 1, n - 1)
  {
    hide Run, IsLink, Toggles, Plain, Holds;
    RunKeepsShape(r0, steps);
    var q := RunHolds(r0, [], steps);
    var r := Run(r0, steps);
    FirstOutstanding(r, q);
    TakeFour(r, q);
    steps' := steps + Repeated(Read, 4);
    RunConcat(r0, steps, Repeated(Read, 4));
  }

  /** On every linked ring a run of the guarded steps leads to a state with size - 2 TRBs outstanding in which
      the consumer stands at the link. */
  lemma ParkedRun(link: TRB, size: nat, t: TRB) returns (steps: seq<Step>)
    requires 3 <= size && IsLink(link) && Toggles(link) && !IsLink(t)
    ensures At(Run(Fresh(true, link, size), steps), 1, size - 2, 0, size - 1, size - 2)
  {
    hide Run, Forced, IsLink, Toggles, Plain, Holds, Cycle, At;
    var r0 := Fresh(true, link, size);
    FreshHolds(true, link, size);
    steps := [];
    assert At(Run(r0, []), 0, 0, 0, 0, 0) by { RunNothing(r0); AtStart(link, size); }
    for i := 0 to size - 2
      invariant At(Run(r0, steps), 0, i, 0, i, 0)
    {
      steps := PushAt(r0, steps, t, 0, i, 0, i, 0);
      steps := TakeAt(r0, steps, 0, i + 1, i, 1);
    }
    steps := PushAt(r0, steps, t, 0, size - 2, 0, size - 2, 0);
    steps := TakeAt(r0, steps, 1, 0, size - 2, 1);
    for i := 0 to size - 2
      invariant At(Run(r0, steps), 1, i, 0, size - 1, i)
    {
      steps := PushAt(r0, steps, t, 1, i, 0, size - 1, i);
    }
  }

  /** One more TRB is too many: in that state a further push, of the (size - 1)-st, overwrites the link the
      consumer has yet to follow. It accepts none of them as long as nothing is written. */
  lemma OneTooMany(link: TRB, size: nat, t: TRB, n: nat) returns (steps: seq<Step>)
    requires 3 <= size && IsLink(link) && Toggles(link) && !IsLink(t)
    ensures var r := Run(Fresh(true, link, size), steps);
            && r.producer == Waiting && r.consumer == Polling && r.Outstanding() == size - 2
            && Forced(r, t).Outstanding() == size - 1 && Run(Forced(r, t), Repeated(Read, n)) == Forced(r, t)
  {
    hide Run, Forced, IsLink, Toggles, Plain, Holds, Cycle, At;
    FreshHolds(true, link, size);
    steps := ParkedRun(link, size, t);
    ParkedPush(Fresh(true, link, size), steps, t, n);
  }

  lemma RunNothing(r: Ring)
    ensures Run(r, []) == r
  {
  }

  lemma AtStart(link: TRB, size: nat)
    ensures At(Fresh(true, link, size), 0, 0, 0, 0, 0)
  {
  }

  lemma ParkedPush(r0: Ring, steps: seq<Step>, t: TRB, n: nat)
    requires Holds(r0, []) && !IsLink(t) && At(Run(r0, steps), 1, r0.size - 2, 0, r0.size - 1, r0.size - 2)
    ensures var r := Run(r0, steps);
            && r.producer == Waiting && r.consumer == Polling && r.Outstanding() == r0.size - 2
            && Forced(r, t).Outstanding() == r0.size - 1 && Run(Forced(r, t), Repeated(Read, n)) == Forced(r, t)
  {
    hide Run, Forced, IsLink, Toggles, Plain, Cycle, Cycles, Entries, Links, Data;
    RunKeepsShape(r0, steps);
    var q := RunHolds(r0, [], steps);
    var r := Run(r0, steps);
    ForcedIs(r, t);
    PushExact(r, q, t);
    StuckForever(Forced(r, t), n);
  }

  /** The same TRB pushed k times, with nothing in between. */
  function Pushes(r: Ring, t: TRB, k: nat): Ring {
    if k == 0 then r else Forced(Pushes(r, t, k - 1), t)
  }

  /** Four reads take what is in the consumer's slot if it has the right cycle bit. */
  lemma ReadFour(r: Ring)
    requires r.consumer == Polling && r.readIndex < |r.slots| && Cycle(r.slots[r.readIndex]) == Parity(r.readLap)
    ensures Run(r, Repeated(Read, 4)) == Taken(r, r.slots[r.readIndex])
  {
    hide Taken, Cycle, Parity, Run;
    RunFour(r, Read);
    var slot := r.slots[r.readIndex];
    assert Next(r, Read) == r.(consumer := Fetching(slot, 0));
    assert Next(r.(consumer := Fetching(slot, 0)), Read) == r.(consumer := Fetching(slot, 1));
    assert Next(r.(consumer := Fetching(slot, 1)), Read) == r.(consumer := Fetching(slot, 2));
    assert r.(consumer := Fetching(slot, 2)).(consumer := Polling) == r;
  }

  /** Most of a lap of pushes. */
  lemma {:induction false} PushedAlong(r: Ring, t: TRB, k: nat)
    requires r.linked && r.size == |r.slots| && r.writeIndex == 0 && r.producer == Waiting && k + 1 < r.size
    ensures var u := Pushes(r, t, k);
            && u == r.(pushed := u.pushed, slots := u.slots, writeIndex := k)
            && |u.slots| == r.size && |u.pushed| == |r.pushed| + k && r.pushed <= u.pushed
            && forall j :: 0 <= j < k ==> Cycle(u.slots[j]) == Parity(r.lap)
  {
    hide Forced, Cycle, Parity, Plain, Cycled;
    if k > 0 {
      PushedAlong(r, t, k - 1);
      ForcedIs(Pushes(r, t, k - 1), t);
      CycledIs(t, Parity(r.lap));
    }
  }

  /** A lap of pushes, up to the link and over it. */
  lemma PushedRound(r: Ring, t: TRB)
    requires r.linked && r.size == |r.slots| && r.size >= 3 && r.writeIndex == 0 && r.producer == Waiting
    ensures var u := Pushes(r, t, r.size - 1);
            && u == r.(pushed := u.pushed, slots := u.slots, lap := r.lap + 1)
            && |u.slots| == r.size && |u.pushed| == |r.pushed| + r.size - 1 && r.pushed <= u.pushed
            && Cycle(u.slots[0]) == Parity(r.lap) && u.slots[r.size - 1] == Cycled(r.link, Parity(r.lap))
  {
    hide Forced, Cycle, Parity, Plain, Cycled;
    PushedAlong(r, t, r.size - 2);
    ForcedIs(Pushes(r, t, r.size - 2), t);
    CycledIs(t, Parity(r.lap));
  }

  /** Two laps behind, the consumer finds the cycle bit of the link right again. */
  lemma LinkAgain(r: Ring, t: TRB)
    requires r.linked && r.size == |r.slots| && r.size >= 3 && r.writeIndex == 0 && r.producer == Waiting && r.consumer == Polling
    requires r.readIndex == r.size - 1 && r.lap == r.readLap + 2 && IsLink(r.link) && Toggles(r.link)
    ensures var u := Pushes(r, t, r.size - 1);
            && |u.slots| == r.size && Cycle(u.slots[0]) != Parity(r.readLap + 1)
            && Run(u, Repeated(Read, 4)) == u.(readIndex := 0, readLap := r.readLap + 1)
  {
    hide Forced, Cycle, Run, Pushes, Repeated, IsLink, Toggles, Cycled;
    PushedRound(r, t);
    CycledIs(r.link, Parity(r.lap));
    ReadFour(Pushes(r, t, r.size - 1));
  }

  /** What the one too many costs. Once the producer has gone round the ring again the consumer follows the
      link, a lap late; and what it takes next is what is pushed after that, past the 2 * size - 2 TRBs that
      were outstanding. */
  lemma LapLost(link: TRB, size: nat, t: TRB, t': TRB) returns (steps: seq<Step>)
    requires 3 <= size && IsLink(link) && Toggles(link) && !IsLink(t) && !IsLink(t')
    ensures var r := Run(Fresh(true, link, size), steps);
            var round := Run(Pushes(Forced(r, t), t, size - 1), Repeated(Read, 4));
            var end := Run(Forced(round, t'), Repeated(Read, 4));
            && r.Outstanding() == size - 2 && round.Outstanding() == 2 * size - 2 && round.accepted == r.accepted
            && end.pushed == round.pushed + [Plain(t')] && end.accepted == r.accepted + [Plain(t')]
  {
    hide Run, Forced, IsLink, Toggles, Plain, Holds, Cycle, Cycled, Pushes;
    var r0 := Fresh(true, link, size);
    FreshHolds(true, link, size);
    steps := ParkedRun(link, size, t);
    RunKeepsShape(r0, steps);
    ghost var q := RunHolds(r0, [], steps);
    var r := Run(r0, steps);
    SlotsCount(r, q);
    ForcedIs(r, t);
    LinkAgain(Forced(r, t), t);
    PushedRound(Forced(r, t), t);
    var round := Run(Pushes(Forced(r, t), t, size - 1), Repeated(Read, 4));
    ForcedIs(round, t');
    TakesNew(round, t');
  }

  lemma SlotsCount(r: Ring, q: seq<TRB>)
    requires Holds(r, q)
    ensures |r.slots| == r.size
  {
  }

  lemma TakesNew(r: Ring, t: TRB)
    requires r.linked && r.size == |r.slots| && r.size >= 3 && r.writeIndex == 0 && r.producer == Waiting && r.consumer == Polling
    requires r.readIndex == 0 && Parity(r.lap) == Parity(r.readLap) && !IsLink(t)
    ensures var end := Run(Forced(r, t), Repeated(Read, 4));
            end.pushed == r.pushed + [Plain(t)] && end.accepted == r.accepted + [Plain(t)]
  {
    hide Forced, Cycle, Run, IsLink, Toggles, Cycled, Plain, Parity;
    ForcedIs(r, t);
    CycledIs(t, Parity(r.lap));
    ReadFour(Forced(r, t));
  }

  /** The producer side of a command or transfer ring, in the source's own fields. */
  class ProducerRing {
    const buf: array<TRB>
    const link: TRB
    var cycleBit: bool
    var writeIndex: nat

    /** The fields are those of a ring between two pushes. */
    ghost predicate Mirrors(r: Ring)
      reads this, buf
    {
      && r.linked && r.producer == Waiting && r.link == link && r.size == buf.Length
      && r.slots == buf[..] && r.writeIndex == writeIndex && Parity(r.lap) == cycleBit
    }

    constructor (bufSize: nat, link: TRB)
      requires 2 <= bufSize
      ensures Mirrors(Fresh(true, link, bufSize)) && fresh(buf)
    {
      this.link := link;
      cycleBit, writeIndex := true, 0;
      buf := new TRB[bufSize](_ => TRB(0, 0, 0, 0));
    }

    /** Stores an entry in the current slot, its control word last. */
    method CopyToLast(data: TRB)
      requires writeIndex < buf.Length
      modifies buf
      ensures buf[..] == old(buf[..])[writeIndex := Cycled(data, cycleBit)]
    {
      for i := 0 to 3
        invariant SameWords(buf[writeIndex], data, i) && buf[..] == old(buf[..])[writeIndex := buf[writeIndex]]
      {
        buf[writeIndex] := WithWord(buf[writeIndex], data, i);
      }
      buf[writeIndex] := buf[writeIndex].(d3 := Cycled(data, cycleBit).d3);
    }

    /** A push is the program of single stores the interleavings above are made of. */
    method Push(data: TRB, ghost r: Ring) returns (at: nat)
      requires Mirrors(r) && writeIndex + 1 < buf.Length
      modifies this`writeIndex, this`cycleBit, buf
      ensures at == old(writeIndex) && Mirrors(Forced(r, data)) && writeIndex + 1 < buf.Length
    {
      hide Cycled, Plain, Forced;
      ForcedIs(r, data);
      at := writeIndex;
      CopyToLast(data);
      writeIndex := writeIndex + 1;
      if writeIndex == buf.Length - 1 {
        CopyToLast(link);
        writeIndex := 0;
        cycleBit := !cycleBit;
      }
    }
  }

  /** The consumer side of the event ring, in the source's own fields. */
  class EventRing {
    const buf: array<TRB>
    var cycleBit: bool
    var dequeueIndex: nat

    ghost predicate Mirrors(r: Ring)
      reads this, buf
    {
      && !r.linked && r.consumer == Polling && r.size == buf.Length
      && r.slots == buf[..] && r.readIndex == dequeueIndex && Parity(r.readLap) == cycleBit
    }

    constructor (bufSize: nat, link: TRB)
      requires 2 <= bufSize
      ensures Mirrors(Fresh(false, link, bufSize)) && fresh(buf)
    {
      cycleBit, dequeueIndex := true, 0;
      buf := new TRB[bufSize](_ => TRB(0, 0, 0, 0));
    }

    /** There is an event exactly when one is outstanding. */
    method HasFront(ghost r: Ring, ghost q: seq<TRB>) returns (b: bool)
      requires Mirrors(r) && Holds(r, q)
      ensures b == (q != [])
    {
      hide Holds, Cycle;
      Visible(r, q);
      b := Cycle(buf[dequeueIndex]) == cycleBit;
    }

    method Pop()
      requires dequeueIndex < buf.Length
      modifies this
      ensures dequeueIndex == (if old(dequeueIndex) + 1 == buf.Length then 0 else old(dequeueIndex) + 1)
      ensures cycleBit == if old(dequeueIndex) + 1 == buf.Length then !old(cycleBit) else old(cycleBit)
    {
      var p := dequeueIndex + 1;
      if p == buf.Length {
        p := 0;
        cycleBit := !cycleBit;
      }
      dequeueIndex := p;
    }

    /** Takes the oldest event if there is one: it is handed out once, and the next one is up. */
    method TakeEvent(ghost r: Ring, ghost q: seq<TRB>) returns (event: Option<TRB>)
      requires Mirrors(r) && Holds(r, q)
      modifies this
      ensures event == None <==> q == []
      ensures event.Some? ==> var r' := Run(r, Repeated(Read, 4));
                              Mirrors(r') && Holds(r', q[1..]) && r'.accepted == r.accepted + [Plain(event.value)]
      ensures event == None ==> Mirrors(r)
    {
      hide Holds, Cycle, Run, Plain;
      var has := HasFront(r, q);
      if !has {
        return None;
      }
      Visible(r, q);
      TakeFour(r, q);
      FrontIs(r, q);
      event := Some(buf[dequeueIndex]);
      Pop();
    }
  }

  lemma FrontIs(r: Ring, q: seq<TRB>)
    requires Holds(r, q) && q != []
    ensures r.readIndex < |r.slots| && Plain(r.slots[r.readIndex]) == Plain(q[0])
  {
    hide Cycles, Links, Plain, Data;
    assert SlotOf(r, 0) == r.readIndex;
  }
}
