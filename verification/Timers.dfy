/** kernel/timer.cpp and the timer system call: a queue of timers ordered by timeout, drained at every
    tick of the interrupt. */
module Timers {

  const WORD: nat := 0x1_0000_0000_0000_0000

  /** Timeouts are unsigned 64-bit tick counts; this one stands at the end of the queue for good. */
  const NEVER: nat := WORD - 1

  const TIMER_FREQ: nat := 100

  const TASK_TIMER_PERIOD: nat := 2

  const TASK_TIMER_VALUE: int := 0x7fff_ffff

  /** The task the preemption timer names. */
  const MAIN_TASK: nat := 1

  const EINVAL: nat := 22

  datatype Timer = Timer(timeout: nat, value: int, taskId: nat)

  /** What happened to the timer manager so far. Arm adds the preemption timer. */
  datatype Event = Arm | Add(t: Timer) | Tick

  function TickOf(events: seq<Event>): nat {
    if events == [] then 0 else TickOf(events[..|events| - 1]) + if events[|events| - 1].Tick? then 1 else 0
  }

  /** How many timers t wait. */
  function Pending(events: seq<Event>, t: Timer): nat {
    if events == [] then 0
    else
      var front, e := events[..|events| - 1], events[|events| - 1];
      if e == Add(t) then Pending(front, t) + 1
      else if e.Tick? && t.timeout <= TickOf(events) then 0
      else Pending(front, t)
  }

  /** When the preemption timer is due next, 0 before it was armed. */
  function NextPreemption(events: seq<Event>): nat {
    if events == [] then 0
    else
      var front, e := events[..|events| - 1], events[|events| - 1];
      if e.Arm? then TickOf(front) + TASK_TIMER_PERIOD
      else if e.Tick? && 0 < NextPreemption(front) <= TickOf(events) then TickOf(events) + TASK_TIMER_PERIOD
      else NextPreemption(front)
  }

  /** How many timers t fired at tick n. */
  function Fired(events: seq<Event>, t: Timer, n: nat): nat {
    if events == [] then 0
    else
      var front, e := events[..|events| - 1], events[|events| - 1];
      Fired(front, t, n) + if e.Tick? && TickOf(events) == n && t.timeout <= n then Pending(front, t) else 0
  }

  function Max(a: nat, b: nat): nat {
    if a >= b then a else b
  }

  /** How many timers t were added to be due at tick n: at their timeout, or at the tick after they were
      added if that is later. */
  function AddedFor(events: seq<Event>, t: Timer, n: nat): nat {
    if events == [] then 0
    else
      var front, e := events[..|events| - 1], events[|events| - 1];
      AddedFor(front, t, n) + if e == Add(t) && Max(t.timeout, TickOf(front) + 1) == n then 1 else 0
  }

  /** Timers that wait are due later than the ticks so far, all at one tick. */
  lemma {:induction false} PendingAre(events: seq<Event>, t: Timer, n: nat)
    requires n > TickOf(events)
    ensures AddedFor(events, t, n) == if n == Max(t.timeout, TickOf(events) + 1) then Pending(events, t) else 0
    ensures Fired(events, t, n) == 0
  {
    if events != [] {
      var front := events[..|events| - 1];
      PendingAre(front, t, n);
      if events[|events| - 1].Tick? && t.timeout <= TickOf(events) {
        PendingAre(front, t, TickOf(events));
      }
    }
  }

  /** Each timer fires exactly once, at its timeout or, if that is not later than the tick it was added
      at, at the next tick. */
  lemma {:induction false} FiresOnceWhenDue(events: seq<Event>, t: Timer, n: nat)
    requires n <= TickOf(events)
    ensures Fired(events, t, n) == AddedFor(events, t, n)
  {
    if events != [] {
      var front := events[..|events| - 1];
      if n <= TickOf(front) {
        FiresOnceWhenDue(front, t, n);
      } else {
        PendingAre(front, t, n);
      }
    }
  }

  /** Whether the preemption timer is due at the next tick. */
  predicate Preempts(events: seq<Event>) {
    0 < NextPreemption(events) <= TickOf(events) + 1
  }

  ghost predicate ArmedOnce(events: seq<Event>, a: nat) {
    && a < |events| && events[a] == Arm
    && forall i :: 0 <= i < |events| && events[i] == Arm ==> i == a
  }

  lemma {:induction false} NotArmed(events: seq<Event>)
    requires Arm !in events
    ensures NextPreemption(events) == 0
  {
    if events != [] {
      assert events[|events| - 1] in events;
      NotArmed(events[..|events| - 1]);
    }
  }

  /** Once armed, the timer preempts at every second tick, counted from the one it was armed at. */
  lemma {:induction false} EverySecondTick(events: seq<Event>, a: nat)
    requires ArmedOnce(events, a)
    ensures TickOf(events[..a]) <= TickOf(events)
    ensures Preempts(events) <==> (TickOf(events) + 1 - TickOf(events[..a])) % 2 == 0
    ensures NextPreemption(events) in {TickOf(events) + 1, TickOf(events) + 2}
  {
    var front := events[..|events| - 1];
    if |events| == a + 1 {
      assert front == events[..a];
    } else {
      assert front[..a] == events[..a];
      EverySecondTick(front, a);
      assert events[|events| - 1] != Arm;
    }
  }

  ghost predicate Sorted(ts: seq<Timer>) {
    forall i, j :: 0 <= i < j < |ts| ==> ts[i].timeout <= ts[j].timeout
  }

  /** Part of a drain: out is what came out of the queue was so far, now what is left. */
  ghost predicate Draining(was: multiset<Timer>, now: multiset<Timer>, out: seq<Timer>, tick: nat) {
    && Sorted(out) && (forall i :: 0 <= i < |out| ==> out[i].value < 0 && out[i].timeout <= tick)
    && (forall t: Timer :: t.value < 0 ==> was[t] == now[t] + multiset(out)[t])
    && (forall i, u :: 0 <= i < |out| && u in now ==> out[i].timeout <= u.timeout)
    && (forall t: Timer :: 0 <= t.value != TASK_TIMER_VALUE ==> now[t] == was[t])
  }

  /** The preemption timer among the timers: the one due at next, if it is armed. */
  ghost predicate OnePreemption(timers: multiset<Timer>, next: nat) {
    forall t: Timer :: t.value == TASK_TIMER_VALUE ==>
      timers[t] == if t == Timer(next, TASK_TIMER_VALUE, MAIN_TASK) && next > 0 then 1 else 0
  }

  ghost predicate OnlyEnd(timers: multiset<Timer>) {
    forall t: Timer :: 0 <= t.value != TASK_TIMER_VALUE ==> timers[t] == if t == Timer(NEVER, 0, 0) then 1 else 0
  }

  /** A drain and the timers of the kernel in the queue. */
  ghost predicate Drain(was: multiset<Timer>, now: multiset<Timer>, out: seq<Timer>, tick: nat, due: nat) {
    Draining(was, now, out, tick) && OnePreemption(now, due) && OnlyEnd(now) && Timer(NEVER, 0, 0) in now
  }

  /** A user timer came up. */
  lemma DrainOne(was: multiset<Timer>, now: multiset<Timer>, out: seq<Timer>, tick: nat, due: nat, t: Timer)
    requires Drain(was, now, out, tick, due) && t in now && (forall u :: u in now ==> t.timeout <= u.timeout)
    requires t.value != TASK_TIMER_VALUE && t.timeout <= tick < NEVER
    ensures Drain(was, now - multiset{t}, out + [t], tick, due) && |now - multiset{t}| < |now|
  {
    hide Draining;
    UserTimer(now, t);
    DrainingOne(was, now, out, tick, t);
  }

  lemma UserTimer(now: multiset<Timer>, t: Timer)
    requires OnlyEnd(now) && t in now && t.timeout < NEVER && t.value != TASK_TIMER_VALUE
    ensures t.value < 0
  {
  }

  lemma DrainingOne(was: multiset<Timer>, now: multiset<Timer>, out: seq<Timer>, tick: nat, t: Timer)
    requires Draining(was, now, out, tick) && t in now && (forall u :: u in now ==> t.timeout <= u.timeout)
    requires t.timeout <= tick && t.value < 0
    ensures Draining(was, now - multiset{t}, out + [t], tick)
  {
    hide Sorted;
    var out', now' := out + [t], now - multiset{t};
    SortedMore(out, t);
    assert multiset(out') == multiset(out) + multiset{t};
    forall i, u | 0 <= i < |out'| && u in now'
      ensures out'[i].timeout <= u.timeout
    {
      assert u in now;
    }
  }

  lemma SortedMore(out: seq<Timer>, t: Timer)
    requires Sorted(out) && forall i :: 0 <= i < |out| ==> out[i].timeout <= t.timeout
    ensures Sorted(out + [t])
  {
  }

  /** The preemption timer came up, and is armed again. */
  lemma Rearm(was: multiset<Timer>, now: multiset<Timer>, out: seq<Timer>, tick: nat, due: nat, t: Timer)
    requires Drain(was, now, out, tick, due) && t in now && t.timeout <= tick < NEVER && t.value == TASK_TIMER_VALUE
    ensures var now' := now - multiset{t} + multiset{Timer(tick + TASK_TIMER_PERIOD, TASK_TIMER_VALUE, MAIN_TASK)};
            Drain(was, now', out, tick, tick + TASK_TIMER_PERIOD)
    ensures 0 < due == t.timeout
  {
  }

  lemma DrainStart(timers: multiset<Timer>, tick: nat, due: nat)
    requires OnePreemption(timers, due) && OnlyEnd(timers)
    ensures Drain(timers, timers, [], tick, due)
  {
    assert timers[Timer(NEVER, 0, 0)] == 1;
  }

  lemma DrainNotEmpty(was: multiset<Timer>, now: multiset<Timer>, out: seq<Timer>, tick: nat, due: nat)
    requires Drain(was, now, out, tick, due)
    ensures now != multiset{}
  {
  }

  lemma {:induction false} Earliest(timers: multiset<Timer>) returns (t: Timer)
    requires timers != multiset{}
    ensures t in timers && forall u :: u in timers ==> t.timeout <= u.timeout
    decreases |timers|
  {
    var s :| s in timers;
    var rest := timers - multiset{s};
    t := s;
    if rest != multiset{} {
      var u := Earliest(rest);
      if u.timeout < s.timeout {
        t := u;
      }
    }
    forall u | u in timers
      ensures t.timeout <= u.timeout
    {
      if u != s {
        assert rest[u] == timers[u];
      }
    }
  }

  /** An unsigned long. */
  function Wrapped(n: nat): nat {
    n % WORD
  }

  /** Milliseconds in ticks, as the code computes them. */
  function Ticks(ms: nat): nat {
    Wrapped(ms * TIMER_FREQ) / 1000
  }

  /** Ticks in milliseconds. */
  function Milliseconds(ticks: nat): nat {
    Wrapped(ticks * 1000) / TIMER_FREQ
  }

  /** When a timer is due that was asked for at a tick. */
  function Deadline(ms: nat, since: nat): nat {
    Wrapped(Ticks(ms) + since)
  }

  lemma DeadlineIs(ms: nat, since: nat)
    ensures Deadline(ms, since) == Wrapped(Ticks(ms) + since) && Deadline(ms, 0) == Wrapped(Ticks(ms))
  {
    hide Wrapped, Ticks;
  }

  class TimerManager {
    var tick: nat
    var timers: multiset<Timer>
    ghost var events: seq<Event>

    /** The queue holds the waiting user timers, one preemption timer once it is armed, and the timer at
        the end of time. */
    ghost predicate Valid()
      reads this
    {
      && tick == TickOf(events)
      && (forall t: Timer :: t.value < 0 ==> timers[t] == Pending(events, t))
      && OnePreemption(timers, NextPreemption(events))
      && OnlyEnd(timers)
    }

    lemma Parts()
      requires Valid()
      ensures tick == TickOf(events) && OnePreemption(timers, NextPreemption(events)) && OnlyEnd(timers)
      ensures forall t: Timer :: t.value < 0 ==> timers[t] == Pending(events, t)
    {
    }

    lemma Whole()
      requires tick == TickOf(events) && OnePreemption(timers, NextPreemption(events)) && OnlyEnd(timers)
      requires forall t: Timer :: t.value < 0 ==> timers[t] == Pending(events, t)
      ensures Valid()
    {
    }

    constructor ()
      ensures Valid() && tick == 0 && events == []
    {
      tick, timers, events := 0, multiset{Timer(NEVER, 0, 0)}, [];
    }

    method AddTimer(t: Timer)
      modifies this`timers
      ensures timers == old(timers) + multiset{t}
    {
      timers := timers + multiset{t};
    }

    /** The system call: user timers have negative values. Times are in milliseconds, and the word
        arithmetic wraps. */
    method CreateTimer(mode: nat, timerValue: int, ms: nat, taskId: nat) returns (r: nat, errno: nat)
      requires Valid() && -0x8000_0000 <= timerValue <= 0x7fff_ffff
      modifies this
      ensures Valid() && tick == old(tick)
      ensures timerValue <= 0 ==> errno == EINVAL && events == old(events)
      ensures timerValue > 0 ==>
                var timeout := Deadline(ms, if mode % 2 == 1 then old(tick) else 0);
                && errno == 0 && r == Milliseconds(timeout)
                && events == old(events) + [Add(Timer(timeout, -timerValue, taskId))]
    {
      hide Deadline, Milliseconds, Ticks, Wrapped, Pending, OnePreemption, OnlyEnd, NextPreemption, TickOf, TimerManager.Valid;
      if timerValue <= 0 {
        return 0, EINVAL;
      }
      var timeout := Ticks(ms);
      if mode % 2 == 1 {
        timeout := timeout + tick;
      }
      timeout := Wrapped(timeout);
      DeadlineIs(ms, tick);
      Parts();
      AddedCounts(events, timers, Timer(timeout, -timerValue, taskId));
      AddTimer(Timer(timeout, -timerValue, taskId));
      events := events + [Add(Timer(timeout, -timerValue, taskId))];
      Whole();
      return Milliseconds(timeout), 0;
    }

    /** The kernel arms the preemption timer once. */
    method ArmTaskTimer()
      requires Valid() && Arm !in events
      modifies this
      ensures Valid() && tick == old(tick) && events == old(events) + [Arm]
    {
      NotArmed(events);
      AddTimer(Timer(tick + TASK_TIMER_PERIOD, TASK_TIMER_VALUE, MAIN_TASK));
      EventMore(events, Arm);
      events := events + [Arm];
    }

    /** One tick: out is what is sent to the tasks, in this order. */
    method Tick() returns (taskTimerTimeout: bool, out: seq<Timer>)
      requires Valid() && tick + 1 < NEVER
      modifies this
      ensures Valid() && events == old(events) + [Event.Tick] && tick == old(tick) + 1
      ensures taskTimerTimeout == Preempts(old(events))
      ensures Sorted(out) && forall i :: 0 <= i < |out| ==> out[i].value < 0
      ensures forall t: Timer :: t.value < 0 ==> multiset(out)[t] == Fired(events, t, tick)
      ensures forall t: Timer :: t in timers ==> t.timeout > tick
    {
      hide Drain, OnePreemption, OnlyEnd, Pending, Fired, NextPreemption, TickOf, Sorted, TimerManager.Valid;
      Parts();
      ghost var was, was0 := timers, events;
      ghost var next: nat := NextPreemption(was0);
      EventMore(was0, Event.Tick);
      TickMore(was0);
      DrainStart(was, tick + 1, next);
      tick := tick + 1;
      events := events + [Event.Tick];
      ghost var due;
      taskTimerTimeout, out, due := DrainQueue(was, next);
      AllDrained(was0, was, timers, out, due, taskTimerTimeout);
      Whole();
    }

    /** The loop of Tick: takes out what is due, and arms the preemption timer again if it was among it. */
    method DrainQueue(ghost was: multiset<Timer>, ghost next: nat) returns (timedOut: bool, out: seq<Timer>, ghost due: nat)
      requires Drain(was, timers, [], tick, next) && tick < NEVER
      modifies this`timers
      ensures Drain(was, timers, out, tick, due) && forall t: Timer :: t in timers ==> t.timeout > tick
      ensures due == if timedOut then tick + TASK_TIMER_PERIOD else next
      ensures timedOut ==> 0 < next <= tick
    {
      hide Drain, TimerManager.Valid;
      due := next;
      timedOut, out := false, [];
      while true
        invariant Drain(was, timers, out, tick, due)
        invariant due == if timedOut then tick + TASK_TIMER_PERIOD else next
        invariant timedOut ==> 0 < next <= tick
        decreases !timedOut, |timers|
      {
        DrainNotEmpty(was, timers, out, tick, due);
        var t := Top();
        if t.timeout > tick {
          break;
        }
        if t.value == TASK_TIMER_VALUE {
          Rearm(was, timers, out, tick, due, t);
          timedOut := true;
          due := tick + TASK_TIMER_PERIOD;
          timers := timers - multiset{t} + multiset{Timer(tick + TASK_TIMER_PERIOD, TASK_TIMER_VALUE, MAIN_TASK)};
          continue;
        }
        DrainOne(was, timers, out, tick, due, t);
        out := out + [t];
        timers := timers - multiset{t};
      }
    }

    /** A timer with the least timeout; which one of several is up to the heap. */
    method Top() returns (t: Timer)
      requires timers != multiset{}
      ensures t in timers && forall u :: u in timers ==> t.timeout <= u.timeout
    {
      ghost var first := Earliest(timers);
      t :| t in timers && forall u :: u in timers ==> t.timeout <= u.timeout;
    }
  }

  /** A user timer more, in the history and in the queue. */
  lemma AddedCounts(events: seq<Event>, timers: multiset<Timer>, t: Timer)
    requires OnePreemption(timers, NextPreemption(events)) && OnlyEnd(timers) && t.value < 0
    requires forall u: Timer :: u.value < 0 ==> timers[u] == Pending(events, u)
    ensures TickOf(events + [Add(t)]) == TickOf(events)
    ensures OnePreemption(timers + multiset{t}, NextPreemption(events + [Add(t)])) && OnlyEnd(timers + multiset{t})
    ensures forall u: Timer :: u.value < 0 ==> (timers + multiset{t})[u] == Pending(events + [Add(t)], u)
  {
    EventMore(events, Add(t));
  }

  lemma TickMore(events: seq<Event>)
    ensures TickOf(events + [Tick]) == TickOf(events) + 1
  {
    EventMore(events, Tick);
  }

  /** What a tick that is done leaves and has sent. */
  lemma AllDrained(events: seq<Event>, was: multiset<Timer>, now: multiset<Timer>, out: seq<Timer>, due: nat, timedOut: bool)
    requires Drain(was, now, out, TickOf(events) + 1, due) && forall t :: t in now ==> t.timeout > TickOf(events) + 1
    requires due == if timedOut then TickOf(events) + 1 + TASK_TIMER_PERIOD else NextPreemption(events)
    requires timedOut ==> 0 < NextPreemption(events) <= TickOf(events) + 1
    requires forall t: Timer :: t.value < 0 ==> was[t] == Pending(events, t)
    ensures Sorted(out) && (forall i :: 0 <= i < |out| ==> out[i].value < 0) && OnlyEnd(now)
    ensures forall t: Timer :: t.value < 0 ==> multiset(out)[t] == Fired(events + [Tick], t, TickOf(events) + 1)
    ensures forall t: Timer :: t.value < 0 ==> now[t] == Pending(events + [Tick], t)
    ensures OnePreemption(now, NextPreemption(events + [Tick]))
    ensures timedOut == (0 < NextPreemption(events) <= TickOf(events) + 1)
  {
    hide OnlyEnd;
    EventMore(events, Tick);
    forall t: Timer | t.value < 0
      ensures multiset(out)[t] == Fired(events + [Tick], t, TickOf(events) + 1) && now[t] == Pending(events + [Tick], t)
    {
      PendingAre(events, t, TickOf(events) + 1);
      assert t in multiset(out) <==> t in out;
      assert t.timeout <= TickOf(events) + 1 ==> t !in now;
    }
    PreemptionNow(events, now, timedOut);
  }

  /** What the state of the preemption timer says about the tick that ends, and about the next one. */
  lemma PreemptionNow(events: seq<Event>, now: multiset<Timer>, timedOut: bool)
    requires var tick, next := TickOf(events) + 1, NextPreemption(events);
             && OnePreemption(now, if timedOut then tick + TASK_TIMER_PERIOD else next)
             && (timedOut ==> 0 < next <= tick) && forall t :: t in now ==> t.timeout > tick
    ensures OnePreemption(now, NextPreemption(events + [Tick]))
    ensures timedOut == (0 < NextPreemption(events) <= TickOf(events) + 1)
  {
    EventMore(events, Tick);
    var next := NextPreemption(events);
    if !timedOut && next > 0 {
      assert now[Timer(next, TASK_TIMER_VALUE, MAIN_TASK)] == 1;
    }
  }

  lemma EventMore(events: seq<Event>, e: Event)
    ensures (events + [e])[..|events|] == events && (events + [e])[|events|] == e
  {
  }
}
