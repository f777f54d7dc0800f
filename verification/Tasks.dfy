/** kernel/task.cpp: tasks, their run queues by level, their mailboxes, and what each operation of the
    task manager makes of them. */
module Tasks {
  import opened Options

  const MAX_LEVEL: nat := 3

  const DEFAULT_LEVEL: nat := 1

  /** The second task ever made; it runs at level 0 and never sleeps, finishes or changes level. */
  const IDLE: nat := 2

  type TaskId = nat

  datatype Message = Message(src: TaskId, retryError: bool, content: nat)

  datatype Task = Task(level: nat, running: bool, msgs: seq<Message>)

  /** The task manager's fields. Levels run from 0 to MAX_LEVEL; the task at the head of the queue of
      the current level is the current task. */
  datatype Sched = Sched(
    tasks: map<TaskId, Task>, latestId: TaskId, queues: seq<seq<TaskId>>, level: nat, levelChanged: bool,
    finished: map<TaskId, int>, waiters: map<TaskId, TaskId>)
  {
    ghost predicate Shaped() {
      |queues| == MAX_LEVEL + 1 && level <= MAX_LEVEL && queues[level] != []
    }

    ghost function Current(): TaskId
      requires Shaped()
    {
      queues[level][0]
    }
  }

  ghost predicate NoDuplicates(q: seq<TaskId>) {
    forall i, j :: 0 <= i < j < |q| ==> q[i] != q[j]
  }

  /** A task is marked running exactly when it is in a queue, and then it is in the queue of its level,
      once; the current queue is not empty; and no queue above the current level holds a task unless a
      level change is pending. */
  ghost predicate Inv(s: Sched) {
    && s.Shaped() && Queued(s.tasks, s.queues) && s.latestId >= IDLE
    && (s.levelChanged || NothingAbove(s.queues, s.level))
    && IDLE in s.tasks && s.tasks[IDLE].running && s.tasks[IDLE].level == 0
    && (forall t :: t in s.tasks ==> t <= s.latestId)
    && (forall t :: t in s.waiters ==> s.waiters[t] in s.tasks)
  }

  ghost predicate NothingAbove(queues: seq<seq<TaskId>>, level: nat) {
    forall lv :: level < lv < |queues| ==> queues[lv] == []
  }

  ghost predicate Queued(tasks: map<TaskId, Task>, queues: seq<seq<TaskId>>) {
    && |queues| == MAX_LEVEL + 1
    && (forall t :: t in tasks ==> tasks[t].level <= MAX_LEVEL)
    && (forall lv :: 0 <= lv <= MAX_LEVEL ==> NoDuplicates(queues[lv]))
    && (forall lv, t :: 0 <= lv <= MAX_LEVEL && t in queues[lv] ==> t in tasks && tasks[t].running && tasks[t].level == lv)
    && (forall t :: t in tasks && tasks[t].running ==> t in queues[tasks[t].level])
  }

  /** The queue without a task, the order of the others kept. */
  function Erased(q: seq<TaskId>, t: TaskId): (r: seq<TaskId>)
    ensures t !in r && (forall x :: x in r <==> x in q && x != t) && |r| <= |q|
  {
    if q == [] then []
    else if q[|q| - 1] == t then Erased(q[..|q| - 1], t)
    else Erased(q[..|q| - 1], t) + [q[|q| - 1]]
  }

  lemma {:induction false} ErasedNoDuplicates(q: seq<TaskId>, t: TaskId)
    requires NoDuplicates(q)
    ensures NoDuplicates(Erased(q, t))
  {
    if q != [] {
      var front := q[..|q| - 1];
      ErasedNoDuplicates(front, t);
      assert q[|q| - 1] !in front;
    }
  }

  /** The highest level with a task, from level lv down; the current one if there is none. */
  function Top(queues: seq<seq<TaskId>>, lv: int, current: nat): (r: nat)
    requires lv < |queues|
    ensures lv < 0 ==> r == current
    ensures (exists l :: 0 <= l <= lv && queues[l] != []) ==>
              r <= lv && queues[r] != [] && forall l :: r < l <= lv ==> queues[l] == []
    decreases lv + 1
  {
    if lv < 0 then current else if queues[lv] != [] then lv else Top(queues, lv - 1, current)
  }

  /** A scheduling point: the current task goes to the back of its queue or, going to sleep, leaves it. */
  function Rotated(s: Sched, sleep: bool): Sched
    requires s.level < |s.queues| && s.queues[s.level] != []
  {
    var q := s.queues[s.level];
    var q' := if sleep then q[1..] else q[1..] + [q[0]];
    var queues := s.queues[s.level := q'];
    if s.levelChanged || q' == [] then s.(queues := queues, levelChanged := false, level := Top(queues, |queues| - 1, s.level))
    else s.(queues := queues)
  }

  function Marked(s: Sched, t: TaskId, running: bool): Sched
    requires t in s.tasks
  {
    s.(tasks := s.tasks[t := s.tasks[t].(running := running)])
  }

  function Slept(s: Sched, t: TaskId): Sched
    requires t in s.tasks && s.level < |s.queues| && s.queues[s.level] != [] && s.tasks[t].level < |s.queues|
  {
    if !s.tasks[t].running then s
    else if t == s.queues[s.level][0] then Rotated(Marked(s, t, false), true)
    else
      var lv := s.tasks[t].level;
      Marked(s, t, false).(queues := s.queues[lv := Erased(s.queues[lv], t)])
  }

  /** level < 0 asks for the task's own level. */
  function Woken(s: Sched, t: TaskId, level: int): Sched
    requires t in s.tasks && s.level < |s.queues| && s.queues[s.level] != [] && s.tasks[t].level < |s.queues|
    requires level < |s.queues|
  {
    if s.tasks[t].running then Releveled(s, t, level)
    else
      var lv := if level < 0 then s.tasks[t].level else level;
      s.(tasks := s.tasks[t := s.tasks[t].(level := lv, running := true)],
         queues := s.queues[lv := s.queues[lv] + [t]],
         levelChanged := s.levelChanged || lv > s.level)
  }

  function Releveled(s: Sched, t: TaskId, level: int): Sched
    requires t in s.tasks && s.level < |s.queues| && s.queues[s.level] != [] && s.tasks[t].level < |s.queues|
    requires level < |s.queues|
  {
    if level < 0 || level == s.tasks[t].level then s
    else
      var tasks := s.tasks[t := s.tasks[t].(level := level)];
      if t != s.queues[s.level][0] then
        var lv := s.tasks[t].level;
        var queues := s.queues[lv := Erased(s.queues[lv], t)];
        s.(tasks := tasks, queues := queues[level := queues[level] + [t]], levelChanged := s.levelChanged || level > s.level)
      else
        var queues := s.queues[s.level := s.queues[s.level][1..]];
        s.(tasks := tasks, queues := queues[level := [t] + queues[level]], level := level,
           levelChanged := s.levelChanged || level < s.level)
  }

  function Spawned(s: Sched): Sched {
    s.(latestId := s.latestId + 1, tasks := s.tasks[s.latestId + 1 := Task(DEFAULT_LEVEL, false, [])])
  }

  /** The current task is gone, its exit code kept. */
  function Gone(s: Sched, exitCode: int): Sched
    requires s.level < |s.queues| && s.queues[s.level] != []
  {
    var t := s.queues[s.level][0];
    Rotated(s, true).(tasks := s.tasks - {t}, finished := s.finished[t := exitCode], waiters := s.waiters - {t})
  }

  /** The task that waits for it, if any, wakes up. */
  function Ended(s: Sched, exitCode: int): Sched
    requires s.level < |s.queues| && s.queues[s.level] != []
    requires Rotated(s, true).Shaped() && forall t :: t in s.tasks ==> s.tasks[t].level < |s.queues|
    requires forall t :: t in s.waiters ==> s.waiters[t] in s.tasks && s.waiters[t] != s.queues[s.level][0]
  {
    var t := s.queues[s.level][0];
    if t in s.waiters then Woken(Gone(s, exitCode), s.waiters[t], -1) else Gone(s, exitCode)
  }

  /** Waiting for a task: its exit code if it finished, else the current task registers and sleeps. */
  function Awaited(s: Sched, t: TaskId): Sched
    requires s.level < |s.queues| && s.queues[s.level] != []
    requires s.queues[s.level][0] in s.tasks && s.tasks[s.queues[s.level][0]].level < |s.queues|
  {
    if t in s.finished then s.(finished := s.finished - {t})
    else Slept(s.(waiters := s.waiters[t := s.queues[s.level][0]]), s.queues[s.level][0])
  }

  function Sent(s: Sched, t: TaskId, m: Message): Sched
    requires s.level < |s.queues| && s.queues[s.level] != []
    requires t in s.tasks ==> s.tasks[t].level < |s.queues|
  {
    if t !in s.tasks then s
    else Woken(s.(tasks := s.tasks[t := s.tasks[t].(msgs := s.tasks[t].msgs + [m])]), t, -1)
  }

  /** The queue q' is q with its tasks in another order, without t, or with t. */
  ghost predicate Reordered(q: seq<TaskId>, q': seq<TaskId>) {
    NoDuplicates(q') && forall x :: x in q' <==> x in q
  }

  ghost predicate Without(q: seq<TaskId>, q': seq<TaskId>, t: TaskId) {
    NoDuplicates(q') && forall x :: x in q' <==> x in q && x != t
  }

  ghost predicate With(q: seq<TaskId>, q': seq<TaskId>, t: TaskId) {
    NoDuplicates(q') && forall x :: x in q' <==> x in q || x == t
  }

  lemma QueuedReorder(tasks: map<TaskId, Task>, queues: seq<seq<TaskId>>, lv: nat, q': seq<TaskId>)
    requires Queued(tasks, queues) && lv <= MAX_LEVEL && Reordered(queues[lv], q')
    ensures Queued(tasks, queues[lv := q'])
  {
    hide NoDuplicates;
  }

  lemma QueuedRemove(tasks: map<TaskId, Task>, queues: seq<seq<TaskId>>, t: TaskId, q': seq<TaskId>)
    requires Queued(tasks, queues) && t in tasks && tasks[t].running && Without(queues[tasks[t].level], q', t)
    ensures Queued(tasks[t := tasks[t].(running := false)], queues[tasks[t].level := q'])
  {
    hide NoDuplicates;
  }

  lemma QueuedAdd(tasks: map<TaskId, Task>, queues: seq<seq<TaskId>>, t: TaskId, lv: nat, q': seq<TaskId>)
    requires Queued(tasks, queues) && t in tasks && !tasks[t].running && lv <= MAX_LEVEL && With(queues[lv], q', t)
    ensures Queued(tasks[t := tasks[t].(level := lv, running := true)], queues[lv := q'])
  {
    hide NoDuplicates;
  }

  lemma HeadAndTail(q: seq<TaskId>)
    requires NoDuplicates(q) && q != []
    ensures Reordered(q, q[1..] + [q[0]]) && Without(q, q[1..], q[0])
  {
  }

  lemma NewEnds(q: seq<TaskId>, t: TaskId)
    requires NoDuplicates(q) && t !in q
    ensures With(q, q + [t], t) && With(q, [t] + q, t)
  {
  }

  lemma ErasedIs(q: seq<TaskId>, t: TaskId)
    requires NoDuplicates(q)
    ensures Without(q, Erased(q, t), t)
  {
    ErasedNoDuplicates(q, t);
  }

  lemma QueueOf(s: Sched, lv: nat)
    requires Inv(s) && lv <= MAX_LEVEL
    ensures NoDuplicates(s.queues[lv]) && forall t :: t in s.queues[lv] ==> t in s.tasks && s.tasks[t].running && s.tasks[t].level == lv
  {
  }

  lemma QueueFor(s: Sched, t: TaskId)
    requires Inv(s) && t in s.tasks
    ensures s.tasks[t].level <= MAX_LEVEL && (s.tasks[t].running ==> t in s.queues[s.tasks[t].level])
    ensures !s.tasks[t].running ==> forall lv :: 0 <= lv <= MAX_LEVEL ==> t !in s.queues[lv]
  {
  }

  /** After a scheduling point the current level is the highest one with a task. */
  lemma RotatedQueues(s: Sched, sleep: bool)
    requires s.Shaped() && IDLE in s.queues[0] && (sleep ==> s.queues[s.level][0] != IDLE)
    requires s.levelChanged || NothingAbove(s.queues, s.level)
    ensures var r := Rotated(s, sleep);
            var q := s.queues[s.level];
            && r.queues == s.queues[s.level := if sleep then q[1..] else q[1..] + [q[0]]]
            && r.Shaped() && !r.levelChanged && NothingAbove(r.queues, r.level)
            && r == s.(queues := r.queues, level := r.level, levelChanged := r.levelChanged)
  {
    var q := s.queues[s.level];
    var q' := if sleep then q[1..] else q[1..] + [q[0]];
    assert q == [q[0]] + q[1..];
    assert IDLE in s.queues[s.level := q'][0];
  }

  lemma RotatedKeeps(s: Sched)
    requires Inv(s)
    ensures Inv(Rotated(s, false)) && !Rotated(s, false).levelChanged
    ensures NothingAbove(Rotated(s, false).queues, Rotated(s, false).level)
  {
    hide Rotated, Queued, NoDuplicates, NothingAbove, Reordered;
    QueueFor(s, IDLE);
    RotatedQueues(s, false);
    QueueOf(s, s.level);
    HeadAndTail(s.queues[s.level]);
    QueuedReorder(s.tasks, s.queues, s.level, s.queues[s.level][1..] + [s.Current()]);
  }

  lemma SleptKeeps(s: Sched, t: TaskId)
    requires Inv(s) && t in s.tasks && t != IDLE
    ensures Inv(Slept(s, t))
  {
    hide Rotated, Queued, NoDuplicates, NothingAbove, Without, Erased;
    QueueFor(s, IDLE);
    QueueFor(s, t);
    if s.tasks[t].running {
      var lv := s.tasks[t].level;
      QueueOf(s, s.level);
      QueueOf(s, lv);
      if t == s.Current() {
        RotatedQueues(Marked(s, t, false), true);
        HeadAndTail(s.queues[s.level]);
        QueuedRemove(s.tasks, s.queues, t, s.queues[s.level][1..]);
      } else {
        ErasedIs(s.queues[lv], t);
        QueuedRemove(s.tasks, s.queues, t, Erased(s.queues[lv], t));
        ErasedShape(s, t);
      }
    }
  }

  /** Taking a task that is not the current one out of its queue. */
  lemma ErasedShape(s: Sched, t: TaskId)
    requires s.Shaped() && t != s.Current() && t in s.tasks && s.tasks[t].level <= MAX_LEVEL
    ensures var queues := s.queues[s.tasks[t].level := Erased(s.queues[s.tasks[t].level], t)];
            && queues[s.level] != [] && (NothingAbove(s.queues, s.level) ==> NothingAbove(queues, s.level))
  {
    assert s.Current() in s.queues[s.level];
  }

  lemma ReleveledKeeps(s: Sched, t: TaskId, level: int)
    requires Inv(s) && t in s.tasks && s.tasks[t].running && level <= MAX_LEVEL && t != IDLE
    ensures Inv(Releveled(s, t, level))
  {
    hide Queued, NoDuplicates, Without, With, Erased;
    QueueFor(s, t);
    QueueOf(s, s.level);
    if level >= 0 && level != s.tasks[t].level {
      var lv := s.tasks[t].level;
      QueueOf(s, lv);
      QueueOf(s, level);
      NewEnds(s.queues[level], t);
      var stopped := s.tasks[t := s.tasks[t].(running := false)];
      assert stopped[t := stopped[t].(level := level, running := true)] == s.tasks[t := s.tasks[t].(level := level)];
      if t != s.Current() {
        ErasedIs(s.queues[lv], t);
        ErasedShape(s, t);
        QueuedRemove(s.tasks, s.queues, t, Erased(s.queues[lv], t));
        QueuedAdd(stopped, s.queues[lv := Erased(s.queues[lv], t)], t, level, s.queues[level] + [t]);
      } else {
        HeadAndTail(s.queues[lv]);
        QueuedRemove(s.tasks, s.queues, t, s.queues[lv][1..]);
        QueuedAdd(stopped, s.queues[lv := s.queues[lv][1..]], t, level, [t] + s.queues[level]);
      }
    }
  }

  lemma WokenKeeps(s: Sched, t: TaskId, level: int)
    requires Inv(s) && t in s.tasks && level <= MAX_LEVEL && (t == IDLE ==> level <= 0)
    ensures Inv(Woken(s, t, level))
  {
    hide Queued, NoDuplicates, With, Releveled;
    QueueFor(s, t);
    if s.tasks[t].running {
      if t == IDLE {
        ReleveledSame(s, t, level);
      } else {
        ReleveledKeeps(s, t, level);
      }
    } else {
      var lv := if level < 0 then s.tasks[t].level else level;
      QueueOf(s, lv);
      NewEnds(s.queues[lv], t);
      QueuedAdd(s.tasks, s.queues, t, lv, s.queues[lv] + [t]);
    }
  }

  lemma ReleveledSame(s: Sched, t: TaskId, level: int)
    requires Inv(s) && t in s.tasks && level <= MAX_LEVEL && (level < 0 || level == s.tasks[t].level)
    ensures Releveled(s, t, level) == s
  {
    hide Queued, NothingAbove;
    QueueFor(s, t);
  }

  lemma SpawnedKeeps(s: Sched)
    requires Inv(s)
    ensures Inv(Spawned(s)) && s.latestId + 1 !in s.tasks
  {
  }

  /** A task may finish unless it is the idle task or another one's finish waits on it. */
  ghost predicate MayEnd(s: Sched) {
    && s.Shaped() && s.Current() != IDLE
    && forall t :: t in s.waiters ==> s.waiters[t] != s.Current()
  }

  lemma GoneKeeps(s: Sched, exitCode: int)
    requires Inv(s) && MayEnd(s)
    ensures Rotated(s, true).Shaped() && Inv(Gone(s, exitCode)) && s.Current() !in Gone(s, exitCode).tasks
  {
    hide Rotated, Queued, NoDuplicates, NothingAbove, Without;
    var t := s.Current();
    QueueFor(s, IDLE);
    QueueOf(s, s.level);
    RotatedQueues(s, true);
    HeadAndTail(s.queues[s.level]);
    QueuedRemove(s.tasks, s.queues, t, s.queues[s.level][1..]);
    var stopped := s.tasks[t := s.tasks[t].(running := false)];
    QueuedDrop(stopped, Rotated(s, true).queues, t);
    assert stopped - {t} == s.tasks - {t};
  }

  lemma EndedKeeps(s: Sched, exitCode: int)
    requires Inv(s) && MayEnd(s)
    ensures Rotated(s, true).Shaped() && Inv(Ended(s, exitCode)) && s.Current() !in Ended(s, exitCode).tasks
    ensures forall lv :: 0 <= lv <= MAX_LEVEL ==> s.Current() !in Ended(s, exitCode).queues[lv]
  {
    hide Rotated, Woken, Queued, NothingAbove, Gone;
    var t := s.Current();
    GoneKeeps(s, exitCode);
    GoneTasks(s, exitCode);
    LevelsInRange(s);
    if t in s.waiters {
      WokenKeeps(Gone(s, exitCode), s.waiters[t], -1);
      WokenTasks(Gone(s, exitCode), s.waiters[t], -1);
    }
    NotQueued(Ended(s, exitCode), t);
  }

  lemma GoneTasks(s: Sched, exitCode: int)
    requires s.level < |s.queues| && s.queues[s.level] != []
    ensures Gone(s, exitCode).tasks == s.tasks - {s.queues[s.level][0]}
  {
  }

  lemma QueuedDrop(tasks: map<TaskId, Task>, queues: seq<seq<TaskId>>, t: TaskId)
    requires Queued(tasks, queues) && t in tasks && !tasks[t].running
    ensures Queued(tasks - {t}, queues)
  {
    hide NoDuplicates;
  }

  lemma NotQueued(s: Sched, t: TaskId)
    requires Inv(s) && t !in s.tasks
    ensures forall lv :: 0 <= lv <= MAX_LEVEL ==> t !in s.queues[lv]
  {
  }

  lemma WokenTasks(s: Sched, t: TaskId, level: int)
    requires Inv(s) && t in s.tasks && level <= MAX_LEVEL
    ensures Woken(s, t, level).tasks.Keys == s.tasks.Keys
  {
    hide Queued;
    QueueFor(s, t);
  }

  lemma LevelsInRange(s: Sched)
    requires Inv(s)
    ensures forall t :: t in s.tasks ==> s.tasks[t].level < |s.queues|
  {
  }

  lemma AwaitedKeeps(s: Sched, t: TaskId)
    requires Inv(s) && s.Current() != IDLE
    ensures Inv(Awaited(s, t))
  {
    hide Slept, Queued, NothingAbove;
    QueueOf(s, s.level);
    QueueFor(s, s.Current());
    if t !in s.finished {
      var r := s.(waiters := s.waiters[t := s.Current()]);
      assert Inv(r);
      SleptKeeps(r, s.Current());
    }
  }

  lemma SentKeeps(s: Sched, t: TaskId, m: Message)
    requires Inv(s)
    ensures Inv(Sent(s, t, m))
  {
    hide Woken, Queued, NothingAbove;
    if t in s.tasks {
      var r := s.(tasks := s.tasks[t := s.tasks[t].(msgs := s.tasks[t].msgs + [m])]);
      QueuedMessages(s.tasks, s.queues, t, s.tasks[t].msgs + [m]);
      WokenKeeps(r, t, -1);
    }
  }

  lemma QueuedMessages(tasks: map<TaskId, Task>, queues: seq<seq<TaskId>>, t: TaskId, msgs: seq<Message>)
    requires Queued(tasks, queues) && t in tasks
    ensures Queued(tasks[t := tasks[t].(msgs := msgs)], queues)
  {
    hide NoDuplicates;
  }

  /** How often a task occurs in the queues from level lv on. */
  ghost function Occurrences(queues: seq<seq<TaskId>>, t: TaskId, lv: nat): nat
    decreases |queues| - lv
  {
    if lv >= |queues| then 0 else multiset(queues[lv])[t] + Occurrences(queues, t, lv + 1)
  }

  lemma {:induction false} NoDuplicatesCount(q: seq<TaskId>, t: TaskId)
    requires NoDuplicates(q)
    ensures multiset(q)[t] == if t in q then 1 else 0
  {
    if q != [] {
      var front := q[..|q| - 1];
      NoDuplicatesCount(front, t);
      assert q == front + [q[|q| - 1]];
      assert q[|q| - 1] !in front;
    }
  }

  lemma {:induction false} OccurrencesFrom(s: Sched, t: TaskId, lv: nat)
    requires Inv(s) && lv <= MAX_LEVEL + 1
    ensures Occurrences(s.queues, t, lv) == if t in s.tasks && s.tasks[t].running && s.tasks[t].level >= lv then 1 else 0
    decreases MAX_LEVEL + 1 - lv
  {
    if lv <= MAX_LEVEL {
      OccurrencesFrom(s, t, lv + 1);
      NoDuplicatesCount(s.queues[lv], t);
    }
  }

  /** A task is runnable exactly when it occurs once in all the queues together, and no task occurs
      more often. */
  lemma RunningOnce(s: Sched, t: TaskId)
    requires Inv(s)
    ensures Occurrences(s.queues, t, 0) == 1 <==> t in s.tasks && s.tasks[t].running
    ensures Occurrences(s.queues, t, 0) <= 1
  {
    OccurrencesFrom(s, t, 0);
  }

  /** What happens to the task manager, one step at a time. Receive is one round of the loop of a
      receive call of the current task: it takes a message, or sleeps when there is none. */
  datatype Event =
    | Switch | Sleep(t: TaskId) | Wake(t: TaskId, level: int) | Spawn | End(exitCode: int) | Await(t: TaskId)
    | Send(t: TaskId, m: Message) | Receive

  /** The state after the constructor: a first task at the highest level, and the idle task. */
  function Initial(): Sched {
    Sched(map[1 := Task(MAX_LEVEL, true, []), IDLE := Task(0, true, [])], IDLE, [[IDLE], [], [], [1]], MAX_LEVEL, false,
          map[], map[])
  }

  ghost predicate MaySleep(s: Sched, t: TaskId) {
    s.Shaped() && t in s.tasks && t != IDLE
  }

  function Received(s: Sched): Sched
    requires s.level < |s.queues| && s.queues[s.level] != []
    requires s.queues[s.level][0] in s.tasks && s.tasks[s.queues[s.level][0]].level < |s.queues|
  {
    var t := s.queues[s.level][0];
    if s.tasks[t].msgs == [] then Slept(s, t) else s.(tasks := s.tasks[t := s.tasks[t].(msgs := s.tasks[t].msgs[1..])])
  }

  /** A step that the source never takes, or that its callers rule out, does nothing. */
  ghost function Next(s: Sched, e: Event): Sched
    requires Inv(s)
  {
    LevelsInRange(s);
    QueueOf(s, s.level);
    match e
    case Switch => Rotated(s, false)
    case Sleep(t) => if MaySleep(s, t) then Slept(s, t) else s
    case Wake(t, level) => if t in s.tasks && level <= MAX_LEVEL && (t == IDLE ==> level <= 0) then Woken(s, t, level) else s
    case Spawn => Spawned(s)
    case End(exitCode) =>
      if MayEnd(s) then
        EndedKeeps(s, exitCode);
        Ended(s, exitCode)
      else s
    case Await(t) => if s.Current() != IDLE then Awaited(s, t) else s
    case Send(t, m) => Sent(s, t, m)
    case Receive => if s.Current() != IDLE then Received(s) else s
  }

  lemma NextKeeps(s: Sched, e: Event)
    requires Inv(s)
    ensures Inv(Next(s, e))
  {
    hide Inv, Rotated, Slept, Woken, Spawned, Ended, Awaited, Sent, Received;
    match e
    case Switch => RotatedKeeps(s);
    case Sleep(t) => if MaySleep(s, t) { SleptKeeps(s, t); }
    case Wake(t, level) =>
      if t in s.tasks && level <= MAX_LEVEL && (t == IDLE ==> level <= 0) {
        WokenKeeps(s, t, level);
      }
    case Spawn => SpawnedKeeps(s);
    case End(exitCode) => if MayEnd(s) { EndedKeeps(s, exitCode); }
    case Await(t) => AwaitedNext(s, t);
    case Send(t, m) => SentKeeps(s, t, m);
    case Receive => ReceivedNext(s);
  }

  lemma AwaitedNext(s: Sched, t: TaskId)
    requires Inv(s)
    ensures Inv(Next(s, Await(t)))
  {
    hide Queued, NothingAbove, Awaited;
    if s.Current() != IDLE {
      AwaitedKeeps(s, t);
    }
  }

  lemma ReceivedNext(s: Sched)
    requires Inv(s)
    ensures Inv(Next(s, Receive))
  {
    hide Queued, NothingAbove, Slept;
    var t := s.Current();
    QueueOf(s, s.level);
    QueueFor(s, t);
    if t != IDLE {
      if s.tasks[t].msgs == [] {
        SleptKeeps(s, t);
      } else {
        QueuedMessages(s.tasks, s.queues, t, s.tasks[t].msgs[1..]);
      }
    }
  }

  lemma InitialInv()
    ensures Inv(Initial())
  {
    var s := Initial();
    assert forall lv :: 0 <= lv <= MAX_LEVEL ==> s.queues[lv] == if lv == 0 then [IDLE] else if lv == 3 then [1] else [];
  }

  ghost function Run(events: seq<Event>): (s: Sched)
    ensures Inv(s)
  {
    InitialInv();
    if events == [] then Initial()
    else
      var s := Run(events[..|events| - 1]);
      NextKeeps(s, events[|events| - 1]);
      Next(s, events[|events| - 1])
  }

  /** After a timer interrupt the current task has the highest level of all runnable tasks. */
  lemma HighestLevelRuns(events: seq<Event>, t: TaskId)
    requires var s := Run(events + [Switch]);
             t in s.tasks && s.tasks[t].running
    ensures var s := Run(events + [Switch]);
            s.Current() in s.tasks && s.tasks[s.Current()].level == s.level >= s.tasks[t].level
  {
    hide Rotated, Queued, Run;
    RunMore(events, Switch);
    var s := Run(events);
    var s' := Run(events + [Switch]);
    RotatedKeeps(s);
    QueueOf(s', s'.level);
    QueueFor(s', t);
  }

  lemma RunMore(events: seq<Event>, e: Event)
    ensures Run(events + [e]) == Next(Run(events), e)
  {
    assert (events + [e])[..|events|] == events;
  }

  /** What the operations do to the tasks themselves. */
  lemma WokenEffect(s: Sched, t: TaskId, level: int)
    requires Inv(s) && t in s.tasks && level <= MAX_LEVEL
    ensures t in Woken(s, t, level).tasks
    ensures Woken(s, t, level).tasks[t].running && Woken(s, t, level).tasks[t].msgs == s.tasks[t].msgs
    ensures Woken(s, t, level).tasks == s.tasks[t := Woken(s, t, level).tasks[t]]
    ensures Woken(s, t, level).latestId == s.latestId
  {
    hide Queued, NothingAbove;
    QueueFor(s, t);
  }

  lemma SleptEffect(s: Sched, t: TaskId)
    requires s.Shaped() && t in s.tasks && s.tasks[t].level < |s.queues|
    ensures Slept(s, t).tasks == s.tasks[t := s.tasks[t].(running := false)] || Slept(s, t) == s
    ensures Slept(s, t).latestId == s.latestId
  {
  }

  /** No task that is off the queues has mail. */
  ghost predicate Delivered(s: Sched) {
    forall t :: t in s.tasks && !s.tasks[t].running ==> s.tasks[t].msgs == []
  }

  lemma EndedEffect(s: Sched, exitCode: int)
    requires Inv(s) && MayEnd(s)
    requires Rotated(s, true).Shaped() && forall t :: t in s.tasks ==> s.tasks[t].level < |s.queues|
    ensures var r := Ended(s, exitCode);
            && r.tasks.Keys == s.tasks.Keys - {s.Current()} && r.latestId == s.latestId
            && forall t :: t in r.tasks ==>
                 r.tasks[t].msgs == s.tasks[t].msgs && (s.tasks[t].running ==> r.tasks[t].running) &&
                 (!(s.Current() in s.waiters && t == s.waiters[s.Current()]) ==> r.tasks[t] == s.tasks[t])
  {
    hide Queued, NothingAbove, Woken;
    GoneKeeps(s, exitCode);
    if s.Current() in s.waiters {
      WokenEffect(Gone(s, exitCode), s.waiters[s.Current()], -1);
    }
  }

  /** A sleep that is not a receive's puts a task with mail to sleep. */
  ghost predicate LeavesMail(s: Sched, e: Event)
    requires Inv(s)
  {
    QueueOf(s, s.level);
    match e
    case Sleep(t) => MaySleep(s, t) && s.tasks[t].running && s.tasks[t].msgs != []
    case Await(t) => s.Current() != IDLE && t !in s.finished && s.tasks[s.Current()].msgs != []
    case _ => false
  }

  /** No lost wakeup, one step: exactly a sleep outside the receive calls, of a task with mail, leaves
      mail behind. */
  lemma NextDelivers(s: Sched, e: Event)
    requires Inv(s) && Delivered(s)
    ensures Delivered(Next(s, e)) <==> !LeavesMail(s, e)
  {
    hide Queued, NothingAbove, Slept, Woken, Ended;
    LevelsInRange(s);
    QueueOf(s, s.level);
    match e
    case Switch =>
    case Spawn =>
    case Sleep(t) => if MaySleep(s, t) { SleptMail(s, t); }
    case Await(t) =>
      if s.Current() != IDLE && t !in s.finished {
        SleptMail(s.(waiters := s.waiters[t := s.Current()]), s.Current());
      }
    case Wake(t, level) =>
      if t in s.tasks && level <= MAX_LEVEL && (t == IDLE ==> level <= 0) {
        WokenEffect(s, t, level);
      }
    case End(exitCode) =>
      if MayEnd(s) {
        EndedKeeps(s, exitCode);
        EndedEffect(s, exitCode);
      }
    case Send(t, m) =>
      if t in s.tasks {
        QueuedMessages(s.tasks, s.queues, t, s.tasks[t].msgs + [m]);
        WokenEffect(s.(tasks := s.tasks[t := s.tasks[t].(msgs := s.tasks[t].msgs + [m])]), t, -1);
      }
    case Receive =>
      if s.Current() != IDLE && s.tasks[s.Current()].msgs == [] {
        SleptMail(s, s.Current());
      }
  }

  lemma SleptMail(s: Sched, t: TaskId)
    requires s.Shaped() && t in s.tasks && s.tasks[t].level < |s.queues| && Delivered(s)
    ensures Delivered(Slept(s, t)) <==> !(s.tasks[t].running && s.tasks[t].msgs != [])
  {
    hide Rotated;
    if s.tasks[t].running {
      RotatedTasks(Marked(s, t, false));
      assert t in Slept(s, t).tasks && !Slept(s, t).tasks[t].running;
    }
  }

  lemma RotatedTasks(s: Sched)
    requires s.Shaped()
    ensures Rotated(s, true).tasks == s.tasks
  {
  }

  /** No lost wakeup: whatever the order of sends, receives, interrupts, wakeups, births and ends, a
      task outside the run queues has an empty mailbox. */
  lemma {:induction false} NoLostWakeup(events: seq<Event>, t: TaskId)
    requires forall e :: e in events ==> !e.Sleep? && !e.Await?
    requires t in Run(events).tasks && forall lv :: 0 <= lv <= MAX_LEVEL ==> t !in Run(events).queues[lv]
    ensures Run(events).tasks[t].msgs == []
  {
    hide Run, Queued, NothingAbove;
    AllDelivered(events);
    QueueFor(Run(events), t);
  }

  lemma {:induction false} AllDelivered(events: seq<Event>)
    requires forall e :: e in events ==> !e.Sleep? && !e.Await?
    ensures Delivered(Run(events))
  {
    hide Inv, Next;
    if events == [] {
    } else {
      AllDelivered(events[..|events| - 1]);
      NextDelivers(Run(events[..|events| - 1]), events[|events| - 1]);
    }
  }

  /** The messages sent to a task so far, and those it took. */
  ghost function Posted(events: seq<Event>, t: TaskId): seq<Message> {
    if events == [] then []
    else
      var front, e := events[..|events| - 1], events[|events| - 1];
      Posted(front, t) + if e.Send? && e.t == t && t in Run(front).tasks then [e.m] else []
  }

  ghost function TakenBy(events: seq<Event>, t: TaskId): seq<Message> {
    if events == [] then []
    else
      var front, e := events[..|events| - 1], events[|events| - 1];
      var s := Run(front);
      TakenBy(front, t) +
      if e.Receive? && t != IDLE && s.Current() == t && t in s.tasks && s.tasks[t].msgs != [] then [s.tasks[t].msgs[0]] else []
  }

  lemma {:induction false} NothingBeforeBirth(events: seq<Event>, t: TaskId)
    requires t > Run(events).latestId
    ensures Posted(events, t) == [] && TakenBy(events, t) == []
  {
    hide Queued, NothingAbove, Rotated, Slept, Woken, Ended, Next;
    if events != [] {
      var front := events[..|events| - 1];
      IdsGrow(Run(front), events[|events| - 1]);
      NothingBeforeBirth(front, t);
    }
  }

  /** What a step does to the ids and the mailboxes. */
  ghost predicate Grows(s: Sched, e: Event, r: Sched)
    requires s.Shaped()
  {
    && s.latestId <= r.latestId
    && (forall t :: t in r.tasks ==> t in s.tasks || t == s.latestId + 1)
    && (s.latestId + 1 in r.tasks ==> r.tasks[s.latestId + 1].msgs == [])
    && (forall t :: t in r.tasks && t in s.tasks ==>
          r.tasks[t].msgs ==
          (if e.Receive? && t != IDLE && s.Current() == t && s.tasks[t].msgs != [] then s.tasks[t].msgs[1..] else s.tasks[t].msgs)
          + (if e.Send? && e.t == t then [e.m] else []))
  }

  lemma IdsGrow(s: Sched, e: Event)
    requires Inv(s)
    ensures Grows(s, e, Next(s, e))
  {
    hide Queued, NothingAbove, Slept, Woken, Ended, Grows, Rotated, Spawned, Next, Inv;
    match e
    case Sleep(t) => SleepGrows(s, t);
    case Await(t) => AwaitGrows(s, t);
    case Wake(t, level) => WakeGrows(s, t, level);
    case End(exitCode) => EndGrows(s, exitCode);
    case Send(t, m) => SendGrows(s, t, m);
    case Receive => ReceiveGrows(s);
    case _ => OtherGrows(s, e);
  }

  lemma OtherGrows(s: Sched, e: Event)
    requires Inv(s) && (e.Switch? || e.Spawn?)
    ensures Grows(s, e, Next(s, e))
  {
    hide Queued, NothingAbove;
  }

  lemma SleepGrows(s: Sched, t: TaskId)
    requires Inv(s)
    ensures Grows(s, Sleep(t), Next(s, Sleep(t)))
  {
    hide Queued, NothingAbove, Slept;
    LevelsInRange(s);
    if MaySleep(s, t) {
      SleptEffect(s, t);
    }
  }

  lemma AwaitGrows(s: Sched, t: TaskId)
    requires Inv(s)
    ensures Grows(s, Await(t), Next(s, Await(t)))
  {
    hide Queued, NothingAbove, Slept;
    LevelsInRange(s);
    QueueOf(s, s.level);
    if s.Current() != IDLE {
      SleptEffect(s.(waiters := s.waiters[t := s.Current()]), s.Current());
    }
  }

  lemma WakeGrows(s: Sched, t: TaskId, level: int)
    requires Inv(s)
    ensures Grows(s, Wake(t, level), Next(s, Wake(t, level)))
  {
    hide Queued, NothingAbove, Woken;
    if t in s.tasks && level <= MAX_LEVEL && (t == IDLE ==> level <= 0) {
      WokenEffect(s, t, level);
    }
  }

  lemma EndGrows(s: Sched, exitCode: int)
    requires Inv(s)
    ensures Grows(s, End(exitCode), Next(s, End(exitCode)))
  {
    hide Queued, NothingAbove, Ended, Rotated;
    LevelsInRange(s);
    QueueOf(s, s.level);
    if MayEnd(s) {
      EndedKeeps(s, exitCode);
      EndedEffect(s, exitCode);
    }
  }

  lemma SendGrows(s: Sched, t: TaskId, m: Message)
    requires Inv(s)
    ensures Grows(s, Send(t, m), Next(s, Send(t, m)))
  {
    hide Queued, NothingAbove, Woken;
    if t in s.tasks {
      QueuedMessages(s.tasks, s.queues, t, s.tasks[t].msgs + [m]);
      WokenEffect(s.(tasks := s.tasks[t := s.tasks[t].(msgs := s.tasks[t].msgs + [m])]), t, -1);
    }
  }

  lemma ReceiveGrows(s: Sched)
    requires Inv(s)
    ensures Grows(s, Receive, Next(s, Receive))
  {
    hide Queued, NothingAbove, Slept;
    LevelsInRange(s);
    QueueOf(s, s.level);
    if s.Current() != IDLE {
      SleptEffect(s, s.Current());
    }
  }

  /** Delivery is first in, first out: what a live task took, followed by what is in its mailbox, is what
      was sent to it. */
  lemma {:induction false} MailInOrder(events: seq<Event>, t: TaskId)
    requires t in Run(events).tasks
    ensures Posted(events, t) == TakenBy(events, t) + Run(events).tasks[t].msgs
  {
    hide Inv, Next;
    if events == [] {
    } else {
      var front := events[..|events| - 1];
      var s := Run(front);
      IdsGrow(s, events[|events| - 1]);
      if t in s.tasks {
        MailInOrder(front, t);
      } else {
        NothingBeforeBirth(front, t);
      }
    }
  }

  /** Wakeups of other levels than a higher one, sleeps of others, births and ends: what may happen
      while a task x waits for its turn at the current level. */
  ghost predicate Mild(s: Sched, e: Event, x: TaskId) {
    match e
    case Sleep(t) => t != x
    case Wake(t, level) => t in s.tasks ==> WakesMildly(s, t, level)
    case Send(t, m) => t in s.tasks ==> WakesMildly(s, t, -1)
    case End(exitCode) => forall t :: t in s.waiters && s.waiters[t] in s.tasks ==> WakesMildly(s, s.waiters[t], -1)
    case _ => true
  }

  ghost predicate WakesMildly(s: Sched, t: TaskId, level: int)
    requires t in s.tasks
  {
    if s.tasks[t].running then level < 0 || level == s.tasks[t].level
    else (if level < 0 then s.tasks[t].level else level) <= s.level
  }

  /** The steps at which the current task gives way. */
  ghost predicate Point(s: Sched, e: Event)
    requires Inv(s)
  {
    QueueOf(s, s.level);
    match e
    case Switch => true
    case Sleep(t) => MaySleep(s, t) && t == s.Current()
    case End(exitCode) => MayEnd(s)
    case Await(t) => s.Current() != IDLE && t !in s.finished
    case Receive => s.Current() != IDLE && s.tasks[s.Current()].msgs == []
    case _ => false
  }

  /** x is the k-th in the queue of the current level, and no level change is pending. */
  ghost predicate Waits(s: Sched, x: TaskId, k: nat) {
    s.Shaped() && !s.levelChanged && k < |s.queues[s.level]| && s.queues[s.level][k] == x
  }

  lemma {:induction false} ErasedBefore(q: seq<TaskId>, t: TaskId, k: nat) returns (k': nat)
    requires k < |q| && q[k] != t
    ensures k' <= k && k' < |Erased(q, t)| && Erased(q, t)[k'] == q[k]
  {
    if k == |q| - 1 {
      k' := |Erased(q, t)| - 1;
    } else {
      k' := ErasedBefore(q[..|q| - 1], t, k);
    }
  }

  lemma RotatedWaits(s: Sched, sleep: bool, x: TaskId, k: nat)
    requires Waits(s, x, k) && k > 0
    ensures Waits(Rotated(s, sleep), x, k - 1)
  {
    var q := s.queues[s.level];
    assert (q[1..] + [q[0]])[k - 1] == q[k] && q[1..][k - 1] == q[k];
  }

  lemma WokenWaits(s: Sched, t: TaskId, level: int, x: TaskId, k: nat)
    requires Inv(s) && t in s.tasks && level <= MAX_LEVEL && Waits(s, x, k) && WakesMildly(s, t, level)
    ensures Waits(Woken(s, t, level), x, k)
  {
    hide Queued, NothingAbove;
    QueueFor(s, t);
  }

  lemma SleptWaits(s: Sched, t: TaskId, x: TaskId, k: nat) returns (k': nat)
    requires Inv(s) && t in s.tasks && t != x && k > 0 && Waits(s, x, k)
    ensures Waits(Slept(s, t), x, k') && k' <= if t == s.Current() then k - 1 else k
  {
    hide Queued, NothingAbove, NoDuplicates, Rotated, Erased;
    k' := k;
    QueueFor(s, t);
    QueueOf(s, s.level);
    if s.tasks[t].running {
      if t == s.Current() {
        RotatedWaits(Marked(s, t, false), true, x, k);
        k' := k - 1;
      } else if s.tasks[t].level == s.level {
        k' := ErasedBefore(s.queues[s.level], t, k);
      }
    }
  }

  lemma EndedWaits(s: Sched, exitCode: int, x: TaskId, k: nat)
    requires Inv(s) && MayEnd(s) && k > 0 && Waits(s, x, k) && Mild(s, End(exitCode), x)
    requires Rotated(s, true).Shaped() && forall t :: t in s.tasks ==> s.tasks[t].level < |s.queues|
    ensures Waits(Ended(s, exitCode), x, k - 1)
  {
    hide NoDuplicates, NothingAbove, Queued;
    RotatedWaits(s, true, x, k);
  }

  /** One step: x never falls back, and moves up at every scheduling point. */
  lemma NextWaits(s: Sched, e: Event, x: TaskId, k: nat) returns (k': nat)
    requires Inv(s) && Waits(s, x, k) && k > 0 && Mild(s, e, x)
    ensures Waits(Next(s, e), x, k') && k' <= if Point(s, e) then k - 1 else k
  {
    hide Queued, NothingAbove, NoDuplicates, Rotated, Slept, Woken, Ended, Waits;
    LevelsInRange(s);
    QueueOf(s, s.level);
    CurrentIsNot(s, x, k);
    k' := k;
    match e
    case Switch =>
      RotatedWaits(s, false, x, k);
      k' := k - 1;
    case Spawn => SpawnedWaits(s, x, k);
    case Sleep(t) => if MaySleep(s, t) { k' := SleptWaits(s, t, x, k); }
    case Await(t) =>
      AwaitedSame(s, t, x, k);
      if s.Current() != IDLE && t !in s.finished {
        k' := SleptWaits(s.(waiters := s.waiters[t := s.Current()]), s.Current(), x, k);
      }
    case Wake(t, level) =>
      if t in s.tasks && level <= MAX_LEVEL && (t == IDLE ==> level <= 0) {
        WokenWaits(s, t, level, x, k);
      }
    case End(exitCode) =>
      if MayEnd(s) {
        EndedKeeps(s, exitCode);
        EndedWaits(s, exitCode, x, k);
        k' := k - 1;
      }
    case Send(t, m) =>
      if t in s.tasks {
        QueuedMessages(s.tasks, s.queues, t, s.tasks[t].msgs + [m]);
        var r := s.(tasks := s.tasks[t := s.tasks[t].(msgs := s.tasks[t].msgs + [m])]);
        SameQueues(s, r, x, k);
        WokenWaits(r, t, -1, x, k);
      }
    case Receive =>
      if s.Current() != IDLE {
        if s.tasks[s.Current()].msgs == [] {
          k' := SleptWaits(s, s.Current(), x, k);
        } else {
          SameQueues(s, Received(s), x, k);
        }
      }
  }

  lemma CurrentIsNot(s: Sched, x: TaskId, k: nat)
    requires Inv(s) && Waits(s, x, k) && k > 0
    ensures s.Current() != x
  {
  }

  lemma SpawnedWaits(s: Sched, x: TaskId, k: nat)
    requires Waits(s, x, k)
    ensures Waits(Spawned(s), x, k)
  {
  }

  lemma SameQueues(s: Sched, r: Sched, x: TaskId, k: nat)
    requires Waits(s, x, k) && r.queues == s.queues && r.level == s.level && r.levelChanged == s.levelChanged
    ensures Waits(r, x, k)
  {
  }

  lemma AwaitedSame(s: Sched, t: TaskId, x: TaskId, k: nat)
    requires Inv(s) && Waits(s, x, k)
    ensures Waits(s.(finished := s.finished - {t}), x, k)
    ensures Inv(s.(waiters := s.waiters[t := s.Current()])) && Waits(s.(waiters := s.waiters[t := s.Current()]), x, k)
  {
    hide Queued, NothingAbove;
    QueueOf(s, s.level);
  }

  ghost function RunFrom(s: Sched, events: seq<Event>): (r: Sched)
    requires Inv(s)
    ensures Inv(r)
    decreases |events|
  {
    if events == [] then s
    else
      NextKeeps(s, events[0]);
      RunFrom(Next(s, events[0]), events[1..])
  }

  ghost predicate AllMild(s: Sched, events: seq<Event>, x: TaskId)
    requires Inv(s)
    decreases |events|
  {
    events == [] ||
    (NextKeeps(s, events[0]);
     Mild(s, events[0], x) && AllMild(Next(s, events[0]), events[1..], x))
  }

  ghost function Points(s: Sched, events: seq<Event>): nat
    requires Inv(s)
    decreases |events|
  {
    if events == [] then 0
    else
      NextKeeps(s, events[0]);
      (if Point(s, events[0]) then 1 else 0) + Points(Next(s, events[0]), events[1..])
  }

  /** Bounded waiting: the k-th task of the current level's queue becomes the current task within k
      scheduling points, whatever wakeups at no higher level, sleeps of others, births and ends come
      in between. */
  lemma {:induction false} BoundedWaiting(s: Sched, events: seq<Event>, x: TaskId, k: nat) returns (n: nat)
    requires Inv(s) && Waits(s, x, k) && AllMild(s, events, x) && Points(s, events) >= k
    ensures n <= |events| && Points(s, events[..n]) <= k
    ensures RunFrom(s, events[..n]).Current() == x
    decreases |events|
  {
    hide Inv, Next, Mild, Point;
    if k == 0 {
      n := 0;
      WaitsFirst(s, x);
    } else {
      var k' := NextWaits(s, events[0], x, k);
      NextKeeps(s, events[0]);
      var m := BoundedWaiting(Next(s, events[0]), events[1..], x, k');
      n := m + 1;
      assert events[..n][1..] == events[1..][..m];
    }
  }

  lemma WaitsFirst(s: Sched, x: TaskId)
    requires Inv(s) && Waits(s, x, 0)
    ensures s.Current() == x
  {
  }

  /** The task manager in the source's own fields. Tasks are named by their ids. */
  class TaskManager {
    var tasks: map<TaskId, Task>
    var latestId: TaskId
    var running: seq<seq<TaskId>>
    var currentLevel: nat
    var levelChanged: bool
    var finishTasks: map<TaskId, int>
    var finishWaiter: map<TaskId, TaskId>

    ghost function State(): Sched
      reads this
    {
      Sched(tasks, latestId, running, currentLevel, levelChanged, finishTasks, finishWaiter)
    }

    constructor ()
      ensures State() == Initial()
    {
      tasks := map[1 := Task(MAX_LEVEL, true, []), IDLE := Task(0, true, [])];
      latestId, currentLevel, levelChanged := IDLE, MAX_LEVEL, false;
      running := [[IDLE], [], [], [1]];
      finishTasks, finishWaiter := map[], map[];
    }

    method NewTask() returns (t: TaskId)
      requires Inv(State())
      modifies this
      ensures State() == Spawned(old(State())) && t == latestId && t !in old(tasks)
    {
      latestId := latestId + 1;
      tasks := tasks[latestId := Task(DEFAULT_LEVEL, false, [])];
      return latestId;
    }

    method RotateCurrentRunQueue(currentSleep: bool) returns (currentTask: TaskId)
      requires State().Shaped()
      modifies this`running, this`levelChanged, this`currentLevel
      ensures currentTask == old(State()).Current() && State() == Rotated(old(State()), currentSleep)
    {
      var levelQueue := running[currentLevel];
      currentTask := levelQueue[0];
      levelQueue := levelQueue[1..];
      if !currentSleep {
        levelQueue := levelQueue + [currentTask];
      }
      running := running[currentLevel := levelQueue];
      if levelQueue == [] {
        levelChanged := true;
      }
      if levelChanged {
        levelChanged := false;
        var lv: int := MAX_LEVEL;
        while lv >= 0
          invariant -1 <= lv <= MAX_LEVEL && |running| == MAX_LEVEL + 1
          invariant Top(running, lv, currentLevel) == Top(running, MAX_LEVEL, currentLevel)
        {
          if running[lv] != [] {
            currentLevel := lv;
            break;
          }
          lv := lv - 1;
        }
      }
    }

    /** Removes a task from a queue, the order of the others kept. */
    method Erase(level: nat, task: TaskId)
      requires level < |running|
      modifies this`running
      ensures running == old(running)[level := Erased(old(running)[level], task)]
    {
      var q := running[level];
      var kept := [];
      for i := 0 to |q|
        invariant kept == Erased(q[..i], task)
      {
        assert q[..i + 1][..i] == q[..i];
        if q[i] != task {
          kept := kept + [q[i]];
        }
      }
      assert q[..|q|] == q;
      running := running[level := kept];
    }

    method Sleep(task: TaskId)
      requires Inv(State()) && task in tasks && task != IDLE
      modifies this
      ensures Inv(State()) && State() == Slept(old(State()), task)
    {
      hide Inv, Rotated, Erased;
      InvParts(State(), task);
      SleptKeeps(State(), task);
      if !tasks[task].running {
        return;
      }
      tasks := tasks[task := tasks[task].(running := false)];
      if task == running[currentLevel][0] {
        var current := RotateCurrentRunQueue(true);
        return;
      }
      Erase(tasks[task].level, task);
    }

    method ChangeLevelRunning(task: TaskId, level: int)
      requires Inv(State()) && task in tasks && level <= MAX_LEVEL
      modifies this
      ensures State() == Releveled(old(State()), task, level)
    {
      hide Inv, Erased;
      InvParts(State(), task);
      if level < 0 || level == tasks[task].level {
        return;
      }
      if task != running[currentLevel][0] {
        Erase(tasks[task].level, task);
        running := running[level := running[level] + [task]];
        tasks := tasks[task := tasks[task].(level := level)];
        if level > currentLevel {
          levelChanged := true;
        }
        return;
      }
      running := running[currentLevel := running[currentLevel][1..]];
      running := running[level := [task] + running[level]];
      tasks := tasks[task := tasks[task].(level := level)];
      if level >= currentLevel {
        currentLevel := level;
      } else {
        currentLevel := level;
        levelChanged := true;
      }
    }

    method Wakeup(task: TaskId, level: int)
      requires Inv(State()) && task in tasks && level <= MAX_LEVEL && (task == IDLE ==> level <= 0)
      modifies this
      ensures Inv(State()) && State() == Woken(old(State()), task, level)
    {
      hide Inv, Releveled;
      InvParts(State(), task);
      WokenKeeps(State(), task, level);
      if tasks[task].running {
        ChangeLevelRunning(task, level);
        return;
      }
      var lv := level;
      if lv < 0 {
        lv := tasks[task].level;
      }
      tasks := tasks[task := tasks[task].(level := lv, running := true)];
      running := running[lv := running[lv] + [task]];
      if lv > currentLevel {
        levelChanged := true;
      }
    }

    /** false when there is no such task. */
    method SendMessage(id: TaskId, msg: Message) returns (ok: bool)
      requires Inv(State())
      modifies this
      ensures ok == (id in old(tasks))
      ensures id in old(tasks) ==> old(tasks)[id].level < |old(running)|
      ensures old(State()).Shaped() && Inv(State()) && State() == Sent(old(State()), id, msg)
    {
      hide Inv, Woken;
      InvParts(State(), IDLE);
      SentKeeps(State(), id, msg);
      if id !in tasks {
        return false;
      }
      InvParts(State(), id);
      MailKeeps(State(), id, tasks[id].msgs + [msg]);
      tasks := tasks[id := tasks[id].(msgs := tasks[id].msgs + [msg])];
      Wakeup(id, -1);
      return true;
    }

    /** The oldest message of a task's mailbox. */
    method ReceiveMessage(task: TaskId) returns (msg: Option<Message>)
      requires task in tasks
      modifies this`tasks
      ensures msg == None <==> old(tasks)[task].msgs == []
      ensures msg == None ==> tasks == old(tasks)
      ensures msg.Some? ==> tasks == old(tasks)[task := old(tasks)[task].(msgs := old(tasks)[task].msgs[1..])]
      ensures msg.Some? ==> msg.value == old(tasks)[task].msgs[0]
    {
      if tasks[task].msgs == [] {
        return None;
      }
      msg := Some(tasks[task].msgs[0]);
      tasks := tasks[task := tasks[task].(msgs := tasks[task].msgs[1..])];
    }

    /** One round of a receive loop of the current task that has nothing yet: a message, or sleep. */
    method ReceiveRound() returns (msg: Option<Message>)
      requires Inv(State()) && State().Current() != IDLE
      modifies this
      ensures Inv(old(State())) && State() == Next(old(State()), Receive) && Inv(State())
      ensures msg == None <==> Point(old(State()), Receive)
    {
      hide Queued, NothingAbove, Slept;
      ghost var s := State();
      QueueOf(s, s.level);
      NextKeeps(s, Receive);
      msg := ReceiveMessage(running[currentLevel][0]);
      if msg == None {
        Sleep(running[currentLevel][0]);
      }
    }

    method Finish(exitCode: int)
      requires Inv(State()) && MayEnd(State())
      modifies this
      ensures Inv(State()) && Rotated(old(State()), true).Shaped()
      ensures forall t :: t in old(tasks) ==> old(tasks)[t].level < |old(running)|
      ensures forall t :: t in old(finishWaiter) ==> old(finishWaiter)[t] in old(tasks)
      ensures State() == Ended(old(State()), exitCode)
    {
      hide Inv, Rotated, Woken;
      ghost var s := State();
      EndedKeeps(s, exitCode);
      LevelsInRange(s);
      WaitersLive(s);
      var currentTask := RotateCurrentRunQueue(true);
      tasks := tasks - {currentTask};
      finishTasks := finishTasks[currentTask := exitCode];
      if currentTask in finishWaiter {
        var waiter := finishWaiter[currentTask];
        finishWaiter := finishWaiter - {currentTask};
        GoneKeeps(s, exitCode);
        Wakeup(waiter, -1);
      } else {
        assert finishWaiter - {currentTask} == finishWaiter;
      }
    }
  }

  lemma InvParts(s: Sched, t: TaskId)
    requires Inv(s)
    ensures s.Shaped() && IDLE in s.tasks && (t in s.tasks ==> s.tasks[t].level < |s.queues|)
  {
  }

  lemma MailKeeps(s: Sched, t: TaskId, msgs: seq<Message>)
    requires Inv(s) && t in s.tasks
    ensures Inv(s.(tasks := s.tasks[t := s.tasks[t].(msgs := msgs)]))
  {
    hide Queued, NothingAbove;
    QueuedMessages(s.tasks, s.queues, t, msgs);
  }

  lemma WaitersLive(s: Sched)
    requires Inv(s)
    ensures forall t :: t in s.waiters ==> s.waiters[t] in s.tasks
  {
  }

  function Flattened(batches: seq<seq<Message>>): seq<Message> {
    if batches == [] then [] else Flattened(batches[..|batches| - 1]) + batches[|batches| - 1]
  }

  /** The messages from one sender. */
  function From(ms: seq<Message>, target: TaskId): seq<Message> {
    if ms == [] then []
    else From(ms[..|ms| - 1], target) + if ms[|ms| - 1].src == target then [ms[|ms| - 1]] else []
  }

  /** A reply and whom it goes to. */
  datatype Reply = Reply(to: TaskId, m: Message)

  /** The retry errors for the messages from others: one each, to its sender. */
  function Retries(ms: seq<Message>, target: TaskId, self: TaskId): seq<Reply> {
    if ms == [] then []
    else
      Retries(ms[..|ms| - 1], target, self) +
      if ms[|ms| - 1].src == target then [] else [Reply(ms[|ms| - 1].src, Message(self, true, 0))]
  }

  /** Every message is either returned or answered. */
  lemma {:induction false} ReturnedOrAnswered(ms: seq<Message>, target: TaskId, self: TaskId)
    ensures |From(ms, target)| + |Retries(ms, target, self)| == |ms|
    ensures forall m :: m in From(ms, target) <==> m in ms && m.src == target
    ensures forall r :: r in Retries(ms, target, self) ==> r.to != target && r.m == Message(self, true, 0)
  {
    if ms != [] {
      ReturnedOrAnswered(ms[..|ms| - 1], target, self);
      assert ms == ms[..|ms| - 1] + [ms[|ms| - 1]];
    }
  }

  /** The closed receive call, against any arrivals: before its r-th round the messages arrivals[r]
      come in. It returns the messages of the target in order and answers every other message it
      takes; it sleeps only on an empty mailbox with nothing to return, and comes back once it has len
      messages or has some and the mailbox is empty. */
  method ClosedReceive(box0: seq<Message>, arrivals: seq<seq<Message>>, len: nat, target: TaskId, self: TaskId)
    returns (got: seq<Message>, replies: seq<Reply>, box: seq<Message>, rounds: nat, ghost taken: seq<Message>)
    ensures rounds <= |arrivals| && box0 + Flattened(arrivals[..rounds]) == taken + box
    ensures got == From(taken, target) && replies == Retries(taken, target, self)
    ensures rounds < |arrivals| ==> |got| == len || (got != [] && box == [])
    ensures |got| <= len
  {
    hide From, Retries, Flattened;
    got, replies, box, rounds, taken := [], [], box0, 0, [];
    NothingTaken(box0, arrivals, target, self);
    while |got| < len && rounds < |arrivals|
      invariant rounds <= |arrivals| && box0 + Flattened(arrivals[..rounds]) == taken + box
      invariant got == From(taken, target) && replies == Retries(taken, target, self) && |got| <= len
    {
      BatchArrives(box0, arrivals, rounds, taken, box);
      box := box + arrivals[rounds];
      rounds := rounds + 1;
      if box == [] {
        if got == [] {
          continue;
        }
        return;
      }
      var msg := box[0];
      MessageTaken(taken, box, target, self);
      taken := taken + [msg];
      box := box[1..];
      if msg.src != target {
        replies := replies + [Reply(msg.src, Message(self, true, 0))];
      } else {
        got := got + [msg];
      }
    }
  }

  lemma NothingTaken(box: seq<Message>, arrivals: seq<seq<Message>>, target: TaskId, self: TaskId)
    ensures box + Flattened(arrivals[..0]) == [] + box && From([], target) == [] && Retries([], target, self) == []
  {
  }

  /** The messages of a round come in behind those that wait. */
  lemma BatchArrives(box0: seq<Message>, arrivals: seq<seq<Message>>, r: nat, taken: seq<Message>, box: seq<Message>)
    requires r < |arrivals| && box0 + Flattened(arrivals[..r]) == taken + box
    ensures box0 + Flattened(arrivals[..r + 1]) == taken + (box + arrivals[r])
  {
    assert arrivals[..r + 1][..r] == arrivals[..r];
    assert Flattened(arrivals[..r + 1]) == Flattened(arrivals[..r]) + arrivals[r];
    Regroup(box0, Flattened(arrivals[..r]), arrivals[r]);
    Regroup(taken, box, arrivals[r]);
  }

  lemma Regroup(a: seq<Message>, b: seq<Message>, c: seq<Message>)
    ensures a + (b + c) == (a + b) + c
  {
  }

  /** The message in front is taken: it is the target's, or answered. */
  lemma MessageTaken(taken: seq<Message>, box: seq<Message>, target: TaskId, self: TaskId)
    requires box != []
    ensures var m := box[0];
            && taken + box == (taken + [m]) + box[1..]
            && From(taken + [m], target) == From(taken, target) + (if m.src == target then [m] else [])
            && Retries(taken + [m], target, self) ==
               Retries(taken, target, self) + if m.src == target then [] else [Reply(m.src, Message(self, true, 0))]
  {
    assert (taken + [box[0]])[..|taken|] == taken;
    assert box == [box[0]] + box[1..];
    Regroup(taken, [box[0]], box[1..]);
  }
}
