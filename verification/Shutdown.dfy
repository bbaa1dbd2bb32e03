/**
 The IO manager as a whole: scheduler, event table and timers in one machine. A worker's idle returns only if
 the scheduler is stopping, nothing is pending and no timer is left.
 */
module Shutdown {
  import S = SchedulerSteps
  import R = SchedulerRuns
  import F = EventTable
  import E = EventRuns
  import T = TimerBook
  import opened Logs
  import opened Options

  /**
   Beside the three machines, four logs: `tasks` has the task of every ticket; `wakers` the ticket of the task that
   each delivered waiter became, in the order of delivery; `fired` the timers that fired, and `callers` the tickets
   of their callbacks.
   */
  datatype World = World(sched: S.State, table: E.Table, timers: T.Run,
                         tasks: seq<S.Task>, wakers: seq<nat>, fired: seq<nat>, callers: seq<nat>)

  /** Who calls: somebody outside, or what a worker is executing. */
  datatype Who = Outside | Worker(w: nat)

  /** `woken` are the tasks that waiters become, and `due` the timers that an expiry pass fires, in its order. */
  datatype Move =
    | Step(step: S.Op, now: nat)  // of the scheduler; `now` is when `getNextTimer` is asked
    | OnFd(op: F.Op, who: Who, woken: seq<S.Task>)
    | OnTimers(e: T.Event, who: Who, due: seq<nat>)

  function Begin(ids: seq<int>): World {
    World(S.Fresh(ids), E.EmptyTable(), T.Run(T.Book(map[], {}), 0, []), [], [], [], [])
  }

  /** Events and timers are used by running tasks, and from outside until stop() is under way. */
  predicate MayCall(s: S.State, who: Who) {
    match who
    case Outside => !(s.autostop && s.stopping)
    case Worker(w) => w < |s.workers| && s.workers[w].pc.Running?
  }

  /** Reports and expired timers are dealt with in the idle phase of a worker. */
  predicate InIdle(s: S.State, who: Who) {
    who.Worker? && who.w < |s.workers| && s.workers[who.w].pc.Idling?
  }

  /** A task for the waiter x: it is the callback or the coroutine of the task. */
  predicate IsTaskOf(t: S.Task, x: nat) {
    t == S.Task(Some(x), None, S.ANY) || t == S.Task(None, Some(x), S.ANY)
  }

  predicate AreTasksOf(woken: seq<S.Task>, xs: seq<nat>) {
    |woken| == |xs| && forall k :: 0 <= k < |xs| ==> IsTaskOf(woken[k], xs[k])
  }

  /** The waiters that an operation delivers. */
  function Delivered(t: E.Table, op: F.Op): seq<nat> {
    if |t.delivered| <= |OnTable(t, op).delivered| then OnTable(t, op).delivered[|t.delivered|..] else []
  }

  /** The list has each due timer once, and nothing else. */
  ghost predicate Lists(due: seq<nat>, b: T.Book, now: nat) {
    && (forall i, j :: 0 <= i < j < |due| ==> due[i] != due[j])
    && (forall id :: id in due <==> id in T.Due(b, now))
  }

  function CallOf(b: T.Book, id: nat): S.Task
    requires T.Live(b, id)
  {
    S.Task(b.recs[id].cb, None, S.ANY)
  }

  /** The tasks of the callbacks of these timers. */
  function Calls(b: T.Book, due: seq<nat>): (calls: seq<S.Task>)
    requires forall k :: 0 <= k < |due| ==> T.Live(b, due[k])
    ensures |calls| == |due| && forall k :: 0 <= k < |due| ==> T.Live(b, due[k]) && calls[k] == CallOf(b, due[k])
  {
    seq(|due|, k requires 0 <= k < |due| => CallOf(b, due[k]))
  }

  /** What `IOManager::idle` asks on top of `Scheduler::stopping` before it returns. */
  ghost predicate NothingToWaitFor(s: World, now: nat) {
    && s.table.pending == 0 && s.timers.clock <= now && 0 < now
    && s.timers.book.armed <= s.timers.book.recs.Keys && T.NextTimer(s.timers.book, now) == T.UINT64_MAX
  }

  ghost predicate Enabled(s: World, m: Move) {
    match m
    case Step(op, now) => S.Enabled(s.sched, op) && (op.IdleReturn? ==> NothingToWaitFor(s, now))
    case OnFd(op, who, woken) =>
      && E.Leads(s.table, op, OnTable(s.table, op)) && AreTasksOf(woken, Delivered(s.table, op))
      && if op.Reported? then InIdle(s.sched, who) else MayCall(s.sched, who)
    case OnTimers(e, who, due) =>
      && T.Allowed(s.timers, e) && (forall k :: 0 <= k < |due| ==> T.Live(s.timers.book, due[k]))
      && (if e.op.Expire? then Lists(due, s.timers.book, e.now) else due == [])
      && if e.op.Expire? then InIdle(s.sched, who) else MayCall(s.sched, who)
  }

  function OnTable(t: E.Table, op: F.Op): E.Table {
    if op.fd < |E.Covering(t, op.fd).ctxs| then E.Apply(t, op) else t
  }

  function PushAll(s: S.State, tasks: seq<S.Task>): S.State {
    if tasks == [] then s else S.Push(PushAll(s, tasks[..|tasks| - 1]), tasks[|tasks| - 1])
  }

  /** The tickets that the next n pushes get. */
  function NextTickets(s: S.State, n: nat): (ts: seq<nat>)
    ensures |ts| == n && forall k :: 0 <= k < n ==> ts[k] == s.next + k
  {
    seq(n, (k: nat) => s.next + k)
  }

  /** What a step of the scheduler added to the queue. */
  function Added(s: S.State, s': S.State): seq<S.Task> {
    if s.next < s'.next && s'.queue != [] then [s'.queue[|s'.queue| - 1].task] else []
  }

  ghost function Apply(s: World, m: Move): World
    requires Enabled(s, m)
  {
    match m
    case Step(op, _) =>
      var sched := S.Apply(s.sched, op);
      s.(sched := sched, tasks := s.tasks + Added(s.sched, sched))
    case OnFd(op, _, woken) =>
      s.(sched := PushAll(s.sched, woken), table := OnTable(s.table, op), tasks := s.tasks + woken,
         wakers := s.wakers + NextTickets(s.sched, |woken|))
    case OnTimers(e, _, due) =>
      var calls := Calls(s.timers.book, due);
      s.(sched := PushAll(s.sched, calls), timers := T.Apply(s.timers, e), tasks := s.tasks + calls,
         fired := s.fired + due, callers := s.callers + NextTickets(s.sched, |due|))
  }

  // ----- what every run keeps

  ghost predicate Inv(s: World) {
    S.Inv(s.sched) && E.Inv(s.table) && T.Sound(s.timers.book, s.timers.clock)
  }

  /** Nothing is registered, and no timer is armed. */
  predicate Quiet(s: World) {
    s.table.pending == 0 && s.timers.book.armed == {}
  }

  ghost predicate Calm(s: World) {
    R.NoReady(s.sched) && (R.AllReturned(s.sched) ==> R.NothingLeft(s.sched) && Quiet(s))
  }

  predicate SetsReady(m: Move) {
    m.Step? && R.SetsReady(m.step)
  }

  lemma {:induction false} PushAllInv(s: S.State, who: Who, tasks: seq<S.Task>)
    requires S.Inv(s) && (MayCall(s, who) || InIdle(s, who))
    ensures S.Inv(PushAll(s, tasks))
    ensures var s' := PushAll(s, tasks); s' == s.(queue := s'.queue, next := s'.next, known := s'.known)
  {
    if tasks != [] {
      var n := |tasks| - 1;
      PushAllInv(s, who, tasks[..n]);
      S.StepInv(PushAll(s, tasks[..n]), if who.Outside? then S.External(tasks[n]) else S.Spawn(who.w, tasks[n]));
    }
  }

  lemma BeginInv(ids: seq<int>)
    requires ids != []
    ensures Inv(Begin(ids)) && Calm(Begin(ids))
  {
    R.FreshInv(ids);
    E.EmptyInv();
    assert !S.Fresh(ids).workers[0].idleReturned;
  }

  lemma MoveInv(s: World, m: Move)
    requires Inv(s) && Enabled(s, m)
    ensures Inv(Apply(s, m))
  {
    match m
    case Step(op, _) => S.StepInv(s.sched, op);
    case OnFd(op, who, woken) =>
      PushAllInv(s.sched, who, woken);
      E.StepExact(s.table, op);
    case OnTimers(e, who, due) =>
      PushAllInv(s.sched, who, Calls(s.timers.book, due));
      T.ApplySound(s.timers, e);
  }

  /** Once idle has returned everywhere, with nothing queued or active, nobody can register or report any more. */
  lemma NobodyActs(s: S.State, who: Who)
    requires S.Inv(s) && R.AllReturned(s) && R.NothingLeft(s)
    ensures !MayCall(s, who) && !InIdle(s, who)
  {
    R.NoneActive(s);
    assert S.PhaseOf(s.workers[0], s.autostop && s.stopping);
    if who.Worker? && who.w < |s.workers| {
      assert S.PhaseOf(s.workers[who.w], s.autostop && s.stopping) && S.Active(s.workers[who.w]) == 0;
    }
  }

  lemma PushedCalm(s: S.State, who: Who, woken: seq<S.Task>)
    requires S.Inv(s) && (MayCall(s, who) || InIdle(s, who)) && R.NoReady(s)
    requires R.AllReturned(s) ==> R.NothingLeft(s)
    ensures R.NoReady(PushAll(s, woken)) && !R.AllReturned(PushAll(s, woken))
  {
    PushAllInv(s, who, woken);
    if R.AllReturned(s) {
      NobodyActs(s, who);
    }
    assert PushAll(s, woken).states == s.states;
  }

  lemma IdleReturnIsQuiet(s: World, op: S.Op, now: nat)
    requires Inv(s) && Enabled(s, Step(op, now)) && op.IdleReturn?
    ensures R.NothingLeft(S.Apply(s.sched, op)) && Quiet(s)
  {
    T.NoTimerIff(s.timers.book, s.timers.clock, now);
  }

  lemma StepCalm(s: World, op: S.Op, now: nat)
    requires Inv(s) && Calm(s) && Enabled(s, Step(op, now)) && !R.SetsReady(op)
    ensures Calm(Apply(s, Step(op, now)))
  {
    var s' := S.Apply(s.sched, op);
    S.StepShape(s.sched, op);
    forall co ensures S.StateOf(s'.states, co) != S.READY {
      R.StatesNoReady(s.sched, op, co);
    }
    R.StepNoReady(s.sched, op, s');
    if R.AllReturned(s') {
      R.StepReturned(s.sched, op, s');
      if R.AllReturned(s.sched) {
        R.StepNothingLeft(s.sched, op);
      } else {
        IdleReturnIsQuiet(s, op, now);
      }
    }
  }

  lemma MoveCalm(s: World, m: Move)
    requires Inv(s) && Calm(s) && Enabled(s, m) && !SetsReady(m)
    ensures Calm(Apply(s, m))
  {
    match m
    case Step(op, now) => StepCalm(s, op, now);
    case OnFd(_, who, woken) => PushedCalm(s.sched, who, woken);
    case OnTimers(_, who, due) => PushedCalm(s.sched, who, Calls(s.timers.book, due));
  }

  // ----- whose task is which

  /** Every ticket has its task: those in the queue, and those just taken, are the ones logged. */
  predicate Logged(s: S.State, tasks: seq<S.Task>) {
    && |tasks| == s.next
    && (forall i :: 0 <= i < |s.queue| ==> s.queue[i].ticket < |tasks| && tasks[s.queue[i].ticket] == s.queue[i].task)
    && (forall w :: 0 <= w < |s.workers| && s.workers[w].pc.Held? ==>
          s.workers[w].pc.ticket < |tasks| && tasks[s.workers[w].pc.ticket] == s.workers[w].pc.task)
  }

  /** The queue keeps or loses entries, or gains one under a new ticket; what is newly held was queued. */
  predicate Keeps(s: S.State, s': S.State) {
    && |s'.workers| == |s.workers|
    && (if s'.next == s.next then forall e :: e in s'.queue ==> e in s.queue
        else s'.next == s.next + 1 && |s'.queue| == |s.queue| + 1 && s'.queue[..|s.queue|] == s.queue
             && s'.queue[|s.queue|].ticket == s.next)
    && (forall w :: 0 <= w < |s.workers| && s'.workers[w].pc.Held? ==>
          s'.workers[w].pc == s.workers[w].pc || S.Entry(s'.workers[w].pc.ticket, s'.workers[w].pc.task) in s.queue)
  }

  lemma LoggedKept(s: S.State, s': S.State, tasks: seq<S.Task>)
    requires Logged(s, tasks) && Keeps(s, s')
    ensures Logged(s', tasks + Added(s, s'))
  {
    var tasks' := tasks + Added(s, s');
    forall e | e in s.queue ensures e.ticket < |tasks| && tasks[e.ticket] == e.task {
      var j :| 0 <= j < |s.queue| && s.queue[j] == e;
    }
    forall i | 0 <= i < |s'.queue|
      ensures s'.queue[i].ticket < |tasks'| && tasks'[s'.queue[i].ticket] == s'.queue[i].task {
      if s'.next == s.next {
        assert s'.queue[i] in s.queue;
      } else if i < |s.queue| {
        assert s'.queue[i] == s'.queue[..|s.queue|][i];
      }
    }
    forall w | 0 <= w < |s'.workers| && s'.workers[w].pc.Held?
      ensures s'.workers[w].pc.ticket < |tasks'| && tasks'[s'.workers[w].pc.ticket] == s'.workers[w].pc.task
    {
      if s'.workers[w].pc != s.workers[w].pc {
        assert S.Entry(s'.workers[w].pc.ticket, s'.workers[w].pc.task) in s.queue;
      }
    }
  }

  lemma PushKeeps(s: S.State, task: S.Task)
    ensures Keeps(s, S.Push(s, task))
  {
  }

  lemma ScanKeeps(s: S.State, w: nat)
    requires w < |s.workers|
    ensures Keeps(s, S.Scanned(s, w))
  {
    var k := S.FirstEligible(s.queue, s.workers[w].id, s.states);
    assert k < |s.queue| ==> s.queue[k] in s.queue;
  }

  lemma RequeueKeeps(s: S.State, w: nat)
    requires w < |s.workers| && s.workers[w].pc.Requeuing?
    ensures Keeps(s, S.Requeued(s, w))
  {
  }

  lemma OthersKeep(s: S.State, op: S.Op)
    requires S.Enabled(s, op) && !op.External? && !op.Spawn? && !op.Scan? && !op.Requeue?
    ensures Keeps(s, S.Apply(s, op))
  {
    S.StepShape(s, op);
    assert S.Apply(s, op).queue == s.queue && S.Apply(s, op).next == s.next;
  }

  lemma StepKeeps(s: S.State, op: S.Op)
    requires S.Enabled(s, op)
    ensures Keeps(s, S.Apply(s, op))
  {
    match op
    case External(task) => PushKeeps(s, task);
    case Spawn(_, task) => PushKeeps(s, task);
    case Scan(w) => ScanKeeps(s, w);
    case Requeue(w) => RequeueKeeps(s, w);
    case _ => OthersKeep(s, op);
  }

  lemma {:induction false} PushAllLogged(s: S.State, pushed: seq<S.Task>, tasks: seq<S.Task>)
    requires Logged(s, tasks) && forall t :: t in pushed ==> !S.IsEmpty(t)
    ensures Logged(PushAll(s, pushed), tasks + pushed) && PushAll(s, pushed).next == s.next + |pushed|
  {
    if pushed == [] {
      assert tasks + pushed == tasks;
    } else {
      var n := |pushed| - 1;
      PushAllLogged(s, pushed[..n], tasks);
      var mid := PushAll(s, pushed[..n]);
      assert pushed[n] in pushed;
      assert Keeps(mid, S.Push(mid, pushed[n]));
      LoggedKept(mid, S.Push(mid, pushed[n]), tasks + pushed[..n]);
      assert tasks + pushed[..n] + [pushed[n]] == tasks + pushed;
    }
  }

  /** Tickets strictly ascending, so each is listed once. */
  predicate Ascending(ts: seq<nat>, bound: nat) {
    && (forall i, j :: 0 <= i < j < |ts| ==> ts[i] < ts[j])
    && (forall i :: 0 <= i < |ts| ==> ts[i] < bound)
  }

  predicate WakersTied(tasks: seq<S.Task>, wakers: seq<nat>, delivered: seq<nat>) {
    && |wakers| == |delivered| && Ascending(wakers, |tasks|)
    && forall k :: 0 <= k < |wakers| ==> IsTaskOf(tasks[wakers[k]], delivered[k])
  }

  predicate IsCall(t: S.Task) {
    t.cb.Some? && t.co.None? && t.thread == S.ANY
  }

  predicate CallersTied(tasks: seq<S.Task>, callers: seq<nat>, fired: seq<nat>) {
    && |callers| == |fired| && Ascending(callers, |tasks|)
    && forall k :: 0 <= k < |callers| ==> IsCall(tasks[callers[k]])
  }

  ghost predicate FiringsTied(fired: seq<nat>, passes: seq<set<nat>>) {
    forall id: nat :: Count(id, fired) == T.Fires(passes, id)
  }

  /** Each delivered waiter, and each firing of a timer, has a task of its own. */
  ghost predicate Tied(s: World) {
    && Logged(s.sched, s.tasks)
    && WakersTied(s.tasks, s.wakers, s.table.delivered)
    && CallersTied(s.tasks, s.callers, s.fired) && FiringsTied(s.fired, s.timers.passes)
  }

  lemma WakersGrow(s: S.State, tasks: seq<S.Task>, wakers: seq<nat>, before: seq<nat>, woken: seq<S.Task>, xs: seq<nat>)
    requires WakersTied(tasks, wakers, before) && |tasks| == s.next && AreTasksOf(woken, xs)
    ensures WakersTied(tasks + woken, wakers + NextTickets(s, |woken|), before + xs)
  {
    AscendingMore(wakers, |tasks|, s, |woken|);
  }

  lemma CallersGrow(s: S.State, tasks: seq<S.Task>, callers: seq<nat>, fired: seq<nat>, calls: seq<S.Task>,
                    due: seq<nat>)
    requires CallersTied(tasks, callers, fired) && |tasks| == s.next
    requires |calls| == |due| && forall k :: 0 <= k < |calls| ==> IsCall(calls[k])
    ensures CallersTied(tasks + calls, callers + NextTickets(s, |due|), fired + due)
  {
    AscendingMore(callers, |tasks|, s, |due|);
  }

  lemma AscendingMore(ts: seq<nat>, bound: nat, s: S.State, n: nat)
    requires Ascending(ts, bound) && bound == s.next
    ensures Ascending(ts + NextTickets(s, n), bound + n)
  {
  }

  lemma StepTied(s: World, op: S.Op, now: nat)
    requires Tied(s) && Enabled(s, Step(op, now))
    ensures Tied(Apply(s, Step(op, now)))
  {
    var sched := S.Apply(s.sched, op);
    StepKeeps(s.sched, op);
    LoggedKept(s.sched, sched, s.tasks);
    CallersKept(s.tasks, Added(s.sched, sched), s.callers, s.fired);
    WakersKept(s.tasks, Added(s.sched, sched), s.wakers, s.table.delivered);
  }

  lemma DeliveredGrows(t: E.Table, op: F.Op)
    requires E.Inv(t) && E.Leads(t, op, OnTable(t, op))
    ensures OnTable(t, op).delivered == t.delivered + Delivered(t, op)
  {
  }

  lemma OnFdTied(s: World, op: F.Op, who: Who, woken: seq<S.Task>)
    requires Inv(s) && Tied(s) && Enabled(s, OnFd(op, who, woken))
    ensures Tied(Apply(s, OnFd(op, who, woken)))
  {
    DeliveredGrows(s.table, op);
    PushAllLogged(s.sched, woken, s.tasks);
    WakersGrow(s.sched, s.tasks, s.wakers, s.table.delivered, woken, Delivered(s.table, op));
    CallersKept(s.tasks, woken, s.callers, s.fired);
  }

  lemma CallersKept(tasks: seq<S.Task>, more: seq<S.Task>, callers: seq<nat>, fired: seq<nat>)
    requires CallersTied(tasks, callers, fired)
    ensures CallersTied(tasks + more, callers, fired)
  {
  }

  lemma WakersKept(tasks: seq<S.Task>, more: seq<S.Task>, wakers: seq<nat>, delivered: seq<nat>)
    requires WakersTied(tasks, wakers, delivered)
    ensures WakersTied(tasks + more, wakers, delivered)
  {
  }

  lemma {:induction false} CountOnce(x: nat, log: seq<nat>)
    requires forall i, j :: 0 <= i < j < |log| ==> log[i] != log[j]
    ensures Count(x, log) == if x in log then 1 else 0
    decreases |log|
  {
    if log != [] {
      CountOnce(x, log[..|log| - 1]);
      assert log == log[..|log| - 1] + [log[|log| - 1]];
    }
  }

  lemma FiringsCounted(s: World, e: T.Event, who: Who, due: seq<nat>, id: nat)
    requires Tied(s) && Enabled(s, OnTimers(e, who, due))
    ensures Count(id, s.fired + due) == T.Fires(T.Apply(s.timers, e).passes, id)
  {
    CountAppend(id, s.fired, due);
    T.FiresStep(s.timers, e, id);
    if e.op.Expire? {
      CountOnce(id, due);
    }
  }

  lemma OnTimersTied(s: World, e: T.Event, who: Who, due: seq<nat>)
    requires Inv(s) && Tied(s) && Enabled(s, OnTimers(e, who, due))
    ensures Tied(Apply(s, OnTimers(e, who, due)))
  {
    var calls := Calls(s.timers.book, due);
    assert forall k :: 0 <= k < |calls| ==> T.Live(s.timers.book, due[k]) && IsCall(calls[k]);
    PushAllLogged(s.sched, calls, s.tasks);
    CallersGrow(s.sched, s.tasks, s.callers, s.fired, calls, due);
    WakersKept(s.tasks, calls, s.wakers, s.table.delivered);
    forall id: nat ensures Count(id, s.fired + due) == T.Fires(T.Apply(s.timers, e).passes, id) {
      FiringsCounted(s, e, who, due, id);
    }
  }

  lemma MoveTied(s: World, m: Move)
    requires Inv(s) && Tied(s) && Enabled(s, m)
    ensures Tied(Apply(s, m))
  {
    match m
    case Step(op, now) => StepTied(s, op, now);
    case OnFd(op, who, woken) => OnFdTied(s, op, who, woken);
    case OnTimers(e, who, due) => OnTimersTied(s, e, who, due);
  }

  // ----- runs

  ghost predicate Leads(s: World, m: Move, s': World) {
    Enabled(s, m) && s' == Apply(s, m)
  }

  ghost predicate IsRun(ids: seq<int>, ss: seq<World>, ms: seq<Move>) {
    && ids != [] && |ss| == |ms| + 1 && ss[0] == Begin(ids)
    && forall i :: 0 <= i < |ms| ==> Leads(ss[i], ms[i], ss[i + 1])
  }

  lemma {:induction false} ReachableCalm(ids: seq<int>, ss: seq<World>, ms: seq<Move>, n: nat)
    requires IsRun(ids, ss, ms) && n < |ss| && forall i :: 0 <= i < n ==> !SetsReady(ms[i])
    ensures Inv(ss[n]) && Calm(ss[n])
    decreases n
  {
    if n == 0 {
      BeginInv(ids);
    } else {
      ReachableCalm(ids, ss, ms, n - 1);
      assert Leads(ss[n - 1], ms[n - 1], ss[n]);
      MoveInv(ss[n - 1], ms[n - 1]);
      MoveCalm(ss[n - 1], ms[n - 1]);
    }
  }

  lemma {:induction false} ReachableTied(ids: seq<int>, ss: seq<World>, ms: seq<Move>, n: nat)
    requires IsRun(ids, ss, ms) && n < |ss|
    ensures Inv(ss[n]) && Tied(ss[n])
    decreases n
  {
    if n == 0 {
      BeginInv(ids);
    } else {
      ReachableTied(ids, ss, ms, n - 1);
      assert Leads(ss[n - 1], ms[n - 1], ss[n]);
      MoveInv(ss[n - 1], ms[n - 1]);
      MoveTied(ss[n - 1], ms[n - 1]);
    }
  }

  /** With nothing pending every context is empty and the kernel watches no fd. */
  lemma NothingRegistered(t: E.Table, fd: nat)
    requires E.Inv(t) && t.pending == 0
    ensures fd !in t.epoll && (fd < |t.ctxs| ==> t.ctxs[fd] == F.FRESH)
  {
    if fd < |t.ctxs| {
      SumZeroMeansZeros(E.BitCounts(t.ctxs));
      assert E.InvAt(t, fd) && E.BitCounts(t.ctxs)[fd] == 0;
      F.FourSets(t.ctxs[fd].events);
    }
  }

  /**
   If nobody ever sets READY, then once every worker has left nothing at all is left behind: every task that was
   ever accepted is finished, every waiter ever registered was removed, or delivered and its own task finished once,
   every firing of a timer had a task of its own that is finished, no context holds a waiter, the kernel watches
   nothing, and no timer is armed.
   */
  lemma NothingLeftBehind(ids: seq<int>, ss: seq<World>, ms: seq<Move>, n: nat)
    requires IsRun(ids, ss, ms) && n < |ss| && forall i :: 0 <= i < n ==> !SetsReady(ms[i])
    requires S.AllExited(ss[n].sched)
    ensures ss[n].sched.queue == [] && ss[n].table.pending == 0 && ss[n].timers.book.armed == {}
    ensures forall t: nat :: t < ss[n].sched.next ==> R.Finished(ss[n].sched, t)
    ensures forall fd: nat :: fd < |ss[n].table.ctxs| ==> ss[n].table.ctxs[fd] == F.FRESH
    ensures ss[n].table.epoll == map[]
    ensures forall x: nat :: Count(x, ss[n].table.registered)
                          == Count(x, ss[n].table.delivered) + Count(x, ss[n].table.removed)
    ensures Tied(ss[n])
    ensures forall t :: t in ss[n].wakers + ss[n].callers ==> Count(t, ss[n].sched.finished) == 1
  {
    var s := ss[n];
    ReachableCalm(ids, ss, ms, n);
    ReachableTied(ids, ss, ms, n);
    forall w | 0 <= w < |s.sched.workers| ensures s.sched.workers[w].idleReturned {
      assert S.PhaseOf(s.sched.workers[w], s.sched.autostop && s.sched.stopping);
    }
    forall t: nat | t < s.sched.next ensures R.Finished(s.sched, t) {
      AllDone(s.sched, t);
    }
    forall fd: nat ensures fd !in s.table.epoll && (fd < |s.table.ctxs| ==> s.table.ctxs[fd] == F.FRESH) {
      NothingRegistered(s.table, fd);
    }
    forall t | t in s.wakers + s.callers ensures Count(t, s.sched.finished) == 1 {
      AllDone(s.sched, t);
    }
    forall x: nat ensures Count(x, s.table.registered) == Count(x, s.table.delivered) + Count(x, s.table.removed) {
      AllAccounted(s.table, x);
    }
  }

  lemma AllDone(s: S.State, t: nat)
    requires S.Inv(s) && S.AllExited(s) && s.queue == [] && t < s.next
    ensures R.Finished(s, t) && Count(t, s.finished) == 1
  {
    R.EveryTaskSomewhere(s, t);
    R.CountMember(t, s.finished);
    assert forall w :: !R.HasTask(s, t, w);
    assert forall i :: !R.QueuedAs(s, t, i);
  }

  lemma AllAccounted(t: E.Table, x: nat)
    requires E.Inv(t) && t.pending == 0
    ensures Count(x, t.registered) == Count(x, t.delivered) + Count(x, t.removed)
  {
    forall i | 0 <= i < |t.ctxs| ensures F.CtxOk(t.ctxs[i]) {
      assert E.InvAt(t, i);
    }
    E.QuietMeansEmpty(t.ctxs, x);
    assert E.Waiting(x, t.ctxs) == 0;
  }
}
