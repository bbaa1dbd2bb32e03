/** The runs of the whole IO manager, seen from its three parts: each part goes through a run of its own machine. */
module ShutdownParts {
  import S = SchedulerSteps
  import R = SchedulerRuns
  import F = EventTable
  import E = EventRuns
  import T = TimerBook
  import opened Logs
  import opened Options
  import opened Shutdown

  // ----- the scheduler

  /** How a task is added: from outside, or by a worker. */
  function Adding(who: Who, task: S.Task): S.Op {
    match who
    case Outside => S.External(task)
    case Worker(w) => S.Spawn(w, task)
  }

  function Addings(who: Who, tasks: seq<S.Task>): (ops: seq<S.Op>)
    ensures |ops| == |tasks| && forall k :: 0 <= k < |tasks| ==> ops[k] == Adding(who, tasks[k])
  {
    seq(|tasks|, k requires 0 <= k < |tasks| => Adding(who, tasks[k]))
  }

  /** The callbacks of the timers due, as tasks for any thread. */
  function CallbackTasks(b: T.Book, due: seq<nat>): (tasks: seq<S.Task>)
    ensures |tasks| == |due|
    ensures forall k :: 0 <= k < |due| && due[k] in b.recs ==> tasks[k] == S.Task(b.recs[due[k]].cb, None, S.ANY)
  {
    seq(|due|, k requires 0 <= k < |due| =>
      if due[k] in b.recs then S.Task(b.recs[due[k]].cb, None, S.ANY) else S.Task(None, None, S.ANY))
  }

  /** The steps of the scheduler that a move consists of. */
  function StepsOf(s: World, m: Move): seq<S.Op> {
    match m
    case Step(op, _) => [op]
    case OnFd(_, who, woken) => Addings(who, woken)
    case OnTimers(_, who, due) => Addings(who, CallbackTasks(s.timers.book, due))
  }

  function AllSteps(ss: seq<World>, ms: seq<Move>): (parts: seq<seq<S.Op>>)
    requires |ms| <= |ss|
    ensures |parts| == |ms| && forall i :: 0 <= i < |ms| ==> parts[i] == StepsOf(ss[i], ms[i])
  {
    seq(|ms|, i requires 0 <= i < |ms| => StepsOf(ss[i], ms[i]))
  }

  /** These steps of the scheduler lead to this state. */
  ghost predicate Brings(ids: seq<int>, ops: seq<S.Op>, s: S.State) {
    exists ss :: R.IsRun(ids, ss, ops) && ss[|ops|] == s
  }

  lemma BringsOn(ids: seq<int>, ops: seq<S.Op>, s: S.State, op: S.Op)
    requires Brings(ids, ops, s) && S.Enabled(s, op)
    ensures Brings(ids, ops + [op], S.Apply(s, op))
  {
    var ss :| R.IsRun(ids, ss, ops) && ss[|ops|] == s;
    var ss', ops' := ss + [S.Apply(s, op)], ops + [op];
    forall i | 0 <= i < |ops'| ensures R.Leads(ss'[i], ops'[i], ss'[i + 1]) {
      assert i < |ops| ==> R.Leads(ss[i], ops[i], ss[i + 1]);
    }
    assert R.IsRun(ids, ss', ops') && ss'[|ops'|] == S.Apply(s, op);
  }

  lemma {:induction false} AddingsBring(ids: seq<int>, ops: seq<S.Op>, s: S.State, who: Who, tasks: seq<S.Task>)
    requires Brings(ids, ops, s) && S.Inv(s) && (MayCall(s, who) || InIdle(s, who))
    ensures Brings(ids, ops + Addings(who, tasks), PushAll(s, tasks))
    decreases |tasks|
  {
    if tasks == [] {
      assert ops + Addings(who, tasks) == ops;
    } else {
      var n := |tasks| - 1;
      AddingsBring(ids, ops, s, who, tasks[..n]);
      PushAllInv(s, who, tasks[..n]);
      BringsOn(ids, ops + Addings(who, tasks[..n]), PushAll(s, tasks[..n]), Adding(who, tasks[n]));
      assert ops + Addings(who, tasks) == ops + Addings(who, tasks[..n]) + [Adding(who, tasks[n])];
    }
  }

  lemma MoveBrings(ids: seq<int>, ops: seq<S.Op>, s: World, m: Move)
    requires Brings(ids, ops, s.sched) && Inv(s) && Enabled(s, m)
    ensures Brings(ids, ops + StepsOf(s, m), Apply(s, m).sched)
  {
    match m
    case Step(op, _) => BringsOn(ids, ops, s.sched, op);
    case OnFd(_, who, woken) => AddingsBring(ids, ops, s.sched, who, woken);
    case OnTimers(_, who, due) =>
      assert CallbackTasks(s.timers.book, due) == Calls(s.timers.book, due);
      AddingsBring(ids, ops, s.sched, who, Calls(s.timers.book, due));
  }

  /** The scheduler of a world goes through a run of its own, with the waiters and callbacks among the tasks added. */
  lemma SchedulerPart(ids: seq<int>, ss: seq<World>, ms: seq<Move>, n: nat)
    requires IsRun(ids, ss, ms) && n < |ss|
    ensures exists states :: R.IsRun(ids, states, Flat(AllSteps(ss, ms), n)) && states[|states| - 1] == ss[n].sched
  {
    SchedulerBrought(ids, ss, ms, n);
    var states :| R.IsRun(ids, states, Flat(AllSteps(ss, ms), n)) && states[|Flat(AllSteps(ss, ms), n)|] == ss[n].sched;
    assert states[|states| - 1] == ss[n].sched;
  }

  lemma NothingBrought(ids: seq<int>)
    requires ids != []
    ensures Brings(ids, [], S.Fresh(ids))
  {
    var ss := [S.Fresh(ids)];
    assert R.IsRun(ids, ss, []) && ss[0] == S.Fresh(ids);
  }

  lemma MoveContinues(ids: seq<int>, ss: seq<World>, ms: seq<Move>, i: nat, ops: seq<S.Op>)
    requires IsRun(ids, ss, ms) && i < |ms| && Brings(ids, ops, ss[i].sched)
    ensures Brings(ids, ops + StepsOf(ss[i], ms[i]), ss[i + 1].sched)
  {
    ReachableTied(ids, ss, ms, i);
    assert Leads(ss[i], ms[i], ss[i + 1]);
    MoveBrings(ids, ops, ss[i], ms[i]);
  }

  lemma SchedulerBrought(ids: seq<int>, ss: seq<World>, ms: seq<Move>, n: nat)
    requires IsRun(ids, ss, ms) && n < |ss|
    ensures Brings(ids, Flat(AllSteps(ss, ms), n), ss[n].sched)
  {
    var states := seq(|ss|, i requires 0 <= i < |ss| => ss[i].sched);
    NothingBrought(ids);
    forall i, ops | 0 <= i < |ms| && Brings(ids, ops, states[i])
      ensures Brings(ids, ops + AllSteps(ss, ms)[i], states[i + 1])
    {
      MoveContinues(ids, ss, ms, i, ops);
    }
    Chained((ops, s) => Brings(ids, ops, s), states, AllSteps(ss, ms), n);
  }

  // ----- the event table

  function OpOf(m: Move): seq<F.Op> {
    if m.OnFd? then [m.op] else []
  }

  function TableOps(ms: seq<Move>): (parts: seq<seq<F.Op>>)
    ensures |parts| == |ms| && forall i :: 0 <= i < |ms| ==> parts[i] == OpOf(ms[i])
  {
    seq(|ms|, i requires 0 <= i < |ms| => OpOf(ms[i]))
  }

  /** These operations lead to this table. */
  ghost predicate Fills(ops: seq<F.Op>, t: E.Table) {
    exists ts :: E.IsRun(ts, ops) && ts[|ts| - 1] == t
  }

  /** So does the event table. */
  lemma TablePart(ids: seq<int>, ss: seq<World>, ms: seq<Move>, n: nat)
    requires IsRun(ids, ss, ms) && n < |ss|
    ensures exists ts :: E.IsRun(ts, Flat(TableOps(ms), n)) && ts[|ts| - 1] == ss[n].table
  {
    TableFilled(ids, ss, ms, n);
    assert Fills(Flat(TableOps(ms), n), ss[n].table);
  }

  lemma NothingFilled()
    ensures Fills([], E.EmptyTable())
  {
    var ts := [E.EmptyTable()];
    assert E.IsRun(ts, []) && ts[|ts| - 1] == E.EmptyTable();
  }

  lemma TableFilled(ids: seq<int>, ss: seq<World>, ms: seq<Move>, n: nat)
    requires IsRun(ids, ss, ms) && n < |ss|
    ensures Fills(Flat(TableOps(ms), n), ss[n].table)
  {
    var tables := seq(|ss|, i requires 0 <= i < |ss| => ss[i].table);
    NothingFilled();
    forall i, ops | 0 <= i < |ms| && Fills(ops, tables[i]) ensures Fills(ops + TableOps(ms)[i], tables[i + 1]) {
      assert Leads(ss[i], ms[i], ss[i + 1]);
      MoveFills(ops, ss[i], ms[i], ss[i + 1]);
    }
    Chained((ops, t) => Fills(ops, t), tables, TableOps(ms), n);
  }

  lemma MoveFills(ops: seq<F.Op>, s: World, m: Move, s': World)
    requires Fills(ops, s.table) && Leads(s, m, s')
    ensures Fills(ops + OpOf(m), s'.table)
  {
    var ts :| E.IsRun(ts, ops) && ts[|ts| - 1] == s.table;
    if m.OnFd? {
      TableOn(ts, ops, m.op, s'.table);
      assert (ts + [s'.table])[|ts + [s'.table]| - 1] == s'.table;
    } else {
      assert ops + OpOf(m) == ops;
    }
  }

  lemma TableOn(ts: seq<E.Table>, ops: seq<F.Op>, op: F.Op, t: E.Table)
    requires E.IsRun(ts, ops) && E.Leads(ts[|ts| - 1], op, t)
    ensures E.IsRun(ts + [t], ops + [op])
  {
    var ts', ops' := ts + [t], ops + [op];
    forall i | 0 <= i < |ops'| ensures E.Leads(ts'[i], ops'[i], ts'[i + 1]) {
      assert i < |ops| ==> E.Leads(ts[i], ops[i], ts[i + 1]);
    }
  }

  // ----- the timers

  function EventOf(m: Move): seq<T.Event> {
    if m.OnTimers? then [m.e] else []
  }

  function TimerEvents(ms: seq<Move>): (parts: seq<seq<T.Event>>)
    ensures |parts| == |ms| && forall i :: 0 <= i < |ms| ==> parts[i] == EventOf(ms[i])
  {
    seq(|ms|, i requires 0 <= i < |ms| => EventOf(ms[i]))
  }

  /** These events are legal and lead to these timers. */
  predicate Plays(es: seq<T.Event>, r: T.Run) {
    T.Legal(es) && r == T.Play(es)
  }

  /** And so do the timers. */
  lemma TimerPart(ids: seq<int>, ss: seq<World>, ms: seq<Move>, n: nat)
    requires IsRun(ids, ss, ms) && n < |ss|
    ensures T.Legal(Flat(TimerEvents(ms), n)) && ss[n].timers == T.Play(Flat(TimerEvents(ms), n))
  {
    TimersPlayed(ids, ss, ms, n);
  }

  lemma TimersPlayed(ids: seq<int>, ss: seq<World>, ms: seq<Move>, n: nat)
    requires IsRun(ids, ss, ms) && n < |ss|
    ensures Plays(Flat(TimerEvents(ms), n), ss[n].timers)
  {
    var runs := seq(|ss|, i requires 0 <= i < |ss| => ss[i].timers);
    forall i, es | 0 <= i < |ms| && Plays(es, runs[i]) ensures Plays(es + TimerEvents(ms)[i], runs[i + 1]) {
      assert Leads(ss[i], ms[i], ss[i + 1]);
      MovePlays(es, ss[i], ms[i], ss[i + 1]);
    }
    Chained((es, r) => Plays(es, r), runs, TimerEvents(ms), n);
  }

  lemma MovePlays(es: seq<T.Event>, s: World, m: Move, s': World)
    requires Plays(es, s.timers) && Leads(s, m, s')
    ensures Plays(es + EventOf(m), s'.timers)
  {
    if m.OnTimers? {
      assert (es + [m.e])[..|es|] == es;
    } else {
      assert es + EventOf(m) == es;
    }
  }

  // ----- whose callback is called

  /** Timer id was added with this callback. */
  predicate Gave(ms: seq<Move>, i: nat, id: nat, cb: nat) {
    && i < |ms| && ms[i].OnTimers? && ms[i].e.op.Add?
    && ms[i].e.op.id == id && ms[i].e.op.cb == cb
  }

  ghost predicate Given(ms: seq<Move>, n: nat, id: nat, cb: nat) {
    exists i: nat :: i < n && Gave(ms, i, id, cb)
  }

  lemma GivenOn(ms: seq<Move>, n: nat, id: nat, cb: nat)
    requires Given(ms, n, id, cb)
    ensures Given(ms, n + 1, id, cb)
  {
    var i: nat :| i < n && Gave(ms, i, id, cb);
    assert i < n + 1 && Gave(ms, i, id, cb);
  }

  /** A timer's callback is the one it was added with, as long as it has one. */
  lemma {:induction false} CallbackGiven(ids: seq<int>, ss: seq<World>, ms: seq<Move>, n: nat, id: nat, cb: nat)
    requires IsRun(ids, ss, ms) && n < |ss|
    requires id in ss[n].timers.book.recs && ss[n].timers.book.recs[id].cb == Some(cb)
    ensures Given(ms, n, id, cb)
    decreases n
  {
    if n > 0 {
      assert Leads(ss[n - 1], ms[n - 1], ss[n]);
      var b := ss[n - 1].timers.book;
      if ms[n - 1].OnTimers? && ms[n - 1].e.op.Add? && ms[n - 1].e.op.id == id {
        assert Gave(ms, n - 1, id, cb);
      } else {
        if ms[n - 1].OnTimers? {
          StillGiven(ss[n - 1].timers, ms[n - 1].e, id, cb);
        }
        CallbackGiven(ids, ss, ms, n - 1, id, cb);
        GivenOn(ms, n - 1, id, cb);
      }
    }
  }

  lemma StillGiven(r: T.Run, e: T.Event, id: nat, cb: nat)
    requires !(e.op.Add? && e.op.id == id)
    requires id in T.Apply(r, e).book.recs && T.Apply(r, e).book.recs[id].cb == Some(cb)
    ensures id in r.book.recs && r.book.recs[id].cb == Some(cb)
  {
  }

  /** The k-th firing has its ticket, under which the task is the callback that the timer was added with. */
  ghost predicate CallsGiven(s: World, ms: seq<Move>, n: nat, k: nat) {
    && k < |s.callers| && k < |s.fired| && s.callers[k] < |s.tasks|
    && exists cb :: Given(ms, n, s.fired[k], cb) && s.tasks[s.callers[k]] == S.Task(Some(cb), None, S.ANY)
  }

  lemma {:induction false} FiringsCallTheirOwn(ids: seq<int>, ss: seq<World>, ms: seq<Move>, n: nat, k: nat)
    requires IsRun(ids, ss, ms) && n < |ss| && k < |ss[n].fired|
    ensures CallsGiven(ss[n], ms, n, k)
    decreases n
  {
    if n > 0 {
      if k < |ss[n - 1].fired| {
        FiringsCallTheirOwn(ids, ss, ms, n - 1, k);
      }
      FiringStep(ids, ss, ms, n - 1, k);
    }
  }

  lemma FiringStep(ids: seq<int>, ss: seq<World>, ms: seq<Move>, n: nat, k: nat)
    requires IsRun(ids, ss, ms) && n < |ms| && k < |ss[n + 1].fired|
    requires k < |ss[n].fired| ==> CallsGiven(ss[n], ms, n, k)
    ensures CallsGiven(ss[n + 1], ms, n + 1, k)
  {
    var s, m := ss[n], ms[n];
    assert Leads(s, m, ss[n + 1]);
    ReachableTied(ids, ss, ms, n);
    if k < |s.fired| {
      FiringKept(s, m, ms, n, k);
    } else {
      var id := m.due[k - |s.fired|];
      CallbackGiven(ids, ss, ms, n, id, s.timers.book.recs[id].cb.value);
      FiringMade(s, m, ms, n, k - |s.fired|);
    }
  }

  lemma FiringKept(s: World, m: Move, ms: seq<Move>, n: nat, k: nat)
    requires Tied(s) && Enabled(s, m) && CallsGiven(s, ms, n, k)
    ensures CallsGiven(Apply(s, m), ms, n + 1, k)
  {
    KeepsFirings(s, m, k);
    var cb :| Given(ms, n, s.fired[k], cb) && s.tasks[s.callers[k]] == S.Task(Some(cb), None, S.ANY);
    GivenOn(ms, n, s.fired[k], cb);
  }

  lemma FiringMade(s: World, m: Move, ms: seq<Move>, n: nat, j: nat)
    requires Tied(s) && Enabled(s, m) && m.OnTimers? && j < |m.due| && T.Live(s.timers.book, m.due[j])
    requires Given(ms, n, m.due[j], s.timers.book.recs[m.due[j]].cb.value)
    ensures CallsGiven(Apply(s, m), ms, n + 1, |s.fired| + j)
  {
    NewFiring(s, m, j);
    GivenOn(ms, n, m.due[j], s.timers.book.recs[m.due[j]].cb.value);
  }

  lemma KeepsFirings(s: World, m: Move, k: nat)
    requires Tied(s) && Enabled(s, m) && k < |s.fired|
    ensures var s' := Apply(s, m);
            && k < |s'.fired| && k < |s'.callers| && s'.fired[k] == s.fired[k] && s'.callers[k] == s.callers[k]
            && s.callers[k] < |s.tasks| && s.callers[k] < |s'.tasks|
            && s'.tasks[s.callers[k]] == s.tasks[s.callers[k]]
  {
  }

  lemma NewFiring(s: World, m: Move, j: nat)
    requires Tied(s) && Enabled(s, m) && m.OnTimers? && j < |m.due|
    ensures var s', k := Apply(s, m), |s.fired| + j;
            && k < |s'.fired| && k < |s'.callers| && s'.fired[k] == m.due[j] && s'.callers[k] < |s'.tasks|
            && m.due[j] in s.timers.book.recs
            && s'.tasks[s'.callers[k]] == S.Task(s.timers.book.recs[m.due[j]].cb, None, S.ANY)
  {
    assert T.Live(s.timers.book, m.due[j]);
    assert s.sched.next == |s.tasks|;
  }
}
