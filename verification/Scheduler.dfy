/** The scheduler: its task list, flags and counters, changed in place by the worker threads and by callers. */
module Schedulers {
  import opened Options
  import opened SchedulerSteps
  import SchedulerRuns

  function Tasks(queue: seq<Entry>): (ts: seq<Task>)
    ensures |ts| == |queue| && forall i :: 0 <= i < |queue| ==> ts[i] == queue[i].task
  {
    seq(|queue|, i requires 0 <= i < |queue| => queue[i].task)
  }

  /** What the loop over the task list finds is the first eligible entry. */
  lemma {:induction false} FoundFirst(queue: seq<Entry>, id: int, states: map<nat, CoState>, k: nat)
    requires k <= |queue| && forall i :: 0 <= i < k ==> !Eligible(queue[i].task, id, states)
    requires k < |queue| ==> Eligible(queue[k].task, id, states)
    ensures FirstEligible(queue, id, states) == k
  {
    if 0 < k {
      FoundFirst(queue[1..], id, states, k - 1);
    }
  }

  /** The tasks for those callbacks of a batch that are there, in order. */
  function Loaded(cbs: seq<Option<nat>>): seq<Task> {
    if cbs == [] then []
    else Loaded(cbs[..|cbs| - 1]) +
         if cbs[|cbs| - 1].Some? then [Task(cbs[|cbs| - 1], None, ANY)] else []
  }

  /** `addTask` over a range, by a worker. */
  function Spawned(s: State, cbs: seq<Option<nat>>): State {
    if cbs == [] then s else Push(Spawned(s, cbs[..|cbs| - 1]), Task(cbs[|cbs| - 1], None, ANY))
  }

  lemma {:induction false} SpawnedTasks(s: State, cbs: seq<Option<nat>>)
    ensures Tasks(Spawned(s, cbs).queue) == Tasks(s.queue) + Loaded(cbs)
  {
    if cbs != [] {
      SpawnedTasks(s, cbs[..|cbs| - 1]);
    }
  }

  // ----- the steps of one worker

  /** Of a history, the steps of worker w. */
  function Mine(ops: seq<Op>, w: nat): seq<Op> {
    if ops == [] then []
    else
      var op := ops[|ops| - 1];
      Mine(ops[..|ops| - 1], w) + if OfWorker(op) && op.w == w then [op] else []
  }

  lemma MineGrows(ops: seq<Op>, op: Op, w: nat)
    ensures Mine(ops + [op], w) == Mine(ops, w) + if OfWorker(op) && op.w == w then [op] else []
  {
    assert (ops + [op])[..|ops|] == ops;
  }

  function Spawns(w: nat, tasks: seq<Task>): (ops: seq<Op>)
    ensures |ops| == |tasks| && forall i :: 0 <= i < |tasks| ==> ops[i] == Spawn(w, tasks[i])
  {
    seq(|tasks|, i requires 0 <= i < |tasks| => Spawn(w, tasks[i]))
  }

  /** The steps of a coroutine that adds these tasks and then yields, for the last time if it ends. */
  function Inside(w: nat, tasks: seq<Task>, ends: bool): seq<Op> {
    Spawns(w, tasks) + (if ends then [Terminate(w)] else []) + [Yield(w)]
  }

  /** What follows a yield; `again` if the coroutine was READY. */
  function Afterwards(w: nat, again: bool): seq<Op> {
    [Decrement(w), Conclude(w)] + if again then [Requeue(w)] else []
  }

  /** The turns of the loop of `run`: in the last two kinds the thread ends. */
  datatype Turn =
    | Idle(returned: bool)            // a pass of the idle phase
    | Drop                            // a task with nothing to run in it
    | Work(made: nat, again: bool)    // a coroutine, run up to its next yield
    | Leave                           // no task, and idle has returned
    | Lose                            // a coroutine that had ended

  /** The steps of a turn behind its scan, in order. */
  function Rest(turn: Turn, w: nat, tasks: seq<Task>, ends: bool): seq<Op> {
    match turn
    case Idle(returned) => [if returned then IdleReturn(w) else IdleYield(w)]
    case Drop => [Resume(w, 0)]
    case Work(made, again) => [Resume(w, made)] + (Inside(w, tasks, ends) + Afterwards(w, again))
    case Leave => []
    case Lose => [Resume(w, 0)]
  }

  /** What survives a turn of `run`: the thread, its coroutine for callbacks, and whether its idle has returned. */
  datatype Frame = Frame(id: int, cbCo: Option<nat>, idleReturned: bool)

  function FrameOf(x: Worker): Frame {
    Frame(x.id, x.cbCo, x.idleReturned)
  }

  function Frames(ws: seq<Worker>): (fs: seq<Frame>)
    ensures |fs| == |ws| && forall i :: 0 <= i < |ws| ==> fs[i] == FrameOf(ws[i])
  {
    seq(|ws|, i requires 0 <= i < |ws| => FrameOf(ws[i]))
  }

  lemma Glue(a: seq<Op>, b: seq<Op>, c: seq<Op>)
    ensures a + b + c == a + (b + c)
  {
  }

  /** A step of worker w changes the frame of w at most. */
  lemma Framed(s: State, op: Op)
    requires Enabled(s, op) && OfWorker(op)
    ensures |Apply(s, op).workers| == |s.workers|
    ensures Frames(Apply(s, op).workers) == Frames(s.workers)[op.w := FrameOf(Apply(s, op).workers[op.w])]
  {
    StepShape(s, op);
  }

  lemma {:induction false} AllBelow(used: set<nat>) returns (n: nat)
    ensures forall k :: k in used ==> k < n
  {
    n := 0;
    if used != {} {
      var x :| x in used;
      var m := AllBelow(used - {x});
      n := if x < m then m else x + 1;
      forall k | k in used ensures k < n {
        assert k == x || k in used - {x};
      }
    }
  }

  /** True; see `Traced`. */
  ghost predicate Open(u: int) {
    true
  }

  ghost predicate LedTo(ids: seq<int>, ss: seq<State>, ops: seq<Op>, s: State) {
    SchedulerRuns.IsRun(ids, ss, ops) && ss[|ops|] == s
  }

  lemma Extend(ids: seq<int>, ss: seq<State>, ops: seq<Op>, op: Op, s': State)
    requires SchedulerRuns.IsRun(ids, ss, ops) && SchedulerRuns.Leads(ss[|ops|], op, s')
    ensures SchedulerRuns.IsRun(ids, ss + [s'], ops + [op])
  {
    var ss', ops' := ss + [s'], ops + [op];
    forall i | 0 <= i < |ops'| ensures SchedulerRuns.Leads(ss'[i], ops'[i], ss'[i + 1]) {
      assert i < |ops| ==> SchedulerRuns.Leads(ss[i], ops[i], ss[i + 1]);
    }
  }

  class Scheduler {
    var frames: seq<Frame>
    var tasks: seq<Entry>          // list nodes, told apart by ticket
    var nextTicket: nat
    var states: map<nat, CoState>  // of the coroutines
    var ended: set<nat>            // those whose saved context is at the end of `MainFunc`
    var known: set<nat>            // those there are
    var activeThreadCount: int
    var idleThreadCount: int
    var stopping: bool
    var autostop: bool

    ghost var state: State         // with program counters and logs
    ghost var history: seq<Op>     // what has happened so far
    ghost var visited: seq<State>  // and the states it went through
    ghost const ids: seq<int>

    ghost predicate Mirrors(s: State)
      reads this
    {
      && frames == Frames(s.workers) && tasks == s.queue && nextTicket == s.next
      && states == s.states && ended == s.ended && known == s.known
      && activeThreadCount == s.active && idleThreadCount == s.idle
      && stopping == s.stopping && autostop == s.autostop
    }

    /** The state is where the history leads; unfolded only where a proof says Open(0). */
    ghost predicate Traced()
      reads this
    {
      forall u {:trigger Open(u)} :: Open(u) ==> LedTo(ids, visited, history, state)
    }

    ghost predicate Valid()
      reads this
    {
      Mirrors(state) && Traced()
    }

    /** So all that holds of reachable states holds of this one. */
    lemma Reachable()
      requires Traced()
      ensures Inv(state)
    {
      assert Open(0);
      SchedulerRuns.ReachableInv(ids, visited, history, |history|);
    }

    constructor (ids: seq<int>)
      requires ids != []
      ensures Valid() && state == Fresh(ids) && history == [] && this.ids == ids
    {
      this.ids := ids;
      frames := seq(|ids|, i requires 0 <= i < |ids| => Frame(ids[i], None, false));
      tasks, nextTicket, states, ended, known := [], 0, map[], {}, {};
      activeThreadCount, idleThreadCount, stopping, autostop := 0, 0, true, false;
      state, history, visited := Fresh(ids), [], [Fresh(ids)];
    }

    /** What every step ends with. */
    ghost method Settle(op: Op)
      requires Traced() && Enabled(state, op) && Mirrors(Apply(state, op))
      modifies this`state, this`history, this`visited
      ensures Valid() && state == Apply(old(state), op) && history == old(history) + [op]
      ensures forall w :: Mine(history, w) == Mine(old(history), w) + if OfWorker(op) && op.w == w then [op] else []
    {
      assert Open(0);
      forall w ensures Mine(history + [op], w) == Mine(history, w) + if OfWorker(op) && op.w == w then [op] else [] {
        MineGrows(history, op, w);
      }
      Extend(ids, visited, history, op, Apply(state, op));
      state, history, visited := Apply(state, op), history + [op], visited + [Apply(state, op)];
    }

    // ----- from outside

    method Start()
      requires Valid() && Enabled(state, SchedulerSteps.Start)
      modifies this
      ensures Valid() && state == Apply(old(state), SchedulerSteps.Start)
    {
      if stopping {
        stopping := false;
        assert frames == Frames(Started(state).workers);
      }
      Settle(SchedulerSteps.Start);
    }

    /** The two writes of `stop`; what follows them is waiting for the threads. */
    method Stop()
      requires Valid()
      modifies this
      ensures Valid() && state == Apply(Apply(old(state), SetAutostop), SetStopping)
    {
      autostop := true;
      Settle(SetAutostop);
      stopping := true;
      Settle(SetStopping);
    }

    method IsStopping() returns (r: bool)
      requires Valid()
      ensures r <==> Stopping(state)
    {
      r := autostop && stopping && tasks == [] && activeThreadCount == 0;
    }

    /** `addTask`, from outside or by a worker; says whether to tickle. */
    method AddTask(task: Task, ghost op: Op) returns (tickle: bool)
      requires Valid() && (op == External(task) || (op.Spawn? && op.task == task)) && Enabled(state, op)
      modifies this
      ensures Valid() && state == Apply(old(state), op) && old(history) <= history
      ensures forall w :: Mine(history, w) == Mine(old(history), w) + if OfWorker(op) && op.w == w then [op] else []
      ensures tickle <==> old(tasks) == []
    {
      tickle := AddTaskNoLock(task, state);
      Settle(op);
    }

    method AddTaskNoLock(task: Task, ghost s: State) returns (tickle: bool)
      requires Mirrors(s)
      modifies this`tasks, this`nextTicket, this`known
      ensures Mirrors(Push(s, task))
      ensures tickle <==> old(tasks) == []
    {
      tickle := tasks == [];
      if task.co.Some? || task.cb.Some? {
        tasks, nextTicket := tasks + [Entry(nextTicket, task)], nextTicket + 1;
        known := known + CoOf(task);
      }
    }

    /** `addTask` over a range of callbacks, by worker w: each is swapped out of its slot. */
    method AddTasks(batch: array<Option<nat>>, ghost w: nat) returns (tickle: bool)
      requires Valid() && Enabled(state, Spawn(w, Task(None, None, ANY)))
      modifies this, batch
      ensures Valid() && state == Spawned(old(state), old(batch[..]))
      ensures Tasks(tasks) == Tasks(old(tasks)) + Loaded(old(batch[..]))
      ensures forall i :: 0 <= i < batch.Length ==> batch[i] == None
      ensures tickle <==> old(tasks) == [] && batch.Length > 0
    {
      tickle := false;
      ghost var s, cbs := state, batch[..];
      var i := 0;
      while i < batch.Length
        invariant i <= batch.Length && Valid() && Enabled(state, Spawn(w, Task(None, None, ANY)))
        invariant forall j :: 0 <= j < batch.Length ==> batch[j] == if j < i then None else cbs[j]
        invariant state == Spawned(s, cbs[..i])
        invariant (i == 0 ==> tasks == old(tasks)) && (old(tasks) != [] ==> tasks != [])
        invariant tickle <==> old(tasks) == [] && i > 0
      {
        var cb := batch[i];
        batch[i] := None;
        var needed := AddTask(Task(cb, None, ANY), Spawn(w, Task(cb, None, ANY)));
        tickle := needed || tickle;
        i := i + 1;
        assert cbs[..i][..i - 1] == cbs[..i - 1];
      }
      assert cbs[..i] == cbs;
      SpawnedTasks(s, cbs);
    }

    // ----- run, for worker w

    /**
     What the other threads and the outside do between two steps of worker w: any steps but its own.
     Callers have this contract only, so they are right whatever happens meanwhile.
     */
    method Others(w: nat)
      requires Valid() && w < |frames|
      modifies this
      ensures Valid() && w < |frames| && state.workers[w] == old(state.workers[w])
      ensures old(history) <= history && Mine(history, w) == Mine(old(history), w)
    {
    }

    /** The locked scan: erases the first task this thread may run; says whether to tickle. */
    method TakeTask(w: nat) returns (isActive: bool, task: Task, tickle: bool)
      requires Valid() && Enabled(state, Scan(w))
      modifies this
      ensures Valid() && w < |frames|
      ensures var k := FirstEligible(old(state).queue, old(frames)[w].id, old(states));
              && (isActive <==> k < |old(tasks)|)
              && (tickle <==> k + 1 < |old(tasks)|
                              || exists i :: 0 <= i < k && Elsewhere(old(tasks)[i].task, frames[w].id))
      ensures if isActive then
                && state == Apply(old(state), Scan(w)) && state.workers[w].pc.Held? && state.workers[w].pc.task == task
                && Mine(history, w) == Mine(old(history), w) + [Scan(w)] && old(history) <= history
              else state == old(state) && history == old(history) && task == Task(None, None, ANY)
    {
      var it, passed := Search(frames[w].id);
      FoundFirst(state.queue, frames[w].id, states, it);
      tickle := passed || it + 1 < |tasks|;
      isActive, task := it < |tasks|, Task(None, None, ANY);
      if isActive {
        task := tasks[it].task;
        tasks := tasks[..it] + tasks[it + 1..];
        activeThreadCount := activeThreadCount + 1;
        Framed(state, Scan(w));
        Settle(Scan(w));
      }
    }

    method Search(id: int) returns (it: nat, passed: bool)
      requires Valid()
      ensures it <= |tasks| && (it < |tasks| ==> Eligible(tasks[it].task, id, states))
      ensures forall i :: 0 <= i < it ==> !Eligible(tasks[i].task, id, states)
      ensures passed <==> exists i :: 0 <= i < it && Elsewhere(tasks[i].task, id)
    {
      Reachable();
      it, passed := 0, false;
      while it < |tasks|
        invariant it <= |tasks|
        invariant forall i :: 0 <= i < it ==> !Eligible(tasks[i].task, id, states)
        invariant passed <==> exists i :: 0 <= i < it && Elsewhere(tasks[i].task, id)
      {
        var task := tasks[it].task;
        if task.thread != ANY && task.thread != id {
          passed := true;
        } else {
          assert task.co.Some? || task.cb.Some?;
          if !(task.co.Some? && StateOf(states, task.co.value) == EXEC) {
            return;
          }
        }
        it := it + 1;
      }
    }

    /** `resuem` of the coroutine of a task, up to where the coroutine goes on, if there is anything to go on with. */
    method ResumeTask(w: nat, co: nat) returns (gone: bool)
      requires Valid() && w < |frames| && state.workers[w].pc.Held?
      requires state.workers[w].pc.task.co == Some(co) && StateOf(states, co) != TERM
      modifies this
      ensures Valid() && w < |frames| && old(history) <= history
      ensures Mine(history, w) == Mine(old(history), w) + [Resume(w, 0)]
      ensures gone <==> co in old(ended)
      ensures var pc := old(state).workers[w].pc;
              state.workers[w].pc == if gone then Lost(pc.ticket, co) else Running(pc.ticket, co, false)
    {
      gone := co in ended;
      states := states[co := EXEC];
      Framed(state, Resume(w, 0));
      Settle(Resume(w, 0));
    }

    /** `cb_co`, or a new coroutine. */
    method CallbackCo(w: nat) returns (co: nat)
      requires w < |frames|
      ensures frames[w].cbCo == Some(co) || (frames[w].cbCo.None? && co !in known)
    {
      if frames[w].cbCo.Some? {
        co := frames[w].cbCo.value;
      } else {
        ghost var bound := AllBelow(known);
        assert bound !in known;
        co :| co !in known;
      }
    }

    /** The coroutine for callbacks is reset to this one, or made for it, and resumed. */
    method ResumeCallback(w: nat) returns (co: nat, ghost made: nat)
      requires Valid() && w < |frames| && state.workers[w].pc.Held?
      requires var task := state.workers[w].pc.task;
               task.cb.Some? && !(task.co.Some? && StateOf(states, task.co.value) != TERM)
      modifies this
      ensures Valid() && w < |frames| && old(history) <= history
      ensures Mine(history, w) == Mine(old(history), w) + [Resume(w, made)]
      ensures state.workers[w].pc == Running(old(state).workers[w].pc.ticket, co, true)
    {
      co := CallbackCo(w);
      ended, known := ended - {co}, known + {co};
      frames := frames[w := frames[w].(cbCo := Some(co))];
      states := states[co := EXEC];
      made := co;
      Framed(state, Resume(w, co));
      Settle(Resume(w, co));
    }

    /** The running coroutine adds its tasks. */
    method AddAll(w: nat, spawns: seq<Task>)
      requires Valid() && w < |frames| && state.workers[w].pc.Running?
      modifies this
      ensures Valid() && w < |frames| && state.workers[w] == old(state.workers[w])
      ensures old(history) <= history && Mine(history, w) == Mine(old(history), w) + Spawns(w, spawns)
    {
      var i := 0;
      while i < |spawns|
        invariant i <= |spawns| && Valid() && w < |frames| && state.workers[w] == old(state.workers[w])
        invariant old(history) <= history
        invariant Mine(history, w) == Mine(old(history), w) + Spawns(w, spawns[..i])
      {
        var tickle := AddTask(spawns[i], Spawn(w, spawns[i]));
        Others(w);
        i := i + 1;
        assert Spawns(w, spawns[..i]) == Spawns(w, spawns[..i - 1]) + [Spawn(w, spawns[i - 1])];
      }
      assert spawns[..i] == spawns;
    }

    /** The end of a coroutine's function: `MainFunc` sets TERM. */
    method Terminate(w: nat, co: nat)
      requires Valid() && w < |frames| && state.workers[w].pc.Running? && state.workers[w].pc.co == co
      modifies this
      ensures Valid() && w < |frames| && old(history) <= history
      ensures Mine(history, w) == Mine(old(history), w) + [SchedulerSteps.Terminate(w)]
      ensures var pc := old(state).workers[w].pc; state.workers[w].pc == Ending(pc.ticket, co, pc.own)
    {
      states := states[co := TERM];
      Framed(state, SchedulerSteps.Terminate(w));
      Settle(SchedulerSteps.Terminate(w));
    }

    /** `Selfco::yield`: HOLD, whatever the state was, and back to the worker; nothing is behind the last one. */
    method Yield(w: nat, co: nat, last: bool)
      requires Valid() && w < |frames| && (if last then state.workers[w].pc.Ending? else state.workers[w].pc.Running?)
      requires state.workers[w].pc.co == co
      modifies this
      ensures Valid() && w < |frames| && old(history) <= history
      ensures Mine(history, w) == Mine(old(history), w) + [SchedulerSteps.Yield(w)]
      ensures var pc := old(state).workers[w].pc; state.workers[w].pc == Returned(pc.ticket, co, pc.own)
    {
      states := states[co := HOLD];
      if last {
        ended := ended + {co};
      }
      Framed(state, SchedulerSteps.Yield(w));
      Settle(SchedulerSteps.Yield(w));
    }

    /** What a coroutine does until `resuem` returns. */
    method RunInside(w: nat, co: nat, spawns: seq<Task>, ends: bool)
      requires Valid() && w < |frames| && state.workers[w].pc.Running? && state.workers[w].pc.co == co
      modifies this
      ensures Valid() && w < |frames| && old(history) <= history
      ensures Mine(history, w) == Mine(old(history), w) + Inside(w, spawns, ends)
      ensures var pc := old(state).workers[w].pc; state.workers[w].pc == Returned(pc.ticket, co, pc.own)
    {
      Others(w);
      AddAll(w, spawns);
      if ends {
        Terminate(w, co);
        Others(w);
      }
      Yield(w, co, ends);
    }

    method CountOff(w: nat)
      requires Valid() && w < |frames| && state.workers[w].pc.Returned?
      modifies this
      ensures Valid() && w < |frames| && old(history) <= history
      ensures Mine(history, w) == Mine(old(history), w) + [Decrement(w)]
      ensures var pc := old(state).workers[w].pc; state.workers[w].pc == Counted(pc.ticket, pc.co, pc.own)
    {
      activeThreadCount := activeThreadCount - 1;
      Framed(state, Decrement(w));
      Settle(Decrement(w));
    }

    /** What follows `resuem`, in the branch of coroutines and in that of callbacks (`own`). */
    method AfterResume(w: nat, co: nat, own: bool) returns (ready: bool)
      requires Valid() && w < |frames| && state.workers[w].pc.Returned?
      requires state.workers[w].pc.co == co && state.workers[w].pc.own == own
      modifies this
      ensures Valid() && w < |frames| && state.workers[w].pc.Scanning? && old(history) <= history
      ensures Mine(history, w) == Mine(old(history), w) + Afterwards(w, ready)
    {
      CountOff(w);
      Others(w);
      ready := Dispose(w, co, own);
      if ready {
        Others(w);
        AddAgain(w, co, own);
      }
    }

    /** TERM: a callback's coroutine is emptied for the next one. Other than READY: HOLD, and no longer ours. */
    method Dispose(w: nat, co: nat, own: bool) returns (ready: bool)
      requires Valid() && w < |frames| && state.workers[w].pc.Counted?
      requires state.workers[w].pc.co == co && state.workers[w].pc.own == own
      modifies this
      ensures Valid() && w < |frames| && old(history) <= history
      ensures Mine(history, w) == Mine(old(history), w) + [Conclude(w)]
      ensures var pc := old(state).workers[w].pc;
              state.workers[w].pc == if ready then Requeuing(pc.ticket, co, own) else Scanning
    {
      ready := StateOf(states, co) == READY;
      if !ready {
        if StateOf(states, co) != TERM {
          states := states[co := HOLD];
          if own {
            frames := frames[w := frames[w].(cbCo := None)];
          }
        } else if own {
          states, ended := states[co := INIT], ended - {co};
        }
      }
      Framed(state, Conclude(w));
      Settle(Conclude(w));
    }

    /** `addTask` of a READY coroutine. */
    method AddAgain(w: nat, co: nat, own: bool)
      requires Valid() && w < |frames| && state.workers[w].pc.Requeuing?
      requires state.workers[w].pc.co == co && state.workers[w].pc.own == own
      modifies this
      ensures Valid() && w < |frames| && state.workers[w].pc.Scanning? && old(history) <= history
      ensures Mine(history, w) == Mine(old(history), w) + [Requeue(w)]
    {
      var task := Task(None, Some(co), ANY);
      ghost var x := state.workers[w];
      ghost var done := Put(state, w, x.(pc := Scanning, cbCo := if own then None else x.cbCo))
                        .(finished := state.finished + [x.pc.ticket]);
      if own {
        frames := frames[w := frames[w].(cbCo := None)];
      }
      var tickle := AddTaskNoLock(task, done);
      Settle(Requeue(w));
    }

    /** One pass of `Scheduler::idle`: returns once `stopping()` is true, yields as long as it is not. */
    method IdlePass(w: nat) returns (done: bool)
      requires Valid() && w < |frames| && state.workers[w].pc.Idling?
      modifies this
      ensures Valid() && w < |frames| && state.workers[w].pc.Scanning? && old(history) <= history
      ensures done <==> Stopping(old(state))
      ensures Mine(history, w) == Mine(old(history), w) + [if done then IdleReturn(w) else IdleYield(w)]
    {
      done := IsStopping();
      idleThreadCount := idleThreadCount - 1;
      if done {
        frames := frames[w := frames[w].(idleReturned := true)];
      }
      Settle(if done then IdleReturn(w) else IdleYield(w));
    }

    /** The idle branch; resuming an idle coroutine that has returned ends the thread. */
    method GoIdle(w: nat) returns (gone: bool, ghost turn: Turn)
      requires Valid() && Enabled(state, Scan(w))
      requires FirstEligible(state.queue, frames[w].id, states) == |tasks|
      modifies this
      ensures Valid() && w < |frames| && old(history) <= history
      ensures if gone then state.workers[w].pc.Exited? else state.workers[w].pc.Scanning?
      ensures gone <==> old(frames)[w].idleReturned
      ensures if gone then turn.Leave? else turn.Idle?
      ensures Mine(history, w) == Mine(old(history), w) + [Scan(w)] + Rest(turn, w, [], false)
    {
      gone := frames[w].idleReturned;
      idleThreadCount := idleThreadCount + 1;
      Framed(state, Scan(w));
      Settle(Scan(w));
      turn := Leave;
      if !gone {
        Others(w);
        var done := IdlePass(w);
        turn := Idle(done);
      }
    }

    /** From the inside of `resuem` to the end of the branch. */
    method WorkOn(w: nat, co: nat, own: bool, spawns: seq<Task>, ends: bool) returns (ready: bool)
      requires Valid() && w < |frames| && state.workers[w].pc.Running?
      requires state.workers[w].pc.co == co && state.workers[w].pc.own == own
      modifies this
      ensures Valid() && w < |frames| && state.workers[w].pc.Scanning? && old(history) <= history
      ensures Mine(history, w) == Mine(old(history), w) + (Inside(w, spawns, ends) + Afterwards(w, ready))
    {
      ghost var mine := Mine(history, w);
      RunInside(w, co, spawns, ends);
      ready := AfterResume(w, co, own);
      Glue(mine, Inside(w, spawns, ends), Afterwards(w, ready));
    }

    /** The first branch, of a coroutine that is not TERM. */
    method RunCoroutine(w: nat, co: nat, spawns: seq<Task>, ends: bool) returns (gone: bool, ghost turn: Turn)
      requires Valid() && w < |frames| && state.workers[w].pc.Held?
      requires state.workers[w].pc.task.co == Some(co) && StateOf(states, co) != TERM
      modifies this
      ensures Valid() && w < |frames| && old(history) <= history
      ensures if gone then state.workers[w].pc.Lost? else state.workers[w].pc.Scanning?
      ensures (gone <==> co in old(ended)) && (if gone then turn.Lose? else turn.Work?)
      ensures Mine(history, w) == Mine(old(history), w) + Rest(turn, w, spawns, ends)
    {
      ghost var mine := Mine(history, w);
      gone := ResumeTask(w, co);
      turn := Lose;
      if !gone {
        var ready := WorkOn(w, co, false, spawns, ends);
        turn := Work(0, ready);
        Glue(mine, [Resume(w, 0)], Inside(w, spawns, ends) + Afterwards(w, ready));
      }
    }

    /** The second branch, of a callback. */
    method RunCallback(w: nat, spawns: seq<Task>, ends: bool) returns (ghost turn: Turn)
      requires Valid() && w < |frames| && state.workers[w].pc.Held?
      requires var task := state.workers[w].pc.task;
               task.cb.Some? && !(task.co.Some? && StateOf(states, task.co.value) != TERM)
      modifies this
      ensures Valid() && w < |frames| && state.workers[w].pc.Scanning? && old(history) <= history
      ensures turn.Work? && Mine(history, w) == Mine(old(history), w) + Rest(turn, w, spawns, ends)
    {
      ghost var mine := Mine(history, w);
      var co: nat;
      ghost var made;
      co, made := ResumeCallback(w);
      var ready := WorkOn(w, co, true, spawns, ends);
      turn := Work(made, ready);
      Glue(mine, [Resume(w, made)], Inside(w, spawns, ends) + Afterwards(w, ready));
    }

    /** The third branch: the task is dropped, and no longer counted. */
    method DropTask(w: nat)
      requires Valid() && w < |frames| && state.workers[w].pc.Held?
      requires var task := state.workers[w].pc.task;
               task.cb.None? && !(task.co.Some? && StateOf(states, task.co.value) != TERM)
      modifies this
      ensures Valid() && w < |frames| && state.workers[w].pc.Scanning? && old(history) <= history
      ensures Mine(history, w) == Mine(old(history), w) + Rest(Drop, w, [], false)
    {
      activeThreadCount := activeThreadCount - 1;
      Framed(state, Resume(w, 0));
      Settle(Resume(w, 0));
    }

    /** The three branches with a task in hand: `spawns` and `ends` are what its coroutine does until it yields. */
    method RunTask(w: nat, task: Task, spawns: seq<Task>, ends: bool) returns (gone: bool, ghost turn: Turn)
      requires Valid() && w < |frames| && state.workers[w].pc.Held? && state.workers[w].pc.task == task
      modifies this
      ensures Valid() && w < |frames| && old(history) <= history
      ensures if gone then state.workers[w].pc.Lost? else state.workers[w].pc.Scanning?
      ensures if gone then turn.Lose? else turn.Work? || turn.Drop?
      ensures gone <==> task.co.Some? && StateOf(old(states), task.co.value) != TERM && task.co.value in old(ended)
      ensures Mine(history, w) == Mine(old(history), w) + Rest(turn, w, spawns, ends)
    {
      gone := false;
      if task.co.Some? && StateOf(states, task.co.value) != TERM {
        gone, turn := RunCoroutine(w, task.co.value, spawns, ends);
      } else if task.cb.Some? {
        turn := RunCallback(w, spawns, ends);
      } else {
        DropTask(w);
        turn := Drop;
      }
    }

    /**
     One turn of the loop of `run`, with whatever the others do in between: the steps of this worker are a scan and
     what belongs to the kind of turn, in order; it is the last turn exactly if the thread has left or is lost.
     */
    method RunTurn(w: nat, spawns: seq<Task>, ends: bool) returns (gone: bool, ghost turn: Turn)
      requires Valid() && Enabled(state, Scan(w))
      modifies this
      ensures Valid() && w < |frames| && old(history) <= history
      ensures Mine(history, w) == Mine(old(history), w) + [Scan(w)] + Rest(turn, w, spawns, ends)
      ensures gone <==> turn.Leave? || turn.Lose?
      ensures if turn.Leave? then state.workers[w].pc.Exited?
              else if turn.Lose? then state.workers[w].pc.Lost?
              else state.workers[w].pc.Scanning?
      ensures turn.Leave? <==> old(frames)[w].idleReturned && NothingFor(old(state), w)
    {
      var isActive, task, tickle := TakeTask(w);
      if isActive {
        Others(w);
        gone, turn := RunTask(w, task, spawns, ends);
      } else {
        gone, turn := GoIdle(w);
      }
    }
  }
}
