/** N workers over one queue, as a machine that takes `run` step by step, in any interleaving of its workers. */
module SchedulerSteps {
  import opened Options
  import opened Logs

  datatype CoState = INIT | EXEC | HOLD | TERM | READY

  const ANY: int := -1

  datatype Task = Task(cb: Option<nat>, co: Option<nat>, thread: int)

  /** Every push gets a ticket of its own, so the same coroutine queued twice is two entries. */
  datatype Entry = Entry(ticket: nat, task: Task)

  /** Where a worker is in `run`; `own` says that the coroutine is the one it runs callbacks in. */
  datatype Pc =
    | NotStarted
    | Scanning
    | Held(ticket: nat, task: Task)               // taken, not yet resumed
    | Running(ticket: nat, co: nat, own: bool)
    | Ending(ticket: nat, co: nat, own: bool)     // the coroutine's function is through, its last yield is ahead
    | Lost(ticket: nat, co: nat)                  // resumed a coroutine that had ended, which ends the thread
    | Returned(ticket: nat, co: nat, own: bool)   // back from resuem, still counted as active
    | Counted(ticket: nat, co: nat, own: bool)    // no longer counted as active
    | Requeuing(ticket: nat, co: nat, own: bool)  // found READY, not yet added again
    | Idling
    | Exited

  datatype Worker = Worker(id: int, pc: Pc, cbCo: Option<nat>, idleReturned: bool)

  /**
   `ended` are the coroutines past their last yield: they are left in HOLD, and nothing is behind that yield.
   `known` are the coroutines there are; one made for a callback is none of them.
   `taken` and `finished` log tickets: of the entries erased from the queue, and of those done with.
   */
  datatype State = State(workers: seq<Worker>, queue: seq<Entry>, states: map<nat, CoState>, ended: set<nat>,
                         known: set<nat>, active: int, idle: int, stopping: bool, autostop: bool,
                         next: nat, taken: seq<nat>, finished: seq<nat>)

  /** A scheduler before `start`, for threads that will have these ids. */
  function Fresh(ids: seq<int>): State {
    State(seq(|ids|, i requires 0 <= i < |ids| => Worker(ids[i], NotStarted, None, false)),
          [], map[], {}, {}, 0, 0, true, false, 0, [], [])
  }

  function StateOf(states: map<nat, CoState>, co: nat): CoState {
    if co in states then states[co] else INIT
  }

  /** `Scheduler::stopping`. */
  predicate Stopping(s: State) {
    s.autostop && s.stopping && s.queue == [] && s.active == 0
  }

  // ----- the scan

  predicate IsEmpty(task: Task) {
    task.cb.None? && task.co.None?
  }

  predicate Elsewhere(task: Task, id: int) {
    task.thread != ANY && task.thread != id
  }

  predicate Busy(task: Task, states: map<nat, CoState>) {
    task.co.Some? && StateOf(states, task.co.value) == EXEC
  }

  predicate Eligible(task: Task, id: int, states: map<nat, CoState>) {
    !Elsewhere(task, id) && !Busy(task, states)
  }

  /** The place of the first entry a worker may take, or the length of the queue. */
  function FirstEligible(queue: seq<Entry>, id: int, states: map<nat, CoState>): (k: nat)
    ensures k <= |queue|
    ensures k < |queue| ==> Eligible(queue[k].task, id, states)
    ensures forall i :: 0 <= i < k ==> !Eligible(queue[i].task, id, states)
  {
    if queue == [] || Eligible(queue[0].task, id, states) then 0
    else 1 + FirstEligible(queue[1..], id, states)
  }

  // ----- steps

  datatype Op =
    | Start
    | SetAutostop                 // the two writes of stop()
    | SetStopping
    | External(task: Task)        // addTask from outside
    | SetState(co: nat, st: CoState)  // setState, which is public
    | Scan(w: nat)
    | Resume(w: nat, made: nat)  // made: the coroutine made when a callback needs one
    | Spawn(w: nat, task: Task)   // addTask by a running task or by the idle phase
    | Terminate(w: nat)           // the coroutine's function returns to MainFunc
    | Yield(w: nat)
    | Decrement(w: nat)
    | Conclude(w: nat)
    | Requeue(w: nat)
    | IdleReturn(w: nat)
    | IdleYield(w: nat)

  predicate OfWorker(op: Op) {
    !op.Start? && !op.SetAutostop? && !op.SetStopping? && !op.External? && !op.SetState?
  }

  /** Worker w holds a callback and has no coroutine to run it in. */
  predicate MakesCo(s: State, w: nat)
    requires w < |s.workers| && s.workers[w].pc.Held?
  {
    var task := s.workers[w].pc.task;
    && s.workers[w].cbCo.None? && task.cb.Some?
    && !(task.co.Some? && StateOf(s.states, task.co.value) != TERM)
  }

  predicate NeverStarted(s: State) {
    forall i :: 0 <= i < |s.workers| ==> s.workers[i].pc == NotStarted
  }

  /**
   When a step can happen. From outside, tasks come only until stop() is under way, and nobody sets EXEC;
   start() is effective once.
   */
  predicate Enabled(s: State, op: Op) {
    && (OfWorker(op) ==> op.w < |s.workers|)
    && match op
       case Start => s.stopping ==> NeverStarted(s)
       case SetAutostop => true
       case SetStopping => true
       case External(_) => !(s.autostop && s.stopping)
       case SetState(_, st) => st != EXEC
       case Scan(w) => s.workers[w].pc.Scanning?
       case Resume(w, made) => s.workers[w].pc.Held? && (MakesCo(s, w) ==> made !in s.known)
       case Spawn(w, _) => s.workers[w].pc.Running? || s.workers[w].pc.Idling?
       case Terminate(w) => s.workers[w].pc.Running?
       case Yield(w) => s.workers[w].pc.Running? || s.workers[w].pc.Ending?
       case Decrement(w) => s.workers[w].pc.Returned?
       case Conclude(w) => s.workers[w].pc.Counted?
       case Requeue(w) => s.workers[w].pc.Requeuing?
       case IdleReturn(w) => s.workers[w].pc.Idling? && Stopping(s)
       case IdleYield(w) => s.workers[w].pc.Idling?
  }

  function CoOf(task: Task): set<nat> {
    if task.co.Some? then {task.co.value} else {}
  }

  /** `addTaskNoLock`: an empty task is not queued. */
  function Push(s: State, task: Task): State {
    if IsEmpty(task) then s
    else s.(queue := s.queue + [Entry(s.next, task)], next := s.next + 1, known := s.known + CoOf(task))
  }

  function Put(s: State, w: nat, x: Worker): State
    requires w < |s.workers|
  {
    s.(workers := s.workers[w := x])
  }

  /**
   Under the lock: take the first eligible entry. Without one count as idle and resume the idle coroutine;
   if idle has returned, that ends the thread, and the count stays.
   */
  function Scanned(s: State, w: nat): State
    requires w < |s.workers|
  {
    var x := s.workers[w];
    var k := FirstEligible(s.queue, x.id, s.states);
    if k < |s.queue| then
      Put(s, w, x.(pc := Held(s.queue[k].ticket, s.queue[k].task)))
      .(queue := s.queue[..k] + s.queue[k + 1..], active := s.active + 1, taken := s.taken + [s.queue[k].ticket])
    else Put(s, w, x.(pc := if x.idleReturned then Exited else Idling)).(idle := s.idle + 1)
  }

  /** The three branches: a coroutine that is not TERM, else a callback, else nothing to run. */
  function Resumed(s: State, w: nat, made: nat): State
    requires w < |s.workers| && s.workers[w].pc.Held?
  {
    var x := s.workers[w];
    var ticket, task := x.pc.ticket, x.pc.task;
    if task.co.Some? && StateOf(s.states, task.co.value) != TERM then
      var co := task.co.value;
      var pc := if co in s.ended then Lost(ticket, co) else Running(ticket, co, false);
      Put(s, w, x.(pc := pc)).(states := s.states[co := EXEC])
    else if task.cb.Some? then
      var co := if x.cbCo.Some? then x.cbCo.value else made;
      Put(s, w, x.(pc := Running(ticket, co, true), cbCo := Some(co)))
      .(states := s.states[co := EXEC], ended := s.ended - {co}, known := s.known + {co})
    else Put(s, w, x.(pc := Scanning)).(active := s.active - 1, finished := s.finished + [ticket])
  }

  /** What follows the decrement: READY is queued again, TERM is done with, anything else is put on HOLD. */
  function Concluded(s: State, w: nat): State
    requires w < |s.workers| && s.workers[w].pc.Counted?
  {
    var x := s.workers[w];
    var ticket, co, own := x.pc.ticket, x.pc.co, x.pc.own;
    if StateOf(s.states, co) == READY then Put(s, w, x.(pc := Requeuing(ticket, co, own)))
    else
      var done := s.(finished := s.finished + [ticket]);
      if StateOf(s.states, co) == TERM then
        Put(done, w, x.(pc := Scanning))
        .(states := if own then s.states[co := INIT] else s.states, ended := if own then s.ended - {co} else s.ended)
      else
        Put(done, w, x.(pc := Scanning, cbCo := if own then None else x.cbCo)).(states := s.states[co := HOLD])
  }

  /** `addTask(task.selfco)` or `addTask(cb_co)`: the coroutine comes back unpinned, under a new ticket. */
  function Requeued(s: State, w: nat): State
    requires w < |s.workers| && s.workers[w].pc.Requeuing?
  {
    var x := s.workers[w];
    Push(Put(s, w, x.(pc := Scanning, cbCo := if x.pc.own then None else x.cbCo))
         .(finished := s.finished + [x.pc.ticket]),
         Task(None, Some(x.pc.co), ANY))
  }

  function Started(s: State): State {
    if !s.stopping then s
    else s.(stopping := false,
            workers := seq(|s.workers|, i requires 0 <= i < |s.workers| => s.workers[i].(pc := Scanning)))
  }

  function Apply(s: State, op: Op): State
    requires Enabled(s, op)
  {
    match op
    case Start => Started(s)
    case SetAutostop => s.(autostop := true)
    case SetStopping => s.(stopping := true)
    case External(task) => Push(s, task)
    case SetState(co, st) => s.(states := s.states[co := st], known := s.known + {co})
    case Scan(w) => Scanned(s, w)
    case Resume(w, made) => Resumed(s, w, made)
    case Spawn(_, task) => Push(s, task)
    case Terminate(w) =>
      var pc := s.workers[w].pc;
      Put(s, w, s.workers[w].(pc := Ending(pc.ticket, pc.co, pc.own))).(states := s.states[pc.co := TERM])
    case Yield(w) =>
      var pc := s.workers[w].pc;
      Put(s, w, s.workers[w].(pc := Returned(pc.ticket, pc.co, pc.own)))
      .(states := s.states[pc.co := HOLD], ended := if pc.Ending? then s.ended + {pc.co} else s.ended)
    case Decrement(w) =>
      var pc := s.workers[w].pc;
      Put(s, w, s.workers[w].(pc := Counted(pc.ticket, pc.co, pc.own))).(active := s.active - 1)
    case Conclude(w) => Concluded(s, w)
    case Requeue(w) => Requeued(s, w)
    case IdleReturn(w) => Put(s, w, s.workers[w].(pc := Scanning, idleReturned := true)).(idle := s.idle - 1)
    case IdleYield(w) => Put(s, w, s.workers[w].(pc := Scanning)).(idle := s.idle - 1)
  }

  // ----- counters and tickets

  function Active(x: Worker): nat {
    if x.pc.Held? || x.pc.Running? || x.pc.Ending? || x.pc.Lost? || x.pc.Returned? then 1 else 0
  }

  function Idles(x: Worker): nat {
    if x.pc.Idling? || x.pc.Exited? then 1 else 0
  }

  predicate HasTicket(x: Worker) {
    || x.pc.Held? || x.pc.Running? || x.pc.Ending? || x.pc.Lost?
    || x.pc.Returned? || x.pc.Counted? || x.pc.Requeuing?
  }

  function Carries(t: nat, x: Worker): nat {
    if HasTicket(x) && x.pc.ticket == t then 1 else 0
  }

  function Actives(ws: seq<Worker>): (ns: seq<nat>)
    ensures |ns| == |ws| && forall i :: 0 <= i < |ws| ==> ns[i] == Active(ws[i])
  {
    seq(|ws|, i requires 0 <= i < |ws| => Active(ws[i]))
  }

  function Idlers(ws: seq<Worker>): (ns: seq<nat>)
    ensures |ns| == |ws| && forall i :: 0 <= i < |ws| ==> ns[i] == Idles(ws[i])
  {
    seq(|ws|, i requires 0 <= i < |ws| => Idles(ws[i]))
  }

  function Carriers(t: nat, ws: seq<Worker>): (ns: seq<nat>)
    ensures |ns| == |ws| && forall i :: 0 <= i < |ws| ==> ns[i] == Carries(t, ws[i])
  {
    seq(|ws|, i requires 0 <= i < |ws| => Carries(t, ws[i]))
  }

  /** How many workers carry the entry of ticket t. */
  function Carrying(t: nat, ws: seq<Worker>): nat {
    Sum(Carriers(t, ws))
  }

  function Tickets(queue: seq<Entry>): (ts: seq<nat>)
    ensures |ts| == |queue| && forall i :: 0 <= i < |queue| ==> ts[i] == queue[i].ticket
  {
    seq(|queue|, i requires 0 <= i < |queue| => queue[i].ticket)
  }

  /** A ticket once issued is either queued or was taken, once; a taken one is finished or with exactly one worker. */
  predicate Placed(s: State, t: nat) {
    && Count(t, Tickets(s.queue)) + Count(t, s.taken) == (if t < s.next then 1 else 0)
    && Count(t, s.taken) == Count(t, s.finished) + Carrying(t, s.workers)
  }

  ghost predicate OnePlace(s: State) {
    forall t: nat :: Placed(s, t)
  }

  predicate Tallies(s: State) {
    s.active == Sum(Actives(s.workers)) && s.idle == Sum(Idlers(s.workers))
  }

  /** Entries stand in the order they were added, and none is empty, so the assert of the scan never fails. */
  predicate InOrder(s: State) {
    && (forall i, j :: 0 <= i < j < |s.queue| ==> s.queue[i].ticket < s.queue[j].ticket)
    && (forall i :: 0 <= i < |s.queue| ==> s.queue[i].ticket < s.next && !IsEmpty(s.queue[i].task))
  }

  predicate Runs(x: Worker, co: nat) {
    (x.pc.Running? || x.pc.Lost?) && x.pc.co == co
  }

  /** A coroutine in state EXEC is being run by some worker, or is the one a worker was lost in. */
  ghost predicate ExecIsRun(s: State) {
    forall co :: StateOf(s.states, co) == EXEC ==> exists w :: 0 <= w < |s.workers| && Runs(s.workers[w], co)
  }

  /** Idle returns only during a stop, a worker leaves only after that, and start() starts all workers together. */
  predicate Phases(s: State) {
    && (forall w :: 0 <= w < |s.workers| ==> PhaseOf(s.workers[w], s.autostop && s.stopping))
    && (NeverStarted(s) || forall w :: 0 <= w < |s.workers| ==> !s.workers[w].pc.NotStarted?)
  }

  predicate PhaseOf(x: Worker, stopped: bool) {
    && (x.idleReturned ==> stopped && !x.pc.Idling? && !x.pc.NotStarted?)
    && (x.pc.Exited? ==> x.idleReturned)
  }

  predicate KnownTo(x: Worker, known: set<nat>) {
    && (x.cbCo.Some? ==> x.cbCo.value in known)
    && (x.pc.Held? ==> CoOf(x.pc.task) <= known)
    && (HasTicket(x) && !x.pc.Held? ==> x.pc.co in known)
  }

  /** Whatever has a state, is queued, or is in a worker's hands is known. */
  predicate Known(s: State) {
    && s.states.Keys <= s.known
    && (forall i :: 0 <= i < |s.queue| ==> CoOf(s.queue[i].task) <= s.known)
    && (forall w :: 0 <= w < |s.workers| ==> KnownTo(s.workers[w], s.known))
  }

  predicate AllExited(s: State) {
    forall w :: 0 <= w < |s.workers| ==> s.workers[w].pc.Exited?
  }

  predicate NoneUnpinned(s: State) {
    forall i :: 0 <= i < |s.queue| ==> s.queue[i].task.thread != ANY
  }

  ghost predicate Inv(s: State) {
    && s.workers != []
    && Tallies(s) && OnePlace(s) && InOrder(s) && ExecIsRun(s) && Phases(s) && Known(s)
    && (AllExited(s) ==> NoneUnpinned(s))
  }

  // ----- how counters and tickets move

  lemma WorkerMoves(ws: seq<Worker>, w: nat, x: Worker)
    requires w < |ws|
    ensures Sum(Actives(ws[w := x])) + Active(ws[w]) == Sum(Actives(ws)) + Active(x)
    ensures Sum(Idlers(ws[w := x])) + Idles(ws[w]) == Sum(Idlers(ws)) + Idles(x)
  {
    SumUpdate(Actives(ws), w, Active(x));
    assert Actives(ws)[w := Active(x)] == Actives(ws[w := x]);
    SumUpdate(Idlers(ws), w, Idles(x));
    assert Idlers(ws)[w := Idles(x)] == Idlers(ws[w := x]);
  }

  lemma CarrierMoves(t: nat, ws: seq<Worker>, w: nat, x: Worker)
    requires w < |ws|
    ensures Carrying(t, ws[w := x]) + Carries(t, ws[w]) == Carrying(t, ws) + Carries(t, x)
  {
    SumUpdate(Carriers(t, ws), w, Carries(t, x));
    assert Carriers(t, ws)[w := Carries(t, x)] == Carriers(t, ws[w := x]);
  }

  lemma CountOneMore(t: nat, log: seq<nat>, x: nat)
    ensures Count(t, log + [x]) == Count(t, log) + if x == t then 1 else 0
  {
    assert (log + [x])[..|log|] == log;
  }

  lemma CountWithout(t: nat, queue: seq<Entry>, k: nat, rest: seq<Entry>)
    requires k < |queue| && rest == queue[..k] + queue[k + 1..]
    ensures Count(t, Tickets(queue)) == Count(t, Tickets(rest)) + if queue[k].ticket == t then 1 else 0
  {
    var before, after := Tickets(queue[..k]), Tickets(queue[k + 1..]);
    assert Tickets(queue) == before + [queue[k].ticket] + after;
    assert Tickets(rest) == before + after;
    CountAppend(t, before + [queue[k].ticket], after);
    CountAppend(t, before, after);
    CountOneMore(t, before, queue[k].ticket);
  }

  lemma OrderWithout(s: State, s': State, k: nat)
    requires InOrder(s) && k < |s.queue| && s'.queue == s.queue[..k] + s.queue[k + 1..] && s'.next == s.next
    ensures InOrder(s')
  {
  }

  /** Accounts across a step that leaves queue and log of the taken alone: worker w becomes x. */
  lemma MoveAccounts(s: State, s': State, w: nat, x: Worker)
    requires Tallies(s) && OnePlace(s) && w < |s.workers|
    requires s'.workers == s.workers[w := x] && s'.queue == s.queue && s'.next == s.next && s'.taken == s.taken
    requires s'.active == s.active + Active(x) - Active(s.workers[w])
    requires s'.idle == s.idle + Idles(x) - Idles(s.workers[w])
    requires if HasTicket(s.workers[w]) && !HasTicket(x) then s'.finished == s.finished + [s.workers[w].pc.ticket]
             else s'.finished == s.finished && HasTicket(s.workers[w]) == HasTicket(x)
                  && (HasTicket(x) ==> x.pc.ticket == s.workers[w].pc.ticket)
    ensures Tallies(s') && OnePlace(s')
  {
    WorkerMoves(s.workers, w, x);
    forall t: nat ensures Placed(s', t) {
      assert Placed(s, t);
      CarrierMoves(t, s.workers, w, x);
      if HasTicket(s.workers[w]) && !HasTicket(x) {
        CountOneMore(t, s.finished, s.workers[w].pc.ticket);
      }
    }
  }

  lemma PushAccounts(s: State, task: Task)
    requires Tallies(s) && OnePlace(s) && InOrder(s)
    ensures Tallies(Push(s, task)) && OnePlace(Push(s, task)) && InOrder(Push(s, task))
  {
    if !IsEmpty(task) {
      var s' := Push(s, task);
      forall t: nat ensures Placed(s', t) {
        assert Placed(s, t);
        assert Tickets(s'.queue) == Tickets(s.queue) + [s.next];
        CountOneMore(t, Tickets(s.queue), s.next);
        assert Carrying(t, s.workers) == Carrying(t, s'.workers);
      }
    }
  }

  /** Entry k leaves the queue, is logged as taken, and worker w becomes x, holding it. */
  predicate IsTake(s: State, s': State, w: nat, k: nat, x: Worker) {
    && w < |s.workers| && s.workers[w].pc.Scanning? && k < |s.queue|
    && x.pc == Held(s.queue[k].ticket, s.queue[k].task)
    && s'.workers == s.workers[w := x] && s'.queue == s.queue[..k] + s.queue[k + 1..]
    && s'.active == s.active + 1 && s'.idle == s.idle && s'.next == s.next
    && s'.taken == s.taken + [s.queue[k].ticket] && s'.finished == s.finished
  }

  lemma TakePlaced(s: State, s': State, w: nat, k: nat, x: Worker, t: nat)
    requires IsTake(s, s', w, k, x) && Placed(s, t)
    ensures Placed(s', t)
  {
    CarrierMoves(t, s.workers, w, x);
    CountWithout(t, s.queue, k, s'.queue);
    CountOneMore(t, s.taken, s.queue[k].ticket);
  }

  lemma TakeAccounts(s: State, s': State, w: nat, k: nat, x: Worker)
    requires Tallies(s) && OnePlace(s) && InOrder(s) && IsTake(s, s', w, k, x)
    ensures Tallies(s') && OnePlace(s') && InOrder(s')
  {
    WorkerMoves(s.workers, w, x);
    OrderWithout(s, s', k);
    forall t: nat ensures Placed(s', t) {
      TakePlaced(s, s', w, k, x, t);
    }
  }

  lemma RequeueAccounts(s: State, w: nat)
    requires Tallies(s) && OnePlace(s) && InOrder(s) && w < |s.workers| && s.workers[w].pc.Requeuing?
    ensures Tallies(Requeued(s, w)) && OnePlace(Requeued(s, w)) && InOrder(Requeued(s, w))
  {
    var x := s.workers[w];
    var mid := Put(s, w, x.(pc := Scanning, cbCo := if x.pc.own then None else x.cbCo))
               .(finished := s.finished + [x.pc.ticket]);
    MoveAccounts(s, mid, w, mid.workers[w]);
    PushAccounts(mid, Task(None, Some(x.pc.co), ANY));
  }

  lemma ScanAccounts(s: State, w: nat)
    requires Tallies(s) && OnePlace(s) && InOrder(s) && w < |s.workers| && s.workers[w].pc.Scanning?
    ensures Tallies(Scanned(s, w)) && OnePlace(Scanned(s, w)) && InOrder(Scanned(s, w))
  {
    var k, s' := FirstEligible(s.queue, s.workers[w].id, s.states), Scanned(s, w);
    if k < |s.queue| {
      TakeAccounts(s, s', w, k, s'.workers[w]);
    } else {
      MoveAccounts(s, s', w, s'.workers[w]);
    }
  }

  lemma ConcludeAccounts(s: State, w: nat)
    requires Tallies(s) && OnePlace(s) && InOrder(s) && w < |s.workers| && s.workers[w].pc.Counted?
    ensures Tallies(Concluded(s, w)) && OnePlace(Concluded(s, w)) && InOrder(Concluded(s, w))
  {
    MoveAccounts(s, Concluded(s, w), w, Concluded(s, w).workers[w]);
  }

  lemma ResumeAccounts(s: State, w: nat, made: nat)
    requires Tallies(s) && OnePlace(s) && InOrder(s) && w < |s.workers| && s.workers[w].pc.Held?
    ensures Tallies(Resumed(s, w, made)) && OnePlace(Resumed(s, w, made)) && InOrder(Resumed(s, w, made))
  {
    MoveAccounts(s, Resumed(s, w, made), w, Resumed(s, w, made).workers[w]);
  }

  lemma SimpleMoveAccounts(s: State, op: Op)
    requires Tallies(s) && OnePlace(s) && InOrder(s) && Enabled(s, op)
    requires op.Terminate? || op.Yield? || op.Decrement? || op.IdleReturn? || op.IdleYield?
    ensures Tallies(Apply(s, op)) && OnePlace(Apply(s, op)) && InOrder(Apply(s, op))
  {
    MoveAccounts(s, Apply(s, op), op.w, Apply(s, op).workers[op.w]);
  }

  lemma SameAccounts(s: State, s': State)
    requires Tallies(s) && OnePlace(s) && InOrder(s)
    requires s' == s.(states := s'.states, ended := s'.ended, known := s'.known,
                      stopping := s'.stopping, autostop := s'.autostop)
    ensures Tallies(s') && OnePlace(s') && InOrder(s')
  {
    forall t: nat ensures Placed(s', t) {
      assert Placed(s, t);
    }
  }

  lemma StepAccounts(s: State, op: Op)
    requires Tallies(s) && OnePlace(s) && InOrder(s) && Enabled(s, op)
    ensures Tallies(Apply(s, op)) && OnePlace(Apply(s, op)) && InOrder(Apply(s, op))
  {
    match op
    case Start => StartAccounts(s);
    case External(task) => PushAccounts(s, task);
    case Spawn(_, task) => PushAccounts(s, task);
    case SetAutostop => SameAccounts(s, Apply(s, op));
    case SetStopping => SameAccounts(s, Apply(s, op));
    case SetState(_, _) => SameAccounts(s, Apply(s, op));
    case Scan(w) => ScanAccounts(s, w);
    case Resume(w, made) => ResumeAccounts(s, w, made);
    case Conclude(w) => ConcludeAccounts(s, w);
    case Requeue(w) => RequeueAccounts(s, w);
    case _ => SimpleMoveAccounts(s, op);
  }

  lemma StartAccounts(s: State)
    requires Tallies(s) && OnePlace(s) && InOrder(s) && (s.stopping ==> NeverStarted(s))
    ensures Tallies(Started(s)) && OnePlace(Started(s)) && InOrder(Started(s))
  {
    if s.stopping {
      var s' := Started(s);
      assert Actives(s'.workers) == Actives(s.workers) && Idlers(s'.workers) == Idlers(s.workers);
      forall t: nat ensures Placed(s', t) {
        assert Placed(s, t);
        assert Carriers(t, s'.workers) == Carriers(t, s.workers);
        assert Carrying(t, s.workers) == Carrying(t, s'.workers);
      }
    }
  }

  // ----- what one step can do to the workers

  predicate NothingFor(s: State, w: nat) {
    w < |s.workers| && forall i :: 0 <= i < |s.queue| ==> !Eligible(s.queue[i].task, s.workers[w].id, s.states)
  }

  /** Worker w holds a coroutine that has ended, and that it will not recognise as TERM. */
  predicate Loses(s: State, w: nat) {
    && w < |s.workers| && s.workers[w].pc.Held? && s.workers[w].pc.task.co.Some?
    && s.workers[w].pc.task.co.value in s.ended && StateOf(s.states, s.workers[w].pc.task.co.value) != TERM
  }

  /** How a step changes the worker that takes it, from x to x'. */
  predicate LocalMove(s: State, op: Op, x: Worker, x': Worker)
    requires OfWorker(op)
  {
    && !x.pc.NotStarted? && !x'.pc.NotStarted? && x'.id == x.id
    && (op.Scan? ==> x.pc.Scanning?)
    && (x'.idleReturned <==> x.idleReturned || op.IdleReturn?)
    && (op.IdleReturn? ==> Stopping(s) && x'.pc.Scanning?)
    && (x'.pc.Exited? ==> op.Scan? && x.idleReturned && NothingFor(s, op.w))
    && (x'.pc.Idling? ==> !x.idleReturned || x.pc.Idling?)
    && (x'.pc.Lost? <==> op.Resume? && Loses(s, op.w))
    && !x.pc.Lost? && !x.pc.Exited?
    && (x'.pc.Requeuing? ==> op.Conclude? && x.pc.Counted? && StateOf(s.states, x.pc.co) == READY)
  }

  /** A step moves one worker at most, except for start(), which moves all; only start() may end a stop. */
  predicate Shape(s: State, op: Op, s': State) {
    && |s'.workers| == |s.workers|
    && (OfWorker(op) ==>
          && op.w < |s.workers| && s'.workers == s.workers[op.w := s'.workers[op.w]]
          && s'.stopping == s.stopping && s'.autostop == s.autostop
          && LocalMove(s, op, s.workers[op.w], s'.workers[op.w])
          && (s'.workers[op.w].pc.Exited? ==> s'.queue == s.queue))
    && (!OfWorker(op) && !op.Start? ==>
          s'.workers == s.workers && (s.autostop && s.stopping ==> s'.autostop && s'.stopping && s'.queue == s.queue))
    && (op.Start? ==>
          s' == s
          || (NeverStarted(s)
              && forall w :: 0 <= w < |s.workers| ==> s'.workers[w] == s.workers[w].(pc := Scanning)))
  }

  lemma OutsideShape(s: State, op: Op)
    requires Enabled(s, op) && !OfWorker(op)
    ensures Shape(s, op, Apply(s, op))
  {
    match op
    case Start =>
    case SetAutostop =>
    case SetStopping =>
    case External(_) =>
    case SetState(_, _) =>
  }

  lemma SchedulingShape(s: State, op: Op)
    requires Enabled(s, op) && (op.Scan? || op.Spawn? || op.IdleReturn? || op.IdleYield?)
    ensures Shape(s, op, Apply(s, op))
  {
    match op
    case Scan(_) =>
    case Spawn(_, _) =>
    case IdleReturn(_) =>
    case IdleYield(_) =>
  }

  lemma RunningShape(s: State, op: Op)
    requires Enabled(s, op) && (op.Resume? || op.Terminate? || op.Yield?)
    ensures Shape(s, op, Apply(s, op))
  {
    match op
    case Resume(_, _) =>
    case Terminate(_) =>
    case Yield(_) =>
  }

  lemma ReturningShape(s: State, op: Op)
    requires Enabled(s, op) && (op.Decrement? || op.Conclude? || op.Requeue?)
    ensures Shape(s, op, Apply(s, op))
  {
    match op
    case Decrement(_) =>
    case Conclude(_) =>
    case Requeue(_) =>
  }

  lemma StepShape(s: State, op: Op)
    requires Enabled(s, op)
    ensures Shape(s, op, Apply(s, op))
  {
    if !OfWorker(op) {
      OutsideShape(s, op);
    } else if op.Scan? || op.Spawn? || op.IdleReturn? || op.IdleYield? {
      SchedulingShape(s, op);
    } else if op.Resume? || op.Terminate? || op.Yield? {
      RunningShape(s, op);
    } else {
      ReturningShape(s, op);
    }
  }

  // ----- coroutine states and phases

  /** Worker w becomes x; only what w ran may leave EXEC unrun, and only what x runs may enter it. */
  lemma ExecMove(s: State, s': State, w: nat, x: Worker)
    requires ExecIsRun(s) && w < |s.workers| && s'.workers == s.workers[w := x]
    requires forall co :: StateOf(s'.states, co) == EXEC ==>
               Runs(x, co) || (StateOf(s.states, co) == EXEC && !Runs(s.workers[w], co))
    ensures ExecIsRun(s')
  {
    forall co | StateOf(s'.states, co) == EXEC
      ensures exists v :: 0 <= v < |s'.workers| && Runs(s'.workers[v], co)
    {
      if Runs(x, co) {
        assert Runs(s'.workers[w], co);
      } else {
        var v :| 0 <= v < |s.workers| && Runs(s.workers[v], co);
        assert Runs(s'.workers[v], co);
      }
    }
  }

  lemma ExecSame(s: State, s': State)
    requires ExecIsRun(s) && |s'.workers| == |s.workers|
    requires forall w, co :: 0 <= w < |s.workers| && Runs(s.workers[w], co) ==> Runs(s'.workers[w], co)
    requires forall co :: StateOf(s'.states, co) == EXEC ==> StateOf(s.states, co) == EXEC
    ensures ExecIsRun(s')
  {
    forall co | StateOf(s'.states, co) == EXEC
      ensures exists v :: 0 <= v < |s'.workers| && Runs(s'.workers[v], co)
    {
      var v :| 0 <= v < |s.workers| && Runs(s.workers[v], co);
      assert Runs(s'.workers[v], co);
    }
  }

  lemma ExecWhileRunning(s: State, op: Op)
    requires ExecIsRun(s) && Enabled(s, op) && (op.Resume? || op.Terminate? || op.Yield?)
    ensures ExecIsRun(Apply(s, op))
  {
    var s' := Apply(s, op);
    match op
    case Resume(w, _) => ExecMove(s, s', w, s'.workers[w]);
    case Terminate(w) => ExecMove(s, s', w, s'.workers[w]);
    case Yield(w) => ExecMove(s, s', w, s'.workers[w]);
  }

  lemma ExecOnReturn(s: State, op: Op)
    requires ExecIsRun(s) && Enabled(s, op) && (op.Decrement? || op.Conclude? || op.Requeue?)
    ensures ExecIsRun(Apply(s, op))
  {
    var s' := Apply(s, op);
    match op
    case Decrement(w) => ExecMove(s, s', w, s'.workers[w]);
    case Conclude(w) => ExecMove(s, s', w, s'.workers[w]);
    case Requeue(w) => ExecMove(s, s', w, s'.workers[w]);
  }

  lemma ExecElsewhere(s: State, op: Op)
    requires ExecIsRun(s) && Enabled(s, op)
    requires !OfWorker(op) || op.Scan? || op.Spawn? || op.IdleReturn? || op.IdleYield?
    ensures ExecIsRun(Apply(s, op))
  {
    var s' := Apply(s, op);
    match op
    case Start => ExecSame(s, s');
    case SetAutostop => ExecSame(s, s');
    case SetStopping => ExecSame(s, s');
    case External(_) => ExecSame(s, s');
    case SetState(_, _) => ExecSame(s, s');
    case Scan(w) => ExecMove(s, s', w, s'.workers[w]);
    case Spawn(_, _) => ExecSame(s, s');
    case IdleReturn(w) => ExecMove(s, s', w, s'.workers[w]);
    case IdleYield(w) => ExecMove(s, s', w, s'.workers[w]);
  }

  lemma StepExec(s: State, op: Op)
    requires ExecIsRun(s) && Enabled(s, op)
    ensures ExecIsRun(Apply(s, op))
  {
    if op.Resume? || op.Terminate? || op.Yield? {
      ExecWhileRunning(s, op);
    } else if op.Decrement? || op.Conclude? || op.Requeue? {
      ExecOnReturn(s, op);
    } else {
      ExecElsewhere(s, op);
    }
  }

  /** Worker w becomes x; the queue gains at most known coroutines. */
  lemma KnownMove(s: State, s': State, w: nat, x: Worker)
    requires Known(s) && w < |s.workers| && s'.workers == s.workers[w := x]
    requires s.known <= s'.known && s'.states.Keys <= s'.known
    requires KnownTo(s.workers[w], s.known) ==> KnownTo(x, s'.known)
    requires forall e :: e in s'.queue ==> e in s.queue || CoOf(e.task) <= s'.known
    ensures Known(s')
  {
    assert KnownTo(s.workers[w], s.known);
    forall v | 0 <= v < |s'.workers| ensures KnownTo(s'.workers[v], s'.known) {
      assert KnownTo(s.workers[v], s.known);
    }
    forall i | 0 <= i < |s'.queue| ensures CoOf(s'.queue[i].task) <= s'.known {
      if s'.queue[i] in s.queue {
        var j :| 0 <= j < |s.queue| && s.queue[j] == s'.queue[i];
      }
    }
  }

  lemma KnownSame(s: State, s': State)
    requires Known(s) && |s'.workers| == |s.workers|
    requires forall w :: 0 <= w < |s.workers| && KnownTo(s.workers[w], s.known) ==> KnownTo(s'.workers[w], s'.known)
    requires s.known <= s'.known && s'.states.Keys <= s'.known
    requires forall e :: e in s'.queue ==> e in s.queue || CoOf(e.task) <= s'.known
    ensures Known(s')
  {
    forall i | 0 <= i < |s'.queue| ensures CoOf(s'.queue[i].task) <= s'.known {
      if s'.queue[i] in s.queue {
        var j :| 0 <= j < |s.queue| && s.queue[j] == s'.queue[i];
      }
    }
  }

  lemma KnownElsewhere(s: State, op: Op)
    requires Known(s) && Enabled(s, op) && (!OfWorker(op) || op.Spawn?)
    ensures Known(Apply(s, op))
  {
    KnownSame(s, Apply(s, op));
  }

  lemma KnownScan(s: State, w: nat)
    requires Known(s) && w < |s.workers| && s.workers[w].pc.Scanning?
    ensures Known(Scanned(s, w))
  {
    KnownMove(s, Scanned(s, w), w, Scanned(s, w).workers[w]);
  }

  lemma KnownResume(s: State, w: nat, made: nat)
    requires Known(s) && w < |s.workers| && s.workers[w].pc.Held?
    ensures Known(Resumed(s, w, made))
  {
    KnownMove(s, Resumed(s, w, made), w, Resumed(s, w, made).workers[w]);
  }

  lemma KnownConclude(s: State, w: nat)
    requires Known(s) && w < |s.workers| && s.workers[w].pc.Counted?
    ensures Known(Concluded(s, w))
  {
    KnownMove(s, Concluded(s, w), w, Concluded(s, w).workers[w]);
  }

  lemma KnownRequeue(s: State, w: nat)
    requires Known(s) && w < |s.workers| && s.workers[w].pc.Requeuing?
    ensures Known(Requeued(s, w))
  {
    KnownMove(s, Requeued(s, w), w, Requeued(s, w).workers[w]);
  }

  lemma KnownSimple(s: State, op: Op)
    requires Known(s) && Enabled(s, op)
    requires op.Terminate? || op.Yield? || op.Decrement? || op.IdleReturn? || op.IdleYield?
    ensures Known(Apply(s, op))
  {
    KnownMove(s, Apply(s, op), op.w, Apply(s, op).workers[op.w]);
  }

  lemma StepKnown(s: State, op: Op)
    requires Known(s) && Enabled(s, op)
    ensures Known(Apply(s, op))
  {
    match op
    case Scan(w) => KnownScan(s, w);
    case Resume(w, made) => KnownResume(s, w, made);
    case Conclude(w) => KnownConclude(s, w);
    case Requeue(w) => KnownRequeue(s, w);
    case _ =>
      if !OfWorker(op) || op.Spawn? {
        KnownElsewhere(s, op);
      } else {
        KnownSimple(s, op);
      }
  }

  lemma PhasesMove(s: State, op: Op, s': State)
    requires Phases(s) && Shape(s, op, s') && OfWorker(op)
    ensures Phases(s')
  {
    assert PhaseOf(s.workers[op.w], s.autostop && s.stopping);
    assert !NeverStarted(s);
  }

  lemma PhasesSame(s: State, op: Op, s': State)
    requires Phases(s) && Shape(s, op, s') && !OfWorker(op)
    ensures Phases(s')
  {
    forall w | 0 <= w < |s.workers| ensures PhaseOf(s'.workers[w], s'.autostop && s'.stopping) {
      assert PhaseOf(s.workers[w], s.autostop && s.stopping);
    }
    assert s'.workers == s.workers && NeverStarted(s) ==> NeverStarted(s');
  }

  lemma PhasesKept(s: State, op: Op, s': State)
    requires Phases(s) && Shape(s, op, s')
    ensures Phases(s')
  {
    if OfWorker(op) {
      PhasesMove(s, op, s');
    } else {
      PhasesSame(s, op, s');
    }
  }

  lemma NoneBusy(s: State, task: Task)
    requires ExecIsRun(s)
    requires forall w :: 0 <= w < |s.workers| ==> !s.workers[w].pc.Running? && !s.workers[w].pc.Lost?
    ensures !Busy(task, s.states)
  {
    assert task.co.Some? ==> forall w :: 0 <= w < |s.workers| ==> !Runs(s.workers[w], task.co.value);
  }

  /** When the last worker leaves, what it could not take is pinned elsewhere: nothing is in state EXEC any more. */
  lemma StrandsNone(s: State, op: Op, s': State)
    requires Inv(s) && Shape(s, op, s') && AllExited(s')
    ensures NoneUnpinned(s')
  {
    if OfWorker(op) {
      assert s'.workers[op.w].pc.Exited?;
      assert forall w :: 0 <= w < |s.workers| && w != op.w ==> s'.workers[w] == s.workers[w];
      forall i | 0 <= i < |s.queue| ensures s.queue[i].task.thread != ANY {
        assert !Eligible(s.queue[i].task, s.workers[op.w].id, s.states);
        NoneBusy(s, s.queue[i].task);
      }
    } else {
      assert s'.workers[0].pc.Exited?;
      assert PhaseOf(s.workers[0], s.autostop && s.stopping);
    }
  }

  lemma StepInv(s: State, op: Op)
    requires Inv(s) && Enabled(s, op)
    ensures Inv(Apply(s, op))
  {
    var s' := Apply(s, op);
    StepAccounts(s, op);
    StepExec(s, op);
    StepKnown(s, op);
    StepShape(s, op);
    PhasesKept(s, op, s');
    if AllExited(s') {
      StrandsNone(s, op, s');
    }
  }
}
