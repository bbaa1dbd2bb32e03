/** Whole runs of the scheduler: any interleaving of its workers with the outside. */
module SchedulerRuns {
  import opened Options
  import opened Logs
  import opened SchedulerSteps

  ghost predicate Leads(s: State, op: Op, s': State) {
    Enabled(s, op) && s' == Apply(s, op)
  }

  /** A run: states from the scheduler before `start` on, each led to by a step that can happen in the one before. */
  ghost predicate IsRun(ids: seq<int>, ss: seq<State>, ops: seq<Op>) {
    && ids != [] && |ss| == |ops| + 1 && ss[0] == Fresh(ids)
    && forall i :: 0 <= i < |ops| ==> Leads(ss[i], ops[i], ss[i + 1])
  }

  lemma FreshInv(ids: seq<int>)
    requires ids != []
    ensures Inv(Fresh(ids))
  {
    var s := Fresh(ids);
    SumOfZeros(Actives(s.workers));
    SumOfZeros(Idlers(s.workers));
    forall t: nat ensures Placed(s, t) {
      SumOfZeros(Carriers(t, s.workers));
    }
    assert s.workers[0].pc.NotStarted?;
  }

  lemma {:induction false} ReachableInv(ids: seq<int>, ss: seq<State>, ops: seq<Op>, n: nat)
    requires IsRun(ids, ss, ops) && n < |ss|
    ensures Inv(ss[n]) && |ss[n].workers| == |ids|
    decreases n
  {
    if n == 0 {
      FreshInv(ids);
    } else {
      ReachableInv(ids, ss, ops, n - 1);
      assert Leads(ss[n - 1], ops[n - 1], ss[n]);
      StepInv(ss[n - 1], ops[n - 1]);
      StepShape(ss[n - 1], ops[n - 1]);
    }
  }

  // ----- where the tasks are

  predicate QueuedAs(s: State, t: nat, i: nat) {
    i < |s.queue| && s.queue[i].ticket == t
  }

  predicate HasTask(s: State, t: nat, w: nat) {
    w < |s.workers| && HasTicket(s.workers[w]) && s.workers[w].pc.ticket == t
  }

  predicate Finished(s: State, t: nat) {
    t in s.finished
  }

  lemma {:induction false} CountMember(t: nat, log: seq<nat>)
    ensures Count(t, log) > 0 <==> t in log
    decreases |log|
  {
    if log != [] {
      CountMember(t, log[..|log| - 1]);
      assert log == log[..|log| - 1] + [log[|log| - 1]];
    }
  }

  lemma {:induction false} SomePositive(ns: seq<nat>) returns (i: nat)
    requires Sum(ns) > 0
    ensures i < |ns| && ns[i] > 0
    decreases |ns|
  {
    if ns[|ns| - 1] > 0 {
      i := |ns| - 1;
    } else {
      i := SomePositive(ns[..|ns| - 1]);
    }
  }

  /** Every accepted task is queued, with a worker, or finished; it is taken, and finished, at most once. */
  lemma EveryTaskSomewhere(s: State, t: nat)
    requires Inv(s) && t < s.next
    ensures (exists i :: QueuedAs(s, t, i)) || (exists w :: HasTask(s, t, w)) || Finished(s, t)
    ensures Count(t, s.taken) <= 1 && Count(t, s.finished) <= 1
  {
    assert Placed(s, t);
    CountMember(t, Tickets(s.queue));
    CountMember(t, s.finished);
    if Count(t, Tickets(s.queue)) > 0 {
      var i: nat :| i < |s.queue| && Tickets(s.queue)[i] == t;
      assert QueuedAs(s, t, i);
    } else if Count(t, s.finished) == 0 {
      var w := SomePositive(Carriers(t, s.workers));
      assert HasTask(s, t, w);
    }
  }

  lemma NoneActive(s: State)
    requires Inv(s) && s.active == 0
    ensures forall w :: 0 <= w < |s.workers| ==> Active(s.workers[w]) == 0
  {
    SumZeroMeansZeros(Actives(s.workers));
    forall w | 0 <= w < |s.workers| ensures Active(s.workers[w]) == 0 {
      assert Actives(s.workers)[w] == 0;
    }
  }

  predicate IsBetween(s: State, t: nat, w: nat) {
    HasTask(s, t, w) && (s.workers[w].pc.Counted? || s.workers[w].pc.Requeuing?)
  }

  /** `stopping()` true means that nothing is queued or active; only what was just counted off may come back. */
  lemma StoppingMeansDone(ids: seq<int>, ss: seq<State>, ops: seq<Op>, n: nat, t: nat)
    requires IsRun(ids, ss, ops) && n < |ss| && Stopping(ss[n]) && t < ss[n].next
    ensures forall w :: 0 <= w < |ss[n].workers| ==> Active(ss[n].workers[w]) == 0
    ensures Finished(ss[n], t) || exists w :: IsBetween(ss[n], t, w)
  {
    var s := ss[n];
    ReachableInv(ids, ss, ops, n);
    NoneActive(s);
    EveryTaskSomewhere(s, t);
    if !Finished(s, t) {
      var w: nat :| HasTask(s, t, w);
      assert Active(s.workers[w]) == 0;
      assert IsBetween(s, t, w);
    }
  }

  /** A scan takes, of what its worker may run, the task that was added first. */
  lemma OldestFirst(s: State, w: nat, i: nat)
    requires Inv(s) && Enabled(s, Scan(w))
    requires i < |s.queue| && Eligible(s.queue[i].task, s.workers[w].id, s.states)
    ensures var x := Scanned(s, w).workers[w];
            && x.pc.Held? && x.pc.ticket <= s.queue[i].ticket
            && Eligible(x.pc.task, s.workers[w].id, s.states)
  {
    var k := FirstEligible(s.queue, s.workers[w].id, s.states);
    assert k <= i;
  }

  // ----- leaving

  lemma WhoReturns(s: State, op: Op, s': State, w: nat)
    requires Shape(s, op, s') && w < |s.workers|
    requires !s.workers[w].idleReturned && s'.workers[w].idleReturned
    ensures op == IdleReturn(w) && Stopping(s)
  {
    if OfWorker(op) {
      assert op.w == w;
    }
  }

  lemma WhoLeaves(s: State, op: Op, s': State, w: nat)
    requires Shape(s, op, s') && w < |s.workers|
    requires !s.workers[w].pc.Exited? && s'.workers[w].pc.Exited?
    ensures op == Scan(w) && NothingFor(s, w) && s.workers[w].idleReturned
  {
    if OfWorker(op) {
      assert op.w == w;
    }
  }

  lemma {:induction false} IdleReturnedAt(ids: seq<int>, ss: seq<State>, ops: seq<Op>, n: nat, w: nat) returns (i: nat)
    requires IsRun(ids, ss, ops) && n < |ss| && w < |ss[n].workers| && ss[n].workers[w].idleReturned
    ensures i < n && ops[i] == IdleReturn(w) && Stopping(ss[i])
    decreases n
  {
    if n == 0 {
      assert false;
    }
    var s, op := ss[n - 1], ops[n - 1];
    assert Leads(s, op, ss[n]);
    StepShape(s, op);
    if s.workers[w].idleReturned {
      i := IdleReturnedAt(ids, ss, ops, n - 1, w);
    } else {
      WhoReturns(s, op, ss[n], w);
      i := n - 1;
    }
  }

  /** A worker leaves only after its idle phase saw `stopping()` true, by a later scan that found nothing for it. */
  lemma {:induction false} LeftAfterStopping(ids: seq<int>, ss: seq<State>, ops: seq<Op>, n: nat, w: nat)
    returns (i: nat, j: nat)
    requires IsRun(ids, ss, ops) && n < |ss| && w < |ss[n].workers| && ss[n].workers[w].pc.Exited?
    ensures i < j < n
    ensures ops[i] == IdleReturn(w) && Stopping(ss[i])
    ensures ops[j] == Scan(w) && NothingFor(ss[j], w)
    decreases n
  {
    if n == 0 {
      assert false;
    }
    var s, op := ss[n - 1], ops[n - 1];
    assert Leads(s, op, ss[n]);
    StepShape(s, op);
    if s.workers[w].pc.Exited? {
      i, j := LeftAfterStopping(ids, ss, ops, n - 1, w);
    } else {
      WhoLeaves(s, op, ss[n], w);
      i := IdleReturnedAt(ids, ss, ops, n - 1, w);
      j := n - 1;
    }
  }

  // ----- when everybody has left

  predicate QueuedPinned(s: State, t: nat, i: nat) {
    QueuedAs(s, t, i) && s.queue[i].task.thread != ANY
  }

  /** Once every worker has left, each accepted task is finished, or still queued and pinned to a thread. */
  lemma NoneStranded(ids: seq<int>, ss: seq<State>, ops: seq<Op>, n: nat, t: nat)
    requires IsRun(ids, ss, ops) && n < |ss| && AllExited(ss[n]) && t < ss[n].next
    ensures Finished(ss[n], t) || exists i :: QueuedPinned(ss[n], t, i)
  {
    ReachableInv(ids, ss, ops, n);
    EveryTaskSomewhere(ss[n], t);
    if !Finished(ss[n], t) {
      assert forall w :: !HasTask(ss[n], t, w);
      var i :| QueuedAs(ss[n], t, i);
      assert QueuedPinned(ss[n], t, i);
    }
  }

  // ----- which tasks get done

  lemma TakenStep(s: State, op: Op, e: Entry)
    requires Enabled(s, op)
    ensures forall t :: t in s.taken ==> t in Apply(s, op).taken
    ensures e in s.queue && e !in Apply(s, op).queue ==>
              op.Scan? && Eligible(e.task, s.workers[op.w].id, s.states) && e.ticket in Apply(s, op).taken
  {
    if op.Scan? && e in s.queue {
      var k := FirstEligible(s.queue, s.workers[op.w].id, s.states);
      var i :| 0 <= i < |s.queue| && s.queue[i] == e;
      if k < |s.queue| && i != k {
        assert e == (s.queue[..k] + s.queue[k + 1..])[if i < k then i else i - 1];
      }
    }
  }

  /** A queued task stays queued until it is taken, and a taken one stays taken. */
  lemma {:induction false} QueuedOrTaken(ids: seq<int>, ss: seq<State>, ops: seq<Op>, i: nat, n: nat, e: Entry)
    requires IsRun(ids, ss, ops) && i <= n < |ss| && (e in ss[i].queue || e.ticket in ss[i].taken)
    ensures e in ss[n].queue || e.ticket in ss[n].taken
    ensures e.ticket in ss[i].taken ==> e.ticket in ss[n].taken
    decreases n
  {
    if i < n {
      assert Leads(ss[n - 1], ops[n - 1], ss[n]);
      QueuedOrTaken(ids, ss, ops, i, n - 1, e);
      TakenStep(ss[n - 1], ops[n - 1], e);
    }
  }

  /** Leaving and being lost are for good, and a worker keeps its thread id. */
  lemma {:induction false} GoneForGood(ids: seq<int>, ss: seq<State>, ops: seq<Op>, i: nat, n: nat, w: nat)
    requires IsRun(ids, ss, ops) && i <= n < |ss| && w < |ss[i].workers|
    ensures w < |ss[n].workers| && ss[n].workers[w].id == ss[i].workers[w].id
    ensures ss[i].workers[w].pc.Exited? || ss[i].workers[w].pc.Lost? ==> ss[n].workers[w] == ss[i].workers[w]
    decreases n
  {
    if i < n {
      GoneForGood(ids, ss, ops, i, n - 1, w);
      assert Leads(ss[n - 1], ops[n - 1], ss[n]);
      StepShape(ss[n - 1], ops[n - 1]);
      StaysGone(ss[n - 1], ops[n - 1], ss[n], w);
    }
  }

  lemma StaysGone(s: State, op: Op, s': State, w: nat)
    requires Shape(s, op, s') && w < |s.workers|
    ensures s'.workers[w].id == s.workers[w].id
    ensures s.workers[w].pc.Exited? || s.workers[w].pc.Lost? ==> s'.workers[w] == s.workers[w]
  {
    assert op.Start? && s' != s ==> s.workers[w].pc.NotStarted?;
  }

  /** A worker that may run the task and has not left. */
  predicate Fits(s: State, task: Task, w: nat) {
    w < |s.workers| && !Elsewhere(task, s.workers[w].id) && !s.workers[w].pc.Exited?
  }

  /** The scan by which a worker leaves. */
  lemma {:induction false} LeavingScan(ids: seq<int>, ss: seq<State>, ops: seq<Op>, i: nat, n: nat, w: nat)
    returns (j: nat)
    requires IsRun(ids, ss, ops) && i <= n < |ss| && w < |ss[i].workers| && w < |ss[n].workers|
    requires !ss[i].workers[w].pc.Exited? && ss[n].workers[w].pc.Exited?
    ensures i <= j < n && NothingFor(ss[j], w)
    decreases n
  {
    GoneForGood(ids, ss, ops, i, n - 1, w);
    if ss[n - 1].workers[w].pc.Exited? {
      j := LeavingScan(ids, ss, ops, i, n - 1, w);
    } else {
      assert Leads(ss[n - 1], ops[n - 1], ss[n]);
      StepShape(ss[n - 1], ops[n - 1]);
      WhoLeaves(ss[n - 1], ops[n - 1], ss[n], w);
      j := n - 1;
    }
  }

  /** A callback is taken before a worker that may run it leaves. */
  lemma TakenBeforeLeaving(ids: seq<int>, ss: seq<State>, ops: seq<Op>, i: nat, n: nat, e: Entry, w: nat)
    requires IsRun(ids, ss, ops) && i <= n < |ss| && e in ss[i].queue && e.task.co.None?
    requires Fits(ss[i], e.task, w) && w < |ss[n].workers| && ss[n].workers[w].pc.Exited?
    ensures e.ticket in ss[n].taken
  {
    var j := LeavingScan(ids, ss, ops, i, n, w);
    GoneForGood(ids, ss, ops, i, j, w);
    QueuedOrTaken(ids, ss, ops, i, j, e);
    assert e !in ss[j].queue by {
      assert !Busy(e.task, ss[j].states);
    }
    QueuedOrTaken(ids, ss, ops, j, n, e);
  }

  lemma FittedBefore(ids: seq<int>, ss: seq<State>, ops: seq<Op>, i: nat, n: nat, task: Task, w: nat)
    requires IsRun(ids, ss, ops) && i <= n < |ss| && Fits(ss[n], task, w)
    ensures Fits(ss[i], task, w)
  {
    ReachableInv(ids, ss, ops, i);
    ReachableInv(ids, ss, ops, n);
    GoneForGood(ids, ss, ops, i, n, w);
  }

  /** While nobody is left who may run it, a task stays queued. */
  lemma {:induction false} StaysQueued(ids: seq<int>, ss: seq<State>, ops: seq<Op>, i: nat, n: nat, e: Entry)
    requires IsRun(ids, ss, ops) && i <= n < |ss| && e in ss[i].queue
    requires forall w :: !Fits(ss[i], e.task, w)
    ensures e in ss[n].queue
    decreases n
  {
    if i < n {
      StaysQueued(ids, ss, ops, i, n - 1, e);
      var s, op := ss[n - 1], ops[n - 1];
      assert Leads(s, op, ss[n]);
      TakenStep(s, op, e);
      if op.Scan? && Fits(s, e.task, op.w) {
        FittedBefore(ids, ss, ops, i, n - 1, e.task, op.w);
      }
    }
  }

  /** When everybody has left, finished is the same as taken, and that excludes queued. */
  lemma FinishedIsTaken(s: State, e: Entry)
    requires Inv(s) && AllExited(s)
    ensures Finished(s, e.ticket) <==> e.ticket in s.taken
    ensures e.ticket in s.taken ==> e !in s.queue
  {
    assert Placed(s, e.ticket);
    CountMember(e.ticket, s.taken);
    CountMember(e.ticket, s.finished);
    CountMember(e.ticket, Tickets(s.queue));
    SumOfZeros(Carriers(e.ticket, s.workers));
    if e in s.queue {
      var k :| 0 <= k < |s.queue| && s.queue[k] == e;
      assert Tickets(s.queue)[k] == e.ticket;
    }
  }

  /** Any task, pinned or not, that gets finished was queued while somebody was left who may run it. */
  lemma FinishedOnlyIf(ids: seq<int>, ss: seq<State>, ops: seq<Op>, i: nat, n: nat, e: Entry)
    requires IsRun(ids, ss, ops) && i <= n < |ss| && e in ss[i].queue && AllExited(ss[n])
    ensures Finished(ss[n], e.ticket) ==> exists w :: Fits(ss[i], e.task, w)
  {
    ReachableInv(ids, ss, ops, n);
    FinishedIsTaken(ss[n], e);
    if forall w :: !Fits(ss[i], e.task, w) {
      StaysQueued(ids, ss, ops, i, n, e);
    }
  }

  /** Whoever may run a queued callback and has not left sees to it; for an unpinned task, somebody does. */
  lemma FinishedIf(ids: seq<int>, ss: seq<State>, ops: seq<Op>, i: nat, n: nat, e: Entry, w: nat)
    requires IsRun(ids, ss, ops) && i <= n < |ss| && e in ss[i].queue && AllExited(ss[n])
    requires e.task.thread == ANY || (e.task.co.None? && Fits(ss[i], e.task, w))
    ensures Finished(ss[n], e.ticket)
  {
    ReachableInv(ids, ss, ops, n);
    FinishedIsTaken(ss[n], e);
    if e.task.thread == ANY {
      QueuedOrTaken(ids, ss, ops, i, n, e);
      assert e !in ss[n].queue;
    } else {
      GoneForGood(ids, ss, ops, i, n, w);
      TakenBeforeLeaving(ids, ss, ops, i, n, e, w);
    }
  }

  /**
   A queued task, but for a coroutine pinned to a thread, is finished by the time everybody has left if and only if,
   at any one moment it is queued, somebody who may run it has not left yet.
   */
  lemma FinishedIff(ids: seq<int>, ss: seq<State>, ops: seq<Op>, i: nat, n: nat, e: Entry)
    requires IsRun(ids, ss, ops) && i <= n < |ss| && e in ss[i].queue && AllExited(ss[n])
    requires e.task.co.None? || e.task.thread == ANY
    ensures Finished(ss[n], e.ticket) <==> exists w :: Fits(ss[i], e.task, w)
  {
    FinishedOnlyIf(ids, ss, ops, i, n, e);
    if e.task.thread == ANY {
      FinishedIf(ids, ss, ops, i, n, e, 0);
    } else if w :| Fits(ss[i], e.task, w) {
      FinishedIf(ids, ss, ops, i, n, e, w);
    }
  }

  // ----- losing a thread

  predicate AllGone(s: State) {
    forall w :: 0 <= w < |s.workers| ==> s.workers[w].pc.Exited? || s.workers[w].pc.Lost?
  }

  predicate NobodyLost(s: State) {
    forall w :: 0 <= w < |s.workers| ==> !s.workers[w].pc.Lost?
  }

  /** Done with, or pinned to a thread and still queued. */
  ghost predicate NotStranded(s: State, t: nat) {
    Finished(s, t) || exists i :: QueuedPinned(s, t, i)
  }

  /** The task that a lost worker carries is neither finished nor queued. */
  lemma LostTaskIsStranded(s: State, w: nat)
    requires Inv(s) && w < |s.workers| && s.workers[w].pc.Lost?
    ensures s.workers[w].pc.ticket < s.next && !NotStranded(s, s.workers[w].pc.ticket)
  {
    var t := s.workers[w].pc.ticket;
    assert Placed(s, t);
    SumUpdate(Carriers(t, s.workers), w, 0);
    CountMember(t, s.finished);
    CountMember(t, Tickets(s.queue));
    forall i: nat ensures !QueuedAs(s, t, i) {
      assert i < |s.queue| ==> Tickets(s.queue)[i] in Tickets(s.queue);
    }
  }

  /** Once every thread has ended, one way or the other: no accepted task is stranded if and only if nobody was lost. */
  lemma NoneStrandedIff(ids: seq<int>, ss: seq<State>, ops: seq<Op>, n: nat)
    requires IsRun(ids, ss, ops) && n < |ss| && AllGone(ss[n])
    ensures (forall t: nat :: t < ss[n].next ==> NotStranded(ss[n], t)) <==> NobodyLost(ss[n])
  {
    if NobodyLost(ss[n]) {
      forall t: nat | t < ss[n].next ensures NotStranded(ss[n], t) {
        NoneStranded(ids, ss, ops, n, t);
      }
    } else {
      var w :| 0 <= w < |ss[n].workers| && ss[n].workers[w].pc.Lost?;
      ReachableInv(ids, ss, ops, n);
      LostTaskIsStranded(ss[n], w);
    }
  }

  predicate ResumesEnded(s: State, op: Op) {
    op.Resume? && Loses(s, op.w)
  }

  /** And nobody was lost if and only if no step of the run resumed a coroutine that had ended. */
  lemma {:induction false} NobodyLostIff(ids: seq<int>, ss: seq<State>, ops: seq<Op>, n: nat)
    requires IsRun(ids, ss, ops) && n < |ss|
    ensures NobodyLost(ss[n]) <==> forall i :: 0 <= i < n ==> !ResumesEnded(ss[i], ops[i])
    decreases n
  {
    if n == 0 {
      assert NobodyLost(Fresh(ids));
    } else {
      NobodyLostIff(ids, ss, ops, n - 1);
      LostAlong(ids, ss, ops, n - 1);
      assert n - 1 + 1 == n;
      assert (forall i :: 0 <= i < n ==> !ResumesEnded(ss[i], ops[i])) <==>
               (forall i :: 0 <= i < n - 1 ==> !ResumesEnded(ss[i], ops[i])) && !ResumesEnded(ss[n - 1], ops[n - 1]);
    }
  }

  lemma LostAlong(ids: seq<int>, ss: seq<State>, ops: seq<Op>, i: nat)
    requires IsRun(ids, ss, ops) && i < |ops|
    ensures NobodyLost(ss[i + 1]) <==> NobodyLost(ss[i]) && !ResumesEnded(ss[i], ops[i])
  {
    assert Leads(ss[i], ops[i], ss[i + 1]);
    LostStep(ss[i], ops[i], ss[i + 1]);
  }

  /** A worker is lost by resuming a coroutine that has ended and is not in state TERM, and in no other way. */
  lemma LostExactly(s: State, op: Op, w: nat)
    requires Enabled(s, op) && w < |s.workers| && !s.workers[w].pc.Lost?
    ensures w < |Apply(s, op).workers|
    ensures Apply(s, op).workers[w].pc.Lost? <==> op.Resume? && op.w == w && Loses(s, w)
  {
    StepShape(s, op);
  }

  lemma LostStep(s: State, op: Op, s': State)
    requires Leads(s, op, s')
    ensures NobodyLost(s') <==> NobodyLost(s) && !ResumesEnded(s, op)
  {
    StepShape(s, op);
    forall w | 0 <= w < |s.workers|
      ensures s'.workers[w].pc.Lost? <==> s.workers[w].pc.Lost? || (ResumesEnded(s, op) && op.w == w)
    {
      if s.workers[w].pc.Lost? {
        StaysGone(s, op, s', w);
      } else {
        LostExactly(s, op, w);
      }
    }
  }

  /** Once a worker is lost `stopping()` is false for ever, */
  lemma LostBlocksStopping(ids: seq<int>, ss: seq<State>, ops: seq<Op>, i: nat, n: nat, w: nat)
    requires IsRun(ids, ss, ops) && i <= n < |ss| && w < |ss[i].workers| && ss[i].workers[w].pc.Lost?
    ensures !Stopping(ss[n])
  {
    ReachableInv(ids, ss, ops, n);
    GoneForGood(ids, ss, ops, i, n, w);
    SumUpdate(Actives(ss[n].workers), w, 0);
  }

  /** and a worker whose idle has not returned by then never leaves. */
  lemma LostKeepsOthers(ids: seq<int>, ss: seq<State>, ops: seq<Op>, i: nat, n: nat, w: nat, v: nat)
    requires IsRun(ids, ss, ops) && i <= n < |ss| && w < |ss[i].workers| && ss[i].workers[w].pc.Lost?
    requires v < |ss[i].workers| && !ss[i].workers[v].idleReturned
    ensures v < |ss[n].workers| && !ss[n].workers[v].idleReturned && !ss[n].workers[v].pc.Exited?
    decreases n
  {
    ReachableInv(ids, ss, ops, n);
    GoneForGood(ids, ss, ops, i, n, v);
    assert PhaseOf(ss[n].workers[v], ss[n].autostop && ss[n].stopping);
    if i < n {
      LostKeepsOthers(ids, ss, ops, i, n - 1, w, v);
      LostBlocksStopping(ids, ss, ops, i, n - 1, w);
      assert Leads(ss[n - 1], ops[n - 1], ss[n]);
      StepShape(ss[n - 1], ops[n - 1]);
      if ss[n].workers[v].idleReturned {
        WhoReturns(ss[n - 1], ops[n - 1], ss[n], v);
      }
    }
  }

  // ----- without READY

  predicate AllReturned(s: State) {
    forall w :: 0 <= w < |s.workers| ==> s.workers[w].idleReturned
  }

  predicate SetsReady(op: Op) {
    op.SetState? && op.st == READY
  }

  /** No coroutine is READY or on its way back into the queue. */
  ghost predicate NoReady(s: State) {
    && (forall co :: StateOf(s.states, co) != READY)
    && (forall w :: 0 <= w < |s.workers| ==> !s.workers[w].pc.Requeuing?)
  }

  predicate NothingLeft(s: State) {
    s.queue == [] && s.active == 0
  }

  lemma StatesNoReady(s: State, op: Op, co: nat)
    requires NoReady(s) && Enabled(s, op) && !SetsReady(op)
    ensures StateOf(Apply(s, op).states, co) != READY
  {
    assert StateOf(s.states, co) != READY;
  }

  lemma StepNoReady(s: State, op: Op, s': State)
    requires NoReady(s) && Shape(s, op, s') && forall co :: StateOf(s'.states, co) != READY
    ensures NoReady(s')
  {
    assert OfWorker(op) && s.workers[op.w].pc.Counted? ==> StateOf(s.states, s.workers[op.w].pc.co) != READY;
  }

  /** Once idle has returned everywhere with nothing left, nothing can be added any more. */
  lemma StepNothingLeft(s: State, op: Op)
    requires Inv(s) && NoReady(s) && Enabled(s, op)
    requires AllReturned(s) && NothingLeft(s)
    ensures NothingLeft(Apply(s, op))
  {
    NoneActive(s);
    assert PhaseOf(s.workers[0], s.autostop && s.stopping);
    if OfWorker(op) {
      assert PhaseOf(s.workers[op.w], s.autostop && s.stopping) && Active(s.workers[op.w]) == 0;
    }
  }

  lemma StepReturned(s: State, op: Op, s': State)
    requires Shape(s, op, s') && AllReturned(s')
    ensures AllReturned(s) || (op.IdleReturn? && Stopping(s))
  {
    if w :| 0 <= w < |s.workers| && !s.workers[w].idleReturned {
      WhoReturns(s, op, s', w);
    }
  }

  lemma {:induction false} ReachableCalm(ids: seq<int>, ss: seq<State>, ops: seq<Op>, n: nat)
    requires IsRun(ids, ss, ops) && n < |ss|
    requires forall i :: 0 <= i < n ==> !SetsReady(ops[i])
    ensures NoReady(ss[n]) && (AllReturned(ss[n]) ==> NothingLeft(ss[n]))
    decreases n
  {
    if n == 0 {
      assert !ss[0].workers[0].idleReturned;
    } else {
      var s, op := ss[n - 1], ops[n - 1];
      assert Leads(s, op, ss[n]);
      ReachableCalm(ids, ss, ops, n - 1);
      ReachableInv(ids, ss, ops, n - 1);
      StepShape(s, op);
      forall co ensures StateOf(ss[n].states, co) != READY {
        StatesNoReady(s, op, co);
      }
      StepNoReady(s, op, ss[n]);
      if AllReturned(ss[n]) {
        StepReturned(s, op, ss[n]);
        if AllReturned(s) {
          StepNothingLeft(s, op);
        }
      }
    }
  }

  /** If nobody ever sets READY, then once every worker has left, every accepted task, pinned or not, is finished. */
  lemma AllFinished(ids: seq<int>, ss: seq<State>, ops: seq<Op>, n: nat, t: nat)
    requires IsRun(ids, ss, ops) && n < |ss| && AllExited(ss[n]) && t < ss[n].next
    requires forall i :: 0 <= i < n ==> !SetsReady(ops[i])
    ensures ss[n].queue == [] && Finished(ss[n], t)
  {
    ReachableInv(ids, ss, ops, n);
    ReachableCalm(ids, ss, ops, n);
    forall w | 0 <= w < |ss[n].workers| ensures ss[n].workers[w].idleReturned {
      assert PhaseOf(ss[n].workers[w], ss[n].autostop && ss[n].stopping);
    }
    NoneStranded(ids, ss, ops, n, t);
  }

  // ----- new coroutines

  predicate InHands(x: Worker, co: nat) {
    || x.cbCo == Some(co)
    || (x.pc.Held? && x.pc.task.co == Some(co))
    || (HasTicket(x) && !x.pc.Held? && x.pc.co == co)
  }

  /** The coroutine made for a callback is none that has a state, is queued, or is in anybody's hands. */
  lemma MadeIsNew(ids: seq<int>, ss: seq<State>, ops: seq<Op>, n: nat)
    requires IsRun(ids, ss, ops) && n < |ops| && ops[n].Resume? && ops[n].w < |ss[n].workers|
    requires ss[n].workers[ops[n].w].pc.Held? && MakesCo(ss[n], ops[n].w)
    ensures ops[n].made !in ss[n].states
    ensures forall i :: 0 <= i < |ss[n].queue| ==> ss[n].queue[i].task.co != Some(ops[n].made)
    ensures forall w :: 0 <= w < |ss[n].workers| ==> !InHands(ss[n].workers[w], ops[n].made)
  {
    ReachableInv(ids, ss, ops, n);
    assert Leads(ss[n], ops[n], ss[n + 1]);
    forall w | 0 <= w < |ss[n].workers| ensures !InHands(ss[n].workers[w], ops[n].made) {
      assert KnownTo(ss[n].workers[w], ss[n].known);
    }
  }
}
