/** What each step of the scheduler does to workers and coroutines, and which coroutine a callback is run in. */
module SchedulerCoroutines {
  import opened Options
  import opened SchedulerSteps
  import opened SchedulerRuns

  // ----- step by step

  /** Worker w holds a task that it will run as a callback. */
  predicate RunsCallback(s: State, w: nat) {
    && w < |s.workers| && s.workers[w].pc.Held? && s.workers[w].pc.task.cb.Some?
    && !(s.workers[w].pc.task.co.Some? && StateOf(s.states, s.workers[w].pc.task.co.value) != TERM)
  }

  /** Worker w holds a task that it will run as a coroutine, and which. */
  predicate RunsTask(s: State, w: nat, co: nat) {
    && w < |s.workers| && s.workers[w].pc.Held? && s.workers[w].pc.task.co == Some(co) && StateOf(s.states, co) != TERM
  }

  /** The coroutine that the callback of worker w is run in. */
  function CallbackCo(s: State, w: nat, made: nat): nat
    requires w < |s.workers|
  {
    if s.workers[w].cbCo.Some? then s.workers[w].cbCo.value else made
  }

  /** Worker w is past the decrement with this coroutine, and finds it in this state. */
  predicate Finds(s: State, w: nat, co: nat, st: CoState) {
    w < |s.workers| && s.workers[w].pc.Counted? && s.workers[w].pc.co == co && StateOf(s.states, co) == st
  }

  /** Resuming sets EXEC, the end of the function TERM, a yield HOLD; no other step of `run` ever leaves EXEC behind. */
  lemma StatesExact(s: State, op: Op, co: nat)
    requires Enabled(s, op)
    ensures var before, after := StateOf(s.states, co), StateOf(Apply(s, op).states, co);
            && (op.SetState? && op.co == co ==> after == op.st)
            && (op.Resume? && RunsTask(s, op.w, co) ==> after == EXEC)
            && (op.Resume? && RunsCallback(s, op.w) && CallbackCo(s, op.w, op.made) == co ==> after == EXEC)
            && (op.Terminate? && s.workers[op.w].pc.co == co ==> after == TERM)
            && (op.Yield? && s.workers[op.w].pc.co == co ==> after == HOLD)
            && (op.Conclude? && s.workers[op.w].pc.co == co ==>
                  after == if before == READY then READY
                           else if before == TERM then (if s.workers[op.w].pc.own then INIT else TERM)
                           else HOLD)
            && (after != before ==>
                  || (op.SetState? && op.co == co)
                  || (op.Resume? && (RunsTask(s, op.w, co)
                                     || (RunsCallback(s, op.w) && CallbackCo(s, op.w, op.made) == co)))
                  || ((op.Terminate? || op.Yield? || op.Conclude?) && s.workers[op.w].pc.co == co))
  {
    match op
    case Resume(w, made) => StatesAtResume(s, w, made, co);
    case Conclude(w) =>
    case _ =>
  }

  lemma StatesAtResume(s: State, w: nat, made: nat, co: nat)
    requires Enabled(s, Resume(w, made))
    ensures var after := StateOf(Resumed(s, w, made).states, co);
            && (RunsTask(s, w, co) ==> after == EXEC)
            && (RunsCallback(s, w) && CallbackCo(s, w, made) == co ==> after == EXEC)
            && (!RunsTask(s, w, co) && !(RunsCallback(s, w) && CallbackCo(s, w, made) == co) ==>
                  after == StateOf(s.states, co))
  {
  }

  /** A coroutine has ended from its last yield on, until it is reset: to a callback, or found in TERM by its worker. */
  lemma EndedExact(s: State, op: Op, co: nat)
    requires Enabled(s, op)
    ensures co in Apply(s, op).ended <==>
              || (op.Yield? && s.workers[op.w].pc.Ending? && s.workers[op.w].pc.co == co)
              || (co in s.ended
                  && !(op.Resume? && RunsCallback(s, op.w) && CallbackCo(s, op.w, op.made) == co)
                  && !(op.Conclude? && s.workers[op.w].pc.own && Finds(s, op.w, co, TERM)))
  {
    match op
    case Resume(_, _) =>
    case Yield(_) =>
    case Conclude(_) =>
    case _ =>
  }

  /** A worker runs what it holds: the coroutine of the task, or its callback; a coroutine that has ended loses it. */
  lemma ResumeExact(s: State, w: nat, made: nat)
    requires Enabled(s, Resume(w, made))
    ensures var x, x' := s.workers[w], Apply(s, Resume(w, made)).workers[w];
            && (forall co :: RunsTask(s, w, co) ==>
                  x'.pc == if co in s.ended then Lost(x.pc.ticket, co) else Running(x.pc.ticket, co, false))
            && (RunsCallback(s, w) ==> x'.pc == Running(x.pc.ticket, CallbackCo(s, w, made), true))
            && (x.pc.task.cb.None? && (x.pc.task.co.Some? ==> StateOf(s.states, x.pc.task.co.value) == TERM) ==>
                  x'.pc == Scanning)
  {
  }

  /** Worker w may take this task: it is not pinned to another thread, and no coroutine in state EXEC. */
  predicate MayTake(s: State, w: nat, task: Task) {
    && w < |s.workers|
    && (task.thread == -1 || task.thread == s.workers[w].id)
    && !(task.co.Some? && StateOf(s.states, task.co.value) == EXEC)
  }

  lemma EligibleMayBeTaken(s: State, w: nat)
    requires w < |s.workers|
    ensures forall i :: 0 <= i < |s.queue| ==>
              (Eligible(s.queue[i].task, s.workers[w].id, s.states) <==> MayTake(s, w, s.queue[i].task))
  {
  }

  /** A scan takes the first task that its worker may take, and leaves the others in place. */
  lemma ScanTakes(s: State, w: nat, k: nat)
    requires Enabled(s, Scan(w)) && k < |s.queue| && MayTake(s, w, s.queue[k].task)
    requires forall i :: 0 <= i < k ==> !MayTake(s, w, s.queue[i].task)
    ensures var s' := Apply(s, Scan(w));
            && s'.workers[w].pc == Held(s.queue[k].ticket, s.queue[k].task)
            && s'.queue == s.queue[..k] + s.queue[k + 1..]
  {
    EligibleMayBeTaken(s, w);
    assert FirstEligible(s.queue, s.workers[w].id, s.states) == k;
  }

  /** Without one the worker goes idle, or leaves if its idle has returned. */
  lemma ScanFindsNone(s: State, w: nat)
    requires Enabled(s, Scan(w)) && forall i :: 0 <= i < |s.queue| ==> !MayTake(s, w, s.queue[i].task)
    ensures var s' := Apply(s, Scan(w));
            && s'.workers[w].pc == (if s.workers[w].idleReturned then Exited else Idling) && s'.queue == s.queue
  {
    EligibleMayBeTaken(s, w);
  }

  /** The way of a worker through `run` with its task, and back from idle to the next scan. */
  lemma PlacesExact(s: State, op: Op)
    requires Enabled(s, op) && OfWorker(op)
    ensures var pc, pc' := s.workers[op.w].pc, Apply(s, op).workers[op.w].pc;
            && (op.Terminate? ==> pc' == Ending(pc.ticket, pc.co, pc.own))
            && (op.Yield? ==> pc' == Returned(pc.ticket, pc.co, pc.own))
            && (op.Decrement? ==> pc' == Counted(pc.ticket, pc.co, pc.own))
            && (op.Requeue? || op.IdleReturn? || op.IdleYield? ==> pc' == Scanning)
            && (op.Spawn? ==> pc' == pc)
  {
    match op
    case Spawn(_, _) =>
    case Requeue(_) =>
    case _ =>
  }

  /** Nobody but its worker holds a task that is pinned to a thread. */
  lemma {:induction false} PinnedStaysAtHome(ids: seq<int>, ss: seq<State>, ops: seq<Op>, n: nat, w: nat)
    requires IsRun(ids, ss, ops) && n < |ss| && w < |ids|
    ensures w < |ss[n].workers| && ss[n].workers[w].id == ids[w]
    ensures ss[n].workers[w].pc.Held? ==>
              ss[n].workers[w].pc.task.thread == -1 || ss[n].workers[w].pc.task.thread == ids[w]
    decreases n
  {
    if n > 0 {
      PinnedStaysAtHome(ids, ss, ops, n - 1, w);
      assert Leads(ss[n - 1], ops[n - 1], ss[n]);
      PinnedStep(ss[n - 1], ops[n - 1], w);
    }
  }

  lemma TakenMayBeTaken(s: State, w: nat)
    requires Enabled(s, Scan(w))
    ensures var pc := Apply(s, Scan(w)).workers[w].pc; pc.Held? ==> MayTake(s, w, pc.task)
  {
  }

  lemma OnlyScanTakes(s: State, op: Op)
    requires Enabled(s, op) && OfWorker(op) && !op.Scan?
    ensures var x, x' := s.workers[op.w], Apply(s, op).workers[op.w]; x'.pc.Held? ==> x'.pc == x.pc
  {
    match op
    case Resume(_, _) =>
    case Conclude(_) =>
    case _ => PlacesExact(s, op);
  }

  lemma PinnedStep(s: State, op: Op, w: nat)
    requires Enabled(s, op) && w < |s.workers|
    ensures w < |Apply(s, op).workers|
    ensures var x, x' := s.workers[w], Apply(s, op).workers[w];
            x'.id == x.id && (x'.pc.Held? ==> x'.pc == x.pc || (op == Scan(w) && MayTake(s, w, x'.pc.task)))
  {
    StepShape(s, op);
    if op == Scan(w) {
      TakenMayBeTaken(s, w);
    } else if OfWorker(op) && op.w == w {
      OnlyScanTakes(s, op);
    }
  }

  /** A READY coroutine is added again, any other not; and only a READY one makes its worker do so. */
  lemma ConcludeExact(s: State, w: nat)
    requires Enabled(s, Conclude(w))
    ensures var pc := s.workers[w].pc;
            Apply(s, Conclude(w)).workers[w].pc ==
              if StateOf(s.states, pc.co) == READY then Requeuing(pc.ticket, pc.co, pc.own) else Scanning
  {
  }

  /** What is queued: the task given, or the READY coroutine, unpinned, at the end; no other step adds anything. */
  lemma QueueExact(s: State, op: Op)
    requires Enabled(s, op)
    ensures var q, q' := s.queue, Apply(s, op).queue;
            && ((op.External? || op.Spawn?) && !IsEmpty(op.task) ==> q' == q + [Entry(s.next, op.task)])
            && ((op.External? || op.Spawn?) && IsEmpty(op.task) ==> q' == q)
            && (op.Requeue? ==> q' == q + [Entry(s.next, Task(None, Some(s.workers[op.w].pc.co), ANY))])
            && (!op.External? && !op.Spawn? && !op.Requeue? && !op.Scan? ==> q' == q)
  {
    match op
    case Requeue(_) =>
    case Scan(_) =>
    case Resume(_, _) =>
    case Conclude(_) =>
    case _ =>
  }

  /** The flags: stop() sets both, start() clears one, and nothing else touches them. */
  lemma FlagsExact(s: State, op: Op)
    requires Enabled(s, op)
    ensures Apply(s, op).autostop <==> s.autostop || op.SetAutostop?
    ensures Apply(s, op).stopping <==> op.SetStopping? || (s.stopping && !op.Start?)
  {
    match op
    case Requeue(_) =>
    case Scan(_) =>
    case Resume(_, _) =>
    case Conclude(_) =>
    case _ =>
  }

  // ----- the coroutine of a worker's callbacks

  /** The worker gives up the coroutine: put on HOLD, or added again as READY. */
  predicate GivesUp(s: State, op: Op, w: nat) {
    && w < |s.workers|
    && ((op == Conclude(w) && s.workers[w].pc.Counted? && s.workers[w].pc.own
         && StateOf(s.states, s.workers[w].pc.co) != READY && StateOf(s.states, s.workers[w].pc.co) != TERM)
        || (op == Requeue(w) && s.workers[w].pc.Requeuing? && s.workers[w].pc.own))
  }

  /** The coroutine that worker w has for callbacks after a step, x being what the worker becomes. */
  predicate CbCoMove(s: State, op: Op, w: nat, x: Worker)
    requires w < |s.workers|
  {
    x.cbCo == if op.Resume? && op.w == w && RunsCallback(s, w) then Some(CallbackCo(s, w, op.made))
              else if GivesUp(s, op, w) then None
              else s.workers[w].cbCo
  }

  lemma CbCoTurn(s: State, op: Op)
    requires Enabled(s, op) && (op.Resume? || op.Conclude? || op.Requeue?)
    ensures CbCoMove(s, op, op.w, Apply(s, op).workers[op.w])
  {
    match op
    case Resume(_, _) =>
    case Conclude(_) =>
    case Requeue(_) =>
  }

  lemma CbCoSame(s: State, op: Op)
    requires Enabled(s, op) && OfWorker(op) && !op.Resume? && !op.Conclude? && !op.Requeue?
    ensures CbCoMove(s, op, op.w, Apply(s, op).workers[op.w])
  {
    match op
    case Scan(_) =>
    case Spawn(_, _) =>
    case _ =>
  }

  lemma CbCoOther(s: State, op: Op, w: nat, s': State)
    requires Shape(s, op, s') && w < |s.workers| && !(OfWorker(op) && op.w == w)
    ensures CbCoMove(s, op, w, s'.workers[w])
  {
  }

  /** A worker takes a coroutine up for a callback, and has it until it gives it up. */
  lemma CbCoExact(s: State, op: Op, w: nat)
    requires Enabled(s, op) && w < |s.workers|
    ensures w < |Apply(s, op).workers| && CbCoMove(s, op, w, Apply(s, op).workers[w])
  {
    if !(OfWorker(op) && op.w == w) {
      StepShape(s, op);
      CbCoOther(s, op, w, Apply(s, op));
    } else if op.Resume? || op.Conclude? || op.Requeue? {
      CbCoTurn(s, op);
    } else {
      CbCoSame(s, op);
    }
  }

  /** The worker is between taking up its coroutine for a callback and being done with it. */
  predicate InCallback(x: Worker) {
    (x.pc.Running? || x.pc.Ending? || x.pc.Returned? || x.pc.Counted? || x.pc.Requeuing?) && x.pc.own
  }

  predicate OwnIsCbCo(x: Worker) {
    InCallback(x) ==> x.cbCo == Some(x.pc.co)
  }

  /** The worker keeps the coroutine for its next callback: it found it in TERM. */
  predicate Keeps(s: State, op: Op, w: nat) {
    && w < |s.workers| && op == Conclude(w) && s.workers[w].pc.Counted? && s.workers[w].pc.own
    && StateOf(s.states, s.workers[w].pc.co) == TERM
  }

  /** How a worker gets into a callback, and out of it: from x to x'. */
  predicate CallbackMove(s: State, op: Op, w: nat, x: Worker, x': Worker)
    requires w < |s.workers|
  {
    && (InCallback(x') && InCallback(x) ==> x'.pc.co == x.pc.co)
    && (InCallback(x') && !InCallback(x) ==>
          op.Resume? && op.w == w && RunsCallback(s, w) && x'.pc.co == CallbackCo(s, w, op.made))
    && (op.Resume? && op.w == w && RunsCallback(s, w) ==> InCallback(x'))
    && (InCallback(x) && !InCallback(x') <==> GivesUp(s, op, w) || Keeps(s, op, w))
  }

  lemma ResumeMove(s: State, op: Op)
    requires Enabled(s, op) && op.Resume?
    ensures CallbackMove(s, op, op.w, s.workers[op.w], Apply(s, op).workers[op.w])
  {
  }

  lemma ReturnMove(s: State, op: Op)
    requires Enabled(s, op) && (op.Decrement? || op.Conclude? || op.Requeue?)
    ensures CallbackMove(s, op, op.w, s.workers[op.w], Apply(s, op).workers[op.w])
  {
    match op
    case Decrement(_) =>
    case Conclude(_) =>
    case Requeue(_) =>
  }

  lemma EndMove(s: State, op: Op)
    requires Enabled(s, op) && (op.Terminate? || op.Yield?)
    ensures CallbackMove(s, op, op.w, s.workers[op.w], Apply(s, op).workers[op.w])
  {
    match op
    case Terminate(_) =>
    case Yield(_) =>
  }

  lemma IdleMove(s: State, op: Op)
    requires Enabled(s, op) && (op.Scan? || op.Spawn? || op.IdleReturn? || op.IdleYield?)
    ensures CallbackMove(s, op, op.w, s.workers[op.w], Apply(s, op).workers[op.w])
  {
    match op
    case Scan(_) =>
    case Spawn(_, _) =>
    case IdleReturn(_) =>
    case IdleYield(_) =>
  }

  /** A worker that does not take the step: at most it is started. */
  lemma OtherMove(s: State, op: Op, w: nat, s': State)
    requires Shape(s, op, s') && w < |s.workers| && !(OfWorker(op) && op.w == w)
    ensures CallbackMove(s, op, w, s.workers[w], s'.workers[w])
  {
  }

  lemma InCallbackStep(s: State, op: Op, w: nat)
    requires Enabled(s, op) && w < |s.workers|
    ensures w < |Apply(s, op).workers|
    ensures CallbackMove(s, op, w, s.workers[w], Apply(s, op).workers[w])
  {
    if !(OfWorker(op) && op.w == w) {
      StepShape(s, op);
      OtherMove(s, op, w, Apply(s, op));
    } else if op.Resume? {
      ResumeMove(s, op);
    } else if op.Terminate? || op.Yield? {
      EndMove(s, op);
    } else if op.Decrement? || op.Conclude? || op.Requeue? {
      ReturnMove(s, op);
    } else {
      IdleMove(s, op);
    }
  }

  lemma {:induction false} ReachableOwn(ids: seq<int>, ss: seq<State>, ops: seq<Op>, n: nat, w: nat)
    requires IsRun(ids, ss, ops) && n < |ss| && w < |ids|
    ensures w < |ss[n].workers| && OwnIsCbCo(ss[n].workers[w])
    decreases n
  {
    if n > 0 {
      ReachableOwn(ids, ss, ops, n - 1, w);
      assert Leads(ss[n - 1], ops[n - 1], ss[n]);
      CbCoExact(ss[n - 1], ops[n - 1], w);
      InCallbackStep(ss[n - 1], ops[n - 1], w);
    }
  }

  /** Who has a coroutine outside a callback had it outside a callback before, or has just kept it. */
  lemma StillHas(s: State, op: Op, w: nat, c: nat, x': Worker)
    requires w < |s.workers| && OwnIsCbCo(s.workers[w]) && x'.cbCo == Some(c) && !InCallback(x')
    requires CbCoMove(s, op, w, x') && CallbackMove(s, op, w, s.workers[w], x')
    ensures s.workers[w].cbCo == Some(c)
    ensures !InCallback(s.workers[w]) || (Keeps(s, op, w) && s.workers[w].pc.co == c)
  {
  }

  /** At step i worker w kept coroutine c, and has it still at n. */
  ghost predicate KeptSince(ss: seq<State>, ops: seq<Op>, i: nat, n: nat, w: nat, c: nat)
    requires n < |ss| <= |ops| + 1
  {
    && i < n && Keeps(ss[i], ops[i], w) && ss[i].workers[w].pc.co == c
    && forall k :: i <= k <= n ==> w < |ss[k].workers| && ss[k].workers[w].cbCo == Some(c)
  }

  /**
   A worker that is not in a callback has a coroutine for callbacks if and only if it kept it, and has kept it since,
   by finding it in state TERM when it was done with a callback in it.
   */
  lemma {:induction false} KeptExactly(ids: seq<int>, ss: seq<State>, ops: seq<Op>, n: nat, w: nat, c: nat)
    requires IsRun(ids, ss, ops) && n < |ss| && w < |ids| && w < |ss[n].workers| && !InCallback(ss[n].workers[w])
    ensures ss[n].workers[w].cbCo == Some(c) <==> exists i :: KeptSince(ss, ops, i, n, w, c)
    decreases n
  {
    if n > 0 && ss[n].workers[w].cbCo == Some(c) {
      KeptBefore(ids, ss, ops, n, w, c);
      if !InCallback(ss[n - 1].workers[w]) {
        KeptExactly(ids, ss, ops, n - 1, w, c);
        var i :| KeptSince(ss, ops, i, n - 1, w, c);
        assert KeptSince(ss, ops, i, n, w, c);
      }
    }
  }

  lemma KeptBefore(ids: seq<int>, ss: seq<State>, ops: seq<Op>, n: nat, w: nat, c: nat)
    requires IsRun(ids, ss, ops) && 0 < n < |ss| && w < |ids| && w < |ss[n].workers| && !InCallback(ss[n].workers[w])
    requires ss[n].workers[w].cbCo == Some(c)
    ensures w < |ss[n - 1].workers| && ss[n - 1].workers[w].cbCo == Some(c)
    ensures InCallback(ss[n - 1].workers[w]) ==> KeptSince(ss, ops, n - 1, n, w, c)
  {
    assert Leads(ss[n - 1], ops[n - 1], ss[n]);
    ReachableOwn(ids, ss, ops, n - 1, w);
    CbCoExact(ss[n - 1], ops[n - 1], w);
    InCallbackStep(ss[n - 1], ops[n - 1], w);
    StillHas(ss[n - 1], ops[n - 1], w, c, ss[n].workers[w]);
  }

  /** As long as no worker finds the coroutine of its callback in TERM, none keeps one. */
  lemma NoneKept(ids: seq<int>, ss: seq<State>, ops: seq<Op>, n: nat, w: nat)
    requires IsRun(ids, ss, ops) && n < |ss| && w < |ids| && w < |ss[n].workers| && !InCallback(ss[n].workers[w])
    requires forall i, v :: 0 <= i < n ==> !Keeps(ss[i], ops[i], v)
    ensures ss[n].workers[w].cbCo == None
  {
    if ss[n].workers[w].cbCo.Some? {
      KeptExactly(ids, ss, ops, n, w, ss[n].workers[w].cbCo.value);
    }
  }

  // ----- when that is

  predicate SetsTerm(op: Op) {
    op.SetState? && op.st == TERM
  }

  /** The function of this coroutine is through in worker x, whose last yield is ahead. */
  predicate Ends(x: Worker, co: nat) {
    x.pc.Ending? && x.pc.co == co
  }

  ghost predicate TermIsEnding(s: State) {
    forall co :: StateOf(s.states, co) == TERM ==> exists v :: 0 <= v < |s.workers| && Ends(s.workers[v], co)
  }

  /** Only what worker v ended may leave TERM, and only what it ends now may enter it. */
  lemma TermMove(s: State, s': State, w: nat)
    requires TermIsEnding(s) && w < |s.workers| && |s'.workers| == |s.workers|
    requires forall v :: 0 <= v < |s.workers| && v != w ==> s'.workers[v] == s.workers[v]
    requires forall co :: StateOf(s'.states, co) == TERM ==>
               Ends(s'.workers[w], co) || (StateOf(s.states, co) == TERM && !Ends(s.workers[w], co))
    ensures TermIsEnding(s')
  {
    forall co | StateOf(s'.states, co) == TERM
      ensures exists v :: 0 <= v < |s'.workers| && Ends(s'.workers[v], co)
    {
      if !Ends(s'.workers[w], co) {
        var v :| 0 <= v < |s.workers| && Ends(s.workers[v], co);
        assert Ends(s'.workers[v], co);
      }
    }
  }

  lemma TermSame(s: State, s': State)
    requires TermIsEnding(s) && |s'.workers| == |s.workers|
    requires forall v, co :: 0 <= v < |s.workers| && Ends(s.workers[v], co) ==> Ends(s'.workers[v], co)
    requires forall co :: StateOf(s'.states, co) == TERM ==> StateOf(s.states, co) == TERM
    ensures TermIsEnding(s')
  {
    forall co | StateOf(s'.states, co) == TERM
      ensures exists v :: 0 <= v < |s'.workers| && Ends(s'.workers[v], co)
    {
      var v :| 0 <= v < |s.workers| && Ends(s.workers[v], co);
      assert Ends(s'.workers[v], co);
    }
  }

  lemma TermWhileRunning(s: State, op: Op)
    requires TermIsEnding(s) && Enabled(s, op) && (op.Resume? || op.Terminate? || op.Yield?)
    ensures TermIsEnding(Apply(s, op))
  {
    var s' := Apply(s, op);
    match op
    case Resume(w, _) => TermMove(s, s', w);
    case Terminate(w) => TermMove(s, s', w);
    case Yield(w) => TermMove(s, s', w);
  }

  lemma TermOnReturn(s: State, op: Op)
    requires TermIsEnding(s) && Enabled(s, op) && (op.Decrement? || op.Conclude? || op.Requeue?)
    ensures TermIsEnding(Apply(s, op))
  {
    var s' := Apply(s, op);
    match op
    case Decrement(w) => TermMove(s, s', w);
    case Conclude(w) => TermMove(s, s', w);
    case Requeue(w) => TermMove(s, s', w);
  }

  lemma TermElsewhere(s: State, op: Op)
    requires TermIsEnding(s) && Enabled(s, op) && !SetsTerm(op)
    requires !OfWorker(op) || op.Scan? || op.Spawn? || op.IdleReturn? || op.IdleYield?
    ensures TermIsEnding(Apply(s, op))
  {
    var s' := Apply(s, op);
    match op
    case Start => TermSame(s, s');
    case SetAutostop => TermSame(s, s');
    case SetStopping => TermSame(s, s');
    case External(_) => TermSame(s, s');
    case SetState(_, _) => TermSame(s, s');
    case Scan(w) => TermMove(s, s', w);
    case Spawn(_, _) => TermSame(s, s');
    case IdleReturn(w) => TermMove(s, s', w);
    case IdleYield(w) => TermMove(s, s', w);
  }

  /** If nobody sets TERM, a coroutine in TERM is one that some worker is just ending. */
  lemma {:induction false} ReachableTerm(ids: seq<int>, ss: seq<State>, ops: seq<Op>, n: nat)
    requires IsRun(ids, ss, ops) && n < |ss| && forall i :: 0 <= i < n ==> !SetsTerm(ops[i])
    ensures TermIsEnding(ss[n])
    decreases n
  {
    if n > 0 {
      var s, op := ss[n - 1], ops[n - 1];
      ReachableTerm(ids, ss, ops, n - 1);
      assert Leads(s, op, ss[n]);
      if op.Resume? || op.Terminate? || op.Yield? {
        TermWhileRunning(s, op);
      } else if op.Decrement? || op.Conclude? || op.Requeue? {
        TermOnReturn(s, op);
      } else {
        TermElsewhere(s, op);
      }
    }
  }

  /** The worker is done with a callback while another worker is just ending the coroutine it ran in. */
  ghost predicate Shares(s: State, op: Op) {
    && op.Conclude? && op.w < |s.workers| && s.workers[op.w].pc.Counted? && s.workers[op.w].pc.own
    && exists v :: 0 <= v < |s.workers| && v != op.w && Ends(s.workers[v], s.workers[op.w].pc.co)
  }

  /** If nobody sets TERM, a worker keeps a coroutine only if another one ran it to its end in the meantime. */
  lemma KeptOnlyIfShared(ids: seq<int>, ss: seq<State>, ops: seq<Op>, n: nat, w: nat)
    requires IsRun(ids, ss, ops) && n < |ops| && forall i :: 0 <= i < n ==> !SetsTerm(ops[i])
    requires Keeps(ss[n], ops[n], w)
    ensures Shares(ss[n], ops[n])
  {
    ReachableTerm(ids, ss, ops, n);
  }

  /** So if that never happens either, a worker not in a callback has no coroutine for the next. */
  lemma NoneKeptUnshared(ids: seq<int>, ss: seq<State>, ops: seq<Op>, n: nat, w: nat)
    requires IsRun(ids, ss, ops) && n < |ss| && w < |ids| && w < |ss[n].workers| && !InCallback(ss[n].workers[w])
    requires forall i :: 0 <= i < n ==> !SetsTerm(ops[i]) && !Shares(ss[i], ops[i])
    ensures ss[n].workers[w].cbCo == None
  {
    forall i, v | 0 <= i < n ensures !Keeps(ss[i], ops[i], v) {
      if Keeps(ss[i], ops[i], v) {
        KeptOnlyIfShared(ids, ss, ops, i, v);
      }
    }
    NoneKept(ids, ss, ops, n, w);
  }

  // ----- no coroutine for two callbacks

  lemma {:induction false} KnownGrows(ids: seq<int>, ss: seq<State>, ops: seq<Op>, i: nat, n: nat)
    requires IsRun(ids, ss, ops) && i <= n < |ss|
    ensures ss[i].known <= ss[n].known
    decreases n
  {
    if i < n {
      KnownGrows(ids, ss, ops, i, n - 1);
      assert Leads(ss[n - 1], ops[n - 1], ss[n]);
      KnownStep(ss[n - 1], ops[n - 1]);
    }
  }

  lemma KnownStep(s: State, op: Op)
    requires Enabled(s, op)
    ensures s.known <= Apply(s, op).known
    ensures op.Resume? && RunsCallback(s, op.w) ==> CallbackCo(s, op.w, op.made) in Apply(s, op).known + s.known
  {
    match op
    case Resume(_, _) =>
    case Conclude(_) =>
    case Requeue(_) =>
    case Scan(_) =>
    case _ =>
  }

  predicate ResumesCallback(s: State, op: Op) {
    op.Resume? && RunsCallback(s, op.w)
  }

  /** Then no coroutine ever runs two callbacks: each callback gets a coroutine of its own. */
  lemma OneCallbackEach(ids: seq<int>, ss: seq<State>, ops: seq<Op>, i: nat, j: nat)
    requires IsRun(ids, ss, ops) && i < j < |ops| && ResumesCallback(ss[i], ops[i]) && ResumesCallback(ss[j], ops[j])
    requires forall k, v :: 0 <= k < j ==> !Keeps(ss[k], ops[k], v)
    ensures CallbackCo(ss[i], ops[i].w, ops[i].made) != CallbackCo(ss[j], ops[j].w, ops[j].made)
  {
    ReachableInv(ids, ss, ops, j);
    ReachableInv(ids, ss, ops, i);
    NoneKept(ids, ss, ops, j, ops[j].w);
    assert Leads(ss[j], ops[j], ss[j + 1]);
    assert ops[j].made !in ss[j].known;
    assert Leads(ss[i], ops[i], ss[i + 1]);
    KnownStep(ss[i], ops[i]);
    assert KnownTo(ss[i].workers[ops[i].w], ss[i].known);
    KnownGrows(ids, ss, ops, i + 1, j);
  }

  /** With neither, every callback is run in a coroutine made for it, and in no other callback's. */
  lemma CoroutineOfItsOwn(ids: seq<int>, ss: seq<State>, ops: seq<Op>, i: nat, j: nat)
    requires IsRun(ids, ss, ops) && i < j < |ops| && ResumesCallback(ss[i], ops[i]) && ResumesCallback(ss[j], ops[j])
    requires forall k :: 0 <= k < j ==> !SetsTerm(ops[k]) && !Shares(ss[k], ops[k])
    ensures MakesCo(ss[j], ops[j].w)
    ensures CallbackCo(ss[i], ops[i].w, ops[i].made) != CallbackCo(ss[j], ops[j].w, ops[j].made) == ops[j].made
  {
    forall k, v | 0 <= k < j ensures !Keeps(ss[k], ops[k], v) {
      if Keeps(ss[k], ops[k], v) {
        KeptOnlyIfShared(ids, ss, ops, k, v);
      }
    }
    ReachableInv(ids, ss, ops, j);
    NoneKept(ids, ss, ops, j, ops[j].w);
    OneCallbackEach(ids, ss, ops, i, j);
  }
}
