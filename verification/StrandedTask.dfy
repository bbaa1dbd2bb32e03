/**
 Runs that leave a task behind: by way of READY, by way of state EXEC, and by way of a coroutine that had ended;
 and one in which a worker keeps the coroutine of a callback that another worker is still in.
 */
module StrandedTask {
  import opened Options
  import opened SchedulerSteps
  import opened SchedulerRuns
  import opened SchedulerCoroutines

  const IDS: seq<int> := [7, 8]
  const BACK: Task := Task(None, Some(5), ANY)
  const PINNED: Task := Task(Some(3), None, 7)

  ghost predicate Reached(ids: seq<int>, s: State) {
    exists ss, ops :: IsRun(ids, ss, ops) && ss[|ss| - 1] == s
  }

  lemma Go(ids: seq<int>, s: State, op: Op, s': State)
    requires Reached(ids, s) && Leads(s, op, s')
    ensures Reached(ids, s')
  {
    var ss, ops :| IsRun(ids, ss, ops) && ss[|ss| - 1] == s;
    var ss', ops' := ss + [s'], ops + [op];
    forall i | 0 <= i < |ops'| ensures Leads(ss'[i], ops'[i], ss'[i + 1]) {
      assert i < |ops| ==> Leads(ss[i], ops[i], ss[i + 1]);
    }
    assert IsRun(ids, ss', ops') && ss'[|ss'| - 1] == s';
  }

  /** The two workers: where each is, and whether its idle has returned. */
  function Two(p: Pc, p': bool, q: Pc, q': bool): seq<Worker> {
    [Worker(7, p, None, p'), Worker(8, q, None, q')]
  }

  const SECOND_RETURNED: State :=
    State(Two(Idling, false, Scanning, true), [], map[], {}, {}, 0, 1, true, true, 0, [], [])
  const FIRST_RETURNED: State :=
    State(Two(Scanning, true, Requeuing(0, 5, false), true), [], map[5 := READY], {}, {5}, 0, 0, true, true, 1, [0], [])
  const FIRST_LEFT: State :=
    State(Two(Exited, true, Requeuing(0, 5, false), true), [], map[5 := READY], {}, {5}, 0, 1, true, true, 1, [0], [])
  const PINNED_QUEUED: State :=
    State(Two(Exited, true, Running(1, 5, false), true), [Entry(2, PINNED)], map[5 := EXEC], {}, {5}, 1, 1, true, true,
          3, [0, 1], [0])
  const END: State :=
    State(Two(Exited, true, Exited, true), [Entry(2, PINNED)], map[5 := HOLD], {}, {5}, 0, 2, true, true,
          3, [0, 1], [0, 1])

  /** Both go idle during a stop, and worker 8 finds that `stopping()` is true. */
  lemma UntilSecondReturned()
    ensures Reached(IDS, SECOND_RETURNED)
  {
    var s0 := Fresh(IDS);
    assert IsRun(IDS, [s0], []) && [s0][|[s0]| - 1] == s0;
    var s1 := s0.(workers := Two(Scanning, false, Scanning, false), stopping := false);
    Go(IDS, s0, Start, s1);
    var s2 := s1.(autostop := true);
    Go(IDS, s1, SetAutostop, s2);
    var s3 := s2.(stopping := true);
    Go(IDS, s2, SetStopping, s3);
    var s4 := s3.(workers := Two(Idling, false, Scanning, false), idle := 1);
    Go(IDS, s3, Scan(0), s4);
    var s5 := s4.(workers := Two(Idling, false, Idling, false), idle := 2);
    Go(IDS, s4, Scan(1), s5);
    Go(IDS, s5, IdleReturn(1), SECOND_RETURNED);
  }

  /** Worker 7 adds coroutine 5; worker 8 runs it, somebody sets it READY, and before it is back idle of 7 returns. */
  lemma UntilFirstReturned()
    ensures Reached(IDS, FIRST_RETURNED)
  {
    UntilSecondReturned();
    var s0 := SECOND_RETURNED;
    var s1 := s0.(queue := [Entry(0, BACK)], next := 1, known := {5});
    Go(IDS, s0, Spawn(0, BACK), s1);
    var s2 := s1.(workers := Two(Idling, false, Held(0, BACK), true), queue := [], active := 1, taken := [0]);
    Go(IDS, s1, Scan(1), s2);
    var s3 := s2.(workers := Two(Idling, false, Running(0, 5, false), true), states := map[5 := EXEC]);
    Go(IDS, s2, Resume(1, 0), s3);
    var s4 := s3.(workers := Two(Idling, false, Returned(0, 5, false), true), states := map[5 := HOLD]);
    Go(IDS, s3, Yield(1), s4);
    var s5 := s4.(states := map[5 := READY]);
    Go(IDS, s4, SetState(5, READY), s5);
    var s6 := s5.(workers := Two(Idling, false, Counted(0, 5, false), true), active := 0);
    Go(IDS, s5, Decrement(1), s6);
    var s7 := s6.(workers := Two(Idling, false, Requeuing(0, 5, false), true));
    Go(IDS, s6, Conclude(1), s7);
    Go(IDS, s7, IdleReturn(0), FIRST_RETURNED);
  }

  /** Worker 7 leaves; coroutine 5 is run again and adds a task pinned to the thread that has left. */
  lemma UntilPinnedQueued()
    ensures Reached(IDS, PINNED_QUEUED)
  {
    UntilFirstReturned();
    Go(IDS, FIRST_RETURNED, Scan(0), FIRST_LEFT);
    var s0 := FIRST_LEFT;
    var s1 := s0.(workers := Two(Exited, true, Scanning, true), queue := [Entry(1, BACK)], next := 2, finished := [0]);
    Go(IDS, s0, Requeue(1), s1);
    var s2 := s1.(workers := Two(Exited, true, Held(1, BACK), true), queue := [], active := 1, taken := [0, 1]);
    Go(IDS, s1, Scan(1), s2);
    var s3 := s2.(workers := Two(Exited, true, Running(1, 5, false), true), states := map[5 := EXEC]);
    Go(IDS, s2, Resume(1, 0), s3);
    Go(IDS, s3, Spawn(1, PINNED), PINNED_QUEUED);
  }

  lemma UntilEnd()
    ensures Reached(IDS, END)
  {
    UntilPinnedQueued();
    var s4 := PINNED_QUEUED;
    var s5 := s4.(workers := Two(Exited, true, Returned(1, 5, false), true), states := map[5 := HOLD]);
    Go(IDS, s4, Yield(1), s5);
    var s6 := s5.(workers := Two(Exited, true, Counted(1, 5, false), true), active := 0);
    Go(IDS, s5, Decrement(1), s6);
    var s7 := s6.(workers := Two(Exited, true, Scanning, true), finished := [0, 1]);
    Go(IDS, s6, Conclude(1), s7);
    Go(IDS, s7, Scan(1), END);
  }

  /** So with READY, everybody can leave while an accepted, pinned task is still queued. */
  lemma PinnedCanBeStranded()
    ensures exists ss, ops :: IsRun(IDS, ss, ops) && AllExited(ss[|ops|]) && QueuedPinned(ss[|ops|], 2, 0)
  {
    UntilEnd();
    var ss, ops :| IsRun(IDS, ss, ops) && ss[|ss| - 1] == END;
    assert AllExited(ss[|ops|]) && QueuedPinned(ss[|ops|], 2, 0);
  }

  // ----- a pinned coroutine passed over

  const OTHER: Task := Task(None, Some(6), ANY)
  const OTHER_PINNED: Task := Task(None, Some(6), 7)

  const BOTH_QUEUED: State :=
    State(Two(Scanning, true, Running(1, 5, false), true), [Entry(2, OTHER), Entry(3, OTHER_PINNED)],
          map[5 := EXEC], {}, {5, 6}, 1, 0, true, true, 4, [0, 1], [0])
  const FIVE_HELD: State :=
    State(Two(Scanning, true, Scanning, true), [Entry(2, OTHER), Entry(3, OTHER_PINNED)],
          map[5 := HOLD], {}, {5, 6}, 0, 0, true, true, 4, [0, 1], [0, 1])
  const OTHER_RUNS: State :=
    State(Two(Scanning, true, Running(2, 6, false), true), [Entry(3, OTHER_PINNED)],
          map[5 := HOLD, 6 := EXEC], {}, {5, 6}, 1, 0, true, true, 4, [0, 1, 2], [0, 1])
  const SEVEN_LEFT: State :=
    State(Two(Exited, true, Returned(2, 6, false), true), [Entry(3, OTHER_PINNED)],
          map[5 := HOLD, 6 := HOLD], {}, {5, 6}, 1, 1, true, true, 4, [0, 1, 2], [0, 1])
  const PASSED_OVER: State :=
    State(Two(Exited, true, Exited, true), [Entry(3, OTHER_PINNED)],
          map[5 := HOLD, 6 := HOLD], {}, {5, 6}, 0, 2, true, true, 4, [0, 1, 2], [0, 1, 2])

  /** Some run comes through the first state, and to the second. */
  ghost predicate Through(ids: seq<int>, mid: State, s: State) {
    exists ss, ops, i: nat :: IsRun(ids, ss, ops) && i < |ss| && ss[i] == mid && ss[|ss| - 1] == s
  }

  lemma GoOn(ids: seq<int>, mid: State, s: State, op: Op, s': State)
    requires Through(ids, mid, s) && Leads(s, op, s')
    ensures Through(ids, mid, s')
  {
    var ss, ops, k: nat :| IsRun(ids, ss, ops) && k < |ss| && ss[k] == mid && ss[|ss| - 1] == s;
    var ss', ops' := ss + [s'], ops + [op];
    forall i | 0 <= i < |ops'| ensures Leads(ss'[i], ops'[i], ss'[i + 1]) {
      assert i < |ops| ==> Leads(ss[i], ops[i], ss[i + 1]);
    }
    assert IsRun(ids, ss', ops') && ss'[k] == mid && ss'[|ss'| - 1] == s';
  }

  /** Coroutine 5, back in the queue, is run again and adds coroutine 6 twice, the second time pinned to thread 7. */
  lemma UntilBothQueued()
    ensures Reached(IDS, BOTH_QUEUED)
  {
    UntilFirstReturned();
    var s0 := FIRST_RETURNED;
    var s1 := s0.(workers := Two(Scanning, true, Scanning, true), queue := [Entry(1, BACK)],
                  next := 2, finished := [0]);
    Go(IDS, s0, Requeue(1), s1);
    var s2 := s1.(workers := Two(Scanning, true, Held(1, BACK), true), queue := [], active := 1, taken := [0, 1]);
    Go(IDS, s1, Scan(1), s2);
    var s3 := s2.(workers := Two(Scanning, true, Running(1, 5, false), true), states := map[5 := EXEC]);
    Go(IDS, s2, Resume(1, 0), s3);
    var s4 := s3.(queue := [Entry(2, OTHER)], next := 3, known := {5, 6});
    Go(IDS, s3, Spawn(1, OTHER), s4);
    Go(IDS, s4, Spawn(1, OTHER_PINNED), BOTH_QUEUED);
  }

  lemma UntilFiveHeld()
    ensures Through(IDS, BOTH_QUEUED, FIVE_HELD)
  {
    UntilBothQueued();
    var ss, ops :| IsRun(IDS, ss, ops) && ss[|ss| - 1] == BOTH_QUEUED;
    assert ss[|ops|] == BOTH_QUEUED;
    var s0 := BOTH_QUEUED;
    var s1 := s0.(workers := Two(Scanning, true, Returned(1, 5, false), true), states := map[5 := HOLD]);
    GoOn(IDS, s0, s0, Yield(1), s1);
    var s2 := s1.(workers := Two(Scanning, true, Counted(1, 5, false), true), active := 0);
    GoOn(IDS, s0, s1, Decrement(1), s2);
    GoOn(IDS, s0, s2, Conclude(1), FIVE_HELD);
  }

  lemma UntilOtherRuns()
    ensures Through(IDS, BOTH_QUEUED, OTHER_RUNS)
  {
    UntilFiveHeld();
    var s0 := FIVE_HELD;
    var s1 := s0.(workers := Two(Scanning, true, Held(2, OTHER), true), queue := [Entry(3, OTHER_PINNED)],
                  active := 1, taken := [0, 1, 2]);
    GoOn(IDS, BOTH_QUEUED, s0, Scan(1), s1);
    GoOn(IDS, BOTH_QUEUED, s1, Resume(1, 0), OTHER_RUNS);
  }

  /** While 6 is in EXEC worker 7 passes it over and leaves; what is pinned to 7 is then left to nobody. */
  lemma UntilSevenLeft()
    ensures Through(IDS, BOTH_QUEUED, SEVEN_LEFT)
  {
    UntilOtherRuns();
    var mid, s0 := BOTH_QUEUED, OTHER_RUNS;
    var s1 := s0.(workers := Two(Exited, true, Running(2, 6, false), true), idle := 1);
    GoOn(IDS, mid, s0, Scan(0), s1);
    GoOn(IDS, mid, s1, Yield(1), SEVEN_LEFT);
  }

  lemma UntilPassedOver()
    ensures Through(IDS, BOTH_QUEUED, PASSED_OVER)
  {
    UntilSevenLeft();
    var mid, s2 := BOTH_QUEUED, SEVEN_LEFT;
    var s3 := s2.(workers := Two(Exited, true, Counted(2, 6, false), true), active := 0);
    GoOn(IDS, mid, s2, Decrement(1), s3);
    var s4 := s3.(workers := Two(Exited, true, Scanning, true), finished := [0, 1, 2]);
    GoOn(IDS, mid, s3, Conclude(1), s4);
    GoOn(IDS, mid, s4, Scan(1), PASSED_OVER);
  }

  /** For a pinned coroutine it is not enough that a worker that may run it has not left while it is queued. */
  lemma PinnedCoroutineCanBePassedOver()
    ensures Through(IDS, BOTH_QUEUED, PASSED_OVER)
    ensures Entry(3, OTHER_PINNED) in BOTH_QUEUED.queue && Fits(BOTH_QUEUED, OTHER_PINNED, 0)
    ensures AllExited(PASSED_OVER) && !Finished(PASSED_OVER, 3) && QueuedPinned(PASSED_OVER, 3, 0)
  {
    UntilPassedOver();
    assert BOTH_QUEUED.queue[1] == Entry(3, OTHER_PINNED);
  }

  // ----- a lost thread

  const ALONE: seq<int> := [7]
  const WORK: Task := Task(Some(3), None, ANY)

  function One(pc: Pc): seq<Worker> {
    [Worker(7, pc, None, false)]
  }

  const QUEUED: seq<Entry> := [Entry(0, BACK), Entry(1, BACK), Entry(2, WORK)]

  const TWICE: State := State(One(Scanning), QUEUED, map[], {}, {5}, 0, 0, false, false, 3, [], [])
  const HELD: State :=
    State(One(Held(0, BACK)), [Entry(1, BACK), Entry(2, WORK)], map[], {}, {5}, 1, 0, false, false, 3, [0], [])
  const ENDING: State :=
    State(One(Ending(0, 5, false)), [Entry(1, BACK), Entry(2, WORK)], map[5 := TERM], {}, {5}, 1, 0, false, false,
          3, [0], [])
  const ENDED: State :=
    State(One(Scanning), [Entry(1, BACK), Entry(2, WORK)], map[5 := HOLD], {5}, {5}, 0, 0, false, false, 3, [0], [0])
  const DEAD: State :=
    State(One(Lost(1, 5)), [Entry(2, WORK)], map[5 := EXEC], {5}, {5}, 1, 0, false, false, 3, [0, 1], [0])

  lemma UntilTwice()
    ensures Reached(ALONE, TWICE)
  {
    var s0 := Fresh(ALONE);
    assert IsRun(ALONE, [s0], []) && [s0][|[s0]| - 1] == s0;
    var s1 := s0.(queue := [Entry(0, BACK)], next := 1, known := {5});
    Go(ALONE, s0, External(BACK), s1);
    var s2 := s1.(queue := [Entry(0, BACK), Entry(1, BACK)], next := 2);
    Go(ALONE, s1, External(BACK), s2);
    var s3 := s2.(queue := QUEUED, next := 3);
    Go(ALONE, s2, External(WORK), s3);
    Go(ALONE, s3, Start, TWICE);
  }

  lemma UntilHeld()
    ensures Reached(ALONE, HELD)
  {
    UntilTwice();
    Go(ALONE, TWICE, Scan(0), HELD);
  }

  lemma UntilEnding()
    ensures Reached(ALONE, ENDING)
  {
    UntilHeld();
    var s2 := HELD.(workers := One(Running(0, 5, false)), states := map[5 := EXEC]);
    Go(ALONE, HELD, Resume(0, 0), s2);
    Go(ALONE, s2, Terminate(0), ENDING);
  }

  /** The coroutine runs to its end; resumed a second time, it takes the thread with it. */
  lemma UntilEnded()
    ensures Reached(ALONE, ENDED)
  {
    UntilEnding();
    var s3 := ENDING;
    var s4 := s3.(workers := One(Returned(0, 5, false)), states := map[5 := HOLD], ended := {5});
    Go(ALONE, s3, Yield(0), s4);
    var s5 := s4.(workers := One(Counted(0, 5, false)), active := 0);
    Go(ALONE, s4, Decrement(0), s5);
    Go(ALONE, s5, Conclude(0), ENDED);
  }

  lemma UntilDead()
    ensures Reached(ALONE, DEAD)
  {
    UntilEnded();
    var s6 := ENDED;
    var s7 := s6.(workers := One(Held(1, BACK)), queue := [Entry(2, WORK)], active := 1, taken := [0, 1]);
    Go(ALONE, s6, Scan(0), s7);
    Go(ALONE, s7, Resume(0, 0), DEAD);
  }

  /** With one worker and one coroutine queued twice, the thread is gone and an unpinned task is still queued. */
  lemma LostThreadStrands()
    ensures Reached(ALONE, DEAD)
    ensures DEAD.workers[0].pc.Lost? && QueuedAs(DEAD, 2, 0) && DEAD.queue[0].task.thread == ANY
  {
    UntilDead();
  }

  // ----- a coroutine kept although nobody sets TERM

  const CALLBACK: Task := Task(Some(3), None, ANY)
  const NINE: Task := Task(None, Some(9), ANY)

  /** The two workers, the first with coroutine 9 for its callbacks. */
  function Sharing(p: Pc, q: Pc): seq<Worker> {
    [Worker(7, p, Some(9), false), Worker(8, q, None, false)]
  }

  const IN_NINE: State :=
    State(Sharing(Running(0, 9, true), Scanning), [], map[9 := EXEC], {}, {9}, 1, 0, false, false, 1, [0], [])
  const NINE_QUEUED: State :=
    State(Sharing(Returned(0, 9, true), Scanning), [Entry(1, NINE)], map[9 := HOLD], {}, {9}, 1, 0, false, false,
          2, [0], [])
  const NINE_ENDING: State :=
    State(Sharing(Counted(0, 9, true), Ending(1, 9, false)), [], map[9 := TERM], {}, {9}, 1, 0, false, false,
          2, [0, 1], [])
  const KEPT: State :=
    State(Sharing(Scanning, Ending(1, 9, false)), [], map[9 := INIT], {}, {9}, 1, 0, false, false,
          2, [0, 1], [0])

  /** Some run in which nobody sets TERM leads to this state. */
  ghost predicate ReachedUnset(ids: seq<int>, s: State) {
    exists ss, ops :: IsRun(ids, ss, ops) && ss[|ss| - 1] == s
                      && forall i :: 0 <= i < |ops| ==> !SetsTerm(ops[i])
  }

  lemma GoUnset(ids: seq<int>, s: State, op: Op, s': State)
    requires ReachedUnset(ids, s) && Leads(s, op, s') && !SetsTerm(op)
    ensures ReachedUnset(ids, s')
  {
    var ss, ops :| IsRun(ids, ss, ops) && ss[|ss| - 1] == s && forall i :: 0 <= i < |ops| ==> !SetsTerm(ops[i]);
    var ss', ops' := ss + [s'], ops + [op];
    forall i | 0 <= i < |ops'| ensures Leads(ss'[i], ops'[i], ss'[i + 1]) && !SetsTerm(ops'[i]) {
      assert i < |ops| ==> Leads(ss[i], ops[i], ss[i + 1]);
    }
    assert IsRun(ids, ss', ops') && ss'[|ss'| - 1] == s';
  }

  lemma UntilInNine()
    ensures ReachedUnset(IDS, IN_NINE)
  {
    var s0 := Fresh(IDS);
    assert IsRun(IDS, [s0], []) && [s0][|[s0]| - 1] == s0;
    var s1 := s0.(workers := Two(Scanning, false, Scanning, false), stopping := false);
    GoUnset(IDS, s0, Start, s1);
    var s2 := s1.(queue := [Entry(0, CALLBACK)], next := 1);
    GoUnset(IDS, s1, External(CALLBACK), s2);
    var s3 := s2.(workers := Two(Held(0, CALLBACK), false, Scanning, false), queue := [], active := 1, taken := [0]);
    GoUnset(IDS, s2, Scan(0), s3);
    GoUnset(IDS, s3, Resume(0, 9), IN_NINE);
  }

  /** The callback adds the coroutine it runs in, and yields. */
  lemma UntilNineQueued()
    ensures ReachedUnset(IDS, NINE_QUEUED)
  {
    UntilInNine();
    var s0 := IN_NINE;
    var s1 := s0.(queue := [Entry(1, NINE)], next := 2);
    GoUnset(IDS, s0, Spawn(0, NINE), s1);
    GoUnset(IDS, s1, Yield(0), NINE_QUEUED);
  }

  /** Worker 8 resumes it and comes to its end. */
  lemma UntilNineEnding()
    ensures ReachedUnset(IDS, NINE_ENDING)
  {
    UntilNineQueued();
    var s2 := NINE_QUEUED;
    var s3 := s2.(workers := Sharing(Returned(0, 9, true), Held(1, NINE)), queue := [], active := 2, taken := [0, 1]);
    GoUnset(IDS, s2, Scan(1), s3);
    var s4 := s3.(workers := Sharing(Returned(0, 9, true), Running(1, 9, false)), states := map[9 := EXEC]);
    GoUnset(IDS, s3, Resume(1, 0), s4);
    var s5 := s4.(workers := Sharing(Returned(0, 9, true), Ending(1, 9, false)), states := map[9 := TERM]);
    GoUnset(IDS, s4, Terminate(1), s5);
    GoUnset(IDS, s5, Decrement(0), NINE_ENDING);
  }

  /** Worker 7 finds its callback's coroutine in TERM, because worker 8 is ending it, and keeps it. */
  lemma KeptThoughNobodySetsTerm()
    ensures ReachedUnset(IDS, NINE_ENDING) && Keeps(NINE_ENDING, Conclude(0), 0) && Shares(NINE_ENDING, Conclude(0))
    ensures ReachedUnset(IDS, KEPT)
    ensures KEPT.workers[0].pc.Scanning? && KEPT.workers[0].cbCo == Some(9)
  {
    UntilNineEnding();
    GoUnset(IDS, NINE_ENDING, Conclude(0), KEPT);
    assert Ends(NINE_ENDING.workers[1], 9);
  }
}
