/** The whole event table and its runs: every fd's context, the kernel's interest set, the counter, the tasks. */
module EventRuns {
  import opened Options
  import opened EventTable
  import opened Logs

  datatype Table = Table(ctxs: seq<FdCtx>, epoll: map<nat, bv32>, pending: int, delivered: seq<nat>,
                         refused: nat, crashed: bool, registered: seq<nat>, removed: seq<nat>)

  const INITIAL_SIZE: nat := 32

  function Resize(ctxs: seq<FdCtx>, size: nat): (r: seq<FdCtx>)
    ensures |r| == size
    ensures forall i :: 0 <= i < size ==> r[i] == if i < |ctxs| then ctxs[i] else FRESH
  {
    if size <= |ctxs| then ctxs[..size] else ctxs + seq(size - |ctxs|, _ => FRESH)
  }

  /** The table with a context for `fd`: resized to one and a half times fd, rounded down, if it has none. */
  function Covering(t: Table, fd: nat): Table {
    if fd < |t.ctxs| then t else t.(ctxs := Resize(t.ctxs, fd * 3 / 2))
  }

  function Watch(t: Table, fd: nat): Option<bv32> {
    if fd in t.epoll then Some(t.epoll[fd]) else None
  }

  /** The table after an operation on one fd that ended in the view v. */
  function Put(t: Table, fd: nat, v: View): Table
    requires fd < |t.ctxs|
  {
    Table(t.ctxs[fd := v.ctx], if v.watch.Some? then t.epoll[fd := v.watch.value] else t.epoll - {fd},
          t.pending + v.pending, t.delivered + v.delivered, t.refused + v.refused, t.crashed || v.crashed,
          t.registered + v.registered, t.removed + v.removed)
  }

  /** What the types of the program already say: a single event, and a report only for an fd that has a context. */
  predicate WellTyped(t: Table, op: Op) {
    && (HasEvent(op) ==> IsEvent(op.ev))
    && (op.Reported? ==> op.fd < |t.ctxs|)
  }

  function Apply(t: Table, op: Op): Table
    requires op.fd < |Covering(t, op.fd).ctxs|
  {
    var t' := Covering(t, op.fd);
    Put(t', op.fd, OnFd(Look(t'.ctxs[op.fd], Watch(t', op.fd)), op))
  }

  // ----- the invariant

  function BitCounts(ctxs: seq<FdCtx>): (ns: seq<nat>)
    ensures |ns| == |ctxs| && forall i :: 0 <= i < |ctxs| ==> ns[i] == BitCount(ctxs[i])
  {
    seq(|ctxs|, i requires 0 <= i < |ctxs| => BitCount(ctxs[i]))
  }

  function WaitCounts(x: nat, ctxs: seq<FdCtx>): (ns: seq<nat>)
    ensures |ns| == |ctxs| && forall i :: 0 <= i < |ctxs| ==> ns[i] == Waits(x, ctxs[i])
  {
    seq(|ctxs|, i requires 0 <= i < |ctxs| => Waits(x, ctxs[i]))
  }

  /** The number of event bits set in the whole table. */
  function Bits(ctxs: seq<FdCtx>): nat {
    Sum(BitCounts(ctxs))
  }

  /** How often x is waiting in the whole table. */
  function Waiting(x: nat, ctxs: seq<FdCtx>): nat {
    Sum(WaitCounts(x, ctxs))
  }

  predicate InvAt(t: Table, fd: nat)
    requires fd < |t.ctxs|
  {
    CtxOk(t.ctxs[fd]) && Agrees(t.ctxs[fd], Watch(t, fd))
  }

  /** Context, kernel and counter agree on every fd, nothing was refused, and every registration is accounted for. */
  ghost predicate Inv(t: Table) {
    && INITIAL_SIZE <= |t.ctxs|
    && (forall fd :: 0 <= fd < |t.ctxs| ==> InvAt(t, fd))
    && (forall fd :: fd in t.epoll ==> fd < |t.ctxs|)
    && t.pending == Bits(t.ctxs)
    && t.refused == 0 && !t.crashed
    && ExactlyOnce(t)
  }

  /** Registrations are deliveries plus removals plus the waiting ones, for each waiter. */
  ghost predicate ExactlyOnce(t: Table) {
    forall x {:trigger Waiting(x, t.ctxs)} ::
      Count(x, t.registered) == Count(x, t.delivered) + Count(x, t.removed) + Waiting(x, t.ctxs)
  }

  /** The table a new manager starts with. */
  function EmptyTable(): Table {
    Table(Resize([], INITIAL_SIZE), map[], 0, [], 0, false, [], [])
  }

  // ----- sums over the table

  lemma BitsUpdate(ctxs: seq<FdCtx>, fd: nat, c: FdCtx)
    requires fd < |ctxs|
    ensures Bits(ctxs[fd := c]) + BitCount(ctxs[fd]) == Bits(ctxs) + BitCount(c)
  {
    SumUpdate(BitCounts(ctxs), fd, BitCount(c));
    assert BitCounts(ctxs)[fd := BitCount(c)] == BitCounts(ctxs[fd := c]);
  }

  lemma WaitingUpdate(x: nat, ctxs: seq<FdCtx>, fd: nat, c: FdCtx)
    requires fd < |ctxs|
    ensures Waiting(x, ctxs[fd := c]) + Waits(x, ctxs[fd]) == Waiting(x, ctxs) + Waits(x, c)
  {
    SumUpdate(WaitCounts(x, ctxs), fd, Waits(x, c));
    assert WaitCounts(x, ctxs)[fd := Waits(x, c)] == WaitCounts(x, ctxs[fd := c]);
  }

  lemma BitsResize(ctxs: seq<FdCtx>, size: nat)
    requires |ctxs| <= size
    ensures Bits(Resize(ctxs, size)) == Bits(ctxs)
  {
    var all := BitCounts(Resize(ctxs, size));
    SumZeros(BitCounts(ctxs), all[|ctxs|..]);
    assert all == BitCounts(ctxs) + all[|ctxs|..];
  }

  lemma WaitingResize(x: nat, ctxs: seq<FdCtx>, size: nat)
    requires |ctxs| <= size
    ensures Waiting(x, Resize(ctxs, size)) == Waiting(x, ctxs)
  {
    var all := WaitCounts(x, Resize(ctxs, size));
    SumZeros(WaitCounts(x, ctxs), all[|ctxs|..]);
    assert all == WaitCounts(x, ctxs) + all[|ctxs|..];
  }

  // ----- steps

  /** Growing covers the fd, loses no context and keeps the invariant. */
  lemma CoveringKeeps(t: Table, fd: nat)
    requires Inv(t)
    ensures Inv(Covering(t, fd)) && fd < |Covering(t, fd).ctxs|
    ensures t.ctxs <= Covering(t, fd).ctxs
    ensures fd >= |t.ctxs| ==> Covering(t, fd).ctxs[fd] == FRESH
  {
    var t' := Covering(t, fd);
    if fd >= |t.ctxs| {
      BitsResize(t.ctxs, fd * 3 / 2);
      forall i | 0 <= i < |t'.ctxs| ensures InvAt(t', i) {
        if i < |t.ctxs| {
          assert InvAt(t, i);
        }
      }
      forall x ensures Waiting(x, t'.ctxs) == Waiting(x, t.ctxs) {
        WaitingResize(x, t.ctxs, fd * 3 / 2);
      }
    }
  }

  /** What happens at one fd decides: the invariant survives exactly a good operation. */
  lemma PutExact(t: Table, fd: nat, v: View)
    requires Inv(t) && fd < |t.ctxs|
    ensures Inv(Put(t, fd, v)) <==> Good(t.ctxs[fd], v)
  {
    var t' := Put(t, fd, v);
    PutSteady(t, fd, v);
    PutBalanced(t, fd, v);
  }

  lemma PutSteady(t: Table, fd: nat, v: View)
    requires Inv(t) && fd < |t.ctxs|
    ensures var t' := Put(t, fd, v);
            Steady(t.ctxs[fd], v) <==>
              && (forall i :: 0 <= i < |t'.ctxs| ==> InvAt(t', i))
              && (forall i :: i in t'.epoll ==> i < |t'.ctxs|)
              && t'.pending == Bits(t'.ctxs) && t'.refused == 0 && !t'.crashed
  {
    var t' := Put(t, fd, v);
    BitsUpdate(t.ctxs, fd, v.ctx);
    assert Watch(t', fd) == v.watch;
    forall i | 0 <= i < |t.ctxs| && i != fd ensures InvAt(t', i) {
      assert InvAt(t, i) && Watch(t', i) == Watch(t, i);
    }
    assert InvAt(t', fd) <==> CtxOk(v.ctx) && Agrees(v.ctx, v.watch);
  }

  lemma PutBalanced(t: Table, fd: nat, v: View)
    requires Inv(t) && fd < |t.ctxs|
    ensures Balanced(t.ctxs[fd], v) <==> ExactlyOnce(Put(t, fd, v))
  {
    var c, t' := t.ctxs[fd], Put(t, fd, v);
    forall x
      ensures (Waits(x, c) + Count(x, v.registered) == Waits(x, v.ctx) + Count(x, v.delivered) + Count(x, v.removed))
         <==> (Count(x, t'.registered) == Count(x, t'.delivered) + Count(x, t'.removed) + Waiting(x, t'.ctxs))
    {
      WaitingUpdate(x, t.ctxs, fd, v.ctx);
      CountAppend(x, t.registered, v.registered);
      CountAppend(x, t.delivered, v.delivered);
      CountAppend(x, t.removed, v.removed);
    }
  }

  /** An operation keeps the invariant exactly when its guard holds of the events registered on its fd. */
  lemma StepExact(t: Table, op: Op)
    requires Inv(t) && WellTyped(t, op)
    ensures op.fd < |Covering(t, op.fd).ctxs|
    ensures Inv(Apply(t, op)) <==> Guard(Covering(t, op.fd).ctxs[op.fd].events, op)
  {
    CoveringKeeps(t, op.fd);
    var t' := Covering(t, op.fd);
    assert InvAt(t', op.fd);
    OnFdExact(t'.ctxs[op.fd], Watch(t', op.fd), op);
    PutExact(t', op.fd, OnFd(Look(t'.ctxs[op.fd], Watch(t', op.fd)), op));
  }

  // ----- runs

  /** A run: tables from the empty one on, each step an operation whose guard holds when it starts. */
  ghost predicate IsRun(ts: seq<Table>, ops: seq<Op>) {
    && |ts| == |ops| + 1 && ts[0] == EmptyTable()
    && forall i :: 0 <= i < |ops| ==> Leads(ts[i], ops[i], ts[i + 1])
  }

  ghost predicate Leads(s: Table, op: Op, t: Table) {
    && op.fd < |Covering(s, op.fd).ctxs| && WellTyped(s, op)
    && Guard(Covering(s, op.fd).ctxs[op.fd].events, op)
    && t == Apply(s, op)
  }

  lemma EmptyInv()
    ensures Inv(EmptyTable())
  {
    SumOfZeros(BitCounts(EmptyTable().ctxs));
    forall x ensures Waiting(x, EmptyTable().ctxs) == 0 {
      SumOfZeros(WaitCounts(x, EmptyTable().ctxs));
    }
  }

  lemma {:induction false} ReachableInv(ts: seq<Table>, ops: seq<Op>, n: nat)
    requires IsRun(ts, ops) && n < |ts|
    ensures Inv(ts[n])
    decreases n
  {
    if n == 0 {
      EmptyInv();
    } else {
      ReachableInv(ts, ops, n - 1);
      assert Leads(ts[n - 1], ops[n - 1], ts[n]);
      StepExact(ts[n - 1], ops[n - 1]);
    }
  }

  /** When nothing is pending, whoever was registered has been delivered or removed, as often as registered. */
  lemma QuietMeansDone(ts: seq<Table>, ops: seq<Op>, n: nat, x: nat)
    requires IsRun(ts, ops) && n < |ts| && ts[n].pending == 0
    ensures Count(x, ts[n].registered) == Count(x, ts[n].delivered) + Count(x, ts[n].removed)
  {
    ReachableInv(ts, ops, n);
    forall i | 0 <= i < |ts[n].ctxs| ensures CtxOk(ts[n].ctxs[i]) {
      assert InvAt(ts[n], i);
    }
    QuietMeansEmpty(ts[n].ctxs, x);
  }

  lemma QuietMeansEmpty(ctxs: seq<FdCtx>, x: nat)
    requires Bits(ctxs) == 0 && forall i :: 0 <= i < |ctxs| ==> CtxOk(ctxs[i])
    ensures Waiting(x, ctxs) == 0
  {
    SumZeroMeansZeros(BitCounts(ctxs));
    forall i | 0 <= i < |ctxs| ensures WaitCounts(x, ctxs)[i] == 0 {
      assert CtxOk(ctxs[i]) && BitCounts(ctxs)[i] == 0;
    }
    SumOfZeros(WaitCounts(x, ctxs));
  }

  // ----- where the waiters come from and go, over whole runs

  /** The context of fd, empty when there is none yet. */
  function At(t: Table, fd: nat): FdCtx {
    if fd < |t.ctxs| then t.ctxs[fd] else FRESH
  }

  /** The waiter that an operation registers: the callback of an `addEvent`, or the running coroutine. */
  function Named(op: Op): seq<nat> {
    if op.Add? then [if op.cb.Some? then op.cb.value else op.self] else []
  }

  /** The waiter that an operation drops: of the event that a `delEvent` names, if it is registered. */
  function Dropped(t: Table, op: Op): seq<nat> {
    if op.Del? && Has(At(t, op.fd).events, op.ev) then Waiters(Get(At(t, op.fd), op.ev)) else []
  }

  /** Whether an operation triggers the event: it cancels it, or all of them, or it is reported, or an error is. */
  predicate Hits(op: Op, ev: bv32) {
    match op
    case Add(_, _, _, _) => false
    case Del(_, _) => false
    case Cancel(_, named) => named == ev
    case CancelEvery(_) => true
    case Reported(_, mask) => Has(mask, ev) || (ev == READ && Has(mask, EPOLLERR | EPOLLHUP))
  }

  /** The waiters that an operation hands on: of the registered events that it hits, READ before WRITE. */
  function HandedOn(t: Table, op: Op): seq<nat> {
    var c := At(t, op.fd);
    (if Has(c.events, READ) && Hits(op, READ) then Waiters(c.read) else []) +
    (if Has(c.events, WRITE) && Hits(op, WRITE) then Waiters(c.write) else [])
  }

  lemma CancelLogs(c: FdCtx, watch: Option<bv32>, op: Op)
    requires op.Cancel? && Starting(c, watch, op) && Guard(c.events, op)
    ensures var v := OnFd(Look(c, watch), op);
            && v.registered == [] && v.removed == []
            && v.delivered == (if Has(c.events, READ) && op.ev == READ then Waiters(c.read) else [])
                            + (if Has(c.events, WRITE) && op.ev == WRITE then Waiters(c.write) else [])
  {
    CancelEventDoes(c, watch, op);
    FourSets(c.events);
  }

  lemma OnFdLogs(c: FdCtx, watch: Option<bv32>, op: Op)
    requires Starting(c, watch, op) && Guard(c.events, op)
    ensures var v := OnFd(Look(c, watch), op);
            && v.registered == Named(op)
            && v.removed == (if op.Del? && Has(c.events, op.ev) then Waiters(Get(c, op.ev)) else [])
            && v.delivered == (if Has(c.events, READ) && Hits(op, READ) then Waiters(c.read) else [])
                            + (if Has(c.events, WRITE) && Hits(op, WRITE) then Waiters(c.write) else [])
  {
    match op
    case Add(_, _, _, _) => AddEventDoes(c, watch, op);
    case Del(_, _) => DelEventDoes(c, watch, op);
    case Cancel(_, _) => CancelLogs(c, watch, op);
    case CancelEvery(_) => CancelAllDoes(c, watch, op);
    case Reported(_, _) => ReportDoes(c, watch, op);
  }

  lemma StepLogs(t: Table, op: Op, t': Table)
    requires Inv(t) && Leads(t, op, t')
    ensures t'.registered == t.registered + Named(op)
    ensures t'.removed == t.removed + Dropped(t, op)
    ensures t'.delivered == t.delivered + HandedOn(t, op)
  {
    CoveringKeeps(t, op.fd);
    assert InvAt(Covering(t, op.fd), op.fd);
    assert Covering(t, op.fd).ctxs[op.fd] == At(t, op.fd);
    OnFdLogs(At(t, op.fd), Watch(t, op.fd), op);
  }

  lemma LogsAlong(ts: seq<Table>, ops: seq<Op>, i: nat)
    requires IsRun(ts, ops) && i < |ops|
    ensures ts[i + 1].registered == ts[i].registered + Named(ops[i])
    ensures ts[i + 1].removed == ts[i].removed + Dropped(ts[i], ops[i])
    ensures ts[i + 1].delivered == ts[i].delivered + HandedOn(ts[i], ops[i])
  {
    ReachableInv(ts, ops, i);
    assert Leads(ts[i], ops[i], ts[i + 1]);
    StepLogs(ts[i], ops[i], ts[i + 1]);
  }

  lemma {:induction false} Gathered(logs: seq<seq<nat>>, parts: seq<seq<nat>>, n: nat)
    requires |logs| == |parts| + 1 && n <= |parts| && logs[0] == []
    requires forall i :: 0 <= i < |parts| ==> logs[i + 1] == logs[i] + parts[i]
    ensures logs[n] == Flat(parts, n)
  {
    if n > 0 {
      Gathered(logs, parts, n - 1);
      assert logs[n - 1 + 1] == logs[n - 1] + parts[n - 1];
    }
  }

  ghost function AllNamed(ts: seq<Table>, ops: seq<Op>): (parts: seq<seq<nat>>)
    requires |ops| <= |ts|
    ensures |parts| == |ops| && forall i :: 0 <= i < |ops| ==> parts[i] == Named(ops[i])
  {
    seq(|ops|, i requires 0 <= i < |ops| => Named(ops[i]))
  }

  ghost function AllDropped(ts: seq<Table>, ops: seq<Op>): (parts: seq<seq<nat>>)
    requires |ops| <= |ts|
    ensures |parts| == |ops| && forall i :: 0 <= i < |ops| ==> parts[i] == Dropped(ts[i], ops[i])
  {
    seq(|ops|, i requires 0 <= i < |ops| => Dropped(ts[i], ops[i]))
  }

  ghost function AllHandedOn(ts: seq<Table>, ops: seq<Op>): (parts: seq<seq<nat>>)
    requires |ops| <= |ts|
    ensures |parts| == |ops| && forall i :: 0 <= i < |ops| ==> parts[i] == HandedOn(ts[i], ops[i])
  {
    seq(|ops|, i requires 0 <= i < |ops| => HandedOn(ts[i], ops[i]))
  }

  /**
   In every run, registered are exactly the waiters of the `addEvent`s, removed exactly those a `delEvent` named, and
   delivered exactly those of registered events that were cancelled or reported, each list in order.
   */
  lemma LogsExact(ts: seq<Table>, ops: seq<Op>, n: nat)
    requires IsRun(ts, ops) && n < |ts|
    ensures ts[n].registered == Flat(AllNamed(ts, ops), n)
    ensures ts[n].removed == Flat(AllDropped(ts, ops), n)
    ensures ts[n].delivered == Flat(AllHandedOn(ts, ops), n)
  {
    RegisteredExact(ts, ops, n);
    RemovedExact(ts, ops, n);
    DeliveredExact(ts, ops, n);
  }

  lemma RegisteredExact(ts: seq<Table>, ops: seq<Op>, n: nat)
    requires IsRun(ts, ops) && n < |ts|
    ensures ts[n].registered == Flat(AllNamed(ts, ops), n)
  {
    var logs := seq(|ts|, i requires 0 <= i < |ts| => ts[i].registered);
    forall i | 0 <= i < |ops| ensures logs[i + 1] == logs[i] + AllNamed(ts, ops)[i] {
      LogsAlong(ts, ops, i);
    }
    Gathered(logs, AllNamed(ts, ops), n);
  }

  lemma RemovedExact(ts: seq<Table>, ops: seq<Op>, n: nat)
    requires IsRun(ts, ops) && n < |ts|
    ensures ts[n].removed == Flat(AllDropped(ts, ops), n)
  {
    var logs := seq(|ts|, i requires 0 <= i < |ts| => ts[i].removed);
    forall i | 0 <= i < |ops| ensures logs[i + 1] == logs[i] + AllDropped(ts, ops)[i] {
      LogsAlong(ts, ops, i);
    }
    Gathered(logs, AllDropped(ts, ops), n);
  }

  lemma DeliveredExact(ts: seq<Table>, ops: seq<Op>, n: nat)
    requires IsRun(ts, ops) && n < |ts|
    ensures ts[n].delivered == Flat(AllHandedOn(ts, ops), n)
  {
    var logs := seq(|ts|, i requires 0 <= i < |ts| => ts[i].delivered);
    forall i | 0 <= i < |ops| ensures logs[i + 1] == logs[i] + AllHandedOn(ts, ops)[i] {
      LogsAlong(ts, ops, i);
    }
    Gathered(logs, AllHandedOn(ts, ops), n);
  }

  /** The table grows only for an fd it does not cover, to one and a half times that fd. */
  lemma CoveringSize(t: Table, fd: nat)
    ensures fd < |t.ctxs| ==> Covering(t, fd) == t
    ensures fd >= |t.ctxs| ==> |Covering(t, fd).ctxs| == fd + fd / 2
    ensures |EmptyTable().ctxs| == 32
  {
  }

  // ----- edge-triggered or not, over whole runs

  /** The kernel's mask for fd is exactly EPOLLET and the registered events; without any it does not watch. */
  predicate ExactAt(t: Table, fd: nat) {
    if fd < |t.ctxs| then Exact(t.ctxs[fd], Watch(t, fd)) else fd !in t.epoll
  }

  predicate LosesEdgeAt(t: Table, op: Op) {
    op.fd < |Covering(t, op.fd).ctxs| && LosesEdge(Covering(t, op.fd).ctxs[op.fd].events, op)
  }

  predicate SilentAt(t: Table, op: Op) {
    op.fd < |Covering(t, op.fd).ctxs| && Silent(Covering(t, op.fd).ctxs[op.fd].events, op)
  }

  /** Whether the mask for fd is exact after an operation, given whether it was before. */
  predicate EdgeAfter(t: Table, op: Op, fd: nat, before: bool) {
    if fd != op.fd || SilentAt(t, op) then before else !LosesEdgeAt(t, op)
  }

  lemma ExactOther(t: Table, op: Op, t': Table, fd: nat)
    requires Inv(t) && Leads(t, op, t') && fd != op.fd
    ensures ExactAt(t', fd) <==> ExactAt(t, fd)
  {
    CoveringKeeps(t, op.fd);
    assert Watch(t', fd) == Watch(t, fd);
  }

  lemma ExactHere(t: Table, op: Op, t': Table)
    requires Inv(t) && Leads(t, op, t')
    ensures ExactAt(t', op.fd) <==> EdgeAfter(t, op, op.fd, ExactAt(t, op.fd))
  {
    var c, watch := Covering(t, op.fd).ctxs[op.fd], Watch(t, op.fd);
    CoveringKeeps(t, op.fd);
    assert InvAt(Covering(t, op.fd), op.fd);
    var v := OnFd(Look(c, watch), op);
    assert t'.ctxs[op.fd] == v.ctx && Watch(t', op.fd) == v.watch;
    assert ExactAt(t, op.fd) <==> Exact(c, watch);
    ExactAfter(c, watch, op);
  }

  /** Of the steps before step n that are not mute, the last one is kept; true without any. */
  predicate LastKept(mute: seq<bool>, kept: seq<bool>, n: nat)
    requires n <= |mute| == |kept|
  {
    n == 0 || if mute[n - 1] then LastKept(mute, kept, n - 1) else kept[n - 1]
  }

  lemma {:induction false} LastDecides(state: seq<bool>, mute: seq<bool>, kept: seq<bool>, n: nat)
    requires n <= |mute| == |kept| && |state| == |mute| + 1 && state[0]
    requires forall i :: 0 <= i < |mute| ==> state[i + 1] == if mute[i] then state[i] else kept[i]
    ensures state[n] == LastKept(mute, kept, n)
  {
    if n > 0 {
      LastDecides(state, mute, kept, n - 1);
      assert state[n - 1 + 1] == if mute[n - 1] then state[n - 1] else kept[n - 1];
    }
  }

  ghost function Mute(ts: seq<Table>, ops: seq<Op>, fd: nat): (mute: seq<bool>)
    requires |ops| <= |ts|
    ensures |mute| == |ops|
    ensures forall i :: 0 <= i < |ops| ==> mute[i] == (fd != ops[i].fd || SilentAt(ts[i], ops[i]))
  {
    seq(|ops|, i requires 0 <= i < |ops| => fd != ops[i].fd || SilentAt(ts[i], ops[i]))
  }

  ghost function KeepsEdge(ts: seq<Table>, ops: seq<Op>): (kept: seq<bool>)
    requires |ops| <= |ts|
    ensures |kept| == |ops| && forall i :: 0 <= i < |ops| ==> kept[i] == !LosesEdgeAt(ts[i], ops[i])
  {
    seq(|ops|, i requires 0 <= i < |ops| => !LosesEdgeAt(ts[i], ops[i]))
  }

  /** Of the operations on fd that sent the kernel a mask, the last one before step n did not lose the edge. */
  ghost predicate EdgeKept(ts: seq<Table>, ops: seq<Op>, n: nat, fd: nat)
    requires n <= |ops| < |ts|
  {
    LastKept(Mute(ts, ops, fd), KeepsEdge(ts, ops), n)
  }

  lemma ExactStep(t: Table, op: Op, t': Table, fd: nat)
    requires Inv(t) && Leads(t, op, t')
    ensures ExactAt(t', fd) <==> EdgeAfter(t, op, fd, ExactAt(t, fd))
  {
    if fd == op.fd {
      ExactHere(t, op, t');
    } else {
      ExactOther(t, op, t', fd);
    }
  }

  /** In every state of every run, that is exactly when the kernel's mask for fd is exact. */
  lemma ExactIff(ts: seq<Table>, ops: seq<Op>, n: nat, fd: nat)
    requires IsRun(ts, ops) && n < |ts|
    ensures ExactAt(ts[n], fd) <==> EdgeKept(ts, ops, n, fd)
  {
    var exact := seq(|ts|, i requires 0 <= i < |ts| => ExactAt(ts[i], fd));
    var mute, kept := Mute(ts, ops, fd), KeepsEdge(ts, ops);
    forall i | 0 <= i < |ops| ensures exact[i + 1] == if mute[i] then exact[i] else kept[i] {
      ExactAlong(ts, ops, i, fd);
    }
    LastDecides(exact, mute, kept, n);
  }

  lemma ExactAlong(ts: seq<Table>, ops: seq<Op>, i: nat, fd: nat)
    requires IsRun(ts, ops) && i < |ops|
    ensures ExactAt(ts[i + 1], fd) <==> EdgeAfter(ts[i], ops[i], fd, ExactAt(ts[i], fd))
  {
    ReachableInv(ts, ops, i);
    assert Leads(ts[i], ops[i], ts[i + 1]);
    ExactStep(ts[i], ops[i], ts[i + 1], fd);
  }

  /** So without a `delEvent` that leaves the other event registered, every mask is exact all along. */
  lemma {:induction false} AllExact(ts: seq<Table>, ops: seq<Op>, n: nat, fd: nat)
    requires IsRun(ts, ops) && n < |ts| && forall i :: 0 <= i < n ==> !LosesEdgeAt(ts[i], ops[i])
    ensures ExactAt(ts[n], fd)
    decreases n
  {
    if n > 0 {
      AllExact(ts, ops, n - 1, fd);
      ExactAlong(ts, ops, n - 1, fd);
    }
  }

  // ----- runs that end badly

  const WAITING: FdCtx := FdCtx(READ | WRITE, EventContext(true, None, Some(10)), EventContext(true, Some(11), None))

  /** Fd 3 of an otherwise empty table, with both events registered one after the other. */
  function BothRegistered(): Table {
    Table(EmptyTable().ctxs[3 := WAITING], map[3 := EPOLLET | READ | WRITE], 2, [], 0, false, [10, 11], [])
  }

  lemma RegisterBoth() returns (ts: seq<Table>, ops: seq<Op>)
    ensures IsRun(ts, ops) && |ops| == 2 && ts[2] == BothRegistered()
  {
    var add, more := Add(3, READ, None, 10), Add(3, WRITE, Some(11), 0);
    var t0 := EmptyTable();
    var one := FdCtx(READ, EventContext(true, None, Some(10)), EMPTY);
    var t1 := Table(t0.ctxs[3 := one], map[3 := EPOLLET | READ], 1, [], 0, false, [10], []);
    assert OnFd(Look(FRESH, None), add) == View(one, Some(EPOLLET | READ), 1, [], 0, false, [10], []);
    assert Apply(t0, add) == t1;
    assert OnFd(Look(one, Some(EPOLLET | READ)), more)
        == View(WAITING, Some(EPOLLET | READ | WRITE), 1, [], 0, false, [11], []);
    assert t0.ctxs[3 := one][3 := WAITING] == t0.ctxs[3 := WAITING];
    assert Apply(t1, more) == BothRegistered();
    ts, ops := [t0, t1, BothRegistered()], [add, more];
    assert Leads(t0, add, t1) && Leads(t1, more, ts[2]);
  }

  /** Cancelling READ then leaves the kernel watching for it. */
  lemma CancelBreaksAgreement()
    ensures exists ts, ops :: IsRun(ts, ops) && ts[|ops|] == BothRegistered()
    ensures var t := Apply(BothRegistered(), Cancel(3, READ));
            && t.ctxs[3].events == WRITE && Watch(t, 3) == Some(READ | WRITE)
            && !Agrees(t.ctxs[3], Watch(t, 3))
  {
    var ts, ops := RegisterBoth();
    assert ts[|ops|] == BothRegistered();
    assert Without(READ | WRITE, READ) == WRITE;
    assert (READ | WRITE) & !EPOLLET != WRITE;
  }

  /** Deleting READ instead leaves WRITE watched without EPOLLET. */
  lemma DelLosesEdge()
    ensures exists ts, ops :: IsRun(ts, ops) && ts[|ops|] == BothRegistered()
    ensures ExactAt(BothRegistered(), 3)
    ensures var t := Apply(BothRegistered(), Del(3, READ));
            t.ctxs[3].events == WRITE && Watch(t, 3) == Some(WRITE) && !ExactAt(t, 3)
  {
    var ts, ops := RegisterBoth();
    assert ts[|ops|] == BothRegistered();
    assert Without(READ | WRITE, READ) == WRITE;
    assert With(EPOLLET, WRITE) != WRITE;
  }

  /** Fd 3 of an otherwise empty table, with a callback waiting for WRITE. */
  function WriteRegistered(): Table {
    Table(EmptyTable().ctxs[3 := FdCtx(WRITE, EMPTY, EventContext(true, Some(11), None))],
          map[3 := EPOLLET | WRITE], 1, [], 0, false, [11], [])
  }

  lemma RegisterWrite() returns (ts: seq<Table>, ops: seq<Op>)
    ensures IsRun(ts, ops) && |ops| == 1 && ts[1] == WriteRegistered()
  {
    var add := Add(3, WRITE, Some(11), 0);
    var c := FdCtx(WRITE, EMPTY, EventContext(true, Some(11), None));
    assert OnFd(Look(FRESH, None), add) == View(c, Some(EPOLLET | WRITE), 1, [], 0, false, [11], []);
    assert Apply(EmptyTable(), add) == WriteRegistered();
    ts, ops := [EmptyTable(), WriteRegistered()], [add];
    assert Leads(ts[0], ops[0], ts[1]);
  }

  /** An error reported for an fd where only WRITE is waited for wakes nobody. */
  lemma FailureMissesWrite()
    ensures exists ts, ops :: IsRun(ts, ops) && ts[|ops|] == WriteRegistered()
    ensures Apply(WriteRegistered(), Reported(3, EPOLLERR)) == WriteRegistered()
  {
    var ts, ops := RegisterWrite();
    assert ts[|ops|] == WriteRegistered();
    NothingReported();
  }

  lemma NothingReported()
    ensures Apply(WriteRegistered(), Reported(3, EPOLLERR)) == WriteRegistered()
  {
    var c := FdCtx(WRITE, EMPTY, EventContext(true, Some(11), None));
    var v := Look(c, Some(EPOLLET | WRITE));
    assert ActedOn(WRITE, EPOLLERR) == NONE;
    assert OnFd(v, Reported(3, EPOLLERR)) == v;
    assert WriteRegistered().ctxs[3 := c] == WriteRegistered().ctxs;
  }

  // ----- one round of the event loop

  /** A report of the kernel; one without an fd is of the wake-up descriptor, which is only read. */
  datatype Notice = Notice(fd: Option<nat>, mask: bv32)

  function Reporting(r: Notice): Op
    requires r.fd.Some?
  {
    Reported(r.fd.value, r.mask)
  }

  /** A report of an fd that has a context, on events that are all registered or all not. */
  predicate Acceptable(t: Table, r: Notice) {
    r.fd.None? || (r.fd.value < |t.ctxs| && Guard(t.ctxs[r.fd.value].events, Reporting(r)))
  }

  function AfterReport(t: Table, r: Notice): Table
    requires Acceptable(t, r)
  {
    if r.fd.None? then t else Apply(t, Reporting(r))
  }

  /** Every report is acceptable when its turn comes. */
  predicate AllAcceptable(t: Table, rs: seq<Notice>)
    decreases |rs|
  {
    rs == [] || (Acceptable(t, rs[0]) && AllAcceptable(AfterReport(t, rs[0]), rs[1..]))
  }

  function AfterReports(t: Table, rs: seq<Notice>): Table
    requires AllAcceptable(t, rs)
    decreases |rs|
  {
    if rs == [] then t else AfterReports(AfterReport(t, rs[0]), rs[1..])
  }
}
