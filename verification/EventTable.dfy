/**
 The IO manager's event table on values: a context per fd, the kernel's interest set, the pending counter
 and the tasks handed to the scheduler.
 */
module EventTable {
  import opened Options
  import opened Logs

  const NONE: bv32 := 0
  const READ: bv32 := 1   // EPOLLIN
  const WRITE: bv32 := 4  // EPOLLOUT
  const EPOLLERR: bv32 := 8
  const EPOLLHUP: bv32 := 0x10
  const EPOLLET: bv32 := 0x8000_0000

  /** The callback or coroutine waiting for one event, and whether a scheduler is set to run it. */
  datatype EventContext = EventContext(scheduler: bool, cb: Option<nat>, co: Option<nat>)

  const EMPTY: EventContext := EventContext(false, None, None)

  datatype FdCtx = FdCtx(events: bv32, read: EventContext, write: EventContext)

  const FRESH: FdCtx := FdCtx(NONE, EMPTY, EMPTY)

  function Get(c: FdCtx, ev: bv32): EventContext {
    if ev == READ then c.read else c.write
  }

  /** The context with other events and another waiter for ev. */
  function Change(c: FdCtx, events: bv32, ev: bv32, w: EventContext): FdCtx {
    FdCtx(events, if ev == READ then w else c.read, if ev == READ then c.write else w)
  }

  function With(events: bv32, ev: bv32): bv32 {
    events | ev
  }

  function Without(events: bv32, ev: bv32): bv32 {
    events & !ev
  }

  function Has(events: bv32, ev: bv32): bool {
    events & ev != NONE
  }

  // ----- one fd

  /**
   An operation's view of its fd: the context, what the kernel watches, and the effects so far. `refused` counts
   failed `epoll_ctl` calls; `crashed` is a failed assert or a null scheduler; `registered`, `removed` and
   `delivered` are the waiters that came in, were dropped, and became tasks.
   */
  datatype View = View(ctx: FdCtx, watch: Option<bv32>, pending: int, delivered: seq<nat>, refused: nat, crashed: bool,
                       registered: seq<nat>, removed: seq<nat>)

  function Look(c: FdCtx, watch: Option<bv32>): View {
    View(c, watch, 0, [], 0, false, [], [])
  }

  datatype CtlOp = ADD | MOD | DEL

  /** The kernel refuses to add an fd it watches, and to change or delete one it does not. */
  function EpollCtl(v: View, op: CtlOp, mask: bv32): View {
    if (op == ADD) == v.watch.Some? then v.(refused := v.refused + 1)
    else v.(watch := if op == DEL then None else Some(mask))
  }

  function Waiters(w: EventContext): seq<nat> {
    if w.cb.Some? then [w.cb.value] else if w.co.Some? then [w.co.value] else []
  }

  /** The context after `trigerEvent`: the bit is cleared and the waiter swapped out. */
  function Triggered(c: FdCtx, ev: bv32): FdCtx {
    var w := Get(c, ev);
    var left := if w.scheduler then EventContext(false, None, if w.cb.Some? then w.co else None) else w;
    Change(c, Without(c.events, ev), ev, left)
  }

  /** `trigerEvent`: the waiter becomes a task; an empty one would be dropped by the queue. */
  function Trigger(v: View, ev: bv32): View {
    if Get(v.ctx, ev).scheduler then
      v.(ctx := Triggered(v.ctx, ev), delivered := v.delivered + Waiters(Get(v.ctx, ev)))
    else
      v.(ctx := Triggered(v.ctx, ev), crashed := true)
  }

  function TriggerCounted(v: View, ev: bv32): View {
    Trigger(v, ev).(pending := v.pending - 1)
  }

  /** `addEvent` for a callback, or for the running coroutine `self` when no callback is given. */
  function AddEvent(v: View, ev: bv32, cb: Option<nat>, self: nat): View {
    var c := v.ctx;
    if Has(c.events, ev) || Get(c, ev) != EMPTY then v.(crashed := true)
    else
      var w := EventContext(true, cb, if cb.Some? then None else Some(self));
      var c' := Change(c, With(c.events, ev), ev, w);
      var v' := EpollCtl(v.(ctx := c', registered := v.registered + Waiters(w)),
                         if c.events != NONE then MOD else ADD, With(EPOLLET, c'.events));
      if v'.refused != v.refused then v' else v'.(pending := v'.pending + 1)
  }

  /** `delEvent`. The mask it sends lacks EPOLLET. */
  function DelEvent(v: View, ev: bv32): View {
    var c := v.ctx;
    if !Has(c.events, ev) then v
    else
      var c' := Change(c, Without(c.events, ev), ev, EMPTY);
      var v' := EpollCtl(v.(ctx := c', removed := v.removed + Waiters(Get(c, ev))),
                         if c'.events != NONE then MOD else DEL, c'.events);
      v'.(pending := v'.pending - 1)
  }

  /** `cancelEvent`: the guard reads `!events & ev`, and the mask sent is the old one. */
  function CancelEvent(v: View, ev: bv32): View {
    var c := v.ctx;
    if Has(if c.events == NONE then 1 else 0, ev) then v
    else TriggerCounted(EpollCtl(v, if Without(c.events, ev) != NONE then MOD else DEL, c.events), ev)
  }

  /** Both triggers of `cancelAll` and of the event loop. */
  function TriggerBoth(v: View, which: bv32): View {
    var v' := if Has(which, READ) then TriggerCounted(v, READ) else v;
    if Has(which, WRITE) then TriggerCounted(v', WRITE) else v'
  }

  /** `cancelAll`. */
  function CancelAll(v: View): View {
    if v.ctx.events == NONE then v else TriggerBoth(EpollCtl(v, DEL, NONE), v.ctx.events)
  }

  /** The events the loop acts on: on an error or hang-up a registered READ counts as reported too. */
  function ActedOn(events: bv32, reported: bv32): bv32 {
    var r := if Has(reported, EPOLLERR | EPOLLHUP) then reported | ((READ | EPOLLHUP) & events) else reported;
    r & (READ | WRITE)
  }

  /** The event loop body of `idle` for one reported fd. */
  function Report(v: View, reported: bv32): View {
    var acted := ActedOn(v.ctx.events, reported);
    if !Has(v.ctx.events, acted) then v
    else
      var left := Without(v.ctx.events, acted);
      TriggerBoth(EpollCtl(v, if left != NONE then MOD else DEL, With(EPOLLET, left)), acted)
  }

  // ----- operations

  datatype Op =
    | Add(fd: nat, ev: bv32, cb: Option<nat>, self: nat)
    | Del(fd: nat, ev: bv32)
    | Cancel(fd: nat, ev: bv32)
    | CancelEvery(fd: nat)
    | Reported(fd: nat, mask: bv32)

  function OnFd(v: View, op: Op): View {
    match op
    case Add(_, ev, cb, self) => AddEvent(v, ev, cb, self)
    case Del(_, ev) => DelEvent(v, ev)
    case Cancel(_, ev) => CancelEvent(v, ev)
    case CancelEvery(_) => CancelAll(v)
    case Reported(_, mask) => Report(v, mask)
  }

  /** The guard a caller can check: what is registered on the fd when the operation starts. */
  predicate Guard(events: bv32, op: Op) {
    match op
    case Add(_, ev, _, _) => !Has(events, ev)
    case Del(_, _) => true
    case Cancel(_, ev) => events == ev || (events == NONE && ev == READ)
    case CancelEvery(_) => true
    case Reported(_, mask) => ActedOn(events, mask) & events == NONE || ActedOn(events, mask) & !events == NONE
  }

  // ----- what an operation on one fd has to keep

  function Bit(events: bv32, ev: bv32): nat {
    if Has(events, ev) then 1 else 0
  }

  function BitCount(c: FdCtx): nat {
    Bit(c.events, READ) + Bit(c.events, WRITE)
  }

  /** How often x is waiting in a context. */
  function Waits(x: nat, c: FdCtx): nat {
    Count(x, Waiters(c.read)) + Count(x, Waiters(c.write))
  }

  /** A waiter is there, with a scheduler and either a callback or a coroutine, exactly when its bit is set. */
  predicate Matches(w: EventContext, registered: bool) {
    if registered then w.scheduler && w.cb.Some? != w.co.Some? else w == EMPTY
  }

  predicate CtxOk(c: FdCtx) {
    && c.events & !(READ | WRITE) == NONE
    && Matches(c.read, Has(c.events, READ))
    && Matches(c.write, Has(c.events, WRITE))
  }

  /** What the kernel watches of an fd is what its context has registered. */
  predicate Agrees(c: FdCtx, watch: Option<bv32>) {
    if c.events == NONE then watch.None? else watch.Some? && watch.value & !EPOLLET == c.events
  }

  /** The operation ends in agreement, with nothing refused, and has counted what it did to `c`. */
  predicate Steady(c: FdCtx, v: View) {
    && CtxOk(v.ctx) && Agrees(v.ctx, v.watch)
    && v.pending == BitCount(v.ctx) - BitCount(c)
    && v.refused == 0 && !v.crashed
  }

  /** Whoever waited or came in waits still, was delivered, or was removed. */
  ghost predicate Balanced(c: FdCtx, v: View) {
    forall x :: Waits(x, c) + Count(x, v.registered) == Waits(x, v.ctx) + Count(x, v.delivered) + Count(x, v.removed)
  }

  ghost predicate Good(c: FdCtx, v: View) {
    Steady(c, v) && Balanced(c, v)
  }

  predicate IsEvent(ev: bv32) {
    ev == READ || ev == WRITE
  }

  /** The events of a context are none, one or both. */
  lemma FourSets(events: bv32)
    requires events & !(READ | WRITE) == NONE
    ensures events == 0 || events == 1 || events == 4 || events == 5
  {
  }

  // ----- steadiness, operation by operation

  predicate HasEvent(op: Op) {
    op.Add? || op.Del? || op.Cancel?
  }

  /** An operation on one fd whose context and kernel agree, on a single event if it names one. */
  predicate Starting(c: FdCtx, watch: Option<bv32>, op: Op) {
    CtxOk(c) && Agrees(c, watch) && (HasEvent(op) ==> IsEvent(op.ev))
  }

  /** `addEvent` is steady exactly when the event is not registered yet; else its assert fails. */
  lemma AddEventSteady(c: FdCtx, watch: Option<bv32>, op: Op)
    requires op.Add? && Starting(c, watch, op)
    ensures Steady(c, OnFd(Look(c, watch), op)) <==> Guard(c.events, op)
  {
    FourSets(c.events);
  }

  lemma DelEventSteady(c: FdCtx, watch: Option<bv32>, op: Op)
    requires op.Del? && Starting(c, watch, op)
    ensures Steady(c, OnFd(Look(c, watch), op))
  {
    FourSets(c.events);
  }

  /** `cancelEvent` is steady exactly on an fd's sole event, or where there is none and READ is asked for. */
  lemma CancelEventSteady(c: FdCtx, watch: Option<bv32>, op: Op)
    requires op.Cancel? && Starting(c, watch, op)
    ensures Steady(c, OnFd(Look(c, watch), op)) <==> Guard(c.events, op)
  {
    FourSets(c.events);
  }

  lemma CancelAllSteady(c: FdCtx, watch: Option<bv32>, op: Op)
    requires op.CancelEvery? && Starting(c, watch, op)
    ensures Steady(c, OnFd(Look(c, watch), op))
  {
    FourSets(c.events);
  }

  /** A report is steady exactly when all or none of what it acts on is registered. */
  lemma ReportSteady(c: FdCtx, watch: Option<bv32>, op: Op)
    requires op.Reported? && Starting(c, watch, op)
    ensures Steady(c, OnFd(Look(c, watch), op)) <==> Guard(c.events, op)
  {
    FourSets(c.events);
    FourSets(ActedOn(c.events, op.mask));
  }

  // ----- edge-triggered or not

  /** The kernel watches exactly what `addEvent` asks for: the registered events, edge-triggered. */
  predicate Exact(c: FdCtx, watch: Option<bv32>) {
    watch == if c.events == NONE then None else Some(With(EPOLLET, c.events))
  }

  /** A `delEvent` that leaves the other event registered; it sends the kernel a mask without EPOLLET. */
  predicate LosesEdge(events: bv32, op: Op) {
    op.Del? && Has(events, op.ev) && events != op.ev
  }

  /** The operation sends the kernel nothing. */
  predicate Silent(events: bv32, op: Op) {
    match op
    case Add(_, _, _, _) => false
    case Del(_, ev) => !Has(events, ev)
    case Cancel(_, _) => events == NONE
    case CancelEvery(_) => events == NONE
    case Reported(_, mask) => ActedOn(events, mask) & events == NONE
  }

  /** Exact afterwards: a mask was sent that does not lose the edge, or none was and it had been exact. */
  lemma ExactAfter(c: FdCtx, watch: Option<bv32>, op: Op)
    requires Starting(c, watch, op) && Guard(c.events, op)
    ensures var v := OnFd(Look(c, watch), op);
            Exact(v.ctx, v.watch) <==> !LosesEdge(c.events, op) && (Silent(c.events, op) ==> Exact(c, watch))
  {
    FourSets(c.events);
    match op
    case Add(_, _, _, _) => EdgeSent(c.events, op.ev);
    case Del(_, _) =>
    case Cancel(_, _) =>
    case CancelEvery(_) =>
    case Reported(_, mask) => FourSets(ActedOn(c.events, mask));
  }

  lemma EdgeSent(events: bv32, ev: bv32)
    requires events & !(READ | WRITE) == NONE && IsEvent(ev)
    ensures With(events, ev) != NONE
  {
  }

  // ----- errors and hang-ups

  predicate Fails(mask: bv32) {
    Has(mask, EPOLLERR | EPOLLHUP)
  }

  /** After a reported error or hang-up nothing stays registered if and only if WRITE was not, or was reported too. */
  lemma FailureClears(c: FdCtx, watch: Option<bv32>, op: Op)
    requires op.Reported? && Starting(c, watch, op) && Guard(c.events, op) && Fails(op.mask)
    ensures OnFd(Look(c, watch), op).ctx.events == NONE <==> (Has(c.events, WRITE) ==> Has(op.mask, WRITE))
  {
    FourSets(c.events);
    FourSets(ActedOn(c.events, op.mask));
    ActedOnFailure(c.events, op.mask);
  }

  lemma ActedOnFailure(events: bv32, mask: bv32)
    requires Fails(mask)
    ensures Has(ActedOn(events, mask), READ) <==> Has(mask, READ) || Has(events, READ)
    ensures Has(ActedOn(events, mask), WRITE) <==> Has(mask, WRITE)
  {
  }

  // ----- accounts, operation by operation

  /** A trigger turns a registered waiter into a task and leaves its context empty. */
  lemma TriggerMoves(v: View, ev: bv32)
    requires IsEvent(ev) && Matches(Get(v.ctx, ev), true)
    ensures var v' := Trigger(v, ev);
            && Get(v'.ctx, ev) == EMPTY && !v'.crashed == !v.crashed
            && |v'.delivered| == |v.delivered| + 1
            && v'.registered == v.registered && v'.removed == v.removed
            && (forall x :: Waits(x, v.ctx) + Count(x, v.delivered) == Waits(x, v'.ctx) + Count(x, v'.delivered))
            && (ev == READ ==> v'.ctx.write == v.ctx.write) && (ev == WRITE ==> v'.ctx.read == v.ctx.read)
  {
    forall x ensures Waits(x, v.ctx) + Count(x, v.delivered)
                  == Waits(x, Trigger(v, ev).ctx) + Count(x, Trigger(v, ev).delivered) {
      CountAppend(x, v.delivered, Waiters(Get(v.ctx, ev)));
    }
  }

  /** A waiter put where none was. */
  lemma WaiterComes(x: nat, c: FdCtx, events: bv32, ev: bv32, w: EventContext)
    requires IsEvent(ev) && Get(c, ev) == EMPTY
    ensures Waits(x, Change(c, events, ev, w)) == Waits(x, c) + Count(x, Waiters(w))
  {
  }

  lemma AddEventBalanced(c: FdCtx, watch: Option<bv32>, op: Op)
    requires op.Add? && Starting(c, watch, op) && Guard(c.events, op)
    ensures Balanced(c, OnFd(Look(c, watch), op))
  {
    var w := EventContext(true, op.cb, if op.cb.Some? then None else Some(op.self));
    var v := OnFd(Look(c, watch), op);
    assert v.ctx == Change(c, With(c.events, op.ev), op.ev, w);
    assert v.registered == Waiters(w) && v.delivered == [] && v.removed == [];
    forall x
      ensures Waits(x, c) + Count(x, v.registered) == Waits(x, v.ctx) + Count(x, v.delivered) + Count(x, v.removed)
    {
      WaiterComes(x, c, With(c.events, op.ev), op.ev, w);
    }
  }

  lemma DelEventBalanced(c: FdCtx, watch: Option<bv32>, op: Op)
    requires op.Del? && Starting(c, watch, op)
    ensures Balanced(c, OnFd(Look(c, watch), op))
  {
    forall x ensures var v := OnFd(Look(c, watch), op);
      Waits(x, c) + Count(x, v.registered) == Waits(x, v.ctx) + Count(x, v.delivered) + Count(x, v.removed) {
      CountAppend(x, [], Waiters(Get(c, op.ev)));
    }
  }

  /** Triggering a set of registered events keeps the accounts. */
  lemma TriggerBothBalanced(c: FdCtx, v: View, which: bv32)
    requires CtxOk(c) && v.ctx == c && v.registered == v.removed == v.delivered == []
    requires which & !c.events == NONE
    ensures Balanced(c, TriggerBoth(v, which))
  {
    FourSets(c.events);
    FourSets(which);
    if Has(which, READ) {
      TriggerMoves(v, READ);
    }
    var v' := if Has(which, READ) then TriggerCounted(v, READ) else v;
    if Has(which, WRITE) {
      TriggerMoves(v', WRITE);
    }
  }

  lemma CancelEventBalanced(c: FdCtx, watch: Option<bv32>, op: Op)
    requires op.Cancel? && Starting(c, watch, op) && Guard(c.events, op)
    ensures Balanced(c, OnFd(Look(c, watch), op))
  {
    if c.events == op.ev {
      TriggerMoves(EpollCtl(Look(c, watch), DEL, c.events), op.ev);
    }
  }

  lemma CancelAllBalanced(c: FdCtx, watch: Option<bv32>, op: Op)
    requires op.CancelEvery? && Starting(c, watch, op)
    ensures Balanced(c, OnFd(Look(c, watch), op))
  {
    TriggerBothBalanced(c, EpollCtl(Look(c, watch), DEL, NONE), c.events);
  }

  /** What the event loop acts on has a scheduler to hand its waiter to. */
  lemma ActedOnIsReady(c: FdCtx, watch: Option<bv32>, op: Op)
    requires op.Reported? && Starting(c, watch, op) && Guard(c.events, op) && Has(c.events, ActedOn(c.events, op.mask))
    ensures Has(ActedOn(c.events, op.mask), READ) ==> c.read.scheduler
    ensures Has(ActedOn(c.events, op.mask), WRITE) ==> c.write.scheduler
  {
    FourSets(c.events);
    FourSets(ActedOn(c.events, op.mask));
  }

  lemma ReportBalanced(c: FdCtx, watch: Option<bv32>, op: Op)
    requires op.Reported? && Starting(c, watch, op) && Guard(c.events, op)
    ensures Balanced(c, OnFd(Look(c, watch), op))
  {
    var acted := ActedOn(c.events, op.mask);
    if Has(c.events, acted) {
      var left := Without(c.events, acted);
      TriggerBothBalanced(c, EpollCtl(Look(c, watch), if left != NONE then MOD else DEL, With(EPOLLET, left)), acted);
    }
  }

  // ----- the operations, exactly

  lemma OnFdSteady(c: FdCtx, watch: Option<bv32>, op: Op)
    requires Starting(c, watch, op)
    ensures Steady(c, OnFd(Look(c, watch), op)) <==> Guard(c.events, op)
  {
    match op
    case Add(_, _, _, _) => AddEventSteady(c, watch, op);
    case Del(_, _) => DelEventSteady(c, watch, op);
    case Cancel(_, _) => CancelEventSteady(c, watch, op);
    case CancelEvery(_) => CancelAllSteady(c, watch, op);
    case Reported(_, _) => ReportSteady(c, watch, op);
  }

  lemma OnFdBalanced(c: FdCtx, watch: Option<bv32>, op: Op)
    requires Starting(c, watch, op) && Guard(c.events, op)
    ensures Balanced(c, OnFd(Look(c, watch), op))
  {
    match op
    case Add(_, _, _, _) => AddEventBalanced(c, watch, op);
    case Del(_, _) => DelEventBalanced(c, watch, op);
    case Cancel(_, _) => CancelEventBalanced(c, watch, op);
    case CancelEvery(_) => CancelAllBalanced(c, watch, op);
    case Reported(_, _) => ReportBalanced(c, watch, op);
  }

  /** An operation keeps agreement and accounts on its fd exactly when its guard holds. */
  lemma OnFdExact(c: FdCtx, watch: Option<bv32>, op: Op)
    requires Starting(c, watch, op)
    ensures Good(c, OnFd(Look(c, watch), op)) <==> Guard(c.events, op)
  {
    OnFdSteady(c, watch, op);
    if Guard(c.events, op) {
      OnFdBalanced(c, watch, op);
    }
  }

  // ----- what each operation does with the waiters

  /** One waiter: the callback, or without one the coroutine. */
  lemma WaitersExact(w: EventContext)
    ensures w.cb.Some? ==> Waiters(w) == [w.cb.value]
    ensures w.cb.None? && w.co.Some? ==> Waiters(w) == [w.co.value]
    ensures w == EMPTY ==> Waiters(w) == []
  {
  }

  /** The other event of an fd: registered or not as before, with the same waiter. */
  predicate OtherKept(c: FdCtx, c': FdCtx, ev: bv32) {
    && (ev == READ ==> (Has(c'.events, WRITE) <==> Has(c.events, WRITE)) && c'.write == c.write)
    && (ev == WRITE ==> (Has(c'.events, READ) <==> Has(c.events, READ)) && c'.read == c.read)
  }

  lemma AddEventLogs(c: FdCtx, watch: Option<bv32>, op: Op)
    requires op.Add? && Starting(c, watch, op) && Guard(c.events, op)
    ensures var v := OnFd(Look(c, watch), op);
            v.registered == [if op.cb.Some? then op.cb.value else op.self] && v.delivered == [] && v.removed == []
  {
    WaitersExact(EventContext(true, op.cb, if op.cb.Some? then None else Some(op.self)));
  }

  lemma AddedBit(events: bv32, ev: bv32)
    requires IsEvent(ev)
    ensures Has(With(events, ev), ev)
    ensures ev == READ ==> Has(With(events, ev), WRITE) == Has(events, WRITE)
    ensures ev == WRITE ==> Has(With(events, ev), READ) == Has(events, READ)
  {
  }

  /** `addEvent` registers its callback, or else the running coroutine, for its event, and nothing else. */
  lemma AddEventDoes(c: FdCtx, watch: Option<bv32>, op: Op)
    requires op.Add? && Starting(c, watch, op) && Guard(c.events, op)
    ensures var v := OnFd(Look(c, watch), op);
            && v.registered == [if op.cb.Some? then op.cb.value else op.self] && v.delivered == [] && v.removed == []
            && Has(v.ctx.events, op.ev) && Get(v.ctx, op.ev).scheduler
            && (op.cb.Some? ==> Get(v.ctx, op.ev).cb == op.cb && Get(v.ctx, op.ev).co.None?)
            && (op.cb.None? ==> Get(v.ctx, op.ev).cb.None? && Get(v.ctx, op.ev).co == Some(op.self))
            && OtherKept(c, v.ctx, op.ev)
  {
    AddEventLogs(c, watch, op);
    AddedBit(c.events, op.ev);
  }

  /** `delEvent` drops the waiter of its event if there is one, and nothing else. */
  lemma DelEventDoes(c: FdCtx, watch: Option<bv32>, op: Op)
    requires op.Del? && Starting(c, watch, op)
    ensures var v := OnFd(Look(c, watch), op);
            && v.registered == [] && v.delivered == []
            && v.removed == (if Has(c.events, op.ev) then Waiters(Get(c, op.ev)) else [])
            && !Has(v.ctx.events, op.ev) && Get(v.ctx, op.ev) == EMPTY
            && OtherKept(c, v.ctx, op.ev)
  {
    FourSets(c.events);
    WaitersExact(Get(c, op.ev));
  }

  /** `cancelEvent` hands on the one waiter there is, if any, and leaves the fd empty. */
  lemma CancelEventDoes(c: FdCtx, watch: Option<bv32>, op: Op)
    requires op.Cancel? && Starting(c, watch, op) && Guard(c.events, op)
    ensures var v := OnFd(Look(c, watch), op);
            && v.registered == [] && v.removed == [] && v.ctx == FRESH
            && v.delivered == (if Has(c.events, op.ev) then Waiters(Get(c, op.ev)) else [])
  {
    FourSets(c.events);
    if c.events == op.ev {
      TriggerMoves(EpollCtl(Look(c, watch), DEL, c.events), op.ev);
    }
    assert Without(op.ev, op.ev) == NONE;
  }

  /** Both triggers hand on the waiters of the events asked for, and drop none. */
  lemma TriggerBothDoes(c: FdCtx, v: View, which: bv32)
    requires CtxOk(c) && v.ctx == c && v.registered == v.removed == v.delivered == [] && which & !c.events == NONE
    ensures var v' := TriggerBoth(v, which);
            && v'.registered == [] && v'.removed == []
            && v'.delivered == (if Has(which, READ) then Waiters(c.read) else [])
                             + (if Has(which, WRITE) then Waiters(c.write) else [])
            && v'.ctx.read == (if Has(which, READ) then EMPTY else c.read)
            && v'.ctx.write == (if Has(which, WRITE) then EMPTY else c.write)
            && (Has(v'.ctx.events, READ) <==> Has(c.events, READ) && !Has(which, READ))
            && (Has(v'.ctx.events, WRITE) <==> Has(c.events, WRITE) && !Has(which, WRITE))
            && v'.ctx.events & !(READ | WRITE) == NONE
  {
    FourSets(c.events);
    FourSets(which);
  }

  /** `cancelAll` hands on every waiter there is, READ before WRITE, and leaves the fd empty. */
  lemma CancelAllDoes(c: FdCtx, watch: Option<bv32>, op: Op)
    requires op.CancelEvery? && Starting(c, watch, op)
    ensures var v := OnFd(Look(c, watch), op);
            && v.registered == [] && v.removed == [] && v.ctx == FRESH
            && v.delivered == (if Has(c.events, READ) then Waiters(c.read) else [])
                            + (if Has(c.events, WRITE) then Waiters(c.write) else [])
  {
    FourSets(c.events);
    var v := EpollCtl(Look(c, watch), DEL, NONE);
    assert c.events & !c.events == NONE;
    TriggerBothDoes(c, v, c.events);
    if c.events != NONE {
      FourSets(TriggerBoth(v, c.events).ctx.events);
    }
  }

  /** The event loop hands on the waiters of the registered events it acts on, and leaves the others alone. */
  lemma ReportDoes(c: FdCtx, watch: Option<bv32>, op: Op)
    requires op.Reported? && Starting(c, watch, op) && Guard(c.events, op)
    ensures var v := OnFd(Look(c, watch), op);
            var read := Has(c.events, READ) && (Has(op.mask, READ) || Has(op.mask, EPOLLERR | EPOLLHUP));
            var write := Has(c.events, WRITE) && Has(op.mask, WRITE);
            && v.registered == [] && v.removed == []
            && v.delivered == (if read then Waiters(c.read) else []) + (if write then Waiters(c.write) else [])
            && v.ctx.read == (if read then EMPTY else c.read) && v.ctx.write == (if write then EMPTY else c.write)
            && (Has(v.ctx.events, READ) <==> Has(c.events, READ) && !read)
            && (Has(v.ctx.events, WRITE) <==> Has(c.events, WRITE) && !write)
  {
    var acted := ActedOn(c.events, op.mask);
    FourSets(c.events);
    FourSets(acted);
    ActedOnRight(c.events, op.mask);
    if Has(c.events, acted) {
      var left := Without(c.events, acted);
      var v := EpollCtl(Look(c, watch), if left != NONE then MOD else DEL, With(EPOLLET, left));
      TriggerBothDoes(c, v, acted);
    }
  }

  lemma ActedOnRight(events: bv32, mask: bv32)
    ensures Has(ActedOn(events, mask), READ) <==>
              Has(mask, READ) || (Has(mask, EPOLLERR | EPOLLHUP) && Has(events, READ))
    ensures Has(ActedOn(events, mask), WRITE) <==> Has(mask, WRITE)
  {
  }

  /** The kernel: ADD succeeds where it does not watch, MOD and DEL where it does; else it refuses. */
  lemma EpollCtlExact(v: View, op: CtlOp, mask: bv32)
    ensures var v' := EpollCtl(v, op, mask);
            && v'.ctx == v.ctx && v'.pending == v.pending && v'.crashed == v.crashed
            && v'.registered == v.registered && v'.delivered == v.delivered && v'.removed == v.removed
            && (op == ADD && v.watch.None? ==> v'.watch == Some(mask) && v'.refused == v.refused)
            && (op == MOD && v.watch.Some? ==> v'.watch == Some(mask) && v'.refused == v.refused)
            && (op == DEL && v.watch.Some? ==> v'.watch == None && v'.refused == v.refused)
            && (op == ADD && v.watch.Some? ==> v'.watch == v.watch && v'.refused == v.refused + 1)
            && (op != ADD && v.watch.None? ==> v'.watch == None && v'.refused == v.refused + 1)
  {
  }
}
