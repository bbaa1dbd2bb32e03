/** The IO manager: a context object per fd, changed in place beside the kernel's interest set and a counter. */
module IOManagers {
  import opened Options
  import opened EventTable
  import opened EventRuns

  class FdContext {
    var events: bv32
    var read: EventContext
    var write: EventContext

    constructor ()
      ensures Value() == FRESH
    {
      events, read, write := NONE, EMPTY, EMPTY;
    }

    function Value(): FdCtx
      reads this
    {
      FdCtx(events, read, write)
    }

    function GetEventContext(ev: bv32): EventContext
      reads this
    {
      Get(Value(), ev)
    }

    /** `getEventContext`, assigned to. */
    method SetEventContext(ev: bv32, w: EventContext)
      modifies this
      ensures Value() == Change(old(Value()), events, ev, w) && events == old(events)
    {
      if ev == READ {
        read := w;
      } else {
        write := w;
      }
    }

    /** `trigerEvent`, for an event whose waiter has a scheduler: gives the task handed to it. */
    method TrigerEvent(ev: bv32) returns (task: seq<nat>)
      requires Get(Value(), ev).scheduler
      modifies this
      ensures Value() == Triggered(old(Value()), ev)
      ensures task == Waiters(Get(old(Value()), ev))
    {
      ghost var c := Value();
      var w := GetEventContext(ev);
      // addTask swaps the callback, or failing that the coroutine, out of the context.
      task := if w.cb.Some? then [w.cb.value] else if w.co.Some? then [w.co.value] else [];
      var left := EventContext(false, None, if w.cb.Some? then w.co else None);
      events := Without(events, ev);
      SetEventContext(ev, left);
      assert Value() == Change(c, Without(c.events, ev), ev, left);
    }
  }

  class IOManager {
    var fdContexts: seq<FdContext>
    var epoll: map<nat, bv32>     // the kernel's side
    var pendingEventCount: int
    var tasks: seq<nat>           // what was handed to the scheduler

    ghost var table: Table

    /** The objects and counters hold what the table t says. */
    ghost predicate Mirrors(t: Table)
      reads this, fdContexts
    {
      && |fdContexts| == |t.ctxs|
      && (forall i :: 0 <= i < |fdContexts| ==> fdContexts[i].Value() == t.ctxs[i])
      && (forall i, j :: 0 <= i < j < |fdContexts| ==> fdContexts[i] != fdContexts[j])
      && epoll == t.epoll && pendingEventCount == t.pending && tasks == t.delivered
    }

    ghost predicate Valid()
      reads this, fdContexts
    {
      Mirrors(table) && Inv(table)
    }

    constructor ()
      ensures Valid() && forall ctx :: ctx in fdContexts ==> fresh(ctx)
      ensures table == EmptyTable() && |fdContexts| == 32
    {
      fdContexts, epoll, pendingEventCount, tasks := [], map[], 0, [];
      table := Table([], map[], 0, [], 0, false, [], []);
      new;
      ContextResize(INITIAL_SIZE);
      table := EmptyTable();
      EmptyInv();
    }

    /** `contextResize`: the vector gets its size, and every empty slot a context. */
    method ContextResize(size: nat)
      requires Mirrors(table)
      modifies this`fdContexts
      ensures Mirrors(table.(ctxs := Resize(table.ctxs, size)))
      ensures |old(fdContexts)| <= size ==> old(fdContexts) <= fdContexts
      ensures forall i :: |old(fdContexts)| <= i < |fdContexts| ==> fresh(fdContexts[i])
    {
      if size <= |fdContexts| {
        fdContexts := fdContexts[..size];
        return;
      }
      ghost var t := table;
      while |fdContexts| < size
        invariant |old(fdContexts)| <= |fdContexts| <= size
        invariant old(fdContexts) <= fdContexts
        invariant forall i :: |old(fdContexts)| <= i < |fdContexts| ==> fresh(fdContexts[i])
        invariant Mirrors(t.(ctxs := Resize(t.ctxs, |fdContexts|)))
        decreases size - |fdContexts|
      {
        var ctx := new FdContext();
        fdContexts := fdContexts + [ctx];
      }
    }

    /** The context of `fd`, after growing the table when it has none. */
    method ContextFor(fd: nat) returns (ctx: FdContext)
      requires Valid()
      modifies this`fdContexts, this`table
      ensures Valid() && table == Covering(old(table), fd)
      ensures old(fdContexts) <= fdContexts
      ensures forall i :: |old(fdContexts)| <= i < |fdContexts| ==> fresh(fdContexts[i])
      ensures fd < |fdContexts| && ctx == fdContexts[fd] && (ctx in old(fdContexts) || fresh(ctx))
    {
      CoveringKeeps(table, fd);
      if fd >= |fdContexts| {
        ContextResize(fd * 3 / 2);
        table := Covering(table, fd);
      }
      ctx := fdContexts[fd];
    }

    /** `epoll_ctl`. */
    method EpollControl(op: CtlOp, fd: nat, mask: bv32) returns (ret: int)
      modifies this`epoll
      ensures ret == 0 <==> (op == ADD) != (fd in old(epoll))
      ensures epoll == if ret != 0 then old(epoll) else if op == DEL then old(epoll) - {fd} else old(epoll)[fd := mask]
    {
      if (op == ADD) == (fd in epoll) {
        return -1;
      }
      epoll := if op == DEL then epoll - {fd} else epoll[fd := mask];
      return 0;
    }

    /** A trigger with its count. */
    method Fire(ctx: FdContext, ev: bv32)
      requires Get(ctx.Value(), ev).scheduler
      modifies ctx, this`tasks, this`pendingEventCount
      ensures ctx.Value() == Triggered(old(ctx.Value()), ev)
      ensures tasks == old(tasks) + Waiters(Get(old(ctx.Value()), ev))
      ensures pendingEventCount == old(pendingEventCount) - 1
    {
      var task := ctx.TrigerEvent(ev);
      tasks := tasks + task;
      pendingEventCount := pendingEventCount - 1;
    }

    /** Both triggers of `cancelAll` and of the event loop. */
    method FireBoth(ctx: FdContext, which: bv32, ghost v: View)
      requires Has(which, READ) ==> ctx.read.scheduler
      requires Has(which, WRITE) ==> ctx.write.scheduler
      requires v.ctx == ctx.Value() && v.delivered == []
      modifies ctx, this`tasks, this`pendingEventCount
      ensures ctx.Value() == TriggerBoth(v, which).ctx
      ensures tasks == old(tasks) + TriggerBoth(v, which).delivered
      ensures pendingEventCount == old(pendingEventCount) + TriggerBoth(v, which).pending - v.pending
    {
      if Has(which, READ) {
        Fire(ctx, READ);
      }
      if Has(which, WRITE) {
        Fire(ctx, WRITE);
      }
    }

    /** The objects of one fd hold what the operation makes of context c and the rest of the old state. */
    ghost predicate Effect(ctx: FdContext, fd: nat, op: Op, c: FdCtx, ep: map<nat, bv32>, pending: int, queue: seq<nat>)
      reads this, ctx
    {
      var v := OnFd(Look(c, if fd in ep then Some(ep[fd]) else None), op);
      && ctx.Value() == v.ctx
      && epoll == (if v.watch.Some? then ep[fd := v.watch.value] else ep - {fd})
      && pendingEventCount == pending + v.pending && tasks == queue + v.delivered
    }

    /** What an operation finds on its fd: context and kernel in agreement, and its guard. */
    ghost predicate Starts(ctx: FdContext, op: Op)
      reads this, ctx
    {
      && Starting(ctx.Value(), if op.fd in epoll then Some(epoll[op.fd]) else None, op)
      && Guard(ctx.events, op)
    }

    /** What every operation ends with. */
    ghost method Settle(fd: nat, op: Op, t: Table)
      requires op.fd == fd < |t.ctxs| && Inv(t) && WellTyped(t, op) && Guard(t.ctxs[fd].events, op)
      requires |fdContexts| == |t.ctxs|
      requires forall i :: 0 <= i < |fdContexts| && i != fd ==> fdContexts[i].Value() == t.ctxs[i]
      requires forall i, j :: 0 <= i < j < |fdContexts| ==> fdContexts[i] != fdContexts[j]
      requires Effect(fdContexts[fd], fd, op, t.ctxs[fd], t.epoll, t.pending, t.delivered)
      modifies this`table
      ensures Valid() && table == Apply(t, op)
    {
      StepExact(t, op);
      table := Apply(t, op);
    }

    // ----- addEvent

    /** `addEvent`, when the event is not registered; `self` is the running coroutine. */
    method AddEvent(fd: nat, ev: bv32, cb: Option<nat>, self: nat) returns (ret: int)
      requires Valid() && IsEvent(ev) && fd < |Covering(table, fd).ctxs|
      requires Guard(Covering(table, fd).ctxs[fd].events, Add(fd, ev, cb, self))
      modifies this, fdContexts
      ensures Valid() && table == Apply(old(table), Add(fd, ev, cb, self))
      ensures ret == 0
    {
      var ctx := ContextFor(fd);
      ghost var t := table;
      assert InvAt(t, fd);
      ret := AddToContext(ctx, fd, ev, cb, self);
      Settle(fd, Add(fd, ev, cb, self), t);
    }

    method AddToContext(ctx: FdContext, fd: nat, ev: bv32, cb: Option<nat>, self: nat) returns (ret: int)
      requires Starts(ctx, Add(fd, ev, cb, self))
      modifies ctx, this`epoll, this`pendingEventCount
      ensures ret == 0
      ensures Effect(ctx, fd, Add(fd, ev, cb, self), old(ctx.Value()), old(epoll), old(pendingEventCount), old(tasks))
    {
      var oldEvents := ctx.events;
      ctx.events := With(ctx.events, ev);
      ctx.SetEventContext(ev, EventContext(true, cb, if cb.Some? then None else Some(self)));
      ret := EpollControl(if oldEvents != NONE then MOD else ADD, fd, With(EPOLLET, ctx.events));
      if ret != 0 {
        return -1;
      }
      pendingEventCount := pendingEventCount + 1;
    }

    // ----- delEvent

    method DelEvent(fd: nat, ev: bv32) returns (ok: bool)
      requires Valid() && IsEvent(ev) && fd < |Covering(table, fd).ctxs|
      modifies this, fdContexts
      ensures Valid() && table == Apply(old(table), Del(fd, ev))
      ensures ok <==> Has(old(Covering(table, fd).ctxs[fd].events), ev)
    {
      var ctx := ContextFor(fd);
      ghost var t := table;
      assert InvAt(t, fd);
      ok := DelFromContext(ctx, fd, ev);
      Settle(fd, Del(fd, ev), t);
    }

    method DelFromContext(ctx: FdContext, fd: nat, ev: bv32) returns (ok: bool)
      requires Starts(ctx, Del(fd, ev))
      modifies ctx, this`epoll, this`pendingEventCount
      ensures ok <==> Has(old(ctx.events), ev)
      ensures Effect(ctx, fd, Del(fd, ev), old(ctx.Value()), old(epoll), old(pendingEventCount), old(tasks))
    {
      if !Has(ctx.events, ev) {
        return false;
      }
      ctx.events := Without(ctx.events, ev);
      ctx.SetEventContext(ev, EMPTY);
      var ret := EpollControl(if ctx.events != NONE then MOD else DEL, fd, ctx.events);
      pendingEventCount := pendingEventCount - 1;
      return true;
    }

    // ----- cancelEvent

    /** `cancelEvent`, on the sole event of an fd, or for READ where there is none. */
    method CancelEvent(fd: nat, ev: bv32) returns (ok: bool)
      requires Valid() && IsEvent(ev) && fd < |Covering(table, fd).ctxs|
      requires Guard(Covering(table, fd).ctxs[fd].events, Cancel(fd, ev))
      modifies this, fdContexts
      ensures Valid() && table == Apply(old(table), Cancel(fd, ev))
      ensures ok <==> old(Covering(table, fd).ctxs[fd].events) == ev
    {
      var ctx := ContextFor(fd);
      ghost var t := table;
      assert InvAt(t, fd);
      ok := CancelOnContext(ctx, fd, ev);
      Settle(fd, Cancel(fd, ev), t);
    }

    method CancelOnContext(ctx: FdContext, fd: nat, ev: bv32) returns (ok: bool)
      requires Starts(ctx, Cancel(fd, ev))
      modifies ctx, this`epoll, this`pendingEventCount, this`tasks
      ensures ok <==> old(ctx.events) == ev
      ensures Effect(ctx, fd, Cancel(fd, ev), old(ctx.Value()), old(epoll), old(pendingEventCount), old(tasks))
    {
      if Has(if ctx.events == NONE then 1 else 0, ev) {
        return false;
      }
      var newEvents := Without(ctx.events, ev);
      var ret := EpollControl(if newEvents != NONE then MOD else DEL, fd, ctx.events);
      Fire(ctx, ev);
      return true;
    }

    // ----- cancelAll

    method CancelAll(fd: nat) returns (ok: bool)
      requires Valid() && fd < |Covering(table, fd).ctxs|
      modifies this, fdContexts
      ensures Valid() && table == Apply(old(table), CancelEvery(fd))
      ensures ok <==> old(Covering(table, fd).ctxs[fd].events) != NONE
    {
      var ctx := ContextFor(fd);
      ghost var t := table;
      assert InvAt(t, fd);
      ok := CancelAllOnContext(ctx, fd);
      Settle(fd, CancelEvery(fd), t);
    }

    method CancelAllOnContext(ctx: FdContext, fd: nat) returns (ok: bool)
      requires Starts(ctx, CancelEvery(fd))
      modifies ctx, this`epoll, this`pendingEventCount, this`tasks
      ensures ok <==> old(ctx.events) != NONE
      ensures Effect(ctx, fd, CancelEvery(fd), old(ctx.Value()), old(epoll), old(pendingEventCount), old(tasks))
    {
      ghost var c, watch := ctx.Value(), if fd in epoll then Some(epoll[fd]) else None;
      if ctx.events == NONE {
        return false;
      }
      var ret := EpollControl(DEL, fd, NONE);
      FireBoth(ctx, ctx.events, EpollCtl(Look(c, watch), DEL, NONE));
      return true;
    }

    // ----- the event loop body of idle

    /** What `idle` does with one report of the kernel for the context of `fd`. */
    method HandleReport(fd: nat, mask: bv32)
      requires Valid() && fd < |table.ctxs| && Guard(table.ctxs[fd].events, Reported(fd, mask))
      modifies this, fdContexts
      ensures Valid() && table == Apply(old(table), Reported(fd, mask))
      ensures fdContexts == old(fdContexts)
    {
      var ctx := fdContexts[fd];
      ghost var t := table;
      assert InvAt(t, fd);
      ReportOnContext(ctx, fd, mask);
      Settle(fd, Reported(fd, mask), t);
    }

    /** The events acted on, collected one by one. */
    method RealEvents(events: bv32, mask: bv32) returns (acted: bv32)
      ensures acted == ActedOn(events, mask)
    {
      var reported := mask;
      if Has(reported, EPOLLERR | EPOLLHUP) {
        reported := With(reported, (READ | EPOLLHUP) & events);
      }
      acted := NONE;
      if Has(reported, READ) {
        acted := With(acted, READ);
      }
      if Has(reported, WRITE) {
        acted := With(acted, WRITE);
      }
    }

    method ReportOnContext(ctx: FdContext, fd: nat, mask: bv32)
      requires Starts(ctx, Reported(fd, mask))
      modifies ctx, this`epoll, this`pendingEventCount, this`tasks
      ensures Effect(ctx, fd, Reported(fd, mask), old(ctx.Value()), old(epoll), old(pendingEventCount), old(tasks))
    {
      ghost var c, watch := ctx.Value(), if fd in epoll then Some(epoll[fd]) else None;
      var acted := RealEvents(ctx.events, mask);
      if !Has(ctx.events, acted) {
        return;
      }
      ActedOnIsReady(c, watch, Reported(fd, mask));
      var left := Without(ctx.events, acted);
      var ret := EpollControl(if left != NONE then MOD else DEL, fd, With(EPOLLET, left));
      FireBoth(ctx, acted, EpollCtl(Look(c, watch), if left != NONE then MOD else DEL, With(EPOLLET, left)));
    }

    /** One turn of the loop of `idle`. */
    method Turn(r: Notice)
      requires Valid() && Acceptable(table, r)
      modifies this, fdContexts
      ensures Valid() && table == AfterReport(old(table), r)
      ensures fdContexts == old(fdContexts)
    {
      if r.fd.Some? {
        HandleReport(r.fd.value, r.mask);
      }
    }

    /** The loop of `idle` over what `epoll_wait` returned. */
    method HandleReports(reports: seq<Notice>)
      requires Valid() && AllAcceptable(table, reports)
      modifies this, fdContexts
      ensures Valid() && table == AfterReports(old(table), reports)
    {
      var i := 0;
      ghost var end := AfterReports(table, reports);
      while i < |reports|
        invariant i <= |reports| && fdContexts == old(fdContexts)
        invariant Valid()
        invariant AllAcceptable(table, reports[i..]) && AfterReports(table, reports[i..]) == end
      {
        assert reports[i..][0] == reports[i] && reports[i..][1..] == reports[i + 1..];
        Turn(reports[i]);
        i := i + 1;
      }
    }
  }
}
