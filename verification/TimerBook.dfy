/** What a timer manager means: records of timers and the set of the armed ones, over runs with a monotone clock. */
module TimerBook {
  import opened Options

  const UINT64_MAX: nat := 0xFFFF_FFFF_FFFF_FFFF

  /** `cb` is None once the callback has been cleared. */
  datatype Record = Record(ms: nat, next: nat, cb: Option<nat>, recurring: bool)

  datatype Book = Book(recs: map<nat, Record>, armed: set<nat>)

  /** The order of the index: by deadline, then by identity (the address of the timer). */
  predicate Before(next1: nat, id1: nat, next2: nat, id2: nat) {
    next1 < next2 || (next1 == next2 && id1 < id2)
  }

  // ----- operations

  function AddOp(b: Book, id: nat, ms: nat, cb: nat, recurring: bool, now: nat): Book {
    Book(b.recs[id := Record(ms, now + ms, Some(cb), recurring)], b.armed + {id})
  }

  predicate Live(b: Book, id: nat) {
    id in b.recs && b.recs[id].cb.Some?
  }

  function CancelOp(b: Book, id: nat): Book {
    if Live(b, id) then Book(b.recs[id := b.recs[id].(cb := None)], b.armed - {id}) else b
  }

  function RefreshOp(b: Book, id: nat, now: nat): Book {
    if Live(b, id) then Book(b.recs[id := b.recs[id].(next := now + b.recs[id].ms)], b.armed) else b
  }

  /** The start time a reset counts from; the subtraction is unsigned in the program. */
  function Start(r: Record, fromNow: bool, now: nat): int {
    if fromNow then now else r.next - r.ms
  }

  function ResetOp(b: Book, id: nat, ms: nat, fromNow: bool, now: nat): Book {
    if Live(b, id) && (ms != b.recs[id].ms || fromNow) && 0 <= Start(b.recs[id], fromNow, now) then
      Book(b.recs[id := b.recs[id].(ms := ms, next := Start(b.recs[id], fromNow, now) + ms)], b.armed)
    else b
  }

  function Due(b: Book, now: nat): set<nat> {
    set id | id in b.armed && id in b.recs && b.recs[id].next <= now
  }

  /** A fired timer: a recurring one is due again after its period, a one-shot loses its callback. */
  function Fired(r: Record, now: nat): Record {
    if r.recurring then r.(next := now + r.ms) else r.(cb := None)
  }

  /** An expiry pass that has taken all of `due` out of the index and has dealt with `done` so far. */
  function ExpirePart(b: Book, now: nat, due: set<nat>, done: set<nat>): Book {
    Book(map id | id in b.recs :: if id in done then Fired(b.recs[id], now) else b.recs[id],
         (b.armed - due) + set id | id in done && id in b.recs && b.recs[id].recurring)
  }

  function ExpireOp(b: Book, now: nat): Book {
    ExpirePart(b, now, Due(b, now), Due(b, now))
  }

  // ----- the time until the next deadline

  lemma {:induction false} EarliestExists(b: Book, s: set<nat>)
    requires s != {} && s <= b.recs.Keys
    ensures exists id :: id in s && forall x :: x in s ==> b.recs[id].next <= b.recs[x].next
    decreases |s|
  {
    var y :| y in s;
    if s == {y} {
      assert forall x :: x in s ==> b.recs[y].next <= b.recs[x].next;
    } else {
      var rest := s - {y};
      EarliestExists(b, rest);
      var z :| z in rest && forall x :: x in rest ==> b.recs[z].next <= b.recs[x].next;
      var id := if b.recs[z].next <= b.recs[y].next then z else y;
      assert forall x :: x in s ==> b.recs[id].next <= b.recs[x].next;
    }
  }

  ghost function Earliest(b: Book): (next: nat)
    requires b.armed != {} && b.armed <= b.recs.Keys
    ensures exists id :: id in b.armed && b.recs[id].next == next
    ensures forall x :: x in b.armed ==> next <= b.recs[x].next
  {
    EarliestExists(b, b.armed);
    var id :| id in b.armed && forall x :: x in b.armed ==> b.recs[id].next <= b.recs[x].next;
    b.recs[id].next
  }

  /** `getNextTimer`. */
  ghost function NextTimer(b: Book, now: nat): nat
    requires b.armed <= b.recs.Keys
  {
    if b.armed == {} then UINT64_MAX else if now >= Earliest(b) then 0 else Earliest(b) - now
  }

  // ----- runs

  datatype Op =
    | Add(id: nat, ms: nat, cb: nat, recurring: bool)
    | Cancel(id: nat)
    | Refresh(id: nat)
    | Reset(id: nat, ms: nat, fromNow: bool)
    | Expire

  datatype Event = Event(op: Op, now: nat)

  /** `passes` lists, per expiry pass, the timers it fired. */
  datatype Run = Run(book: Book, clock: nat, passes: seq<set<nat>>)

  function Apply(r: Run, e: Event): Run {
    match e.op
    case Add(id, ms, cb, recurring) => Run(AddOp(r.book, id, ms, cb, recurring, e.now), e.now, r.passes)
    case Cancel(id) => Run(CancelOp(r.book, id), e.now, r.passes)
    case Refresh(id) => Run(RefreshOp(r.book, id, e.now), e.now, r.passes)
    case Reset(id, ms, fromNow) => Run(ResetOp(r.book, id, ms, fromNow, e.now), e.now, r.passes)
    case Expire => Run(ExpireOp(r.book, e.now), e.now, r.passes + [Due(r.book, e.now)])
  }

  /** The clock is monotone, an address is not reused, and no 64-bit addition overflows. */
  predicate Allowed(r: Run, e: Event) {
    && r.clock <= e.now
    && match e.op
       case Add(id, ms, _, _) => id !in r.book.recs && e.now + ms <= UINT64_MAX
       case Cancel(id) => id in r.book.recs
       case Refresh(id) => Live(r.book, id) ==> e.now + r.book.recs[id].ms <= UINT64_MAX
       case Reset(id, ms, fromNow) => Live(r.book, id) ==> Start(r.book.recs[id], fromNow, e.now) + ms <= UINT64_MAX
       case Expire => forall id :: id in Due(r.book, e.now) && r.book.recs[id].recurring ==>
                        e.now + r.book.recs[id].ms <= UINT64_MAX
  }

  function Play(es: seq<Event>): Run {
    if es == [] then Run(Book(map[], {}), 0, []) else Apply(Play(es[..|es| - 1]), es[|es| - 1])
  }

  predicate Legal(es: seq<Event>) {
    es == [] || (Legal(es[..|es| - 1]) && Allowed(Play(es[..|es| - 1]), es[|es| - 1]))
  }

  // ----- what every reachable state keeps

  /** Armed are exactly the timers that still have a callback, and a deadline is a period after a past start. */
  predicate Sound(b: Book, clock: nat) {
    && b.armed <= b.recs.Keys
    && forall id :: id in b.recs ==>
         && (id in b.armed <==> b.recs[id].cb.Some?)
         && b.recs[id].ms <= b.recs[id].next <= UINT64_MAX
         && b.recs[id].next - b.recs[id].ms <= clock
  }

  lemma ApplySound(r: Run, e: Event)
    requires Sound(r.book, r.clock) && Allowed(r, e)
    ensures Sound(Apply(r, e).book, e.now)
  {
  }

  lemma {:induction false} ReachableSound(es: seq<Event>)
    requires Legal(es)
    ensures Sound(Play(es).book, Play(es).clock)
  {
    if es != [] {
      ReachableSound(es[..|es| - 1]);
      ApplySound(Play(es[..|es| - 1]), es[|es| - 1]);
    }
  }

  /** A reset that does not count from now never underflows and keeps the start time, whatever the new period. */
  lemma ResetKeepsStart(es: seq<Event>, id: nat, ms: nat)
    requires Legal(es) && Live(Play(es).book, id)
    ensures var b := Play(es).book;
            var b' := ResetOp(b, id, ms, false, Play(es).clock);
            && 0 <= Start(b.recs[id], false, Play(es).clock) <= Play(es).clock
            && b'.recs[id].ms == ms && b'.recs[id].next - b'.recs[id].ms == b.recs[id].next - b.recs[id].ms
            && b'.armed == b.armed
  {
    ReachableSound(es);
  }

  // ----- what each operation does, on every reachable state

  /** Every timer but id is as it was, and so is its being armed. */
  predicate OthersKept(b: Book, b': Book, id: nat) {
    && (forall x :: x in b.recs && x != id ==>
          x in b'.recs && b'.recs[x] == b.recs[x] && (x in b'.armed <==> x in b.armed))
    && (forall x :: x in b'.recs && x != id ==> x in b.recs)
  }

  lemma LastEvent(es: seq<Event>, e: Event)
    requires Legal(es + [e])
    ensures Legal(es) && Allowed(Play(es), e) && Play(es + [e]) == Apply(Play(es), e)
  {
    assert (es + [e])[..|es|] == es;
  }

  /** A new timer is armed, has the callback and period given, and is due that period from now. */
  lemma AddExact(es: seq<Event>, id: nat, ms: nat, cb: nat, recurring: bool, now: nat)
    requires Legal(es + [Event(Add(id, ms, cb, recurring), now)])
    ensures var b, b' := Play(es).book, Play(es + [Event(Add(id, ms, cb, recurring), now)]).book;
            && id !in b.recs && id in b'.recs && id in b'.armed
            && b'.recs[id].next == now + ms && b'.recs[id].ms == ms
            && b'.recs[id].cb == Some(cb) && b'.recs[id].recurring == recurring
            && OthersKept(b, b', id)
  {
    LastEvent(es, Event(Add(id, ms, cb, recurring), now));
    ReachableSound(es);
  }

  /** A cancelled timer has no callback and is not armed; nothing else about it, and no other timer, changes. */
  lemma CancelExact(es: seq<Event>, id: nat, now: nat)
    requires Legal(es + [Event(Cancel(id), now)])
    ensures var b, b' := Play(es).book, Play(es + [Event(Cancel(id), now)]).book;
            && id in b.recs && id in b'.recs && b'.recs[id].cb.None? && id !in b'.armed
            && b'.recs[id].next == b.recs[id].next && b'.recs[id].ms == b.recs[id].ms
            && b'.recs[id].recurring == b.recs[id].recurring
            && OthersKept(b, b', id)
  {
    LastEvent(es, Event(Cancel(id), now));
    ReachableSound(es);
  }

  /** A refreshed timer is due its period from now, if it still has its callback; else nothing changes. */
  lemma RefreshExact(es: seq<Event>, id: nat, now: nat)
    requires Legal(es + [Event(Refresh(id), now)])
    ensures var b, b' := Play(es).book, Play(es + [Event(Refresh(id), now)]).book;
            && (id in b.armed ==>
                  && id in b.recs && id in b'.recs && id in b'.armed
                  && b'.recs[id].next == now + b.recs[id].ms && b'.recs[id].ms == b.recs[id].ms
                  && b'.recs[id].cb == b.recs[id].cb && b'.recs[id].recurring == b.recs[id].recurring
                  && OthersKept(b, b', id))
            && (id !in b.armed ==> b' == b)
  {
    LastEvent(es, Event(Refresh(id), now));
    ReachableSound(es);
  }

  /**
   A reset timer that still has its callback gets the new period, and is due that period from now or from where its
   old period started; with the old period, and not from now, or without a callback, nothing changes.
   */
  lemma ResetExact(es: seq<Event>, id: nat, ms: nat, fromNow: bool, now: nat)
    requires Legal(es + [Event(Reset(id, ms, fromNow), now)])
    ensures var b, b' := Play(es).book, Play(es + [Event(Reset(id, ms, fromNow), now)]).book;
            && (id in b.armed ==>
                  && id in b.recs && id in b'.recs && id in b'.armed && b'.recs[id].ms == ms
                  && (fromNow ==> b'.recs[id].next == now + ms)
                  && (!fromNow ==> b'.recs[id].next + b.recs[id].ms == b.recs[id].next + ms)
                  && b'.recs[id].cb == b.recs[id].cb && b'.recs[id].recurring == b.recs[id].recurring
                  && OthersKept(b, b', id))
            && (id !in b.armed ==> b' == b)
  {
    LastEvent(es, Event(Reset(id, ms, fromNow), now));
    ReachableSound(es);
  }

  /**
   An expiry pass takes out the armed timers whose deadline has come, puts the recurring ones back a period from now,
   takes the callback of the others, and touches nothing else; no armed deadline has passed then, but for period 0.
   */
  lemma ExpireExact(es: seq<Event>, now: nat)
    requires Legal(es + [Event(Expire, now)])
    ensures var b, b' := Play(es).book, Play(es + [Event(Expire, now)]).book;
            && b'.recs.Keys == b.recs.Keys
            && (forall id :: id in b.recs && !(id in b.armed && b.recs[id].next <= now) ==>
                  b'.recs[id] == b.recs[id] && (id in b'.armed <==> id in b.armed))
            && (forall id :: id in b.recs && id in b.armed && b.recs[id].next <= now ==>
                  && (id in b'.armed <==> b.recs[id].recurring)
                  && (b.recs[id].recurring ==> b'.recs[id].next == now + b.recs[id].ms)
                  && (b.recs[id].recurring ==> b'.recs[id].cb == b.recs[id].cb && b'.recs[id].recurring)
                  && b'.recs[id].ms == b.recs[id].ms
                  && (!b.recs[id].recurring ==> b'.recs[id].cb.None?))
            && (forall id :: id in b'.recs && id in b'.armed ==>
                  b'.recs[id].next > now || (b'.recs[id].ms == 0 && b'.recs[id].next == now))
  {
    LastEvent(es, Event(Expire, now));
    ReachableSound(es);
  }

  /** An expiry pass fires exactly the armed timers whose deadline has come, each once, and no other event fires any. */
  lemma FiresExact(es: seq<Event>, e: Event, id: nat)
    requires Legal(es + [e])
    ensures var b := Play(es).book;
            Fires(Play(es + [e]).passes, id) == Fires(Play(es).passes, id)
              + if e.op == Expire && id in b.armed && id in b.recs && b.recs[id].next <= e.now then 1 else 0
  {
    LastEvent(es, e);
    FiresStep(Play(es), e, id);
  }

  // ----- how often a timer fires

  function Fires(passes: seq<set<nat>>, id: nat): nat {
    if passes == [] then 0
    else Fires(passes[..|passes| - 1], id) + if id in passes[|passes| - 1] then 1 else 0
  }

  /** How often a timer may have fired so far, as far as being a one-shot limits it. */
  predicate OnceAtMost(r: Run, id: nat, n: nat) {
    && (id !in r.book.recs ==> n == 0)
    && (id in r.book.recs && !r.book.recs[id].recurring ==> n <= if Live(r.book, id) then 0 else 1)
  }

  lemma OnceStep(r: Run, e: Event, id: nat, n: nat)
    requires Sound(r.book, r.clock) && Allowed(r, e) && OnceAtMost(r, id, n)
    ensures OnceAtMost(Apply(r, e), id, n + if e.op.Expire? && id in Due(r.book, e.now) then 1 else 0)
  {
  }

  /** A one-shot timer fires at most once, and has no callback left once it did; unknown timers never fire. */
  lemma {:induction false} OneShotOnce(es: seq<Event>, id: nat)
    requires Legal(es)
    ensures OnceAtMost(Play(es), id, Fires(Play(es).passes, id))
  {
    if es != [] {
      var r, e := Play(es[..|es| - 1]), es[|es| - 1];
      OneShotOnce(es[..|es| - 1], id);
      ReachableSound(es[..|es| - 1]);
      FiresStep(r, e, id);
      OnceStep(r, e, id, Fires(r.passes, id));
    }
  }

  lemma FiresStep(r: Run, e: Event, id: nat)
    ensures Fires(Apply(r, e).passes, id)
         == Fires(r.passes, id) + if e.op.Expire? && id in Due(r.book, e.now) then 1 else 0
  {
    if e.op.Expire? {
      var passes := r.passes + [Due(r.book, e.now)];
      assert passes[..|passes| - 1] == r.passes;
    }
  }

  lemma SilentStep(r: Run, e: Event, id: nat)
    requires Sound(r.book, r.clock) && Allowed(r, e) && id in r.book.recs && !Live(r.book, id)
    ensures id in Apply(r, e).book.recs && !Live(Apply(r, e).book, id)
    ensures Fires(Apply(r, e).passes, id) == Fires(r.passes, id)
  {
    FiresStep(r, e, id);
  }

  /** Once its callback is gone, cancelled or fired, a timer stays silent for the rest of the run. */
  lemma {:induction false} SilentForever(es: seq<Event>, more: seq<Event>, id: nat)
    requires Legal(es + more) && Legal(es) && id in Play(es).book.recs && !Live(Play(es).book, id)
    ensures id in Play(es + more).book.recs && !Live(Play(es + more).book, id)
    ensures Fires(Play(es + more).passes, id) == Fires(Play(es).passes, id)
    decreases |more|
  {
    if more == [] {
      assert es + more == es;
    } else {
      var n := |more| - 1;
      assert (es + more)[..|es + more| - 1] == es + more[..n];
      SilentForever(es, more[..n], id);
      ReachableSound(es + more[..n]);
      SilentStep(Play(es + more[..n]), more[n], id);
    }
  }

  /** A cancelled timer is never armed again and never fires again, in whatever run. */
  lemma CancelledForGood(es: seq<Event>, id: nat, now: nat, more: seq<Event>)
    requires Legal(es + [Event(Cancel(id), now)] + more)
    ensures var b := Play(es + [Event(Cancel(id), now)] + more).book;
            id in b.recs && b.recs[id].cb.None? && id !in b.armed
    ensures Fires(Play(es + [Event(Cancel(id), now)] + more).passes, id) == Fires(Play(es).passes, id)
  {
    var e := Event(Cancel(id), now);
    LegalPrefix(es + [e], more);
    CancelExact(es, id, now);
    FiresExact(es, e, id);
    SilentForever(es + [e], more, id);
    ReachableSound(es + [e] + more);
  }

  /** Part of a legal run from its beginning is legal. */
  lemma {:induction false} LegalPrefix(es: seq<Event>, more: seq<Event>)
    requires Legal(es + more)
    ensures Legal(es)
    decreases |more|
  {
    if more == [] {
      assert es + more == es;
    } else {
      assert (es + more)[..|es + more| - 1] == es + more[..|more| - 1];
      LegalPrefix(es, more[..|more| - 1]);
    }
  }

  /** Along `more`, no reset gives the timer another period. */
  predicate KeepsPeriod(more: seq<Event>, id: nat, ms: nat) {
    forall e :: e in more && e.op.Reset? && e.op.id == id ==> e.op.ms == ms
  }

  /** n periods of `ms` fit between t0 and the clock, and one more up to the deadline. */
  predicate OnSchedule(r: Run, id: nat, ms: nat, t0: nat, n: nat) {
    && id in r.book.recs && r.book.recs[id].ms == ms && r.book.recs[id].recurring
    && n * ms <= r.clock - t0
    && n * ms + ms <= r.book.recs[id].next - t0
  }

  lemma ScheduleStep(r: Run, e: Event, id: nat, ms: nat, t0: nat, n: nat)
    requires Sound(r.book, r.clock) && Allowed(r, e) && OnSchedule(r, id, ms, t0, n)
    requires e.op.Reset? && e.op.id == id ==> e.op.ms == ms
    ensures OnSchedule(Apply(r, e), id, ms, t0, n + if e.op.Expire? && id in Due(r.book, e.now) then 1 else 0)
  {
    OneMorePeriod(n, ms);
  }

  lemma ScheduleKept(r: Run, e: Event, id: nat, ms: nat, t0: nat)
    requires Sound(r.book, r.clock) && Allowed(r, e) && OnSchedule(r, id, ms, t0, Fires(r.passes, id))
    requires e.op.Reset? && e.op.id == id ==> e.op.ms == ms
    ensures OnSchedule(Apply(r, e), id, ms, t0, Fires(Apply(r, e).passes, id))
  {
    FiresStep(r, e, id);
    ScheduleStep(r, e, id, ms, t0, Fires(r.passes, id));
  }

  lemma ScheduleBegins(es: seq<Event>, created: Event)
    requires created.op.Add? && created.op.recurring && Legal(es) && Allowed(Play(es), created)
    ensures var r := Apply(Play(es), created);
            OnSchedule(r, created.op.id, created.op.ms, created.now, Fires(r.passes, created.op.id))
  {
    OneShotOnce(es, created.op.id);
    FiresStep(Play(es), created, created.op.id);
  }

  /**
   A recurring timer created at t0 and fired n times with an unchanged period: n periods have passed,
   and the next deadline lies another full period behind them, refreshed or not.
   */
  lemma {:induction false} NeverEarly(es: seq<Event>, created: Event, more: seq<Event>)
    requires created.op.Add? && created.op.recurring && Legal(es + [created] + more)
    requires KeepsPeriod(more, created.op.id, created.op.ms)
    ensures var r := Play(es + [created] + more);
            OnSchedule(r, created.op.id, created.op.ms, created.now, Fires(r.passes, created.op.id))
    decreases |more|
  {
    var id, ms := created.op.id, created.op.ms;
    var all := es + [created] + more;
    var past := all[..|all| - 1];
    if more == [] {
      assert past == es;
      ScheduleBegins(es, created);
    } else {
      var n := |more| - 1;
      assert past == es + [created] + more[..n] && all[|all| - 1] == more[n] && more[n] in more;
      NeverEarly(es, created, more[..n]);
      ReachableSound(past);
      ScheduleKept(Play(past), more[n], id, ms, created.now);
    }
  }

  lemma OneMorePeriod(n: nat, ms: nat)
    ensures (n + 1) * ms == n * ms + ms
  {
  }

  // ----- getNextTimer

  /** All ones means no timer; the only exception is a deadline at the very end of time, asked for at time 0. */
  lemma NoTimerIff(b: Book, clock: nat, now: nat)
    requires Sound(b, clock) && clock <= now
    ensures NextTimer(b, now) == UINT64_MAX <==> b.armed == {} || (now == 0 && Earliest(b) == UINT64_MAX)
  {
  }

  /** That exception is reached: added at time 0, a timer with the longest period looks like no timer. */
  lemma LongestWaitLooksLikeNone()
    ensures var es := [Event(Add(1, UINT64_MAX, 1, false), 0)];
            && Legal(es) && Sound(Play(es).book, 0) && Play(es).book.armed == {1}
            && Earliest(Play(es).book) == UINT64_MAX && NextTimer(Play(es).book, 0) == UINT64_MAX
  {
    var e := Event(Add(1, UINT64_MAX, 1, false), 0);
    assert [e][..|[e]| - 1] == [];
    assert Play([]) == Run(Book(map[], {}), 0, []);
    assert Allowed(Play([]), e) && Legal([]);
    assert [e][|[e]| - 1] == e;
    assert Legal([e]) && Play([e]) == Apply(Play([]), e);
    var b := Play([e]).book;
    assert b.armed == {} + {1};
    assert 1 in b.armed && b.recs[1].next == UINT64_MAX;
    assert forall id :: id in b.armed ==> id == 1;
  }

  /** The wait is at most the period of the timer at the front. */
  lemma WaitBounded(b: Book, clock: nat, now: nat, id: nat)
    requires Sound(b, clock) && clock <= now && id in b.armed && b.recs[id].next == Earliest(b)
    ensures NextTimer(b, now) <= b.recs[id].ms
  {
  }

  /** And it is exact: an expiry pass fires something after waiting d just when d is at least the wait. */
  lemma WaitExact(b: Book, clock: nat, now: nat, d: nat)
    requires Sound(b, clock)
    ensures Due(b, now + d) != {} <==> b.armed != {} && NextTimer(b, now) <= d
  {
    if b.armed != {} {
      var id :| id in b.armed && b.recs[id].next == Earliest(b);
      if NextTimer(b, now) <= d {
        assert id in Due(b, now + d);
      }
    }
  }
}
