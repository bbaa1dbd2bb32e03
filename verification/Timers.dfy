/** Timers and their manager: an ordered index of timer objects whose deadlines change while they are out of it. */
module Timers {
  import opened Options
  import opened TimerBook

  class Timer {
    const id: nat  // the address
    const recurring: bool
    var ms: nat
    var next: nat
    var cb: Option<nat>

    constructor (id: nat, ms: nat, cb: Option<nat>, recurring: bool, now: nat)
      ensures this.id == id && this.recurring == recurring
      ensures this.ms == ms && next == now + ms && this.cb == cb
    {
      this.id, this.recurring, this.ms, this.cb := id, recurring, ms, cb;
      next := now + ms;
    }
  }

  /** `Timer::Comperator`. */
  predicate Less(lhs: Timer?, rhs: Timer?)
    reads lhs, rhs
  {
    if lhs == null && rhs == null then false
    else if lhs == null then true
    else if rhs == null then false
    else if lhs.next < rhs.next then true
    else if lhs.next > rhs.next then false
    else lhs.id < rhs.id
  }

  /** As long as no two timers share an address the comparator is a strict total order, null first. */
  lemma LessIsStrictTotal(a: Timer?, b: Timer?, c: Timer?)
    requires a != null && b != null && a.id == b.id ==> a == b
    ensures !Less(a, a)
    ensures a == b || Less(a, b) || Less(b, a)
    ensures Less(a, b) && Less(b, c) ==> Less(a, c)
  {
  }

  // ----- orders of ids

  predicate Comes(b: Book, x: nat, y: nat)
    requires x in b.recs && y in b.recs
  {
    Before(b.recs[x].next, x, b.recs[y].next, y)
  }

  /** `order` lists timers of the book, strictly ascending. */
  predicate Ordered(b: Book, order: seq<nat>) {
    && (forall i :: 0 <= i < |order| ==> order[i] in b.recs)
    && (forall i, j {:trigger Comes(b, order[i], order[j])} :: 0 <= i < j < |order| ==> Comes(b, order[i], order[j]))
  }

  lemma OrderedWithout(b: Book, order: seq<nat>, k: nat)
    requires Ordered(b, order) && k < |order|
    ensures Ordered(b, order[..k] + order[k + 1..])
    ensures forall x :: x in order[..k] + order[k + 1..] <==> x in order && x != order[k]
  {
    var rest := order[..k] + order[k + 1..];
    forall i | 0 <= i < |order| && i != k ensures order[i] in rest {
      assert rest[if i < k then i else i - 1] == order[i];
    }
    forall i | 0 <= i < |rest| ensures rest[i] in order && rest[i] != order[k] {
      var j := if i < k then i else i + 1;
      assert rest[i] == order[j];
      assert if j < k then Comes(b, order[j], order[k]) else Comes(b, order[k], order[j]);
    }
  }

  lemma OrderedWith(b: Book, order: seq<nat>, k: nat, x: nat)
    requires Ordered(b, order) && k <= |order| && x in b.recs
    requires forall i :: 0 <= i < k ==> Comes(b, order[i], x)
    requires k < |order| ==> Comes(b, x, order[k])
    ensures Ordered(b, order[..k] + [x] + order[k..])
    ensures forall y :: y in order[..k] + [x] + order[k..] <==> y in order || y == x
  {
    var more := order[..k] + [x] + order[k..];
    forall i | k <= i < |order| ensures Comes(b, x, order[i]) {
      assert k < i ==> Comes(b, order[k], order[i]);
    }
    assert order == order[..k] + order[k..];
  }

  /** Changing a timer that is not listed leaves the order alone. */
  lemma OrderedChanged(b: Book, c: Book, order: seq<nat>)
    requires Ordered(b, order)
    requires forall x :: x in order ==> x in c.recs && c.recs[x].next == b.recs[x].next
    ensures Ordered(c, order)
  {
    forall i, j | 0 <= i < j < |order| ensures Comes(c, order[i], order[j]) {
      assert Comes(b, order[i], order[j]);
    }
  }

  class TimerManager {
    var timers: seq<Timer>        // the std::set, in order

    ghost var history: seq<Event> // what has happened so far
    ghost var run: Run            // and what that has led to
    ghost var all: map<nat, Timer>
    ghost var order: seq<nat>     // the ids of `timers`

    /** The timer objects hold what the book says. */
    ghost predicate Mirrors(b: Book)
      reads this, all.Values
    {
      && all.Keys == b.recs.Keys
      && forall id :: id in all ==>
           all[id].id == id && Record(all[id].ms, all[id].next, all[id].cb, all[id].recurring) == b.recs[id]
    }

    ghost predicate Indexed(b: Book)
      reads this
    {
      && Ordered(b, order) && all.Keys == b.recs.Keys
      && |timers| == |order| && forall i :: 0 <= i < |order| ==> timers[i] == all[order[i]]
    }

    ghost predicate Traced()
      reads this
    {
      Legal(history) && run == Play(history)
    }

    ghost predicate Valid()
      reads this, all.Values
    {
      Traced() && Sound(run.book, run.clock) && Holds(run.book)
    }

    /** Timers and index are what the book says, and exactly the armed timers are listed. */
    ghost predicate Holds(b: Book)
      reads this, all.Values
    {
      Mirrors(b) && Indexed(b) && forall id :: id in b.armed <==> id in order
    }

    constructor ()
      ensures Valid() && run == Play([]) && all == map[]
    {
      timers, order, all := [], [], map[];
      history := [];
      run := Play([]);
    }

    ghost method Note(e: Event)
      requires Traced() && Sound(run.book, run.clock) && Allowed(run, e) && Holds(Apply(run, e).book)
      modifies this`history, this`run
      ensures Valid() && run == Apply(old(run), e)
    {
      ApplySound(run, e);
      assert (history + [e])[..|history|] == history;
      history := history + [e];
      run := Apply(run, e);
    }

    /** `std::set::lower_bound`: the first timer not less than the probe. */
    method LowerBound(probe: Timer, ghost b: Book) returns (k: nat)
      requires Mirrors(b) && Indexed(b)
      ensures k <= |order|
      ensures forall i :: 0 <= i < k ==> Before(b.recs[order[i]].next, order[i], probe.next, probe.id)
      ensures forall i :: k <= i < |order| ==> !Before(b.recs[order[i]].next, order[i], probe.next, probe.id)
    {
      k := 0;
      while k < |timers| && Less(timers[k], probe)
        invariant k <= |order|
        invariant forall i :: 0 <= i < k ==> Before(b.recs[order[i]].next, order[i], probe.next, probe.id)
      {
        k := k + 1;
      }
      forall i | k <= i < |order| ensures !Before(b.recs[order[i]].next, order[i], probe.next, probe.id) {
        assert k < i ==> Comes(b, order[k], order[i]);
      }
    }

    /** `std::set::find`: equivalence under the comparator, which for timers is identity. */
    method Find(t: Timer, ghost b: Book) returns (found: bool, k: nat)
      requires Mirrors(b) && Indexed(b) && t.id in all && all[t.id] == t
      ensures found <==> t.id in order
      ensures found ==> k < |order| && order[k] == t.id
    {
      k := LowerBound(t, b);
      found := k < |timers| && !Less(t, timers[k]);
      forall i | k < i < |order| ensures order[i] != t.id {
        assert Comes(b, order[k], order[i]);
      }
    }

    /** `find` and, when that finds the timer, `erase`. */
    method FindAndErase(t: Timer, ghost b: Book) returns (found: bool)
      requires Mirrors(b) && Indexed(b) && t.id in all && all[t.id] == t
      modifies this`timers, this`order
      ensures Indexed(b)
      ensures found <==> t.id in old(order)
      ensures forall x :: x in order <==> x in old(order) && x != t.id
    {
      var k;
      found, k := Find(t, b);
      if found {
        OrderedWithout(b, order, k);
        timers := timers[..k] + timers[k + 1..];
        order := order[..k] + order[k + 1..];
      }
    }

    /** `addTimer` under the lock: `std::set::insert`, which refuses an equivalent element. */
    method InsertTimer(t: Timer, ghost b: Book)
      requires Mirrors(b) && Indexed(b) && t.id in all && all[t.id] == t && t.id !in order
      modifies this`timers, this`order
      ensures Indexed(b)
      ensures forall x :: x in order <==> x in old(order) || x == t.id
    {
      var k := LowerBound(t, b);
      if k == |timers| || Less(t, timers[k]) {
        OrderedWith(b, order, k, t.id);
        timers := timers[..k] + [t] + timers[k..];
        order := order[..k] + [t.id] + order[k..];
      } else {
        assert false;
      }
    }

    // ----- the operations, each one step of the run

    /** `TimerManager::addTimer`; `id` is the address the allocator picks. */
    method AddTimer(id: nat, ms: nat, cb: nat, recurring: bool, now: nat) returns (t: Timer)
      requires Valid() && Allowed(run, Event(Add(id, ms, cb, recurring), now))
      modifies this
      ensures Valid() && fresh(t) && all == old(all)[id := t]
      ensures run == Apply(old(run), Event(Add(id, ms, cb, recurring), now))
    {
      ghost var b := AddOp(run.book, id, ms, cb, recurring, now);
      t := new Timer(id, ms, Some(cb), recurring, now);
      OrderedChanged(run.book, b, order);
      all := all[id := t];
      InsertTimer(t, b);
      Note(Event(Add(id, ms, cb, recurring), now));
    }

    /** `Timer::cancel`. Without a callback it ends without a return statement, so nothing is said of `ok`. */
    method Cancel(t: Timer, now: nat) returns (ok: bool)
      requires Valid() && t.id in all && all[t.id] == t && run.clock <= now
      modifies this, t
      ensures Valid() && all == old(all)
      ensures run == Apply(old(run), Event(Op.Cancel(t.id), now))
      ensures old(Live(run.book, t.id)) ==> ok
    {
      ok := Disarm(t);
      Note(Event(Op.Cancel(t.id), now));
    }

    method Disarm(t: Timer) returns (ok: bool)
      requires Holds(run.book) && Sound(run.book, run.clock) && t.id in all && all[t.id] == t
      modifies this`timers, this`order, t
      ensures Holds(CancelOp(run.book, t.id))
      ensures old(Live(run.book, t.id)) ==> ok
    {
      if t.cb.None? {
        ok := *;
        return;
      }
      ghost var b := CancelOp(run.book, t.id);
      t.cb := None;
      OrderedChanged(run.book, b, order);
      ok := FindAndErase(t, b);
    }

    /** `Timer::refresh`. */
    method Refresh(t: Timer, now: nat) returns (ok: bool)
      requires Valid() && t.id in all && all[t.id] == t && Allowed(run, Event(Op.Refresh(t.id), now))
      modifies this, t
      ensures Valid() && all == old(all)
      ensures run == Apply(old(run), Event(Op.Refresh(t.id), now))
      ensures ok <==> old(Live(run.book, t.id))
    {
      ok := Postpone(t, now);
      Note(Event(Op.Refresh(t.id), now));
    }

    method Postpone(t: Timer, now: nat) returns (ok: bool)
      requires Holds(run.book) && Sound(run.book, run.clock) && t.id in all && all[t.id] == t
      modifies this`timers, this`order, t
      ensures Holds(RefreshOp(run.book, t.id, now))
      ensures ok <==> old(Live(run.book, t.id))
    {
      if t.cb.None? {
        return false;
      }
      ok := FindAndErase(t, run.book);
      if ok {
        Reinsert(t, t.ms, now + t.ms, RefreshOp(run.book, t.id, now));
      }
    }

    /** `Timer::reset`. An unchanged period that does not count from now is not even looked up. */
    method Reset(t: Timer, ms: nat, fromNow: bool, now: nat) returns (ok: bool)
      requires Valid() && t.id in all && all[t.id] == t && Allowed(run, Event(Op.Reset(t.id, ms, fromNow), now))
      modifies this, t
      ensures Valid() && all == old(all)
      ensures run == Apply(old(run), Event(Op.Reset(t.id, ms, fromNow), now))
      ensures ok <==> (ms == old(t.ms) && !fromNow) || old(Live(run.book, t.id))
    {
      ok := Rearm(t, ms, fromNow, now);
      Note(Event(Op.Reset(t.id, ms, fromNow), now));
    }

    method Rearm(t: Timer, ms: nat, fromNow: bool, now: nat) returns (ok: bool)
      requires Holds(run.book) && Sound(run.book, run.clock) && t.id in all && all[t.id] == t
      modifies this`timers, this`order, t
      ensures Holds(ResetOp(run.book, t.id, ms, fromNow, now))
      ensures ok <==> (ms == old(t.ms) && !fromNow) || old(Live(run.book, t.id))
    {
      ok := ms == t.ms && !fromNow;
      if ok || t.cb.None? {
        return;
      }
      ok := FindAndErase(t, run.book);
      if ok {
        var start := if fromNow then now else t.next - t.ms;
        Reinsert(t, ms, start + ms, ResetOp(run.book, t.id, ms, fromNow, now));
      }
    }

    /** The deadline changes only here and on expiry, while the timer is out of the index. */
    method Reinsert(t: Timer, ms: nat, next: nat, ghost b: Book)
      requires Mirrors(run.book) && Indexed(run.book)
      requires t.id in all && all[t.id] == t && t.id !in order
      requires b.recs == run.book.recs[t.id := run.book.recs[t.id].(ms := ms, next := next)]
      modifies t, this`timers, this`order
      ensures Mirrors(b) && Indexed(b)
      ensures forall x :: x in order <==> x in old(order) || x == t.id
    {
      t.ms := ms;
      t.next := next;
      OrderedChanged(run.book, b, order);
      InsertTimer(t, b);
    }

    /** `getNextTimer`. */
    method GetNextTimer(now: nat) returns (wait: nat)
      requires Valid()
      ensures wait == NextTimer(run.book, now)
    {
      if timers == [] {
        assert run.book.armed == {};
        return UINT64_MAX;
      }
      var front := timers[0];
      FrontIsEarliest(run.book, order);
      wait := if now >= front.next then 0 else front.next - now;
    }

    /** The place behind the due timers: the lower bound of a probe, moved past deadlines equal to `now`. */
    method CountDue(now: nat, probeId: nat) returns (k: nat)
      requires Mirrors(run.book) && Indexed(run.book)
      ensures k <= |order|
      ensures forall i :: 0 <= i < k ==> run.book.recs[order[i]].next <= now
      ensures forall i :: k <= i < |order| ==> run.book.recs[order[i]].next >= now
      ensures k < |order| ==> run.book.recs[order[k]].next != now
    {
      var probe := new Timer(probeId, 0, None, false, now);
      k := LowerBound(probe, run.book);
      while k < |timers| && timers[k].next == now
        invariant k <= |order|
        invariant forall i :: 0 <= i < k ==> run.book.recs[order[i]].next <= now
        invariant forall i :: k <= i < |order| ==> run.book.recs[order[i]].next >= now
      {
        k := k + 1;
      }
    }

    /** Takes the due timers out of the index; `probeId` is the address the probe timer happens to get. */
    method TakeDue(now: nat, probeId: nat) returns (expired: seq<Timer>, ghost ids: seq<nat>)
      requires Valid()
      modifies this`timers, this`order
      ensures Indexed(run.book)
      ensures old(order) == ids + order && |expired| == |ids| && Ordered(run.book, ids)
      ensures forall i :: 0 <= i < |ids| ==> ids[i] in all && expired[i] == all[ids[i]]
      ensures forall x :: x in ids <==> x in Due(run.book, now)
      ensures forall x :: x in order <==> x in run.book.armed - Due(run.book, now)
    {
      var k := CountDue(now, probeId);
      DueIsPrefix(run.book, order, now, k);
      expired, ids := timers[..k], order[..k];
      timers, order := timers[k..], order[k..];
    }

    /** One turn of the expiry loop: the callback is handed out, and the timer goes back or loses it. */
    method FireOne(t: Timer, now: nat, ghost b: Book, ghost c: Book) returns (cb: nat)
      requires Mirrors(b) && Indexed(b) && Live(b, t.id) && all[t.id] == t && t.id !in order
      requires c.recs == b.recs[t.id := Fired(b.recs[t.id], now)]
      modifies t, this`timers, this`order
      ensures Mirrors(c) && Indexed(c)
      ensures Some(cb) == b.recs[t.id].cb
      ensures forall x :: x in order <==> x in old(order) || (x == t.id && t.recurring)
    {
      cb := t.cb.value;
      OrderedChanged(b, c, order);
      if t.recurring {
        t.next := now + t.ms;
        InsertTimer(t, c);
      } else {
        t.cb := None;
      }
    }

    /** The state of an expiry pass that has dealt with the first i of `ids`. */
    ghost predicate Passing(now: nat, due: set<nat>, ids: seq<nat>, i: nat, cbs: seq<nat>)
      requires i <= |ids|
      reads this, all.Values
    {
      var part := ExpirePart(run.book, now, due, Listed(ids[..i]));
      && Mirrors(part) && Indexed(part) && (forall x :: x in order <==> x in part.armed)
      && Callbacks(run.book, ids[..i], cbs)
    }

    method FireNext(t: Timer, now: nat, ghost due: set<nat>, ghost ids: seq<nat>, ghost i: nat, cbs: seq<nat>)
      returns (more: seq<nat>)
      requires Sound(run.book, run.clock) && Ordered(run.book, ids) && (forall x :: x in ids <==> x in due)
      requires due <= run.book.armed
      requires i < |ids| && ids[i] in all && all[ids[i]] == t && Passing(now, due, ids, i, cbs)
      modifies this`timers, this`order, t
      ensures Passing(now, due, ids, i + 1, more)
    {
      ghost var b := run.book;
      ghost var part := ExpirePart(b, now, due, Listed(ids[..i]));
      ghost var after := ExpirePart(b, now, due, Listed(ids[..i + 1]));
      OneMoreDone(b, now, due, ids, i);
      var cb := FireOne(t, now, part, after);
      more := cbs + [cb];
      assert ids[..i + 1] == ids[..i] + [ids[i]];
    }

    /** The expiry loop, over the timers taken out. */
    method FireAll(expired: seq<Timer>, ghost ids: seq<nat>, now: nat, ghost due: set<nat>) returns (cbs: seq<nat>)
      requires Mirrors(run.book) && Indexed(run.book) && Sound(run.book, run.clock)
      requires Ordered(run.book, ids) && |expired| == |ids| && due <= run.book.armed
      requires forall i :: 0 <= i < |ids| ==> ids[i] in all && expired[i] == all[ids[i]]
      requires forall x :: x in ids <==> x in due
      requires forall x :: x in order <==> x in run.book.armed - due
      modifies this`timers, this`order, all.Values
      ensures Mirrors(ExpirePart(run.book, now, due, due)) && Indexed(ExpirePart(run.book, now, due, due))
      ensures forall x :: x in order <==> x in ExpirePart(run.book, now, due, due).armed
      ensures Callbacks(run.book, ids, cbs)
    {
      cbs := [];
      NothingDone(run.book, now, due);
      OrderedChanged(run.book, ExpirePart(run.book, now, due, {}), order);
      var i := 0;
      while i < |expired|
        invariant 0 <= i <= |expired| && Passing(now, due, ids, i, cbs)
      {
        cbs := FireNext(expired[i], now, due, ids, i, cbs);
        i := i + 1;
      }
      assert ids[..i] == ids && Listed(ids) == due;
    }

    /** `listExpiredCb`: the callbacks of the due timers, `ids` says whose, in the order of the index. */
    method ListExpiredCb(now: nat, probeId: nat) returns (cbs: seq<nat>, ghost ids: seq<nat>)
      requires Valid() && Allowed(run, Event(Expire, now))
      modifies this, all.Values
      ensures Valid() && all == old(all)
      ensures run == Apply(old(run), Event(Expire, now))
      ensures Ordered(old(run.book), ids) && forall x :: x in ids <==> x in Due(old(run.book), now)
      ensures Callbacks(old(run.book), ids, cbs)
    {
      var expired;
      expired, ids := TakeDue(now, probeId);
      cbs := FireAll(expired, ids, now, Due(run.book, now));
      Note(Event(Expire, now));
    }
  }

  /** `cbs` are the callbacks of the timers `ids`, one each, in the same order. */
  ghost predicate Callbacks(b: Book, ids: seq<nat>, cbs: seq<nat>) {
    |cbs| == |ids| && forall i :: 0 <= i < |ids| ==> Live(b, ids[i]) && b.recs[ids[i]].cb.value == cbs[i]
  }

  ghost function Listed(ids: seq<nat>): set<nat> {
    set x | x in ids
  }

  lemma FrontIsEarliest(b: Book, order: seq<nat>)
    requires Ordered(b, order) && order != [] && b.armed <= b.recs.Keys
    requires forall id :: id in b.armed <==> id in order
    ensures b.armed != {} && b.recs[order[0]].next == Earliest(b)
  {
    assert order[0] in b.armed;
    forall x | x in b.armed ensures b.recs[order[0]].next <= b.recs[x].next {
      var i :| 0 <= i < |order| && order[i] == x;
      assert 0 < i ==> Comes(b, order[0], order[i]);
    }
  }

  lemma DueIsPrefix(b: Book, order: seq<nat>, now: nat, k: nat)
    requires Ordered(b, order) && b.armed <= b.recs.Keys && k <= |order|
    requires forall id :: id in b.armed <==> id in order
    requires forall i :: 0 <= i < k ==> b.recs[order[i]].next <= now
    requires forall i :: k <= i < |order| ==> b.recs[order[i]].next >= now
    requires k < |order| ==> b.recs[order[k]].next != now
    ensures Ordered(b, order[..k]) && Ordered(b, order[k..])
    ensures forall x :: x in order[..k] <==> x in Due(b, now)
    ensures forall x :: x in order[k..] <==> x in b.armed - Due(b, now)
  {
    forall i | k <= i < |order| ensures b.recs[order[i]].next > now {
      assert k < i ==> Comes(b, order[k], order[i]);
    }
    assert order == order[..k] + order[k..];
    forall i | 0 <= i < |order[k..]| ensures order[k..][i] == order[k + i] && b.recs[order[k..][i]].next > now {
    }
  }

  lemma NothingDone(b: Book, now: nat, due: set<nat>)
    ensures ExpirePart(b, now, due, {}) == Book(b.recs, b.armed - due)
    ensures Listed([]) == {}
  {
  }

  lemma OneMoreDone(b: Book, now: nat, due: set<nat>, ids: seq<nat>, i: nat)
    requires Ordered(b, ids) && i < |ids| && forall x :: x in ids ==> x in due
    ensures var before := ExpirePart(b, now, due, Listed(ids[..i]));
            var after := ExpirePart(b, now, due, Listed(ids[..i + 1]));
            && ids[i] !in before.armed && before.recs[ids[i]] == b.recs[ids[i]]
            && after.recs == before.recs[ids[i] := Fired(b.recs[ids[i]], now)]
            && after.armed == before.armed + (if b.recs[ids[i]].recurring then {ids[i]} else {})
  {
    assert ids[..i + 1] == ids[..i] + [ids[i]];
    forall j | 0 <= j < i ensures ids[j] != ids[i] {
      assert Comes(b, ids[j], ids[i]);
    }
    assert ids[i] !in ids[..i];
    assert Listed(ids[..i + 1]) == Listed(ids[..i]) + {ids[i]};
  }
}
