/**
  What the timer promises, without wheels: a list of pending timers, each with the tick it is
  due at; when the clock comes to a tick, the timers due at it are dispatched in the order in
  which they were added. Ticks are counted without wrap-around here.
 */
module TimerSpec {

  /** timer_event: who gets the message, and the session it answers. */
  datatype Event = Event(handle: nat, session: int)

  datatype Timer = Timer(due: nat, event: Event)

  datatype Dispatch = Dispatch(at: nat, event: Event)

  datatype Bag = Bag(now: nat, pending: seq<Timer>, log: seq<Dispatch>)

  /** The timers of `ts` due at `tick`, in order. */
  function DueAt(ts: seq<Timer>, tick: nat): seq<Timer> {
    if ts == [] then []
    else if ts[0].due == tick then [ts[0]] + DueAt(ts[1..], tick) else DueAt(ts[1..], tick)
  }

  /** The timers of `ts` due after `tick`, in order. */
  function DueAfter(ts: seq<Timer>, tick: nat): seq<Timer> {
    if ts == [] then []
    else if ts[0].due > tick then [ts[0]] + DueAfter(ts[1..], tick) else DueAfter(ts[1..], tick)
  }

  function Dispatches(ts: seq<Timer>): seq<Dispatch> {
    if ts == [] then [] else [Dispatch(ts[0].due, ts[0].event)] + Dispatches(ts[1..])
  }

  datatype Request = Request(event: Event, timeout: nat)

  function Add(b: Bag, r: Request): Bag {
    b.(pending := b.pending + [Timer(b.now + r.timeout, r.event)])
  }

  function AddAll(b: Bag, rs: seq<Request>): Bag
    decreases |rs|
  {
    if rs == [] then b else AddAll(Add(b, rs[0]), rs[1..])
  }

  /** The clock moves on by one tick and the timers due then are dispatched. */
  function Tick(b: Bag): Bag {
    var now := b.now + 1;
    Bag(now, DueAfter(b.pending, now), b.log + Dispatches(DueAt(b.pending, now)))
  }

  // ----- every run -----

  /**
    A run: requests from any thread, and updates of the clock. `window` is what other threads add
    while the updating thread dispatches without holding the lock.
   */
  datatype Action = Schedule(r: Request) | Update(window: seq<Request>)

  predicate Proper(a: Action) {
    match a
    case Schedule(r) => r.timeout > 0
    case Update(window) => forall k :: 0 <= k < |window| ==> window[k].timeout > 0
  }

  function Do(b: Bag, a: Action): Bag {
    match a
    case Schedule(r) => Add(b, r)
    case Update(window) => if DueAt(b.pending, b.now + 1) == [] then Tick(b) else AddAll(Tick(b), window)
  }

  function Run(actions: seq<Action>): Bag {
    if actions == [] then Bag(0, [], [])
    else Do(Run(actions[..|actions| - 1]), actions[|actions| - 1])
  }

  /** Every timer a run has added, in the order of adding. */
  function Added(b: Bag, a: Action): seq<Timer> {
    match a
    case Schedule(r) => [Timer(b.now + r.timeout, r.event)]
    case Update(window) =>
      if DueAt(b.pending, b.now + 1) == [] then [] else AddedAll(b.now + 1, window)
  }

  function AddedAll(now: nat, rs: seq<Request>): seq<Timer> {
    if rs == [] then [] else [Timer(now + rs[0].timeout, rs[0].event)] + AddedAll(now, rs[1..])
  }

  function History(actions: seq<Action>): seq<Timer> {
    if actions == [] then []
    else
      var before := actions[..|actions| - 1];
      History(before) + Added(Run(before), actions[|actions| - 1])
  }

  /** The part of the log written at one tick. */
  function LoggedAt(log: seq<Dispatch>, tick: nat): seq<Dispatch> {
    if log == [] then []
    else if log[0].at == tick then [log[0]] + LoggedAt(log[1..], tick) else LoggedAt(log[1..], tick)
  }

  lemma {:induction false} DueAtConcat(a: seq<Timer>, b: seq<Timer>, tick: nat)
    ensures DueAt(a + b, tick) == DueAt(a, tick) + DueAt(b, tick)
  {
    if a == [] {
      assert a + b == b;
    } else {
      DueAtConcat(a[1..], b, tick);
      assert (a + b)[1..] == a[1..] + b;
    }
  }

  lemma {:induction false} DueAfterConcat(a: seq<Timer>, b: seq<Timer>, tick: nat)
    ensures DueAfter(a + b, tick) == DueAfter(a, tick) + DueAfter(b, tick)
  {
    if a == [] {
      assert a + b == b;
    } else {
      DueAfterConcat(a[1..], b, tick);
      assert (a + b)[1..] == a[1..] + b;
    }
  }

  lemma {:induction false} LoggedAtConcat(a: seq<Dispatch>, b: seq<Dispatch>, tick: nat)
    ensures LoggedAt(a + b, tick) == LoggedAt(a, tick) + LoggedAt(b, tick)
  {
    if a == [] {
      assert a + b == b;
    } else {
      LoggedAtConcat(a[1..], b, tick);
      assert (a + b)[1..] == a[1..] + b;
    }
  }

  /** What is dispatched at tick `at` is logged at that tick and at no other. */
  lemma {:induction false} LoggedDispatches(ts: seq<Timer>, at: nat, tick: nat)
    ensures LoggedAt(Dispatches(DueAt(ts, at)), tick) == if tick == at then Dispatches(DueAt(ts, at)) else []
  {
    if ts != [] {
      LoggedDispatches(ts[1..], at, tick);
      var d := DueAt(ts, at);
      if ts[0].due == at {
        assert d[1..] == DueAt(ts[1..], at);
        assert Dispatches(d)[1..] == Dispatches(d[1..]);
      }
    }
  }

  /** Selecting in two steps. */
  lemma {:induction false} DueAfterAfter(ts: seq<Timer>, a: nat, b: nat)
    requires a <= b
    ensures DueAfter(DueAfter(ts, a), b) == DueAfter(ts, b)
    ensures a < b ==> DueAt(DueAfter(ts, a), b) == DueAt(ts, b)
  {
    if ts != [] {
      DueAfterAfter(ts[1..], a, b);
      if ts[0].due > a {
        assert DueAfter(ts, a)[1..] == DueAfter(ts[1..], a);
      }
    }
  }

  lemma {:induction false} DueAfterLater(ts: seq<Timer>, tick: nat)
    ensures forall x :: x in DueAfter(ts, tick) ==> x in ts && x.due > tick
  {
    if ts != [] {
      DueAfterLater(ts[1..], tick);
    }
  }

  lemma {:induction false} NoneDue(ts: seq<Timer>, tick: nat)
    requires forall x :: x in ts ==> x.due > tick
    ensures DueAt(ts, tick) == [] && DueAfter(ts, tick) == ts
  {
    if ts != [] {
      NoneDue(ts[1..], tick);
      assert ts == [ts[0]] + ts[1..];
    }
  }

  lemma {:induction false} AddedAllFuture(now: nat, rs: seq<Request>)
    requires forall k :: 0 <= k < |rs| ==> rs[k].timeout > 0
    ensures forall x :: x in AddedAll(now, rs) ==> x.due > now
  {
    if rs != [] {
      AddedAllFuture(now, rs[1..]);
    }
  }

  lemma {:induction false} AddAllAppends(b: Bag, rs: seq<Request>)
    ensures AddAll(b, rs) == b.(pending := b.pending + AddedAll(b.now, rs))
    decreases |rs|
  {
    if rs == [] {
      assert b.pending + [] == b.pending;
    } else {
      var one := [Timer(b.now + rs[0].timeout, rs[0].event)];
      AddAllAppends(Add(b, rs[0]), rs[1..]);
      assert b.pending + one + AddedAll(b.now, rs[1..]) == b.pending + (one + AddedAll(b.now, rs[1..]));
    }
  }

  /** One action adds `Added(b, a)` to the pending timers, after dispatching what is due. */
  lemma DoPending(b: Bag, a: Action)
    requires Proper(a) && forall x :: x in b.pending ==> x.due > b.now
    ensures Do(b, a).pending == DueAfter(b.pending, Do(b, a).now) + Added(b, a)
    ensures b.now <= Do(b, a).now <= b.now + 1
    ensures Do(b, a).log == b.log + (if a.Update? then Dispatches(DueAt(b.pending, b.now + 1)) else [])
    ensures Do(b, a).now == b.now + (if a.Update? then 1 else 0)
    ensures forall x :: x in Added(b, a) ==> x.due > Do(b, a).now
  {
    NoneDue(b.pending, b.now);
    if a.Update? {
      AddAllAppends(Tick(b), a.window);
      AddedAllFuture(b.now + 1, a.window);
    }
  }

  /** What is pending is what was added and is due later. */
  lemma {:induction false} RunPending(actions: seq<Action>)
    requires forall k :: 0 <= k < |actions| ==> Proper(actions[k])
    ensures Run(actions).pending == DueAfter(History(actions), Run(actions).now)
    decreases |actions|
  {
    if actions != [] {
      var before, last := actions[..|actions| - 1], actions[|actions| - 1];
      var b, h := Run(before), History(before);
      RunPending(before);
      DueAfterLater(h, b.now);
      DoPending(b, last);
      var now, add := Do(b, last).now, Added(b, last);
      DueAfterAfter(h, b.now, now);
      NoneDue(add, now);
      DueAfterConcat(h, add, now);
    }
  }

  /** One action logs, at the tick it moves the clock to, what the history has due then. */
  lemma ActionLog(h: seq<Timer>, b: Bag, a: Action, tick: nat)
    requires Proper(a) && b.pending == DueAfter(h, b.now)
    requires LoggedAt(b.log, tick) == if tick <= b.now then Dispatches(DueAt(h, tick)) else []
    ensures LoggedAt(Do(b, a).log, tick) ==
            if tick <= Do(b, a).now then Dispatches(DueAt(h + Added(b, a), tick)) else []
  {
    DueAfterLater(h, b.now);
    DoPending(b, a);
    var add, now := Added(b, a), Do(b, a).now;
    if a.Update? {
      DueAfterAfter(h, b.now, b.now + 1);
      LoggedAtConcat(b.log, Dispatches(DueAt(h, b.now + 1)), tick);
      LoggedDispatches(h, b.now + 1, tick);
    } else {
      assert b.log + [] == b.log;
    }
    if tick <= now {
      NoneDueUpTo(add, tick, now);
      DueAtConcat(h, add, tick);
      assert DueAt(h, tick) + [] == DueAt(h, tick);
    }
  }

  /**
    The promise, for every run and every tick: at a tick that has come, exactly the timers due
    then were dispatched, each once and in the order of adding; at a tick still to come, none.
   */
  lemma {:induction false} RunDispatchesExactly(actions: seq<Action>, tick: nat)
    requires forall k :: 0 <= k < |actions| ==> Proper(actions[k])
    ensures LoggedAt(Run(actions).log, tick) ==
            if tick <= Run(actions).now then Dispatches(DueAt(History(actions), tick)) else []
    decreases |actions|
  {
    if actions != [] {
      var before, last := actions[..|actions| - 1], actions[|actions| - 1];
      RunDispatchesExactly(before, tick);
      RunPending(before);
      ActionLog(History(before), Run(before), last, tick);
    }
  }

  lemma {:induction false} NoneDueUpTo(ts: seq<Timer>, tick: nat, now: nat)
    requires tick <= now && forall x :: x in ts ==> x.due > now
    ensures DueAt(ts, tick) == []
  {
    if ts != [] {
      NoneDueUpTo(ts[1..], tick, now);
    }
  }
}
