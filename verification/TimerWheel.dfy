/**
  The hierarchical timing wheel of skynet_timer.c. Every list of the wheel holds the pending
  timers whose place it is, in the order in which they were added; so the wheel does what the
  list of pending timers in TimerSpec does.
 */
module TimerWheel {
  import opened TimerSpec
  import opened TimerPlace

  datatype Node = Node(expire: uint32, event: Event)

  function NodeOf(t: Timer): Node {
    Node(t.due % WRAP, t.event)
  }

  function NodesOf(ts: seq<Timer>): (r: seq<Node>)
    ensures |r| == |ts|
  {
    if ts == [] then [] else [NodeOf(ts[0])] + NodesOf(ts[1..])
  }

  /** The nodes whose place is `p` when the clock shows `time`, in order. */
  function Select(nodes: seq<Node>, time: nat, p: Place): seq<Node> {
    if nodes == [] then []
    else if PlaceOf(nodes[0].expire, time) == p then [nodes[0]] + Select(nodes[1..], time, p)
    else Select(nodes[1..], time, p)
  }

  function EventsOf(log: seq<Dispatch>): seq<Event> {
    if log == [] then [] else [log[0].event] + EventsOf(log[1..])
  }

  // ----- lists -----

  lemma SelectNone(time: nat, p: Place)
    ensures Select([], time, p) == []
  {
  }

  lemma SelectFirst(n: Node, nodes: seq<Node>, time: nat, p: Place)
    ensures Select([n] + nodes, time, p) == (if PlaceOf(n.expire, time) == p then [n] else []) + Select(nodes, time, p)
  {
    hide PlaceOf;
    assert ([n] + nodes)[1..] == nodes;
  }

  lemma {:induction false} SelectConcat(a: seq<Node>, b: seq<Node>, time: nat, p: Place)
    ensures Select(a + b, time, p) == Select(a, time, p) + Select(b, time, p)
  {
    hide PlaceOf, Select;
    if a == [] {
      assert a + b == b;
      SelectNone(time, p);
    } else {
      SelectConcat(a[1..], b, time, p);
      SelectFirst(a[0], a[1..], time, p);
      SelectFirst(a[0], a[1..] + b, time, p);
      assert a == [a[0]] + a[1..] && a + b == [a[0]] + (a[1..] + b);
    }
  }

  lemma SelectSnoc(nodes: seq<Node>, n: Node, time: nat, p: Place)
    ensures Select(nodes + [n], time, p) ==
            Select(nodes, time, p) + (if p == PlaceOf(n.expire, time) then [n] else [])
  {
    SelectConcat(nodes, [n], time, p);
    assert Select([n], time, p) == if PlaceOf(n.expire, time) == p then [n] else [];
  }

  lemma {:induction false} NodesConcat(a: seq<Timer>, b: seq<Timer>)
    ensures NodesOf(a + b) == NodesOf(a) + NodesOf(b)
  {
    hide NodeOf;
    if a == [] {
      assert a + b == b;
    } else {
      NodesConcat(a[1..], b);
      assert (a + b)[1..] == a[1..] + b;
    }
  }

  lemma AddSelect(ts: seq<Timer>, t: Timer, time: nat, p: Place)
    ensures Select(NodesOf(ts + [t]), time, p) ==
            Select(NodesOf(ts), time, p) + (if p == PlaceOf(NodeOf(t).expire, time) then [NodeOf(t)] else [])
  {
    NodesConcat(ts, [t]);
    assert NodesOf([t]) == [NodeOf(t)];
    SelectSnoc(NodesOf(ts), NodeOf(t), time, p);
  }

  lemma {:induction false} EventsConcat(a: seq<Dispatch>, b: seq<Dispatch>)
    ensures EventsOf(a + b) == EventsOf(a) + EventsOf(b)
  {
    if a == [] {
      assert a + b == b;
    } else {
      EventsConcat(a[1..], b);
      assert (a + b)[1..] == a[1..] + b;
    }
  }

  ghost predicate AllAhead(ts: seq<Timer>, now: nat) {
    forall t :: t in ts ==> Ahead(t.due, now)
  }

  ghost predicate AllLater(ts: seq<Timer>, now: nat) {
    forall t :: t in ts ==> t.due > now
  }

  // ----- the tick -----

  /** A tick that moves no list changes no list. */
  lemma {:induction false} QuietSelect(ts: seq<Timer>, now: nat, p: Place)
    requires AllAhead(ts, now) && AllLater(ts, now) && MovedLevel(now + 1) == 4
    ensures Select(NodesOf(ts), (now + 1) % WRAP, p) == Select(NodesOf(ts), now % WRAP, p)
  {
    if ts != [] {
      QuietSelect(ts[1..], now, p);
      WrappedPlaces(ts[0].due, now);
      QuietTick(ts[0].due, now);
    }
  }

  lemma WrappedPlaces(due: nat, now: nat)
    requires Ahead(due, now) && due > now
    ensures PlaceOf(due % WRAP, now % WRAP) == PlaceOf(due, now)
    ensures PlaceOf(due % WRAP, (now + 1) % WRAP) == PlaceOf(due, now + 1)
  {
    PlaceWraps(due, now);
    PlaceWraps(due, now + 1);
  }

  /** The moved list is empty after the tick: nobody stays and nobody comes. */
  lemma {:induction false} MovedSelect(ts: seq<Timer>, now: nat)
    requires AllAhead(ts, now) && AllLater(ts, now) && MovedLevel(now + 1) < 4
    ensures Select(NodesOf(ts), (now + 1) % WRAP, MovedPlace(now + 1)) == []
    ensures Select(Select(NodesOf(ts), now % WRAP, MovedPlace(now + 1)), (now + 1) % WRAP, MovedPlace(now + 1)) == []
  {
    if ts != [] {
      MovedSelect(ts[1..], now);
      HeadPlaces(ts[0].due, now);
    }
  }

  lemma HeadPlaces(due: nat, now: nat)
    requires Ahead(due, now) && due > now && MovedLevel(now + 1) < 4
    ensures var m, before, after := MovedPlace(now + 1), PlaceOf(due % WRAP, now % WRAP), PlaceOf(due % WRAP, (now + 1) % WRAP);
            && !Below(before, MovedLevel(now + 1))
            && (before == m ==> Below(after, MovedLevel(now + 1)))
            && (before != m ==> after == before)
  {
    WrappedPlaces(due, now);
    NothingBelow(due, now);
    if PlaceOf(due, now) == MovedPlace(now + 1) {
      MovedGoesDown(due, now);
    } else {
      UnmovedStays(due, now);
    }
  }

  /** A list below the moved level was empty, and gets its part of the moved list. */
  lemma {:induction false} BelowSelect(ts: seq<Timer>, now: nat, p: Place)
    requires AllAhead(ts, now) && AllLater(ts, now) && MovedLevel(now + 1) < 4 && Below(p, MovedLevel(now + 1))
    ensures Select(NodesOf(ts), now % WRAP, p) == []
    ensures Select(Select(NodesOf(ts), now % WRAP, MovedPlace(now + 1)), (now + 1) % WRAP, p) ==
            Select(NodesOf(ts), (now + 1) % WRAP, p)
  {
    if ts != [] {
      BelowSelect(ts[1..], now, p);
      HeadPlaces(ts[0].due, now);
      var moved := Select(NodesOf(ts), now % WRAP, MovedPlace(now + 1));
      if PlaceOf(ts[0].due % WRAP, now % WRAP) == MovedPlace(now + 1) {
        assert moved[1..] == Select(NodesOf(ts[1..]), now % WRAP, MovedPlace(now + 1));
      }
    }
  }

  /** Every other list keeps its timers and gets none. */
  lemma {:induction false} AboveSelect(ts: seq<Timer>, now: nat, p: Place)
    requires AllAhead(ts, now) && AllLater(ts, now) && MovedLevel(now + 1) < 4
    requires !Below(p, MovedLevel(now + 1)) && p != MovedPlace(now + 1)
    ensures Select(NodesOf(ts), (now + 1) % WRAP, p) == Select(NodesOf(ts), now % WRAP, p)
    ensures Select(Select(NodesOf(ts), now % WRAP, MovedPlace(now + 1)), (now + 1) % WRAP, p) == []
  {
    if ts != [] {
      AboveSelect(ts[1..], now, p);
      HeadPlaces(ts[0].due, now);
      var moved := Select(NodesOf(ts), now % WRAP, MovedPlace(now + 1));
      if PlaceOf(ts[0].due % WRAP, now % WRAP) == MovedPlace(now + 1) {
        assert moved[1..] == Select(NodesOf(ts[1..]), now % WRAP, MovedPlace(now + 1));
      }
    }
  }

  /** What move_list leaves in each list is what belongs there after the tick. */
  lemma ShiftSelect(ts: seq<Timer>, now: nat, p: Place)
    requires AllAhead(ts, now) && AllLater(ts, now) && MovedLevel(now + 1) < 4
    ensures var nodes, m := NodesOf(ts), MovedPlace(now + 1);
            Select(nodes, (now + 1) % WRAP, p) ==
            (if p == m then [] else Select(nodes, now % WRAP, p)) +
            Select(Select(nodes, now % WRAP, m), (now + 1) % WRAP, p)
  {
    if p == MovedPlace(now + 1) {
      MovedSelect(ts, now);
    } else if Below(p, MovedLevel(now + 1)) {
      BelowSelect(ts, now, p);
    } else {
      AboveSelect(ts, now, p);
    }
  }

  /** The wrapped clock tells which list to move as well as the tick count does. */
  lemma MovedWraps(now: nat)
    ensures MovedLevel(now % WRAP) == MovedLevel(now)
    ensures MovedLevel(now) < 4 ==> MovedPlace(now % WRAP) == MovedPlace(now)
  {
    WrapSlot(now, 0);
    WrapSlot(now, 1);
    WrapSlot(now, 2);
    WrapSlot(now, 3);
  }

  // ----- dispatching -----

  /** The list under the clock is the timers due now; without them the other lists are the same. */
  lemma {:induction false} DueSelect(ts: seq<Timer>, now: nat, p: Place)
    requires AllAhead(ts, now)
    ensures var here := Near(now % WRAP % TIME_NEAR);
            && Select(NodesOf(ts), now % WRAP, here) == NodesOf(DueAt(ts, now))
            && Select(NodesOf(DueAfter(ts, now)), now % WRAP, p) ==
               if p == here then [] else Select(NodesOf(ts), now % WRAP, p)
  {
    if ts != [] {
      DueSelect(ts[1..], now, p);
      PlaceWraps(ts[0].due, now);
      CurrentSlot(ts[0].due, now);
      WrapSlot(now, 0);
      if ts[0].due == now {
        assert DueAt(ts, now)[1..] == DueAt(ts[1..], now);
      } else {
        assert DueAfter(ts, now)[1..] == DueAfter(ts[1..], now);
      }
    }
  }

  lemma {:induction false} DispatchedEvents(ts: seq<Timer>)
    ensures EventsOf(Dispatches(ts)) == EventsOfNodes(NodesOf(ts))
  {
    if ts != [] {
      DispatchedEvents(ts[1..]);
      assert Dispatches(ts)[1..] == Dispatches(ts[1..]);
      assert NodesOf(ts)[1..] == NodesOf(ts[1..]);
    }
  }

  function EventsOfNodes(nodes: seq<Node>): seq<Event> {
    if nodes == [] then [] else [nodes[0].event] + EventsOfNodes(nodes[1..])
  }

  lemma {:induction false} EventsOfNodesAppend(nodes: seq<Node>, n: Node)
    ensures EventsOfNodes(nodes + [n]) == EventsOfNodes(nodes) + [n.event]
  {
    if nodes == [] {
      assert nodes + [n] == [n];
    } else {
      EventsOfNodesAppend(nodes[1..], n);
      assert (nodes + [n])[1..] == nodes[1..] + [n];
    }
  }

  // ----- the wheel -----

  class Wheel {
    var near: array<seq<Node>>
    var level: array2<seq<Node>>
    var time: uint32
    var sent: seq<Event>  // what was pushed to services by timers, in order
    ghost var bag: Bag

    ghost predicate Shape()
      reads this
    {
      near.Length == TIME_NEAR && level.Length0 == 4 && level.Length1 == TIME_LEVEL
    }

    ghost function List(p: Place): seq<Node>
      requires Shape() && IsPlace(p)
      reads this, near, level
    {
      if p.Near? then near[p.idx] else level[p.level, p.idx]
    }

    ghost predicate Valid()
      reads this, near, level
    {
      && Shape()
      && time == bag.now % WRAP
      && AllAhead(bag.pending, bag.now)
      && sent == EventsOf(bag.log)
      && forall p :: IsPlace(p) ==> List(p) == Select(NodesOf(bag.pending), time, p)
    }

    /** Between updates nothing is due any more. */
    ghost predicate Quiet()
      reads this
    {
      AllLater(bag.pending, bag.now)
    }

    constructor ()
      ensures Valid() && Quiet() && bag == Bag(0, [], [])
      ensures fresh(near) && fresh(level)
    {
      near := new seq<Node>[TIME_NEAR](_ => []);
      level := new seq<Node>[4, TIME_LEVEL]((_, _) => []);
      time := 0;
      sent := [];
      bag := Bag(0, [], []);
    }

    /** link: append to the list of a place. */
    method Link(p: Place, node: Node)
      requires Shape() && IsPlace(p)
      modifies near, level
      ensures forall q :: IsPlace(q) ==> List(q) == old(List(q)) + (if q == p then [node] else [])
    {
      match p
      case Near(idx) => near[idx] := near[idx] + [node];
      case Level(l, idx) => level[l, idx] := level[l, idx] + [node];
    }

    method AddNode(node: Node)
      requires Shape()
      modifies near, level
      ensures forall q :: IsPlace(q) ==>
                List(q) == old(List(q)) + (if q == PlaceOf(node.expire, time) then [node] else [])
    {
      var t := node.expire;
      MaskIsPrefix(t, time, 0);
      if BitOr(t, TIME_NEAR - 1) == BitOr(time, TIME_NEAR - 1) {
        Link(Near(t % TIME_NEAR), node);
      } else {
        var i := FindLevel(t, time);
        Link(Level(i, t / Unit(i) % TIME_LEVEL), node);
      }
    }

    /** timer_add. */
    method TimerAdd(event: Event, timeout: nat)
      requires Valid() && 0 < timeout <= MAX_TIMEOUT
      modifies this`bag, near, level
      ensures Valid() && (old(Quiet()) ==> Quiet())
      ensures bag == Add(old(bag), Request(event, timeout))
    {
      hide Select, PlaceOf, NodesOf;
      var node := Node((timeout + time) % WRAP, event);
      ghost var t := Timer(bag.now + timeout, event);
      assert NodeOf(t) == node;
      AddNode(node);
      ghost var pending := bag.pending;
      bag := Add(bag, Request(event, timeout));
      forall p | IsPlace(p) ensures List(p) == Select(NodesOf(bag.pending), time, p) {
        AddSelect(pending, t, time, p);
      }
    }

    /** move_list: take a list apart and add its nodes anew. */
    method MoveList(l: nat, idx: nat)
      requires Shape() && l < 4 && idx < TIME_LEVEL
      modifies near, level
      ensures forall p :: IsPlace(p) ==>
                List(p) == (if p == Level(l, idx) then [] else old(List(p))) +
                           Select(old(List(Level(l, idx))), time, p)
    {
      hide PlaceOf, Select;
      var nodes := level[l, idx];
      level[l, idx] := [];
      AddNodes(nodes);
    }

    /** The loop of move_list */
    method AddNodes(nodes: seq<Node>)
      requires Shape()
      modifies near, level
      ensures forall p :: IsPlace(p) ==> List(p) == old(List(p)) + Select(nodes, time, p)
    {
      hide PlaceOf, Select, Wheel.List;
      forall p ensures Select(nodes[..0], time, p) == [] {
        SelectNone(time, p);
      }
      for k := 0 to |nodes|
        invariant forall p :: IsPlace(p) ==> List(p) == old(List(p)) + Select(nodes[..k], time, p)
      {
        AddNode(nodes[k]);
        assert nodes[..k + 1] == nodes[..k] + [nodes[k]];
        forall p | IsPlace(p) ensures List(p) == old(List(p)) + Select(nodes[..k + 1], time, p) {
          SelectSnoc(nodes[..k], nodes[k], time, p);
        }
      }
      assert nodes[..|nodes|] == nodes;
    }

    /** The search of timer_shift for the list to move, once the clock shows `time`. */
    method MoveShifted()
      requires Shape()
      modifies near, level
      ensures MovedLevel(time) == 4 ==> forall p :: IsPlace(p) ==> List(p) == old(List(p))
      ensures MovedLevel(time) < 4 ==> forall p :: IsPlace(p) ==>
                List(p) == (if p == MovedPlace(time) then [] else old(List(p))) +
                           Select(old(List(MovedPlace(time))), time, p)
    {
      hide Select, PlaceOf;
      if time == 0 {
        ZeroMoves();
        MoveList(3, 0);
      } else {
        var mask, t, i := TIME_NEAR, time / TIME_NEAR, 0;
        MovedFrom(time, 0);
        while time % mask == 0
          invariant 0 <= i < 4 && mask == Unit(i) && t == Slot(time, i)
          invariant i > 0 ==> time % mask == 0
          invariant MovedLevel(time) >= i
          invariant forall p :: IsPlace(p) ==> List(p) == old(List(p))
          decreases 4 - i
        {
          var idx := t % TIME_LEVEL;
          MovedFrom(time, i);
          if idx != 0 {
            MoveList(i, idx);
            return;
          }
          mask := mask * TIME_LEVEL;
          t := t / TIME_LEVEL;
          i := i + 1;
        }
      }
    }

    /** timer_shift: the clock moves on and the one list whose timers change place is moved. */
    method TimerShift()
      requires Valid() && Quiet()
      modifies this`time, this`bag, near, level
      ensures Valid()
      ensures bag == old(bag).(now := old(bag.now) + 1)
    {
      hide Select, PlaceOf, NodesOf, Slot, MovedLevel;
      ghost var now := bag.now;
      time := (time + 1) % WRAP;
      bag := bag.(now := now + 1);
      assert time == (now + 1) % WRAP;
      MovedWraps(now + 1);
      MovedRange(now + 1);
      MoveShifted();
      Shifted(old(bag.pending), now);
    }

    /** dispatch_list: push every event of a list. */
    method DispatchList(current: seq<Node>)
      modifies this`sent
      ensures sent == old(sent) + EventsOfNodes(current)
    {
      var k := 0;
      while k < |current|
        invariant 0 <= k <= |current|
        invariant sent == old(sent) + EventsOfNodes(current[..k])
      {
        assert current[..k + 1] == current[..k] + [current[k]];
        EventsOfNodesAppend(current[..k], current[k]);
        sent := sent + [current[k].event];
        k := k + 1;
      }
      assert current[..k] == current;
    }

    /** The lock section of timer_execute that takes the due list, and the dispatching after it. */
    method DispatchDue()
      requires Valid()
      modifies this`sent, this`bag, near
      ensures Valid() && Quiet()
      ensures bag == Bag(old(bag.now), DueAfter(old(bag.pending), old(bag.now)),
                         old(bag.log) + Dispatches(DueAt(old(bag.pending), old(bag.now))))
    {
      hide Select, PlaceOf, NodesOf, DueAt, DueAfter, Slot, EventsOf, EventsOfNodes, Dispatches;
      var idx := time % TIME_NEAR;
      var current := near[idx];
      assert current == List(Near(idx));
      near[idx] := [];
      ghost var pending, now, due := bag.pending, bag.now, DueAt(bag.pending, bag.now);
      DueSelected(pending, now);
      DispatchList(current);
      DispatchedEvents(due);
      EventsConcat(bag.log, Dispatches(due));
      DueAfterLater(pending, now);
      bag := Bag(now, DueAfter(pending, now), bag.log + Dispatches(due));
    }

    /** Other threads adding timers while the lock is free. */
    method AddBatch(window: seq<Request>)
      requires Valid() && Quiet()
      requires forall k :: 0 <= k < |window| ==> 0 < window[k].timeout <= MAX_TIMEOUT
      modifies this`bag, near, level
      ensures Valid() && Quiet() && bag == AddAll(old(bag), window)
    {
      hide Valid, Quiet;
      var k := 0;
      while k < |window|
        invariant 0 <= k <= |window| && Valid() && Quiet()
        invariant AddAll(bag, window[k..]) == AddAll(old(bag), window)
      {
        assert window[k..][1..] == window[k + 1..];
        TimerAdd(window[k].event, window[k].timeout);
        k := k + 1;
      }
      assert window[k..] == [];
    }

    /** timer_execute; `window` is what is added while the list is dispatched without the lock. */
    method TimerExecute(window: seq<Request>)
      requires Valid()
      requires forall k :: 0 <= k < |window| ==> 0 < window[k].timeout <= MAX_TIMEOUT
      modifies this`sent, this`bag, near, level
      ensures Valid() && Quiet()
      ensures bag == var due := DueAt(old(bag.pending), old(bag.now));
                     if due == [] then old(bag)
                     else AddAll(Bag(old(bag.now), DueAfter(old(bag.pending), old(bag.now)),
                                     old(bag.log) + Dispatches(due)), window)
    {
      hide Select, PlaceOf, NodesOf, DueAt, DueAfter, AddAll, Slot;
      var idx := time % TIME_NEAR;
      ghost var due := DueAt(bag.pending, bag.now);
      DueListEmpty(bag.pending, bag.now);
      ghost var first := true;
      var batch := window;
      while near[idx] != []
        invariant Valid() && idx == time % TIME_NEAR && bag.now == old(bag.now)
        invariant first ==> bag == old(bag) && batch == window && (near[idx] == [] <==> due == [])
        invariant !first ==> Quiet() && near[idx] == [] && due != [] && batch == []
        invariant !first ==> bag == AddAll(Bag(old(bag.now), DueAfter(old(bag.pending), old(bag.now)),
                                               old(bag.log) + Dispatches(due)), window)
        decreases first
      {
        DispatchDue();
        AddBatch(batch);
        AddAllAppends(Bag(old(bag.now), DueAfter(old(bag.pending), old(bag.now)), old(bag.log) + Dispatches(due)), window);
        batch := [];
        QuietListEmpty(bag.pending, bag.now);
        first := false;
      }
      if first {
        NoDueQuiet(bag.pending, bag.now);
      }
    }

    /** timer_update. */
    method TimerUpdate(window: seq<Request>)
      requires Valid() && Quiet()
      requires forall k :: 0 <= k < |window| ==> 0 < window[k].timeout <= MAX_TIMEOUT
      modifies this`sent, this`time, this`bag, near, level
      ensures Valid() && Quiet()
      ensures bag == Do(old(bag), Update(window))
    {
      hide AddAll, DueAt, DueAfter, Select, PlaceOf, NodesOf;
      // try to dispatch timeout 0 (nothing is due yet)
      NoneDue(bag.pending, bag.now);
      TimerExecute([]);
      TimerShift();
      TickWithoutDue(bag.pending, bag.now);
      TimerExecute(window);
    }

    /**
      skynet_timeout: a timeout that is not positive is answered at once, without the timer;
      `pushed` tells whether the service was there to take that message.
     */
    method Timeout(event: Event, timeout: int, pushed: bool) returns (session: int, atOnce: seq<Event>)
      requires Valid() && Quiet() && timeout <= MAX_TIMEOUT
      modifies this`bag, near, level
      ensures Valid() && Quiet()
      ensures timeout > 0 ==>
                bag == Do(old(bag), Schedule(Request(event, timeout))) && session == event.session && atOnce == []
      ensures timeout <= 0 ==>
                && bag == old(bag) && atOnce == (if pushed then [event] else [])
                && session == if pushed then event.session else -1
    {
      if timeout <= 0 {
        atOnce := if pushed then [event] else [];
        session := if pushed then event.session else -1;
      } else {
        TimerAdd(event, timeout);
        atOnce := [];
        session := event.session;
      }
    }
  }

  // ----- facts for the methods -----

  /** The search of add_node for the first level whose slots have the same prefix. */
  method FindLevel(t: uint32, current: uint32) returns (i: nat)
    requires Slot(t, 0) != Slot(current, 0)
    ensures i < 4 && PlaceOf(t, current) == Level(i, Slot(t, i) % TIME_LEVEL)
  {
    hide BitOr;
    i := 0;
    var mask := TIME_NEAR * TIME_LEVEL;
    while i < 3
      invariant 0 <= i <= 3
      invariant i < 3 ==> mask == Unit(i + 1)
      invariant forall j :: 0 <= j <= i ==> Slot(t, j) != Slot(current, j)
    {
      MaskIsPrefix(t, current, i + 1);
      if BitOr(t, mask - 1) == BitOr(current, mask - 1) {
        break;
      }
      mask := mask * TIME_LEVEL;
      i := i + 1;
    }
  }

  lemma ZeroMoves()
    ensures MovedLevel(0) == 3 && MovedPlace(0) == Level(3, 0)
  {
  }

  /** How the loop of timer_shift finds the level: it goes up while the index is 0. */
  lemma MovedFrom(time: uint32, i: nat)
    requires time > 0 && i <= 4
    ensures i < 4 && MovedLevel(time) >= i && time % Unit(i) == 0 && Slot(time, i) % TIME_LEVEL != 0 ==>
              MovedLevel(time) == i && MovedPlace(time) == Level(i, Slot(time, i) % TIME_LEVEL)
    ensures i < 3 && MovedLevel(time) >= i && time % Unit(i) == 0 && Slot(time, i) % TIME_LEVEL == 0 ==>
              i + 1 <= MovedLevel(time) < 4 && time % Unit(i + 1) == 0 && Slot(time, i + 1) == Slot(time, i) / TIME_LEVEL
    ensures time % Unit(0) != 0 ==> MovedLevel(time) == 4
    ensures i == 3 && time % Unit(3) == 0 ==> Slot(time, 3) % TIME_LEVEL != 0
  {
    hide Slot, Unit;
    UnitStep(time, 0);
    UnitStep(time, 1);
    UnitStep(time, 2);
    if time % Unit(3) == 0 {
      TopSlot(time);
    }
    if i < 3 {
      NestOne(time, i);
    }
  }

  lemma TopSlot(time: uint32)
    requires time > 0 && time % Unit(3) == 0
    ensures Slot(time, 3) % TIME_LEVEL != 0
  {
  }

  /** All lists at once. */
  lemma Shifted(ts: seq<Timer>, now: nat)
    requires AllAhead(ts, now) && AllLater(ts, now)
    ensures MovedLevel(now + 1) == 4 ==>
              forall p :: Select(NodesOf(ts), (now + 1) % WRAP, p) == Select(NodesOf(ts), now % WRAP, p)
    ensures MovedLevel(now + 1) < 4 ==>
              forall p :: Select(NodesOf(ts), (now + 1) % WRAP, p) ==
                (if p == MovedPlace(now + 1) then [] else Select(NodesOf(ts), now % WRAP, p)) +
                Select(Select(NodesOf(ts), now % WRAP, MovedPlace(now + 1)), (now + 1) % WRAP, p)
  {
    hide Select, PlaceOf, NodesOf, Slot, MovedLevel;
    if MovedLevel(now + 1) == 4 {
      forall p ensures Select(NodesOf(ts), (now + 1) % WRAP, p) == Select(NodesOf(ts), now % WRAP, p) {
        QuietSelect(ts, now, p);
      }
    } else if MovedLevel(now + 1) < 4 {
      forall p
        ensures Select(NodesOf(ts), (now + 1) % WRAP, p) ==
                (if p == MovedPlace(now + 1) then [] else Select(NodesOf(ts), now % WRAP, p)) +
                Select(Select(NodesOf(ts), now % WRAP, MovedPlace(now + 1)), (now + 1) % WRAP, p)
      {
        ShiftSelect(ts, now, p);
      }
    }
  }

  lemma DueSelected(ts: seq<Timer>, now: nat)
    requires AllAhead(ts, now)
    ensures var here := Near(now % WRAP % TIME_NEAR);
            && Select(NodesOf(ts), now % WRAP, here) == NodesOf(DueAt(ts, now))
            && forall p :: Select(NodesOf(DueAfter(ts, now)), now % WRAP, p) ==
                           if p == here then [] else Select(NodesOf(ts), now % WRAP, p)
  {
    hide Select, PlaceOf, NodesOf, DueAt, DueAfter;
    DueSelect(ts, now, Near(0));
    forall p ensures Select(NodesOf(DueAfter(ts, now)), now % WRAP, p) ==
                     if p == Near(now % WRAP % TIME_NEAR) then [] else Select(NodesOf(ts), now % WRAP, p)
    {
      DueSelect(ts, now, p);
    }
  }

  lemma MovedRange(now: nat)
    ensures MovedLevel(now) <= 4
  {
  }

  lemma DueListEmpty(ts: seq<Timer>, now: nat)
    requires AllAhead(ts, now)
    ensures Select(NodesOf(ts), now % WRAP, Near(now % WRAP % TIME_NEAR)) == [] <==> DueAt(ts, now) == []
  {
    DueSelect(ts, now, Near(0));
  }

  lemma QuietListEmpty(ts: seq<Timer>, now: nat)
    requires AllAhead(ts, now) && AllLater(ts, now)
    ensures Select(NodesOf(ts), now % WRAP, Near(now % WRAP % TIME_NEAR)) == []
  {
    NoneDue(ts, now);
    DueListEmpty(ts, now);
  }

  lemma {:induction false} NoDueQuiet(ts: seq<Timer>, now: nat)
    requires AllAhead(ts, now) && DueAt(ts, now) == []
    ensures AllLater(ts, now)
  {
    if ts != [] {
      NoDueQuiet(ts[1..], now);
    }
  }

  lemma TickWithoutDue(ts: seq<Timer>, now: nat)
    requires AllAhead(ts, now)
    ensures DueAt(ts, now) == [] ==> DueAfter(ts, now) == ts
  {
    if DueAt(ts, now) == [] {
      NoDueQuiet(ts, now);
      NoneDue(ts, now);
    }
  }

  // ----- every run -----

  predicate Possible(a: Action) {
    match a
    case Schedule(r) => 0 < r.timeout <= MAX_TIMEOUT
    case Update(window) => forall k :: 0 <= k < |window| ==> 0 < window[k].timeout <= MAX_TIMEOUT
  }

  /** Any run of the wheel sends, in the same order, what the plain list of pending timers sends. */
  method Replay(actions: seq<Action>) returns (w: Wheel)
    requires forall k :: 0 <= k < |actions| ==> Possible(actions[k])
    ensures w.Valid() && w.Quiet()
    ensures w.bag == Run(actions) && w.sent == EventsOf(Run(actions).log)
  {
    w := new Wheel();
    var k := 0;
    while k < |actions|
      invariant 0 <= k <= |actions| && fresh(w) && fresh(w.near) && fresh(w.level)
      invariant w.Valid() && w.Quiet() && w.bag == Run(actions[..k])
    {
      assert actions[..k + 1][..k] == actions[..k];
      match actions[k] {
        case Schedule(r) => w.TimerAdd(r.event, r.timeout);
        case Update(window) => w.TimerUpdate(window);
      }
      k := k + 1;
    }
    assert actions[..k] == actions;
  }
}
