/**
  What the moves of a run alone determine: which messages were sent to a service and in which order,
  which of them its workers get, whether it can be found by its handle, and the order of the global
  list. Nothing here is read from the history that a service carries with it.
 */
module SchedulerTrace {
  import opened Common
  import opened MessageQueue
  import opened Scheduler
  import opened SchedulerProperties

  // ----- what an agent is sending -----

  /** The last of the first `k` moves that was made by agent `t`. */
  function LastMove(moves: seq<Move>, k: nat, t: nat): Option<Action>
    requires k <= |moves|
  {
    if k == 0 then None
    else if moves[k - 1].agent == t then Some(moves[k - 1].action)
    else LastMove(moves, k - 1, t)
  }

  /** A step moves its own agent only, and ends before a push exactly if it takes the reference for it. */
  lemma StepSends(s: State, t: nat, a: Action, u: nat)
    requires Inv(s) && Enabled(s, t, a) && Known(s, t)
    ensures u != t ==> AgentAt(Next(s, t, a), u) == AgentAt(s, u)
    ensures AgentAt(Next(s, t, a), t).Send? <==> a.DoGrab?
    ensures a.DoGrab? ==> AgentAt(Next(s, t, a), t) == Send(a.c, a.m)
  {
    hide CountsOk;
  }

  /** The step of a run, with what holds before it. */
  lemma StepOfRun(states: seq<State>, moves: seq<Move>, k: nat)
    requires IsRun(states, moves) && k < |moves|
    ensures Inv(states[k]) && Known(states[k], moves[k].agent)
    ensures Enabled(states[k], moves[k].agent, moves[k].action)
    ensures states[k + 1] == Next(states[k], moves[k].agent, moves[k].action)
  {
    RunsKeepInv(states, moves, k);
    assert IsStep(states[k], moves[k], states[k + 1]);
    AgentKnown(states[k], moves[k].agent);
  }

  /** An agent is about to push a message exactly if the last thing it did was to grab its receiver for it. */
  lemma {:induction false} SendIffGrabbed(states: seq<State>, moves: seq<Move>, k: nat, t: nat, c: nat, m: Message)
    requires IsRun(states, moves) && k < |states|
    ensures AgentAt(states[k], t) == Send(c, m) <==> LastMove(moves, k, t) == Some(DoGrab(c, m))
    decreases k
  {
    hide Next, Enabled, Known, Inv;
    if k > 0 {
      SendIffGrabbed(states, moves, k - 1, t, c, m);
      StepOfRun(states, moves, k - 1);
      StepSends(states[k - 1], moves[k - 1].agent, moves[k - 1].action, t);
    }
  }

  // ----- what was sent to a service -----

  /** The message that move `k` sends to service `c`. */
  function SentBy(moves: seq<Move>, k: nat, c: nat): seq<Message>
    requires k < |moves|
  {
    var last := LastMove(moves, k, moves[k].agent);
    if moves[k].action == DoPush(true) && last.Some? && last.value.DoGrab? && last.value.c == c then [last.value.m] else []
  }

  /** The messages sent to service `c` by the first `k` moves, in order. */
  function Sent(moves: seq<Move>, k: nat, c: nat): seq<Message>
    requires k <= |moves|
  {
    if k == 0 then [] else Sent(moves, k - 1, c) + SentBy(moves, k - 1, c)
  }

  function PushedTo(s: State, c: nat): seq<Message> {
    if c in s.services then s.services[c].pushed else []
  }

  /** What a step sends, as its agent stands before it. */
  function Pushing(me: Agent, a: Action, c: nat): seq<Message> {
    if a == DoPush(true) && me.Send? && me.c == c then [me.m] else []
  }

  lemma StepPushes(s: State, t: nat, a: Action, c: nat)
    requires Inv(s) && Enabled(s, t, a) && Known(s, t)
    ensures c in s.services ==> c in Next(s, t, a).services
    ensures PushedTo(Next(s, t, a), c) == PushedTo(s, c) + Pushing(AgentAt(s, t), a, c)
  {
    hide CountsOk;
  }

  /** What a move sends is what its agent grabbed the receiver for. */
  lemma SendsWhatWasGrabbed(states: seq<State>, moves: seq<Move>, k: nat, c: nat)
    requires IsRun(states, moves) && k < |moves|
    ensures SentBy(moves, k, c) == Pushing(AgentAt(states[k], moves[k].agent), moves[k].action, c)
  {
    var me, last := AgentAt(states[k], moves[k].agent), LastMove(moves, k, moves[k].agent);
    if me.Send? {
      SendIffGrabbed(states, moves, k, moves[k].agent, me.c, me.m);
    } else if last.Some? && last.value.DoGrab? {
      SendIffGrabbed(states, moves, k, moves[k].agent, last.value.c, last.value.m);
    }
  }

  /** In every run the messages pushed to a service are those sent to it, all of them and in this order. */
  lemma {:induction false} PushedIsSent(states: seq<State>, moves: seq<Move>, k: nat, c: nat)
    requires IsRun(states, moves) && k < |states|
    ensures PushedTo(states[k], c) == Sent(moves, k, c)
    decreases k
  {
    hide Next, Known, Inv, Enabled;
    if k > 0 {
      PushedIsSent(states, moves, k - 1, c);
      StepOfRun(states, moves, k - 1);
      StepPushes(states[k - 1], moves[k - 1].agent, moves[k - 1].action, c);
      SendsWhatWasGrabbed(states, moves, k - 1, c);
    }
  }

  // ----- what the workers of a service get -----

  /** The message of service `c` that move `k` gives to its worker. */
  function GivenBy(states: seq<State>, moves: seq<Move>, k: nat, c: nat): seq<Message>
    requires k < |moves| && |states| == |moves| + 1
  {
    var after := AgentAt(states[k + 1], moves[k].agent);
    if moves[k].action.DoPop? && after.Busy? && after.c == c then [after.m] else []
  }

  /** The messages of service `c` that workers got in the first `k` moves, in order. */
  function Given(states: seq<State>, moves: seq<Move>, k: nat, c: nat): seq<Message>
    requires k <= |moves| && |states| == |moves| + 1
  {
    if k == 0 then [] else Given(states, moves, k - 1, c) + GivenBy(states, moves, k - 1, c)
  }

  function DispatchedFrom(s: State, c: nat): seq<Message> {
    if c in s.services then s.services[c].dispatched else []
  }

  lemma StepGives(s: State, t: nat, a: Action, c: nat)
    requires Inv(s) && Enabled(s, t, a) && Known(s, t)
    ensures var after := AgentAt(Next(s, t, a), t);
            && DispatchedFrom(Next(s, t, a), c)
               == DispatchedFrom(s, c) + if a.DoPop? && after.Busy? && after.c == c then [after.m] else []
  {
    hide CountsOk;
  }

  lemma {:induction false} DispatchedIsGiven(states: seq<State>, moves: seq<Move>, k: nat, c: nat)
    requires IsRun(states, moves) && k < |states|
    ensures DispatchedFrom(states[k], c) == Given(states, moves, k, c)
    decreases k
  {
    hide Next, Known, Inv, Enabled;
    if k > 0 {
      DispatchedIsGiven(states, moves, k - 1, c);
      StepOfRun(states, moves, k - 1);
      StepGives(states[k - 1], moves[k - 1].agent, moves[k - 1].action, c);
    }
  }

  /** In every run the workers of a service get the messages sent to it from the first one on, none twice and none out of order. */
  lemma GivenInOrder(states: seq<State>, moves: seq<Move>, k: nat, c: nat)
    requires IsRun(states, moves) && k < |states|
    ensures Given(states, moves, k, c) <= Sent(moves, k, c)
  {
    PushedIsSent(states, moves, k, c);
    DispatchedIsGiven(states, moves, k, c);
    if c in states[k].services {
      MessagesInOrder(states, moves, k, c);
    }
  }

  /**
    A worker that asks for a message gets the oldest one not given out yet, and lets the service go
    exactly if there is none.
   */
  lemma PopGivesOldest(states: seq<State>, moves: seq<Move>, k: nat)
    requires IsRun(states, moves) && k < |moves| && moves[k].action.DoPop?
    ensures AgentAt(states[k], moves[k].agent).Dispatch?
    ensures var t := moves[k].agent;
            var c := AgentAt(states[k], t).c;
            var sent, given := Sent(moves, k, c), Given(states, moves, k, c);
            AgentAt(states[k + 1], t) == if |given| < |sent| then Busy(c, sent[|given|]) else Rel(c, Idle)
  {
    var s, t := states[k], moves[k].agent;
    StepOfRun(states, moves, k);
    var c := AgentAt(s, t).c;
    PushedIsSent(states, moves, k, c);
    DispatchedIsGiven(states, moves, k, c);
    Counted(s, t, c);
    var v := s.services[c];
    assert v.dropped == [] && v.pushed == v.dispatched + v.queue.msgs;
  }

  /** As long as a service has messages that were not given out, its queue is in the global list or has an owner. */
  lemma SentHasOwner(states: seq<State>, moves: seq<Move>, k: nat, c: nat)
    requires IsRun(states, moves) && k < |states| && Given(states, moves, k, c) != Sent(moves, k, c)
    ensures c in states[k].services
    ensures HasOwner(states[k], c) || states[k].services[c].deleted
  {
    PushedIsSent(states, moves, k, c);
    DispatchedIsGiven(states, moves, k, c);
    TokenExactly(states, moves, k, c);
    RunsKeepInv(states, moves, k);
    assert CountsOk(states[k], c);
  }

  // ----- which services can be found -----

  /** The service that agent `t` launched last, by the first `k` moves. */
  function LastLaunch(moves: seq<Move>, k: nat, t: nat): Option<nat>
    requires k <= |moves|
  {
    if k == 0 then None
    else if moves[k - 1].agent == t && moves[k - 1].action.DoLaunch? then Some(moves[k - 1].action.c)
    else LastLaunch(moves, k - 1, t)
  }

  /** Move `k` takes service `c` out of the handle table: by name, or as the end of its own failed launch. */
  predicate Retires(moves: seq<Move>, k: nat, c: nat)
    requires k < |moves|
  {
    || moves[k].action == DoRetire(c)
    || (moves[k].action.DoFailRetire? && LastLaunch(moves, k, moves[k].agent) == Some(c))
  }

  /** Service `c` was launched and not retired since, by the first `k` moves. */
  predicate InTable(moves: seq<Move>, k: nat, c: nat)
    requires k <= |moves|
  {
    k > 0 && (moves[k - 1].action == DoLaunch(c) || (InTable(moves, k - 1, c) && !Retires(moves, k - 1, c)))
  }

  /** A launch is begun by its own move only. */
  lemma StepLaunches(s: State, t: nat, a: Action, c: nat)
    requires Inv(s) && Enabled(s, t, a) && Known(s, t)
    ensures Launching(AgentAt(Next(s, t, a), t), c) ==> if a.DoLaunch? then a.c == c else Launching(AgentAt(s, t), c)
  {
    hide CountsOk;
    var me, after := AgentAt(s, t), AgentAt(Next(s, t, a), t);
    if me.Rel? || me.Del? {
      assert Launching(me, c) == Launching(me.next, c);
    }
    if after.Rel? || after.Del? {
      assert Launching(after, c) == Launching(after.next, c);
    }
  }

  lemma StepRegisters(s: State, t: nat, a: Action, c: nat)
    requires Inv(s) && Enabled(s, t, a) && Known(s, t)
    ensures Registered(Next(s, t, a), c) <==>
            || a == DoLaunch(c)
            || (Registered(s, c) && a != DoRetire(c) && !(a.DoFailRetire? && AgentAt(s, t) == FailRetire(c)))
  {
    hide CountsOk;
  }

  lemma {:induction false} LaunchingIsLast(states: seq<State>, moves: seq<Move>, k: nat, t: nat, c: nat)
    requires IsRun(states, moves) && k < |states| && Launching(AgentAt(states[k], t), c)
    ensures LastLaunch(moves, k, t) == Some(c)
    decreases k
  {
    if k > 0 {
      var s, u, a := states[k - 1], moves[k - 1].agent, moves[k - 1].action;
      StepOfRun(states, moves, k - 1);
      StepSends(s, u, a, t);
      StepLaunches(s, u, a, c);
      hide Next, Known, Inv, Enabled;
      if t != u || !a.DoLaunch? {
        LaunchingIsLast(states, moves, k - 1, t, c);
      }
    }
  }

  /** In every run a service can be found by its handle exactly from its launch to the first retirement. */
  lemma {:induction false} RegisteredIsInTable(states: seq<State>, moves: seq<Move>, k: nat, c: nat)
    requires IsRun(states, moves) && k < |states|
    ensures Registered(states[k], c) <==> InTable(moves, k, c)
    decreases k
  {
    hide Next, Known, Inv;
    if k > 0 {
      var s, t, a := states[k - 1], moves[k - 1].agent, moves[k - 1].action;
      RegisteredIsInTable(states, moves, k - 1, c);
      StepOfRun(states, moves, k - 1);
      StepRegisters(s, t, a, c);
      if a.DoFailRetire? {
        LaunchingIsLast(states, moves, k - 1, t, AgentAt(s, t).c);
      }
    }
  }

  // ----- the global list -----

  /** The queue that move `k` takes out of the global list. */
  function TakenBy(states: seq<State>, moves: seq<Move>, k: nat): seq<nat>
    requires k < |moves| && |states| == |moves| + 1
  {
    var after := AgentAt(states[k + 1], moves[k].agent);
    if moves[k].action.DoTake? && after.Hold? then [after.c]
    else if moves[k].action.DoFinish? && after.PutBack? then [after.d]
    else []
  }

  /** The queues that workers took from move `j` to move `k`, in order. */
  function Takes(states: seq<State>, moves: seq<Move>, j: nat, k: nat): seq<nat>
    requires j <= k <= |moves| && |states| == |moves| + 1
  {
    if j == k then [] else Takes(states, moves, j, k - 1) + TakenBy(states, moves, k - 1)
  }

  lemma StepTakes(s: State, t: nat, a: Action)
    requires Inv(s) && Enabled(s, t, a) && Known(s, t)
    ensures var after := AgentAt(Next(s, t, a), t);
            s.global <= (if a.DoTake? && after.Hold? then [after.c]
                         else if a.DoFinish? && after.PutBack? then [after.d] else []) + Next(s, t, a).global
  {
    hide CountsOk;
  }

  /** In every run the queues are taken from the global list in the order in which they stand there. */
  lemma {:induction false} GlobalIsFifo(states: seq<State>, moves: seq<Move>, j: nat, k: nat)
    requires IsRun(states, moves) && j <= k < |states|
    ensures states[j].global <= Takes(states, moves, j, k) + states[k].global
    decreases k
  {
    hide Next, Known, Inv, Enabled;
    if j < k {
      GlobalIsFifo(states, moves, j, k - 1);
      StepOfRun(states, moves, k - 1);
      StepTakes(states[k - 1], moves[k - 1].agent, moves[k - 1].action);
      PrefixChain(states[j].global, Takes(states, moves, j, k - 1), states[k - 1].global,
                  TakenBy(states, moves, k - 1), states[k].global);
    }
  }

  lemma PrefixChain(g: seq<nat>, taken: seq<nat>, h: seq<nat>, took: seq<nat>, i: seq<nat>)
    requires g <= taken + h && h <= took + i
    ensures g <= (taken + took) + i
  {
    assert taken + (took + i) == (taken + took) + i;
    assert (taken + (took + i))[..|taken + h|] == taken + h;
  }

  /** Agent `t` makes none of the moves from `j` to `k`. */
  predicate Rests(moves: seq<Move>, j: nat, k: nat, t: nat)
    requires j <= k <= |moves|
  {
    forall i :: j <= i < k ==> moves[i].agent != t
  }

  lemma {:induction false} RestsWhereItIs(states: seq<State>, moves: seq<Move>, j: nat, k: nat, t: nat)
    requires IsRun(states, moves) && j <= k <= |moves| && Rests(moves, j, k, t)
    ensures AgentAt(states[k], t) == AgentAt(states[j], t)
    decreases k
  {
    hide Next, Known, Inv, Enabled;
    if j < k {
      RestsWhereItIs(states, moves, j, k - 1, t);
      StepOfRun(states, moves, k - 1);
      StepSends(states[k - 1], moves[k - 1].agent, moves[k - 1].action, t);
    }
  }

  /**
    A worker whose turn is over goes on with the queue that stands first in the global list, and puts
    its own behind all the others; with nobody waiting it keeps its own.
   */
  lemma TurnGoesRound(states: seq<State>, moves: seq<Move>, k: nat, j: nat, c: nat)
    requires IsRun(states, moves) && k < j < |moves| && AgentAt(states[k], moves[k].agent) == Finish(c)
    requires moves[j].agent == moves[k].agent && Rests(moves, k + 1, j, moves[k].agent)
    ensures var t := moves[k].agent;
            if states[k].global == [] then AgentAt(states[j], t) == Rel(c, Hold(c))
            else && AgentAt(states[j + 1], t) == Rel(c, Hold(states[k].global[0]))
                 && states[j + 1].global == states[j].global + [c]
  {
    StepOfRun(states, moves, k);
    RestsWhereItIs(states, moves, k + 1, j, moves[k].agent);
    StepOfRun(states, moves, j);
  }
}
