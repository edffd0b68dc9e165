/**
  From every state that a run can reach, steps of a queue's owner and of idle workers get a waiting
  message dispatched, and the queue of a deleted service freed: no message and no queue is ever stuck.
 */
module SchedulerProgress {
  import opened Common
  import opened MessageQueue
  import opened Scheduler
  import opened SchedulerProperties

  /** The moves lead from `s` to `s'`. */
  ghost predicate Leads(s: State, moves: seq<Move>, s': State)
    decreases |moves|
  {
    if moves == [] then s == s'
    else
      var m := moves[0];
      Enabled(s, m.agent, m.action) && Known(s, m.agent) && Leads(Next(s, m.agent, m.action), moves[1..], s')
  }

  /** The launch of `c` has failed: the agent is about to take it out of the handle table. */
  predicate Failing(a: Agent, c: nat) {
    match a
    case FailRetire(d) => d == c
    case Rel(_, next) => Failing(next, c)
    case Del(_, next) => Failing(next, c)
    case _ => false
  }

  /** The service is in use, or it is gone and only its queue is left. */
  ghost predicate Settled(s: State, c: nat) {
    && c in s.services
    && (s.services[c].deleted || (s.services[c].registered && forall t :: !Failing(AgentAt(s, t), c)))
  }

  /** The owner is about to take a message out, or to find out whether the queue can be freed. */
  predicate AtTurn(a: Agent, c: nat) {
    (a.Dispatch? || a.MqRelease? || a.Drop?) && a.c == c
  }

  /** The owner gives the queue to the global list before it comes to its turn. */
  predicate ByGlobal(a: Agent, c: nat) {
    match a
    case Init(_) => true
    case SetInit(_) => true
    case Publish(_) => true
    case Finish(_) => true
    case PutBack(d, _) => d == c
    case Rel(_, next) => ByGlobal(next, c)
    case Del(_, next) => ByGlobal(next, c)
    case _ => false
  }

  /** How far an owner is from there. */
  function Distance(a: Agent): nat {
    match a
    case Init(_) => 5
    case SetInit(_) => 2
    case Publish(_) => 1
    case FailRetire(_) => 1
    case Hold(_) => 1
    case Busy(_, _) => 1
    case Finish(_) => 5
    case PutBack(_, _) => 4
    case Rel(_, next) => 2 + Distance(next)
    case Del(_, next) => 1 + Distance(next)
    case _ => 0
  }

  /** Nothing happened to the messages of `c`, nor to its being in use. */
  predicate Same(s: State, s': State, c: nat) {
    && c in s.services && c in s'.services
    && s'.services[c].queue == s.services[c].queue
    && s'.services[c].pushed == s.services[c].pushed
    && s'.services[c].dispatched == s.services[c].dispatched
    && s'.services[c].registered == s.services[c].registered
    && s'.services[c].deleted == s.services[c].deleted
    && s'.services[c].live == s.services[c].live
  }

  /** What an owner of the queue does next. */
  function Drive(a: Agent): Action {
    match a
    case Init(_) => DoInit(true)
    case SetInit(_) => DoSetInit
    case Publish(_) => DoPublish
    case FailRetire(_) => DoFailRetire
    case Hold(_) => DoHold
    case Busy(_, _) => DoneMessage(true)
    case Finish(_) => DoFinish
    case PutBack(_, _) => DoPutBack
    case Del(_, _) => DoDelete
    case _ => DoRelease
  }

  lemma Unfold(a: Agent, c: nat)
    requires a.Rel? || a.Del?
    ensures HasToken(a, c) == HasToken(a.next, c) && ByGlobal(a, c) == ByGlobal(a.next, c)
    ensures Failing(a, c) == Failing(a.next, c) && Distance(a) == Distance(a.next) + if a.Rel? then 2 else 1
  {
  }

  /** A deleted service cannot be found any more. */
  lemma DeletedIsOut(s: State, c: nat)
    requires Inv(s) && c in s.services && s.services[c].deleted
    ensures !s.services[c].registered
  {
    assert CountsOk(s, c);
  }

  lemma DriveAllowed(s: State, t: nat, c: nat)
    requires Inv(s) && Settled(s, c) && HasToken(AgentAt(s, t), c) && !AtTurn(AgentAt(s, t), c)
    ensures Known(s, t) && Enabled(s, t, Drive(AgentAt(s, t)))
    ensures Same(s, Next(s, t, Drive(AgentAt(s, t))), c)
  {
    AgentKnown(s, t);
    Counted(s, t, c);
    var me := AgentAt(s, t);
    if me.Rel? || me.Del? {
      Counted(s, t, me.c);
    }
    hide RefHolders, TokenHolders, Deleters;
  }

  /** Its step brings the queue nearer to its turn, or into the global list. */
  lemma DriveNearer(s: State, t: nat, c: nat)
    requires Inv(s) && Settled(s, c) && HasToken(AgentAt(s, t), c) && !AtTurn(AgentAt(s, t), c)
    requires Known(s, t) && Enabled(s, t, Drive(AgentAt(s, t)))
    ensures var me, s' := AgentAt(s, t), Next(s, t, Drive(AgentAt(s, t)));
            || (ByGlobal(me, c) && c in s'.global)
            || (&& HasToken(AgentAt(s', t), c) && (ByGlobal(AgentAt(s', t), c) ==> ByGlobal(me, c))
                && Distance(AgentAt(s', t)) < Distance(me))
  {
    hide CountsOk;
    var me, s' := AgentAt(s, t), Next(s, t, Drive(AgentAt(s, t)));
    if s.services[c].deleted {
      DeletedIsOut(s, c);
    }
    if me.Rel? || me.Del? {
      Unfold(me, c);
      assert NextOk(me.next);
      if AgentAt(s', t).Del? {
        Unfold(AgentAt(s', t), c);
      }
    } else if AgentAt(s', t).Rel? {
      Unfold(AgentAt(s', t), c);
    }
  }

  lemma DriveSettles(s: State, t: nat, c: nat)
    requires Inv(s) && Settled(s, c) && HasToken(AgentAt(s, t), c) && !AtTurn(AgentAt(s, t), c)
    requires Known(s, t) && Enabled(s, t, Drive(AgentAt(s, t))) && Same(s, Next(s, t, Drive(AgentAt(s, t))), c)
    ensures Settled(Next(s, t, Drive(AgentAt(s, t))), c)
  {
    hide CountsOk;
    var me, s' := AgentAt(s, t), Next(s, t, Drive(AgentAt(s, t)));
    if !s.services[c].deleted {
      forall u ensures !Failing(AgentAt(s', u), c) {
        assert !Failing(AgentAt(s, u), c);
      }
    }
  }

  // ----- the way to the turn -----

  /** After a step that allows the rest. */
  lemma LeadsOn(s: State, t: nat, a: Action, moves: seq<Move>, s': State)
    requires Enabled(s, t, a) && Known(s, t) && Leads(Next(s, t, a), moves, s')
    ensures Leads(s, [Move(t, a)] + moves, s')
  {
    assert ([Move(t, a)] + moves)[1..] == moves;
  }

  /** An agent that has not done anything yet. */
  lemma {:induction false} FreshAgent(used: set<nat>) returns (t: nat)
    ensures forall u :: u in used ==> u < t
  {
    if used == {} {
      return 0;
    }
    var u :| u in used;
    var v := FreshAgent(used - {u});
    t := if u < v then v else u + 1;
    assert forall w :: w in used ==> w == u || w in used - {u};
  }

  /** A fresh worker takes the first queue of the list. */
  lemma TakeHead(s: State, c: nat, t: nat)
    requires Inv(s) && Settled(s, c) && c in s.global && t !in s.agents
    ensures Enabled(s, t, DoTake) && Known(s, t) && Inv(Next(s, t, DoTake))
    ensures var s' := Next(s, t, DoTake);
            && Same(s, s', c) && Settled(s', c) && s'.global == s.global[1..]
            && AgentAt(s', t) == Hold(s.global[0])
  {
    StepKeepsInv(s, t, DoTake);
    hide CountsOk;
    var s' := Next(s, t, DoTake);
    if !s.services[c].deleted {
      forall u ensures !Failing(AgentAt(s', u), c) {
        assert !Failing(AgentAt(s, u), c);
      }
    }
  }

  lemma SameTrans(s: State, s1: State, s2: State, c: nat)
    requires Same(s, s1, c) && Same(s1, s2, c)
    ensures Same(s, s2, c)
  {
  }

  /** An owner that does not give the queue away comes to its turn by its own steps. */
  lemma {:induction false} OwnerToTurn(s: State, t: nat, c: nat) returns (moves: seq<Move>, s': State)
    requires Inv(s) && Settled(s, c) && HasToken(AgentAt(s, t), c) && !ByGlobal(AgentAt(s, t), c)
    ensures Leads(s, moves, s') && Inv(s') && Same(s, s', c) && AtTurn(AgentAt(s', t), c)
    decreases Distance(AgentAt(s, t))
  {
    hide Next, Enabled, Known, Inv, Settled, HasToken, ByGlobal, Distance, Drive, AtTurn;
    if AtTurn(AgentAt(s, t), c) {
      SettledIsSame(s, c);
      return [], s;
    }
    DriveAllowed(s, t, c);
    DriveNearer(s, t, c);
    DriveSettles(s, t, c);
    var a := Drive(AgentAt(s, t));
    StepKeepsInv(s, t, a);
    moves, s' := OwnerToTurn(Next(s, t, a), t, c);
    LeadsOn(s, t, a, moves, s');
    SameTrans(s, Next(s, t, a), s', c);
    moves := [Move(t, a)] + moves;
  }

  lemma SettledIsSame(s: State, c: nat)
    requires Settled(s, c)
    ensures Same(s, s, c)
  {
  }

  /** From the global list: fresh workers take one queue after the other. */
  lemma {:induction false} GlobalToTurn(s: State, c: nat) returns (moves: seq<Move>, s': State, t: nat)
    requires Inv(s) && Settled(s, c) && c in s.global
    ensures Leads(s, moves, s') && Inv(s') && Same(s, s', c) && AtTurn(AgentAt(s', t), c)
    decreases |s.global|
  {
    hide Next, Enabled, Known, Inv, Settled, AtTurn;
    var u := FreshAgent(s.agents.Keys);
    TakeHead(s, c, u);
    var s1 := Next(s, u, DoTake);
    if s.global[0] == c {
      moves, s' := OwnerToTurn(s1, u, c);
      t := u;
    } else {
      moves, s', t := GlobalToTurn(s1, c);
    }
    LeadsOn(s, u, DoTake, moves, s');
    SameTrans(s, s1, s', c);
    moves := [Move(u, DoTake)] + moves;
  }

  /** An owner that gives the queue away first. */
  lemma {:induction false} AnyToTurn(s: State, u: nat, c: nat) returns (moves: seq<Move>, s': State, t: nat)
    requires Inv(s) && Settled(s, c) && HasToken(AgentAt(s, u), c)
    ensures Leads(s, moves, s') && Inv(s') && Same(s, s', c) && AtTurn(AgentAt(s', t), c)
    decreases Distance(AgentAt(s, u))
  {
    hide Next, Enabled, Known, Inv, Settled, HasToken, ByGlobal, Distance, Drive, AtTurn;
    if !ByGlobal(AgentAt(s, u), c) {
      moves, s' := OwnerToTurn(s, u, c);
      t := u;
      return;
    }
    TurnIsNotByGlobal(AgentAt(s, u), c);
    DriveAllowed(s, u, c);
    DriveNearer(s, u, c);
    DriveSettles(s, u, c);
    var a := Drive(AgentAt(s, u));
    StepKeepsInv(s, u, a);
    var s1 := Next(s, u, a);
    if c in s1.global {
      moves, s', t := GlobalToTurn(s1, c);
    } else {
      moves, s', t := AnyToTurn(s1, u, c);
    }
    LeadsOn(s, u, a, moves, s');
    SameTrans(s, s1, s', c);
    moves := [Move(u, a)] + moves;
  }

  lemma TurnIsNotByGlobal(a: Agent, c: nat)
    requires ByGlobal(a, c)
    ensures !AtTurn(a, c)
  {
  }

  /** A settled service whose queue has an owner comes to its turn. */
  lemma ToTurn(s: State, c: nat) returns (moves: seq<Move>, s': State, t: nat)
    requires Inv(s) && Settled(s, c) && HasOwner(s, c)
    ensures Leads(s, moves, s') && Inv(s') && Same(s, s', c) && AtTurn(AgentAt(s', t), c)
  {
    hide Inv, Settled, HasToken, AtTurn;
    if c in s.global {
      moves, s', t := GlobalToTurn(s, c);
    } else {
      var u :| HasToken(AgentAt(s, u), c);
      moves, s', t := AnyToTurn(s, u, c);
    }
  }

  // ----- the two results -----

  lemma {:induction false} LeadsFurther(s: State, moves: seq<Move>, s1: State, t: nat, a: Action)
    requires Leads(s, moves, s1) && Enabled(s1, t, a) && Known(s1, t)
    ensures Leads(s, moves + [Move(t, a)], Next(s1, t, a))
    decreases |moves|
  {
    hide Next, Enabled, Known;
    if moves == [] {
      LeadsOn(s, t, a, [], Next(s, t, a));
      assert [] + [Move(t, a)] == [Move(t, a)] + [];
    } else {
      var m := moves[0];
      LeadsFurther(Next(s, m.agent, m.action), moves[1..], s1, t, a);
      assert (moves + [Move(t, a)])[1..] == moves[1..] + [Move(t, a)];
    }
  }

  /**
    Whenever a message waits in the queue of a service that can be found and whose launch has not
    failed, there are steps after which a worker has the oldest one.
   */
  lemma CanDispatch(states: seq<State>, run: seq<Move>, k: nat, c: nat) returns (moves: seq<Move>, s': State, t: nat)
    requires IsRun(states, run) && k < |states|
    requires Registered(states[k], c) && (forall u :: !Failing(AgentAt(states[k], u), c))
    requires states[k].services[c].queue.msgs != []
    ensures Leads(states[k], moves, s')
    ensures AgentAt(s', t) == Busy(c, states[k].services[c].queue.msgs[0])
    ensures c in s'.services && s'.services[c].queue.msgs == states[k].services[c].queue.msgs[1..]
  {
    var s := states[k];
    RunsKeepInv(states, run, k);
    TokenExactly(states, run, k, c);
    assert CountsOk(s, c);
    var s1;
    moves, s1, t := ToTurn(s, c);
    TurnIsDispatch(s1, t, c);
    LeadsFurther(s, moves, s1, t, DoPop);
    moves, s' := moves + [Move(t, DoPop)], Next(s1, t, DoPop);
  }

  lemma TurnIsDispatch(s: State, t: nat, c: nat)
    requires Inv(s) && AtTurn(AgentAt(s, t), c) && Registered(s, c)
    ensures AgentAt(s, t) == Dispatch(c) && Enabled(s, t, DoPop) && Known(s, t)
  {
    hide CountsOk;
  }

  /** The last owner of the queue of a deleted service takes out what is left and frees it. */
  lemma {:induction false} DropAll(s: State, moves: seq<Move>, s1: State, t: nat, c: nat) returns (more: seq<Move>, s': State)
    requires Leads(s, moves, s1) && Inv(s1) && AgentAt(s1, t) == Drop(c) && c in s1.services
    ensures Leads(s, more, s') && c in s'.services && !s'.services[c].live
    decreases |s1.services[c].queue.msgs|
  {
    var m := Move(t, DoDrop);
    LeadsFurther(s, moves, s1, t, DoDrop);
    StepKeepsInv(s1, t, DoDrop);
    more, s' := moves + [m], Next(s1, t, DoDrop);
    if s1.services[c].queue.msgs != [] {
      more, s' := DropAll(s, more, s', t, c);
    }
  }

  /** Whenever a deleted service still has its queue, there are steps after which the queue is freed. */
  lemma CanFree(states: seq<State>, run: seq<Move>, k: nat, c: nat) returns (moves: seq<Move>, s': State)
    requires IsRun(states, run) && k < |states|
    requires c in states[k].services && states[k].services[c].deleted && states[k].services[c].live
    ensures Leads(states[k], moves, s') && c in s'.services && !s'.services[c].live
  {
    var s := states[k];
    RunsKeepInv(states, run, k);
    TokenExactly(states, run, k, c);
    assert CountsOk(s, c);
    var t;
    moves, s', t := ToTurn(s, c);
    TurnIsRelease(s', t, c);
    if AgentAt(s', t).MqRelease? {
      LeadsFurther(s, moves, s', t, DoMqRelease);
      StepKeepsInv(s', t, DoMqRelease);
      moves, s' := moves + [Move(t, DoMqRelease)], Next(s', t, DoMqRelease);
    }
    moves, s' := DropAll(s, moves, s', t, c);
  }

  lemma TurnIsRelease(s: State, t: nat, c: nat)
    requires Inv(s) && AtTurn(AgentAt(s, t), c) && c in s.services && s.services[c].deleted
    ensures Known(s, t) && s.services[c].queue.release
    ensures AgentAt(s, t) == MqRelease(c) || AgentAt(s, t) == Drop(c)
  {
    AgentKnown(s, t);
    Counted(s, t, c);
  }
}
