/**
  What the scheduler guarantees in every run, for any number of agents and services.
 */
module SchedulerProperties {
  import opened Scheduler

  datatype Move = Move(agent: nat, action: Action)

  /** One step of one agent. */
  predicate IsStep(s: State, m: Move, s': State) {
    Enabled(s, m.agent, m.action) && (Known(s, m.agent) ==> s' == Next(s, m.agent, m.action))
  }

  ghost predicate IsRun(states: seq<State>, moves: seq<Move>) {
    && |states| == |moves| + 1
    && states[0] == Start()
    && forall k :: 0 <= k < |moves| ==> IsStep(states[k], moves[k], states[k + 1])
  }

  /** The invariant holds in every state of every run. */
  lemma {:induction false} RunsKeepInv(states: seq<State>, moves: seq<Move>, k: nat)
    requires IsRun(states, moves) && k < |states|
    ensures Inv(states[k])
    decreases k
  {
    if k == 0 {
      StartOk();
    } else {
      RunsKeepInv(states, moves, k - 1);
      assert IsStep(states[k - 1], moves[k - 1], states[k]);
      AgentKnown(states[k - 1], moves[k - 1].agent);
      StepKeepsInv(states[k - 1], moves[k - 1].agent, moves[k - 1].action);
    }
  }

  // ----- one owner -----

  /** The agent runs code of service `c`: it has taken it from its queue and not finished with it. */
  predicate Dispatching(a: Agent, c: nat) {
    (a.Dispatch? || a.Busy? || a.Finish? || a.PutBack?) && a.c == c
  }

  /** A queue has at most one owner, and an owned queue is not in the global list. */
  lemma OneOwner(states: seq<State>, moves: seq<Move>, k: nat, t: nat, u: nat, c: nat)
    requires IsRun(states, moves) && k < |states|
    requires HasToken(AgentAt(states[k], t), c)
    ensures c in states[k].services && c !in states[k].global
    ensures HasToken(AgentAt(states[k], u), c) ==> t == u
  {
    var s := states[k];
    RunsKeepInv(states, moves, k);
    AgentKnown(s, t);
    AgentKnown(s, u);
    Counted(s, t, c);
    if HasToken(AgentAt(s, u), c) && t != u {
      assert {t, u} <= TokenHolders(s, c);
      SubsetSize({t, u}, TokenHolders(s, c));
    }
  }

  lemma SubsetSize(a: set<nat>, b: set<nat>)
    requires a <= b
    ensures |a| <= |b|
  {
    assert b == a + (b - a);
  }

  /** Two workers never dispatch the same service at once. */
  lemma MutualExclusion(states: seq<State>, moves: seq<Move>, k: nat, t: nat, u: nat, c: nat)
    requires IsRun(states, moves) && k < |states|
    requires Dispatching(AgentAt(states[k], t), c) && Dispatching(AgentAt(states[k], u), c)
    ensures t == u
  {
    OneOwner(states, moves, k, t, u, c);
  }

  // ----- the token -----

  ghost predicate HasOwner(s: State, c: nat) {
    c in s.global || exists t :: HasToken(AgentAt(s, t), c)
  }

  /** A live queue is in the global list or owned exactly when one of its flags says so; without an owner it is empty. */
  lemma TokenExactly(states: seq<State>, moves: seq<Move>, k: nat, c: nat)
    requires IsRun(states, moves) && k < |states| && c in states[k].services
    ensures var s, v := states[k], states[k].services[c];
            && (v.live ==> (HasOwner(s, c) <==> v.queue.inGlobal || v.queue.release))
            && (v.live && v.queue.msgs != [] ==> HasOwner(s, c))
            && (!v.live ==> !HasOwner(s, c) && v.queue.msgs == [])
            && InGlobal(s.global, c) <= 1
  {
    var s := states[k];
    RunsKeepInv(states, moves, k);
    assert CountsOk(s, c);
    if exists t :: HasToken(AgentAt(s, t), c) {
      var t :| HasToken(AgentAt(s, t), c);
      assert t in TokenHolders(s, c);
    }
    if TokenHolders(s, c) != {} {
      var t :| t in TokenHolders(s, c);
      assert HasToken(AgentAt(s, t), c);
    }
  }

  // ----- messages -----

  /** The messages dispatched are a prefix of those pushed; once the queue is freed, the rest was dropped. */
  lemma MessagesInOrder(states: seq<State>, moves: seq<Move>, k: nat, c: nat)
    requires IsRun(states, moves) && k < |states| && c in states[k].services
    ensures var v := states[k].services[c];
            && v.dispatched <= v.pushed
            && v.pushed == v.dispatched + v.dropped + v.queue.msgs
            && (!v.live ==> v.pushed == v.dispatched + v.dropped)
            && (v.dropped != [] ==> v.queue.release)
  {
    RunsKeepInv(states, moves, k);
    assert CountsOk(states[k], c);
    var v := states[k].services[c];
    assert v.dispatched + v.dropped + v.queue.msgs == v.dispatched + (v.dropped + v.queue.msgs);
  }

  // ----- memory -----

  /** The agent may read or write the queue of `c`. */
  predicate TouchesQueue(a: Agent, c: nat) {
    HasToken(a, c) || HasRef(a, c) || IsDeleting(a, c)
  }

  /** No agent has a freed queue, and no agent has a reference to a deleted context. */
  lemma NothingFreedInUse(states: seq<State>, moves: seq<Move>, k: nat, t: nat, c: nat)
    requires IsRun(states, moves) && k < |states|
    ensures TouchesQueue(AgentAt(states[k], t), c) ==> c in states[k].services && states[k].services[c].live
    ensures HasRef(AgentAt(states[k], t), c) ==> c in states[k].services && !states[k].services[c].deleted
  {
    RunsKeepInv(states, moves, k);
    AgentKnown(states[k], t);
    Counted(states[k], t, c);
  }

  /** A context is deleted or being deleted exactly when nobody refers to it. */
  lemma ReferencesExact(states: seq<State>, moves: seq<Move>, k: nat, c: nat)
    requires IsRun(states, moves) && k < |states| && c in states[k].services
    ensures var s, v := states[k], states[k].services[c];
            && v.refs == |RefHolders(s, c)| + One(v.registered)
            && (v.deleted || Deleters(s, c) != {} <==> !v.registered && RefHolders(s, c) == {})
            && |Deleters(s, c)| <= 1 && (v.deleted ==> Deleters(s, c) == {})
  {
    RunsKeepInv(states, moves, k);
    assert CountsOk(states[k], c);
  }

  /** One step leaves a freed service as it is. */
  lemma FreedFrozen(s: State, t: nat, a: Action, c: nat)
    requires Inv(s) && Enabled(s, t, a) && Known(s, t) && c in s.services && !s.services[c].live
    ensures c in Next(s, t, a).services && Next(s, t, a).services[c] == s.services[c]
  {
    Counted(s, t, c);
  }

  /** A queue is freed once: from then on nothing happens to it. */
  lemma {:induction false} FreedForGood(states: seq<State>, moves: seq<Move>, j: nat, k: nat, c: nat)
    requires IsRun(states, moves) && j <= k < |states|
    requires c in states[j].services && !states[j].services[c].live
    ensures c in states[k].services && states[k].services[c] == states[j].services[c]
    decreases k
  {
    if j < k {
      FreedForGood(states, moves, j, k - 1, c);
      RunsKeepInv(states, moves, k - 1);
      assert IsStep(states[k - 1], moves[k - 1], states[k]);
      AgentKnown(states[k - 1], moves[k - 1].agent);
      FreedFrozen(states[k - 1], moves[k - 1].agent, moves[k - 1].action, c);
    }
  }

  // ----- the assertions of the code -----

  ghost predicate NoneTwice(global: seq<nat>) {
    forall c: nat :: InGlobal(global, c) <= 1
  }

  /** The asserts in skynet_mq.c and skynet_server.c hold whenever they are reached. */
  lemma AssertionsHold(states: seq<State>, moves: seq<Move>, k: nat)
    requires IsRun(states, moves) && k < |moves|
    ensures var s, m := states[k], moves[k];
            var me := AgentAt(s, m.agent);
            && Enabled(s, m.agent, m.action) && Known(s, m.agent)
            // skynet_mq_mark_release: assert(q->release == 0)
            && (m.action.DoDelete? ==> !s.services[me.c].queue.release)
            // dispatch_message: assert(ctx->init)
            && (m.action.DoPop? || m.action.DoneMessage? ==> s.services[me.c].init)
            // skynet_globalmq_push: assert(queue->next == NULL), the queue is not in the list yet
            && NoneTwice(states[k + 1].global)
  {
    var s, m := states[k], moves[k];
    RunsKeepInv(states, moves, k);
    RunsKeepInv(states, moves, k + 1);
    AgentKnown(s, m.agent);
    if m.action.DoDelete? {
      Counted(s, m.agent, AgentAt(s, m.agent).c);
    }
    assert IsStep(s, m, states[k + 1]);
    var s' := states[k + 1];
    forall c: nat ensures InGlobal(s'.global, c) <= 1 {
      assert CountsOk(s', c);
    }
  }

  // ----- the launch and a context that goes away -----

  /**
    skynet_context_new gives its reference back before it sets ctx->init. If the service is retired
    in between and nobody else refers to it, the context is deleted by the time of the write.
   */
  lemma InitMayComeLate() returns (states: seq<State>, moves: seq<Move>)
    ensures IsRun(states, moves)
    ensures AgentAt(states[|moves|], 0) == SetInit(7) && 7 in states[|moves|].services
    ensures states[|moves|].services[7].deleted
  {
    var s0 := Start();
    var s1 := Next(s0, 0, DoLaunch(7));
    var s2 := Next(s1, 0, DoInit(true));
    var s3 := Next(s2, 0, DoRelease);
    var s4 := Next(s3, 1, DoRetire(7));
    var s5 := Next(s4, 1, DoRelease);
    var s6 := Next(s5, 1, DoDelete);
    states := [s0, s1, s2, s3, s4, s5, s6];
    moves := [Move(0, DoLaunch(7)), Move(0, DoInit(true)), Move(0, DoRelease),
              Move(1, DoRetire(7)), Move(1, DoRelease), Move(1, DoDelete)];
    assert IsStep(s0, moves[0], s1) && IsStep(s1, moves[1], s2);
    assert AgentAt(s3, 0) == SetInit(7) && s3.services[7].refs == 1 && IsStep(s2, moves[2], s3);
    assert AgentAt(s4, 1) == Rel(7, Idle) && IsStep(s3, moves[3], s4);
    assert AgentAt(s5, 1) == Del(7, Idle) && IsStep(s4, moves[4], s5);
    assert AgentAt(s6, 0) == SetInit(7) && IsStep(s5, moves[5], s6);
    hide Next, Enabled, Known;
  }

  /** The write of ctx->init finds its context in place exactly if the table or some agent still refers to it. */
  lemma InitInTimeIff(states: seq<State>, moves: seq<Move>, k: nat, t: nat)
    requires IsRun(states, moves) && k < |states| && AgentAt(states[k], t).SetInit?
    ensures var s, c := states[k], AgentAt(states[k], t).c;
            && c in s.services
            && (!s.services[c].deleted && Deleters(s, c) == {} <==> s.services[c].registered || RefHolders(s, c) != {})
  {
    RunsKeepInv(states, moves, k);
    AgentKnown(states[k], t);
    ReferencesExact(states, moves, k, AgentAt(states[k], t).c);
  }
}
