/**
  The life of services: launching, sending, dispatching and retiring, by any number of agents at
  once. An agent is one activity of a thread (a launch, a send, a retirement, a worker); calls made
  from inside another activity are agents of their own. Every lock-protected section and every
  atomic reference count update is one step, so a run is a list of such steps in any interleaving.

  A service has one number, which stands for its handle, its context and its queue.
 */
module Scheduler {
  import opened Common
  import opened MessageQueue

  /** A service: the context with its reference count, the queue, and what happened to its messages. */
  datatype Service = Service(
    refs: int,                // ctx->ref
    registered: bool,         // in the handle table
    deleted: bool,            // delete_context is through
    init: bool,               // ctx->init
    queue: Queue,
    live: bool,               // the queue is not freed
    pushed: seq<Message>,     // every message ever pushed
    dispatched: seq<Message>, // taken out by workers
    dropped: seq<Message>     // taken out while the queue was released
  )

  /** Where an agent stands. In `Rel` and `Del` it goes on as `next` afterwards. */
  datatype Agent =
    | Idle
    // skynet_context_new
    | Init(c: nat) | SetInit(c: nat) | Publish(c: nat) | FailRetire(c: nat)
    // skynet_mq_release and _drop_queue
    | MqRelease(c: nat) | Drop(c: nat)
    // skynet_context_push
    | Send(c: nat, m: Message)
    // skynet_context_message_dispatch
    | Hold(c: nat) | Dispatch(c: nat) | Busy(c: nat, m: Message) | Finish(c: nat) | PutBack(c: nat, d: nat)
    // skynet_context_release, and delete_context once the count is 0
    | Rel(c: nat, next: Agent) | Del(c: nat, next: Agent)

  datatype State = State(services: map<nat, Service>, global: seq<nat>, agents: map<nat, Agent>)

  function AgentAt(s: State, t: nat): Agent {
    if t in s.agents then s.agents[t] else Idle
  }

  // ----- who holds what -----

  /** The agent owns one reference to the context of `c`. */
  predicate HasRef(a: Agent, c: nat) {
    match a
    case Init(d) => d == c
    case Send(d, _) => d == c
    case Dispatch(d) => d == c
    case Busy(d, _) => d == c
    case Finish(d) => d == c
    case PutBack(d, _) => d == c
    case Rel(d, _) => d == c
    case _ => false
  }

  /** The agent owns the queue of `c`: nobody else may take messages out of it. */
  predicate HasToken(a: Agent, c: nat) {
    match a
    case Idle => false
    case Send(_, _) => false
    case PutBack(d, e) => d == c || e == c
    case Rel(_, next) => HasToken(next, c)
    case Del(_, next) => HasToken(next, c)
    case _ => a.c == c
  }

  /** The agent has brought the count of `c` to 0 and is about to delete it. */
  predicate IsDeleting(a: Agent, c: nat) {
    a.Del? && a.c == c
  }

  // ----- steps -----

  datatype Action =
    | DoLaunch(c: nat)
    | DoInit(ok: bool)
    | DoSetInit
    | DoPublish
    | DoFailRetire
    | DoMqRelease
    | DoDrop
    | DoGrab(c: nat, m: Message)
    | DoPush(really: bool)
    | DoRetire(c: nat)
    | DoTake
    | DoHold
    | DoPop
    | DoneMessage(more: bool)
    | DoFinish
    | DoPutBack
    | DoRelease
    | DoDelete

  predicate Registered(s: State, c: nat) {
    c in s.services && s.services[c].registered
  }

  /** Which action an agent can take where it stands. */
  predicate Enabled(s: State, t: nat, a: Action) {
    var me := AgentAt(s, t);
    match a
    case DoLaunch(c) => me.Idle? && c !in s.services
    case DoInit(_) => me.Init?
    case DoSetInit => me.SetInit?
    case DoPublish => me.Publish?
    case DoFailRetire => me.FailRetire?
    case DoMqRelease => me.MqRelease?
    case DoDrop => me.Drop?
    case DoGrab(c, _) => me.Idle? && Registered(s, c)
    case DoPush(_) => me.Send?
    case DoRetire(c) => me.Idle? && Registered(s, c)
    case DoTake => me.Idle? && s.global != []
    case DoHold => me.Hold?
    case DoPop => me.Dispatch?
    case DoneMessage(_) => me.Busy?
    case DoFinish => me.Finish?
    case DoPutBack => me.PutBack?
    case DoRelease => me.Rel?
    case DoDelete => me.Del?
  }

  /** The service an agent works on. */
  predicate Known(s: State, t: nat) {
    AgentAt(s, t).Idle? || AgentAt(s, t).c in s.services
  }

  function Created(): Service {
    Service(2, true, false, false, MessageQueue.Created(), true, [], [], [])
  }

  function To(s: State, t: nat, a: Agent): State {
    s.(agents := s.agents[t := a])
  }

  function With(s: State, c: nat, v: Service): State {
    s.(services := s.services[c := v])
  }

  function Enqueue(s: State, c: nat): State {
    s.(global := s.global + [c])
  }

  /** After a launch whose context is gone already, ctx->init is not set. */
  function WhenGone(next: Agent): Agent {
    if next.SetInit? then Publish(next.c) else next
  }

  function Next(s: State, t: nat, a: Action): State
    requires Enabled(s, t, a) && Known(s, t)
  {
    var me := AgentAt(s, t);
    match a
    case DoLaunch(c) => To(With(s, c, Created()), t, Init(c))
    case DoInit(ok) => To(s, t, Rel(me.c, if ok then SetInit(me.c) else FailRetire(me.c)))
    case DoSetInit => To(With(s, me.c, s.services[me.c].(init := true)), t, Publish(me.c))
    case DoPublish => To(Enqueue(s, me.c), t, Idle)
    case DoFailRetire =>
      if s.services[me.c].registered then
        To(With(s, me.c, s.services[me.c].(registered := false)), t, Rel(me.c, MqRelease(me.c)))
      else To(s, t, MqRelease(me.c))
    case DoMqRelease =>
      if s.services[me.c].queue.release then To(s, t, Drop(me.c)) else To(Enqueue(s, me.c), t, Idle)
    case DoDrop =>
      var v := s.services[me.c];
      var (q, m) := Pop(v.queue);
      if m.Some? then To(With(s, me.c, v.(queue := q, dropped := v.dropped + [m.value])), t, Drop(me.c))
      else To(With(s, me.c, v.(queue := q, live := false)), t, Idle)
    case DoGrab(c, m) => To(With(s, c, s.services[c].(refs := s.services[c].refs + 1)), t, Send(c, m))
    case DoPush(really) =>
      if really then
        var v := s.services[me.c];
        var (q, toGlobal) := Push(v.queue, me.m);
        var s1 := With(s, me.c, v.(queue := q, pushed := v.pushed + [me.m]));
        To(if toGlobal then Enqueue(s1, me.c) else s1, t, Rel(me.c, Idle))
      else To(s, t, Rel(me.c, Idle))
    case DoRetire(c) => To(With(s, c, s.services[c].(registered := false)), t, Rel(c, Idle))
    case DoTake => To(s.(global := s.global[1..]), t, Hold(s.global[0]))
    case DoHold =>
      if s.services[me.c].registered then
        To(With(s, me.c, s.services[me.c].(refs := s.services[me.c].refs + 1)), t, Dispatch(me.c))
      else To(s, t, MqRelease(me.c))
    case DoPop =>
      var v := s.services[me.c];
      var (q, m) := Pop(v.queue);
      if m.Some? then To(With(s, me.c, v.(queue := q, dispatched := v.dispatched + [m.value])), t, Busy(me.c, m.value))
      else To(With(s, me.c, v.(queue := q)), t, Rel(me.c, Idle))
    case DoneMessage(more) => To(s, t, if more then Dispatch(me.c) else Finish(me.c))
    case DoFinish =>
      if s.global == [] then To(s, t, Rel(me.c, Hold(me.c)))
      else To(s.(global := s.global[1..]), t, PutBack(me.c, s.global[0]))
    case DoPutBack => To(Enqueue(s, me.c), t, Rel(me.c, Hold(me.d)))
    case DoRelease =>
      var v := s.services[me.c];
      To(With(s, me.c, v.(refs := v.refs - 1)), t, if v.refs == 1 then Del(me.c, WhenGone(me.next)) else me.next)
    case DoDelete =>
      var v := s.services[me.c];
      var (q, toGlobal) := MarkRelease(v.queue);
      var s1 := With(s, me.c, v.(queue := q, deleted := true));
      To(if toGlobal then Enqueue(s1, me.c) else s1, t, me.next)
  }

  // ----- counting -----

  ghost function RefHolders(s: State, c: nat): set<nat> {
    set t | t in s.agents && HasRef(s.agents[t], c)
  }

  ghost function TokenHolders(s: State, c: nat): set<nat> {
    set t | t in s.agents && HasToken(s.agents[t], c)
  }

  ghost function Deleters(s: State, c: nat): set<nat> {
    set t | t in s.agents && IsDeleting(s.agents[t], c)
  }

  function InGlobal(global: seq<nat>, c: nat): nat {
    multiset(global)[c]
  }

  function One(b: bool): nat {
    if b then 1 else 0
  }

  /** Moving one agent changes each count by that agent alone. */
  lemma CountMoves(s: State, t: nat, a: Agent, c: nat)
    ensures |RefHolders(To(s, t, a), c)| == |RefHolders(s, c)| - One(HasRef(AgentAt(s, t), c)) + One(HasRef(a, c))
    ensures |TokenHolders(To(s, t, a), c)| == |TokenHolders(s, c)| - One(HasToken(AgentAt(s, t), c)) + One(HasToken(a, c))
    ensures |Deleters(To(s, t, a), c)| == |Deleters(s, c)| - One(IsDeleting(AgentAt(s, t), c)) + One(IsDeleting(a, c))
  {
    var s' := To(s, t, a);
    SetMoves(RefHolders(s, c), RefHolders(s', c), t);
    SetMoves(TokenHolders(s, c), TokenHolders(s', c), t);
    SetMoves(Deleters(s, c), Deleters(s', c), t);
  }

  lemma SetMoves(a: set<nat>, b: set<nat>, t: nat)
    requires a - {t} == b - {t}
    ensures |b| == |a| - One(t in a) + One(t in b)
  {
    if t in a {
      assert a == (a - {t}) + {t};
    } else {
      assert a == a - {t};
    }
    if t in b {
      assert b == (b - {t}) + {t};
    } else {
      assert b == b - {t};
    }
  }

  // ----- the invariant -----

  /** What holds of one service, given who refers to it. */
  predicate ServiceOk(v: Service, refHolders: nat, tokenHolders: nat, deleters: nat, inGlobal: nat) {
    // the count is the table's reference and those of the agents
    && v.refs == One(v.registered) + refHolders
    // a count of 0 has exactly one agent that deletes the context, once
    && deleters == One(v.refs == 0 && !v.deleted)
    && (v.deleted ==> v.refs == 0)
    && v.queue.release == v.deleted
    // the token
    && tokenHolders + inGlobal == One(v.live && (v.queue.inGlobal || v.queue.release))
    && (v.live && !v.queue.inGlobal && !v.queue.release ==> v.queue.msgs == [])
    && (!v.live ==> v.deleted && v.queue.msgs == [])
    && (!v.queue.inGlobal && !v.queue.release ==> Launched(v))
    // every message is dispatched, dropped or waiting, in this order
    && v.pushed == v.dispatched + v.dropped + v.queue.msgs
    && (v.dropped != [] ==> v.deleted)
  }

  /** The launch of `c` is not through: its queue has not been given to the workers. */
  predicate Launching(a: Agent, c: nat) {
    match a
    case Init(d) => d == c
    case SetInit(d) => d == c
    case FailRetire(d) => d == c
    case Rel(_, next) => Launching(next, c)
    case Del(_, next) => Launching(next, c)
    case _ => false
  }

  /** What an agent relies on. */
  predicate AgentOk(s: State, a: Agent)
  {
    match a
    case Idle => true
    case Rel(c, next) => c in s.services && NextOk(next) && AgentOk(s, next) && (next.SetInit? ==> next.c == c)
    case Del(c, next) => c in s.services && NextOk(next) && AgentOk(s, next) && !next.SetInit?
    case MqRelease(c) => c in s.services && !s.services[c].registered
    case Drop(c) => c in s.services && s.services[c].deleted && !s.services[c].registered
    case PutBack(c, d) => c in s.services && d in s.services && c != d
    // assert(ctx->init)
    case Dispatch(c) => c in s.services && s.services[c].init
    case Busy(c, _) => c in s.services && s.services[c].init
    case _ => a.c in s.services
  }

  /** How an agent may go on after a release. */
  predicate NextOk(a: Agent) {
    a.Idle? || a.Hold? || a.SetInit? || a.Publish? || a.FailRetire? || a.MqRelease?
  }

  /** A queue outside its launch belongs to an initialised service, or to one that cannot be found. */
  predicate Launched(v: Service) {
    v.registered ==> v.init
  }

  ghost predicate CountsOk(s: State, c: nat)
  {
    if c in s.services then
      ServiceOk(s.services[c], |RefHolders(s, c)|, |TokenHolders(s, c)|, |Deleters(s, c)|, InGlobal(s.global, c))
    else RefHolders(s, c) == {} && TokenHolders(s, c) == {} && Deleters(s, c) == {} && c !in s.global
  }

  ghost predicate Inv(s: State) {
    && (forall c: nat :: CountsOk(s, c))
    && (forall t :: t in s.agents ==> AgentOk(s, s.agents[t]))
    && (forall c :: c in s.global ==> c in s.services && Launched(s.services[c]))
    && (forall t, c :: t in s.agents && c in s.services && HasToken(s.agents[t], c) && !Launching(s.agents[t], c) ==>
          Launched(s.services[c]))
  }

  function Start(): State {
    State(map[], [], map[])
  }

  lemma StartOk()
    ensures Inv(Start())
  {
  }

  // ----- every step keeps the invariant -----

  /** Services never come back into the table, and what is deleted or initialised stays so. */
  predicate Evolves(s: State, s': State) {
    forall c :: c in s.services ==>
      && c in s'.services
      && (s'.services[c].registered ==> s.services[c].registered)
      && (s.services[c].deleted ==> s'.services[c].deleted)
      && (s.services[c].init ==> s'.services[c].init)
  }

  lemma {:induction false} AgentStaysOk(s: State, s': State, a: Agent)
    requires Evolves(s, s') && AgentOk(s, a)
    ensures AgentOk(s', a)
    decreases a
  {
    match a
    case Rel(_, next) => AgentStaysOk(s, s', next);
    case Del(_, next) => AgentStaysOk(s, s', next);
    case _ =>
  }

  /** What remains to be shown for a step of agent `t` that leaves it at `a`. */
  lemma StepOk(s: State, t: nat, a: Agent, s': State)
    requires Inv(s) && Evolves(s, s') && s'.agents == s.agents[t := a]
    requires AgentOk(s', a)
    requires forall c: nat :: CountsOk(s', c)
    requires forall c :: c in s'.global && c !in s.global ==> c in s'.services && Launched(s'.services[c])
    requires forall c :: c in s'.services && HasToken(a, c) && !Launching(a, c) ==> Launched(s'.services[c])
    ensures Inv(s')
  {
    hide CountsOk, Launched;
    forall u | u in s'.agents ensures AgentOk(s', s'.agents[u]) {
      if u != t {
        AgentStaysOk(s, s', s.agents[u]);
      }
    }
    forall c | c in s'.global ensures c in s'.services && Launched(s'.services[c]) {
      if c in s.global {
        LaunchedStays(s, s', c);
      }
    }
    forall u, c | u in s'.agents && c in s'.services && HasToken(s'.agents[u], c) && !Launching(s'.agents[u], c)
      ensures Launched(s'.services[c])
    {
      if u != t {
        TokenKnown(s, u, c);
        LaunchedStays(s, s', c);
      }
    }
  }

  lemma LaunchedStays(s: State, s': State, c: nat)
    requires Evolves(s, s') && c in s.services && Launched(s.services[c])
    ensures Launched(s'.services[c])
  {
  }

  /** Only known services have token holders. */
  lemma TokenKnown(s: State, u: nat, c: nat)
    requires Inv(s) && u in s.agents && HasToken(s.agents[u], c)
    ensures c in s.services
  {
    assert CountsOk(s, c);
    assert u in TokenHolders(s, c);
  }

  /** The counts of a service none of whose holders moved. */
  lemma OthersOk(s: State, t: nat, a: Agent, s': State, c: nat)
    requires CountsOk(s, c) && s'.agents == s.agents[t := a]
    requires c in s.services <==> c in s'.services
    requires c in s.services ==> s'.services[c] == s.services[c]
    requires HasRef(AgentAt(s, t), c) == HasRef(a, c)
    requires HasToken(AgentAt(s, t), c) == HasToken(a, c)
    requires IsDeleting(AgentAt(s, t), c) == IsDeleting(a, c)
    requires InGlobal(s'.global, c) == InGlobal(s.global, c)
    ensures CountsOk(s', c)
  {
    HolderSets(s, t, a, s', c);
  }

  lemma HolderSets(s: State, t: nat, a: Agent, s': State, c: nat)
    requires s'.agents == s.agents[t := a]
    ensures |RefHolders(s', c)| == |RefHolders(s, c)| - One(HasRef(AgentAt(s, t), c)) + One(HasRef(a, c))
    ensures |TokenHolders(s', c)| == |TokenHolders(s, c)| - One(HasToken(AgentAt(s, t), c)) + One(HasToken(a, c))
    ensures |Deleters(s', c)| == |Deleters(s, c)| - One(IsDeleting(AgentAt(s, t), c)) + One(IsDeleting(a, c))
  {
    CountMoves(s, t, a, c);
    var u := To(s, t, a);
    assert RefHolders(s', c) == RefHolders(u, c);
    assert TokenHolders(s', c) == TokenHolders(u, c);
    assert Deleters(s', c) == Deleters(u, c);
  }

  /** A holder is counted. */
  lemma Counted(s: State, t: nat, c: nat)
    requires Inv(s) && Known(s, t)
    ensures CountsOk(s, c)
    ensures HasRef(AgentAt(s, t), c) ==> |RefHolders(s, c)| > 0 && c in s.services
    ensures HasToken(AgentAt(s, t), c) ==> |TokenHolders(s, c)| > 0 && c in s.services
    ensures IsDeleting(AgentAt(s, t), c) ==> |Deleters(s, c)| > 0 && c in s.services
  {
    assert CountsOk(s, c);
    if HasRef(AgentAt(s, t), c) { assert t in RefHolders(s, c); }
    if HasToken(AgentAt(s, t), c) { assert t in TokenHolders(s, c); }
    if IsDeleting(AgentAt(s, t), c) { assert t in Deleters(s, c); }
  }

  /** An agent never works on a service that was not created. */
  lemma AgentKnown(s: State, t: nat)
    requires Inv(s)
    ensures Known(s, t)
  {
  }

  lemma LaunchOk(s: State, t: nat, c: nat)
    requires Inv(s) && Enabled(s, t, DoLaunch(c))
    ensures Inv(Next(s, t, DoLaunch(c)))
  {
    var s' := Next(s, t, DoLaunch(c));
    forall d: nat ensures CountsOk(s', d) {
      Counted(s, t, d);
      HolderSets(s, t, Init(c), s', d);
    }
    StepOk(s, t, Init(c), s');
  }

  lemma InitOk(s: State, t: nat, ok: bool)
    requires Inv(s) && Enabled(s, t, DoInit(ok)) && Known(s, t)
    ensures Inv(Next(s, t, DoInit(ok)))
  {
    var s', me := Next(s, t, DoInit(ok)), AgentAt(s, t);
    var a := Rel(me.c, if ok then SetInit(me.c) else FailRetire(me.c));
    forall d: nat ensures CountsOk(s', d) {
      Counted(s, t, d);
      OthersOk(s, t, a, s', d);
    }
    hide CountsOk, ServiceOk;
    StepOk(s, t, a, s');
  }

  lemma SetInitOk(s: State, t: nat)
    requires Inv(s) && Enabled(s, t, DoSetInit) && Known(s, t)
    ensures Inv(Next(s, t, DoSetInit))
  {
    var s', me := Next(s, t, DoSetInit), AgentAt(s, t);
    forall d: nat ensures CountsOk(s', d) {
      Counted(s, t, d);
      HolderSets(s, t, Publish(me.c), s', d);
    }
    hide CountsOk, ServiceOk;
    StepOk(s, t, Publish(me.c), s');
  }

  lemma PublishOk(s: State, t: nat)
    requires Inv(s) && Enabled(s, t, DoPublish) && Known(s, t)
    ensures Inv(Next(s, t, DoPublish))
  {
    var s', me := Next(s, t, DoPublish), AgentAt(s, t);
    forall d: nat ensures CountsOk(s', d) {
      Counted(s, t, d);
      HolderSets(s, t, Idle, s', d);
    }
    hide CountsOk, ServiceOk;
    StepOk(s, t, Idle, s');
  }

  lemma FailRetireOk(s: State, t: nat)
    requires Inv(s) && Enabled(s, t, DoFailRetire) && Known(s, t)
    ensures Inv(Next(s, t, DoFailRetire))
  {
    var s', me := Next(s, t, DoFailRetire), AgentAt(s, t);
    var a := AgentAt(s', t);
    forall d: nat ensures CountsOk(s', d) {
      Counted(s, t, d);
      HolderSets(s, t, a, s', d);
    }
    hide CountsOk, ServiceOk;
    StepOk(s, t, a, s');
  }

  lemma MqReleaseOk(s: State, t: nat)
    requires Inv(s) && Enabled(s, t, DoMqRelease) && Known(s, t)
    ensures Inv(Next(s, t, DoMqRelease))
  {
    var s', me := Next(s, t, DoMqRelease), AgentAt(s, t);
    var a := AgentAt(s', t);
    Counted(s, t, me.c);
    forall d: nat ensures CountsOk(s', d) {
      Counted(s, t, d);
      HolderSets(s, t, a, s', d);
    }
    StepOk(s, t, a, s');
  }

  lemma DropOk(s: State, t: nat)
    requires Inv(s) && Enabled(s, t, DoDrop) && Known(s, t)
    ensures Inv(Next(s, t, DoDrop))
  {
    var s', me := Next(s, t, DoDrop), AgentAt(s, t);
    var a := AgentAt(s', t);
    forall d: nat ensures CountsOk(s', d) {
      Counted(s, t, d);
      HolderSets(s, t, a, s', d);
      if d == me.c {
        HistoryDrop(s.services[d]);
      }
    }
    hide CountsOk, ServiceOk;
    StepOk(s, t, a, s');
  }

  /** A message that is dropped was the oldest one waiting. */
  lemma HistoryDrop(v: Service)
    ensures v.queue.msgs != [] ==>
              v.dispatched + v.dropped + v.queue.msgs == v.dispatched + (v.dropped + [v.queue.msgs[0]]) + v.queue.msgs[1..]
  {
  }

  lemma GrabOk(s: State, t: nat, c: nat, m: Message)
    requires Inv(s) && Enabled(s, t, DoGrab(c, m)) && Known(s, t)
    ensures Inv(Next(s, t, DoGrab(c, m)))
  {
    var s' := Next(s, t, DoGrab(c, m));
    forall d: nat ensures CountsOk(s', d) {
      Counted(s, t, d);
      HolderSets(s, t, Send(c, m), s', d);
    }
    hide CountsOk, ServiceOk;
    StepOk(s, t, Send(c, m), s');
  }

  lemma PushOk(s: State, t: nat, really: bool)
    requires Inv(s) && Enabled(s, t, DoPush(really)) && Known(s, t)
    ensures Inv(Next(s, t, DoPush(really)))
  {
    hide RefHolders, TokenHolders, Deleters;
    var s', me := Next(s, t, DoPush(really)), AgentAt(s, t);
    var a := Rel(me.c, Idle);
    forall d: nat ensures CountsOk(s', d) {
      Counted(s, t, d);
      if d == me.c {
        PushCounts(s, t, really);
      } else {
        OthersOk(s, t, a, s', d);
      }
    }
    Counted(s, t, me.c);
    StepOk(s, t, a, s');
  }

  lemma PushCounts(s: State, t: nat, really: bool)
    requires Inv(s) && Enabled(s, t, DoPush(really)) && Known(s, t)
    ensures CountsOk(Next(s, t, DoPush(really)), AgentAt(s, t).c)
  {
    hide RefHolders, TokenHolders, Deleters;
    var s', me := Next(s, t, DoPush(really)), AgentAt(s, t);
    Counted(s, t, me.c);
    HolderSets(s, t, Rel(me.c, Idle), s', me.c);
    var v := s.services[me.c];
    assert v.dispatched + v.dropped + (v.queue.msgs + [me.m]) == v.dispatched + v.dropped + v.queue.msgs + [me.m];
  }

  lemma RetireOk(s: State, t: nat, c: nat)
    requires Inv(s) && Enabled(s, t, DoRetire(c)) && Known(s, t)
    ensures Inv(Next(s, t, DoRetire(c)))
  {
    var s' := Next(s, t, DoRetire(c));
    forall d: nat ensures CountsOk(s', d) {
      Counted(s, t, d);
      HolderSets(s, t, Rel(c, Idle), s', d);
    }
    hide CountsOk, ServiceOk;
    StepOk(s, t, Rel(c, Idle), s');
  }

  lemma TakeOk(s: State, t: nat)
    requires Inv(s) && Enabled(s, t, DoTake) && Known(s, t)
    ensures Inv(Next(s, t, DoTake))
  {
    var s', c := Next(s, t, DoTake), s.global[0];
    forall d: nat ensures CountsOk(s', d) {
      Counted(s, t, d);
      HolderSets(s, t, Hold(c), s', d);
      GlobalHead(s.global, d);
    }
    StepOk(s, t, Hold(c), s');
  }

  lemma GlobalHead(global: seq<nat>, d: nat)
    requires global != []
    ensures InGlobal(global, d) == InGlobal(global[1..], d) + One(d == global[0])
    ensures d in global[1..] ==> d in global
  {
    assert global == [global[0]] + global[1..];
  }

  lemma HoldOk(s: State, t: nat)
    requires Inv(s) && Enabled(s, t, DoHold) && Known(s, t)
    ensures Inv(Next(s, t, DoHold))
  {
    var s', me := Next(s, t, DoHold), AgentAt(s, t);
    var a := AgentAt(s', t);
    forall d: nat ensures CountsOk(s', d) {
      Counted(s, t, d);
      HolderSets(s, t, a, s', d);
    }
    hide CountsOk, ServiceOk;
    StepOk(s, t, a, s');
  }

  lemma PopOk(s: State, t: nat)
    requires Inv(s) && Enabled(s, t, DoPop) && Known(s, t)
    ensures Inv(Next(s, t, DoPop))
  {
    hide RefHolders, TokenHolders, Deleters;
    var s', me := Next(s, t, DoPop), AgentAt(s, t);
    var a := AgentAt(s', t);
    Counted(s, t, me.c);
    forall d: nat ensures CountsOk(s', d) {
      Counted(s, t, d);
      if d == me.c {
        PopCounts(s, t);
      } else {
        OthersOk(s, t, a, s', d);
      }
    }
    hide CountsOk, ServiceOk;
    StepOk(s, t, a, s');
  }

  lemma PopCounts(s: State, t: nat)
    requires Inv(s) && Enabled(s, t, DoPop) && Known(s, t)
    ensures CountsOk(Next(s, t, DoPop), AgentAt(s, t).c)
  {
    hide RefHolders, TokenHolders, Deleters;
    var s', me := Next(s, t, DoPop), AgentAt(s, t);
    Counted(s, t, me.c);
    HolderSets(s, t, AgentAt(s', t), s', me.c);
    var v := s.services[me.c];
    if v.queue.msgs != [] {
      assert v.dropped == [];
      assert v.dispatched + [] + v.queue.msgs == (v.dispatched + [v.queue.msgs[0]]) + [] + v.queue.msgs[1..];
    }
  }

  lemma DoneOk(s: State, t: nat, more: bool)
    requires Inv(s) && Enabled(s, t, DoneMessage(more)) && Known(s, t)
    ensures Inv(Next(s, t, DoneMessage(more)))
  {
    var s', me := Next(s, t, DoneMessage(more)), AgentAt(s, t);
    var a := AgentAt(s', t);
    forall d: nat ensures CountsOk(s', d) {
      Counted(s, t, d);
      OthersOk(s, t, a, s', d);
    }
    hide CountsOk, ServiceOk;
    StepOk(s, t, a, s');
  }

  lemma FinishOk(s: State, t: nat)
    requires Inv(s) && Enabled(s, t, DoFinish) && Known(s, t)
    ensures Inv(Next(s, t, DoFinish))
  {
    var s', me := Next(s, t, DoFinish), AgentAt(s, t);
    var a := AgentAt(s', t);
    Counted(s, t, me.c);
    if s.global != [] {
      Counted(s, t, s.global[0]);
    }
    forall d: nat ensures CountsOk(s', d) {
      FinishCounts(s, t, d);
    }
    hide CountsOk, ServiceOk;
    StepOk(s, t, a, s');
  }

  lemma FinishCounts(s: State, t: nat, d: nat)
    requires Inv(s) && Enabled(s, t, DoFinish) && Known(s, t)
    ensures CountsOk(Next(s, t, DoFinish), d)
  {
    hide RefHolders, TokenHolders, Deleters;
    var s', me := Next(s, t, DoFinish), AgentAt(s, t);
    Counted(s, t, d);
    HolderSets(s, t, AgentAt(s', t), s', d);
    if s.global != [] {
      Counted(s, t, s.global[0]);
      GlobalHead(s.global, d);
    }
  }

  lemma PutBackOk(s: State, t: nat)
    requires Inv(s) && Enabled(s, t, DoPutBack) && Known(s, t)
    ensures Inv(Next(s, t, DoPutBack))
  {
    var s', me := Next(s, t, DoPutBack), AgentAt(s, t);
    var a := AgentAt(s', t);
    Counted(s, t, me.c);
    forall d: nat ensures CountsOk(s', d) {
      PutBackCounts(s, t, d);
    }
    hide CountsOk, ServiceOk;
    StepOk(s, t, a, s');
  }

  lemma PutBackCounts(s: State, t: nat, d: nat)
    requires Inv(s) && Enabled(s, t, DoPutBack) && Known(s, t)
    ensures CountsOk(Next(s, t, DoPutBack), d)
  {
    hide RefHolders, TokenHolders, Deleters;
    var s', me := Next(s, t, DoPutBack), AgentAt(s, t);
    Counted(s, t, d);
    HolderSets(s, t, AgentAt(s', t), s', d);
  }

  lemma ReleaseOk(s: State, t: nat)
    requires Inv(s) && Enabled(s, t, DoRelease) && Known(s, t)
    ensures Inv(Next(s, t, DoRelease))
  {
    var s', me := Next(s, t, DoRelease), AgentAt(s, t);
    var a := AgentAt(s', t);
    Counted(s, t, me.c);
    forall d: nat ensures CountsOk(s', d) {
      ReleaseCounts(s, t, d);
    }
    hide CountsOk, ServiceOk;
    AgentStaysOk(s, s', me.next);
    StepOk(s, t, a, s');
  }

  lemma ReleaseCounts(s: State, t: nat, d: nat)
    requires Inv(s) && Enabled(s, t, DoRelease) && Known(s, t)
    ensures CountsOk(Next(s, t, DoRelease), d)
  {
    hide RefHolders, TokenHolders, Deleters;
    var s', me := Next(s, t, DoRelease), AgentAt(s, t);
    Counted(s, t, d);
    HolderSets(s, t, AgentAt(s', t), s', d);
  }

  lemma DeleteOk(s: State, t: nat)
    requires Inv(s) && Enabled(s, t, DoDelete) && Known(s, t)
    ensures Inv(Next(s, t, DoDelete))
  {
    var s', me := Next(s, t, DoDelete), AgentAt(s, t);
    var a := AgentAt(s', t);
    Counted(s, t, me.c);
    forall d: nat ensures CountsOk(s', d) {
      DeleteCounts(s, t, d);
    }
    hide CountsOk, ServiceOk;
    AgentStaysOk(s, s', me.next);
    StepOk(s, t, a, s');
  }

  lemma DeleteCounts(s: State, t: nat, d: nat)
    requires Inv(s) && Enabled(s, t, DoDelete) && Known(s, t)
    ensures CountsOk(Next(s, t, DoDelete), d)
  {
    hide RefHolders, TokenHolders, Deleters;
    var s', me := Next(s, t, DoDelete), AgentAt(s, t);
    Counted(s, t, d);
    HolderSets(s, t, AgentAt(s', t), s', d);
  }

  /** Every step of every agent keeps the invariant. */
  lemma StepKeepsInv(s: State, t: nat, a: Action)
    requires Inv(s) && Enabled(s, t, a) && Known(s, t)
    ensures Inv(Next(s, t, a))
  {
    hide Next, Inv;
    match a
    case DoLaunch(c) => LaunchOk(s, t, c);
    case DoInit(ok) => InitOk(s, t, ok);
    case DoSetInit => SetInitOk(s, t);
    case DoPublish => PublishOk(s, t);
    case DoFailRetire => FailRetireOk(s, t);
    case DoMqRelease => MqReleaseOk(s, t);
    case DoDrop => DropOk(s, t);
    case DoGrab(c, m) => GrabOk(s, t, c, m);
    case DoPush(really) => PushOk(s, t, really);
    case DoRetire(c) => RetireOk(s, t, c);
    case DoTake => TakeOk(s, t);
    case DoHold => HoldOk(s, t);
    case DoPop => PopOk(s, t);
    case DoneMessage(more) => DoneOk(s, t, more);
    case DoFinish => FinishOk(s, t);
    case DoPutBack => PutBackOk(s, t);
    case DoRelease => ReleaseOk(s, t);
    case DoDelete => DeleteOk(s, t);
  }
}
