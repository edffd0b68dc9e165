/**
  The spinning reader/writer lock. Every single load, atomic addition and test-and-set is one step
  of one thread, under sequential consistency, and any number of threads take part.
 */
module RwLock {

  /** The instruction a thread is about to execute, or `Out` when it does not use the lock. */
  datatype Pc =
    | Out
    | ReadSpin    // rwlock_rlock: the load in while (lock->write)
    | ReadAdd     // the addition to lock->read
    | ReadCheck   // the second load of lock->write
    | ReadUndo    // the subtraction when a writer was there
    | ReadIn      // rwlock_rlock has returned
    | WriteSpin   // rwlock_wlock: the test-and-set
    | WriteDrain  // the load in while (lock->read)
    | WriteIn     // rwlock_wlock has returned

  datatype Lock = Lock(write: int, read: int, at: map<nat, Pc>)

  /** A thread calls one of the two lock functions, or goes on with its call; inside, it unlocks. */
  datatype Action = CallRead | CallWrite | Go

  function PcOf(s: Lock, t: nat): Pc {
    if t in s.at then s.at[t] else Out
  }

  predicate Enabled(s: Lock, t: nat, a: Action) {
    a.Go? <==> !PcOf(s, t).Out?
  }

  function Goto(s: Lock, t: nat, pc: Pc): Lock {
    s.(at := s.at[t := pc])
  }

  function Next(s: Lock, t: nat, a: Action): Lock
    requires Enabled(s, t, a)
  {
    match PcOf(s, t)
    case Out => Goto(s, t, if a.CallRead? then ReadSpin else WriteSpin)
    case ReadSpin => if s.write != 0 then s else Goto(s, t, ReadAdd)
    case ReadAdd => Goto(s, t, ReadCheck).(read := s.read + 1)
    case ReadCheck => Goto(s, t, if s.write != 0 then ReadUndo else ReadIn)
    case ReadUndo => Goto(s, t, ReadSpin).(read := s.read - 1)
    case ReadIn => Goto(s, t, Out).(read := s.read - 1)
    case WriteSpin => if s.write != 0 then s.(write := 1) else Goto(s, t, WriteDrain).(write := 1)
    case WriteDrain => if s.read != 0 then s else Goto(s, t, WriteIn)
    case WriteIn => Goto(s, t, Out).(write := 0)
  }

  function Start(): Lock {
    Lock(0, 0, map[])
  }

  // ----- the invariant -----

  predicate Counting(pc: Pc) {
    pc.ReadCheck? || pc.ReadUndo? || pc.ReadIn?
  }

  predicate Writing(pc: Pc) {
    pc.WriteDrain? || pc.WriteIn?
  }

  function Counted(s: Lock): set<nat> {
    set t | t in s.at && Counting(s.at[t])
  }

  function Writers(s: Lock): set<nat> {
    set t | t in s.at && Writing(s.at[t])
  }

  function InsideReaders(s: Lock): set<nat> {
    set t | t in s.at && s.at[t].ReadIn?
  }

  function InsideWriters(s: Lock): set<nat> {
    set t | t in s.at && s.at[t].WriteIn?
  }

  ghost predicate Inv(s: Lock) {
    && s.read == |Counted(s)|
    && s.write == |Writers(s)| <= 1
    && (InsideWriters(s) != {} ==> InsideReaders(s) == {})
  }

  predicate OnlyMoved(s: Lock, s': Lock, t: nat) {
    s'.at == s.at || s'.at == s.at[t := PcOf(s', t)]
  }

  lemma ReadersMoved(s: Lock, s': Lock, t: nat)
    requires OnlyMoved(s, s', t)
    ensures Counted(s') == if Counting(PcOf(s', t)) then Counted(s) + {t} else Counted(s) - {t}
    ensures InsideReaders(s') == if PcOf(s', t).ReadIn? then InsideReaders(s) + {t} else InsideReaders(s) - {t}
  {
  }

  lemma WritersMoved(s: Lock, s': Lock, t: nat)
    requires OnlyMoved(s, s', t)
    ensures Writers(s') == if Writing(PcOf(s', t)) then Writers(s) + {t} else Writers(s) - {t}
    ensures InsideWriters(s') == if PcOf(s', t).WriteIn? then InsideWriters(s) + {t} else InsideWriters(s) - {t}
  {
  }

  lemma Present(s: Lock, t: nat)
    ensures t in Counted(s) <==> Counting(PcOf(s, t))
    ensures t in Writers(s) <==> Writing(PcOf(s, t))
    ensures t in InsideReaders(s) <==> PcOf(s, t).ReadIn?
    ensures t in InsideWriters(s) <==> PcOf(s, t).WriteIn?
  {
  }

  lemma InsideSubsets(s: Lock)
    ensures InsideReaders(s) <= Counted(s) && InsideWriters(s) <= Writers(s)
  {
  }

  lemma AtMostOne(x: set<nat>, t: nat)
    requires |x| <= 1 && t in x
    ensures x == {t}
  {
    assert |x - {t}| == 0;
  }

  lemma OthersStay(s: Lock, t: nat, a: Action)
    requires Enabled(s, t, a)
    ensures forall u :: u != t ==> PcOf(Next(s, t, a), u) == PcOf(s, u)
  {
  }

  /** How the sets follow a step. */
  lemma Followed(s: Lock, s': Lock, t: nat)
    requires OnlyMoved(s, s', t)
    ensures |Counted(s')| - |Counted(s)| == One(Counting(PcOf(s', t))) - One(Counting(PcOf(s, t)))
    ensures |Writers(s')| - |Writers(s)| == One(Writing(PcOf(s', t))) - One(Writing(PcOf(s, t)))
    ensures InsideReaders(s') == if PcOf(s', t).ReadIn? then InsideReaders(s) + {t} else InsideReaders(s) - {t}
    ensures InsideWriters(s') == if PcOf(s', t).WriteIn? then InsideWriters(s) + {t} else InsideWriters(s) - {t}
  {
    hide Counted, Writers, InsideReaders, InsideWriters, PcOf, Counting, Writing;
    Present(s, t);
    ReadersMoved(s, s', t);
    WritersMoved(s, s', t);
    Grows(Counted(s), t, Counting(PcOf(s', t)));
    Grows(Writers(s), t, Writing(PcOf(s', t)));
  }

  function One(b: bool): int {
    if b then 1 else 0
  }

  lemma Grows(x: set<nat>, t: nat, b: bool)
    ensures |if b then x + {t} else x - {t}| == |x| + One(b) - One(t in x)
  {
    if t in x {
      assert x + {t} == x;
    } else {
      assert x - {t} == x;
    }
  }

  lemma StepKeepsInv(s: Lock, t: nat, a: Action)
    requires Inv(s) && Enabled(s, t, a)
    ensures Inv(Next(s, t, a))
  {
    hide Inv, Next;
    if Writing(PcOf(s, t)) || PcOf(s, t).WriteSpin? {
      WriterKeepsInv(s, t, a);
    } else {
      ReaderKeepsInv(s, t, a);
    }
  }

  lemma WriterKeepsInv(s: Lock, t: nat, a: Action)
    requires Inv(s) && Enabled(s, t, a) && (Writing(PcOf(s, t)) || PcOf(s, t).WriteSpin?)
    ensures Inv(Next(s, t, a))
  {
    hide Counted, Writers, InsideReaders, InsideWriters;
    Followed(s, Next(s, t, a), t);
    Present(s, t);
    InsideSubsets(s);
    if t in Writers(s) {
      AtMostOne(Writers(s), t);
    }
  }

  lemma ReaderKeepsInv(s: Lock, t: nat, a: Action)
    requires Inv(s) && Enabled(s, t, a) && !Writing(PcOf(s, t)) && !PcOf(s, t).WriteSpin?
    ensures Inv(Next(s, t, a))
  {
    hide Counted, Writers, InsideReaders, InsideWriters;
    Followed(s, Next(s, t, a), t);
    Present(s, t);
    InsideSubsets(s);
  }

  lemma StartOk()
    ensures Inv(Start())
  {
  }

  // ----- refinement of an atomic lock -----

  /** What a reader/writer lock is: who is inside. */
  datatype Holders = Holders(readers: set<nat>, writers: set<nat>)

  function View(s: Lock): Holders {
    Holders(InsideReaders(s), InsideWriters(s))
  }

  /** One step of an atomic lock by thread `t`: nothing, entering when allowed, or leaving. */
  predicate AtomicStep(h: Holders, h': Holders, t: nat) {
    || h' == h
    || (h.writers == {} && h' == h.(readers := h.readers + {t}))
    || (h.writers == {} && h.readers == {} && h' == h.(writers := {t}))
    || (t in h.readers && h' == h.(readers := h.readers - {t}))
    || (h.writers == {t} && h' == h.(writers := {}))
  }

  /** Entering or leaving on one side, when the other side allows it. */
  lemma OneSideMoves(h: Holders, h': Holders, t: nat, reading: bool, writing: bool)
    requires h'.readers == if reading then h.readers + {t} else h.readers - {t}
    requires h'.writers == if writing then h.writers + {t} else h.writers - {t}
    requires t in h.writers ==> h.writers == {t}
    requires reading && t !in h.readers ==> h.writers == {} && !writing
    requires writing && t !in h.writers ==> h.writers == {} && h.readers == {} && !reading
    requires t in h.writers && !writing ==> t !in h.readers && !reading
    ensures AtomicStep(h, h', t)
  {
    if reading == (t in h.readers) {
      assert h'.readers == h.readers;
    }
    if writing == (t in h.writers) {
      assert h'.writers == h.writers;
    }
  }

  /** Every instruction of the spinning lock is a step of the atomic lock. */
  lemma StepRefines(s: Lock, t: nat, a: Action)
    requires Inv(s) && Enabled(s, t, a)
    ensures AtomicStep(View(s), View(Next(s, t, a)), t)
  {
    hide Counted, Writers, InsideReaders, InsideWriters, AtomicStep;
    var s' := Next(s, t, a);
    Followed(s, s', t);
    Present(s, t);
    InsideSubsets(s);
    if t in Writers(s) {
      AtMostOne(Writers(s), t);
    }
    OneSideMoves(View(s), View(s'), t, PcOf(s', t).ReadIn?, PcOf(s', t).WriteIn?);
  }

  // ----- every run -----

  datatype Move = Move(thread: nat, action: Action)

  predicate IsStep(s: Lock, m: Move, s': Lock) {
    Enabled(s, m.thread, m.action) && s' == Next(s, m.thread, m.action)
  }

  ghost predicate IsRunFrom(s: Lock, states: seq<Lock>, moves: seq<Move>) {
    && |states| == |moves| + 1
    && states[0] == s
    && forall k :: 0 <= k < |moves| ==> IsStep(states[k], moves[k], states[k + 1])
  }

  lemma {:induction false} RunsKeepInv(s: Lock, states: seq<Lock>, moves: seq<Move>, k: nat)
    requires Inv(s) && IsRunFrom(s, states, moves) && k < |states|
    ensures Inv(states[k])
    decreases k
  {
    if k > 0 {
      RunsKeepInv(s, states, moves, k - 1);
      assert IsStep(states[k - 1], moves[k - 1], states[k]);
      StepKeepsInv(states[k - 1], moves[k - 1].thread, moves[k - 1].action);
    }
  }

  /** In every run: a thread inside as a writer is there alone. */
  lemma Exclusion(states: seq<Lock>, moves: seq<Move>, k: nat, w: nat, u: nat)
    requires IsRunFrom(Start(), states, moves) && k < |states|
    requires PcOf(states[k], w).WriteIn? && u != w
    ensures !PcOf(states[k], u).WriteIn? && !PcOf(states[k], u).ReadIn?
  {
    StartOk();
    RunsKeepInv(Start(), states, moves, k);
    WriterAlone(states[k], w, u);
  }

  lemma WriterAlone(s: Lock, w: nat, u: nat)
    requires Inv(s) && PcOf(s, w).WriteIn? && u != w
    ensures !PcOf(s, u).WriteIn? && !PcOf(s, u).ReadIn?
  {
    Present(s, w);
    Present(s, u);
    AtMostOne(Writers(s), w);
  }

  /** While a writer waits for the readers inside to leave, no reader enters. */
  lemma {:induction false} DrainOnlyShrinks(s: Lock, states: seq<Lock>, moves: seq<Move>, w: nat, j: nat, k: nat)
    requires Inv(s) && IsRunFrom(s, states, moves) && j <= k < |states|
    requires forall i :: j <= i < k ==> PcOf(states[i], w).WriteDrain?
    ensures InsideReaders(states[k]) <= InsideReaders(states[j])
    decreases k
  {
    if j < k {
      DrainOnlyShrinks(s, states, moves, w, j, k - 1);
      RunsKeepInv(s, states, moves, k - 1);
      var m := moves[k - 1];
      assert IsStep(states[k - 1], m, states[k]);
      Present(states[k - 1], w);
      assert |Writers(states[k - 1])| != 0;
    }
  }

  // ----- no deadlock -----

  /** Threads outside stay outside. */
  predicate OnlyWaiting(s: Lock, moves: seq<Move>) {
    forall k :: 0 <= k < |moves| ==> moves[k].action.Go? && !PcOf(s, moves[k].thread).Out?
  }

  predicate SomeoneInside(s: Lock) {
    InsideReaders(s) != {} || InsideWriters(s) != {}
  }

  ghost predicate CanEnter(s: Lock) {
    exists states: seq<Lock>, moves: seq<Move> ::
      IsRunFrom(s, states, moves) && OnlyWaiting(s, moves) && SomeoneInside(states[|moves|])
  }

  lemma EnterNow(s: Lock)
    requires SomeoneInside(s)
    ensures CanEnter(s)
  {
    var states, moves: seq<Move> := [s], [];
    assert IsRunFrom(s, states, moves) && OnlyWaiting(s, moves) && SomeoneInside(states[|moves|]);
  }

  lemma EnterLater(s: Lock, t: nat)
    requires !PcOf(s, t).Out? && CanEnter(Next(s, t, Go))
    requires !PcOf(Next(s, t, Go), t).Out?
    ensures CanEnter(s)
  {
    var s' := Next(s, t, Go);
    var states: seq<Lock>, moves: seq<Move> :|
      IsRunFrom(s', states, moves) && OnlyWaiting(s', moves) && SomeoneInside(states[|moves|]);
    var m := Move(t, Go);
    var all, steps := [s] + states, [m] + moves;
    forall k | 0 <= k < |steps| ensures IsStep(all[k], steps[k], all[k + 1]) {
      if k > 0 {
        assert IsStep(states[k - 1], moves[k - 1], states[k]);
      }
    }
    forall k | 0 <= k < |steps| ensures steps[k].action.Go? && !PcOf(s, steps[k].thread).Out? {
      if k > 0 {
        assert moves[k - 1].action.Go? && !PcOf(s', moves[k - 1].thread).Out?;
      }
    }
    assert IsRunFrom(s, all, steps) && OnlyWaiting(s, steps) && SomeoneInside(all[|steps|]);
  }

  function Checkers(s: Lock): set<nat> {
    set t | t in s.at && s.at[t].ReadCheck?
  }

  lemma InWhenIn(s: Lock, t: nat)
    requires PcOf(s, t).ReadIn? || PcOf(s, t).WriteIn?
    ensures SomeoneInside(s)
  {
    Present(s, t);
  }

  /** A writer that drains gets in once the readers that counted themselves have backed off. */
  lemma {:induction false} DrainEnds(s: Lock, w: nat)
    requires Inv(s) && PcOf(s, w).WriteDrain? && !SomeoneInside(s)
    ensures CanEnter(s)
    decreases s.read, |Checkers(s)|
  {
    Present(s, w);
    assert |Writers(s)| != 0;
    if s.read == 0 {
      var s' := Next(s, w, Go);
      InWhenIn(s', w);
      EnterNow(s');
      EnterLater(s, w);
    } else {
      assert Counted(s) != {};
      var r :| r in Counted(s);
      assert r !in InsideReaders(s);
      var s' := Next(s, r, Go);
      StepKeepsInv(s, r, Go);
      assert InsideReaders(s') == {} && InsideWriters(s') == {};
      if s.at[r].ReadCheck? {
        assert Checkers(s') == Checkers(s) - {r};
        assert r in Checkers(s);
      }
      DrainEnds(s', w);
      EnterLater(s, r);
    }
  }

  /** Whenever threads wait and none is inside, the waiting threads alone can get one of them in. */
  lemma NoDeadlock(s: Lock, t: nat)
    requires Inv(s) && !PcOf(s, t).Out? && !SomeoneInside(s)
    ensures CanEnter(s)
  {
    if w :| w in Writers(s) {
      assert w !in InsideWriters(s);
      DrainEnds(s, w);
    } else {
      assert |Writers(s)| == 0;
      NoWriterEnters(s, t);
    }
  }

  function Distance(pc: Pc): nat {
    match pc
    case ReadUndo => 4
    case ReadSpin => 3
    case ReadAdd => 2
    case ReadCheck => 1
    case _ => 0
  }

  /** With no writer about, any waiting thread gets in by itself. */
  lemma {:induction false} NoWriterEnters(s: Lock, t: nat)
    requires Inv(s) && !PcOf(s, t).Out? && !SomeoneInside(s) && s.write == 0
    ensures CanEnter(s)
    decreases Distance(PcOf(s, t))
  {
    var s' := Next(s, t, Go);
    StepKeepsInv(s, t, Go);
    Present(s, t);
    assert InsideReaders(s) == {} && InsideWriters(s) == {};
    if PcOf(s, t).ReadCheck? {
      InWhenIn(s', t);
      EnterNow(s');
    } else if PcOf(s, t).WriteSpin? {
      assert InsideReaders(s') == {} && InsideWriters(s') == {};
      DrainEnds(s', t);
    } else {
      assert !Writing(PcOf(s, t)) by { assert |Writers(s)| == 0; }
      assert InsideReaders(s') == {} && InsideWriters(s') == {};
      NoWriterEnters(s', t);
    }
    EnterLater(s, t);
  }
}
