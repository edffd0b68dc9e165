/**
  What a run of the shared memory object publishes, and when: which copy the object holds at each
  moment is told from the calls of stm_update and stm_release, and what a reader gets from the
  moments at which it was published.
 */
module StmHistory {
  import opened Common
  import opened Stm
  import RwLock

  // ----- one step -----

  /** The copy that an update has made and not yet stored. */
  function Pending(job: Job): Option<Ref> {
    match job
    case Updating(copy) => Some(copy)
    case Store(copy, _) => Some(copy)
    case _ => None
  }

  /** The step of a delete that takes the object's copy away. */
  predicate Drops(before: Job, after: Job) {
    before.Deleting? && after.Dropped?
  }

  lemma BeginPublishes(s: State, t: nat, a: Action)
    requires AgentAt(s, t).job.Idle? && !a.Go?
    ensures var s' := Begin(s, t, a);
            && s'.stamp == s.stamp + (if a.Update? then 1 else 0)
            && Pending(AgentAt(s', t).job) == (if a.Update? then Some(Ref(a.id, s.stamp)) else None)
            && Published(s') == Published(s)
  {
    hide Dec, LockStep;
    CountingOnly(s, AgentAt(s, t).last);
    LockingOnly(s, t, RwLock.CallRead);
    LockingOnly(s, t, RwLock.CallWrite);
  }

  lemma ProceedPublishes(s: State, t: nat)
    requires ThreadOk(s, t) && (Locking(AgentAt(s, t).job) ==> Inside(s, t))
    ensures var s' := Proceed(s, t);
            var before, after := AgentAt(s, t).job, AgentAt(s', t).job;
            && s'.stamp == s.stamp
            && Pending(after) == (if before.Store? then None else Pending(before))
            && Published(s') == if before.Store? then Some(before.copy) else if Drops(before, after) then None else Published(s)
  {
    hide Dec, Inc, LockStep, Good, RwLock.PcOf;
    var me := AgentAt(s, t);
    LockingOnly(s, t, RwLock.Go);
    match me.job {
      case Loaded(ret) => CountingOnly(s, Some(ret));
      case Swap(_) => CountingOnly(s, me.last);
      case Release(prev) => CountingOnly(s, prev);
      case Deleting => CountingOnly(s, s.copy);
      case _ =>
    }
  }

  /** What one step does to the count of copies, to a pending update and to what is published. */
  lemma StepPublishes(s: State, t: nat, a: Action)
    requires Inv(s) && Enabled(s, t, a)
    ensures var s' := Next(s, t, a);
            var before, after := AgentAt(s, t).job, AgentAt(s', t).job;
            && s'.stamp == s.stamp + (if a.Update? then 1 else 0)
            && Pending(after) == (if a.Update? then Some(Ref(a.id, s.stamp)) else if before.Store? then None else Pending(before))
            && Published(s') == if before.Store? then Some(before.copy) else if Drops(before, after) then None else Published(s)
  {
    hide Begin, Proceed, LockStep, Published, Good, Holders, Count, TagsOk, RwLock.Inv;
    assert ThreadOk(s, t);
    LockingOnly(s, t, RwLock.Go);
    LockPublishes(s, t);
    if AgentAt(s, t).job.Idle? {
      BeginPublishes(s, t, a);
    } else if !Locking(AgentAt(s, t).job) || Inside(s, t) {
      ProceedPublishes(s, t);
    }
  }

  lemma LockPublishes(s: State, t: nat)
    ensures Published(LockStep(s, t, RwLock.Go)) == Published(s)
  {
  }

  lemma OthersStay(s: State, t: nat, a: Action, u: nat)
    requires Inv(s) && Enabled(s, t, a) && u != t
    ensures AgentAt(Next(s, t, a), u) == AgentAt(s, u)
  {
    hide Next, Holders, Count, TagsOk, Good, RwLock.Inv, LockMoves;
    assert ThreadOk(s, t);
    StepLeaves(s, t, a);
  }

  lemma StepOfRun(states: seq<State>, moves: seq<Move>, start: nat, k: nat)
    requires IsRun(states, moves, start) && k < |moves|
    ensures Inv(states[k]) && Enabled(states[k], moves[k].thread, moves[k].action)
    ensures states[k + 1] == Next(states[k], moves[k].thread, moves[k].action)
  {
    hide Inv, Next;
    RunsKeepInv(states, moves, start, k);
    assert IsStep(states[k], moves[k], states[k + 1]);
  }

  // ----- the copies that updates make -----

  /** How many of the first `k` moves call stm_update. */
  function Updates(moves: seq<Move>, k: nat): nat
    requires k <= |moves|
  {
    if k == 0 then 0 else Updates(moves, k - 1) + if moves[k - 1].action.Update? then 1 else 0
  }

  /** The copy made by the update that move `k` calls: its tag is the number of the call. */
  function MadeBy(moves: seq<Move>, k: nat): Ref
    requires k < |moves| && moves[k].action.Update?
  {
    Ref(moves[k].action.id, 1 + Updates(moves, k))
  }

  /** The copy made by the last update that thread `t` called. */
  function LastMade(moves: seq<Move>, k: nat, t: nat): Option<Ref>
    requires k <= |moves|
  {
    if k == 0 then None
    else if moves[k - 1].thread == t && moves[k - 1].action.Update? then Some(MadeBy(moves, k - 1))
    else LastMade(moves, k - 1, t)
  }

  /** In every run the stamp counts the updates. */
  lemma {:induction false} StampCounts(states: seq<State>, moves: seq<Move>, start: nat, k: nat)
    requires IsRun(states, moves, start) && k < |states|
    ensures states[k].stamp == 1 + Updates(moves, k)
    decreases k
  {
    hide Next, Enabled, Inv;
    if k > 0 {
      StampCounts(states, moves, start, k - 1);
      StepOfRun(states, moves, start, k - 1);
      StepPublishes(states[k - 1], moves[k - 1].thread, moves[k - 1].action);
    }
  }

  /** In every run an update that has not stored yet is the last one its thread called. */
  lemma {:induction false} PendingIsLast(states: seq<State>, moves: seq<Move>, start: nat, k: nat, t: nat)
    requires IsRun(states, moves, start) && k < |states| && Pending(AgentAt(states[k], t).job).Some?
    ensures Pending(AgentAt(states[k], t).job) == LastMade(moves, k, t)
    decreases k
  {
    hide Next, Enabled, Inv, Pending;
    if k > 0 {
      var s, u, a := states[k - 1], moves[k - 1].thread, moves[k - 1].action;
      StepOfRun(states, moves, start, k - 1);
      StampCounts(states, moves, start, k - 1);
      if u == t {
        StepPublishes(s, u, a);
      } else {
        OthersStay(s, u, a, t);
      }
      if u != t || !a.Update? {
        PendingIsLast(states, moves, start, k - 1, t);
      }
    } else {
      NothingPending();
    }
  }

  lemma NothingPending()
    ensures Pending(Idle) == None
  {
  }

  // ----- what is published -----

  /** Move `k` is the store of an update. */
  predicate Stores(states: seq<State>, moves: seq<Move>, k: nat)
    requires k < |moves| && |states| == |moves| + 1
  {
    AgentAt(states[k], moves[k].thread).job.Store?
  }

  /** Move `k` takes the object's copy away. */
  predicate Takes(states: seq<State>, moves: seq<Move>, k: nat)
    requires k < |moves| && |states| == |moves| + 1
  {
    Drops(AgentAt(states[k], moves[k].thread).job, AgentAt(states[k + 1], moves[k].thread).job)
  }

  /**
    The copy of the last update that has passed its store, unless a delete came after it; the first
    copy, if there was none.
   */
  function LastPublished(states: seq<State>, moves: seq<Move>, start: nat, k: nat): Option<Ref>
    requires k <= |moves| && |states| == |moves| + 1
  {
    if k == 0 then Some(Ref(start, 0))
    else if Stores(states, moves, k - 1) then LastMade(moves, k - 1, moves[k - 1].thread)
    else if Takes(states, moves, k - 1) then None
    else LastPublished(states, moves, start, k - 1)
  }

  lemma StoreStep(states: seq<State>, moves: seq<Move>, start: nat, k: nat)
    requires IsRun(states, moves, start) && k < |moves|
    ensures Published(states[k + 1]) == if Stores(states, moves, k) then LastMade(moves, k, moves[k].thread)
                                        else if Takes(states, moves, k) then None else Published(states[k])
    ensures Stores(states, moves, k) ==> LastMade(moves, k, moves[k].thread).Some?
  {
    hide Next, Enabled, Inv, Published;
    StepOfRun(states, moves, start, k);
    StepPublishes(states[k], moves[k].thread, moves[k].action);
    if Stores(states, moves, k) {
      PendingIsLast(states, moves, start, k, moves[k].thread);
    }
  }

  /** In every run the object holds exactly what the updates and deletes so far have published. */
  lemma {:induction false} PublishedIsLast(states: seq<State>, moves: seq<Move>, start: nat, k: nat)
    requires IsRun(states, moves, start) && k < |states|
    ensures Published(states[k]) == LastPublished(states, moves, start, k)
    decreases k
  {
    hide Stores, Takes;
    if k > 0 {
      PublishedIsLast(states, moves, start, k - 1);
      StoreStep(states, moves, start, k - 1);
    }
  }

  /** At some moment after move `i` and not after state `k` the object holds `r`. */
  ghost predicate Held(states: seq<State>, i: nat, k: nat, r: Option<Ref>)
    requires k < |states|
  {
    exists j :: i < j <= k && Published(states[j]) == r
  }

  lemma HeldLater(states: seq<State>, i: nat, k: nat, r: Option<Ref>)
    requires i < k < |states|
    requires Held(states, i, k - 1, r) || Published(states[k]) == r
    ensures Held(states, i, k, r)
  {
    hide Published;
  }

  /** An update that is through its store, so every update that has returned, was published during the call. */
  lemma {:induction false} UpdatePublishes(states: seq<State>, moves: seq<Move>, start: nat, i: nat, k: nat)
    requires IsRun(states, moves, start) && i < k < |states| && moves[i].action.Update?
    ensures Pending(AgentAt(states[k], moves[i].thread).job) == Some(MadeBy(moves, i)) || Held(states, i, k, Some(MadeBy(moves, i)))
    decreases k
  {
    hide Next, Inv, Pending, Published, Held;
    var t, s, m := moves[i].thread, states[k - 1], moves[k - 1];
    StepOfRun(states, moves, start, k - 1);
    StepPublishes(s, m.thread, m.action);
    if k == i + 1 {
      StampCounts(states, moves, start, i);
    } else {
      UpdatePublishes(states, moves, start, i, k - 1);
      if Held(states, i, k - 1, Some(MadeBy(moves, i))) {
        HeldLater(states, i, k, Some(MadeBy(moves, i)));
      } else if m.thread != t {
        OthersStay(s, m.thread, m.action, t);
      } else {
        PendingGoesOn(s, t, m.action);
        if AgentAt(s, t).job.Store? {
          HeldLater(states, i, k, Some(MadeBy(moves, i)));
        }
      }
    }
  }

  /** A thread with a pending update goes on with it. */
  lemma PendingGoesOn(s: State, t: nat, a: Action)
    requires Pending(AgentAt(s, t).job).Some? && Enabled(s, t, a)
    ensures a.Go?
    ensures AgentAt(s, t).job.Store? ==> Pending(AgentAt(s, t).job) == Some(AgentAt(s, t).job.copy)
  {
  }

  /** A delete that has returned took the object's copy away during the call. */
  lemma {:induction false} DeletePublishes(states: seq<State>, moves: seq<Move>, start: nat, i: nat, k: nat)
    requires IsRun(states, moves, start) && i < k < |states| && moves[i].action.Delete?
    ensures AgentAt(states[k], moves[i].thread).job.Deleting? || Held(states, i, k, None)
    decreases k
  {
    hide Next, Inv, Published, Held;
    var t, s, m := moves[i].thread, states[k - 1], moves[k - 1];
    StepOfRun(states, moves, start, k - 1);
    if k == i + 1 {
      DeleteBegins(s, t);
    } else {
      DeletePublishes(states, moves, start, i, k - 1);
      if Held(states, i, k - 1, None) {
        HeldLater(states, i, k, None);
      } else if m.thread != t {
        OthersStay(s, m.thread, m.action, t);
      } else {
        DeletingGoesOn(s, t, m.action);
        StepPublishes(s, t, m.action);
        if !AgentAt(states[k], t).job.Deleting? {
          HeldLater(states, i, k, None);
        }
      }
    }
  }

  lemma DeleteBegins(s: State, t: nat)
    requires Enabled(s, t, Delete)
    ensures AgentAt(Next(s, t, Delete), t).job == Deleting
  {
  }

  lemma DeletingGoesOn(s: State, t: nat, a: Action)
    requires AgentAt(s, t).job.Deleting? && Enabled(s, t, a)
    ensures AgentAt(Next(s, t, a), t).job.Deleting? || AgentAt(Next(s, t, a), t).job.Dropped?
  {
    hide Dec, Inside;
    CountingOnly(s, s.copy);
    LockingOnly(s, t, RwLock.Go);
  }

  // ----- what a reader gets -----

  /** Thread `t` starts nothing new from move `i` to move `k`. */
  predicate GoesOn(moves: seq<Move>, i: nat, k: nat, t: nat)
    requires i <= k <= |moves|
  {
    forall j :: i <= j < k && moves[j].thread == t ==> moves[j].action.Go?
  }

  /** What a read that has come to `a` has in hand. */
  predicate InHand(a: Agent, r: Option<Ref>) {
    match a.job
    case Loaded(ret) => r == Some(ret)
    case Taken(got) => r == got
    case Compare(got) => r == got
    case Swap(got) => r == got
    case Release(got) => r == got && a.last == got
    case Idle => r == a.last
    case _ => false
  }

  /** A read loads what is published, and has it in hand until it returns. */
  lemma ReadStep(s: State, t: nat, a: Action, r: Option<Ref>)
    requires Inv(s) && Enabled(s, t, a) && a.Go?
    ensures var me, after := AgentAt(s, t), AgentAt(Next(s, t, a), t);
            && (InHand(me, r) ==> InHand(after, r))
            && (me.job.Reading? ==> after.job.Reading? || InHand(after, Published(s)))
  {
    hide Holders, Count, TagsOk, RwLock.Inv, RwLock.PcOf, Dec, Inc, LockStep, Inside;
    var me := AgentAt(s, t);
    assert ThreadOk(s, t);
    LockingOnly(s, t, RwLock.Go);
    match me.job {
      case Reading => if Inside(s, t) { ReadingOwned(s, t); }
      case Loaded(ret) => CountingOnly(s, Some(ret));
      case Swap(_) => CountingOnly(s, me.last);
      case Release(prev) => CountingOnly(s, prev);
      case _ =>
    }
  }

  /** While a reader is inside, nobody is taking the object's copy away. */
  lemma ReadingOwned(s: State, t: nat)
    requires Inv(s) && AgentAt(s, t).job.Reading? && Inside(s, t)
    ensures Published(s) == s.copy
  {
    hide Holders, Count, TagsOk, Good, RwLock.Inv;
    assert ThreadOk(s, t);
    if !s.owned {
      var w :| w in RwLock.InsideWriters(s.lock);
      RwLock.WriterAlone(s.lock, w, t);
    }
  }

  ghost predicate TookHeld(states: seq<State>, i: nat, k: nat, t: nat)
    requires k < |states|
  {
    exists r :: InHand(AgentAt(states[k], t), r) && Held(states, i, k, r)
  }

  lemma {:induction false} ReadTakes(states: seq<State>, moves: seq<Move>, start: nat, i: nat, k: nat)
    requires IsRun(states, moves, start) && i < k < |states| && moves[i].action.Read?
    requires GoesOn(moves, i + 1, k, moves[i].thread)
    ensures AgentAt(states[k], moves[i].thread).job.Reading? || TookHeld(states, i, k, moves[i].thread)
    decreases k
  {
    hide Next, Inv, Published, Held, InHand;
    var t, s, m := moves[i].thread, states[k - 1], moves[k - 1];
    StepOfRun(states, moves, start, k - 1);
    if k == i + 1 {
      ReadBegins(s, t);
      return;
    }
    ReadTakes(states, moves, start, i, k - 1);
    if m.thread != t {
      OthersStay(s, m.thread, m.action, t);
    }
    if AgentAt(s, t).job.Reading? {
      if m.thread == t {
        ReadStep(s, t, m.action, Published(s));
        ReadingKeeps(states, moves, start, i, k);
      }
    } else {
      var r :| InHand(AgentAt(s, t), r) && Held(states, i, k - 1, r);
      HeldLater(states, i, k, r);
      if m.thread == t {
        ReadStep(s, t, m.action, r);
      }
    }
  }

  lemma ReadBegins(s: State, t: nat)
    requires Enabled(s, t, Read)
    ensures AgentAt(Next(s, t, Read), t).job == Reading
  {
  }

  /** What is published when the load comes was published after the call. */
  lemma ReadingKeeps(states: seq<State>, moves: seq<Move>, start: nat, i: nat, k: nat)
    requires IsRun(states, moves, start) && i + 1 < k < |states|
    ensures Held(states, i, k, Published(states[k - 1]))
  {
    hide Published;
  }

  /** A read that has returned has the copy that was published at some moment of the call, or none if none was. */
  lemma ReadReturns(states: seq<State>, moves: seq<Move>, start: nat, i: nat, k: nat)
    requires IsRun(states, moves, start) && i < k < |states| && moves[i].action.Read?
    requires GoesOn(moves, i + 1, k, moves[i].thread) && AgentAt(states[k], moves[i].thread).job.Idle?
    ensures Held(states, i, k, AgentAt(states[k], moves[i].thread).last)
  {
    hide Held;
    ReadTakes(states, moves, start, i, k);
  }

  /**
    lread answers that there is nothing new exactly if what it took is the very copy it returned the
    last time, not one that was made later at the same address.
   */
  lemma ReadAnswers(states: seq<State>, moves: seq<Move>, start: nat, k: nat, got: Option<Ref>)
    requires IsRun(states, moves, start) && k < |moves| && AgentAt(states[k], moves[k].thread).job == Compare(got)
    ensures AgentAt(states[k + 1], moves[k].thread).job
         == if got == AgentAt(states[k], moves[k].thread).last then Release(got) else Swap(got)
  {
    hide Inv;
    StepOfRun(states, moves, start, k);
    ReadComparesCopies(states, moves, start, k, moves[k].thread);
  }

  // ----- newer copies after older ones -----

  /** The tag of the update that stored last, or that of the first copy. */
  function LastTag(states: seq<State>, moves: seq<Move>, k: nat): nat
    requires k <= |moves| && |states| == |moves| + 1
  {
    if k == 0 then 0
    else if Stores(states, moves, k - 1) && LastMade(moves, k - 1, moves[k - 1].thread).Some?
    then LastMade(moves, k - 1, moves[k - 1].thread).value.tag
    else LastTag(states, moves, k - 1)
  }

  /** What move `k` stores was made by a later call than what was stored last. */
  predicate StoresNewer(states: seq<State>, moves: seq<Move>, k: nat)
    requires k < |moves| && |states| == |moves| + 1
  {
    Stores(states, moves, k) ==> LastTag(states, moves, k) < LastTag(states, moves, k + 1)
  }

  /** The threads come to their stores in the order in which they called stm_update. */
  ghost predicate InOrderOfCalls(states: seq<State>, moves: seq<Move>)
    requires |states| == |moves| + 1
  {
    forall k :: 0 <= k < |moves| ==> StoresNewer(states, moves, k)
  }

  /** The object never goes back to a copy that was made before one it has published. */
  ghost predicate NeverBack(states: seq<State>) {
    forall i, j :: 0 <= i <= j < |states| ==> NotOlder(Published(states[i]), Published(states[j]))
  }

  predicate NotOlder(a: Option<Ref>, b: Option<Ref>) {
    a.Some? && b.Some? ==> a.value.tag <= b.value.tag
  }

  lemma {:induction false} PublishedHasLastTag(states: seq<State>, moves: seq<Move>, start: nat, k: nat)
    requires IsRun(states, moves, start) && k < |states| && Published(states[k]).Some?
    ensures Published(states[k]).value.tag == LastTag(states, moves, k)
    decreases k
  {
    hide Stores, Takes, IsStep, LastMade;
    if k > 0 {
      StoreStep(states, moves, start, k - 1);
      if !Stores(states, moves, k - 1) {
        PublishedHasLastTag(states, moves, start, k - 1);
      }
    }
  }

  lemma {:induction false} LastTagGrows(states: seq<State>, moves: seq<Move>, i: nat, j: nat)
    requires |states| == |moves| + 1 && i <= j <= |moves| && InOrderOfCalls(states, moves)
    ensures LastTag(states, moves, i) <= LastTag(states, moves, j)
    decreases j
  {
    hide Stores;
    if i < j {
      assert StoresNewer(states, moves, j - 1);
      LastTagGrows(states, moves, i, j - 1);
    }
  }

  /** The last tag was published at some moment. */
  lemma {:induction false} LastTagPublished(states: seq<State>, moves: seq<Move>, start: nat, k: nat) returns (j: nat)
    requires IsRun(states, moves, start) && k < |states|
    ensures j <= k && Published(states[j]).Some? && Published(states[j]).value.tag == LastTag(states, moves, k)
    decreases k
  {
    hide Stores, Takes, IsStep, LastMade;
    if k == 0 {
      return 0;
    }
    StoreStep(states, moves, start, k - 1);
    if Stores(states, moves, k - 1) {
      PublishedHasLastTag(states, moves, start, k);
      return k;
    }
    j := LastTagPublished(states, moves, start, k - 1);
  }

  /** A thread that is about to store has called an update, and one call makes one store. */
  lemma {:induction false} StoresAnother(states: seq<State>, moves: seq<Move>, start: nat, k: nat)
    requires IsRun(states, moves, start) && k < |moves| && Stores(states, moves, k)
    ensures LastTag(states, moves, k + 1) != LastTag(states, moves, k)
  {
    StoreStep(states, moves, start, k);
    StoredNotPending(states, moves, start, k, moves[k].thread);
    PendingIsLast(states, moves, start, k, moves[k].thread);
  }

  lemma {:induction false} TagBound(moves: seq<Move>, k: nat, t: nat)
    requires k <= |moves|
    ensures LastMade(moves, k, t).Some? ==> 0 < LastMade(moves, k, t).value.tag <= Updates(moves, k)
  {
    if k > 0 {
      TagBound(moves, k - 1, t);
    }
  }

  lemma {:induction false} LastTagBound(states: seq<State>, moves: seq<Move>, k: nat)
    requires |states| == |moves| + 1 && k <= |moves|
    ensures LastTag(states, moves, k) <= Updates(moves, k)
  {
    hide Stores;
    if k > 0 {
      LastTagBound(states, moves, k - 1);
      TagBound(moves, k - 1, moves[k - 1].thread);
    }
  }

  lemma {:induction false} MadeApart(moves: seq<Move>, k: nat, t: nat, u: nat)
    requires k <= |moves| && t != u && LastMade(moves, k, t).Some? && LastMade(moves, k, u).Some?
    ensures LastMade(moves, k, t).value.tag != LastMade(moves, k, u).value.tag
  {
    TagBound(moves, k - 1, t);
    TagBound(moves, k - 1, u);
    if !(moves[k - 1].thread == t && moves[k - 1].action.Update?) && !(moves[k - 1].thread == u && moves[k - 1].action.Update?) {
      MadeApart(moves, k - 1, t, u);
    }
  }

  /** A pending update does not come from nowhere: it was pending before, or it is called just now. */
  lemma PendingBefore(states: seq<State>, moves: seq<Move>, start: nat, k: nat, t: nat)
    requires IsRun(states, moves, start) && k < |moves| && Pending(AgentAt(states[k + 1], t).job).Some?
    ensures var now := Pending(AgentAt(states[k + 1], t).job);
            if moves[k].thread == t && moves[k].action.Update? then now == Some(MadeBy(moves, k)) && !Stores(states, moves, k)
            else now == Pending(AgentAt(states[k], t).job) && (Stores(states, moves, k) ==> moves[k].thread != t)
  {
    hide Next, Inv;
    StepOfRun(states, moves, start, k);
    if moves[k].thread == t {
      StepPublishes(states[k], t, moves[k].action);
      StampCounts(states, moves, start, k);
    } else {
      OthersStay(states[k], moves[k].thread, moves[k].action, t);
    }
  }

  /** What was stored last is not pending any more. */
  lemma {:induction false} StoredNotPending(states: seq<State>, moves: seq<Move>, start: nat, k: nat, t: nat)
    requires IsRun(states, moves, start) && k < |states| && Pending(AgentAt(states[k], t).job).Some?
    ensures Pending(AgentAt(states[k], t).job).value.tag != LastTag(states, moves, k)
    decreases k
  {
    if k > 0 {
      var u := moves[k - 1].thread;
      PendingBefore(states, moves, start, k - 1, t);
      if Stores(states, moves, k - 1) {
        PendingIsLast(states, moves, start, k - 1, t);
        PendingIsLast(states, moves, start, k - 1, u);
        MadeApart(moves, k - 1, t, u);
      } else if u == t && moves[k - 1].action.Update? {
        LastTagBound(states, moves, k - 1);
      } else {
        StoredNotPending(states, moves, start, k - 1, t);
      }
    }
  }

  /** In every run the published copies never go back exactly if the stores come in the order of the calls. */
  lemma NeverBackIff(states: seq<State>, moves: seq<Move>, start: nat)
    requires IsRun(states, moves, start)
    ensures NeverBack(states) <==> InOrderOfCalls(states, moves)
  {
    hide Published, LastTag, Stores;
    if InOrderOfCalls(states, moves) {
      forall i, j | 0 <= i <= j < |states| ensures NotOlder(Published(states[i]), Published(states[j])) {
        if Published(states[i]).Some? && Published(states[j]).Some? {
          PublishedHasLastTag(states, moves, start, i);
          PublishedHasLastTag(states, moves, start, j);
          LastTagGrows(states, moves, i, j);
        }
      }
    }
    if NeverBack(states) {
      forall k | 0 <= k < |moves| ensures StoresNewer(states, moves, k) {
        if Stores(states, moves, k) {
          var j := LastTagPublished(states, moves, start, k);
          StoreStep(states, moves, start, k);
          PublishedHasLastTag(states, moves, start, k + 1);
          assert NotOlder(Published(states[j]), Published(states[k + 1]));
          StoresAnother(states, moves, start, k);
        }
      }
    }
  }

  // ----- updates that do not overlap -----

  /** Nobody calls stm_update while an update is pending. */
  ghost predicate NoOverlap(states: seq<State>, moves: seq<Move>)
    requires |states| == |moves| + 1
  {
    forall k :: 0 <= k < |moves| && moves[k].action.Update? ==> NonePending(states[k])
  }

  ghost predicate NonePending(s: State) {
    forall t :: Pending(AgentAt(s, t).job) == None
  }

  /** Without overlaps only the newest copy can be pending. */
  lemma {:induction false} PendingIsNewest(states: seq<State>, moves: seq<Move>, start: nat, k: nat, t: nat)
    requires IsRun(states, moves, start) && NoOverlap(states, moves)
    requires k < |states| && Pending(AgentAt(states[k], t).job).Some?
    ensures Pending(AgentAt(states[k], t).job).value.tag == Updates(moves, k)
    decreases k
  {
    if k > 0 {
      PendingBefore(states, moves, start, k - 1, t);
      if moves[k - 1].action.Update? {
        assert NonePending(states[k - 1]);
        assert moves[k - 1].thread == t;
      } else {
        PendingIsNewest(states, moves, start, k - 1, t);
      }
    }
  }

  /** Updates that do not overlap are stored in the order of their calls. */
  lemma NoOverlapInOrder(states: seq<State>, moves: seq<Move>, start: nat)
    requires IsRun(states, moves, start) && NoOverlap(states, moves)
    ensures InOrderOfCalls(states, moves)
  {
    forall k | 0 <= k < |moves| ensures StoresNewer(states, moves, k) {
      if Stores(states, moves, k) {
        var t := moves[k].thread;
        PendingIsNewest(states, moves, start, k, t);
        PendingIsLast(states, moves, start, k, t);
        LastTagBound(states, moves, k);
        StoresAnother(states, moves, start, k);
      }
    }
  }

  /** One thread alone does all the updates, as the writer of a stm object does. */
  ghost predicate OneWriter(moves: seq<Move>, w: nat) {
    forall k :: 0 <= k < |moves| && moves[k].action.Update? ==> moves[k].thread == w
  }

  lemma OneWriterNoOverlap(states: seq<State>, moves: seq<Move>, start: nat, w: nat)
    requires IsRun(states, moves, start) && OneWriter(moves, w)
    ensures NoOverlap(states, moves)
  {
    forall k | 0 <= k < |moves| && moves[k].action.Update? ensures NonePending(states[k]) {
      forall t ensures Pending(AgentAt(states[k], t).job) == None {
        assert IsStep(states[k], moves[k], states[k + 1]);
        if Pending(AgentAt(states[k], t).job).Some? {
          PendingIsLast(states, moves, start, k, t);
          WriterMade(moves, w, k, t);
        }
      }
    }
  }

  lemma {:induction false} WriterMade(moves: seq<Move>, w: nat, k: nat, t: nat)
    requires OneWriter(moves, w) && k <= |moves| && LastMade(moves, k, t).Some?
    ensures t == w
  {
    if !(moves[k - 1].thread == t && moves[k - 1].action.Update?) {
      WriterMade(moves, w, k - 1, t);
    }
  }

  /**
    A read that is called after an update has returned gets a copy at least as new, or none after a
    delete: in every run in which the stores come in the order of the calls.
   */
  lemma ReadAfterUpdate(states: seq<State>, moves: seq<Move>, start: nat, u: nat, i: nat, k: nat)
    requires IsRun(states, moves, start) && u < i < k < |states|
    requires moves[u].action.Update? && Pending(AgentAt(states[i], moves[u].thread).job) == None
    requires moves[i].action.Read? && GoesOn(moves, i + 1, k, moves[i].thread)
    requires AgentAt(states[k], moves[i].thread).job.Idle?
    requires InOrderOfCalls(states, moves)
    ensures NotOlder(Some(MadeBy(moves, u)), AgentAt(states[k], moves[i].thread).last)
  {
    hide Published, InOrderOfCalls;
    UpdatePublishes(states, moves, start, u, i);
    ReadReturns(states, moves, start, i, k);
    NeverBackIff(states, moves, start);
    var p :| u < p <= i && Published(states[p]) == Some(MadeBy(moves, u));
    var q :| i < q <= k && Published(states[q]) == AgentAt(states[k], moves[i].thread).last;
    assert NotOlder(Published(states[p]), Published(states[q]));
  }

  // ----- updates that do overlap -----

  lemma Extend(states: seq<State>, moves: seq<Move>, start: nat, m: Move)
    requires IsRun(states, moves, start) && Enabled(states[|moves|], m.thread, m.action)
    ensures IsRun(states + [Next(states[|moves|], m.thread, m.action)], moves + [m], start)
  {
    hide Next, Enabled;
    var more, s' := moves + [m], states + [Next(states[|moves|], m.thread, m.action)];
    forall k | 0 <= k < |more| ensures IsStep(s'[k], more[k], s'[k + 1]) {
      if k < |moves| {
        assert IsStep(states[k], moves[k], states[k + 1]);
      }
    }
  }

  /** The lock is free, and thread `t` waits for it with a new copy. */
  predicate Waits(s: State, t: nat, copy: Ref) {
    s.lock.read == 0 && s.lock.write == 0 && RwLock.PcOf(s.lock, t).WriteSpin? && AgentAt(s, t).job == Updating(copy)
  }

  /** The update of thread `t`, run alone from such a state `s0`, has made `n` steps. */
  ghost predicate Stage(s0: State, s: State, t: nat, copy: Ref, n: nat) {
    && s.lock.read == 0 && s.owned == s0.owned
    && (forall u :: u != t ==> RwLock.PcOf(s.lock, u) == RwLock.PcOf(s0.lock, u) && AgentAt(s, u) == AgentAt(s0, u))
    && (n <= 3 ==> s.copy == s0.copy)
    && (n >= 4 ==> s.copy == Some(copy))
    && var pc, job := RwLock.PcOf(s.lock, t), AgentAt(s, t).job;
    match n
    case 0 => pc.WriteSpin? && s.lock.write == 0 && job == Updating(copy)
    case 1 => pc.WriteDrain? && job == Updating(copy)
    case 2 => pc.WriteIn? && job == Updating(copy)
    case 3 => pc.WriteIn? && job == Store(copy, s0.copy)
    case 4 => pc.WriteIn? && job == Stored(s0.copy)
    case _ => pc.Out? && s.lock.write == 0 && job == Release(s0.copy)
  }

  lemma StageStep(s0: State, s: State, t: nat, copy: Ref, n: nat)
    requires Stage(s0, s, t, copy, n) && n < 5
    ensures Enabled(s, t, Go) && Stage(s0, Next(s, t, Go), t, copy, n + 1)
  {
  }

  /** The update runs alone to the end of the write lock. */
  lemma {:induction false} StoreAlone(states: seq<State>, moves: seq<Move>, start: nat, s0: State, t: nat, copy: Ref, n: nat)
    returns (states': seq<State>, moves': seq<Move>)
    requires IsRun(states, moves, start) && n <= 5 && Stage(s0, states[|moves|], t, copy, n)
    ensures states <= states' && IsRun(states', moves', start) && Stage(s0, states'[|moves'|], t, copy, 5)
    decreases 5 - n
  {
    hide Stage, Next, Enabled;
    states', moves' := states, moves;
    if n < 5 {
      StageStep(s0, states[|moves|], t, copy, n);
      Extend(states, moves, start, Move(t, Go));
      states', moves' := StoreAlone(states + [Next(states[|moves|], t, Go)], moves + [Move(t, Go)], start, s0, t, copy, n + 1);
    }
  }

  /** When two updates wait for a free lock, the earlier call may come to its store last: then the object goes back. */
  lemma OverlapGoesBack(states: seq<State>, moves: seq<Move>, start: nat, t: nat, early: Ref, u: nat, late: Ref)
    returns (states': seq<State>, moves': seq<Move>)
    requires IsRun(states, moves, start) && states[|moves|].owned
    requires Waits(states[|moves|], t, early) && Waits(states[|moves|], u, late) && early.tag < late.tag
    ensures states <= states' && IsRun(states', moves', start) && !NeverBack(states')
  {
    var s0 := states[|moves|];
    var states1, moves1 := StoreAlone(states, moves, start, s0, u, late, 0);
    var s1 := states1[|moves1|];
    states', moves' := StoreAlone(states1, moves1, start, s1, t, early, 0);
    assert states'[|moves1|] == s1;
    assert !NotOlder(Published(states'[|moves1|]), Published(states'[|moves'|]));
  }

  /** Such a run, from the start. */
  lemma GoesBack() returns (states: seq<State>, moves: seq<Move>)
    ensures IsRun(states, moves, 0) && !NeverBack(states)
  {
    var s0 := Start(0);
    var s1 := Next(s0, 1, Update(1));
    var s2 := Next(s1, 2, Update(2));
    states, moves := [s0, s1, s2], [Move(1, Update(1)), Move(2, Update(2))];
    assert IsStep(s0, moves[0], s1) && IsStep(s1, moves[1], s2);
    assert Waits(s2, 1, Ref(1, 1)) && Waits(s2, 2, Ref(2, 2));
    states, moves := OverlapGoesBack(states, moves, 0, 1, Ref(1, 1), 2, Ref(2, 2));
  }
}
