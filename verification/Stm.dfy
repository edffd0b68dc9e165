/**
  The shared memory object: one writer publishes copies of a message, readers take the newest one.
  Copies are counted, and the object's pointer to the newest copy is guarded by the lock of module
  `RwLock`. Any number of threads read, update, close and delete; every instruction of the lock and
  every access to shared memory is one step.
 */
module Stm {
  import opened Common
  import RwLock

  /**
    A pointer to a copy. The code sees and compares `id`, the address, only. `tag` tells which
    allocation it was obtained from: addresses are used again after a free, tags are not.
   */
  datatype Ref = Ref(id: nat, tag: nat)

  /** A copy in allocated memory. */
  datatype Copy = Copy(reference: int, tag: nat)

  datatype Job =
    | Idle
    // lread and stm_copy
    | Reading                             // from rwlock_rlock to the load of obj->copy
    | Loaded(ret: Ref)                    // before the increment of ret->reference
    | Taken(got: Option<Ref>)             // before rwlock_runlock
    | Compare(got: Option<Ref>)           // before the comparison with box->lastcopy
    | Swap(got: Option<Ref>)              // before the release of box->lastcopy
    // stm_releasecopy of a reference of the thread's own
    | Release(prev: Option<Ref>)
    // stm_update
    | Updating(copy: Ref)                 // from rwlock_wlock to the load of obj->copy
    | Store(copy: Ref, prev: Option<Ref>)  // before the store to obj->copy
    | Stored(prev: Option<Ref>)            // before rwlock_wunlock
    // stm_release
    | Deleting                            // from rwlock_wlock to the release of obj->copy
    | Dropped                             // before obj->copy = NULL
    | Cleared                             // before rwlock_wunlock

  /** A thread, with the copy that its reader remembers from the last call. */
  datatype Agent = Agent(job: Job, last: Option<Ref>)

  datatype State = State(
    lock: RwLock.Lock,
    copy: Option<Ref>,      // obj->copy
    owned: bool,            // the object's own reference to it has not been given back
    heap: map<nat, Copy>,   // the allocated copies, by address
    agents: map<nat, Agent>,
    stamp: nat,             // how many copies were ever made
    freed: seq<nat>         // the tags of those that were freed, in order
  )

  function AgentAt(s: State, t: nat): Agent {
    if t in s.agents then s.agents[t] else Agent(Idle, None)
  }

  /** stm_new */
  function Start(id: nat): State {
    State(RwLock.Start(), Some(Ref(id, 0)), true, map[id := Copy(1, 0)], map[], 1, [])
  }

  // ----- steps -----

  /** What an idle thread starts; stm_newcopy may return any address that is not in use. */
  datatype Action = Read | Update(id: nat) | Delete | CloseReader | Go

  predicate Enabled(s: State, t: nat, a: Action) {
    && (a.Go? <==> !AgentAt(s, t).job.Idle?)
    && (a.Update? ==> a.id !in s.heap)
  }

  /** The thread is in a lock function, or has just got through it. */
  predicate Locking(job: Job) {
    job.Reading? || job.Updating? || job.Deleting?
  }

  predicate Inside(s: State, t: nat) {
    RwLock.PcOf(s.lock, t).ReadIn? || RwLock.PcOf(s.lock, t).WriteIn?
  }

  function LockStep(s: State, t: nat, a: RwLock.Action): State {
    if RwLock.Enabled(s.lock, t, a) then s.(lock := RwLock.Next(s.lock, t, a)) else s
  }

  function To(s: State, t: nat, job: Job): State {
    s.(agents := s.agents[t := AgentAt(s, t).(job := job)])
  }

  function Remember(s: State, t: nat, last: Option<Ref>): State {
    s.(agents := s.agents[t := AgentAt(s, t).(last := last)])
  }

  /** ATOM_FINC of the count of `r` */
  function Inc(s: State, r: Ref): State {
    if r.id in s.heap
    then s.(heap := s.heap[r.id := s.heap[r.id].(reference := s.heap[r.id].reference + 1)])
    else s
  }

  /** stm_releasecopy: the count goes down, and the copy is freed at 0. */
  function Dec(s: State, r: Option<Ref>): State {
    if r.None? || r.value.id !in s.heap then s
    else
      var c := s.heap[r.value.id];
      if c.reference == 1
      then s.(heap := s.heap - {r.value.id}, freed := s.freed + [c.tag])
      else s.(heap := s.heap[r.value.id := c.(reference := c.reference - 1)])
  }

  predicate SamePointer(a: Option<Ref>, b: Option<Ref>) {
    if a.Some? && b.Some? then a.value.id == b.value.id else a.None? && b.None?
  }

  /** An idle thread starts something. */
  function Begin(s: State, t: nat, a: Action): State {
    match a
    case Read => To(LockStep(s, t, RwLock.CallRead), t, Reading)
    case Update(id) =>
      To(LockStep(s, t, RwLock.CallWrite), t, Updating(Ref(id, s.stamp)))
        .(heap := s.heap[id := Copy(1, s.stamp)], stamp := s.stamp + 1)
    case Delete => To(LockStep(s, t, RwLock.CallWrite), t, Deleting)
    case CloseReader => Remember(Dec(s, AgentAt(s, t).last), t, None)
    case Go => s
  }

  /** A thread goes on with its job, outside the lock functions. */
  function Proceed(s: State, t: nat): State {
    var me := AgentAt(s, t);
    match me.job
    case Idle => s
    case Reading => To(s, t, if s.copy.None? then Taken(None) else Loaded(s.copy.value))
    case Loaded(ret) => To(Inc(s, ret), t, Taken(Some(ret)))
    case Taken(got) => To(LockStep(s, t, RwLock.Go), t, Compare(got))
    case Compare(got) => To(s, t, if SamePointer(got, me.last) then Release(got) else Swap(got))
    case Swap(got) => To(Remember(Dec(s, me.last), t, got), t, Idle)
    case Release(prev) => To(Dec(s, prev), t, Idle)
    case Updating(copy) => To(s, t, Store(copy, s.copy))
    case Store(copy, prev) => To(s, t, Stored(prev)).(copy := Some(copy))
    case Stored(prev) => To(LockStep(s, t, RwLock.Go), t, Release(prev))
    case Deleting => To(Dec(s, s.copy), t, Dropped).(owned := false)
    case Dropped => To(s, t, Cleared).(copy := None, owned := true)
    case Cleared => To(LockStep(s, t, RwLock.Go), t, Idle)
  }

  function Next(s: State, t: nat, a: Action): State
    requires Enabled(s, t, a)
  {
    if AgentAt(s, t).job.Idle? then Begin(s, t, a)
    else if Locking(AgentAt(s, t).job) && !Inside(s, t) then LockStep(s, t, RwLock.Go)
    else Proceed(s, t)
  }

  // ----- who holds a copy -----

  predicate Is(r: Option<Ref>, id: nat) {
    r.Some? && r.value.id == id
  }

  /** The reference that a job owns. */
  function Owned(job: Job): Option<Ref> {
    match job
    case Taken(got) => got
    case Compare(got) => got
    case Swap(got) => got
    case Release(prev) => prev
    case Updating(copy) => Some(copy)
    case Store(copy, _) => Some(copy)
    case Stored(prev) => prev
    case _ => None
  }

  function Published(s: State): Option<Ref> {
    if s.owned then s.copy else None
  }

  function Rememberers(s: State, id: nat): set<nat> {
    set t | t in s.agents && Is(s.agents[t].last, id)
  }

  function Workers(s: State, id: nat): set<nat> {
    set t | t in s.agents && Is(Owned(s.agents[t].job), id)
  }

  function One(b: bool): int {
    if b then 1 else 0
  }

  /** How many references to the copy at `id` there are. */
  function Holders(s: State, id: nat): int {
    |Rememberers(s, id)| + |Workers(s, id)| + One(Is(Published(s), id))
  }

  function Count(s: State, id: nat): int {
    if id in s.heap then s.heap[id].reference else 0
  }

  // ----- the invariant -----

  /** Which instructions of the lock go with a job. */
  predicate Agree(job: Job, pc: RwLock.Pc) {
    match job
    case Reading => !pc.Out? && !pc.WriteSpin? && !pc.WriteDrain? && !pc.WriteIn?
    case Loaded(_) => pc.ReadIn?
    case Taken(_) => pc.ReadIn?
    case Updating(_) => pc.WriteSpin? || pc.WriteDrain? || pc.WriteIn?
    case Store(_, _) => pc.WriteIn?
    case Stored(_) => pc.WriteIn?
    case Deleting => pc.WriteSpin? || pc.WriteDrain? || pc.WriteIn?
    case Dropped => pc.WriteIn?
    case Cleared => pc.WriteIn?
    case _ => pc.Out?
  }

  /** A reference leads to the copy it was obtained from. */
  predicate Good(s: State, r: Option<Ref>) {
    r.Some? ==> r.value.id in s.heap && s.heap[r.value.id].tag == r.value.tag
  }

  /** What a job knows about the object while it is inside the lock. */
  predicate Knows(s: State, job: Job) {
    && (job.Loaded? ==> Published(s) == Some(job.ret))
    && (job.Store? ==> s.owned && s.copy == job.prev)
  }

  predicate ThreadOk(s: State, t: nat) {
    var a := AgentAt(s, t);
    && Agree(a.job, RwLock.PcOf(s.lock, t))
    && Good(s, a.last)
    && Good(s, Owned(a.job))
    && Knows(s, a.job)
    && (a.job.Dropped? <==> !s.owned && RwLock.PcOf(s.lock, t).WriteIn?)
  }

  predicate TagsOk(s: State) {
    && (forall id :: id in s.heap ==> s.heap[id].tag < s.stamp && s.heap[id].tag !in s.freed && s.heap[id].reference > 0)
    && (forall i, j :: i in s.heap && j in s.heap && s.heap[i].tag == s.heap[j].tag ==> i == j)
    && (forall k :: 0 <= k < |s.freed| ==> s.freed[k] < s.stamp)
    && (forall i, j :: 0 <= i < j < |s.freed| ==> s.freed[i] != s.freed[j])
    && (forall tag :: 0 <= tag < s.stamp && tag !in s.freed ==> InHeap(s, tag))
  }

  predicate InHeap(s: State, tag: nat) {
    exists id :: id in s.heap && s.heap[id].tag == tag
  }

  ghost predicate Inv(s: State) {
    && RwLock.Inv(s.lock)
    && Good(s, Published(s))
    && (!s.owned ==> RwLock.InsideWriters(s.lock) != {})
    && (forall t :: ThreadOk(s, t))
    && (forall id :: Holders(s, id) == Count(s, id))
    && TagsOk(s)
  }

  lemma StartOk(id: nat)
    ensures Inv(Start(id))
  {
    RwLock.StartOk();
    var s := Start(id);
    forall i ensures Holders(s, i) == Count(s, i) {
      assert Rememberers(s, i) == {} && Workers(s, i) == {};
    }
    assert InHeap(s, 0) by { assert s.heap[id].tag == 0; }
  }

  // ----- the counts -----

  /** The references that change hands when one thread steps. */
  function Local(s: State, t: nat, id: nat): int {
    One(Is(AgentAt(s, t).last, id)) + One(Is(Owned(AgentAt(s, t).job), id)) + One(Is(Published(s), id))
  }

  predicate OnlyMoved(s: State, s': State, t: nat) {
    s'.agents == s.agents || s'.agents == s.agents[t := AgentAt(s', t)]
  }

  lemma HoldersMoved(s: State, s': State, t: nat, id: nat)
    requires OnlyMoved(s, s', t)
    ensures Holders(s', id) - Holders(s, id) == Local(s', t, id) - Local(s, t, id)
  {
    RememberersMoved(s, s', t, id);
    WorkersMoved(s, s', t, id);
  }

  lemma RememberersMoved(s: State, s': State, t: nat, id: nat)
    requires OnlyMoved(s, s', t)
    ensures |Rememberers(s', id)| - |Rememberers(s, id)| == One(Is(AgentAt(s', t).last, id)) - One(Is(AgentAt(s, t).last, id))
  {
    var prev, now := Rememberers(s, id), Rememberers(s', id);
    assert now - {t} == prev - {t};
    Without(prev, t);
    Without(now, t);
  }

  lemma WorkersMoved(s: State, s': State, t: nat, id: nat)
    requires OnlyMoved(s, s', t)
    ensures |Workers(s', id)| - |Workers(s, id)| == One(Is(Owned(AgentAt(s', t).job), id)) - One(Is(Owned(AgentAt(s, t).job), id))
  {
    var prev, now := Workers(s, id), Workers(s', id);
    assert now - {t} == prev - {t};
    Without(prev, t);
    Without(now, t);
  }

  lemma Without(x: set<nat>, t: nat)
    ensures |x| == |x - {t}| + One(t in x)
  {
    if t !in x {
      assert x - {t} == x;
    }
  }

  /** What a thread holds is counted. */
  lemma HeldIsCounted(s: State, t: nat, id: nat)
    ensures Holders(s, id) >= Local(s, t, id)
  {
    Without(Rememberers(s, id), t);
    Without(Workers(s, id), t);
  }

  lemma DecCounts(s: State, r: Option<Ref>, id: nat)
    requires Good(s, r)
    ensures Count(Dec(s, r), id) == Count(s, id) - One(Is(r, id))
  {
  }

  lemma IncCounts(s: State, r: Ref, id: nat)
    requires Good(s, Some(r))
    ensures Count(Inc(s, r), id) == Count(s, id) + One(r.id == id)
  {
  }

  /** Everything but the heap is untouched by counting. */
  lemma CountingOnly(s: State, r: Option<Ref>)
    ensures Dec(s, r) == s.(heap := Dec(s, r).heap, freed := Dec(s, r).freed)
    ensures r.Some? ==> Inc(s, r.value) == s.(heap := Inc(s, r.value).heap)
  {
  }

  lemma LockingOnly(s: State, t: nat, a: RwLock.Action)
    ensures LockStep(s, t, a) == s.(lock := LockStep(s, t, a).lock)
  {
  }

  /** A step changes a count by as much as it changes the references that the thread holds. */
  ghost predicate Balanced(s: State, s': State, t: nat) {
    && OnlyMoved(s, s', t)
    && forall id :: Count(s', id) - Count(s, id) == Local(s', t, id) - Local(s, t, id)
  }

  lemma BeginBalances(s: State, t: nat, a: Action)
    requires Enabled(s, t, a) && ThreadOk(s, t) && AgentAt(s, t).job.Idle?
    ensures Balanced(s, Begin(s, t, a), t)
  {
    hide LockStep, Dec, Agree;
    var last := AgentAt(s, t).last;
    LockingOnly(s, t, RwLock.CallRead);
    LockingOnly(s, t, RwLock.CallWrite);
    CountingOnly(s, last);
    forall id ensures Count(Dec(s, last), id) == Count(s, id) - One(Is(last, id)) {
      DecCounts(s, last, id);
    }
  }

  lemma ReadBalances(s: State, t: nat)
    requires ThreadOk(s, t) && Good(s, Published(s))
    requires var job := AgentAt(s, t).job; job.Reading? || job.Loaded? || job.Taken? || job.Compare?
    ensures Balanced(s, Proceed(s, t), t)
  {
    hide LockStep, Inc, Agree;
    LockingOnly(s, t, RwLock.Go);
    match AgentAt(s, t).job {
      case Loaded(ret) =>
        CountingOnly(s, Some(ret));
        forall id ensures Count(Inc(s, ret), id) == Count(s, id) + One(ret.id == id) {
          IncCounts(s, ret, id);
        }
      case _ =>
    }
  }

  lemma ReleaseBalances(s: State, t: nat)
    requires ThreadOk(s, t) && Good(s, Published(s))
    requires var job := AgentAt(s, t).job; job.Swap? || job.Release? || (job.Deleting? && s.owned)
    ensures Balanced(s, Proceed(s, t), t)
  {
    hide LockStep, Dec, Agree;
    var job := AgentAt(s, t).job;
    var r := if job.Swap? then AgentAt(s, t).last else if job.Release? then job.prev else s.copy;
    CountingOnly(s, r);
    forall id ensures Count(Dec(s, r), id) == Count(s, id) - One(Is(r, id)) {
      DecCounts(s, r, id);
    }
  }

  lemma WriteBalances(s: State, t: nat)
    requires ThreadOk(s, t)
    requires var job := AgentAt(s, t).job; job.Updating? || job.Store? || job.Stored? || job.Dropped? || job.Cleared?
    ensures Balanced(s, Proceed(s, t), t)
  {
    hide LockStep, Agree;
    LockingOnly(s, t, RwLock.Go);
  }

  lemma StepBalances(s: State, t: nat, a: Action)
    requires Inv(s) && Enabled(s, t, a)
    ensures Balanced(s, Next(s, t, a), t)
  {
    hide Balanced, LockStep, Begin, Proceed, Good, Holders, Count, TagsOk, Agree, Knows, RwLock.Inv;
    assert ThreadOk(s, t);
    var job := AgentAt(s, t).job;
    if job.Idle? {
      BeginBalances(s, t, a);
    } else if Locking(job) && !Inside(s, t) {
      LockBalances(s, t);
    } else if job.Reading? || job.Loaded? || job.Taken? || job.Compare? {
      ReadBalances(s, t);
    } else if job.Swap? || job.Release? || job.Deleting? {
      if job.Deleting? {
        AgreeInside(job, RwLock.PcOf(s.lock, t));
      }
      ReleaseBalances(s, t);
    } else {
      WriteBalances(s, t);
    }
  }

  lemma LockBalances(s: State, t: nat)
    ensures Balanced(s, LockStep(s, t, RwLock.Go), t)
  {
  }

  lemma AgreeInside(job: Job, pc: RwLock.Pc)
    requires Agree(job, pc) && (pc.ReadIn? || pc.WriteIn?)
    ensures job.Reading? || job.Loaded? || job.Taken? <==> pc.ReadIn?
    ensures job.Updating? || job.Store? || job.Stored? || job.Deleting? || job.Dropped? || job.Cleared? <==> pc.WriteIn?
  {
  }

  lemma CountsKept(s: State, t: nat, a: Action, id: nat)
    requires Inv(s) && Enabled(s, t, a)
    ensures Holders(Next(s, t, a), id) == Count(Next(s, t, a), id)
  {
    hide Holders, Count, Local, Next, ThreadOk, TagsOk, Good;
    StepBalances(s, t, a);
    HoldersMoved(s, Next(s, t, a), t, id);
  }

  // ----- tags -----

  /** Memory that stays allocated is still the same copy. */
  predicate SameCopies(s: State, s': State) {
    forall id :: id in s.heap && id in s'.heap ==> s'.heap[id].tag == s.heap[id].tag
  }

  lemma DecTags(s: State, r: Option<Ref>)
    requires TagsOk(s)
    ensures TagsOk(Dec(s, r)) && SameCopies(s, Dec(s, r))
  {
    var s' := Dec(s, r);
    if r.Some? && r.value.id in s.heap && s.heap[r.value.id].reference == 1 {
      FreeTags(s, s', r.value.id);
    } else {
      SameTags(s, s');
    }
  }

  lemma FreeTags(s: State, s': State, id: nat)
    requires TagsOk(s) && id in s.heap && s'.heap == s.heap - {id} && s'.freed == s.freed + [s.heap[id].tag] && s'.stamp == s.stamp
    ensures TagsOk(s') && SameCopies(s, s')
  {
    var gone := s.heap[id].tag;
    forall tag ensures tag in s'.freed <==> tag in s.freed || tag == gone {
    }
    forall tag | 0 <= tag < s'.stamp && tag !in s'.freed ensures InHeap(s', tag) {
      assert InHeap(s, tag);
      var i :| i in s.heap && s.heap[i].tag == tag;
      assert i in s'.heap && s'.heap[i].tag == tag;
    }
    forall i, j | 0 <= i < j < |s'.freed| ensures s'.freed[i] != s'.freed[j] {
      assert s'.freed[i] == s.freed[i] && s.freed[i] in s.freed;
    }
  }

  /** Only the counts change. */
  lemma SameTags(s: State, s': State)
    requires TagsOk(s) && s'.heap.Keys == s.heap.Keys && SameCopies(s, s') && s'.freed == s.freed && s'.stamp == s.stamp
    requires forall id :: id in s'.heap ==> s'.heap[id].reference > 0
    ensures TagsOk(s')
  {
    forall tag | 0 <= tag < s'.stamp && tag !in s'.freed ensures InHeap(s', tag) {
      assert InHeap(s, tag);
      var i :| i in s.heap && s.heap[i].tag == tag;
      assert i in s'.heap && s'.heap[i].tag == tag;
    }
  }

  lemma NewTags(s: State, s': State, id: nat)
    requires TagsOk(s) && id !in s.heap && s'.heap == s.heap[id := Copy(1, s.stamp)]
    requires s'.stamp == s.stamp + 1 && s'.freed == s.freed
    ensures TagsOk(s') && SameCopies(s, s')
  {
    forall tag | 0 <= tag < s'.stamp && tag !in s'.freed ensures InHeap(s', tag) {
      if tag == s.stamp {
        assert s'.heap[id].tag == tag;
      } else {
        assert InHeap(s, tag);
        var i :| i in s.heap && s.heap[i].tag == tag;
        assert i in s'.heap && s'.heap[i].tag == tag;
      }
    }
  }

  lemma IncTags(s: State, r: Ref)
    requires TagsOk(s)
    ensures TagsOk(Inc(s, r)) && SameCopies(s, Inc(s, r))
  {
    SameTags(s, Inc(s, r));
  }

  /** The tags speak of the heap alone. */
  lemma SameHeap(s: State, s': State)
    requires TagsOk(s) && s'.heap == s.heap && s'.stamp == s.stamp && s'.freed == s.freed
    ensures TagsOk(s') && SameCopies(s, s')
  {
    SameTags(s, s');
  }

  lemma BeginTags(s: State, t: nat, a: Action)
    requires TagsOk(s) && (a.Update? ==> a.id !in s.heap)
    ensures TagsOk(Begin(s, t, a)) && SameCopies(s, Begin(s, t, a))
  {
    hide TagsOk, SameCopies, LockStep, Dec;
    var s' := Begin(s, t, a);
    match a {
      case Update(id) =>
        LockingOnly(s, t, RwLock.CallWrite);
        NewTags(s, s', id);
      case CloseReader =>
        DecTags(s, AgentAt(s, t).last);
        SameHeap(Dec(s, AgentAt(s, t).last), s');
        Across(s, Dec(s, AgentAt(s, t).last), s');
      case _ =>
        LockingOnly(s, t, RwLock.CallWrite);
        LockingOnly(s, t, RwLock.CallRead);
        SameHeap(s, s');
    }
  }

  lemma Across(s: State, m: State, s': State)
    requires SameCopies(s, m) && s'.heap == m.heap
    ensures SameCopies(s, s')
  {
  }

  lemma ProceedTags(s: State, t: nat)
    requires TagsOk(s)
    ensures TagsOk(Proceed(s, t)) && SameCopies(s, Proceed(s, t))
  {
    hide TagsOk, SameCopies, LockStep, Dec, Inc;
    var s' := Proceed(s, t);
    var me := AgentAt(s, t);
    match me.job {
      case Loaded(ret) =>
        IncTags(s, ret);
        SameHeap(Inc(s, ret), s');
        Across(s, Inc(s, ret), s');
      case Swap(_) =>
        DecTags(s, me.last);
        SameHeap(Dec(s, me.last), s');
        Across(s, Dec(s, me.last), s');
      case Release(prev) =>
        DecTags(s, prev);
        SameHeap(Dec(s, prev), s');
        Across(s, Dec(s, prev), s');
      case Deleting =>
        DecTags(s, s.copy);
        SameHeap(Dec(s, s.copy), s');
        Across(s, Dec(s, s.copy), s');
      case _ =>
        LockingOnly(s, t, RwLock.Go);
        SameHeap(s, s');
    }
  }

  lemma StepTags(s: State, t: nat, a: Action)
    requires TagsOk(s) && Enabled(s, t, a)
    ensures TagsOk(Next(s, t, a)) && SameCopies(s, Next(s, t, a))
  {
    hide TagsOk, SameCopies, LockStep, Begin, Proceed;
    BeginTags(s, t, a);
    ProceedTags(s, t);
    LockingOnly(s, t, RwLock.Go);
    SameHeap(s, LockStep(s, t, RwLock.Go));
  }

  // ----- the lock and the object -----

  /** What a step of `t` leaves to the other threads. */
  ghost predicate LeavesOthers(s: State, s': State, t: nat) {
    && (forall u :: u != t ==> AgentAt(s', u) == AgentAt(s, u) && RwLock.PcOf(s'.lock, u) == RwLock.PcOf(s.lock, u))
    && ((s'.copy == s.copy && s'.owned == s.owned) || RwLock.PcOf(s.lock, t).WriteIn?)
  }

  predicate LockMoves(l: RwLock.Lock, l': RwLock.Lock, t: nat) {
    || l' == l
    || exists a :: RwLock.Enabled(l, t, a) && l' == RwLock.Next(l, t, a)
  }

  lemma LockStepMoves(s: State, t: nat, a: RwLock.Action)
    ensures LockMoves(s.lock, LockStep(s, t, a).lock, t) && LeavesOthers(s, LockStep(s, t, a), t)
  {
    hide RwLock.Next, RwLock.PcOf;
    if RwLock.Enabled(s.lock, t, a) {
      RwLock.OthersStay(s.lock, t, a);
    }
  }

  lemma BeginLeaves(s: State, t: nat, a: Action)
    requires AgentAt(s, t).job.Idle? && Agree(Idle, RwLock.PcOf(s.lock, t)) && !a.Go?
    ensures var s' := Begin(s, t, a);
            && LockMoves(s.lock, s'.lock, t) && LeavesOthers(s, s', t)
            && Agree(AgentAt(s', t).job, RwLock.PcOf(s'.lock, t))
  {
    hide LockStep, Dec, LockMoves, RwLock.PcOf;
    CountingOnly(s, AgentAt(s, t).last);
    LockStepMoves(s, t, RwLock.CallRead);
    LockStepMoves(s, t, RwLock.CallWrite);
    StayMoves(s.lock, t);
    LockingOnly(s, t, RwLock.CallRead);
    LockingOnly(s, t, RwLock.CallWrite);
    LockPcs(s, t);
  }

  /** Where the lock functions start and end. */
  lemma LockPcs(s: State, t: nat)
    ensures RwLock.PcOf(s.lock, t).Out? ==>
              && RwLock.PcOf(LockStep(s, t, RwLock.CallRead).lock, t).ReadSpin?
              && RwLock.PcOf(LockStep(s, t, RwLock.CallWrite).lock, t).WriteSpin?
    ensures RwLock.PcOf(s.lock, t).ReadIn? || RwLock.PcOf(s.lock, t).WriteIn? ==>
              RwLock.PcOf(LockStep(s, t, RwLock.Go).lock, t).Out?
  {
  }

  lemma ProceedLeaves(s: State, t: nat)
    requires ThreadOk(s, t) && (Locking(AgentAt(s, t).job) ==> Inside(s, t))
    ensures var s' := Proceed(s, t);
            && LockMoves(s.lock, s'.lock, t) && LeavesOthers(s, s', t)
            && Agree(AgentAt(s', t).job, RwLock.PcOf(s'.lock, t))
  {
    hide LockStep, Dec, Inc, LockMoves, Good, RwLock.PcOf;
    var me := AgentAt(s, t);
    LockPcs(s, t);
    LockStepMoves(s, t, RwLock.Go);
    LockingOnly(s, t, RwLock.Go);
    StayMoves(s.lock, t);
    match me.job {
      case Loaded(ret) => CountingOnly(s, Some(ret));
      case Swap(_) => CountingOnly(s, me.last);
      case Release(prev) => CountingOnly(s, prev);
      case Deleting => CountingOnly(s, s.copy);
      case _ =>
    }
  }

  lemma StayMoves(l: RwLock.Lock, t: nat)
    ensures LockMoves(l, l, t)
  {
  }

  lemma LockLeaves(s: State, t: nat)
    requires ThreadOk(s, t) && Locking(AgentAt(s, t).job) && !Inside(s, t)
    ensures var s' := LockStep(s, t, RwLock.Go);
            && LockMoves(s.lock, s'.lock, t) && LeavesOthers(s, s', t)
            && Agree(AgentAt(s', t).job, RwLock.PcOf(s'.lock, t))
  {
    hide LockMoves;
    LockStepMoves(s, t, RwLock.Go);
  }

  lemma StepLeaves(s: State, t: nat, a: Action)
    requires ThreadOk(s, t) && Enabled(s, t, a)
    ensures var s' := Next(s, t, a);
            && LockMoves(s.lock, s'.lock, t) && LeavesOthers(s, s', t)
            && Agree(AgentAt(s', t).job, RwLock.PcOf(s'.lock, t))
  {
    hide LockMoves, LeavesOthers, LockStep, Begin, Proceed, Good, RwLock.PcOf;
    var job := AgentAt(s, t).job;
    if job.Idle? {
      BeginLeaves(s, t, a);
    } else if Locking(job) && !Inside(s, t) {
      LockLeaves(s, t);
    } else {
      ProceedLeaves(s, t);
    }
  }

  // ----- references -----

  /** Where a reference may come from in a step. */
  predicate Known(s: State, a: Action, t: nat, r: Option<Ref>) {
    || r == None
    || r == AgentAt(s, t).last
    || r == Owned(AgentAt(s, t).job)
    || r == Published(s)
    || (a.Update? && r == Some(Ref(a.id, s.stamp)))
  }

  /** What a thread has in hand after a step it had before, or it is the newly made copy. */
  predicate Follows(s: State, s': State, t: nat, a: Action) {
    && Known(s, a, t, AgentAt(s', t).last)
    && Known(s, a, t, Owned(AgentAt(s', t).job))
    && Known(s, a, t, Published(s'))
    && Knows(s', AgentAt(s', t).job)
    && (AgentAt(s', t).job.Dropped? <==> !s'.owned && RwLock.PcOf(s'.lock, t).WriteIn?)
    && (s'.owned || AgentAt(s', t).job.Dropped? || (!s.owned && !AgentAt(s, t).job.Dropped?))
    && (a.Update? ==> a.id in s'.heap && s'.heap[a.id].tag == s.stamp)
  }

  lemma BeginFollows(s: State, t: nat, a: Action)
    requires ThreadOk(s, t) && AgentAt(s, t).job.Idle? && !a.Go?
    ensures Follows(s, Begin(s, t, a), t, a)
  {
    hide Dec, LockStep, Good, RwLock.PcOf;
    CountingOnly(s, AgentAt(s, t).last);
    LockingOnly(s, t, RwLock.CallRead);
    LockingOnly(s, t, RwLock.CallWrite);
    LockPcs(s, t);
  }

  lemma LockFollows(s: State, t: nat)
    requires ThreadOk(s, t) && Locking(AgentAt(s, t).job) && !Inside(s, t)
    requires !s.owned ==> !Inside(LockStep(s, t, RwLock.Go), t)
    ensures Follows(s, LockStep(s, t, RwLock.Go), t, Go)
  {
    hide LockStep, Good, RwLock.PcOf;
    LockingOnly(s, t, RwLock.Go);
  }

  lemma ProceedFollows(s: State, t: nat)
    requires ThreadOk(s, t) && (Locking(AgentAt(s, t).job) ==> Inside(s, t))
    requires Inside(s, t) ==> s.owned || AgentAt(s, t).job.Dropped?
    ensures Follows(s, Proceed(s, t), t, Go)
  {
    hide Dec, Inc, LockStep, Good, RwLock.PcOf;
    var me := AgentAt(s, t);
    LockingOnly(s, t, RwLock.Go);
    LockPcs(s, t);
    match me.job {
      case Loaded(ret) => CountingOnly(s, Some(ret));
      case Swap(_) => CountingOnly(s, me.last);
      case Release(prev) => CountingOnly(s, prev);
      case Deleting => CountingOnly(s, s.copy);
      case _ =>
    }
  }

  /** While the object's reference is given back, the thread that does it is alone. */
  lemma NotOwned(s: State, t: nat, a: Action)
    requires Inv(s) && Enabled(s, t, a) && !s.owned && !AgentAt(s, t).job.Dropped?
    requires RwLock.Inv(Next(s, t, a).lock) && LeavesOthers(s, Next(s, t, a), t)
    ensures !Inside(s, t) && !Inside(Next(s, t, a), t)
  {
    hide Next, Holders, Count, TagsOk, Good, RwLock.Inv;
    var w :| w in RwLock.InsideWriters(s.lock);
    assert ThreadOk(s, w) && w != t;
    RwLock.WriterAlone(s.lock, w, t);
    RwLock.WriterAlone(Next(s, t, a).lock, w, t);
  }

  lemma StepFollows(s: State, t: nat, a: Action)
    requires Inv(s) && Enabled(s, t, a)
    requires RwLock.Inv(Next(s, t, a).lock) && LeavesOthers(s, Next(s, t, a), t)
    ensures Follows(s, Next(s, t, a), t, a)
  {
    hide Holders, Count, TagsOk, Good, RwLock.Inv, Begin, LockStep, Proceed, Follows, LeavesOthers, Agree, Knows;
    assert ThreadOk(s, t);
    if !s.owned && !AgentAt(s, t).job.Dropped? {
      NotOwned(s, t, a);
    }
    var job := AgentAt(s, t).job;
    if job.Idle? {
      BeginFollows(s, t, a);
    } else if Locking(job) && !Inside(s, t) {
      LockFollows(s, t);
    } else {
      ProceedFollows(s, t);
    }
  }

  // ----- every step keeps the invariant -----

  lemma LockKept(s: State, s': State, t: nat)
    requires RwLock.Inv(s.lock) && LockMoves(s.lock, s'.lock, t)
    ensures RwLock.Inv(s'.lock)
  {
    hide RwLock.Next, RwLock.Inv;
    if s'.lock != s.lock {
      var a :| RwLock.Enabled(s.lock, t, a) && s'.lock == RwLock.Next(s.lock, t, a);
      RwLock.StepKeepsInv(s.lock, t, a);
    }
  }

  /** A reference that is held and was good is good after the step: its copy cannot be freed. */
  lemma GoodKept(s: State, s': State, u: nat, r: Option<Ref>)
    requires Good(s, r) && SameCopies(s, s') && (r.Some? ==> Holders(s', r.value.id) == Count(s', r.value.id))
    requires r == AgentAt(s', u).last || r == Owned(AgentAt(s', u).job) || r == Published(s')
    ensures Good(s', r)
  {
    if r.Some? {
      HeldIsCounted(s', u, r.value.id);
    }
  }

  lemma KnownIsGood(s: State, s': State, t: nat, a: Action, r: Option<Ref>)
    requires ThreadOk(s, t) && Good(s, Published(s)) && Known(s, a, t, r) && Follows(s, s', t, a)
    ensures Good(s, r) || Good(s', r)
  {
  }

  lemma ThreadKept(s: State, s': State, t: nat, a: Action, u: nat)
    requires Inv(s) && LeavesOthers(s, s', t) && Follows(s, s', t, a) && SameCopies(s, s')
    requires Agree(AgentAt(s', t).job, RwLock.PcOf(s'.lock, t))
    requires forall id :: Holders(s', id) == Count(s', id)
    ensures ThreadOk(s', u)
  {
    hide Holders, Count, TagsOk, Good, RwLock.Inv, SameCopies, RwLock.PcOf, AgentAt, Agree, Published, Owned;
    assert ThreadOk(s, t) && ThreadOk(s, u);
    var me := AgentAt(s', u);
    if u == t {
      KnownIsGood(s, s', t, a, me.last);
      KnownIsGood(s, s', t, a, Owned(me.job));
    } else {
      OtherKnows(s, s', t, u);
    }
    if Good(s, me.last) {
      GoodKept(s, s', u, me.last);
    }
    if Good(s, Owned(me.job)) {
      GoodKept(s, s', u, Owned(me.job));
    }
  }

  lemma OtherKnows(s: State, s': State, t: nat, u: nat)
    requires Inv(s) && LeavesOthers(s, s', t) && u != t && ThreadOk(s, t) && ThreadOk(s, u)
    ensures Knows(s', AgentAt(s, u).job)
    ensures AgentAt(s, u).job.Dropped? <==> !s'.owned && RwLock.PcOf(s.lock, u).WriteIn?
  {
    hide Holders, Count, TagsOk, Good, RwLock.Inv, RwLock.PcOf, AgentAt;
    if RwLock.PcOf(s.lock, t).WriteIn? {
      RwLock.WriterAlone(s.lock, t, u);
    }
  }

  /** Every step of every thread keeps the invariant. */
  lemma StepKeepsInv(s: State, t: nat, a: Action)
    requires Inv(s) && Enabled(s, t, a)
    ensures Inv(Next(s, t, a))
  {
    var s' := Next(s, t, a);
    hide Holders, Count, TagsOk, Good, RwLock.Inv, SameCopies, RwLock.PcOf, AgentAt, Agree, Published, Owned, Next, LeavesOthers, Follows, LockMoves;
    assert ThreadOk(s, t);
    StepLeaves(s, t, a);
    LockKept(s, s', t);
    StepFollows(s, t, a);
    StepTags(s, t, a);
    forall id ensures Holders(s', id) == Count(s', id) {
      CountsKept(s, t, a, id);
    }
    forall u ensures ThreadOk(s', u) {
      ThreadKept(s, s', t, a, u);
    }
    PublishedKept(s, s', t, a);
    WriterKept(s, s', t, a);
  }

  lemma PublishedKept(s: State, s': State, t: nat, a: Action)
    requires ThreadOk(s, t) && Good(s, Published(s)) && Follows(s, s', t, a) && SameCopies(s, s')
    requires forall id :: Holders(s', id) == Count(s', id)
    ensures Good(s', Published(s'))
  {
    hide Holders, Count, SameCopies, RwLock.PcOf, AgentAt, Agree, Owned;
    KnownIsGood(s, s', t, a, Published(s'));
    if Good(s, Published(s')) {
      GoodKept(s, s', t, Published(s'));
    }
  }

  lemma WriterKept(s: State, s': State, t: nat, a: Action)
    requires Inv(s) && LeavesOthers(s, s', t) && Follows(s, s', t, a) && ThreadOk(s', t)
    ensures !s'.owned ==> RwLock.InsideWriters(s'.lock) != {}
  {
    hide Holders, Count, TagsOk, Good, RwLock.Inv, AgentAt;
    assert ThreadOk(s, t);
    if !s'.owned {
      RwLock.Present(s'.lock, t);
      if !AgentAt(s', t).job.Dropped? {
        var w :| w in RwLock.InsideWriters(s.lock);
        RwLock.Present(s.lock, w);
        RwLock.Present(s'.lock, w);
      }
    }
  }

  // ----- every run -----

  datatype Move = Move(thread: nat, action: Action)

  predicate IsStep(s: State, m: Move, s': State) {
    Enabled(s, m.thread, m.action) && s' == Next(s, m.thread, m.action)
  }

  ghost predicate IsRun(states: seq<State>, moves: seq<Move>, id: nat) {
    && |states| == |moves| + 1
    && states[0] == Start(id)
    && forall k :: 0 <= k < |moves| ==> IsStep(states[k], moves[k], states[k + 1])
  }

  lemma {:induction false} RunsKeepInv(states: seq<State>, moves: seq<Move>, id: nat, k: nat)
    requires IsRun(states, moves, id) && k < |states|
    ensures Inv(states[k])
    decreases k
  {
    hide Inv, Next;
    if k == 0 {
      StartOk(id);
    } else {
      RunsKeepInv(states, moves, id, k - 1);
      assert IsStep(states[k - 1], moves[k - 1], states[k]);
      StepKeepsInv(states[k - 1], moves[k - 1].thread, moves[k - 1].action);
    }
  }

  /** In every run a copy is allocated exactly as long as somebody holds it, and its count is how many do. */
  lemma AllocatedWhileHeld(states: seq<State>, moves: seq<Move>, start: nat, k: nat, id: nat)
    requires IsRun(states, moves, start) && k < |states|
    ensures id in states[k].heap <==> Holders(states[k], id) > 0
    ensures id in states[k].heap ==> states[k].heap[id].reference == Holders(states[k], id)
  {
    hide Holders;
    RunsKeepInv(states, moves, start, k);
    assert Holders(states[k], id) == Count(states[k], id);
  }

  /** In every run each copy ever made is either allocated or has been freed once. */
  lemma FreedOnce(states: seq<State>, moves: seq<Move>, start: nat, k: nat, tag: nat)
    requires IsRun(states, moves, start) && k < |states| && tag < states[k].stamp
    ensures multiset(states[k].freed)[tag] == if InHeap(states[k], tag) then 0 else 1
  {
    hide Holders, Count, ThreadOk;
    RunsKeepInv(states, moves, start, k);
    Once(states[k].freed, tag);
  }

  lemma {:induction false} Once(x: seq<nat>, e: nat)
    requires forall i, j :: 0 <= i < j < |x| ==> x[i] != x[j]
    ensures multiset(x)[e] == if e in x then 1 else 0
  {
    if x != [] {
      assert x == x[..|x| - 1] + [x[|x| - 1]];
      Once(x[..|x| - 1], e);
    }
  }

  /** The pointer that a thread is about to follow. */
  function Touched(s: State, t: nat): Option<Ref> {
    match AgentAt(s, t).job
    case Loaded(ret) => Some(ret)
    case Release(prev) => prev
    case Swap(_) => AgentAt(s, t).last
    case Idle => AgentAt(s, t).last
    case Deleting => if Inside(s, t) then s.copy else None
    case _ => None
  }

  /**
    In every run nobody follows a pointer to a freed copy, not even one whose address is in use
    again: the copy found there is the one the pointer was obtained from. Its count is positive, so
    the assertion in stm_copy holds.
   */
  lemma NoUseAfterFree(states: seq<State>, moves: seq<Move>, start: nat, k: nat, t: nat)
    requires IsRun(states, moves, start) && k < |states|
    ensures var s := states[k];
            Touched(s, t).Some? ==>
              && Touched(s, t).value.id in s.heap
              && s.heap[Touched(s, t).value.id].tag == Touched(s, t).value.tag
              && s.heap[Touched(s, t).value.id].reference > 0
  {
    hide Holders, Count, RwLock.Inv, RwLock.PcOf;
    var s := states[k];
    RunsKeepInv(states, moves, start, k);
    assert ThreadOk(s, t);
    if AgentAt(s, t).job.Deleting? && Inside(s, t) {
      AgreeInside(Deleting, RwLock.PcOf(s.lock, t));
    }
  }

  /** lread says "not updated" exactly when the newest copy is the one it returned the last time. */
  lemma ReadComparesCopies(states: seq<State>, moves: seq<Move>, start: nat, k: nat, t: nat)
    requires IsRun(states, moves, start) && k < |states| && AgentAt(states[k], t).job.Compare?
    ensures var a := AgentAt(states[k], t); SamePointer(a.job.got, a.last) <==> a.job.got == a.last
  {
    hide Holders, Count, RwLock.Inv, RwLock.PcOf, TagsOk;
    RunsKeepInv(states, moves, start, k);
    assert ThreadOk(states[k], t);
  }

  /** What a reader takes is what the object holds at that moment, and no update happens meanwhile. */
  lemma ReaderSeesNewest(states: seq<State>, moves: seq<Move>, start: nat, k: nat, t: nat)
    requires IsRun(states, moves, start) && k < |states| && AgentAt(states[k], t).job.Loaded?
    ensures Published(states[k]) == Some(AgentAt(states[k], t).job.ret)
  {
    hide Holders, Count, RwLock.Inv, RwLock.PcOf, TagsOk;
    RunsKeepInv(states, moves, start, k);
    assert ThreadOk(states[k], t);
  }
}
