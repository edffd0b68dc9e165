/**
  The handle table of skynet_handle.c with its operations. The slot table behaves as a map from
  handles to contexts, the sorted array as a map from names to handles.
 */
module HandleStorage {
  import opened Common
  import opened HandleTable
  import opened HandleNames

  datatype Naming = Named | Taken | NoRoom

  class Storage {
    const harbor: nat
    var handleIndex: nat
    var slotSize: nat
    var slot: array<Option<Registered>>
    var nameCap: nat
    var nameCount: nat
    var name: array<NameEntry>

    ghost predicate SlotsValid()
      reads this, slot
    {
      slot.Length == slotSize && SlotsOk(slot[..], harbor) && 1 <= handleIndex <= HANDLES
    }

    ghost predicate NamesValid()
      reads this, name
    {
      name.Length == nameCap && IsCapacity(nameCap) && nameCount <= nameCap && Sorted(Names())
    }

    ghost predicate Valid()
      reads this, slot, name
    {
      SlotsValid() && NamesValid()
    }

    /** The context that a handle stands for. */
    ghost function Get(h: nat): Option<nat>
      requires slot.Length > 0
      reads this, slot
    {
      Lookup(slot[..], h)
    }

    ghost function Names(): seq<NameEntry>
      requires nameCount <= name.Length
      reads this, name
    {
      name[..nameCount]
    }

    /** skynet_handle_init */
    constructor (h: nat)
      ensures Valid() && harbor == h % 256 && fresh(slot) && fresh(name)
      ensures (forall g :: Get(g) == None) && Names() == [] && handleIndex == 1
    {
      harbor := h % 256;
      handleIndex := 1;
      slotSize := DEFAULT_SLOT_SIZE;
      slot := new Option<Registered>[DEFAULT_SLOT_SIZE](_ => None);
      nameCap, nameCount := 2, 0;
      name := new NameEntry[2](_ => NameEntry([], 0));
    }

    // ----- contexts -----

    /** The scan of skynet_handle_register: the first free place, counted from handle_index. */
    method FindSlot() returns (r: Option<nat>)
      requires SlotsValid()
      ensures r.Some? ==> FirstFree(slot[..], handleIndex, r.value)
      ensures r.None? <==> Full(slot[..])
    {
      for i := 0 to slotSize
        invariant forall j :: 0 <= j < i ==> slot[At(handleIndex, j, slotSize)].Some?
      {
        if slot[At(handleIndex, i, slotSize)].None? {
          return Some(i);
        }
      }
      forall k | 0 <= k < slotSize ensures slot[k].Some? {
        SizeDivides(slotSize);
        var i := ScanReaches(handleIndex, slotSize, k);
        assert At(handleIndex, i, slotSize) == k;
      }
      return None;
    }

    /** The doubling of skynet_handle_register; no two contexts meet in a slot. */
    method Grow()
      requires SlotsValid() && slotSize < HANDLES && Full(slot[..])
      modifies this`slot, this`slotSize
      ensures SlotsValid() && fresh(slot) && Doubled(old(slot[..]), slot[..])
      ensures forall g :: Get(g) == old(Get(g))
      ensures !Full(slot[..])
    {
      hide Lookup, InPlace;
      var bigger := Rehash();
      ghost var was := slot[..];
      DoubledOk(was, bigger[..], harbor);
      forall g: nat ensures Lookup(bigger[..], g) == Lookup(was, g) {
        DoubledKeeps(was, bigger[..], harbor, g);
      }
      slot := bigger;
      slotSize := 2 * slotSize;
      assert Placed(was, slot[..], 0);
      assert slot[..][0] == slot[0] && slot[..][|was|] == slot[|was|];
    }

    /** The loop that fills the bigger table */
    method Rehash() returns (bigger: array<Option<Registered>>)
      requires SlotsValid() && Full(slot[..])
      ensures fresh(bigger) && bigger.Length == 2 * slotSize && Doubled(slot[..], bigger[..])
    {
      var n := slotSize;
      ghost var was := slot[..];
      bigger := new Option<Registered>[2 * n](_ => None);
      for i := 0 to n
        invariant forall j :: 0 <= j < i ==> Placed(was, bigger[..], j)
        invariant forall j :: i <= j < n ==> Vacant(bigger[..], n, j)
        modifies bigger
      {
        var h := slot[i].value.handle % (2 * n);
        assert InPlace(was[i].value, i, n, harbor);
        ModDouble(slot[i].value.handle, n);
        assert Vacant(bigger[..], n, i);
        assert bigger[h] == None;
        ghost var before := bigger[..];
        bigger[h] := slot[i];
        StillPlaced(was, before, bigger[..], i, h);
      }
    }

    /**
      skynet_handle_register; None is the failed assertion that the handles are used up. `scanned`
      is the table in which a free slot is found: the old one, or the one twice as big.
     */
    method Register(ctx: nat) returns (r: Option<nat>, ghost scanned: Slots)
      requires Valid()
      modifies this, slot
      ensures Valid() && (slot == old(slot) || fresh(slot)) && name == old(name) && Names() == old(Names())
      ensures nameCap == old(nameCap)
      // the handle is not in use, and afterwards it leads to the context; nothing else changes
      ensures r.Some? ==> old(Get(r.value)) == None && r.value / HANDLES == harbor
      ensures r.Some? ==> forall g :: Get(g) == if g == r.value then Some(ctx) else old(Get(g))
      ensures r.Some? ==> handleIndex == r.value % HANDLES + 1
      // it is the first one from handle_index on, counted round, whose slot is free
      ensures r.Some? ==> if Full(old(slot[..])) then Doubled(old(slot[..]), scanned) else scanned == old(slot[..])
      ensures r.Some? ==> exists i: nat :: FirstFree(scanned, old(handleIndex), i) && r.value % HANDLES == (i + old(handleIndex)) % HANDLES
      // it is number 0 exactly when all the others up to the last one find their slots taken
      ensures r.Some? ==> |scanned| > 0 && (r.value % HANDLES == 0 <==> ZeroNext(scanned, old(handleIndex)))
      ensures r.None? <==> old(AllLive(slot[..], harbor))
      ensures r.None? ==> slot == old(slot) && slot[..] == old(slot[..])
    {
      hide Lookup;
      AllLiveIff(slot[..], harbor);
      var i := FindSlot();
      if i.None? {
        if slotSize == HANDLES {
          return None, [];
        }
        Grow();
        i := FindSlot();
      }
      scanned := slot[..];
      ZeroIff(scanned, handleIndex, i.value);
      var h := Put(i.value, ctx);
      r := Some(h);
    }

    /** The context goes to the free slot found. */
    method Put(i: nat, ctx: nat) returns (h: nat)
      requires Valid() && FirstFree(slot[..], handleIndex, i)
      modifies this`handleIndex, slot
      ensures Valid() && Names() == old(Names())
      ensures old(Get(h)) == None && h / HANDLES == harbor
      ensures forall g :: Get(g) == if g == h then Some(ctx) else old(Get(g))
      ensures handleIndex == h % HANDLES + 1 && h % HANDLES == (i + old(handleIndex)) % HANDLES
    {
      var low := (i + handleIndex) % HANDLES;
      h := HandleOf(low, harbor);
      SizeDivides(slotSize);
      HandleParts(low, harbor, slotSize);
      var hash := low % slotSize;
      ghost var was := slot[..];
      slot[hash] := Some(Registered(h, ctx));
      handleIndex := low + 1;
      assert slot[..] == was[hash := Some(Registered(h, ctx))];
      assert SlotsOk(slot[..], harbor) by {
        forall k | 0 <= k < slotSize && slot[k].Some? ensures InPlace(slot[..][k].value, k, slotSize, harbor) {
          if k != hash {
            assert InPlace(was[k].value, k, slotSize, harbor);
          }
        }
      }
      forall g: nat ensures Get(g) == if g == h then Some(ctx) else Lookup(was, g) {
        if g % slotSize == hash && g != h {
          assert Lookup(was, g) == None;
        }
      }
    }

    /** skynet_handle_grab */
    method Grab(h: nat) returns (r: Option<nat>)
      requires Valid()
      ensures r == Get(h)
    {
      var e := slot[h % slotSize];
      assert slot[..][h % slotSize] == e;
      if e.Some? && e.value.handle == h {
        return Some(e.value.ctx);
      }
      return None;
    }

    /** skynet_handle_retire, up to the release of the context that it returns */
    method Retire(h: nat) returns (r: Option<nat>)
      requires Valid()
      modifies this, slot, name
      ensures Valid() && slot == old(slot) && name == old(name)
      ensures r == old(Get(h))
      ensures forall g :: Get(g) == if g == h then None else old(Get(g))
      ensures Names() == if r.Some? then Without(old(Names()), h) else old(Names())
      ensures handleIndex == old(handleIndex)
    {
      var hash := h % slotSize;
      var e := slot[hash];
      ghost var was := slot[..];
      if e.Some? && e.value.handle == h {
        slot[hash] := None;
        assert slot[..] == was[hash := None];
        assert SlotsOk(slot[..], harbor) by {
          forall k | 0 <= k < slotSize && slot[k].Some? ensures InPlace(slot[..][k].value, k, slotSize, harbor) {
            assert InPlace(was[k].value, k, slotSize, harbor);
          }
        }
        RemoveNames(h);
        return Some(e.value.ctx);
      }
      return None;
    }

    // ----- names -----

    /** The compaction loop of skynet_handle_retire */
    method RemoveNames(h: nat)
      requires NamesValid()
      modifies this`nameCount, name
      ensures NamesValid() && Names() == Without(old(Names()), h)
    {
      hide IsCapacity, Sorted;
      var j := 0;
      ghost var was := name[..nameCount];
      for i := 0 to nameCount
        modifies name
        invariant 0 <= j <= i
        invariant name[i..nameCount] == was[i..]
        invariant name[..j] == Without(was[..i], h)
      {
        assert was[..i + 1][..i] == was[..i] && was[..i + 1][i] == was[i] == name[i];
        ghost var before := name[..j];
        if name[i].handle != h {
          if i != j {
            name[j] := name[i];
          }
          j := j + 1;
          assert name[..j] == before + [was[i]];
        } else {
          assert before + [] == before;
        }
        assert name[i + 1..nameCount] == was[i..][1..];
      }
      assert was[..nameCount] == was;
      nameCount := j;
      WithoutSorted(was, h);
    }

    /** The binary search that skynet_handle_findname and _insert_name share */
    method Locate(key: Name) returns (found: bool, k: nat)
      requires NamesValid()
      ensures found ==> k < nameCount && name[k].name == key
      ensures !found ==> GoesAt(Names(), k, key)
    {
      var begin, end := 0, nameCount - 1;
      while begin <= end
        invariant 0 <= begin <= end + 1 <= nameCount
        invariant forall i :: 0 <= i < begin ==> Before(name[i].name, key)
        invariant forall i :: end < i < nameCount ==> Before(key, name[i].name)
        decreases end - begin
      {
        var mid := (begin + end) / 2;
        var c := Compare(name[mid].name, key);
        CompareEqual(name[mid].name, key);
        CompareOpposite(name[mid].name, key);
        if c == 0 {
          return true, mid;
        }
        Halves(Names(), mid, key);
        if c < 0 {
          begin := mid + 1;
        } else {
          end := mid - 1;
        }
      }
      return false, begin;
    }

    /** skynet_handle_findname; 0 when there is no such name */
    method FindName(key: Name) returns (h: nat)
      requires NamesValid()
      ensures h == match Search(Names(), key) case None => 0 case Some(x) => x
    {
      var found, k := Locate(key);
      if found {
        SearchAt(Names(), k);
        return name[k].handle;
      }
      Missing(Names(), k, key);
      return 0;
    }

    /** skynet_handle_namehandle; `NoRoom` is the failed assertion about the size of the array. */
    method NameHandle(h: nat, key: Name) returns (r: Naming)
      requires Valid()
      modifies this, name
      ensures Valid() && slot == old(slot) && (name == old(name) || fresh(name))
      ensures forall g :: Get(g) == old(Get(g))
      ensures r == Taken <==> old(Search(Names(), key)).Some?
      ensures r == NoRoom <==> old(Search(Names(), key)).None? && |old(Names())| == MAX_SLOT_SIZE
      ensures forall k :: Search(Names(), k) == if k == key && r == Named then Some(h) else old(Search(Names(), k))
      ensures r != Named ==> Names() == old(Names())
    {
      var found, k := Locate(key);
      ghost var was := Names();
      if found {
        SearchAt(was, k);
        return Taken;
      }
      Missing(was, k, key);
      CapacityDoubles(nameCap);
      if nameCount >= nameCap && 2 * nameCap > MAX_SLOT_SIZE {
        return NoRoom;
      }
      InsertNameBefore(NameEntry(key, h), k);
      InsertedSorted(was, k, NameEntry(key, h));
      forall m ensures Search(Names(), m) == if m == key then Some(h) else Search(was, m) {
        InsertedSearch(was, k, NameEntry(key, h), m);
      }
      return Named;
    }

    /** _insert_name_before */
    method InsertNameBefore(e: NameEntry, before: nat)
      requires name.Length == nameCap > 0 && before <= nameCount <= nameCap
      modifies this`name, this`nameCap, this`nameCount, name
      ensures name.Length == nameCap > 0 && nameCount <= nameCap && (name == old(name) || fresh(name))
      ensures nameCap == if old(nameCount) == old(nameCap) then 2 * old(nameCap) else old(nameCap)
      ensures Names() == Inserted(old(Names()), before, e)
    {
      ghost var was := name[..nameCount];
      if nameCount >= nameCap {
        CopyAround(before);
      } else {
        ShiftUp(before);
      }
      name[before] := e;
      nameCount := nameCount + 1;
      assert name[..nameCount] == was[..before] + [e] + was[before..] by {
        assert name[..before] == was[..before] && name[before + 1..nameCount] == was[before..];
      }
    }

    /** The loops that copy into a bigger array and leave a gap */
    method CopyAround(before: nat)
      requires name.Length == nameCap == nameCount > 0 && before <= nameCount
      modifies this`name, this`nameCap
      ensures fresh(name) && name.Length == nameCap == 2 * old(nameCap)
      ensures name[..before] == old(name[..before])
      ensures name[before + 1..nameCount + 1] == old(name[before..nameCount])
    {
      var n := new NameEntry[2 * nameCap](_ => NameEntry([], 0));
      for i := 0 to before
        modifies n
        invariant n[..i] == name[..i]
      {
        n[i] := name[i];
      }
      for i := before to nameCount
        modifies n
        invariant n[..before] == name[..before]
        invariant n[before + 1..i + 1] == name[before..i]
      {
        n[i + 1] := name[i];
        assert n[before + 1..i + 2] == n[before + 1..i + 1] + [name[i]];
      }
      name := n;
      nameCap := 2 * nameCap;
    }

    /** The loop that makes room in place */
    method ShiftUp(before: nat)
      requires before <= nameCount < name.Length
      modifies name
      ensures name[..before] == old(name[..before])
      ensures name[before + 1..nameCount + 1] == old(name[before..nameCount])
    {
      ghost var was := name[..];
      var i := nameCount;
      while i > before
        invariant before <= i <= nameCount
        invariant forall k :: 0 <= k <= i ==> name[k] == was[k]
        invariant forall k :: i < k <= nameCount ==> name[k] == was[k - 1]
      {
        name[i] := name[i - 1];
        i := i - 1;
      }
      MovedUp(was, name[..], before, nameCount);
    }
  }

  lemma MovedUp(was: seq<NameEntry>, now: seq<NameEntry>, before: nat, n: nat)
    requires before <= n < |was| == |now|
    requires forall k :: 0 <= k <= before ==> now[k] == was[k]
    requires forall k :: before < k <= n ==> now[k] == was[k - 1]
    ensures now[..before] == was[..before] && now[before + 1..n + 1] == was[before..n]
  {
  }

  /** Neither place that slot `j` can go to is filled. */
  predicate Vacant(bigger: Slots, n: nat, j: nat)
    requires j < n && |bigger| == 2 * n
  {
    bigger[j] == None && bigger[j + n] == None
  }

  lemma StillPlaced(was: Slots, before: Slots, bigger: Slots, i: nat, h: nat)
    requires i < |was| && |before| == 2 * |was| && (h == i || h == i + |was|)
    requires was[i].Some? && h == was[i].value.handle % (2 * |was|) && bigger == before[h := was[i]]
    requires forall j :: 0 <= j < i ==> Placed(was, before, j)
    requires forall j :: i <= j < |was| ==> Vacant(before, |was|, j)
    ensures forall j :: 0 <= j <= i ==> Placed(was, bigger, j)
    ensures forall j :: i < j < |was| ==> Vacant(bigger, |was|, j)
  {
    assert Vacant(before, |was|, i);
    forall j | 0 <= j <= i ensures Placed(was, bigger, j) {
      if j < i {
        assert Placed(was, before, j);
      }
    }
    forall j | i < j < |was| ensures Vacant(bigger, |was|, j) {
      assert Vacant(before, |was|, j);
    }
  }

  /** The sizes that the name array can have */
  predicate IsCapacity(n: nat) {
    n in {2, 4, 8, 0x10, 0x20, 0x40, 0x80, 0x100, 0x200, 0x400, 0x800, 0x1000, 0x2000, 0x4000, 0x8000, 0x10000, 0x20000, 0x40000,
          0x80000, 0x100000, 0x200000, 0x400000, 0x800000, 0x1000000, 0x2000000, 0x4000000, 0x8000000, 0x10000000, 0x20000000, 0x40000000}
  }

  lemma CapacityDoubles(n: nat)
    requires IsCapacity(n)
    ensures n > 0 && (2 * n > MAX_SLOT_SIZE <==> n == MAX_SLOT_SIZE) && (n < MAX_SLOT_SIZE ==> IsCapacity(2 * n))
  {
  }

  lemma Halves(ns: seq<NameEntry>, mid: nat, key: Name)
    requires Sorted(ns) && mid < |ns|
    ensures Before(ns[mid].name, key) ==> forall i :: 0 <= i <= mid ==> Before(ns[i].name, key)
    ensures Before(key, ns[mid].name) ==> forall i :: mid <= i < |ns| ==> Before(key, ns[i].name)
  {
    forall i | 0 <= i < mid && Before(ns[mid].name, key) ensures Before(ns[i].name, key) {
      BeforeTransitive(ns[i].name, ns[mid].name, key);
    }
    forall i | mid < i < |ns| && Before(key, ns[mid].name) ensures Before(key, ns[i].name) {
      BeforeTransitive(key, ns[mid].name, ns[i].name);
    }
  }

  lemma Missing(ns: seq<NameEntry>, k: nat, key: Name)
    requires GoesAt(ns, k, key)
    ensures Search(ns, key) == None
  {
    forall i | 0 <= i < |ns| ensures ns[i].name != key {
      if i < k {
        BeforeNotSame(ns[i].name, key);
      } else {
        BeforeNotSame(key, ns[i].name);
      }
    }
    SearchNone(ns, key);
  }

  // ----- every run -----

  datatype Event = DoRegister(ctx: nat) | DoRetire(handle: nat) | DoName(handle: nat, key: Name)

  /** What happened: a registration with the handle it got, a retirement, an attempt to name a handle. */
  datatype Step = Registers(ctx: nat, handle: nat) | Retires(handle: nat) | Names(handle: nat, key: Name)

  predicate Answers(step: Step, e: Event) {
    match e
    case DoRegister(ctx) => step.Registers? && step.ctx == ctx
    case DoRetire(h) => step == Retires(h)
    case DoName(h, key) => step == Names(h, key)
  }

  /** The reference: the map from handles to contexts after some steps, */
  function Live(log: seq<Step>, h: nat): Option<nat> {
    if log == [] then None
    else
      var before := Live(log[..|log| - 1], h);
      match log[|log| - 1]
      case Registers(ctx, g) => if g == h then Some(ctx) else before
      case Retires(g) => if g == h then None else before
      case Names(_, _) => before
  }

  /** and the map from names to handles, in which the first to name wins. */
  function Called(log: seq<Step>, key: Name): Option<nat> {
    if log == [] then None
    else
      var before := Called(log[..|log| - 1], key);
      match log[|log| - 1]
      case Registers(_, _) => before
      case Retires(g) => if before == Some(g) && Live(log[..|log| - 1], g).Some? then None else before
      case Names(h, k) => if k == key && before == None then Some(h) else before
  }

  /** Every registration got a handle of this harbor that was not in use. */
  predicate HandlesFresh(log: seq<Step>, harbor: nat) {
    forall k :: 0 <= k < |log| && log[k].Registers? ==>
      Live(log[..k], log[k].handle) == None && log[k].handle / HANDLES == harbor
  }

  ghost predicate Agrees(s: Storage, log: seq<Step>)
    reads s, s.slot, s.name
  {
    && s.Valid()
    && (forall h :: s.Get(h) == Live(log, h))
    && (forall key :: Search(s.Names(), key) == Called(log, key))
    && HandlesFresh(log, s.harbor)
  }

  /** All handles of the harbor are in use. */
  ghost predicate HandlesUsedUp(log: seq<Step>, harbor: nat) {
    forall low: nat :: low < HANDLES ==> Live(log, HandleOf(low, harbor)).Some?
  }

  /** The operation fails: no handle is left, or no room for another name. */
  ghost predicate Fails(s: Storage, log: seq<Step>, e: Event)
    reads s, s.name
    requires s.nameCount <= s.name.Length
  {
    match e
    case DoRegister(_) => HandlesUsedUp(log, s.harbor)
    case DoRetire(_) => false
    case DoName(_, key) => Called(log, key) == None && |s.Names()| == MAX_SLOT_SIZE
  }

  lemma UsedUpIff(s: Storage, log: seq<Step>)
    requires Agrees(s, log)
    ensures AllLive(s.slot[..], s.harbor) <==> HandlesUsedUp(log, s.harbor)
  {
    hide Lookup, Live, HandleOf;
    forall low: nat ensures Lookup(s.slot[..], HandleOf(low, s.harbor)) == Live(log, HandleOf(low, s.harbor)) {
      assert s.Get(HandleOf(low, s.harbor)) == Live(log, HandleOf(low, s.harbor));
    }
  }

  lemma LogMore(log: seq<Step>, step: Step, harbor: nat)
    requires HandlesFresh(log, harbor)
    requires step.Registers? ==> Live(log, step.handle) == None && step.handle / HANDLES == harbor
    ensures HandlesFresh(log + [step], harbor) && (log + [step])[..|log|] == log
  {
    var all := log + [step];
    forall k | 0 <= k < |all| && all[k].Registers?
      ensures Live(all[..k], all[k].handle) == None && all[k].handle / HANDLES == harbor
    {
      assert all[..k] == log[..k];
      assert k == |log| ==> log[..k] == log;
    }
  }

  /** One operation. It fails exactly when it must, and then nothing has changed. */
  method Perform(s: Storage, e: Event, ghost log: seq<Step>) returns (step: Option<Step>)
    requires Agrees(s, log)
    modifies s, s.slot, s.name
    ensures (s.slot == old(s.slot) || fresh(s.slot)) && (s.name == old(s.name) || fresh(s.name))
    ensures step.None? <==> old(Fails(s, log, e))
    ensures step.None? ==> Agrees(s, log) && Fails(s, log, e)
    ensures step.Some? ==> Answers(step.value, e) && Agrees(s, log + [step.value])
  {
    hide Search, Lookup, Without, Sorted, SlotsOk, IsCapacity, HandleOf;
    UsedUpIff(s, log);
    match e {
      case DoRegister(ctx) =>
        var h, _ := s.Register(ctx);
        if h.None? {
          return None;
        }
        step := Some(Registers(ctx, h.value));
      case DoRetire(h) =>
        ghost var was := s.Names();
        forall key ensures Search(Without(was, h), key) == if Search(was, key) == Some(h) then None else Search(was, key) {
          WithoutSearch(was, h, key);
        }
        var _ := s.Retire(h);
        step := Some(Retires(h));
      case DoName(h, key) =>
        var r := s.NameHandle(h, key);
        if r.NoRoom? {
          return None;
        }
        step := Some(Names(h, key));
    }
    LogMore(log, step.value, s.harbor);
  }

  /**
    Any run of registrations, retirements and namings: the slot table is the map from handles to
    live contexts and the sorted array the map from names. The run goes on to its end, or up to an
    operation that must fail.
   */
  method Replay(harbor: nat, es: seq<Event>) returns (s: Storage, log: seq<Step>)
    ensures s.harbor == harbor % 256
    ensures |log| <= |es| && forall k :: 0 <= k < |log| ==> Answers(log[k], es[k])
    ensures Agrees(s, log)
    ensures |log| < |es| ==> Fails(s, log, es[|log|])
  {
    hide Agrees, Fails;
    s := Fresh(harbor);
    log := [];
    while |log| < |es|
      invariant |log| <= |es| && fresh(s) && fresh(s.slot) && fresh(s.name) && s.harbor == harbor % 256
      invariant forall k :: 0 <= k < |log| ==> Answers(log[k], es[k])
      invariant Agrees(s, log)
      decreases |es| - |log|
    {
      HasNames(s, log);
      var step := Perform(s, es[|log|], log);
      if step.None? {
        return;
      }
      log := log + [step.value];
    }
    HasNames(s, log);
  }

  lemma HasNames(s: Storage, log: seq<Step>)
    requires Agrees(s, log)
    ensures s.nameCount <= s.name.Length
  {
  }

  method Fresh(harbor: nat) returns (s: Storage)
    ensures fresh(s) && fresh(s.slot) && fresh(s.name) && Agrees(s, []) && s.harbor == harbor % 256
  {
    s := new Storage(harbor);
  }

  // ----- the number 0 -----

  /**
    Registering and retiring one context over and over brings the numbering round: the last
    registration returns handle 0, although no context but its own is in the table.
   */
  method NumberingGoesRound(ctx: nat) returns (s: Storage, h: Option<nat>)
    ensures h == Some(0) && s.Valid() && s.Get(0) == Some(ctx)
  {
    hide Lookup, Sorted, IsCapacity, Without, Doubled, InPlace;
    s := new Storage(0);
    for i := 1 to HANDLES
      invariant s.Valid() && fresh(s) && fresh(s.slot) && fresh(s.name) && s.harbor == 0
      invariant s.handleIndex == i && forall g :: s.Get(g) == None
    {
      var r := TakeNext(s, ctx);
      var _ := s.Retire(r);
    }
    var r := TakeNext(s, ctx);
    h := Some(r);
  }

  /** In an empty table the next handle is the one at handle_index. */
  method TakeNext(s: Storage, ctx: nat) returns (h: nat)
    requires s.Valid() && s.harbor == 0 && forall g :: s.Get(g) == None
    modifies s, s.slot
    ensures s.Valid() && (s.slot == old(s.slot) || fresh(s.slot)) && s.name == old(s.name)
    ensures h == old(s.handleIndex) % HANDLES && s.handleIndex == h + 1
    ensures forall g :: s.Get(g) == if g == h then Some(ctx) else None
  {
    hide Lookup, Sorted, IsCapacity, Doubled, InPlace, FirstFree;
    forall g: nat ensures Lookup(s.slot[..], g) == None {
      assert s.Get(g) == None;
    }
    NoneLive(s.slot[..], s.harbor);
    NotFull(s.slot[..], s.harbor);
    ghost var index := s.handleIndex;
    var r, scanned := s.Register(ctx);
    ghost var i: nat :| FirstFree(scanned, index, i) && r.value % HANDLES == (i + index) % HANDLES;
    NextIsFirst(scanned, index, i);
    h := r.value;
  }

  lemma NotFull(slots: Slots, harbor: nat)
    requires SlotsOk(slots, harbor) && forall k :: 0 <= k < |slots| ==> slots[k] == None
    ensures !Full(slots) && !AllLive(slots, harbor)
  {
    assert slots[0] == None;
    AllLiveIff(slots, harbor);
  }

  lemma NextIsFirst(slots: Slots, index: nat, i: nat)
    requires FirstFree(slots, index, i) && forall k :: 0 <= k < |slots| ==> slots[k] == None
    ensures i == 0
  {
    assert slots[At(index, 0, |slots|)] == None;
  }
}
