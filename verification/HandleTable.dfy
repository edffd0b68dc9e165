/**
  The handle table (skynet_handle.c): a slot table that maps handles to contexts and doubles when it
  is full, and a sorted array of names. A registered context has its handle from the moment of its
  registration. Each method is one section under the table's lock.
 */
module HandleTable {
  import opened Common

  const DEFAULT_SLOT_SIZE := 4
  const MAX_SLOT_SIZE := 0x40000000
  const HANDLES := 0x1000000  // HANDLE_MASK + 1

  /** A context in the table, with its handle. */
  datatype Registered = Registered(handle: nat, ctx: nat)

  type Slots = seq<Option<Registered>>

  // ----- arithmetic -----

  /** The table size divides the number of handles, as powers of two do. */
  predicate Divides(n: nat) {
    n > 0 && HANDLES % n == 0
  }

  lemma ModMod(x: int, n: nat)
    requires Divides(n)
    ensures x % HANDLES % n == x % n
  {
    var q := HANDLES / n;
    var k := x / HANDLES;
    assert x == k * HANDLES + x % HANDLES;
    assert HANDLES == n * q;
    Multiple(k, n, q);
    Shift(x % HANDLES, k * q, n);
  }

  lemma Multiple(k: int, n: int, q: int)
    ensures k * (n * q) == k * q * n
  {
  }

  lemma {:induction false} Shift(x: int, k: int, n: nat)
    requires n > 0
    ensures (x + k * n) % n == x % n
    decreases if k < 0 then -k else k
  {
    if k > 0 {
      Shift(x, k - 1, n);
      ShiftOne(x + (k - 1) * n, n);
      assert x + (k - 1) * n + n == x + k * n;
    } else if k < 0 {
      Shift(x, k + 1, n);
      ShiftOne(x + k * n, n);
      assert x + k * n + n == x + (k + 1) * n;
    }
  }

  lemma ShiftOne(x: int, n: nat)
    requires n > 0
    ensures (x + n) % n == x % n
  {
    var q, r := x / n, x % n;
    assert x == q * n + r;
    assert x + n == (q + 1) * n + r;
    Remainder(x + n, q + 1, r, n);
  }

  lemma Remainder(x: int, q: int, r: int, n: nat)
    requires n > 0 && x == q * n + r && 0 <= r < n
    ensures x % n == r
  {
    var d := q - x / n;
    assert x == x / n * n + x % n;
    assert d * n == q * n - x / n * n;
    assert d * n == x % n - r;
    if d >= 1 {
      AtLeast(d, n);
    } else if d <= -1 {
      AtLeast(-d, n);
    }
  }

  lemma AtLeast(d: int, n: nat)
    requires d >= 1
    ensures d * n >= n
  {
    assert d * n == n + (d - 1) * n;
  }

  /** A power of two below the number of handles doubles to another one. */
  predicate IsSize(n: nat) {
    n in {4, 8, 0x10, 0x20, 0x40, 0x80, 0x100, 0x200, 0x400, 0x800, 0x1000, 0x2000, 0x4000, 0x8000,
          0x10000, 0x20000, 0x40000, 0x80000, 0x100000, 0x200000, 0x400000, 0x800000, 0x1000000}
  }

  lemma SizeDivides(n: nat)
    requires IsSize(n)
    ensures Divides(n) && (n == HANDLES || IsSize(2 * n))
  {
  }

  /** Doubling the size keeps the remainder or adds the old size to it. */
  lemma ModDouble(x: nat, n: nat)
    requires n > 0
    ensures x % (2 * n) == x % n || x % (2 * n) == x % n + n
  {
    var r := x % (2 * n);
    var k := x / (2 * n);
    assert x == r + k * 2 * n;
    Shift(r, k * 2, n);
    if r >= n {
      ShiftOne(r - n, n);
      Small(r - n, n);
    } else {
      Small(r, n);
    }
  }

  lemma Small(x: nat, n: nat)
    requires x < n
    ensures x % n == x
  {
  }

  // ----- the slot table as a map -----

  /** Every context is in the slot that its handle leads to. */
  ghost predicate SlotsOk(slots: Slots, harbor: nat) {
    && IsSize(|slots|)
    && forall i :: 0 <= i < |slots| && slots[i].Some? ==> InPlace(slots[i].value, i, |slots|, harbor)
  }

  predicate InPlace(r: Registered, i: nat, n: nat, harbor: nat)
    requires n > 0
  {
    r.handle / HANDLES == harbor && r.handle % n == i
  }

  /** skynet_handle_grab, as a function: the context of a handle. */
  function Lookup(slots: Slots, h: nat): Option<nat>
    requires |slots| > 0
  {
    var e := slots[h % |slots|];
    if e.Some? && e.value.handle == h then Some(e.value.ctx) else None
  }

  /** Rehashing into twice as many slots: what the loop in skynet_handle_register builds. */
  ghost predicate Doubled(slots: Slots, bigger: Slots) {
    var n := |slots|;
    && |bigger| == 2 * n
    && forall i :: 0 <= i < n ==> Placed(slots, bigger, i)
  }

  predicate Placed(slots: Slots, bigger: Slots, i: nat)
    requires i < |slots| && |bigger| == 2 * |slots|
  {
    var n := |slots|;
    && slots[i].Some?
    && (if slots[i].value.handle % (2 * n) == i
        then bigger[i] == slots[i] && bigger[i + n] == None
        else bigger[i + n] == slots[i] && bigger[i] == None)
  }

  lemma DoubledOk(slots: Slots, bigger: Slots, harbor: nat)
    requires SlotsOk(slots, harbor) && Doubled(slots, bigger) && |slots| < HANDLES
    ensures SlotsOk(bigger, harbor)
  {
    var n := |slots|;
    SizeDivides(n);
    forall i | 0 <= i < 2 * n && bigger[i].Some? ensures InPlace(bigger[i].value, i, 2 * n, harbor) {
      var j := if i < n then i else i - n;
      assert Placed(slots, bigger, j);
      assert InPlace(slots[j].value, j, n, harbor);
      ModDouble(slots[j].value.handle, n);
    }
  }

  /** No handle is lost or moved out of reach by doubling. */
  lemma DoubledKeeps(slots: Slots, bigger: Slots, harbor: nat, h: nat)
    requires SlotsOk(slots, harbor) && Doubled(slots, bigger)
    ensures Lookup(bigger, h) == Lookup(slots, h)
  {
    var n := |slots|;
    ModDouble(h, n);
    assert Placed(slots, bigger, h % n);
    assert InPlace(slots[h % n].value, h % n, n, harbor);
    ModDouble(slots[h % n].value.handle, n);
  }

  /** Scanning as many consecutive handles as there are slots reaches every slot. */
  lemma ScanReaches(index: nat, n: nat, slot: nat) returns (i: nat)
    requires Divides(n) && slot < n
    ensures i < n && (i + index) % HANDLES % n == slot
  {
    i := (slot - index) % n;
    ModMod(i + index, n);
    var d := slot - index;
    var k := d / n;
    assert d == k * n + i;
    assert i + index == slot + -k * n;
    Shift(slot, -k, n);
    Small(slot, n);
  }

  // ----- which handle is next -----

  /** handle & (slot_size - 1) for the handle `i` steps behind `index` */
  function At(index: nat, i: nat, n: nat): (r: nat)
    requires n > 0
    ensures r < n
  {
    (i + index) % HANDLES % n
  }

  ghost predicate Full(slots: Slots) {
    forall k :: 0 <= k < |slots| ==> slots[k].Some?
  }

  /** The place `i` steps behind `index` is the first one with a free slot. */
  ghost predicate FirstFree(slots: Slots, index: nat, i: nat) {
    && i < |slots|
    && slots[At(index, i, |slots|)] == None
    && forall j :: 0 <= j < i ==> slots[At(index, j, |slots|)].Some?
  }

  /** Every number from `index` up to the last one finds its slot taken, and slot 0 is free. */
  ghost predicate ZeroNext(slots: Slots, index: nat)
    requires |slots| > 0
  {
    slots[0] == None && forall h :: index <= h < HANDLES ==> slots[h % |slots|].Some?
  }

  /** The number 0, which is meant to be reserved, comes next exactly then. */
  lemma ZeroIff(slots: Slots, index: nat, i: nat)
    requires IsSize(|slots|) && 1 <= index <= HANDLES && FirstFree(slots, index, i)
    ensures (i + index) % HANDLES == 0 <==> ZeroNext(slots, index)
  {
    var n := |slots|;
    SizeDivides(n);
    if (i + index) % HANDLES == 0 {
      assert i + index == HANDLES;
      assert At(index, i, n) == 0;
      forall h | index <= h < HANDLES ensures slots[h % n].Some? {
        assert At(index, h - index, n) == h % n;
      }
    }
    assert At(index, HANDLES - index, n) == 0;
  }

  /** Every handle of this harbor leads to a context. */
  ghost predicate AllLive(slots: Slots, harbor: nat)
    requires |slots| > 0
  {
    forall low: nat :: low < HANDLES ==> Lookup(slots, HandleOf(low, harbor)).Some?
  }

  function HandleOf(low: nat, harbor: nat): nat {
    low + harbor * HANDLES
  }

  lemma HandleParts(low: nat, harbor: nat, n: nat)
    requires low < HANDLES && Divides(n)
    ensures HandleOf(low, harbor) / HANDLES == harbor && HandleOf(low, harbor) % HANDLES == low
    ensures HandleOf(low, harbor) % n == low % n
  {
    ModMod(HandleOf(low, harbor), n);
  }

  /** The table is full and cannot grow exactly when all handles are in use. */
  lemma AllLiveIff(slots: Slots, harbor: nat)
    requires SlotsOk(slots, harbor)
    ensures |slots| == HANDLES && Full(slots) <==> AllLive(slots, harbor)
  {
    var n := |slots|;
    SizeDivides(n);
    if n == HANDLES && Full(slots) {
      forall low: nat | low < HANDLES ensures Lookup(slots, HandleOf(low, harbor)).Some? {
        HandleParts(low, harbor, n);
        assert InPlace(slots[low].value, low, n, harbor);
        var h := slots[low].value.handle;
        assert h == HandleOf(low, harbor);
      }
    }
    ShiftOne(0, n);
    Small(0, n);
    if AllLive(slots, harbor) {
      if n < HANDLES {
        HandleParts(0, harbor, n);
        HandleParts(n, harbor, n);
      }
      forall k | 0 <= k < n ensures slots[k].Some? {
        HandleParts(k, harbor, n);
        Small(k, n);
        assert Lookup(slots, HandleOf(k, harbor)).Some?;
      }
    }
  }

  lemma PlacedIsFound(slots: Slots, harbor: nat, k: nat)
    requires SlotsOk(slots, harbor) && k < |slots| && slots[k].Some?
    ensures Lookup(slots, slots[k].value.handle) == Some(slots[k].value.ctx)
  {
    assert InPlace(slots[k].value, k, |slots|, harbor);
  }

  /** A table in which no handle leads anywhere is empty. */
  lemma NoneLive(slots: Slots, harbor: nat)
    requires SlotsOk(slots, harbor) && forall g :: Lookup(slots, g) == None
    ensures forall k :: 0 <= k < |slots| ==> slots[k] == None
  {
    forall k | 0 <= k < |slots| ensures slots[k] == None {
      if slots[k].Some? {
        PlacedIsFound(slots, harbor, k);
      }
    }
  }
}
