/**
  The names of handles: the order that strcmp gives, and what a sorted list of names means as a map.
 */
module HandleNames {
  import opened Common

  type Name = seq<Byte>

  datatype NameEntry = NameEntry(name: Name, handle: nat)

  // ----- the order -----

  /** strcmp, on strings without their closing zero */
  function Compare(a: Name, b: Name): int {
    if a == [] && b == [] then 0
    else if a == [] then -1
    else if b == [] then 1
    else if a[0] < b[0] then -1
    else if a[0] > b[0] then 1
    else Compare(a[1..], b[1..])
  }

  predicate Before(a: Name, b: Name) {
    Compare(a, b) < 0
  }

  lemma {:induction false} CompareEqual(a: Name, b: Name)
    ensures Compare(a, b) == 0 <==> a == b
  {
    if a != [] && b != [] && a[0] == b[0] {
      CompareEqual(a[1..], b[1..]);
      assert a == [a[0]] + a[1..] && b == [b[0]] + b[1..];
    }
  }

  lemma {:induction false} CompareOpposite(a: Name, b: Name)
    ensures Compare(a, b) > 0 <==> Before(b, a)
  {
    if a != [] && b != [] && a[0] == b[0] {
      CompareOpposite(a[1..], b[1..]);
    }
  }

  lemma {:induction false} BeforeTransitive(a: Name, b: Name, c: Name)
    requires Before(a, b) && Before(b, c)
    ensures Before(a, c)
  {
    if a != [] && b != [] && c != [] && a[0] == b[0] && b[0] == c[0] {
      BeforeTransitive(a[1..], b[1..], c[1..]);
    }
  }

  lemma BeforeNotSame(a: Name, b: Name)
    requires Before(a, b)
    ensures a != b && !Before(b, a)
  {
    CompareEqual(a, b);
    CompareOpposite(b, a);
  }

  // ----- sorted lists -----

  ghost predicate Sorted(ns: seq<NameEntry>) {
    forall i, j :: 0 <= i < j < |ns| ==> Before(ns[i].name, ns[j].name)
  }

  /** The handle of a name. */
  function Search(ns: seq<NameEntry>, name: Name): Option<nat> {
    if ns == [] then None
    else if ns[0].name == name then Some(ns[0].handle)
    else Search(ns[1..], name)
  }

  lemma {:induction false} SearchNone(ns: seq<NameEntry>, name: Name)
    ensures Search(ns, name) == None <==> forall k :: 0 <= k < |ns| ==> ns[k].name != name
  {
    if ns != [] {
      SearchNone(ns[1..], name);
      if Search(ns, name) == None {
        forall k | 0 <= k < |ns| ensures ns[k].name != name {
          assert k > 0 ==> ns[1..][k - 1] == ns[k];
        }
      }
    }
  }

  lemma {:induction false} SearchAt(ns: seq<NameEntry>, k: nat)
    requires Sorted(ns) && k < |ns|
    ensures Search(ns, ns[k].name) == Some(ns[k].handle)
  {
    if k > 0 {
      BeforeNotSame(ns[0].name, ns[k].name);
      SearchAt(ns[1..], k - 1);
    }
  }

  lemma {:induction false} SearchConcat(a: seq<NameEntry>, b: seq<NameEntry>, name: Name)
    ensures Search(a + b, name) == if Search(a, name).Some? then Search(a, name) else Search(b, name)
  {
    if a == [] {
      assert a + b == b;
    } else {
      SearchConcat(a[1..], b, name);
      assert (a + b)[1..] == a[1..] + b;
    }
  }

  // ----- inserting -----

  function Inserted(ns: seq<NameEntry>, k: nat, e: NameEntry): seq<NameEntry>
    requires k <= |ns|
  {
    ns[..k] + [e] + ns[k..]
  }

  /** The place where binary search ends. */
  ghost predicate GoesAt(ns: seq<NameEntry>, k: nat, name: Name) {
    && k <= |ns|
    && (forall i :: 0 <= i < k ==> Before(ns[i].name, name))
    && (forall i :: k <= i < |ns| ==> Before(name, ns[i].name))
  }

  lemma InsertedSorted(ns: seq<NameEntry>, k: nat, e: NameEntry)
    requires Sorted(ns) && GoesAt(ns, k, e.name)
    ensures Sorted(Inserted(ns, k, e))
  {
    var all := Inserted(ns, k, e);
    forall i, j | 0 <= i < j < |all| ensures Before(all[i].name, all[j].name) {
      var i', j' := if i < k then i else i - 1, if j < k then j else j - 1;
      if i != k && j != k {
        assert all[i] == ns[i'] && all[j] == ns[j'];
      }
    }
  }

  /** Inserting a new name changes the map at this name only. */
  lemma InsertedSearch(ns: seq<NameEntry>, k: nat, e: NameEntry, name: Name)
    requires Sorted(ns) && GoesAt(ns, k, e.name)
    ensures Search(Inserted(ns, k, e), name) == if name == e.name then Some(e.handle) else Search(ns, name)
  {
    InsertedSorted(ns, k, e);
    if name == e.name {
      assert Inserted(ns, k, e)[k] == e;
      SearchAt(Inserted(ns, k, e), k);
    } else {
      SearchConcat(ns[..k] + [e], ns[k..], name);
      SearchConcat(ns[..k], [e], name);
      SearchOther(e, name);
      SearchConcat(ns[..k], ns[k..], name);
      assert ns == ns[..k] + ns[k..];
    }
  }

  lemma SearchOther(e: NameEntry, name: Name)
    requires e.name != name
    ensures Search([e], name) == None
  {
    assert [e][1..] == [];
  }

  // ----- removing the names of a handle -----

  function Without(ns: seq<NameEntry>, h: nat): seq<NameEntry> {
    if ns == [] then []
    else
      var last := ns[|ns| - 1];
      Without(ns[..|ns| - 1], h) + (if last.handle == h then [] else [last])
  }

  lemma {:induction false} WithoutAt(ns: seq<NameEntry>, h: nat)
    ensures |Without(ns, h)| <= |ns|
    ensures forall j :: 0 <= j < |Without(ns, h)| ==> Without(ns, h)[j] in ns
  {
    if ns != [] {
      WithoutAt(ns[..|ns| - 1], h);
    }
  }

  lemma {:induction false} WithoutSorted(ns: seq<NameEntry>, h: nat)
    requires Sorted(ns)
    ensures Sorted(Without(ns, h))
  {
    if ns != [] {
      var front := ns[..|ns| - 1];
      WithoutSorted(front, h);
      WithoutAt(front, h);
    }
  }

  /** Afterwards exactly the names of other handles are known. */
  lemma {:induction false} WithoutSearch(ns: seq<NameEntry>, h: nat, name: Name)
    requires Sorted(ns)
    ensures Search(Without(ns, h), name) == if Search(ns, name) == Some(h) then None else Search(ns, name)
  {
    if ns != [] {
      var front, last := ns[..|ns| - 1], ns[|ns| - 1];
      assert ns == front + [last];
      WithoutSearch(front, h, name);
      SearchConcat(front, [last], name);
      SearchConcat(Without(front, h), if last.handle == h then [] else [last], name);
      if last.name == name {
        forall k | 0 <= k < |front| ensures front[k].name != name {
          BeforeNotSame(ns[k].name, last.name);
        }
        SearchNone(front, name);
      } else {
        SearchOther(last, name);
      }
    }
  }
}
