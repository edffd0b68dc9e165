/**
  The read-only hash tables of lua-sharedata.c. A table is built in two passes over its entries:
  the first one fills main positions, the second one puts the colliding entries into free slots and
  links them. Values are opaque, and the hash function is a parameter.
 */
module ShareData {
  import opened Common

  datatype Key = IntKey(n: int) | StrKey(s: seq<Byte>)

  /** Any value but nil */
  type Value = nat

  datatype Pair = Pair(key: Key, value: Value)

  /** struct node; a slot without a value is free. */
  datatype Node = Node(value: Option<Value>, key: Key, next: int, keyhash: nat, nocolliding: bool)

  type Hash = Key -> nat

  // ----- the entries of a table -----

  predicate Distinct(ps: seq<Pair>) {
    forall i, j :: 0 <= i < j < |ps| ==> ps[i].key != ps[j].key
  }

  /** The key belongs to the array part. */
  predicate InArray(k: Key, size: nat) {
    k.IntKey? && 0 < k.n <= size
  }

  /** The value of a key. */
  function Find(ps: seq<Pair>, k: Key): (r: Option<Value>)
    ensures r.Some? ==> exists i :: 0 <= i < |ps| && ps[i] == Pair(k, r.value)
    ensures r.None? ==> forall i :: 0 <= i < |ps| ==> ps[i].key != k
  {
    if ps == [] then None
    else
      var last := ps[|ps| - 1];
      if last.key == k then Some(last.value) else Find(ps[..|ps| - 1], k)
  }

  lemma FindAt(ps: seq<Pair>, i: nat)
    requires Distinct(ps) && i < |ps|
    ensures Find(ps, ps[i].key) == Some(ps[i].value)
  {
    var r := Find(ps, ps[i].key);
    var j :| 0 <= j < |ps| && ps[j] == Pair(ps[i].key, r.value);
  }

  /** The keys that are not in the array part */
  function HashKeys(ps: seq<Pair>, size: nat): set<Key> {
    set i | 0 <= i < |ps| && !InArray(ps[i].key, size) :: ps[i].key
  }

  /** countsize */
  method CountSize(ps: seq<Pair>, size: nat) returns (n: nat)
    requires Distinct(ps)
    ensures n == |HashKeys(ps, size)|
  {
    n := 0;
    assert HashKeys(ps[..0], size) == {};
    for i := 0 to |ps|
      invariant n == |HashKeys(ps[..i], size)|
    {
      HashKeysNext(ps, size, i);
      if !InArray(ps[i].key, size) {
        n := n + 1;
      }
    }
    assert ps[..|ps|] == ps;
  }

  lemma HashKeysNext(ps: seq<Pair>, size: nat, i: nat)
    requires Distinct(ps) && i < |ps|
    ensures InArray(ps[i].key, size) ==> HashKeys(ps[..i + 1], size) == HashKeys(ps[..i], size)
    ensures !InArray(ps[i].key, size) ==> HashKeys(ps[..i + 1], size) == HashKeys(ps[..i], size) + {ps[i].key}
    ensures ps[i].key !in HashKeys(ps[..i], size)
  {
    var a, b := HashKeys(ps[..i + 1], size), HashKeys(ps[..i], size);
    forall k | k in a ensures k in b || (k == ps[i].key && !InArray(k, size)) {
      var j :| 0 <= j < i + 1 && !InArray(ps[..i + 1][j].key, size) && ps[..i + 1][j].key == k;
      assert j < i ==> ps[..i][j].key == k;
    }
    forall k | k in b ensures k in a {
      var j :| 0 <= j < i && !InArray(ps[..i][j].key, size) && ps[..i][j].key == k;
      assert ps[..i + 1][j].key == k;
    }
    if !InArray(ps[i].key, size) {
      assert ps[..i + 1][i].key == ps[i].key;
    }
  }

  // ----- chains -----

  /** The slots that can be reached from slot `m` are `chain`, in this order, and end there. */
  predicate Linked(nodes: seq<Node>, chain: seq<nat>) {
    && (forall p :: 0 <= p < |chain| ==> chain[p] < |nodes|)
    && (forall p :: 0 <= p < |chain| - 1 ==> nodes[chain[p]].next == NextOf(chain, p))
    && (chain != [] ==> nodes[chain[|chain| - 1]].next == -1)
  }

  function NextOf(chain: seq<nat>, p: nat): int
    requires p + 1 < |chain|
  {
    chain[p + 1]
  }

  predicate Filled(nodes: seq<Node>, i: nat)
    requires i < |nodes|
  {
    nodes[i].value.Some?
  }

  /** The main position of a key */
  function Main(h: Hash, k: Key, n: nat): (r: nat)
    requires n > 0
    ensures r < n
  {
    h(k) % n
  }

  /** A filled slot: its place in the chain of its main position. */
  predicate InChain(h: Hash, nodes: seq<Node>, chains: seq<seq<nat>>, i: nat)
    requires |chains| == |nodes| && i < |nodes|
  {
    i in chains[Main(h, nodes[i].key, |nodes|)]
  }

  /** The chains of a table that is being built or has been built. */
  ghost predicate Chained(h: Hash, nodes: seq<Node>, chains: seq<seq<nat>>) {
    && |chains| == |nodes|
    && (forall m :: 0 <= m < |chains| ==> Linked(nodes, chains[m]))
    && (forall m, p :: 0 <= m < |chains| && 0 <= p < |chains[m]| ==> ChainSlot(h, nodes, chains[m], m, p))
    && (forall i :: 0 <= i < |nodes| && Filled(nodes, i) ==> InChain(h, nodes, chains, i))
    && (forall i :: 0 <= i < |nodes| && Filled(nodes, i) ==> nodes[i].keyhash == h(nodes[i].key))
    && (forall i :: 0 <= i < |nodes| && Filled(nodes, i) && nodes[i].nocolliding ==> nodes[i].next == -1 && chains[i] == [i])
  }

  /** A slot in the chain of `m` is filled with a key whose main position is `m`; the first one is `m`. */
  predicate ChainSlot(h: Hash, nodes: seq<Node>, chain: seq<nat>, m: nat, p: nat)
    requires p < |chain|
  {
    && chain[p] < |nodes| && Filled(nodes, chain[p]) && Main(h, nodes[chain[p]].key, |nodes|) == m
    && (p == 0 <==> chain[p] == m)
  }

  /** Every slot holds an entry of the table, and no two the same. */
  ghost predicate Holds(nodes: seq<Node>, ps: seq<Pair>, size: nat) {
    && (forall i :: 0 <= i < |nodes| && Filled(nodes, i) ==>
          !InArray(nodes[i].key, size) && Find(ps, nodes[i].key) == nodes[i].value)
    && (forall i, j :: 0 <= i < j < |nodes| && Filled(nodes, i) && Filled(nodes, j) ==> nodes[i].key != nodes[j].key)
  }

  /** The key is in some slot. */
  predicate Present(nodes: seq<Node>, k: Key) {
    exists i :: 0 <= i < |nodes| && Filled(nodes, i) && nodes[i].key == k
  }

  predicate AllPresent(nodes: seq<Node>, ps: seq<Pair>, size: nat, n: nat)
    requires n <= |ps|
  {
    forall i :: 0 <= i < n && !InArray(ps[i].key, size) ==> Present(nodes, ps[i].key)
  }

  predicate MainFilled(h: Hash, nodes: seq<Node>, chains: seq<seq<nat>>, k: Key)
    requires |chains| == |nodes| > 0
  {
    Filled(nodes, Main(h, k, |nodes|)) && chains[Main(h, k, |nodes|)] != []
  }

  // ----- counting slots -----

  function FilledSlots(nodes: seq<Node>): set<nat> {
    set i | 0 <= i < |nodes| && Filled(nodes, i)
  }

  function KeysIn(nodes: seq<Node>): set<Key> {
    set i | 0 <= i < |nodes| && Filled(nodes, i) :: nodes[i].key
  }

  function KeysOf(nodes: seq<Node>, slots: set<nat>): set<Key> {
    set i | i in slots && i < |nodes| :: nodes[i].key
  }

  predicate DistinctIn(nodes: seq<Node>, slots: set<nat>) {
    forall i, j :: i in slots && j in slots && i < j < |nodes| ==> nodes[i].key != nodes[j].key
  }

  lemma KeysWithout(nodes: seq<Node>, slots: set<nat>, s: nat)
    requires s in slots && s < |nodes| && DistinctIn(nodes, slots)
    ensures KeysOf(nodes, slots) == KeysOf(nodes, slots - {s}) + {nodes[s].key}
    ensures nodes[s].key !in KeysOf(nodes, slots - {s})
  {
  }

  /** With distinct keys there are as many keys as slots. */
  lemma {:induction false} SlotsAndKeys(nodes: seq<Node>, slots: set<nat>)
    requires (forall i :: i in slots ==> i < |nodes|) && DistinctIn(nodes, slots)
    ensures |KeysOf(nodes, slots)| == |slots|
    decreases slots
  {
    hide KeysOf;
    if slots == {} {
      NoKeys(nodes);
    } else {
      var s :| s in slots;
      KeysWithout(nodes, slots, s);
      SlotsAndKeys(nodes, slots - {s});
    }
  }

  lemma NoKeys(nodes: seq<Node>)
    ensures KeysOf(nodes, {}) == {}
  {
  }

  lemma FilledCount(nodes: seq<Node>, ps: seq<Pair>, size: nat)
    requires Holds(nodes, ps, size)
    ensures |KeysIn(nodes)| == |FilledSlots(nodes)| && KeysIn(nodes) <= HashKeys(ps, size)
  {
    var slots := FilledSlots(nodes);
    forall i, j | i in slots && j in slots && i < j < |nodes| ensures nodes[i].key != nodes[j].key {
      assert Filled(nodes, i) && Filled(nodes, j);
    }
    assert KeysIn(nodes) == KeysOf(nodes, slots);
    SlotsAndKeys(nodes, slots);
    forall k | k in KeysIn(nodes) ensures k in HashKeys(ps, size) {
      var i :| 0 <= i < |nodes| && Filled(nodes, i) && nodes[i].key == k;
      var v := Find(ps, k).value;
      var j :| 0 <= j < |ps| && ps[j] == Pair(k, v);
    }
  }

  function Upto(n: nat): (r: set<nat>)
    ensures |r| == n && forall i :: i in r <==> 0 <= i < n
  {
    if n == 0 then {} else Upto(n - 1) + {n - 1}
  }

  lemma SubsetSize<T>(a: set<T>, b: set<T>)
    requires a <= b
    ensures |a| <= |b| && (|a| == |b| ==> a == b)
  {
    assert b == a + (b - a);
  }

  /** As long as an entry is missing, a slot is free. */
  lemma FreeSlot(nodes: seq<Node>, ps: seq<Pair>, size: nat, k: Key)
    requires Holds(nodes, ps, size) && |nodes| == |HashKeys(ps, size)|
    requires k in HashKeys(ps, size) && !Present(nodes, k)
    ensures exists i :: 0 <= i < |nodes| && !Filled(nodes, i)
  {
    FilledCount(nodes, ps, size);
    assert k !in KeysIn(nodes);
    SubsetSize(KeysIn(nodes), HashKeys(ps, size) - {k});
    if Upto(|nodes|) <= FilledSlots(nodes) {
      SubsetSize(Upto(|nodes|), FilledSlots(nodes));
    }
    var i :| i in Upto(|nodes|) && i !in FilledSlots(nodes);
    assert !Filled(nodes, i);
  }

  /** When no entry is missing, no slot is free. */
  lemma AllFilled(nodes: seq<Node>, ps: seq<Pair>, size: nat)
    requires Holds(nodes, ps, size) && |nodes| == |HashKeys(ps, size)| && AllPresent(nodes, ps, size, |ps|)
    ensures forall i :: 0 <= i < |nodes| ==> Filled(nodes, i)
    ensures KeysIn(nodes) == HashKeys(ps, size)
  {
    FilledCount(nodes, ps, size);
    forall k | k in HashKeys(ps, size) ensures k in KeysIn(nodes) {
      var i :| 0 <= i < |ps| && !InArray(ps[i].key, size) && ps[i].key == k;
      assert Present(nodes, k);
    }
    assert FilledSlots(nodes) <= Upto(|nodes|);
    SubsetSize(FilledSlots(nodes), Upto(|nodes|));
    forall i | 0 <= i < |nodes| ensures Filled(nodes, i) {
      assert i in FilledSlots(nodes);
    }
  }

  // ----- building -----

  /** What the first pass has done with the first `n` entries. */
  ghost predicate FirstPass(h: Hash, nodes: seq<Node>, ps: seq<Pair>, size: nat, n: nat)
    requires n <= |ps| && |nodes| > 0
  {
    && (forall i :: 0 <= i < |nodes| && Filled(nodes, i) ==>
          && nodes[i].next == -1 && nodes[i].nocolliding
          && !InArray(nodes[i].key, size) && Find(ps, nodes[i].key) == nodes[i].value
          && Main(h, nodes[i].key, |nodes|) == i && nodes[i].keyhash == h(nodes[i].key))
    && (forall j :: 0 <= j < n && !InArray(ps[j].key, size) ==> Filled(nodes, Main(h, ps[j].key, |nodes|)))
  }

  /** The chains after the first pass */
  function SingleChains(nodes: seq<Node>): seq<seq<nat>> {
    seq(|nodes|, i requires 0 <= i < |nodes| => if Filled(nodes, i) then [i] else [])
  }

  lemma FirstPassDone(h: Hash, nodes: seq<Node>, ps: seq<Pair>, size: nat)
    requires |nodes| > 0 && FirstPass(h, nodes, ps, size, |ps|)
    ensures SecondPass(h, nodes, SingleChains(nodes), ps, size, 0)
  {
    var chains := SingleChains(nodes);
    forall m | 0 <= m < |chains| ensures Linked(nodes, chains[m]) {
      assert chains[m] == if Filled(nodes, m) then [m] else [];
    }
    forall i, j | 0 <= i < j < |nodes| && Filled(nodes, i) && Filled(nodes, j) ensures nodes[i].key != nodes[j].key {
      assert Main(h, nodes[i].key, |nodes|) == i;
      assert Main(h, nodes[j].key, |nodes|) == j;
    }
    forall j | 0 <= j < |ps| && !InArray(ps[j].key, size) ensures MainFilled(h, nodes, chains, ps[j].key) {
      assert Filled(nodes, Main(h, ps[j].key, |nodes|));
    }
  }

  /** What the second pass has done with the first `n` entries. */
  ghost predicate SecondPass(h: Hash, nodes: seq<Node>, chains: seq<seq<nat>>, ps: seq<Pair>, size: nat, n: nat)
    requires n <= |ps| && |nodes| > 0
  {
    && Chained(h, nodes, chains)
    && Holds(nodes, ps, size)
    && (forall j :: 0 <= j < |ps| && !InArray(ps[j].key, size) ==> MainFilled(h, nodes, chains, ps[j].key))
    && AllPresent(nodes, ps, size, n)
    // an entry off its main position is one of the first n
    && (forall i :: 0 <= i < |nodes| && Filled(nodes, i) && Main(h, nodes[i].key, |nodes|) != i ==> Among(ps, n, nodes[i].key))
  }

  predicate Among(ps: seq<Pair>, n: nat, k: Key)
    requires n <= |ps|
  {
    exists j :: 0 <= j < n && ps[j].key == k
  }

  /** The slots after fillcolliding has put an entry into the free slot `f`, behind main position `m`. */
  function Collide(h: Hash, nodes: seq<Node>, m: nat, f: nat, p: Pair): seq<Node>
    requires m < |nodes| && f < |nodes|
  {
    nodes[f := Node(Some(p.value), p.key, nodes[m].next, h(p.key), false)][m := nodes[m].(next := f, nocolliding := false)]
  }

  function CollideChains(chains: seq<seq<nat>>, m: nat, f: nat): seq<seq<nat>>
    requires m < |chains| && chains[m] != []
  {
    chains[m := [m, f] + chains[m][1..]]
  }

  /** The entry `p` is put into the free slot `f` behind its main position, which another entry has. */
  ghost predicate CanCollide(h: Hash, nodes: seq<Node>, chains: seq<seq<nat>>, m: nat, f: nat, p: Pair) {
    && Chained(h, nodes, chains)
    && m < |nodes| && f < |nodes| && !Filled(nodes, f)
    && Main(h, p.key, |nodes|) == m && Filled(nodes, m) && chains[m] != []
  }

  /** The main position heads its own chain and is in no other; the free slot is in none. */
  lemma ChainsApart(h: Hash, nodes: seq<Node>, chains: seq<seq<nat>>, m: nat, f: nat, p: Pair, k: nat)
    requires CanCollide(h, nodes, chains, m, f, p) && k < |chains|
    ensures chains[m][0] == m && Main(h, nodes[m].key, |nodes|) == m
    ensures forall q :: 0 <= q < |chains[k]| ==> chains[k][q] != f && (chains[k][q] == m ==> k == m && q == 0)
  {
    assert ChainSlot(h, nodes, chains[m], m, 0);
    forall q | 0 <= q < |chains[k]| ensures chains[k][q] != f && (chains[k][q] == m ==> k == m && q == 0) {
      assert ChainSlot(h, nodes, chains[k], k, q);
    }
  }

  lemma CollideLinked(h: Hash, nodes: seq<Node>, chains: seq<seq<nat>>, m: nat, f: nat, p: Pair, k: nat)
    requires CanCollide(h, nodes, chains, m, f, p) && k < |chains|
    ensures Linked(Collide(h, nodes, m, f, p), CollideChains(chains, m, f)[k])
  {
    var nodes', chain := Collide(h, nodes, m, f, p), CollideChains(chains, m, f)[k];
    ChainsApart(h, nodes, chains, m, f, p, k);
    assert Linked(nodes, chains[k]);
    if k == m {
      var was := chains[m];
      assert |chain| == |was| + 1;
      forall q | 2 <= q < |chain| ensures chain[q] == was[q - 1] {
      }
      forall q | 0 <= q < |chain| - 1 ensures nodes'[chain[q]].next == NextOf(chain, q) {
        if q == 1 {
          assert nodes[m].next == NextOf(was, 0);
        } else if q >= 2 {
          assert nodes[was[q - 1]].next == NextOf(was, q - 1);
        }
      }
    } else {
      assert chain == chains[k];
      forall q | 0 <= q < |chain| - 1 ensures nodes'[chain[q]].next == NextOf(chain, q) {
        assert nodes[chain[q]].next == NextOf(chain, q);
      }
    }
  }

  lemma CollideSlots(h: Hash, nodes: seq<Node>, chains: seq<seq<nat>>, m: nat, f: nat, p: Pair, k: nat, q: nat)
    requires CanCollide(h, nodes, chains, m, f, p) && k < |chains| && q < |CollideChains(chains, m, f)[k]|
    ensures ChainSlot(h, Collide(h, nodes, m, f, p), CollideChains(chains, m, f)[k], k, q)
  {
    var chain := CollideChains(chains, m, f)[k];
    ChainsApart(h, nodes, chains, m, f, p, k);
    if k == m {
      if q >= 2 {
        assert chain[q] == chains[m][q - 1];
        assert ChainSlot(h, nodes, chains[m], m, q - 1);
      }
    } else {
      assert ChainSlot(h, nodes, chains[k], k, q);
    }
  }

  lemma CollideChained(h: Hash, nodes: seq<Node>, chains: seq<seq<nat>>, m: nat, f: nat, p: Pair)
    requires CanCollide(h, nodes, chains, m, f, p)
    ensures Chained(h, Collide(h, nodes, m, f, p), CollideChains(chains, m, f))
  {
    var nodes', chains' := Collide(h, nodes, m, f, p), CollideChains(chains, m, f);
    forall k | 0 <= k < |chains'| ensures Linked(nodes', chains'[k]) {
      CollideLinked(h, nodes, chains, m, f, p, k);
    }
    forall k, q | 0 <= k < |chains'| && 0 <= q < |chains'[k]| ensures ChainSlot(h, nodes', chains'[k], k, q) {
      CollideSlots(h, nodes, chains, m, f, p, k, q);
    }
    ChainsApart(h, nodes, chains, m, f, p, m);
    forall i | 0 <= i < |nodes'| && Filled(nodes', i) ensures CollideSlotOk(h, nodes', chains', i) {
      if i == m {
        assert chains'[m][0] == m;
      } else if i == f {
        assert chains'[m][1] == f;
      } else {
        assert Filled(nodes, i) && InChain(h, nodes, chains, i);
        var k := Main(h, nodes[i].key, |nodes|);
        if k == m {
          var q :| 0 <= q < |chains[m]| && chains[m][q] == i;
          assert chains'[m][q + 1] == i;
        }
      }
    }
    assert forall i :: 0 <= i < |nodes'| && Filled(nodes', i) ==> InChain(h, nodes', chains', i) by {
      assert forall i :: 0 <= i < |nodes'| && Filled(nodes', i) ==> CollideSlotOk(h, nodes', chains', i);
    }
  }

  predicate CollideSlotOk(h: Hash, nodes: seq<Node>, chains: seq<seq<nat>>, i: nat)
    requires |chains| == |nodes| && i < |nodes|
  {
    && InChain(h, nodes, chains, i)
    && nodes[i].keyhash == h(nodes[i].key)
    && (nodes[i].nocolliding ==> nodes[i].next == -1 && chains[i] == [i])
  }

  lemma CollideHolds(h: Hash, nodes: seq<Node>, m: nat, f: nat, p: Pair, ps: seq<Pair>, size: nat)
    requires Holds(nodes, ps, size) && m < |nodes| && f < |nodes| && Filled(nodes, m) && !Filled(nodes, f)
    requires !InArray(p.key, size) && Find(ps, p.key) == Some(p.value) && !Present(nodes, p.key)
    ensures Holds(Collide(h, nodes, m, f, p), ps, size)
    ensures forall k :: Present(nodes, k) || k == p.key ==> Present(Collide(h, nodes, m, f, p), k)
  {
    var nodes' := Collide(h, nodes, m, f, p);
    forall i | 0 <= i < |nodes'| ensures Filled(nodes', i) <==> Filled(nodes, i) || i == f {
    }
    forall i | 0 <= i < |nodes'| && i != f ensures nodes'[i].key == nodes[i].key && nodes'[i].value == nodes[i].value {
    }
    assert nodes'[f].key == p.key;
    forall i, j | 0 <= i < j < |nodes'| && Filled(nodes', i) && Filled(nodes', j) ensures nodes'[i].key != nodes'[j].key {
      if i == f {
        assert Filled(nodes, j);
      } else if j == f {
        assert Filled(nodes, i);
      } else {
        assert Filled(nodes, i) && Filled(nodes, j);
      }
    }
    forall k | Present(nodes, k) || k == p.key ensures Present(nodes', k) {
      if k == p.key {
        assert Filled(nodes', f);
      } else {
        var i :| 0 <= i < |nodes| && Filled(nodes, i) && nodes[i].key == k;
        assert Filled(nodes', i) && nodes'[i].key == k;
      }
    }
  }

  /** An entry that is not on its main position when its turn comes is nowhere yet. */
  lemma NotYetPresent(h: Hash, nodes: seq<Node>, chains: seq<seq<nat>>, ps: seq<Pair>, size: nat, n: nat)
    requires Distinct(ps) && n < |ps| && |nodes| > 0 && SecondPass(h, nodes, chains, ps, size, n)
    requires nodes[Main(h, ps[n].key, |nodes|)].key != ps[n].key
    ensures !Present(nodes, ps[n].key)
  {
    assert !Among(ps, n, ps[n].key);
  }

  lemma CollideKeeps(h: Hash, nodes: seq<Node>, chains: seq<seq<nat>>, ps: seq<Pair>, size: nat, n: nat, f: nat)
    requires Distinct(ps) && n < |ps| && |nodes| > 0 && SecondPass(h, nodes, chains, ps, size, n)
    requires !InArray(ps[n].key, size) && nodes[Main(h, ps[n].key, |nodes|)].key != ps[n].key
    requires f < |nodes| && !Filled(nodes, f)
    ensures var m := Main(h, ps[n].key, |nodes|);
            && chains[m] != []
            && SecondPass(h, Collide(h, nodes, m, f, ps[n]), CollideChains(chains, m, f), ps, size, n + 1)
  {
    hide Holds, Chained, Find;
    var m := Main(h, ps[n].key, |nodes|);
    ChainSizes(h, nodes, chains);
    assert MainFilled(h, nodes, chains, ps[n].key);
    NotYetPresent(h, nodes, chains, ps, size, n);
    FindAt(ps, n);
    CollideChained(h, nodes, chains, m, f, ps[n]);
    CollideHolds(h, nodes, m, f, ps[n], ps, size);
    var nodes', chains' := Collide(h, nodes, m, f, ps[n]), CollideChains(chains, m, f);
    ChainSizes(h, nodes', chains');
    forall j | 0 <= j < |ps| && !InArray(ps[j].key, size) ensures MainFilled(h, nodes', chains', ps[j].key) {
      assert MainFilled(h, nodes, chains, ps[j].key);
    }
    forall j | 0 <= j < n + 1 && !InArray(ps[j].key, size) ensures Present(nodes', ps[j].key) {
      assert j < n ==> Present(nodes, ps[j].key);
    }
    forall i | 0 <= i < |nodes'| && Filled(nodes', i) && Main(h, nodes'[i].key, |nodes'|) != i ensures Among(ps, n + 1, nodes'[i].key) {
      if i == f {
        assert ps[n].key == nodes'[i].key;
      } else {
        assert Filled(nodes, i) && nodes[i].key == nodes'[i].key && Among(ps, n, nodes[i].key);
        var j :| 0 <= j < n && ps[j].key == nodes[i].key;
        assert j < n + 1;
      }
    }
  }

  lemma ChainSizes(h: Hash, nodes: seq<Node>, chains: seq<seq<nat>>)
    requires Chained(h, nodes, chains)
    ensures |chains| == |nodes|
  {
  }
}
