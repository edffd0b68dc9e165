/**
  Building, searching and walking through a table of lua-sharedata.c.
 */
module ShareTable {
  import opened Common
  import opened ShareData

  /** struct table; `h` is the hash function of the keys. */
  class Table {
    const h: Hash
    const entries: array<Option<Value>>  // the array part, by index - 1
    const hash: array<Node>
    ghost var chains: seq<seq<nat>>

    /** A finished table with the entries `ps`. */
    ghost predicate Built(ps: seq<Pair>)
      reads this, entries, hash
    {
      ArrayBuilt(ps) && HashBuilt(h, hash[..], chains, ps, entries.Length)
    }

    ghost predicate ArrayBuilt(ps: seq<Pair>)
      reads this, entries
    {
      forall i :: 0 <= i < entries.Length ==> entries[i] == Find(ps, IntKey(i + 1))
    }

    /** The allocation in convtable; the memory of the nodes holds anything, but the slots are free. */
    constructor (hash: Hash, arraySize: nat, hashSize: nat, junk: Node)
      ensures fresh(this.entries) && fresh(this.hash) && this.h == hash
      ensures this.entries.Length == arraySize && forall i :: 0 <= i < arraySize ==> this.entries[i] == None
      ensures this.hash.Length == hashSize && forall i :: 0 <= i < hashSize ==> this.hash[i].value == None
    {
      this.h := hash;
      this.entries := new Option<Value>[arraySize](_ => None);
      this.hash := new Node[hashSize](_ => junk.(value := None, nocolliding := false));
      this.chains := [];
    }

    /** fillnocolliding */
    method FillNoColliding(ps: seq<Pair>)
      requires Distinct(ps) && hash.Length > 0
      requires forall i :: 0 <= i < hash.Length ==> hash[i].value == None
      requires forall i :: 0 <= i < entries.Length ==> entries[i] == None
      modifies entries, hash
      ensures FirstPass(h, hash[..], ps, entries.Length, |ps|) && ArrayBuilt(ps)
    {
      for k := 0 to |ps|
        invariant FirstPass(h, hash[..], ps, entries.Length, k)
        invariant ArrayBuilt(ps[..k])
      {
        var p := ps[k];
        ghost var were := entries[..];
        if InArray(p.key, entries.Length) {
          entries[p.key.n - 1] := Some(p.value);
        } else {
          var m := Main(h, p.key, hash.Length);
          FindAt(ps, k);
          if hash[m].value.None? {
            ghost var was := hash[..];
            hash[m] := Node(Some(p.value), p.key, -1, h(p.key), true);
            FirstPassPut(h, was, hash[..], ps, entries.Length, k);
          } else {
            assert Filled(hash[..], m);
          }
        }
        forall i | 0 <= i < entries.Length ensures entries[i] == Find(ps[..k + 1], IntKey(i + 1)) {
          FindNext(ps, k, IntKey(i + 1));
          assert were[i] == Find(ps[..k], IntKey(i + 1));
        }
      }
      assert ps[..|ps|] == ps;
    }

    /** The search for a free slot in fillcolliding; its assertion holds. */
    method FreeNode(ghost ps: seq<Pair>, ghost k: Key) returns (f: nat)
      requires Holds(hash[..], ps, entries.Length) && hash.Length == |HashKeys(ps, entries.Length)|
      requires k in HashKeys(ps, entries.Length) && !Present(hash[..], k)
      ensures f < hash.Length && hash[f].value == None
    {
      FreeSlot(hash[..], ps, entries.Length, k);
      ghost var free :| 0 <= free < hash.Length && !Filled(hash[..], free);
      f := 0;
      while hash[f].value.Some?
        invariant 0 <= f <= free
        decreases free - f
      {
        assert Filled(hash[..], f);
        f := f + 1;
      }
    }

    /** fillcolliding */
    method FillColliding(ps: seq<Pair>)
      requires Distinct(ps) && hash.Length == |HashKeys(ps, entries.Length)| > 0
      requires FirstPass(h, hash[..], ps, entries.Length, |ps|)
      modifies this`chains, hash
      ensures SecondPass(h, hash[..], chains, ps, entries.Length, |ps|)
    {
      hide SecondPass;
      FirstPassDone(h, hash[..], ps, entries.Length);
      chains := SingleChains(hash[..]);
      for k := 0 to |ps|
        invariant SecondPass(h, hash[..], chains, ps, entries.Length, k)
      {
        FillOne(ps, k);
      }
    }

    /** One round of fillcolliding */
    method FillOne(ps: seq<Pair>, k: nat)
      requires k < |ps| && Distinct(ps) && hash.Length == |HashKeys(ps, entries.Length)| > 0
      requires SecondPass(h, hash[..], chains, ps, entries.Length, k)
      modifies this`chains, hash
      ensures SecondPass(h, hash[..], chains, ps, entries.Length, k + 1)
    {
      hide SecondPass, HashKeys;
      var p := ps[k];
      if InArray(p.key, entries.Length) {
        ArrayKeyLater(h, hash[..], chains, ps, entries.Length, k);
      } else if hash[Main(h, p.key, hash.Length)].key == p.key {
        MainKeyLater(h, hash[..], chains, ps, entries.Length, k);
      } else {
        FillFree(ps, k);
      }
    }

    /** The entry is put into a free slot and linked behind its main position. */
    method FillFree(ps: seq<Pair>, k: nat)
      requires k < |ps| && Distinct(ps) && hash.Length == |HashKeys(ps, entries.Length)| > 0
      requires SecondPass(h, hash[..], chains, ps, entries.Length, k)
      requires !InArray(ps[k].key, entries.Length) && hash[Main(h, ps[k].key, hash.Length)].key != ps[k].key
      modifies this`chains, hash
      ensures SecondPass(h, hash[..], chains, ps, entries.Length, k + 1)
    {
      hide SecondPass, HashKeys, Holds, Present;
      var p := ps[k];
      var m := Main(h, p.key, hash.Length);
      ghost var was := hash[..];
      SecondPassParts(h, was, chains, ps, entries.Length, k);
      NotYetPresent(h, was, chains, ps, entries.Length, k);
      KeyCounted(ps, entries.Length, k);
      var f := FreeNode(ps, p.key);
      CollideKeeps(h, was, chains, ps, entries.Length, k, f);
      var n := Node(Some(p.value), p.key, hash[m].next, h(p.key), false);
      hash[m] := hash[m].(next := f, nocolliding := false);
      hash[f] := n;
      chains := CollideChains(chains, m, f);
      assert hash[..] == Collide(h, was, m, f, p);
    }

    /** The other way of convtable, when nothing goes to the hash part */
    method FillArray(ps: seq<Pair>)
      requires forall i :: 0 <= i < entries.Length ==> entries[i] == None
      modifies entries
      ensures ArrayBuilt(ps)
    {
      for i := 0 to entries.Length
        invariant forall j :: 0 <= j < i ==> entries[j] == Find(ps, IntKey(j + 1))
      {
        entries[i] := Find(ps, IntKey(i + 1));
      }
    }

    // ----- looking up -----

    /** lookup_key: the slot of a key */
    method LookupKey(ghost ps: seq<Pair>, k: Key) returns (r: Option<nat>)
      requires Built(ps)
      ensures r.Some? ==> r.value < hash.Length && hash[r.value].key == k && Filled(hash[..], r.value)
      ensures r.None? ==> !Present(hash[..], k)
    {
      hide HashBuilt, SecondPass, Chained, Holds, Present, Main, InArray, Find;
      ghost var nodes := hash[..];
      AllSlots(h, nodes, chains, ps, entries.Length);
      if hash.Length == 0 {
        NonePresent(k);
        return None;
      }
      var n := Main(h, k, hash.Length);
      assert Filled(nodes, n);
      if h(k) != hash[n].keyhash && hash[n].nocolliding {
        Shortcut(h, nodes, chains, n, k);
        return None;
      }
      ghost var m := Main(h, hash[n].key, hash.Length);
      ghost var p := Position(h, nodes, chains, n);
      OnlyInChain(h, nodes, chains, k);
      while true
        invariant 0 <= n < hash.Length && m < hash.Length && p < |chains[m]| && chains[m][p] == n
        invariant Present(nodes, k) ==> Ahead(nodes, chains[m], p, k)
        decreases |chains[m]| - p
      {
        LinkAt(h, nodes, chains, m, p);
        assert hash[n] == nodes[n];
        if h(k) == hash[n].keyhash && hash[n].key == k {
          return Some(n);
        }
        if hash[n].next < 0 {
          return None;
        }
        n := hash[n].next;
        p := p + 1;
        LinkAt(h, nodes, chains, m, p);
      }
    }

    /** lindexconf */
    method Index(ghost ps: seq<Pair>, k: Key) returns (r: Option<Value>)
      requires Built(ps)
      ensures r == Find(ps, k)
    {
      if InArray(k, entries.Length) {
        return entries[k.n - 1];
      }
      var n := LookupKey(ps, k);
      if n.Some? {
        SlotValue(h, hash[..], chains, ps, entries.Length, n.value);
        return hash[n.value].value;
      }
      AbsentKey(h, hash[..], chains, ps, entries.Length, k);
      return None;
    }

    // ----- walking -----

    /** All keys in the order of lnextkey */
    ghost function Keys(): seq<Key>
      reads this, entries, hash
    {
      ArrayKeys(entries[..], 0) + SlotKeys(hash[..])
    }

    /** pushfirsthash */
    method FirstHash() returns (r: Option<Key>)
      ensures r == if hash.Length > 0 then Some(hash[0].key) else None
    {
      return if hash.Length > 0 then Some(hash[0].key) else None;
    }

    /** The loops of lnextkey over the array part, from index `from` (counted from 0) on */
    method NextFrom(from: nat) returns (r: Option<Key>)
      requires from <= entries.Length
      ensures var rest := ArrayKeys(entries[..], from) + SlotKeys(hash[..]);
              r == if rest == [] then None else Some(rest[0])
    {
      for i := from to entries.Length
        invariant ArrayKeys(entries[..], from) == ArrayKeys(entries[..], i)
      {
        if entries[i].Some? {
          return Some(IntKey(i + 1));
        }
        assert [] + ArrayKeys(entries[..], i + 1) == ArrayKeys(entries[..], i + 1);
      }
      r := FirstHash();
    }

    /** lnextkey, behind the `p`th key */
    method NextKey(ghost ps: seq<Pair>, k: Option<Key>, ghost p: nat) returns (r: Option<Key>)
      requires Built(ps) && p <= |Keys()|
      requires if k.None? then p == 0 else p > 0 && Keys()[p - 1] == k.value
      ensures r == if p < |Keys()| then Some(Keys()[p]) else None
    {
      hide ArrayKeys, HashBuilt, Find, SlotKeys;
      ghost var es, nodes := entries[..], hash[..];
      BuiltRight(h, nodes, chains, ps, entries.Length);
      SlotKeysAre(nodes);
      if k.None? {
        r := NextFrom(0);
        return;
      }
      if InArray(k.value, entries.Length) {
        if p - 1 >= |ArrayKeys(es, 0)| {
          assert SlotRight(nodes, ps, entries.Length, p - 1 - |ArrayKeys(es, 0)|);
        }
        ArrayPosition(es, 0, p - 1);
        r := NextFrom(k.value.n);
        ArrayBehind(es, SlotKeys(nodes), p - 1, k.value.n);
        return;
      }
      ArrayPosition(es, 0, p - 1);
      var n := LookupKey(ps, k.value);
      ghost var at := p - 1 - |ArrayKeys(es, 0)|;
      assert nodes[at].key == k.value;
      SlotUnique(nodes, ps, entries.Length, at, k.value, n);
      if n.value + 1 == hash.Length {
        return None;
      }
      return Some(hash[n.value + 1].key);
    }

    /** Following lnextkey from nil on visits every key of the table once. */
    method Walk(ghost ps: seq<Pair>) returns (keys: seq<Key>)
      requires Built(ps)
      ensures keys == Keys()
      ensures forall i, j :: 0 <= i < j < |keys| ==> keys[i] != keys[j]
      ensures forall k :: k in keys <==> Find(ps, k).Some?
    {
      hide Table.Built, Table.Keys;
      keys := [];
      var k := NextKey(ps, None, 0);
      while k.Some?
        invariant |keys| <= |Keys()| && keys == Keys()[..|keys|]
        invariant k == if |keys| < |Keys()| then Some(Keys()[|keys|]) else None
        decreases |Keys()| - |keys|
      {
        keys := keys + [k.value];
        k := NextKey(ps, k, |keys|);
      }
      KeysRight(ps);
    }

    lemma KeysRight(ps: seq<Pair>)
      requires Built(ps)
      ensures forall i, j :: 0 <= i < j < |Keys()| ==> Keys()[i] != Keys()[j]
      ensures forall k :: k in Keys() <==> Find(ps, k).Some?
    {
      hide ArrayKeys, SlotKeys, HashBuilt, Find, SlotsRight;
      var es, nodes := entries[..], hash[..];
      BuiltRight(h, nodes, chains, ps, entries.Length);
      KeysDistinct(nodes, ps, es);
      assert Keys() == ArrayKeys(es, 0) + SlotKeys(nodes);
      forall k ensures k in Keys() <==> Find(ps, k).Some? {
        KeysIff(h, nodes, chains, ps, es, k);
      }
    }
  }

  lemma SecondPassParts(h: Hash, nodes: seq<Node>, chains: seq<seq<nat>>, ps: seq<Pair>, size: nat, k: nat)
    requires k < |ps| && |nodes| > 0 && SecondPass(h, nodes, chains, ps, size, k) && !InArray(ps[k].key, size)
    ensures Holds(nodes, ps, size) && |chains| == |nodes| && MainFilled(h, nodes, chains, ps[k].key)
  {
  }

  lemma FindNext(ps: seq<Pair>, k: nat, q: Key)
    requires k < |ps|
    ensures Find(ps[..k + 1], q) == if q == ps[k].key then Some(ps[k].value) else Find(ps[..k], q)
  {
    assert ps[..k + 1][..k] == ps[..k] && ps[..k + 1][k] == ps[k];
  }

  lemma FirstPassPut(h: Hash, was: seq<Node>, nodes: seq<Node>, ps: seq<Pair>, size: nat, k: nat)
    requires Distinct(ps) && k < |ps| && |was| > 0 && FirstPass(h, was, ps, size, k) && !InArray(ps[k].key, size)
    requires var m := Main(h, ps[k].key, |was|);
             !Filled(was, m) && nodes == was[m := Node(Some(ps[k].value), ps[k].key, -1, h(ps[k].key), true)]
    ensures FirstPass(h, nodes, ps, size, k + 1)
  {
    FindAt(ps, k);
    forall i | 0 <= i < |nodes| && Filled(nodes, i) && i != Main(h, ps[k].key, |was|) ensures Filled(was, i) {
    }
    forall j | 0 <= j < k + 1 && !InArray(ps[j].key, size) ensures Filled(nodes, Main(h, ps[j].key, |nodes|)) {
      if j < k {
        assert Filled(was, Main(h, ps[j].key, |was|));
      }
    }
  }

  lemma KeyCounted(ps: seq<Pair>, size: nat, k: nat)
    requires k < |ps| && !InArray(ps[k].key, size)
    ensures ps[k].key in HashKeys(ps, size)
  {
  }

  lemma AmongMore(ps: seq<Pair>, k: nat, q: Key)
    requires k < |ps| && Among(ps, k, q)
    ensures Among(ps, k + 1, q)
  {
  }

  /** Nothing is to be done for a key of the array part, */
  lemma ArrayKeyLater(h: Hash, nodes: seq<Node>, chains: seq<seq<nat>>, ps: seq<Pair>, size: nat, k: nat)
    requires k < |ps| && |nodes| > 0 && SecondPass(h, nodes, chains, ps, size, k) && InArray(ps[k].key, size)
    ensures SecondPass(h, nodes, chains, ps, size, k + 1)
  {
    hide Chained, Holds;
    forall i | 0 <= i < |nodes| && Filled(nodes, i) && Main(h, nodes[i].key, |nodes|) != i ensures Among(ps, k + 1, nodes[i].key) {
      AmongMore(ps, k, nodes[i].key);
    }
  }

  /** nor for one that the first pass has put on its main position. */
  lemma MainKeyLater(h: Hash, nodes: seq<Node>, chains: seq<seq<nat>>, ps: seq<Pair>, size: nat, k: nat)
    requires k < |ps| && |nodes| > 0 && SecondPass(h, nodes, chains, ps, size, k) && !InArray(ps[k].key, size)
    requires nodes[Main(h, ps[k].key, |nodes|)].key == ps[k].key
    ensures SecondPass(h, nodes, chains, ps, size, k + 1)
  {
    hide Holds;
    assert MainFilled(h, nodes, chains, ps[k].key);
    assert Present(nodes, ps[k].key);
    forall i | 0 <= i < |nodes| && Filled(nodes, i) && Main(h, nodes[i].key, |nodes|) != i ensures Among(ps, k + 1, nodes[i].key) {
      AmongMore(ps, k, nodes[i].key);
    }
  }

  /** convtable, with the entries in the order of lua_next and the array size that lua_rawlen gives */
  method Convert(h: Hash, ps: seq<Pair>, arraySize: nat, junk: Node) returns (t: Table)
    requires Distinct(ps)
    ensures fresh(t) && t.h == h && t.entries.Length == arraySize && t.Built(ps)
  {
    var n := CountSize(ps, arraySize);
    t := new Table(h, arraySize, n, junk);
    if n > 0 {
      t.FillNoColliding(ps);
      t.FillColliding(ps);
    } else {
      t.FillArray(ps);
    }
  }

  // ----- a finished table -----

  /** A finished hash part */
  ghost predicate HashBuilt(h: Hash, nodes: seq<Node>, chains: seq<seq<nat>>, ps: seq<Pair>, size: nat) {
    && Distinct(ps)
    && |nodes| == |HashKeys(ps, size)|
    && (|nodes| > 0 ==> SecondPass(h, nodes, chains, ps, size, |ps|))
  }

  lemma AllSlots(h: Hash, nodes: seq<Node>, chains: seq<seq<nat>>, ps: seq<Pair>, size: nat)
    requires HashBuilt(h, nodes, chains, ps, size)
    ensures forall i :: 0 <= i < |nodes| ==> Filled(nodes, i)
    ensures |nodes| > 0 ==> Chained(h, nodes, chains) && |chains| == |nodes|
    ensures Holds(nodes, ps, size)
  {
    if |nodes| > 0 {
      AllFilled(nodes, ps, size);
    }
  }

  lemma NonePresent(k: Key)
    ensures !Present([], k)
  {
  }

  /** A slot that says it has no collisions is the only one of its main position. */
  lemma Shortcut(h: Hash, nodes: seq<Node>, chains: seq<seq<nat>>, n: nat, k: Key)
    requires Chained(h, nodes, chains) && n < |nodes| && Filled(nodes, n) && n == Main(h, k, |nodes|)
    requires h(k) != nodes[n].keyhash && nodes[n].nocolliding
    ensures !Present(nodes, k)
  {
    forall i | 0 <= i < |nodes| && Filled(nodes, i) ensures nodes[i].key != k {
      assert InChain(h, nodes, chains, i);
    }
  }

  /** The place of a filled slot in its chain */
  lemma Position(h: Hash, nodes: seq<Node>, chains: seq<seq<nat>>, n: nat) returns (p: nat)
    requires Chained(h, nodes, chains) && n < |nodes| && Filled(nodes, n)
    ensures var m := Main(h, nodes[n].key, |nodes|);
            p < |chains[m]| && chains[m][p] == n && (m == n ==> p == 0)
  {
    var m := Main(h, nodes[n].key, |nodes|);
    assert InChain(h, nodes, chains, n);
    p :| 0 <= p < |chains[m]| && chains[m][p] == n;
    assert ChainSlot(h, nodes, chains[m], m, p);
  }

  /** The key is in the chain, from position `p` on. */
  predicate Ahead(nodes: seq<Node>, chain: seq<nat>, p: nat, k: Key) {
    exists q :: p <= q < |chain| && chain[q] < |nodes| && nodes[chain[q]].key == k
  }

  /** A key that is present is in the chain that starts at its main position. */
  lemma OnlyInChain(h: Hash, nodes: seq<Node>, chains: seq<seq<nat>>, k: Key)
    requires Chained(h, nodes, chains) && |nodes| > 0
    ensures var m := Main(h, k, |nodes|);
            Present(nodes, k) ==>
              && chains[m] != [] && chains[m][0] == m && Main(h, nodes[m].key, |nodes|) == m
              && Ahead(nodes, chains[m], 0, k)
  {
    if Present(nodes, k) {
      var i :| 0 <= i < |nodes| && Filled(nodes, i) && nodes[i].key == k;
      var q := Position(h, nodes, chains, i);
      assert ChainSlot(h, nodes, chains[Main(h, k, |nodes|)], Main(h, k, |nodes|), 0);
      assert nodes[chains[Main(h, k, |nodes|)][q]].key == k;
    }
  }

  lemma LinkAt(h: Hash, nodes: seq<Node>, chains: seq<seq<nat>>, m: nat, p: nat)
    requires Chained(h, nodes, chains) && m < |nodes| && p < |chains[m]|
    ensures chains[m][p] < |nodes| && Filled(nodes, chains[m][p])
    ensures nodes[chains[m][p]].keyhash == h(nodes[chains[m][p]].key)
    ensures nodes[chains[m][p]].next == if p + 1 < |chains[m]| then chains[m][p + 1] else -1
  {
    assert Linked(nodes, chains[m]) && ChainSlot(h, nodes, chains[m], m, p);
    if p + 1 < |chains[m]| {
      assert nodes[chains[m][p]].next == NextOf(chains[m], p);
    }
  }

  lemma SlotValue(h: Hash, nodes: seq<Node>, chains: seq<seq<nat>>, ps: seq<Pair>, size: nat, n: nat)
    requires HashBuilt(h, nodes, chains, ps, size) && n < |nodes| && Filled(nodes, n)
    ensures Find(ps, nodes[n].key) == nodes[n].value
  {
  }

  lemma AbsentKey(h: Hash, nodes: seq<Node>, chains: seq<seq<nat>>, ps: seq<Pair>, size: nat, k: Key)
    requires HashBuilt(h, nodes, chains, ps, size) && !InArray(k, size) && !Present(nodes, k)
    ensures Find(ps, k) == None
  {
    if Find(ps, k).Some? {
      var i :| 0 <= i < |ps| && ps[i] == Pair(k, Find(ps, k).value);
      KeyCounted(ps, size, i);
    }
  }

  // ----- the list of keys -----

  function ArrayKeys(es: seq<Option<Value>>, i: nat): seq<Key>
    requires i <= |es|
    decreases |es| - i
  {
    if i == |es| then [] else (if es[i].Some? then [IntKey(i + 1)] else []) + ArrayKeys(es, i + 1)
  }

  function SlotKeys(nodes: seq<Node>): seq<Key> {
    seq(|nodes|, i requires 0 <= i < |nodes| => nodes[i].key)
  }

  lemma {:induction false} ArrayKeysIff(es: seq<Option<Value>>, i: nat, k: Key)
    requires i <= |es|
    ensures k in ArrayKeys(es, i) <==> k.IntKey? && i < k.n <= |es| && es[k.n - 1].Some?
    decreases |es| - i
  {
    if i < |es| {
      ArrayKeysIff(es, i + 1, k);
    }
  }

  lemma {:induction false} ArrayKeysSorted(es: seq<Option<Value>>, i: nat)
    requires i <= |es|
    ensures forall a, b :: 0 <= a < b < |ArrayKeys(es, i)| ==> ArrayKeys(es, i)[a] != ArrayKeys(es, i)[b]
    decreases |es| - i
  {
    if i < |es| {
      ArrayKeysSorted(es, i + 1);
      ArrayKeysIff(es, i + 1, IntKey(i + 1));
    }
  }

  /** Which keys the array part lists, and what follows each of them */
  lemma {:induction false} ArrayPosition(es: seq<Option<Value>>, i: nat, p: nat)
    requires i <= |es|
    ensures p < |ArrayKeys(es, i)| ==>
              var k := ArrayKeys(es, i)[p];
              k.IntKey? && i < k.n <= |es| && ArrayKeys(es, i)[p + 1..] == ArrayKeys(es, k.n)
    decreases |es| - i
  {
    if i < |es| {
      var more := ArrayKeys(es, i + 1);
      if es[i].None? {
        assert ArrayKeys(es, i) == more;
        ArrayPosition(es, i + 1, p);
      } else {
        assert ArrayKeys(es, i) == [IntKey(i + 1)] + more;
        if p > 0 {
          ArrayPosition(es, i + 1, p - 1);
          assert p < |ArrayKeys(es, i)| ==> ArrayKeys(es, i)[p + 1..] == more[p..];
        }
      }
    }
  }

  lemma ArrayBehind(es: seq<Option<Value>>, slots: seq<Key>, p: nat, n: nat)
    requires n <= |es| && p < |ArrayKeys(es, 0)| && ArrayKeys(es, 0)[p + 1..] == ArrayKeys(es, n)
    ensures var all, rest := ArrayKeys(es, 0) + slots, ArrayKeys(es, n) + slots;
            all[p + 1..] == rest
  {
    hide ArrayKeys;
    var a := ArrayKeys(es, 0);
    assert (a + slots)[p + 1..] == a[p + 1..] + slots;
  }

  /** Every slot of a finished table holds an entry of its own. */
  predicate SlotRight(nodes: seq<Node>, ps: seq<Pair>, size: nat, i: nat)
    requires i < |nodes|
  {
    nodes[i].value.Some? && !InArray(nodes[i].key, size) && Find(ps, nodes[i].key) == nodes[i].value
  }

  ghost predicate SlotsRight(nodes: seq<Node>, ps: seq<Pair>, size: nat) {
    && (forall i :: 0 <= i < |nodes| ==> SlotRight(nodes, ps, size, i))
    && (forall i, j :: 0 <= i < j < |nodes| ==> nodes[i].key != nodes[j].key)
  }

  lemma BuiltRight(h: Hash, nodes: seq<Node>, chains: seq<seq<nat>>, ps: seq<Pair>, size: nat)
    requires HashBuilt(h, nodes, chains, ps, size)
    ensures SlotsRight(nodes, ps, size)
  {
    hide HashBuilt, Find;
    AllSlots(h, nodes, chains, ps, size);
    forall i | 0 <= i < |nodes| ensures SlotRight(nodes, ps, size, i) {
      assert Filled(nodes, i);
    }
    forall i, j | 0 <= i < j < |nodes| ensures nodes[i].key != nodes[j].key {
      assert Filled(nodes, i) && Filled(nodes, j);
    }
  }

  /** A key has one slot. */
  lemma SlotUnique(nodes: seq<Node>, ps: seq<Pair>, size: nat, i: nat, k: Key, n: Option<nat>)
    requires SlotsRight(nodes, ps, size) && i < |nodes| && nodes[i].key == k
    requires n.Some? ==> n.value < |nodes| && nodes[n.value].key == k
    requires n.None? ==> !Present(nodes, k)
    ensures n == Some(i)
  {
    assert SlotRight(nodes, ps, size, i);
    assert Filled(nodes, i);
  }

  lemma KeysDistinct(nodes: seq<Node>, ps: seq<Pair>, es: seq<Option<Value>>)
    requires SlotsRight(nodes, ps, |es|)
    ensures var keys := ArrayKeys(es, 0) + SlotKeys(nodes);
            forall i, j :: 0 <= i < j < |keys| ==> keys[i] != keys[j]
  {
    hide ArrayKeys, Find, SlotKeys;
    var a, b := ArrayKeys(es, 0), SlotKeys(nodes);
    ArrayKeysSorted(es, 0);
    SlotKeysAre(nodes);
    forall i, j | 0 <= i < j < |a + b| ensures (a + b)[i] != (a + b)[j] {
      ArrayPosition(es, 0, i);
      if i < |a| <= j {
        assert SlotRight(nodes, ps, |es|, j - |a|);
      }
    }
  }

  lemma SlotKeysAre(nodes: seq<Node>)
    ensures |SlotKeys(nodes)| == |nodes| && forall i :: 0 <= i < |nodes| ==> SlotKeys(nodes)[i] == nodes[i].key
  {
  }

  /** The listed keys are those of the table. */
  lemma KeysIff(h: Hash, nodes: seq<Node>, chains: seq<seq<nat>>, ps: seq<Pair>, es: seq<Option<Value>>, k: Key)
    requires HashBuilt(h, nodes, chains, ps, |es|) && SlotsRight(nodes, ps, |es|)
    requires forall i :: 0 <= i < |es| ==> es[i] == Find(ps, IntKey(i + 1))
    ensures k in ArrayKeys(es, 0) + SlotKeys(nodes) <==> Find(ps, k).Some?
  {
    hide ArrayKeys, SlotKeys, HashBuilt, Find, SlotRight, Present;
    ArrayKeysIff(es, 0, k);
    SlotKeysAre(nodes);
    PresentIff(nodes, ps, |es|, k);
    if InArray(k, |es|) {
      assert es[k.n - 1] == Find(ps, IntKey(k.n - 1 + 1));
    } else if !Present(nodes, k) {
      AbsentKey(h, nodes, chains, ps, |es|, k);
    }
  }

  lemma PresentIff(nodes: seq<Node>, ps: seq<Pair>, size: nat, k: Key)
    requires SlotsRight(nodes, ps, size)
    ensures Present(nodes, k) <==> exists i :: 0 <= i < |nodes| && nodes[i].key == k
    ensures Present(nodes, k) ==> !InArray(k, size) && Find(ps, k).Some?
  {
    hide Find;
    if i :| 0 <= i < |nodes| && nodes[i].key == k {
      assert SlotRight(nodes, ps, size, i);
      assert Filled(nodes, i);
    }
  }
}
