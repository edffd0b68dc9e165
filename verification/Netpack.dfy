/**
  Reassembly of packets from the chunks that sockets deliver (lua-netpack.c). Each connection has at
  most one incomplete record, kept in a table of hash chains; complete packets are returned directly
  or put into a ring that grows.
 */
module Netpack {
  import opened Common
  import opened Framing
  import MessageQueue

  const QUEUESIZE := 1024
  const HASHSIZE := 4096

  /** struct netpack */
  datatype Packet = Packet(id: int, bytes: seq<Byte>)

  /**
    struct uncomplete. `read` is -1 when only the first length byte, `header`, has arrived;
    otherwise `data` is the part of the buffer that is filled.
   */
  datatype Uncomplete = Uncomplete(id: int, read: int, header: Byte, size: nat, data: seq<Byte>)

  /** What lfilter returns for data: nothing yet, one packet, or a hint to pop the queue. */
  datatype Outcome = Nothing | Data(packet: Packet) | More

  /** hash_fd; the sum is taken modulo 2^32, which HASHSIZE divides. */
  function Hash(fd: int): nat {
    (fd / 0x1000000 + fd / 0x1000 + fd) % 0x1_0000_0000 % HASHSIZE
  }

  // ----- records -----

  /** A record that waits for more. */
  predicate Waiting(u: Uncomplete) {
    u.read == -1 || (0 <= u.read == |u.data| < u.size < 0x10000)
  }

  /** The bytes that a record stands for. */
  function Held(u: Uncomplete): seq<Byte>
    requires Waiting(u)
  {
    if u.read < 0 then [u.header] else SizeBytes(u.size) + u.data
  }

  predicate ChainOk(chain: seq<Uncomplete>, h: nat) {
    && (forall k :: 0 <= k < |chain| ==> Waiting(chain[k]) && Hash(chain[k].id) == h)
    && (forall i, j :: 0 <= i < j < |chain| ==> chain[i].id != chain[j].id)
  }

  function Lookup(chain: seq<Uncomplete>, fd: int): Option<Uncomplete> {
    if chain == [] then None
    else if chain[0].id == fd then Some(chain[0])
    else Lookup(chain[1..], fd)
  }

  lemma {:induction false} LookupFinds(chain: seq<Uncomplete>, fd: int)
    ensures Lookup(chain, fd).Some? ==> Lookup(chain, fd).value in chain && Lookup(chain, fd).value.id == fd
  {
    if chain != [] && chain[0].id != fd {
      LookupFinds(chain[1..], fd);
    }
  }

  lemma {:induction false} LookupAbsent(chain: seq<Uncomplete>, fd: int)
    requires forall k :: 0 <= k < |chain| ==> chain[k].id != fd
    ensures Lookup(chain, fd) == None
  {
    if chain != [] {
      LookupAbsent(chain[1..], fd);
    }
  }

  lemma {:induction false} LookupPast(front: seq<Uncomplete>, back: seq<Uncomplete>, fd: int)
    requires forall k :: 0 <= k < |front| ==> front[k].id != fd
    ensures Lookup(front + back, fd) == Lookup(back, fd)
  {
    if front == [] {
      assert front + back == back;
    } else {
      LookupPast(front[1..], back, fd);
      assert (front + back)[1..] == front[1..] + back;
    }
  }

  /** Taking the first record out of the chain behind `k` others. */
  lemma {:induction false} LookupUnlinked(chain: seq<Uncomplete>, k: nat, g: int)
    requires k < |chain| && g != chain[k].id
    ensures Lookup(chain[..k] + chain[k + 1..], g) == Lookup(chain, g)
  {
    if k == 0 {
      assert chain[..k] + chain[k + 1..] == chain[1..];
    } else {
      LookupUnlinked(chain[1..], k - 1, g);
      assert (chain[..k] + chain[k + 1..])[1..] == chain[1..][..k - 1] + chain[1..][k..];
    }
  }

  lemma LookupRemoved(chain: seq<Uncomplete>, h: nat, k: nat)
    requires ChainOk(chain, h) && k < |chain|
    ensures Lookup(chain, chain[k].id) == Some(chain[k])
    ensures var chain' := chain[..k] + chain[k + 1..];
            && ChainOk(chain', h)
            && Lookup(chain', chain[k].id) == None
            && forall g :: g != chain[k].id ==> Lookup(chain', g) == Lookup(chain, g)
  {
    var u := chain[k];
    LookupPast(chain[..k], chain[k..], u.id);
    assert chain == chain[..k] + chain[k..];
    LookupAbsent(chain[..k] + chain[k + 1..], u.id);
    forall g | g != u.id ensures Lookup(chain[..k] + chain[k + 1..], g) == Lookup(chain, g) {
      LookupUnlinked(chain, k, g);
    }
  }

  // ----- the reassembler -----

  function Tagged(fd: int, ps: seq<seq<Byte>>): seq<Packet> {
    if ps == [] then [] else [Packet(fd, ps[0])] + Tagged(fd, ps[1..])
  }

  /** struct queue */
  class Reassembler {
    var cap: nat
    var head: nat
    var tail: nat
    var queue: array<Packet>
    const hash: array<seq<Uncomplete>>

    ghost predicate RingValid()
      reads this
    {
      cap == queue.Length > 0 && head < cap && tail < cap
    }

    ghost predicate TableValid()
      reads this, hash
    {
      hash.Length == HASHSIZE && forall h :: 0 <= h < HASHSIZE ==> ChainOk(hash[h], h)
    }

    ghost predicate Valid()
      reads this, hash
    {
      RingValid() && TableValid()
    }

    /** The packets in the ring, oldest first. */
    ghost function Contents(): seq<Packet>
      requires RingValid()
      reads this, queue
    {
      if head <= tail then queue[head..tail] else queue[head..] + queue[..tail]
    }

    ghost function Record(fd: int): Option<Uncomplete>
      requires TableValid()
      reads this, hash
    {
      Lookup(hash[Hash(fd)], fd)
    }

    /** The bytes of a connection that are in no packet yet. */
    ghost function Pending(fd: int): seq<Byte>
      requires TableValid()
      reads this, hash
    {
      RecordWaits(fd);
      if Record(fd).None? then [] else Held(Record(fd).value)
    }

    lemma RecordWaits(fd: int)
      requires TableValid()
      ensures Record(fd).Some? ==> Waiting(Record(fd).value) && Record(fd).value.id == fd
    {
      assert ChainOk(hash[Hash(fd)], Hash(fd));
      LookupFinds(hash[Hash(fd)], fd);
    }

    constructor ()
      ensures Valid() && fresh(queue) && fresh(hash)
      ensures Contents() == [] && forall fd :: Record(fd) == None && Pending(fd) == []
    {
      cap, head, tail := QUEUESIZE, 0, 0;
      queue := new Packet[QUEUESIZE](_ => Packet(0, []));
      hash := new seq<Uncomplete>[HASHSIZE](_ => []);
    }

    // ----- the ring -----

    /** expand_queue: called when the ring is full, that is when head and tail have met. */
    method ExpandQueue()
      requires RingValid() && head == tail
      modifies this
      ensures RingValid() && fresh(queue)
      ensures Contents() == old(queue[head..]) + old(queue[..head])
    {
      var bigger := new Packet[cap + QUEUESIZE](_ => Packet(0, []));
      for i := 0 to cap
        modifies bigger
        invariant forall j :: 0 <= j < i ==> bigger[j] == queue[MessageQueue.Around(head, j, cap)]
      {
        bigger[i] := queue[MessageQueue.Around(head, i, cap)];
      }
      ghost var all := queue[head..] + queue[..head];
      forall j | 0 <= j < cap ensures bigger[j] == all[j] {
      }
      assert bigger[0..cap] == all;
      head, tail := 0, cap;
      cap := cap + QUEUESIZE;
      queue := bigger;
    }

    method PushData(p: Packet)
      requires RingValid()
      modifies this, queue
      ensures RingValid() && (queue == old(queue) || fresh(queue))
      ensures Contents() == old(Contents()) + [p]
    {
      ghost var before := Contents();
      queue[tail] := p;
      tail := tail + 1;
      if tail >= cap {
        tail := tail - cap;
      }
      if head == tail {
        assert queue[head..] + queue[..head] == before + [p];
        ExpandQueue();
      } else {
        assert Contents() == before + [p];
      }
    }

    /** lpop */
    method Pop() returns (r: Option<Packet>)
      requires RingValid()
      modifies this
      ensures RingValid() && queue == old(queue)
      ensures r.None? <==> old(Contents()) == []
      ensures old(Contents()) == (if r.None? then [] else [r.value]) + Contents()
    {
      ghost var before := Contents();
      if head == tail {
        return None;
      }
      r := Some(queue[head]);
      head := head + 1;
      if head >= cap {
        head := 0;
      }
      assert before == [r.value] + Contents();
    }

    // ----- the records -----

    /** find_uncomplete: looks the record up and takes it out of its chain. */
    method FindUncomplete(fd: int) returns (r: Option<Uncomplete>)
      requires TableValid()
      modifies hash
      ensures TableValid() && r == old(Record(fd))
      ensures forall g :: Record(g) == if g == fd then None else old(Record(g))
    {
      var h := Hash(fd);
      var chain := hash[h];
      var k := 0;
      while k < |chain| && chain[k].id != fd
        invariant 0 <= k <= |chain|
        invariant forall j :: 0 <= j < k ==> chain[j].id != fd
      {
        k := k + 1;
      }
      assert ChainOk(chain, h);
      if k == |chain| {
        LookupAbsent(chain, fd);
        return None;
      }
      LookupRemoved(chain, h, k);
      hash[h] := chain[..k] + chain[k + 1..];
      r := Some(chain[k]);
    }

    /** save_uncomplete: the record is put in front of its chain. */
    method SaveUncomplete(u: Uncomplete)
      requires TableValid() && Waiting(u) && Record(u.id) == None
      modifies hash
      ensures TableValid()
      ensures forall g :: Record(g) == if g == u.id then Some(u) else old(Record(g))
    {
      var h := Hash(u.id);
      assert ChainOk(hash[h], h);
      LookupNone(hash[h], u.id);
      hash[h] := [u] + hash[h];
    }

    /** A record for bytes that hold no whole packet: the first length byte, or the length and some data. */
    method SaveRest(fd: int, b: seq<Byte>)
      requires TableValid() && b != [] && Incomplete(b) && Record(fd) == None
      modifies hash
      ensures TableValid() && Pending(fd) == b
      ensures forall g :: g != fd ==> Record(g) == old(Record(g))
    {
      if |b| == 1 {
        SaveUncomplete(Uncomplete(fd, -1, b[0], 0, []));
      } else {
        SplitSize(b);
        SaveUncomplete(Uncomplete(fd, |b| - 2, 0, SizeAt(b), b[2..]));
      }
    }

    /** push_more: every whole packet goes to the ring, the rest into a record. */
    method PushMore(fd: int, b: seq<Byte>)
      requires Valid() && b != [] && Record(fd) == None
      modifies this, queue, hash
      ensures Valid() && (queue == old(queue) || fresh(queue))
      ensures Contents() == old(Contents()) + Tagged(fd, Parse(b).packets)
      ensures Pending(fd) == Parse(b).rest
      ensures forall g :: g != fd ==> Record(g) == old(Record(g))
      decreases |b|
    {
      hide Parse, Tagged, ChainOk, Lookup, Held;
      ParseStep(b);
      TaggedNone(fd);
      if |b| == 1 || |b| - 2 < SizeAt(b) {
        SaveRest(fd, b);
        return;
      }
      var n := 2 + SizeAt(b);
      PushData(Packet(fd, b[2..n]));
      TaggedFirst(fd, b[2..n], Parse(b[n..]).packets);
      ghost var q := Contents();
      if |b| - n > 0 {
        PushMore(fd, b[n..]);
      } else {
        assert b[n..] == [];
        ParseStep([]);
      }
      assert old(Contents()) + ([Packet(fd, b[2..n])] + Tagged(fd, Parse(b[n..]).packets)) == q + Tagged(fd, Parse(b[n..]).packets);
    }

    /** filter_data_ when the connection has no record. */
    method FilterFresh(fd: int, b: seq<Byte>) returns (r: Outcome)
      requires Valid() && b != [] && Record(fd) == None
      modifies this, queue, hash
      ensures Valid() && (queue == old(queue) || fresh(queue))
      ensures Delivers(r, fd, Parse(b), old(Contents()), Contents())
      ensures Pending(fd) == Parse(b).rest
      ensures forall g :: g != fd ==> Record(g) == old(Record(g))
    {
      hide Parse, Tagged, ChainOk, Lookup, Held;
      ParseStep(b);
      TaggedNone(fd);
      if |b| == 1 || |b| - 2 < SizeAt(b) {
        SaveRest(fd, b);
        return Nothing;
      }
      var n := 2 + SizeAt(b);
      if |b| == n {
        ParseStep([]);
        assert b[n..] == [];
        return Data(Packet(fd, b[2..n]));
      }
      PushData(Packet(fd, b[2..n]));
      TaggedFirst(fd, b[2..n], Parse(b[n..]).packets);
      ghost var q := Contents();
      PushMore(fd, b[n..]);
      NotAlone(b[n..]);
      assert old(Contents()) + ([Packet(fd, b[2..n])] + Tagged(fd, Parse(b[n..]).packets)) == q + Tagged(fd, Parse(b[n..]).packets);
      return More;
    }

    /** filter_data_ when the connection's record, which has been taken out, gets more bytes. */
    method FilterRecord(fd: int, u: Uncomplete, chunk: seq<Byte>) returns (r: Outcome)
      requires Valid() && chunk != [] && Record(fd) == None && Waiting(u) && u.id == fd
      modifies this, queue, hash
      ensures Valid() && (queue == old(queue) || fresh(queue))
      ensures Delivers(r, fd, Parse(Held(u) + chunk), old(Contents()), Contents())
      ensures Pending(fd) == Parse(Held(u) + chunk).rest
      ensures forall g :: g != fd ==> Record(g) == old(Record(g))
    {
      hide Parse, Tagged, ChainOk, Lookup;
      var size, data, b := u.size, u.data, chunk;
      ghost var all := Held(u) + chunk;
      if u.read < 0 {
        size, data, b := SizeAt([u.header, chunk[0]]), [], chunk[1..];
      }
      HeldParts(u, chunk, size, data, b);
      ParseStep(all);
      TaggedNone(fd);
      var need := size - |data|;
      if |b| < need {
        HeldAgain(fd, size, data + b);
        SaveUncomplete(Uncomplete(fd, |data + b|, 0, size, data + b));
        return Nothing;
      }
      var p := Packet(fd, data + b[..need]);
      CompleteParts(size, data, b);
      b := b[need..];
      if |b| == 0 {
        ParseStep([]);
        return Data(p);
      }
      PushData(p);
      TaggedFirst(fd, p.bytes, Parse(b).packets);
      ghost var q := Contents();
      PushMore(fd, b);
      NotAlone(b);
      assert old(Contents()) + ([p] + Tagged(fd, Parse(b).packets)) == q + Tagged(fd, Parse(b).packets);
      return More;
    }

    /** filter_data_: a chunk of a connection arrives. */
    method Filter(fd: int, chunk: seq<Byte>) returns (r: Outcome)
      requires Valid() && chunk != []
      modifies this, queue, hash
      ensures Valid() && (queue == old(queue) || fresh(queue))
      ensures Delivers(r, fd, Parse(old(Pending(fd)) + chunk), old(Contents()), Contents())
      ensures Pending(fd) == Parse(old(Pending(fd)) + chunk).rest
      ensures forall g :: g != fd ==> Pending(g) == old(Pending(g))
    {
      hide Parse, Tagged, ChainOk, Lookup, Held, Delivers;
      RecordWaits(fd);
      var u := FindUncomplete(fd);
      if u.Some? {
        r := FilterRecord(fd, u.value, chunk);
      } else {
        assert [] + chunk == chunk;
        r := FilterFresh(fd, chunk);
      }
    }

    /** close_uncomplete */
    method CloseUncomplete(fd: int)
      requires TableValid()
      modifies hash
      ensures TableValid()
      ensures forall g :: Pending(g) == if g == fd then [] else old(Pending(g))
    {
      hide ChainOk, Lookup, Held;
      var _ := FindUncomplete(fd);
    }
  }

  /**
    How the packets of a chunk leave the filter: none, exactly one and nothing behind it returned at
    once, or all of them through the ring.
   */
  ghost predicate Delivers(r: Outcome, fd: int, parsed: Parsed, before: seq<Packet>, after: seq<Packet>) {
    match r
    case Nothing => parsed.packets == [] && after == before
    case Data(p) => parsed == Parsed([p.bytes], []) && p.id == fd && after == before
    case More => parsed.packets != [] && (|parsed.packets| > 1 || parsed.rest != []) && after == before + Tagged(fd, parsed.packets)
  }

  lemma TaggedNone(fd: int)
    ensures Tagged(fd, []) == []
  {
  }

  lemma TaggedFirst(fd: int, p: seq<Byte>, ps: seq<seq<Byte>>)
    ensures Tagged(fd, [p] + ps) == [Packet(fd, p)] + Tagged(fd, ps)
  {
    assert ([p] + ps)[1..] == ps;
  }

  lemma SplitSize(b: seq<Byte>)
    requires |b| >= 2
    ensures SizeAt(b) < 0x10000 && b == SizeBytes(SizeAt(b)) + b[2..]
  {
    Digits(b[0], b[1]);
    assert SizeBytes(SizeAt(b)) == [b[0], b[1]];
  }

  /** Bytes give a packet or stay. */
  lemma NotAlone(b: seq<Byte>)
    requires b != []
    ensures Parse(b).packets != [] || Parse(b).rest != []
  {
  }

  /** A record and a chunk, as length, data so far and new data. */
  lemma HeldParts(u: Uncomplete, chunk: seq<Byte>, size: nat, data: seq<Byte>, b: seq<Byte>)
    requires Waiting(u) && chunk != []
    requires if u.read < 0 then size == SizeAt([u.header, chunk[0]]) && data == [] && b == chunk[1..]
             else size == u.size && data == u.data && b == chunk
    ensures size < 0x10000 && Held(u) + chunk == SizeBytes(size) + (data + b) && |data| <= size
  {
    if u.read < 0 {
      Digits(u.header, chunk[0]);
      assert chunk == [chunk[0]] + b;
    }
  }

  lemma HeldAgain(fd: int, size: nat, data: seq<Byte>)
    requires |data| < size < 0x10000
    ensures Held(Uncomplete(fd, |data|, 0, size, data)) == SizeBytes(size) + data
    ensures Incomplete(SizeBytes(size) + data)
  {
    SizeAgain(size, data);
  }

  lemma SizeAgain(size: nat, data: seq<Byte>)
    requires size < 0x10000
    ensures SizeAt(SizeBytes(size) + data) == size
  {
    assert size / 256 % 256 * 256 + size % 256 == size;
  }

  lemma CompleteParts(size: nat, data: seq<Byte>, b: seq<Byte>)
    requires |data| <= size < 0x10000 && |b| >= size - |data|
    ensures var all := SizeBytes(size) + (data + b);
            && !Incomplete(all) && SizeAt(all) == size
            && all[2..2 + size] == data + b[..size - |data|]
            && all[2 + size..] == b[size - |data|..]
  {
    SizeAgain(size, data + b);
  }

  lemma {:induction false} LookupNone(chain: seq<Uncomplete>, fd: int)
    requires Lookup(chain, fd) == None
    ensures forall k :: 0 <= k < |chain| ==> chain[k].id != fd
  {
    if chain != [] {
      LookupNone(chain[1..], fd);
      forall k | 0 <= k < |chain| ensures chain[k].id != fd {
        if k > 0 {
          assert chain[k] == chain[1..][k - 1];
        }
      }
    }
  }

  // ----- every run -----

  /** What happens to the reassembler: data of a connection, its end, a call of lpop. */
  datatype Event = Arrive(fd: int, chunk: seq<Byte>) | Hangup(fd: int) | PopOne

  predicate EventsOk(es: seq<Event>) {
    forall k :: 0 <= k < |es| ==> es[k].Arrive? ==> es[k].chunk != []
  }

  function Last(es: seq<Event>): Event
    requires es != []
  {
    es[|es| - 1]
  }

  function Front(es: seq<Event>): seq<Event>
    requires es != []
  {
    es[..|es| - 1]
  }

  /** The bytes that the present connection with number `fd` has delivered. */
  function Received(es: seq<Event>, fd: int): seq<Byte> {
    if es == [] then []
    else
      match Last(es)
      case Arrive(g, chunk) => if g == fd then Received(Front(es), fd) + chunk else Received(Front(es), fd)
      case Hangup(g) => if g == fd then [] else Received(Front(es), fd)
      case PopOne => Received(Front(es), fd)
  }

  /** The packets of earlier connections with the same number, each read as a whole. */
  function Past(es: seq<Event>, fd: int): seq<seq<Byte>> {
    if es == [] then []
    else if Last(es) == Hangup(fd) then Past(Front(es), fd) + Parse(Received(Front(es), fd)).packets
    else Past(Front(es), fd)
  }

  /** The packets that the reassembler produces, one event after the other. */
  function Produced(es: seq<Event>): seq<Packet> {
    if es == [] then []
    else
      match Last(es)
      case Arrive(fd, chunk) =>
        Produced(Front(es)) + Tagged(fd, Parse(Parse(Received(Front(es), fd)).rest + chunk).packets)
      case _ => Produced(Front(es))
  }

  function Of(ps: seq<Packet>, fd: int): seq<seq<Byte>> {
    if ps == [] then []
    else if ps[0].id == fd then [ps[0].bytes] + Of(ps[1..], fd)
    else Of(ps[1..], fd)
  }

  lemma {:induction false} OfConcat(a: seq<Packet>, b: seq<Packet>, fd: int)
    ensures Of(a + b, fd) == Of(a, fd) + Of(b, fd)
  {
    if a == [] {
      assert a + b == b;
    } else {
      OfConcat(a[1..], b, fd);
      assert (a + b)[1..] == a[1..] + b;
    }
  }

  lemma {:induction false} OfTagged(g: int, ps: seq<seq<Byte>>, fd: int)
    ensures Of(Tagged(g, ps), fd) == if g == fd then ps else []
  {
    if ps != [] {
      OfTagged(g, ps[1..], fd);
      assert Tagged(g, ps)[1..] == Tagged(g, ps[1..]);
    }
  }

  /**
    For every way of cutting the connections' bytes into chunks and every interleaving, the packets
    produced for a connection are those of its bytes read as a whole.
   */
  lemma {:induction false} ChunksDoNotMatter(es: seq<Event>, fd: int)
    ensures Of(Produced(es), fd) == Past(es, fd) + Parse(Received(es, fd)).packets
  {
    hide Parse, Tagged, Of;
    if es == [] {
      ParseStep([]);
      OfNone(fd);
    } else {
      var es' := Front(es);
      ChunksDoNotMatter(es', fd);
      match Last(es) {
        case Arrive(g, chunk) =>
          var made := Parse(Parse(Received(es', g)).rest + chunk).packets;
          OfConcat(Produced(es'), Tagged(g, made), fd);
          OfTagged(g, made, fd);
          if g == fd {
            ParseInParts(Received(es', fd), chunk);
            assert Past(es', fd) + Parse(Received(es', fd)).packets + made ==
                   Past(es', fd) + (Parse(Received(es', fd)).packets + made);
          }
        case Hangup(g) =>
          if g == fd {
            ParseStep([]);
          }
        case PopOne =>
      }
    }
  }

  lemma OfNone(fd: int)
    ensures Of([], fd) == []
  {
  }

  /** A connection that delivers packed messages, cut in any way, has exactly these messages produced. */
  lemma PackedMessagesArrive(es: seq<Event>, fd: int, ms: seq<seq<Byte>>)
    requires (forall m :: m in ms ==> Pack(m).Ok?) && Received(es, fd) == Stream(ms) && Past(es, fd) == []
    ensures Of(Produced(es), fd) == ms
  {
    ChunksDoNotMatter(es, fd);
    StreamThenRest(ms, []);
    ParseStep([]);
    assert Stream(ms) + [] == Stream(ms);
    assert ms + [] == ms;
  }

  /** The reassembler agrees with the bytes received. */
  ghost predicate UpToDate(np: Reassembler, es: seq<Event>)
    requires np.TableValid()
    reads np, np.hash
  {
    forall fd :: np.Pending(fd) == Parse(Received(es, fd)).rest
  }

  /** One event. `out` gets what the caller sees: a packet returned at once, or one taken from the ring. */
  method Handle(np: Reassembler, e: Event, ghost es: seq<Event>) returns (r: Outcome, out: seq<Packet>)
    requires np.Valid() && UpToDate(np, es) && (e.Arrive? ==> e.chunk != [])
    modifies np, np.queue, np.hash
    ensures np.Valid() && (np.queue == old(np.queue) || fresh(np.queue))
    ensures UpToDate(np, es + [e])
    ensures np.Contents() == RingAfter(es, e, old(np.Contents())) && out == Seen(es, e, old(np.Contents()))
    ensures e.Arrive? && np.Contents() != old(np.Contents()) ==> r.More?
  {
    hide Parse, Tagged, ChainOk, Lookup, Held, Hash, NewPackets, Received;
    r, out := Nothing, [];
    forall fd ensures Received(es + [e], fd) == ReceivedNext(es, e, fd) {
      ReceivedMore(es, e, fd);
    }
    match e {
      case Arrive(fd, chunk) =>
        r, out := HandleData(np, fd, chunk, es);
      case Hangup(fd) =>
        np.CloseUncomplete(fd);
        ParseStep([]);
      case PopOne =>
        var p := np.Pop();
        out := if p.Some? then [p.value] else [];
    }
  }

  function ReceivedNext(es: seq<Event>, e: Event, fd: int): seq<Byte> {
    match e
    case Arrive(g, chunk) => if g == fd then Received(es, fd) + chunk else Received(es, fd)
    case Hangup(g) => if g == fd then [] else Received(es, fd)
    case PopOne => Received(es, fd)
  }

  lemma ReceivedMore(es: seq<Event>, e: Event, fd: int)
    ensures Received(es + [e], fd) == ReceivedNext(es, e, fd)
  {
    assert Front(es + [e]) == es && Last(es + [e]) == e;
  }

  /** A chunk arrives. */
  method HandleData(np: Reassembler, fd: int, chunk: seq<Byte>, ghost es: seq<Event>) returns (r: Outcome, out: seq<Packet>)
    requires np.Valid() && UpToDate(np, es) && chunk != []
    modifies np, np.queue, np.hash
    ensures np.Valid() && (np.queue == old(np.queue) || fresh(np.queue))
    ensures np.Pending(fd) == Parse(Received(es, fd) + chunk).rest
    ensures forall g :: g != fd ==> np.Pending(g) == Parse(Received(es, g)).rest
    ensures var e := Arrive(fd, chunk);
            np.Contents() == RingAfter(es, e, old(np.Contents())) && out == Seen(es, e, old(np.Contents()))
    ensures np.Contents() != old(np.Contents()) ==> r.More?
  {
    hide Parse, Tagged, ChainOk, Lookup, Held, Hash, Received;
    r := np.Filter(fd, chunk);
    out := if r.Data? then [r.packet] else [];
    ParseInParts(Received(es, fd), chunk);
    TaggedNone(fd);
    if r.Data? {
      TaggedFirst(fd, r.packet.bytes, []);
      assert [r.packet.bytes] + [] == [r.packet.bytes];
    }
  }

  /** The packets that one more event makes. */
  function NewPackets(es: seq<Event>, e: Event): seq<Packet> {
    if e.Arrive? then Tagged(e.fd, Parse(Parse(Received(es, e.fd)).rest + e.chunk).packets) else []
  }

  /** The data makes one packet and nothing is left over, so that the packet is returned at once. */
  predicate AtOnce(es: seq<Event>, e: Event) {
    e.Arrive? &&
    var parsed := Parse(Parse(Received(es, e.fd)).rest + e.chunk);
    |parsed.packets| == 1 && parsed.rest == []
  }

  /** What the caller sees of an event: a packet returned at once, or the oldest one of the ring. */
  function Seen(es: seq<Event>, e: Event, ring: seq<Packet>): seq<Packet> {
    if AtOnce(es, e) then NewPackets(es, e) else if e.PopOne? && ring != [] then [ring[0]] else []
  }

  function RingAfter(es: seq<Event>, e: Event, ring: seq<Packet>): seq<Packet> {
    if e.Arrive? && !AtOnce(es, e) then ring + NewPackets(es, e) else if e.PopOne? && ring != [] then ring[1..] else ring
  }

  /** A run: what is in the ring and what was delivered. */
  datatype Flow = Flow(ring: seq<Packet>, delivered: seq<Packet>)

  function FlowOf(es: seq<Event>): Flow {
    if es == [] then Flow([], [])
    else
      var before := FlowOf(Front(es));
      Flow(RingAfter(Front(es), Last(es), before.ring), before.delivered + Seen(Front(es), Last(es), before.ring))
  }

  lemma FlowMore(es: seq<Event>, e: Event)
    ensures FlowOf([]) == Flow([], [])
    ensures var f := FlowOf(es);
            FlowOf(es + [e]) == Flow(RingAfter(es, e, f.ring), f.delivered + Seen(es, e, f.ring))
  {
    assert Front(es + [e]) == es && Last(es + [e]) == e;
  }

  /** In every run each packet produced is delivered once or still in the ring. */
  lemma {:induction false} FlowConserves(es: seq<Event>)
    ensures multiset(FlowOf(es).delivered) + multiset(FlowOf(es).ring) == multiset(Produced(es))
  {
    hide Produced, FlowOf, Parse, Received, NewPackets;
    if es == [] {
      NothingYet();
      FlowMore([], PopOne);
    } else {
      var es', e := Front(es), Last(es);
      assert es == es' + [e];
      FlowConserves(es');
      FlowMore(es', e);
      ProducedMore(es', e);
      NoneNew(es', e);
      var f, made := FlowOf(es'), NewPackets(es', e);
      var out, after := Seen(es', e, f.ring), RingAfter(es', e, f.ring);
      Balance(f.ring, after, out, made);
      Settle(f.delivered, f.delivered + out, out, f.ring, after, Produced(es'), made);
    }
  }

  lemma ProducedMore(es: seq<Event>, e: Event)
    ensures Produced(es + [e]) == Produced(es) + NewPackets(es, e)
  {
    assert Front(es + [e]) == es && Last(es + [e]) == e;
  }

  /** The reassembler and its caller are where the run leads, and no byte is lost. */
  ghost predicate InStep(np: Reassembler, delivered: seq<Packet>, es: seq<Event>)
    reads np, np.hash, np.queue
  {
    np.Valid() && UpToDate(np, es) && np.Contents() == FlowOf(es).ring && delivered == FlowOf(es).delivered
  }

  method ReplayOne(np: Reassembler, e: Event, ghost es: seq<Event>, delivered: seq<Packet>) returns (now: seq<Packet>)
    requires InStep(np, delivered, es) && (e.Arrive? ==> e.chunk != [])
    modifies np, np.queue, np.hash
    ensures np.queue == old(np.queue) || fresh(np.queue)
    ensures InStep(np, now, es + [e])
  {
    hide FlowOf, Seen, RingAfter, UpToDate;
    FlowMore(es, e);
    var r, out := Handle(np, e, es);
    now := delivered + out;
  }

  lemma Settle(delivered: seq<Packet>, now: seq<Packet>, out: seq<Packet>, before: seq<Packet>, after: seq<Packet>,
               produced: seq<Packet>, made: seq<Packet>)
    requires now == delivered + out
    requires multiset(delivered) + multiset(before) == multiset(produced)
    requires multiset(after) + multiset(out) == multiset(before) + multiset(made)
    ensures multiset(now) + multiset(after) == multiset(produced + made)
  {
    assert multiset(now) == multiset(delivered) + multiset(out);
    assert multiset(now) + multiset(after) == multiset(delivered) + (multiset(after) + multiset(out));
    assert multiset(delivered) + (multiset(before) + multiset(made)) == multiset(produced) + multiset(made);
  }

  method Empty() returns (np: Reassembler)
    ensures fresh(np) && fresh(np.queue) && fresh(np.hash)
    ensures InStep(np, [], []) && Drained(np, [], [])
  {
    hide Parse, Produced, Received, ChainOk, Lookup, Held;
    np := new Reassembler();
    NothingYet();
  }

  /** Any run. */
  method Replay(es: seq<Event>) returns (np: Reassembler, delivered: seq<Packet>)
    requires EventsOk(es)
    ensures InStep(np, delivered, es)
    ensures multiset(delivered) + multiset(np.Contents()) == multiset(Produced(es))
  {
    hide InStep, Drained;
    np := Empty();
    delivered := [];
    assert es[..0] == [];
    for k := 0 to |es|
      invariant InStep(np, delivered, es[..k]) && fresh(np) && fresh(np.queue) && fresh(np.hash)
    {
      assert es[..k + 1] == es[..k] + [es[k]];
      delivered := ReplayOne(np, es[k], es[..k], delivered);
    }
    assert es[..|es|] == es;
    StandsAt(np, delivered, es);
    FlowConserves(es);
  }

  lemma StandsAt(np: Reassembler, delivered: seq<Packet>, es: seq<Event>)
    requires InStep(np, delivered, es)
    ensures np.RingValid() && np.Contents() == FlowOf(es).ring && delivered == FlowOf(es).delivered
  {
  }

  /** Packets that come or go on one side come or go on the other. */
  lemma Balance(before: seq<Packet>, after: seq<Packet>, out: seq<Packet>, made: seq<Packet>)
    requires after + out == before + made || (made == [] && before == out + after)
    ensures multiset(after) + multiset(out) == multiset(before) + multiset(made)
  {
    if after + out == before + made {
      assert multiset(after + out) == multiset(before + made);
    }
  }

  lemma NoneNew(es: seq<Event>, e: Event)
    ensures !e.Arrive? ==> NewPackets(es, e) == []
  {
  }

  lemma NothingYet()
    ensures Produced([]) == [] && Parse([]) == Parsed([], []) && forall fd :: Received([], fd) == []
  {
  }

  /** dispatch_queue of the gate server: takes packets until there are none. */
  method Drain(np: Reassembler) returns (out: seq<Packet>)
    requires np.RingValid()
    modifies np
    ensures np.RingValid() && np.queue == old(np.queue) && np.Contents() == []
    ensures out == old(np.Contents())
  {
    hide Reassembler.Contents;
    out := [];
    var more := true;
    while more
      invariant np.RingValid() && np.queue == old(np.queue)
      invariant out + np.Contents() == old(np.Contents())
      invariant !more ==> np.Contents() == []
      decreases more, |np.Contents()|
    {
      ghost var left := np.Contents();
      var p := np.Pop();
      if p.Some? {
        assert out + left == out + [p.value] + np.Contents();
        out := out + [p.value];
      } else {
        more := false;
      }
    }
  }

  /** Everything produced is delivered, in order. */
  ghost predicate Drained(np: Reassembler, delivered: seq<Packet>, es: seq<Event>)
    reads np, np.hash, np.queue
  {
    np.Valid() && UpToDate(np, es) && np.Contents() == [] && delivered == Produced(es)
  }

  method DrainOne(np: Reassembler, e: Event, ghost es: seq<Event>, delivered: seq<Packet>) returns (now: seq<Packet>)
    requires Drained(np, delivered, es) && (e.Arrive? ==> e.chunk != [])
    modifies np, np.queue, np.hash
    ensures np.queue == old(np.queue) || fresh(np.queue)
    ensures Drained(np, now, es + [e])
  {
    hide Parse, Tagged, Produced, NewPackets, Received, ChainOk, Lookup, Held;
    var r, out := Handle(np, e, es);
    ProducedMore(es, e);
    NoneNew(es, e);
    assert [] + NewPackets(es, e) == NewPackets(es, e);
    if r.More? {
      var popped := Drain(np);
      now := delivered + (popped + out);
    } else {
      now := delivered + out;
    }
  }

  /** Any run with a consumer that empties the ring whenever it is told to. */
  method ReplayDrained(es: seq<Event>) returns (np: Reassembler, delivered: seq<Packet>)
    requires EventsOk(es)
    ensures Drained(np, delivered, es)
  {
    hide InStep, Drained;
    np := Empty();
    delivered := [];
    assert es[..0] == [];
    for k := 0 to |es|
      invariant Drained(np, delivered, es[..k]) && fresh(np) && fresh(np.queue) && fresh(np.hash)
    {
      assert es[..k + 1] == es[..k] + [es[k]];
      delivered := DrainOne(np, es[k], es[..k], delivered);
    }
    assert es[..|es|] == es;
  }

  // ----- a consumer that leaves packets in the ring -----

  /** What was delivered and what waits, for one connection, is what was produced, in order. */
  predicate InOrder(delivered: seq<Packet>, waiting: seq<Packet>, produced: seq<Packet>, fd: int) {
    Of(delivered, fd) + Of(waiting, fd) == Of(produced, fd)
  }

  ghost predicate OrderKept(es: seq<Event>, fd: int) {
    InOrder(FlowOf(es).delivered, FlowOf(es).ring, Produced(es), fd)
  }

  /** A packet that would be returned at once finds no other than its like, of its connection, in the ring. */
  ghost predicate FindsOnlyLike(es: seq<Event>, e: Event, fd: int) {
    AtOnce(es, e) && e.fd == fd ==>
      forall k :: 0 <= k < |Of(FlowOf(es).ring, fd)| ==> [Of(FlowOf(es).ring, fd)[k]] == Of(NewPackets(es, e), fd)
  }

  /** One event keeps the order of a connection exactly when it lets no packet overtake another one. */
  lemma StepKeepsOrderIff(es: seq<Event>, e: Event, fd: int)
    requires OrderKept(es, fd)
    ensures OrderKept(es + [e], fd) <==> FindsOnlyLike(es, e, fd)
  {
    hide Of, Produced, FlowOf, Tagged, Parse, Received;
    FlowMore(es, e);
    ProducedMore(es, e);
    NoneNew(es, e);
    var f, made := FlowOf(es), NewPackets(es, e);
    OfConcat(Produced(es), made, fd);
    OfConcat(f.delivered, Seen(es, e, f.ring), fd);
    if AtOnce(es, e) {
      var parsed := Parse(Parse(Received(es, e.fd)).rest + e.chunk);
      OfTagged(e.fd, parsed.packets, fd);
      if e.fd == fd {
        Commutes(Of(f.delivered, fd), Of(f.ring, fd), parsed.packets[0]);
        assert Of(made, fd) == [parsed.packets[0]];
      } else {
        assert Of(f.delivered, fd) + [] == Of(f.delivered, fd) && Of(Produced(es), fd) + [] == Of(Produced(es), fd);
      }
    } else {
      OtherStepKeepsOrder(f, e, es, fd);
    }
  }

  lemma OtherStepKeepsOrder(f: Flow, e: Event, es: seq<Event>, fd: int)
    requires !AtOnce(es, e)
    ensures Of(f.delivered + Seen(es, e, f.ring), fd) + Of(RingAfter(es, e, f.ring), fd) ==
            Of(f.delivered, fd) + Of(f.ring, fd) + Of(NewPackets(es, e), fd)
  {
    hide Of, Tagged, Parse, Received;
    OfNone(fd);
    NoneNew(es, e);
    if e.Arrive? {
      OfConcat(f.ring, NewPackets(es, e), fd);
      assert f.delivered + [] == f.delivered;
    } else if e.PopOne? && f.ring != [] {
      OfConcat(f.delivered, [f.ring[0]], fd);
      OfConcat([f.ring[0]], f.ring[1..], fd);
      assert f.ring == [f.ring[0]] + f.ring[1..];
    } else {
      assert f.delivered + [] == f.delivered;
    }
  }

  /**
    The order of a connection is kept all through a run iff every packet of it that is returned at
    once finds none but its like in the ring.
   */
  lemma {:induction false} DirectKeepsOrderIff(es: seq<Event>, fd: int)
    ensures (forall k :: 0 <= k <= |es| ==> OrderKept(es[..k], fd)) <==>
            (forall k :: 0 <= k < |es| ==> FindsOnlyLike(es[..k], es[k], fd))
  {
    hide OrderKept, FindsOnlyLike;
    StartsInOrder(fd);
    assert es[..0] == [];
    if forall k :: 0 <= k <= |es| ==> OrderKept(es[..k], fd) {
      forall k | 0 <= k < |es| ensures FindsOnlyLike(es[..k], es[k], fd) {
        assert es[..k + 1] == es[..k] + [es[k]];
        assert OrderKept(es[..k + 1], fd);
        StepKeepsOrderIff(es[..k], es[k], fd);
      }
    }
    if forall k :: 0 <= k < |es| ==> FindsOnlyLike(es[..k], es[k], fd) {
      forall k | 0 <= k <= |es| ensures OrderKept(es[..k], fd) {
        OrderUpTo(es, fd, k);
      }
    }
  }

  lemma {:induction false} OrderUpTo(es: seq<Event>, fd: int, k: nat)
    requires k <= |es| && forall j :: 0 <= j < |es| ==> FindsOnlyLike(es[..j], es[j], fd)
    ensures OrderKept(es[..k], fd)
  {
    hide OrderKept, FindsOnlyLike;
    if k == 0 {
      StartsInOrder(fd);
      assert es[..0] == [];
    } else {
      OrderUpTo(es, fd, k - 1);
      assert es[..k] == es[..k - 1] + [es[k - 1]];
      assert FindsOnlyLike(es[..k - 1], es[k - 1], fd);
      StepKeepsOrderIff(es[..k - 1], es[k - 1], fd);
    }
  }

  lemma StartsInOrder(fd: int)
    ensures OrderKept([], fd)
  {
    NothingYet();
    OfNone(fd);
  }

  lemma Commutes(d: seq<seq<Byte>>, w: seq<seq<Byte>>, x: seq<Byte>)
    ensures d + [x] + w == d + w + [x] <==> forall k :: 0 <= k < |w| ==> w[k] == x
  {
    if d + [x] + w == d + w + [x] {
      assert (d + [x] + w)[|d|..] == [x] + w && (d + w + [x])[|d|..] == w + [x];
      Shifted(w, x, |w|);
    }
  }

  lemma {:induction false} Shifted(w: seq<seq<Byte>>, x: seq<Byte>, n: nat)
    requires [x] + w == w + [x] && n <= |w|
    ensures forall k :: 0 <= k < n ==> w[k] == x
  {
    if n > 0 {
      Shifted(w, x, n - 1);
      assert ([x] + w)[n - 1] == (w + [x])[n - 1];
    }
  }

  /** Two packets in one chunk, then a third in the next: the third is seen first. */
  method Overtaking() returns (seen: seq<Packet>)
    ensures seen == [Packet(7, [3]), Packet(7, [1]), Packet(7, [2])]
    ensures Produced([Arrive(7, [0, 1, 1, 0, 1, 2]), Arrive(7, [0, 1, 3])]) == [Packet(7, [1]), Packet(7, [2]), Packet(7, [3])]
  {
    hide Tagged, Produced, Received, Parse, ChainOk, Lookup, Held, Hash;
    var np := new Reassembler();
    TwoThenOne();
    ProducedThree();
    var two: seq<Byte>, one: seq<Byte> := [0, 1, 1, 0, 1, 2], [0, 1, 3];
    assert [] + two == two && [] + one == one;
    var r1 := np.Filter(7, two);
    assert np.Contents() == [Packet(7, [1]), Packet(7, [2])];
    var r2 := np.Filter(7, one);
    assert np.Contents() == [Packet(7, [1]), Packet(7, [2])];
    var rest := Drain(np);
    seen := [r2.packet] + rest;
  }

  lemma TwoThenOne()
    ensures Parse([0, 1, 1, 0, 1, 2]) == Parsed([[1], [2]], []) && Parse([0, 1, 3]) == Parsed([[3]], [])
    ensures Tagged(7, [[1], [2]]) == [Packet(7, [1]), Packet(7, [2])] && Tagged(7, [[3]]) == [Packet(7, [3])]
  {
    hide Parse, Tagged;
    OneByte(1, [0, 1, 2]);
    OneByte(2, []);
    OneByte(3, []);
    ParseStep([]);
    TaggedNone(7);
    TaggedFirst(7, [1], [[2]]);
    TaggedFirst(7, [2], []);
    TaggedFirst(7, [3], []);
    assert [[1]] + [[2]] == [[1], [2]] && [[2]] + [] == [[2]] && [[3]] + [] == [[3]];
    assert [0, 1, 1] + [0, 1, 2] == [0, 1, 1, 0, 1, 2] && [0, 1, 2] + [] == [0, 1, 2] && [0, 1, 3] + [] == [0, 1, 3];
  }

  lemma OneByte(x: Byte, rest: seq<Byte>)
    ensures Parse([0, 1, x] + rest) == Parsed([[x]] + Parse(rest).packets, Parse(rest).rest)
  {
    PackedHead([x], rest);
    assert Pack([x]).value == [0, 1, x];
  }

  lemma ProducedThree()
    ensures Produced([Arrive(7, [0, 1, 1, 0, 1, 2]), Arrive(7, [0, 1, 3])]) == [Packet(7, [1]), Packet(7, [2]), Packet(7, [3])]
  {
    hide Parse, Tagged, Produced;
    var a, b := Arrive(7, [0, 1, 1, 0, 1, 2]), Arrive(7, [0, 1, 3]);
    TwoThenOne();
    NothingYet();
    ProducedMore([], a);
    ProducedMore([a], b);
    assert [] + [a] == [a] && [a] + [b] == [a, b];
    assert Front([a]) == [] && Last([a]) == a;
    assert [] + a.chunk == a.chunk && [] + b.chunk == b.chunk;
  }
}
