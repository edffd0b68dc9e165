/**
  The write side of a TCP socket in socket_server.c: a direct write when nothing is queued, and two
  lists of buffers, high and low priority, that are written out when the socket is writable.

  The kernel is a list of results that its write calls give; when the list ends, it would block.
 */
module SocketSend {
  import opened Common

  datatype Priority = High | Low

  datatype Message = Message(priority: Priority, bytes: seq<Byte>)

  /** write_buffer: `ptr` bytes of the message are written already. */
  datatype Buffer = Buffer(msg: Message, ptr: nat)

  /** What a call of write gives: a byte count (cut to what was asked for), or an errno. */
  datatype WriteResult = Wrote(n: nat) | Interrupted | WouldBlock | Broken

  datatype Status = Running | Closed

  datatype SocketType = Invalid | Listen | Connecting | Connected | HalfClose | PAccept

  // ----- bytes and messages -----

  function Rest(b: Buffer): seq<Byte>
    requires b.ptr <= |b.msg.bytes|
  {
    b.msg.bytes[b.ptr..]
  }

  predicate BufferOk(b: Buffer) {
    b.ptr <= |b.msg.bytes|
  }

  predicate BuffersOk(bs: seq<Buffer>) {
    forall k :: 0 <= k < |bs| ==> BufferOk(bs[k])
  }

  /** The bytes still to be written, in order. */
  function RestAll(bs: seq<Buffer>): seq<Byte>
    requires BuffersOk(bs)
  {
    if bs == [] then [] else Rest(bs[0]) + RestAll(bs[1..])
  }

  function Messages(bs: seq<Buffer>): seq<Message> {
    if bs == [] then [] else [bs[0].msg] + Messages(bs[1..])
  }

  function Flat(ms: seq<Message>): seq<Byte> {
    if ms == [] then [] else ms[0].bytes + Flat(ms[1..])
  }

  function OfPriority(ms: seq<Message>, p: Priority): seq<Message> {
    if ms == [] then []
    else if ms[0].priority == p then [ms[0]] + OfPriority(ms[1..], p) else OfPriority(ms[1..], p)
  }

  /** Only the first buffer may be written in part. */
  predicate OnlyHeadPartial(bs: seq<Buffer>) {
    BuffersOk(bs) && forall k :: 1 <= k < |bs| ==> bs[k].ptr == 0
  }

  predicate Untouched(bs: seq<Buffer>) {
    forall k :: 0 <= k < |bs| ==> bs[k].ptr == 0
  }

  /** The part of the first message that is written. */
  function Partial(bs: seq<Buffer>): seq<Byte>
    requires BuffersOk(bs)
  {
    if bs == [] then [] else bs[0].msg.bytes[..bs[0].ptr]
  }

  lemma {:induction false} RestConcat(a: seq<Buffer>, b: seq<Buffer>)
    requires BuffersOk(a) && BuffersOk(b)
    ensures BuffersOk(a + b) && RestAll(a + b) == RestAll(a) + RestAll(b)
  {
    if a == [] {
      assert a + b == b;
    } else {
      RestConcat(a[1..], b);
      assert (a + b)[1..] == a[1..] + b;
    }
  }

  lemma {:induction false} MessagesConcat(a: seq<Buffer>, b: seq<Buffer>)
    ensures Messages(a + b) == Messages(a) + Messages(b)
  {
    if a == [] {
      assert a + b == b;
    } else {
      MessagesConcat(a[1..], b);
      assert (a + b)[1..] == a[1..] + b;
    }
  }

  lemma {:induction false} FlatSnoc(ms: seq<Message>, m: Message)
    ensures Flat(ms + [m]) == Flat(ms) + m.bytes
  {
    if ms == [] {
      assert ms + [m] == [m];
      assert Flat([m][1..]) == [];
    } else {
      FlatSnoc(ms[1..], m);
      assert (ms + [m])[1..] == ms[1..] + [m];
    }
  }

  lemma {:induction false} PriorityConcat(a: seq<Message>, b: seq<Message>, p: Priority)
    ensures OfPriority(a + b, p) == OfPriority(a, p) + OfPriority(b, p)
  {
    if a == [] {
      assert a + b == b;
    } else {
      PriorityConcat(a[1..], b, p);
      assert (a + b)[1..] == a[1..] + b;
    }
  }

  predicate AllLow(bs: seq<Buffer>) {
    forall k :: 0 <= k < |bs| ==> bs[k].msg.priority == Low
  }

  lemma {:induction false} LowHasNoHigh(bs: seq<Buffer>)
    requires AllLow(bs)
    ensures OfPriority(Messages(bs), High) == []
  {
    if bs != [] {
      LowHasNoHigh(bs[1..]);
    }
  }

  // ----- the order of messages -----

  /** Messages of each priority are in the order in which they were accepted. */
  predicate InOrder(accepted: seq<Message>, done: seq<Message>, waiting: seq<Message>) {
    && OfPriority(accepted, High) == OfPriority(done + waiting, High)
    && OfPriority(accepted, Low) == OfPriority(done + waiting, Low)
  }

  /** A new message behind the high list keeps both orders: in the low list there are only low ones. */
  lemma AppendHighKeepsOrder(accepted: seq<Message>, done: seq<Message>, high: seq<Buffer>, low: seq<Buffer>, b: Buffer)
    requires InOrder(accepted, done, Messages(high + low)) && AllLow(low)
    requires b.msg.priority == High || low == []
    ensures InOrder(accepted + [b.msg], done, Messages(high + [b] + low))
  {
    hide OfPriority, Messages;
    OneMessage(b);
    MessagesConcat(high, low);
    MessagesConcat(high, [b]);
    MessagesConcat(high + [b], low);
    LowHasNoHigh(low);
    assert done + (Messages(high) + Messages(low)) == done + Messages(high) + Messages(low);
    assert done + (Messages(high) + [b.msg] + Messages(low)) == done + Messages(high) + [b.msg] + Messages(low);
    AppendOrder(accepted, done + Messages(high), Messages(low), b.msg, High);
    AppendOrder(accepted, done + Messages(high), Messages(low), b.msg, Low);
    if low == [] {
      NoMessages();
    }
  }

  lemma OneMessage(b: Buffer)
    ensures Messages([b]) == [b.msg]
  {
    assert Messages([b][1..]) == [];
  }

  lemma NoMessages()
    ensures Messages([]) == [] && OfPriority([], High) == [] && OfPriority([], Low) == []
  {
  }

  lemma AppendOrder(accepted: seq<Message>, a: seq<Message>, c: seq<Message>, m: Message, p: Priority)
    requires OfPriority(accepted, p) == OfPriority(a + c, p)
    ensures m.priority != p || OfPriority(c, p) == [] ==> OfPriority(accepted + [m], p) == OfPriority(a + [m] + c, p)
  {
    PriorityConcat(accepted, [m], p);
    PriorityConcat(a, c, p);
    PriorityConcat(a + [m], c, p);
    PriorityConcat(a, [m], p);
    assert OfPriority([m], p) == if m.priority == p then [m] else [] by {
      assert OfPriority([m][1..], p) == [];
    }
  }

  lemma AppendLowKeepsOrder(accepted: seq<Message>, done: seq<Message>, high: seq<Buffer>, low: seq<Buffer>, b: Buffer)
    requires InOrder(accepted, done, Messages(high + low))
    ensures InOrder(accepted + [b.msg], done, Messages(high + (low + [b])))
  {
    hide OfPriority, Messages;
    OneMessage(b);
    MessagesConcat(high + low, [b]);
    assert high + (low + [b]) == high + low + [b];
    NoMessages();
    assert done + Messages(high + low) + [] == done + Messages(high + low);
    AppendOrder(accepted, done + Messages(high + low), [], b.msg, High);
    AppendOrder(accepted, done + Messages(high + low), [], b.msg, Low);
    assert done + (Messages(high + low) + [b.msg]) == done + Messages(high + low) + [b.msg] + [];
  }

  /** A new buffer, not begun, behind the high list or behind the low list. */
  lemma QueueGrows(high: seq<Buffer>, low: seq<Buffer>, b: Buffer)
    requires OnlyHeadPartial(high + low) && BuffersOk(high) && BuffersOk(low) && Untouched(low) && b.ptr == 0
    ensures BuffersOk(high + [b]) && BuffersOk(low + [b])
    ensures OnlyHeadPartial(high + [b] + low) && Partial(high + [b] + low) == Partial(high + low)
    ensures OnlyHeadPartial(high + (low + [b])) && Partial(high + (low + [b])) == Partial(high + low)
  {
    var q := high + [b] + low;
    forall k | 0 <= k < |q| ensures BufferOk(q[k]) && (k >= 1 ==> q[k].ptr == 0) {
      if k < |high| {
        assert q[k] == (high + low)[k];
      } else if k > |high| {
        assert q[k] == low[k - |high| - 1];
      }
    }
    var r := high + (low + [b]);
    forall k | 0 <= k < |r| ensures BufferOk(r[k]) && (k >= 1 ==> r[k].ptr == 0) {
      if k < |high + low| {
        assert r[k] == (high + low)[k];
      }
    }
    if high != [] {
      assert q[0] == high[0] && (high + low)[0] == high[0] && r[0] == high[0];
    } else if low != [] {
      assert (high + low)[0] == low[0] && r[0] == low[0];
    }
  }

  /** The bytes to be written after a buffer is added. */
  lemma RestGrows(high: seq<Buffer>, low: seq<Buffer>, b: Buffer)
    requires BuffersOk(high) && BuffersOk(low) && b.ptr == 0
    ensures BuffersOk(high + [b] + low) && BuffersOk(high + (low + [b])) && BuffersOk(high + low)
    ensures BuffersOk(high + [b]) && BuffersOk(low + [b])
    ensures RestAll(high + low) == RestAll(high) + RestAll(low)
    ensures RestAll(high + [b] + low) == RestAll(high) + b.msg.bytes + RestAll(low)
    ensures RestAll(high + (low + [b])) == RestAll(high + low) + b.msg.bytes
    ensures RestAll(high + [b]) == RestAll(high) + b.msg.bytes
    ensures RestAll(low + [b]) == RestAll(low) + b.msg.bytes
  {
    hide RestAll;
    RestOne(b);
    RestConcat(high, low);
    RestConcat(high, [b]);
    RestConcat(low, [b]);
    RestConcat(high + [b], low);
    RestConcat(high + low, [b]);
    assert high + (low + [b]) == high + low + [b];
  }

  // ----- writing the first buffer -----

  /** The last bytes of the first buffer are written: its message is done. */
  lemma WholeWritten(wire: seq<Byte>, accepted: seq<Message>, done: seq<Message>, q: seq<Buffer>)
    requires q != [] && OnlyHeadPartial(q) && wire == Flat(done) + Partial(q) && InOrder(accepted, done, Messages(q))
    ensures OnlyHeadPartial(q[1..])
    ensures wire + Rest(q[0]) == Flat(done + [q[0].msg]) + Partial(q[1..])
    ensures InOrder(accepted, done + [q[0].msg], Messages(q[1..]))
    ensures RestAll(q) == Rest(q[0]) + RestAll(q[1..])
  {
    hide OfPriority;
    var m := q[0].msg;
    FlatSnoc(done, m);
    assert m.bytes == m.bytes[..q[0].ptr] + Rest(q[0]);
    assert Flat(done) + m.bytes[..q[0].ptr] + Rest(q[0]) == Flat(done) + m.bytes;
    assert Partial(q[1..]) == [];
    assert done + ([m] + Messages(q[1..])) == done + [m] + Messages(q[1..]);
  }

  /** Some bytes of the first buffer are written. */
  lemma PartWritten(wire: seq<Byte>, accepted: seq<Message>, done: seq<Message>, q: seq<Buffer>, sz: nat)
    requires q != [] && OnlyHeadPartial(q) && wire == Flat(done) + Partial(q) && InOrder(accepted, done, Messages(q))
    requires sz <= |Rest(q[0])|
    ensures var q' := q[0 := q[0].(ptr := q[0].ptr + sz)];
            && OnlyHeadPartial(q')
            && wire + Rest(q[0])[..sz] == Flat(done) + Partial(q')
            && InOrder(accepted, done, Messages(q'))
            && RestAll(q) == Rest(q[0])[..sz] + RestAll(q')
  {
    hide OfPriority;
    var b := q[0].msg.bytes;
    var q' := q[0 := q[0].(ptr := q[0].ptr + sz)];
    assert q'[1..] == q[1..];
    assert b[..q[0].ptr + sz] == b[..q[0].ptr] + Rest(q[0])[..sz];
    assert Flat(done) + (b[..q[0].ptr] + Rest(q[0])[..sz]) == Flat(done) + b[..q[0].ptr] + Rest(q[0])[..sz];
    assert Rest(q[0]) == Rest(q[0])[..sz] + Rest(q'[0]);
    assert Rest(q[0])[..sz] + (Rest(q'[0]) + RestAll(q[1..])) == Rest(q[0]) + RestAll(q[1..]);
  }

  // ----- what each operation does, as a function -----

  /** The fields of a socket. */
  datatype View = View(
    kind: SocketType,
    high: seq<Buffer>,
    low: seq<Buffer>,
    wbSize: int,
    watching: bool,
    wire: seq<Byte>,
    lost: seq<Buffer>  // what was queued when the socket was closed
  )

  function Opened(kind: SocketType): View {
    View(kind, [], [], 0, kind.Connecting?, [], [])
  }

  function ClosedOf(v: View): View {
    if v.kind.Invalid? then v else v.(kind := Invalid, high := [], low := [], lost := v.high + v.low)
  }

  function ListOf(v: View, p: Priority): seq<Buffer> {
    if p == High then v.high else v.low
  }

  function WithList(v: View, p: Priority, list: seq<Buffer>): View {
    if p == High then v.(high := list) else v.(low := list)
  }

  /** The first buffer is written whole, or `n` bytes of it. */
  function HeadWritten(v: View, p: Priority, n: nat): View
    requires ListOf(v, p) != [] && BufferOk(ListOf(v, p)[0])
  {
    var list := ListOf(v, p);
    var b := list[0];
    var rest := b.msg.bytes[b.ptr..];
    if n >= |rest| then WithList(v, p, list[1..]).(wbSize := v.wbSize - |rest|, wire := v.wire + rest)
    else WithList(v, p, list[0 := b.(ptr := b.ptr + n)]).(wbSize := v.wbSize - n, wire := v.wire + b.msg.bytes[b.ptr..b.ptr + n])
  }

  /** What is left of a list and of the results of the kernel, and whether the socket broke. */
  datatype Written = Written(view: View, left: seq<WriteResult>, broken: bool)

  /** send_list_tcp */
  function WriteOut(v: View, p: Priority, results: seq<WriteResult>): Written
    requires BuffersOk(ListOf(v, p))
    decreases |results|
  {
    if ListOf(v, p) == [] || results == [] then Written(v, results, false)
    else
      match results[0]
      case Interrupted => WriteOut(v, p, results[1..])
      case WouldBlock => Written(v, results[1..], false)
      case Broken => Written(v, results[1..], true)
      case Wrote(n) =>
        var whole := n >= |Rest(ListOf(v, p)[0])|;
        if whole then WriteOut(HeadWritten(v, p, n), p, results[1..])
        else Written(HeadWritten(v, p, n), results[1..], false)
  }

  /** send_buffer */
  function FlushOf(v: View, results: seq<WriteResult>): View
    requires BuffersOk(v.high) && BuffersOk(v.low)
  {
    var h := WriteOut(v, High, results);
    OtherListStays(v, High, results);
    if h.broken then ClosedOf(h.view)
    else if h.view.high != [] then h.view
    else if v.low != [] then
      var l := WriteOut(h.view, Low, h.left);
      if l.broken then ClosedOf(l.view)
      else if l.view.low != [] && l.view.low[0].ptr != 0 then l.view.(high := [l.view.low[0]], low := l.view.low[1..])
      else l.view
    else if v.kind == HalfClose then ClosedOf(h.view.(watching := false))
    else h.view.(watching := false)
  }

  lemma HeadStays(v: View, p: Priority, n: nat)
    requires ListOf(v, p) != [] && BufferOk(ListOf(v, p)[0])
    ensures var w := HeadWritten(v, p, n);
            && w.kind == v.kind && w.watching == v.watching
            && (p == High ==> w.low == v.low) && (p == Low ==> w.high == v.high)
  {
  }

  lemma {:induction false} OtherListStays(v: View, p: Priority, results: seq<WriteResult>)
    requires BuffersOk(ListOf(v, p))
    ensures var w := WriteOut(v, p, results).view;
            && w.kind == v.kind && w.watching == v.watching
            && (p == High ==> w.low == v.low) && (p == Low ==> w.high == v.high)
    decreases |results|
  {
    if ListOf(v, p) != [] && results != [] {
      match results[0] {
        case Interrupted => OtherListStays(v, p, results[1..]);
        case Wrote(n) =>
          if n >= |Rest(ListOf(v, p)[0])| {
            OtherListStays(HeadWritten(v, p, n), p, results[1..]);
          }
        case _ =>
      }
    }
  }

  /** How many bytes a direct write takes. */
  function Direct(msg: Message, results: seq<WriteResult>): nat {
    if results != [] && results[0].Wrote? then (if results[0].n < |msg.bytes| then results[0].n else |msg.bytes|) else 0
  }

  /** The direct write breaks the socket. */
  predicate Breaks(v: View, results: seq<WriteResult>) {
    v.kind == Connected && v.high == [] && v.low == [] && results != [] && results[0].Broken?
  }

  /** send_socket */
  function SendOf(v: View, msg: Message, results: seq<WriteResult>): View {
    if v.kind != Connected && v.kind != Connecting then v
    else if v.high == [] && v.low == [] && v.kind == Connected then
      if Breaks(v, results) then ClosedOf(v)
      else
        var n := Direct(msg, results);
        if n == |msg.bytes| then v.(wire := v.wire + msg.bytes)
        else v.(high := [Buffer(msg, n)], wbSize := v.wbSize + |msg.bytes| - n, watching := true, wire := v.wire + msg.bytes[..n])
    else if msg.priority == Low then v.(low := v.low + [Buffer(msg, 0)], wbSize := v.wbSize + |msg.bytes|)
    else v.(high := v.high + [Buffer(msg, 0)], wbSize := v.wbSize + |msg.bytes|)
  }

  /** close_socket */
  function CloseOf(v: View, shutdown: bool, results: seq<WriteResult>): View
    requires BuffersOk(v.high) && BuffersOk(v.low)
  {
    if v.kind == Invalid then v
    else
      var u := if v.high + v.low != [] then FlushOf(v, results) else v;
      if u.kind == Invalid then u
      else if shutdown || u.high + u.low == [] then ClosedOf(u)
      else u.(kind := HalfClose)
  }

  /** report_connect */
  function ConnectOf(v: View, ok: bool): View {
    if !ok then ClosedOf(v)
    else v.(kind := Connected, watching := v.watching && !(v.high == [] && v.low == []))
  }

  // ----- the socket -----

  class Socket {
    var kind: SocketType
    var high: seq<Buffer>
    var low: seq<Buffer>
    var wbSize: int
    var watching: bool         // sp_write: the poll reports when the socket is writable
    var wire: seq<Byte>        // what the kernel has taken
    ghost var accepted: seq<Message>  // messages taken for sending, in order
    ghost var done: seq<Message>      // messages written whole, in the order of writing
    ghost var lost: seq<Buffer>       // what was queued when the socket was closed

    /** What is queued, first to be written first. */
    ghost function Queue(): seq<Buffer>
      reads this
    {
      if kind.Invalid? then lost else high + low
    }

    ghost function Now(): View
      reads this
    {
      View(kind, high, low, wbSize, watching, wire, lost)
    }

    /** What holds also in the middle of sending. */
    ghost predicate Core()
      reads this
    {
      && (kind.Invalid? ==> high == [] && low == [])
      && AllLow(low)
      && BuffersOk(high) && BuffersOk(low) && OnlyHeadPartial(Queue())
      // whole messages back to back, and a part of the first one that waits
      && wire == Flat(done) + Partial(Queue())
      && InOrder(accepted, done, Messages(Queue()))
      && (!kind.Invalid? ==> wbSize == |RestAll(high)| + |RestAll(low)|)
      // what waits will be written
      && (!kind.Invalid? && high + low != [] ==> watching)
    }

    /** Between calls the low list has no message that is written in part. */
    ghost predicate Valid()
      reads this
    {
      Core() && Untouched(low) && (kind.Connecting? ==> watching)
    }

    /** Everything the socket has written or is still to write, as it stands. */
    ghost function Stream(): seq<Byte>
      requires Core()
      reads this
    {
      wire + RestAll(Queue())
    }

    constructor (kind: SocketType)
      requires kind.Connecting? || kind.Connected?
      ensures Valid() && accepted == [] && Now() == Opened(kind)
    {
      this.kind := kind;
      high, low, wbSize := [], [], 0;
      watching := kind.Connecting?;
      wire := [];
      accepted, done, lost := [], [], [];
    }

    /** force_close. */
    method ForceClose()
      requires Core()
      modifies this
      ensures Valid() && kind == Invalid
      ensures Now() == ClosedOf(old(Now())) && accepted == old(accepted) && done == old(done) && lost == old(Queue())
    {
      if kind == Invalid {
        return;
      }
      lost := high + low;
      high, low := [], [];
      kind := Invalid;
    }

    /**
      One write of the first buffer of a list. The list is `high`, or `low` with `high` empty, so
      that its first buffer is the first of the queue.
     */
    method WriteHead(p: Priority, n: nat) returns (whole: bool)
      requires Core() && !kind.Invalid? && (p == High ==> high != []) && (p == Low ==> high == [] && low != [])
      modifies this`high, this`low, this`wbSize, this`wire, this`done
      ensures Core() && Stream() == old(Stream())
      ensures Now() == HeadWritten(old(Now()), p, n)
      ensures whole == (n >= |Rest(old(ListOf(Now(), p)[0]))|)
    {
      var tmp := if p == High then high[0] else low[0];
      var size := |tmp.msg.bytes| - tmp.ptr;
      var sz := if n < size then n else size;
      whole := sz == size;
      if whole {
        FinishHead(p, tmp);
      } else {
        AdvanceHead(p, tmp, sz);
      }
    }

    /** The rest of the first buffer is written and the buffer is freed. */
    method FinishHead(p: Priority, tmp: Buffer)
      requires Core() && !kind.Invalid?
      requires if p == High then high != [] && tmp == high[0] else high == [] && low != [] && tmp == low[0]
      modifies this`high, this`low, this`wbSize, this`wire, this`done
      ensures Core() && Stream() == old(Stream())
      ensures Now() == HeadWritten(old(Now()), p, |tmp.msg.bytes| - tmp.ptr)
    {
      hide Flat, Messages, RestAll, InOrder, Rest, OfPriority, Partial;
      ghost var q := Queue();
      assert q[0] == tmp;
      var sz := |tmp.msg.bytes| - tmp.ptr;
      RestSlice(tmp, sz);
      QueueParts(high, low);
      WholeWritten(wire, accepted, done, q);
      assert q[1..] == if p == High then high[1..] + low else [] + low[1..];
      wire := wire + tmp.msg.bytes[tmp.ptr..];
      if p == High { high := high[1..]; } else { low := low[1..]; }
      done := done + [tmp.msg];
      wbSize := wbSize - sz;
      assert Queue() == q[1..];
      QueueParts(high, low);
      Regroup(old(wire), Rest(tmp), RestAll(Queue()), []);
    }

    /** Some bytes of the first buffer are written. */
    method AdvanceHead(p: Priority, tmp: Buffer, sz: nat)
      requires Core() && !kind.Invalid?
      requires if p == High then high != [] && tmp == high[0] else high == [] && low != [] && tmp == low[0]
      requires sz < |tmp.msg.bytes| - tmp.ptr
      modifies this`high, this`low, this`wbSize, this`wire
      ensures Core() && Stream() == old(Stream())
      ensures Now() == HeadWritten(old(Now()), p, sz)
    {
      hide Flat, Messages, RestAll, InOrder, Rest, OfPriority, Partial;
      ghost var q := Queue();
      assert q[0] == tmp;
      RestSlice(tmp, sz);
      QueueParts(high, low);
      PartWritten(wire, accepted, done, q, sz);
      wire := wire + tmp.msg.bytes[tmp.ptr..tmp.ptr + sz];
      var moved := tmp.(ptr := tmp.ptr + sz);
      if p == High { high := high[0 := moved]; } else { low := low[0 := moved]; }
      wbSize := wbSize - sz;
      assert Queue() == q[0 := moved];
      QueueParts(high, low);
      Regroup(old(wire), Rest(tmp)[..sz], RestAll(Queue()), []);
    }

    /** send_list_tcp: write a list out as far as the kernel takes it. */
    method SendList(p: Priority, results: seq<WriteResult>) returns (status: Status, left: seq<WriteResult>)
      requires Core() && !kind.Invalid? && (p == Low ==> high == [])
      modifies this
      ensures Core() && Stream() == old(Stream()) && accepted == old(accepted)
      ensures var w := WriteOut(old(Now()), p, results);
              && status == (if w.broken then Closed else Running) && left == w.left
              && Now() == (if w.broken then ClosedOf(w.view) else w.view)
      ensures status == Closed ==> Valid() && kind == Invalid
    {
      hide Core, Stream, HeadWritten;
      left := results;
      CoreLists();
      OtherListStays(Now(), p, results);
      while (if p == High then high else low) != []
        invariant Core() && Stream() == old(Stream()) && accepted == old(accepted)
        invariant kind == old(kind) && (p == Low ==> high == [])
        invariant BuffersOk(ListOf(Now(), p)) && WriteOut(Now(), p, left) == WriteOut(old(Now()), p, results)
        decreases |left|
      {
        if left == [] {
          return Running, left;
        }
        var r := left[0];
        left := left[1..];
        match r {
          case Interrupted => continue;
          case WouldBlock => return Running, left;
          case Broken =>
            CloseKeepsStream();
            return Closed, left;
          case Wrote(n) =>
            HeadStays(Now(), p, n);
            var whole := WriteHead(p, n);
            if !whole {
              return Running, left;
            }
            CoreLists();
        }
      }
      status := Running;
    }

    lemma CoreLists()
      requires Core()
      ensures BuffersOk(high) && BuffersOk(low)
    {
    }

    method CloseKeepsStream()
      requires Core()
      modifies this
      ensures Valid() && kind == Invalid && Stream() == old(Stream()) && accepted == old(accepted)
      ensures Now() == ClosedOf(old(Now()))
    {
      ForceClose();
    }

    /** send_buffer: high first; low only when high is through; a low message begun goes to high. */
    method SendBuffer(results: seq<WriteResult>) returns (status: Status)
      requires Core() && Untouched(low) && !kind.Invalid?
      modifies this
      ensures Core() && Untouched(low) && Stream() == old(Stream()) && accepted == old(accepted)
      ensures Now() == FlushOf(old(Now()), results) && status == if kind == Invalid then Closed else Running
      ensures status == Running ==> kind == old(kind) && (high + low != [] ==> watching)
      ensures status == Closed ==> Valid()
    {
      hide RestAll, Messages, Flat, InOrder, Partial, WriteOut;
      OtherListStays(Now(), High, results);
      // step 1
      var left;
      status, left := SendList(High, results);
      if status == Closed || high != [] {
        return;
      }
      if low != [] {
        // step 2
        OtherListStays(Now(), Low, left);
        status, left := SendList(Low, left);
        if status == Closed {
          return;
        }
        // step 3: raise_uncomplete
        assert Queue() == low;
        if low != [] && low[0].ptr != 0 {
          RaiseUncomplete();
        }
      } else {
        // step 4
        watching := false;
        assert Queue() == [];
        if kind == HalfClose {
          CloseKeepsStream();
          status := Closed;
        }
      }
    }

    /** raise_uncomplete: the low message begun becomes the high list. */
    method RaiseUncomplete()
      requires Core() && !kind.Invalid? && high == [] && low != []
      modifies this`high, this`low
      ensures Core() && Untouched(low) && high + low == old(low) && Stream() == old(Stream())
      ensures high == [old(low)[0]] && low == old(low)[1..]
    {
      hide RestAll, Messages, Flat, InOrder, Partial;
      ghost var q := Queue();
      assert q == low == [low[0]] + low[1..];
      high, low := [low[0]], low[1..];
      assert Queue() == q;
      QueueParts(high, low);
      QueueParts([], q);
      assert [] + q == q;
    }

    /** A poll event says that the socket is writable. */
    method Writable(results: seq<WriteResult>) returns (status: Status)
      requires Valid() && (kind.Connected? || kind.HalfClose?)
      modifies this
      ensures Valid() && Stream() == old(Stream()) && accepted == old(accepted)
      ensures Now() == FlushOf(old(Now()), results)
      ensures status == Running ==> kind == old(kind)
      ensures status == Closed ==> kind == Invalid
    {
      status := SendBuffer(results);
    }

    /** report_connect: the connection is made, or it failed. */
    method ReportConnect(ok: bool)
      requires Valid() && kind.Connecting?
      modifies this
      ensures Valid() && Stream() == old(Stream()) && accepted == old(accepted)
      ensures Now() == ConnectOf(old(Now()), ok)
    {
      if ok {
        kind := Connected;
        if high == [] && low == [] {
          watching := false;
        }
      } else {
        CloseKeepsStream();
      }
    }

    /** close_socket. */
    method Close(shutdown: bool, results: seq<WriteResult>) returns (status: Status)
      requires Valid()
      modifies this
      ensures Valid() && Stream() == old(Stream()) && accepted == old(accepted)
      ensures Now() == CloseOf(old(Now()), shutdown, results)
      ensures status == if kind == Invalid then Closed else Running
      ensures kind == Invalid || (kind == HalfClose && high + low != [] && !shutdown)
    {
      hide FlushOf;
      if kind == Invalid {
        return Closed;
      }
      if high + low != [] {
        status := SendBuffer(results);
        if status == Closed {
          return;
        }
      }
      if shutdown || high + low == [] {
        CloseKeepsStream();
        return Closed;
      }
      kind := HalfClose;
      return Running;
    }

    /** send_socket. */
    method Send(msg: Message, results: seq<WriteResult>) returns (status: Status)
      requires Valid()
      modifies this
      ensures Valid()
      ensures Now() == SendOf(old(Now()), msg, results)
      ensures status == if Breaks(old(Now()), results) then Closed else Running
      ensures status == Closed ==> kind == Invalid && accepted == old(accepted) && Stream() == old(Stream())
      ensures status == Running ==> kind == old(kind)
      // a message is taken unless the socket cannot send, or the direct write broke it
      ensures status == Running ==>
                accepted == if old(kind).Connected? || old(kind).Connecting? then old(accepted) + [msg] else old(accepted)
      // it comes behind everything, or, with high priority, before the low list
      ensures accepted != old(accepted) ==>
                Stream() == if msg.priority == Low then old(Stream()) + msg.bytes
                            else old(wire) + old(RestAll(high)) + msg.bytes + old(RestAll(low))
    {
      hide RestAll, Messages, Flat, InOrder, Partial, OnlyHeadPartial, Untouched, BuffersOk, OfPriority;
      if kind != Connected && kind != Connecting {
        return Running;
      }
      if high == [] && low == [] && kind == Connected {
        RestNone();
        assert high + low == [];
        status := SendDirect(msg, results);
      } else if msg.priority == Low {
        AppendLow(msg);
        status := Running;
      } else {
        AppendHigh(msg);
        status := Running;
      }
    }

    /** append_sendbuffer_low. */
    method AppendLow(msg: Message)
      requires Valid() && !kind.Invalid? && watching && msg.priority == Low
      modifies this`low, this`wbSize, this`accepted
      ensures Valid() && accepted == old(accepted) + [msg]
      ensures Stream() == old(Stream()) + msg.bytes
      ensures low == old(low) + [Buffer(msg, 0)] && wbSize == old(wbSize) + |msg.bytes|
    {
      hide RestAll, Messages, Flat, InOrder, OnlyHeadPartial, Partial;
      var b := Buffer(msg, 0);
      AppendLowKeepsOrder(accepted, done, high, low, b);
      QueueGrows(high, low, b);
      RestGrows(high, low, b);
      low := low + [b];
      wbSize := wbSize + |msg.bytes|;
      accepted := accepted + [msg];
      Regroup(wire, old(RestAll(high + low)), msg.bytes, []);
    }

    /** append_sendbuffer. */
    method AppendHigh(msg: Message)
      requires Valid() && !kind.Invalid? && watching && msg.priority == High
      modifies this`high, this`wbSize, this`accepted
      ensures Valid() && accepted == old(accepted) + [msg]
      ensures Stream() == old(wire) + old(RestAll(high)) + msg.bytes + old(RestAll(low))
      ensures high == old(high) + [Buffer(msg, 0)] && wbSize == old(wbSize) + |msg.bytes|
    {
      hide RestAll, Messages, Flat, InOrder, OnlyHeadPartial, Partial;
      var b := Buffer(msg, 0);
      AppendHighKeepsOrder(accepted, done, high, low, b);
      QueueGrows(high, low, b);
      RestGrows(high, low, b);
      high := high + [b];
      wbSize := wbSize + |msg.bytes|;
      accepted := accepted + [msg];
      Regroup(wire, old(RestAll(high)), msg.bytes, RestAll(low));
    }

    /** The write that send_socket tries when nothing is queued; what it leaves goes to the high list. */
    method SendDirect(msg: Message, results: seq<WriteResult>) returns (status: Status)
      requires Valid() && kind.Connected? && high == [] && low == []
      modifies this
      ensures Valid()
      ensures Now() == SendOf(old(Now()), msg, results)
      ensures status == if Breaks(old(Now()), results) then Closed else Running
      ensures status == Closed ==> kind == Invalid && accepted == old(accepted) && Stream() == old(Stream())
      ensures status == Running ==> kind == old(kind) && accepted == old(accepted) + [msg] && Stream() == old(Stream()) + msg.bytes
    {
      hide RestAll, Messages, Flat, InOrder, Partial, OnlyHeadPartial, Untouched, BuffersOk, OfPriority;
      var n := 0;
      if results != [] {
        match results[0] {
          case Wrote(k) => n := if k < |msg.bytes| then k else |msg.bytes|;
          case Interrupted =>
          case WouldBlock =>
          case Broken =>
            CloseKeepsStream();
            return Closed;
        }
      }
      TakeDirect(msg, n);
      status := Running;
    }

    /** The direct write took `n` bytes of the message. */
    method TakeDirect(msg: Message, n: nat)
      requires Valid() && kind.Connected? && high == [] && low == [] && n <= |msg.bytes|
      modifies this
      ensures Valid() && kind == old(kind)
      ensures Now() == if n == |msg.bytes| then old(Now()).(wire := old(wire) + msg.bytes) else
                         old(Now()).(high := [Buffer(msg, n)], wbSize := old(wbSize) + |msg.bytes| - n, watching := true,
                                     wire := old(wire) + msg.bytes[..n])
      ensures accepted == old(accepted) + [msg] && Stream() == old(Stream()) + msg.bytes
    {
      if n == |msg.bytes| {
        TakeWhole(msg);
      } else {
        TakePart(msg, n);
      }
    }

    /** The direct write took the message whole: nothing is queued. */
    method TakeWhole(msg: Message)
      requires Valid() && kind.Connected? && high == [] && low == []
      modifies this
      ensures Valid() && Now() == old(Now()).(wire := old(wire) + msg.bytes)
      ensures accepted == old(accepted) + [msg] && Stream() == old(Stream()) + msg.bytes
    {
      hide RestAll, Messages, Flat, InOrder, Rest, OfPriority;
      ghost var b := Buffer(msg, 0);
      assert Queue() == [] && [b][1..] == [];
      AppendHighKeepsOrder(accepted, done, [], [], b);
      assert [] + [b] + [] == [b];
      RestOne(b);
      RestNone();
      accepted := accepted + [msg];
      WholeWritten(wire, accepted, done, [b]);
      wire := wire + msg.bytes;
      done := done + [msg];
      assert Queue() == [];
    }

    /** The direct write took a part of the message: the rest heads the high list. */
    method TakePart(msg: Message, n: nat)
      requires Valid() && kind.Connected? && high == [] && low == [] && n < |msg.bytes|
      modifies this
      ensures Valid()
      ensures Now() == old(Now()).(high := [Buffer(msg, n)], wbSize := old(wbSize) + |msg.bytes| - n, watching := true,
                                   wire := old(wire) + msg.bytes[..n])
      ensures accepted == old(accepted) + [msg] && Stream() == old(Stream()) + msg.bytes
    {
      hide RestAll, Messages, Flat, InOrder, Rest, OfPriority;
      ghost var b := Buffer(msg, 0);
      assert Queue() == [] && [b][1..] == [];
      AppendHighKeepsOrder(accepted, done, [], [], b);
      assert [] + [b] + [] == [b];
      RestOne(b);
      RestNone();
      accepted := accepted + [msg];
      high := [Buffer(msg, n)];
      wbSize := wbSize + |msg.bytes| - n;
      watching := true;
      assert [b][0 := Buffer(msg, n)] == high == Queue();
      PartWritten(wire, accepted, done, [b], n);
      wire := wire + msg.bytes[..n];
      Regroup(old(wire), msg.bytes[..n], RestAll(high), []);
      RestSlice(b, n);
      QueueParts(high, low);
    }
  }

  lemma RestNone()
    ensures RestAll([]) == []
  {
  }

  lemma Regroup(a: seq<Byte>, b: seq<Byte>, c: seq<Byte>, d: seq<Byte>)
    ensures a + (b + c + d) == a + b + c + d
    ensures a + (b + c) == a + b + c
  {
  }

  lemma RestOne(b: Buffer)
    requires BufferOk(b)
    ensures RestAll([b]) == Rest(b) && (b.ptr == 0 ==> Rest(b) == b.msg.bytes)
  {
    assert [b][1..] == [];
  }

  lemma RestSlice(b: Buffer, sz: nat)
    requires BufferOk(b) && sz <= |b.msg.bytes| - b.ptr
    ensures |Rest(b)| == |b.msg.bytes| - b.ptr
    ensures b.msg.bytes[b.ptr..b.ptr + sz] == Rest(b)[..sz]
    ensures b.msg.bytes[b.ptr..] == Rest(b)
  {
  }

  lemma QueueParts(high: seq<Buffer>, low: seq<Buffer>)
    requires BuffersOk(high) && BuffersOk(low)
    ensures BuffersOk(high + low) && |RestAll(high + low)| == |RestAll(high)| + |RestAll(low)|
  {
    RestConcat(high, low);
  }

  // ----- every run -----

  datatype Event =
    | DoSend(msg: Message, results: seq<WriteResult>)
    | DoWritable(results: seq<WriteResult>)
    | DoConnect(ok: bool)
    | DoClose(shutdown: bool, results: seq<WriteResult>)

  predicate ListsOk(v: View) {
    BuffersOk(v.high) && BuffersOk(v.low)
  }

  /** One event. A poll event or a report for a socket in another state is none for it. */
  function StepOf(v: View, e: Event): View
    requires ListsOk(v)
  {
    match e
    case DoSend(msg, results) => SendOf(v, msg, results)
    case DoWritable(results) => if v.kind == Connected || v.kind == HalfClose then FlushOf(v, results) else v
    case DoConnect(ok) => if v.kind == Connecting then ConnectOf(v, ok) else v
    case DoClose(shutdown, results) => CloseOf(v, shutdown, results)
  }

  /** The message of a send is taken: the socket can send, and the direct write does not break it. */
  function TakenBy(v: View, e: Event): seq<Message> {
    if e.DoSend? && (v.kind == Connected || v.kind == Connecting) && !Breaks(v, e.results) then [e.msg] else []
  }

  /** A run: the state it leads to and the messages taken, in order. */
  datatype Run = Run(view: View, taken: seq<Message>)

  function RunOf(kind: SocketType, events: seq<Event>): (r: Run)
    ensures ListsOk(r.view)
  {
    if events == [] then Run(Opened(kind), [])
    else
      var before := RunOf(kind, events[..|events| - 1]);
      var e := events[|events| - 1];
      StepKeepsLists(before.view, e);
      Run(StepOf(before.view, e), before.taken + TakenBy(before.view, e))
  }

  lemma {:induction false} WriteKeepsLists(v: View, p: Priority, results: seq<WriteResult>)
    requires ListsOk(v)
    ensures ListsOk(WriteOut(v, p, results).view)
    decreases |results|
  {
    if ListOf(v, p) != [] && results != [] {
      match results[0] {
        case Interrupted => WriteKeepsLists(v, p, results[1..]);
        case Wrote(n) =>
          if n >= |Rest(ListOf(v, p)[0])| {
            WriteKeepsLists(HeadWritten(v, p, n), p, results[1..]);
          }
        case _ =>
      }
    }
  }

  lemma StepKeepsLists(v: View, e: Event)
    requires ListsOk(v)
    ensures ListsOk(StepOf(v, e))
  {
    if e.DoWritable? || e.DoClose? {
      FlushKeepsLists(v, e.results);
    }
  }

  lemma FlushKeepsLists(v: View, results: seq<WriteResult>)
    requires ListsOk(v)
    ensures ListsOk(FlushOf(v, results))
  {
    hide WriteOut;
    WriteKeepsLists(v, High, results);
    OtherListStays(v, High, results);
    var h := WriteOut(v, High, results);
    WriteKeepsLists(h.view, Low, h.left);
  }

  // ----- when every message is taken -----

  predicate NoneBroken(results: seq<WriteResult>) {
    forall k :: 0 <= k < |results| ==> !results[k].Broken?
  }

  /** Nobody closes the socket, the connection is made, and no write fails. */
  predicate Smooth(events: seq<Event>) {
    forall k :: 0 <= k < |events| ==>
      match events[k]
      case DoSend(_, results) => NoneBroken(results)
      case DoWritable(results) => NoneBroken(results)
      case DoConnect(ok) => ok
      case DoClose(_, _) => false
  }

  lemma {:induction false} WriteUnbroken(v: View, p: Priority, results: seq<WriteResult>)
    requires BuffersOk(ListOf(v, p)) && NoneBroken(results)
    ensures !WriteOut(v, p, results).broken && NoneBroken(WriteOut(v, p, results).left)
    decreases |results|
  {
    if ListOf(v, p) != [] && results != [] {
      match results[0] {
        case Interrupted => WriteUnbroken(v, p, results[1..]);
        case Wrote(n) =>
          if n >= |Rest(ListOf(v, p)[0])| {
            WriteUnbroken(HeadWritten(v, p, n), p, results[1..]);
          }
        case _ =>
      }
    }
  }

  lemma FlushUnbroken(v: View, results: seq<WriteResult>)
    requires ListsOk(v) && NoneBroken(results) && v.kind == Connected
    ensures FlushOf(v, results).kind == Connected
  {
    hide WriteOut;
    OtherListStays(v, High, results);
    WriteUnbroken(v, High, results);
    var h := WriteOut(v, High, results);
    if h.view.high == [] && v.low != [] {
      OtherListStays(h.view, Low, h.left);
      WriteUnbroken(h.view, Low, h.left);
    }
  }

  /** In a smooth run every message sent is taken. */
  lemma {:induction false} AllTaken(kind: SocketType, events: seq<Event>)
    requires (kind.Connecting? || kind.Connected?) && Smooth(events)
    ensures RunOf(kind, events).taken == Sent(events)
    ensures var now := RunOf(kind, events).view.kind; now == Connecting || now == Connected
  {
    hide FlushOf;
    if events != [] {
      var front, e := events[..|events| - 1], events[|events| - 1];
      AllTaken(kind, front);
      var v := RunOf(kind, front).view;
      if e.DoWritable? && v.kind == Connected {
        FlushUnbroken(v, e.results);
      }
    }
  }

  /** The messages of all sends */
  function Sent(events: seq<Event>): seq<Message> {
    if events == [] then []
    else Sent(events[..|events| - 1]) + (if events[|events| - 1].DoSend? then [events[|events| - 1].msg] else [])
  }

  // ----- nothing is lost -----

  /** What a socket has queued, or had when it was closed */
  function Waiting(v: View): seq<Buffer> {
    if v.kind.Invalid? then v.lost else v.high + v.low
  }

  /** What is written and what waits, as one stream of bytes */
  function StreamOf(v: View): seq<Byte>
    requires ListsOk(v) && BuffersOk(v.lost)
  {
    v.wire + RestAll(Waiting(v))
  }

  lemma HeadConserves(v: View, p: Priority, n: nat)
    requires ListsOk(v) && ListOf(v, p) != []
    ensures var w := HeadWritten(v, p, n);
            && ListsOk(w) && w.lost == v.lost
            && w.wire + RestAll(ListOf(w, p)) == v.wire + RestAll(ListOf(v, p))
  {
    hide RestAll;
    var list := ListOf(v, p);
    if n >= |Rest(list[0])| {
      HeadWhole(v.wire, list);
    } else {
      HeadPart(v.wire, list, n);
    }
  }

  lemma HeadWhole(wire: seq<Byte>, list: seq<Buffer>)
    requires list != [] && BuffersOk(list)
    ensures BuffersOk(list[1..]) && wire + Rest(list[0]) + RestAll(list[1..]) == wire + RestAll(list)
  {
    hide Rest;
    RestHead(list);
    Regroup(wire, Rest(list[0]), RestAll(list[1..]), []);
  }

  lemma HeadPart(wire: seq<Byte>, list: seq<Buffer>, n: nat)
    requires list != [] && BuffersOk(list) && n < |Rest(list[0])|
    ensures var moved := list[0].(ptr := list[0].ptr + n);
            && BuffersOk(list[0 := moved])
            && wire + list[0].msg.bytes[list[0].ptr..list[0].ptr + n] + RestAll(list[0 := moved]) == wire + RestAll(list)
  {
    hide RestAll;
    var b := list[0];
    var moved := b.(ptr := b.ptr + n);
    RestHead(list);
    var now := list[0 := moved];
    assert now[1..] == list[1..] && BufferOk(moved);
    RestHead(now);
    PartAndRest(wire, b, moved, n, RestAll(list[1..]));
  }

  lemma PartAndRest(wire: seq<Byte>, b: Buffer, moved: Buffer, n: nat, more: seq<Byte>)
    requires BufferOk(b) && n < |Rest(b)| && moved == b.(ptr := b.ptr + n)
    ensures BufferOk(moved) && wire + b.msg.bytes[b.ptr..b.ptr + n] + (Rest(moved) + more) == wire + (Rest(b) + more)
  {
    assert Rest(b) == b.msg.bytes[b.ptr..b.ptr + n] + Rest(moved);
  }

  lemma RestHead(list: seq<Buffer>)
    requires list != [] && BuffersOk(list)
    ensures BufferOk(list[0]) && BuffersOk(list[1..]) && RestAll(list) == Rest(list[0]) + RestAll(list[1..])
  {
  }

  lemma {:induction false} WriteConserves(v: View, p: Priority, results: seq<WriteResult>)
    requires ListsOk(v)
    ensures var w := WriteOut(v, p, results).view;
            && ListsOk(w) && w.lost == v.lost
            && w.wire + RestAll(ListOf(w, p)) == v.wire + RestAll(ListOf(v, p))
    decreases |results|
  {
    hide HeadWritten, RestAll, Rest;
    WriteKeepsLists(v, p, results);
    if ListOf(v, p) != [] && results != [] {
      match results[0] {
        case Interrupted => WriteConserves(v, p, results[1..]);
        case Wrote(n) =>
          HeadConserves(v, p, n);
          if n >= |Rest(ListOf(v, p)[0])| {
            WriteConserves(HeadWritten(v, p, n), p, results[1..]);
          }
        case _ =>
      }
    }
  }

  /** send_buffer moves bytes from the lists to the wire and drops none. */
  lemma FlushConserves(v: View, results: seq<WriteResult>)
    requires ListsOk(v) && v.kind != Invalid && BuffersOk(v.lost)
    ensures var w := FlushOf(v, results);
            ListsOk(w) && BuffersOk(w.lost) && StreamOf(w) == StreamOf(v)
  {
    hide WriteOut, RestAll, Rest;
    RestNone();
    WriteConserves(v, High, results);
    OtherListStays(v, High, results);
    QueueRest(v.high, v.low);
    var h := WriteOut(v, High, results);
    QueueRest(h.view.high, h.view.low);
    Regroup(v.wire, RestAll(v.high), RestAll(v.low), []);
    Regroup(h.view.wire, RestAll(h.view.high), RestAll(h.view.low), []);
    assert StreamOf(h.view) == StreamOf(v);
    FlushKeepsLists(v, results);
    if !h.broken && h.view.high == [] && v.low != [] {
      WriteConserves(h.view, Low, h.left);
      OtherListStays(h.view, Low, h.left);
      var l := WriteOut(h.view, Low, h.left);
      assert l.view.high + l.view.low == l.view.low && h.view.high + h.view.low == h.view.low;
      assert StreamOf(l.view) == StreamOf(h.view);
      if l.view.low != [] {
        assert [l.view.low[0]] + l.view.low[1..] == l.view.low;
      }
    }
  }

  lemma QueueRest(high: seq<Buffer>, low: seq<Buffer>)
    requires BuffersOk(high) && BuffersOk(low)
    ensures BuffersOk(high + low) && RestAll(high + low) == RestAll(high) + RestAll(low)
  {
    RestConcat(high, low);
  }

  /** A flush without a failed write closes the socket only at a half close, with nothing left. */
  lemma FlushClosesEmpty(v: View, results: seq<WriteResult>)
    requires ListsOk(v) && v.kind != Invalid && NoneBroken(results)
    ensures var w := FlushOf(v, results); w.kind == v.kind || (w.kind == Invalid && w.lost == [])
  {
    hide WriteOut;
    OtherListStays(v, High, results);
    WriteUnbroken(v, High, results);
    var h := WriteOut(v, High, results);
    if h.view.high == [] && v.low != [] {
      OtherListStays(h.view, Low, h.left);
      WriteUnbroken(h.view, Low, h.left);
    }
  }

  /**
    A close without shutdown, when no write fails, keeps what waits: either everything is on the
    wire and the socket is closed, or the rest stays queued in a half-closed socket.
   */
  lemma CloseKeepsWaiting(v: View, results: seq<WriteResult>)
    requires ListsOk(v) && v.kind != Invalid && BuffersOk(v.lost) && NoneBroken(results)
    ensures var w := StepOf(v, DoClose(false, results));
            && ListsOk(w) && BuffersOk(w.lost) && StreamOf(w) == StreamOf(v)
            && (if w.kind == Invalid then w.lost == [] else w.kind == HalfClose && w.high + w.low != [])
  {
    hide FlushOf, RestAll;
    FlushConserves(v, results);
    FlushClosesEmpty(v, results);
  }

  /** Nobody closes the socket with shutdown, the connection does not fail, and no write fails. */
  predicate Gentle(events: seq<Event>) {
    forall k :: 0 <= k < |events| ==>
      match events[k]
      case DoSend(_, results) => NoneBroken(results)
      case DoWritable(results) => NoneBroken(results)
      case DoConnect(ok) => ok
      case DoClose(shutdown, results) => !shutdown && NoneBroken(results)
  }

  /** In such a run a socket is closed only when nothing waits. */
  lemma {:induction false} GentleLosesNothing(kind: SocketType, events: seq<Event>)
    requires (kind.Connecting? || kind.Connected?) && Gentle(events)
    ensures RunOf(kind, events).view.lost == []
  {
    hide FlushOf;
    if events != [] {
      var front, e := events[..|events| - 1], events[|events| - 1];
      GentleLosesNothing(kind, front);
      var v := RunOf(kind, front).view;
      if v.kind != Invalid {
        if e.DoWritable? {
          FlushClosesEmpty(v, e.results);
          FlushKeepsLost(v, e.results);
        } else if e.DoClose? {
          CloseKeepsWaiting(v, e.results);
          FlushKeepsLost(v, e.results);
        }
      }
    }
  }

  lemma FlushKeepsLost(v: View, results: seq<WriteResult>)
    requires ListsOk(v)
    ensures var w := FlushOf(v, results); w.kind != Invalid ==> w.lost == v.lost
  {
    hide WriteOut;
    WriteConserves(v, High, results);
    OtherListStays(v, High, results);
    var h := WriteOut(v, High, results);
    WriteConserves(h.view, Low, h.left);
  }

  // ----- what the kernel takes is written -----

  /** Enough calls of write, each taking whatever it is given */
  predicate Generous(results: seq<WriteResult>, queue: seq<Buffer>) {
    && |results| >= |queue|
    && forall k, j :: 0 <= k < |results| && 0 <= j < |queue| ==> TakesAll(results[k], queue[j])
  }

  predicate TakesAll(r: WriteResult, b: Buffer) {
    r.Wrote? && r.n >= |b.msg.bytes|
  }

  lemma {:induction false} WritesAll(v: View, p: Priority, results: seq<WriteResult>)
    requires ListsOk(v) && Generous(results, ListOf(v, p))
    ensures var w := WriteOut(v, p, results);
            && !w.broken && ListOf(w.view, p) == [] && w.view.wire == v.wire + RestAll(ListOf(v, p))
            && w.left == results[|ListOf(v, p)|..]
    decreases |ListOf(v, p)|
  {
    var list := ListOf(v, p);
    if list == [] {
      assert v.wire + [] == v.wire;
    } else {
      RestHead(list);
      assert TakesAll(results[0], list[0]);
      var n := results[0].n;
      var w := HeadWritten(v, p, n);
      assert ListOf(w, p) == list[1..] && w.wire == v.wire + Rest(list[0]);
      forall k, j | 0 <= k < |results[1..]| && 0 <= j < |list[1..]| ensures TakesAll(results[1..][k], list[1..][j]) {
        assert TakesAll(results[k + 1], list[j + 1]);
      }
      WritesAll(w, p, results[1..]);
      assert results[1..][|list| - 1..] == results[|list|..];
      Regroup(v.wire, Rest(list[0]), RestAll(list[1..]), []);
    }
  }

  lemma GenerousParts(results: seq<WriteResult>, high: seq<Buffer>, low: seq<Buffer>)
    requires Generous(results, high + low)
    ensures Generous(results, high) && Generous(results[|high|..], low)
  {
    var q, rest := high + low, results[|high|..];
    forall k, j | 0 <= k < |results| && 0 <= j < |high| ensures TakesAll(results[k], high[j]) {
      assert TakesAll(results[k], q[j]) && q[j] == high[j];
    }
    forall k, j | 0 <= k < |rest| && 0 <= j < |low| ensures TakesAll(rest[k], low[j]) {
      assert TakesAll(results[|high| + k], q[|high| + j]) && q[|high| + j] == low[j] && rest[k] == results[|high| + k];
    }
    assert Generous(rest, low);
  }

  /** Then a flush writes everything: the high list first, then the low one. */
  lemma FlushWritesAll(v: View, results: seq<WriteResult>)
    requires ListsOk(v) && v.kind != Invalid && Generous(results, v.high + v.low)
    ensures var w := FlushOf(v, results);
            && w.high == [] && w.low == [] && w.wire == v.wire + RestAll(v.high) + RestAll(v.low)
            && w.kind == if v.kind == HalfClose && v.low == [] then Invalid else v.kind
  {
    hide WriteOut, RestAll;
    RestNone();
    GenerousParts(results, v.high, v.low);
    WritesAll(v, High, results);
    OtherListStays(v, High, results);
    var h := WriteOut(v, High, results);
    WriteKeepsLists(v, High, results);
    if v.low != [] {
      WritesAll(h.view, Low, h.left);
      OtherListStays(h.view, Low, h.left);
    } else {
      assert v.wire + RestAll(v.high) + [] == v.wire + RestAll(v.high);
    }
  }

  /** A first write that takes less than it is given puts exactly that much on the wire. */
  lemma FlushWritesPart(v: View, results: seq<WriteResult>)
    requires ListsOk(v) && v.high != [] && results != [] && results[0].Wrote? && results[0].n < |Rest(v.high[0])|
    ensures FlushOf(v, results).wire == v.wire + Rest(v.high[0])[..results[0].n]
  {
    var n := results[0].n;
    assert Rest(v.high[0])[..n] == v.high[0].msg.bytes[v.high[0].ptr..v.high[0].ptr + n];
  }

  /** A message sent on a connection with nothing queued goes to the wire as far as the kernel takes it. */
  lemma SendWritesDirectly(v: View, msg: Message, n: nat, more: seq<WriteResult>)
    requires ListsOk(v) && v.kind == Connected && v.high == [] && v.low == []
    ensures var w := StepOf(v, DoSend(msg, [Wrote(n)] + more));
            && w.kind == Connected && w.low == []
            && (if n >= |msg.bytes| then w.wire == v.wire + msg.bytes && w.high == []
                else w.wire == v.wire + msg.bytes[..n] && RestAll(w.high) == msg.bytes[n..] && w.watching)
  {
    if n < |msg.bytes| {
      RestOne(Buffer(msg, n));
    }
  }

  /** Whatever happened before, connecting and one flush that the kernel takes put all that waits on the wire. */
  lemma Deliverable(kind: SocketType, events: seq<Event>, results: seq<WriteResult>)
    requires kind.Connecting? || kind.Connected?
    requires var v := RunOf(kind, events).view; v.kind != Invalid && Generous(results, v.high + v.low)
    ensures var v := RunOf(kind, events).view;
            var w := RunOf(kind, events + [DoConnect(true), DoWritable(results)]).view;
            w.high == [] && w.low == [] && w.wire == v.wire + RestAll(v.high) + RestAll(v.low)
  {
    hide RunOf, FlushOf, RestAll;
    var v := RunOf(kind, events).view;
    KindOfRun(kind, events);
    RunMore(kind, events, DoConnect(true));
    RunMore(kind, events + [DoConnect(true)], DoWritable(results));
    assert events + [DoConnect(true)] + [DoWritable(results)] == events + [DoConnect(true), DoWritable(results)];
    var u := RunOf(kind, events + [DoConnect(true)]).view;
    FlushWritesAll(u, results);
  }

  /** The states that a socket goes through */
  lemma {:induction false} KindOfRun(kind: SocketType, events: seq<Event>)
    requires kind.Connecting? || kind.Connected?
    ensures var now := RunOf(kind, events).view.kind;
            now == Connecting || now == Connected || now == HalfClose || now == Invalid
  {
    hide FlushOf;
    if events != [] {
      var front, e := events[..|events| - 1], events[|events| - 1];
      KindOfRun(kind, front);
      var v := RunOf(kind, front).view;
      if e.DoWritable? || e.DoClose? {
        FlushKind(v, e.results);
      }
    }
  }

  lemma FlushKind(v: View, results: seq<WriteResult>)
    requires ListsOk(v)
    ensures var w := FlushOf(v, results); w.kind == v.kind || w.kind == Invalid
  {
    hide WriteOut;
    OtherListStays(v, High, results);
    WriteKeepsLists(v, High, results);
    var h := WriteOut(v, High, results);
    OtherListStays(h.view, Low, h.left);
  }

  lemma RunMore(kind: SocketType, events: seq<Event>, e: Event)
    ensures RunOf(kind, events + [e]).view == StepOf(RunOf(kind, events).view, e)
  {
    assert (events + [e])[..|events|] == events;
  }

  /** The socket of a run */
  ghost predicate InStep(s: Socket, run: Run)
    reads s
  {
    s.Valid() && s.Now() == run.view && s.accepted == run.taken
  }

  method Handle(s: Socket, e: Event, ghost kind: SocketType, ghost events: seq<Event>)
    requires InStep(s, RunOf(kind, events))
    modifies s
    ensures InStep(s, RunOf(kind, events + [e]))
  {
    hide SendOf, FlushOf, CloseOf, ConnectOf, Breaks, Socket.Valid;
    assert (events + [e])[..|events|] == events;
    match e {
      case DoSend(msg, results) => var _ := s.Send(msg, results);
      case DoWritable(results) =>
        if s.kind == Connected || s.kind == HalfClose {
          var _ := s.Writable(results);
        }
      case DoConnect(ok) =>
        if s.kind == Connecting {
          s.ReportConnect(ok);
        }
      case DoClose(shutdown, results) => var _ := s.Close(shutdown, results);
    }
  }

  /**
    Any run of sends, poll events, connection reports and closes, with any results of the kernel.
    The socket is where the run leads, and it has taken exactly the messages of the run. The wire
    holds whole messages of these back to back and a prefix of one more; with those that wait they
    are, priority by priority, all the messages taken, in order; and wb_size is what is still to be
    written.
   */
  method Replay(kind: SocketType, events: seq<Event>) returns (s: Socket, ghost done: seq<Message>)
    requires kind.Connecting? || kind.Connected?
    ensures s.Valid() && s.Now() == RunOf(kind, events).view && s.accepted == RunOf(kind, events).taken
    ensures s.wire == Flat(done) + Partial(s.Queue())
    ensures InOrder(RunOf(kind, events).taken, done, Messages(s.Queue()))
    ensures !s.kind.Invalid? ==> s.Queue() == s.high + s.low && s.wbSize == |RestAll(s.Queue())| && Untouched(s.low)
    // without shutdown and failures a closed socket has written every message taken
    ensures Gentle(events) && s.kind.Invalid? ==>
              s.wire == Flat(done) && InOrder(RunOf(kind, events).taken, done, [])
  {
    hide RunOf, StepOf;
    s := new Socket(kind);
    NothingRun(kind);
    assert events[..0] == [];
    for k := 0 to |events|
      invariant InStep(s, RunOf(kind, events[..k])) && fresh(s)
    {
      assert events[..k + 1] == events[..k] + [events[k]];
      Handle(s, events[k], kind, events[..k]);
    }
    assert events[..|events|] == events;
    done := s.done;
    QueueParts(s.high, s.low);
    if Gentle(events) && s.kind.Invalid? {
      GentleLosesNothing(kind, events);
      NoMessages();
      assert Flat(done) + [] == Flat(done);
    }
  }

  lemma NothingRun(kind: SocketType)
    ensures RunOf(kind, []) == Run(Opened(kind), [])
  {
  }
}
