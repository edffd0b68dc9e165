/**
  The wire format of netpack: each packet is two bytes of length, high byte first, and the data.
  This is the reference: what a whole byte stream means, with no cuts in it.
 */
module Framing {
  import opened Common

  datatype Parsed = Parsed(packets: seq<seq<Byte>>, rest: seq<Byte>)

  /** read_size */
  function SizeAt(b: seq<Byte>): nat
    requires |b| >= 2
  {
    (b[0] as int) * 256 + b[1] as int
  }

  /** The bytes do not yet hold a whole packet. */
  predicate Incomplete(b: seq<Byte>) {
    |b| < 2 || |b| - 2 < SizeAt(b)
  }

  /** The packets that a byte stream holds, and what is left behind the last one. */
  function Parse(b: seq<Byte>): Parsed
    decreases |b|
  {
    if Incomplete(b) then Parsed([], b)
    else
      var n := 2 + SizeAt(b);
      var more := Parse(b[n..]);
      Parsed([b[2..n]] + more.packets, more.rest)
  }

  datatype TooLong = TooLong(size: nat)

  /** write_size */
  function SizeBytes(n: nat): seq<Byte>
    requires n < 0x10000
  {
    [n / 256 % 256, n % 256]
  }

  /** lpack */
  function Pack(m: seq<Byte>): Result<seq<Byte>, TooLong> {
    if |m| >= 0x10000 then Err(TooLong(|m|)) else Ok(SizeBytes(|m|) + m)
  }

  /** Packed messages back to back. */
  function Stream(ms: seq<seq<Byte>>): seq<Byte>
    requires forall m :: m in ms ==> Pack(m).Ok?
  {
    if ms == [] then [] else Pack(ms[0]).value + Stream(ms[1..])
  }

  /** One step of reading. */
  lemma ParseStep(b: seq<Byte>)
    ensures Incomplete(b) ==> Parse(b) == Parsed([], b)
    ensures !Incomplete(b) ==>
              var n := 2 + SizeAt(b);
              Parse(b) == Parsed([b[2..n]] + Parse(b[n..]).packets, Parse(b[n..]).rest)
  {
  }

  // ----- round trips -----

  lemma PackedHead(m: seq<Byte>, rest: seq<Byte>)
    requires Pack(m).Ok?
    ensures var b := Pack(m).value + rest;
            && !Incomplete(b) && SizeAt(b) == |m|
            && b[2..2 + |m|] == m && b[2 + |m|..] == rest
  {
    assert |m| / 256 * 256 + |m| % 256 == |m|;
  }

  /** Reading packed messages and whatever follows them gives these messages first. */
  lemma {:induction false} StreamThenRest(ms: seq<seq<Byte>>, rest: seq<Byte>)
    requires forall m :: m in ms ==> Pack(m).Ok?
    ensures Parse(Stream(ms) + rest) == Parsed(ms + Parse(rest).packets, Parse(rest).rest)
  {
    hide Parse, Incomplete, SizeAt, Pack;
    if ms == [] {
      assert Stream(ms) + rest == rest;
    } else {
      var tail := Stream(ms[1..]) + rest;
      StreamThenRest(ms[1..], rest);
      PackedHead(ms[0], tail);
      assert Stream(ms) + rest == Pack(ms[0]).value + tail;
      ParseStep(Stream(ms) + rest);
      assert [ms[0]] + (ms[1..] + Parse(rest).packets) == ms + Parse(rest).packets;
    }
  }

  /** What is read is what was packed: nothing is lost or made up, and what is left over is no packet. */
  lemma {:induction false} ParseThenStream(b: seq<Byte>)
    ensures forall m :: m in Parse(b).packets ==> Pack(m).Ok?
    ensures Stream(Parse(b).packets) + Parse(b).rest == b
    ensures Incomplete(Parse(b).rest)
    decreases |b|
  {
    hide Parse, Incomplete, SizeAt, Pack, Stream;
    ParseStep(b);
    if Incomplete(b) {
      StreamNone();
    } else {
      SplitHead(b);
      var n := 2 + SizeAt(b);
      var more := Parse(b[n..]);
      ParseThenStream(b[n..]);
      StreamOne(b[2..n], more.packets);
      assert b[..n] + (Stream(more.packets) + more.rest) == b[..n] + Stream(more.packets) + more.rest;
    }
  }

  lemma StreamNone()
    ensures Stream([]) == []
  {
  }

  lemma StreamOne(m: seq<Byte>, ms: seq<seq<Byte>>)
    requires Pack(m).Ok? && forall x :: x in ms ==> Pack(x).Ok?
    ensures forall x :: x in [m] + ms ==> Pack(x).Ok?
    ensures Stream([m] + ms) == Pack(m).value + Stream(ms)
  {
    assert ([m] + ms)[1..] == ms;
  }

  lemma SplitHead(b: seq<Byte>)
    requires !Incomplete(b)
    ensures |b| >= 2 + SizeAt(b)
    ensures Pack(b[2..2 + SizeAt(b)]) == Ok(b[..2 + SizeAt(b)])
    ensures b == b[..2 + SizeAt(b)] + b[2 + SizeAt(b)..]
  {
    var n := SizeAt(b);
    Digits(b[0], b[1]);
    assert SizeBytes(n) == [b[0], b[1]];
    assert [b[0], b[1]] + b[2..2 + n] == b[..2 + n];
  }

  lemma Digits(high: Byte, low: Byte)
    ensures var n := (high as int) * 256 + low as int; n / 256 % 256 == high && n % 256 == low && n < 0x10000
  {
  }

  // ----- cuts -----

  /** Reading may stop anywhere and go on with what was left over. */
  lemma {:induction false} ParseInParts(a: seq<Byte>, b: seq<Byte>)
    ensures var first := Parse(a);
            var second := Parse(first.rest + b);
            Parse(a + b) == Parsed(first.packets + second.packets, second.rest)
    decreases |a|
  {
    hide Parse, Incomplete, SizeAt;
    ParseStep(a);
    if Incomplete(a) {
      var second := Parse(a + b);
      assert [] + second.packets == second.packets;
    } else {
      SplitHead(a);
      var n := 2 + SizeAt(a);
      SameHead(a, b);
      ParseStep(a + b);
      var first := Parse(a[n..]);
      var second := Parse(first.rest + b);
      ParseInParts(a[n..], b);
      assert [a[2..n]] + (first.packets + second.packets) == [a[2..n]] + first.packets + second.packets;
    }
  }

  lemma SameHead(a: seq<Byte>, b: seq<Byte>)
    requires !Incomplete(a)
    ensures !Incomplete(a + b) && SizeAt(a + b) == SizeAt(a)
    ensures var n := 2 + SizeAt(a); (a + b)[2..n] == a[2..n] && (a + b)[n..] == a[n..] + b
  {
  }
}
