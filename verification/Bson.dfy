/**
  The document format of lua-bson.c (BSON specification version 1.1): what unpack_dict reads, how
  lmakeindex walks over the same bytes, and which bytes the packing functions write.

  A value that is not a document or an array is kept as its type and the bytes of its payload.
 */
module Bson {
  import opened Common
  import opened LittleEndian

  const REAL := 1
  const STRING := 2
  const DOCUMENT := 3
  const ARRAY := 4
  const BINARY := 5
  const OBJECTID := 7
  const BOOLEAN := 8
  const DATE := 9
  const NULL := 10
  const REGEX := 11
  const DBPOINTER := 12
  const JSCODE := 13
  const SYMBOL := 14
  const CODEWS := 15
  const INT32 := 16
  const TIMESTAMP := 17
  const INT64 := 18
  const MINKEY := 255
  const MAXKEY := 127

  datatype Field = Field(key: seq<Byte>, value: Value)

  datatype Value =
    | Leaf(kind: Byte, payload: seq<Byte>)
    | Document(fields: seq<Field>)
    | Array(fields: seq<Field>)

  // ----- reading bytes -----

  /** read_int32 and get_length */
  function Int32(b: seq<Byte>): int
    requires |b| >= 4
  {
    Signed(FromLittle(b[..4]), 0x1_0000_0000)
  }

  /** The length of a string that ends with a zero, in read_cstring */
  function ZeroAt(b: seq<Byte>): (r: Option<nat>)
    ensures r.Some? ==> r.value < |b| && b[r.value] == 0
  {
    if b == [] then None
    else if b[0] == 0 then Some(0)
    else
      var r := ZeroAt(b[1..]);
      if r.None? then None else Some(r.value + 1)
  }

  /** read_int32 and read_bytes of that many bytes and `extra` more; the whole size */
  function Sized(b: seq<Byte>, extra: int): (r: Option<nat>)
    ensures r.Some? ==> 4 <= r.value <= |b|
  {
    if |b| < 4 then None
    else
      var n := Int32(b) + extra;
      if n < 0 || |b| - 4 < n then None else Some(4 + n)
  }

  function TwoStrings(b: seq<Byte>): (r: Option<nat>)
    ensures r.Some? ==> r.value <= |b|
  {
    var p := ZeroAt(b);
    if p.None? then None
    else
      var q := ZeroAt(b[p.value + 1..]);
      if q.None? then None else Some(p.value + 1 + q.value + 1)
  }

  function Exactly(b: seq<Byte>, n: nat): (r: Option<nat>)
    ensures r.Some? ==> r.value <= |b|
  {
    if |b| < n then None else Some(n)
  }

  /** What stands before a payload: the type and the key; the payload starts behind `start` bytes. */
  datatype Head = Head(kind: Byte, key: seq<Byte>, start: nat)

  function ReadHead(b: seq<Byte>): (r: Option<Head>)
    ensures r.Some? ==> 2 <= r.value.start <= |b|
  {
    if b == [] then None
    else
      var z := ZeroAt(b[1..]);
      if z.None? then None else Some(Head(b[0], b[1..z.value + 1], z.value + 2))
  }

  // ----- unpack_dict -----

  /** The payload that unpack_dict reads for a type other than document and array; None is an error. */
  function LeafSize(kind: Byte, b: seq<Byte>): (r: Option<nat>)
    ensures r.Some? ==> r.value <= |b|
  {
    if kind == REAL || kind == DATE || kind == INT64 then Exactly(b, 8)
    else if kind == TIMESTAMP then Exactly(b, 4 + 4)
    else if kind == BOOLEAN then Exactly(b, 1)
    else if kind == INT32 then Exactly(b, 4)
    else if kind == OBJECTID then Exactly(b, 12)
    else if kind == NULL || kind == MINKEY || kind == MAXKEY then Some(0)
    else if kind == STRING then if |b| >= 4 && Int32(b) <= 0 then None else Sized(b, 0)
    else if kind == JSCODE || kind == SYMBOL then Sized(b, 0)
    else if kind == BINARY then if |b| >= 4 && Int32(b) < 0 then None else Sized(b, 1)
    else if kind == DBPOINTER then Sized(b, 12)
    else if kind == CODEWS then Sized(b, -4)
    else if kind == REGEX then TwoStrings(b)
    else None
  }

  /** Something read, and how many bytes it took */
  datatype Unpacked<+T> = Unpacked(value: T, size: nat)

  /** unpack_dict: the length, that many bytes with the fields, and a closing zero */
  function UnpackDict(b: seq<Byte>): (r: Option<Unpacked<seq<Field>>>)
    ensures r.Some? ==> 5 <= r.value.size <= |b|
    decreases |b|, 1
  {
    if |b| < 4 then None
    else
      var size := Int32(b);
      if size < 5 || size > |b| || b[size - 1] != 0 then None
      else
        var fs := UnpackFields(b[4..size - 1]);
        if fs.None? then None else Some(Unpacked(fs.value, size))
  }

  function UnpackValue(kind: Byte, b: seq<Byte>): (r: Option<Unpacked<Value>>)
    ensures r.Some? ==> r.value.size <= |b|
    decreases |b|, 2
  {
    if kind == DOCUMENT || kind == ARRAY then
      var d := UnpackDict(b);
      if d.None? then None
      else Some(Unpacked(if kind == DOCUMENT then Document(d.value.value) else Array(d.value.value), d.value.size))
    else
      var n := LeafSize(kind, b);
      if n.None? then None else Some(Unpacked(Leaf(kind, b[..n.value]), n.value))
  }

  /** The loop of unpack_dict over the fields */
  function UnpackFields(b: seq<Byte>): Option<seq<Field>>
    decreases |b|, 0
  {
    if b == [] then Some([])
    else
      var h := ReadHead(b);
      if h.None? then None
      else
        var v := UnpackValue(h.value.kind, b[h.value.start..]);
        if v.None? then None
        else AddField(Field(h.value.key, v.value.value), UnpackFields(b[h.value.start + v.value.size..]))
  }

  function AddField(f: Field, more: Option<seq<Field>>): Option<seq<Field>> {
    if more.None? then None else Some([f] + more.value)
  }

  /** The integer that unpack_dict makes of a payload */
  function IntegerOf(v: Value): int
    requires v.Leaf?
  {
    Signed(FromLittle(v.payload), if v.kind == INT32 then 0x1_0000_0000 else 0x1_0000_0000_0000_0000)
  }

  // ----- lmakeindex -----

  /** field_size: the types with a payload of a fixed size */
  function FieldSize(kind: Byte): nat {
    if kind == INT64 || kind == TIMESTAMP || kind == DATE || kind == REAL then 8
    else if kind == BOOLEAN then 1
    else if kind == OBJECTID then 12
    else if kind == INT32 then 4
    else 0
  }

  /** How far lmakeindex moves on behind the key. */
  function Extent(kind: Byte, b: seq<Byte>): (r: Option<nat>)
    ensures r.Some? ==> r.value <= |b|
  {
    if FieldSize(kind) > 0 then Exactly(b, FieldSize(kind))
    else if kind == NULL || kind == MINKEY || kind == MAXKEY then Some(0)
    else if kind == JSCODE || kind == SYMBOL || kind == STRING then Sized(b, 0)
    else if kind == CODEWS || kind == ARRAY || kind == DOCUMENT then Sized(b, -4)
    else if kind == BINARY then Sized(b, 1)
    else if kind == DBPOINTER then Sized(b, 12)
    else if kind == REGEX then TwoStrings(b)
    else None
  }

  /** A field as lmakeindex sees it: its type, and where in the document its payload is */
  datatype Mark = Mark(kind: Byte, key: seq<Byte>, at: nat)

  /** The walk of lmakeindex over the fields from position `at` of the document on */
  function Marks(b: seq<Byte>, at: nat): Option<seq<Mark>>
    decreases |b|
  {
    if b == [] then Some([])
    else
      var h := ReadHead(b);
      if h.None? then None
      else
        var n := Extent(h.value.kind, b[h.value.start..]);
        if n.None? then None
        else
          AddMark(Mark(h.value.kind, h.value.key, at + h.value.start),
                  Marks(b[h.value.start + n.value..], at + h.value.start + n.value))
  }

  function AddMark(m: Mark, more: Option<seq<Mark>>): Option<seq<Mark>> {
    if more.None? then None else Some([m] + more.value)
  }

  // ----- only the bytes read matter -----

  /** `c` starts with the first `n` bytes of `b`. */
  predicate SameStart(b: seq<Byte>, c: seq<Byte>, n: nat) {
    n <= |b| && n <= |c| && b[..n] == c[..n]
  }

  lemma SameStartAt(b: seq<Byte>, c: seq<Byte>, n: nat, m: nat)
    requires SameStart(b, c, n) && m <= n
    ensures SameStart(b, c, m) && SameStart(b[m..], c[m..], n - m)
    ensures forall i :: 0 <= i < n ==> b[i] == c[i]
  {
    assert forall i :: 0 <= i < n ==> b[i] == b[..n][i] && c[i] == c[..n][i];
    assert b[..m] == b[..n][..m] && c[..m] == c[..n][..m];
    assert b[m..][..n - m] == b[..n][m..] && c[m..][..n - m] == c[..n][m..];
  }

  lemma {:induction false} ZeroPrefix(b: seq<Byte>, c: seq<Byte>, n: nat)
    requires ZeroAt(b) == Some(n) && SameStart(b, c, n + 1)
    ensures ZeroAt(c) == Some(n)
  {
    SameStartAt(b, c, n + 1, 0);
    if n > 0 {
      SameStartAt(b, c, n + 1, 1);
      ZeroPrefix(b[1..], c[1..], n - 1);
    }
  }

  lemma HeadPrefix(b: seq<Byte>, c: seq<Byte>)
    requires ReadHead(b).Some? && SameStart(b, c, ReadHead(b).value.start)
    ensures ReadHead(c) == ReadHead(b)
  {
    var n := ReadHead(b).value.start;
    SameStartAt(b, c, n, 1);
    ZeroPrefix(b[1..], c[1..], n - 2);
    assert b[1..n - 1] == b[..n][1..n - 1] && c[1..n - 1] == c[..n][1..n - 1];
  }

  lemma SizedPrefix(b: seq<Byte>, c: seq<Byte>, extra: int, n: nat)
    requires Sized(b, extra) == Some(n) && SameStart(b, c, n)
    ensures Sized(c, extra) == Some(n) && Int32(c) == Int32(b)
  {
    SameStartAt(b, c, n, 4);
  }

  lemma StringsPrefix(b: seq<Byte>, c: seq<Byte>, n: nat)
    requires TwoStrings(b) == Some(n) && SameStart(b, c, n)
    ensures TwoStrings(c) == Some(n)
  {
    var p := ZeroAt(b).value;
    SameStartAt(b, c, n, p + 1);
    ZeroPrefix(b, c, p);
    ZeroPrefix(b[p + 1..], c[p + 1..], n - p - 2);
  }

  lemma LeafPrefix(kind: Byte, b: seq<Byte>, c: seq<Byte>, n: nat)
    requires LeafSize(kind, b) == Some(n) && SameStart(b, c, n)
    ensures LeafSize(kind, c) == Some(n)
  {
    hide Int32, ZeroAt, TwoStrings, Sized;
    if kind == STRING || kind == JSCODE || kind == SYMBOL {
      SizedPrefix(b, c, 0, n);
    } else if kind == BINARY {
      SizedPrefix(b, c, 1, n);
    } else if kind == DBPOINTER {
      SizedPrefix(b, c, 12, n);
    } else if kind == CODEWS {
      SizedPrefix(b, c, -4, n);
    } else if kind == REGEX {
      StringsPrefix(b, c, n);
    }
  }

  lemma DictPrefix(b: seq<Byte>, c: seq<Byte>)
    requires UnpackDict(b).Some? && SameStart(b, c, UnpackDict(b).value.size)
    ensures UnpackDict(c) == UnpackDict(b)
  {
    hide UnpackFields;
    var n := UnpackDict(b).value.size;
    SameStartAt(b, c, n, 4);
    assert b[4..n - 1] == b[..n][4..n - 1] && c[4..n - 1] == c[..n][4..n - 1];
  }

  lemma ValuePrefix(kind: Byte, b: seq<Byte>, c: seq<Byte>)
    requires UnpackValue(kind, b).Some? && SameStart(b, c, UnpackValue(kind, b).value.size)
    ensures UnpackValue(kind, c) == UnpackValue(kind, b)
  {
    hide LeafSize, UnpackDict;
    if kind == DOCUMENT || kind == ARRAY {
      DictPrefix(b, c);
    } else {
      LeafPrefix(kind, b, c, LeafSize(kind, b).value);
    }
  }

  // ----- the two walks agree -----

  lemma SameExtent(kind: Byte, b: seq<Byte>)
    requires UnpackValue(kind, b).Some?
    ensures Extent(kind, b) == Some(UnpackValue(kind, b).value.size)
  {
    hide UnpackFields;
  }

  /** A mark tells the type of a field and where its bytes are. */
  ghost predicate Marked(b: seq<Byte>, at: nat, m: Mark, f: Field) {
    && m.key == f.key
    && at <= m.at <= at + |b|
    && UnpackValue(m.kind, b[m.at - at..]).Some?
    && UnpackValue(m.kind, b[m.at - at..]).value.value == f.value
  }

  /** One step of both walks */
  lemma WalkStep(b: seq<Byte>, at: nat)
    requires b != [] && UnpackFields(b).Some?
    ensures ReadHead(b).Some?
    ensures var h := ReadHead(b).value;
            && UnpackValue(h.kind, b[h.start..]).Some?
            && var v := UnpackValue(h.kind, b[h.start..]).value;
               var n := h.start + v.size;
               && UnpackFields(b[n..]).Some?
               && UnpackFields(b) == AddField(Field(h.key, v.value), UnpackFields(b[n..]))
               && Marks(b, at) == AddMark(Mark(h.kind, h.key, at + h.start), Marks(b[n..], at + n))
  {
    hide UnpackValue, Extent, ReadHead;
    var h := ReadHead(b).value;
    SameExtent(h.kind, b[h.start..]);
  }

  lemma WalkNothing(at: nat)
    ensures UnpackFields([]) == Some([]) && Marks([], at) == Some([])
  {
  }

  /** lmakeindex finds the fields of unpack_dict, each with its type and its place. */
  lemma {:induction false} WalksAgree(b: seq<Byte>, at: nat)
    requires UnpackFields(b).Some?
    ensures Marks(b, at).Some? && |Marks(b, at).value| == |UnpackFields(b).value|
    ensures forall i :: 0 <= i < |Marks(b, at).value| ==> Marked(b, at, Marks(b, at).value[i], UnpackFields(b).value[i])
    decreases |b|
  {
    hide UnpackValue, Extent, ReadHead, UnpackFields, Marks;
    WalkNothing(at);
    if b != [] {
      WalkStep(b, at);
      var h := ReadHead(b).value;
      var n := h.start + UnpackValue(h.kind, b[h.start..]).value.size;
      WalksAgree(b[n..], at + n);
      var ms, fs := Marks(b, at).value, UnpackFields(b).value;
      var ms', fs' := Marks(b[n..], at + n).value, UnpackFields(b[n..]).value;
      forall i | 0 <= i < |ms| ensures Marked(b, at, ms[i], fs[i]) {
        if i > 0 {
          MarkedLater(b, at, n, ms'[i - 1], fs'[i - 1]);
        }
      }
    }
  }

  lemma MarkedLater(b: seq<Byte>, at: nat, n: nat, m: Mark, f: Field)
    requires n <= |b| && Marked(b[n..], at + n, m, f)
    ensures Marked(b, at, m, f)
  {
    hide UnpackValue;
    assert b[n..][m.at - (at + n)..] == b[m.at - at..];
  }
}
