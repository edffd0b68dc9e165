/**
  The byte format of lua-seri.c: tagged values, with integers in the smallest width, strings in
  three length classes, and tables as an array part and a list of pairs that a nil ends.

  `Encode` says which bytes packing writes and `Decode` what unpacking makes of bytes.
 */
module SeriFormat {
  import opened Common
  import opened LittleEndian

  const TYPE_NIL := 0
  const TYPE_BOOLEAN := 1
  const TYPE_NUMBER := 2
  const TYPE_USERDATA := 3
  const TYPE_SHORT_STRING := 4
  const TYPE_LONG_STRING := 5
  const TYPE_TABLE := 6

  const NUMBER_ZERO := 0
  const NUMBER_BYTE := 1
  const NUMBER_WORD := 2
  const NUMBER_DWORD := 4
  const NUMBER_QWORD := 6
  const NUMBER_REAL := 8

  const MAX_COOKIE := 32
  const MAX_DEPTH := 32

  // ----- values -----

  /**
    A Lua value in memory. A table is listed in the order in which lua_next finds its entries, and
    `border` is what lua_rawlen answers. `Unsupported` is any other type.
   */
  datatype Lua =
    | Nil
    | Boolean(b: bool)
    | Integer(n: int)
    | Real(bits: seq<Byte>)
    | Pointer(bits: seq<Byte>)
    | String(s: seq<Byte>)
    | Table(border: nat, entries: seq<Entry>)
    | Unsupported

  datatype Entry = Entry(key: Lua, value: Lua)

  /** What Lua guarantees about a value: widths, and tables without nil keys, nil values and repeated keys. */
  predicate Legal(v: Lua)
    decreases v
  {
    match v
    case Integer(n) => -0x8000_0000_0000_0000 <= n < 0x8000_0000_0000_0000
    case Real(bits) => |bits| == 8
    case Pointer(bits) => |bits| == 8
    case String(s) => |s| < 0x8000_0000
    case Table(border, es) => border < 0x8000_0000 && LegalEntries(es) && DistinctIndices(es)
    case _ => true
  }

  predicate LegalEntries(es: seq<Entry>)
    decreases es
  {
    es == [] || (LegalEntry(es[0]) && LegalEntries(es[1..]))
  }

  predicate LegalEntry(e: Entry)
    decreases e
  {
    !e.key.Nil? && !e.value.Nil? && Legal(e.key) && Legal(e.value)
  }

  predicate DistinctIndices(es: seq<Entry>) {
    forall i, j :: 0 <= i < j < |es| && es[i].key.Integer? ==> es[i].key != es[j].key
  }

  /** What a value is, without the order of a table's entries. */
  datatype Value =
    | Scalar(v: Lua)
    | Entries(all: multiset<(Value, Value)>)

  function Meaning(v: Lua): Value
    decreases v
  {
    if v.Table? then Entries(MeaningAll(v.entries)) else Scalar(v)
  }

  function MeaningAll(es: seq<Entry>): multiset<(Value, Value)>
    decreases es
  {
    if es == [] then multiset{} else MeaningOf(es[0]) + MeaningAll(es[1..])
  }

  function MeaningOf(e: Entry): multiset<(Value, Value)>
    decreases e
  {
    multiset{(Meaning(e.key), Meaning(e.value))}
  }

  // ----- tags -----

  /** COMBINE_TYPE */
  function Tag(kind: nat, cookie: nat): Byte
    requires kind < 8 && cookie < MAX_COOKIE
  {
    kind + 8 * cookie
  }

  // ----- encoding -----

  /** wb_integer */
  function EncodeInteger(n: int): seq<Byte>
    requires -0x8000_0000_0000_0000 <= n < 0x8000_0000_0000_0000
  {
    if n == 0 then [Tag(TYPE_NUMBER, NUMBER_ZERO)]
    else if !(-0x8000_0000 <= n < 0x8000_0000) then
      [Tag(TYPE_NUMBER, NUMBER_QWORD)] + Little(Unsigned(n, 0x1_0000_0000_0000_0000), 8)
    else if n < 0 then [Tag(TYPE_NUMBER, NUMBER_DWORD)] + Little(Unsigned(n, 0x1_0000_0000), 4)
    else if n < 0x100 then [Tag(TYPE_NUMBER, NUMBER_BYTE)] + Little(n, 1)
    else if n < 0x10000 then [Tag(TYPE_NUMBER, NUMBER_WORD)] + Little(n, 2)
    else [Tag(TYPE_NUMBER, NUMBER_DWORD)] + Little(n, 4)
  }

  /** wb_string */
  function EncodeString(s: seq<Byte>): seq<Byte>
    requires |s| < 0x8000_0000
  {
    if |s| < MAX_COOKIE then [Tag(TYPE_SHORT_STRING, |s|)] + s
    else if |s| < 0x10000 then [Tag(TYPE_LONG_STRING, 2)] + Little(|s|, 2) + s
    else [Tag(TYPE_LONG_STRING, 4)] + Little(|s|, 4) + s
  }

  /** The size of the array part. */
  function EncodeSize(n: nat): seq<Byte>
    requires n < 0x8000_0000
  {
    if n >= MAX_COOKIE - 1 then [Tag(TYPE_TABLE, MAX_COOKIE - 1)] + EncodeInteger(n)
    else [Tag(TYPE_TABLE, n)]
  }

  /** pack_one */
  function Encode(v: Lua): seq<Byte>
    requires Legal(v)
    decreases v
  {
    match v
    case Nil => [Tag(TYPE_NIL, 0)]
    case Boolean(b) => [Tag(TYPE_BOOLEAN, if b then 1 else 0)]
    case Integer(n) => EncodeInteger(n)
    case Real(bits) => [Tag(TYPE_NUMBER, NUMBER_REAL)] + bits
    case Pointer(bits) => [Tag(TYPE_USERDATA, 0)] + bits
    case String(s) => EncodeString(s)
    case Table(border, es) => EncodeSize(border) + EncodeArray(es, 1, border) + EncodeHash(es, border) + [Tag(TYPE_NIL, 0)]
    case Unsupported => []
  }

  /** Where lua_rawgeti finds index `i`. */
  function Find(es: seq<Entry>, i: int): (r: Option<nat>)
    ensures r.Some? ==> r.value < |es| && es[r.value].key == Integer(i)
  {
    if es == [] then None
    else if es[0].key == Integer(i) then Some(0)
    else
      var r := Find(es[1..], i);
      if r.None? then None else Some(r.value + 1)
  }

  lemma {:induction false} LegalAt(es: seq<Entry>, k: nat)
    requires LegalEntries(es) && k < |es|
    ensures LegalEntry(es[k])
  {
    if k > 0 {
      LegalAt(es[1..], k - 1);
    }
  }

  /** wb_table_array from index `i` on */
  function EncodeArray(es: seq<Entry>, i: nat, border: nat): seq<Byte>
    requires LegalEntries(es)
    decreases es, border - i
  {
    if i > border then []
    else
      (match Find(es, i)
       case None => [Tag(TYPE_NIL, 0)]
       case Some(k) => LegalAt(es, k); EncodeItem(es[k]))
      + EncodeArray(es, i + 1, border)
  }

  function EncodeItem(e: Entry): seq<Byte>
    requires LegalEntry(e)
    decreases e
  {
    Encode(e.value)
  }

  predicate InArray(key: Lua, border: nat) {
    key.Integer? && 0 < key.n <= border
  }

  /** wb_table_hash up to the closing nil */
  function EncodeHash(es: seq<Entry>, border: nat): seq<Byte>
    requires LegalEntries(es)
    decreases es
  {
    if es == [] then []
    else (if InArray(es[0].key, border) then [] else EncodePair(es[0])) + EncodeHash(es[1..], border)
  }

  function EncodePair(e: Entry): seq<Byte>
    requires LegalEntry(e)
    decreases e
  {
    Encode(e.key) + Encode(e.value)
  }

  // ----- decoding -----

  /** What unpacking makes of some bytes; None is the error "Invalid serialize stream". */
  datatype Decoded<+T> = Decoded(value: T, rest: seq<Byte>)

  /** rb_read */
  function Take(b: seq<Byte>, n: nat): (r: Option<Decoded<seq<Byte>>>)
    ensures r.Some? ==> |r.value.value| == n && |r.value.rest| == |b| - n && b == r.value.value + r.value.rest
  {
    if |b| < n then None else Some(Decoded(b[..n], b[n..]))
  }

  /** get_integer */
  function DecodeInteger(cookie: nat, b: seq<Byte>): (r: Option<Decoded<int>>)
    ensures r.Some? ==> |r.value.rest| <= |b|
  {
    if cookie == NUMBER_ZERO then Some(Decoded(0, b))
    else if cookie == NUMBER_BYTE then Number(Take(b, 1), 0)
    else if cookie == NUMBER_WORD then Number(Take(b, 2), 0)
    else if cookie == NUMBER_DWORD then Number(Take(b, 4), 0x1_0000_0000)
    else if cookie == NUMBER_QWORD then Number(Take(b, 8), 0x1_0000_0000_0000_0000)
    else None
  }

  function Number(t: Option<Decoded<seq<Byte>>>, modulus: nat): (r: Option<Decoded<int>>)
    ensures r.Some? ==> t.Some? && r.value.rest == t.value.rest
  {
    if t.None? then None
    else
      var n := FromLittle(t.value.value);
      Some(Decoded(if modulus == 0 then n else Signed(n, modulus), t.value.rest))
  }

  /** get_buffer; lengths beyond an int are refused. */
  function DecodeBuffer(n: nat, b: seq<Byte>): (r: Option<Decoded<Lua>>)
    ensures r.Some? ==> |r.value.rest| <= |b|
  {
    var t := Take(b, n);
    if t.None? || n >= 0x8000_0000 then None else Some(Decoded(String(t.value.value), t.value.rest))
  }

  function DecodeLong(width: nat, b: seq<Byte>): (r: Option<Decoded<Lua>>)
    ensures r.Some? ==> |r.value.rest| <= |b|
  {
    var t := Take(b, width);
    if t.None? then None else DecodeBuffer(FromLittle(t.value.value), t.value.rest)
  }

  /** unpack_one */
  function Decode(b: seq<Byte>): (r: Option<Decoded<Lua>>)
    ensures r.Some? ==> |r.value.rest| < |b|
    decreases |b|, 1
  {
    if b == [] then None else DecodeValue(b[0] as int % 8, b[0] as int / 8, b[1..])
  }

  /** push_value */
  function DecodeValue(kind: nat, cookie: nat, b: seq<Byte>): (r: Option<Decoded<Lua>>)
    ensures r.Some? ==> |r.value.rest| <= |b|
    decreases |b|, 4
  {
    if kind == TYPE_NIL then Some(Decoded(Nil, b))
    else if kind == TYPE_BOOLEAN then Some(Decoded(Boolean(cookie != 0), b))
    else if kind == TYPE_NUMBER && cookie == NUMBER_REAL then
      (var t := Take(b, 8); if t.None? then None else Some(Decoded(Real(t.value.value), t.value.rest)))
    else if kind == TYPE_NUMBER then
      (var n := DecodeInteger(cookie, b); if n.None? then None else Some(Decoded(Integer(n.value.value), n.value.rest)))
    else if kind == TYPE_USERDATA then
      (var t := Take(b, 8); if t.None? then None else Some(Decoded(Pointer(t.value.value), t.value.rest)))
    else if kind == TYPE_SHORT_STRING then DecodeBuffer(cookie, b)
    else if kind == TYPE_LONG_STRING then
      if cookie == 2 || cookie == 4 then DecodeLong(cookie, b) else None
    else if kind == TYPE_TABLE then
      var n := DecodeSize(cookie, b);
      if n.None? then None else DecodeTable(n.value.value, n.value.rest)
    else None
  }

  /** The size of the array part, which follows in full when the cookie is 31; it is cut to an int. */
  function DecodeSize(cookie: nat, b: seq<Byte>): (r: Option<Decoded<int>>)
    ensures r.Some? ==> |r.value.rest| <= |b|
  {
    if cookie != MAX_COOKIE - 1 then Some(Decoded(cookie, b))
    else if b == [] || b[0] as int % 8 != TYPE_NUMBER || b[0] as int / 8 == NUMBER_REAL then None
    else
      var n := DecodeInteger(b[0] as int / 8, b[1..]);
      if n.None? then None else Some(Decoded(Signed(n.value.value % 0x1_0000_0000, 0x1_0000_0000), n.value.rest))
  }

  /** unpack_table */
  function DecodeTable(n: int, b: seq<Byte>): (r: Option<Decoded<Lua>>)
    ensures r.Some? ==> |r.value.rest| <= |b|
    decreases |b|, 3
  {
    var items := DecodeArray(1, n, b);
    if items.None? then None
    else
      var pairs := DecodePairs(items.value.rest);
      if pairs.None? then None
      else Some(Decoded(Table(if n < 0 then 0 else n, items.value.value + pairs.value.value), pairs.value.rest))
  }

  /** The entries with indices from `i` to `n`; a nil makes no entry. */
  function DecodeArray(i: int, n: int, b: seq<Byte>): (r: Option<Decoded<seq<Entry>>>)
    ensures r.Some? ==> |r.value.rest| <= |b|
    decreases |b|, 2
  {
    if i > n then Some(Decoded([], b))
    else
      var v := Decode(b);
      if v.None? then None
      else
        var more := DecodeArray(i + 1, n, v.value.rest);
        if more.None? then None
        else Some(Decoded(ArrayEntry(i, v.value.value) + more.value.value, more.value.rest))
  }

  function ArrayEntry(i: int, v: Lua): seq<Entry> {
    if v.Nil? then [] else [Entry(Integer(i), v)]
  }

  /** The pairs up to the closing nil. */
  function DecodePairs(b: seq<Byte>): (r: Option<Decoded<seq<Entry>>>)
    ensures r.Some? ==> |r.value.rest| < |b|
    decreases |b|, 2
  {
    var k := Decode(b);
    if k.None? then None
    else if k.value.value.Nil? then Some(Decoded([], k.value.rest))
    else
      var v := Decode(k.value.rest);
      if v.None? then None
      else
        var more := DecodePairs(v.value.rest);
        if more.None? then None
        else Some(Decoded([Entry(k.value.value, v.value.value)] + more.value.value, more.value.rest))
  }
}
