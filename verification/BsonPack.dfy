/**
  Packing in lua-bson.c: a growing buffer in which the length of a document is filled in after its
  fields have been written. Unpacking what was packed gives the same fields.
 */
module BsonPack {
  import opened Common
  import opened LittleEndian
  import opened Bson

  const DEFAULT_CAP := 64
  const MAX_DEPTH := 128
  const LIMIT := 0x8000_0000

  // ----- the bytes of a document -----

  function KindOf(v: Value): Byte {
    match v
    case Leaf(kind, _) => kind
    case Document(_) => DOCUMENT
    case Array(_) => ARRAY
  }

  function ValueBytes(v: Value): seq<Byte>
    decreases v
  {
    match v
    case Leaf(_, payload) => payload
    case Document(fs) => DictBytes(fs)
    case Array(fs) => DictBytes(fs)
  }

  /** The length of the whole, the fields, and a zero */
  function DictBytes(fs: seq<Field>): (r: seq<Byte>)
    ensures |r| >= 5
    decreases fs, 1
  {
    var body := FieldsBytes(fs);
    Little(4 + |body| + 1, 4) + body + [0]
  }

  function FieldsBytes(fs: seq<Field>): seq<Byte>
    decreases fs, 0
  {
    if fs == [] then [] else FieldsBytes(fs[..|fs| - 1]) + FieldBytes(fs[|fs| - 1])
  }

  function FieldBytes(f: Field): seq<Byte>
    decreases f
  {
    [KindOf(f.value)] + f.key + [0] + ValueBytes(f.value)
  }

  /** Keys without zeros, payloads of the size that their type says, and lengths that fit an int */
  predicate WellFormed(v: Value)
    decreases v
  {
    match v
    case Leaf(kind, payload) => kind != DOCUMENT && kind != ARRAY && LeafSize(kind, payload) == Some(|payload|)
    case Document(fs) => WellFormedAll(fs)
    case Array(fs) => WellFormedAll(fs)
  }

  predicate WellFormedAll(fs: seq<Field>)
    decreases fs, 1
  {
    |DictBytes(fs)| < LIMIT && FieldsWellFormed(fs)
  }

  predicate FieldsWellFormed(fs: seq<Field>)
    decreases fs, 0
  {
    fs == [] || (FieldsWellFormed(fs[..|fs| - 1]) && FieldWellFormed(fs[|fs| - 1]))
  }

  predicate FieldWellFormed(f: Field)
    decreases f
  {
    0 !in f.key && WellFormed(f.value)
  }

  // ----- round trip -----

  lemma {:induction false} ZeroBehind(key: seq<Byte>, rest: seq<Byte>)
    requires 0 !in key
    ensures ZeroAt(key + [0] + rest) == Some(|key|)
  {
    if key != [] {
      ZeroBehind(key[1..], rest);
      assert (key + [0] + rest)[1..] == key[1..] + [0] + rest;
      assert key[0] in key;
    }
  }

  lemma HeadBack(kind: Byte, key: seq<Byte>, rest: seq<Byte>)
    requires 0 !in key
    ensures var b := [kind] + key + [0] + rest;
            ReadHead(b) == Some(Head(kind, key, |key| + 2)) && b[|key| + 2..] == rest
  {
    var b := [kind] + key + [0] + rest;
    ZeroBehind(key, rest);
    assert b[1..] == key + [0] + rest && b[1..|key| + 1] == key;
  }

  /** write_string writes any key, and read_cstring gives it back exactly when it has no zero in it. */
  lemma KeyBackIff(kind: Byte, key: seq<Byte>, rest: seq<Byte>)
    ensures var h := ReadHead([kind] + key + [0] + rest); h.Some? && (h.value.key == key <==> 0 !in key)
  {
    var b := [kind] + key + [0] + rest;
    if 0 !in key {
      HeadBack(kind, key, rest);
    } else {
      assert b[1..] == key + [0] + rest;
      FirstZero(key, [0] + rest);
      assert key + ([0] + rest) == key + [0] + rest;
    }
  }

  lemma {:induction false} FirstZero(key: seq<Byte>, rest: seq<Byte>)
    requires 0 in key
    ensures ZeroAt(key + rest).Some? && ZeroAt(key + rest).value < |key|
  {
    if key[0] != 0 {
      FirstZero(key[1..], rest);
      assert (key + rest)[1..] == key[1..] + rest;
    }
  }

  lemma LengthBack(n: nat, rest: seq<Byte>)
    requires n < LIMIT
    ensures Int32(Little(n, 4) + rest) == n
  {
    Powers();
    LittleRoundTrip(n, 4);
    assert (Little(n, 4) + rest)[..4] == Little(n, 4);
  }

  /** Unpacking reads exactly the bytes of a packed document, whatever follows, and gives its fields. */
  lemma {:induction false} DictRoundTrip(fs: seq<Field>, rest: seq<Byte>)
    requires WellFormedAll(fs)
    ensures UnpackDict(DictBytes(fs) + rest) == Some(Unpacked(fs, |DictBytes(fs)|))
    decreases fs, 1
  {
    hide UnpackFields, UnpackDict, FieldsBytes, FieldsWellFormed;
    var body := FieldsBytes(fs);
    UnpackNothing();
    FieldsRoundTrip(fs, []);
    assert body + [] == body && fs + [] == fs;
    DictAround(body, fs, rest);
  }

  lemma UnpackNothing()
    ensures UnpackFields([]) == Some([])
  {
  }

  lemma DictAround(body: seq<Byte>, fs: seq<Field>, rest: seq<Byte>)
    requires UnpackFields(body) == Some(fs) && |body| + 5 < LIMIT
    ensures UnpackDict(Little(4 + |body| + 1, 4) + body + [0] + rest) == Some(Unpacked(fs, |body| + 5))
  {
    hide UnpackFields, Int32;
    var n := |body| + 5;
    var b := Little(n, 4) + body + [0] + rest;
    LengthBack(n, body + [0] + rest);
    assert b == Little(n, 4) + (body + [0] + rest);
    assert b[4..n - 1] == body && b[n - 1] == 0;
  }

  lemma {:induction false} FieldsRoundTrip(fs: seq<Field>, more: seq<Byte>)
    requires FieldsWellFormed(fs) && UnpackFields(more).Some?
    ensures UnpackFields(FieldsBytes(fs) + more) == Some(fs + UnpackFields(more).value)
    decreases fs, 0
  {
    hide UnpackFields, FieldBytes, FieldWellFormed;
    if fs == [] {
      assert FieldsBytes(fs) + more == more;
      assert fs + UnpackFields(more).value == UnpackFields(more).value;
    } else {
      var front, last := fs[..|fs| - 1], fs[|fs| - 1];
      FieldRoundTrip(last, more);
      FieldsRoundTrip(front, FieldBytes(last) + more);
      assert FieldsBytes(front) + FieldBytes(last) + more == FieldsBytes(front) + (FieldBytes(last) + more);
      assert front + ([last] + UnpackFields(more).value) == fs + UnpackFields(more).value;
    }
  }

  lemma {:induction false} FieldRoundTrip(f: Field, more: seq<Byte>)
    requires FieldWellFormed(f) && UnpackFields(more).Some?
    ensures UnpackFields(FieldBytes(f) + more) == Some([f] + UnpackFields(more).value)
    decreases f
  {
    hide UnpackFields, UnpackValue;
    var bytes := ValueBytes(f.value);
    ValueRoundTrip(f.value, more);
    FieldAround(f, bytes, more);
  }

  lemma FieldAround(f: Field, bytes: seq<Byte>, more: seq<Byte>)
    requires 0 !in f.key && UnpackValue(KindOf(f.value), bytes + more) == Some(Unpacked(f.value, |bytes|))
    requires UnpackFields(more).Some?
    ensures UnpackFields([KindOf(f.value)] + f.key + [0] + bytes + more) == Some([f] + UnpackFields(more).value)
  {
    hide UnpackFields, UnpackValue, ReadHead;
    var b := [KindOf(f.value)] + f.key + [0] + (bytes + more);
    HeadBack(KindOf(f.value), f.key, bytes + more);
    assert b == [KindOf(f.value)] + f.key + [0] + bytes + more;
    assert b[|f.key| + 2 + |bytes|..] == more;
    OneField(b, Head(KindOf(f.value), f.key, |f.key| + 2), f.value, |bytes|);
  }

  lemma OneField(b: seq<Byte>, h: Head, v: Value, size: nat)
    requires b != [] && ReadHead(b) == Some(h) && UnpackValue(h.kind, b[h.start..]) == Some(Unpacked(v, size))
    ensures UnpackFields(b) == AddField(Field(h.key, v), UnpackFields(b[h.start + size..]))
  {
    hide UnpackValue, ReadHead;
  }

  lemma {:induction false} ValueRoundTrip(v: Value, more: seq<Byte>)
    requires WellFormed(v)
    ensures UnpackValue(KindOf(v), ValueBytes(v) + more) == Some(Unpacked(v, |ValueBytes(v)|))
    decreases v
  {
    hide UnpackDict, DictBytes, WellFormedAll;
    match v {
      case Leaf(kind, payload) => LeafRoundTrip(kind, payload, more);
      case Document(fs) => DictRoundTrip(fs, more);
      case Array(fs) => DictRoundTrip(fs, more);
    }
  }

  lemma LeafRoundTrip(kind: Byte, payload: seq<Byte>, more: seq<Byte>)
    requires kind != DOCUMENT && kind != ARRAY && LeafSize(kind, payload) == Some(|payload|)
    ensures UnpackValue(kind, payload + more) == Some(Unpacked(Leaf(kind, payload), |payload|))
  {
    hide LeafSize;
    assert payload[..|payload|] == payload && (payload + more)[..|payload|] == payload;
    LeafPrefix(kind, payload, payload + more, |payload|);
  }

  // ----- values of Lua -----

  /** append_number for an integer: 32 bits when it fits, else 64 */
  function IntegerLeaf(n: int): Value
    requires -0x8000_0000_0000_0000 <= n < 0x8000_0000_0000_0000
  {
    if -0x8000_0000 <= n < 0x8000_0000 then Leaf(INT32, Little(n % 0x1_0000_0000, 4))
    else Leaf(INT64, Little(n % 0x1_0000_0000_0000_0000, 8))
  }

  /** A string with its length, which counts the closing zero */
  function StringLeaf(s: seq<Byte>): Value
    requires |s| + 1 < LIMIT
  {
    Leaf(STRING, Little(|s| + 1, 4) + s + [0])
  }

  /** Binary data behind its subtype, which the length does not count */
  function BinaryLeaf(subtype: Byte, data: seq<Byte>): Value
    requires |data| < LIMIT
  {
    Leaf(BINARY, Little(|data|, 4) + ([subtype] + data))
  }

  lemma IntegerBack(n: int)
    requires -0x8000_0000_0000_0000 <= n < 0x8000_0000_0000_0000
    ensures WellFormed(IntegerLeaf(n)) && IntegerOf(IntegerLeaf(n)) == n
  {
    hide Little, FromLittle;
    Powers();
    if -0x8000_0000 <= n < 0x8000_0000 {
      LittleRoundTrip(n % 0x1_0000_0000, 4);
    } else {
      LittleRoundTrip(n % 0x1_0000_0000_0000_0000, 8);
    }
  }

  /** The text that unpack_dict makes of a string payload: the closing zero is left off. */
  function TextOf(v: Value): seq<Byte>
    requires v.Leaf? && |v.payload| >= 4 && 0 < Int32(v.payload) <= |v.payload| - 4
  {
    v.payload[4..4 + Int32(v.payload) - 1]
  }

  /** A string field is read with its own size, and its text comes back. */
  lemma StringBack(s: seq<Byte>)
    requires |s| + 1 < LIMIT
    ensures WellFormed(StringLeaf(s)) && Int32(StringLeaf(s).payload) == |s| + 1 && TextOf(StringLeaf(s)) == s
  {
    LengthBack(|s| + 1, s + [0]);
    var p := StringLeaf(s).payload;
    assert p == Little(|s| + 1, 4) + (s + [0]);
    assert p[4..4 + |s|] == s;
  }

  /** A binary field is read with its own size, and its subtype and data come back. */
  lemma BinaryBack(subtype: Byte, data: seq<Byte>)
    requires |data| < LIMIT
    ensures WellFormed(BinaryLeaf(subtype, data))
    ensures var p := BinaryLeaf(subtype, data).payload; Int32(p) == |data| && p[4] == subtype && p[5..5 + Int32(p)] == data
  {
    LengthBack(|data|, [subtype] + data);
    var p := BinaryLeaf(subtype, data).payload;
    assert p[4..] == [subtype] + data;
    assert p[5..] == data;
  }

  /** A date: seconds in 32 bits, written as milliseconds in 64 */
  function DateLeaf(seconds: nat): Value
    requires seconds < 0x1_0000_0000
  {
    Leaf(DATE, Little(seconds * 1000, 8))
  }

  lemma DateBack(seconds: nat)
    requires seconds < 0x1_0000_0000
    ensures WellFormed(DateLeaf(seconds)) && FromLittle(DateLeaf(seconds).payload) / 1000 == seconds
  {
    hide Little, FromLittle;
    Powers();
    LittleRoundTrip(seconds * 1000, 8);
  }

  /** A timestamp: an increment and a time, of 32 bits each */
  function TimestampLeaf(inc: nat, ts: nat): Value {
    Leaf(TIMESTAMP, Little(inc, 4) + Little(ts, 4))
  }

  lemma TimestampBack(inc: nat, ts: nat)
    requires inc < 0x1_0000_0000 && ts < 0x1_0000_0000
    ensures WellFormed(TimestampLeaf(inc, ts))
    ensures var p := TimestampLeaf(inc, ts).payload; FromLittle(p[..4]) == inc && FromLittle(p[4..]) == ts
  {
    Powers();
    LittleRoundTrip(inc, 4);
    LittleRoundTrip(ts, 4);
    var p := TimestampLeaf(inc, ts).payload;
    assert p[..4] == Little(inc, 4) && p[4..] == Little(ts, 4);
  }

  /** A regular expression: pattern and options, each with a closing zero */
  function RegexLeaf(pattern: seq<Byte>, options: seq<Byte>): Value {
    Leaf(REGEX, pattern + [0] + (options + [0]))
  }

  lemma RegexBack(pattern: seq<Byte>, options: seq<Byte>)
    requires 0 !in pattern && 0 !in options
    ensures WellFormed(RegexLeaf(pattern, options))
    ensures var p := RegexLeaf(pattern, options).payload;
            && ZeroAt(p) == Some(|pattern|) && p[..|pattern|] == pattern
            && ZeroAt(p[|pattern| + 1..]) == Some(|options|) && p[|pattern| + 1..][..|options|] == options
  {
    var p := RegexLeaf(pattern, options).payload;
    ZeroBehind(pattern, options + [0]);
    ZeroBehind(options, []);
    assert options + [0] + [] == options + [0];
    assert p[|pattern| + 1..] == options + [0];
  }

  // ----- the depth limit -----

  predicate Fits(v: Value, depth: nat)
    decreases v
  {
    v.Leaf? || (depth + 1 <= MAX_DEPTH && FitsAll(v.fields, depth + 1))
  }

  predicate FitsAll(fs: seq<Field>, depth: nat)
    decreases fs
  {
    fs == [] || (FitsAll(fs[..|fs| - 1], depth) && FitsField(fs[|fs| - 1], depth))
  }

  predicate FitsField(f: Field, depth: nat)
    decreases f
  {
    Fits(f.value, depth)
  }

  // ----- the buffer -----

  /** struct bson */
  class Buffer {
    var size: nat
    var cap: nat
    var ptr: array<Byte>

    ghost predicate Valid()
      reads this
    {
      size <= cap == ptr.Length && cap > 0
    }

    ghost function Contents(): (r: seq<Byte>)
      requires Valid()
      ensures |r| == size
      reads this, ptr
    {
      ptr[..size]
    }

    /** bson_create */
    constructor ()
      ensures Valid() && Contents() == [] && fresh(ptr)
    {
      size, cap := 0, DEFAULT_CAP;
      ptr := new Byte[DEFAULT_CAP](_ => 0);
    }

    /** bson_reserve */
    method Reserve(sz: nat)
      requires Valid()
      modifies this`cap, this`ptr
      ensures Valid() && size + sz <= cap && Contents() == old(Contents())
      ensures ptr == old(ptr) || fresh(ptr)
    {
      if size + sz <= cap {
        return;
      }
      var n := cap * 2;
      while n <= size + sz
        invariant n >= cap && n > 0
        decreases size + sz - n
      {
        n := n * 2;
      }
      var bigger := new Byte[n](_ => 0);
      forall i | 0 <= i < size {
        bigger[i] := ptr[i];
      }
      assert bigger[..size] == ptr[..size];
      cap, ptr := n, bigger;
    }

    /** Bytes behind what is there: write_byte, write_int32, write_int64, write_double and the memcpys */
    method Write(p: seq<Byte>)
      requires Valid()
      modifies this, ptr
      ensures Valid() && Contents() == old(Contents()) + p
      ensures ptr == old(ptr) || fresh(ptr)
    {
      Reserve(|p|);
      ghost var was := Contents();
      forall i | 0 <= i < |p| {
        ptr[size + i] := p[i];
      }
      size := size + |p|;
      assert ptr[..size] == was + p;
    }

    /** reserve_length: four bytes that are filled in later */
    method ReserveLength() returns (off: nat)
      requires Valid()
      modifies this, ptr
      ensures Valid() && off == old(size) && size == off + 4 && Contents()[..off] == old(Contents())
      ensures ptr == old(ptr) || fresh(ptr)
    {
      off := size;
      Reserve(4);
      size := size + 4;
      assert ptr[..size][..off] == ptr[..off];
    }

    /** write_length */
    method WriteLength(v: nat, off: nat)
      requires Valid() && v < LIMIT && off + 4 <= size
      modifies ptr
      ensures Valid() && Contents() == old(Contents())[..off] + Little(v, 4) + old(Contents())[off + 4..]
    {
      hide Little;
      ghost var was := Contents();
      var b := Little(v, 4);
      forall i | 0 <= i < 4 {
        ptr[off + i] := b[i];
      }
      assert Contents() == was[..off] + b + was[off + 4..];
    }

    /** append_key */
    method AppendKey(kind: Byte, key: seq<Byte>)
      requires Valid()
      modifies this, ptr
      ensures Valid() && Contents() == old(Contents()) + ([kind] + key + [0])
      ensures ptr == old(ptr) || fresh(ptr)
    {
      ghost var was := Contents();
      Write([kind]);
      Write(key);
      Write([0]);
      assert was + [kind] + key + [0] == was + ([kind] + key + [0]);
    }

    /** The strings of append_one: the length is filled in behind the text. */
    method AppendString(key: seq<Byte>, s: seq<Byte>)
      requires Valid() && |s| + 1 < LIMIT
      modifies this, ptr
      ensures Valid() && Contents() == old(Contents()) + FieldBytes(Field(key, StringLeaf(s)))
      ensures ptr == old(ptr) || fresh(ptr)
    {
      hide Little, Buffer.Contents;
      ghost var was := Contents();
      AppendKey(STRING, key);
      ghost var head := [STRING] + key + [0];
      var off := ReserveLength();
      ghost var gap := Contents()[off..];
      Write(s);
      Write([0]);
      assert Contents() == was + head + gap + (s + [0]);
      WriteLength(|s| + 1, off);
      Patched(was + head, gap, Little(|s| + 1, 4), s + [0]);
      assert was + head + Little(|s| + 1, 4) + (s + [0]) == was + (head + (Little(|s| + 1, 4) + s + [0]));
    }

    /** write_binary: the data with its subtype, and the length without it */
    method AppendBinary(key: seq<Byte>, subtype: Byte, data: seq<Byte>)
      requires Valid() && |data| < LIMIT
      modifies this, ptr
      ensures Valid() && Contents() == old(Contents()) + FieldBytes(Field(key, BinaryLeaf(subtype, data)))
      ensures ptr == old(ptr) || fresh(ptr)
    {
      hide Little, Buffer.Contents;
      ghost var was := Contents();
      AppendKey(BINARY, key);
      ghost var head := [BINARY] + key + [0];
      var off := ReserveLength();
      ghost var gap := Contents()[off..];
      var all := [subtype] + data;
      Write(all);
      assert Contents() == was + head + gap + all;
      WriteLength(|all| - 1, off);
      Patched(was + head, gap, Little(|data|, 4), all);
      assert was + head + Little(|data|, 4) + all == was + (head + (Little(|data|, 4) + all));
    }

    /** append_one and append_table; false is an error. */
    method AppendOne(key: seq<Byte>, v: Value, depth: nat) returns (ok: bool)
      requires Valid() && WellFormed(v)
      modifies this, ptr
      ensures Valid() && ok == Fits(v, depth) && (ptr == old(ptr) || fresh(ptr))
      ensures ok ==> Contents() == old(Contents()) + FieldBytes(Field(key, v))
      decreases v
    {
      hide Buffer.Contents, DictBytes, WellFormedAll, FitsAll;
      ghost var was := Contents();
      if !v.Leaf? && depth + 1 > MAX_DEPTH {
        return false;
      }
      AppendKey(KindOf(v), key);
      ghost var head := [KindOf(v)] + key + [0];
      match v {
        case Leaf(_, payload) =>
          Write(payload);
          ok := true;
        case Document(fs) => ok := PackDict(fs, depth + 1);
        case Array(fs) => ok := PackDict(fs, depth + 1);
      }
      if ok {
        assert was + head + ValueBytes(v) == was + (head + ValueBytes(v));
      }
    }

    /** pack_simple_dict, pack_ordered_dict and pack_array: the length is filled in at the end. */
    method PackDict(fs: seq<Field>, depth: nat) returns (ok: bool)
      requires Valid() && WellFormedAll(fs)
      modifies this, ptr
      ensures Valid() && ok == FitsAll(fs, depth) && (ptr == old(ptr) || fresh(ptr))
      ensures ok ==> Contents() == old(Contents()) + DictBytes(fs)
      decreases fs, 1
    {
      hide Buffer.Contents, FitsAll, FieldsWellFormed, FieldsBytes, Little;
      ghost var was := Contents();
      var off := ReserveLength();
      ghost var gap := Contents()[off..];
      assert Contents() == was + gap;
      ok := PackFields(fs, depth);
      if !ok {
        return;
      }
      ghost var body := FieldsBytes(fs);
      Write([0]);
      assert Contents() == was + gap + (body + [0]);
      WriteLength(size - off, off);
      Patched(was, gap, Little(4 + |body| + 1, 4), body + [0]);
      assert was + Little(4 + |body| + 1, 4) + (body + [0]) == was + (Little(4 + |body| + 1, 4) + body + [0]);
    }

    /** The loop over the entries */
    method PackFields(fs: seq<Field>, depth: nat) returns (ok: bool)
      requires Valid() && FieldsWellFormed(fs)
      modifies this, ptr
      ensures Valid() && ok == FitsAll(fs, depth) && (ptr == old(ptr) || fresh(ptr))
      ensures ok ==> Contents() == old(Contents()) + FieldsBytes(fs)
      decreases fs, 0
    {
      hide Buffer.Contents, FitsAll, FieldsWellFormed, FieldsBytes, FieldBytes, FieldWellFormed;
      ghost var was := Contents();
      FieldsNone(depth);
      assert was + [] == was && fs[..0] == [];
      for k := 0 to |fs|
        invariant Valid() && (ptr == old(ptr) || fresh(ptr)) && FitsAll(fs[..k], depth)
        invariant Contents() == was + FieldsBytes(fs[..k])
      {
        FieldsNext(fs, k, depth);
        ok := PackField(fs[k], depth);
        if !ok {
          return;
        }
        assert was + FieldsBytes(fs[..k]) + FieldBytes(fs[k]) == was + (FieldsBytes(fs[..k]) + FieldBytes(fs[k]));
      }
      assert fs[..|fs|] == fs;
      ok := true;
    }

    method PackField(f: Field, depth: nat) returns (ok: bool)
      requires Valid() && FieldWellFormed(f)
      modifies this, ptr
      ensures Valid() && ok == FitsField(f, depth) && (ptr == old(ptr) || fresh(ptr))
      ensures ok ==> Contents() == old(Contents()) + FieldBytes(f)
      decreases f
    {
      hide Buffer.Contents, FieldBytes;
      ok := AppendOne(f.key, f.value, depth);
    }
  }

  /** Filling in a gap */
  lemma Patched(a: seq<Byte>, gap: seq<Byte>, length: seq<Byte>, b: seq<Byte>)
    requires |gap| == |length| == 4
    ensures var all := a + gap + b; all[..|a|] + length + all[|a| + 4..] == a + length + b
  {
  }

  lemma FieldsNone(depth: nat)
    ensures FieldsBytes([]) == [] && FitsAll([], depth)
  {
  }

  lemma FieldsNext(fs: seq<Field>, k: nat, depth: nat)
    requires k < |fs| && FieldsWellFormed(fs)
    ensures FieldWellFormed(fs[k])
    ensures FieldsBytes(fs[..k + 1]) == FieldsBytes(fs[..k]) + FieldBytes(fs[k])
    ensures FitsAll(fs[..k + 1], depth) <==> FitsAll(fs[..k], depth) && FitsField(fs[k], depth)
    ensures FitsAll(fs, depth) ==> FitsField(fs[k], depth)
  {
    hide FieldBytes, FieldWellFormed, FitsField;
    assert fs[..k + 1][..k] == fs[..k] && fs[..k + 1][k] == fs[k];
    FieldsAt(fs, k, depth);
  }

  lemma {:induction false} FieldsAt(fs: seq<Field>, k: nat, depth: nat)
    requires k < |fs| && FieldsWellFormed(fs)
    ensures FieldWellFormed(fs[k]) && (FitsAll(fs, depth) ==> FitsField(fs[k], depth))
  {
    hide FieldWellFormed, FitsField;
    if k < |fs| - 1 {
      FieldsAt(fs[..|fs| - 1], k, depth);
    }
  }

  /** lencode and lencode_order: the packed document, and what unpacking makes of it */
  method Encode(fs: seq<Field>) returns (r: Option<seq<Byte>>)
    requires WellFormedAll(fs)
    ensures r.Some? <==> FitsAll(fs, 0)
    ensures r.Some? ==> r.value == DictBytes(fs) && UnpackDict(r.value) == Some(Unpacked(fs, |r.value|))
  {
    hide DictBytes, WellFormedAll, FitsAll, UnpackDict;
    var b := new Buffer();
    var ok := b.PackDict(fs, 0);
    if !ok {
      return None;
    }
    assert [] + DictBytes(fs) == DictBytes(fs) && DictBytes(fs) + [] == DictBytes(fs);
    DictRoundTrip(fs, []);
    return Some(b.ptr[..b.size]);
  }
}
