/**
  The index of lmakeindex and the update in place of lreplace: an indexed field is overwritten where
  unpack_dict reads it, so the document afterwards differs in this field alone.
 */
module BsonIndex {
  import opened Common
  import opened LittleEndian
  import opened Bson

  const TYPE_SHIFT := 32  // 1 << BSON_TYPE_SHIFT

  type Key = seq<Byte>

  // ----- overwriting -----

  function Patch(b: seq<Byte>, at: nat, p: seq<Byte>): (r: seq<Byte>)
    requires at + |p| <= |b|
    ensures |r| == |b|
  {
    b[..at] + p + b[at + |p|..]
  }

  lemma PatchParts(b: seq<Byte>, at: nat, p: seq<Byte>, n: nat)
    requires at + |p| <= |b| && n <= at
    ensures SameStart(b, Patch(b, at, p), n)
    ensures Patch(b, at, p)[n..] == Patch(b[n..], at - n, p)
  {
    assert Patch(b, at, p)[..n] == b[..n];
    assert b[n..][..at - n] == b[n..at];
  }

  /** The types in the index have payloads of a fixed size, whatever their bytes are. */
  lemma FixedLeaf(kind: Byte, b: seq<Byte>)
    requires FieldSize(kind) > 0 && |b| >= FieldSize(kind)
    ensures UnpackValue(kind, b) == Some(Unpacked(Leaf(kind, b[..FieldSize(kind)]), FieldSize(kind)))
    ensures kind < 32
  {
  }

  /** A field with a new payload */
  function WithPayload(fs: seq<Field>, i: nat, kind: Byte, p: seq<Byte>): seq<Field>
    requires i < |fs|
  {
    fs[i := Field(fs[i].key, Leaf(kind, p))]
  }

  /** Overwriting the payload of the `i`th field changes this field and no other. */
  lemma {:induction false} PatchFields(b: seq<Byte>, at: nat, i: nat, p: seq<Byte>)
    requires UnpackFields(b).Some? && Marks(b, at).Some? && i < |Marks(b, at).value| == |UnpackFields(b).value|
    requires |p| == FieldSize(Marks(b, at).value[i].kind) > 0
    ensures var m := Marks(b, at).value[i];
            && at <= m.at && m.at - at + |p| <= |b|
            && var b' := Patch(b, m.at - at, p);
               && UnpackFields(b') == Some(WithPayload(UnpackFields(b).value, i, m.kind, p))
               && Marks(b', at) == Marks(b, at)
    decreases i
  {
    hide UnpackFields, Marks, UnpackValue, ReadHead;
    WalkNothing(at);
    if b != [] {
      WalkStep(b, at);
      var h := ReadHead(b).value;
      if i == 0 {
        PatchFirst(b, at, h, p);
      } else {
        var n := h.start + UnpackValue(h.kind, b[h.start..]).value.size;
        WalksAgree(b[n..], at + n);
        PatchFields(b[n..], at + n, i - 1, p);
        var m := Marks(b, at).value[i];
        assert m == Marks(b[n..], at + n).value[i - 1];
        PatchLater(b, at, h, n, m.at - at, p);
        var fs, more := UnpackFields(b).value, UnpackFields(b[n..]).value;
        assert [fs[0]] + WithPayload(more, i - 1, m.kind, p) == WithPayload(fs, i, m.kind, p);
      }
    }
  }

  lemma FieldsAgain(b: seq<Byte>, h: Head, v: Unpacked<Value>)
    requires b != [] && ReadHead(b) == Some(h) && UnpackValue(h.kind, b[h.start..]) == Some(v)
    ensures UnpackFields(b) == AddField(Field(h.key, v.value), UnpackFields(b[h.start + v.size..]))
  {
    hide UnpackValue, ReadHead;
  }

  lemma PatchFirst(b: seq<Byte>, at: nat, h: Head, p: seq<Byte>)
    requires b != [] && UnpackFields(b).Some? && ReadHead(b) == Some(h) && |p| == FieldSize(h.kind) > 0
    ensures h.start + |p| <= |b|
    ensures UnpackFields(Patch(b, h.start, p)) == Some(WithPayload(UnpackFields(b).value, 0, h.kind, p))
    ensures Marks(Patch(b, h.start, p), at) == Marks(b, at)
  {
    hide UnpackFields, UnpackValue, ReadHead, Marks, Patch, SameStart;
    WalkStep(b, at);
    FirstFits(h.kind, b[h.start..]);
    FixedLeaf(h.kind, b[h.start..]);
    var c := Patch(b, h.start, p);
    PatchParts(b, h.start, p, h.start);
    HeadPrefix(b, c);
    FixedLeaf(h.kind, c[h.start..]);
    PatchedBytes(b, h.start, p);
    FieldsAgain(c, h, Unpacked(Leaf(h.kind, p), |p|));
    WalkStep(c, at);
    var fs, more := UnpackFields(b).value, UnpackFields(b[h.start + |p|..]).value;
    assert [Field(fs[0].key, Leaf(h.kind, p))] + more == WithPayload(fs, 0, h.kind, p);
  }

  lemma PatchedBytes(b: seq<Byte>, at: nat, p: seq<Byte>)
    requires at + |p| <= |b|
    ensures var c := Patch(b, at, p); c[at..][..|p|] == p && c[at + |p|..] == b[at + |p|..]
  {
  }

  lemma FirstFits(kind: Byte, b: seq<Byte>)
    requires FieldSize(kind) > 0 && UnpackValue(kind, b).Some?
    ensures |b| >= FieldSize(kind)
  {
  }

  lemma PatchLater(b: seq<Byte>, from: nat, h: Head, n: nat, at: nat, p: seq<Byte>)
    requires b != [] && UnpackFields(b).Some? && ReadHead(b) == Some(h)
    requires UnpackValue(h.kind, b[h.start..]).Some? && n == h.start + UnpackValue(h.kind, b[h.start..]).value.size
    requires n <= at && at + |p| <= |b| && UnpackFields(Patch(b[n..], at - n, p)).Some?
    ensures UnpackFields(Patch(b, at, p)) == Some([UnpackFields(b).value[0]] + UnpackFields(Patch(b[n..], at - n, p)).value)
    ensures Marks(Patch(b[n..], at - n, p), from + n) == Marks(b[n..], from + n) ==> Marks(Patch(b, at, p), from) == Marks(b, from)
  {
    hide UnpackFields, UnpackValue, ReadHead, Marks, Patch;
    WalkStep(b, from);
    var c := Patch(b, at, p);
    PatchParts(b, at, p, n);
    SameStartAt(b, c, n, h.start);
    HeadPrefix(b, c);
    ValuePrefix(h.kind, b[h.start..], c[h.start..]);
    FieldsAgain(c, h, UnpackValue(h.kind, b[h.start..]).value);
    WalkStep(c, from);
  }

  // ----- documents -----

  /** A document that fills its bytes, with these fields */
  ghost predicate IsDocument(d: seq<Byte>, fs: seq<Field>) {
    UnpackDict(d) == Some(Unpacked(fs, |d|))
  }

  function Body(d: seq<Byte>): seq<Byte>
    requires |d| >= 5
  {
    d[4..|d| - 1]
  }

  lemma DocumentParts(d: seq<Byte>, fs: seq<Field>)
    requires IsDocument(d, fs)
    ensures |d| >= 5 && UnpackFields(Body(d)) == Some(fs) && Int32(d) == |d|
  {
  }

  lemma PatchBody(d: seq<Byte>, at: nat, p: seq<Byte>)
    requires |d| >= 5 && 4 <= at && at + |p| <= |d| - 1
    ensures var d' := Patch(d, at, p);
            Body(d') == Patch(Body(d), at - 4, p) && Int32(d') == Int32(d) && d'[|d| - 1] == d[|d| - 1]
  {
    var d' := Patch(d, at, p);
    assert d'[..4] == d[..4];
  }

  /** Overwriting the payload of an indexed field of a document changes this field and no other. */
  lemma PatchDocument(d: seq<Byte>, fs: seq<Field>, i: nat, p: seq<Byte>)
    requires IsDocument(d, fs) && |d| >= 5 && Marks(Body(d), 4).Some? && i < |Marks(Body(d), 4).value|
    requires |p| == FieldSize(Marks(Body(d), 4).value[i].kind) > 0
    ensures var m := Marks(Body(d), 4).value[i];
            && i < |fs| && m.at + |p| <= |d|
            && IsDocument(Patch(d, m.at, p), WithPayload(fs, i, m.kind, p))
            && Marks(Body(Patch(d, m.at, p)), 4) == Marks(Body(d), 4)
  {
    hide UnpackFields, Marks, Patch, Int32, Body;
    DocumentParts(d, fs);
    BodySize(d);
    WalksAgree(Body(d), 4);
    PatchFields(Body(d), 4, i, p);
    var m := Marks(Body(d), 4).value[i];
    PatchBody(d, m.at, p);
    Document(Patch(d, m.at, p), WithPayload(fs, i, m.kind, p), d);
  }

  lemma BodySize(d: seq<Byte>)
    requires |d| >= 5
    ensures |Body(d)| == |d| - 5
  {
  }

  lemma Document(d': seq<Byte>, fs: seq<Field>, d: seq<Byte>)
    requires UnpackDict(d).Some? && |d'| == |d| >= 5 && Int32(d') == |d'| && d'[|d'| - 1] == 0
    requires UnpackFields(Body(d')) == Some(fs)
    ensures IsDocument(d', fs)
  {
    hide UnpackFields;
  }

  // ----- the index -----

  /** The number that stands for a type and an offset: an int of 32 bits */
  function Id(kind: Byte, at: nat): int {
    Signed((kind as int + TYPE_SHIFT * at) % 0x1_0000_0000, 0x1_0000_0000)
  }

  function TypeOf(id: int): Byte {
    id % TYPE_SHIFT
  }

  function OffsetOf(id: int): int {
    id / TYPE_SHIFT
  }

  /** The type comes back, and the offset exactly when it is below 2^26. */
  lemma IdRoundTrip(kind: Byte, at: nat)
    requires kind < 32
    ensures TypeOf(Id(kind, at)) == kind
    ensures OffsetOf(Id(kind, at)) == at <==> at < 0x400_0000
    ensures OffsetOf(Id(kind, at)) <= at
  {
    var low := at % 0x800_0000;
    IdWraps(kind, at);
    var offset := if low < 0x400_0000 then low else low - 0x800_0000;
    assert Id(kind, at) == kind as int + TYPE_SHIFT * offset;
    Shifted(kind, offset);
  }

  /** An offset is kept modulo 2^27. */
  lemma IdWraps(kind: int, at: nat)
    requires 0 <= kind < 32
    ensures (kind + 32 * at) % 0x1_0000_0000 == kind + 32 * (at % 0x800_0000)
  {
    var q := at / 0x800_0000;
    assert at == q * 0x800_0000 + at % 0x800_0000;
    assert kind + 32 * at == q * 0x1_0000_0000 + (kind + 32 * (at % 0x800_0000));
  }

  lemma Shifted(kind: int, offset: int)
    requires 0 <= kind < 32
    ensures (kind + 32 * offset) % 32 == kind && (kind + 32 * offset) / 32 == offset
  {
  }

  /** The table that lmakeindex fills; of two fields with the same key the later one counts. */
  function IndexOf(ms: seq<Mark>): map<Key, int> {
    if ms == [] then map[]
    else
      var m := ms[|ms| - 1];
      var before := IndexOf(ms[..|ms| - 1]);
      if FieldSize(m.kind) > 0 then before[m.key := Id(m.kind, m.at)] else before
  }

  lemma {:induction false} IndexComplete(ms: seq<Mark>, i: nat)
    requires i < |ms| && FieldSize(ms[i].kind) > 0
    ensures ms[i].key in IndexOf(ms)
  {
    if i < |ms| - 1 {
      IndexComplete(ms[..|ms| - 1], i);
    }
  }

  /** lmakeindex; None is an error. */
  method MakeIndex(doc: seq<Byte>) returns (r: Option<map<Key, int>>)
    requires |doc| >= 5 && Int32(doc) == |doc|
    ensures var ms := Marks(Body(doc), 4); r == if ms.None? then None else Some(IndexOf(ms.value))
  {
    hide Marks, Extent, ReadHead;
    var b: seq<Byte>, at: nat := Body(doc), 4;
    var index: map<Key, int> := map[];
    ghost var done: seq<Mark> := [];
    PrependNone(Marks(b, at));
    while b != []
      invariant Marks(Body(doc), 4) == Prepend(done, Marks(b, at)) && index == IndexOf(done)
      decreases |b|
    {
      MarksStep(b, at);
      var h := ReadHead(b);
      if h.None? {
        return None;
      }
      var n := Extent(h.value.kind, b[h.value.start..]);
      if n.None? {
        return None;
      }
      var m := Mark(h.value.kind, h.value.key, at + h.value.start);
      IndexMore(done, m);
      if FieldSize(m.kind) > 0 {
        index := index[m.key := Id(m.kind, m.at)];
      }
      PrependMore(done, m, Marks(b[h.value.start + n.value..], at + h.value.start + n.value));
      done := done + [m];
      b, at := b[h.value.start + n.value..], at + h.value.start + n.value;
    }
    WalkNothing(at);
    assert done + [] == done;
    return Some(index);
  }

  lemma MarksStep(b: seq<Byte>, at: nat)
    requires b != []
    ensures var h := ReadHead(b);
            Marks(b, at) ==
              if h.None? then None
              else
                var n := Extent(h.value.kind, b[h.value.start..]);
                if n.None? then None
                else AddMark(Mark(h.value.kind, h.value.key, at + h.value.start),
                             Marks(b[h.value.start + n.value..], at + h.value.start + n.value))
  {
    hide Extent, ReadHead;
  }

  function Prepend(ms: seq<Mark>, more: Option<seq<Mark>>): Option<seq<Mark>> {
    if more.None? then None else Some(ms + more.value)
  }

  lemma PrependNone(more: Option<seq<Mark>>)
    ensures Prepend([], more) == more
  {
    if more.Some? {
      assert [] + more.value == more.value;
    }
  }

  lemma PrependMore(ms: seq<Mark>, m: Mark, more: Option<seq<Mark>>)
    ensures Prepend(ms, AddMark(m, more)) == Prepend(ms + [m], more)
  {
    if more.Some? {
      assert ms + ([m] + more.value) == ms + [m] + more.value;
    }
  }

  lemma IndexMore(ms: seq<Mark>, m: Mark)
    ensures IndexOf(ms + [m]) == if FieldSize(m.kind) > 0 then IndexOf(ms)[m.key := Id(m.kind, m.at)] else IndexOf(ms)
  {
    assert (ms + [m])[..|ms|] == ms;
  }

  // ----- lreplace -----

  /**
    The new value: nil; a number as a double, with the integer when it is one; a boolean; or an
    object, a string of a zero, a type and data.
   */
  datatype Input = Nil | Number(bits: seq<Byte>, integer: Option<int>) | Boolean(b: bool) | Object(kind: Byte, data: seq<Byte>)

  predicate InputOk(v: Input) {
    v.Number? ==>
      && |v.bits| == 8
      && (v.integer.Some? ==> -0x8000_0000_0000_0000 <= v.integer.value < 0x8000_0000_0000_0000)
  }

  /** lua_toboolean */
  predicate Truth(v: Input) {
    !v.Nil? && (v.Boolean? ==> v.b)
  }

  /** The value can be given to a field of this type. */
  predicate Fits(kind: Byte, v: Input) {
    || (kind == 1 && v.Number?)
    || kind == 8
    || ((kind == 16 || kind == 18) && v.Number? && v.integer.Some?)
    || (v.Object? && v.kind == kind && ((kind == 7 && |v.data| == 12) || (kind == 9 && |v.data| == 4) || (kind == 17 && |v.data| == 8)))
  }

  /** What unpack_dict reads from the payload is the value. An integer is cut to the 32 bits of its field. */
  predicate ReadsAs(kind: Byte, p: seq<Byte>, v: Input)
    requires |p| == FieldSize(kind) > 0 && Fits(kind, v)
  {
    if kind == BOOLEAN then (p[0] != 0) == Truth(v)
    else if kind == REAL then p == v.bits
    else if kind == INT64 then IntegerOf(Leaf(kind, p)) == v.integer.value
    else if kind == INT32 then
      && (IntegerOf(Leaf(kind, p)) - v.integer.value) % 0x1_0000_0000 == 0
      && (-0x8000_0000 <= v.integer.value < 0x8000_0000 ==> IntegerOf(Leaf(kind, p)) == v.integer.value)
    else if kind == DATE then FromLittle(p) == FromLittle(v.data) * 1000
    else p == v.data
  }

  lemma IntegersBack(v: Input)
    requires InputOk(v) && v.Number? && v.integer.Some?
    ensures var n := v.integer.value;
            && ReadsAs(INT32, Little(n % 0x1_0000_0000, 4), v)
            && ReadsAs(INT64, Little(n % 0x1_0000_0000_0000_0000, 8), v)
  {
    hide Little, FromLittle;
    Powers();
    var n := v.integer.value;
    LittleRoundTrip(n % 0x1_0000_0000, 4);
    LittleRoundTrip(n % 0x1_0000_0000_0000_0000, 8);
  }

  lemma DatesBack(v: Input)
    requires v.Object? && v.kind == DATE && |v.data| == 4
    ensures FromLittle(Little(FromLittle(v.data) * 1000, 8)) == FromLittle(v.data) * 1000
  {
    hide Little, FromLittle;
    Powers();
    FromLittleBound(v.data);
    LittleRoundTrip(FromLittle(v.data) * 1000, 8);
  }

  /** The payload that lreplace writes for a field of this type; None is an error. */
  function PayloadFor(kind: Byte, v: Input): (r: Option<seq<Byte>>)
    requires InputOk(v)
    ensures r.Some? <==> Fits(kind, v)
    ensures r.Some? ==> |r.value| == FieldSize(kind) > 0 && ReadsAs(kind, r.value, v)
  {
    if kind == REAL then if v.Number? then Some(v.bits) else None
    else if kind == BOOLEAN then Some([if Truth(v) then 1 else 0])
    else if kind == OBJECTID then if v.Object? && v.kind == kind && |v.data| == 12 then Some(v.data) else None
    else if kind == DATE then
      if v.Object? && v.kind == kind && |v.data| == 4 then DatesBack(v); Some(Little(FromLittle(v.data) * 1000, 8)) else None
    else if kind == TIMESTAMP then if v.Object? && v.kind == kind && |v.data| == 8 then Some(v.data) else None
    else if kind == INT32 then
      if v.Number? && v.integer.Some? then IntegersBack(v); Some(Little(v.integer.value % 0x1_0000_0000, 4)) else None
    else if kind == INT64 then
      if v.Number? && v.integer.Some? then IntegersBack(v); Some(Little(v.integer.value % 0x1_0000_0000_0000_0000, 8)) else None
    else None
  }

  /** The index belongs to the document. */
  ghost predicate Indexes(index: map<Key, int>, d: seq<Byte>) {
    |d| >= 5 && Marks(Body(d), 4).Some? && index == IndexOf(Marks(Body(d), 4).value)
  }

  /** The mark that an entry of the index was made from: the last one of a fixed size with the key */
  function MarkOf(ms: seq<Mark>, key: Key): (i: nat)
    requires key in IndexOf(ms)
    ensures i < |ms| && ms[i].key == key && FieldSize(ms[i].kind) > 0
    ensures IndexOf(ms)[key] == Id(ms[i].kind, ms[i].at)
    ensures forall j :: i < j < |ms| && ms[j].key == key ==> FieldSize(ms[j].kind) == 0
  {
    var m := ms[|ms| - 1];
    if FieldSize(m.kind) > 0 && m.key == key then |ms| - 1 else MarkOf(ms[..|ms| - 1], key)
  }

  /** The field that an entry of the index stands for, by its place among the fields */
  ghost function FieldOf(d: seq<Byte>, index: map<Key, int>, key: Key): nat
    requires Indexes(index, d) && key in index
  {
    MarkOf(Marks(Body(d), 4).value, key)
  }

  /** Where the payload of that field starts */
  ghost function OffsetIn(d: seq<Byte>, index: map<Key, int>, key: Key): nat
    requires Indexes(index, d) && key in index
  {
    Marks(Body(d), 4).value[FieldOf(d, index, key)].at
  }

  /**
    An entry of the index gives the type of a field that unpack_dict reads for the key, and it gives
    its place exactly when the field starts below offset 2^26.
   */
  lemma EntryIsField(d: seq<Byte>, fs: seq<Field>, index: map<Key, int>, key: Key)
    requires IsDocument(d, fs) && Indexes(index, d) && key in index
    ensures var i, at, kind := FieldOf(d, index, key), OffsetIn(d, index, key), TypeOf(index[key]);
            && i < |fs| && fs[i].key == key
            && FieldSize(kind) > 0 && 4 <= at && at + FieldSize(kind) < |d|
            && fs[i].value == Leaf(kind, d[at..at + FieldSize(kind)])
            && Marks(Body(d), 4).value[i] == Mark(kind, key, at)
            && (OffsetOf(index[key]) == at <==> at < 0x400_0000)
            && OffsetOf(index[key]) <= at
  {
    hide UnpackFields, Marks, IndexOf;
    DocumentParts(d, fs);
    WalksAgree(Body(d), 4);
    var ms := Marks(Body(d), 4).value;
    var i := FieldOf(d, index, key);
    var m := ms[i];
    assert Marked(Body(d), 4, m, fs[i]);
    MarkedLeaf(d, m, fs[i]);
    IdRoundTrip(m.kind, m.at);
  }

  lemma MarkedLeaf(d: seq<Byte>, m: Mark, f: Field)
    requires |d| >= 5 && Marked(Body(d), 4, m, f) && FieldSize(m.kind) > 0
    ensures m.kind < 32 && m.at + FieldSize(m.kind) < |d|
    ensures f.value == Leaf(m.kind, d[m.at..m.at + FieldSize(m.kind)])
  {
    var b := Body(d)[m.at - 4..];
    hide UnpackValue;
    FirstFits(m.kind, b);
    FixedLeaf(m.kind, b);
    assert b[..FieldSize(m.kind)] == d[m.at..m.at + FieldSize(m.kind)];
  }

  // ----- the table of a document -----

  /** The table that unpack_dict fills: of two fields with the same key the later one counts. */
  function TableOf(fs: seq<Field>): map<Key, Value> {
    if fs == [] then map[] else TableOf(fs[..|fs| - 1])[fs[|fs| - 1].key := fs[|fs| - 1].value]
  }

  /** A later field has the same key. */
  predicate Hidden(fs: seq<Field>, i: nat)
    requires i < |fs|
  {
    exists j :: i < j < |fs| && fs[j].key == fs[i].key
  }

  /** A new value for a field changes the table at its key, or not at all when a later field hides it. */
  lemma {:induction false} TableChanges(fs: seq<Field>, i: nat, kind: Byte, p: seq<Byte>)
    requires i < |fs|
    ensures TableOf(WithPayload(fs, i, kind, p)) ==
            if Hidden(fs, i) then TableOf(fs) else TableOf(fs)[fs[i].key := Leaf(kind, p)]
  {
    var n := |fs| - 1;
    var fs' := WithPayload(fs, i, kind, p);
    if i == n {
      assert fs'[..n] == fs[..n];
    } else {
      TableChanges(fs[..n], i, kind, p);
      assert fs'[..n] == WithPayload(fs[..n], i, kind, p) && fs'[n] == fs[n];
      if fs[n].key != fs[i].key {
        HiddenBefore(fs, i);
      }
    }
  }

  lemma HiddenBefore(fs: seq<Field>, i: nat)
    requires i < |fs| - 1 && fs[|fs| - 1].key != fs[i].key
    ensures Hidden(fs, i) <==> Hidden(fs[..|fs| - 1], i)
  {
    if Hidden(fs, i) {
      var j :| i < j < |fs| && fs[j].key == fs[i].key;
      assert fs[..|fs| - 1][j] == fs[j];
    }
    if Hidden(fs[..|fs| - 1], i) {
      var j :| i < j < |fs| - 1 && fs[..|fs| - 1][j].key == fs[..|fs| - 1][i].key;
      assert fs[j].key == fs[i].key;
    }
  }

  /** With an integer "a" followed by a string "a", the index leads to the integer and the table shows the string. */
  lemma RepeatedKey(n: seq<Byte>, text: Value, at: nat, next: nat)
    requires |n| == 4
    ensures var fs := [Field([97], Leaf(INT32, n)), Field([97], text)];
            var ms := [Mark(INT32, [97], at), Mark(STRING, [97], next)];
            && IndexOf(ms) == map[[97] := Id(INT32, at)] && MarkOf(ms, [97]) == 0
            && TableOf(fs) == map[[97] := text] && Hidden(fs, 0)
  {
    var fs := [Field([97], Leaf(INT32, n)), Field([97], text)];
    var ms := [Mark(INT32, [97], at), Mark(STRING, [97], next)];
    assert fs[..1] == [fs[0]] && fs[..1][..0] == [] && ms[..1] == [ms[0]] && ms[..1][..0] == [];
    assert IndexOf(ms[..1][..0]) == map[] && IndexOf(ms[..1]) == map[[97] := Id(INT32, at)];
    assert TableOf(fs[..1][..0]) == map[] && TableOf(fs[..1]) == map[[97] := Leaf(INT32, n)];
    assert fs[1].key == fs[0].key;
    assert MarkOf(ms[..1], [97]) == 0;
  }

  // ----- updating -----

  /** The field that the entry stands for has the new payload, of its own type, and the others are as before. */
  ghost predicate Replaced(fs: seq<Field>, fs': seq<Field>, i: nat, key: Key, v: Input)
    requires InputOk(v)
  {
    && i < |fs| && fs[i].key == key && fs[i].value.Leaf?
    && PayloadFor(fs[i].value.kind, v).Some?
    && var p := PayloadFor(fs[i].value.kind, v).value;
       && ReadsAs(fs[i].value.kind, p, v)
       && fs' == WithPayload(fs, i, fs[i].value.kind, p)
       && TableOf(fs') == if Hidden(fs, i) then TableOf(fs) else TableOf(fs)[key := Leaf(fs[i].value.kind, p)]
  }

  /**
    lreplace; false is an error. It writes where the index says. The document is updated at the key
    when the field starts below offset 2^26. Further on the offset in the index is another one; when
    it is negative the original writes outside the document.
   */
  method Replace(doc: array<Byte>, index: map<Key, int>, key: Key, v: Input, ghost fs: seq<Field>)
    returns (ok: bool, ghost fs': seq<Field>)
    requires IsDocument(doc[..], fs) && Indexes(index, doc[..]) && InputOk(v)
    requires key in index ==> OffsetOf(index[key]) >= 0
    modifies doc
    ensures ok <==> key in index && Fits(TypeOf(index[key]), v)
    ensures !ok ==> doc[..] == old(doc[..])
    ensures ok ==> 0 <= OffsetOf(index[key]) && OffsetOf(index[key]) + FieldSize(TypeOf(index[key])) <= doc.Length
    ensures ok ==> doc[..] == Patch(old(doc[..]), OffsetOf(index[key]), PayloadFor(TypeOf(index[key]), v).value)
    ensures ok && old(OffsetIn(doc[..], index, key)) < 0x400_0000 ==>
              && IsDocument(doc[..], fs') && Indexes(index, doc[..])
              && Replaced(fs, fs', old(FieldOf(doc[..], index, key)), key, v)
  {
    hide UnpackDict, Marks, IndexOf, Body, Patch, TableOf, Hidden;
    ok, fs' := false, fs;
    if key !in index {
      return;
    }
    var kind, at := TypeOf(index[key]), OffsetOf(index[key]);
    ghost var d := doc[..];
    EntryIsField(d, fs, index, key);
    var p := PayloadFor(kind, v);
    if p.None? {
      return;
    }
    ghost var i := FieldOf(d, index, key);
    PatchDocument(d, fs, i, p.value);
    TableChanges(fs, i, kind, p.value);
    Write(doc, at, p.value);
    ok, fs' := true, WithPayload(fs, i, kind, p.value);
  }

  method Write(doc: array<Byte>, at: nat, p: seq<Byte>)
    requires at + |p| <= doc.Length
    modifies doc
    ensures doc[..] == Patch(old(doc[..]), at, p)
  {
    ghost var was := doc[..];
    forall i | 0 <= i < |p| {
      doc[at + i] := p[i];
    }
    assert doc[..] == was[..at] + p + was[at + |p|..];
  }
}
