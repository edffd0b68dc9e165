/**
  Unpacking gives back what was packed: for every value, whatever the order of the entries in its
  tables, and whatever bytes follow.
 */
module SeriRoundTrip {
  import opened Common
  import opened LittleEndian
  import opened SeriFormat

  // ----- what comes back -----

  /** The value as unpacking rebuilds it: in each table the array part comes first. */
  function Rebuilt(v: Lua): Lua
    decreases v
  {
    if v.Table? then Table(v.border, RebuiltArray(v.entries, 1, v.border) + RebuiltHash(v.entries, v.border)) else v
  }

  function RebuiltArray(es: seq<Entry>, i: nat, border: nat): seq<Entry>
    decreases es, border - i
  {
    if i > border then []
    else
      (match Find(es, i)
       case None => []
       case Some(k) => ArrayEntry(i, RebuiltItem(es[k])))
      + RebuiltArray(es, i + 1, border)
  }

  function RebuiltItem(e: Entry): Lua
    decreases e
  {
    Rebuilt(e.value)
  }

  function RebuiltHash(es: seq<Entry>, border: nat): seq<Entry>
    decreases es
  {
    if es == [] then []
    else (if InArray(es[0].key, border) then [] else [RebuiltPair(es[0])]) + RebuiltHash(es[1..], border)
  }

  function RebuiltPair(e: Entry): Entry
    decreases e
  {
    Entry(Rebuilt(e.key), Rebuilt(e.value))
  }

  /** Values of the types that can be packed. */
  predicate Supported(v: Lua)
    decreases v
  {
    !v.Unsupported? && (v.Table? ==> SupportedAll(v.entries))
  }

  predicate SupportedAll(es: seq<Entry>)
    decreases es
  {
    es == [] || (SupportedEntry(es[0]) && SupportedAll(es[1..]))
  }

  predicate SupportedEntry(e: Entry)
    decreases e
  {
    Supported(e.key) && Supported(e.value)
  }

  lemma {:induction false} SupportedAt(es: seq<Entry>, k: nat)
    requires SupportedAll(es) && k < |es|
    ensures SupportedEntry(es[k])
  {
    if k > 0 {
      SupportedAt(es[1..], k - 1);
    }
  }

  // ----- scalars -----

  /** The first byte names the type. */
  lemma DecodeTagged(kind: nat, cookie: nat, b: seq<Byte>)
    requires kind < 8 && cookie < MAX_COOKIE
    ensures Decode([Tag(kind, cookie)] + b) == DecodeValue(kind, cookie, b)
  {
    TagParts(kind, cookie);
    var all := [Tag(kind, cookie)] + b;
    assert all[1..] == b;
  }

  lemma TagParts(kind: nat, cookie: nat)
    requires kind < 8 && cookie < MAX_COOKIE
    ensures Tag(kind, cookie) as int % 8 == kind && Tag(kind, cookie) as int / 8 == cookie
  {
  }

  lemma TakeBack(a: seq<Byte>, rest: seq<Byte>)
    ensures Take(a + rest, |a|) == Some(Decoded(a, rest))
  {
    assert (a + rest)[..|a|] == a && (a + rest)[|a|..] == rest;
  }

  /** get_integer reads what wb_integer wrote behind the tag. */
  lemma IntegerRoundTrip(n: int, rest: seq<Byte>)
    requires -0x8000_0000_0000_0000 <= n < 0x8000_0000_0000_0000
    ensures EncodeInteger(n) != []
    ensures var b := EncodeInteger(n) + rest;
            && b[0] as int % 8 == TYPE_NUMBER && b[0] as int / 8 != NUMBER_REAL
            && DecodeInteger(b[0] as int / 8, b[1..]) == Some(Decoded(n, rest))
  {
    hide FromLittle, Little;
    Powers();
    if n == 0 {
      IntegerParts(NUMBER_ZERO, [], rest);
    } else if !(-0x8000_0000 <= n < 0x8000_0000) {
      WidthRoundTrip(NUMBER_QWORD, Unsigned(n, 0x1_0000_0000_0000_0000), 8, rest);
    } else if n < 0 {
      WidthRoundTrip(NUMBER_DWORD, Unsigned(n, 0x1_0000_0000), 4, rest);
    } else if n < 0x100 {
      WidthRoundTrip(NUMBER_BYTE, n, 1, rest);
    } else if n < 0x10000 {
      WidthRoundTrip(NUMBER_WORD, n, 2, rest);
    } else {
      WidthRoundTrip(NUMBER_DWORD, n, 4, rest);
    }
  }

  lemma IntegerParts(cookie: nat, bytes: seq<Byte>, rest: seq<Byte>)
    requires cookie < MAX_COOKIE
    ensures var b := [Tag(TYPE_NUMBER, cookie)] + bytes + rest;
            && b[0] as int % 8 == TYPE_NUMBER && b[0] as int / 8 == cookie && b[1..] == bytes + rest
  {
    TagParts(TYPE_NUMBER, cookie);
  }

  lemma WidthRoundTrip(cookie: nat, n: nat, width: nat, rest: seq<Byte>)
    requires cookie < MAX_COOKIE && n < Power(width)
    ensures var b := [Tag(TYPE_NUMBER, cookie)] + Little(n, width) + rest;
            && b[0] as int % 8 == TYPE_NUMBER && b[0] as int / 8 == cookie
            && b[1..] == Little(n, width) + rest
            && Take(b[1..], width) == Some(Decoded(Little(n, width), rest))
            && FromLittle(Little(n, width)) == n
  {
    hide FromLittle, Little, Power;
    IntegerParts(cookie, Little(n, width), rest);
    TakeBack(Little(n, width), rest);
    LittleRoundTrip(n, width);
  }

  lemma DecodeIntegerValue(n: int, rest: seq<Byte>)
    requires Legal(Integer(n))
    ensures Decode(EncodeInteger(n) + rest) == Some(Decoded(Integer(n), rest))
  {
    hide DecodeInteger, EncodeInteger;
    IntegerRoundTrip(n, rest);
  }

  lemma ShortRoundTrip(s: seq<Byte>, rest: seq<Byte>)
    requires |s| < MAX_COOKIE
    ensures Decode([Tag(TYPE_SHORT_STRING, |s|)] + s + rest) == Some(Decoded(String(s), rest))
  {
    hide Decode, Take;
    TakeBack(s, rest);
    DecodeTagged(TYPE_SHORT_STRING, |s|, s + rest);
    assert [Tag(TYPE_SHORT_STRING, |s|)] + s + rest == [Tag(TYPE_SHORT_STRING, |s|)] + (s + rest);
  }

  lemma LongRoundTrip(s: seq<Byte>, width: nat, rest: seq<Byte>)
    requires (width == 2 || width == 4) && |s| < Power(width) && |s| < 0x8000_0000
    ensures Decode([Tag(TYPE_LONG_STRING, width)] + Little(|s|, width) + s + rest) == Some(Decoded(String(s), rest))
  {
    hide FromLittle, Little, Decode, Take, Power;
    var size := Little(|s|, width);
    LittleRoundTrip(|s|, width);
    TakeBack(size, s + rest);
    TakeBack(s, rest);
    DecodeTagged(TYPE_LONG_STRING, width, size + (s + rest));
    assert [Tag(TYPE_LONG_STRING, width)] + size + s + rest == [Tag(TYPE_LONG_STRING, width)] + (size + (s + rest));
  }

  lemma StringRoundTrip(s: seq<Byte>, rest: seq<Byte>)
    requires |s| < 0x8000_0000
    ensures Decode(EncodeString(s) + rest) == Some(Decoded(String(s), rest))
  {
    hide Little, Decode, Power;
    Powers();
    if |s| < MAX_COOKIE {
      ShortRoundTrip(s, rest);
    } else {
      LongRoundTrip(s, if |s| < 0x10000 then 2 else 4, rest);
    }
  }

  lemma ScalarRoundTrip(v: Lua, rest: seq<Byte>)
    requires Legal(v) && !v.Table? && !v.Unsupported?
    ensures Decode(Encode(v) + rest) == Some(Decoded(v, rest))
  {
    hide Decode, EncodeInteger, EncodeString, Take;
    match v {
      case Nil => DecodeTagged(TYPE_NIL, 0, rest);
      case Boolean(b) => DecodeTagged(TYPE_BOOLEAN, if b then 1 else 0, rest);
      case Integer(n) => DecodeIntegerValue(n, rest);
      case Real(bits) =>
        TakeBack(bits, rest);
        DecodeTagged(TYPE_NUMBER, NUMBER_REAL, bits + rest);
        assert Encode(v) + rest == [Tag(TYPE_NUMBER, NUMBER_REAL)] + (bits + rest);
      case Pointer(bits) =>
        TakeBack(bits, rest);
        DecodeTagged(TYPE_USERDATA, 0, bits + rest);
        assert Encode(v) + rest == [Tag(TYPE_USERDATA, 0)] + (bits + rest);
      case String(s) => StringRoundTrip(s, rest);
    }
  }

  // ----- tables -----

  /** The size of the array part, through the escape at 31. */
  lemma SizeRoundTrip(n: nat, rest: seq<Byte>)
    requires n < 0x8000_0000
    ensures Decode(EncodeSize(n) + rest) == DecodeTable(n, rest)
  {
    hide Decode, DecodeTable, EncodeInteger, DecodeInteger;
    if n >= MAX_COOKIE - 1 {
      IntegerRoundTrip(n, rest);
      DecodeTagged(TYPE_TABLE, MAX_COOKIE - 1, EncodeInteger(n) + rest);
      assert EncodeSize(n) + rest == [Tag(TYPE_TABLE, MAX_COOKIE - 1)] + (EncodeInteger(n) + rest);
    } else {
      DecodeTagged(TYPE_TABLE, n, rest);
    }
  }

  lemma RebuiltNil(v: Lua)
    ensures Rebuilt(v).Nil? <==> v.Nil?
  {
  }

  /** Unpacking reads exactly the bytes of a packed value, whatever follows, and rebuilds the value. */
  lemma {:induction false} RoundTrip(v: Lua, rest: seq<Byte>)
    requires Legal(v) && Supported(v)
    ensures Decode(Encode(v) + rest) == Some(Decoded(Rebuilt(v), rest))
    decreases v
  {
    if v.Table? {
      TableRoundTrip(v.border, v.entries, rest);
      TableText(v.border, v.entries, rest);
      SizeRoundTrip(v.border, EncodeArray(v.entries, 1, v.border) + (EncodeHash(v.entries, v.border) + ([Tag(TYPE_NIL, 0)] + rest)));
    } else {
      ScalarRoundTrip(v, rest);
    }
  }

  lemma TableText(border: nat, es: seq<Entry>, rest: seq<Byte>)
    requires Legal(Table(border, es))
    ensures Encode(Table(border, es)) + rest ==
            EncodeSize(border) + (EncodeArray(es, 1, border) + (EncodeHash(es, border) + ([Tag(TYPE_NIL, 0)] + rest)))
  {
    hide EncodeSize, EncodeArray, EncodeHash;
  }

  lemma TableRoundTrip(border: nat, es: seq<Entry>, rest: seq<Byte>)
    requires LegalEntries(es) && SupportedAll(es)
    ensures var tail := EncodeHash(es, border) + ([Tag(TYPE_NIL, 0)] + rest);
            DecodeTable(border, EncodeArray(es, 1, border) + tail) ==
              Some(Decoded(Table(border, RebuiltArray(es, 1, border) + RebuiltHash(es, border)), rest))
    decreases es, border + 1
  {
    hide EncodeHash, EncodeArray, RebuiltArray, RebuiltHash, DecodeArray, DecodePairs, LegalEntries, SupportedAll;
    var tail := EncodeHash(es, border) + ([Tag(TYPE_NIL, 0)] + rest);
    ArrayRoundTrip(es, 1, border, tail);
    PairsRoundTrip(es, border, rest);
  }

  lemma {:induction false} ArrayRoundTrip(es: seq<Entry>, i: nat, border: nat, tail: seq<Byte>)
    requires LegalEntries(es) && SupportedAll(es)
    ensures DecodeArray(i, border, EncodeArray(es, i, border) + tail) == Some(Decoded(RebuiltArray(es, i, border), tail))
    decreases es, border - i
  {
    if i > border {
      assert EncodeArray(es, i, border) + tail == tail;
    } else {
      var more := EncodeArray(es, i + 1, border) + tail;
      ArrayRoundTrip(es, i + 1, border, tail);
      match Find(es, i) {
        case None =>
          ScalarRoundTrip(Nil, more);
          ArrayStep(i, border, Encode(Nil), more, Nil);
          ArrayText([Tag(TYPE_NIL, 0)], EncodeArray(es, i + 1, border), tail);
        case Some(k) =>
          LegalAt(es, k);
          SupportedAt(es, k);
          ItemRoundTrip(es[k], more);
          RebuiltNil(es[k].value);
          ArrayStep(i, border, EncodeItem(es[k]), more, RebuiltItem(es[k]));
          ArrayText(EncodeItem(es[k]), EncodeArray(es, i + 1, border), tail);
      }
    }
  }

  lemma ArrayText(a: seq<Byte>, b: seq<Byte>, c: seq<Byte>)
    ensures a + b + c == a + (b + c)
  {
  }

  lemma ArrayStep(i: int, n: int, bytes: seq<Byte>, more: seq<Byte>, v: Lua)
    requires i <= n && Decode(bytes + more) == Some(Decoded(v, more)) && DecodeArray(i + 1, n, more).Some?
    ensures var m := DecodeArray(i + 1, n, more).value;
            DecodeArray(i, n, bytes + more) == Some(Decoded(ArrayEntry(i, v) + m.value, m.rest))
  {
    hide Decode;
  }

  lemma {:induction false} ItemRoundTrip(e: Entry, rest: seq<Byte>)
    requires LegalEntry(e) && SupportedEntry(e)
    ensures Decode(EncodeItem(e) + rest) == Some(Decoded(RebuiltItem(e), rest))
    decreases e
  {
    hide Decode;
    RoundTrip(e.value, rest);
  }

  lemma {:induction false} PairRoundTrip(e: Entry, rest: seq<Byte>)
    requires LegalEntry(e) && SupportedEntry(e)
    ensures Decode(EncodePair(e) + rest) == Some(Decoded(RebuiltPair(e).key, Encode(e.value) + rest))
    ensures Decode(Encode(e.value) + rest) == Some(Decoded(RebuiltPair(e).value, rest))
    ensures !RebuiltPair(e).key.Nil?
    decreases e
  {
    hide Decode;
    RoundTrip(e.key, Encode(e.value) + rest);
    RoundTrip(e.value, rest);
    assert Encode(e.key) + Encode(e.value) + rest == Encode(e.key) + (Encode(e.value) + rest);
    RebuiltNil(e.key);
  }

  lemma {:induction false} PairsRoundTrip(es: seq<Entry>, border: nat, rest: seq<Byte>)
    requires LegalEntries(es) && SupportedAll(es)
    ensures DecodePairs(EncodeHash(es, border) + ([Tag(TYPE_NIL, 0)] + rest)) == Some(Decoded(RebuiltHash(es, border), rest))
    decreases es, 0
  {
    var end := [Tag(TYPE_NIL, 0)] + rest;
    if es == [] {
      ScalarRoundTrip(Nil, rest);
      assert EncodeHash(es, border) + end == end;
      PairsEnd(end, rest);
    } else {
      PairsRoundTrip(es[1..], border, rest);
      var more := EncodeHash(es[1..], border) + end;
      if InArray(es[0].key, border) {
        SkipText(EncodeHash(es[1..], border), end);
        assert [] + RebuiltHash(es[1..], border) == RebuiltHash(es[1..], border);
      } else {
        PairRoundTrip(es[0], more);
        PairsStep(es[0], EncodePair(es[0]) + more, Encode(es[0].value) + more, more);
        ArrayText(EncodePair(es[0]), EncodeHash(es[1..], border), end);
      }
    }
  }

  lemma SkipText(a: seq<Byte>, b: seq<Byte>)
    ensures [] + a + b == a + b
  {
  }

  lemma PairsEnd(b: seq<Byte>, rest: seq<Byte>)
    requires Decode(b) == Some(Decoded(Nil, rest))
    ensures DecodePairs(b) == Some(Decoded([], rest))
  {
    hide Decode;
  }

  lemma PairsStep(e: Entry, b: seq<Byte>, b1: seq<Byte>, more: seq<Byte>)
    requires Decode(b) == Some(Decoded(RebuiltPair(e).key, b1)) && !RebuiltPair(e).key.Nil?
    requires Decode(b1) == Some(Decoded(RebuiltPair(e).value, more)) && DecodePairs(more).Some?
    ensures DecodePairs(b) == Some(Decoded([RebuiltPair(e)] + DecodePairs(more).value.value, DecodePairs(more).value.rest))
  {
    hide Decode, Rebuilt;
  }

  /** The pairs that wb_table_metapairs writes, in the order of the metamethod */
  function PairsBytes(es: seq<Entry>): seq<Byte>
    requires LegalEntries(es)
  {
    if es == [] then [] else EncodePair(es[0]) + PairsBytes(es[1..])
  }

  /** A table with a __pairs metamethod is packed as the table of border 0 with the entries that it lists. */
  lemma MetaPairsAreTable(es: seq<Entry>)
    requires Legal(Table(0, es))
    ensures Encode(Table(0, es)) == [Tag(TYPE_TABLE, 0)] + PairsBytes(es) + [Tag(TYPE_NIL, 0)]
  {
    hide EncodeHash, PairsBytes;
    AllPairs(es);
    var pairs := PairsBytes(es);
    assert EncodeArray(es, 1, 0) == [];
    assert [Tag(TYPE_TABLE, 0)] + [] + pairs + [Tag(TYPE_NIL, 0)] == [Tag(TYPE_TABLE, 0)] + pairs + [Tag(TYPE_NIL, 0)];
  }

  lemma {:induction false} AllPairs(es: seq<Entry>)
    requires LegalEntries(es)
    ensures EncodeHash(es, 0) == PairsBytes(es)
  {
    if es != [] {
      AllPairs(es[1..]);
    }
  }

  // ----- the meaning is kept -----

  lemma MeaningStep(e: Entry, es: seq<Entry>)
    ensures MeaningAll([]) == multiset{}
    ensures MeaningAll([e] + es) == MeaningOf(e) + MeaningAll(es)
  {
    assert ([e] + es)[1..] == es;
  }

  lemma {:induction false} MeaningConcat(a: seq<Entry>, b: seq<Entry>)
    ensures MeaningAll(a + b) == MeaningAll(a) + MeaningAll(b)
  {
    hide MeaningAll, MeaningOf;
    if a == [] {
      assert a + b == b;
      MeaningStep(Entry(Nil, Nil), []);
    } else {
      MeaningConcat(a[1..], b);
      MeaningStep(a[0], a[1..]);
      MeaningStep(a[0], a[1..] + b);
      assert a == [a[0]] + a[1..] && a + b == [a[0]] + (a[1..] + b);
    }
  }

  lemma MeaningOne(e: Entry)
    ensures MeaningAll([e]) == MeaningOf(e)
  {
    assert [e][1..] == [];
  }

  /** The entries with an index from `lo` to `hi`, and the others. */
  function Within(es: seq<Entry>, lo: int, hi: int): multiset<(Value, Value)> {
    if es == [] then multiset{}
    else (if Indexed(es[0], lo, hi) then MeaningOf(es[0]) else multiset{}) + Within(es[1..], lo, hi)
  }

  function Outside(es: seq<Entry>, lo: int, hi: int): multiset<(Value, Value)> {
    if es == [] then multiset{}
    else (if Indexed(es[0], lo, hi) then multiset{} else MeaningOf(es[0])) + Outside(es[1..], lo, hi)
  }

  predicate Indexed(e: Entry, lo: int, hi: int) {
    e.key.Integer? && lo <= e.key.n <= hi
  }

  lemma {:induction false} WithinAndOutside(es: seq<Entry>, lo: int, hi: int)
    ensures MeaningAll(es) == Within(es, lo, hi) + Outside(es, lo, hi)
  {
    if es != [] {
      WithinAndOutside(es[1..], lo, hi);
    }
  }

  lemma {:induction false} WithinSplits(es: seq<Entry>, i: int, hi: int)
    requires i <= hi
    ensures Within(es, i, hi) == Within(es, i, i) + Within(es, i + 1, hi)
  {
    if es != [] {
      WithinSplits(es[1..], i, hi);
    }
  }

  lemma {:induction false} WithinNone(es: seq<Entry>, lo: int, hi: int)
    requires forall k :: 0 <= k < |es| ==> !Indexed(es[k], lo, hi)
    ensures Within(es, lo, hi) == multiset{}
  {
    if es != [] {
      WithinNone(es[1..], lo, hi);
    }
  }

  /** At one index there is the entry that lua_rawgeti finds. */
  lemma {:induction false} WithinOne(es: seq<Entry>, i: int)
    requires DistinctIndices(es)
    ensures Within(es, i, i) == match Find(es, i) case None => multiset{} case Some(k) => MeaningOf(es[k])
  {
    if es != [] {
      if es[0].key == Integer(i) {
        forall k | 0 <= k < |es[1..]| ensures !Indexed(es[1..][k], i, i) {
          assert es[1..][k] == es[k + 1] && es[0].key != es[k + 1].key;
        }
        WithinNone(es[1..], i, i);
      } else {
        assert DistinctIndices(es[1..]) by {
          forall j, k | 0 <= j < k < |es[1..]| && es[1..][j].key.Integer? ensures es[1..][j].key != es[1..][k].key {
            assert es[j + 1].key != es[k + 1].key;
          }
        }
        WithinOne(es[1..], i);
      }
    }
  }

  /** What unpacking rebuilds is the same value: each table has the same entries. */
  lemma {:induction false} MeaningKept(v: Lua)
    requires Legal(v)
    ensures Meaning(Rebuilt(v)) == Meaning(v)
    decreases v
  {
    if v.Table? {
      EntriesKept(v.entries, v.border);
    }
  }

  lemma EntriesKept(es: seq<Entry>, border: nat)
    requires LegalEntries(es) && DistinctIndices(es)
    ensures MeaningAll(RebuiltArray(es, 1, border) + RebuiltHash(es, border)) == MeaningAll(es)
    decreases es, border + 1
  {
    hide RebuiltArray, RebuiltHash, MeaningAll, Within, Outside;
    ArrayKept(es, 1, border);
    HashKept(es, border);
    MeaningConcat(RebuiltArray(es, 1, border), RebuiltHash(es, border));
    WithinAndOutside(es, 1, border);
  }

  lemma {:induction false} ArrayKept(es: seq<Entry>, i: nat, border: nat)
    requires LegalEntries(es) && DistinctIndices(es)
    ensures MeaningAll(RebuiltArray(es, i, border)) == Within(es, i, border)
    decreases es, border - i
  {
    hide Within, DistinctIndices;
    if i > border {
      WithinNone(es, i, border);
    } else {
      ArrayKept(es, i + 1, border);
      WithinSplits(es, i, border);
      WithinOne(es, i);
      match Find(es, i) {
        case None =>
          assert [] + RebuiltArray(es, i + 1, border) == RebuiltArray(es, i + 1, border);
        case Some(k) =>
          LegalAt(es, k);
          ItemKept(es[k], i);
          MeaningConcat(ArrayEntry(i, RebuiltItem(es[k])), RebuiltArray(es, i + 1, border));
      }
    }
  }

  lemma {:induction false} ItemKept(e: Entry, i: int)
    requires LegalEntry(e) && e.key == Integer(i)
    ensures MeaningAll(ArrayEntry(i, RebuiltItem(e))) == MeaningOf(e)
    decreases e
  {
    MeaningKept(e.value);
    RebuiltNil(e.value);
    MeaningOne(Entry(Integer(i), Rebuilt(e.value)));
  }

  lemma {:induction false} HashKept(es: seq<Entry>, border: nat)
    requires LegalEntries(es)
    ensures MeaningAll(RebuiltHash(es, border)) == Outside(es, 1, border)
    decreases es, 0
  {
    hide MeaningAll, MeaningOf, LegalEntry;
    if es == [] {
      MeaningStep(Entry(Nil, Nil), []);
    } else {
      HashKept(es[1..], border);
      var more := RebuiltHash(es[1..], border);
      if InArray(es[0].key, border) {
        assert [] + more == more;
      } else {
        PairKept(es[0]);
        MeaningStep(RebuiltPair(es[0]), more);
      }
    }
  }

  lemma {:induction false} PairKept(e: Entry)
    requires LegalEntry(e)
    ensures MeaningOf(RebuiltPair(e)) == MeaningOf(e)
    decreases e
  {
    MeaningKept(e.key);
    MeaningKept(e.value);
  }

  /** The order in which lua_next lists a table does not matter. */
  lemma {:induction false} OrderDoesNotMatter(a: seq<Entry>, b: seq<Entry>)
    requires multiset(a) == multiset(b)
    ensures MeaningAll(a) == MeaningAll(b)
    decreases |a|
  {
    hide MeaningAll, MeaningOf;
    if a == [] {
      assert |b| == |multiset(b)| == 0;
    } else {
      assert a[0] in multiset(b);
      var k :| 0 <= k < |b| && b[k] == a[0];
      MeaningWithout(b, k);
      SameWithout(a, b, k);
      OrderDoesNotMatter(a[1..], b[..k] + b[k + 1..]);
      MeaningStep(a[0], a[1..]);
      assert a == [a[0]] + a[1..];
    }
  }

  lemma MeaningWithout(b: seq<Entry>, k: nat)
    requires k < |b|
    ensures MeaningAll(b) == MeaningOf(b[k]) + MeaningAll(b[..k] + b[k + 1..])
  {
    hide MeaningAll, MeaningOf;
    assert b == b[..k] + ([b[k]] + b[k + 1..]);
    MeaningConcat(b[..k], b[k + 1..]);
    MeaningConcat(b[..k], [b[k]] + b[k + 1..]);
    MeaningStep(b[k], b[k + 1..]);
  }

  lemma SameWithout(a: seq<Entry>, b: seq<Entry>, k: nat)
    requires a != [] && k < |b| && b[k] == a[0] && multiset(a) == multiset(b)
    ensures multiset(a[1..]) == multiset(b[..k] + b[k + 1..])
  {
    assert a == [a[0]] + a[1..] && b == b[..k] + [b[k]] + b[k + 1..];
    assert multiset(a[1..]) == multiset(a) - multiset{a[0]};
    assert multiset(b[..k] + b[k + 1..]) == multiset(b) - multiset{b[k]};
  }

  // ----- lists of values -----

  /** luaseri_pack on values that can be packed */
  function EncodeAll(vs: seq<Lua>): seq<Byte>
    requires forall v :: v in vs ==> Legal(v)
  {
    if vs == [] then [] else Encode(vs[0]) + EncodeAll(vs[1..])
  }

  /** luaseri_unpack: values until the bytes are used up */
  function DecodeAll(b: seq<Byte>): Option<seq<Lua>>
    decreases |b|
  {
    if b == [] then Some([])
    else
      var v := Decode(b);
      if v.None? then None
      else
        var more := DecodeAll(v.value.rest);
        if more.None? then None else Some([v.value.value] + more.value)
  }

  function RebuiltAll(vs: seq<Lua>): (r: seq<Lua>)
    ensures |r| == |vs| && forall k :: 0 <= k < |vs| ==> r[k] == Rebuilt(vs[k])
  {
    if vs == [] then [] else [Rebuilt(vs[0])] + RebuiltAll(vs[1..])
  }

  /** Unpacking a packed list of values gives a list of the same values. */
  lemma {:induction false} ListRoundTrip(vs: seq<Lua>)
    requires forall v :: v in vs ==> Legal(v) && Supported(v)
    ensures DecodeAll(EncodeAll(vs)) == Some(RebuiltAll(vs))
    ensures forall k :: 0 <= k < |vs| ==> Meaning(RebuiltAll(vs)[k]) == Meaning(vs[k])
  {
    hide Decode, Encode, Legal, Supported, Rebuilt, Meaning;
    if vs != [] {
      ListRoundTrip(vs[1..]);
      RoundTrip(vs[0], EncodeAll(vs[1..]));
      MeaningKept(vs[0]);
      NotEmpty(EncodeAll(vs));
    }
  }

  lemma NotEmpty(b: seq<Byte>)
    requires Decode(b).Some?
    ensures b != []
  {
  }
}
