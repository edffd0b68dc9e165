/**
  Packing and unpacking as lua-seri.c does it: packing writes into a chain of 128-byte blocks that
  is copied together at the end, unpacking moves a cursor over the bytes.
 */
module SeriBlocks {
  import opened Common
  import opened LittleEndian
  import opened SeriFormat
  import opened SeriRoundTrip

  const BLOCK_SIZE := 128

  type Block = b: seq<Byte> | |b| == BLOCK_SIZE witness seq(BLOCK_SIZE, _ => 0)

  /** The bytes of whole blocks. */
  function Flat(blocks: seq<Block>): (r: seq<Byte>)
    ensures |r| == BLOCK_SIZE * |blocks|
  {
    if blocks == [] then [] else Flat(blocks[..|blocks| - 1]) + blocks[|blocks| - 1]
  }

  /** memcpy of `src` to position `at` of a block */
  function Overwrite(b: Block, at: nat, src: seq<Byte>): Block
    requires at + |src| <= BLOCK_SIZE
  {
    b[..at] + src + b[at + |src|..]
  }

  // ----- what can be packed -----

  /** pack_one at this depth raises no error. */
  predicate Packable(v: Lua, depth: nat)
    decreases v
  {
    && depth <= MAX_DEPTH
    && !v.Unsupported?
    && (v.Table? ==> (v.border > 0 ==> depth + 1 <= MAX_DEPTH) && PackableAll(v.entries, depth + 1))
  }

  predicate PackableAll(es: seq<Entry>, depth: nat)
    decreases es
  {
    es == [] || (PackableEntry(es[0], depth) && PackableAll(es[1..], depth))
  }

  predicate PackableEntry(e: Entry, depth: nat)
    decreases e
  {
    Packable(e.key, depth) && Packable(e.value, depth)
  }

  lemma {:induction false} PackableAllIff(es: seq<Entry>, depth: nat)
    ensures PackableAll(es, depth) <==> forall k :: 0 <= k < |es| ==> PackableEntry(es[k], depth)
  {
    if es != [] {
      PackableAllIff(es[1..], depth);
      if PackableAll(es, depth) {
        forall k | 0 <= k < |es| ensures PackableEntry(es[k], depth) {
          if k > 0 {
            assert es[1..][k - 1] == es[k];
          }
        }
      }
    }
  }

  /** How many tables are around the innermost packed value. */
  function Nesting(v: Lua): nat
    decreases v
  {
    if !v.Table? || (v.border == 0 && v.entries == []) then 0 else 1 + NestingAll(v.entries)
  }

  function NestingAll(es: seq<Entry>): nat
    decreases es
  {
    if es == [] then 0 else Larger(NestingOf(es[0]), NestingAll(es[1..]))
  }

  function NestingOf(e: Entry): nat
    decreases e
  {
    Larger(Nesting(e.key), Nesting(e.value))
  }

  function Larger(a: nat, b: nat): nat {
    if a < b then b else a
  }

  /** Packing succeeds exactly for supported types within the depth limit. */
  lemma {:induction false} PackableIff(v: Lua, depth: nat)
    ensures Packable(v, depth) <==> Supported(v) && depth + Nesting(v) <= MAX_DEPTH
    decreases v
  {
    if v.Table? {
      PackableAllNesting(v.entries, depth + 1);
    }
  }

  lemma {:induction false} PackableAllNesting(es: seq<Entry>, depth: nat)
    ensures es != [] ==> (PackableAll(es, depth) <==> SupportedAll(es) && depth + NestingAll(es) <= MAX_DEPTH)
    decreases es
  {
    if es != [] {
      PackableEntryNesting(es[0], depth);
      PackableAllNesting(es[1..], depth);
      assert es[1..] == [] ==> PackableAll(es[1..], depth) && SupportedAll(es[1..]) && NestingAll(es[1..]) == 0;
    }
  }

  lemma {:induction false} PackableEntryNesting(e: Entry, depth: nat)
    ensures PackableEntry(e, depth) <==> SupportedEntry(e) && depth + NestingOf(e) <= MAX_DEPTH
    decreases e
  {
    PackableIff(e.key, depth);
    PackableIff(e.value, depth);
  }

  // ----- the block chain -----

  class WriteBlock {
    var blocks: seq<Block>
    var len: nat
    var ptr: nat

    ghost predicate Valid()
      reads this
    {
      blocks != [] && ptr <= BLOCK_SIZE && len == BLOCK_SIZE * (|blocks| - 1) + ptr
    }

    /** The bytes written so far. */
    ghost function Contents(): (r: seq<Byte>)
      requires Valid()
      ensures |r| == len
      reads this
    {
      Flat(blocks[..|blocks| - 1]) + blocks[|blocks| - 1][..ptr]
    }

    /** wb_init */
    constructor ()
      ensures Valid() && Contents() == []
    {
      blocks := [seq(BLOCK_SIZE, _ => 0)];
      len, ptr := 0, 0;
      assert [seq(BLOCK_SIZE, _ => 0)][..0] == [];
    }

    /** blk_alloc behind the current block, which is full */
    method Extend()
      requires Valid() && ptr == BLOCK_SIZE
      modifies this
      ensures Valid() && Contents() == old(Contents()) && ptr == 0
    {
      ghost var bs := blocks;
      blocks := blocks + [seq(BLOCK_SIZE, _ => 0)];
      ptr := 0;
      assert blocks[..|blocks| - 1] == bs;
      assert bs[|bs| - 1][..BLOCK_SIZE] == bs[|bs| - 1];
    }

    /** memcpy to the current block */
    method Copy(src: seq<Byte>)
      requires Valid() && ptr + |src| <= BLOCK_SIZE
      modifies this
      ensures Valid() && Contents() == old(Contents()) + src && ptr == old(ptr) + |src|
    {
      ghost var bs := blocks;
      var last := |blocks| - 1;
      blocks := blocks[last := Overwrite(blocks[last], ptr, src)];
      ptr := ptr + |src|;
      len := len + |src|;
      assert blocks[..last] == bs[..last];
      assert blocks[last][..ptr] == bs[last][..old(ptr)] + src;
    }

    /** wb_push */
    method Push(buf: seq<Byte>)
      requires Valid()
      modifies this
      ensures Valid() && Contents() == old(Contents()) + buf
    {
      var buffer := buf;
      if ptr == BLOCK_SIZE {
        Extend();
      }
      while ptr > BLOCK_SIZE - |buffer|
        invariant Valid() && ptr < BLOCK_SIZE
        invariant Contents() + buffer == old(Contents()) + buf
        decreases |buffer|
      {
        var copy := BLOCK_SIZE - ptr;
        ghost var before := Contents();
        Copy(buffer[..copy]);
        assert before + buffer == before + buffer[..copy] + buffer[copy..];
        buffer := buffer[copy..];
        Extend();
      }
      Copy(buffer);
    }

    /** wb_integer */
    method PushInteger(n: int)
      requires Valid() && Legal(Integer(n))
      modifies this
      ensures Valid() && Contents() == old(Contents()) + EncodeInteger(n)
    {
      hide Little, WriteBlock.Contents;
      ghost var start := Contents();
      if n == 0 {
        Push([Tag(TYPE_NUMBER, NUMBER_ZERO)]);
        return;
      }
      var cookie, bits, width;
      if !(-0x8000_0000 <= n < 0x8000_0000) {
        cookie, bits, width := NUMBER_QWORD, Unsigned(n, 0x1_0000_0000_0000_0000), 8;
      } else if n < 0 {
        cookie, bits, width := NUMBER_DWORD, Unsigned(n, 0x1_0000_0000), 4;
      } else if n < 0x100 {
        cookie, bits, width := NUMBER_BYTE, n, 1;
      } else if n < 0x10000 {
        cookie, bits, width := NUMBER_WORD, n, 2;
      } else {
        cookie, bits, width := NUMBER_DWORD, n, 4;
      }
      Push([Tag(TYPE_NUMBER, cookie)]);
      Push(Little(bits, width));
      ArrayText(start, [Tag(TYPE_NUMBER, cookie)], Little(bits, width));
    }

    /** wb_string */
    method PushString(s: seq<Byte>)
      requires Valid() && |s| < 0x8000_0000
      modifies this
      ensures Valid() && Contents() == old(Contents()) + EncodeString(s)
    {
      hide Little, WriteBlock.Contents;
      ghost var start := Contents();
      if |s| < MAX_COOKIE {
        Push([Tag(TYPE_SHORT_STRING, |s|)]);
        if |s| > 0 {
          Push(s);
        }
        ArrayText(start, [Tag(TYPE_SHORT_STRING, |s|)], s);
      } else {
        var width := if |s| < 0x10000 then 2 else 4;
        Push([Tag(TYPE_LONG_STRING, width)]);
        Push(Little(|s|, width));
        Push(s);
        ArrayText(start, [Tag(TYPE_LONG_STRING, width)], Little(|s|, width));
        ArrayText(start, [Tag(TYPE_LONG_STRING, width)] + Little(|s|, width), s);
      }
    }

    /** pack_one; `ok` is false where it raises an error. */
    method PackOne(v: Lua, depth: nat) returns (ok: bool)
      requires Valid() && Legal(v)
      modifies this
      ensures Valid() && ok == Packable(v, depth)
      ensures ok ==> Contents() == old(Contents()) + Encode(v)
      decreases v
    {
      hide EncodeInteger, EncodeString, WriteBlock.Contents, Little;
      if depth > MAX_DEPTH {
        return false;
      }
      ok := true;
      match v {
        case Nil => Push([Tag(TYPE_NIL, 0)]);
        case Boolean(b) => Push([Tag(TYPE_BOOLEAN, if b then 1 else 0)]);
        case Integer(n) => PushInteger(n);
        case Real(bits) => PushTagged(TYPE_NUMBER, NUMBER_REAL, bits);
        case Pointer(bits) => PushTagged(TYPE_USERDATA, 0, bits);
        case String(s) => PushString(s);
        case Table(border, es) => ok := PackTable(border, es, depth + 1);
        case Unsupported => ok := false;
      }
    }

    /** wb_real and wb_pointer */
    method PushTagged(kind: nat, cookie: nat, bits: seq<Byte>)
      requires Valid() && kind < 8 && cookie < MAX_COOKIE
      modifies this
      ensures Valid() && Contents() == old(Contents()) + ([Tag(kind, cookie)] + bits)
    {
      ghost var start := Contents();
      Push([Tag(kind, cookie)]);
      Push(bits);
      ArrayText(start, [Tag(kind, cookie)], bits);
    }

    /** wb_table */
    method PackTable(border: nat, es: seq<Entry>, depth: nat) returns (ok: bool)
      requires Valid() && Legal(Table(border, es))
      modifies this
      ensures Valid() && ok == ((border > 0 ==> depth <= MAX_DEPTH) && PackableAll(es, depth))
      ensures ok ==> Contents() == old(Contents()) + Encode(Table(border, es))
      decreases es, 2
    {
      hide EncodeInteger, EncodeArray, EncodeHash, WriteBlock.Contents, PackableAll, LegalEntries, PackableEntry;
      ghost var start := Contents();
      PackableAllIff(es, depth);
      if border >= MAX_COOKIE - 1 {
        Push([Tag(TYPE_TABLE, MAX_COOKIE - 1)]);
        PushInteger(border);
        ArrayText(start, [Tag(TYPE_TABLE, MAX_COOKIE - 1)], EncodeInteger(border));
      } else {
        Push([Tag(TYPE_TABLE, border)]);
      }
      ok := PackArray(border, es, depth);
      if !ok {
        return;
      }
      ok := PackHash(border, es, depth);
      if !ok {
        return;
      }
      Push([Tag(TYPE_NIL, 0)]);
      AllPackable(es, border, depth);
      TableParts(start, EncodeSize(border), EncodeArray(es, 1, border), EncodeHash(es, border), [Tag(TYPE_NIL, 0)]);
    }

    /** wb_table_array behind the size */
    method PackArray(border: nat, es: seq<Entry>, depth: nat) returns (ok: bool)
      requires Valid() && LegalEntries(es)
      modifies this
      ensures Valid()
      ensures !ok ==> !(border > 0 ==> depth <= MAX_DEPTH) || exists k :: 0 <= k < |es| && !PackableEntry(es[k], depth)
      ensures ok ==> Contents() == old(Contents()) + EncodeArray(es, 1, border)
      ensures ok ==> (border > 0 ==> depth <= MAX_DEPTH) && ArrayPackable(es, border, depth)
      decreases es, 1
    {
      hide WriteBlock.Contents, LegalEntries, PackableEntry, LegalEntry, EncodeArray;
      ghost var start := Contents();
      var i := 1;
      while i <= border
        invariant 1 <= i <= border + 1 && Valid()
        invariant Contents() + EncodeArray(es, i, border) == start + EncodeArray(es, 1, border)
        invariant ArrayPackable(es, i - 1, depth) && (i > 1 ==> depth <= MAX_DEPTH)
        decreases border - i
      {
        ghost var before := Contents();
        ArrayNext(es, i, border);
        match Find(es, i) {
          case None =>
            ok := PackNil(depth);
            if !ok {
              return;
            }
            ArrayText(before, [Tag(TYPE_NIL, 0)], EncodeArray(es, i + 1, border));
          case Some(k) =>
            LegalAt(es, k);
            ok := PackItem(es[k], depth);
            if !ok {
              return;
            }
            ArrayText(before, EncodeItem(es[k]), EncodeArray(es, i + 1, border));
        }
        i := i + 1;
      }
      ok := true;
      ArrayDone(es, i, border);
      assert Contents() + [] == Contents();
    }

    method PackNil(depth: nat) returns (ok: bool)
      requires Valid()
      modifies this
      ensures Valid() && ok == (depth <= MAX_DEPTH)
      ensures ok ==> Contents() == old(Contents()) + [Tag(TYPE_NIL, 0)]
    {
      if depth > MAX_DEPTH {
        return false;
      }
      Push([Tag(TYPE_NIL, 0)]);
      return true;
    }

    /** An array element: its key is an index and needs no packing. */
    method PackItem(e: Entry, depth: nat) returns (ok: bool)
      requires Valid() && LegalEntry(e) && e.key.Integer?
      modifies this
      ensures Valid() && ok == PackableEntry(e, depth)
      ensures ok ==> depth <= MAX_DEPTH && Contents() == old(Contents()) + EncodeItem(e)
      decreases e
    {
      hide WriteBlock.Contents, Encode;
      ok := PackOne(e.value, depth);
    }

    /** wb_table_hash up to the closing nil */
    method PackHash(border: nat, es: seq<Entry>, depth: nat) returns (ok: bool)
      requires Valid() && LegalEntries(es)
      modifies this
      ensures Valid()
      ensures !ok ==> exists k :: 0 <= k < |es| && !PackableEntry(es[k], depth)
      ensures ok ==> Contents() == old(Contents()) + EncodeHash(es, border)
      ensures ok ==> forall k :: 0 <= k < |es| && !InArray(es[k].key, border) ==> PackableEntry(es[k], depth)
      decreases es, 1
    {
      hide WriteBlock.Contents, LegalEntries, PackableEntry, LegalEntry, EncodeHash, EncodePair;
      ghost var start := Contents();
      var j := 0;
      LegalFrom(es, 0);
      assert es[0..] == es;
      while j < |es|
        invariant 0 <= j <= |es| && Valid() && LegalEntries(es[j..])
        invariant Contents() + EncodeHash(es[j..], border) == start + EncodeHash(es, border)
        invariant forall k :: 0 <= k < j && !InArray(es[k].key, border) ==> PackableEntry(es[k], depth)
        decreases |es| - j
      {
        ghost var before := Contents();
        LegalAt(es, j);
        LegalFrom(es, j + 1);
        HashNext(es, j, border);
        if !InArray(es[j].key, border) {
          ok := PackPair(es[j], depth);
          if !ok {
            return;
          }
          ArrayText(before, EncodePair(es[j]), EncodeHash(es[j + 1..], border));
        }
        j := j + 1;
      }
      ok := true;
      HashDone(es, j, border);
      assert Contents() + [] == Contents();
    }

    method PackPair(e: Entry, depth: nat) returns (ok: bool)
      requires Valid() && LegalEntry(e)
      modifies this
      ensures Valid() && ok == PackableEntry(e, depth)
      ensures ok ==> Contents() == old(Contents()) + EncodePair(e)
      decreases e
    {
      hide WriteBlock.Contents, Encode, Packable;
      ghost var start := Contents();
      ok := PackOne(e.key, depth);
      if ok {
        ok := PackOne(e.value, depth);
        ArrayText(start, Encode(e.key), Encode(e.value));
      }
    }

    /** seri: the blocks are copied into one buffer. */
    method Seri() returns (buffer: array<Byte>)
      requires Valid()
      ensures fresh(buffer) && buffer[..] == Contents()
    {
      hide Flat;
      buffer := new Byte[len](_ => 0);
      var at, left, k := 0, len, 0;
      while left > 0
        invariant 0 <= at <= len && left == len - at && at <= buffer.Length
        invariant at < len ==> at == BLOCK_SIZE * k && k < |blocks|
        invariant buffer[..at] == Contents()[..at]
        decreases left
      {
        var n := if left >= BLOCK_SIZE then BLOCK_SIZE else left;
        BlockAt(blocks, ptr, k, n);
        MemCopy(buffer, at, blocks[k][..n]);
        at, left, k := at + n, left - n, k + 1;
      }
    }
  }

  predicate ArrayPackable(es: seq<Entry>, border: nat, depth: nat) {
    forall i :: 1 <= i <= border && Find(es, i).Some? ==> PackableEntry(es[Find(es, i).value], depth)
  }

  lemma ArrayNext(es: seq<Entry>, i: nat, border: nat)
    requires LegalEntries(es) && i <= border
    ensures Find(es, i).None? ==> EncodeArray(es, i, border) == [Tag(TYPE_NIL, 0)] + EncodeArray(es, i + 1, border)
    ensures Find(es, i).Some? ==>
              && LegalEntry(es[Find(es, i).value])
              && EncodeArray(es, i, border) == EncodeItem(es[Find(es, i).value]) + EncodeArray(es, i + 1, border)
  {
    if Find(es, i).Some? {
      LegalAt(es, Find(es, i).value);
    }
  }

  lemma ArrayDone(es: seq<Entry>, i: nat, border: nat)
    requires LegalEntries(es) && i > border
    ensures EncodeArray(es, i, border) == []
  {
  }

  lemma {:induction false} LegalFrom(es: seq<Entry>, j: nat)
    requires LegalEntries(es) && j <= |es|
    ensures LegalEntries(es[j..])
  {
    if j == 0 {
      assert es[0..] == es;
    } else {
      LegalFrom(es[1..], j - 1);
      assert es[1..][j - 1..] == es[j..];
    }
  }

  lemma HashNext(es: seq<Entry>, j: nat, border: nat)
    requires j < |es| && LegalEntries(es[j..])
    ensures LegalEntry(es[j]) && LegalEntries(es[j + 1..])
    ensures InArray(es[j].key, border) ==> EncodeHash(es[j..], border) == EncodeHash(es[j + 1..], border)
    ensures !InArray(es[j].key, border) ==> EncodeHash(es[j..], border) == EncodePair(es[j]) + EncodeHash(es[j + 1..], border)
  {
    assert es[j..][0] == es[j] && es[j..][1..] == es[j + 1..];
    assert [] + EncodeHash(es[j + 1..], border) == EncodeHash(es[j + 1..], border);
  }

  lemma HashDone(es: seq<Entry>, j: nat, border: nat)
    requires j == |es|
    ensures LegalEntries(es[j..]) && EncodeHash(es[j..], border) == []
  {
  }

  /** Every entry is packed, in the array part or behind it. */
  lemma AllPackable(es: seq<Entry>, border: nat, depth: nat)
    requires DistinctIndices(es) && ArrayPackable(es, border, depth)
    requires forall k :: 0 <= k < |es| && !InArray(es[k].key, border) ==> PackableEntry(es[k], depth)
    ensures forall k :: 0 <= k < |es| ==> PackableEntry(es[k], depth)
  {
    forall k | 0 <= k < |es| && InArray(es[k].key, border) ensures PackableEntry(es[k], depth) {
      FindAt(es, k);
    }
  }

  lemma {:induction false} FindAt(es: seq<Entry>, k: nat)
    requires DistinctIndices(es) && k < |es| && es[k].key.Integer?
    ensures Find(es, es[k].key.n) == Some(k)
  {
    if k > 0 {
      assert es[0].key != es[k].key;
      assert DistinctIndices(es[1..]) by {
        forall i, j | 0 <= i < j < |es[1..]| && es[1..][i].key.Integer? ensures es[1..][i].key != es[1..][j].key {
          assert es[i + 1].key != es[j + 1].key;
        }
      }
      FindAt(es[1..], k - 1);
    }
  }

  lemma TableParts(start: seq<Byte>, a: seq<Byte>, b: seq<Byte>, c: seq<Byte>, d: seq<Byte>)
    ensures start + a + b + c + d == start + (a + b + c + d)
  {
  }

  /** memcpy */
  method MemCopy(buffer: array<Byte>, at: nat, src: seq<Byte>)
    requires at + |src| <= buffer.Length
    modifies buffer
    ensures buffer[..at + |src|] == old(buffer[..at]) + src
  {
    forall i | 0 <= i < |src| {
      buffer[at + i] := src[i];
    }
  }

  /** The bytes of block `k` are where they belong. */
  lemma BlockAt(blocks: seq<Block>, ptr: nat, k: nat, n: nat)
    requires k < |blocks| && ptr <= BLOCK_SIZE && n <= BLOCK_SIZE
    requires BLOCK_SIZE * k + n <= BLOCK_SIZE * (|blocks| - 1) + ptr
    ensures var all := Flat(blocks[..|blocks| - 1]) + blocks[|blocks| - 1][..ptr];
            all[..BLOCK_SIZE * k + n] == all[..BLOCK_SIZE * k] + blocks[k][..n]
  {
    var last := |blocks| - 1;
    if k < last {
      FlatAt(blocks[..last], k);
      assert blocks[..last][k] == blocks[k];
    }
  }

  lemma {:induction false} FlatAt(blocks: seq<Block>, k: nat)
    requires k < |blocks|
    ensures BLOCK_SIZE * (k + 1) <= |Flat(blocks)|
    ensures Flat(blocks)[BLOCK_SIZE * k..BLOCK_SIZE * (k + 1)] == blocks[k]
  {
    var last := |blocks| - 1;
    if k < last {
      FlatAt(blocks[..last], k);
      assert blocks[..last][k] == blocks[k];
    }
  }

  // ----- the read cursor -----

  class ReadBlock {
    const buffer: seq<Byte>
    var len: nat
    var ptr: nat

    ghost predicate Valid()
      reads this
    {
      ptr + len == |buffer|
    }

    /** The bytes not read yet. */
    ghost function Rest(): (r: seq<Byte>)
      requires Valid()
      ensures |r| == len
      reads this
    {
      buffer[ptr..]
    }

    /** rball_init */
    constructor (bytes: seq<Byte>)
      ensures Valid() && Rest() == bytes
    {
      buffer, len, ptr := bytes, |bytes|, 0;
    }

    /** rb_read */
    method Read(sz: nat) returns (r: Option<seq<Byte>>)
      requires Valid()
      modifies this
      ensures Valid() && r.None? == Take(old(Rest()), sz).None?
      ensures r.None? ==> Rest() == old(Rest())
      ensures r.Some? ==> Take(old(Rest()), sz) == Some(Decoded(r.value, Rest()))
    {
      if len < sz {
        return None;
      }
      r := Some(buffer[ptr..ptr + sz]);
      assert buffer[ptr..][..sz] == r.value && buffer[ptr..][sz..] == buffer[ptr + sz..];
      ptr := ptr + sz;
      len := len - sz;
    }

    /** unpack_one */
    method UnpackOne() returns (r: Option<Lua>)
      requires Valid()
      modifies this
      ensures Valid() && Outcome(Decode(old(Rest())), r, Rest()) && len <= old(len) && (r.Some? ==> len < old(len))
      decreases len, 1
    {
      hide ReadBlock.Rest, DecodeValue;
      var t := Read(1);
      if t.None? {
        return None;
      }
      r := PushValue(t.value[0] as int % 8, t.value[0] as int / 8);
    }

    /** get_integer */
    method GetInteger(cookie: nat) returns (r: Option<int>)
      requires Valid()
      modifies this
      ensures Valid() && Outcome(DecodeInteger(cookie, old(Rest())), r, Rest()) && len <= old(len)
    {
      hide ReadBlock.Rest, FromLittle;
      if cookie == NUMBER_ZERO {
        return Some(0);
      }
      var width, modulus := 0, 0;
      if cookie == NUMBER_BYTE {
        width := 1;
      } else if cookie == NUMBER_WORD {
        width := 2;
      } else if cookie == NUMBER_DWORD {
        width, modulus := 4, 0x1_0000_0000;
      } else if cookie == NUMBER_QWORD {
        width, modulus := 8, 0x1_0000_0000_0000_0000;
      } else {
        return None;
      }
      var t := Read(width);
      if t.None? {
        return None;
      }
      var n := FromLittle(t.value);
      return Some(if modulus == 0 then n else Signed(n, modulus));
    }

    /** get_buffer */
    method GetBuffer(n: nat) returns (r: Option<Lua>)
      requires Valid()
      modifies this
      ensures Valid() && Outcome(DecodeBuffer(n, old(Rest())), r, Rest()) && len <= old(len)
    {
      hide ReadBlock.Rest, Take;
      var t := Read(n);
      if t.None? || n >= 0x8000_0000 {
        return None;
      }
      return Some(String(t.value));
    }

    /** The long strings of push_value */
    method GetLong(width: nat) returns (r: Option<Lua>)
      requires Valid()
      modifies this
      ensures Valid() && Outcome(DecodeLong(width, old(Rest())), r, Rest()) && len <= old(len)
    {
      hide ReadBlock.Rest, Take, FromLittle, DecodeBuffer;
      var t := Read(width);
      if t.None? {
        return None;
      }
      r := GetBuffer(FromLittle(t.value));
    }

    /** push_value */
    method PushValue(kind: nat, cookie: nat) returns (r: Option<Lua>)
      requires Valid()
      modifies this
      ensures Valid() && Outcome(DecodeValue(kind, cookie, old(Rest())), r, Rest()) && len <= old(len)
      decreases len, 4
    {
      hide ReadBlock.Rest, Take, DecodeBuffer, DecodeLong, DecodeTable, DecodeInteger, DecodeSize;
      if kind == TYPE_NIL {
        r := Some(Nil);
      } else if kind == TYPE_BOOLEAN {
        r := Some(Boolean(cookie != 0));
      } else if kind == TYPE_NUMBER && cookie == NUMBER_REAL {
        var t := Read(8);
        r := if t.None? then None else Some(Real(t.value));
      } else if kind == TYPE_NUMBER {
        var n := GetInteger(cookie);
        r := if n.None? then None else Some(Integer(n.value));
      } else if kind == TYPE_USERDATA {
        var t := Read(8);
        r := if t.None? then None else Some(Pointer(t.value));
      } else if kind == TYPE_SHORT_STRING {
        r := GetBuffer(cookie);
      } else if kind == TYPE_LONG_STRING {
        if cookie == 2 || cookie == 4 {
          r := GetLong(cookie);
        } else {
          r := None;
        }
      } else if kind == TYPE_TABLE {
        var n := GetSize(cookie);
        if n.None? {
          return None;
        }
        r := UnpackTable(n.value);
      } else {
        r := None;
      }
    }

    /** The size of the array part in unpack_table */
    method GetSize(cookie: nat) returns (r: Option<int>)
      requires Valid()
      modifies this
      ensures Valid() && Outcome(DecodeSize(cookie, old(Rest())), r, Rest()) && len <= old(len)
    {
      hide ReadBlock.Rest, DecodeInteger;
      if cookie != MAX_COOKIE - 1 {
        return Some(cookie);
      }
      var t := Read(1);
      if t.None? || t.value[0] as int % 8 != TYPE_NUMBER || t.value[0] as int / 8 == NUMBER_REAL {
        return None;
      }
      var n := GetInteger(t.value[0] as int / 8);
      if n.None? {
        return None;
      }
      return Some(Signed(n.value % 0x1_0000_0000, 0x1_0000_0000));
    }

    /** unpack_table behind the size */
    method UnpackTable(n: int) returns (r: Option<Lua>)
      requires Valid()
      modifies this
      ensures Valid() && Outcome(DecodeTable(n, old(Rest())), r, Rest()) && len <= old(len)
      decreases len, 3
    {
      hide ReadBlock.Rest, DecodeArray, DecodePairs;
      var items := UnpackArray(n);
      if items.None? {
        return None;
      }
      var pairs := UnpackPairs();
      if pairs.None? {
        return None;
      }
      return Some(Table(if n < 0 then 0 else n, items.value + pairs.value));
    }

    /** The loop over the array part */
    method UnpackArray(n: int) returns (r: Option<seq<Entry>>)
      requires Valid()
      modifies this
      ensures Valid() && Outcome(DecodeArray(1, n, old(Rest())), r, Rest()) && len <= old(len)
      decreases len, 2
    {
      hide ReadBlock.Rest, Decode, ArrayEntry;
      var i := 1;
      var es: seq<Entry> := [];
      PrependNone(DecodeArray(1, n, Rest()));
      while i <= n
        invariant Valid() && 1 <= i && len <= old(len)
        invariant DecodeArray(1, n, old(Rest())) == Prepend(es, DecodeArray(i, n, Rest()))
        decreases n - i
      {
        ghost var before := Rest();
        var v := UnpackOne();
        if v.None? {
          return None;
        }
        PrependMore(es, ArrayEntry(i, v.value), DecodeArray(i + 1, n, Rest()));
        es := es + ArrayEntry(i, v.value);
        i := i + 1;
      }
      assert es + [] == es;
      return Some(es);
    }

    /** The loop over the pairs, which ends at a nil key */
    method UnpackPairs() returns (r: Option<seq<Entry>>)
      requires Valid()
      modifies this
      ensures Valid() && Outcome(DecodePairs(old(Rest())), r, Rest()) && len <= old(len)
      decreases len, 2
    {
      hide ReadBlock.Rest, Decode;
      var es: seq<Entry> := [];
      PrependNone(DecodePairs(Rest()));
      while true
        invariant Valid() && len <= old(len)
        invariant DecodePairs(old(Rest())) == Prepend(es, DecodePairs(Rest()))
        decreases len
      {
        var k := UnpackOne();
        if k.None? {
          return None;
        }
        if k.value.Nil? {
          assert es + [] == es;
          return Some(es);
        }
        var v := UnpackOne();
        if v.None? {
          return None;
        }
        PrependMore(es, [Entry(k.value, v.value)], DecodePairs(Rest()));
        es := es + [Entry(k.value, v.value)];
      }
    }
  }

  /** A reading method returns what decoding says and leaves the cursor behind it. */
  ghost predicate Outcome<T>(d: Option<Decoded<T>>, r: Option<T>, rest: seq<Byte>) {
    d == if r.None? then None else Some(Decoded(r.value, rest))
  }

  /** Entries read before come in front. */
  function Prepend(es: seq<Entry>, d: Option<Decoded<seq<Entry>>>): Option<Decoded<seq<Entry>>> {
    if d.None? then None else Some(Decoded(es + d.value.value, d.value.rest))
  }

  lemma PrependNone(d: Option<Decoded<seq<Entry>>>)
    ensures Prepend([], d) == d
  {
    if d.Some? {
      assert [] + d.value.value == d.value.value;
    }
  }

  lemma PrependMore(a: seq<Entry>, b: seq<Entry>, d: Option<Decoded<seq<Entry>>>)
    ensures Prepend(a, Prepend(b, d)) == Prepend(a + b, d)
  {
    if d.Some? {
      assert a + (b + d.value.value) == a + b + d.value.value;
    }
  }

  // ----- whole messages -----

  /** luaseri_pack; None is an error. */
  method PackAll(vs: seq<Lua>) returns (r: Option<array<Byte>>)
    requires forall v :: v in vs ==> Legal(v)
    ensures r.Some? <==> forall v :: v in vs ==> Packable(v, 0)
    ensures r.Some? ==> fresh(r.value) && r.value[..] == EncodeAll(vs)
  {
    hide WriteBlock.Contents, Encode, Packable, Legal;
    var wb := new WriteBlock();
    for k := 0 to |vs|
      invariant wb.Valid() && fresh(wb)
      invariant wb.Contents() + EncodeAll(vs[k..]) == EncodeAll(vs)
      invariant forall j :: 0 <= j < k ==> Packable(vs[j], 0)
    {
      ghost var before := wb.Contents();
      var ok := wb.PackOne(vs[k], 0);
      if !ok {
        return None;
      }
      assert vs[k..][1..] == vs[k + 1..];
      ArrayText(before, Encode(vs[k]), EncodeAll(vs[k + 1..]));
    }
    assert wb.Contents() + [] == wb.Contents();
    var buffer := wb.Seri();
    return Some(buffer);
  }

  /** luaseri_unpack */
  method UnpackAll(bytes: seq<Byte>) returns (r: Option<seq<Lua>>)
    ensures r == DecodeAll(bytes)
  {
    hide ReadBlock.Rest, Decode;
    var rb := new ReadBlock(bytes);
    var vs: seq<Lua> := [];
    assert DecodeAll(bytes).Some? ==> [] + DecodeAll(bytes).value == DecodeAll(bytes).value;
    while rb.len > 0
      invariant rb.Valid() && fresh(rb)
      invariant DecodeAll(bytes) ==
                (var more := DecodeAll(rb.Rest()); if more.None? then None else Some(vs + more.value))
      decreases rb.len
    {
      var v := rb.UnpackOne();
      if v.None? {
        return None;
      }
      ghost var more := DecodeAll(rb.Rest());
      assert more.Some? ==> vs + ([v.value] + more.value) == vs + [v.value] + more.value;
      vs := vs + [v.value];
    }
    assert vs + [] == vs;
    return Some(vs);
  }

  /** From one service to another: every list of values within the depth limit arrives with its meaning. */
  method Transfer(vs: seq<Lua>) returns (r: Option<seq<Lua>>)
    requires forall v :: v in vs ==> Legal(v)
    ensures r.Some? <==> forall v :: v in vs ==> Supported(v) && Nesting(v) <= MAX_DEPTH
    ensures r.Some? ==> |r.value| == |vs| && forall k :: 0 <= k < |vs| ==> Meaning(r.value[k]) == Meaning(vs[k])
  {
    hide Encode, Decode, Packable, Legal, Meaning, Supported, EncodeAll, DecodeAll, Nesting, Rebuilt;
    forall v | v in vs ensures Packable(v, 0) <==> Supported(v) && Nesting(v) <= MAX_DEPTH {
      PackableIff(v, 0);
    }
    var packed := PackAll(vs);
    if packed.None? {
      return None;
    }
    r := UnpackAll(packed.value[..]);
    ListRoundTrip(vs);
  }
}
