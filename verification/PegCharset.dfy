/**
  Character sets as lpcode.c holds them, in bitmaps of 32 bytes, and the loops over these bytes that
  classify a set and compare two of them. They agree with the sets that the other modules use.
 */
module PegCharset {
  import opened Common
  import opened PegSemantics
  import opened PegCodegen

  const CHARSETSIZE := 32

  type Bitmap = b: seq<bv8> | |b| == CHARSETSIZE witness seq(CHARSETSIZE, _ => 0)

  /** 1 << k */
  function Mask(k: nat): bv8
    requires k < 8
  {
    if k == 0 then 0x01 else if k == 1 then 0x02 else if k == 2 then 0x04 else if k == 3 then 0x08
    else if k == 4 then 0x10 else if k == 5 then 0x20 else if k == 6 then 0x40 else 0x80
  }

  predicate Bit(x: bv8, k: nat)
    requires k < 8
  {
    x & Mask(k) != 0
  }

  /** testchar */
  predicate Test(m: Bitmap, c: Byte) {
    Bit(m[c as int / 8], c as int % 8)
  }

  /** The characters of a bitmap */
  function Chars(m: Bitmap): Charset {
    set c: Byte | 0 <= c < 256 && Test(m, c)
  }

  function CharAt(i: nat, k: nat): Byte
    requires i < CHARSETSIZE && k < 8
  {
    8 * i + k
  }

  lemma InChars(m: Bitmap, i: nat, k: nat)
    requires i < CHARSETSIZE && k < 8
    ensures CharAt(i, k) in Chars(m) <==> Bit(m[i], k)
  {
  }

  // ----- bytes -----

  /** Has the byte one bit only? */
  predicate OneBit(x: bv8) {
    x != 0 && x & (x - 1) == 0
  }

  lemma NoBits(k: nat)
    requires k < 8
    ensures !Bit(0, k) && Bit(0xFF, k)
  {
  }

  /** The search for the bit in a byte with a single one */
  function BitOf(x: bv8): (k: nat)
    ensures k < 8
  {
    var high := if x & 0xF0 != 0 then 4 else 0;
    var y := if x & 0xF0 != 0 then x >> 4 else x;
    var mid := if y & 0x0C != 0 then 2 else 0;
    var z := if y & 0x0C != 0 then y >> 2 else y;
    high + mid + if z & 0x02 != 0 then 1 else 0
  }

  lemma OneBitIs(x: bv8)
    requires OneBit(x)
    ensures x == Mask(BitOf(x))
  {
    assert x == 0x01 || x == 0x02 || x == 0x04 || x == 0x08 || x == 0x10 || x == 0x20 || x == 0x40 || x == 0x80;
  }

  lemma OnlyBit(x: bv8, k: nat)
    requires OneBit(x) && k < 8
    ensures Bit(x, k) <==> k == BitOf(x)
  {
    OneBitIs(x);
  }

  /** A byte that is not empty, full or of one bit has two bits on and one off. */
  lemma MixedByte(x: bv8) returns (a: nat, b: nat, off: nat)
    requires x != 0 && x != 0xFF && !OneBit(x)
    ensures a < b < 8 && off < 8 && Bit(x, a) && Bit(x, b) && !Bit(x, off)
  {
    off := if !Bit(x, 0) then 0 else if !Bit(x, 1) then 1 else if !Bit(x, 2) then 2 else if !Bit(x, 3) then 3
    else if !Bit(x, 4) then 4 else if !Bit(x, 5) then 5 else if !Bit(x, 6) then 6 else 7;
    a := if Bit(x, 0) then 0 else if Bit(x, 1) then 1 else if Bit(x, 2) then 2 else if Bit(x, 3) then 3
    else if Bit(x, 4) then 4 else if Bit(x, 5) then 5 else 6;
    b := if Bit(x, 7) then 7 else if Bit(x, 6) then 6 else if Bit(x, 5) then 5 else if Bit(x, 4) then 4
    else if Bit(x, 3) then 3 else if Bit(x, 2) then 2 else 1;
  }

  // ----- charsettype -----

  /** A set with two characters in it and one outside has no cheaper form. */
  lemma Generic(cs: Charset, a: Byte, b: Byte, off: Byte)
    requires a in cs && b in cs && a != b && off !in cs
    ensures KindOf(cs) == SetKind
  {
    assert off in FullSet;
  }

  lemma GenericByte(m: Bitmap, i: nat, a: nat, j: nat, b: nat, k: nat, off: nat)
    requires i < CHARSETSIZE && j < CHARSETSIZE && k < CHARSETSIZE && a < 8 && b < 8 && off < 8 && (i != j || a != b)
    requires Bit(m[i], a) && Bit(m[j], b) && !Bit(m[k], off)
    ensures KindOf(Chars(m)) == SetKind
  {
    InChars(m, i, a);
    InChars(m, j, b);
    InChars(m, k, off);
    Generic(Chars(m), CharAt(i, a), CharAt(j, b), CharAt(k, off));
  }

  /** What the count says about the first `i` bytes. */
  ghost predicate Counted(m: Bitmap, i: nat, count: nat, candidate: int)
    requires i <= CHARSETSIZE
  {
    || (count == 0 && forall j :: 0 <= j < i ==> m[j] == 0)
    || (count == 1 && 0 <= candidate < i && OneBit(m[candidate]) && forall j :: 0 <= j < i && j != candidate ==> m[j] == 0)
    || (count == 8 * i && i > 0 && forall j :: 0 <= j < i ==> m[j] == 0xFF)
  }

  /** charsettype */
  method CharsetType(m: Bitmap) returns (kind: CharsetKind)
    ensures kind == KindOf(Chars(m))
  {
    hide Bit, Chars, KindOf, BitOf;
    var count, candidate := 0, -1;
    for i := 0 to CHARSETSIZE
      invariant Counted(m, i, count, candidate)
    {
      var b := m[i];
      if b == 0 {
        if count > 1 {
          NoBits(0);
          NoBits(1);
          GenericByte(m, 0, 0, 0, 1, i, 0);
          return SetKind;
        }
      } else if b == 0xFF {
        if count < i * 8 {
          FullAfterGap(m, i, count, candidate);
          return SetKind;
        }
        count := count + 8;
      } else if OneBit(b) {
        if count > 0 {
          OneAfterSome(m, i, count, candidate);
          return SetKind;
        }
        count, candidate := 1, i;
      } else {
        var x, y, off := MixedByte(b);
        GenericByte(m, i, x, i, y, i, off);
        return SetKind;
      }
    }
    if count == 0 {
      EmptyChars(m);
      return EmptyKind;
    } else if count == 1 {
      SingleChar(m, candidate);
      return SingleKind(CharAt(candidate, BitOf(m[candidate])));
    } else {
      FullChars(m);
      return FullKind;
    }
  }

  lemma FullAfterGap(m: Bitmap, i: nat, count: nat, candidate: int)
    requires i < CHARSETSIZE && Counted(m, i, count, candidate) && count < 8 * i && m[i] == 0xFF
    ensures KindOf(Chars(m)) == SetKind
  {
    hide Bit, BitOf;
    NoBits(0);
    NoBits(1);
    if m[0] == 0 {
      GenericByte(m, i, 0, i, 1, 0, 0);
    } else {
      OnlyBit(m[0], 0);
      OnlyBit(m[0], 1);
      GenericByte(m, i, 0, i, 1, 0, if BitOf(m[0]) == 0 then 1 else 0);
    }
  }

  lemma OneAfterSome(m: Bitmap, i: nat, count: nat, candidate: int)
    requires i < CHARSETSIZE && Counted(m, i, count, candidate) && count > 0 && OneBit(m[i])
    ensures KindOf(Chars(m)) == SetKind
  {
    hide Bit, BitOf;
    var here := BitOf(m[i]);
    var off := if here == 0 then 1 else 0;
    OnlyBit(m[i], here);
    OnlyBit(m[i], off);
    if count == 1 {
      OnlyBit(m[candidate], BitOf(m[candidate]));
      GenericByte(m, candidate, BitOf(m[candidate]), i, here, i, off);
    } else {
      NoBits(0);
      NoBits(1);
      GenericByte(m, 0, 0, 0, 1, i, off);
    }
  }

  lemma EmptyChars(m: Bitmap)
    requires forall j :: 0 <= j < CHARSETSIZE ==> m[j] == 0
    ensures KindOf(Chars(m)) == EmptyKind
  {
    hide Bit;
    forall c: Byte ensures !Test(m, c) {
      NoBits(c as int % 8);
    }
    assert Chars(m) == {};
  }

  lemma FullChars(m: Bitmap)
    requires forall j :: 0 <= j < CHARSETSIZE ==> m[j] == 0xFF
    ensures KindOf(Chars(m)) == FullKind
  {
    hide Bit;
    forall c: Byte ensures Test(m, c) {
      NoBits(c as int % 8);
    }
    assert Chars(m) == FullSet;
    var zero: Byte, one: Byte := 0, 1;
    assert zero in FullSet && one in FullSet;
  }

  lemma SingleChar(m: Bitmap, candidate: nat)
    requires candidate < CHARSETSIZE && OneBit(m[candidate])
    requires forall j :: 0 <= j < CHARSETSIZE && j != candidate ==> m[j] == 0
    ensures KindOf(Chars(m)) == SingleKind(CharAt(candidate, BitOf(m[candidate])))
  {
    hide Bit, BitOf;
    var c := CharAt(candidate, BitOf(m[candidate]));
    forall d: Byte ensures Test(m, d) <==> d == c {
      NoBits(d as int % 8);
      if d as int / 8 == candidate {
        OnlyBit(m[candidate], d as int % 8);
      }
    }
    assert Chars(m) == {c};
    assert c in Chars(m);
  }

  // ----- cs_disjoint -----

  lemma CommonBit(x: bv8, y: bv8) returns (k: nat)
    requires x & y != 0
    ensures k < 8 && Bit(x, k) && Bit(y, k)
  {
    k := if Bit(x & y, 0) then 0 else if Bit(x & y, 1) then 1 else if Bit(x & y, 2) then 2 else if Bit(x & y, 3) then 3
    else if Bit(x & y, 4) then 4 else if Bit(x & y, 5) then 5 else if Bit(x & y, 6) then 6 else 7;
  }

  lemma NoCommonBit(x: bv8, y: bv8, k: nat)
    requires x & y == 0 && k < 8
    ensures !(Bit(x, k) && Bit(y, k))
  {
  }

  /** cs_disjoint */
  method CsDisjoint(m: Bitmap, n: Bitmap) returns (r: bool)
    ensures r == Disjoint(Chars(m), Chars(n))
  {
    hide Bit, Chars;
    for i := 0 to CHARSETSIZE
      invariant forall j :: 0 <= j < i ==> m[j] & n[j] == 0
    {
      if m[i] & n[i] != 0 {
        var k := CommonBit(m[i], n[i]);
        InChars(m, i, k);
        InChars(n, i, k);
        assert CharAt(i, k) in Chars(m) * Chars(n);
        return false;
      }
    }
    NothingCommon(m, n);
    return true;
  }

  lemma NothingCommon(m: Bitmap, n: Bitmap)
    requires forall j :: 0 <= j < CHARSETSIZE ==> m[j] & n[j] == 0
    ensures Disjoint(Chars(m), Chars(n))
  {
    hide Bit;
    forall c: Byte ensures !(Test(m, c) && Test(n, c)) {
      NoCommonBit(m[c as int / 8], n[c as int / 8], c as int % 8);
    }
  }
}
