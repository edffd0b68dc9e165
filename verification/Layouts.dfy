/**
  The bytes themselves, by position and as numbers: the head of a packet, the tags of serialized
  values, the length behind a hashed message, and the frame of a BSON document.
 */
module Layouts {
  import opened Common
  import opened LittleEndian
  import Framing
  import opened SeriFormat
  import Sha1
  import Sha1Block
  import Words
  import Bson
  import BsonPack

  // ----- numbers -----

  /** Byte `i` of a number written low byte first is its digit of weight 256^i. */
  lemma {:induction false} LittleDigit(n: nat, width: nat, i: nat)
    requires i < width
    ensures Power(i) > 0 && Little(n, width)[i] as int == n / Power(i) % 256
  {
    if i > 0 {
      LittleDigit(n / 256, width - 1, i - 1);
      assert Little(n, width)[i] == Little(n / 256, width - 1)[i - 1];
      DivTwice(n, Power(i - 1));
    }
  }

  lemma DivTwice(n: nat, p: nat)
    requires p > 0
    ensures n / 256 / p == n / (256 * p)
  {
    var q, r := n / 256 / p, n / 256 % p;
    assert n / 256 == q * p + r;
    assert n == 256 * (q * p + r) + n % 256;
    assert n == q * (256 * p) + (256 * r + n % 256);
    assert 256 * r + n % 256 < 256 * p;
    DivUnique(n, 256 * p, q, 256 * r + n % 256);
  }

  lemma DivUnique(n: nat, d: nat, q: nat, r: nat)
    requires n == q * d + r && r < d
    ensures n / d == q
  {
    var e := n / d - q;
    assert n == (n / d) * d + n % d;
    assert e * d == r - n % d;
    AtLeast(e, d);
  }

  lemma AtLeast(e: int, d: nat)
    ensures e >= 1 ==> e * d >= d
    ensures e <= -1 ==> e * d + d <= 0
  {
  }

  // ----- netpack -----

  /** A packed message is its length in two bytes, high one first, and the message. */
  lemma PacketLayout(m: seq<Byte>)
    ensures Framing.Pack(m).Ok? <==> |m| < 65536
    ensures Framing.Pack(m).Ok? ==>
              var b := Framing.Pack(m).value;
              |b| == 2 + |m| && 256 * (b[0] as int) + b[1] as int == |m| && b[2..] == m
    ensures |m| < 256 ==> Framing.Pack(m) == Ok([0, |m|] + m)
  {
    if |m| < 65536 {
      assert |m| / 256 % 256 == |m| / 256;
    }
  }

  /** The first packet of a stream is as long as its first two bytes say, high one first; if they are not all there, there is none. */
  lemma FirstPacket(b: seq<Byte>)
    ensures var p := Framing.Parse(b);
            if |b| >= 2 && 2 + 256 * (b[0] as int) + b[1] as int <= |b|
            then p.packets != [] && p.packets[0] == b[2..2 + 256 * (b[0] as int) + b[1] as int]
            else p.packets == [] && p.rest == b
  {
    Framing.ParseStep(b);
  }

  // ----- seri -----

  /** Integers: one byte for 0, then the smallest of 1, 2, 4 and 8 bytes, low byte first, behind 10, 18, 34 and 50. */
  lemma IntegerLayout(n: int)
    requires -0x8000_0000_0000_0000 <= n < 0x8000_0000_0000_0000
    ensures var b := Encode(Integer(n));
            && (n == 0 ==> b == [2])
            && (0 < n < 256 ==> b == [10, n])
            && (256 <= n < 65536 ==> b == [18, n % 256, n / 256])
            && (65536 <= n < 0x8000_0000 ==> |b| == 5 && b[0] == 34 && FromLittle(b[1..]) == n)
            && (-0x8000_0000 <= n < 0 ==> |b| == 5 && b[0] == 34 && FromLittle(b[1..]) == 0x1_0000_0000 + n)
            && (0x8000_0000 <= n ==> |b| == 9 && b[0] == 50 && FromLittle(b[1..]) == n)
            && (n < -0x8000_0000 ==> |b| == 9 && b[0] == 50 && FromLittle(b[1..]) == 0x1_0000_0000_0000_0000 + n)
  {
    Powers();
    if 0 < n < 256 {
      OneDigit(n);
    } else if 256 <= n < 65536 {
      TwoDigits(n);
    } else if -0x8000_0000 <= n < 0x8000_0000 {
      LittleRoundTrip(Unsigned(n, 0x1_0000_0000), 4);
    } else {
      LittleRoundTrip(Unsigned(n, 0x1_0000_0000_0000_0000), 8);
    }
  }

  lemma OneDigit(n: nat)
    requires n < 256
    ensures Little(n, 1) == [n]
  {
  }

  lemma TwoDigits(n: nat)
    requires n < 65536
    ensures Little(n, 2) == [n % 256, n / 256]
  {
    OneDigit(n / 256);
  }

  /** Strings: the length in the first byte below 32, in two bytes behind 21, or in four behind 37. */
  lemma StringLayout(s: seq<Byte>)
    requires |s| < 0x8000_0000
    ensures var b := Encode(String(s));
            && (|s| < 32 ==> b == [4 + 8 * |s|] + s)
            && (32 <= |s| < 65536 ==> b == [21, |s| % 256, |s| / 256] + s)
            && (65536 <= |s| ==> |b| == 5 + |s| && b[0] == 37 && FromLittle(b[1..5]) == |s| && b[5..] == s)
  {
    Powers();
    if 32 <= |s| < 65536 {
      TwoDigits(|s|);
      assert [21] + [|s| % 256, |s| / 256] + s == [21, |s| % 256, |s| / 256] + s;
    } else if 65536 <= |s| {
      LittleRoundTrip(|s|, 4);
      var b := Encode(String(s));
      assert b[1..5] == Little(|s|, 4);
    }
  }

  /** Tables begin with the size of the array part, in the first byte below 31 or packed behind 254, and end with a nil. */
  lemma TableLayout(border: nat, es: seq<Entry>)
    requires Legal(Table(border, es))
    ensures var b := Encode(Table(border, es));
            && b != [] && b[|b| - 1] == 0
            && (border < 31 ==> b[0] as int == 6 + 8 * border)
            && (31 <= border ==> b[0] == 254 && Encode(Integer(border)) <= b[1..])
  {
    hide EncodeArray, EncodeHash, Legal;
    assert border < 0x8000_0000 && LegalEntries(es) by { TableLegal(border, es); }
    var size := EncodeSize(border);
    var items, pairs := EncodeArray(es, 1, border), EncodeHash(es, border);
    var b := Encode(Table(border, es));
    assert b == size + items + pairs + [0];
    if 31 <= border {
      assert size == [254] + EncodeInteger(border);
      assert b[1..] == EncodeInteger(border) + (items + pairs + [0]);
    } else {
      assert size == [6 + 8 * border];
    }
  }

  lemma TableLegal(border: nat, es: seq<Entry>)
    requires Legal(Table(border, es))
    ensures border < 0x8000_0000 && LegalEntries(es)
  {
  }

  /** The other types: booleans and nil in one byte, numbers and pointers of eight bytes behind 66 and 3. */
  lemma ScalarLayout(b: bool, bits: seq<Byte>)
    requires |bits| == 8
    ensures Encode(Boolean(b)) == [if b then 9 else 1]
    ensures Legal(Real(bits)) && Encode(Real(bits)) == [66] + bits
    ensures Legal(Pointer(bits)) && Encode(Pointer(bits)) == [3] + bits
    ensures Encode(Nil) == [0]
  {
  }

  // ----- sha1 -----

  /** Byte `i` of the weight 256^(3-i) of a word */
  lemma WordLayout(a: bv8, b: bv8, c: bv8, d: bv8)
    ensures var w := Words.Word(a, b, c, d);
            && w >> 24 == a as bv32 && (w >> 16) & 0xFF == b as bv32
            && (w >> 8) & 0xFF == c as bv32 && w & 0xFF == d as bv32
  {
  }

  /** The digest is the five registers, each with its high byte first. */
  lemma DigestLayout(s: Sha1Block.State)
    ensures var d := Sha1.Digest(s);
            && Words.Word(d[0], d[1], d[2], d[3]) == s.a && Words.Word(d[4], d[5], d[6], d[7]) == s.b
            && Words.Word(d[8], d[9], d[10], d[11]) == s.c && Words.Word(d[12], d[13], d[14], d[15]) == s.d
            && Words.Word(d[16], d[17], d[18], d[19]) == s.e
  {
    hide Words.Word, Words.Byte0, Words.Byte1, Words.Byte2, Words.Byte3;
    Words.WordOfBytes(s.a);
    Words.WordOfBytes(s.b);
    Words.WordOfBytes(s.c);
    Words.WordOfBytes(s.d);
    Words.WordOfBytes(s.e);
  }

  function Digit(b: bv8): nat {
    b as nat
  }

  /** The bytes as a number, high byte first */
  function FromBig(b: seq<bv8>): nat {
    if b == [] then 0 else 256 * FromBig(b[..|b| - 1]) + Digit(b[|b| - 1])
  }

  lemma {:induction false} BigMore(b: seq<bv8>, c: bv8)
    ensures FromBig(b + [c]) == 256 * FromBig(b) + Digit(c)
  {
    hide Digit;
    assert (b + [c])[..|b|] == b;
  }

  lemma BigFour(w: seq<bv8>, a: bv8, b: bv8, c: bv8, d: bv8)
    ensures FromBig(w + [a, b, c, d])
         == 0x1_0000_0000 * FromBig(w) + (((Digit(a) * 256 + Digit(b)) * 256 + Digit(c)) * 256 + Digit(d))
  {
    hide Digit, FromBig;
    BigMore(w, a);
    BigMore(w + [a], b);
    BigMore(w + [a] + [b], c);
    BigMore(w + [a] + [b] + [c], d);
    assert w + [a] + [b] + [c] + [d] == w + [a, b, c, d];
  }

  lemma ByteBack(n: nat)
    requires n < 256
    ensures Digit(n as bv8) == n
  {
  }

  lemma CountDigit(count: nat, unit: nat)
    requires unit > 0
    ensures Digit(Sha1.CountByte(count, unit)) == count / unit % 256
  {
    hide Digit;
    var n := count / unit % 256;
    assert n < 256;
    ByteBack(n);
  }

  lemma CountWord(w: seq<bv8>, n: nat)
    requires n < 0x1_0000_0000
    ensures FromBig(w + [Sha1.CountByte(n, 0x100_0000), Sha1.CountByte(n, 0x1_0000), Sha1.CountByte(n, 0x100), Sha1.CountByte(n, 1)])
         == 0x1_0000_0000 * FromBig(w) + n
  {
    hide Digit, FromBig, Sha1.CountByte;
    BigFour(w, Sha1.CountByte(n, 0x100_0000), Sha1.CountByte(n, 0x1_0000), Sha1.CountByte(n, 0x100), Sha1.CountByte(n, 1));
    CountDigit(n, 0x100_0000);
    CountDigit(n, 0x1_0000);
    CountDigit(n, 0x100);
    CountDigit(n, 1);
    FourDigits(n);
  }

  /** A 32-bit word from its four digits */
  lemma FourDigits(n: nat)
    requires n < 0x1_0000_0000
    ensures n == ((n / 0x100_0000 % 256 * 256 + n / 0x1_0000 % 256) * 256 + n / 0x100 % 256) * 256 + n % 256
  {
    assert n / 0x100 == n / 0x1_0000 * 256 + n / 0x100 % 256;
    assert n / 0x1_0000 == n / 0x100_0000 * 256 + n / 0x1_0000 % 256;
  }

  lemma CountLayout(high: nat, low: nat)
    requires high < 0x1_0000_0000 && low < 0x1_0000_0000
    ensures FromBig(Sha1.CountBytes(high, low)) == high * 0x1_0000_0000 + low
  {
    hide FromBig, Sha1.CountByte;
    var first := [Sha1.CountByte(high, 0x100_0000), Sha1.CountByte(high, 0x1_0000), Sha1.CountByte(high, 0x100), Sha1.CountByte(high, 1)];
    CountWord([], high);
    assert [] + first == first;
    NoBytes();
    CountWord(first, low);
    assert Sha1.CountBytes(high, low)
        == first + [Sha1.CountByte(low, 0x100_0000), Sha1.CountByte(low, 0x1_0000), Sha1.CountByte(low, 0x100), Sha1.CountByte(low, 1)];
  }

  lemma NoBytes()
    ensures FromBig([]) == 0
  {
  }

  /** The padded message: the message, a byte 0x80, as few zeros as make whole blocks, and 8 times the length modulo 2^64, high byte first. */
  lemma PaddingLayout(m: seq<bv8>)
    ensures var p, n := Sha1.Padded(m), |m|;
            && |p| % 64 == 0 && n + 9 <= |p| < n + 9 + 64
            && p[..n] == m && p[n] == 0x80 && (forall i :: n < i < |p| - 8 ==> p[i] == 0)
            && FromBig(p[|p| - 8..]) == 8 * n % 0x1_0000_0000_0000_0000
  {
    hide FromBig, Sha1.CountBytes;
    var n := |m|;
    var high, low := Sha1.High(n), Sha1.Low(n);
    CountLayout(high, low);
    assert Sha1.Padded(m)[|Sha1.Padded(m)| - 8..] == Sha1.CountBytes(high, low);
    HighLow(8 * n);
  }

  lemma HighLow(n: nat)
    ensures n / 0x1_0000_0000 % 0x1_0000_0000 * 0x1_0000_0000 + n % 0x1_0000_0000 == n % 0x1_0000_0000_0000_0000
  {
  }

  // ----- bson -----

  /** A document is its own size in four bytes, low one first, its fields, and a zero. */
  lemma DocumentLayout(fs: seq<Bson.Field>)
    requires |BsonPack.DictBytes(fs)| < 0x8000_0000
    ensures var b := BsonPack.DictBytes(fs);
            && |b| >= 5 && FromLittle(b[..4]) == |b| && b[|b| - 1] == 0 && b[4..|b| - 1] == BsonPack.FieldsBytes(fs)
  {
    hide BsonPack.FieldsBytes;
    Powers();
    LittleRoundTrip(|BsonPack.DictBytes(fs)|, 4);
    assert BsonPack.DictBytes(fs)[..4] == Little(|BsonPack.DictBytes(fs)|, 4);
  }

  /** The type bytes of the BSON specification, version 1.1, in front of the key. */
  lemma FieldLayout(key: seq<Byte>, v: Bson.Value)
    ensures var b := BsonPack.FieldBytes(Bson.Field(key, v));
            && |b| >= 2 + |key| && b[1..1 + |key|] == key && b[1 + |key|] == 0
            && (v.Document? ==> b[0] == 0x03) && (v.Array? ==> b[0] == 0x04)
            && (v.Leaf? ==> b[0] == v.kind && b[2 + |key|..] == v.payload)
  {
  }

  /** How many bytes unpack_dict reads for the types of the specification, or that there are too few. */
  lemma PayloadLayout(b: seq<Byte>)
    ensures Bson.LeafSize(0x01, b) == Bson.LeafSize(0x09, b) == Bson.LeafSize(0x11, b) == Bson.LeafSize(0x12, b)
         == if |b| < 8 then None else Some(8)
    ensures Bson.LeafSize(0x07, b) == if |b| < 12 then None else Some(12)
    ensures Bson.LeafSize(0x08, b) == if |b| < 1 then None else Some(1)
    ensures Bson.LeafSize(0x10, b) == if |b| < 4 then None else Some(4)
    ensures Bson.LeafSize(0x0A, b) == Bson.LeafSize(0x7F, b) == Bson.LeafSize(0xFF, b) == Some(0)
    // a string counts its closing zero, binary data not its subtype, a pointer not its object id
    ensures |b| >= 4 && 0 <= Bson.Int32(b) ==>
              var n := Bson.Int32(b);
              && Bson.LeafSize(0x02, b) == (if n == 0 || |b| < 4 + n then None else Some(4 + n))
              && Bson.LeafSize(0x0D, b) == Bson.LeafSize(0x0E, b) == (if |b| < 4 + n then None else Some(4 + n))
              && Bson.LeafSize(0x05, b) == (if |b| < 5 + n then None else Some(5 + n))
              && Bson.LeafSize(0x0C, b) == (if |b| < 16 + n then None else Some(16 + n))
  {
    hide Bson.Int32;
  }

  /** The type bytes of the values that packing makes of numbers, strings, binary data, dates and timestamps. */
  lemma LeafTypes(n: int, s: seq<Byte>, seconds: nat, inc: nat)
    requires -0x8000_0000_0000_0000 <= n < 0x8000_0000_0000_0000 && |s| < 0x7FFF_FFFF && seconds < 0x1_0000_0000
    ensures BsonPack.IntegerLeaf(n).kind == if -0x8000_0000 <= n < 0x8000_0000 then 0x10 else 0x12
    ensures BsonPack.StringLeaf(s).kind == 0x02 && BsonPack.BinaryLeaf(0, s).kind == 0x05
    ensures BsonPack.DateLeaf(seconds).kind == 0x09 && BsonPack.TimestampLeaf(inc, seconds).kind == 0x11
  {
  }
}
