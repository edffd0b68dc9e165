/**
  DES as lua-crypt.c uses it: single blocks in a Feistel network, whole texts in independent blocks
  with a padding of one byte 0x80 and zeros. The contents of the S-boxes and the key schedule are
  parameters, so everything holds for any of them.
 */
module Des {
  import opened Common
  import opened Words

  datatype Pair = Pair(x: bv32, y: bv32)

  /** The eight tables SB1 to SB8, by number and index. */
  type Boxes = (nat, bv32) -> bv32

  // ----- the initial and the final permutation -----

  /** The exchanges of bits between two words that DES_IP and DES_FP are made of. */
  function Mix4(p: Pair): Pair {
    var t := ((p.x >> 4) ^ p.y) & 0x0F0F0F0F;
    Pair(p.x ^ (t << 4), p.y ^ t)
  }

  function Mix16(p: Pair): Pair {
    var t := ((p.x >> 16) ^ p.y) & 0x0000FFFF;
    Pair(p.x ^ (t << 16), p.y ^ t)
  }

  function Mix2(p: Pair): Pair {
    var t := ((p.y >> 2) ^ p.x) & 0x33333333;
    Pair(p.x ^ t, p.y ^ (t << 2))
  }

  function Mix8(p: Pair): Pair {
    var t := ((p.y >> 8) ^ p.x) & 0x00FF00FF;
    Pair(p.x ^ t, p.y ^ (t << 8))
  }

  function Mix1(p: Pair): Pair {
    var t := (p.x ^ p.y) & 0xAAAAAAAA;
    Pair(p.x ^ t, p.y ^ t)
  }

  function Left(w: bv32): bv32 {
    (w << 1) | (w >> 31)
  }

  function Right(w: bv32): bv32 {
    (w << 31) | (w >> 1)
  }

  function LeftY(p: Pair): Pair {
    p.(y := Left(p.y))
  }

  function LeftX(p: Pair): Pair {
    p.(x := Left(p.x))
  }

  function RightY(p: Pair): Pair {
    p.(y := Right(p.y))
  }

  function RightX(p: Pair): Pair {
    p.(x := Right(p.x))
  }

  /** DES_IP */
  function Initial(p: Pair): Pair {
    LeftX(Mix1(LeftY(Mix8(Mix2(Mix16(Mix4(p)))))))
  }

  /** DES_FP */
  function Final(p: Pair): Pair {
    Mix4(Mix16(Mix2(Mix8(RightY(Mix1(RightX(p)))))))
  }

  lemma Mix4Twice(p: Pair)
    ensures Mix4(Mix4(p)) == p
  {
  }

  lemma Mix16Twice(p: Pair)
    ensures Mix16(Mix16(p)) == p
  {
  }

  lemma Mix2Twice(p: Pair)
    ensures Mix2(Mix2(p)) == p
  {
  }

  lemma Mix8Twice(p: Pair)
    ensures Mix8(Mix8(p)) == p
  {
  }

  lemma Mix1Twice(p: Pair)
    ensures Mix1(Mix1(p)) == p
  {
  }

  lemma Rotations(w: bv32)
    ensures Right(Left(w)) == w && Left(Right(w)) == w
  {
  }

  /** The two permutations undo each other. */
  lemma PermutationsInverse(p: Pair)
    ensures Final(Initial(p)) == p && Initial(Final(p)) == p
  {
    hide Mix4, Mix16, Mix2, Mix8, Mix1, Left, Right;
    var a := Mix4(p);
    var b := Mix16(a);
    var c := Mix2(b);
    var d := Mix8(c);
    var e := LeftY(d);
    var g := Mix1(e);
    Mix4Twice(p);
    Mix16Twice(a);
    Mix2Twice(b);
    Mix8Twice(c);
    Rotations(d.y);
    Mix1Twice(e);
    Rotations(g.x);
    var u := RightX(p);
    var v := Mix1(u);
    var w := RightY(v);
    var q := Mix8(w);
    var r := Mix2(q);
    var s := Mix16(r);
    Rotations(p.x);
    Mix1Twice(u);
    Rotations(v.y);
    Mix8Twice(w);
    Mix2Twice(q);
    Mix16Twice(r);
    Mix4Twice(s);
  }

  // ----- rounds -----

  /** The two keyed words of DES_ROUND */
  function Keyed0(x: bv32, k0: bv32): bv32 {
    k0 ^ x
  }

  function Keyed1(x: bv32, k1: bv32): bv32 {
    k1 ^ ((x << 28) | (x >> 4))
  }

  /** The index that a byte of such a word holds, from the right */
  function Index0(t: bv32): bv32 {
    t & 0x3F
  }

  function Index1(t: bv32): bv32 {
    (t >> 8) & 0x3F
  }

  function Index2(t: bv32): bv32 {
    (t >> 16) & 0x3F
  }

  function Index3(t: bv32): bv32 {
    (t >> 24) & 0x3F
  }

  function Xor8(a: bv32, b: bv32, c: bv32, d: bv32, e: bv32, f: bv32, g: bv32, h: bv32): bv32 {
    a ^ b ^ c ^ d ^ e ^ f ^ g ^ h
  }

  /** What DES_ROUND adds to the other half. */
  function Feed(sb: Boxes, x: bv32, k0: bv32, k1: bv32): bv32 {
    var t, u := Keyed0(x, k0), Keyed1(x, k1);
    Xor8(sb(8, Index0(t)), sb(6, Index1(t)), sb(4, Index2(t)), sb(2, Index3(t)),
         sb(7, Index0(u)), sb(5, Index1(u)), sb(3, Index2(u)), sb(1, Index3(u)))
  }

  function Xor(a: bv32, b: bv32): bv32 {
    a ^ b
  }

  /** DES_ROUND(Y, X) and DES_ROUND(X, Y) */
  function RoundX(sb: Boxes, p: Pair, k0: bv32, k1: bv32): Pair {
    p.(x := Xor(p.x, Feed(sb, p.y, k0, k1)))
  }

  function RoundY(sb: Boxes, p: Pair, k0: bv32, k1: bv32): Pair {
    p.(y := Xor(p.y, Feed(sb, p.x, k0, k1)))
  }

  /** The rounds alternate between the halves: even ones change x, odd ones y. */
  function Round(sb: Boxes, ks: seq<bv32>, p: Pair, i: nat): Pair
    requires |ks| == 32 && i < 16
  {
    if i % 2 == 0 then RoundX(sb, p, ks[2 * i], ks[2 * i + 1])
    else RoundY(sb, p, ks[2 * i], ks[2 * i + 1])
  }

  /** The first `n` rounds */
  function Rounds(sb: Boxes, ks: seq<bv32>, p: Pair, n: nat): Pair
    requires |ks| == 32 && n <= 16
  {
    if n == 0 then p else Round(sb, ks, Rounds(sb, ks, p, n - 1), n - 1)
  }

  function Swap(p: Pair): Pair {
    Pair(p.y, p.x)
  }

  /** des_crypt on the two words of a block */
  function Crypt(sb: Boxes, ks: seq<bv32>, p: Pair): Pair
    requires |ks| == 32
  {
    Final(Swap(Rounds(sb, ks, Initial(p), 16)))
  }

  /** The subkeys for decoding: the pairs of subkeys in reverse order. */
  predicate Reversed(ks: seq<bv32>, back: seq<bv32>) {
    |ks| == |back| == 32 && forall i :: 0 <= i < 32 ==> back[i] == ks[if i % 2 == 0 then 30 - i else 32 - i]
  }

  lemma ReversedBack(ks: seq<bv32>, back: seq<bv32>)
    requires Reversed(ks, back)
    ensures Reversed(back, ks)
  {
    forall i | 0 <= i < 32 ensures ks[i] == back[if i % 2 == 0 then 30 - i else 32 - i] {
      var j := if i % 2 == 0 then 30 - i else 32 - i;
      assert back[j] == ks[if j % 2 == 0 then 30 - j else 32 - j];
    }
  }

  lemma XorTwice(a: bv32, b: bv32)
    ensures Xor(Xor(a, b), b) == a
  {
  }

  lemma KeysMirrored(ks: seq<bv32>, back: seq<bv32>, i: nat)
    requires Reversed(ks, back) && i < 16
    ensures |ks| == |back| == 32
    ensures back[2 * (15 - i)] == ks[2 * i] && back[2 * (15 - i) + 1] == ks[2 * i + 1]
  {
    var j := 2 * (15 - i);
    assert j % 2 == 0 && (j + 1) % 2 == 1;
  }

  /** A round with the halves swapped and the same subkeys takes back the round it mirrors. */
  lemma RoundBack(sb: Boxes, ks: seq<bv32>, back: seq<bv32>, p: Pair, i: nat)
    requires Reversed(ks, back) && i < 16
    ensures Round(sb, back, Swap(Round(sb, ks, p, i)), 15 - i) == Swap(p)
  {
    hide RoundX, RoundY, Reversed, Swap;
    KeysMirrored(ks, back, i);
    assert (15 - i) % 2 != i % 2;
    HalfBack(sb, p, ks[2 * i], ks[2 * i + 1]);
  }

  lemma HalfBack(sb: Boxes, p: Pair, k0: bv32, k1: bv32)
    ensures RoundY(sb, Swap(RoundX(sb, p, k0, k1)), k0, k1) == Swap(p)
    ensures RoundX(sb, Swap(RoundY(sb, p, k0, k1)), k0, k1) == Swap(p)
  {
    hide Feed, Xor;
    XorTwice(p.x, Feed(sb, p.y, k0, k1));
    XorTwice(p.y, Feed(sb, p.x, k0, k1));
  }

  /** After `n` rounds back, the halves are, swapped, what they were before the last `n` rounds. */
  lemma {:induction false} RoundsBack(sb: Boxes, ks: seq<bv32>, back: seq<bv32>, p: Pair, n: nat)
    requires Reversed(ks, back) && n <= 16
    ensures Rounds(sb, back, Swap(Rounds(sb, ks, p, 16)), n) == Swap(Rounds(sb, ks, p, 16 - n))
  {
    hide Round, Reversed;
    assert |ks| == |back| == 32 by { Sizes(ks, back); }
    if n > 0 {
      RoundsBack(sb, ks, back, p, n - 1);
      RoundBack(sb, ks, back, Rounds(sb, ks, p, 16 - n), 16 - n);
    }
  }

  lemma Sizes(ks: seq<bv32>, back: seq<bv32>)
    requires Reversed(ks, back)
    ensures |ks| == |back| == 32
  {
  }

  /** Decoding a block undoes encoding it, for any S-boxes and any subkeys. */
  lemma CryptBack(sb: Boxes, ks: seq<bv32>, back: seq<bv32>, p: Pair)
    requires Reversed(ks, back)
    ensures Crypt(sb, back, Crypt(sb, ks, p)) == p
  {
    hide Initial, Final, Rounds;
    var q := Initial(p);
    var r := Swap(Rounds(sb, ks, q, 16));
    PermutationsInverse(r);
    RoundsBack(sb, ks, back, q, 16);
    RoundsNone(sb, ks, q);
    PermutationsInverse(p);
  }

  lemma RoundsNone(sb: Boxes, ks: seq<bv32>, p: Pair)
    requires |ks| == 32
    ensures Rounds(sb, ks, p, 0) == p
  {
  }

  // ----- blocks -----

  function BlockWords(b: seq<bv8>): Pair
    requires |b| == 8
  {
    Pair(Word(b[0], b[1], b[2], b[3]), Word(b[4], b[5], b[6], b[7]))
  }

  function BlockBytes(p: Pair): (r: seq<bv8>)
    ensures |r| == 8
  {
    [Byte0(p.x), Byte1(p.x), Byte2(p.x), Byte3(p.x), Byte0(p.y), Byte1(p.y), Byte2(p.y), Byte3(p.y)]
  }

  lemma BlocksInverse(b: seq<bv8>, p: Pair)
    requires |b| == 8
    ensures BlockBytes(BlockWords(b)) == b && BlockWords(BlockBytes(p)) == p
  {
    hide Word, Byte0, Byte1, Byte2, Byte3;
    BytesOfWord(b[0], b[1], b[2], b[3]);
    BytesOfWord(b[4], b[5], b[6], b[7]);
    WordOfBytes(p.x);
    WordOfBytes(p.y);
  }

  /** des_crypt */
  function CryptBlock(sb: Boxes, ks: seq<bv32>, b: seq<bv8>): (r: seq<bv8>)
    requires |ks| == 32 && |b| == 8
    ensures |r| == 8
  {
    BlockBytes(Crypt(sb, ks, BlockWords(b)))
  }

  lemma BlockBack(sb: Boxes, ks: seq<bv32>, back: seq<bv32>, b: seq<bv8>)
    requires Reversed(ks, back) && |b| == 8
    ensures CryptBlock(sb, back, CryptBlock(sb, ks, b)) == b
  {
    hide Crypt, BlockWords, BlockBytes;
    BlocksInverse(b, Crypt(sb, ks, BlockWords(b)));
    CryptBack(sb, ks, back, BlockWords(b));
  }

  /** A text of whole blocks, block by block */
  function CryptAll(sb: Boxes, ks: seq<bv32>, s: seq<bv8>): (r: seq<bv8>)
    requires |ks| == 32 && |s| % 8 == 0
    ensures |r| == |s|
  {
    if s == [] then [] else CryptBlock(sb, ks, s[..8]) + CryptAll(sb, ks, s[8..])
  }

  lemma {:induction false} CryptAllBack(sb: Boxes, ks: seq<bv32>, back: seq<bv32>, s: seq<bv8>)
    requires Reversed(ks, back) && |s| % 8 == 0
    ensures CryptAll(sb, back, CryptAll(sb, ks, s)) == s
  {
    hide CryptBlock, Reversed;
    Sizes(ks, back);
    if s != [] {
      var c := CryptAll(sb, ks, s);
      assert c[..8] == CryptBlock(sb, ks, s[..8]) && c[8..] == CryptAll(sb, ks, s[8..]);
      BlockBack(sb, ks, back, s[..8]);
      CryptAllBack(sb, ks, back, s[8..]);
      assert s == s[..8] + s[8..];
    }
  }

  lemma {:induction false} CryptMore(sb: Boxes, ks: seq<bv32>, s: seq<bv8>, b: seq<bv8>)
    requires |ks| == 32 && |s| % 8 == 0 && |b| == 8
    ensures CryptAll(sb, ks, s + b) == CryptAll(sb, ks, s) + CryptBlock(sb, ks, b)
  {
    hide CryptBlock;
    if s == [] {
      assert s + b == b && b[..8] == b && b[8..] == [];
    } else {
      CryptMore(sb, ks, s[8..], b);
      assert (s + b)[..8] == s[..8] && (s + b)[8..] == s[8..] + b;
    }
  }

  // ----- padding -----

  function Zeros(n: nat): (r: seq<bv8>)
    ensures |r| == n
  {
    seq(n, _ => 0)
  }

  /** One byte 0x80, and zeros up to the next whole block. */
  function Pad(text: seq<bv8>): (r: seq<bv8>)
    ensures |r| % 8 == 0 && |text| < |r| <= |text| + 8
    ensures r[..|text|] == text && r[|text|] == 0x80 && forall i :: |text| < i < |r| ==> r[i] == 0
  {
    text + [0x80] + Zeros(7 - |text| % 8)
  }

  /** A text has one padding and a padded text one origin. */
  lemma PadUnique(s: seq<bv8>, t: seq<bv8>, zeros: nat)
    requires s == t + [0x80] + Zeros(zeros) && zeros < 8 && |s| % 8 == 0
    ensures s == Pad(t)
  {
    assert zeros == 7 - |t| % 8;
  }

  // ----- texts -----

  datatype DesError = BadKey | BadLength | BadText

  ghost predicate IsSchedule(schedule: seq<bv8> -> seq<bv32>) {
    forall key :: |schedule(key)| == 32
  }

  /** memcpy of a block into the output */
  method PutBlock(buffer: array<bv8>, at: nat, b: seq<bv8>)
    requires |b| == 8 && at + 8 <= buffer.Length
    modifies buffer
    ensures buffer[..at + 8] == old(buffer[..at]) + b
  {
    forall i | 0 <= i < 8 {
      buffer[at + i] := b[i];
    }
  }

  /** The last block of ldesencode, built byte by byte */
  method Tail(rest: seq<bv8>) returns (tail: seq<bv8>)
    requires |rest| < 8
    ensures tail == rest + [0x80] + Zeros(7 - |rest|)
  {
    tail := [];
    for j := 0 to 8
      invariant tail == (rest + [0x80] + Zeros(7 - |rest|))[..j]
    {
      tail := tail + [if j < |rest| then rest[j] else if j == |rest| then 0x80 else 0];
    }
  }

  /** ldesencode */
  method DesEncode(sb: Boxes, schedule: seq<bv8> -> seq<bv32>, key: seq<bv8>, text: seq<bv8>)
    returns (r: Result<seq<bv8>, DesError>)
    requires IsSchedule(schedule)
    ensures r == if |key| != 8 then Err(BadKey) else Ok(CryptAll(sb, schedule(key), Pad(text)))
  {
    hide CryptBlock, CryptAll;
    if |key| != 8 {
      return Err(BadKey);
    }
    var ks := schedule(key);
    var size := (|text| + 8) / 8 * 8;
    var buffer := new bv8[size](_ => 0);
    var i := 0;
    CryptNothing(sb, ks);
    while i < |text| - 7
      invariant 0 <= i <= |text| && i % 8 == 0
      invariant buffer[..i] == CryptAll(sb, ks, text[..i])
      decreases |text| - i
    {
      PutBlock(buffer, i, CryptBlock(sb, ks, text[i..i + 8]));
      CryptMore(sb, ks, text[..i], text[i..i + 8]);
      assert text[..i + 8] == text[..i] + text[i..i + 8];
      i := i + 8;
    }
    var tail := Tail(text[i..]);
    PutBlock(buffer, i, CryptBlock(sb, ks, tail));
    CryptMore(sb, ks, text[..i], tail);
    PadSplit(text, i, tail);
    assert buffer[..i + 8] == buffer[..];
    return Ok(buffer[..]);
  }

  lemma CryptNothing(sb: Boxes, ks: seq<bv32>)
    requires |ks| == 32
    ensures CryptAll(sb, ks, []) == []
  {
  }

  lemma PadSplit(text: seq<bv8>, i: nat, tail: seq<bv8>)
    requires i <= |text| < i + 8 && i % 8 == 0 && tail == text[i..] + [0x80] + Zeros(7 - (|text| - i))
    ensures text[..i] + tail == Pad(text)
  {
    assert |text| % 8 == |text| - i;
    assert text == text[..i] + text[i..];
  }

  /** The loop of ldesdecode that turns the subkeys round */
  method ReverseKeys(esk: seq<bv32>) returns (sk: seq<bv32>)
    requires |esk| == 32
    ensures Reversed(esk, sk)
  {
    sk := [];
    var i := 0;
    while i < 32
      invariant i % 2 == 0 && 0 <= i <= 32 && |sk| == i
      invariant forall j :: 0 <= j < i ==> sk[j] == esk[if j % 2 == 0 then 30 - j else 32 - j]
    {
      sk := sk + [esk[30 - i], esk[31 - i]];
      i := i + 2;
    }
  }

  /**
    The loop of ldesdecode that looks for the padding in the last block; None is an error. Its index
    is compared as an unsigned number: in a text of one block the loop does not stop at the start
    of the buffer, and `below` says that it gets there. Whatever it reads from then on, the answer
    is the same error.
   */
  method FindPadding(s: seq<bv8>) returns (padding: Option<nat>, ghost below: bool)
    requires |s| >= 8
    ensures padding.Some? ==> 1 <= padding.value <= 8 &&
                              s == s[..|s| - padding.value] + [0x80] + Zeros(padding.value - 1)
    ensures padding.None? ==> forall n :: 1 <= n <= 8 ==> !PaddedBy(s, n)
    ensures below <==> s == Zeros(8)
  {
    var n := 1;
    while n <= 8
      invariant 1 <= n <= 9
      invariant forall j :: |s| - n < j < |s| ==> s[j] == 0
      invariant forall m :: 1 <= m < n ==> !PaddedBy(s, m)
    {
      var i := |s| - n;
      if s[i] == 0 {
        assert !PaddedBy(s, n);
        n := n + 1;
      } else if s[i] == 0x80 {
        assert s[i + 1..] == Zeros(n - 1);
        return Some(n), false;
      } else {
        forall m | 1 <= m <= 8 ensures !PaddedBy(s, m) {
        }
        return None, false;
      }
    }
    return None, |s| == 8;
  }

  /** The last `n` bytes are a padding. */
  predicate PaddedBy(s: seq<bv8>, n: nat)
    requires 1 <= n <= |s|
  {
    s[|s| - n] == 0x80 && s[|s| - n + 1..] == Zeros(n - 1)
  }

  /** ldesdecode */
  method DesDecode(sb: Boxes, schedule: seq<bv8> -> seq<bv32>, key: seq<bv8>, text: seq<bv8>)
    returns (r: Result<seq<bv8>, DesError>)
    requires IsSchedule(schedule)
    ensures |key| != 8 ==> r == Err(BadKey)
    ensures |key| == 8 && (|text| % 8 != 0 || text == []) ==> r == Err(BadLength)
    // on texts of whole blocks it is the inverse of encoding, and fails where there is none
    ensures |key| == 8 && |text| % 8 == 0 && r.Ok? ==> text == CryptAll(sb, schedule(key), Pad(r.value))
    ensures |key| == 8 && |text| % 8 == 0 && text != [] && r.Err? ==>
              r == Err(BadText) && forall t :: text != CryptAll(sb, schedule(key), Pad(t))
  {
    hide CryptBlock, CryptAll, Pad, Reversed, PaddedBy;
    if |key| != 8 {
      return Err(BadKey);
    }
    var esk := schedule(key);
    var ks := ReverseKeys(esk);
    Sizes(esk, ks);
    if |text| % 8 != 0 || |text| == 0 {
      return Err(BadLength);
    }
    var buffer := DecodeBlocks(sb, ks, text);
    ReversedBack(esk, ks);
    CryptAllBack(sb, ks, esk, text);
    var padding, _ := FindPadding(buffer);
    if padding.None? {
      NotPadded(sb, esk, ks, text, buffer);
      return Err(BadText);
    }
    var plain := buffer[..|buffer| - padding.value];
    PadUnique(buffer, plain, padding.value - 1);
    return Ok(plain);
  }

  /** The decoding loop */
  method DecodeBlocks(sb: Boxes, ks: seq<bv32>, text: seq<bv8>) returns (r: seq<bv8>)
    requires |ks| == 32 && |text| % 8 == 0
    ensures r == CryptAll(sb, ks, text)
  {
    hide CryptBlock, CryptAll;
    var buffer := new bv8[|text|](_ => 0);
    var i := 0;
    CryptNothing(sb, ks);
    while i < |text|
      invariant 0 <= i <= |text| && i % 8 == 0
      invariant buffer[..i] == CryptAll(sb, ks, text[..i])
    {
      PutBlock(buffer, i, CryptBlock(sb, ks, text[i..i + 8]));
      CryptMore(sb, ks, text[..i], text[i..i + 8]);
      assert text[..i + 8] == text[..i] + text[i..i + 8];
      i := i + 8;
    }
    assert text[..i] == text && buffer[..i] == buffer[..];
    r := buffer[..];
  }

  /** Where no padding is found, the text is not the encoding of anything. */
  lemma NotPadded(sb: Boxes, esk: seq<bv32>, ks: seq<bv32>, text: seq<bv8>, s: seq<bv8>)
    requires Reversed(esk, ks) && |text| % 8 == 0 && |s| >= 8 && s == CryptAll(sb, ks, text)
    requires forall n :: 1 <= n <= 8 ==> !PaddedBy(s, n)
    ensures forall t :: text != CryptAll(sb, esk, Pad(t))
  {
    hide CryptAll, Reversed, Pad, PaddedBy;
    Sizes(esk, ks);
    forall t ensures text != CryptAll(sb, esk, Pad(t)) {
      CryptAllBack(sb, esk, ks, Pad(t));
      PadIsPadding(t);
    }
  }

  lemma PadIsPadding(t: seq<bv8>)
    ensures |Pad(t)| >= 8 && PaddedBy(Pad(t), 8 - |t| % 8)
  {
    var n := 7 - |t| % 8;
    assert Pad(t)[|t| + 1..] == Zeros(n);
  }

  /** Decoding what was encoded gives the text back, for every key of 8 bytes and every text. */
  method RoundTrip(sb: Boxes, schedule: seq<bv8> -> seq<bv32>, key: seq<bv8>, text: seq<bv8>)
    returns (r: Result<seq<bv8>, DesError>)
    requires IsSchedule(schedule) && |key| == 8
    ensures r == Ok(text)
  {
    hide CryptAll, Pad, Reversed;
    var ks := schedule(key);
    var c := DesEncode(sb, schedule, key, text);
    r := DesDecode(sb, schedule, key, c.value);
    EncodingsDiffer(sb, ks, text, r.value);
  }

  /** The pairs of subkeys in reverse order, as a function */
  function Backwards(ks: seq<bv32>): (back: seq<bv32>)
    requires |ks| == 32
    ensures Reversed(ks, back)
  {
    seq(32, i requires 0 <= i < 32 => ks[if i % 2 == 0 then 30 - i else 32 - i])
  }

  /** Different texts have different encodings. */
  lemma EncodingsDiffer(sb: Boxes, ks: seq<bv32>, t: seq<bv8>, u: seq<bv8>)
    requires |ks| == 32 && CryptAll(sb, ks, Pad(t)) == CryptAll(sb, ks, Pad(u))
    ensures t == u
  {
    hide CryptAll, Pad, Reversed, Backwards;
    CryptAllBack(sb, ks, Backwards(ks), Pad(t));
    CryptAllBack(sb, ks, Backwards(ks), Pad(u));
    PadInjective(t, u);
  }

  lemma PadInjective(t: seq<bv8>, u: seq<bv8>)
    requires Pad(t) == Pad(u)
    ensures t == u
  {
    assert Pad(t)[|t|] == 0x80 && Pad(u)[|u|] == 0x80;
    assert |t| == |u|;
    assert t == Pad(t)[..|t|] && u == Pad(u)[..|u|];
  }
}
