/**
  What lua-crypt.c computes on a block, in the terms of FIPS 46-3: the initial permutation and the bit
  selection are given by the tables of the standard, bits are numbered from 1 at the left, and a block
  is the halves L and R. The code keeps each half rotated left by one bit.
 */
module DesStandard {
  import opened Common
  import opened Words
  import opened Des

  // ----- bits -----

  /** Bit `n` of a word, from 1 at the left. */
  predicate Bit(w: bv32, n: nat)
    requires 1 <= n <= 32
  {
    (w >> (32 - n)) & 1 == 1
  }

  /** Bit `n` of a block of two words. */
  predicate BlockBit(p: Pair, n: nat)
    requires 1 <= n <= 64
  {
    if n <= 32 then Bit(p.x, n) else Bit(p.y, n - 32)
  }

  /** The halves L and R that the two words of the code stand for. */
  function Halves(p: Pair): Pair {
    Pair(Right(p.x), Right(p.y))
  }

  // ----- the initial permutation -----

  function Eight(a: bool, b: bool, c: bool, d: bool, e: bool, f: bool, g: bool, h: bool): bv32 {
    (if a then 128 else 0) | (if b then 64 else 0) | (if c then 32 else 0) | (if d then 16 else 0) |
    (if e then 8 else 0) | (if f then 4 else 0) | (if g then 2 else 0) | (if h then 1 else 0)
  }

  /** A row of the table IP: eight bits of the block, from bit `n` down in steps of 8. */
  function Row(p: Pair, n: nat): bv32
    requires 57 <= n <= 64
  {
    Eight(BlockBit(p, n), BlockBit(p, n - 8), BlockBit(p, n - 16), BlockBit(p, n - 24),
          BlockBit(p, n - 32), BlockBit(p, n - 40), BlockBit(p, n - 48), BlockBit(p, n - 56))
  }

  /** A word of four bytes, the high one first */
  function Joined(a: bv32, b: bv32, c: bv32, d: bv32): bv32 {
    (a << 24) | (b << 16) | (c << 8) | d
  }

  /** The permutation IP of FIPS 46-3, by the first numbers of the rows of its table. */
  function StandardInitial(p: Pair): Pair {
    Pair(Joined(Row(p, 58), Row(p, 60), Row(p, 62), Row(p, 64)), Joined(Row(p, 57), Row(p, 59), Row(p, 61), Row(p, 63)))
  }

  lemma JoinedBytes(w: bv32)
    ensures w == Joined((w >> 24) & 0xFF, (w >> 16) & 0xFF, (w >> 8) & 0xFF, w & 0xFF)
  {
  }

  lemma RowBits(p: Pair, n: nat)
    requires 57 <= n <= 64
    ensures Row(p, n) == Eight(Bit(p.y, n - 32), Bit(p.y, n - 40), Bit(p.y, n - 48), Bit(p.y, n - 56),
                               Bit(p.x, n - 32), Bit(p.x, n - 40), Bit(p.x, n - 48), Bit(p.x, n - 56))
  {
    hide Bit, Eight;
  }

  lemma Row58(p: Pair)
    ensures (Right(Initial(p).x) >> 24) & 0xFF
         == Eight(Bit(p.y, 26), Bit(p.y, 18), Bit(p.y, 10), Bit(p.y, 2),
                  Bit(p.x, 26), Bit(p.x, 18), Bit(p.x, 10), Bit(p.x, 2))
  {
  }

  lemma Row60(p: Pair)
    ensures (Right(Initial(p).x) >> 16) & 0xFF
         == Eight(Bit(p.y, 28), Bit(p.y, 20), Bit(p.y, 12), Bit(p.y, 4),
                  Bit(p.x, 28), Bit(p.x, 20), Bit(p.x, 12), Bit(p.x, 4))
  {
  }

  lemma Row62(p: Pair)
    ensures (Right(Initial(p).x) >> 8) & 0xFF
         == Eight(Bit(p.y, 30), Bit(p.y, 22), Bit(p.y, 14), Bit(p.y, 6),
                  Bit(p.x, 30), Bit(p.x, 22), Bit(p.x, 14), Bit(p.x, 6))
  {
  }

  lemma Row64(p: Pair)
    ensures Right(Initial(p).x) & 0xFF
         == Eight(Bit(p.y, 32), Bit(p.y, 24), Bit(p.y, 16), Bit(p.y, 8),
                  Bit(p.x, 32), Bit(p.x, 24), Bit(p.x, 16), Bit(p.x, 8))
  {
  }

  lemma Row57(p: Pair)
    ensures (Right(Initial(p).y) >> 24) & 0xFF
         == Eight(Bit(p.y, 25), Bit(p.y, 17), Bit(p.y, 9), Bit(p.y, 1),
                  Bit(p.x, 25), Bit(p.x, 17), Bit(p.x, 9), Bit(p.x, 1))
  {
  }

  lemma Row59(p: Pair)
    ensures (Right(Initial(p).y) >> 16) & 0xFF
         == Eight(Bit(p.y, 27), Bit(p.y, 19), Bit(p.y, 11), Bit(p.y, 3),
                  Bit(p.x, 27), Bit(p.x, 19), Bit(p.x, 11), Bit(p.x, 3))
  {
  }

  lemma Row61(p: Pair)
    ensures (Right(Initial(p).y) >> 8) & 0xFF
         == Eight(Bit(p.y, 29), Bit(p.y, 21), Bit(p.y, 13), Bit(p.y, 5),
                  Bit(p.x, 29), Bit(p.x, 21), Bit(p.x, 13), Bit(p.x, 5))
  {
  }

  lemma Row63(p: Pair)
    ensures Right(Initial(p).y) & 0xFF
         == Eight(Bit(p.y, 31), Bit(p.y, 23), Bit(p.y, 15), Bit(p.y, 7),
                  Bit(p.x, 31), Bit(p.x, 23), Bit(p.x, 15), Bit(p.x, 7))
  {
  }

  /** DES_IP moves every bit as the table IP says. */
  lemma InitialIsStandard(p: Pair)
    ensures Halves(Initial(p)) == StandardInitial(p)
  {
    hide Initial, Right, Row, Bit, Eight, Joined;
    var h := Halves(Initial(p));
    JoinedBytes(h.x);
    JoinedBytes(h.y);
    Row58(p);
    RowBits(p, 58);
    Row60(p);
    RowBits(p, 60);
    Row62(p);
    RowBits(p, 62);
    Row64(p);
    RowBits(p, 64);
    Row57(p);
    RowBits(p, 57);
    Row59(p);
    RowBits(p, 59);
    Row61(p);
    RowBits(p, 61);
    Row63(p);
    RowBits(p, 63);
  }

  // ----- the cipher function -----

  /** The bit selection table E of FIPS 46-3: the six bits for box `j`, from 0 at the left, overlap with its neighbours. */
  function E(j: nat, b: nat): (r: nat)
    requires 1 <= j <= 8 && b < 6
    ensures 1 <= r <= 32
  {
    var n := 4 * (j - 1) + b;
    if n == 0 then 32 else if n == 33 then 1 else n
  }

  /** Bit `b` of the subkey for box `j`: the even boxes have theirs in the first word, the odd ones in the second, a byte each. */
  predicate KeyBit(k0: bv32, k1: bv32, j: nat, b: nat)
    requires 1 <= j <= 8 && b < 6
  {
    Bit(if j % 2 == 0 then k0 else k1, 8 * ((j - 1) / 2) + 3 + b)
  }

  function Six(a: bool, b: bool, c: bool, d: bool, e: bool, f: bool): bv32 {
    (if a then 32 else 0) | (if b then 16 else 0) | (if c then 8 else 0) |
    (if d then 4 else 0) | (if e then 2 else 0) | (if f then 1 else 0)
  }

  /** One bit of E(R) xor K */
  predicate Selected(half: bv32, k0: bv32, k1: bv32, j: nat, b: nat)
    requires 1 <= j <= 8 && b < 6
  {
    Bit(half, E(j, b)) != KeyBit(k0, k1, j, b)
  }

  /** The six bits that box `j` gets: those that E selects from R, xor those of the subkey. */
  function BoxInput(half: bv32, k0: bv32, k1: bv32, j: nat): bv32
    requires 1 <= j <= 8
  {
    Six(Selected(half, k0, k1, j, 0), Selected(half, k0, k1, j, 1), Selected(half, k0, k1, j, 2),
        Selected(half, k0, k1, j, 3), Selected(half, k0, k1, j, 4), Selected(half, k0, k1, j, 5))
  }

  /** The boxes, in order, on their inputs. */
  function Cipher(sb: Boxes, half: bv32, k0: bv32, k1: bv32): bv32 {
    hide BoxInput;
    Xor8(sb(1, BoxInput(half, k0, k1, 1)), sb(2, BoxInput(half, k0, k1, 2)),
         sb(3, BoxInput(half, k0, k1, 3)), sb(4, BoxInput(half, k0, k1, 4)),
         sb(5, BoxInput(half, k0, k1, 5)), sb(6, BoxInput(half, k0, k1, 6)),
         sb(7, BoxInput(half, k0, k1, 7)), sb(8, BoxInput(half, k0, k1, 8)))
  }

  lemma Input1(x: bv32, k1: bv32)
    ensures Index3(Keyed1(x, k1))
         == Six(Bit(Right(x), 32) != Bit(k1, 3), Bit(Right(x), 1) != Bit(k1, 4), Bit(Right(x), 2) != Bit(k1, 5),
                Bit(Right(x), 3) != Bit(k1, 6), Bit(Right(x), 4) != Bit(k1, 7), Bit(Right(x), 5) != Bit(k1, 8))
  {
  }

  lemma Input2(x: bv32, k0: bv32)
    ensures Index3(Keyed0(x, k0))
         == Six(Bit(Right(x), 4) != Bit(k0, 3), Bit(Right(x), 5) != Bit(k0, 4), Bit(Right(x), 6) != Bit(k0, 5),
                Bit(Right(x), 7) != Bit(k0, 6), Bit(Right(x), 8) != Bit(k0, 7), Bit(Right(x), 9) != Bit(k0, 8))
  {
  }

  lemma Input3(x: bv32, k1: bv32)
    ensures Index2(Keyed1(x, k1))
         == Six(Bit(Right(x), 8) != Bit(k1, 11), Bit(Right(x), 9) != Bit(k1, 12), Bit(Right(x), 10) != Bit(k1, 13),
                Bit(Right(x), 11) != Bit(k1, 14), Bit(Right(x), 12) != Bit(k1, 15), Bit(Right(x), 13) != Bit(k1, 16))
  {
  }

  lemma Input4(x: bv32, k0: bv32)
    ensures Index2(Keyed0(x, k0))
         == Six(Bit(Right(x), 12) != Bit(k0, 11), Bit(Right(x), 13) != Bit(k0, 12), Bit(Right(x), 14) != Bit(k0, 13),
                Bit(Right(x), 15) != Bit(k0, 14), Bit(Right(x), 16) != Bit(k0, 15), Bit(Right(x), 17) != Bit(k0, 16))
  {
  }

  lemma Input5(x: bv32, k1: bv32)
    ensures Index1(Keyed1(x, k1))
         == Six(Bit(Right(x), 16) != Bit(k1, 19), Bit(Right(x), 17) != Bit(k1, 20), Bit(Right(x), 18) != Bit(k1, 21),
                Bit(Right(x), 19) != Bit(k1, 22), Bit(Right(x), 20) != Bit(k1, 23), Bit(Right(x), 21) != Bit(k1, 24))
  {
  }

  lemma Input6(x: bv32, k0: bv32)
    ensures Index1(Keyed0(x, k0))
         == Six(Bit(Right(x), 20) != Bit(k0, 19), Bit(Right(x), 21) != Bit(k0, 20), Bit(Right(x), 22) != Bit(k0, 21),
                Bit(Right(x), 23) != Bit(k0, 22), Bit(Right(x), 24) != Bit(k0, 23), Bit(Right(x), 25) != Bit(k0, 24))
  {
  }

  lemma Input7(x: bv32, k1: bv32)
    ensures Index0(Keyed1(x, k1))
         == Six(Bit(Right(x), 24) != Bit(k1, 27), Bit(Right(x), 25) != Bit(k1, 28), Bit(Right(x), 26) != Bit(k1, 29),
                Bit(Right(x), 27) != Bit(k1, 30), Bit(Right(x), 28) != Bit(k1, 31), Bit(Right(x), 29) != Bit(k1, 32))
  {
  }

  lemma Input8(x: bv32, k0: bv32)
    ensures Index0(Keyed0(x, k0))
         == Six(Bit(Right(x), 28) != Bit(k0, 27), Bit(Right(x), 29) != Bit(k0, 28), Bit(Right(x), 30) != Bit(k0, 29),
                Bit(Right(x), 31) != Bit(k0, 30), Bit(Right(x), 32) != Bit(k0, 31), Bit(Right(x), 1) != Bit(k0, 32))
  {
  }

  lemma EvenInputs(x: bv32, k0: bv32, k1: bv32)
    ensures var t, half := Keyed0(x, k0), Right(x);
            && BoxInput(half, k0, k1, 8) == Index0(t) && BoxInput(half, k0, k1, 6) == Index1(t)
            && BoxInput(half, k0, k1, 4) == Index2(t) && BoxInput(half, k0, k1, 2) == Index3(t)
  {
    hide Bit, Six, Right, Index0, Index1, Index2, Index3, Keyed0;
    Input2(x, k0);
    Input4(x, k0);
    Input6(x, k0);
    Input8(x, k0);
  }

  lemma OddInputs(x: bv32, k0: bv32, k1: bv32)
    ensures var u, half := Keyed1(x, k1), Right(x);
            && BoxInput(half, k0, k1, 7) == Index0(u) && BoxInput(half, k0, k1, 5) == Index1(u)
            && BoxInput(half, k0, k1, 3) == Index2(u) && BoxInput(half, k0, k1, 1) == Index3(u)
  {
    hide Bit, Six, Right, Index0, Index1, Index2, Index3, Keyed1;
    Input1(x, k1);
    Input3(x, k1);
    Input5(x, k1);
    Input7(x, k1);
  }

  lemma XorOrder(a: bv32, b: bv32, c: bv32, d: bv32, e: bv32, f: bv32, g: bv32, h: bv32)
    ensures Xor8(h, f, d, b, g, e, c, a) == Xor8(a, b, c, d, e, f, g, h)
  {
  }

  /** DES_ROUND feeds each box what the standard selects from the half and the subkey. */
  lemma FeedIsStandard(sb: Boxes, x: bv32, k0: bv32, k1: bv32)
    ensures Feed(sb, x, k0, k1) == Cipher(sb, Right(x), k0, k1)
  {
    hide BoxInput, Right, Xor8, Index0, Index1, Index2, Index3, Keyed0, Keyed1;
    EvenInputs(x, k0, k1);
    OddInputs(x, k0, k1);
    var half := Right(x);
    XorOrder(sb(1, BoxInput(half, k0, k1, 1)), sb(2, BoxInput(half, k0, k1, 2)), sb(3, BoxInput(half, k0, k1, 3)),
             sb(4, BoxInput(half, k0, k1, 4)), sb(5, BoxInput(half, k0, k1, 5)), sb(6, BoxInput(half, k0, k1, 6)),
             sb(7, BoxInput(half, k0, k1, 7)), sb(8, BoxInput(half, k0, k1, 8)));
  }

  // ----- the block -----

  /** R after a round, from L and what the boxes give; their words are rotated like the halves of the code. */
  function Added(half: bv32, f: bv32): bv32 {
    Xor(half, Right(f))
  }

  /** L and R after `n` rounds: L' = R, R' = L xor f(R, K). */
  function Feistel(sb: Boxes, ks: seq<bv32>, h: Pair, n: nat): Pair
    requires |ks| == 32 && n <= 16
  {
    if n == 0 then h
    else
      var g := Feistel(sb, ks, h, n - 1);
      Pair(g.y, Added(g.x, Cipher(sb, g.y, ks[2 * n - 2], ks[2 * n - 1])))
  }

  /** A round of the code, on the half that it changes and the one that it keeps. */
  lemma RoundIsStandard(sb: Boxes, p: Pair, k0: bv32, k1: bv32)
    ensures Halves(RoundX(sb, p, k0, k1)) == Pair(Added(Right(p.x), Cipher(sb, Right(p.y), k0, k1)), Right(p.y))
    ensures Halves(RoundY(sb, p, k0, k1)) == Pair(Right(p.x), Added(Right(p.y), Cipher(sb, Right(p.x), k0, k1)))
  {
    hide Feed, Cipher, Right, Added, RoundX, RoundY;
    FeedIsStandard(sb, p.x, k0, k1);
    FeedIsStandard(sb, p.y, k0, k1);
    ChangedX(sb, p, k0, k1);
    ChangedY(sb, p, k0, k1);
  }

  lemma ChangedX(sb: Boxes, p: Pair, k0: bv32, k1: bv32)
    ensures RoundX(sb, p, k0, k1).y == p.y
    ensures Right(RoundX(sb, p, k0, k1).x) == Added(Right(p.x), Feed(sb, p.y, k0, k1))
  {
    hide Feed, Right, Added, Xor;
    Rotated(p.x, Feed(sb, p.y, k0, k1));
  }

  lemma ChangedY(sb: Boxes, p: Pair, k0: bv32, k1: bv32)
    ensures RoundY(sb, p, k0, k1).x == p.x
    ensures Right(RoundY(sb, p, k0, k1).y) == Added(Right(p.y), Feed(sb, p.x, k0, k1))
  {
    hide Feed, Right, Added, Xor;
    Rotated(p.y, Feed(sb, p.x, k0, k1));
  }

  lemma Rotated(a: bv32, f: bv32)
    ensures Right(Xor(a, f)) == Added(Right(a), f)
  {
    hide Right;
    assert Xor(a, f) == a ^ f;
    RightXor(a, f);
  }

  lemma RightXor(a: bv32, b: bv32)
    ensures Right(a ^ b) == Right(a) ^ Right(b)
  {
  }

  /** The rounds of the code, which change its two words in turn, are those of the standard. */
  lemma {:induction false} RoundsAreFeistel(sb: Boxes, ks: seq<bv32>, p: Pair, n: nat)
    requires |ks| == 32 && n <= 16
    ensures Feistel(sb, ks, Halves(p), n)
         == if n % 2 == 0 then Halves(Rounds(sb, ks, p, n)) else Swap(Halves(Rounds(sb, ks, p, n)))
  {
    hide Right, Cipher, Added, RoundX, RoundY;
    if n > 0 {
      RoundsAreFeistel(sb, ks, p, n - 1);
      RoundIsStandard(sb, Rounds(sb, ks, p, n - 1), ks[2 * n - 2], ks[2 * n - 1]);
    }
  }

  /**
    des_crypt is DES: the output is the block whose initial permutation is R16 L16, where L16 and R16
    come by sixteen rounds from the initial permutation of the input.
   */
  lemma CryptIsStandard(sb: Boxes, ks: seq<bv32>, p: Pair)
    requires |ks| == 32
    ensures StandardInitial(Crypt(sb, ks, p)) == Swap(Feistel(sb, ks, StandardInitial(p), 16))
  {
    hide Initial, Final, Rounds, Feistel, StandardInitial, Right;
    InitialIsStandard(p);
    InitialIsStandard(Crypt(sb, ks, p));
    RoundsAreFeistel(sb, ks, Initial(p), 16);
    PermutationsInverse(Swap(Rounds(sb, ks, Initial(p), 16)));
  }

  /** No two blocks have the same initial permutation, so this determines the output. */
  lemma StandardInitialInjective(p: Pair, q: Pair)
    requires StandardInitial(p) == StandardInitial(q)
    ensures p == q
  {
    hide Initial, Final, StandardInitial, Right, Left;
    InitialIsStandard(p);
    InitialIsStandard(q);
    Rotations(Initial(p).x);
    Rotations(Initial(p).y);
    Rotations(Initial(q).x);
    Rotations(Initial(q).y);
    PermutationsInverse(p);
    PermutationsInverse(q);
  }

  // ----- texts -----

  /** Block `i` of the encoding of a text is the encoding of its block `i`, bytes taken high one first. */
  lemma {:induction false} CryptAllBlocks(sb: Boxes, ks: seq<bv32>, s: seq<bv8>, i: nat)
    requires |ks| == 32 && |s| % 8 == 0 && 8 * i + 8 <= |s|
    ensures CryptAll(sb, ks, s)[8 * i..8 * i + 8] == CryptBlock(sb, ks, s[8 * i..8 * i + 8])
    decreases i
  {
    hide CryptBlock;
    var c := CryptAll(sb, ks, s);
    assert c == CryptBlock(sb, ks, s[..8]) + CryptAll(sb, ks, s[8..]);
    if i == 0 {
      assert c[..8] == CryptBlock(sb, ks, s[..8]);
    } else {
      CryptAllBlocks(sb, ks, s[8..], i - 1);
      assert s[8..][8 * (i - 1)..8 * (i - 1) + 8] == s[8 * i..8 * i + 8];
      assert c[8 * i..8 * i + 8] == CryptAll(sb, ks, s[8..])[8 * (i - 1)..8 * (i - 1) + 8];
    }
  }

  /** The bits of a block, from the first bit of its first byte. */
  lemma BlockIs(b: seq<bv8>)
    requires |b| == 8
    ensures var p := BlockWords(b);
            && p.x == Joined(b[0] as bv32, b[1] as bv32, b[2] as bv32, b[3] as bv32)
            && p.y == Joined(b[4] as bv32, b[5] as bv32, b[6] as bv32, b[7] as bv32)
  {
  }

  /** ldesencode under a key: every block of the padded text goes through DES by itself. */
  lemma EncodeIsStandard(sb: Boxes, ks: seq<bv32>, text: seq<bv8>, i: nat)
    requires |ks| == 32 && 8 * i + 8 <= |Pad(text)|
    ensures |CryptAll(sb, ks, Pad(text))| == |Pad(text)|
    ensures StandardInitial(BlockWords(CryptAll(sb, ks, Pad(text))[8 * i..8 * i + 8]))
         == Swap(Feistel(sb, ks, StandardInitial(BlockWords(Pad(text)[8 * i..8 * i + 8])), 16))
  {
    hide CryptAll, Pad, StandardInitial, Feistel, Crypt, BlockWords, BlockBytes;
    var b := Pad(text)[8 * i..8 * i + 8];
    CryptAllBlocks(sb, ks, Pad(text), i);
    CryptIsStandard(sb, ks, BlockWords(b));
    BlocksInverse(b, Crypt(sb, ks, BlockWords(b)));
  }
}
