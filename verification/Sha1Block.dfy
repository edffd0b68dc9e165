/**
  The block transform of lsha1.c: 80 rounds over five registers whose names rotate, with a message
  schedule that lives in 16 words. It is proved equal to the definition with 80 schedule words and
  shifting registers in section 6.1 of RFC 3174.
 */
module Sha1Block {
  import opened Words

  datatype State = State(a: bv32, b: bv32, c: bv32, d: bv32, e: bv32)

  type Block = b: seq<bv8> | |b| == 64 witness seq(64, _ => 0)

  // ----- the definition -----

  function WordAt(b: Block, i: nat): bv32
    requires i < 16
  {
    Word(b[4 * i], b[4 * i + 1], b[4 * i + 2], b[4 * i + 3])
  }

  /** The rotations that the code writes as two shifts are the circular shifts of the definition. */
  lemma RolIsCircular(w: bv32)
    ensures Rol(w, 1) == w.RotateLeft(1) && Rol(w, 5) == w.RotateLeft(5) && Rol(w, 30) == w.RotateLeft(30)
  {
  }

  /** W(t) */
  function Schedule(b: Block, t: nat): bv32
    requires t < 80
  {
    if t < 16 then WordAt(b, t)
    else Rol(Schedule(b, t - 3) ^ Schedule(b, t - 8) ^ Schedule(b, t - 14) ^ Schedule(b, t - 16), 1)
  }

  /** f(t; B, C, D) */
  function F(t: nat, b: bv32, c: bv32, d: bv32): bv32 {
    if t < 20 then (b & c) | (!b & d)
    else if t < 40 then b ^ c ^ d
    else if t < 60 then (b & c) | (b & d) | (c & d)
    else b ^ c ^ d
  }

  /** K(t) */
  function K(t: nat): bv32 {
    if t < 20 then 0x5A827999 else if t < 40 then 0x6ED9EBA1 else if t < 60 then 0x8F1BBCDC else 0xCA62C1D6
  }

  function Round(s: State, t: nat, w: bv32): State {
    State(Temp(Rol(s.a, 5), F(t, s.b, s.c, s.d), s.e, w, K(t)), s.a, Rol(s.b, 30), s.c, s.d)
  }

  function Temp(v: bv32, f: bv32, e: bv32, w: bv32, k: bv32): bv32 {
    v + f + e + w + k
  }

  /** The registers after `n` rounds */
  function Rounds(s: State, b: Block, n: nat): State
    requires n <= 80
  {
    if n == 0 then s else Round(Rounds(s, b, n - 1), n - 1, Schedule(b, n - 1))
  }

  function Added(s: State, r: State): State {
    State(s.a + r.a, s.b + r.b, s.c + r.c, s.d + r.d, s.e + r.e)
  }

  function Transform(s: State, b: Block): State {
    Added(s, Rounds(s, b, 80))
  }

  // ----- the code -----

  /** The functions in the macros R0 to R4 */
  function Mixed(t: nat, w: bv32, x: bv32, y: bv32): bv32 {
    if t < 20 then (w & (x ^ y)) ^ y
    else if t < 40 then w ^ x ^ y
    else if t < 60 then ((w | x) & y) | (w & x)
    else w ^ x ^ y
  }

  /** The constants in these macros */
  function Constant(t: nat): bv32 {
    if t < 20 then 0x5A827999 else if t < 40 then 0x6ED9EBA1 else if t < 60 then 0x8F1BBCDC else 0xCA62C1D6
  }

  lemma ChooseSame(b: bv32, c: bv32, d: bv32)
    ensures (b & (c ^ d)) ^ d == (b & c) | (!b & d)
  {
  }

  lemma MajoritySame(b: bv32, c: bv32, d: bv32)
    ensures ((b | c) & d) | (b & c) == (b & c) | (b & d) | (c & d)
  {
  }

  lemma MixedSame(t: nat, b: bv32, c: bv32, d: bv32)
    ensures Mixed(t, b, c, d) == F(t, b, c, d)
  {
    ChooseSame(b, c, d);
    MajoritySame(b, c, d);
  }

  /** The register that has the name number `k` in round `i`: the names move back by one each round. */
  function Name(i: nat, k: nat): (r: nat)
    requires k < 5
    ensures r < 5
  {
    if k >= i % 5 then k - i % 5 else k + 5 - i % 5
  }

  /** The registers as the names of round `i` read them */
  function Named(r: seq<bv32>, i: nat): State
    requires |r| == 5
  {
    State(r[Name(i, 0)], r[Name(i, 1)], r[Name(i, 2)], r[Name(i, 3)], r[Name(i, 4)])
  }

  /** The macros: the last register takes the sum, the second one is rotated. */
  function Stepped(r: seq<bv32>, i: nat, word: bv32): (q: seq<bv32>)
    requires |r| == 5
    ensures |q| == 5
  {
    var v, w, x, y, z := r[Name(i, 0)], r[Name(i, 1)], r[Name(i, 2)], r[Name(i, 3)], r[Name(i, 4)];
    r[Name(i, 4) := Sum(z, Mixed(i, w, x, y), word, Constant(i), Rol(v, 5))][Name(i, 1) := Rol(w, 30)]
  }

  function Sum(z: bv32, f: bv32, w: bv32, k: bv32, v: bv32): bv32 {
    z + (f + w + k + v)
  }

  lemma NamesMove(i: nat)
    ensures Name(i + 1, 0) == Name(i, 4) && Name(i + 1, 1) == Name(i, 0) && Name(i + 1, 2) == Name(i, 1)
    ensures Name(i + 1, 3) == Name(i, 2) && Name(i + 1, 4) == Name(i, 3)
    ensures forall j, k :: 0 <= j < k < 5 ==> Name(i, j) != Name(i, k)
  {
    assert (i + 1) % 5 == if i % 5 == 4 then 0 else i % 5 + 1;
  }

  lemma SumSame(z: bv32, f: bv32, w: bv32, k: bv32, v: bv32)
    ensures Sum(z, f, w, k, v) == Temp(v, f, z, w, k)
  {
  }

  /** A step with rotating names is a round with shifting registers. */
  lemma StepIsRound(r: seq<bv32>, i: nat, word: bv32)
    requires |r| == 5
    ensures Named(Stepped(r, i, word), i + 1) == Round(Named(r, i), i, word)
  {
    hide Mixed, F, Rol, Name, Sum, Temp;
    NamesMove(i);
    var s := Named(r, i);
    MixedSame(i, s.b, s.c, s.d);
    SumSame(s.e, F(i, s.b, s.c, s.d), word, K(i), Rol(s.a, 5));
  }

  /** The word that blk0 or blk puts into its place among the 16 */
  function NextWord(l: seq<bv32>, i: nat): bv32
    requires |l| == 16
  {
    if i < 16 then l[i]
    else Rol(l[(i + 13) % 16] ^ l[(i + 8) % 16] ^ l[(i + 2) % 16] ^ l[i % 16], 1)
  }

  /** The 16 words hold the last 16 of the schedule, or those of the block that have not been used. */
  ghost predicate Rolling(l: seq<bv32>, b: Block, i: nat)
    requires |l| == 16 && i <= 80
  {
    forall j :: 0 <= j < 80 && i - 16 <= j < (if i < 16 then 16 else i) ==> l[j % 16] == Schedule(b, j)
  }

  lemma RollingNext(l: seq<bv32>, b: Block, i: nat)
    requires |l| == 16 && i < 80 && Rolling(l, b, i)
    ensures NextWord(l, i) == Schedule(b, i)
    ensures Rolling(l[i % 16 := NextWord(l, i)], b, i + 1)
  {
    hide Rol, WordAt;
    if i < 16 {
      assert l[i % 16] == Schedule(b, i);
    } else {
      Behind(i);
      assert l[(i - 3) % 16] == Schedule(b, i - 3) && l[(i - 8) % 16] == Schedule(b, i - 8);
      assert l[(i - 14) % 16] == Schedule(b, i - 14) && l[(i - 16) % 16] == Schedule(b, i - 16);
    }
    var l' := l[i % 16 := NextWord(l, i)];
    forall j | 0 <= j < 80 && i + 1 - 16 <= j < (if i + 1 < 16 then 16 else i + 1) ensures l'[j % 16] == Schedule(b, j) {
      if j != i {
        Apart(i, j);
      }
    }
  }

  lemma Behind(i: nat)
    requires i >= 16
    ensures (i + 13) % 16 == (i - 3) % 16 && (i + 8) % 16 == (i - 8) % 16
    ensures (i + 2) % 16 == (i - 14) % 16 && i % 16 == (i - 16) % 16
  {
  }

  lemma Apart(i: nat, j: nat)
    requires i != j && -16 < i - j < 16
    ensures i % 16 != j % 16
  {
  }

  /** SHA1_Transform */
  method TransformBlock(s: State, b: Block) returns (t: State)
    ensures t == Transform(s, b)
  {
    hide Stepped, NextWord, Round, Schedule, WordAt, Rounds, Named, Rolling, Added;
    var l := new bv32[16](i requires 0 <= i < 16 => WordAt(b, i));
    FirstWords(l[..], b);
    var r := [s.a, s.b, s.c, s.d, s.e];
    NoRounds(s, b);
    NamedFirst(s);
    for i := 0 to 80
      invariant |r| == 5 && Rolling(l[..], b, i)
      invariant Named(r, i) == Rounds(s, b, i)
    {
      var word := NextWord(l[..], i);
      RollingNext(l[..], b, i);
      ghost var was := l[..];
      l[i % 16] := word;
      assert l[..] == was[i % 16 := word];
      StepIsRound(r, i, word);
      OneRound(s, b, i);
      r := Stepped(r, i, word);
    }
    NamedLast(r);
    t := Added(s, State(r[0], r[1], r[2], r[3], r[4]));
  }

  lemma NamedFirst(s: State)
    ensures Named([s.a, s.b, s.c, s.d, s.e], 0) == s
  {
  }

  lemma NamedLast(r: seq<bv32>)
    requires |r| == 5
    ensures Named(r, 80) == State(r[0], r[1], r[2], r[3], r[4])
  {
  }

  lemma FirstWords(l: seq<bv32>, b: Block)
    requires |l| == 16 && forall i :: 0 <= i < 16 ==> l[i] == WordAt(b, i)
    ensures Rolling(l, b, 0)
  {
  }

  lemma NoRounds(s: State, b: Block)
    ensures Rounds(s, b, 0) == s
  {
  }

  lemma OneRound(s: State, b: Block, i: nat)
    requires i < 80
    ensures Rounds(s, b, i + 1) == Round(Rounds(s, b, i), i, Schedule(b, i))
  {
  }
}
