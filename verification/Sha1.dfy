/**
  SHA-1 and HMAC-SHA-1 of lsha1.c: the context that takes a message in pieces, its padding, and the
  keyed hash. The reference is the whole message, padded as in section 4 of RFC 3174 and folded block
  by block, and the definition of HMAC in section 2 of RFC 2104.
 */
module Sha1 {
  import opened Words
  import opened Sha1Block

  const WORD := 0x1_0000_0000
  const DIGEST_SIZE := 20
  const BLOCKSIZE := 64

  const INIT := State(0x67452301, 0xEFCDAB89, 0x98BADCFE, 0x10325476, 0xC3D2E1F0)

  // ----- the reference -----

  /** A message of whole blocks, block by block */
  function Fold(m: seq<bv8>): State
    requires |m| % 64 == 0
  {
    if m == [] then INIT else Transform(Fold(m[..|m| - 64]), m[|m| - 64..])
  }

  function Zeros(n: nat): (r: seq<bv8>)
    ensures |r| == n
  {
    seq(n, _ => 0)
  }

  /** Eight bytes: the length in bits as two words, the high one first */
  function CountBytes(high: nat, low: nat): (r: seq<bv8>)
    ensures |r| == 8
  {
    [CountByte(high, 0x100_0000), CountByte(high, 0x1_0000), CountByte(high, 0x100), CountByte(high, 1),
     CountByte(low, 0x100_0000), CountByte(low, 0x1_0000), CountByte(low, 0x100), CountByte(low, 1)]
  }

  function CountByte(count: nat, unit: nat): bv8
    requires unit > 0
  {
    (count / unit % 256) as bv8
  }

  /** A message with one byte 0x80, zeros and these last eight bytes */
  function PaddedWith(m: seq<bv8>, last: seq<bv8>): (r: seq<bv8>)
    requires |last| == 8
    ensures |r| % 64 == 0
  {
    m + [0x80] + Zeros((55 - |m|) % 64) + last
  }

  /** The length in bits, modulo 2^64, as its high and its low word */
  function High(n: nat): nat {
    8 * n / WORD % WORD
  }

  function Low(n: nat): nat {
    8 * n % WORD
  }

  function Padded(m: seq<bv8>): (r: seq<bv8>)
    ensures |r| % 64 == 0
  {
    PaddedWith(m, CountBytes(High(|m|), Low(|m|)))
  }

  function WordBytes(w: bv32): seq<bv8> {
    [Byte0(w), Byte1(w), Byte2(w), Byte3(w)]
  }

  function Digest(s: State): (r: seq<bv8>)
    ensures |r| == DIGEST_SIZE
  {
    WordBytes(s.a) + WordBytes(s.b) + WordBytes(s.c) + WordBytes(s.d) + WordBytes(s.e)
  }

  function Hash(m: seq<bv8>): (r: seq<bv8>)
    ensures |r| == DIGEST_SIZE
  {
    Digest(Fold(Padded(m)))
  }

  /** The key as a block: hashed when it is too long, and filled up with zeros */
  function KeyBlock(key: seq<bv8>): (r: seq<bv8>)
    ensures |r| == BLOCKSIZE
  {
    if |key| > BLOCKSIZE then Hash(key) + Zeros(BLOCKSIZE - DIGEST_SIZE) else key + Zeros(BLOCKSIZE - |key|)
  }

  function Xor(b: seq<bv8>, x: bv8): (r: seq<bv8>)
    ensures |r| == |b| && forall i :: 0 <= i < |b| ==> r[i] == XorByte(b[i], x)
  {
    seq(|b|, i requires 0 <= i < |b| => XorByte(b[i], x))
  }

  function XorByte(a: bv8, b: bv8): bv8 {
    a ^ b
  }

  function Hmac(key: seq<bv8>, text: seq<bv8>): seq<bv8> {
    Hash(Xor(KeyBlock(key), 0x5c) + Hash(Xor(KeyBlock(key), 0x36) + text))
  }

  // ----- messages in parts -----

  /** The whole blocks of a message, and what is behind them */
  function Whole(m: seq<bv8>): (r: seq<bv8>)
    ensures |r| % 64 == 0 && |r| <= |m|
  {
    m[..|m| - |m| % 64]
  }

  function Rest(m: seq<bv8>): (r: seq<bv8>)
    ensures |r| == |m| % 64 && Whole(m) + r == m
  {
    m[|m| - |m| % 64..]
  }

  lemma FoldMore(m: seq<bv8>, b: seq<bv8>)
    requires |m| % 64 == 0 && |b| == 64
    ensures Fold(m + b) == Transform(Fold(m), b)
  {
    assert (m + b)[..|m + b| - 64] == m && (m + b)[|m + b| - 64..] == b;
  }

  lemma SplitAt(m: seq<bv8>, n: nat)
    requires n <= |m| < n + 64 && n % 64 == 0
    ensures Whole(m) == m[..n] && Rest(m) == m[n..]
  {
    assert |m| % 64 == |m| - n;
  }

  // ----- the context -----

  /** SHA1_CTX; `fed` is everything it has been given. */
  class Context {
    var state: State
    var count0: nat
    var count1: nat
    const buffer: array<bv8>
    ghost var fed: seq<bv8>

    ghost predicate Valid()
      reads this, buffer
    {
      && buffer.Length == 64
      && state == Fold(Whole(fed))
      && buffer[..|fed| % 64] == Rest(fed)
      && count0 == Low(|fed|)
      && count1 < WORD
    }

    /** The high word of the bit count is right. */
    ghost predicate CountRight()
      reads this
    {
      count1 == High(|fed|)
    }

    /** sat_SHA1_Init */
    constructor ()
      ensures Valid() && fed == [] && CountRight() && fresh(buffer)
    {
      state := State(0x67452301, 0xEFCDAB89, 0x98BADCFE, 0x10325476, 0xC3D2E1F0);
      count0, count1, fed := 0, 0, [];
      buffer := new bv8[64](_ => 0);
    }

    /** memcpy into the buffer */
    method Copy(at: nat, data: seq<bv8>)
      requires at + |data| <= buffer.Length
      modifies buffer
      ensures buffer[..at + |data|] == old(buffer[..at]) + data
    {
      forall i | 0 <= i < |data| {
        buffer[at + i] := data[i];
      }
    }

    /** The counting in sat_SHA1_Update. The carry is taken from a comparison with the untruncated length. */
    method Count(len: nat)
      requires count0 == Low(|fed|) && count1 < WORD && len < 0x2000_0000_0000_0000
      modifies this`count0, this`count1
      ensures count0 == Low(|fed| + len) && count1 < WORD
      ensures old(CountRight()) ==>
                count1 == if Carries(old(count0), len) then High(|fed| + len) else (High(|fed| + len) + 1) % WORD
    {
      ghost var before := count0;
      count0 := (count0 + 8 * len) % WORD;
      if count0 < 8 * len {
        count1 := (count1 + 1) % WORD;
      }
      count1 := (count1 + len / 0x2000_0000) % WORD;
      LowMore(|fed|, len);
      HighMore(|fed|, len, before);
    }

    /** sat_SHA1_Update */
    method Update(data: seq<bv8>)
      requires Valid() && |data| < 0x2000_0000_0000_0000
      modifies this, buffer
      ensures Valid() && fed == old(fed) + data
      // the count stays right, or becomes too large by one
      ensures old(CountRight()) ==>
                count1 == if Carries(old(count0), |data|) then High(|fed|) else (High(|fed|) + 1) % WORD
    {
      hide Fold, Low, High, Carries, Whole, Rest;
      var j := count0 / 8 % 64;
      BufferPosition(|fed|);
      Count(|data|);
      if j + |data| > 63 {
        Blocks(data, j);
      } else {
        Copy(j, data);
        StaysWhole(fed, data);
      }
      fed := fed + data;
    }

    /** The branch that fills the buffer and goes through whole blocks */
    method Blocks(data: seq<bv8>, j: nat)
      requires j == |fed| % 64 && j + |data| > 63
      requires buffer.Length == 64 && state == Fold(Whole(fed)) && buffer[..j] == Rest(fed)
      modifies this`state, buffer
      ensures state == Fold(Whole(fed + data)) && buffer[..|fed + data| % 64] == Rest(fed + data)
    {
      hide Fold, Whole, Rest, Transform;
      var i := 64 - j;
      Copy(j, data[..i]);
      FirstBlock(fed, data, i);
      assert buffer[..] == buffer[..64];
      state := TransformBlock(state, buffer[..]);
      while i + 63 < |data|
        invariant 0 <= i <= |data| && (|fed| + i) % 64 == 0
        invariant state == Fold(fed + data[..i])
        decreases |data| - i
      {
        NextBlock(fed, data, i);
        state := TransformBlock(state, data[i..i + 64]);
        i := i + 64;
      }
      Copy(0, data[i..]);
      EndsAt(fed, data, i);
    }

    /** sat_SHA1_Final, up to the wiping of the context */
    method Final() returns (digest: seq<bv8>)
      requires Valid()
      modifies this, buffer
      ensures digest == Digest(Fold(PaddedWith(old(fed), CountBytes(old(count1), old(count0)))))
      ensures old(CountRight()) ==> digest == Hash(old(fed))
    {
      hide Fold, Low, High, Whole, Rest, Digest, CountBytes, Carries;
      ghost var m := fed;
      var last := CountBytes(count1, count0);
      Update([0x80]);
      var zeros := 0;
      BufferPosition(|fed|);
      while count0 / 8 % 64 * 8 != 448
        invariant Valid() && fed == m + [0x80] + Zeros(zeros) && zeros <= (55 - |m|) % 64
        invariant count0 / 8 % 64 == |fed| % 64
        decreases (55 - |m|) % 64 - zeros
      {
        FillUp(|m|, zeros);
        ghost var was := fed;
        Update([0]);
        BufferPosition(|fed|);
        zeros := zeros + 1;
        assert was + [0] == m + [0x80] + Zeros(zeros);
      }
      FillUp(|m|, zeros);
      Update(last);
      assert fed == PaddedWith(m, last);
      AllWhole(fed);
      digest := Digest(state);
    }
  }

  /** How many zeros it takes */
  lemma FillUp(n: nat, zeros: nat)
    requires zeros <= (55 - n) % 64
    ensures (n + 1 + zeros) % 64 * 8 == 448 <==> zeros == (55 - n) % 64
  {
    var k := (55 - n) % 64;
    assert (n + 1 + k) % 64 == 56;
    assert (n + 1 + zeros) % 64 == (56 - (k - zeros)) % 64;
  }

  lemma AllWhole(m: seq<bv8>)
    requires |m| % 64 == 0
    ensures Whole(m) == m
  {
  }

  /** When the carry out of the low word is right: for pieces under 2^29 bytes, or when there is one. */
  predicate Carries(count0: nat, len: nat) {
    len < 0x2000_0000 || count0 + 8 * len % WORD >= WORD
  }

  lemma LowMore(n: nat, len: nat)
    ensures (Low(n) + 8 * len) % WORD == Low(n + len)
  {
  }

  /** What the code adds to the high word is right exactly when its carry is. */
  lemma HighMore(n: nat, len: nat, before: nat)
    requires before == Low(n)
    ensures var carry := if (before + 8 * len) % WORD < 8 * len then 1 else 0;
            ((High(n) + carry) % WORD + len / 0x2000_0000) % WORD ==
            if Carries(before, len) then High(n + len) else (High(n + len) + 1) % WORD
  {
    var carry := if (before + 8 * len) % WORD < 8 * len then 1 else 0;
    var due := if before + 8 * len % WORD >= WORD then 1 else 0;
    var a, b := 8 * n / WORD, len / 0x2000_0000;
    HighSum(n, len);
    CarryIff(before, len);
    ModAdd(a, carry);
    ModAdd(a + carry, b);
    ModAdd(a + b, 1);
  }

  lemma HighSum(n: nat, len: nat)
    ensures var due := if 8 * n % WORD + 8 * len % WORD >= WORD then 1 else 0;
            8 * (n + len) / WORD == 8 * n / WORD + len / 0x2000_0000 + due
  {
    assert 8 * len / WORD == len / 0x2000_0000;
  }

  lemma CarryIff(before: nat, len: nat)
    requires before < WORD
    ensures var carry, due := (before + 8 * len) % WORD < 8 * len, before + 8 * len % WORD >= WORD;
            if Carries(before, len) then carry == due else carry && !due
  {
    if len < 0x2000_0000 {
      assert 8 * len % WORD == 8 * len;
    }
  }

  lemma ModAdd(a: nat, b: nat)
    ensures (a % WORD + b) % WORD == (a + b) % WORD
  {
  }

  lemma BufferPosition(n: nat)
    ensures Low(n) / 8 % 64 == n % 64
  {
  }

  lemma FirstBlock(was: seq<bv8>, data: seq<bv8>, i: nat)
    requires i == 64 - |was| % 64 <= |data|
    ensures |Rest(was) + data[..i]| == 64 && (|was| + i) % 64 == 0
    ensures Transform(Fold(Whole(was)), Rest(was) + data[..i]) == Fold(was + data[..i])
  {
    hide Fold, Transform, Whole, Rest;
    FoldMore(Whole(was), Rest(was) + data[..i]);
    assert Whole(was) + (Rest(was) + data[..i]) == Whole(was) + Rest(was) + data[..i];
  }

  lemma NextBlock(was: seq<bv8>, data: seq<bv8>, i: nat)
    requires i + 64 <= |data| && (|was| + i) % 64 == 0
    ensures (|was| + i + 64) % 64 == 0 && Fold(was + data[..i + 64]) == Transform(Fold(was + data[..i]), data[i..i + 64])
  {
    hide Fold, Transform;
    FoldMore(was + data[..i], data[i..i + 64]);
    assert was + data[..i] + data[i..i + 64] == was + data[..i + 64];
  }

  lemma EndsAt(was: seq<bv8>, data: seq<bv8>, i: nat)
    requires i <= |data| < i + 64 && (|was| + i) % 64 == 0
    ensures Whole(was + data) == was + data[..i] && Rest(was + data) == data[i..]
    ensures |was + data| % 64 == |data| - i
  {
    SplitAt(was + data, |was| + i);
    assert (was + data)[..|was| + i] == was + data[..i] && (was + data)[|was| + i..] == data[i..];
  }

  lemma StaysWhole(was: seq<bv8>, data: seq<bv8>)
    requires |was| % 64 + |data| <= 63
    ensures Whole(was + data) == Whole(was) && Rest(was + data) == Rest(was) + data
    ensures |was + data| % 64 == |was| % 64 + |data|
  {
    var n := |was| - |was| % 64;
    SplitAt(was + data, n);
    assert (was + data)[..n] == was[..n] && (was + data)[n..] == was[n..] + data;
  }

  // ----- the functions -----

  /** The digest of a message padded with a length whose high word is `high` */
  function Counted(m: seq<bv8>, high: nat): (r: seq<bv8>)
    ensures |r| == DIGEST_SIZE
  {
    Digest(Fold(PaddedWith(m, CountBytes(high, Low(|m|)))))
  }

  /** What the code makes of a message in one piece: from 2^29 bytes on the length is too large by 2^32 bits. */
  function CodeHash(m: seq<bv8>): (r: seq<bv8>)
    ensures |r| == DIGEST_SIZE
  {
    if |m| < 0x2000_0000 then Hash(m) else Counted(m, (High(|m|) + 1) % WORD)
  }

  /** lsha1 */
  method Sha1Of(m: seq<bv8>) returns (digest: seq<bv8>)
    requires |m| < 0x2000_0000_0000_0000
    ensures digest == CodeHash(m)
  {
    hide Fold, Digest, CountBytes;
    var ctx := new Context();
    ctx.Update(m);
    assert [] + m == m;
    digest := ctx.Final();
  }

  function Joined(parts: seq<seq<bv8>>): seq<bv8> {
    if parts == [] then [] else Joined(parts[..|parts| - 1]) + parts[|parts| - 1]
  }

  /** Any way of cutting a message into pieces under 2^29 bytes gives the hash of the whole. */
  method Sha1InParts(parts: seq<seq<bv8>>) returns (digest: seq<bv8>)
    requires forall k :: 0 <= k < |parts| ==> |parts[k]| < 0x2000_0000
    ensures digest == Hash(Joined(parts))
  {
    hide Fold, Whole, Rest, Low, High, Hash;
    var ctx := new Context();
    for k := 0 to |parts|
      invariant ctx.Valid() && ctx.CountRight() && fresh(ctx) && fresh(ctx.buffer)
      invariant ctx.fed == Joined(parts[..k])
    {
      ctx.Update(parts[k]);
      assert parts[..k + 1][..k] == parts[..k];
    }
    assert parts[..|parts|] == parts;
    digest := ctx.Final();
  }

  /** xor_key: the key is changed four bytes at a time, by a word of four equal bytes. */
  method XorKey(key: array<bv8>, x: bv8)
    requires key.Length == BLOCKSIZE
    modifies key
    ensures key[..] == Xor(old(key[..]), x)
  {
    hide XorByte;
    var i := 0;
    while i < BLOCKSIZE
      invariant 0 <= i <= BLOCKSIZE && i % 4 == 0
      invariant forall k :: 0 <= k < i ==> key[k] == XorByte(old(key[k]), x)
      invariant forall k :: i <= k < BLOCKSIZE ==> key[k] == old(key[k])
    {
      key[i], key[i + 1] := XorByte(key[i], x), XorByte(key[i + 1], x);
      key[i + 2], key[i + 3] := XorByte(key[i + 2], x), XorByte(key[i + 3], x);
      i := i + 4;
    }
  }

  lemma XorTwice(b: seq<bv8>)
    ensures Xor(Xor(b, 0x5c), 0x5c ^ 0x36) == Xor(b, 0x36)
  {
    forall i | 0 <= i < |b| ensures Xor(Xor(b, 0x5c), 0x5c ^ 0x36)[i] == Xor(b, 0x36)[i] {
      BothPads(b[i]);
    }
  }

  lemma BothPads(b: bv8)
    ensures XorByte(XorByte(b, 0x5c), 0x5c ^ 0x36) == XorByte(b, 0x36)
  {
  }

  /** The key block that the code makes */
  function CodeKey(key: seq<bv8>): (r: seq<bv8>)
    ensures |r| == BLOCKSIZE
    ensures |key| < 0x2000_0000 ==> r == KeyBlock(key)
  {
    if |key| > BLOCKSIZE then CodeHash(key) + Zeros(BLOCKSIZE - DIGEST_SIZE) else key + Zeros(BLOCKSIZE - |key|)
  }

  /** The high word of the count after the key block and a text */
  function HighAfter(n: nat): nat {
    if Carries(512, n) then High(BLOCKSIZE + n) else (High(BLOCKSIZE + n) + 1) % WORD
  }

  /** The key block of lhmac_sha1 */
  method FillKey(key: seq<bv8>) returns (rkey: array<bv8>)
    requires |key| < 0x2000_0000_0000_0000
    ensures fresh(rkey) && rkey[..] == CodeKey(key)
  {
    hide CodeHash;
    rkey := new bv8[BLOCKSIZE](_ => 0);
    var start := key;
    if |key| > BLOCKSIZE {
      start := Sha1Of(key);
    }
    forall i | 0 <= i < |start| {
      rkey[i] := start[i];
    }
    assert rkey[..] == start + Zeros(BLOCKSIZE - |start|);
  }

  /** A context that has taken the key block */
  method Begin(block: seq<bv8>) returns (ctx: Context)
    requires |block| == BLOCKSIZE
    ensures fresh(ctx) && fresh(ctx.buffer) && ctx.Valid() && ctx.CountRight() && ctx.fed == block
  {
    ctx := new Context();
    ctx.Update(block);
    assert [] + block == block;
  }

  /** The rest of the message, and the digest */
  method Finish(ctx: Context, data: seq<bv8>) returns (digest: seq<bv8>)
    requires ctx.Valid() && ctx.CountRight() && |ctx.fed| == BLOCKSIZE && |data| < 0x2000_0000_0000_0000
    modifies ctx, ctx.buffer
    ensures digest == Counted(old(ctx.fed) + data, HighAfter(|data|))
    ensures Carries(512, |data|) ==> digest == Hash(old(ctx.fed) + data)
  {
    hide Fold, Whole, Rest, High, Digest, CountBytes, PaddedWith;
    assert ctx.count0 == 512;
    ctx.Update(data);
    digest := ctx.Final();
  }

  /**
    lhmac_sha1. It is the definition for keys under 2^29 bytes and texts whose length is counted
    right; for any others it is the same with the lengths as the code counts them.
   */
  method HmacSha1(key: seq<bv8>, text: seq<bv8>) returns (digest: seq<bv8>)
    requires |key| < 0x2000_0000_0000_0000 && |text| < 0x2000_0000_0000_0000
    ensures var inner := Counted(Xor(CodeKey(key), 0x36) + text, HighAfter(|text|));
            digest == Hash(Xor(CodeKey(key), 0x5c) + inner)
    ensures |key| < 0x2000_0000 && Carries(512, |text|) ==> digest == Hmac(key, text)
  {
    hide Hash, KeyBlock, Xor, Counted, HighAfter, CodeHash, Context.Valid, Context.CountRight;
    var rkey := FillKey(key);
    XorKey(rkey, 0x5c);
    var outer := Begin(rkey[..]);
    XorTwice(CodeKey(key));
    XorKey(rkey, 0x5c ^ 0x36);
    var inner := Begin(rkey[..]);
    var digest2 := Finish(inner, text);
    digest := Finish(outer, digest2);
  }
}
