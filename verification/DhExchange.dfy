/**
  The key exchange of lua-crypt.c: multiplication and powers modulo the largest 64-bit prime, done
  in 64-bit arithmetic that wraps around.
 */
module DhExchange {
  import opened Common

  const WORD := 0x1_0000_0000_0000_0000
  const P := 0xffff_ffff_ffff_ffc5
  const G := 5

  type U64 = x: int | 0 <= x < WORD

  /** uint64_t addition, subtraction and doubling */
  function Add(a: U64, b: U64): U64 {
    (a as int + b as int) % WORD
  }

  function Sub(a: U64, b: U64): U64 {
    (a as int - b as int) % WORD
  }

  function Double(a: U64): U64 {
    (a as int * 2) % WORD
  }

  // ----- arithmetic -----

  function Pow(a: nat, n: nat): nat {
    if n == 0 then 1 else a * Pow(a, n - 1)
  }

  /** Congruent modulo P */
  predicate Same(a: int, b: int) {
    a % P == b % P
  }

  lemma SameShift(a: int, k: int)
    ensures Same(a + k * P, a)
  {
  }

  lemma SameIff(a: int, b: int)
    ensures Same(a, b) <==> exists k: int :: a - b == Times(k)
  {
    if Same(a, b) {
      assert a - b == Times(a / P - b / P);
    } else {
      forall k: int ensures a - b != Times(k) {
        SameShift(b, k);
      }
    }
  }

  function Times(k: int): int {
    k * P
  }

  lemma SameMul(a: int, b: int, c: int)
    requires Same(a, b)
    ensures Same(a * c, b * c)
  {
    SameIff(a, b);
    var k: int :| a - b == Times(k);
    ShiftMul(a, b, c, k);
    SameShift(b * c, k * c);
  }

  lemma ShiftMul(a: int, b: int, c: int, k: int)
    requires a - b == k * P
    ensures a * c == b * c + k * c * P
  {
    assert a * c - b * c == (a - b) * c;
    assert k * P * c == k * c * P;
  }

  lemma SameAdd(a: int, b: int, c: int)
    requires Same(a, b)
    ensures Same(a + c, b + c)
  {
    SameIff(a, b);
    var k: int :| a - b == Times(k);
    SameShift(b + c, k);
  }

  lemma SameProduct(a: int, b: int, c: int, d: int)
    requires Same(a, b) && Same(c, d)
    ensures Same(a * c, b * d)
  {
    SameMul(a, b, c);
    SameMul(c, d, b);
    assert c * b == b * c && d * b == b * d;
  }

  lemma Reduced(a: int)
    ensures 0 <= a % P < P && Same(a % P, a)
  {
  }

  lemma {:induction false} PowAdd(a: nat, m: nat, n: nat)
    ensures Pow(a, m + n) == Pow(a, m) * Pow(a, n)
  {
    if m > 0 {
      PowAdd(a, m - 1, n);
      Assoc(a, Pow(a, m - 1), Pow(a, n));
    }
  }

  lemma Assoc(a: int, b: int, c: int)
    ensures a * (b * c) == a * b * c
  {
  }

  lemma {:induction false} PowPow(a: nat, m: nat, n: nat)
    ensures Pow(Pow(a, m), n) == Pow(a, m * n)
  {
    if n > 0 {
      PowPow(a, m, n - 1);
      assert m * n == m + m * (n - 1);
      PowAdd(a, m, m * (n - 1));
    }
  }

  lemma {:induction false} SamePow(a: nat, b: nat, n: nat)
    requires Same(a, b)
    ensures Same(Pow(a, n), Pow(b, n))
  {
    if n > 0 {
      SamePow(a, b, n - 1);
      SameProduct(a, b, Pow(a, n - 1), Pow(b, n - 1));
    }
  }

  // ----- the code -----

  /** The addition in mul_mod_p: m and a are added modulo P without overflow. */
  function AddModP(m: U64, a: U64): (r: U64)
    requires m < P && a <= P
    ensures r < P && Same(r, m + a)
  {
    var t := Sub(P, a);
    if m >= t then
      SameShift(m + a, -1);
      Sub(m, t)
    else Add(m, a)
  }

  /** The doubling in mul_mod_p, where a * 2 may wrap around. */
  function DoubleModP(a: U64): (r: U64)
    requires a <= P
    ensures r <= P && Same(r, a * 2)
  {
    if a >= Sub(P, a) then
      SameShift(a * 2, -1);
      Sub(Double(a), P)
    else Double(a)
  }

  /** The product of what is left, after one more binary digit of b. */
  lemma DigitStep(m: int, a: int, b: nat, m': int, a': int)
    requires b > 0
    requires if b % 2 == 1 then Same(m', m + a) else m' == m
    requires Same(a', a * 2)
    ensures Same(m' + a' * (b / 2), m + a * b)
  {
    var h := b / 2;
    SameMul(a', a * 2, h);
    SameAdd(a' * h, a * 2 * h, m');
    var rest := a * 2 * h;
    if b % 2 == 1 {
      SameAdd(m', m + a, rest);
      Odd(a, b, h);
    } else {
      Even(a, b, h);
    }
    assert a' * h + m' == m' + a' * h && rest + m' == m' + rest;
  }

  lemma Odd(a: int, b: int, h: int)
    requires b == 2 * h + 1
    ensures a * b == a + a * 2 * h
  {
  }

  lemma Even(a: int, b: int, h: int)
    requires b == 2 * h
    ensures a * b == a * 2 * h
  {
  }

  /** mul_mod_p, for an `a` up to and including P */
  method MulModP(a: U64, b: U64) returns (m: U64)
    requires a <= P
    ensures m == (a as int * b as int) % P
  {
    hide Same;
    var x: U64, y: U64 := a, b;
    m := 0;
    SameRefl(a as int * b as int);
    while y != 0
      invariant m < P && x <= P
      invariant Same(m + x as int * y as int, a as int * b as int)
      decreases y as int
    {
      ghost var m0, x0 := m, x;
      if y as int % 2 == 1 {
        m := AddModP(m, x);
      }
      x := DoubleModP(x);
      DigitStep(m0, x0, y, m, x);
      SameTrans(m + x as int * (y as int / 2), m0 + x0 as int * y as int, a as int * b as int);
      y := y as int / 2;
    }
    Settled(m, a as int * b as int);
  }

  lemma SameRefl(a: int)
    ensures Same(a, a)
  {
  }

  lemma SameTrans(a: int, b: int, c: int)
    requires Same(a, b) && Same(b, c)
    ensures Same(a, c)
  {
  }

  lemma Settled(m: int, a: int)
    requires 0 <= m < P && Same(m, a)
    ensures m == a % P
  {
  }

  /** pow_mod_p, for an exponent from 1 on */
  method PowModP(a: U64, b: U64) returns (r: U64)
    requires a <= P && b > 0
    ensures r <= P && Same(r, Pow(a, b))
    ensures if a == P && b == 1 then r == P else r < P
    decreases b as int
  {
    hide Same, Pow;
    if b == 1 {
      PowOne(a);
      SameRefl(a);
      return a;
    }
    var h: U64 := b as int / 2;
    var t := PowModP(a, h);
    r := MulModP(t, t);
    Squared(a, h, t, r);
    if b as int % 2 != 0 {
      var s := r;
      r := MulModP(s, a);
      OnceMore(a, 2 * h as int, s, r);
    }
  }

  lemma PowOne(a: nat)
    ensures Pow(a, 1) == a
  {
    assert Pow(a, 0) == 1;
  }

  lemma Squared(a: nat, h: nat, t: nat, r: nat)
    requires Same(t, Pow(a, h)) && r == t * t % P
    ensures r < P && Same(r, Pow(a, 2 * h))
  {
    SameProduct(t, Pow(a, h), t, Pow(a, h));
    PowAdd(a, h, h);
    Reduced(t * t);
  }

  lemma OnceMore(a: nat, n: nat, s: nat, r: nat)
    requires Same(s, Pow(a, n)) && r == s * a % P
    ensures r < P && Same(r, Pow(a, n + 1))
  {
    SameMul(s, Pow(a, n), a);
    assert Pow(a, n) * a == a * Pow(a, n) == Pow(a, n + 1);
    Reduced(s * a);
  }

  /** powmodp */
  method PowerModP(a: U64, b: U64) returns (r: U64)
    requires b > 0
    ensures Same(r, Pow(a, b))
    // reduced, except that P to the first comes out as P and not as 0
    ensures r == if a == P && b == 1 then P else Pow(a, b) % P
  {
    hide Pow;
    var x := a;
    if a > P {
      x := a as int % P;
      Reduced(a as int);
      SamePow(x, a, b);
    }
    r := PowModP(x, b);
  }

  // ----- the exchange -----

  datatype DhError = Zero

  /** ldhexchange: the public number of a secret one */
  method Exchange(x: U64) returns (r: Result<U64, DhError>)
    ensures r == if x == 0 then Err(Zero) else Ok(Pow(G, x) % P)
  {
    if x == 0 {
      return Err(Zero);
    }
    var p := PowerModP(G, x);
    return Ok(p);
  }

  /** ldhsecret: the common secret from the other's public number and one's own secret number */
  method Secret(x: U64, y: U64) returns (r: Result<U64, DhError>)
    ensures r.Err? <==> x == 0 || y == 0
    ensures r.Ok? ==> r.value == if x == P && y == 1 then P else Pow(x, y) % P
  {
    if x == 0 || y == 0 {
      return Err(Zero);
    }
    var p := PowerModP(x, y);
    return Ok(p);
  }

  /** A public number is never 0, so ldhsecret does not refuse it. */
  lemma {:induction false} PublicNotZero(n: nat)
    ensures Pow(G, n) % P != 0
  {
    if n > 0 {
      PublicNotZero(n - 1);
      Cancel(Pow(G, n - 1));
    }
  }

  /** P does not divide G, so G cancels. */
  lemma Cancel(q: nat)
    requires q % P != 0
    ensures G * q % P != 0
  {
  }

  lemma SameSecret(a: nat, b: nat)
    ensures Pow(Pow(G, a) % P, b) % P == Pow(G, a * b) % P
  {
    hide Pow;
    Reduced(Pow(G, a));
    SamePow(Pow(G, a) % P, Pow(G, a), b);
    PowPow(G, a, b);
  }

  /** Both sides get the same secret, and it is G to the product of the secret numbers. */
  method Agree(a: U64, b: U64) returns (mine: U64, yours: U64)
    requires a != 0 && b != 0
    ensures mine == yours == Pow(G, a as int * b as int) % P
  {
    hide Pow;
    var pa := Exchange(a);
    var pb := Exchange(b);
    PublicNotZero(a);
    PublicNotZero(b);
    var x := Secret(pb.value, a);
    var y := Secret(pa.value, b);
    SameSecret(b, a);
    SameSecret(a, b);
    assert a as int * b as int == b as int * a as int;
    return x.value, y.value;
  }
}
