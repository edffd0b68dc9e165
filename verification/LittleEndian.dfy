/** Numbers as bytes, the low byte first. */
module LittleEndian {
  import opened Common

  function Little(n: nat, width: nat): (r: seq<Byte>)
    ensures |r| == width
  {
    if width == 0 then [] else [n % 256] + Little(n / 256, width - 1)
  }

  function FromLittle(b: seq<Byte>): nat {
    if b == [] then 0 else b[0] as int + 256 * FromLittle(b[1..])
  }

  function Power(width: nat): nat {
    if width == 0 then 1 else 256 * Power(width - 1)
  }

  lemma {:induction false} LittleRoundTrip(n: nat, width: nat)
    requires n < Power(width)
    ensures FromLittle(Little(n, width)) == n
  {
    if width > 0 {
      assert n / 256 < Power(width - 1);
      LittleRoundTrip(n / 256, width - 1);
      assert Little(n, width)[1..] == Little(n / 256, width - 1);
    }
  }

  lemma {:induction false} FromLittleBound(b: seq<Byte>)
    ensures FromLittle(b) < Power(|b|)
  {
    if b != [] {
      FromLittleBound(b[1..]);
    }
  }

  lemma Powers()
    ensures Power(1) == 0x100 && Power(2) == 0x10000 && Power(4) == 0x1_0000_0000 && Power(8) == 0x1_0000_0000_0000_0000
  {
    assert Power(3) == 0x100_0000 && Power(5) == 0x100_0000_0000 && Power(6) == 0x1_0000_0000_0000 && Power(7) == 0x100_0000_0000_0000;
  }

  /** A signed number as the unsigned one with the same bits, and back. */
  function Unsigned(n: int, modulus: nat): int {
    if n < 0 then n + modulus else n
  }

  function Signed(n: int, modulus: nat): int {
    if n < modulus / 2 then n else n - modulus
  }
}
