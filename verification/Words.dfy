/** Words of 32 bits and their bytes. */
module Words {

  /** The word with these bytes, the high one first, and its bytes */
  function Word(a: bv8, b: bv8, c: bv8, d: bv8): bv32 {
    ((a as bv32) << 24) | ((b as bv32) << 16) | ((c as bv32) << 8) | (d as bv32)
  }

  function Byte0(n: bv32): bv8 {
    ((n >> 24) & 0xFF) as bv8
  }

  function Byte1(n: bv32): bv8 {
    ((n >> 16) & 0xFF) as bv8
  }

  function Byte2(n: bv32): bv8 {
    ((n >> 8) & 0xFF) as bv8
  }

  function Byte3(n: bv32): bv8 {
    (n & 0xFF) as bv8
  }

  lemma WordOfBytes(n: bv32)
    ensures Word(Byte0(n), Byte1(n), Byte2(n), Byte3(n)) == n
  {
  }

  lemma BytesOfWord(a: bv8, b: bv8, c: bv8, d: bv8)
    ensures var n := Word(a, b, c, d); Byte0(n) == a && Byte1(n) == b && Byte2(n) == c && Byte3(n) == d
  {
  }

  /** Rotation to the left */
  function Rol(w: bv32, n: nat): bv32
    requires 0 < n < 32
  {
    (w << n) | (w >> (32 - n))
  }
}
