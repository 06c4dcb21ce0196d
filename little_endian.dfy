/**
 * Unsigned machine words and their little-endian byte encoding: the
 * arithmetic behind the delta-phase word that the AD985x driver shifts out
 * low byte first.
 */
module LittleEndian {

  /** uint8_t */
  newtype u8 = x: int | 0 <= x < 0x100

  /** uint32_t */
  newtype u32 = x: int | 0 <= x < 0x1_0000_0000

  /** 256^n, the value range of an n-byte unsigned word. */
  function Pow256(n: nat): (p: nat)
    ensures p > 0
  {
    if n == 0 then 1 else 256 * Pow256(n - 1)
  }

  /** `x & 0xFF` for a non-negative x. */
  function Low8(x: nat): u8
  {
    (x % 256) as u8
  }

  /** `x >> 8` on an unsigned 32-bit x (a logical shift: the top byte fills with zeros). */
  function Shr8(x: u32): u32
  {
    x / 256
  }

  /** The n lowest-order bytes of x, lowest-order byte first. */
  function LeBytes(x: nat, n: nat): (bs: seq<u8>)
    ensures |bs| == n
  {
    if n == 0 then [] else [Low8(x)] + LeBytes(x / 256, n - 1)
  }

  /** The value of a little-endian byte string: the sum of bs[i] * 256^i. */
  function FromLe(bs: seq<u8>): (x: nat)
    ensures x < Pow256(|bs|)
  {
    if bs == [] then 0 else bs[0] as nat + 256 * FromLe(bs[1..])
  }

  /** Encoding a value that fits in n bytes and reading it back gives the value. */
  lemma {:induction false} FromLeBytes(x: nat, n: nat)
    requires x < Pow256(n)
    ensures FromLe(LeBytes(x, n)) == x
  {
    if n > 0 {
      FromLeBytes(x / 256, n - 1);
      assert LeBytes(x, n)[1..] == LeBytes(x / 256, n - 1);
    }
  }

  /** Reading a byte string and encoding the value in as many bytes gives the string back. */
  lemma {:induction false} LeBytesFromLe(bs: seq<u8>)
    ensures LeBytes(FromLe(bs), |bs|) == bs
  {
    if bs != [] {
      LeBytesFromLe(bs[1..]);
      var x := FromLe(bs);
      assert x % 256 == bs[0] as nat && x / 256 == FromLe(bs[1..]);
      assert bs == [bs[0]] + bs[1..];
    }
  }

  /** Byte i of the encoding is `(x >> 8*i) & 0xFF`. */
  lemma {:induction false} LeBytesAt(x: nat, n: nat, i: nat)
    requires i < n
    ensures LeBytes(x, n)[i] == Low8(x / Pow256(i))
  {
    if i > 0 {
      LeBytesAt(x / 256, n - 1, i - 1);
      DivDiv(x, 256, Pow256(i - 1));
    }
  }

  /**
   * Sending the low byte of a value below 256^n and shifting it right by one
   * byte leaves the remaining n - 1 bytes of its encoding, in a value below 256^(n-1).
   */
  lemma ShiftOut(x: nat, n: nat)
    requires 0 < n && x < Pow256(n)
    ensures LeBytes(x, n) == [Low8(x)] + LeBytes(x / 256, n - 1)
    ensures x / 256 < Pow256(n - 1)
  {
  }

  /** Division by a then by b is division by a * b. */
  lemma DivDiv(x: nat, a: nat, b: nat)
    requires a > 0 && b > 0
    ensures x / a / b == x / (a * b)
  {
    var q, r := x / a, x % a;
    var q2, r2 := q / b, q % b;
    assert x == a * q + r;
    assert q == b * q2 + r2;
    calc {
      x;
      a * (b * q2 + r2) + r;
      { MulAssoc(a, b, q2); }
      (a * b) * q2 + (a * r2 + r);
    }
    assert a * r2 <= a * (b - 1) by { MulMono(a, r2, b - 1); }
    DivUnique(x, a * b, q2, a * r2 + r);
  }

  lemma MulAssoc(a: int, b: int, c: int)
    ensures a * (b * c) == (a * b) * c
  {
  }

  lemma MulMono(a: nat, x: nat, y: nat)
    requires x <= y
    ensures a * x <= a * y
  {
  }

  /** Quotient and remainder are determined by x == d * q + r with 0 <= r < d. */
  lemma DivUnique(x: int, d: int, q: int, r: int)
    requires d > 0 && x == d * q + r && 0 <= r < d
    ensures x / d == q
  {
    var q', r' := x / d, x % d;
    assert d * (q - q') == r' - r;
    if q > q' {
      MulMono(d, 1, q - q');
    } else if q < q' {
      MulMono(d, 1, q' - q);
    }
  }
}
