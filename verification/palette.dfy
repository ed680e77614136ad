/** `classColor`: a drawing colour derived from a class id by a
    multiplicative (Knuth) hash, so that each class keeps one colour. */
module Palette {
  /** 2^32: the width of `uint32_t`. */
  const Word: int := 0x1_0000_0000

  /** Knuth's multiplier 2654435761 (0x9E3779B1), close to 2^32 divided by
      the golden ratio. */
  const Golden: int := 0x9E37_79B1

  /** The multiplicative inverse of `Golden` modulo 2^32. */
  const GoldenInverse: int := 244002641

  /** The class id cast to an unsigned 32-bit word and multiplied by
      Knuth's constant: the cast takes `cid` modulo 2^32, and the product
      wraps modulo 2^32. */
  function Hash(cid: int): (h: int)
    ensures 0 <= h < Word
  {
    (cid % Word) * Golden % Word
  }

  /** A colour in OpenCV's channel order: blue, green, red. */
  datatype Color = Color(b: int, g: int, r: int)

  predicate IsByte(v: int) { 0 <= v < 256 }

  /** The colour is made of the hash's three low bytes, the lowest one
      giving blue. */
  function ClassColor(cid: int): (c: Color)
    ensures IsByte(c.b) && IsByte(c.g) && IsByte(c.r)
    ensures c.b + 256 * c.g + 65536 * c.r == Hash(cid) % 0x100_0000
  {
    var h := Hash(cid);
    LowBytes(h);
    Color(h % 256, h / 256 % 256, h / 65536 % 256)
  }

  lemma LowBytes(h: nat)
    ensures h % 256 + 256 * (h / 256 % 256) + 65536 * (h / 65536 % 256) == h % 0x100_0000
  {
    var q := h / 256;
    assert h == 256 * q + h % 256;
    assert q / 256 == h / 65536;
    assert q == 256 * (q / 256) + q % 256;
    var top := h / 65536;
    assert top == 256 * (top / 256) + top % 256;
    assert h == 0x100_0000 * (top / 256) + (h % 256 + 256 * (q % 256) + 65536 * (top % 256));
    ModOfDivision(h, 0x100_0000, top / 256, h % 256 + 256 * (q % 256) + 65536 * (top % 256));
  }

  /** Division's remainder is the unique one in `[0, m)`. */
  lemma ModOfDivision(a: int, m: int, q: int, r: int)
    requires m > 0 && a == m * q + r && 0 <= r < m
    ensures a % m == r && a / m == q
  {
    var d := q - a / m;
    assert m * d == a % m - r by {
      assert a == m * (a / m) + a % m;
    }
    if d >= 1 {
      MulAtLeast(m, d);
    } else if d <= -1 {
      MulAtLeast(m, -d);
    }
  }

  lemma MulAtLeast(m: int, d: int)
    requires m > 0 && d >= 1
    ensures m * d >= m
  {
  }

  /** Adding a multiple of the modulus leaves the remainder alone. */
  lemma ModAddMultiple(k: int, y: int, m: int)
    requires m > 0
    ensures (k * m + y) % m == y % m
  {
    assert y == m * (y / m) + y % m;
    assert k * m + y == m * (k + y / m) + y % m;
    ModOfDivision(k * m + y, m, k + y / m, y % m);
  }

  /** Reducing a factor first does not change a product's remainder. */
  lemma ModMulLeft(a: int, b: int, m: int)
    requires m > 0
    ensures (a % m) * b % m == a * b % m
  {
    assert a == m * (a / m) + a % m;
    assert a * b == ((a / m) * b) * m + (a % m) * b;
    ModAddMultiple((a / m) * b, (a % m) * b, m);
  }

  /** Multiplying by the inverse undoes the hash. */
  function Unhash(h: int): int {
    h * GoldenInverse % Word
  }

  lemma UnhashHash(cid: int)
    ensures Unhash(Hash(cid)) == cid % Word
  {
    var x := cid % Word;
    ModMulLeft(x * Golden, GoldenInverse, Word);
    var q := (Golden * GoldenInverse) / Word;
    assert Golden * GoldenInverse == q * Word + 1;
    assert x * Golden * GoldenInverse == (x * q) * Word + x;
    ModAddMultiple(x * q, x, Word);
  }

  /** Two class ids hash alike exactly when they agree modulo 2^32. */
  lemma HashInjective(a: int, b: int)
    ensures Hash(a) == Hash(b) <==> a % Word == b % Word
  {
    UnhashHash(a);
    UnhashHash(b);
  }

  /** The colour depends on the class id only through its 32-bit value. */
  lemma ClassColorWraps(cid: int)
    ensures ClassColor(cid + Word) == ClassColor(cid)
  {
    ModAddMultiple(1, cid, Word);
  }
}
