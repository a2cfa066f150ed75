/** Python's shift, mask and bitwise-or operators on unbounded integers, as
    the packet codecs use them, and the arithmetic facts that make them field
    packing and field extraction. */
module Bits {

  /** An element of Python's `bytes`. */
  type byte = x: int | 0 <= x < 256

  function Pow2(n: nat): (r: nat)
    ensures r >= 1
  {
    if n == 0 then 1 else 2 * Pow2(n - 1)
  }

  /** `a << n` on a non-negative integer. */
  function Shl(a: nat, n: nat): (r: nat)
    ensures Shr(r, n) == a && Mask(r, n) == 0
  {
    var p := Pow2(n);
    DivModUnique(a * p, p, a, 0);
    a * p
  }

  /** `a >> n`: Python shifts right arithmetically, rounding towards minus
      infinity, which is Dafny's Euclidean division by a positive divisor. */
  function Shr(a: int, n: nat): (r: int)
    ensures Pow2(n) * r <= a < Pow2(n) * (r + 1)
  {
    a / Pow2(n)
  }

  /** `a & (2**n - 1)`: on Python's two's-complement integers this keeps the
      low n bits, which is the Euclidean remainder, also for negative `a`. */
  function Mask(a: int, n: nat): (r: nat)
    ensures r < Pow2(n)
    ensures a == Pow2(n) * Shr(a, n) + r
  {
    a % Pow2(n)
  }

  /** `a | b` on non-negative integers, bit by bit from the least
      significant one. */
  function Or(a: nat, b: nat): (r: nat)
    ensures a <= r && b <= r && r <= a + b
    decreases a
  {
    if a == 0 then b
    else if b == 0 then a
    else 2 * Or(a / 2, b / 2) + (if a % 2 == 1 || b % 2 == 1 then 1 else 0)
  }

  /** `a & b` on non-negative integers, bit by bit. */
  function And(a: nat, b: nat): (r: nat)
    ensures r <= a && r <= b
    decreases a
  {
    if a == 0 || b == 0 then 0
    else 2 * And(a / 2, b / 2) + (if a % 2 == 1 && b % 2 == 1 then 1 else 0)
  }

  /** The remainder modulo 2^(n+1) is made of the remainder of the halved
      value modulo 2^n and the lowest bit. */
  lemma ModDouble(a: int, n: nat)
    ensures a % Pow2(n + 1) == 2 * ((a / 2) % Pow2(n)) + a % 2
  {
    var p := Pow2(n);
    var q := a / 2;
    var b := a % 2;
    var h := q / p;
    var l := q % p;
    assert Pow2(n + 1) == 2 * p;
    assert a == 2 * q + b;
    assert q == h * p + l;
    assert a == h * (2 * p) + (2 * l + b);
    assert 0 <= 2 * l + b < 2 * p;
    DivModUnique(a, 2 * p, h, 2 * l + b);
  }

  /** Euclidean division has a single quotient and remainder. */
  lemma DivModUnique(a: int, d: int, q: int, r: int)
    requires d > 0 && 0 <= r < d && a == q * d + r
    ensures a / d == q && a % d == r
  {
    var q0 := a / d;
    var r0 := a % d;
    assert a == q0 * d + r0;
    if q0 > q {
      var z := q0 - q;
      assert z * d == q0 * d - q * d;
      MulAtLeast(z, d);
    } else if q0 < q {
      var z := q - q0;
      assert z * d == q * d - q0 * d;
      MulAtLeast(z, d);
    }
  }

  lemma MulAtLeast(z: int, d: int)
    requires z >= 1 && d > 0
    ensures z * d >= d
  {
    assert z * d == (z - 1) * d + d;
  }

  /** Masking with 2^n - 1 through the bitwise `&` keeps the low n bits. */
  lemma {:induction false} MaskIsAnd(a: nat, n: nat)
    ensures And(a, Pow2(n) - 1) == Mask(a, n)
  {
    if n == 0 {
    } else if a == 0 {
    } else {
      var m := Pow2(n) - 1;
      assert m == 2 * (Pow2(n - 1) - 1) + 1;
      assert m / 2 == Pow2(n - 1) - 1 && m % 2 == 1;
      assert And(a, m) == 2 * And(a / 2, m / 2) + a % 2;
      MaskIsAnd(a / 2, n - 1);
      ModDouble(a, n - 1);
    }
  }

  /** Or-ing a value shifted by n with one below 2^n is addition: the two
      occupy disjoint bits. */
  lemma {:induction false} OrDisjoint(a: nat, b: nat, n: nat)
    requires b < Pow2(n)
    ensures Or(Shl(a, n), b) == Shl(a, n) + b
  {
    if n == 0 {
    } else if a == 0 || b == 0 {
    } else {
      var p := Pow2(n - 1);
      var x := a * p;
      assert Shl(a, n) == 2 * x;
      MulAtLeast(a, p);
      assert (2 * x) / 2 == x && (2 * x) % 2 == 0;
      OrDisjoint(a, b / 2, n - 1);
    }
  }

  /** `(k << 5) | (c << 3) | t`: the header byte of a packet, with a 3-bit
      kind, a 2-bit conductor and a 3-bit target group. */
  function PackHeader(k: nat, c: nat, t: nat): (r: nat)
    requires c < 4 && t < 8
    ensures r == 32 * k + 8 * c + t
  {
    assert Pow2(2) == 4 && Pow2(3) == 8 && Pow2(5) == 32;
    OrDisjoint(k, Shl(c, 3), 5);
    assert Shl(k, 5) + Shl(c, 3) == Shl(4 * k + c, 3);
    OrDisjoint(4 * k + c, t, 3);
    Or(Or(Shl(k, 5), Shl(c, 3)), t)
  }

  /** The header determines its three fields: two packings that agree are
      packings of the same fields. */
  lemma HeaderUnique(k: nat, c: nat, t: nat, k': nat, c': nat, t': nat)
    requires c < 4 && t < 8 && c' < 4 && t' < 8
    requires 32 * k + 8 * c + t == 32 * k' + 8 * c' + t'
    ensures k == k' && c == c' && t == t'
  {
    DivModUnique(32 * k + 8 * c + t, 32, k, 8 * c + t);
    DivModUnique(32 * k' + 8 * c' + t', 32, k', 8 * c' + t');
    DivModUnique(8 * c + t, 8, c, t);
    DivModUnique(8 * c' + t', 8, c', t');
  }

  /** `(v >> 8) & 0xFF`: the high byte of v modulo 2^16. */
  function HighByte(v: int): (r: byte)
    ensures r == (v % 65536) / 256
  {
    var q := v / 256;
    var hi := q % 256;
    var lo := v % 256;
    assert Pow2(8) == 256;
    assert v == 256 * q + lo;
    assert q == 256 * (q / 256) + hi;
    DivModUnique(v, 65536, q / 256, 256 * hi + lo);
    DivModUnique(256 * hi + lo, 256, hi, lo);
    Mask(Shr(v, 8), 8)
  }

  /** `v & 0xFF`: the low byte of v modulo 2^16. */
  function LowByte(v: int): (r: byte)
    ensures r == (v % 65536) % 256
  {
    var m := v % 65536;
    assert Pow2(8) == 256;
    assert v == 65536 * (v / 65536) + m;
    assert v == 256 * (256 * (v / 65536) + m / 256) + m % 256;
    DivModUnique(v, 256, 256 * (v / 65536) + m / 256, m % 256);
    Mask(v, 8)
  }

  /** `(hi << 8) | lo` */
  function JoinWord(hi: byte, lo: byte): (r: nat)
    ensures r == 256 * hi + lo && r < 65536
  {
    assert Pow2(8) == 256;
    OrDisjoint(hi, lo, 8);
    assert Shl(hi, 8) == 256 * hi;
    Or(Shl(hi, 8), lo)
  }

  /** The two payload bytes are the big-endian split of the value taken
      modulo 2^16, also for negative and oversized values. */
  lemma SplitWord(v: int)
    ensures 256 * HighByte(v) + LowByte(v) == v % 65536
  {
    var q := v / 256;
    var hi := q % 256;
    var lo := v % 256;
    assert v == 256 * q + lo;
    assert q == 256 * (q / 256) + hi;
    DivModUnique(v, 65536, q / 256, 256 * hi + lo);
  }

  /** Joining the two bytes of a split 16-bit value gives the value back,
      and splitting a joined pair gives the pair back. */
  lemma JoinSplit(v: int, hi: byte, lo: byte)
    ensures JoinWord(HighByte(v), LowByte(v)) == v % 65536
    ensures HighByte(JoinWord(hi, lo)) == hi && LowByte(JoinWord(hi, lo)) == lo
  {
    SplitWord(v);
    var w := 256 * hi + lo;
    assert JoinWord(hi, lo) == w;
    DivModUnique(w, 65536, 0, w);
    DivModUnique(w, 256, hi, lo);
  }

  /** Extracting the three header fields of a byte, as
      `(b >> 5) & 0b111`, `(b >> 3) & 0b11` and `b & 0b111`, recovers the
      fields it was packed from. */
  lemma HeaderFields(b: byte)
    ensures Mask(Shr(b, 5), 3) == b / 32 && Mask(Shr(b, 3), 2) == (b / 8) % 4 && Mask(b, 3) == b % 8
    ensures b == 32 * Mask(Shr(b, 5), 3) + 8 * Mask(Shr(b, 3), 2) + Mask(b, 3)
  {
    assert Pow2(2) == 4 && Pow2(3) == 8 && Pow2(5) == 32;
    var k, c, t := b / 32, (b / 8) % 4, b % 8;
    assert b / 32 < 8 && Shr(b, 5) == k && Shr(b, 3) == b / 8;
    DivModUnique(k, 8, 0, k);
    DivModUnique(b, 8, 4 * k + c, t);
  }
}
