/** Bytes, powers of two and the division facts the bit-level proofs rest on. */
module Binary {

  /** One cell of a `Uint8Array`. */
  type byte = x: int | 0 <= x < 256

  type Bytes = seq<byte>

  function Pow2(n: nat): (p: nat)
    ensures p >= 1
  {
    if n == 0 then 1 else 2 * Pow2(n - 1)
  }

  lemma {:induction false} Pow2Add(a: nat, b: nat)
    ensures Pow2(a + b) == Pow2(a) * Pow2(b)
  {
    if b > 0 {
      Pow2Add(a, b - 1);
      assert Pow2(a + b) == 2 * Pow2(a + b - 1);
    }
  }

  lemma Pow2Small()
    ensures Pow2(0) == 1 && Pow2(1) == 2 && Pow2(2) == 4 && Pow2(3) == 8
    ensures Pow2(4) == 16 && Pow2(5) == 32 && Pow2(6) == 64 && Pow2(7) == 128
    ensures Pow2(8) == 256
  {
    assert Pow2(1) == 2 * Pow2(0);
    assert Pow2(2) == 2 * Pow2(1);
    assert Pow2(3) == 2 * Pow2(2);
    assert Pow2(4) == 2 * Pow2(3);
    assert Pow2(5) == 2 * Pow2(4);
    assert Pow2(6) == 2 * Pow2(5);
    assert Pow2(7) == 2 * Pow2(6);
    assert Pow2(8) == 2 * Pow2(7);
  }

  lemma {:induction false} MulAtLeast(a: int, m: int)
    requires a >= 1 && m > 0
    ensures a * m >= m
  {
    if a > 1 {
      MulAtLeast(a - 1, m);
      assert a * m == (a - 1) * m + m;
    }
  }

  lemma MulMono(a: int, b: int, m: int)
    requires a <= b && m >= 0
    ensures a * m <= b * m
  {
    assert b * m - a * m == (b - a) * m;
  }

  /** Euclidean division is determined by any quotient/remainder pair. */
  lemma DivModUnique(d: int, m: int, q: int, r: int)
    requires m > 0 && d == q * m + r && 0 <= r < m
    ensures d / m == q && d % m == r
  {
    var q0, r0 := d / m, d % m;
    assert d == q0 * m + r0;
    assert (q0 - q) * m == r - r0 by {
      assert (q0 - q) * m == q0 * m - q * m;
    }
    if q0 > q {
      MulAtLeast(q0 - q, m);
    } else if q0 < q {
      assert (q - q0) * m == r0 - r by {
        assert (q - q0) * m == q * m - q0 * m;
      }
      MulAtLeast(q - q0, m);
    }
  }

  /** Dividing by `x * y` is dividing by `x` and then by `y`. */
  lemma DivDiv(d: int, x: int, y: int)
    requires d >= 0 && x > 0 && y > 0
    ensures d / (x * y) == (d / x) / y
  {
    var a, r := d / x, d % x;
    var c, t := a / y, a % y;
    assert d == a * x + r;
    assert a == c * y + t;
    assert a * x == c * (x * y) + t * x by {
      assert (c * y + t) * x == (c * y) * x + t * x;
      assert (c * y) * x == c * (x * y);
    }
    assert t * x + r < x * y by {
      assert t * x <= (y - 1) * x by {
        MulMono(t, y - 1, x);
      }
      assert (y - 1) * x == x * y - x;
    }
    DivModUnique(d, x * y, c, t * x + r);
  }

  /** Appending the byte `d` below the low `b` bits of `v`. */
  lemma ShiftInByte(v: int, p: int, d: int)
    requires p > 0 && 0 <= d < 256
    ensures (v * 256 + d) % (p * 256) == (v % p) * 256 + d
  {
    var q, x := v / p, v % p;
    assert v == q * p + x;
    assert v * 256 + d == q * (p * 256) + (x * 256 + d) by {
      assert v * 256 == q * (p * 256) + x * 256;
    }
    assert x * 256 + d < p * 256 by {
      assert x <= p - 1;
      assert x * 256 <= (p - 1) * 256;
    }
    DivModUnique(v * 256 + d, p * 256, q, x * 256 + d);
  }

  /** Reading the top five of the low `5 + k` bits of `v`, where `p = 2^k`. */
  lemma TopFive(v: int, p: int, hi: int, lo: int)
    requires p > 0 && 0 <= hi < 32 && 0 <= lo < p
    requires v % (32 * p) == hi * p + lo
    ensures (v / p) % 32 == hi
    ensures v % p == lo
  {
    var q := v / (32 * p);
    assert v == q * (32 * p) + (hi * p + lo);
    assert v == (q * 32 + hi) * p + lo by {
      assert q * (32 * p) + hi * p == (q * 32 + hi) * p;
    }
    DivModUnique(v, p, q * 32 + hi, lo);
    DivModUnique(q * 32 + hi, 32, q, hi);
  }

  /** Left-aligning the low `b` bits of `v` in a five-bit group, where `p * k == 32`. */
  lemma PadRight(v: int, p: int, k: int)
    requires p > 0 && k > 0 && p * k == 32
    ensures (v * k) % 32 == (v % p) * k
  {
    var q, x := v / p, v % p;
    assert v == q * p + x;
    assert v * k == q * 32 + x * k by {
      assert v * k == q * (p * k) + x * k;
    }
    assert x * k < 32 by {
      assert x <= p - 1;
      assert x * k <= (p - 1) * k;
    }
    DivModUnique(v * k, 32, q, x * k);
  }

  /** Reducing modulo a multiple `p * q` of `p` keeps the residue modulo `p`. */
  lemma ModMod(x: int, p: int, q: int)
    requires p > 0 && q > 0
    ensures (x % (p * q)) % p == x % p
  {
    var a, r := x / (p * q), x % (p * q);
    var b, t := r / p, r % p;
    assert x == a * (p * q) + r;
    assert r == b * p + t;
    assert x == (a * q + b) * p + t by {
      assert a * (p * q) == (a * q) * p;
      assert (a * q) * p + b * p == (a * q + b) * p;
    }
    DivModUnique(x, p, a * q + b, t);
  }
}
