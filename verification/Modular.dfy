/** Remainders of positions in a circular buffer. */
module Modular {

  lemma ModUnique(q: int, r: int, n: int)
    requires 0 <= r < n
    ensures (q * n + r) % n == r
  {
    var a := q * n + r;
    assert (a / n - q) * n == r - a % n by {
      assert a == (a / n) * n + a % n;
      assert (a / n - q) * n == (a / n) * n - q * n;
    }
    SmallMultiple(a / n - q, n);
  }

  /** The only multiple of `n` strictly between `-n` and `n` is zero. */
  lemma SmallMultiple(d: int, n: int)
    requires n > 0 && -n < d * n < n
    ensures d * n == 0
  {
    if d >= 1 {
      MulMono(1, d, n);
    } else if d <= -1 {
      MulMono(d, -1, n);
    }
  }

  lemma MulMono(a: int, b: int, n: int)
    requires a <= b && n > 0
    ensures a * n <= b * n
  {
  }

  lemma DivUnique(q: int, r: int, n: int)
    requires 0 <= r < n
    ensures (q * n + r) / n == q
  {
    ModUnique(q, r, n);
    var a := q * n + r;
    var d := a / n - q;
    assert d * n == 0 by {
      assert a == (a / n) * n + a % n;
      assert d * n == (a / n) * n - q * n;
    }
    if d >= 1 {
      MulMono(1, d, n);
    } else if d <= -1 {
      MulMono(d, -1, n);
    }
  }

  /** `k` positions further on, the offset has either grown by `k` or wrapped once. */
  lemma ModAdd(x: int, k: int, n: int)
    requires n > 0 && 0 <= k <= n
    ensures x % n + k < n ==> (x + k) % n == x % n + k
    ensures x % n + k >= n ==> (x + k) % n == x % n + k - n
  {
    var q, r := x / n, x % n;
    assert x == q * n + r;
    if r + k < n {
      ModUnique(q, r + k, n);
      assert x + k == q * n + (r + k);
    } else {
      ModUnique(q + 1, r + k - n, n);
      assert x + k == (q + 1) * n + (r + k - n) by {
        assert (q + 1) * n == q * n + n;
      }
    }
  }

  /** Two positions less than a buffer apart have different offsets. */
  lemma ModDistinct(p: int, q: int, n: int)
    requires n > 0 && p < q < p + n
    ensures p % n != q % n
  {
    ModAdd(p, q - p, n);
  }

  /** A counter that wraps at a multiple of the buffer size keeps its offset. */
  lemma ModMod(x: int, m: int, n: int)
    requires n > 0 && m > 0 && m % n == 0
    ensures (x % m) % n == x % n
  {
    var q, r := x / m, x % m;
    assert x == q * m + r && m == (m / n) * n;
    var c, d := m / n, r / n;
    assert r == d * n + r % n;
    assert x == (q * c + d) * n + r % n by {
      assert q * m == q * (c * n) == (q * c) * n;
      assert (q * c + d) * n == (q * c) * n + d * n;
    }
    ModUnique(q * c + d, r % n, n);
  }

  lemma ModEight(x: int, n: int)
    requires n > 0 && n % 8 == 0 && x % 8 == 0
    ensures (x % n) % 8 == 0
  {
    ModMod(x, n, 8);
  }

  lemma ModShift(x: int, q: int, n: int)
    requires n > 0
    ensures (x + q * n) % n == x % n
  {
    assert x + q * n == (x / n + q) * n + x % n by {
      assert (x / n + q) * n == (x / n) * n + q * n;
    }
    ModUnique(x / n + q, x % n, n);
  }

  /** Sums and differences may be taken on offsets. */
  lemma ModAddWrap(x: int, k: int, n: int)
    requires n > 0
    ensures (x % n + k) % n == (x + k) % n
  {
    assert x + k == x % n + k + (x / n) * n;
    ModShift(x % n + k, x / n, n);
  }

  lemma ModSubWrap(i: int, x: int, n: int)
    requires n > 0
    ensures (i - x % n) % n == (i - x) % n
  {
    var q := x / n;
    assert i - x % n == i - x + q * n;
    ModShift(i - x, q, n);
  }

  /** The distance between two wrapped counters that are less than a wrap apart. */
  lemma ModDistance(a: int, b: int, n: int)
    requires n > 0 && 0 <= a - b < n
    ensures (a % n - b % n) % n == a - b
  {
    ModSubWrap(a % n, b, n);
    ModAddWrap(a, -b, n);
    ModUnique(0, a - b, n);
  }
}
