/** Arithmetic of pointers that wrap at twice the queue size. */
module Modular {

  lemma {:induction false} MulAtLeast(k: nat, m: nat)
    requires k > 0
    ensures k * m >= m
  {
    if k > 1 {
      MulAtLeast(k - 1, m);
      assert k * m == (k - 1) * m + m;
    }
  }

  /** A nonzero multiple of m is at least m away from zero. */
  lemma MultipleIsFar(k: int, m: int)
    requires m > 0
    ensures k > 0 ==> k * m >= m
    ensures k < 0 ==> k * m <= -m
  {
    if k > 0 {
      MulAtLeast(k, m);
    } else if k < 0 {
      MulAtLeast(-k, m);
      assert (-k) * m == -(k * m);
    }
  }

  /** Quotient and remainder are determined by the division identity. */
  lemma ModUnique(a: int, m: int, q: int, r: int)
    requires m > 0 && 0 <= r < m && a == q * m + r
    ensures a % m == r && a / m == q
  {
    var q', r' := a / m, a % m;
    assert a == q' * m + r' && 0 <= r' < m;
    assert (q - q') * m == r' - r by {
      assert (q - q') * m == q * m - q' * m;
    }
    MultipleIsFar(q - q', m);
  }

  lemma ModStep(p: nat, m: nat)
    requires m > 0
    ensures (p % m + 1) % m == (p + 1) % m
  {
    var q, r := p / m, p % m;
    assert p == q * m + r;
    if r + 1 < m {
      ModUnique(r + 1, m, 0, r + 1);
      ModUnique(p + 1, m, q, r + 1);
    } else {
      ModUnique(r + 1, m, 1, 0);
      ModUnique(p + 1, m, q + 1, 0);
    }
  }

  /** A double-wrapping pointer selects the same slot as the unbounded count. */
  lemma ModOfDoubleWrap(p: nat, n: nat)
    requires n > 0
    ensures (p % (2 * n)) % n == p % n
  {
    var q, r := p / (2 * n), p % (2 * n);
    assert p == (2 * q) * n + r;
    var q', r' := r / n, r % n;
    assert p == (2 * q + q') * n + r';
    ModUnique(p, n, 2 * q + q', r');
  }

  /** Counts less than one lap apart never share a slot. */
  lemma ModDistinct(i: nat, j: nat, n: nat)
    requires n > 0 && i < j < i + n
    ensures i % n != j % n
  {
    if i % n == j % n {
      var a, b := i / n, j / n;
      assert i == a * n + i % n && j == b * n + j % n;
      assert (b - a) * n == j - i by {
        assert (b - a) * n == b * n - a * n;
      }
      MultipleIsFar(b - a, n);
    }
  }

  function AbsDiff(a: int, b: int): (d: nat)
    ensures d == 0 <==> a == b
  {
    if a < b then b - a else a - b
  }

  /** Wrapped pointers of counts at most one lap apart, compared exactly. */
  lemma WrappedDistance(r: nat, w: nat, n: nat)
    requires n > 0 && r <= w <= r + n
    ensures w % (2 * n) == r % (2 * n) <==> w == r
    ensures AbsDiff(r % (2 * n), w % (2 * n)) % (2 * n) == n <==> w == r + n
  {
    var m := 2 * n;
    var q, p := r / m, r % m;
    var d := w - r;
    if p + d < m {
      ModUnique(w, m, q, p + d);
      ModUnique(d, m, 0, d);
    } else {
      assert w == (q + 1) * m + (p + d - m);
      ModUnique(w, m, q + 1, p + d - m);
      ModUnique(m - d, m, 0, m - d);
    }
  }

  /** A cell of a grid with rows of length n, from its flat index and back. */
  lemma FlatIndex(x: nat, y: nat, n: nat)
    requires x < n
    ensures (x + y * n) % n == x && (x + y * n) / n == y
  {
    ModUnique(x + y * n, n, y, x);
  }

  lemma FlatIndexBelow(x: nat, y: nat, n: nat, rows: nat)
    requires x < n && y < rows
    ensures x + y * n < n * rows
  {
    MulAtLeast(rows - y, n);
    assert n * rows == y * n + (rows - y) * n;
  }

  lemma GridCell(i: nat, n: nat, rows: nat)
    requires i < n * rows
    ensures n > 0 && i % n < n && i / n < rows && i == i % n + (i / n) * n
  {
    var y := i / n;
    assert i == y * n + i % n;
    MultipleIsFar(y - rows, n);
    assert (y - rows) * n == y * n - rows * n;
  }
}
