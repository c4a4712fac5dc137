/** Facts about products and quotients of unknowns, used where the solver needs them named. */
module Arithmetic {

  lemma MulPositive(a: int, b: int)
    requires a > 0 && b > 0
    ensures a * b > 0
  {
  }

  lemma MulOrder(a: int, b: int, f: int)
    requires f > 0 && a * f <= b * f
    ensures a <= b
  {
    if a > b {
      MulPositive(a - b, f);
    }
  }

  lemma MulMonotone(a: int, b: int, f: int)
    requires f >= 0 && a <= b
    ensures a * f <= b * f
  {
    assert (b - a) * f >= 0;
  }

  lemma MulLess(a: int, b: int, f: int)
    requires f > 0 && a * f < b * f
    ensures a < b
  {
    if a >= b {
      MulMonotone(b, a, f);
    }
  }

  lemma DivUnique(x: int, f: int, q: int, r: int)
    requires f > 0 && x == q * f + r && 0 <= r < f
    ensures x / f == q && x % f == r
  {
    var t, rho := x / f, x % f;
    assert x == t * f + rho;
    assert (t - q) * f == r - rho;
    assert (q - t) * f == rho - r;
    if t > q {
      MulMonotone(1, t - q, f);
    } else if t < q {
      MulMonotone(1, q - t, f);
    }
  }

  lemma ModShift(i: nat, n: nat)
    requires n > 0
    ensures (i + n) % n == i % n
  {
    assert i + n == (i / n + 1) * n + i % n;
    DivUnique(i + n, n, i / n + 1, i % n);
  }

  /** Row-major positions: row y, column x of a grid of width w. */
  lemma Position(w: nat, h: nat, y: nat, x: nat)
    requires x < w && y < h
    ensures 0 <= y * w + x < w * h
    ensures (y * w + x) / w == y && (y * w + x) % w == x
  {
    MulMonotone(y + 1, h, w);
    DivUnique(y * w + x, w, y, x);
  }

  lemma RowOf(w: nat, h: nat, i: nat)
    requires i < w * h
    ensures w > 0 && i / w < h && i % w < w && i / w * w + i % w == i
  {
    assert w > 0;
    MulLess(i / w, h, w);
  }

  lemma NextRow(w: nat, y: nat)
    ensures y * w + w == (y + 1) * w && 0 * w == 0
  {
  }

  lemma RowFits(w: nat, h: nat, y: nat, base: int)
    requires y < h && base == y * w
    ensures 0 <= base && base + w == (y + 1) * w <= w * h
  {
    NextRow(w, y);
    MulMonotone(y + 1, h, w);
  }

  /** One step around a ring of c places. */
  lemma NextMod(k: nat, c: nat)
    requires c > 0
    ensures (k + 1) % c == (k % c + 1) % c == if k % c + 1 == c then 0 else k % c + 1
    ensures k < c ==> k % c == k
  {
    var q, r := k / c, k % c;
    assert k == q * c + r;
    if r + 1 < c {
      DivUnique(k + 1, c, q, r + 1);
      DivUnique(r + 1, c, 0, r + 1);
    } else {
      assert (q + 1) * c == q * c + c;
      DivUnique(k + 1, c, q + 1, 0);
      DivUnique(r + 1, c, 1, 0);
    }
    if k < c {
      DivUnique(k, c, 0, k);
    }
  }
}
