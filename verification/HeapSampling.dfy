/**
 Choosing k snapshots evenly out of many: index i is i * (n - 1) / (k - 1), rounded half to even. The
 products come from floating-point arithmetic and may be slightly off; they are given as integers over
 a common `unit`, as binary floating-point numbers can be.
 */
module HeapSampling {

  // m / unit to the nearest integer, a tie to the even one.
  function Round(m: int, unit: nat): int
    requires unit > 0
  {
    var f, r := m / unit, m % unit;
    if 2 * r < unit then f
    else if 2 * r > unit then f + 1
    else if f % 2 == 0 then f else f + 1
  }

  // Multiplied by q, the product m / unit is within one half of p.
  predicate Within(m: int, unit: nat, p: int, q: nat) {
    2 * (p * unit) - unit < 2 * (m * q) < 2 * (p * unit) + unit
  }

  // What is demanded of the arithmetic: i * step, times k - 1, is within one half of i * (n - 1).
  ghost predicate Close(n: nat, k: nat, products: seq<int>, unit: nat) {
    && unit > 0 && |products| == k
    && forall i :: 0 <= i < k ==> Within(products[i], unit, i * (n - 1), k - 1)
  }

  datatype Sample<T> = Chosen(items: seq<T>) | DivisionByZero

  // `step` divides by k - 1; with k = 0 the range is empty, with k = 1 the division fails.
  function EvenlySample<T>(snaps: seq<T>, k: nat, products: seq<int>, unit: nat): Sample<T>
    requires 2 <= k < |snaps| ==> Close(|snaps|, k, products, unit)
  {
    if |snaps| <= k then Chosen(snaps)
    else if k == 1 then DivisionByZero
    else if k == 0 then Chosen([])
    else
      IndicesAreEven(|snaps|, k, products, unit);
      Chosen(seq(k, i requires 0 <= i < k => snaps[Round(products[i], unit)]))
  }

  // ---------- arithmetic ----------

  lemma Distributes(a: int, b: int, q: int)
    ensures (a - b) * q == a * q - b * q && (a + b) * q == a * q + b * q
  {
  }

  lemma Signs(a: int, q: nat)
    ensures a >= 0 ==> a * q >= 0
    ensures a >= 1 ==> a * q >= q
    ensures a <= -1 ==> a * q + q <= 0
  {
  }

  lemma Scales(a: int, b: int, q: nat)
    requires a <= b
    ensures a * q <= b * q
  {
    Signs(b - a, q);
    Distributes(b, a, q);
  }

  // Dividing out q from an inequality between its multiples.
  lemma Cancel(a: int, b: int, q: nat)
    requires a * q < b * q
    ensures a < b
  {
    if a >= b {
      Scales(b, a, q);
    }
  }

  lemma Swap(a: int, b: int, c: int)
    ensures a * b * c == a * c * b && a * b == b * a
  {
  }

  lemma Nearest(m: int, unit: nat)
    requires unit > 0
    ensures 2 * m - unit <= 2 * (Round(m, unit) * unit) <= 2 * m + unit
  {
    var f, r := m / unit, m % unit;
    assert m == f * unit + r;
    Distributes(f, 1, unit);
  }

  // r is the nearest integer to m / unit, and of two equally near the even one.
  predicate IsNearestEven(m: int, unit: nat, r: int) {
    && 2 * (r * unit) - unit <= 2 * m <= 2 * (r * unit) + unit
    && (2 * m in {2 * (r * unit) - unit, 2 * (r * unit) + unit} ==> r % 2 == 0)
  }

  /** Rounding finds the nearest integer, and of two equally near the even one ... */
  lemma RoundsToNearestEven(m: int, unit: nat)
    requires unit > 0
    ensures IsNearestEven(m, unit, Round(m, unit))
  {
    var f, r := m / unit, m % unit;
    assert m == f * unit + r;
    Distributes(f, 1, unit);
  }

  /** ... and there is only one such integer. */
  lemma OneNearestEven(m: int, unit: nat, r: int, s: int)
    requires unit > 0 && IsNearestEven(m, unit, r) && IsNearestEven(m, unit, s) && r <= s
    ensures r == s
  {
    Distributes(s, r, unit);
    Distributes(s - r, 1, unit);
    Signs(s - r - 1, unit);
    Signs(s - r - 2, unit);
    Distributes(s - r, 2, unit);
  }

  // A rounded product, scaled by q and by the unit.
  lemma NearestScaled(m: int, unit: nat, q: nat)
    requires unit > 0
    ensures 2 * (m * q) - unit * q <= 2 * (Round(m, unit) * q * unit) <= 2 * (m * q) + unit * q
  {
    var r := Round(m, unit);
    Nearest(m, unit);
    Scales(2 * m - unit, 2 * (r * unit), q);
    Scales(2 * (r * unit), 2 * m + unit, q);
    Distributes(2 * m, unit, q);
    Swap(2, m, q);
    Swap(r, unit, q);
    Swap(2, r * unit, q);
  }

  // Two products whose numerators are d apart, each rounded.
  lemma RoundedGap(x: int, y: int, unit: nat, p: int, d: int, q: nat)
    requires unit > 0 && Within(x, unit, p, q) && Within(y, unit, p + d, q)
    ensures d - q <= (Round(y, unit) - Round(x, unit)) * q <= d + q
  {
    var a, b := Round(x, unit) * q, Round(y, unit) * q;
    NearestScaled(x, unit, q);
    NearestScaled(y, unit, q);
    Distributes(p, d, unit);
    Distributes(Round(y, unit), Round(x, unit), q);
    Distributes(b, a, unit);
    Distributes(d - q, 1, unit);
    Distributes(d + q, 1, unit);
    Distributes(d, q, unit);
    Swap(unit, q, 1);
    Cancel(d - q - 1, b - a, unit);
    Cancel(b - a, d + q + 1, unit);
  }

  // ---------- products that are slightly off ----------

  function Gap(products: seq<int>, unit: nat, i: nat): int
    requires unit > 0 && i + 1 < |products|
  {
    Round(products[i+1], unit) - Round(products[i], unit)
  }

  // The gap after index i, scaled by k - 1, differs from n - 1 by at most k - 1.
  lemma GapNearStep(n: nat, k: nat, products: seq<int>, unit: nat, i: nat)
    requires 2 <= k < n && Close(n, k, products, unit) && i + 1 < k
    ensures n - k <= Gap(products, unit, i) * (k - 1) <= n + k - 2
  {
    Distributes(i, 1, n - 1);
    RoundedGap(products[i], products[i+1], unit, i * (n - 1), n - 1, k - 1);
  }

  lemma {:induction false} IncreasesBetween(n: nat, k: nat, products: seq<int>, unit: nat, i: nat, j: nat)
    requires 2 <= k < n && Close(n, k, products, unit) && i < j < k
    ensures Round(products[i], unit) < Round(products[j], unit)
    decreases j - i
  {
    GapNearStep(n, k, products, unit, j - 1);
    Cancel(0, Gap(products, unit, j - 1), k - 1);
    if i < j - 1 {
      IncreasesBetween(n, k, products, unit, i, j - 1);
    }
  }

  // A whole product is not missed.
  lemma NearWhole(x: int, unit: nat, c: int, q: nat)
    requires unit > 0 && q > 0 && Within(x, unit, c * q, q)
    ensures 2 * (c * unit) - unit < 2 * x < 2 * (c * unit) + unit
  {
    Swap(c, q, unit);
    Distributes(2 * (c * unit), unit, q);
    Swap(2, c * unit, q);
    Swap(2, x, q);
    Signs(q - 1, unit);
    Distributes(q, 1, unit);
    Swap(q, unit, 1);
    Cancel(2 * (c * unit) - unit, 2 * x, q);
    Cancel(2 * x, 2 * (c * unit) + unit, q);
  }

  lemma RoundsWhole(x: int, unit: nat, c: int, q: nat)
    requires unit > 0 && q > 0 && Within(x, unit, c * q, q)
    ensures Round(x, unit) == c
  {
    var r := Round(x, unit);
    NearWhole(x, unit, c, q);
    RoundsToNearestEven(x, unit);
    if r <= c {
      OneNearestEven(x, unit, r, c);
    } else {
      OneNearestEven(x, unit, c, r);
    }
  }

  /** The chosen indices run strictly upwards from the first snapshot to the last. */
  lemma IndicesAreEven(n: nat, k: nat, products: seq<int>, unit: nat)
    requires 2 <= k < n && Close(n, k, products, unit)
    ensures Round(products[0], unit) == 0 && Round(products[k-1], unit) == n - 1
    ensures forall i, j | 0 <= i < j < k :: Round(products[i], unit) < Round(products[j], unit)
    ensures forall i | 0 <= i < k :: 0 <= Round(products[i], unit) < n
  {
    RoundsWhole(products[0], unit, 0, k - 1);
    Swap(k - 1, n - 1, 1);
    RoundsWhole(products[k-1], unit, n - 1, k - 1);
    forall i, j | 0 <= i < j < k ensures Round(products[i], unit) < Round(products[j], unit) {
      IncreasesBetween(n, k, products, unit, i, j);
    }
    forall i | 0 <= i < k ensures 0 <= Round(products[i], unit) < n {
      if 0 < i {
        IncreasesBetween(n, k, products, unit, 0, i);
      }
      if i < k - 1 {
        IncreasesBetween(n, k, products, unit, i, k - 1);
      }
    }
  }

  /** A list no longer than k is returned whole; otherwise, for k of at least two, the sample is k
      snapshots at strictly increasing indices from the first to the last. Only k = 1 divides by zero. */
  lemma SampleIsEven<T>(snaps: seq<T>, k: nat, products: seq<int>, unit: nat)
    requires 2 <= k < |snaps| ==> Close(|snaps|, k, products, unit)
    ensures EvenlySample(snaps, k, products, unit).DivisionByZero? <==> k == 1 < |snaps|
    ensures |snaps| <= k ==> EvenlySample(snaps, k, products, unit) == Chosen(snaps)
    ensures k == 0 ==> EvenlySample(snaps, k, products, unit) == Chosen([])
    ensures 2 <= k < |snaps| ==>
              exists at: seq<nat> ::
                && |at| == |EvenlySample(snaps, k, products, unit).items| == k
                && at[0] == 0 && at[k-1] == |snaps| - 1
                && (forall i, j | 0 <= i < j < k :: at[i] < at[j] < |snaps|)
                && forall i | 0 <= i < k :: EvenlySample(snaps, k, products, unit).items[i] == snaps[at[i]]
  {
    if 2 <= k < |snaps| {
      var n := |snaps|;
      IndicesAreEven(n, k, products, unit);
      var at: seq<nat> := seq(k, i requires 0 <= i < k => Round(products[i], unit));
      assert forall i | 0 <= i < k :: EvenlySample(snaps, k, products, unit).items[i] == snaps[at[i]];
      assert at[0] == 0 && at[k-1] == n - 1;
      assert forall i, j | 0 <= i < j < k :: at[i] < at[j] < n;
    }
  }

  // Two gaps near the same d differ by less than m.
  lemma TwoGaps(a: int, b: int, d: int, w: int, m: nat, q: nat)
    requires d - w < a * q < d + w && d - w < b * q < d + w && 2 * w <= m * q
    ensures a - b < m
  {
    Distributes(a, b, q);
    Cancel(a - b, m, q);
  }

  /** Any two gaps between neighbours differ by at most two, however the errors fall. */
  lemma GapsDifferByAtMostTwo(n: nat, k: nat, products: seq<int>, unit: nat, i: nat, j: nat)
    requires 2 <= k < n && Close(n, k, products, unit) && i + 1 < k && j + 1 < k
    ensures Gap(products, unit, i) - Gap(products, unit, j) <= 2
  {
    GapNearStep(n, k, products, unit, i);
    GapNearStep(n, k, products, unit, j);
    if k > 2 {
      TwoGaps(Gap(products, unit, i), Gap(products, unit, j), n - 1, k, 3, k - 1);
    }
  }

  // ---------- exact products ----------

  ghost predicate Exact(n: nat, k: nat, products: seq<int>, unit: nat) {
    && unit > 0 && |products| == k
    && forall i :: 0 <= i < k ==> products[i] * (k - 1) == i * (n - 1) * unit
  }

  lemma WholeProduct(x: int, unit: nat, i: nat, d: nat, c: nat, q: nat)
    requires q > 0 && unit > 0 && x * q == i * d * unit && d == c * q
    ensures Round(x, unit) == i * c
  {
    assert i * d == i * c * q;
    RoundsWhole(x, unit, i * c, q);
  }

  // When k - 1 divides n - 1 every gap is the quotient.
  lemma WholeGap(n: nat, k: nat, products: seq<int>, unit: nat, i: nat, c: nat)
    requires 2 <= k < n && Exact(n, k, products, unit) && i + 1 < k && n - 1 == c * (k - 1)
    ensures Gap(products, unit, i) == c
  {
    WholeProduct(products[i], unit, i, n - 1, c, k - 1);
    WholeProduct(products[i+1], unit, i + 1, n - 1, c, k - 1);
    Distributes(i, 1, c);
  }

  lemma Divides(m: nat, q: nat, c: int)
    requires q > 0 && m == c * q
    ensures m % q == 0
  {
    var d, r := m / q, m % q;
    assert m == d * q + r;
    Distributes(c, d, q);
    Signs(c - d, q);
  }

  // Otherwise the bounds on a gap are strict.
  lemma BrokenGap(n: nat, k: nat, products: seq<int>, unit: nat, i: nat)
    requires 2 <= k < n && Exact(n, k, products, unit) && i + 1 < k && (n - 1) % (k - 1) != 0
    ensures n - k < Gap(products, unit, i) * (k - 1) < n + k - 2
  {
    var a, q := Gap(products, unit, i), k - 1;
    ExactIsClose(n, k, products, unit);
    GapNearStep(n, k, products, unit, i);
    Distributes(a, 1, q);
    if a * q == n - k {
      Divides(n - 1, q, a + 1);
    } else if a * q == n + k - 2 {
      Divides(n - 1, q, a - 1);
    }
  }

  lemma ExactIsClose(n: nat, k: nat, products: seq<int>, unit: nat)
    requires Exact(n, k, products, unit)
    ensures Close(n, k, products, unit)
  {
  }

  /** With exact arithmetic any two gaps between neighbours differ by at most one. */
  lemma GapsDifferByAtMostOne(n: nat, k: nat, products: seq<int>, unit: nat, i: nat, j: nat)
    requires 2 <= k < n && Exact(n, k, products, unit) && i + 1 < k && j + 1 < k
    ensures Gap(products, unit, i) - Gap(products, unit, j) <= 1
  {
    if (n - 1) % (k - 1) == 0 {
      var c := (n - 1) / (k - 1);
      assert n - 1 == c * (k - 1);
      WholeGap(n, k, products, unit, i, c);
      WholeGap(n, k, products, unit, j, c);
    } else {
      BrokenGap(n, k, products, unit, i);
      BrokenGap(n, k, products, unit, j);
      TwoGaps(Gap(products, unit, i), Gap(products, unit, j), n - 1, k - 1, 2, k - 1);
    }
  }
}
