/** The arithmetic behind the layout: how the cluster estimate and the FAT size fit together. */
module Tightness {
  import opened Machine

  /**
   With room for the data area and one sector of each FAT, x clusters estimated and k
   sectors per FAT, what is left after all FAT sectors still holds x clusters.
   */
  lemma EstimateFits(room: nat, s: nat, n: nat, e: nat, f: nat, x: nat, m: nat, k: nat)
    requires 8 * (e * f) <= n && f >= 1 && n >= 1
    requires x * (s * n + e * f) <= room * n
    requires (k - 1) * n < (2 + m) * e && m <= x
    ensures room - (k - 1) * f >= x * s
  {
    FatNibblesBelow(n, e, f, 2 + m, k - 1);
    MulMono(2 + m, 2 + x, e * f);
    var w := room - (k - 1) * f - x * s;
    assert w * n == room * n - (k - 1) * f * n - x * s * n;
    Spread(x, s, n, e * f);
    assert (2 + x) * (e * f) == 2 * (e * f) + x * (e * f);
    assert w * n >= -2 * (e * f);
    if w < 0 {
      MulMono(w, -1, n);
    }
  }

  /** q sectors of each of f FATs, in nibbles, against p entries. */
  lemma FatNibblesBelow(n: nat, e: nat, f: nat, p: nat, q: int)
    requires q * n < p * e
    ensures q * f * n <= p * (e * f)
  {
    MulMono(q * n, p * e, f);
    Swap(q, f, n);
    Swap(p, f, e);
  }

  lemma Swap(a: int, b: int, c: int)
    ensures a * b * c == a * c * b
    ensures a * c * b == a * (c * b)
  {
  }

  lemma Spread(x: int, s: int, n: int, c: int)
    ensures x * (s * n + c) == x * s * n + x * c
  {
    assert x * (s * n + c) == x * (s * n) + x * c;
    Swap(x, n, s);
  }

  /** ... and it holds less than x + 1 clusters and another sector of each FAT. */
  lemma EstimateFills(room: nat, s: nat, n: nat, e: nat, f: nat, x: nat, k: nat)
    requires n >= 1
    requires room * n < (x + 1) * (s * n + e * f)
    requires (2 + x) * e <= k * n
    ensures room - (k - 1) * f < (x + 1) * s + f
  {
    MulMono((2 + x) * e, k * n, f);
    Swap(k, f, n);
    Swap(2 + x, f, e);
    var w := room - k * f - (x + 1) * s;
    Differences(room, k * f, (x + 1) * s, n);
    Spread(x + 1, s, n, e * f);
    Differences(2 + x, x + 1, 1, e * f);
    if w >= 0 {
      MulMono(0, w, n);
    }
    Differences(k, 1, 0, f);
  }

  lemma Differences(a: int, b: int, c: int, n: int)
    ensures (a - b - c) * n == a * n - b * n - c * n
  {
  }

  /** Counting all but one sector of every FAT twice still leaves room, once the FATs are longer than one sector. */
  lemma DoubleCountFits(room: nat, s: nat, n: nat, e: nat, f: nat, x: nat, m: nat, k: nat, extra: nat)
    requires 8 * (e * f) <= n && f >= 1 && n >= 1
    requires x * (s * n + e * f) <= room * n
    requires (k - 1) * n < (2 + m) * e && m <= x
    requires k >= 2 && extra < s
    ensures extra + 2 * ((k - 1) * f) <= room
  {
    EstimateFits(room, s, n, e, f, x, m, k);
    FatNibblesBelow(n, e, f, 2 + m, k - 1);
    MulMono(2 + m, 2 + x, e * f);
    MulMono(1, k - 1, f);
    FatsAreSmall(n, e * f, 2 + x, (k - 1) * f);
    ClusterOutweighs(x, s);
  }

  lemma ClusterOutweighs(x: nat, s: nat)
    requires x >= 1 && s >= 1
    ensures s + x - 1 <= x * s
  {
    assert (x - 1) * (s - 1) >= 0;
    assert (x - 1) * (s - 1) == x * s - x - s + 1;
  }

  lemma FatsAreSmall(n: nat, cost: nat, p: nat, area: nat)
    requires n > 0 && 8 * cost <= n && area * n <= p * cost
    ensures 8 * area <= p
  {
    MulMono(8 * cost, n, p);
    assert 8 * (area * n) == 8 * area * n && p * (8 * cost) == 8 * (p * cost);
    if 8 * area > p {
      MulMono(p + 1, 8 * area, n);
    }
  }
}
