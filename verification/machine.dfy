/**
 The C integer types and the small arithmetic the formatter is built on.
 Records hold the subset types U8, U16 and U32; step-by-step C arithmetic uses the
 newtypes u32 and u64, where the verifier checks after every single operation
 that the result still fits. A cast that truncates is written out with Wrap32.
 */
module Machine {

  const TWO32 := 0x1_0000_0000

  type U8 = x: int | 0 <= x < 0x100
  type U16 = x: int | 0 <= x < 0x1_0000
  type U32 = x: int | 0 <= x < 0x1_0000_0000

  type Bytes = seq<U8>

  newtype u32 = x: int | 0 <= x < 0x1_0000_0000
  newtype u64 = x: int | 0 <= x < 0x1_0000_0000_0000_0000

  /** Conversion of an integer to a 32-bit unsigned value. */
  function Wrap32(x: int): (r: nat)
    ensures r < TWO32
    ensures 0 <= x < TWO32 ==> r == x
    ensures 0 <= x ==> r <= x
  {
    x % TWO32
  }

  function Min(a: int, b: int): int {
    if a < b then a else b
  }

  function Max(a: int, b: int): int {
    if a > b then a else b
  }

  /** howmany(x, y): the least number of y-sized units that hold x. */
  function HowMany(x: nat, y: nat): (r: nat)
    requires y > 0
    ensures (r - 1) * y < x <= r * y
    ensures x == 0 <==> r == 0
  {
    DivBounds(x + (y - 1), y);
    (x + (y - 1)) / y
  }

  lemma DivBounds(a: nat, b: nat)
    requires b > 0
    ensures a / b * b <= a < (a / b + 1) * b
  {
    assert a == a / b * b + a % b;
  }

  function Quotient(a: nat, b: nat): (q: nat)
    requires b > 0
    ensures q * b <= a < (q + 1) * b
  {
    var q := a / b;
    assert a == q * b + a % b;
    q
  }

  /** The quotient is the only integer that fits between these bounds. */
  lemma DivUnique(a: int, b: nat, q: int)
    requires b > 0
    requires q * b <= a < (q + 1) * b
    ensures a / b == q
  {
    var p := a / b;
    assert a == p * b + a % b;
    if p < q {
      MulMono(p + 1, q, b);
    } else if p > q {
      MulMono(q + 1, p, b);
    }
  }

  lemma DivAtLeast(a: nat, b: nat, q: nat)
    requires b > 0
    requires q * b <= a
    ensures a / b >= q
  {
    DivBounds(a, b);
    if a / b < q {
      MulMono(a / b + 1, q, b);
    }
  }

  lemma DivBelow(a: nat, b: nat, q: int)
    requires b > 0
    requires a < q * b
    ensures a / b < q
  {
    DivBounds(a, b);
    if a / b >= q {
      MulMono(q, a / b, b);
    }
  }

  lemma DivBelowExactly(a: nat, b: nat, q: nat)
    requires b > 0
    ensures a / b < q <==> a < q * b
  {
    if a < q * b {
      DivBelow(a, b, q);
    } else {
      DivAtLeast(a, b, q);
    }
  }

  lemma DivMonotone(a: nat, b: nat, c: nat)
    requires c > 0 && a <= b
    ensures a / c <= b / c
  {
    var q := a / c;
    DivBounds(a, c);
    assert q * c <= b;
    DivAtLeast(b, c, q);
  }

  lemma MulMono(a: int, b: int, c: nat)
    requires a <= b
    ensures a * c <= b * c
  {
    assert (b - a) * c >= 0;
  }

  lemma HowManyAtMost(x: nat, y: nat, q: nat)
    requires y > 0
    requires x <= q * y
    ensures HowMany(x, y) <= q
  {
    var r := HowMany(x, y);
    if r > q {
      MulMono(q, r - 1, y);
    }
  }

  lemma HowManyAbove(x: nat, y: nat, q: int)
    requires y > 0
    requires q * y < x
    ensures HowMany(x, y) > q
  {
    var r := HowMany(x, y);
    if r <= q {
      MulMono(r, q, y);
    }
  }

  /** A part of a part. */
  lemma Within(s: Bytes, a: nat, b: nat, c: nat, d: nat)
    requires c <= d <= b - a && b <= |s|
    ensures s[a..b][c..d] == s[a + c..a + d]
  {
    var l, r := s[a..b][c..d], s[a + c..a + d];
    assert |l| == |r| && forall k :: 0 <= k < |l| ==> l[k] == r[k];
  }

  /** The powerof2 macro, which also accepts 0. */
  predicate PowerOf2(x: nat) {
    x <= 1 || (x % 2 == 0 && PowerOf2(x / 2))
  }

  /** Of two non-zero powers of two the smaller divides the larger, and the quotient is one too. */
  lemma {:induction false} PowerOf2Divides(a: nat, b: nat)
    requires 0 < a <= b
    requires PowerOf2(a) && PowerOf2(b)
    ensures b % a == 0 && PowerOf2(b / a)
    decreases a
  {
    if a > 1 {
      PowerOf2Divides(a / 2, b / 2);
      MultipleDoubles(a / 2, b / 2, (b / 2) / (a / 2));
    }
  }

  lemma MultipleDoubles(a: nat, b: nat, q: nat)
    requires a > 0 && b % a == 0 && b / a == q
    ensures (2 * b) % (2 * a) == 0 && (2 * b) / (2 * a) == q
  {
    var d := 2 * a;
    assert b == q * a;
    assert q * d == 2 * (q * a);
    DivUnique(2 * b, d, q);
    assert 2 * b == (2 * b) / d * d + (2 * b) % d;
  }
}
