/** Row-major positions in flat storage, as `view` on a contiguous tensor reads them. */
module RowMajor {

  /** Index of element (i, j, k) of an [_, b, c] tensor stored row by row. */
  function Flat(b: nat, c: nat, i: nat, j: nat, k: nat): nat {
    (i * b + j) * c + k
  }

  /** The three indices of element `x` of an [_, b, c] tensor. */
  function Indices(b: nat, c: nat, x: nat): (nat, nat, nat)
    requires b > 0 && c > 0
  {
    (x / c / b, x / c % b, x % c)
  }

  lemma DivMod(q: nat, c: nat, k: nat)
    requires k < c
    ensures (q * c + k) / c == q && (q * c + k) % c == k
  {
    var x := q * c + k;
    var q', r := x / c, x % c;
    assert (q - q') * c == r - k;
    if q > q' {
      assert (q - q') * c >= c by { Times(q - q', c); }
    } else if q < q' {
      assert (q' - q) * c >= c by { Times(q' - q, c); }
    }
  }

  lemma Times(x: nat, c: nat)
    requires x >= 1
    ensures x * c >= c
  {
    assert x * c == (x - 1) * c + c;
    assert (x - 1) * c >= 0;
  }

  lemma IndicesOfFlat(b: nat, c: nat, i: nat, j: nat, k: nat)
    requires j < b && k < c
    ensures Indices(b, c, Flat(b, c, i, j, k)) == (i, j, k)
  {
    DivMod(i * b + j, c, k);
    DivMod(i, b, j);
  }

  lemma FlatInRange(a: nat, b: nat, c: nat, i: nat, j: nat, k: nat)
    requires i < a && j < b && k < c
    ensures Flat(b, c, i, j, k) < a * b * c
  {
    var x := i * b + j;
    assert x + 1 <= a * b by {
      assert a * b == i * b + (a - i) * b;
      Times(a - i, b);
    }
    assert a * b * c == x * c + (a * b - x) * c;
    Times(a * b - x, c);
  }

  lemma FlatOfIndices(a: nat, b: nat, c: nat, x: nat)
    requires b > 0 && c > 0 && x < a * b * c
    ensures var (i, j, k) := Indices(b, c, x); i < a && j < b && k < c && Flat(b, c, i, j, k) == x
  {
    var q := x / c;
    QuotientBelow(x, a * b, c);
    QuotientBelow(q, a, b);
  }

  lemma QuotientBelow(x: nat, n: nat, c: nat)
    requires c > 0 && x < n * c
    ensures x / c < n
  {
    ProductGrows(n, x / c, c);
  }

  lemma ProductGrows(n: nat, q: nat, c: nat)
    ensures n <= q ==> n * c <= q * c
  {
    if n <= q {
      assert q * c == n * c + (q - n) * c;
      assert (q - n) * c >= 0;
    }
  }
}
