/** Facts about multiplying and dividing by a row width. */
module Arith {

  lemma MulMono(a: nat, b: nat, c: nat)
    requires a <= b
    ensures a * c <= b * c
  {
  }

  lemma DivUnique(q: nat, r: nat, d: nat)
    requires d > 0 && r < d
    ensures (q * d + r) / d == q && (q * d + r) % d == r
  {
    var x := q * d + r;
    var k := x / d - q;
    assert x == (x / d) * d + x % d;
    assert k * d == r - x % d;
    assert k >= 1 ==> k * d >= d;
    assert k <= -1 ==> k * d + d <= 0;
  }

  lemma DivBelow(x: nat, n: nat, d: nat)
    requires d > 0 && x < n * d
    ensures x / d < n
  {
    assert x == (x / d) * d + x % d;
    if x / d >= n { MulMono(n, x / d, d); }
  }

  lemma NextColumn(n: nat, columns: nat)
    requires columns >= 2 && n % columns == columns - 1
    ensures (n + 1) % columns == 0
  {
    var q := n / columns;
    assert n == q * columns + n % columns;
    assert n + 1 == (q + 1) * columns + 0;
    DivUnique(q + 1, 0, columns);
  }
}
