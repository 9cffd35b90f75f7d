/** Integer division by a variable, decided by multiplication. */
module Division {
  lemma QuotientAtLeast(c: nat, n: nat, d: nat)
    requires d > 0
    ensures c <= n / d <==> c * d <= n
  {
    var q := n / d;
    assert q * d <= n < q * d + d;
    if c <= q {
      assert c * d <= q * d;
    } else {
      assert c * d >= (q + 1) * d;
    }
  }

  lemma QuotientGrows(a: nat, b: nat, d: nat)
    requires d > 0 && a <= b
    ensures a / d <= b / d
  {
    QuotientAtLeast(a / d, a, d);
    QuotientAtLeast(a / d, b, d);
  }

  lemma QuotientExact(q: nat, d: nat)
    requires d > 0
    ensures q * d / d == q
  {
    QuotientAtLeast(q, q * d, d);
    QuotientAtLeast(q + 1, q * d, d);
  }

  lemma QuotientSum(a: nat, b: nat, d: nat)
    requires d > 0
    ensures a / d + b / d <= (a + b) / d
  {
    QuotientAtLeast(a / d, a, d);
    QuotientAtLeast(b / d, b, d);
    assert (a / d + b / d) * d == a / d * d + b / d * d;
    QuotientAtLeast(a / d + b / d, a + b, d);
  }

  lemma ProductGrows(a: nat, b: nat, c: nat)
    requires a <= b
    ensures a * c <= b * c
  {
  }

  lemma ProductOfSum(a: int, b: int, c: int)
    ensures (a + b) * c == a * c + b * c
  {
  }

  lemma ProductAssociates(a: int, b: int, c: int)
    ensures a * b * c == a * (b * c)
  {
  }

  lemma DivideExactly(q: nat, d: nat, r: nat)
    requires r < d
    ensures (q * d + r) / d == q
  {
    ProductOfSum(q, 1, d);
    QuotientAtLeast(q, q * d + r, d);
    QuotientAtLeast(q + 1, q * d + r, d);
  }

  /** Below an even bound, an even quotient leaves room for one more divisor. */
  lemma EvenQuotientRoom(n: nat, d: nat, half: nat)
    requires d > 0 && n < 2 * half * d && n / d % 2 == 0
    ensures n + d < 2 * half * d
  {
    var q := n / d;
    QuotientAtLeast(2 * half, n, d);
    QuotientAtLeast(q + 1, n, d);
    ProductOfSum(q + 1, 1, d);
    ProductGrows(q + 2, 2 * half, d);
  }

  /** The leading part of a mixed-radix number. */
  lemma LeadingPart(head: nat, tail: nat, last: nat, d: nat, p: nat)
    requires tail < d && last < p
    ensures d * p > 0 && ((head * d + tail) * p + last) / (d * p) == head
  {
    ProductGrows(tail + 1, d, p);
    ProductOfSum(tail, 1, p);
    ProductOfSum(head * d, tail, p);
    ProductAssociates(head, d, p);
    DivideExactly(head, d * p, tail * p + last);
  }
}
