/** Quotients of quotients. */
module Division {
  import opened Limits

  lemma DivideTwice(n: nat, a: nat, b: nat)
    requires a > 0 && b > 0
    ensures a * b > 0 && n / a / b == n / (a * b)
  {
    var q, q' := Quotient(n, a), Quotient(Quotient(n, a), b);
    QuotientIsFloor(n, a);
    QuotientIsFloor(q, b);
    FloorOfFloor(n, a, b, q, q');
    QuotientUnique(n, a * b, q');
  }

  lemma FloorOfFloor(n: nat, a: nat, b: nat, q: nat, q': nat)
    requires q * a <= n < (q + 1) * a && q' * b <= q && q + 1 <= (q' + 1) * b
    ensures q' * (a * b) <= n < (q' + 1) * (a * b)
  {
    MulBound(q' * b, a, q, a);
    MulBound(q + 1, a, (q' + 1) * b, a);
    Regroup(q', b, a);
    Regroup(q' + 1, b, a);
  }

  lemma Regroup(x: nat, y: nat, z: nat)
    ensures (x * y) * z == x * (z * y)
  {
  }

  lemma QuotientUnique(n: nat, d: nat, q: nat)
    requires d > 0 && q * d <= n < (q + 1) * d
    ensures n / d == q
  {
    var other := Quotient(n, d);
    QuotientIsFloor(n, d);
    if other < q {
      MulBound(other + 1, d, q, d);
    } else if q < other {
      MulBound(q + 1, d, other, d);
    }
  }
}
