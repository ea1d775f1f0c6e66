/** Lengths that are whole numbers of pages. */
module Pages {
  import opened Arithmetic

  predicate Aligned(n: int, page: nat)
    requires page > 0
  {
    n % page == 0
  }

  function RoundDown(n: nat, page: nat): (r: nat)
    requires page > 0
    ensures r <= n && Aligned(r, page)
    ensures forall k: nat | k <= n && Aligned(k, page) :: k <= r
  {
    MultipleAligned(n / page, page);
    forall k: nat | k <= n && Aligned(k, page) ensures k <= n / page * page { LargestMultiple(n, page, k); }
    n / page * page
  }

  lemma MultipleAligned(q: nat, page: nat)
    requires page > 0
    ensures Aligned(q * page, page)
  {
    DivModUnique(q * page, q, 0, page);
  }

  lemma LargestMultiple(x: nat, page: nat, k: nat)
    requires page > 0 && k <= x && Aligned(k, page)
    ensures k <= x / page * page
  {
    var q, e := k / page, x / page;
    assert k == q * page && x == e * page + x % page;
    OneMore(e, page);
    if q <= e {
      Scale(q, e, page);
    } else {
      Scale(e + 1, q, page);
    }
  }

  /** Between two different multiples lies at least a page. */
  lemma PageApart(a: nat, b: nat, page: nat)
    requires page > 0 && a < b && Aligned(a, page) && Aligned(b, page)
    ensures a + page <= b
  {
    var p, q := a / page, b / page;
    assert a == p * page && b == q * page;
    OneMore(p, page);
    if q <= p {
      Scale(q, p, page);
    } else {
      Scale(p + 1, q, page);
    }
  }

  lemma AlignedSum(a: nat, b: nat, page: nat)
    requires page > 0 && Aligned(a, page)
    ensures Aligned(a + b, page) <==> Aligned(b, page)
  {
    var p, q, m := a / page, b / page, b % page;
    assert a == p * page && b == q * page + m;
    Spread(p, -q, page);
    assert a + b == (p + q) * page + m;
    DivModUnique(a + b, p + q, m, page);
  }
}
