/** Quotients and remainders by a variable divisor. */
module Division {
  lemma {:induction false} MultipleApart(a: nat, b: nat, ratio: nat)
    ensures a < b ==> a * ratio + ratio <= b * ratio
  {
    if a < b {
      if a < b - 1 {
        MultipleApart(a, b - 1, ratio);
      }
      assert b * ratio == (b - 1) * ratio + ratio;
    }
  }

  lemma DivMod(n: nat, ratio: nat)
    requires ratio > 0
    ensures n == (n / ratio) * ratio + n % ratio && n % ratio < ratio
  {
  }

  /** Quotient and remainder are unique. */
  lemma UniqueQuotient(ratio: nat, p: nat, r: nat, q: nat, t: nat)
    requires r < ratio && t < ratio && p * ratio + r == q * ratio + t
    ensures p == q && r == t
  {
    MultipleApart(p, q, ratio);
    MultipleApart(q, p, ratio);
  }

  lemma QuotientAndOffset(ratio: nat, q: nat, r: nat)
    requires r < ratio
    ensures (q * ratio + r) / ratio == q && (q * ratio + r) % ratio == r
  {
    var n := q * ratio + r;
    DivMod(n, ratio);
    UniqueQuotient(ratio, n / ratio, n % ratio, q, r);
  }

  lemma OffsetInBlock(ratio: nat, block: nat, i: nat)
    requires i < ratio
    ensures (block * ratio + i) % ratio == i % ratio == i
  {
    QuotientAndOffset(ratio, block, i);
    QuotientAndOffset(ratio, 0, i);
  }

  lemma QuotientIs(ratio: nat, q: nat, r: nat)
    requires r < ratio
    ensures (q * ratio + r) / ratio == q
  {
    QuotientAndOffset(ratio, q, r);
  }

  lemma QuotientMonotone(ratio: nat, a: nat, b: nat)
    requires ratio > 0 && a <= b
    ensures a / ratio <= b / ratio
  {
    MultipleApart(b / ratio, a / ratio, ratio);
    assert a == (a / ratio) * ratio + a % ratio;
    assert b == (b / ratio) * ratio + b % ratio;
  }

  lemma QuotientAtMost(ratio: nat, a: nat)
    requires ratio > 0
    ensures a / ratio <= a
  {
    assert a == (a / ratio) * ratio + a % ratio;
    if ratio > 1 {
      MultipleApart(1, ratio, a / ratio);
      assert (a / ratio) * ratio == ratio * (a / ratio);
    }
  }

  lemma CountUp(ratio: nat, n: nat)
    requires ratio > 0
    ensures if n % ratio + 1 == ratio then (n + 1) % ratio == 0 && (n + 1) / ratio == n / ratio + 1
            else (n + 1) % ratio == n % ratio + 1 && (n + 1) / ratio == n / ratio
  {
    var q, r := n / ratio, n % ratio;
    DivMod(n, ratio);
    if r + 1 == ratio {
      assert (q + 1) * ratio == q * ratio + ratio;
      QuotientAndOffset(ratio, q + 1, 0);
    } else {
      QuotientAndOffset(ratio, q, r + 1);
    }
  }

  lemma OneTurnBack(n: nat, ratio: nat)
    requires 0 < ratio <= n
    ensures (n - ratio) % ratio == n % ratio
  {
    var q, r := n / ratio, n % ratio;
    assert n == q * ratio + r;
    MultipleApart(q, 1, ratio);
    assert n - ratio == (q - 1) * ratio + r;
    OffsetInBlock(ratio, q - 1, r);
  }
}
