/** Multiplication as repeated addition, so that layout proofs stay linear. */
module Arith {
  function Times(n: nat, k: nat): (r: nat)
  {
    if n == 0 then 0 else Times(n - 1, k) + k
  }

  lemma {:induction false} TimesIsProduct(n: nat, k: nat)
    ensures Times(n, k) == n * k
  {
    if n > 0 { TimesIsProduct(n - 1, k); }
  }

  lemma {:induction false} TimesMono(m: nat, n: nat, k: nat)
    requires m <= n
    ensures Times(m, k) <= Times(n, k)
    decreases n
  {
    if m < n { TimesMono(m, n - 1, k); }
  }

  /** n copies of k followed by one more still fit below any larger multiple. */
  lemma TimesStep(m: nat, n: nat, k: nat)
    requires m < n
    ensures Times(m, k) + k <= Times(n, k)
  {
    TimesMono(m + 1, n, k);
  }

  lemma {:induction false} TimesAdd(m: nat, n: nat, k: nat)
    ensures Times(m + n, k) == Times(m, k) + Times(n, k)
    decreases n
  {
    if n > 0 { TimesAdd(m, n - 1, k); }
  }

  lemma {:induction false} TimesAssoc(m: nat, n: nat, k: nat)
    ensures Times(Times(m, n), k) == Times(m, Times(n, k))
  {
    if m > 0 {
      TimesAssoc(m - 1, n, k);
      TimesAdd(Times(m - 1, n), n, k);
    }
  }

  /** Division with remainder, in terms of repeated addition. */
  lemma DivRem(i: nat, k: nat)
    requires k > 0
    ensures i == Times(i / k, k) + i % k && i % k < k
  {
    TimesIsProduct(i / k, k);
  }

  /** Quotient and remainder are unique. */
  lemma DivRemUnique(q: nat, r: nat, k: nat)
    requires r < k
    ensures (Times(q, k) + r) / k == q && (Times(q, k) + r) % k == r
  {
    var i := Times(q, k) + r;
    DivRem(i, k);
    if q < i / k { TimesStep(q, i / k, k); }
    if i / k < q { TimesStep(i / k, q, k); }
  }
}
