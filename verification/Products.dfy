/** Products as repeated addition, so that proofs about them stay linear. */
module Products {

  function Times(k: nat, n: nat): nat {
    if k == 0 then 0 else Times(k - 1, n) + n
  }

  lemma {:induction false} TimesIsProduct(k: nat, n: nat)
    ensures Times(k, n) == k * n
  {
    if k > 0 {
      TimesIsProduct(k - 1, n);
      assert k * n == (k - 1) * n + n;
    }
  }

  lemma {:induction false} TimesMonotone(k: nat, l: nat, n: nat)
    requires k <= l
    ensures Times(k, n) <= Times(l, n)
  {
    if k < l {
      TimesMonotone(k, l - 1, n);
    }
  }
}
