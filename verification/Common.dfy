/** Types shared by every component of the model. */
module Common {
  datatype Option<+T> = None | Some(value: T)

  datatype Result<+T, +E> = Ok(value: T) | Err(error: E)

  function Min(a: int, b: int): int {
    if a <= b then a else b
  }

  /** A nullable column of type VARCHAR(width) takes the value. */
  predicate Within(value: Option<string>, width: nat) {
    value.Some? ==> |value.value| <= width
  }

  /** Comparing with a rounded-up quotient. */
  lemma {:induction false} CeilDiv(n: nat, b: nat, k: nat)
    requires b > 0
    ensures n <= k * b <==> (n + b - 1) / b <= k
  {
    var q := (n + b - 1) / b;
    assert q * b <= n + b - 1 < q * b + b;
    if q <= k {
      assert q * b <= k * b;
    } else {
      assert (k + 1) * b <= q * b;
    }
  }

  /** k * b by repeated addition. */
  function Multiple(k: nat, b: nat): nat {
    if k == 0 then 0 else Multiple(k - 1, b) + b
  }

  lemma {:induction false} MultipleIsProduct(k: nat, b: nat)
    ensures Multiple(k, b) == k * b
  {
    if k == 0 {
    } else {
      MultipleIsProduct(k - 1, b);
      assert k * b == (k - 1) * b + b;
    }
  }
}
