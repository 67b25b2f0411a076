/** Stock definitions. */
module Common {

  datatype Option<T> = None | Some(value: T)

  function Min(a: nat, b: nat): nat {
    if a < b then a else b
  }

  function Max(a: nat, b: nat): nat {
    if a > b then a else b
  }

  /** Quotient and remainder are unique. */
  lemma DivUnique(s: nat, x: nat, q: nat, r: nat)
    requires s > 0 && x == q * s + r && r < s
    ensures x / s == q && x % s == r
  {
    var d := x / s - q;
    assert d * s + x % s == r;
  }
}
