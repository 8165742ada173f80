/** Shared arithmetic. Products of reals have a name of their own so that proofs
    can reason with them as terms. */
module Numbers {

  function Min(a: nat, b: nat): nat { if a <= b then a else b }

  function Abs(x: real): real { if x < 0.0 then -x else x }

  function Times(a: real, b: real): (p: real)
    ensures (a > 0.0 && b > 0.0) || (a < 0.0 && b < 0.0) ==> p > 0.0
    ensures a == 0.0 || b == 0.0 ==> p == 0.0
  {
    a * b
  }

  function Squared(x: real): (r: real)
    ensures r >= 0.0
    ensures x != 0.0 ==> r > 0.0
  {
    Times(x, x)
  }

  lemma TimesQuotient(a: real, b: real)
    requires b != 0.0
    ensures a / b * b == a
  {
  }
}
