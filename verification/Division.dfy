/** Quotient and remainder as functions that proofs can hide. */
module Division {
  function Quot(n: nat, b: nat): (q: nat)
    requires b > 0
    ensures b >= 2 && n > 0 ==> q < n
  {
    DivParts(n, b);
    n / b
  }

  function Rem(n: nat, b: nat): (r: nat)
    requires b > 0
    ensures r < b
  {
    n % b
  }

  lemma Split(n: nat, b: nat)
    requires b > 0
    ensures n == b * Quot(n, b) + Rem(n, b)
  {
    DivParts(n, b);
  }

  lemma {:induction false} MulGrows(z: nat, a: nat, b: nat)
    requires a <= b
    ensures z * a <= z * b
  {
    if a < b {
      MulGrows(z, a, b - 1);
      assert z * b == z * (b - 1) + z;
    }
  }

  lemma DivParts(n: nat, b: nat)
    requires b > 0
    ensures n == b * (n / b) + n % b && 0 <= n % b < b
  {
  }
}
