/** The few facts about products and remainders the counting proofs need. */
module Arithmetic {

  lemma Distribute(a: int, b: int, t: int)
    ensures (a + b) * t == a * t + b * t
    ensures (a - b) * t == a * t - b * t
  {
  }

  lemma AtLeastOnce(k: int, t: int)
    requires k >= 1 && t >= 0
    ensures k * t >= t
  {
    Distribute(k - 1, 1, t);
    NonNegative(k - 1, t);
  }

  lemma NonNegative(k: int, t: int)
    requires k >= 0 && t >= 0
    ensures k * t >= 0
  {
  }

  /** Quotient and remainder are determined by their defining equation. */
  lemma ModUnique(a: nat, t: nat, q: nat, r: nat)
    requires t > 0 && r < t && a == q * t + r
    ensures a % t == r && a / t == q
  {
    var q', r' := a / t, a % t;
    DivMod(a, t);
    Distribute(q, q', t);
    Distribute(q', q, t);
    if q > q' {
      AtLeastOnce(q - q', t);
      assert false;
    } else if q < q' {
      AtLeastOnce(q' - q, t);
      assert false;
    }
  }

  lemma DivMod(a: nat, t: nat)
    requires t > 0
    ensures a == (a / t) * t + a % t
    ensures 0 <= a % t < t
  {
  }

  lemma NextResidue(lo: nat, t: nat)
    requires t > 0
    ensures (lo + t) % t == lo % t
    ensures (lo + 1) % t == if lo % t == t - 1 then 0 else lo % t + 1
  {
    var q, r := lo / t, lo % t;
    DivMod(lo, t);
    Distribute(q, 1, t);
    ModUnique(lo + t, t, q + 1, r);
    if r == t - 1 {
      ModUnique(lo + 1, t, q + 1, 0);
    } else {
      ModUnique(lo + 1, t, q, r + 1);
    }
  }

  /** Adding to the remainder is the same as adding to the number. */
  lemma ModAdd(a: nat, t: nat, k: nat)
    requires t > 0
    ensures (a % t + k) % t == (a + k) % t
  {
    var q, p := a / t, (a % t + k) / t;
    DivMod(a, t);
    DivMod(a % t + k, t);
    Distribute(q, p, t);
    ModUnique(a + k, t, q + p, (a % t + k) % t);
  }

  lemma MulMonotone(a: nat, b: nat, t: nat)
    requires a <= b
    ensures a * t <= b * t
  {
    Distribute(b, a, t);
    NonNegative(b - a, t);
  }
}
