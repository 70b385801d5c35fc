/** The field modulus P = 2^448 - 2^224 - 1 and the golden-ratio constant PHI = 2^224. */
module Prime448 {
  const PHI: int := 0x1_00000000_00000000_00000000_00000000_00000000_00000000_00000000

  /** A guard: a definition quantified over q with Value(p, q) is expanded by the verifier only
      where a proof asserts Value(p, p). */
  predicate Value(p: int, q: int) {
    q == p
  }

  ghost predicate IsModulus(p: int) {
    forall q: int {:trigger Value(p, q)} :: Value(p, q) ==> q == PHI * PHI - PHI - 1
  }

  /** The type has one inhabitant. Stating its value through the guard keeps 448-bit arithmetic
      out of every proof that does not call `PrimeValue`. */
  type Modulus = p: int | p > 3 && IsModulus(p) witness PHI * PHI - PHI - 1

  const PRIME: Modulus

  const P: int := PRIME

  lemma PrimeValue()
    ensures P == PHI * PHI - PHI - 1
  {
    assert Value(PRIME, PRIME);
  }

  /** P is just below 2^448 and 3 modulo 4. */
  lemma PrimeShape()
    ensures PHI * PHI < 2 * P && P < PHI * PHI && P % 4 == 3
  {
    PrimeValue();
  }
}
