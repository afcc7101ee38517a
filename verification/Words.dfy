/** Unsigned arithmetic of the original, and the facts about division the proofs use. */
module Words {
  const WORD: int := 0x1_0000_0000_0000_0000
  const WORD32: int := 0x1_0000_0000
  const WORD16: int := 0x1_0000

  /** Sum and difference of two 64-bit words, with wrap-around (WrapAroundIsModulo). */
  function Add64(a: nat, b: nat): nat {
    if a + b < WORD then a + b else a + b - WORD
  }

  function Sub64(a: nat, b: nat): nat {
    if a >= b then a - b else if b - a <= WORD then a - b + WORD else 0
  }

  /** A 16-bit increment. */
  function Inc16(a: nat): (r: nat)
    requires a < WORD16
  {
    if a + 1 < WORD16 then a + 1 else 0
  }

  lemma WrapAroundIsModulo(a: nat, b: nat)
    requires a < WORD && b < WORD
    ensures Add64(a, b) == (a + b) % WORD && Sub64(a, b) == (a - b) % WORD
    ensures a < WORD16 ==> Inc16(a) == (a + 1) % WORD16
  {
  }

  lemma MulCases(d: nat, k: int)
    ensures k >= 1 ==> d * k >= d
    ensures k == 0 ==> d * k == 0
    ensures k <= -1 ==> d * k <= 0 - d
  {
    if k >= 1 {
      assert d * k == d + d * (k - 1);
    } else if k <= -1 {
      assert d * k + d == d * (k + 1);
    }
  }

  lemma ModUnique(d: nat, x: nat, q: nat, r: nat)
    requires 0 <= r < d && x == d * q + r
    ensures x % d == r && x / d == q
  {
    var q', r' := x / d, x % d;
    assert x == d * q' + r';
    MulCases(d, q - q');
    assert d * (q - q') == d * q - d * q';
  }
}
