/** Arithmetic shared by the other modules. */
module Numbers {

  function Max(a: int, b: int): int { if a > b then a else b }

  function Power(k: nat): (p: nat)
    ensures p > 0
  {
    if k == 0 then 1 else 2 * Power(k - 1)
  }

  lemma PowerAt32()
    ensures Power(32) == 0x1_0000_0000
  {
    assert Power(8) == 256;
    assert Power(16) == 256 * Power(8);
    assert Power(24) == 256 * Power(16);
  }
}
