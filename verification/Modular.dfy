/** Counting modulo a variable number. */
module Modular {
  lemma MulAtLeast(a: nat, c: nat)
    requires a >= 1
    ensures a * c >= c
  {
  }

  lemma DivModUnique(k: nat, c: nat, q: nat, r: nat)
    requires c > 0 && k == q * c + r && r < c
    ensures k % c == r && k / c == q
  {
    var q', r' := k / c, k % c;
    assert k == q' * c + r';
    assert (q - q') * c == q * c - q' * c;
    if q > q' {
      MulAtLeast(q - q', c);
    } else if q' > q {
      MulAtLeast(q' - q, c);
    }
  }

  lemma ModNext(j: nat, c: nat)
    requires c > 0
    ensures (j + 1) % c == if j % c == c - 1 then 0 else j % c + 1
  {
    var q, r := j / c, j % c;
    assert j == q * c + r;
    if r == c - 1 {
      assert (q + 1) * c == q * c + c;
      DivModUnique(j + 1, c, q + 1, 0);
    } else {
      DivModUnique(j + 1, c, q, r + 1);
    }
  }
}
