/** The smaller of two numbers, and the little division needed elsewhere. */
module Arithmetic {

  function Min(a: nat, b: nat): nat
  {
    if a <= b then a else b
  }

  lemma AtLeastOne(f: int, d: int)
    requires f > 0
    ensures d >= 1 ==> f * d >= f
    ensures d <= -1 ==> f * d <= 0 - f
  {
    if d >= 1 {
      assert f * d == f + f * (d - 1);
    } else if d <= -1 {
      assert f * d == f * (d + 1) - f;
      assert f * (d + 1) == 0 - f * (-d - 1);
    }
  }

  lemma UniqueRemainder(f: int, q: int, r: int, q': int, r': int)
    requires 0 <= r < f && 0 <= r' < f && f * q + r == f * q' + r'
    ensures r == r' && q == q'
  {
    AtLeastOne(f, q - q');
    assert f * (q - q') == f * q - f * q';
  }

  lemma NextRemainder(k: nat, f: int)
    requires f > 0
    ensures (k + 1) % f == if k % f + 1 == f then 0 else k % f + 1
    ensures (k + 1) / f == if k % f + 1 == f then k / f + 1 else k / f
  {
    var q, r, a, b := k / f, k % f, (k + 1) / f, (k + 1) % f;
    assert k == f * q + r && k + 1 == f * a + b;
    if r + 1 == f {
      assert f * (q + 1) == f * q + f;
      UniqueRemainder(f, a, b, q + 1, 0);
    } else {
      UniqueRemainder(f, a, b, q, r + 1);
    }
  }

  lemma Rows(t: int, p: nat, e: nat)
    requires t > 0 && p < e
    ensures t * p + t == t * (p + 1) <= t * e
    ensures p + 1 < e ==> t * (p + 1) < t * e
  {
    var d := e - p - 1;
    assert t * e == t * (p + 1) + t * d;
    AtLeastOne(t, d);
  }
}
