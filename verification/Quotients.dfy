/** Division with remainder is unique. */
module Quotients {
  lemma QuotientUnique(a: int, v: int, q: int, r: int)
    requires v > 0 && a == v * q + r && 0 <= r < v
    ensures a / v == q && a % v == r
  {
    var d := a / v - q;
    assert v * (a / v) + a % v == a;
    assert v * d == r - a % v;
    Grows(v, d);
  }

  lemma Grows(v: int, d: int)
    requires v > 0
    ensures d >= 1 ==> v * d >= v
    ensures d <= -1 ==> v * d <= -v
  {
  }
}
