/** What the engine's running counters mean: functions that recompute them from a run of trades. */
module Window {
  import opened Market

  function Amount(book: Book, t: Trade, leg: Leg): int {
    if LegOf(book, t) == leg then t.qty else 0
  }

  /** Traded quantity of one leg. */
  function Qty(book: Book, w: seq<Trade>, leg: Leg): int {
    if w == [] then 0 else Qty(book, w[..|w| - 1], leg) + Amount(book, w[|w| - 1], leg)
  }

  /** Traded quantity over all legs. */
  function Total(w: seq<Trade>): int {
    if w == [] then 0 else Total(w[..|w| - 1]) + w[|w| - 1].qty
  }

  function Tokens(w: seq<Trade>): set<int> {
    set t | t in w :: t.token
  }

  predicate Has(book: Book, w: seq<Trade>, leg: Leg) {
    exists t :: t in w && LegOf(book, t) == leg
  }

  function LastLeg(book: Book, w: seq<Trade>): Option<Leg> {
    if w == [] then None else Some(LegOf(book, w[|w| - 1]))
  }

  function LastExpiry(book: Book, w: seq<Trade>): int {
    if w == [] then 0 else ExpiryOf(book, w[|w| - 1])
  }

  /** Strike of the last option, 0 when there is none. */
  function LastStrike(book: Book, w: seq<Trade>): int {
    if w == [] then 0
    else if LegOf(book, w[|w| - 1]) != Fut then StrikeOf(book, w[|w| - 1])
    else LastStrike(book, w[..|w| - 1])
  }

  predicate Balanced(book: Book, w: seq<Trade>) {
    Qty(book, w, Fut) == Qty(book, w, Call) == Qty(book, w, Put)
  }

  /** The last trade of some legs stands at this position. */
  predicate IsLastOf(book: Book, g: seq<Trade>, legs: set<Leg>, i: nat) {
    i < |g| && LegOf(book, g[i]) in legs && forall j :: i < j < |g| ==> LegOf(book, g[j]) !in legs
  }

  lemma {:induction false} LastOptionCounts(book: Book, g: seq<Trade>, i: nat)
    requires IsLastOf(book, g, {Call, Put}, i)
    ensures LastStrike(book, g) == StrikeOf(book, g[i])
  {
    var n := |g| - 1;
    if i < n {
      assert LegOf(book, g[n]) == Fut;
      LastOptionCounts(book, g[..n], i);
    }
  }

  lemma {:induction false} NoOptionNoStrike(book: Book, w: seq<Trade>)
    requires forall i :: 0 <= i < |w| ==> LegOf(book, w[i]) == Fut
    ensures LastStrike(book, w) == 0
  {
    if w != [] {
      NoOptionNoStrike(book, w[..|w| - 1]);
    }
  }

  /** Every lot traded is counted in just one leg. */
  lemma {:induction false} LegsAddUp(book: Book, w: seq<Trade>)
    ensures Qty(book, w, Fut) + Qty(book, w, Call) + Qty(book, w, Put) == Total(w)
  {
    if w != [] {
      LegsAddUp(book, w[..|w| - 1]);
    }
  }

  lemma QtyPush(book: Book, w: seq<Trade>, t: Trade, leg: Leg)
    ensures Qty(book, w + [t], leg) == Qty(book, w, leg) + Amount(book, t, leg)
  {
    assert (w + [t])[..|w|] == w;
  }

  lemma {:induction false} QtyConcat(book: Book, a: seq<Trade>, c: seq<Trade>, leg: Leg)
    ensures Qty(book, a + c, leg) == Qty(book, a, leg) + Qty(book, c, leg)
  {
    if c == [] {
      assert a + c == a;
    } else {
      var n := |c| - 1;
      assert (a + c)[..|a + c| - 1] == a + c[..n];
      QtyConcat(book, a, c[..n], leg);
    }
  }

  /** With positive quantities a leg is present exactly when its quantity is not zero. */
  lemma {:induction false} QtyPositive(book: Book, w: seq<Trade>, leg: Leg)
    requires Positive(w)
    ensures Qty(book, w, leg) >= 0
    ensures Has(book, w, leg) <==> Qty(book, w, leg) > 0
  {
    if w != [] {
      var n := |w| - 1;
      QtyPositive(book, w[..n], leg);
      assert w == w[..n] + [w[n]];
      assert w[n] in w;
      if LegOf(book, w[n]) != leg && Has(book, w, leg) {
        var t :| t in w && LegOf(book, t) == leg;
        assert t in w[..n];
      }
    }
  }

  /** A sub-multiset of positive trades holds no more of any leg. */
  lemma {:induction false} QtyMonotone(book: Book, a: seq<Trade>, c: seq<Trade>, leg: Leg)
    requires Positive(c) && multiset(a) <= multiset(c)
    ensures Qty(book, a, leg) <= Qty(book, c, leg)
  {
    if a == [] {
      QtyPositive(book, c, leg);
    } else {
      var n := |a| - 1;
      var x := a[n];
      assert a == a[..n] + [x];
      assert x in multiset(c);
      var i :| 0 <= i < |c| && c[i] == x;
      assert c == c[..i] + [x] + c[i + 1..];
      var rest := c[..i] + c[i + 1..];
      assert multiset(c) == multiset(rest) + multiset{x};
      assert multiset(a) == multiset(a[..n]) + multiset{x};
      forall t ensures multiset(a[..n])[t] <= multiset(rest)[t] {
        assert multiset(a)[t] <= multiset(c)[t];
      }
      assert Positive(rest) by {
        assert forall t :: t in rest ==> t in c;
      }
      QtyMonotone(book, a[..n], rest, leg);
      QtyConcat(book, c[..i], c[i + 1..], leg);
      QtyConcat(book, c[..i] + [x], c[i + 1..], leg);
      QtyPush(book, c[..i], x, leg);
    }
  }

  lemma TotalPush(w: seq<Trade>, t: Trade)
    ensures Total(w + [t]) == Total(w) + t.qty
  {
    assert (w + [t])[..|w|] == w;
  }

  lemma SubsetSize(a: set<int>, c: set<int>)
    requires a <= c
    ensures |a| <= |c|
  {
    assert c == a + (c - a);
  }
}
