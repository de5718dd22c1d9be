/** The three loops that shrink the sliding window by erasing from it, each equal to a stable filter. */
module Erase {
  import opened Market

  /** The trades of one expiry, in order. */
  function OfExpiry(book: Book, w: seq<Trade>, expiry: int): seq<Trade> {
    if w == [] then []
    else if ExpiryOf(book, w[0]) == expiry then [w[0]] + OfExpiry(book, w[1..], expiry)
    else OfExpiry(book, w[1..], expiry)
  }

  /** Up to the first future only trades of one strike are kept; from the future on, everything. */
  function OfStrikeBeforeFuture(book: Book, w: seq<Trade>, strike: int): seq<Trade> {
    if w == [] || LegOf(book, w[0]) == Fut then w
    else if StrikeOf(book, w[0]) == strike then [w[0]] + OfStrikeBeforeFuture(book, w[1..], strike)
    else OfStrikeBeforeFuture(book, w[1..], strike)
  }

  /** Drops the maximal leading run of one leg. */
  function DropRun(book: Book, w: seq<Trade>, leg: Leg): seq<Trade> {
    if w != [] && LegOf(book, w[0]) == leg then DropRun(book, w[1..], leg) else w
  }

  /** Filtering by expiry keeps exactly the trades of that expiry, as often as they occur. */
  lemma {:induction false} OfExpiryKeeps(book: Book, w: seq<Trade>, expiry: int)
    ensures |OfExpiry(book, w, expiry)| <= |w|
    ensures multiset(OfExpiry(book, w, expiry)) <= multiset(w)
    ensures forall t :: t in w && ExpiryOf(book, t) == expiry ==>
              multiset(OfExpiry(book, w, expiry))[t] == multiset(w)[t]
    ensures forall t :: t in OfExpiry(book, w, expiry) ==> t in w && ExpiryOf(book, t) == expiry
  {
    if w != [] {
      OfExpiryKeeps(book, w[1..], expiry);
      assert w == [w[0]] + w[1..];
    }
  }

  lemma {:induction false} OfStrikeKeeps(book: Book, w: seq<Trade>, strike: int)
    ensures |OfStrikeBeforeFuture(book, w, strike)| <= |w|
    ensures multiset(OfStrikeBeforeFuture(book, w, strike)) <= multiset(w)
    ensures forall t :: t in OfStrikeBeforeFuture(book, w, strike) ==> t in w
  {
    if w != [] && LegOf(book, w[0]) != Fut {
      OfStrikeKeeps(book, w[1..], strike);
      assert w == [w[0]] + w[1..];
    }
  }

  /** Each trade is kept or dropped on its own, in its place: kept if it is of the expiry. */
  lemma {:induction false} OfExpiryIsStable(book: Book, a: seq<Trade>, t: Trade, c: seq<Trade>, expiry: int)
    ensures OfExpiry(book, a + [t] + c, expiry) ==
            OfExpiry(book, a, expiry) + (if ExpiryOf(book, t) == expiry then [t] else []) + OfExpiry(book, c, expiry)
  {
    if a == [] {
      assert (a + [t] + c)[0] == t && (a + [t] + c)[1..] == c;
    } else {
      assert (a + [t] + c)[0] == a[0] && (a + [t] + c)[1..] == a[1..] + [t] + c;
      OfExpiryIsStable(book, a[1..], t, c, expiry);
    }
  }

  /** With no future before it a trade is kept if it is of the strike; a future, and all that follows, is kept. */
  lemma {:induction false} OfStrikeIsStable(book: Book, a: seq<Trade>, t: Trade, c: seq<Trade>, strike: int)
    requires forall i :: 0 <= i < |a| ==> LegOf(book, a[i]) != Fut
    ensures OfStrikeBeforeFuture(book, a + [t] + c, strike) ==
            OfStrikeBeforeFuture(book, a, strike)
            + if LegOf(book, t) == Fut then [t] + c
              else (if StrikeOf(book, t) == strike then [t] else []) + OfStrikeBeforeFuture(book, c, strike)
  {
    var w := a + [t] + c;
    if a == [] {
      assert w[0] == t && w[1..] == c && w == [t] + c;
    } else {
      assert w[0] == a[0] && w[1..] == a[1..] + [t] + c;
      OfStrikeIsStable(book, a[1..], t, c, strike);
    }
  }

  /** What is dropped is a run of the leg, and what remains is a suffix that starts with another leg. */
  lemma {:induction false} DropRunIsMaximal(book: Book, w: seq<Trade>, leg: Leg) returns (k: nat)
    ensures k <= |w| && DropRun(book, w, leg) == w[k..]
    ensures forall i :: 0 <= i < k ==> LegOf(book, w[i]) == leg
    ensures k < |w| ==> LegOf(book, w[k]) != leg
  {
    k := 0;
    if w != [] && LegOf(book, w[0]) == leg {
      var j := DropRunIsMaximal(book, w[1..], leg);
      k := j + 1;
      assert forall i :: 1 <= i < k ==> w[i] == w[1..][i - 1];
    }
  }

  lemma DropRunKeeps(book: Book, w: seq<Trade>, leg: Leg)
    ensures multiset(DropRun(book, w, leg)) <= multiset(w)
    ensures forall t :: t in DropRun(book, w, leg) ==> t in w
    ensures forall t :: t in w && LegOf(book, t) != leg ==> t in DropRun(book, w, leg)
  {
    var k := DropRunIsMaximal(book, w, leg);
    SuffixIsPart(w, k);
    forall t | t in w && LegOf(book, t) != leg ensures t in w[k..] {
      var i :| 0 <= i < |w| && w[i] == t;
      assert w[k..][i - k] == t;
    }
  }

  lemma SuffixIsPart(w: seq<Trade>, k: nat)
    requires k <= |w|
    ensures multiset(w[k..]) <= multiset(w)
  {
    assert w == w[..k] + w[k..];
  }

  lemma {:induction false} EraseOtherExpiry(book: Book, w: seq<Trade>, i: nat, expiry: int)
    requires i < |w| && ExpiryOf(book, w[i]) != expiry
    ensures OfExpiry(book, w[..i] + w[i + 1..], expiry) == OfExpiry(book, w, expiry)
  {
    if i == 0 {
      assert w[..0] + w[1..] == w[1..];
    } else {
      assert (w[..i] + w[i + 1..])[1..] == w[1..][..i - 1] + w[1..][i..];
      EraseOtherExpiry(book, w[1..], i - 1, expiry);
    }
  }

  lemma {:induction false} NothingOfOtherExpiry(book: Book, w: seq<Trade>, expiry: int)
    ensures (forall i :: 0 <= i < |w| ==> ExpiryOf(book, w[i]) == expiry) <==> OfExpiry(book, w, expiry) == w
    ensures |OfExpiry(book, w, expiry)| == |w| ==> OfExpiry(book, w, expiry) == w
    ensures |OfExpiry(book, w, expiry)| <= |w|
  {
    if w != [] {
      NothingOfOtherExpiry(book, w[1..], expiry);
      if forall i :: 0 <= i < |w[1..]| ==> ExpiryOf(book, w[1..][i]) == expiry {
        assert forall i :: 1 <= i < |w| ==> w[i] == w[1..][i - 1];
      } else {
        var i :| 0 <= i < |w[1..]| && ExpiryOf(book, w[1..][i]) != expiry;
        assert w[1..][i] == w[i + 1];
      }
    }
  }

  /** One pass: erases the first trade of another expiry, if there is one. */
  method EraseFirstOtherExpiry(book: Book, window: seq<Trade>, expiry: int) returns (kept: seq<Trade>)
    requires Known(book, window)
    ensures Known(book, kept)
    ensures OfExpiry(book, kept, expiry) == OfExpiry(book, window, expiry)
    ensures if window == OfExpiry(book, window, expiry) then kept == window else |kept| == |window| - 1
  {
    for i := 0 to |window|
      invariant forall j :: 0 <= j < i ==> ExpiryOf(book, window[j]) == expiry
    {
      if book[window[i].token].expiry != expiry {
        NothingOfOtherExpiry(book, window, expiry);
        EraseOtherExpiry(book, window, i, expiry);
        kept := window[..i] + window[i + 1..];
        return;
      }
    }
    NothingOfOtherExpiry(book, window, expiry);
    kept := window;
  }

  /** As many passes as there were trades. */
  method DeletePacketTillExpiryDate(book: Book, window: seq<Trade>, expiry: int) returns (kept: seq<Trade>)
    requires Known(book, window)
    ensures kept == OfExpiry(book, window, expiry)
    ensures Known(book, kept)
  {
    kept := window;
    for pass := 0 to |window|
      invariant Known(book, kept)
      invariant OfExpiry(book, kept, expiry) == OfExpiry(book, window, expiry)
      invariant |kept| == |window| - pass || kept == OfExpiry(book, window, expiry)
    {
      kept := EraseFirstOtherExpiry(book, kept, expiry);
    }
    NothingOfOtherExpiry(book, kept, expiry);
  }

  /** A trade of another strike, with no future before it, is dropped by the filter. */
  lemma {:induction false} EraseOtherStrike(book: Book, w: seq<Trade>, i: nat, strike: int)
    requires i < |w| && StrikeOf(book, w[i]) != strike
    requires forall j :: 0 <= j <= i ==> LegOf(book, w[j]) != Fut
    ensures OfStrikeBeforeFuture(book, w[..i] + w[i + 1..], strike) == OfStrikeBeforeFuture(book, w, strike)
    ensures |OfStrikeBeforeFuture(book, w, strike)| < |w|
  {
    OfStrikeKeeps(book, w[1..], strike);
    if i == 0 {
      assert w[..0] + w[1..] == w[1..];
    } else {
      assert (w[..i] + w[i + 1..])[1..] == w[1..][..i - 1] + w[1..][i..];
      EraseOtherStrike(book, w[1..], i - 1, strike);
    }
  }

  lemma {:induction false} NothingOfOtherStrike(book: Book, w: seq<Trade>, n: nat, strike: int)
    requires n <= |w| && (n < |w| ==> LegOf(book, w[n]) == Fut)
    requires forall j :: 0 <= j < n ==> LegOf(book, w[j]) != Fut && StrikeOf(book, w[j]) == strike
    ensures OfStrikeBeforeFuture(book, w, strike) == w
  {
    if n > 0 {
      assert forall j :: 0 <= j < |w| - 1 ==> w[1..][j] == w[j + 1];
      NothingOfOtherStrike(book, w[1..], n - 1, strike);
    }
  }

  /** One pass: erases the first trade of another strike; meeting a future first stops the whole loop. */
  method EraseFirstOtherStrike(book: Book, window: seq<Trade>, strike: int) returns (kept: seq<Trade>, stop: bool)
    requires Known(book, window)
    ensures Known(book, kept)
    ensures OfStrikeBeforeFuture(book, kept, strike) == OfStrikeBeforeFuture(book, window, strike)
    ensures if window == OfStrikeBeforeFuture(book, window, strike) then kept == window else |kept| == |window| - 1
    ensures stop ==> kept == OfStrikeBeforeFuture(book, kept, strike)
  {
    for i := 0 to |window|
      invariant forall j :: 0 <= j < i ==> LegOf(book, window[j]) != Fut && StrikeOf(book, window[j]) == strike
    {
      if book[window[i].token].leg == Fut {
        NothingOfOtherStrike(book, window, i, strike);
        return window, true;
      }
      if book[window[i].token].strike != strike {
        EraseOtherStrike(book, window, i, strike);
        return window[..i] + window[i + 1..], false;
      }
    }
    NothingOfOtherStrike(book, window, |window|, strike);
    return window, false;
  }

  method DeletePacketTillStrikePrice(book: Book, window: seq<Trade>, strike: int) returns (kept: seq<Trade>)
    requires Known(book, window)
    ensures kept == OfStrikeBeforeFuture(book, window, strike)
    ensures Known(book, kept)
  {
    kept := window;
    for pass := 0 to |window|
      invariant Known(book, kept)
      invariant OfStrikeBeforeFuture(book, kept, strike) == OfStrikeBeforeFuture(book, window, strike)
      invariant |kept| == |window| - pass || kept == OfStrikeBeforeFuture(book, window, strike)
    {
      var stop;
      kept, stop := EraseFirstOtherStrike(book, kept, strike);
      if stop {
        return;
      }
    }
    OfStrikeKeeps(book, kept, strike);
  }

  /** Erases from the front while the first trade is of the given leg. Some trade must be of another leg:
      the loop tests the first element of the vector without asking whether there is one. */
  method SecondLevelOrderValidation(book: Book, window: seq<Trade>, leg: Leg) returns (kept: seq<Trade>)
    requires Known(book, window)
    requires |window| <= 1 || exists i :: 0 <= i < |window| && LegOf(book, window[i]) != leg
    ensures kept == if |window| <= 1 then window else DropRun(book, window, leg)
    ensures window != [] ==> kept != []
    ensures Known(book, kept)
  {
    kept := window;
    if |window| <= 1 {
      return;
    }
    ghost var other :| 0 <= other < |window| && LegOf(book, window[other]) != leg;
    ghost var dropped := 0;
    while book[kept[0].token].leg == leg
      invariant 0 <= dropped <= other && kept == window[dropped..] && kept[0] == window[dropped]
      invariant DropRun(book, kept, leg) == DropRun(book, window, leg)
      decreases |kept|
    {
      assert dropped != other;
      kept := kept[1..];
      dropped := dropped + 1;
    }
  }
}
