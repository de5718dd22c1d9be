/** Which windows begin and end with the same leg. */
module Ends {
  import opened Market
  import opened Window
  import opened Erase
  import opened Splitter
  import opened Screening
  import opened Groups
  import opened Exact

  /** First and last trade are of one leg, but not all trades are. */
  predicate MixedEnds(book: Book, w: seq<Trade>) {
    w != [] && LegOf(book, w[0]) == LegOf(book, w[|w| - 1])
    && exists i :: 0 <= i < |w| && LegOf(book, w[i]) != LegOf(book, w[0])
  }

  /** The trade's leg comes back to a window that balances, and puts it out without clearing it. */
  predicate PutsOutEarly(book: Book, p: seq<Trade>, t: Trade) {
    && ComesBack(book, p, LegOf(book, t))
    && Qty(book, p, Fut) == Qty(book, p, Call) == Qty(book, p, Put) && |Tokens(p + [t])| == 3
  }

  lemma EntersMixed(book: Book, p: seq<Trade>, t: Trade)
    ensures MixedEnds(book, p + [t]) <==>
            p != [] && LegOf(book, p[0]) == LegOf(book, t) && exists i :: 0 <= i < |p| && LegOf(book, p[i]) != LegOf(book, t)
  {
    var v := p + [t];
    if p != [] && LegOf(book, p[0]) == LegOf(book, t) {
      if i :| 0 <= i < |p| && LegOf(book, p[i]) != LegOf(book, t) {
        assert v[i] == p[i];
      }
      if i :| 0 <= i < |v| && LegOf(book, v[i]) != LegOf(book, v[0]) {
        assert i < |p| && p[i] == v[i];
      }
    }
  }

  /** After a leading run of the last trade's leg is dropped the ends differ. */
  lemma DroppedEndsDiffer(book: Book, p: seq<Trade>, t: Trade, k: nat)
    requires k < |p| && LeadingRun(book, p + [t], LegOf(book, t), k)
    ensures !MixedEnds(book, (p + [t])[k..]) && (p + [t])[k..] != [] && (p + [t])[k..][|p| - k] == t
  {
  }

  lemma RunLength(book: Book, w: seq<Trade>, leg: Leg) returns (k: nat)
    ensures LeadingRun(book, w, leg, k)
  {
    k := DropRunIsMaximal(book, w, leg);
  }

  lemma OtherLegMixed(book: Book, p: seq<Trade>, t: Trade)
    requires !ComesBack(book, p, LegOf(book, t))
    ensures MixedEnds(book, p + [t]) <==>
            p != [] && LegOf(book, p[0]) == LegOf(book, t) == LegOf(book, p[|p| - 1]) && MixedEnds(book, p)
  {
    EntersMixed(book, p, t);
  }

  lemma EarlyMixed(book: Book, p: seq<Trade>, t: Trade)
    requires ComesBack(book, p, LegOf(book, t))
    ensures MixedEnds(book, p + [t]) <==> LegOf(book, p[0]) == LegOf(book, t)
  {
    EntersMixed(book, p, t);
    assert LegOf(book, p[|p| - 1]) != LegOf(book, t);
  }

  predicate MixedFrom(book: Book, p: seq<Trade>, t: Trade) {
    && p != [] && LegOf(book, p[0]) == LegOf(book, t)
    && (PutsOutEarly(book, p, t) || (LegOf(book, p[|p| - 1]) == LegOf(book, t) && MixedEnds(book, p)))
  }

  /** What stands in the window after a step, unless it was put out. */
  lemma StepLeaves(book: Book, w: seq<Trade>, t: Trade, p: seq<Trade>) returns (v: seq<Trade>)
    requires OneSided(t) && p == Prune(book, w, t)
    ensures SplitStep(book, w, t).window == [] || SplitStep(book, w, t).window == v
    ensures v != [] && v[|v| - 1] == t
    ensures MixedEnds(book, v) <==> MixedFrom(book, p, t)
  {
    v := p + [t];
    if !ComesBack(book, p, LegOf(book, t)) {
      OtherLegMixed(book, p, t);
      OtherLegEnters(book, w, t, p);
    } else if PutsOutEarly(book, p, t) {
      EarlyMixed(book, p, t);
      ReturnPutsOut(book, w, t, p);
    } else {
      var k := RunLength(book, p + [t], LegOf(book, t));
      ReturnDropsRun(book, w, t, p, k);
      v := v[k..];
      DroppedEndsDiffer(book, p, t, k);
    }
  }

  /** Exactly when a step leaves a window that begins and ends with the new trade's leg, and another between: the
      window was just put out balanced, or the leg goes on from what deletion left so already. */
  lemma StepEnds(book: Book, w: seq<Trade>, t: Trade, p: seq<Trade>)
    requires OneSided(t) && p == Prune(book, w, t) && SplitStep(book, w, t).window != []
    ensures MixedEnds(book, SplitStep(book, w, t).window) <==>
            && p != [] && LegOf(book, p[0]) == LegOf(book, t)
            && (PutsOutEarly(book, p, t) || (LegOf(book, p[|p| - 1]) == LegOf(book, t) && MixedEnds(book, p)))
    ensures var v := SplitStep(book, w, t).window; v[|v| - 1] == t
  {
    var v := StepLeaves(book, w, t, p);
  }

  // ------------------------------------------------------------------ over a whole buffer

  /** The window in which trade m is met. */
  function WindowAt(book: Book, ts: seq<Trade>, m: nat): seq<Trade>
    requires m <= |ts|
  {
    SplitRun(book, ts[..m]).window
  }

  /** The last trades, all of one leg, began with one that put the window out without clearing it. */
  predicate SinceEarly(book: Book, ts: seq<Trade>, m: nat) {
    && m < |ts| && PutsOutEarly(book, Prune(book, WindowAt(book, ts, m), ts[m]), ts[m])
    && forall i :: m <= i < |ts| ==> LegOf(book, ts[i]) == LegOf(book, ts[m])
  }

  lemma OneStrikePrunes(book: Book, w: seq<Trade>, t: Trade, strike: int)
    requires OneExpiry(book, w) && NoZeroExpiry(book, w)
    requires OneStrike(book, w, strike) && (LegOf(book, t) != Fut ==> StrikeOf(book, t) == strike)
    ensures Prune(book, w, t) == w || Prune(book, w, t) == []
  {
    if SameExpiry(book, w, t) {
      var o := LastOption(book, w);
      if o < |w| {
        assert w[o] in w;
        NotPruned(book, w, t, o);
      } else {
        NotPruned(book, w, t, 0);
      }
    } else {
      PrunedByExpiry(book, w, t);
      NoneOfExpiry(book, w, ExpiryOf(book, t));
    }
  }

  lemma {:induction false} NoneOfExpiry(book: Book, w: seq<Trade>, expiry: int)
    requires forall t :: t in w ==> ExpiryOf(book, t) != expiry
    ensures OfExpiry(book, w, expiry) == []
  {
    if w != [] {
      assert w[0] in w;
      NoneOfExpiry(book, w[1..], expiry);
    }
  }

  lemma SinceGoesOn(book: Book, ts: seq<Trade>, m: nat, n: nat)
    requires n + 1 == |ts| && n > 0 && SinceEarly(book, ts[..n], m) && LegOf(book, ts[n]) == LegOf(book, ts[n - 1])
    ensures SinceEarly(book, ts, m)
  {
    assert ts[..n][..m] == ts[..m];
    assert forall i :: 0 <= i < n ==> ts[..n][i] == ts[i];
  }

  lemma PrefixOrdinary(book: Book, ts: seq<Trade>, n: nat, strike: int)
    requires n <= |ts| && NoZeroExpiry(book, ts) && OneStrike(book, ts, strike)
    ensures NoZeroExpiry(book, ts[..n]) && OneStrike(book, ts[..n], strike)
  {
    assert forall t :: t in ts[..n] ==> t in ts;
  }

  ghost predicate EverEarly(book: Book, ts: seq<Trade>) {
    exists m: nat :: SinceEarly(book, ts, m)
  }

  lemma EarlyNow(book: Book, ts: seq<Trade>, n: nat, p: seq<Trade>)
    requires n + 1 == |ts| && p == Prune(book, WindowAt(book, ts, n), ts[n]) && PutsOutEarly(book, p, ts[n])
    ensures EverEarly(book, ts)
  {
    assert SinceEarly(book, ts, n);
  }

  lemma EarlyGoesOn(book: Book, ts: seq<Trade>, n: nat)
    requires n + 1 == |ts| && n > 0 && EverEarly(book, ts[..n]) && LegOf(book, ts[n]) == LegOf(book, ts[n - 1])
    ensures EverEarly(book, ts)
  {
    var m: nat :| SinceEarly(book, ts[..n], m);
    SinceGoesOn(book, ts, m, n);
  }

  /** One step on from an ordinary window: where equal ends come from. */
  lemma MixedBefore(book: Book, w: seq<Trade>, t: Trade, p: seq<Trade>, v: seq<Trade>, strike: int)
    requires p == Prune(book, w, t) && v == SplitStep(book, w, t).window && v != []
    requires OneExpiry(book, w) && NoZeroExpiry(book, w) && OneStrike(book, w, strike)
    requires LegOf(book, t) != Fut ==> StrikeOf(book, t) == strike
    ensures v[|v| - 1] == t
    ensures MixedEnds(book, v) && !PutsOutEarly(book, p, t) ==>
              MixedEnds(book, w) && LegOf(book, w[|w| - 1]) == LegOf(book, t)
  {
    OneStrikePrunes(book, w, t, strike);
    StepEnds(book, w, t, p);
  }

  lemma LastWindow(book: Book, ts: seq<Trade>, n: nat, w: seq<Trade>)
    requires n + 1 == |ts| && w == WindowAt(book, ts, n)
    ensures SplitRun(book, ts).window == SplitStep(book, w, ts[n]).window
  {
  }

  /** When all options of a buffer have one strike: a window begins and ends with the same leg only if it is all of
      that leg, or has just been put out balanced, and only that leg was traded since. */
  lemma {:induction false} RunEnds(book: Book, ts: seq<Trade>, strike: int, v: seq<Trade>)
    requires NoZeroExpiry(book, ts) && OneStrike(book, ts, strike) && v == SplitRun(book, ts).window
    ensures MixedEnds(book, v) ==> EverEarly(book, ts)
    ensures v != [] ==> ts != [] && v[|v| - 1] == ts[|ts| - 1]
  {
    if ts != [] && v != [] {
      var n := |ts| - 1;
      var w := WindowAt(book, ts, n);
      var p := Prune(book, w, ts[n]);
      LastWindow(book, ts, n, w);
      OrdinaryWindow(book, ts, n, strike, w);
      assert ts[n] in ts;
      MixedBefore(book, w, ts[n], p, v, strike);
      PrefixOrdinary(book, ts, n, strike);
      RunEnds(book, ts[..n], strike, w);
      if MixedEnds(book, v) {
        if PutsOutEarly(book, p, ts[n]) {
          EarlyNow(book, ts, n, p);
        } else {
          EarlyGoesOn(book, ts, n);
        }
      }
    }
  }

  lemma OrdinaryWindow(book: Book, ts: seq<Trade>, n: nat, strike: int, w: seq<Trade>)
    requires n <= |ts| && NoZeroExpiry(book, ts) && OneStrike(book, ts, strike) && w == SplitRun(book, ts[..n]).window
    ensures OneExpiry(book, w) && NoZeroExpiry(book, w) && OneStrike(book, w, strike)
  {
    PrefixOrdinary(book, ts, n, strike);
    RunExpiry(book, ts[..n]);
    RunKeepsPart(book, ts[..n]);
    PartOf(w, ts[..n]);
  }

  // ------------------------------------------------------------------ with more strikes

  /** A leg that comes back to a window of more than three tokens, from which nothing is deleted, and drops k trades. */
  lemma TurnBack(book: Book, ts: seq<Trade>, w: seq<Trade>, t: Trade, k: nat, v: seq<Trade>)
    requires Stays(book, ts, w) && OneSided(t) && Prune(book, w, t) == w && ComesBack(book, w, LegOf(book, t))
    requires |Tokens(w + [t])| != 3 && LeadingRun(book, w + [t], LegOf(book, t), k) && k <= |w|
    requires v == (w + [t])[k..] && Settle(book, v) == Step(v, [])
    ensures Stays(book, ts + [t], v)
  {
    assert (ts + [t])[..|ts|] == ts;
    ReturnDropsRun(book, w, t, w, k);
  }

  predicate Ordinary(book: Book, w: seq<Trade>, expiry: int) {
    forall i :: 0 <= i < |w| ==> w[i].qty > 0 && OneSided(w[i]) && ExpiryOf(book, w[i]) == expiry
  }

  lemma LegMissingStays(book: Book, w: seq<Trade>, leg: Leg, expiry: int)
    requires w != [] && Ordinary(book, w, expiry) && forall i :: 0 <= i < |w| ==> LegOf(book, w[i]) != leg
    ensures Settle(book, w) == Step(w, [])
  {
    assert Positive(w);
    LegMissing(book, w, leg);
  }

  predicate FourAt(w: seq<Trade>, i: nat, j: nat, k: nat, l: nat) {
    i < j < k < l < |w| && |{w[i].token, w[j].token, w[k].token, w[l].token}| == 4
  }

  /** Four tokens: too many to put anything out. */
  lemma FourTokens(book: Book, w: seq<Trade>, i: nat, j: nat, k: nat, l: nat)
    requires FourAt(w, i, j, k, l)
    ensures |Tokens(w)| != 3 && Settle(book, w) == Step(w, [])
  {
    assert w[i] in w && w[j] in w && w[k] in w && w[l] in w;
    SubsetSize({w[i].token, w[j].token, w[k].token, w[l].token}, Tokens(w));
  }

  lemma FutureFirst(book: Book, w: seq<Trade>, t: Trade, expiry: int)
    requires Ordinary(book, w, expiry) && ExpiryOf(book, t) == expiry && w != [] && LegOf(book, w[0]) == Fut
    ensures Prune(book, w, t) == w
  {
  }

  /** Two futures, a put, a call of its own strike, and a put and a call of another strike. */
  predicate Cast(book: Book, f: Trade, g: Trade, x: Trade, c: Trade, y: Trade, d: Trade, expiry: int) {
    && LegOf(book, f) == LegOf(book, g) == Fut
    && LegOf(book, x) == LegOf(book, y) == Put && LegOf(book, c) == LegOf(book, d) == Call
    && StrikeOf(book, x) != StrikeOf(book, c) && StrikeOf(book, y) == StrikeOf(book, d) != StrikeOf(book, c)
    && StrikeOf(book, y) != 0 && Ordinary(book, [f, g, x, c, y, d], expiry)
    && |{f.token, x.token, c.token, y.token}| == 4 && |{f.token, g.token, x.token, c.token}| == 4
  }

  /** With a future first: a leg not in the window enters one of too many tokens. */
  lemma EntersMany(book: Book, w: seq<Trade>, t: Trade, v: seq<Trade>, expiry: int)
    requires Stays(book, w, w) && v == w + [t] && Ordinary(book, v, expiry) && w != [] && LegOf(book, w[0]) == Fut
    requires Settle(book, v) == Step(v, []) && GoesOn(book, w, LegOf(book, t))
    ensures Stays(book, v, v)
  {
    assert v[|w|] == t && forall i :: 0 <= i < |w| ==> w[i] == v[i];
    FutureFirst(book, w, t, expiry);
    OpenTurn(book, w, w, t, v, v, Step(v, []));
  }

  /** With a future first: a leg that comes back to too many tokens drops k trades. */
  lemma ReturnsMany(book: Book, w: seq<Trade>, t: Trade, all: seq<Trade>, k: nat, v: seq<Trade>, expiry: int)
    requires Stays(book, w, w) && all == w + [t] && Ordinary(book, all, expiry) && w != [] && LegOf(book, w[0]) == Fut
    requires |Tokens(all)| != 3 && ComesBack(book, w, LegOf(book, t)) && LeadingRun(book, all, LegOf(book, t), k)
    requires k <= |w| && v == all[k..] && Settle(book, v) == Step(v, [])
    ensures Stays(book, all, v)
  {
    assert all[|w|] == t && forall i :: 0 <= i < |w| ==> w[i] == all[i];
    FutureFirst(book, w, t, expiry);
    TurnBack(book, w, w, t, k, v);
  }

  lemma OneStands(book: Book, f: Trade, v: seq<Trade>, expiry: int)
    requires v == [f] && Ordinary(book, v, expiry) && LegOf(book, f) == Fut
    ensures Stays(book, v, v)
  {
    assert v[0] == f && v == [] + [f];
    LegMissingStays(book, v, Call, expiry);
    OpenTurn(book, [], [], f, v, v, Step(v, []));
  }

  lemma TwoStand(book: Book, f: Trade, g: Trade, v: seq<Trade>, expiry: int)
    requires v == [f, g] && Ordinary(book, v, expiry) && LegOf(book, f) == LegOf(book, g) == Fut
    ensures Stays(book, v, v)
  {
    var w := [f];
    assert v[0] == f && v[1] == g && w[0] == f && v == w + [g];
    OneStands(book, f, w, expiry);
    LegMissingStays(book, v, Call, expiry);
    EntersMany(book, w, g, v, expiry);
  }

  lemma ThreeStand(book: Book, f: Trade, g: Trade, x: Trade, v: seq<Trade>, expiry: int)
    requires v == [f, g, x] && Ordinary(book, v, expiry)
    requires LegOf(book, f) == LegOf(book, g) == Fut && LegOf(book, x) == Put
    ensures Stays(book, v, v)
  {
    var w := [f, g];
    assert v[0] == f && v[1] == g && v[2] == x && w[0] == f && w[1] == g && v == w + [x];
    TwoStand(book, f, g, w, expiry);
    LegMissingStays(book, v, Call, expiry);
    EntersMany(book, w, x, v, expiry);
  }

  lemma FourStand(book: Book, f: Trade, g: Trade, x: Trade, c: Trade, v: seq<Trade>, expiry: int)
    requires v == [f, g, x, c] && Ordinary(book, v, expiry) && FourAt(v, 0, 1, 2, 3)
    requires LegOf(book, f) == LegOf(book, g) == Fut && LegOf(book, x) == Put && LegOf(book, c) == Call
    ensures Stays(book, v, v)
  {
    var w := [f, g, x];
    assert w[0] == v[0] == f && w[1] == v[1] == g && w[2] == v[2] == x && v[3] == c && v == w + [c];
    ThreeStand(book, f, g, x, w, expiry);
    FourTokens(book, v, 0, 1, 2, 3);
    EntersMany(book, w, c, v, expiry);
  }

  /** A put comes back; with a future first nothing is deleted for its strike, and nothing dropped. */
  lemma FiveStand(book: Book, w: seq<Trade>, y: Trade, v: seq<Trade>, expiry: int)
    requires Stays(book, w, w) && |w| == 4 && v == w + [y] && Ordinary(book, v, expiry) && FourAt(v, 0, 1, 2, 3)
    requires LegOf(book, w[0]) == Fut && LegOf(book, w[2]) == LegOf(book, y) == Put && LegOf(book, w[3]) == Call
    ensures Stays(book, v, v)
  {
    FourTokens(book, v, 0, 1, 2, 3);
    assert v[0..] == v && v[0] == w[0];
    ReturnsMany(book, w, y, v, 0, v, expiry);
  }

  /** The future comes back and drops the two futures in front. */
  lemma FutureReturns(book: Book, w: seq<Trade>, f: Trade, all: seq<Trade>, v: seq<Trade>, expiry: int)
    requires Stays(book, w, w) && |w| == 5 && all == w + [f] && v == all[2..] && Ordinary(book, all, expiry)
    requires FourAt(all, 0, 1, 2, 3) && FourAt(v, 0, 1, 2, 3)
    requires LegOf(book, w[0]) == LegOf(book, w[1]) == LegOf(book, f) == Fut
    requires LegOf(book, w[2]) == LegOf(book, w[4]) == Put
    ensures Stays(book, all, v)
  {
    FourTokens(book, all, 0, 1, 2, 3);
    FourTokens(book, v, 0, 1, 2, 3);
    assert all[0] == w[0] && all[1] == w[1] && all[2] == w[2];
    ReturnsMany(book, w, f, all, 2, v, expiry);
  }

  /** A call of the last strike comes back behind a put: nothing is deleted, and nothing dropped. */
  lemma CallReturns(book: Book, before: seq<Trade>, w: seq<Trade>, d: Trade, v: seq<Trade>, expiry: int)
    requires Stays(book, before, w) && |w| == 4 && v == w + [d] && Ordinary(book, v, expiry) && FourAt(v, 0, 1, 2, 3)
    requires LegOf(book, w[0]) == LegOf(book, w[2]) == Put && LegOf(book, w[1]) == LegOf(book, d) == Call
    requires LegOf(book, w[3]) == Fut && StrikeOf(book, w[2]) == StrikeOf(book, d)
    ensures Stays(book, before + [d], v)
  {
    FourTokens(book, v, 0, 1, 2, 3);
    assert v[0..] == v && v[4] == d && forall i :: 0 <= i < 4 ==> v[i] == w[i];
    LastPutStands(book, w, d, expiry);
    TurnBack(book, before, w, d, 0, v);
  }

  lemma LastPutStands(book: Book, w: seq<Trade>, d: Trade, expiry: int)
    requires |w| == 4 && Ordinary(book, w, expiry) && ExpiryOf(book, d) == expiry
    requires LegOf(book, w[2]) == Put && LegOf(book, w[3]) == Fut && StrikeOf(book, w[2]) == StrikeOf(book, d)
    ensures Prune(book, w, d) == w
  {
    NotPruned(book, w, d, 2);
  }

  lemma StrikeDeletes(book: Book, f: Trade, x: Trade, c: Trade, y: Trade, d: Trade, w: seq<Trade>, p: seq<Trade>, expiry: int)
    requires w == [x, c, y, f, d] && p == [c, f, d] && Ordinary(book, w, expiry) && LegOf(book, f) == Fut
    requires LegOf(book, x) == LegOf(book, y) == Put && LegOf(book, c) == LegOf(book, d) == Call
    requires StrikeOf(book, x) != StrikeOf(book, c) && StrikeOf(book, y) == StrikeOf(book, d) != StrikeOf(book, c)
    requires StrikeOf(book, d) != 0
    ensures Prune(book, w, c) == p
  {
    var options, strike := [x, c, y], StrikeOf(book, c);
    assert w[0] == x && w[1] == c && w[2] == y && w[3] == f && w[4] == d;
    PrunedByStrike(book, w, c, 4);
    assert w == options + [f] + [d] && options == [x] + [c] + [y];
    OfStrikeIsStable(book, options, f, [d], strike);
    OfStrikeIsStable(book, [x], c, [y], strike);
    assert OfStrikeBeforeFuture(book, [x], strike) == [] && OfStrikeBeforeFuture(book, [y], strike) == [];
    assert p == [c] + ([f] + [d]);
  }

  /** The first call again: its strike deletes what is left of the puts, and the call behind the future goes on. */
  lemma CallGoesOn(book: Book, f: Trade, c: Trade, d: Trade, before: seq<Trade>, w: seq<Trade>, p: seq<Trade>,
                   v: seq<Trade>, expiry: int)
    requires Stays(book, before, w) && Prune(book, w, c) == p && p == [c, f, d] && v == [c, f, d, c]
    requires Ordinary(book, v, expiry) && LegOf(book, f) == Fut && LegOf(book, c) == LegOf(book, d) == Call
    ensures Stays(book, before + [c], v) && MixedEnds(book, v)
  {
    assert v[0] == c && v[1] == f && v[2] == d && v[3] == c && v == p + [c];
    LegMissingStays(book, v, Put, expiry);
    assert p[2] == d;
    GoingOnIsNoReturn(book, p, LegOf(book, c));
    OtherLegEnters(book, w, c, p);
    LaterStays(book, before, w, c, v);
  }

  lemma LaterStays(book: Book, before: seq<Trade>, w: seq<Trade>, c: Trade, v: seq<Trade>)
    requires Stays(book, before, w) && StepsTo(book, w, c, [], v) && Settle(book, v) == Step(v, [])
    ensures Stays(book, before + [c], v)
  {
    assert (before + [c])[..|before|] == before;
  }

  lemma CastStands(book: Book, f: Trade, g: Trade, x: Trade, c: Trade, y: Trade, d: Trade, expiry: int,
                   v: seq<Trade>)
    requires Cast(book, f, g, x, c, y, d, expiry) && v == [f, g, x, c, y]
    ensures Stays(book, v, v) && Ordinary(book, v, expiry) && FourAt(v, 0, 1, 2, 3)
  {
    var all, w := [f, g, x, c, y, d], [f, g, x, c];
    assert all[..5] == v && all[..4] == w;
    assert w[0] == v[0] == f && w[1] == v[1] == g && w[2] == v[2] == x && w[3] == v[3] == c && v[4] == y;
    assert v == w + [y];
    FourStand(book, f, g, x, c, w, expiry);
    FiveStand(book, w, y, v, expiry);
  }

  lemma CastTurns(book: Book, f: Trade, g: Trade, x: Trade, c: Trade, y: Trade, d: Trade, expiry: int,
                  six: seq<Trade>, w: seq<Trade>)
    requires Cast(book, f, g, x, c, y, d, expiry) && six == [f, g, x, c, y, f] && w == [x, c, y, f]
    ensures Stays(book, six, w) && Ordinary(book, six, expiry) && FourAt(w, 0, 1, 2, 3)
  {
    var five := [f, g, x, c, y];
    CastStands(book, f, g, x, c, y, d, expiry, five);
    assert six == five + [f] && six[2..] == w;
    assert five[0] == f && five[1] == g && five[2] == x && five[3] == c && five[4] == y;
    assert w[0] == x && w[1] == c && w[2] == y && w[3] == f;
    assert {x.token, c.token, y.token, f.token} == {f.token, x.token, c.token, y.token};
    FutureReturns(book, five, f, six, w, expiry);
  }

  lemma CastOrdinary(book: Book, f: Trade, g: Trade, x: Trade, c: Trade, y: Trade, d: Trade, expiry: int, v: seq<Trade>)
    requires Cast(book, f, g, x, c, y, d, expiry) && v == [x, c, y, f, d]
    ensures Ordinary(book, v, expiry)
  {
    var all := [f, g, x, c, y, d];
    assert all[0] == f && all[2] == x && all[3] == c && all[4] == y && all[5] == d;
  }

  lemma CastCalls(book: Book, f: Trade, g: Trade, x: Trade, c: Trade, y: Trade, d: Trade, expiry: int,
                  six: seq<Trade>, w: seq<Trade>, v: seq<Trade>)
    requires Cast(book, f, g, x, c, y, d, expiry) && six == [f, g, x, c, y, f] && w == [x, c, y, f] && v == w + [d]
    ensures Stays(book, six + [d], v) && v == [x, c, y, f, d] && Ordinary(book, v, expiry)
  {
    CastTurns(book, f, g, x, c, y, d, expiry, six, w);
    CastOrdinary(book, f, g, x, c, y, d, expiry, v);
    assert v[0] == w[0] == x && v[1] == w[1] == c && v[2] == w[2] == y && v[3] == w[3] == f;
    CallReturns(book, six, w, d, v, expiry);
  }

  lemma CastMixes(book: Book, f: Trade, g: Trade, x: Trade, c: Trade, y: Trade, d: Trade, expiry: int, ts: seq<Trade>)
    requires Cast(book, f, g, x, c, y, d, expiry) && ts == [f, g, x, c, y, f, d, c]
    ensures Stays(book, ts, [c, f, d, c]) && MixedEnds(book, [c, f, d, c])
  {
    var seven, v, p, u := [f, g, x, c, y, f, d], [x, c, y, f, d], [c, f, d], [c, f, d, c];
    CastCalls(book, f, g, x, c, y, d, expiry, [f, g, x, c, y, f], [x, c, y, f], v);
    assert seven == [f, g, x, c, y, f] + [d];
    StrikeDeletes(book, f, x, c, y, d, v, p, expiry);
    assert ts == seven + [c];
    assert u[0] == u[3] == v[1] == c && u[1] == v[3] == f && u[2] == v[4] == d;
    CallGoesOn(book, f, c, d, seven, v, p, u, expiry);
  }

  const BOOK: Book := map[1 := Contract(Fut, 0, 7, 1, ""), 2 := Contract(Put, 2, 7, 1, ""),
                          3 := Contract(Call, 3, 7, 1, ""), 4 := Contract(Put, 4, 7, 1, ""),
                          5 := Contract(Call, 4, 7, 1, ""), 6 := Contract(Fut, 0, 7, 1, "")]

  function Bought(token: int): Trade {
    Trade(0, 0, 0, 9, token, 10, 1)
  }

  lemma StayIsAll(book: Book, ts: seq<Trade>, v: seq<Trade>)
    requires Stays(book, ts, v) && MixedEnds(book, v)
    ensures MixedEnds(book, SplitRun(book, ts).window) && SplitRun(book, ts).groups == []
  {
  }

  lemma ExampleCast()
    ensures Cast(BOOK, Bought(1), Bought(6), Bought(2), Bought(3), Bought(4), Bought(5), 7)
  {
    assert |{1, 2, 3, 4}| == 4 && |{1, 6, 2, 3}| == 4;
  }

  predicate AllBought(ts: seq<Trade>) {
    forall i :: 0 <= i < |ts| ==> 1 <= ts[i].token <= 6 && ts[i] == Bought(ts[i].token)
  }

  lemma ExampleOrdinary(ts: seq<Trade>)
    requires AllBought(ts)
    ensures Known(BOOK, ts) && Positive(ts) && AllOneSided(ts) && NoZeroExpiry(BOOK, ts)
  {
  }

  lemma ExampleRun(f: Trade, g: Trade, x: Trade, c: Trade, y: Trade, d: Trade) returns (ts: seq<Trade>, v: seq<Trade>)
    requires Cast(BOOK, f, g, x, c, y, d, 7) && AllBought([f, g, x, c, y, d])
    ensures Stays(BOOK, ts, v) && MixedEnds(BOOK, v) && AllBought(ts)
  {
    ts, v := [f, g, x, c, y, f, d, c], [c, f, d, c];
    CastMixes(BOOK, f, g, x, c, y, d, 7, ts);
    BoughtAgain([f, g, x, c, y, d], ts);
  }

  lemma BoughtAgain(all: seq<Trade>, ts: seq<Trade>)
    requires AllBought(all) && |all| == 6 && ts == [all[0], all[1], all[2], all[3], all[4], all[0], all[5], all[3]]
    ensures AllBought(ts)
  {
  }

  /** With more strikes a deletion can lay bare the leg that is traded on: no return, nothing put out early, and yet
      the window begins and ends with a call and holds a future. */
  lemma StrikesMayMixEnds() returns (ts: seq<Trade>)
    ensures Known(BOOK, ts) && Positive(ts) && AllOneSided(ts) && NoZeroExpiry(BOOK, ts)
    ensures MixedEnds(BOOK, SplitRun(BOOK, ts).window) && SplitRun(BOOK, ts).groups == []
  {
    ExampleCast();
    var v;
    ts, v := ExampleRun(Bought(1), Bought(6), Bought(2), Bought(3), Bought(4), Bought(5));
    StayIsAll(BOOK, ts, v);
    ExampleOrdinary(ts);
  }
}
