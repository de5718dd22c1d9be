/** The two all-or-nothing tests: one on the whole buffer before it is split, one on each candidate group. */
module Screening {
  import opened Market
  import opened Window
  import Least

  datatype Side = Unset | Buy | Sell

  /** A trade marks its leg BUY when the buy id is missing, SELL when the sell id is; both missing is SELL. */
  function Mark(side: Side, t: Trade): Side {
    if t.sellId == 0 then Sell else if t.buyId == 0 then Buy else side
  }

  /** The side left standing on a leg: that of its last trade that marks one. */
  function LastSide(book: Book, ts: seq<Trade>, leg: Leg, start: Side := Unset): Side {
    if ts == [] then start
    else
      var before := LastSide(book, ts[..|ts| - 1], leg, start);
      if LegOf(book, ts[|ts| - 1]) == leg then Mark(before, ts[|ts| - 1]) else before
  }

  /** Conversion: future and put bought, call sold. Reversal: the other way round. */
  predicate Opposed(fut: Side, call: Side, put: Side) {
    (fut == Buy && put == Buy && call == Sell) || (fut == Sell && put == Sell && call == Buy)
  }

  predicate SidesOpposed(book: Book, ts: seq<Trade>) {
    Opposed(LastSide(book, ts, Fut), LastSide(book, ts, Call), LastSide(book, ts, Put))
  }

  // ------------------------------------------------------------------ screening the buffer

  /** The largest token of a leg up to x: the one the ascending scan has seen last on reaching x. */
  predicate IsTop(book: Book, tokens: set<int>, leg: Leg, x: int, k: int) {
    && k in tokens && k <= x && Info(book, k).leg == leg
    && forall y :: y in tokens && y <= x && Info(book, y).leg == leg ==> y <= k
  }

  predicate SameTerms(book: Book, f: int, c: int, p: int) {
    && Info(book, c).strike == Info(book, p).strike
    && Info(book, p).expiry == Info(book, c).expiry == Info(book, f).expiry
  }

  /** On reaching token x all three legs have been seen, and the last seen of each agree. */
  ghost predicate MatchAt(book: Book, tokens: set<int>, x: int) {
    exists f, c, p :: IsTop(book, tokens, Fut, x, f) && IsTop(book, tokens, Call, x, c)
                      && IsTop(book, tokens, Put, x, p) && SameTerms(book, f, c, p)
  }

  ghost predicate SomeMatch(book: Book, tokens: set<int>) {
    exists x :: x in tokens && MatchAt(book, tokens, x)
  }

  /** What the buffer must satisfy to be split at all. */
  ghost predicate Screened(book: Book, ts: seq<Trade>, tokens: set<int>) {
    |tokens| >= 3 && ts != [] && SomeMatch(book, tokens) && SidesOpposed(book, ts)
  }

  /** With exactly three tokens a match means one of each leg, on one strike and one expiry. */
  lemma ThreeTokensMatch(book: Book, tokens: set<int>) returns (f: int, c: int, p: int)
    requires |tokens| == 3 && SomeMatch(book, tokens)
    ensures tokens == {f, c, p}
    ensures Info(book, f).leg == Fut && Info(book, c).leg == Call && Info(book, p).leg == Put
    ensures SameTerms(book, f, c, p)
  {
    var x :| x in tokens && MatchAt(book, tokens, x);
    f, c, p :| IsTop(book, tokens, Fut, x, f) && IsTop(book, tokens, Call, x, c)
               && IsTop(book, tokens, Put, x, p) && SameTerms(book, f, c, p);
    assert {f, c, p} <= tokens;
    assert |tokens - {f, c, p}| == 0;
  }

  /** The leg's variable holds the contract of the last token seen of that leg. */
  ghost predicate Holds(book: Book, done: set<int>, leg: Leg, held: Option<int>) {
    match held
    case None => forall y :: y in done ==> Info(book, y).leg != leg
    case Some(k) =>
      && k in done && Info(book, k).leg == leg
      && forall y :: y in done && Info(book, y).leg == leg ==> y <= k
  }

  lemma HoldsNext(book: Book, done: set<int>, leg: Leg, held: Option<int>, x: int)
    requires Holds(book, done, leg, held) && forall y :: y in done ==> y < x
    ensures Holds(book, done + {x}, leg, if Info(book, x).leg == leg then Some(x) else held)
  {
  }

  lemma TopsAreHeld(book: Book, tokens: set<int>, done: set<int>, x: int,
                    f: Option<int>, c: Option<int>, p: Option<int>)
    requires x in done && forall y :: y in done <==> y in tokens && y <= x
    requires Holds(book, done, Fut, f) && Holds(book, done, Call, c) && Holds(book, done, Put, p)
    ensures MatchAt(book, tokens, x) <==>
            f.Some? && c.Some? && p.Some? && SameTerms(book, f.value, c.value, p.value)
  {
    if f.Some? && c.Some? && p.Some? {
      assert IsTop(book, tokens, Fut, x, f.value) && IsTop(book, tokens, Call, x, c.value)
             && IsTop(book, tokens, Put, x, p.value);
      if MatchAt(book, tokens, x) {
        var f', c', p' :| IsTop(book, tokens, Fut, x, f') && IsTop(book, tokens, Call, x, c')
                          && IsTop(book, tokens, Put, x, p') && SameTerms(book, f', c', p');
        assert f' == f.value && c' == c.value && p' == p.value;
      }
    }
  }

  ghost predicate MatchWithin(book: Book, tokens: set<int>, done: set<int>) {
    exists x :: x in done && MatchAt(book, tokens, x)
  }

  lemma MatchWithinNext(book: Book, tokens: set<int>, done: set<int>, x: int)
    ensures MatchWithin(book, tokens, done + {x}) <==> MatchWithin(book, tokens, done) || MatchAt(book, tokens, x)
  {
    if MatchWithin(book, tokens, done) {
      var y :| y in done && MatchAt(book, tokens, y);
      assert y in done + {x};
    }
    assert x in done + {x};
  }

  /** What the scan remembers of one leg: the flag, and the terms of the token last seen. */
  ghost predicate Remembers(book: Book, held: Option<int>, flag: bool, strike: int, expiry: int) {
    && flag == held.Some?
    && (flag ==> expiry == Info(book, held.value).expiry)
    && (flag && Info(book, held.value).leg != Fut ==> strike == Info(book, held.value).strike)
  }

  lemma ScanOrder(tokens: set<int>, rest: set<int>, x: int)
    requires rest <= tokens && x in rest && forall y :: y in rest ==> x <= y
    requires forall y, z :: y in tokens - rest && z in rest ==> y < z
    ensures tokens - (rest - {x}) == (tokens - rest) + {x}
    ensures forall y :: y in tokens - rest ==> y < x
    ensures forall y :: y in (tokens - rest) + {x} <==> y in tokens && y <= x
    ensures forall y, z :: y in tokens - (rest - {x}) && z in rest - {x} ==> y < z
  {
  }

  /** The scan over the ordered token set. */
  method ScanTokens(book: Book, tokens: set<int>) returns (status: bool)
    requires forall y :: y in tokens ==> y in book
    ensures status <==> SomeMatch(book, tokens)
  {
    status := false;
    var fut, call, put := false, false, false;
    var strike1, strike2, expiry1, expiry2, expiry3 := 0, 0, 0, 0, 0;
    ghost var f: Option<int>, c: Option<int>, p: Option<int> := None, None, None;
    var rest := tokens;
    while rest != {}
      invariant rest <= tokens
      invariant forall y, z :: y in tokens - rest && z in rest ==> y < z
      invariant Holds(book, tokens - rest, Fut, f) && Remembers(book, f, fut, 0, expiry1)
      invariant Holds(book, tokens - rest, Call, c) && Remembers(book, c, call, strike1, expiry2)
      invariant Holds(book, tokens - rest, Put, p) && Remembers(book, p, put, strike2, expiry3)
      invariant status <==> MatchWithin(book, tokens, tokens - rest)
      decreases rest
    {
      var x := Least.LeastToken(rest);
      ghost var done := tokens - rest;
      ScanOrder(tokens, rest, x);
      HoldsNext(book, done, Fut, f, x);
      HoldsNext(book, done, Call, c, x);
      HoldsNext(book, done, Put, p, x);
      MatchWithinNext(book, tokens, done, x);
      var info := book[x];
      f := if info.leg == Fut then Some(x) else f;
      c := if info.leg == Call then Some(x) else c;
      p := if info.leg == Put then Some(x) else p;
      match info.leg {
        case Fut =>
          fut, expiry1 := true, info.expiry;
        case Call =>
          call, strike1, expiry2 := true, info.strike, info.expiry;
        case Put =>
          put, strike2, expiry3 := true, info.strike, info.expiry;
      }
      TopsAreHeld(book, tokens, done + {x}, x, f, c, p);
      if fut && put && call && strike1 == strike2 && expiry3 == expiry2 && expiry2 == expiry1 {
        status := true;
      }
      rest := rest - {x};
    }
    assert tokens - rest == tokens;
  }

  /** One scan over all trades, marking sides. */
  method MarkSides(book: Book, ts: seq<Trade>, fut: Side, call: Side, put: Side)
    returns (f: Side, c: Side, p: Side)
    requires Known(book, ts)
    ensures f == LastSide(book, ts, Fut, fut) && c == LastSide(book, ts, Call, call) && p == LastSide(book, ts, Put, put)
  {
    f, c, p := fut, call, put;
    for i := 0 to |ts|
      invariant f == LastSide(book, ts[..i], Fut, fut)
      invariant c == LastSide(book, ts[..i], Call, call)
      invariant p == LastSide(book, ts[..i], Put, put)
    {
      assert ts[..i + 1][..i] == ts[..i];
      f, c, p := MarkOne(book, ts[i], f, c, p);
    }
    assert ts[..|ts|] == ts;
  }

  method MarkOne(book: Book, t: Trade, fut: Side, call: Side, put: Side) returns (f: Side, c: Side, p: Side)
    requires t.token in book
    ensures f == if LegOf(book, t) == Fut then Mark(fut, t) else fut
    ensures c == if LegOf(book, t) == Call then Mark(call, t) else call
    ensures p == if LegOf(book, t) == Put then Mark(put, t) else put
  {
    f, c, p := fut, call, put;
    match book[t.token].leg {
      case Fut =>
        if t.buyId == 0 { f := Buy; }
        if t.sellId == 0 { f := Sell; }
      case Call =>
        if t.buyId == 0 { c := Buy; }
        if t.sellId == 0 { c := Sell; }
      case Put =>
        if t.buyId == 0 { p := Buy; }
        if t.sellId == 0 { p := Sell; }
    }
  }

  /** Rescanning forgets where the scan started, unless nothing marks the leg at all. */
  lemma {:induction false} RescanForgets(book: Book, ts: seq<Trade>, leg: Leg, start: Side)
    ensures LastSide(book, ts, leg, start) ==
            if LastSide(book, ts, leg) == Unset then start else LastSide(book, ts, leg)
  {
    if ts != [] {
      RescanForgets(book, ts[..|ts| - 1], leg, start);
    }
  }

  lemma {:induction false} UnmarkedMeansNone(book: Book, ts: seq<Trade>, leg: Leg, t: Trade)
    requires t in ts && LegOf(book, t) == leg && LastSide(book, ts, leg) == Unset
    ensures Mark(Unset, t) == Unset
  {
    var n := |ts| - 1;
    if t != ts[n] {
      assert ts == ts[..n] + [ts[n]];
      UnmarkedMeansNone(book, ts[..n], leg, t);
    }
  }

  /** The quadratic scan: for each trade the sides are marked again over the whole buffer. */
  method ValidateTradeMsgRecords(book: Book, ts: seq<Trade>, tokens: set<int>) returns (ok: bool)
    requires Known(book, ts) && forall y :: y in tokens ==> y in book
    ensures ok <==> Screened(book, ts, tokens)
  {
    if |tokens| < 3 {
      return false;
    }
    var status := ScanTokens(book, tokens);
    var f, c, p := Unset, Unset, Unset;
    for i := 0 to |ts|
      invariant f == if i == 0 then Unset else LastSide(book, ts, Fut)
      invariant c == if i == 0 then Unset else LastSide(book, ts, Call)
      invariant p == if i == 0 then Unset else LastSide(book, ts, Put)
      invariant i > 0 ==> !(SidesOpposed(book, ts) && status)
    {
      f, c, p := MarkOne(book, ts[i], f, c, p);
      forall leg | LegOf(book, ts[i]) == leg && LastSide(book, ts, leg) == Unset
        ensures Mark(Unset, ts[i]) == Unset
      {
        UnmarkedMeansNone(book, ts, leg, ts[i]);
      }
      RescanForgets(book, ts, Fut, f);
      RescanForgets(book, ts, Call, c);
      RescanForgets(book, ts, Put, p);
      f, c, p := MarkSides(book, ts, f, c, p);
      if Opposed(f, c, p) && status {
        return true;
      }
    }
    return false;
  }

  // ------------------------------------------------------------------ screening a group

  /** Strike of the last trade of a leg. */
  function LegStrike(book: Book, w: seq<Trade>, leg: Leg): int {
    if w == [] then 0
    else if LegOf(book, w[|w| - 1]) == leg then StrikeOf(book, w[|w| - 1])
    else LegStrike(book, w[..|w| - 1], leg)
  }

  /** All options are of one strike. */
  predicate OneStrike(book: Book, g: seq<Trade>, strike: int) {
    forall t :: t in g && LegOf(book, t) != Fut ==> StrikeOf(book, t) == strike
  }

  /** A trade whose leg appeared before must have the expiry of the trade just before it and, for an
      option, the strike of its own leg. The first trade of a leg is compared with nothing. */
  predicate Follows(book: Book, before: seq<Trade>, t: Trade) {
    Has(book, before, LegOf(book, t)) ==>
      && ExpiryOf(book, t) == LastExpiry(book, before)
      && (LegOf(book, t) != Fut ==> StrikeOf(book, t) == LegStrike(book, before, LegOf(book, t)))
  }

  predicate AllFollow(book: Book, g: seq<Trade>, n: nat)
    requires n <= |g|
  {
    forall i :: 0 <= i < n ==> Follows(book, g[..i], g[i])
  }

  predicate IsConRev(book: Book, g: seq<Trade>) {
    && AllOneSided(g)
    && AllFollow(book, g, |g|)
    && Balanced(book, g)
    && Has(book, g, Fut) && Has(book, g, Call) && Has(book, g, Put)
    && SidesOpposed(book, g)
  }

  /** What the test remembers of one leg; a future has no strike. */
  predicate Judged(book: Book, w: seq<Trade>, leg: Leg, qty: int, flag: bool, side: Side, strike: int) {
    && qty == Qty(book, w, leg) && flag == Has(book, w, leg) && side == LastSide(book, w, leg)
    && (leg != Fut ==> strike == LegStrike(book, w, leg))
  }

  /** A trade of the leg adds to what is remembered of it; another leaves it alone. */
  method JudgeLeg(book: Book, ghost before: seq<Trade>, t: Trade, leg: Leg, qty: int, flag: bool, side: Side, strike: int)
    returns (qty': int, flag': bool, side': Side, strike': int)
    requires t.token in book && Judged(book, before, leg, qty, flag, side, strike)
    ensures Judged(book, before + [t], leg, qty', flag', side', strike')
  {
    LegPush(book, before, t, leg);
    var info := book[t.token];
    qty', flag', side', strike' := qty, flag, side, strike;
    if info.leg == leg {
      flag', qty', strike' := true, qty + t.qty, info.strike;
      if t.buyId == 0 { side' := Buy; }
      if t.sellId == 0 { side' := Sell; }
    }
  }

  /** Two trades of one leg, by position: the later has the expiry of the trade just before it and, for options,
      the strike of the earlier. */
  predicate PairAgrees(book: Book, g: seq<Trade>, i: nat, j: nat)
    requires i < j < |g|
  {
    LegOf(book, g[i]) == LegOf(book, g[j]) ==>
      && ExpiryOf(book, g[j]) == ExpiryOf(book, g[j - 1])
      && (LegOf(book, g[i]) != Fut ==> StrikeOf(book, g[i]) == StrikeOf(book, g[j]))
  }

  predicate PairsAgree(book: Book, g: seq<Trade>, n: nat)
    requires n <= |g|
  {
    forall i, j :: 0 <= i < j < n ==> PairAgrees(book, g, i, j)
  }

  lemma ExpiryBefore(book: Book, g: seq<Trade>, j: nat)
    requires 0 < j < |g|
    ensures LastExpiry(book, g[..j]) == ExpiryOf(book, g[j - 1])
  {
  }

  lemma FollowingAgrees(book: Book, g: seq<Trade>, i: nat, j: nat)
    requires i < j < |g| && AllFollow(book, g, j) && Follows(book, g[..j], g[j])
    ensures PairAgrees(book, g, i, j)
  {
    var leg := LegOf(book, g[j]);
    if LegOf(book, g[i]) == leg {
      ExpiryBefore(book, g, j);
      assert g[..j][i] == g[i] && g[i] in g[..j];
      assert Has(book, g[..j], leg);
      if leg != Fut {
        FollowersShareStrike(book, g, j, leg);
      }
    }
  }

  lemma AgreeingFollows(book: Book, g: seq<Trade>, j: nat)
    requires j < |g| && AllFollow(book, g, j) && PairsAgree(book, g, j + 1)
    ensures Follows(book, g[..j], g[j])
  {
    var leg := LegOf(book, g[j]);
    if x :| x in g[..j] && LegOf(book, x) == leg {
      var i: nat :| i < j && g[..j][i] == x;
      assert PairAgrees(book, g, i, j) && g[i] == x;
      ExpiryBefore(book, g, j);
      if leg != Fut {
        FollowersShareStrike(book, g, j, leg);
      }
    }
  }

  lemma FollowingPairs(book: Book, g: seq<Trade>, n: nat)
    requires n <= |g| && AllFollow(book, g, n)
    ensures PairsAgree(book, g, n)
  {
    forall i, j | 0 <= i < j < n ensures PairAgrees(book, g, i, j) {
      assert Follows(book, g[..j], g[j]);
      FollowingAgrees(book, g, i, j);
    }
  }

  lemma {:induction false} PairsFollow(book: Book, g: seq<Trade>, n: nat)
    requires n <= |g| && PairsAgree(book, g, n)
    ensures AllFollow(book, g, n)
  {
    if n > 0 {
      PairsFollow(book, g, n - 1);
      AgreeingFollows(book, g, n - 1);
    }
  }

  lemma OneSidedAt(g: seq<Trade>)
    ensures AllOneSided(g) <==> forall i :: 0 <= i < |g| ==> OneSided(g[i])
  {
    if AllOneSided(g) {
      forall i | 0 <= i < |g| ensures OneSided(g[i]) {
        assert g[i] in g;
      }
    }
  }

  lemma FollowArePairs(book: Book, g: seq<Trade>)
    ensures AllFollow(book, g, |g|) <==> PairsAgree(book, g, |g|)
  {
    if AllFollow(book, g, |g|) {
      FollowingPairs(book, g, |g|);
    } else if PairsAgree(book, g, |g|) {
      PairsFollow(book, g, |g|);
    }
  }

  /** The test of a group, position by position. */
  lemma ConRevIsPairs(book: Book, g: seq<Trade>)
    ensures IsConRev(book, g) <==>
            && (forall i :: 0 <= i < |g| ==> OneSided(g[i]))
            && PairsAgree(book, g, |g|)
            && Qty(book, g, Fut) == Qty(book, g, Call) == Qty(book, g, Put)
            && Has(book, g, Fut) && Has(book, g, Call) && Has(book, g, Put)
            && SidesOpposed(book, g)
  {
    FollowArePairs(book, g);
    OneSidedAt(g);
  }

  /** The first test of each case: a trade whose leg appeared before must agree with what is remembered. */
  method AgreesWithLeg(book: Book, ghost before: seq<Trade>, t: Trade, fut: bool, call: bool, put: bool,
                       strike1: int, strike2: int, expiry: int) returns (agrees: bool)
    requires t.token in book && expiry == LastExpiry(book, before)
    requires fut == Has(book, before, Fut) && call == Has(book, before, Call) && put == Has(book, before, Put)
    requires strike1 == LegStrike(book, before, Call) && strike2 == LegStrike(book, before, Put)
    ensures agrees <==> Follows(book, before, t)
  {
    var info := book[t.token];
    match info.leg {
      case Fut =>
        return !(fut && expiry != info.expiry);
      case Call =>
        return !(call && (expiry != info.expiry || strike1 != info.strike));
      case Put =>
        return !(put && (expiry != info.expiry || strike2 != info.strike));
    }
  }

  method IsValidateConRev(book: Book, g: seq<Trade>) returns (ok: bool)
    requires Known(book, g)
    ensures ok <==> IsConRev(book, g)
  {
    var futQty, callQty, putQty := 0, 0, 0;
    var fut, call, put := false, false, false;
    var strike1, strike2, expiry := 0, 0, 0;
    var f, c, p := Unset, Unset, Unset;
    ghost var seen: seq<Trade> := [];
    for i := 0 to |g|
      invariant seen == g[..i] && AllOneSided(seen) && AllFollow(book, g, i) && expiry == LastExpiry(book, seen)
      invariant Judged(book, seen, Fut, futQty, fut, f, 0)
      invariant Judged(book, seen, Call, callQty, call, c, strike1)
      invariant Judged(book, seen, Put, putQty, put, p, strike2)
    {
      var t := g[i];
      FollowsNext(book, g, i, seen, t);
      OneSidedNext(g, i, seen, t);
      if (t.buyId == 0 && t.sellId == 0) || (t.buyId != 0 && t.sellId != 0) {
        return false;
      }
      assert t in g;
      var agrees := AgreesWithLeg(book, seen, t, fut, call, put, strike1, strike2, expiry);
      if !agrees {
        return false;
      }
      var none;
      futQty, fut, f, none := JudgeLeg(book, seen, t, Fut, futQty, fut, f, 0);
      callQty, call, c, strike1 := JudgeLeg(book, seen, t, Call, callQty, call, c, strike1);
      putQty, put, p, strike2 := JudgeLeg(book, seen, t, Put, putQty, put, p, strike2);
      expiry := book[t.token].expiry;
      seen := seen + [t];
    }
    assert seen == g;
    if putQty != callQty || callQty != futQty {
      return false;
    }
    if !put || !call || !fut {
      return false;
    }
    return Opposed(f, c, p);
  }

  lemma FollowsNext(book: Book, g: seq<Trade>, i: nat, before: seq<Trade>, t: Trade)
    requires i < |g| && AllFollow(book, g, i) && before == g[..i] && t == g[i]
    ensures AllFollow(book, g, i + 1) <==> Follows(book, before, t)
    ensures !Follows(book, before, t) ==> !IsConRev(book, g)
  {
    if Follows(book, before, t) {
      forall j | 0 <= j < i + 1 ensures Follows(book, g[..j], g[j]) {
        assert j < i || j == i;
      }
    }
  }

  lemma OneSidedNext(g: seq<Trade>, i: nat, before: seq<Trade>, t: Trade)
    requires i < |g| && before == g[..i] && t == g[i]
    ensures g[..i + 1] == before + [t]
    ensures AllOneSided(before + [t]) <==> AllOneSided(before) && OneSided(t)
    ensures !OneSided(t) ==> !AllOneSided(g)
  {
    assert g[i] in g;
    assert g[..i + 1] == before + [t];
    assert forall x :: x in before + [t] <==> x in before || x == t;
  }

  lemma LegPush(book: Book, w: seq<Trade>, t: Trade, leg: Leg)
    ensures Qty(book, w + [t], leg) == Qty(book, w, leg) + Amount(book, t, leg)
    ensures Has(book, w + [t], leg) <==> Has(book, w, leg) || leg == LegOf(book, t)
    ensures LegStrike(book, w + [t], leg) == if LegOf(book, t) == leg then StrikeOf(book, t) else LegStrike(book, w, leg)
    ensures LastSide(book, w + [t], leg) ==
            if LegOf(book, t) == leg then Mark(LastSide(book, w, leg), t) else LastSide(book, w, leg)
  {
    QtyPush(book, w, t, leg);
    assert (w + [t])[..|w|] == w;
    HasPush(book, w, t);
  }

  /** All trades of an option leg are of one strike, that of the last. */
  lemma {:induction false} FollowersShareStrike(book: Book, g: seq<Trade>, n: nat, leg: Leg)
    requires n <= |g| && AllFollow(book, g, n) && leg != Fut
    ensures forall t :: t in g[..n] && LegOf(book, t) == leg ==> StrikeOf(book, t) == LegStrike(book, g[..n], leg)
  {
    if n > 0 {
      FollowersShareStrike(book, g, n - 1, leg);
      assert g[..n] == g[..n - 1] + [g[n - 1]];
      assert Follows(book, g[..n - 1], g[n - 1]);
      LegPush(book, g[..n - 1], g[n - 1], leg);
    }
  }

  lemma HasPush(book: Book, w: seq<Trade>, t: Trade)
    ensures forall leg :: Has(book, w + [t], leg) <==> Has(book, w, leg) || leg == LegOf(book, t)
  {
    forall leg | Has(book, w, leg) ensures Has(book, w + [t], leg) {
      var x :| x in w && LegOf(book, x) == leg;
      assert x in w + [t];
    }
    assert t in w + [t];
  }
}
