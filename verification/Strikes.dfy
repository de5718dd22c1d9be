/** The two option strikes of an accepted group: what the group's test leaves unchecked, and when it matters. */
module Strikes {
  import opened Market
  import opened Window
  import opened Splitter
  import opened Screening
  import opened Groups

  /** A group that passes the test has a single option strike if and only if the two strikes that the test
      remembers, and never compares, are equal. */
  lemma OneStrikeWhenCompared(book: Book, g: seq<Trade>)
    requires IsConRev(book, g)
    ensures (exists strike :: OneStrike(book, g, strike)) <==> LegStrike(book, g, Call) == LegStrike(book, g, Put)
  {
    var call, put := LegStrike(book, g, Call), LegStrike(book, g, Put);
    assert g[..|g|] == g;
    FollowersShareStrike(book, g, |g|, Call);
    FollowersShareStrike(book, g, |g|, Put);
    if call == put {
      assert OneStrike(book, g, call);
    }
    if strike :| OneStrike(book, g, strike) {
      var c :| c in g && LegOf(book, c) == Call;
      var p :| p in g && LegOf(book, p) == Put;
      assert StrikeOf(book, c) == strike == StrikeOf(book, p);
    }
  }

  // ------------------------------------------------------------------ which contracts can be reported with two strikes

  /** A buffer of trades in just these contracts that passes its screening. */
  ghost predicate Arrives(book: Book, ts: seq<Trade>, tokens: set<int>) {
    && Positive(ts) && AllOneSided(ts) && DistinctSeqNos(ts)
    && Tokens(ts) == tokens && Screened(book, ts, tokens)
  }

  ghost predicate ReportedOf(book: Book, tokens: set<int>, ts: seq<Trade>, g: seq<Trade>) {
    Arrives(book, ts, tokens) && g in Accepted(book, SplitGroups(book, ts, tokens))
  }

  ghost predicate AlwaysOneStrike(book: Book, tokens: set<int>) {
    forall ts, g :: ReportedOf(book, tokens, ts, g) ==> exists strike :: OneStrike(book, g, strike)
  }

  predicate IsTriple(book: Book, f: int, c: int, p: int) {
    && Info(book, f).leg == Fut && Info(book, c).leg == Call && Info(book, p).leg == Put
    && Info(book, f).expiry == Info(book, c).expiry == Info(book, p).expiry
  }

  /** Every call and put that expire with a future are of one strike. */
  predicate StrikesMatch(book: Book, tokens: set<int>) {
    forall f, c, p :: f in tokens && c in tokens && p in tokens && IsTriple(book, f, c, p) ==>
                        Info(book, c).strike == Info(book, p).strike
  }

  predicate Dated(book: Book, tokens: set<int>) {
    forall token :: token in tokens ==> token in book && Info(book, token).expiry != 0
  }

  lemma DatedTrades(book: Book, ts: seq<Trade>)
    requires Dated(book, Tokens(ts))
    ensures Known(book, ts) && NoZeroExpiry(book, ts)
  {
    forall t | t in ts ensures t.token in book && ExpiryOf(book, t) != 0 {
      assert t.token in Tokens(ts);
    }
  }

  lemma OneTripleOneStrike(book: Book, tokens: set<int>, g: seq<Trade>)
    requires StrikesMatch(book, tokens) && OneContractPerLeg(book, g) && OneExpiry(book, g)
    requires forall t :: t in g ==> t.token in tokens
    ensures exists strike :: OneStrike(book, g, strike)
  {
    var f :| f in g && LegOf(book, f) == Fut;
    var c :| c in g && LegOf(book, c) == Call;
    var p :| p in g && LegOf(book, p) == Put;
    assert IsTriple(book, f.token, c.token, p.token);
    assert StrikeOf(book, c) == StrikeOf(book, p);
    forall t | t in g && LegOf(book, t) != Fut ensures StrikeOf(book, t) == StrikeOf(book, c) {
      assert t.token == if LegOf(book, t) == Call then c.token else p.token;
    }
    assert OneStrike(book, g, StrikeOf(book, c));
  }

  lemma ReportedTokens(book: Book, tokens: set<int>, ts: seq<Trade>, g: seq<Trade>)
    requires ReportedOf(book, tokens, ts, g)
    ensures forall t :: t in g ==> t.token in tokens
  {
    AcceptedIsPart(book, ts, tokens, g);
    PartOf(g, ts);
    forall t | t in g ensures t.token in tokens {
      assert t.token in Tokens(ts);
    }
  }

  /** A reported group is of a triple of its buffer's contracts. */
  lemma MatchingIsEnough(book: Book, tokens: set<int>, ts: seq<Trade>, g: seq<Trade>)
    requires Dated(book, tokens) && StrikesMatch(book, tokens) && ReportedOf(book, tokens, ts, g)
    ensures exists strike :: OneStrike(book, g, strike)
  {
    AcceptedGroupShape(book, ts, tokens, g);
    AcceptedAre(book, SplitGroups(book, ts, tokens));
    DatedTrades(book, ts);
    GroupsShareOneExpiry(book, ts, tokens, g);
    ReportedTokens(book, tokens, ts, g);
    OneTripleOneStrike(book, tokens, g);
  }

  // ------------------------------------------------------------------ a buffer that shows two strikes

  /** A trade of a contract: futures and puts bought, calls sold. */
  function Sided(book: Book, token: int): Trade {
    if Info(book, token).leg == Call then Trade(token, 0, 9, 0, token, 10, 5) else Trade(token, 0, 0, 9, token, 10, 5)
  }

  predicate AllSided(book: Book, ts: seq<Trade>) {
    forall t :: t in ts ==> t == Sided(book, t.token)
  }

  lemma {:induction false} SidesOfSided(book: Book, ts: seq<Trade>, leg: Leg)
    requires AllSided(book, ts)
    ensures LastSide(book, ts, leg) == if !Has(book, ts, leg) then Unset else if leg == Call then Sell else Buy
  {
    if ts != [] {
      var n := |ts| - 1;
      assert ts == ts[..n] + [ts[n]];
      assert ts[n] in ts;
      SidesOfSided(book, ts[..n], leg);
      HasPush(book, ts[..n], ts[n]);
    }
  }

  lemma SidedAreOpposed(book: Book, ts: seq<Trade>)
    requires AllSided(book, ts) && Has(book, ts, Fut) && Has(book, ts, Call) && Has(book, ts, Put)
    ensures SidesOpposed(book, ts) && AllOneSided(ts) && Positive(ts)
  {
    SidesOfSided(book, ts, Fut);
    SidesOfSided(book, ts, Call);
    SidesOfSided(book, ts, Put);
  }

  /** One trade in each contract. */
  lemma {:induction false} OneTradeEach(book: Book, tokens: set<int>) returns (ts: seq<Trade>)
    ensures Tokens(ts) == tokens && AllSided(book, ts) && DistinctSeqNos(ts)
    decreases tokens
  {
    ts := [];
    Least.SomeMember(tokens);
    if token :| token in tokens {
      var before := OneTradeEach(book, tokens - {token});
      AddTrade(book, before, token);
      ts := before + [Sided(book, token)];
      assert tokens == (tokens - {token}) + {token};
    }
  }

  lemma AddTrade(book: Book, before: seq<Trade>, token: int)
    requires AllSided(book, before) && DistinctSeqNos(before) && token !in Tokens(before)
    ensures var ts := before + [Sided(book, token)];
            AllSided(book, ts) && DistinctSeqNos(ts) && Tokens(ts) == Tokens(before) + {token}
  {
    forall t | t in before ensures t.seqNo != token {
      assert t.token in Tokens(before);
    }
  }

  /** The window holds trades of one expiry with a future first, and none of the new trade's leg. */
  predicate CanEnter(book: Book, w: seq<Trade>, t: Trade) {
    && OneSided(t) && (w == [] || (LastExpiry(book, w) == ExpiryOf(book, t) && LegOf(book, w[0]) == Fut))
    && forall x :: x in w ==> LegOf(book, x) != LegOf(book, t)
  }

  lemma NothingPruned(book: Book, w: seq<Trade>, t: Trade)
    requires CanEnter(book, w, t)
    ensures Prune(book, w, t) == w
  {
  }

  lemma JustAdmitted(book: Book, w: seq<Trade>, t: Trade)
    requires CanEnter(book, w, t)
    ensures Admit(book, w, t) == Step(w + [t], [])
  {
  }

  /** Then nothing is deleted, not even for another strike, and the trade just enters. */
  lemma Enters(book: Book, w: seq<Trade>, t: Trade)
    requires CanEnter(book, w, t)
    ensures SplitStep(book, w, t) == Settle(book, w + [t])
  {
    NothingPruned(book, w, t);
    JustAdmitted(book, w, t);
    var settled := Settle(book, w + [t]);
    assert [] + settled.groups == settled.groups;
  }

  lemma RunPush(book: Book, ts: seq<Trade>, t: Trade, before: Step, step: Step)
    requires before == SplitRun(book, ts) && step == SplitStep(book, before.window, t)
    ensures SplitRun(book, ts + [t]) == Step(step.window, before.groups + step.groups)
  {
    assert (ts + [t])[..|ts|] == ts;
  }

  /** The next trade of a buffer that has been split so far into nothing but an open window. */
  lemma EntersNext(book: Book, w: seq<Trade>, t: Trade, w': seq<Trade>, step: Step)
    requires SplitRun(book, w) == Step(w, []) && CanEnter(book, w, t) && w' == w + [t] && step == Settle(book, w')
    ensures SplitRun(book, w') == step
  {
    Enters(book, w, t);
    RunPush(book, w, t, Step(w, []), step);
    assert [] + step.groups == step.groups;
  }

  /** A future, a call and a put of one expiry, traded alike. */
  predicate IsTrio(book: Book, a: Trade, b: Trade, c: Trade) {
    && LegOf(book, a) == Fut && LegOf(book, b) == Call && LegOf(book, c) == Put
    && ExpiryOf(book, a) == ExpiryOf(book, b) == ExpiryOf(book, c)
    && a.qty == b.qty == c.qty > 0 && OneSided(a) && OneSided(b) && OneSided(c)
  }

  lemma QtyOfTrio(book: Book, a: Trade, b: Trade, c: Trade, leg: Leg)
    ensures Qty(book, [a, b, c], leg) == Amount(book, a, leg) + Amount(book, b, leg) + Amount(book, c, leg)
  {
    assert [] + [a] == [a] && [a] + [b] == [a, b] && [a, b] + [c] == [a, b, c];
    QtyPush(book, [], a, leg);
    QtyPush(book, [a], b, leg);
    QtyPush(book, [a, b], c, leg);
  }

  lemma TokensOfTrio(a: Trade, b: Trade, c: Trade)
    ensures Tokens([a]) == {a.token} && Tokens([a, b]) == {a.token, b.token}
    ensures Tokens([a, b, c]) == {a.token, b.token, c.token}
  {
    assert [a, b, c][0] == a && [a, b, c][1] == b && [a, b, c][2] == c;
    assert [a, b][0] == a && [a, b][1] == b && [a][0] == a;
  }

  lemma TrioBalances(book: Book, a: Trade, b: Trade, c: Trade, w: seq<Trade>)
    requires IsTrio(book, a, b, c) && w == [a, b, c]
    ensures Balanced(book, w) && Settle(book, w) == Step([], [w])
  {
    QtyOfTrio(book, a, b, c, Fut);
    QtyOfTrio(book, a, b, c, Call);
    QtyOfTrio(book, a, b, c, Put);
    TokensOfTrio(a, b, c);
  }

  /** A trade that enters and leaves fewer than three tokens leaves the window open. */
  lemma StaysOpen(book: Book, w: seq<Trade>, t: Trade, w': seq<Trade>)
    requires SplitRun(book, w) == Step(w, []) && CanEnter(book, w, t) && w' == w + [t] && |Tokens(w')| < 3
    ensures SplitRun(book, w') == Step(w', [])
  {
    assert Settle(book, w') == Step(w', []);
    EntersNext(book, w, t, w', Step(w', []));
  }

  lemma FutureEnters(book: Book, a: Trade, w: seq<Trade>)
    requires w == [a] && OneSided(a)
    ensures SplitRun(book, w) == Step(w, [])
  {
    TokensOfTrio(a, a, a);
    assert w == [] + [a];
    StaysOpen(book, [], a, w);
  }

  lemma PairCanEnter(book: Book, a: Trade, b: Trade, w: seq<Trade>)
    requires w == [a] && LegOf(book, a) == Fut != LegOf(book, b) && ExpiryOf(book, a) == ExpiryOf(book, b) && OneSided(b)
    ensures CanEnter(book, w, b) && w + [b] == [a, b] && |Tokens(w + [b])| < 3
  {
    TokensOfTrio(a, b, b);
  }

  lemma TrioCanEnter(book: Book, a: Trade, b: Trade, c: Trade, pair: seq<Trade>, w: seq<Trade>)
    requires IsTrio(book, a, b, c) && pair == [a, b] && w == [a, b, c]
    ensures CanEnter(book, pair, c) && w == pair + [c]
  {
  }

  lemma PairEnters(book: Book, a: Trade, b: Trade, c: Trade, w: seq<Trade>)
    requires IsTrio(book, a, b, c) && w == [a, b]
    ensures SplitRun(book, w) == Step(w, [])
  {
    var one := [a];
    FutureEnters(book, a, one);
    PairCanEnter(book, a, b, one);
    StaysOpen(book, one, b, w);
  }

  /** Whatever their strikes, the three balance and are put out as a group. */
  lemma TrioIsPutOut(book: Book, a: Trade, b: Trade, c: Trade, w: seq<Trade>)
    requires IsTrio(book, a, b, c) && w == [a, b, c]
    ensures SplitRun(book, w) == Step([], [w])
  {
    var pair := [a, b];
    PairEnters(book, a, b, c, pair);
    TrioBalances(book, a, b, c, w);
    TrioCanEnter(book, a, b, c, pair, w);
    EntersNext(book, pair, c, w, Step([], [w]));
  }

  /** Groups once put out stay put out. */
  lemma {:induction false} GroupsStay(book: Book, a: seq<Trade>, c: seq<Trade>, g: seq<Trade>)
    requires g in SplitRun(book, a).groups
    ensures g in SplitRun(book, a + c).groups
  {
    if c == [] {
      assert a + c == a;
    } else {
      var n := |c| - 1;
      assert (a + c)[..|a + c| - 1] == a + c[..n];
      GroupsStay(book, a, c[..n], g);
    }
  }

  lemma TrioPasses(book: Book, a: Trade, b: Trade, c: Trade, g: seq<Trade>)
    requires IsTrio(book, a, b, c) && g == [a, b, c] && AllSided(book, g)
    ensures IsConRev(book, g)
  {
    assert g[0] in g && g[1] in g && g[2] in g;
    TrioBalances(book, a, b, c, g);
    SidedAreOpposed(book, g);
    NothingToFollow(book, g);
  }

  /** The first trade of a leg is compared with nothing. */
  lemma NothingToFollow(book: Book, g: seq<Trade>)
    requires forall i, j :: 0 <= i < j < |g| ==> LegOf(book, g[i]) != LegOf(book, g[j])
    ensures AllFollow(book, g, |g|)
  {
    forall i | 0 <= i < |g| ensures Follows(book, g[..i], g[i]) {
      assert forall t :: t in g[..i] ==> exists j :: 0 <= j < i && t == g[j];
    }
  }

  lemma TrioIsAccepted(book: Book, g: seq<Trade>, rest: seq<Trade>, tokens: set<int>)
    requires |g| == 3 && IsTrio(book, g[0], g[1], g[2]) && AllSided(book, g) && |tokens| != 3
    ensures g in Accepted(book, SplitGroups(book, g + rest, tokens))
  {
    assert g == [g[0], g[1], g[2]];
    TrioPasses(book, g[0], g[1], g[2], g);
    TrioIsPutOut(book, g[0], g[1], g[2], g);
    GroupsStay(book, g, rest, g);
    AcceptedAre(book, SplitGroups(book, g + rest, tokens));
  }

  lemma {:induction false} SidedJoin(book: Book, g: seq<Trade>, rest: seq<Trade>)
    requires AllSided(book, g) && AllSided(book, rest) && DistinctSeqNos(g) && DistinctSeqNos(rest)
    requires Tokens(g) !! Tokens(rest)
    ensures AllSided(book, g + rest) && DistinctSeqNos(g + rest) && Tokens(g + rest) == Tokens(g) + Tokens(rest)
  {
    var ts := g + rest;
    assert forall t :: t in ts <==> t in g || t in rest;
    forall i, j | 0 <= i < j < |ts| ensures ts[i].seqNo != ts[j].seqNo {
      if i < |g| <= j {
        assert ts[i] in g && ts[j] in rest;
        assert ts[i].token in Tokens(g) && ts[j].token in Tokens(rest);
      }
    }
  }

  lemma MoreThanThree(book: Book, tokens: set<int>, f: int, c: int, p: int)
    requires SomeMatch(book, tokens) && f in tokens && c in tokens && p in tokens && IsTriple(book, f, c, p)
    requires Info(book, c).strike != Info(book, p).strike
    ensures |tokens| > 3
  {
    SubsetSize({f, c, p}, tokens);
    assert |{f, c, p}| == 3;
    if |tokens| == 3 {
      var f', c', p' := ThreeTokensMatch(book, tokens);
    }
  }

  /** Any call and put of different strikes that expire with a future are reported together by some buffer of the
      contracts at hand: those three first, then the others. */
  lemma TwoStrikeBuffer(book: Book, tokens: set<int>, f: int, c: int, p: int) returns (ts: seq<Trade>, g: seq<Trade>)
    requires SomeMatch(book, tokens) && f in tokens && c in tokens && p in tokens && IsTriple(book, f, c, p)
    requires Info(book, c).strike != Info(book, p).strike
    ensures ReportedOf(book, tokens, ts, g) && LegStrike(book, g, Call) != LegStrike(book, g, Put)
    ensures IsConRev(book, g)
  {
    var x, y, z := Sided(book, f), Sided(book, c), Sided(book, p);
    g := [x, y, z];
    TrioIsSided(book, f, c, p, g);
    var rest := OneTradeEach(book, tokens - {f, c, p});
    ts := g + rest;
    SidedJoin(book, g, rest);
    assert Tokens(ts) == tokens;
    assert ts[0] in ts && ts[1] in ts && ts[2] in ts;
    SidedAreOpposed(book, ts);
    MoreThanThree(book, tokens, f, c, p);
    TrioIsAccepted(book, g, rest, tokens);
    TrioPasses(book, x, y, z, g);
    StrikesOfTrio(book, x, y, z);
  }

  lemma TrioIsSided(book: Book, f: int, c: int, p: int, g: seq<Trade>)
    requires IsTriple(book, f, c, p) && g == [Sided(book, f), Sided(book, c), Sided(book, p)]
    ensures IsTrio(book, g[0], g[1], g[2]) && AllSided(book, g) && DistinctSeqNos(g) && Tokens(g) == {f, c, p}
  {
    TokensOfTrio(g[0], g[1], g[2]);
  }

  lemma StrikesOfTrio(book: Book, a: Trade, b: Trade, c: Trade)
    requires LegOf(book, a) == Fut && LegOf(book, b) == Call && LegOf(book, c) == Put
    ensures LegStrike(book, [a, b, c], Call) == StrikeOf(book, b)
    ensures LegStrike(book, [a, b, c], Put) == StrikeOf(book, c)
  {
    assert [a, b, c][..2] == [a, b];
  }

  /** Exactly when every group ever reported of some contracts is of one strike: when they cannot pass the
      screening at all, or every call and put that expire with a future have one strike. */
  lemma OneStrikeByContracts(book: Book, tokens: set<int>)
    requires Dated(book, tokens)
    ensures AlwaysOneStrike(book, tokens) <==> (SomeMatch(book, tokens) ==> StrikesMatch(book, tokens))
  {
    if SomeMatch(book, tokens) && !StrikesMatch(book, tokens) {
      var f, c, p :| f in tokens && c in tokens && p in tokens && IsTriple(book, f, c, p)
                     && Info(book, c).strike != Info(book, p).strike;
      var ts, g := TwoStrikeBuffer(book, tokens, f, c, p);
      OneStrikeWhenCompared(book, g);
      assert ReportedOf(book, tokens, ts, g);
    }
    if SomeMatch(book, tokens) ==> StrikesMatch(book, tokens) {
      forall ts, g | ReportedOf(book, tokens, ts, g) ensures exists strike :: OneStrike(book, g, strike) {
        MatchingIsEnough(book, tokens, ts, g);
      }
    }
  }

  lemma ThreeMatch(book: Book, tokens: set<int>)
    requires |tokens| == 3 && SomeMatch(book, tokens)
    ensures StrikesMatch(book, tokens)
  {
    var f, c, p := ThreeTokensMatch(book, tokens);
    assert forall token :: token in tokens ==> token == f || token == c || token == p;
  }

  /** So three contracts that pass are always reported with one strike. */
  lemma ThreeContractsMatch(book: Book, tokens: set<int>)
    requires Dated(book, tokens) && |tokens| == 3
    ensures AlwaysOneStrike(book, tokens)
  {
    OneStrikeByContracts(book, tokens);
    if SomeMatch(book, tokens) {
      ThreeMatch(book, tokens);
    }
  }

  // ------------------------------------------------------------------ an example

  const BOOK: Book := map[1 := Contract(Fut, 0, 7, 1, ""), 2 := Contract(Call, 100, 7, 1, ""),
                          3 := Contract(Put, 100, 7, 1, ""), 4 := Contract(Put, 200, 7, 1, "")]

  lemma ExampleMatches(tokens: set<int>)
    requires tokens == {1, 2, 3, 4}
    ensures SomeMatch(BOOK, tokens) && Dated(BOOK, tokens) && IsTriple(BOOK, 1, 2, 4)
  {
    assert IsTop(BOOK, tokens, Fut, 3, 1) && IsTop(BOOK, tokens, Call, 3, 2) && IsTop(BOOK, tokens, Put, 3, 3);
    assert MatchAt(BOOK, tokens, 3);
  }

  /** A buffer in four contracts that passes its screening, with an accepted group of two strikes. */
  lemma StrikesMayDiffer() returns (ts: seq<Trade>, g: seq<Trade>)
    ensures Known(BOOK, ts) && Positive(ts) && AllOneSided(ts) && NoZeroExpiry(BOOK, ts) && DistinctSeqNos(ts)
    ensures Screened(BOOK, ts, Tokens(ts)) && g in Accepted(BOOK, SplitGroups(BOOK, ts, Tokens(ts)))
    ensures LegStrike(BOOK, g, Call) != LegStrike(BOOK, g, Put)
  {
    ExampleMatches({1, 2, 3, 4});
    ts, g := TwoStrikeBuffer(BOOK, {1, 2, 3, 4}, 1, 2, 4);
    DatedTrades(BOOK, ts);
  }
}
