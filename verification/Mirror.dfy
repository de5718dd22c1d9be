/** Exchanging buyer and seller in every trade of a stream exchanges conversions and reversals. */
module Mirror {
  import opened Market
  import opened Window
  import opened Erase
  import opened Regroup
  import opened Splitter
  import opened Screening
  import opened Groups
  import opened Pricing
  import opened Engine

  function Swap(t: Trade): Trade {
    t.(buyId := t.sellId, sellId := t.buyId)
  }

  function SwapAll(w: seq<Trade>): (r: seq<Trade>)
    ensures |r| == |w| && forall i :: 0 <= i < |w| ==> r[i] == Swap(w[i])
  {
    seq(|w|, i requires 0 <= i < |w| => Swap(w[i]))
  }

  function SwapGroups(gs: seq<seq<Trade>>): (r: seq<seq<Trade>>)
    ensures |r| == |gs| && forall i :: 0 <= i < |gs| ==> r[i] == SwapAll(gs[i])
  {
    seq(|gs|, i requires 0 <= i < |gs| => SwapAll(gs[i]))
  }

  function SwapMessages(ms: seq<Message>): (r: seq<Message>)
    ensures |r| == |ms| && forall i :: 0 <= i < |ms| ==> r[i] == ms[i].(body := Swap(ms[i].body))
  {
    seq(|ms|, i requires 0 <= i < |ms| => ms[i].(body := Swap(ms[i].body)))
  }

  function SwapRecord(r: Record): Record {
    r.(strategy := if r.strategy == 1 then 2 else if r.strategy == 2 then 1 else r.strategy, spread := -r.spread)
  }

  function SwapRecords(rs: seq<Record>): (r: seq<Record>)
    ensures |r| == |rs| && forall i :: 0 <= i < |rs| ==> r[i] == SwapRecord(rs[i])
  {
    seq(|rs|, i requires 0 <= i < |rs| => SwapRecord(rs[i]))
  }

  function Flip(s: Side): Side {
    match s
    case Unset => Unset
    case Buy => Sell
    case Sell => Buy
  }

  // ------------------------------------------------------------------ the window's measures do not see the sides

  lemma SwapConcat(a: seq<Trade>, c: seq<Trade>)
    ensures SwapAll(a + c) == SwapAll(a) + SwapAll(c)
  {
  }

  lemma SwapSlice(w: seq<Trade>, i: nat, j: nat)
    requires i <= j <= |w|
    ensures SwapAll(w)[i..j] == SwapAll(w[i..j])
    ensures SwapAll(w)[i..] == SwapAll(w[i..])
    ensures SwapAll(w)[..j] == SwapAll(w[..j])
  {
  }

  lemma {:induction false} QtySwap(book: Book, w: seq<Trade>, leg: Leg)
    ensures Qty(book, SwapAll(w), leg) == Qty(book, w, leg)
  {
    if w != [] {
      SwapSlice(w, 0, |w| - 1);
      QtySwap(book, w[..|w| - 1], leg);
    }
  }

  lemma {:induction false} TotalSwap(w: seq<Trade>)
    ensures Total(SwapAll(w)) == Total(w)
  {
    if w != [] {
      SwapSlice(w, 0, |w| - 1);
      TotalSwap(w[..|w| - 1]);
    }
  }

  lemma MembersSwap(book: Book, w: seq<Trade>)
    ensures Tokens(SwapAll(w)) == Tokens(w)
    ensures forall leg :: Has(book, SwapAll(w), leg) <==> Has(book, w, leg)
    ensures AllOneSided(SwapAll(w)) <==> AllOneSided(w)
  {
    var r := SwapAll(w);
    forall t | t in w ensures Swap(t) in r {
      var i :| 0 <= i < |w| && w[i] == t;
      assert r[i] == Swap(t);
    }
    forall t | t in r ensures Swap(t) in w {
      var i :| 0 <= i < |r| && r[i] == t;
      assert Swap(Swap(w[i])) == w[i];
    }
    forall token | token in Tokens(w) ensures token in Tokens(r) {
      var t :| t in w && t.token == token;
      assert Swap(t) in r;
    }
    forall token | token in Tokens(r) ensures token in Tokens(w) {
      var t :| t in r && t.token == token;
      assert Swap(t) in w;
    }
    forall leg | Has(book, w, leg) ensures Has(book, r, leg) {
      var t :| t in w && LegOf(book, t) == leg;
      assert Swap(t) in r;
    }
    forall leg | Has(book, r, leg) ensures Has(book, w, leg) {
      var t :| t in r && LegOf(book, t) == leg;
      assert Swap(t) in w;
    }
    if AllOneSided(w) {
      forall t | t in r ensures OneSided(t) {
        assert OneSided(Swap(t));
      }
    }
    if AllOneSided(r) {
      forall t | t in w ensures OneSided(t) {
        assert OneSided(Swap(t));
      }
    }
  }

  lemma {:induction false} LastStrikeSwap(book: Book, w: seq<Trade>)
    ensures LastStrike(book, SwapAll(w)) == LastStrike(book, w)
  {
    if w != [] {
      SwapSlice(w, 0, |w| - 1);
      LastStrikeSwap(book, w[..|w| - 1]);
    }
  }

  lemma BalancedSwap(book: Book, w: seq<Trade>)
    ensures Balanced(book, SwapAll(w)) <==> Balanced(book, w)
  {
    QtySwap(book, w, Fut);
    QtySwap(book, w, Call);
    QtySwap(book, w, Put);
  }

  // ------------------------------------------------------------------ nor do the splitting steps

  lemma {:induction false} OfExpirySwap(book: Book, w: seq<Trade>, expiry: int)
    ensures OfExpiry(book, SwapAll(w), expiry) == SwapAll(OfExpiry(book, w, expiry))
  {
    if w != [] {
      SwapSlice(w, 1, |w|);
      OfExpirySwap(book, w[1..], expiry);
      SwapConcat([w[0]], OfExpiry(book, w[1..], expiry));
    }
  }

  lemma {:induction false} OfStrikeSwap(book: Book, w: seq<Trade>, strike: int)
    ensures OfStrikeBeforeFuture(book, SwapAll(w), strike) == SwapAll(OfStrikeBeforeFuture(book, w, strike))
  {
    if w != [] && LegOf(book, w[0]) != Fut {
      SwapSlice(w, 1, |w|);
      OfStrikeSwap(book, w[1..], strike);
      SwapConcat([w[0]], OfStrikeBeforeFuture(book, w[1..], strike));
    }
  }

  lemma {:induction false} DropRunSwap(book: Book, w: seq<Trade>, leg: Leg)
    ensures DropRun(book, SwapAll(w), leg) == SwapAll(DropRun(book, w, leg))
  {
    if w != [] {
      SwapSlice(w, 1, |w|);
      DropRunSwap(book, w[1..], leg);
    }
  }

  lemma {:induction false} FirstOutsideSwap(book: Book, w: seq<Trade>, legs: set<Leg>)
    ensures FirstOutside(book, SwapAll(w), legs) == FirstOutside(book, w, legs)
  {
    if w != [] {
      SwapSlice(w, 1, |w|);
      FirstOutsideSwap(book, w[1..], legs);
    }
  }

  lemma IndicesSwap(book: Book, w: seq<Trade>)
    ensures StartIndex(book, SwapAll(w)) == StartIndex(book, w)
    ensures EndIndex(book, SwapAll(w)) == EndIndex(book, w)
    ensures MiddleQty(book, SwapAll(w)) == MiddleQty(book, w)
  {
    if w != [] {
      FirstOutsideSwap(book, w, {LegOf(book, w[0])});
      var s := StartIndex(book, w);
      if s < |w| {
        SwapSlice(w, s, |w|);
        FirstOutsideSwap(book, w[s..], {LegOf(book, w[0]), LegOf(book, w[s])});
      }
      var e := EndIndex(book, w);
      SwapSlice(w, 0, e);
      if e > 0 {
        QtySwap(book, w[..e], LegOf(book, w[e - 1]));
      }
    }
  }

  lemma {:induction false} ReverseSwap(s: seq<Trade>)
    ensures Reverse(SwapAll(s)) == SwapAll(Reverse(s))
  {
    if s != [] {
      SwapSlice(s, 0, |s| - 1);
      ReverseSwap(s[..|s| - 1]);
      SwapConcat([s[|s| - 1]], Reverse(s[..|s| - 1]));
    }
  }

  lemma {:induction false} TakeCountSwap(s: seq<Trade>, taken: int, target: int)
    ensures TakeCount(SwapAll(s), taken, target) == TakeCount(s, taken, target)
  {
    if s != [] {
      SwapSlice(s, 1, |s|);
      TakeCountSwap(s[1..], taken + s[0].qty, target);
    }
  }

  lemma TakeUntilSwap(s: seq<Trade>, taken: int, target: int)
    ensures TakeUntil(SwapAll(s), taken, target) == SwapAll(TakeUntil(s, taken, target))
  {
    TakeCountSwap(s, taken, target);
    SwapSlice(s, 0, TakeCount(s, taken, target));
  }

  lemma OutersSwap(book: Book, w: seq<Trade>)
    ensures OuterFirst(book, SwapAll(w)) == SwapAll(OuterFirst(book, w))
    ensures OuterLast(book, SwapAll(w)) == SwapAll(OuterLast(book, w))
  {
    IndicesSwap(book, w);
    var s, e := StartIndex(book, w), EndIndex(book, w);
    SwapSlice(w, e, |w|);
    SwapSlice(w, 0, s);
    ReverseSwap(w[..s]);
    TakeUntilSwap(Reverse(w[..s]), 0, MiddleQty(book, w));
    TakeUntilSwap(w[e..], 0, MiddleQty(book, w));
  }

  lemma RegroupedSwap(book: Book, w: seq<Trade>)
    ensures Regrouped(book, SwapAll(w)) ==
            if Regrouped(book, w).Some? then Some(SwapAll(Regrouped(book, w).value)) else None
  {
    IndicesSwap(book, w);
    OutersSwap(book, w);
    var s, e := StartIndex(book, w), EndIndex(book, w);
    SwapSlice(w, s, e);
    TotalSwap(OuterFirst(book, w));
    TotalSwap(OuterLast(book, w));
    SwapConcat(OuterFirst(book, w), w[s..e]);
    SwapConcat(OuterFirst(book, w) + w[s..e], OuterLast(book, w));
  }

  function SwapStep(s: Step): Step {
    Step(SwapAll(s.window), SwapGroups(s.groups))
  }

  lemma PruneSwap(book: Book, w: seq<Trade>, t: Trade)
    ensures Prune(book, SwapAll(w), Swap(t)) == SwapAll(Prune(book, w, t))
  {
    LastStrikeSwap(book, w);
    OfExpirySwap(book, w, ExpiryOf(book, t));
    OfStrikeSwap(book, w, StrikeOf(book, t));
  }

  lemma AdmitSwap(book: Book, w: seq<Trade>, t: Trade)
    ensures Admit(book, SwapAll(w), Swap(t)) == SwapStep(Admit(book, w, t))
  {
    assert SwapAll([t]) == [Swap(t)];
    SwapConcat(w, [t]);
    MembersSwap(book, w);
    MembersSwap(book, w + [t]);
    BalancedSwap(book, w);
    DropRunSwap(book, w + [t], LegOf(book, t));
  }

  lemma GuardsSwap(book: Book, w: seq<Trade>)
    ensures Tokens(SwapAll(w)) == Tokens(w)
    ensures Balanced(book, SwapAll(w)) <==> Balanced(book, w)
    ensures AllLegs(book, SwapAll(w)) <==> AllLegs(book, w)
  {
    MembersSwap(book, w);
    BalancedSwap(book, w);
  }

  lemma SettleSwap(book: Book, w: seq<Trade>)
    ensures Settle(book, SwapAll(w)) == SwapStep(Settle(book, w))
  {
    GuardsSwap(book, w);
    RegroupedSwap(book, w);
    if Settle(book, w).groups == [] {
      assert SwapGroups([]) == [];
    } else {
      PutOutSwap(if Balanced(book, w) then w else Regrouped(book, w).value);
    }
  }

  lemma PutOutSwap(g: seq<Trade>)
    ensures SwapStep(Step([], [g])) == Step([], [SwapAll(g)])
  {
    assert SwapAll([]) == [];
  }

  lemma StepSwap(book: Book, w: seq<Trade>, t: Trade)
    ensures SplitStep(book, SwapAll(w), Swap(t)) == SwapStep(SplitStep(book, w, t))
  {
    if OneSided(t) {
      var a := Admit(book, Prune(book, w, t), t);
      PruneSwap(book, w, t);
      AdmitSwap(book, Prune(book, w, t), t);
      SettleSwap(book, a.window);
      SwapGroupsConcat(a.groups, Settle(book, a.window).groups);
    } else {
      assert SwapAll([]) == [] && SwapGroups([]) == [];
    }
  }

  lemma SwapGroupsConcat(a: seq<seq<Trade>>, c: seq<seq<Trade>>)
    ensures SwapGroups(a + c) == SwapGroups(a) + SwapGroups(c)
  {
  }

  lemma {:induction false} RunSwap(book: Book, ts: seq<Trade>)
    ensures SplitRun(book, SwapAll(ts)) == SwapStep(SplitRun(book, ts))
  {
    if ts != [] {
      var n := |ts| - 1;
      SwapSlice(ts, 0, n);
      RunSwap(book, ts[..n]);
      var before := SplitRun(book, ts[..n]);
      StepSwap(book, before.window, ts[n]);
      SwapGroupsConcat(before.groups, SplitStep(book, before.window, ts[n]).groups);
    }
  }

  lemma GroupsSwap(book: Book, ts: seq<Trade>, tokens: set<int>)
    ensures SplitGroups(book, SwapAll(ts), tokens) == SwapGroups(SplitGroups(book, ts, tokens))
  {
    RunSwap(book, ts);
  }

  // ------------------------------------------------------------------ the sides turn over

  lemma {:induction false} SideSwap(book: Book, w: seq<Trade>, leg: Leg)
    requires AllOneSided(w)
    ensures LastSide(book, SwapAll(w), leg) == Flip(LastSide(book, w, leg))
  {
    if w != [] {
      var n := |w| - 1;
      SwapSlice(w, 0, n);
      assert w[n] in w;
      SideSwap(book, w[..n], leg);
    }
  }

  lemma OpposedSwap(book: Book, w: seq<Trade>)
    requires AllOneSided(w)
    ensures SidesOpposed(book, SwapAll(w)) <==> SidesOpposed(book, w)
  {
    SideSwap(book, w, Fut);
    SideSwap(book, w, Call);
    SideSwap(book, w, Put);
  }

  lemma {:induction false} LegStrikeSwap(book: Book, w: seq<Trade>, leg: Leg)
    ensures LegStrike(book, SwapAll(w), leg) == LegStrike(book, w, leg)
  {
    if w != [] {
      SwapSlice(w, 0, |w| - 1);
      LegStrikeSwap(book, w[..|w| - 1], leg);
    }
  }

  lemma FollowsSwap(book: Book, w: seq<Trade>, t: Trade)
    ensures Follows(book, SwapAll(w), Swap(t)) <==> Follows(book, w, t)
  {
    MembersSwap(book, w);
    LegStrikeSwap(book, w, LegOf(book, t));
  }

  lemma FollowSwap(book: Book, g: seq<Trade>)
    ensures AllFollow(book, SwapAll(g), |g|) <==> AllFollow(book, g, |g|)
  {
    var r := SwapAll(g);
    forall i | 0 <= i < |g| ensures Follows(book, r[..i], r[i]) <==> Follows(book, g[..i], g[i]) {
      SwapSlice(g, 0, i);
      FollowsSwap(book, g[..i], g[i]);
    }
  }

  lemma ConRevSwap(book: Book, g: seq<Trade>)
    ensures IsConRev(book, SwapAll(g)) <==> IsConRev(book, g)
  {
    MembersSwap(book, g);
    FollowSwap(book, g);
    BalancedSwap(book, g);
    if AllOneSided(g) {
      OpposedSwap(book, g);
    }
  }

  lemma {:induction false} AcceptedSwap(book: Book, gs: seq<seq<Trade>>)
    ensures Accepted(book, SwapGroups(gs)) == SwapGroups(Accepted(book, gs))
  {
    if gs != [] {
      var n := |gs| - 1;
      assert SwapGroups(gs)[..n] == SwapGroups(gs[..n]);
      AcceptedSwap(book, gs[..n]);
      ConRevSwap(book, gs[n]);
      SwapGroupsConcat(Accepted(book, gs[..n]), [gs[n]]);
      assert SwapGroups([gs[n]]) == [SwapAll(gs[n])];
    }
  }

  // ------------------------------------------------------------------ and so do the records

  lemma {:induction false} ValueSwap(book: Book, g: seq<Trade>, leg: Leg)
    ensures Value(book, SwapAll(g), leg) == Value(book, g, leg)
  {
    if g != [] {
      SwapSlice(g, 0, |g| - 1);
      ValueSwap(book, g[..|g| - 1], leg);
    }
  }

  lemma {:induction false} FutExpirySwap(book: Book, g: seq<Trade>)
    ensures FutExpiry(book, SwapAll(g)) == FutExpiry(book, g)
  {
    if g != [] {
      SwapSlice(g, 0, |g| - 1);
      FutExpirySwap(book, g[..|g| - 1]);
    }
  }

  lemma AverageSwap(book: Book, g: seq<Trade>, leg: Leg)
    ensures Qty(book, SwapAll(g), leg) == Qty(book, g, leg)
    ensures Qty(book, g, leg) != 0 ==> Average(book, SwapAll(g), leg) == Average(book, g, leg)
  {
    QtySwap(book, g, leg);
    ValueSwap(book, g, leg);
  }

  lemma SpreadSwap(book: Book, g: seq<Trade>)
    requires IsConRev(book, g) && Priceable(book, g)
    ensures Priceable(book, SwapAll(g)) && Spread(book, SwapAll(g)) == -Spread(book, g)
  {
    AverageSwap(book, g, Fut);
    AverageSwap(book, g, Call);
    AverageSwap(book, g, Put);
    LastStrikeSwap(book, g);
    SideSwap(book, g, Fut);
  }

  lemma PriceableSwap(book: Book, g: seq<Trade>)
    ensures Priceable(book, SwapAll(g)) <==> Priceable(book, g)
  {
    QtySwap(book, g, Fut);
    QtySwap(book, g, Call);
    QtySwap(book, g, Put);
  }

  lemma StrategySwap(book: Book, g: seq<Trade>)
    requires AllOneSided(g)
    ensures var strategy := Strategy(LastSide(book, g, Fut));
            Strategy(LastSide(book, SwapAll(g), Fut)) ==
            if strategy == 1 then 2 else if strategy == 2 then 1 else strategy
  {
    SideSwap(book, g, Fut);
  }

  lemma RecordSwap(book: Book, g: seq<Trade>, streamId: int)
    requires IsConRev(book, g) && Priceable(book, g) && Priceable(book, SwapAll(g))
    ensures RecordOf(book, SwapAll(g), streamId) == SwapRecord(RecordOf(book, g, streamId))
  {
    SpreadSwap(book, g);
    StrategySwap(book, g);
    QtySwap(book, g, Fut);
    LastStrikeSwap(book, g);
    FutExpirySwap(book, g);
  }

  lemma {:induction false} RecordsSwap(book: Book, gs: seq<seq<Trade>>, streamId: int)
    requires forall g :: g in gs ==> IsConRev(book, g)
    ensures RecordsOf(book, SwapGroups(gs), streamId) == SwapRecords(RecordsOf(book, gs, streamId))
  {
    if gs != [] {
      var n := |gs| - 1;
      assert SwapGroups(gs)[..n] == SwapGroups(gs[..n]);
      assert gs == gs[..n] + [gs[n]];
      RecordsSwap(book, gs[..n], streamId);
      PriceableSwap(book, gs[n]);
      if Priceable(book, gs[n]) {
        RecordSwap(book, gs[n], streamId);
      }
    }
  }

  lemma ReportSwap(book: Book, ts: seq<Trade>, tokens: set<int>, streamId: int)
    requires AllOneSided(ts)
    ensures Report(book, SwapAll(ts), tokens, streamId) == SwapRecords(Report(book, ts, tokens, streamId))
  {
    OpposedSwap(book, ts);
    GroupsSwap(book, ts, tokens);
    AcceptedSwap(book, SplitGroups(book, ts, tokens));
    AcceptedAre(book, SplitGroups(book, ts, tokens));
    RecordsSwap(book, Accepted(book, SplitGroups(book, ts, tokens)), streamId);
  }

  function SwapSnapshot(s: Snapshot): Snapshot {
    s.(buffer := SwapAll(s.buffer), records := SwapRecords(s.records))
  }

  lemma SwapRecordsConcat(a: seq<Record>, c: seq<Record>)
    ensures SwapRecords(a + c) == SwapRecords(a) + SwapRecords(c)
  {
  }

  lemma CloseSwap(book: Book, s: Snapshot, m: Message)
    requires AllOneSided(s.buffer) && Closes(m)
    ensures Process(book, SwapSnapshot(s), m.(body := Swap(m.body))) == SwapSnapshot(Process(book, s, m))
  {
    ReportSwap(book, s.buffer, s.tokens, m.streamId);
    SwapRecordsConcat(s.records, Report(book, s.buffer, s.tokens, m.streamId));
    assert SwapAll([]) == [];
  }

  lemma ProcessSwap(book: Book, s: Snapshot, m: Message)
    requires AllOneSided(s.buffer)
    ensures Process(book, SwapSnapshot(s), m.(body := Swap(m.body))) == SwapSnapshot(Process(book, s, m))
    ensures AllOneSided(Process(book, s, m).buffer)
  {
    if Closes(m) {
      CloseSwap(book, s, m);
    } else {
      SwapConcat(s.buffer, [m.body]);
      assert SwapAll([m.body]) == [Swap(m.body)];
    }
  }

  /** Over a whole stream: the same groups and the same records in the same order, with strategies 1 and 2
      exchanged and every spread negated. */
  lemma {:induction false} MirroredStream(book: Book, ms: seq<Message>)
    ensures RunFrom(book, IDLE, SwapMessages(ms)) == SwapSnapshot(RunFrom(book, IDLE, ms))
    ensures AllOneSided(RunFrom(book, IDLE, ms).buffer)
  {
    if ms == [] {
      assert SwapAll([]) == [] && SwapRecords([]) == [];
    } else {
      var n := |ms| - 1;
      assert SwapMessages(ms)[..n] == SwapMessages(ms[..n]);
      MirroredStream(book, ms[..n]);
      ProcessSwap(book, RunFrom(book, IDLE, ms[..n]), ms[n]);
    }
  }
}
