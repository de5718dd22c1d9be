/** What holds of the groups that are put out and accepted. */
module Groups {
  import opened Market
  import opened Window
  import opened Erase
  import opened Regroup
  import opened Splitter
  import opened Screening

  /** The candidate groups that pass the test, in order. */
  function Accepted(book: Book, gs: seq<seq<Trade>>): seq<seq<Trade>> {
    if gs == [] then []
    else
      var before := Accepted(book, gs[..|gs| - 1]);
      if IsConRev(book, gs[|gs| - 1]) then before + [gs[|gs| - 1]] else before
  }

  function Flatten(gs: seq<seq<Trade>>): seq<Trade> {
    if gs == [] then [] else Flatten(gs[..|gs| - 1]) + gs[|gs| - 1]
  }

  lemma {:induction false} AcceptedConcat(book: Book, a: seq<seq<Trade>>, c: seq<seq<Trade>>)
    ensures Accepted(book, a + c) == Accepted(book, a) + Accepted(book, c)
  {
    if c == [] {
      assert a + c == a;
    } else {
      assert (a + c)[..|a + c| - 1] == a + c[..|c| - 1];
      AcceptedConcat(book, a, c[..|c| - 1]);
    }
  }

  lemma {:induction false} FlattenConcat(a: seq<seq<Trade>>, c: seq<seq<Trade>>)
    ensures Flatten(a + c) == Flatten(a) + Flatten(c)
  {
    if c == [] {
      assert a + c == a;
    } else {
      var n := |c| - 1;
      FlattenConcat(a, c[..n]);
      assert (a + c)[..|a + c| - 1] == a + c[..n];
      assert Flatten(a) + Flatten(c[..n]) + c[n] == Flatten(a) + (Flatten(c[..n]) + c[n]);
    }
  }

  lemma {:induction false} AcceptedAre(book: Book, gs: seq<seq<Trade>>)
    ensures forall g :: g in Accepted(book, gs) <==> g in gs && IsConRev(book, g)
  {
    if gs != [] {
      AcceptedAre(book, gs[..|gs| - 1]);
      assert gs == gs[..|gs| - 1] + [gs[|gs| - 1]];
    }
  }

  lemma FlattenOne(g: seq<Trade>)
    ensures Flatten([g]) == g
  {
    assert [g][..0] == [];
  }

  // ------------------------------------------------------------------ no trade is used twice

  /** A window put out before it balances holds a balanced part and one positive trade more: never accepted. */
  lemma AdmittedIsRejected(book: Book, w: seq<Trade>, t: Trade)
    requires t.qty > 0
    ensures Accepted(book, Admit(book, w, t).groups) == []
  {
    if Admit(book, w, t).groups != [] {
      QtyPush(book, w, t, Fut);
      QtyPush(book, w, t, Call);
      QtyPush(book, w, t, Put);
      assert !Balanced(book, w + [t]);
      assert [w + [t]][..0] == [];
    }
  }

  lemma OneOrNone(book: Book, groups: seq<seq<Trade>>, window: seq<Trade>, w: seq<Trade>)
    requires (groups == [] && window == w) || (|groups| == 1 && window == [] && multiset(groups[0]) <= multiset(w))
    ensures multiset(Flatten(Accepted(book, groups))) + multiset(window) <= multiset(w)
  {
    if groups != [] {
      assert groups == [groups[0]];
      OneGroup(book, groups[0]);
    }
  }

  lemma SettledIsPart(book: Book, w: seq<Trade>)
    ensures var s := Settle(book, w);
            multiset(Flatten(Accepted(book, s.groups))) + multiset(s.window) <= multiset(w)
  {
    var s := Settle(book, w);
    if s.groups != [] {
      SettledGroupIsPart(book, w, s.groups[0]);
    }
    OneOrNone(book, s.groups, s.window, w);
  }

  lemma SettledGroupIsPart(book: Book, w: seq<Trade>, g: seq<Trade>)
    requires g in Settle(book, w).groups
    ensures multiset(g) <= multiset(w)
  {
    if g != w {
      RegroupedIsPart(book, w);
    }
  }

  /** Of a step's groups only those of settling can be accepted. */
  lemma OnlySettledAccepted(book: Book, w: seq<Trade>, t: Trade)
    requires t.qty > 0
    ensures var a := Admit(book, w, t);
            Accepted(book, a.groups + Settle(book, a.window).groups) == Accepted(book, Settle(book, a.window).groups)
  {
    var a := Admit(book, w, t);
    AdmittedIsRejected(book, w, t);
    AcceptedConcat(book, a.groups, Settle(book, a.window).groups);
  }

  lemma StepConserves(book: Book, w: seq<Trade>, t: Trade)
    requires t.qty > 0
    ensures var s := SplitStep(book, w, t);
            multiset(Flatten(Accepted(book, s.groups))) + multiset(s.window) <= multiset(w) + multiset{t}
  {
    if OneSided(t) {
      var p := Prune(book, w, t);
      PruneKeepsPart(book, w, t);
      AdmitKeepsPart(book, p, t);
      SettledIsPart(book, Admit(book, p, t).window);
      OnlySettledAccepted(book, p, t);
      assert multiset(p) + multiset{t} <= multiset(w) + multiset{t};
    }
  }

  lemma {:induction false} RunConserves(book: Book, ts: seq<Trade>)
    requires Positive(ts)
    ensures var r := SplitRun(book, ts);
            multiset(Flatten(Accepted(book, r.groups))) + multiset(r.window) <= multiset(ts)
  {
    if ts != [] {
      var n := |ts| - 1;
      assert ts == ts[..n] + [ts[n]];
      var before := SplitRun(book, ts[..n]);
      var step := SplitStep(book, before.window, ts[n]);
      RunConserves(book, ts[..n]);
      StepConserves(book, before.window, ts[n]);
      AcceptedConcat(book, before.groups, step.groups);
      FlattenConcat(Accepted(book, before.groups), Accepted(book, step.groups));
      MultisetChain(multiset(Flatten(Accepted(book, before.groups))), multiset(before.window), multiset(ts[..n]),
                    multiset(Flatten(Accepted(book, step.groups))), multiset(step.window), multiset{ts[n]});
    }
  }

  lemma MultisetChain(a: multiset<Trade>, w: multiset<Trade>, m: multiset<Trade>,
                      c: multiset<Trade>, w': multiset<Trade>, t: multiset<Trade>)
    requires a + w <= m && c + w' <= w + t
    ensures (a + c) + w' <= m + t
  {
    forall x ensures ((a + c) + w')[x] <= (m + t)[x] {
      assert (a + w)[x] <= m[x] && (c + w')[x] <= (w + t)[x];
    }
  }

  lemma OneGroup(book: Book, g: seq<Trade>)
    ensures multiset(Flatten(Accepted(book, [g]))) <= multiset(g)
  {
    assert [g][..0] == [];
    FlattenOne(g);
  }

  lemma AddendIsPart(a: multiset<Trade>, w: multiset<Trade>, m: multiset<Trade>)
    requires a + w <= m
    ensures a <= m
  {
    forall x ensures a[x] <= m[x] {
      assert (a + w)[x] <= m[x];
    }
  }

  /** Conservation: counted with multiplicity, the accepted groups together use no trade more often than it
      was buffered, and so no more of any leg. */
  lemma AcceptedTradesAreDisjoint(book: Book, ts: seq<Trade>, tokens: set<int>)
    requires Positive(ts)
    ensures var used := Flatten(Accepted(book, SplitGroups(book, ts, tokens)));
            multiset(used) <= multiset(ts) && forall leg :: Qty(book, used, leg) <= Qty(book, ts, leg)
  {
    var used := Flatten(Accepted(book, SplitGroups(book, ts, tokens)));
    if |ts| == 3 && |tokens| == 3 {
      OneGroup(book, ts);
    } else {
      RunConserves(book, ts);
      AddendIsPart(multiset(used), multiset(SplitRun(book, ts).window), multiset(ts));
    }
    forall leg ensures Qty(book, used, leg) <= Qty(book, ts, leg) {
      QtyMonotone(book, used, ts, leg);
    }
  }

  predicate DistinctSeqNos(ts: seq<Trade>) {
    forall i, j :: 0 <= i < j < |ts| ==> ts[i].seqNo != ts[j].seqNo
  }

  /** Taking one occurrence out of both keeps a part a part. */
  lemma WithoutOne(part: seq<Trade>, whole: seq<Trade>) returns (i: nat)
    requires part != [] && multiset(part) <= multiset(whole)
    ensures i < |whole| && whole[i] == part[|part| - 1]
    ensures multiset(part[..|part| - 1]) <= multiset(whole[..i] + whole[i + 1..])
  {
    var n := |part| - 1;
    assert part == part[..n] + [part[n]];
    assert part[n] in multiset(part);
    i :| 0 <= i < |whole| && whole[i] == part[n];
    var rest := whole[..i] + whole[i + 1..];
    assert whole == whole[..i] + [whole[i]] + whole[i + 1..];
    assert multiset(whole) == multiset(rest) + multiset{part[n]};
    assert multiset(part) == multiset(part[..n]) + multiset{part[n]};
    forall t ensures multiset(part[..n])[t] <= multiset(rest)[t] {
      assert multiset(part)[t] <= multiset(whole)[t];
    }
  }

  lemma OthersDiffer(whole: seq<Trade>, i: nat)
    requires i < |whole| && DistinctSeqNos(whole)
    ensures DistinctSeqNos(whole[..i] + whole[i + 1..])
    ensures forall t :: t in whole[..i] + whole[i + 1..] ==> t.seqNo != whole[i].seqNo
  {
    var rest := whole[..i] + whole[i + 1..];
    assert forall j :: 0 <= j < |rest| ==> rest[j] == whole[if j < i then j else j + 1];
  }

  lemma DistinctPush(part: seq<Trade>, t: Trade)
    requires DistinctSeqNos(part) && forall x :: x in part ==> x.seqNo != t.seqNo
    ensures DistinctSeqNos(part + [t])
  {
    var r := part + [t];
    forall i, j | 0 <= i < j < |r| ensures r[i].seqNo != r[j].seqNo {
      assert r[i] in part;
    }
  }

  lemma {:induction false} PartIsDistinct(part: seq<Trade>, whole: seq<Trade>)
    requires DistinctSeqNos(whole) && multiset(part) <= multiset(whole)
    ensures DistinctSeqNos(part)
  {
    if part != [] {
      var n := |part| - 1;
      var i := WithoutOne(part, whole);
      var rest := whole[..i] + whole[i + 1..];
      OthersDiffer(whole, i);
      PartIsDistinct(part[..n], rest);
      PartOf(part[..n], rest);
      DistinctPush(part[..n], part[n]);
      assert part == part[..n] + [part[n]];
    }
  }

  lemma {:induction false} FlattenAt(gs: seq<seq<Trade>>, k: nat)
    requires k < |gs|
    ensures Flatten(gs) == Flatten(gs[..k]) + gs[k] + Flatten(gs[k + 1..])
  {
    assert gs == gs[..k] + ([gs[k]] + gs[k + 1..]);
    FlattenConcat(gs[..k], [gs[k]] + gs[k + 1..]);
    FlattenConcat([gs[k]], gs[k + 1..]);
    FlattenOne(gs[k]);
  }

  /** When the exchange numbers trades apart, no trade belongs to two accepted groups. */
  lemma NoTradeInTwoGroups(book: Book, ts: seq<Trade>, tokens: set<int>, a: nat, c: nat, x: Trade)
    requires Positive(ts) && DistinctSeqNos(ts)
    requires a < c < |Accepted(book, SplitGroups(book, ts, tokens))|
    requires x in Accepted(book, SplitGroups(book, ts, tokens))[a]
    ensures x !in Accepted(book, SplitGroups(book, ts, tokens))[c]
  {
    AcceptedTradesAreDisjoint(book, ts, tokens);
    PartIsDistinct(Flatten(Accepted(book, SplitGroups(book, ts, tokens))), ts);
    DistinctAcross(Accepted(book, SplitGroups(book, ts, tokens)), a, c, x);
  }

  lemma DistinctAcross(gs: seq<seq<Trade>>, a: nat, c: nat, x: Trade)
    requires a < c < |gs| && DistinctSeqNos(Flatten(gs)) && x in gs[a]
    ensures x !in gs[c]
  {
    var before, after := gs[..c], gs[c..];
    assert gs == before + after;
    FlattenConcat(before, after);
    GroupIsFlattened(before, a);
    GroupIsFlattened(after, 0);
    NotInBoth(Flatten(gs), Flatten(before), Flatten(after), x);
  }

  lemma GroupIsFlattened(gs: seq<seq<Trade>>, k: nat)
    requires k < |gs|
    ensures forall x :: x in gs[k] ==> x in Flatten(gs)
  {
    FlattenAt(gs, k);
  }

  lemma NotInBoth(whole: seq<Trade>, a: seq<Trade>, c: seq<Trade>, x: Trade)
    requires DistinctSeqNos(whole) && whole == a + c && x in a
    ensures x !in c
  {
    var i :| 0 <= i < |a| && a[i] == x;
    forall j | 0 <= j < |c| ensures c[j] != x {
      assert whole[i] == x && whole[|a| + j] == c[j];
    }
  }

  // ------------------------------------------------------------------ the shape of an accepted group

  /** Three contracts, one to a leg. */
  predicate OneContractPerLeg(book: Book, g: seq<Trade>) {
    && |Tokens(g)| == 3 && AllLegs(book, g)
    && forall x, y :: x in g && y in g && LegOf(book, x) == LegOf(book, y) ==> x.token == y.token
  }

  lemma TokensOfPart(part: seq<Trade>, whole: seq<Trade>)
    requires multiset(part) <= multiset(whole)
    ensures |Tokens(part)| <= |Tokens(whole)|
  {
    PartOf(part, whole);
    assert Tokens(part) <= Tokens(whole);
    SubsetSize(Tokens(part), Tokens(whole));
  }

  lemma SettleTokens(book: Book, w: seq<Trade>)
    ensures forall g :: g in Settle(book, w).groups ==> |Tokens(g)| <= 3
  {
    forall g | g in Settle(book, w).groups ensures |Tokens(g)| <= 3 {
      SettledGroupIsPart(book, w, g);
      TokensOfPart(g, w);
    }
  }

  lemma StepTokens(book: Book, w: seq<Trade>, t: Trade)
    ensures forall g :: g in SplitStep(book, w, t).groups ==> |Tokens(g)| <= 3
  {
    if OneSided(t) {
      SettleTokens(book, Admit(book, Prune(book, w, t), t).window);
    }
  }

  lemma {:induction false} RunTokens(book: Book, ts: seq<Trade>)
    ensures forall g :: g in SplitRun(book, ts).groups ==> |Tokens(g)| <= 3
  {
    if ts != [] {
      RunTokens(book, ts[..|ts| - 1]);
      StepTokens(book, SplitRun(book, ts[..|ts| - 1]).window, ts[|ts| - 1]);
    }
  }

  lemma OnlyThreeTokens(tokens: set<int>, f: int, c: int, p: int)
    requires f in tokens && c in tokens && p in tokens && f != c && c != p && f != p && |tokens| <= 3
    ensures |tokens| == 3 && forall token :: token in tokens ==> token == f || token == c || token == p
  {
    var three := {f, c, p};
    assert |three| == 3;
    SubsetSize(three, tokens);
    assert |tokens - three| == 0;
    assert tokens == three;
  }

  lemma ThreeLegsThreeTokens(book: Book, g: seq<Trade>)
    requires AllLegs(book, g) && |Tokens(g)| <= 3
    ensures OneContractPerLeg(book, g)
  {
    var f :| f in g && LegOf(book, f) == Fut;
    var c :| c in g && LegOf(book, c) == Call;
    var p :| p in g && LegOf(book, p) == Put;
    OnlyThreeTokens(Tokens(g), f.token, c.token, p.token);
    forall x | x in g ensures x.token == f.token || x.token == c.token || x.token == p.token {
      assert x.token in Tokens(g);
    }
  }

  /** Every accepted group is a conversion or a reversal: one future, one call and one put, so one strike per
      option leg, with equal positive volumes and the sides opposed. */
  lemma AcceptedGroupShape(book: Book, ts: seq<Trade>, tokens: set<int>, g: seq<Trade>)
    requires Positive(ts) && tokens == Tokens(ts)
    requires g in Accepted(book, SplitGroups(book, ts, tokens))
    ensures OneContractPerLeg(book, g)
    ensures Qty(book, g, Fut) == Qty(book, g, Call) == Qty(book, g, Put) > 0
    ensures LastSide(book, g, Fut) == LastSide(book, g, Put) != LastSide(book, g, Call)
  {
    AcceptedAre(book, SplitGroups(book, ts, tokens));
    RunTokens(book, ts);
    ThreeLegsThreeTokens(book, g);
    AcceptedIsPart(book, ts, tokens, g);
    PartOf(g, ts);
    QtyPositive(book, g, Fut);
  }

  lemma AcceptedIsPart(book: Book, ts: seq<Trade>, tokens: set<int>, g: seq<Trade>)
    requires Positive(ts)
    requires g in Accepted(book, SplitGroups(book, ts, tokens))
    ensures multiset(g) <= multiset(ts)
  {
    var gs := Accepted(book, SplitGroups(book, ts, tokens));
    AcceptedTradesAreDisjoint(book, ts, tokens);
    var k :| 0 <= k < |gs| && gs[k] == g;
    FlattenAt(gs, k);
  }

  // ------------------------------------------------------------------ one expiry

  predicate AllExpire(book: Book, w: seq<Trade>, expiry: int) {
    forall t :: t in w ==> ExpiryOf(book, t) == expiry
  }

  predicate OneExpiry(book: Book, w: seq<Trade>) {
    forall x, y :: x in w && y in w ==> ExpiryOf(book, x) == ExpiryOf(book, y)
  }

  predicate NoZeroExpiry(book: Book, ts: seq<Trade>) {
    forall t :: t in ts ==> ExpiryOf(book, t) != 0
  }

  lemma AdmitMembers(book: Book, w: seq<Trade>, t: Trade)
    ensures forall x :: x in Admit(book, w, t).window ==> x in w || x == t
    ensures forall g, x :: g in Admit(book, w, t).groups && x in g ==> x in w || x == t
  {
    DropRunKeeps(book, w + [t], LegOf(book, t));
  }

  lemma SettleMembers(book: Book, w: seq<Trade>)
    ensures forall x :: x in Settle(book, w).window ==> x in w
    ensures forall g, x :: g in Settle(book, w).groups && x in g ==> x in w
  {
    forall g | g in Settle(book, w).groups ensures forall x :: x in g ==> x in w {
      SettledGroupIsPart(book, w, g);
      PartOf(g, w);
    }
  }

  lemma PruneMembers(book: Book, w: seq<Trade>, t: Trade)
    requires OneExpiry(book, w) && NoZeroExpiry(book, w)
    ensures AllExpire(book, Prune(book, w, t), ExpiryOf(book, t))
  {
    OfExpiryKeeps(book, w, ExpiryOf(book, t));
    OfStrikeKeeps(book, w, StrikeOf(book, t));
    if w != [] {
      assert w[|w| - 1] in w;
    }
  }

  lemma StepExpiry(book: Book, w: seq<Trade>, t: Trade)
    requires OneExpiry(book, w) && NoZeroExpiry(book, w)
    ensures var s := SplitStep(book, w, t);
            && AllExpire(book, s.window, ExpiryOf(book, t))
            && forall g :: g in s.groups ==> AllExpire(book, g, ExpiryOf(book, t))
  {
    if OneSided(t) {
      var p := Prune(book, w, t);
      PruneMembers(book, w, t);
      AdmitMembers(book, p, t);
      SettleMembers(book, Admit(book, p, t).window);
    }
  }

  lemma {:induction false} RunExpiry(book: Book, ts: seq<Trade>)
    requires NoZeroExpiry(book, ts)
    ensures var r := SplitRun(book, ts);
            && OneExpiry(book, r.window)
            && forall g :: g in r.groups ==> OneExpiry(book, g)
  {
    if ts != [] {
      var n := |ts| - 1;
      RunExpiry(book, ts[..n]);
      var before := SplitRun(book, ts[..n]);
      RunKeepsPart(book, ts[..n]);
      PartOf(before.window, ts[..n]);
      StepExpiry(book, before.window, ts[n]);
    }
  }

  /** Once the buffer has passed its screening, every group put out, accepted or not, is of one expiry. */
  lemma GroupsShareOneExpiry(book: Book, ts: seq<Trade>, tokens: set<int>, g: seq<Trade>)
    requires NoZeroExpiry(book, ts) && tokens == Tokens(ts) && Screened(book, ts, tokens)
    requires g in SplitGroups(book, ts, tokens)
    ensures OneExpiry(book, g)
  {
    if |ts| == 3 && |tokens| == 3 {
      var f, c, p := ThreeTokensMatch(book, tokens);
      forall t | t in ts ensures t.token in {f, c, p} {
        assert t.token in Tokens(ts);
      }
    } else {
      RunExpiry(book, ts);
    }
  }
}
