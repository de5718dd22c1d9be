/** One turn of the splitting loop, said by positions in the window. */
module Exact {
  import opened Market
  import opened Window
  import opened Erase
  import opened Regroup
  import opened Splitter

  // ------------------------------------------------------------------ what is deleted before a trade enters

  predicate NoOption(book: Book, w: seq<Trade>) {
    forall i :: 0 <= i < |w| ==> LegOf(book, w[i]) == Fut
  }

  /** A first trade, or one of the expiry traded last: nothing is deleted by expiry. */
  predicate SameExpiry(book: Book, w: seq<Trade>, t: Trade) {
    w == [] || ExpiryOf(book, w[|w| - 1]) == 0 || ExpiryOf(book, w[|w| - 1]) == ExpiryOf(book, t)
  }

  /** A trade of another expiry than the last one deletes every trade not of its own. */
  lemma PrunedByExpiry(book: Book, w: seq<Trade>, t: Trade)
    requires !SameExpiry(book, w, t)
    ensures Prune(book, w, t) == OfExpiry(book, w, ExpiryOf(book, t))
  {
  }

  /** An option of another strike than the last option, at position o, deletes the options of other strikes before
      the first future. */
  lemma PrunedByStrike(book: Book, w: seq<Trade>, t: Trade, o: nat)
    requires SameExpiry(book, w, t) && LegOf(book, t) != Fut && IsLastOf(book, w, {Call, Put}, o)
    requires StrikeOf(book, w[o]) != 0 && StrikeOf(book, w[o]) != StrikeOf(book, t)
    ensures Prune(book, w, t) == OfStrikeBeforeFuture(book, w, StrikeOf(book, t))
  {
    LastOptionCounts(book, w, o);
  }

  /** A future, and an option of the strike of the last option or after none, deletes nothing. */
  lemma NotPruned(book: Book, w: seq<Trade>, t: Trade, o: nat)
    requires SameExpiry(book, w, t)
    requires LegOf(book, t) == Fut || NoOption(book, w)
             || (IsLastOf(book, w, {Call, Put}, o) && StrikeOf(book, w[o]) in {0, StrikeOf(book, t)})
    ensures Prune(book, w, t) == w
  {
    if LegOf(book, t) != Fut {
      if NoOption(book, w) {
        NoOptionNoStrike(book, w);
      } else {
        LastOptionCounts(book, w, o);
      }
    }
  }

  /** The position of the last option, if there is one. */
  lemma {:induction false} LastOption(book: Book, w: seq<Trade>) returns (o: nat)
    ensures if o < |w| then IsLastOf(book, w, {Call, Put}, o) else NoOption(book, w)
  {
    o := |w|;
    if w != [] {
      var n := |w| - 1;
      if LegOf(book, w[n]) != Fut {
        TwoOptions(LegOf(book, w[n]));
        o := n;
      } else {
        o := LastOption(book, w[..n]);
        if o >= n {
          o := |w|;
          assert forall i :: 0 <= i < n ==> w[..n][i] == w[i];
        }
      }
    }
  }

  lemma TwoOptions(leg: Leg)
    requires leg != Fut
    ensures leg in {Call, Put}
  {
    match leg
    case Call =>
    case Put =>
  }

  // ------------------------------------------------------------------ how a trade enters

  /** So many trades at the front are of the leg, and no more. */
  predicate LeadingRun(book: Book, w: seq<Trade>, leg: Leg, k: nat) {
    && k <= |w| && (forall i :: 0 <= i < k ==> LegOf(book, w[i]) == leg)
    && (k < |w| ==> LegOf(book, w[k]) != leg)
  }

  /** The leg was traded before, but not last. */
  predicate ComesBack(book: Book, p: seq<Trade>, leg: Leg) {
    p != [] && LegOf(book, p[|p| - 1]) != leg && exists i :: 0 <= i < |p| && LegOf(book, p[i]) == leg
  }

  lemma ComesBackReturns(book: Book, p: seq<Trade>, t: Trade)
    ensures ComesBack(book, p, LegOf(book, t)) <==> Returns(book, p, t)
  {
    if i :| 0 <= i < |p| && LegOf(book, p[i]) == LegOf(book, t) {
      assert p[i] in p;
    }
  }

  lemma {:induction false} RunIsDropped(book: Book, w: seq<Trade>, leg: Leg, k: nat)
    requires LeadingRun(book, w, leg, k)
    ensures DropRun(book, w, leg) == w[k..]
  {
    if k > 0 {
      assert w[0] == w[0] && forall i :: 0 <= i < |w| - 1 ==> w[1..][i] == w[i + 1];
      RunIsDropped(book, w[1..], leg, k - 1);
      assert w[1..][k - 1..] == w[k..];
    }
  }

  /** What a step does after deletion has left the trades p: put out p and the trade as they stand, or drop so many
      trades from the front, and settle what there is then. */
  predicate StepsTo(book: Book, w: seq<Trade>, t: Trade, early: seq<seq<Trade>>, v: seq<Trade>) {
    var settled := Settle(book, v);
    SplitStep(book, w, t) == Step(settled.window, early + settled.groups)
  }

  /** A leg that does not come back just enters. */
  lemma OtherLegEnters(book: Book, w: seq<Trade>, t: Trade, p: seq<Trade>)
    requires OneSided(t) && p == Prune(book, w, t) && !ComesBack(book, p, LegOf(book, t))
    ensures StepsTo(book, w, t, [], p + [t])
  {
    ComesBackReturns(book, p, t);
  }

  /** A leg that comes back to a window that balances, over three tokens with the new one, puts it out as it is. */
  lemma ReturnPutsOut(book: Book, w: seq<Trade>, t: Trade, p: seq<Trade>)
    requires OneSided(t) && p == Prune(book, w, t) && ComesBack(book, p, LegOf(book, t))
    requires Qty(book, p, Fut) == Qty(book, p, Call) == Qty(book, p, Put) && |Tokens(p + [t])| == 3
    ensures StepsTo(book, w, t, [p + [t]], p + [t])
  {
    ComesBackReturns(book, p, t);
  }

  /** A leg that comes back to any other window drops the run of its own leg from the front, and nothing else. */
  lemma ReturnDropsRun(book: Book, w: seq<Trade>, t: Trade, p: seq<Trade>, k: nat)
    requires OneSided(t) && p == Prune(book, w, t) && ComesBack(book, p, LegOf(book, t))
    requires !(Qty(book, p, Fut) == Qty(book, p, Call) == Qty(book, p, Put) && |Tokens(p + [t])| == 3)
    requires LeadingRun(book, p + [t], LegOf(book, t), k)
    ensures k < |p| && StepsTo(book, w, t, [], (p + [t])[k..])
  {
    ComesBackReturns(book, p, t);
    RunIsDropped(book, p + [t], LegOf(book, t), k);
    assert (p + [t])[|p| - 1] == p[|p| - 1];
  }

  /** A trade with both sides, or neither, clears the window. */
  lemma TwoSidedClears(book: Book, w: seq<Trade>, t: Trade)
    requires (t.buyId == 0) == (t.sellId == 0)
    ensures SplitStep(book, w, t) == Step([], [])
  {
  }

  // ------------------------------------------------------------------ what is put out after a trade has entered

  /** Where the second leg first appears, and where the third. */
  predicate LegsAt(book: Book, w: seq<Trade>, s: nat, e: nat) {
    && 0 < s < e < |w|
    && (forall i :: 0 <= i < s ==> LegOf(book, w[i]) == LegOf(book, w[0]))
    && LegOf(book, w[s]) != LegOf(book, w[0])
    && (forall i :: s <= i < e ==> LegOf(book, w[i]) == LegOf(book, w[0]) || LegOf(book, w[i]) == LegOf(book, w[s]))
    && LegOf(book, w[e]) != LegOf(book, w[0]) && LegOf(book, w[e]) != LegOf(book, w[s])
  }

  lemma LegsAreAt(book: Book, w: seq<Trade>, s: nat, e: nat)
    requires LegsAt(book, w, s, e)
    ensures StartIndex(book, w) == s && EndIndex(book, w) == e && AllLegs(book, w)
    ensures MiddleQty(book, w) == Qty(book, w[..e], LegOf(book, w[e - 1]))
  {
    FirstOutsideIs(book, w, {LegOf(book, w[0])}, s);
    assert forall i :: 0 <= i < e - s ==> w[s..][i] == w[s + i];
    assert w[s..][e - s] == w[e];
    FirstOutsideIs(book, w[s..], {LegOf(book, w[0]), LegOf(book, w[s])}, e - s);
    assert w[0] in w && w[s] in w && w[e] in w;
    ThreeDiffer(LegOf(book, w[0]), LegOf(book, w[s]), LegOf(book, w[e]));
  }

  lemma ThreeDiffer(a: Leg, b: Leg, c: Leg)
    requires a != b && c != a && c != b
    ensures Fut in {a, b, c} && Call in {a, b, c} && Put in {a, b, c}
  {
    match a
    case Fut => match b { case Call => case Put => }
    case Call => match b { case Fut => case Put => }
    case Put => match b { case Fut => case Call => }
  }

  /** Of positive trades the shortest prefix to reach a total is the only one. */
  lemma OnlyPrefix(s: seq<Trade>, target: int, n: nat)
    requires Positive(s) && 0 < n <= |s| && Total(s[..n]) == target
    ensures TakeCount(s, 0, target) == n
  {
    TakeUntilIsShortest(s, 0, target);
    var k := TakeCount(s, 0, target);
    if k < n {
      LongerIsMore(s, k, n);
    }
  }

  lemma {:induction false} LongerIsMore(s: seq<Trade>, k: nat, n: nat)
    requires Positive(s) && k < n <= |s|
    ensures Total(s[..k]) < Total(s[..n])
  {
    assert s[n - 1] in s && s[..n] == s[..n - 1] + [s[n - 1]];
    TotalPush(s[..n - 1], s[n - 1]);
    if k < n - 1 {
      LongerIsMore(s, k, n - 1);
    }
  }

  /** A stretch around the middle trades, on either side of it, what the leg traded last had traded before the third
      leg appeared. */
  predicate Matches(book: Book, w: seq<Trade>, s: nat, e: nat, i: nat, j: nat) {
    && i < s <= e < j <= |w| && 0 < e
    && Total(w[i..s]) == Qty(book, w[..e], LegOf(book, w[e - 1])) == Total(w[e..j])
  }

  lemma BackTotal(w: seq<Trade>, s: nat, i: nat)
    requires i < s <= |w|
    ensures s - i <= |Reverse(w[..s])| && Reverse(w[..s])[..s - i] == Reverse(w[i..s])
    ensures Total(Reverse(w[..s])[..s - i]) == Total(w[i..s])
  {
    ReversePrefix(w[..s], s - i);
    assert w[..s][i..] == w[i..s];
    TotalReverse(w[i..s]);
  }

  lemma MatchIsCut(book: Book, w: seq<Trade>, s: nat, e: nat, i: nat, j: nat)
    requires Positive(w) && LegsAt(book, w, s, e) && Matches(book, w, s, e, i, j)
    ensures Regrouped(book, w) == Some(Reverse(w[i..s]) + w[s..e] + w[e..j])
  {
    LegsAreAt(book, w, s, e);
    var qty := MiddleQty(book, w);
    BackTotal(w, s, i);
    ReversePermutes(w[..s]);
    PrefixIsPart(w, s);
    PartIsPositive(Reverse(w[..s]), w);
    OnlyPrefix(Reverse(w[..s]), qty, s - i);
    assert w[e..][..j - e] == w[e..j];
    OnlyPrefix(w[e..], qty, j - e);
  }

  lemma PartIsPositive(part: seq<Trade>, whole: seq<Trade>)
    requires multiset(part) <= multiset(whole) && Positive(whole)
    ensures Positive(part)
  {
    PartOf(part, whole);
  }

  /** A group can be cut from a window if and only if some stretch around its middle matches. */
  lemma CutWhenMatched(book: Book, w: seq<Trade>, s: nat, e: nat)
    requires Positive(w) && LegsAt(book, w, s, e)
    ensures Regrouped(book, w).Some? <==> exists i, j :: Matches(book, w, s, e, i, j)
  {
    LegsAreAt(book, w, s, e);
    if Regrouped(book, w).Some? {
      var i, j := RegroupedIsStretch(book, w);
      assert Matches(book, w, s, e, i, j);
    }
    if i, j :| Matches(book, w, s, e, i, j) {
      MatchIsCut(book, w, s, e, i, j);
    }
  }

  /** After a trade has entered, a window of three tokens that balances is put out whole. */
  lemma SettlesWhole(book: Book, w: seq<Trade>)
    requires |Tokens(w)| == 3 && Qty(book, w, Fut) == Qty(book, w, Call) == Qty(book, w, Put)
    ensures Settle(book, w) == Step([], [w])
  {
  }

  /** One that does not, but has a matching stretch, is put out as that stretch, its front part backwards. */
  lemma SettlesCut(book: Book, w: seq<Trade>, s: nat, e: nat, i: nat, j: nat)
    requires |Tokens(w)| == 3 && !(Qty(book, w, Fut) == Qty(book, w, Call) == Qty(book, w, Put)) && Positive(w)
    requires LegsAt(book, w, s, e) && Matches(book, w, s, e, i, j)
    ensures Settle(book, w) == Step([], [Reverse(w[i..s]) + w[s..e] + w[e..j]])
  {
    LegsAreAt(book, w, s, e);
    MatchIsCut(book, w, s, e, i, j);
  }

  /** Every other window stays, and nothing is put out. */
  lemma SettlesNothing(book: Book, w: seq<Trade>)
    requires Positive(w)
    requires |Tokens(w)| == 3 ==>
               && !(Qty(book, w, Fut) == Qty(book, w, Call) == Qty(book, w, Put))
               && forall s, e, i, j :: LegsAt(book, w, s, e) ==> !Matches(book, w, s, e, i, j)
    ensures Settle(book, w) == Step(w, [])
  {
    if |Tokens(w)| == 3 && AllLegs(book, w) {
      ThirdLegIsFound(book, w);
      assert LegsAt(book, w, StartIndex(book, w), EndIndex(book, w));
      CutWhenMatched(book, w, StartIndex(book, w), EndIndex(book, w));
    }
  }

  /** A window without one of the legs stays. */
  lemma LegMissing(book: Book, w: seq<Trade>, leg: Leg)
    requires w != [] && Positive(w) && forall i :: 0 <= i < |w| ==> LegOf(book, w[i]) != leg
    ensures Settle(book, w) == Step(w, [])
  {
    assert w[0] in w;
    QtyPositive(book, w, leg);
    QtyPositive(book, w, LegOf(book, w[0]));
    assert !Has(book, w, leg);
  }

  /** After these trades the window is v, and nothing has been put out. */
  predicate Stays(book: Book, ts: seq<Trade>, v: seq<Trade>) {
    SplitRun(book, ts) == Step(v, [])
  }

  /** The leg was traded last, or never. */
  predicate GoesOn(book: Book, w: seq<Trade>, leg: Leg) {
    w == [] || LegOf(book, w[|w| - 1]) == leg || forall i :: 0 <= i < |w| ==> LegOf(book, w[i]) != leg
  }

  lemma GoingOnIsNoReturn(book: Book, w: seq<Trade>, leg: Leg)
    ensures ComesBack(book, w, leg) <==> !GoesOn(book, w, leg)
  {
  }

  /** A leg that goes on, where nothing is deleted: the trade enters, and the window is settled. */
  lemma OpenTurn(book: Book, ts: seq<Trade>, w: seq<Trade>, t: Trade, all: seq<Trade>, v: seq<Trade>, step: Step)
    requires Stays(book, ts, w) && OneSided(t) && Prune(book, w, t) == w && GoesOn(book, w, LegOf(book, t))
    requires all == ts + [t] && v == w + [t] && step == Settle(book, v)
    ensures SplitRun(book, all) == step
  {
    GoingOnIsNoReturn(book, w, LegOf(book, t));
    OtherLegEnters(book, w, t, w);
    assert all[..|ts|] == ts;
    assert [] + ([] + step.groups) == step.groups;
  }
}
