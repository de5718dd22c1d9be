/** Splitting the buffered trades into candidate groups with a sliding window. */
module Splitter {
  import opened Market
  import opened Window
  import opened Erase
  import opened Regroup

  // ------------------------------------------------------------------ what one trade does to the window

  /** The window after one more trade, and the groups that trade caused to be put out. */
  datatype Step = Step(window: seq<Trade>, groups: seq<seq<Trade>>)

  /** Before a trade of another expiry or, for an option, another strike enters, the window is cut down. */
  function Prune(book: Book, w: seq<Trade>, t: Trade): seq<Trade> {
    if LastExpiry(book, w) != 0 && LastExpiry(book, w) != ExpiryOf(book, t) then
      OfExpiry(book, w, ExpiryOf(book, t))
    else if LastStrike(book, w) != 0 && LastStrike(book, w) != StrikeOf(book, t) && LegOf(book, t) != Fut then
      OfStrikeBeforeFuture(book, w, StrikeOf(book, t))
    else w
  }

  /** The trade's leg was traded before, and the trade just before it is of another leg. */
  predicate Returns(book: Book, w: seq<Trade>, t: Trade) {
    w != [] && LegOf(book, w[|w| - 1]) != LegOf(book, t) && Has(book, w, LegOf(book, t))
  }

  /** The trade enters; a leg that comes back either puts out the window or drops its own leading run. */
  function Admit(book: Book, w: seq<Trade>, t: Trade): Step {
    if !Returns(book, w, t) then Step(w + [t], [])
    else if Balanced(book, w) && |Tokens(w + [t])| == 3 then Step(w + [t], [w + [t]])
    else Step(DropRun(book, w + [t], LegOf(book, t)), [])
  }

  /** A balanced window of three tokens is put out whole, an unbalanced one if a group can be cut from it. */
  function Settle(book: Book, w: seq<Trade>): Step {
    if |Tokens(w)| != 3 then Step(w, [])
    else if Balanced(book, w) then Step([], [w])
    else if AllLegs(book, w) && Regrouped(book, w).Some? then Step([], [Regrouped(book, w).value])
    else Step(w, [])
  }

  function SplitStep(book: Book, w: seq<Trade>, t: Trade): Step {
    if !OneSided(t) then Step([], [])
    else
      var admitted := Admit(book, Prune(book, w, t), t);
      var settled := Settle(book, admitted.window);
      Step(settled.window, admitted.groups + settled.groups)
  }

  function SplitRun(book: Book, ts: seq<Trade>): Step {
    if ts == [] then Step([], [])
    else
      var before := SplitRun(book, ts[..|ts| - 1]);
      var step := SplitStep(book, before.window, ts[|ts| - 1]);
      Step(step.window, before.groups + step.groups)
  }

  /** The candidate groups of a buffer. */
  function SplitGroups(book: Book, ts: seq<Trade>, tokens: set<int>): seq<seq<Trade>> {
    if |ts| == 3 && |tokens| == 3 then [ts] else SplitRun(book, ts).groups
  }

  // ------------------------------------------------------------------ the incremental state

  /** The running details of the window that the loop carries along. */
  datatype Details = Details(tokens: set<int>, futQty: int, callQty: int, putQty: int, strike: int,
                             flags: set<Leg>, lastExpiry: int, lastLeg: Option<Leg>)
  {
    function Add(leg: Leg, qty: int): Details {
      match leg
      case Fut => this.(futQty := futQty + qty)
      case Call => this.(callQty := callQty + qty)
      case Put => this.(putQty := putQty + qty)
    }

    predicate Even() {
      futQty == callQty == putQty
    }
  }

  const NO_DETAILS := Details({}, 0, 0, 0, 0, {}, 0, None)

  predicate Counts(book: Book, d: Details, w: seq<Trade>) {
    && d.tokens == Tokens(w)
    && d.futQty == Qty(book, w, Fut)
    && d.callQty == Qty(book, w, Call)
    && d.putQty == Qty(book, w, Put)
    && d.strike == LastStrike(book, w)
    && d.lastLeg == LastLeg(book, w)
  }

  /** The details agree with recomputation: exactly, except that the expiry may be stale while the window
      is empty and that a flag may be left standing for a leg no longer present. */
  predicate Tracks(book: Book, d: Details, w: seq<Trade>) {
    && Counts(book, d, w)
    && (w != [] ==> d.lastExpiry == LastExpiry(book, w))
    && forall leg :: Has(book, w, leg) ==> leg in d.flags
  }

  /** Folding one trade into the details, as each leg's case does. */
  function Note(book: Book, d: Details, t: Trade): Details {
    var info := Info(book, t.token);
    d.Add(info.leg, t.qty).(
      tokens := d.tokens + {t.token},
      flags := d.flags + {info.leg},
      lastExpiry := info.expiry,
      strike := if info.leg == Fut then d.strike else info.strike,
      lastLeg := Some(info.leg))
  }

  lemma TracksPush(book: Book, d: Details, w: seq<Trade>, t: Trade)
    requires Tracks(book, d, w)
    ensures Tracks(book, Note(book, d, t), w + [t])
  {
    assert (w + [t])[..|w|] == w;
    forall leg ensures Qty(book, w + [t], leg) == Qty(book, w, leg) + Amount(book, t, leg) {
      QtyPush(book, w, t, leg);
    }
    assert Tokens(w + [t]) == Tokens(w) + {t.token};
    assert forall leg :: Has(book, w + [t], leg) ==> Has(book, w, leg) || leg == LegOf(book, t);
  }

  /** Recomputes the details of a whole window, starting from reset ones. */
  method GetExtraDetails(book: Book, window: seq<Trade>) returns (d: Details)
    requires Known(book, window)
    ensures Tracks(book, d, window)
    ensures d.lastExpiry == LastExpiry(book, window)
    ensures forall leg :: leg in d.flags <==> Has(book, window, leg)
  {
    d := NO_DETAILS;
    for i := 0 to |window|
      invariant Tracks(book, d, window[..i])
      invariant d.lastExpiry == LastExpiry(book, window[..i])
      invariant forall leg :: leg in d.flags ==> Has(book, window[..i], leg)
    {
      var t := window[i];
      var info := book[t.token];
      TracksPush(book, d, window[..i], t);
      assert window[..i + 1] == window[..i] + [t];
      assert forall leg :: Has(book, window[..i], leg) ==> Has(book, window[..i + 1], leg);
      d := d.(tokens := d.tokens + {t.token}, flags := d.flags + {info.leg}, lastExpiry := info.expiry,
              lastLeg := Some(info.leg)).Add(info.leg, t.qty);
      if info.leg != Fut {
        d := d.(strike := info.strike);
      }
    }
    assert window[..|window|] == window;
  }

  /** The first part of the loop body: an expiry or strike that differs prunes the window. */
  method PruneWindow(book: Book, window: seq<Trade>, d: Details, t: Trade) returns (w: seq<Trade>, d': Details)
    requires Known(book, window) && t.token in book
    requires Tracks(book, d, window)
    ensures w == Prune(book, window, t) && Known(book, w)
    ensures Tracks(book, d', w)
  {
    var info := book[t.token];
    w, d' := window, d;
    if (d.lastExpiry != 0 && d.lastExpiry != info.expiry)
       || (d.strike != 0 && d.strike != info.strike && info.leg != Fut) {
      if d.lastExpiry != 0 && d.lastExpiry != info.expiry {
        w := DeletePacketTillExpiryDate(book, window, info.expiry);
      } else {
        w := DeletePacketTillStrikePrice(book, window, info.strike);
      }
      d' := GetExtraDetails(book, w);
    }
  }

  /** With positive quantities a leg flagged but absent keeps the window from balancing, and dropping its
      leading run drops nothing; so a stale flag changes nothing. */
  lemma StaleFlagIsHarmless(book: Book, w: seq<Trade>, t: Trade)
    requires Positive(w) && w != [] && !Has(book, w, LegOf(book, t))
    ensures !Balanced(book, w)
    ensures DropRun(book, w + [t], LegOf(book, t)) == w + [t]
  {
    QtyPositive(book, w, LegOf(book, t));
    assert w[0] in w;
    QtyPositive(book, w, LegOf(book, w[0]));
    assert (w + [t])[0] == w[0];
  }

  /** The leg of the trade before the last survives: erasing the leading run cannot empty the window. */
  lemma ReturningLegLeavesSome(book: Book, w: seq<Trade>, t: Trade)
    requires w != [] && LegOf(book, w[|w| - 1]) != LegOf(book, t)
    ensures |w + [t]| > 1 && LegOf(book, (w + [t])[|w| - 1]) != LegOf(book, t)
    ensures |DropRun(book, w + [t], LegOf(book, t))| >= 2
    ensures w[|w| - 1] in DropRun(book, w + [t], LegOf(book, t)) && t in DropRun(book, w + [t], LegOf(book, t))
  {
    var k := DropRunIsMaximal(book, w + [t], LegOf(book, t));
    assert (w + [t])[|w| - 1] == w[|w| - 1];
    assert k <= |w| - 1;
    assert (w + [t])[k..][|w| - 1 - k] == w[|w| - 1];
    assert (w + [t])[k..][|w| - k] == t;
  }

  lemma OtherFlagStands(book: Book, w: seq<Trade>, d: Details, leg: Leg)
    requires Tracks(book, d, w) && w != [] && LegOf(book, w[|w| - 1]) != leg
    ensures d.flags - {leg} != {}
  {
    assert w[|w| - 1] in w;
    assert LegOf(book, w[|w| - 1]) in d.flags - {leg};
  }

  /** Subtracting the new trade's quantity and adding it back leaves recomputed details in place. */
  lemma SubtractThenAdd(book: Book, d: Details, w: seq<Trade>, t: Trade)
    requires Tracks(book, d, w) && w != [] && w[|w| - 1] == t && LegOf(book, t) in d.flags
    ensures var info := Info(book, t.token);
            Tracks(book, Note(book, d.Add(info.leg, -t.qty), t), w)
  {
    assert t in w;
  }

  lemma LastOfDropped(book: Book, w: seq<Trade>, t: Trade)
    requires w != [] && LegOf(book, w[|w| - 1]) != LegOf(book, t)
    ensures var r := DropRun(book, w + [t], LegOf(book, t)); r != [] && r[|r| - 1] == t
  {
    ReturningLegLeavesSome(book, w, t);
    var k := DropRunIsMaximal(book, w + [t], LegOf(book, t));
  }

  /** The leading run of the new trade's leg is dropped and the details recomputed, less the new trade's quantity. */
  method DropLeadingRun(book: Book, window: seq<Trade>, t: Trade) returns (w: seq<Trade>, d: Details)
    requires Known(book, window + [t]) && window != [] && LegOf(book, window[|window| - 1]) != LegOf(book, t)
    ensures w == DropRun(book, window + [t], LegOf(book, t)) && Known(book, w)
    ensures Tracks(book, Note(book, d, t), w) && t.token in d.tokens
  {
    var info := book[t.token];
    ReturningLegLeavesSome(book, window, t);
    LastOfDropped(book, window, t);
    w := SecondLevelOrderValidation(book, window + [t], info.leg);
    d := GetExtraDetails(book, w);
    SubtractThenAdd(book, d, w, t);
    assert t in w;
    d := d.Add(info.leg, -t.qty);
  }

  /** The inner choice of the switch: put the window out as it stands, or drop a leading run. */
  method LegReturns(book: Book, window: seq<Trade>, d: Details, t: Trade)
    returns (w: seq<Trade>, d': Details, groups: seq<seq<Trade>>)
    requires Known(book, window) && t.token in book && Positive(window)
    requires Tracks(book, d, window) && window != [] && LegOf(book, window[|window| - 1]) != LegOf(book, t)
    ensures Step(w, groups) == Admit(book, window, t)
    ensures Tracks(book, Note(book, d', t), w) && Known(book, w)
    ensures t.token in d'.tokens
  {
    var info := book[t.token];
    groups := [];
    w := window + [t];
    d' := d.(tokens := d.tokens + {t.token});
    TracksPush(book, d, window, t);
    assert Note(book, d', t) == Note(book, d, t);
    if !Has(book, window, info.leg) {
      StaleFlagIsHarmless(book, window, t);
    }
    if d'.Even() && |d'.tokens| == 3 {
      groups := groups + [w];
    } else {
      w, d' := DropLeadingRun(book, window, t);
    }
  }

  /** The switch over the instrument type: the trade enters the window. */
  method AdmitTrade(book: Book, window: seq<Trade>, d: Details, t: Trade)
    returns (w: seq<Trade>, d': Details, groups: seq<seq<Trade>>)
    requires Known(book, window) && t.token in book && Positive(window)
    requires Tracks(book, d, window)
    ensures Step(w, groups) == Admit(book, window, t)
    ensures Tracks(book, d', w) && Known(book, w)
  {
    var info := book[t.token];
    if d.lastLeg.Some? && d.lastLeg.value != info.leg && info.leg in d.flags && d.flags - {info.leg} != {} {
      w, d', groups := LegReturns(book, window, d, t);
    } else {
      w, d', groups := window + [t], d.(tokens := d.tokens + {t.token}), [];
      TracksPush(book, d, window, t);
      if window != [] && LegOf(book, window[|window| - 1]) != info.leg {
        OtherFlagStands(book, window, d, info.leg);
      }
    }
    ghost var noted := Note(book, d', t);
    d' := d'.(flags := d'.flags + {info.leg}, lastExpiry := info.expiry, lastLeg := Some(info.leg));
    if info.leg != Fut {
      d' := d'.(strike := info.strike);
    }
    d' := d'.Add(info.leg, t.qty);
    assert d' == noted;
  }

  /** The last part of the loop body: a window that balances, or from which a group can be cut, is put out. */
  method SettleWindow(book: Book, window: seq<Trade>, d: Details)
    returns (w: seq<Trade>, d': Details, groups: seq<seq<Trade>>)
    requires Known(book, window) && Positive(window)
    requires Tracks(book, d, window)
    ensures Step(w, groups) == Settle(book, window)
    ensures Tracks(book, d', w) && Known(book, w)
  {
    groups, w, d' := [], window, d;
    if d.Even() && |d.tokens| == 3 {
      groups := groups + [w];
      w := [];
      // The flags and the last expiry stay as they were.
      d' := d.(tokens := {}, futQty := 0, callQty := 0, putQty := 0, strike := 0, lastLeg := None);
    } else if d.futQty != 0 && d.callQty != 0 && d.putQty != 0 && |d.tokens| == 3 {
      QtyPositive(book, window, Fut);
      QtyPositive(book, window, Call);
      QtyPositive(book, window, Put);
      var group, complete := BuildGroup(book, window);
      if complete {
        groups := groups + [group];
        w := [];
        d' := NO_DETAILS;
      }
    } else {
      QtyPositive(book, window, Fut);
      QtyPositive(book, window, Call);
      QtyPositive(book, window, Put);
    }
  }

  lemma PruneKeepsPart(book: Book, w: seq<Trade>, t: Trade)
    ensures multiset(Prune(book, w, t)) <= multiset(w)
  {
    OfExpiryKeeps(book, w, ExpiryOf(book, t));
    OfStrikeKeeps(book, w, StrikeOf(book, t));
  }

  lemma AdmitKeepsPart(book: Book, w: seq<Trade>, t: Trade)
    ensures multiset(Admit(book, w, t).window) <= multiset(w) + multiset{t}
  {
    DropRunKeeps(book, w + [t], LegOf(book, t));
    assert multiset(w + [t]) == multiset(w) + multiset{t};
  }

  lemma StepKeepsPart(book: Book, w: seq<Trade>, t: Trade)
    ensures multiset(SplitStep(book, w, t).window) <= multiset(w) + multiset{t}
  {
    if OneSided(t) {
      var p := Prune(book, w, t);
      PruneKeepsPart(book, w, t);
      AdmitKeepsPart(book, p, t);
    }
  }

  lemma PartGrows(part: seq<Trade>, before: seq<Trade>, ts: seq<Trade>, n: nat, t: Trade, part': seq<Trade>)
    requires n + 1 == |ts| && before == ts[..n] && t == ts[n]
    requires multiset(part) <= multiset(before) && multiset(part') <= multiset(part) + multiset{t}
    ensures multiset(part') <= multiset(ts)
  {
    assert ts == before + [t];
  }

  lemma {:induction false} RunKeepsPart(book: Book, ts: seq<Trade>)
    ensures multiset(SplitRun(book, ts).window) <= multiset(ts)
  {
    if ts != [] {
      var n := |ts| - 1;
      var w := SplitRun(book, ts[..n]).window;
      var step := SplitStep(book, w, ts[n]);
      RunKeepsPart(book, ts[..n]);
      StepKeepsPart(book, w, ts[n]);
      assert SplitRun(book, ts).window == step.window;
      PartGrows(w, ts[..n], ts, n, ts[n], step.window);
    }
  }

  lemma PartOf(part: seq<Trade>, whole: seq<Trade>)
    requires multiset(part) <= multiset(whole)
    ensures forall t :: t in part ==> t in whole
  {
    forall t | t in part ensures t in whole {
      assert t in multiset(part);
    }
  }

  lemma PartIsSound(book: Book, part: seq<Trade>, whole: seq<Trade>)
    requires multiset(part) <= multiset(whole) && Known(book, whole) && Positive(whole)
    ensures Known(book, part) && Positive(part)
  {
    PartOf(part, whole);
  }

  lemma RunStep(book: Book, ts: seq<Trade>, i: nat)
    requires i < |ts| && Known(book, ts) && Positive(ts)
    ensures var before := SplitRun(book, ts[..i]);
            var step := SplitStep(book, before.window, ts[i]);
            && Known(book, before.window + [ts[i]]) && Positive(before.window + [ts[i]])
            && SplitRun(book, ts[..i + 1]) == Step(step.window, before.groups + step.groups)
  {
    assert ts[..i + 1][..i] == ts[..i];
    RunKeepsPart(book, ts[..i]);
    PrefixIsPart(ts, i);
    PartIsSound(book, SplitRun(book, ts[..i]).window, ts);
  }

  /** The loop body for one trade. */
  method Slide(book: Book, window: seq<Trade>, d: Details, t: Trade)
    returns (w: seq<Trade>, d': Details, groups: seq<seq<Trade>>)
    requires Known(book, window + [t]) && Positive(window + [t])
    requires Tracks(book, d, window)
    ensures Step(w, groups) == SplitStep(book, window, t)
    ensures Tracks(book, d', w)
  {
    assert t in window + [t] && forall x :: x in window ==> x in window + [t];
    if !OneSided(t) {
      return [], NO_DETAILS, [];
    }
    var settled;
    w, d' := PruneWindow(book, window, d, t);
    PruneKeepsPart(book, window, t);
    PartIsSound(book, w, window);
    AdmitKeepsPart(book, w, t);
    ghost var pruned := w;
    w, d', groups := AdmitTrade(book, w, d', t);
    assert multiset(window + [t]) == multiset(window) + multiset{t};
    PartIsSound(book, w, window + [t]);
    w, d', settled := SettleWindow(book, w, d');
    groups := groups + settled;
  }

  /** The whole loop: carrying the details along gives the groups that recomputing them would give. */
  method SplitTrade(book: Book, trades: seq<Trade>, tokens: set<int>) returns (groups: seq<seq<Trade>>)
    requires Known(book, trades) && Positive(trades)
    ensures groups == SplitGroups(book, trades, tokens)
  {
    if |trades| == 3 && |tokens| == 3 {
      return [trades];
    }
    groups := [];
    var window: seq<Trade> := [];
    var d := NO_DETAILS;
    for i := 0 to |trades|
      invariant SplitRun(book, trades[..i]) == Step(window, groups)
      invariant Tracks(book, d, window)
    {
      RunStep(book, trades, i);
      var more;
      window, d, more := Slide(book, window, d, trades[i]);
      groups := groups + more;
    }
    assert trades[..|trades|] == trades;
  }
}
