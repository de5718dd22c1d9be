/** The index-based search that cuts a balanced group out of a window whose three legs do not balance. */
module Regroup {
  import opened Market
  import opened Window

  /** Position of the first trade whose leg is not among the given ones. */
  function FirstOutside(book: Book, w: seq<Trade>, legs: set<Leg>): (i: nat)
    ensures i <= |w|
    ensures forall j :: 0 <= j < i ==> LegOf(book, w[j]) in legs
    ensures i < |w| ==> LegOf(book, w[i]) !in legs
  {
    if w == [] || LegOf(book, w[0]) !in legs then 0 else 1 + FirstOutside(book, w[1..], legs)
  }

  /** Where the second leg type first appears. */
  function StartIndex(book: Book, w: seq<Trade>): (i: nat)
    ensures i <= |w|
  {
    if w == [] then 0 else FirstOutside(book, w, {LegOf(book, w[0])})
  }

  /** Where the third leg type first appears. */
  function EndIndex(book: Book, w: seq<Trade>): (i: nat)
    ensures StartIndex(book, w) <= i <= |w|
  {
    var s := StartIndex(book, w);
    if s == |w| then s else s + FirstOutside(book, w[s..], {LegOf(book, w[0]), LegOf(book, w[s])})
  }

  /** Running total, just before the third leg appears, of the leg traded last. */
  function MiddleQty(book: Book, w: seq<Trade>): int {
    var e := EndIndex(book, w);
    if e == 0 then 0 else Qty(book, w[..e], LegOf(book, w[e - 1]))
  }

  function Reverse(s: seq<Trade>): seq<Trade> {
    if s == [] then [] else [s[|s| - 1]] + Reverse(s[..|s| - 1])
  }

  lemma {:induction false} ReversePermutes(s: seq<Trade>)
    ensures |Reverse(s)| == |s| && multiset(Reverse(s)) == multiset(s)
  {
    if s != [] {
      assert s == s[..|s| - 1] + [s[|s| - 1]];
      ReversePermutes(s[..|s| - 1]);
    }
  }

  /** How many trades it takes to bring the running quantity to the target; all of them if it never gets there. */
  function TakeCount(s: seq<Trade>, taken: int, target: int): (k: nat)
    ensures k <= |s|
  {
    if s == [] then 0
    else if taken + s[0].qty == target then 1
    else 1 + TakeCount(s[1..], taken + s[0].qty, target)
  }

  /** The shortest non-empty prefix that brings the running quantity to the target, else everything. */
  function TakeUntil(s: seq<Trade>, taken: int, target: int): seq<Trade> {
    s[..TakeCount(s, taken, target)]
  }

  function OuterFirst(book: Book, w: seq<Trade>): seq<Trade> {
    TakeUntil(Reverse(w[..StartIndex(book, w)]), 0, MiddleQty(book, w))
  }

  function OuterLast(book: Book, w: seq<Trade>): seq<Trade> {
    TakeUntil(w[EndIndex(book, w)..], 0, MiddleQty(book, w))
  }

  /** One run going back from the start index, the whole middle, one run going on from the end index. */
  function Regrouped(book: Book, w: seq<Trade>): Option<seq<Trade>> {
    if Total(OuterLast(book, w)) == Total(OuterFirst(book, w)) == MiddleQty(book, w) then
      Some(OuterFirst(book, w) + w[StartIndex(book, w)..EndIndex(book, w)] + OuterLast(book, w))
    else None
  }

  predicate AllLegs(book: Book, w: seq<Trade>) {
    Has(book, w, Fut) && Has(book, w, Call) && Has(book, w, Put)
  }

  lemma ThirdLegIsFound(book: Book, w: seq<Trade>)
    requires AllLegs(book, w)
    ensures 0 < StartIndex(book, w) < EndIndex(book, w) < |w|
    ensures forall j :: 0 <= j < StartIndex(book, w) ==> LegOf(book, w[j]) == LegOf(book, w[0])
    ensures LegOf(book, w[StartIndex(book, w)]) != LegOf(book, w[0])
    ensures forall j :: 0 <= j < EndIndex(book, w) ==>
              LegOf(book, w[j]) in {LegOf(book, w[0]), LegOf(book, w[StartIndex(book, w)])}
    ensures LegOf(book, w[EndIndex(book, w)]) !in {LegOf(book, w[0]), LegOf(book, w[StartIndex(book, w)])}
  {
    var s, e := StartIndex(book, w), EndIndex(book, w);
    assert exists t :: t in w && LegOf(book, t) != LegOf(book, w[0]);
    assert s < |w|;
    OnlyTwoLegsUntil(book, w, s, e);
    assert w[s..][e - s] == w[e];
  }

  lemma OnlyTwoLegsUntil(book: Book, w: seq<Trade>, s: nat, e: nat)
    requires s < |w| && s == StartIndex(book, w) && e == EndIndex(book, w)
    ensures forall j :: 0 <= j < e ==> LegOf(book, w[j]) in {LegOf(book, w[0]), LegOf(book, w[s])}
    ensures AllLegs(book, w) ==> e < |w|
  {
    var two := {LegOf(book, w[0]), LegOf(book, w[s])};
    assert forall j :: s <= j < e ==> w[s..][j - s] == w[j];
    LegsWithin(book, w, two);
    AllLegsAreThree(book, w);
    assert |two| <= 2;
  }

  lemma LegsWithin(book: Book, w: seq<Trade>, legs: set<Leg>)
    ensures (forall j :: 0 <= j < |w| ==> LegOf(book, w[j]) in legs) ==> |Legs(book, w)| <= |legs|
  {
    if forall j :: 0 <= j < |w| ==> LegOf(book, w[j]) in legs {
      assert Legs(book, w) <= legs;
      assert legs == Legs(book, w) + (legs - Legs(book, w));
    }
  }

  lemma {:induction false} TakeUntilIsShortest(s: seq<Trade>, taken: int, target: int)
    ensures var k := TakeCount(s, taken, target);
            && (s != [] ==> k > 0)
            && (taken + Total(s[..k]) == target || k == |s|)
            && forall j :: 0 < j < k ==> taken + Total(s[..j]) != target
  {
    if s != [] {
      forall i | 0 < i <= |s| ensures Total(s[..i]) == s[0].qty + Total(s[1..][..i - 1]) {
        TotalFront(s, i);
      }
      assert s[1..][..0] == [];
      TakeUntilIsShortest(s[1..], taken + s[0].qty, target);
    }
  }

  lemma {:induction false} TotalFront(s: seq<Trade>, i: nat)
    requires 0 < i <= |s|
    ensures Total(s[..i]) == s[0].qty + Total(s[1..][..i - 1])
  {
    assert s[..i][..i - 1] == s[..i - 1];
    if i == 1 {
      assert s[..1][..0] == [];
    } else {
      TotalFront(s, i - 1);
      assert s[1..][..i - 1][..i - 2] == s[1..][..i - 2];
      assert s[1..][..i - 1][i - 2] == s[i - 1];
    }
  }

  lemma PrefixIsPart(s: seq<Trade>, k: nat)
    requires k <= |s|
    ensures multiset(s[..k]) <= multiset(s)
  {
    assert s == s[..k] + s[k..];
  }

  lemma OuterFirstIsPart(book: Book, w: seq<Trade>)
    ensures multiset(OuterFirst(book, w)) <= multiset(w[..StartIndex(book, w)])
  {
    var back := Reverse(w[..StartIndex(book, w)]);
    PrefixIsPart(back, TakeCount(back, 0, MiddleQty(book, w)));
    ReversePermutes(w[..StartIndex(book, w)]);
  }

  lemma OuterLastIsPart(book: Book, w: seq<Trade>)
    ensures multiset(OuterLast(book, w)) <= multiset(w[EndIndex(book, w)..])
  {
    var on := w[EndIndex(book, w)..];
    PrefixIsPart(on, TakeCount(on, 0, MiddleQty(book, w)));
  }

  lemma CutInThree(w: seq<Trade>, s: nat, e: nat)
    requires s <= e <= |w|
    ensures multiset(w) == multiset(w[..s]) + multiset(w[s..e]) + multiset(w[e..])
  {
    assert w == w[..s] + w[s..e] + w[e..];
  }

  /** No position of the window is used twice. */
  lemma RegroupedIsPart(book: Book, w: seq<Trade>)
    requires Regrouped(book, w).Some?
    ensures multiset(Regrouped(book, w).value) <= multiset(w)
  {
    OuterFirstIsPart(book, w);
    OuterLastIsPart(book, w);
    CutInThree(w, StartIndex(book, w), EndIndex(book, w));
  }

  lemma {:induction false} ReverseAt(s: seq<Trade>)
    ensures |Reverse(s)| == |s|
    ensures forall j :: 0 <= j < |s| ==> Reverse(s)[j] == s[|s| - 1 - j]
  {
    if s != [] {
      ReverseAt(s[..|s| - 1]);
    }
  }

  lemma ReversePrefix(s: seq<Trade>, k: nat)
    requires k <= |s|
    ensures k <= |Reverse(s)| && Reverse(s)[..k] == Reverse(s[|s| - k..])
  {
    ReverseAt(s);
    ReverseAt(s[|s| - k..]);
  }

  lemma {:induction false} TotalConcat(a: seq<Trade>, c: seq<Trade>)
    ensures Total(a + c) == Total(a) + Total(c)
  {
    if c == [] {
      assert a + c == a;
    } else {
      assert (a + c)[..|a + c| - 1] == a + c[..|c| - 1];
      TotalConcat(a, c[..|c| - 1]);
    }
  }

  lemma {:induction false} TotalReverse(s: seq<Trade>)
    ensures Total(Reverse(s)) == Total(s)
  {
    if s != [] {
      var n := |s| - 1;
      TotalReverse(s[..n]);
      TotalConcat([s[n]], Reverse(s[..n]));
      assert [s[n]][..0] == [];
    }
  }

  /** A shortest prefix read backwards is the end of what it was taken from. */
  lemma BackIsEnd(s: seq<Trade>, target: int) returns (i: nat)
    ensures i <= |s| && TakeUntil(Reverse(s), 0, target) == Reverse(s[i..]) && Total(Reverse(s[i..])) == Total(s[i..])
    ensures s != [] ==> i < |s|
  {
    var back := Reverse(s);
    ReverseAt(s);
    TakeUntilIsShortest(back, 0, target);
    i := |s| - TakeCount(back, 0, target);
    ReversePrefix(s, |s| - i);
    TotalReverse(s[i..]);
  }

  lemma OuterFirstIsStretch(book: Book, w: seq<Trade>) returns (i: nat)
    ensures i <= StartIndex(book, w) && OuterFirst(book, w) == Reverse(w[i..StartIndex(book, w)])
    ensures Total(OuterFirst(book, w)) == Total(w[i..StartIndex(book, w)])
    ensures StartIndex(book, w) > 0 ==> i < StartIndex(book, w)
  {
    var s := StartIndex(book, w);
    i := BackIsEnd(w[..s], MiddleQty(book, w));
    assert w[..s][i..] == w[i..s];
  }

  lemma OuterLastIsStretch(book: Book, w: seq<Trade>) returns (j: nat)
    ensures EndIndex(book, w) <= j <= |w| && OuterLast(book, w) == w[EndIndex(book, w)..j]
    ensures EndIndex(book, w) < |w| ==> EndIndex(book, w) < j
  {
    var e, qty := EndIndex(book, w), MiddleQty(book, w);
    TakeUntilIsShortest(w[e..], 0, qty);
    j := e + TakeCount(w[e..], 0, qty);
    assert w[e..][..j - e] == w[e..j];
  }

  /** A regrouped group takes one stretch w[i..j] of the window around the middle, its part before the middle
      backwards; the parts on either side of the middle each trade the middle quantity. */
  lemma RegroupedIsStretch(book: Book, w: seq<Trade>) returns (i: nat, j: nat)
    requires AllLegs(book, w) && Regrouped(book, w).Some?
    ensures i < StartIndex(book, w) < EndIndex(book, w) < j <= |w|
    ensures Regrouped(book, w).value == Reverse(w[i..StartIndex(book, w)]) + w[StartIndex(book, w)..EndIndex(book, w)]
                                        + w[EndIndex(book, w)..j]
    ensures Total(w[i..StartIndex(book, w)]) == Total(w[EndIndex(book, w)..j]) == MiddleQty(book, w)
  {
    ThirdLegIsFound(book, w);
    i := OuterFirstIsStretch(book, w);
    j := OuterLastIsStretch(book, w);
  }

  function Legs(book: Book, w: seq<Trade>): set<Leg> {
    set t | t in w :: LegOf(book, t)
  }

  lemma LegsPush(book: Book, w: seq<Trade>, i: nat)
    requires i < |w|
    ensures w[..i + 1] == w[..i] + [w[i]]
    ensures Legs(book, w[..i + 1]) == Legs(book, w[..i]) + {LegOf(book, w[i])}
  {
  }

  lemma EveryLeg(legs: set<Leg>)
    ensures legs <= {Fut, Call, Put}
  {
    forall leg | leg in legs ensures leg in {Fut, Call, Put} {
      match leg
      case Fut =>
      case Call =>
      case Put =>
    }
  }

  lemma AllLegsAreThree(book: Book, w: seq<Trade>)
    ensures AllLegs(book, w) <==> |Legs(book, w)| == 3
  {
    var three := {Fut, Call, Put};
    EveryLeg(Legs(book, w));
    assert Fut in Legs(book, w) <==> Has(book, w, Fut);
    assert Call in Legs(book, w) <==> Has(book, w, Call);
    assert Put in Legs(book, w) <==> Has(book, w, Put);
    if |Legs(book, w)| == 3 {
      assert |three - Legs(book, w)| == 0;
    }
    if AllLegs(book, w) {
      assert Legs(book, w) == three;
    }
  }

  lemma OneLegSeen(book: Book, w: seq<Trade>, i: nat)
    requires 0 < i < |w| && |Legs(book, w[..i])| == 1 && LegOf(book, w[i]) !in Legs(book, w[..i])
    ensures StartIndex(book, w) == i
  {
    var leg := LegOf(book, w[0]);
    assert w[..i][0] == w[0];
    assert leg in Legs(book, w[..i]);
    assert |Legs(book, w[..i]) - {leg}| == 0;
    assert forall j :: 0 <= j < i ==> w[..i][j] == w[j] && LegOf(book, w[j]) in Legs(book, w[..i]);
  }

  lemma LegSeen(book: Book, w: seq<Trade>, i: nat, j: nat)
    requires j < i <= |w|
    ensures LegOf(book, w[j]) in Legs(book, w[..i])
  {
    assert w[..i][j] == w[j];
  }

  lemma TwoLegsSeen(book: Book, w: seq<Trade>, i: nat)
    requires StartIndex(book, w) < i < |w|
    requires |Legs(book, w[..i])| == 2 && LegOf(book, w[i]) !in Legs(book, w[..i])
    ensures EndIndex(book, w) == i
  {
    var s, legs := StartIndex(book, w), Legs(book, w[..i]);
    var two := {LegOf(book, w[0]), LegOf(book, w[s])};
    LegSeen(book, w, i, 0);
    LegSeen(book, w, i, s);
    assert LegOf(book, w[0]) != LegOf(book, w[s]);
    assert |legs - two| == 0;
    assert legs == two;
    forall j | 0 <= j < i - s ensures LegOf(book, w[s..][j]) in two {
      LegSeen(book, w, i, s + j);
    }
    assert w[s..][i - s] == w[i];
    FirstOutsideIs(book, w[s..], two, i - s);
  }

  lemma FirstOutsideIs(book: Book, w: seq<Trade>, legs: set<Leg>, i: nat)
    requires i < |w| && LegOf(book, w[i]) !in legs
    requires forall j :: 0 <= j < i ==> LegOf(book, w[j]) in legs
    ensures FirstOutside(book, w, legs) == i
  {
  }

  /** The running totals of the three legs. */
  predicate Totals(book: Book, w: seq<Trade>, totals: map<Leg, int>) {
    totals.Keys == {Fut, Call, Put} && forall leg :: leg in totals ==> totals[leg] == Qty(book, w, leg)
  }

  lemma TotalsPush(book: Book, w: seq<Trade>, i: nat, totals: map<Leg, int>, leg: Leg)
    requires i < |w| && Totals(book, w[..i], totals) && leg == LegOf(book, w[i])
    ensures leg in totals
    ensures Totals(book, w[..i + 1], totals[leg := totals[leg] + w[i].qty])
    ensures Qty(book, w[..i + 1], leg) == totals[leg] + w[i].qty
  {
    EveryLeg({leg});
    assert leg in {leg};
    LegsPush(book, w, i);
    forall l ensures Qty(book, w[..i + 1], l) == Qty(book, w[..i], l) + Amount(book, w[i], l) {
      QtyPush(book, w[..i], w[i], l);
    }
  }

  lemma ThreeLegs(book: Book, w: seq<Trade>, i: nat)
    requires i < |w| && |Legs(book, w[..i])| == 2 && LegOf(book, w[i]) !in Legs(book, w[..i])
    ensures AllLegs(book, w)
  {
    LegsPush(book, w, i);
    var seen := Legs(book, w[..i + 1]);
    assert |seen| == 3 && seen <= Legs(book, w);
    EveryLeg(seen);
    assert |{Fut, Call, Put} - seen| == 0;
    AllLegsAreThree(book, w);
  }

  /** What the search knows before position i: which legs it has seen, their totals, the total of the leg seen
      last and, once there are two, where the second began. */
  predicate Seeking(book: Book, w: seq<Trade>, i: nat, totals: map<Leg, int>, seen: set<Leg>, lastQty: int, start: nat)
    requires i <= |w|
  {
    && Totals(book, w[..i], totals)
    && seen == Legs(book, w[..i]) && |seen| <= 2 && (seen == {} <==> i == 0)
    && (lastQty == if i == 0 then 0 else Qty(book, w[..i], LegOf(book, w[i - 1])))
    && (|seen| == 2 ==> start == StartIndex(book, w) && start < i)
  }

  lemma SeekNext(book: Book, w: seq<Trade>, i: nat, totals: map<Leg, int>, seen: set<Leg>, lastQty: int, start: nat, leg: Leg)
    requires i < |w| && leg == LegOf(book, w[i])
    requires Seeking(book, w, i, totals, seen, lastQty, start) && !(|seen| == 2 && leg !in seen)
    ensures leg in totals
    ensures Seeking(book, w, i + 1, totals[leg := totals[leg] + w[i].qty], seen + {leg}, totals[leg] + w[i].qty,
                    if |seen| == 1 && leg !in seen then i else start)
  {
    LegsPush(book, w, i);
    TotalsPush(book, w, i, totals, leg);
    if |seen| == 1 && leg !in seen {
      OneLegSeen(book, w, i);
    }
  }

  lemma SeekFound(book: Book, w: seq<Trade>, i: nat, totals: map<Leg, int>, seen: set<Leg>, lastQty: int, start: nat)
    requires i < |w| && Seeking(book, w, i, totals, seen, lastQty, start)
    requires |seen| == 2 && LegOf(book, w[i]) !in seen
    ensures AllLegs(book, w) && start == StartIndex(book, w) && i == EndIndex(book, w) && lastQty == MiddleQty(book, w)
  {
    TwoLegsSeen(book, w, i);
    ThreeLegs(book, w, i);
  }

  method GetMiddleQty(book: Book, w: seq<Trade>) returns (qty: int, start: nat, end: nat)
    requires Known(book, w)
    ensures AllLegs(book, w) ==>
              start == StartIndex(book, w) && end == EndIndex(book, w) && qty == MiddleQty(book, w)
    ensures !AllLegs(book, w) ==> end == 0 && qty == 0
  {
    qty, start, end := 0, 0, 0;
    var totals := map[Fut := 0, Call := 0, Put := 0];
    var seen: set<Leg> := {};
    var lastQty := 0;
    for i := 0 to |w|
      invariant qty == 0 && end == 0
      invariant Seeking(book, w, i, totals, seen, lastQty, start)
    {
      var leg := book[w[i].token].leg;
      if |seen| == 2 && leg !in seen {
        SeekFound(book, w, i, totals, seen, lastQty, start);
        return lastQty, start, i;
      }
      SeekNext(book, w, i, totals, seen, lastQty, start, leg);
      if |seen| == 1 && leg !in seen {
        start := i;
      }
      totals := totals[leg := totals[leg] + w[i].qty];
      lastQty := totals[leg];
      seen := seen + {leg};
    }
    assert w[..|w|] == w;
    AllLegsAreThree(book, w);
  }

  lemma TakeNext(all: seq<Trade>, k: nat, taken: int, target: int)
    requires k < |all|
    ensures all[..k + 1] == all[..k] + [all[k]] && Total(all[..k + 1]) == Total(all[..k]) + all[k].qty
    ensures TakeCount(all[k..], taken, target) ==
            if taken + all[k].qty == target then 1 else 1 + TakeCount(all[k + 1..], taken + all[k].qty, target)
  {
    assert all[k..][1..] == all[k + 1..];
    TotalPush(all[..k], all[k]);
  }

  /** First group: back from the start index until the quantity is reached; all is that part of the window,
      read backwards. */
  method TakeBack(w: seq<Trade>, start: nat, qty: int, ghost all: seq<Trade>) returns (group: seq<Trade>, qty1: int)
    requires start <= |w| && |all| == start && forall j :: 0 <= j < start ==> all[j] == w[start - 1 - j]
    ensures group == TakeUntil(all, 0, qty) && qty1 == Total(group)
  {
    ghost var k := 0;
    group, qty1 := [], 0;
    for count := start downto 0
      invariant k == start - count
      invariant group == all[..k] && qty1 == Total(group)
      invariant TakeCount(all, 0, qty) == k + TakeCount(all[k..], qty1, qty)
    {
      TakeNext(all, k, qty1, qty);
      group := group + [w[count]];
      qty1 := qty1 + w[count].qty;
      k := k + 1;
      if qty1 == qty {
        return;
      }
    }
  }

  /** Second group: everything between the two indices. */
  method TakeMiddle(w: seq<Trade>, start: nat, end: nat) returns (group: seq<Trade>)
    requires start <= end <= |w|
    ensures group == w[start..end]
  {
    group := [];
    for count := start to end
      invariant group == w[start..count]
    {
      group := group + [w[count]];
    }
  }

  /** Third group: on from the end index until the quantity is reached. */
  method TakeOn(w: seq<Trade>, end: nat, qty: int) returns (group: seq<Trade>, qty3: int)
    requires end <= |w|
    ensures group == TakeUntil(w[end..], 0, qty) && qty3 == Total(group)
  {
    ghost var all, k := w[end..], 0;
    group, qty3 := [], 0;
    for count := end to |w|
      invariant k == count - end
      invariant group == all[..k] && qty3 == Total(group)
      invariant TakeCount(all, 0, qty) == k + TakeCount(all[k..], qty3, qty)
    {
      TakeNext(all, k, qty3, qty);
      group := group + [w[count]];
      qty3 := qty3 + w[count].qty;
      k := k + 1;
      if qty3 == qty {
        return;
      }
    }
  }

  /** Builds the group, as the engine does once the three quantities are known not to balance. */
  method BuildGroup(book: Book, w: seq<Trade>) returns (group: seq<Trade>, complete: bool)
    requires Known(book, w) && AllLegs(book, w)
    ensures Regrouped(book, w) == if complete then Some(group) else None
  {
    var qty, start, end := GetMiddleQty(book, w);
    ReverseAt(w[..start]);
    var first, qty1 := TakeBack(w, start, qty, Reverse(w[..start]));
    var middle := TakeMiddle(w, start, end);
    var last, qty3 := TakeOn(w, end, qty);
    group := first + middle + last;
    complete := qty3 == qty1 && qty1 == qty;
  }
}
