/** Conversions and reversals traded one leg after the other are always found, priced and reported. */
module Blocks {
  import opened Market
  import opened Window
  import opened Regroup
  import opened Splitter
  import opened Screening
  import opened Groups
  import opened Pricing
  import opened Engine
  import opened Exact

  /** Trades of three contracts, one run each: up to s, from s to e, and from e on. */
  predicate ThreeRuns(w: seq<Trade>, s: nat, e: nat) {
    && 0 < s < e < |w|
    && (forall i :: 0 <= i < s ==> w[i].token == w[0].token)
    && (forall i :: s <= i < e ==> w[i].token == w[s].token)
    && (forall i :: e <= i < |w| ==> w[i].token == w[e].token)
  }

  /** A future, a call and a put in any order, of one expiry and one strike. */
  predicate OneOfEach(book: Book, x: int, y: int, z: int) {
    && Info(book, x).leg != Info(book, y).leg && Info(book, y).leg != Info(book, z).leg
    && Info(book, x).leg != Info(book, z).leg
    && Info(book, x).expiry == Info(book, y).expiry == Info(book, z).expiry
    && (Info(book, x).leg == Fut ==> Info(book, y).strike == Info(book, z).strike)
    && (Info(book, y).leg == Fut ==> Info(book, x).strike == Info(book, z).strike)
    && (Info(book, z).leg == Fut ==> Info(book, x).strike == Info(book, y).strike)
  }

  /** The three runs trade the same quantity. */
  predicate IsBlock(book: Book, w: seq<Trade>, s: nat, e: nat) {
    && ThreeRuns(w, s, e) && OneOfEach(book, w[0].token, w[s].token, w[e].token)
    && (forall i :: 0 <= i < |w| ==> w[i].qty > 0 && OneSided(w[i]))
    && Total(w[..s]) == Total(w[s..e]) == Total(w[e..])
  }

  // ------------------------------------------------------------------ quantities of runs

  lemma {:induction false} QtyOfRun(book: Book, w: seq<Trade>, leg: Leg, one: Leg)
    requires forall i :: 0 <= i < |w| ==> LegOf(book, w[i]) == one
    ensures Qty(book, w, leg) == if leg == one then Total(w) else 0
  {
    if w != [] {
      QtyOfRun(book, w[..|w| - 1], leg, one);
    }
  }

  /** Quantities of the first n trades of a block, n beyond the second run. */
  lemma BlockQty(book: Book, w: seq<Trade>, s: nat, e: nat, n: nat, leg: Leg)
    requires ThreeRuns(w, s, e) && OneOfEach(book, w[0].token, w[s].token, w[e].token) && e <= n <= |w|
    ensures Qty(book, w[..n], leg) == if leg == LegOf(book, w[0]) then Total(w[..s])
                                      else if leg == LegOf(book, w[s]) then Total(w[s..e])
                                      else if leg == LegOf(book, w[e]) then Total(w[e..n]) else 0
  {
    var a, b, c := w[..s], w[s..e], w[e..n];
    assert w[..n] == a + b + c;
    QtyConcat(book, a + b, c, leg);
    QtyConcat(book, a, b, leg);
    QtyOfRun(book, a, leg, LegOf(book, w[0]));
    QtyOfRun(book, b, leg, LegOf(book, w[s]));
    QtyOfRun(book, c, leg, LegOf(book, w[e]));
  }

  lemma PartTotal(w: seq<Trade>, e: nat, n: nat)
    requires e <= n <= |w| && forall i :: 0 <= i < |w| ==> w[i].qty > 0
    ensures n < |w| ==> Total(w[e..n]) < Total(w[e..])
  {
    if n < |w| {
      var c := w[e..];
      assert Positive(c) by {
        forall t | t in c ensures t.qty > 0 {
          var i :| 0 <= i < |c| && c[i] == t;
          assert w[e + i] == t;
        }
      }
      assert c[..n - e] == w[e..n] && c[..|c|] == c;
      LongerIsMore(c, n - e, |c|);
    }
  }

  lemma SmallerTotal(c: seq<Trade>, m: nat)
    requires Positive(c) && m <= |c|
    ensures Total(c[..m]) <= Total(c)
  {
    assert c[..|c|] == c;
    if m < |c| {
      LongerIsMore(c, m, |c|);
    }
  }

  // ------------------------------------------------------------------ the splitting

  lemma BlockLeg(book: Book, w: seq<Trade>, s: nat, e: nat, i: nat)
    requires ThreeRuns(w, s, e) && i < |w|
    ensures LegOf(book, w[i]) == LegOf(book, w[if i < s then 0 else if i < e then s else e])
    ensures StrikeOf(book, w[i]) == StrikeOf(book, w[if i < s then 0 else if i < e then s else e])
    ensures ExpiryOf(book, w[i]) == ExpiryOf(book, w[if i < s then 0 else if i < e then s else e])
  {
  }

  /** All expire together, and all options have one strike. */
  lemma BlockTerms(book: Book, w: seq<Trade>, s: nat, e: nat, i: nat, j: nat)
    requires ThreeRuns(w, s, e) && OneOfEach(book, w[0].token, w[s].token, w[e].token) && i < |w| && j < |w|
    ensures ExpiryOf(book, w[i]) == ExpiryOf(book, w[j])
    ensures LegOf(book, w[i]) != Fut && LegOf(book, w[j]) != Fut ==> StrikeOf(book, w[i]) == StrikeOf(book, w[j])
  {
    BlockLeg(book, w, s, e, i);
    BlockLeg(book, w, s, e, j);
  }

  lemma BlockNotPruned(book: Book, w: seq<Trade>, s: nat, e: nat, n: nat, p: seq<Trade>)
    requires ThreeRuns(w, s, e) && OneOfEach(book, w[0].token, w[s].token, w[e].token) && n < |w| && p == w[..n]
    ensures Prune(book, p, w[n]) == p
  {
    if n > 0 {
      BlockTerms(book, w, s, e, n - 1, n);
    }
    var o := LastOption(book, p);
    if o < n {
      assert p[o] == w[o];
      BlockTerms(book, w, s, e, o, n);
      NotPruned(book, p, w[n], o);
    } else {
      NotPruned(book, p, w[n], 0);
    }
  }

  lemma BlockNotBack(book: Book, w: seq<Trade>, s: nat, e: nat, n: nat, p: seq<Trade>)
    requires ThreeRuns(w, s, e) && OneOfEach(book, w[0].token, w[s].token, w[e].token) && n < |w| && p == w[..n]
    ensures GoesOn(book, p, LegOf(book, w[n]))
  {
    BlockLeg(book, w, s, e, n);
    forall i | 0 <= i < n && LegOf(book, p[i]) == LegOf(book, w[n]) ensures LegOf(book, p[n - 1]) == LegOf(book, w[n]) {
      BlockLeg(book, w, s, e, i);
      BlockLeg(book, w, s, e, n - 1);
    }
  }

  lemma PrefixPositive(w: seq<Trade>, n: nat)
    requires n <= |w| && forall i :: 0 <= i < |w| ==> w[i].qty > 0
    ensures Positive(w[..n])
  {
  }

  /** Before the third run begins its leg is missing. */
  lemma TwoRunsStay(book: Book, w: seq<Trade>, s: nat, e: nat, n: nat)
    requires IsBlock(book, w, s, e) && 0 < n <= e
    ensures Settle(book, w[..n]) == Step(w[..n], [])
  {
    forall i | 0 <= i < n ensures LegOf(book, w[..n][i]) != LegOf(book, w[e]) {
      BlockLeg(book, w, s, e, i);
    }
    PrefixPositive(w, n);
    LegMissing(book, w[..n], LegOf(book, w[e]));
  }

  lemma BlockLegsAt(book: Book, w: seq<Trade>, s: nat, e: nat, n: nat)
    requires ThreeRuns(w, s, e) && OneOfEach(book, w[0].token, w[s].token, w[e].token) && e < n <= |w|
    ensures LegsAt(book, w[..n], s, e)
  {
    var v := w[..n];
    assert forall i :: 0 <= i < n ==> v[i] == w[i];
    forall i | 0 <= i < e ensures LegOf(book, v[i]) == LegOf(book, v[if i < s then 0 else s]) {
      BlockLeg(book, w, s, e, i);
    }
  }

  lemma LegsAtOnce(book: Book, v: seq<Trade>, s: nat, e: nat, s': nat, e': nat)
    requires LegsAt(book, v, s, e) && LegsAt(book, v, s', e')
    ensures s == s' && e == e'
  {
    LegsAreAt(book, v, s, e);
    LegsAreAt(book, v, s', e');
  }

  /** Before the third run is complete it trades too little to match. */
  lemma NoMatchYet(book: Book, w: seq<Trade>, s: nat, e: nat, n: nat, i: nat, j: nat)
    requires IsBlock(book, w, s, e) && e < n < |w|
    ensures !Matches(book, w[..n], s, e, i, j)
  {
    if e < j <= n {
      var v, c := w[..n], w[e..n];
      PrefixPositive(w, n);
      assert Positive(c) by {
        assert forall t :: t in c ==> t in v;
      }
      assert v[e..j] == c[..j - e] && v[..e] == w[..e] && v[e - 1] == w[e - 1];
      SmallerTotal(c, j - e);
      PartTotal(w, e, n);
      BlockLeg(book, w, s, e, e - 1);
      BlockQty(book, w, s, e, e, LegOf(book, w[s]));
    }
  }

  lemma UnevenYet(book: Book, w: seq<Trade>, s: nat, e: nat, n: nat)
    requires IsBlock(book, w, s, e) && e < n < |w|
    ensures Qty(book, w[..n], LegOf(book, w[e])) < Qty(book, w[..n], LegOf(book, w[0]))
  {
    BlockQty(book, w, s, e, n, LegOf(book, w[e]));
    BlockQty(book, w, s, e, n, LegOf(book, w[0]));
    PartTotal(w, e, n);
  }

  lemma ThirdRunStays(book: Book, w: seq<Trade>, s: nat, e: nat, n: nat)
    requires IsBlock(book, w, s, e) && e < n < |w|
    ensures Settle(book, w[..n]) == Step(w[..n], [])
  {
    var v := w[..n];
    PrefixPositive(w, n);
    UnevenYet(book, w, s, e, n);
    EachLeg(LegOf(book, w[0]), LegOf(book, w[e]));
    BlockLegsAt(book, w, s, e, n);
    forall s': nat, e': nat, i: nat, j: nat | LegsAt(book, v, s', e') ensures !Matches(book, v, s', e', i, j) {
      LegsAtOnce(book, v, s, e, s', e');
      NoMatchYet(book, w, s, e, n, i, j);
    }
    SettlesNothing(book, v);
  }

  lemma EachLeg(a: Leg, b: Leg)
    ensures forall book, v :: Qty(book, v, Fut) == Qty(book, v, Call) == Qty(book, v, Put) ==>
                                Qty(book, v, a) == Qty(book, v, b)
  {
    match a { case Fut => case Call => case Put => }
    match b { case Fut => case Call => case Put => }
  }

  lemma BlockTokens(w: seq<Trade>, s: nat, e: nat)
    requires ThreeRuns(w, s, e)
    ensures Tokens(w) == {w[0].token, w[s].token, w[e].token}
  {
    assert w[0] in w && w[s] in w && w[e] in w;
    forall t | t in w ensures t.token in {w[0].token, w[s].token, w[e].token} {
      var i :| 0 <= i < |w| && w[i] == t;
    }
  }

  lemma BlockBalances(book: Book, w: seq<Trade>, s: nat, e: nat)
    requires IsBlock(book, w, s, e)
    ensures Qty(book, w, Fut) == Qty(book, w, Call) == Qty(book, w, Put) == Total(w[..s]) && |Tokens(w)| == 3
  {
    assert w[..|w|] == w && w[e..|w|] == w[e..];
    ThreeDiffer(LegOf(book, w[0]), LegOf(book, w[s]), LegOf(book, w[e]));
    BlockQty(book, w, s, e, |w|, Fut);
    BlockQty(book, w, s, e, |w|, Call);
    BlockQty(book, w, s, e, |w|, Put);
    BlockTokens(w, s, e);
  }

  lemma BlockNext(book: Book, w: seq<Trade>, s: nat, e: nat, n: nat, before: seq<Trade>, v: seq<Trade>, step: Step)
    requires IsBlock(book, w, s, e) && n < |w| && before == w[..n] && v == w[..n + 1]
    requires Stays(book, before, before) && step == Settle(book, v)
    ensures SplitRun(book, v) == step
  {
    BlockNotPruned(book, w, s, e, n, before);
    BlockNotBack(book, w, s, e, n, before);
    assert v == before + [w[n]];
    OpenTurn(book, before, before, w[n], v, v, step);
  }

  lemma {:induction false} BlockStands(book: Book, w: seq<Trade>, s: nat, e: nat, n: nat, v: seq<Trade>)
    requires IsBlock(book, w, s, e) && n < |w| && v == w[..n]
    ensures Stays(book, v, v)
  {
    if n == 0 {
      assert v == [];
    } else {
      var before := w[..n - 1];
      BlockStands(book, w, s, e, n - 1, before);
      if n <= e {
        TwoRunsStay(book, w, s, e, n);
      } else {
        ThirdRunStays(book, w, s, e, n);
      }
      BlockNext(book, w, s, e, n - 1, before, v, Step(v, []));
    }
  }

  /** A block is put out as one group, whole, by its last trade and no earlier. */
  lemma BlockIsPutOut(book: Book, w: seq<Trade>, s: nat, e: nat)
    requires IsBlock(book, w, s, e)
    ensures SplitRun(book, w) == Step([], [w])
  {
    var n := |w| - 1;
    BlockStands(book, w, s, e, n, w[..n]);
    BlockBalances(book, w, s, e);
    SettlesWhole(book, w);
    assert w[..n + 1] == w;
    BlockNext(book, w, s, e, n, w[..n], w, Step([], [w]));
  }

  // ------------------------------------------------------------------ the test, the screening and the record

  /** Futures and puts are all bought and calls all sold, or the other way round. */
  predicate SidesAgree(book: Book, w: seq<Trade>, conversion: bool) {
    forall i :: 0 <= i < |w| ==> OneSided(w[i]) && ((w[i].buyId == 0) == ((LegOf(book, w[i]) != Call) == conversion))
  }

  lemma {:induction false} AgreedSide(book: Book, w: seq<Trade>, leg: Leg, conversion: bool)
    requires SidesAgree(book, w, conversion)
    ensures LastSide(book, w, leg) == if !Has(book, w, leg) then Unset
                                      else if (leg != Call) == conversion then Buy else Sell
  {
    if w != [] {
      var n := |w| - 1;
      assert w == w[..n] + [w[n]];
      AgreedSide(book, w[..n], leg, conversion);
      HasPush(book, w[..n], w[n]);
    }
  }

  lemma BlockHasLegs(book: Book, w: seq<Trade>, s: nat, e: nat)
    requires ThreeRuns(w, s, e) && OneOfEach(book, w[0].token, w[s].token, w[e].token)
    ensures AllLegs(book, w)
  {
    assert w[0] in w && w[s] in w && w[e] in w;
    ThreeDiffer(LegOf(book, w[0]), LegOf(book, w[s]), LegOf(book, w[e]));
  }

  lemma BlockSides(book: Book, w: seq<Trade>, s: nat, e: nat, conversion: bool)
    requires ThreeRuns(w, s, e) && OneOfEach(book, w[0].token, w[s].token, w[e].token) && SidesAgree(book, w, conversion)
    ensures SidesOpposed(book, w)
  {
    BlockHasLegs(book, w, s, e);
    AgreedSide(book, w, Fut, conversion);
    AgreedSide(book, w, Call, conversion);
    AgreedSide(book, w, Put, conversion);
  }

  /** Such a block passes the test of a group, however many trades its legs have. */
  lemma BlockPasses(book: Book, w: seq<Trade>, s: nat, e: nat, conversion: bool)
    requires IsBlock(book, w, s, e) && SidesAgree(book, w, conversion)
    ensures IsConRev(book, w)
  {
    forall i: nat, j: nat | i < j < |w| ensures PairAgrees(book, w, i, j) {
      BlockTerms(book, w, s, e, i, j);
      BlockTerms(book, w, s, e, j - 1, j);
    }
    BlockBalances(book, w, s, e);
    BlockHasLegs(book, w, s, e);
    BlockSides(book, w, s, e, conversion);
    ConRevIsPairs(book, w);
  }

  lemma TripleMatches(book: Book, f: int, c: int, p: int, tokens: set<int>)
    requires tokens == {f, c, p} && SameTerms(book, f, c, p)
    requires Info(book, f).leg == Fut && Info(book, c).leg == Call && Info(book, p).leg == Put
    ensures SomeMatch(book, tokens)
  {
    var x := if f >= c && f >= p then f else if c >= p then c else p;
    assert IsTop(book, tokens, Fut, x, f) && IsTop(book, tokens, Call, x, c) && IsTop(book, tokens, Put, x, p);
    assert MatchAt(book, tokens, x);
  }

  lemma OneOfEachMatches(book: Book, x: int, y: int, z: int)
    requires OneOfEach(book, x, y, z)
    ensures SomeMatch(book, {x, y, z})
  {
    ThreeDiffer(Info(book, x).leg, Info(book, y).leg, Info(book, z).leg);
    var f := if Info(book, x).leg == Fut then x else if Info(book, y).leg == Fut then y else z;
    var c := if Info(book, x).leg == Call then x else if Info(book, y).leg == Call then y else z;
    var p := if Info(book, x).leg == Put then x else if Info(book, y).leg == Put then y else z;
    assert {x, y, z} == {f, c, p};
    TripleMatches(book, f, c, p, {x, y, z});
  }

  /** It passes the screening of a buffer. */
  lemma BlockIsScreened(book: Book, w: seq<Trade>, s: nat, e: nat, conversion: bool)
    requires IsBlock(book, w, s, e) && SidesAgree(book, w, conversion)
    ensures Screened(book, w, Tokens(w))
  {
    BlockTokens(w, s, e);
    BlockBalances(book, w, s, e);
    OneOfEachMatches(book, w[0].token, w[s].token, w[e].token);
    BlockSides(book, w, s, e, conversion);
  }

  lemma OneGroupRecords(book: Book, w: seq<Trade>, streamId: int)
    requires IsConRev(book, w) && Priceable(book, w)
    ensures RecordsOf(book, Accepted(book, [w]), streamId) == [RecordOf(book, w, streamId)]
  {
    assert [w][..0] == [];
    assert Accepted(book, [w]) == [w];
  }

  lemma BlockIsPriced(book: Book, w: seq<Trade>, s: nat, e: nat, conversion: bool)
    requires IsBlock(book, w, s, e) && SidesAgree(book, w, conversion) && Known(book, w) && LotsNonZero(book)
    ensures Priceable(book, w) && Strategy(LastSide(book, w, Fut)) == if conversion then 1 else 2
  {
    BlockPasses(book, w, s, e, conversion);
    PrefixPositive(w, |w|);
    assert w[..|w|] == w;
    AcceptedIsPriceable(book, w);
    BlockHasLegs(book, w, s, e);
    AgreedSide(book, w, Fut, conversion);
  }

  lemma BlockReport(book: Book, w: seq<Trade>, s: nat, e: nat, conversion: bool, streamId: int)
    requires IsBlock(book, w, s, e) && SidesAgree(book, w, conversion) && Priceable(book, w)
    ensures Report(book, w, Tokens(w), streamId) == [RecordOf(book, w, streamId)]
  {
    BlockIsScreened(book, w, s, e, conversion);
    BlockIsPutOut(book, w, s, e);
    BlockPasses(book, w, s, e, conversion);
    OneGroupRecords(book, w, streamId);
  }

  /** An order message that finds just such a block in the buffer reports it: one record, of the whole block. */
  lemma BlockIsReported(book: Book, state: Snapshot, m: Message, w: seq<Trade>, s: nat, e: nat, conversion: bool)
    requires state.buffer == w && state.tokens == Tokens(w) && Closes(m)
    requires IsBlock(book, w, s, e) && SidesAgree(book, w, conversion) && Known(book, w) && LotsNonZero(book)
    ensures Priceable(book, w)
    ensures Process(book, state, m).records == state.records + [RecordOf(book, w, m.streamId)]
    ensures RecordOf(book, w, m.streamId).strategy == if conversion then 1 else 2
  {
    BlockIsPriced(book, w, s, e, conversion);
    BlockReport(book, w, s, e, conversion, m.streamId);
  }
}
