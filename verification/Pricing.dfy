/** The record reported for an accepted group, and how far its spread is from the exact one. */
module Pricing {
  import opened Market
  import opened Window
  import opened Screening
  import opened Quotients

  datatype Record = Record(timestamp: int, totalTradeLot: int, expiry: int, spread: int, strike: int,
                           seqNo: int, streamId: int, strategy: int, symbol: string)

  /** Integer division as C++ has it: towards zero. */
  function Divide(a: int, b: int): int
    requires b != 0
  {
    var size := (if a < 0 then -a else a) / (if b < 0 then -b else b);
    if (a < 0) == (b < 0) then size else -size
  }

  /** The strike is added to an option's price and not to a future's. */
  function Worth(book: Book, t: Trade): int {
    t.qty * (t.price + if LegOf(book, t) == Fut then 0 else StrikeOf(book, t))
  }

  function Value(book: Book, g: seq<Trade>, leg: Leg): int {
    if g == [] then 0
    else
      var before := Value(book, g[..|g| - 1], leg);
      if LegOf(book, g[|g| - 1]) == leg then before + Worth(book, g[|g| - 1]) else before
  }

  function FutExpiry(book: Book, g: seq<Trade>): int {
    if g == [] then 0
    else if LegOf(book, g[|g| - 1]) == Fut then ExpiryOf(book, g[|g| - 1])
    else FutExpiry(book, g[..|g| - 1])
  }

  function Average(book: Book, g: seq<Trade>, leg: Leg): int
    requires Qty(book, g, leg) != 0
  {
    Divide(Value(book, g, leg), Qty(book, g, leg))
  }

  /** 1 for a conversion, 2 for a reversal. */
  function Strategy(side: Side): int {
    match side
    case Unset => 0
    case Buy => 1
    case Sell => 2
  }

  predicate Priceable(book: Book, g: seq<Trade>) {
    && g != [] && Info(book, g[|g| - 1].token).lot != 0
    && Qty(book, g, Fut) != 0 && Qty(book, g, Call) != 0 && Qty(book, g, Put) != 0
  }

  function Synthetic(book: Book, g: seq<Trade>): int
    requires Priceable(book, g)
  {
    Average(book, g, Call) - Average(book, g, Put) + LastStrike(book, g)
  }

  function Spread(book: Book, g: seq<Trade>): int
    requires Priceable(book, g)
  {
    if LastSide(book, g, Fut) == Buy then Synthetic(book, g) - Average(book, g, Fut)
    else Average(book, g, Fut) - Synthetic(book, g)
  }

  function RecordOf(book: Book, g: seq<Trade>, streamId: int): Record
    requires Priceable(book, g)
  {
    var last := g[|g| - 1];
    Record(last.timestamp, Divide(Qty(book, g, Fut), Info(book, last.token).lot), FutExpiry(book, g),
           Spread(book, g), LastStrike(book, g), last.seqNo, streamId, Strategy(LastSide(book, g, Fut)),
           Info(book, last.token).symbol)
  }

  predicate LotsNonZero(book: Book) {
    forall token :: token in book ==> book[token].lot != 0
  }

  lemma AcceptedIsPriceable(book: Book, g: seq<Trade>)
    requires IsConRev(book, g) && Positive(g) && Known(book, g) && LotsNonZero(book)
    ensures Priceable(book, g)
    ensures LastSide(book, g, Fut) != Unset
  {
    assert exists t :: t in g;
    QtyPositive(book, g, Fut);
    QtyPositive(book, g, Call);
    QtyPositive(book, g, Put);
    assert g[|g| - 1] in g;
  }

  lemma TalliesPush(book: Book, w: seq<Trade>, t: Trade)
    ensures forall leg :: Qty(book, w + [t], leg) == Qty(book, w, leg) + Amount(book, t, leg)
    ensures forall leg :: Value(book, w + [t], leg) ==
                          Value(book, w, leg) + if LegOf(book, t) == leg then Worth(book, t) else 0
    ensures FutExpiry(book, w + [t]) == if LegOf(book, t) == Fut then ExpiryOf(book, t) else FutExpiry(book, w)
    ensures LastStrike(book, w + [t]) == if LegOf(book, t) == Fut then LastStrike(book, w) else StrikeOf(book, t)
    ensures LastSide(book, w + [t], Fut) ==
            if LegOf(book, t) == Fut then Mark(LastSide(book, w, Fut), t) else LastSide(book, w, Fut)
  {
    assert (w + [t])[..|w|] == w;
  }

  /** What one trade adds to the value of its leg. */
  method ValueOf(book: Book, t: Trade) returns (worth: int)
    requires t.token in book
    ensures worth == Worth(book, t)
  {
    var info := book[t.token];
    if info.leg == Fut {
      worth := t.qty * t.price;
    } else {
      worth := t.qty * (t.price + info.strike);
    }
  }

  /** The loop over an accepted group: leg by leg volume and value, and the terms last seen. */
  method Tally(book: Book, g: seq<Trade>)
    returns (strategy: int, expiry: int, strike: int, volume1: int, volume2: int, volume3: int,
             value1: int, value2: int, value3: int)
    requires Known(book, g)
    ensures strategy == Strategy(LastSide(book, g, Fut)) && expiry == FutExpiry(book, g)
    ensures strike == LastStrike(book, g)
    ensures volume1 == Qty(book, g, Fut) && value1 == Value(book, g, Fut)
    ensures volume2 == Qty(book, g, Put) && value2 == Value(book, g, Put)
    ensures volume3 == Qty(book, g, Call) && value3 == Value(book, g, Call)
  {
    strategy, expiry, strike := 0, 0, 0;
    volume1, volume2, volume3 := 0, 0, 0;
    value1, value2, value3 := 0, 0, 0;
    ghost var seen: seq<Trade> := [];
    for i := 0 to |g|
      invariant seen == g[..i]
      invariant strategy == Strategy(LastSide(book, seen, Fut)) && expiry == FutExpiry(book, seen)
      invariant strike == LastStrike(book, seen)
      invariant volume1 == Qty(book, seen, Fut) && value1 == Value(book, seen, Fut)
      invariant volume2 == Qty(book, seen, Put) && value2 == Value(book, seen, Put)
      invariant volume3 == Qty(book, seen, Call) && value3 == Value(book, seen, Call)
    {
      var t := g[i];
      var info := book[t.token];
      TalliesPush(book, seen, t);
      var worth := ValueOf(book, t);
      match info.leg {
        case Fut =>
          if t.buyId == 0 { strategy := 1; }
          if t.sellId == 0 { strategy := 2; }
          expiry := info.expiry;
          volume1, value1 := volume1 + t.qty, value1 + worth;
        case Call =>
          strike := info.strike;
          volume3, value3 := volume3 + t.qty, value3 + worth;
        case Put =>
          strike := info.strike;
          volume2, value2 := volume2 + t.qty, value2 + worth;
      }
      seen := seen + [t];
    }
    assert seen == g;
  }

  /** The three divisions. */
  method Averages(book: Book, g: seq<Trade>) returns (strategy: int, expiry: int, strike: int, volume1: int,
                                                      average1: int, average2: int, average3: int)
    requires Known(book, g) && Priceable(book, g)
    ensures strategy == Strategy(LastSide(book, g, Fut)) && expiry == FutExpiry(book, g)
    ensures strike == LastStrike(book, g) && volume1 == Qty(book, g, Fut)
    ensures average1 == Average(book, g, Fut)
    ensures average2 == Average(book, g, Put)
    ensures average3 == Average(book, g, Call)
  {
    var volume2, volume3, value1, value2, value3;
    strategy, expiry, strike, volume1, volume2, volume3, value1, value2, value3 := Tally(book, g);
    average1 := Divide(value1, volume1);
    average2 := Divide(value2, volume2);
    average3 := Divide(value3, volume3);
  }

  /** Reports a group: one record, unless its futures leave no side standing. */
  method PriceGroup(book: Book, g: seq<Trade>, streamId: int) returns (reported: seq<Record>)
    requires Known(book, g) && Priceable(book, g)
    ensures reported == if LastSide(book, g, Fut) == Unset then [] else [RecordOf(book, g, streamId)]
  {
    var strategy, expiry, strike, volume1, average1, average2, average3 := Averages(book, g);
    var last := g[|g| - 1];
    var info := book[last.token];
    if strategy == 1 {
      var spread := (average3 - average2 + strike) - average1;
      reported := [Record(last.timestamp, Divide(volume1, info.lot), expiry, spread, strike, last.seqNo, streamId, 1,
                          info.symbol)];
    } else if strategy == 2 {
      var spread := average1 - (average3 - average2 + strike);
      reported := [Record(last.timestamp, Divide(volume1, info.lot), expiry, spread, strike, last.seqNo, streamId, 2,
                          info.symbol)];
    } else {
      reported := [];
    }
  }

  /** Strategy 1 exactly when the last future and the last put are bought and the last call is sold. */
  lemma StrategyIsTheSides(book: Book, g: seq<Trade>, streamId: int)
    requires IsConRev(book, g) && Priceable(book, g)
    ensures var strategy := RecordOf(book, g, streamId).strategy;
            && (strategy == 1 <==> LastSide(book, g, Fut) == LastSide(book, g, Put) == Buy && LastSide(book, g, Call) == Sell)
            && (strategy == 2 <==> LastSide(book, g, Fut) == LastSide(book, g, Put) == Sell && LastSide(book, g, Call) == Buy)
            && (strategy == 1 || strategy == 2)
  {
  }

  // ------------------------------------------------------------------ how exact the spread is

  /** Quantity times price, without the strike. */
  function Turnover(book: Book, g: seq<Trade>, leg: Leg): int {
    if g == [] then 0
    else
      var before := Turnover(book, g[..|g| - 1], leg);
      if LegOf(book, g[|g| - 1]) == leg then before + g[|g| - 1].qty * g[|g| - 1].price else before
  }

  /** The exact average price of a leg. */
  ghost function ExactAverage(book: Book, g: seq<Trade>, leg: Leg): real
    requires Qty(book, g, leg) != 0
  {
    Turnover(book, g, leg) as real / Qty(book, g, leg) as real
  }

  /** The exact value of call and strike, less put and strike, plus the strike last seen, less the future. */
  ghost function ExactSpread(book: Book, g: seq<Trade>): real
    requires Priceable(book, g)
  {
    (ExactAverage(book, g, Call) + LegStrike(book, g, Call) as real)
    - (ExactAverage(book, g, Put) + LegStrike(book, g, Put) as real)
    + LastStrike(book, g) as real - ExactAverage(book, g, Fut)
  }

  predicate LegOfStrike(book: Book, g: seq<Trade>, leg: Leg, strike: int) {
    forall t :: t in g && LegOf(book, t) == leg ==> StrikeOf(book, t) == strike
  }

  lemma {:induction false} StrikeAddsUp(book: Book, g: seq<Trade>, leg: Leg, strike: int)
    requires LegOfStrike(book, g, leg, strike) && leg != Fut
    ensures Value(book, g, leg) == Turnover(book, g, leg) + strike * Qty(book, g, leg)
  {
    if g != [] {
      var n := |g| - 1;
      assert g == g[..n] + [g[n]];
      StrikeAddsUp(book, g[..n], leg, strike);
      if LegOf(book, g[n]) == leg {
        assert g[n] in g;
        Distribute(g[n].qty, g[n].price, strike, Qty(book, g[..n], leg));
      }
    }
  }

  lemma Distribute(q: int, price: int, strike: int, before: int)
    ensures q * (price + strike) == q * price + strike * q
    ensures strike * (before + q) == strike * before + strike * q
  {
  }

  lemma {:induction false} FutureValue(book: Book, g: seq<Trade>)
    ensures Value(book, g, Fut) == Turnover(book, g, Fut)
  {
    if g != [] {
      FutureValue(book, g[..|g| - 1]);
    }
  }

  lemma {:induction false} TurnoverNonNegative(book: Book, g: seq<Trade>, leg: Leg)
    requires Positive(g) && forall t :: t in g ==> t.price >= 0
    ensures Turnover(book, g, leg) >= 0
  {
    if g != [] {
      var n := |g| - 1;
      assert g == g[..n] + [g[n]];
      assert g[n] in g;
      TurnoverNonNegative(book, g[..n], leg);
      assert g[n].qty * g[n].price >= 0;
    }
  }

  /** Shifting the dividend by a multiple of the divisor shifts the truncated quotient by that multiple. */
  lemma DivideShift(a: int, k: int, v: int)
    requires a >= 0 && k >= 0 && v > 0
    ensures Divide(a + k * v, v) == Divide(a, v) + k
  {
    assert k * v >= 0;
    assert a + k * v == v * (a / v + k) + a % v;
    QuotientUnique(a + k * v, v, a / v + k, a % v);
  }

  lemma TruncationError(a: int, v: int)
    requires a >= 0 && v > 0
    ensures 0.0 <= a as real / v as real - Divide(a, v) as real < 1.0
  {
    var q, r := a / v, a % v;
    assert a == q * v + r;
    assert a as real == (q as real) * (v as real) + r as real;
    assert a as real / v as real == q as real + r as real / v as real;
    assert 0.0 <= r as real / v as real < 1.0;
  }

  /** Reported average of an option: the strike plus the truncated average price. */
  lemma OptionAverage(book: Book, g: seq<Trade>, leg: Leg, strike: int)
    requires Positive(g) && Qty(book, g, leg) > 0 && leg != Fut
    requires LegOfStrike(book, g, leg, strike) && strike >= 0 && forall t :: t in g ==> t.price >= 0
    ensures Average(book, g, leg) == Divide(Turnover(book, g, leg), Qty(book, g, leg)) + strike
    ensures 0.0 <= ExactAverage(book, g, leg) - (Average(book, g, leg) - strike) as real < 1.0
  {
    TurnoverNonNegative(book, g, leg);
    StrikeAddsUp(book, g, leg, strike);
    DivideShift(Turnover(book, g, leg), strike, Qty(book, g, leg));
    TruncationError(Turnover(book, g, leg), Qty(book, g, leg));
  }

  lemma FutureAverage(book: Book, g: seq<Trade>)
    requires Positive(g) && Qty(book, g, Fut) > 0 && forall t :: t in g ==> t.price >= 0
    ensures 0.0 <= ExactAverage(book, g, Fut) - Average(book, g, Fut) as real < 1.0
  {
    TurnoverNonNegative(book, g, Fut);
    FutureValue(book, g);
    TruncationError(Turnover(book, g, Fut), Qty(book, g, Fut));
  }

  predicate NonNegative(book: Book, g: seq<Trade>) {
    forall t :: t in g ==> t.price >= 0 && StrikeOf(book, t) >= 0
  }

  lemma LegStrikesHold(book: Book, g: seq<Trade>, leg: Leg)
    requires IsConRev(book, g) && NonNegative(book, g) && leg != Fut
    ensures LegOfStrike(book, g, leg, LegStrike(book, g, leg)) && LegStrike(book, g, leg) >= 0
  {
    assert g[..|g|] == g;
    FollowersShareStrike(book, g, |g|, leg);
    var t :| t in g && LegOf(book, t) == leg;
  }

  /** Three truncations leave a conversion's spread above the exact one by less than 2, below it by less than 1; a
      reversal's the other way round. With one strike for both options the strike added to their values cancels. */
  lemma SpreadIsNearlyExact(book: Book, g: seq<Trade>)
    requires IsConRev(book, g) && Positive(g) && Priceable(book, g) && NonNegative(book, g)
    ensures LastSide(book, g, Fut) == Buy ==> -2.0 < ExactSpread(book, g) - Spread(book, g) as real < 1.0
    ensures LastSide(book, g, Fut) == Sell ==> -1.0 < -ExactSpread(book, g) - Spread(book, g) as real < 2.0
    ensures LegStrike(book, g, Call) == LegStrike(book, g, Put) ==>
              && Average(book, g, Call) - Average(book, g, Put) ==
                 Divide(Turnover(book, g, Call), Qty(book, g, Call)) - Divide(Turnover(book, g, Put), Qty(book, g, Put))
              && ExactSpread(book, g) == ExactAverage(book, g, Call) - ExactAverage(book, g, Put)
                                         + LastStrike(book, g) as real - ExactAverage(book, g, Fut)
  {
    QtyPositive(book, g, Fut);
    QtyPositive(book, g, Call);
    QtyPositive(book, g, Put);
    FutureAverage(book, g);
    LegStrikesHold(book, g, Call);
    LegStrikesHold(book, g, Put);
    OptionAverage(book, g, Call, LegStrike(book, g, Call));
    OptionAverage(book, g, Put, LegStrike(book, g, Put));
  }

  // ------------------------------------------------------------------ what a record says

  /** Division towards zero: what is left is smaller than the divisor and of the dividend's sign. */
  lemma DivideTruncates(a: int, b: int)
    requires b != 0
    ensures var rest := a - Divide(a, b) * b;
            (if rest < 0 then -rest else rest) < (if b < 0 then -b else b) && (rest == 0 || (rest < 0) == (a < 0))
  {
    var x, y := if a < 0 then -a else a, if b < 0 then -b else b;
    var q := x / y;
    assert x == q * y + x % y;
    if (a < 0) == (b < 0) {
      assert Divide(a, b) == q;
      assert q * b == if b < 0 then -(q * y) else q * y;
    } else {
      assert Divide(a, b) == -q;
      assert (-q) * b == if b < 0 then q * y else -(q * y);
    }
  }

  lemma {:induction false} LastFutureCounts(book: Book, g: seq<Trade>, i: nat)
    requires IsLastOf(book, g, {Fut}, i) && OneSided(g[i])
    ensures FutExpiry(book, g) == ExpiryOf(book, g[i])
    ensures LastSide(book, g, Fut) == if g[i].buyId == 0 then Buy else Sell
  {
    var n := |g| - 1;
    if i < n {
      assert LegOf(book, g[n]) != Fut;
      LastFutureCounts(book, g[..n], i);
    }
  }

  lemma LotsAreWhole(volume: int, lot: int)
    requires volume >= 0 && lot > 0
    ensures lot * Divide(volume, lot) <= volume < lot * (Divide(volume, lot) + 1)
  {
    var q := volume / lot;
    assert volume == q * lot + volume % lot;
    assert Divide(volume, lot) == q;
    assert lot * (q + 1) == q * lot + lot && lot * q == q * lot;
  }

  lemma RecordFields(book: Book, g: seq<Trade>, streamId: int, r: Record, f: nat, o: nat)
    requires Priceable(book, g) && r == RecordOf(book, g, streamId) && Qty(book, g, Fut) >= 0
    requires Info(book, g[|g| - 1].token).lot > 0
    requires IsLastOf(book, g, {Fut}, f) && IsLastOf(book, g, {Call, Put}, o) && OneSided(g[f])
    ensures var last := g[|g| - 1]; var lot := Info(book, last.token).lot;
            && r.seqNo == last.seqNo && r.timestamp == last.timestamp && r.streamId == streamId
            && r.symbol == Info(book, last.token).symbol
            && r.expiry == ExpiryOf(book, g[f]) && r.strike == StrikeOf(book, g[o])
            && lot * r.totalTradeLot <= Qty(book, g, Fut) < lot * (r.totalTradeLot + 1)
            && r.strategy == if g[f].buyId == 0 then 1 else 2
  {
    LastFutureCounts(book, g, f);
    LastOptionCounts(book, g, o);
    LotsAreWhole(Qty(book, g, Fut), Info(book, g[|g| - 1].token).lot);
  }

  /** Exact and reported spread: the bounds of a conversion, and those of a reversal. */
  predicate Near(exact: real, r: Record) {
    && (r.strategy == 1 ==> -2.0 < exact - r.spread as real < 1.0)
    && (r.strategy == 2 ==> -1.0 < -exact - r.spread as real < 2.0)
  }

  lemma RecordIsNear(book: Book, g: seq<Trade>, streamId: int, r: Record)
    requires IsConRev(book, g) && Positive(g) && Priceable(book, g) && NonNegative(book, g)
    requires r == RecordOf(book, g, streamId)
    ensures Near(ExactSpread(book, g), r)
  {
    SpreadIsNearlyExact(book, g);
  }

  /** The record of an accepted group, field by field: number and time of its last trade, expiry of its last future,
      strike of its last option, whole lots of its futures, a conversion exactly when its last future is bought,
      and a spread that is nearly exact. */
  lemma RecordMeans(book: Book, g: seq<Trade>, streamId: int, r: Record, f: nat, o: nat)
    requires IsConRev(book, g) && Positive(g) && Priceable(book, g) && NonNegative(book, g)
    requires r == RecordOf(book, g, streamId) && Info(book, g[|g| - 1].token).lot > 0
    requires IsLastOf(book, g, {Fut}, f) && IsLastOf(book, g, {Call, Put}, o)
    ensures var last := g[|g| - 1]; var lot := Info(book, last.token).lot;
            && r.seqNo == last.seqNo && r.timestamp == last.timestamp && r.streamId == streamId
            && r.symbol == Info(book, last.token).symbol
            && r.expiry == ExpiryOf(book, g[f]) && r.strike == StrikeOf(book, g[o])
            && lot * r.totalTradeLot <= Qty(book, g, Fut) < lot * (r.totalTradeLot + 1)
            && r.strategy == (if g[f].buyId == 0 then 1 else 2)
    ensures r.strategy == 1 ==> -2.0 < ExactSpread(book, g) - r.spread as real < 1.0
    ensures r.strategy == 2 ==> -1.0 < -ExactSpread(book, g) - r.spread as real < 2.0
  {
    assert g[f] in g;
    QtyPositive(book, g, Fut);
    RecordFields(book, g, streamId, r, f, o);
    RecordIsNear(book, g, streamId, r);
  }

  /** The worked case: a future at 90, a call of strike 100 at 10 and a put at 5, one each, is reported at 15. */
  lemma PlainConversion(book: Book, f: Trade, c: Trade, p: Trade)
    requires LegOf(book, f) == Fut && LegOf(book, c) == Call && LegOf(book, p) == Put
    requires StrikeOf(book, c) == StrikeOf(book, p) == 100 && f.price == 90 && c.price == 10 && p.price == 5
    requires f.qty == c.qty == p.qty == 1 && f.buyId == 0 != f.sellId && Info(book, p.token).lot != 0
    ensures Priceable(book, [f, c, p]) && Spread(book, [f, c, p]) == 15
  {
    var g := [f, c, p];
    assert [] + [f] == [f] && [f] + [c] == [f, c] && [f, c] + [p] == g;
    TalliesPush(book, [], f);
    TalliesPush(book, [f], c);
    TalliesPush(book, [f, c], p);
  }
}
