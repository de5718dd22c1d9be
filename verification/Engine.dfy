/** The trade-grouping engine: buffering trades, and closing the buffer on every order message. */
module Engine {
  import opened Market
  import opened Window
  import opened Splitter
  import opened Screening
  import opened Groups
  import opened Pricing

  /** A broadcast message. The body is that of a trade, and means something for kind 'T' only. */
  datatype Message = Message(kind: char, seqNo: int, streamId: int, body: Trade)

  /** Orders, plain and spread, and spread trades: the messages that close the buffer. */
  predicate Closes(m: Message) {
    || m.kind == 'N' || m.kind == 'M' || m.kind == 'X'
    || m.kind == 'G' || m.kind == 'H' || m.kind == 'J' || m.kind == 'K'
  }

  /** Trades are of listed contracts and for positive quantities. */
  predicate Admissible(book: Book, m: Message) {
    m.kind == 'T' ==> m.body.token in book && m.body.qty > 0
  }

  datatype Snapshot = Snapshot(buffer: seq<Trade>, tokens: set<int>, lots: map<int, int>, records: seq<Record>)

  const IDLE := Snapshot([], {}, map[], [])

  function LotsOf(lots: map<int, int>, token: int): int {
    if token in lots then lots[token] else 0
  }

  function RecordIfAny(book: Book, g: seq<Trade>, streamId: int): seq<Record> {
    if Priceable(book, g) then [RecordOf(book, g, streamId)] else []
  }

  function RecordsOf(book: Book, gs: seq<seq<Trade>>, streamId: int): seq<Record> {
    if gs == [] then []
    else RecordsOf(book, gs[..|gs| - 1], streamId) + RecordIfAny(book, gs[|gs| - 1], streamId)
  }

  /** What closing a buffer reports. */
  ghost function Report(book: Book, ts: seq<Trade>, tokens: set<int>, streamId: int): seq<Record> {
    if Screened(book, ts, tokens) then RecordsOf(book, Accepted(book, SplitGroups(book, ts, tokens)), streamId) else []
  }

  /** Whole lots in one trade. */
  function TradedLots(book: Book, t: Trade): int {
    if t.token in book && book[t.token].lot != 0 then Divide(t.qty, book[t.token].lot) else 0
  }

  /** As many whole lots as the quantity holds. */
  lemma TradedLotsAreWhole(book: Book, t: Trade)
    requires t.token in book && book[t.token].lot > 0 && t.qty >= 0
    ensures var lot := book[t.token].lot; lot * TradedLots(book, t) <= t.qty < lot * (TradedLots(book, t) + 1)
  {
    LotsAreWhole(t.qty, book[t.token].lot);
  }

  function AddLots(book: Book, lots: map<int, int>, t: Trade): map<int, int> {
    if t.token in book then lots[t.token := LotsOf(lots, t.token) + TradedLots(book, t)] else lots
  }

  /** What one message does. */
  ghost function Process(book: Book, s: Snapshot, m: Message): Snapshot {
    if Closes(m) then Snapshot([], {}, s.lots, s.records + Report(book, s.buffer, s.tokens, m.streamId))
    else if m.kind == 'T' then
      var s' := s.(lots := AddLots(book, s.lots, m.body));
      if OneSided(m.body) then s'.(buffer := s.buffer + [m.body], tokens := s.tokens + {m.body.token}) else s'
    else s
  }

  /** What a run of messages does to an engine in a given state. */
  ghost function RunFrom(book: Book, s: Snapshot, ms: seq<Message>): Snapshot {
    if ms == [] then s else Process(book, RunFrom(book, s, ms[..|ms| - 1]), ms[|ms| - 1])
  }

  /** What the engine's state keeps to. */
  predicate Sound(book: Book, s: Snapshot) {
    && Known(book, s.buffer) && Positive(s.buffer) && AllOneSided(s.buffer)
    && s.tokens == Tokens(s.buffer)
  }

  lemma ProcessKeepsSound(book: Book, s: Snapshot, m: Message)
    requires Sound(book, s) && Admissible(book, m)
    ensures Sound(book, Process(book, s, m))
  {
  }

  /** Every accepted group is reported, once. */
  lemma {:induction false} OneRecordEach(book: Book, gs: seq<seq<Trade>>, streamId: int)
    requires LotsNonZero(book)
    requires forall g :: g in gs ==> IsConRev(book, g) && Positive(g) && Known(book, g)
    ensures |RecordsOf(book, gs, streamId)| == |gs|
    ensures forall i :: 0 <= i < |gs| ==> Priceable(book, gs[i]) && RecordsOf(book, gs, streamId)[i] == RecordOf(book, gs[i], streamId)
  {
    if gs != [] {
      var n := |gs| - 1;
      assert gs == gs[..n] + [gs[n]];
      OneRecordEach(book, gs[..n], streamId);
      AcceptedIsPriceable(book, gs[n]);
    }
  }

  /** Closing a screened buffer enqueues exactly one record per accepted group, in order. */
  lemma ReportsAccepted(book: Book, s: Snapshot, streamId: int)
    requires LotsNonZero(book) && Sound(book, s) && Screened(book, s.buffer, s.tokens)
    ensures var gs := Accepted(book, SplitGroups(book, s.buffer, s.tokens));
            var rs := Report(book, s.buffer, s.tokens, streamId);
            && |rs| == |gs|
            && forall i :: 0 <= i < |gs| ==> Priceable(book, gs[i]) && rs[i] == RecordOf(book, gs[i], streamId)
  {
    var gs := Accepted(book, SplitGroups(book, s.buffer, s.tokens));
    AcceptedAre(book, SplitGroups(book, s.buffer, s.tokens));
    forall g | g in gs ensures Positive(g) && Known(book, g) {
      AcceptedIsPart(book, s.buffer, s.tokens, g);
      PartIsSound(book, g, s.buffer);
    }
    OneRecordEach(book, gs, streamId);
  }

  lemma MembersBefore(ts: seq<Trade>, n: nat)
    requires n + 1 == |ts|
    ensures forall x :: x in ts <==> x in ts[..n] || x == ts[n]
  {
    assert ts == ts[..n] + [ts[n]];
  }

  lemma {:induction false} RunGroupsArePart(book: Book, ts: seq<Trade>, g: seq<Trade>)
    requires g in SplitRun(book, ts).groups
    ensures forall x :: x in g ==> x in ts
  {
    var n := |ts| - 1;
    var before := SplitRun(book, ts[..n]);
    var step := SplitStep(book, before.window, ts[n]);
    assert SplitRun(book, ts).groups == before.groups + step.groups;
    MembersBefore(ts, n);
    if g in before.groups {
      RunGroupsArePart(book, ts[..n], g);
    } else {
      RunKeepsPart(book, ts[..n]);
      PartOf(before.window, ts[..n]);
      StepMembers(book, before.window, ts[n]);
      assert g in step.groups;
    }
  }

  lemma StepMembers(book: Book, w: seq<Trade>, t: Trade)
    ensures forall g, x :: g in SplitStep(book, w, t).groups && x in g ==> x in w || x == t
  {
    if OneSided(t) {
      var p := Prune(book, w, t);
      PruneKeepsPart(book, w, t);
      PartOf(p, w);
      AdmitMembers(book, p, t);
      SettleMembers(book, Admit(book, p, t).window);
    }
  }

  lemma GroupIsSound(book: Book, ts: seq<Trade>, tokens: set<int>, g: seq<Trade>)
    requires Known(book, ts) && Positive(ts) && g in SplitGroups(book, ts, tokens)
    ensures Known(book, g) && Positive(g)
  {
    if !(|ts| == 3 && |tokens| == 3) {
      RunGroupsArePart(book, ts, g);
    }
  }

  lemma TokensListed(book: Book, ts: seq<Trade>)
    requires Known(book, ts)
    ensures forall token :: token in Tokens(ts) ==> token in book
  {
  }

  lemma RecordsNext(book: Book, gs: seq<seq<Trade>>, i: nat, streamId: int)
    requires i < |gs|
    ensures RecordsOf(book, Accepted(book, gs[..i + 1]), streamId) ==
            RecordsOf(book, Accepted(book, gs[..i]), streamId)
            + if IsConRev(book, gs[i]) then RecordIfAny(book, gs[i], streamId) else []
  {
    assert gs[..i + 1][..i] == gs[..i];
    var before := Accepted(book, gs[..i]);
    assert (before + [gs[i]])[..|before|] == before;
  }

  /** The loop over the candidate groups: those that fail the test are dropped, the others enqueued. */
  method ReportGroups(book: Book, ts: seq<Trade>, tokens: set<int>, groups: seq<seq<Trade>>, streamId: int)
    returns (reported: seq<Record>)
    requires LotsNonZero(book) && Known(book, ts) && Positive(ts) && groups == SplitGroups(book, ts, tokens)
    ensures reported == RecordsOf(book, Accepted(book, groups), streamId)
  {
    reported := [];
    for i := 0 to |groups|
      invariant reported == RecordsOf(book, Accepted(book, groups[..i]), streamId)
    {
      RecordsNext(book, groups, i, streamId);
      GroupIsSound(book, ts, tokens, groups[i]);
      var accepted := IsValidateConRev(book, groups[i]);
      if !accepted {
        continue;
      }
      AcceptedIsPriceable(book, groups[i]);
      var record := PriceGroup(book, groups[i], streamId);
      reported := reported + record;
    }
    assert groups[..|groups|] == groups;
  }

  /** The states passed through while processing messages one by one from the start. */
  ghost predicate IsRun(book: Book, ms: seq<Message>, states: seq<Snapshot>) {
    && |states| == |ms| + 1 && states[0] == IDLE
    && forall i :: 0 <= i < |ms| ==> states[i + 1] == Process(book, states[i], ms[i])
  }

  lemma {:induction false} RunIsFold(book: Book, ms: seq<Message>, states: seq<Snapshot>)
    requires IsRun(book, ms, states)
    ensures states[|ms|] == RunFrom(book, IDLE, ms)
  {
    if ms != [] {
      var n := |ms| - 1;
      RunIsFold(book, ms[..n], states[..n + 1]);
    }
  }

  lemma RunOne(book: Book, s: Snapshot, ms: seq<Message>, m: Message)
    ensures RunFrom(book, s, ms + [m]) == Process(book, RunFrom(book, s, ms), m)
  {
    assert (ms + [m])[..|ms|] == ms;
  }

  class TradeEngine {
    const book: Book
    var buffer: seq<Trade>
    var tokens: set<int>
    var lots: map<int, int>
    var records: seq<Record>
    ghost var history: seq<Message>  // every message handed in so far
    ghost var states: seq<Snapshot>  // every state since the start

    ghost predicate Valid()
      reads this
    {
      && LotsNonZero(book) && Sound(book, State())
      && IsRun(book, history, states) && State() == states[|history|]
    }

    function State(): Snapshot
      reads this
    {
      Snapshot(buffer, tokens, lots, records)
    }

    constructor (book: Book)
      requires LotsNonZero(book)
      ensures Valid() && State() == IDLE && this.book == book && history == []
    {
      this.book := book;
      history, states := [], [IDLE];
      buffer, tokens, lots, records := [], {}, map[], [];
    }

    /** Screens, splits, filters and reports the buffer. */
    method CloseBuffer(streamId: int)
      requires LotsNonZero(book) && Sound(book, State())
      modifies this
      ensures history == old(history) && states == old(states)
      ensures State() == Snapshot([], {}, old(lots), old(records) + Report(book, old(buffer), old(tokens), streamId))
    {
      TokensListed(book, buffer);
      var screened := ValidateTradeMsgRecords(book, buffer, tokens);
      if screened {
        var groups := SplitTrade(book, buffer, tokens);
        var reported := ReportGroups(book, buffer, tokens, groups, streamId);
        records := records + reported;
      }
      buffer, tokens := [], {};
    }

    /** The switch over the message type. */
    method HandleMessage(m: Message)
      requires LotsNonZero(book) && Sound(book, State()) && Admissible(book, m)
      modifies this
      ensures history == old(history) && states == old(states)
      ensures State() == Process(book, old(State()), m)
    {
      if m.kind == 'N' || m.kind == 'M' || m.kind == 'X'
         || m.kind == 'G' || m.kind == 'H' || m.kind == 'J' || m.kind == 'K' {
        CloseBuffer(m.streamId);
      } else if m.kind == 'T' {
        var t := m.body;
        if t.token in book {
          var traded := Divide(t.qty, book[t.token].lot);
          lots := lots[t.token := LotsOf(lots, t.token) + traded];
        }
        if (t.buyId == 0 && t.sellId == 0) || (t.buyId != 0 && t.sellId != 0) {
          return;
        }
        tokens := tokens + {t.token};
        buffer := buffer + [t];
      }
    }

    method WriteDataInFile(m: Message)
      requires Valid() && Admissible(book, m)
      modifies this
      ensures Valid()
      ensures history == old(history) + [m]
      ensures State() == Process(book, old(State()), m)
    {
      ProcessKeepsSound(book, State(), m);
      HandleMessage(m);
      history, states := history + [m], states + [State()];
    }
  }

  // ------------------------------------------------------------------ whole streams

  /** Position just after the last message that closes the buffer. */
  function Reopened(ms: seq<Message>): (k: nat)
    ensures k <= |ms|
    ensures k > 0 ==> Closes(ms[k - 1])
    ensures forall i :: k <= i < |ms| ==> !Closes(ms[i])
  {
    if ms == [] then 0 else if Closes(ms[|ms| - 1]) then |ms| else Reopened(ms[..|ms| - 1])
  }

  /** The one-sided trades of a run of messages. */
  function OneSidedTrades(ms: seq<Message>): seq<Trade> {
    if ms == [] then []
    else
      var m := ms[|ms| - 1];
      OneSidedTrades(ms[..|ms| - 1]) + if m.kind == 'T' && OneSided(m.body) then [m.body] else []
  }

  /** The trades a closing message at position i closes. */
  function ClosedBy(ms: seq<Message>, i: nat): seq<Trade>
    requires i <= |ms|
  {
    OneSidedTrades(ms[Reopened(ms[..i])..i])
  }

  /** Each run of trades reported on its own, by the message that closes it. */
  ghost function ReportsUpTo(book: Book, ms: seq<Message>, i: nat): seq<Record>
    requires i <= |ms|
  {
    if i == 0 then []
    else
      ReportsUpTo(book, ms, i - 1)
      + if Closes(ms[i - 1]) then
          Report(book, ClosedBy(ms, i - 1), Tokens(ClosedBy(ms, i - 1)), ms[i - 1].streamId)
        else []
  }

  /** Lots traded in one token: every trade counts, one-sided or not. */
  function LotsTraded(book: Book, ms: seq<Message>, token: int): int {
    if ms == [] then 0
    else
      var m := ms[|ms| - 1];
      LotsTraded(book, ms[..|ms| - 1], token)
      + if m.kind == 'T' && m.body.token == token then TradedLots(book, m.body) else 0
  }

  lemma RunNext(book: Book, ms: seq<Message>, i: nat, before: Snapshot)
    requires 0 < i <= |ms| && before == RunFrom(book, IDLE, ms[..i - 1])
    ensures RunFrom(book, IDLE, ms[..i]) == Process(book, before, ms[i - 1])
  {
    assert ms[..i][..i - 1] == ms[..i - 1];
  }

  lemma {:induction false} LotsPrefix(book: Book, ms: seq<Message>, i: nat)
    requires i <= |ms| && forall m :: m in ms ==> Admissible(book, m)
    ensures forall token :: LotsOf(RunFrom(book, IDLE, ms[..i]).lots, token) == LotsTraded(book, ms[..i], token)
  {
    if i > 0 {
      LotsPrefix(book, ms, i - 1);
      assert ms[..i][..i - 1] == ms[..i - 1];
      assert ms[i - 1] in ms;
    }
  }

  lemma {:induction false} BufferPrefix(book: Book, ms: seq<Message>, i: nat)
    requires i <= |ms| && forall m :: m in ms ==> Admissible(book, m)
    ensures Sound(book, RunFrom(book, IDLE, ms[..i]))
    ensures RunFrom(book, IDLE, ms[..i]).buffer == ClosedBy(ms, i)
  {
    if i > 0 {
      var before := RunFrom(book, IDLE, ms[..i - 1]);
      BufferPrefix(book, ms, i - 1);
      assert ms[i - 1] in ms;
      RunNext(book, ms, i, before);
      ProcessKeepsSound(book, before, ms[i - 1]);
      ClosedByNext(ms, i);
    }
  }

  /** What one message adds to the records, the buffer being known. */
  lemma ProcessRecords(book: Book, s: Snapshot, m: Message, buffer: seq<Trade>)
    requires s.buffer == buffer && s.tokens == Tokens(buffer)
    ensures Process(book, s, m).records ==
            s.records + if Closes(m) then Report(book, buffer, Tokens(buffer), m.streamId) else []
  {
  }

  lemma {:induction false} RecordsPrefix(book: Book, ms: seq<Message>, i: nat)
    requires i <= |ms| && forall m :: m in ms ==> Admissible(book, m)
    ensures RunFrom(book, IDLE, ms[..i]).records == ReportsUpTo(book, ms, i)
  {
    if i > 0 {
      var before := RunFrom(book, IDLE, ms[..i - 1]);
      RecordsPrefix(book, ms, i - 1);
      BufferPrefix(book, ms, i - 1);
      RunNext(book, ms, i, before);
      ProcessRecords(book, before, ms[i - 1], ClosedBy(ms, i - 1));
    }
  }

  lemma ClosedByNext(ms: seq<Message>, i: nat)
    requires 0 < i <= |ms|
    ensures var m := ms[i - 1];
            ClosedBy(ms, i) == if Closes(m) then []
                               else ClosedBy(ms, i - 1) + if m.kind == 'T' && OneSided(m.body) then [m.body] else []
  {
    assert ms[..i][..i - 1] == ms[..i - 1];
    if Closes(ms[i - 1]) {
      assert ms[i..i] == [];
    } else {
      var k := Reopened(ms[..i - 1]);
      assert ms[k..i][..i - 1 - k] == ms[k..i - 1];
    }
  }

  /** Over every stream the buffer holds the one-sided trades since the last closing message, the token set is
      theirs, and the records are those of each closed run of trades, one after the other. */
  lemma StreamIsItsRuns(book: Book, ms: seq<Message>)
    requires forall m :: m in ms ==> Admissible(book, m)
    ensures var s := RunFrom(book, IDLE, ms);
            && AllOneSided(s.buffer) && s.tokens == Tokens(s.buffer)
            && s.buffer == OneSidedTrades(ms[Reopened(ms)..])
            && s.records == ReportsUpTo(book, ms, |ms|)
            && forall token :: LotsOf(s.lots, token) == LotsTraded(book, ms, token)
  {
    BufferPrefix(book, ms, |ms|);
    RecordsPrefix(book, ms, |ms|);
    LotsPrefix(book, ms, |ms|);
    assert ms[..|ms|] == ms;
    assert ms[Reopened(ms)..|ms|] == ms[Reopened(ms)..];
  }
}
