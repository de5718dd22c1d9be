/** The logger's ring of records: producers that draw tickets, a flag per slot, and one consumer, as atomic
    steps in any interleaving. */
module LoggerRing {
  import opened Quotients

  type Text = string

  datatype Cell = Blank | Full(text: Text)

  /** Where a producer stands in log(). The test of its wait loads two indices one after the other, in either
      order. */
  datatype Producer =
    | Idle
    | Waiting(ticket: nat)
    | SawRead(ticket: nat, read: nat)
    | SawWrite(ticket: nat, write: nat)
    | Storing(ticket: nat)
    | Raising(ticket: nat)

  /** Where the consumer stands in its loop. */
  datatype Consumer =
    | Fetching
    | Polling(ticket: nat)
    | Moving(ticket: nat)
    | Lowering(ticket: nat, text: Text)
    | Writing(ticket: nat, text: Text)

  /** The shared indices, flags and records; texts[t] is what the producer that drew ticket t logs. */
  datatype State = State(size: nat, read: nat, write: nat, flags: seq<bool>, records: seq<Cell>,
                         producers: seq<Producer>, consumer: Consumer, output: seq<Text>, texts: seq<Text>)

  function Initial(size: nat, n: nat): State
    requires size >= 1
  {
    State(size, 0, 0, seq(size, _ => false), seq(size, _ => Blank), seq(n, _ => Idle), Fetching, [], [])
  }

  datatype Step =
    | Draw(i: nat, text: Text)
    | LoadRead(i: nat)
    | LoadWrite(i: nat)
    | Test(i: nat)
    | Store(i: nat)
    | Raise(i: nat)
    | Fetch
    | Poll
    | Move
    | Lower
    | Write

  /** The slot of a ticket: its remainder by the size of the ring. */
  function SlotOf(size: nat, ticket: nat): (slot: nat)
    requires size >= 1
    ensures slot < size
  {
    if ticket < size then ticket else SlotOf(size, ticket - size)
  }

  lemma {:induction false} SlotIsRemainder(size: nat, ticket: nat)
    requires size >= 1
    ensures SlotOf(size, ticket) == ticket % size
  {
    if ticket >= size {
      SlotIsRemainder(size, ticket - size);
      OneLapOn(size, ticket - size);
    }
  }

  lemma OneLapOn(size: nat, t: nat)
    requires size >= 1
    ensures (t + size) % size == t % size
  {
    QuotientUnique(t + size, size, t / size + 1, t % size);
  }

  function Put(s: State, i: nat, p: Producer): State
    requires i < |s.producers|
  {
    s.(producers := s.producers[i := p])
  }

  /** One step of a producer; a step that does not fit where it stands changes nothing. */
  function ProducerStep(s: State, i: nat, step: Step): State
    requires s.size >= 1 && |s.flags| == |s.records| == s.size && i < |s.producers|
  {
    var p := s.producers[i];
    match step
    case Draw(_, text) =>
      if p.Idle? then Put(s, i, Waiting(s.write)).(write := s.write + 1, texts := s.texts + [text]) else s
    case LoadRead(_) => if p.Waiting? then Put(s, i, SawRead(p.ticket, s.read)) else s
    case LoadWrite(_) => if p.Waiting? then Put(s, i, SawWrite(p.ticket, s.write)) else s
    case Test(_) =>
      if p.SawRead? then Put(s, i, if p.read + s.size <= s.write then Waiting(p.ticket) else Storing(p.ticket))
      else if p.SawWrite? then Put(s, i, if s.read + s.size <= p.write then Waiting(p.ticket) else Storing(p.ticket))
      else s
    case Store(_) =>
      if p.Storing? && p.ticket < |s.texts| then
        Put(s, i, Raising(p.ticket)).(records := s.records[SlotOf(s.size, p.ticket) := Full(s.texts[p.ticket])])
      else s
    case Raise(_) =>
      if p.Raising? then Put(s, i, Idle).(flags := s.flags[SlotOf(s.size, p.ticket) := true]) else s
    case _ => s
  }

  function ConsumerStep(s: State, step: Step): State
    requires s.size >= 1 && |s.flags| == |s.records| == s.size
  {
    var c := s.consumer;
    match step
    case Fetch => if c.Fetching? then s.(consumer := Polling(s.read), read := s.read + 1) else s
    case Poll => if c.Polling? && s.flags[SlotOf(s.size, c.ticket)] then s.(consumer := Moving(c.ticket)) else s
    case Move =>
      if c.Moving? then
        var cell := s.records[SlotOf(s.size, c.ticket)];
        s.(consumer := Lowering(c.ticket, if cell.Full? then cell.text else ""),
           records := s.records[SlotOf(s.size, c.ticket) := Blank])
      else s
    case Lower =>
      if c.Lowering? then s.(consumer := Writing(c.ticket, c.text), flags := s.flags[SlotOf(s.size, c.ticket) := false]) else s
    case Write =>
      if c.Writing? then s.(consumer := Fetching, output := s.output + [c.text]) else s
    case _ => s
  }

  predicate Shaped(s: State) {
    s.size >= 1 && |s.flags| == |s.records| == s.size
  }

  predicate OfProducer(step: Step) {
    step.Draw? || step.LoadRead? || step.LoadWrite? || step.Test? || step.Store? || step.Raise?
  }

  function After(s: State, step: Step): State
    requires Shaped(s)
  {
    if OfProducer(step) then if step.i < |s.producers| then ProducerStep(s, step.i, step) else s
    else ConsumerStep(s, step)
  }

  lemma AfterShaped(s: State, step: Step)
    requires Shaped(s)
    ensures Shaped(After(s, step)) && After(s, step).size == s.size && |After(s, step).producers| == |s.producers|
  {
  }

  /** The state after a schedule: any interleaving of steps. */
  function Run(s: State, steps: seq<Step>): (r: State)
    requires Shaped(s)
    ensures Shaped(r) && r.size == s.size && |r.producers| == |s.producers|
  {
    if steps == [] then s
    else
      var before := Run(s, steps[..|steps| - 1]);
      AfterShaped(before, steps[|steps| - 1]);
      After(before, steps[|steps| - 1])
  }

  // ------------------------------------------------------------------ the invariant

  /** Tickets whose slot the consumer has given back. */
  function Done(s: State): int {
    if s.consumer.Fetching? || s.consumer.Writing? then s.read else s.read - 1
  }

  predicate Holds(p: Producer, ticket: int) {
    !p.Idle? && p.ticket == ticket
  }

  predicate Held(s: State, ticket: int) {
    exists i :: 0 <= i < |s.producers| && Holds(s.producers[i], ticket)
  }

  /** Tickets in use are distinct and have been drawn, and those past their wait are within one lap. */
  predicate TicketsOk(s: State) {
    && |s.texts| == s.write
    && (forall i :: 0 <= i < |s.producers| && !s.producers[i].Idle? ==> ProducerOk(s, s.producers[i]))
    && (forall i, j :: 0 <= i < j < |s.producers| && !s.producers[i].Idle? && !s.producers[j].Idle? ==>
          s.producers[i].ticket != s.producers[j].ticket)
  }

  predicate ProducerOk(s: State, p: Producer)
    requires !p.Idle?
  {
    && Done(s) <= p.ticket < s.write
    && (p.SawRead? ==> p.read <= s.read)
    && (p.SawWrite? ==> p.ticket < p.write <= s.write)
    && (p.Storing? || p.Raising? ==> p.ticket < Done(s) + s.size)
    && (p.Raising? && Shaped(s) && p.ticket < |s.texts| ==> s.records[SlotOf(s.size, p.ticket)] == Full(s.texts[p.ticket]))
  }

  predicate ConsumerOk(s: State) {
    && 0 <= Done(s) <= s.write
    && (!s.consumer.Fetching? ==> s.read >= 1 && s.consumer.ticket == s.read - 1)
    && (s.consumer.Moving? || s.consumer.Lowering? ==> Shaped(s) && s.flags[SlotOf(s.size, s.consumer.ticket)])
    && (s.consumer.Lowering? || s.consumer.Writing? ==>
          s.consumer.ticket < |s.texts| && s.consumer.text == s.texts[s.consumer.ticket])
    && |s.output| <= |s.texts| && s.output == s.texts[..|s.output|]
    && |s.output| == if s.consumer.Fetching? then s.read else s.read - 1
  }

  /** A drawn ticket that is neither given back nor still in use is published: its flag is up and, until the
      consumer moves it, its record is in the slot. */
  predicate Published(s: State)
    requires Shaped(s)
  {
    forall t: nat :: Done(s) <= t < s.write && !Held(s, t) ==>
      && t < Done(s) + s.size && s.flags[SlotOf(s.size, t)]
      && (t < |s.texts| && !(s.consumer.Lowering? && s.consumer.ticket == t) ==> s.records[SlotOf(s.size, t)] == Full(s.texts[t]))
  }

  /** Within one lap, no flag is up but those of published tickets. */
  predicate NothingElseUp(s: State)
    requires Shaped(s)
  {
    forall t: nat :: Done(s) <= t < Done(s) + s.size && s.flags[SlotOf(s.size, t)] ==> t < s.write && !Held(s, t)
  }

  predicate Inv(s: State) {
    Shaped(s) && TicketsOk(s) && ConsumerOk(s) && Published(s) && NothingElseUp(s)
  }

  lemma {:induction false} SameSlot(size: nat, a: nat, b: nat)
    requires size >= 1 && SlotOf(size, a) == SlotOf(size, b) && a <= b < a + size
    ensures a == b
  {
    if a >= size {
      SameSlot(size, a - size, b - size);
    }
  }

  lemma OtherSlot(s: State, a: nat, b: nat)
    requires Shaped(s) && a != b && Done(s) <= a < Done(s) + s.size && Done(s) <= b < Done(s) + s.size
    ensures SlotOf(s.size, a) != SlotOf(s.size, b)
  {
    if SlotOf(s.size, a) == SlotOf(s.size, b) {
      if a <= b {
        SameSlot(s.size, a, b);
      } else {
        SameSlot(s.size, b, a);
      }
    }
  }

  /** A step that leaves everyone's ticket as it was leaves the tickets in use as they were. */
  lemma HeldSame(s: State, i: nat, p: Producer)
    requires i < |s.producers| && !s.producers[i].Idle? && !p.Idle? && p.ticket == s.producers[i].ticket
    ensures forall t :: Held(Put(s, i, p), t) <==> Held(s, t)
  {
    var s' := Put(s, i, p);
    forall t | Held(s, t) ensures Held(s', t) {
      var j :| 0 <= j < |s.producers| && Holds(s.producers[j], t);
      assert Holds(s'.producers[j], t);
    }
    forall t | Held(s', t) ensures Held(s, t) {
      var j :| 0 <= j < |s'.producers| && Holds(s'.producers[j], t);
      assert Holds(s.producers[j], t);
    }
  }

  /** Going round the wait, or passing it: the state but for one producer is unchanged. */
  lemma TurnKeepsInv(s: State, i: nat, p: Producer)
    requires Inv(s) && i < |s.producers| && !s.producers[i].Idle? && !p.Idle? && p.ticket == s.producers[i].ticket
    requires ProducerOk(s, p)
    ensures Inv(Put(s, i, p))
  {
    HeldSame(s, i, p);
  }

  lemma TestKeepsInv(s: State, i: nat)
    requires Inv(s) && i < |s.producers|
    ensures Inv(ProducerStep(s, i, Test(i)))
  {
    var p := s.producers[i];
    if p.SawRead? {
      TurnKeepsInv(s, i, if p.read + s.size <= s.write then Waiting(p.ticket) else Storing(p.ticket));
    } else if p.SawWrite? {
      TurnKeepsInv(s, i, if s.read + s.size <= p.write then Waiting(p.ticket) else Storing(p.ticket));
    }
  }

  lemma LoadKeepsInv(s: State, i: nat)
    requires Inv(s) && i < |s.producers|
    ensures Inv(ProducerStep(s, i, LoadRead(i))) && Inv(ProducerStep(s, i, LoadWrite(i)))
  {
    var p := s.producers[i];
    if p.Waiting? {
      TurnKeepsInv(s, i, SawRead(p.ticket, s.read));
      TurnKeepsInv(s, i, SawWrite(p.ticket, s.write));
    }
  }

  /** A producer that draws takes one ticket more, the next. */
  lemma HeldMore(s: State, i: nat)
    requires i < |s.producers| && s.producers[i].Idle?
    ensures forall t :: Held(Put(s, i, Waiting(s.write)), t) <==> Held(s, t) || t == s.write
  {
    var s' := Put(s, i, Waiting(s.write));
    assert Holds(s'.producers[i], s.write);
    forall t | Held(s, t) ensures Held(s', t) {
      var j :| 0 <= j < |s.producers| && Holds(s.producers[j], t);
      assert Holds(s'.producers[j], t);
    }
    forall t | Held(s', t) && t != s.write ensures Held(s, t) {
      var j :| 0 <= j < |s'.producers| && Holds(s'.producers[j], t);
      assert Holds(s.producers[j], t);
    }
  }

  lemma DrawLeavesSlots(s: State, i: nat, text: Text)
    requires Inv(s) && i < |s.producers| && s.producers[i].Idle?
    ensures var s' := ProducerStep(s, i, Draw(i, text)); Shaped(s') && Published(s') && NothingElseUp(s')
  {
    var s' := ProducerStep(s, i, Draw(i, text));
    HeldMore(s, i);
    assert forall t :: Held(s', t) <==> Held(Put(s, i, Waiting(s.write)), t);
  }

  lemma DrawKeepsInv(s: State, i: nat, text: Text)
    requires Inv(s) && i < |s.producers|
    ensures Inv(ProducerStep(s, i, Draw(i, text)))
  {
    if s.producers[i].Idle? {
      DrawLeavesSlots(s, i, text);
    }
  }

  /** The slot stored to is that of no published ticket. */
  lemma StoreHidesNothing(s: State, i: nat)
    requires Inv(s) && i < |s.producers| && s.producers[i].Storing?
    ensures var s' := ProducerStep(s, i, Store(i)); Shaped(s') && Published(s') && NothingElseUp(s')
  {
    var p := s.producers[i];
    var s' := ProducerStep(s, i, Store(i));
    HeldSame(s, i, Raising(p.ticket));
    assert forall t :: Held(s', t) <==> Held(Put(s, i, Raising(p.ticket)), t);
    assert Holds(s.producers[i], p.ticket);
    forall t: nat | Done(s) <= t < Done(s) + s.size && t != p.ticket ensures SlotOf(s.size, t) != SlotOf(s.size, p.ticket) {
      OtherSlot(s, t, p.ticket);
    }
  }

  lemma StoreKeepsInv(s: State, i: nat)
    requires Inv(s) && i < |s.producers|
    ensures Inv(ProducerStep(s, i, Store(i)))
  {
    var p := s.producers[i];
    if p.Storing? {
      StoreHidesNothing(s, i);
      forall t: nat | Done(s) <= t < Done(s) + s.size && t != p.ticket ensures SlotOf(s.size, t) != SlotOf(s.size, p.ticket) {
        OtherSlot(s, t, p.ticket);
      }
    }
  }

  /** A producer that leaves gives up its ticket and no other. */
  lemma HeldLess(s: State, i: nat)
    requires TicketsOk(s) && i < |s.producers| && !s.producers[i].Idle?
    ensures Held(s, s.producers[i].ticket)
    ensures forall t :: Held(Put(s, i, Idle), t) <==> Held(s, t) && t != s.producers[i].ticket
  {
    var s' := Put(s, i, Idle);
    assert Holds(s.producers[i], s.producers[i].ticket);
    forall t | Held(s, t) && t != s.producers[i].ticket ensures Held(s', t) {
      var j :| 0 <= j < |s.producers| && Holds(s.producers[j], t);
      assert Holds(s'.producers[j], t);
    }
    forall t | Held(s', t) ensures Held(s, t) && t != s.producers[i].ticket {
      var j :| 0 <= j < |s'.producers| && Holds(s'.producers[j], t);
      assert Holds(s.producers[j], t);
    }
  }

  /** Only the raising producer's own flag goes up, and its ticket is published with it. */
  lemma RaisePublishes(s: State, i: nat)
    requires Inv(s) && i < |s.producers| && s.producers[i].Raising?
    ensures var s' := ProducerStep(s, i, Raise(i)); Shaped(s') && Published(s') && NothingElseUp(s')
  {
    var p := s.producers[i];
    var s' := ProducerStep(s, i, Raise(i));
    HeldLess(s, i);
    assert forall t :: Held(s', t) <==> Held(Put(s, i, Idle), t);
    forall t: nat | Done(s) <= t < Done(s) + s.size && t != p.ticket ensures SlotOf(s.size, t) != SlotOf(s.size, p.ticket) {
      OtherSlot(s, t, p.ticket);
    }
  }

  lemma RaiseKeepsInv(s: State, i: nat)
    requires Inv(s) && i < |s.producers|
    ensures Inv(ProducerStep(s, i, Raise(i)))
  {
    if s.producers[i].Raising? {
      RaisePublishes(s, i);
      assert Holds(s.producers[i], s.producers[i].ticket);
    }
  }

  lemma ConsumerKeepsInv(s: State, step: Step)
    requires Inv(s) && (step.Fetch? || step.Poll? || step.Write?)
    ensures Inv(ConsumerStep(s, step))
  {
    var s' := ConsumerStep(s, step);
    assert forall t :: Held(s', t) <==> Held(s, t);
  }

  lemma MoveKeepsInv(s: State)
    requires Inv(s)
    ensures Inv(ConsumerStep(s, Move))
  {
    var s' := ConsumerStep(s, Move);
    if s.consumer.Moving? {
      var c := s.consumer.ticket;
      assert forall t :: Held(s', t) <==> Held(s, t);
      assert c == Done(s) && !Held(s, c) && c < s.write;
      forall t: nat | Done(s) <= t < Done(s) + s.size && t != c ensures SlotOf(s.size, t) != SlotOf(s.size, c) {
        OtherSlot(s, t, c);
      }
      forall i | 0 <= i < |s.producers| && s.producers[i].Raising? ensures s.producers[i].ticket != c {
        assert Holds(s.producers[i], s.producers[i].ticket);
      }
    }
  }

  /** The slot whose flag goes down is the one that the ticket a lap later may now take. */
  lemma LowerReleases(s: State)
    requires Inv(s) && s.consumer.Lowering?
    ensures var s' := ConsumerStep(s, Lower); Shaped(s') && Published(s') && NothingElseUp(s')
  {
    var s' := ConsumerStep(s, Lower);
    var c := s.consumer.ticket;
    assert forall t :: Held(s', t) <==> Held(s, t);
    forall t: nat | Done(s) <= t < Done(s) + s.size && t != c ensures SlotOf(s.size, t) != SlotOf(s.size, c) {
      OtherSlot(s, t, c);
    }
    assert SlotOf(s.size, c + s.size) == SlotOf(s.size, c);
  }

  lemma LowerKeepsInv(s: State)
    requires Inv(s)
    ensures Inv(ConsumerStep(s, Lower))
  {
    if s.consumer.Lowering? {
      LowerReleases(s);
      assert s.consumer.ticket == Done(s) && !Held(s, Done(s));
      forall i | 0 <= i < |s.producers| && !s.producers[i].Idle? ensures s.producers[i].ticket != Done(s) {
        assert Holds(s.producers[i], s.producers[i].ticket);
      }
    }
  }

  lemma StepKeepsInv(s: State, step: Step)
    requires Inv(s)
    ensures Inv(After(s, step))
  {
    if OfProducer(step) {
      if step.i < |s.producers| {
        match step
        case Draw(i, text) => DrawKeepsInv(s, i, text);
        case LoadRead(i) => LoadKeepsInv(s, i);
        case LoadWrite(i) => LoadKeepsInv(s, i);
        case Test(i) => TestKeepsInv(s, i);
        case Store(i) => StoreKeepsInv(s, i);
        case Raise(i) => RaiseKeepsInv(s, i);
        case _ =>
      }
    } else {
      match step
      case Move => MoveKeepsInv(s);
      case Lower => LowerKeepsInv(s);
      case _ => ConsumerKeepsInv(s, step);
    }
  }

  lemma {:induction false} RunKeepsInv(s: State, steps: seq<Step>)
    requires Inv(s)
    ensures Inv(Run(s, steps))
  {
    if steps != [] {
      RunKeepsInv(s, steps[..|steps| - 1]);
      StepKeepsInv(Run(s, steps[..|steps| - 1]), steps[|steps| - 1]);
    }
  }

  lemma InitialInv(size: nat, n: nat)
    requires size >= 1
    ensures Inv(Initial(size, n))
  {
  }

  // ------------------------------------------------------------------ safety

  /** The consumer is reading, or about to give back, the slot of a ticket. */
  predicate ReadsSlot(s: State, slot: nat)
    requires Shaped(s)
  {
    (s.consumer.Moving? || s.consumer.Lowering?) && SlotOf(s.size, s.consumer.ticket) == slot
  }

  predicate PastWait(p: Producer) {
    p.Storing? || p.Raising?
  }

  /** In every reachable state, for any number of producers: a producer is past its wait only once the consumer
      has finished the ticket one lap earlier; then its slot's flag is down, the consumer is not at it, and no
      other producer past its wait has it; and the output is the texts of the first tickets, in ticket order. */
  lemma RingIsSafe(size: nat, n: nat, steps: seq<Step>)
    requires size >= 1
    ensures var s := Run(Initial(size, n), steps);
            && (forall i :: 0 <= i < n && PastWait(s.producers[i]) ==>
                  && s.producers[i].ticket - size < Done(s)
                  && !s.flags[SlotOf(s.size, s.producers[i].ticket)]
                  && !ReadsSlot(s, SlotOf(s.size, s.producers[i].ticket)))
            && (forall i, j :: 0 <= i < n && 0 <= j < n && i != j && PastWait(s.producers[i]) && PastWait(s.producers[j]) ==>
                  SlotOf(s.size, s.producers[i].ticket) != SlotOf(s.size, s.producers[j].ticket))
            && |s.output| <= |s.texts| && s.output == s.texts[..|s.output|]
  {
    var s := Run(Initial(size, n), steps);
    InitialInv(size, n);
    RunKeepsInv(Initial(size, n), steps);
    forall i | 0 <= i < n && PastWait(s.producers[i])
      ensures !s.flags[SlotOf(s.size, s.producers[i].ticket)] && !ReadsSlot(s, SlotOf(s.size, s.producers[i].ticket))
    {
      assert Holds(s.producers[i], s.producers[i].ticket);
    }
    forall i, j | 0 <= i < n && 0 <= j < n && i != j && PastWait(s.producers[i]) && PastWait(s.producers[j])
      ensures SlotOf(s.size, s.producers[i].ticket) != SlotOf(s.size, s.producers[j].ticket)
    {
      assert ProducerOk(s, s.producers[i]) && ProducerOk(s, s.producers[j]);
      OtherSlot(s, s.producers[i].ticket, s.producers[j].ticket);
    }
  }

  /** In every reachable state each ticket drawn is accounted for: its text is out or about to be written, or its
      producer still holds it, or it lies in its slot with the flag up. */
  lemma NothingIsLost(size: nat, n: nat, steps: seq<Step>, t: nat)
    requires size >= 1 && t < Run(Initial(size, n), steps).write
    ensures var s := Run(Initial(size, n), steps);
            && |s.texts| == s.write
            && (|| (t < |s.output| && s.output[t] == s.texts[t])
                || ((s.consumer.Lowering? || s.consumer.Writing?) && s.consumer.ticket == t && s.consumer.text == s.texts[t])
                || Held(s, t)
                || (s.flags[SlotOf(size, t)] && s.records[SlotOf(size, t)] == Full(s.texts[t])))
  {
    var s := Run(Initial(size, n), steps);
    InitialInv(size, n);
    RunKeepsInv(Initial(size, n), steps);
    assert Published(s) && ConsumerOk(s);
    if t >= Done(s) && !Held(s, t) {
      assert s.flags[SlotOf(s.size, t)];
    }
  }

  // ------------------------------------------------------------------ deadlock

  /** In the wait loop, and bound to go round it as things stand. */
  predicate TurnedAway(s: State, p: Producer) {
    && s.read + s.size <= s.write
    && (p.Waiting? || (p.SawRead? && p.read <= s.read) || (p.SawWrite? && s.read + s.size <= p.write))
  }

  /** The consumer polls a slot whose own producer waits for the consumer. */
  predicate Deadlocked(s: State) {
    && Shaped(s) && s.consumer.Polling? && !s.flags[SlotOf(s.size, s.consumer.ticket)]
    && exists i :: 0 <= i < |s.producers| && Holds(s.producers[i], s.consumer.ticket) && TurnedAway(s, s.producers[i])
  }

  lemma StaysTurnedAway(s: State, step: Step)
    requires Inv(s) && Deadlocked(s)
    ensures Deadlocked(After(s, step))
    ensures After(s, step).output == s.output && After(s, step).consumer == s.consumer
  {
    var s' := After(s, step);
    var c := s.consumer.ticket;
    var i :| 0 <= i < |s.producers| && Holds(s.producers[i], c) && TurnedAway(s, s.producers[i]);
    if OfProducer(step) && step.i < |s.producers| && step.i != i && step.Raise? && s.producers[step.i].Raising? {
      var t := s.producers[step.i].ticket;
      assert ProducerOk(s, s.producers[step.i]) && ProducerOk(s, s.producers[i]);
      OtherSlot(s, t, c);
    }
    assert Holds(s'.producers[i], c) && TurnedAway(s', s'.producers[i]);
  }

  /** Once deadlocked, always: no schedule gets another message out. */
  lemma {:induction false} DeadlockIsFinal(s: State, steps: seq<Step>)
    requires Inv(s) && Deadlocked(s)
    ensures Deadlocked(Run(s, steps)) && Run(s, steps).output == s.output
  {
    if steps != [] {
      var before := steps[..|steps| - 1];
      DeadlockIsFinal(s, before);
      RunKeepsInv(s, before);
      StaysTurnedAway(Run(s, before), steps[|steps| - 1]);
    }
  }

  /** A lone producer always holds the ticket drawn last. */
  predicate HoldsLatest(s: State) {
    |s.producers| <= 1 && forall i :: 0 <= i < |s.producers| && !s.producers[i].Idle? ==> s.producers[i].ticket == s.write - 1
  }

  lemma {:induction false} LoneProducer(s: State, steps: seq<Step>)
    requires Shaped(s) && HoldsLatest(s)
    ensures HoldsLatest(Run(s, steps))
  {
    if steps != [] {
      LoneProducer(s, steps[..|steps| - 1]);
    }
  }

  /** With one producer the producer and the consumer are never both blocked. */
  lemma OneProducerNeverBlocks(size: nat, steps: seq<Step>)
    requires size >= 1
    ensures var s := Run(Initial(size, 1), steps);
            !(TurnedAway(s, s.producers[0]) && s.consumer.Polling? && !s.flags[SlotOf(s.size, s.consumer.ticket)])
  {
    var s := Run(Initial(size, 1), steps);
    InitialInv(size, 1);
    RunKeepsInv(Initial(size, 1), steps);
    LoneProducer(Initial(size, 1), steps);
    if TurnedAway(s, s.producers[0]) && s.consumer.Polling? {
      var c := s.consumer.ticket;
      assert c == Done(s) && c < s.write && !Held(s, c);
      assert s.flags[SlotOf(s.size, c)];
    }
  }

  lemma {:induction false} RunOn(s: State, a: seq<Step>, b: seq<Step>)
    requires Shaped(s)
    ensures Run(s, a + b) == Run(Run(s, a), b)
  {
    if b == [] {
      assert a + b == a;
    } else {
      assert (a + b)[..|a + b| - 1] == a + b[..|b| - 1];
      RunOn(s, a, b[..|b| - 1]);
    }
  }

  /** Producer 0 holds ticket 0 and has not looked yet; the consumer polls for it; producer 1 has logged k more. */
  predicate Ahead(s: State, k: nat) {
    && Shaped(s) && |s.producers| >= 2 && |s.texts| == s.write
    && s.read == 1 && s.write == k + 1 && s.consumer == Polling(0)
    && s.producers[0] == Waiting(0) && s.producers[1] == Idle && !s.flags[0]
  }

  const LOG_ONCE := [Draw(1, ""), LoadRead(1), Test(1), Store(1), Raise(1)]

  lemma RunThree(s: State, a: Step, b: Step, c: Step)
    requires Shaped(s)
    ensures Run(s, [a, b, c]) == Run(Run(Run(s, [a]), [b]), [c])
  {
    assert [a, b] == [a] + [b] && [a, b, c] == [a, b] + [c];
    RunOn(s, [a], [b]);
    RunOn(s, [a, b], [c]);
  }

  lemma RunOne(s: State, step: Step)
    requires Shaped(s)
    ensures Run(s, [step]) == After(s, step)
  {
    assert [step][..0] == [];
  }

  /** Producer 1 draws the next ticket and passes its wait. */
  lemma PassesWait(s: State, k: nat) returns (s': State)
    requires Ahead(s, k) && k + 1 < s.size
    ensures s' == s.(write := k + 2, texts := s.texts + [""], producers := s.producers[1 := Storing(k + 1)])
    ensures s' == Run(s, [Draw(1, ""), LoadRead(1), Test(1)])
  {
    var drawn := s.(write := k + 2, texts := s.texts + [""], producers := s.producers[1 := Waiting(k + 1)]);
    var seen := drawn.(producers := s.producers[1 := SawRead(k + 1, 1)]);
    s' := drawn.(producers := s.producers[1 := Storing(k + 1)]);
    RunThree(s, Draw(1, ""), LoadRead(1), Test(1));
    RunOne(s, Draw(1, ""));
    RunOne(drawn, LoadRead(1));
    RunOne(seen, Test(1));
  }

  /** Producer 1 stores its record in a slot other than slot 0 and raises the flag. */
  lemma Publishes(s: State, k: nat) returns (s': State)
    requires Shaped(s) && |s.producers| >= 2 && k + 1 < s.size && k + 1 < |s.texts| && s.producers[1] == Storing(k + 1)
    ensures s' == s.(producers := s.producers[1 := Idle], flags := s.flags[k + 1 := true],
                     records := s.records[k + 1 := Full(s.texts[k + 1])])
    ensures s' == Run(Run(s, [Store(1)]), [Raise(1)])
  {
    var stored := s.(producers := s.producers[1 := Raising(k + 1)], records := s.records[k + 1 := Full(s.texts[k + 1])]);
    s' := stored.(producers := s.producers[1 := Idle], flags := s.flags[k + 1 := true]);
    RunOne(s, Store(1));
    RunOne(stored, Raise(1));
  }

  lemma LogOnce(s: State, k: nat)
    requires Ahead(s, k) && k + 1 < s.size
    ensures Ahead(Run(s, LOG_ONCE), k + 1)
  {
    var passed := PassesWait(s, k);
    var raised := Publishes(passed, k);
    var three := [Draw(1, ""), LoadRead(1), Test(1)];
    RunOn(s, three, [Store(1)]);
    RunOn(s, three + [Store(1)], [Raise(1)]);
    assert LOG_ONCE == three + [Store(1)] + [Raise(1)];
  }

  lemma {:induction false} GetAhead(s: State, k: nat) returns (steps: seq<Step>)
    requires Ahead(s, 0) && k < s.size
    ensures Ahead(Run(s, steps), k)
  {
    if k == 0 {
      steps := [];
    } else {
      var before := GetAhead(s, k - 1);
      LogOnce(Run(s, before), k - 1);
      steps := before + LOG_ONCE;
      RunOn(s, before, LOG_ONCE);
    }
  }

  /** Producer 0 draws ticket 0, and the consumer goes to its slot. */
  lemma StartsAhead(size: nat, n: nat) returns (s: State)
    requires size >= 1 && n >= 2
    ensures s == Run(Run(Initial(size, n), [Draw(0, "")]), [Fetch]) && s.size == size && Ahead(s, 0)
  {
    var drawn := After(Initial(size, n), Draw(0, ""));
    s := After(drawn, Fetch);
    RunOne(Initial(size, n), Draw(0, ""));
    RunOne(drawn, Fetch);
  }

  /** Once the ring's worth of tickets is drawn, the next draw turns producer 0 away for good. */
  lemma LastDraw(s: State)
    requires s.size >= 1 && Ahead(s, s.size - 1)
    ensures Deadlocked(Run(s, [Draw(1, "")]))
  {
    var s' := After(s, Draw(1, ""));
    RunOne(s, Draw(1, ""));
    assert Holds(s'.producers[0], 0) && TurnedAway(s', s'.producers[0]);
  }

  /** With two producers or more there is a schedule into the deadlock, whatever the size of the ring. */
  lemma TwoProducersCanDeadlock(size: nat, n: nat) returns (steps: seq<Step>)
    requires size >= 1 && n >= 2
    ensures Deadlocked(Run(Initial(size, n), steps))
  {
    var s := StartsAhead(size, n);
    var more := GetAhead(s, size - 1);
    LastDraw(Run(s, more));
    var start := [Draw(0, "")] + [Fetch];
    steps := start + more + [Draw(1, "")];
    RunOn(Initial(size, n), [Draw(0, "")], [Fetch]);
    RunOn(Initial(size, n), start, more);
    RunOn(Initial(size, n), start + more, [Draw(1, "")]);
  }

  ghost predicate CanDeadlock(size: nat, n: nat)
    requires size >= 1
  {
    exists steps :: Deadlocked(Run(Initial(size, n), steps))
  }

  /** The wait compares the shared write index and not the ticket drawn; so a deadlock can be reached if and only
      if there are at least two producers. */
  lemma DeadlockNeedsTwo(size: nat, n: nat)
    requires size >= 1
    ensures CanDeadlock(size, n) <==> n >= 2
  {
    if n >= 2 {
      var steps := TwoProducersCanDeadlock(size, n);
    } else {
      forall steps ensures !Deadlocked(Run(Initial(size, n), steps)) {
        InitialInv(size, n);
        RunKeepsInv(Initial(size, n), steps);
        LoneProducer(Initial(size, n), steps);
      }
    }
  }
}
