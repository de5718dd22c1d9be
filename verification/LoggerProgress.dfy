/** When messages get out of the logger's ring. */
module LoggerProgress {
  import opened LoggerRing

  /** The consumer is at, or on its way to, a slot whose flag is down, and the producer that is to raise it will be
      turned away from its wait until the consumer has moved on. */
  predicate BoundToWait(s: State, p: Producer, read: nat) {
    && read + s.size <= s.write
    && (p.Waiting? || (p.SawRead? && p.read <= read) || (p.SawWrite? && read + s.size <= p.write))
  }

  predicate Stuck(s: State) {
    && Shaped(s) && (s.consumer.Fetching? || s.consumer.Polling?) && Done(s) >= 0
    && !s.flags[SlotOf(s.size, Done(s))]
    && exists i :: 0 <= i < |s.producers| && Holds(s.producers[i], Done(s)) && BoundToWait(s, s.producers[i], Done(s) + 1)
  }

  // ------------------------------------------------------------------ stuck for good

  lemma OtherRaises(s: State, i: nat, j: nat)
    requires Inv(s) && i < |s.producers| && j < |s.producers| && i != j && s.producers[j].Raising?
    requires Holds(s.producers[i], Done(s)) && Done(s) >= 0
    ensures SlotOf(s.size, s.producers[j].ticket) != SlotOf(s.size, Done(s))
  {
    assert ProducerOk(s, s.producers[j]);
    OtherSlot(s, s.producers[j].ticket, Done(s));
  }

  /** The producer awaited goes round its wait. */
  lemma OwnStepLeavesStuck(s: State, step: Step, i: nat)
    requires Inv(s) && Stuck(s) && OfProducer(step) && step.i == i
    requires i < |s.producers| && Holds(s.producers[i], Done(s)) && BoundToWait(s, s.producers[i], Done(s) + 1)
    ensures Stuck(After(s, step)) && After(s, step).output == s.output
  {
    var s' := After(s, step);
    assert s'.flags == s.flags && Done(s') == Done(s);
    assert Holds(s'.producers[i], Done(s')) && BoundToWait(s', s'.producers[i], Done(s') + 1);
  }

  /** What a producer's step leaves alone. */
  lemma ProducerFrame(s: State, step: Step, s': State)
    requires Shaped(s) && OfProducer(step) && step.i < |s.producers| && s' == After(s, step)
    ensures Shaped(s') && s'.size == s.size && s'.read == s.read && s'.consumer == s.consumer && s'.output == s.output
    ensures s.write <= s'.write && |s'.producers| == |s.producers|
    ensures forall j :: 0 <= j < |s.producers| && j != step.i ==> s'.producers[j] == s.producers[j]
    ensures forall slot :: 0 <= slot < s.size && s'.flags[slot] != s.flags[slot] ==>
              s.producers[step.i].Raising? && slot == SlotOf(s.size, s.producers[step.i].ticket)
  {
  }

  lemma StuckOn(s: State, i: nat)
    requires Shaped(s) && (s.consumer.Fetching? || s.consumer.Polling?) && Done(s) >= 0
    requires !s.flags[SlotOf(s.size, Done(s))] && i < |s.producers| && Holds(s.producers[i], Done(s))
    requires BoundToWait(s, s.producers[i], Done(s) + 1)
    ensures Stuck(s)
  {
  }

  /** Another producer changes nothing for it. */
  lemma OtherStepLeavesStuck(s: State, step: Step, i: nat)
    requires Inv(s) && Stuck(s) && OfProducer(step) && step.i < |s.producers| && step.i != i
    requires i < |s.producers| && Holds(s.producers[i], Done(s)) && BoundToWait(s, s.producers[i], Done(s) + 1)
    ensures Stuck(After(s, step)) && After(s, step).output == s.output
  {
    var s' := After(s, step);
    ProducerFrame(s, step, s');
    if s.producers[step.i].Raising? {
      OtherRaises(s, i, step.i);
    }
    StuckOn(s', i);
  }

  lemma ConsumerLeavesStuck(s: State, step: Step, i: nat)
    requires Inv(s) && Stuck(s) && !OfProducer(step)
    requires i < |s.producers| && Holds(s.producers[i], Done(s)) && BoundToWait(s, s.producers[i], Done(s) + 1)
    ensures Stuck(After(s, step)) && After(s, step).output == s.output
  {
    var s' := After(s, step);
    assert Done(s') == Done(s);
    assert Holds(s'.producers[i], Done(s')) && BoundToWait(s', s'.producers[i], Done(s') + 1);
  }

  lemma StepLeavesStuck(s: State, step: Step)
    requires Inv(s) && Stuck(s)
    ensures Stuck(After(s, step)) && After(s, step).output == s.output
  {
    var i :| 0 <= i < |s.producers| && Holds(s.producers[i], Done(s)) && BoundToWait(s, s.producers[i], Done(s) + 1);
    if OfProducer(step) {
      if step.i == i {
        OwnStepLeavesStuck(s, step, i);
      } else if step.i < |s.producers| {
        OtherStepLeavesStuck(s, step, i);
      }
    } else {
      ConsumerLeavesStuck(s, step, i);
    }
  }

  lemma {:induction false} StuckIsFinal(s: State, steps: seq<Step>)
    requires Inv(s) && Stuck(s)
    ensures Stuck(Run(s, steps)) && Run(s, steps).output == s.output
  {
    if steps != [] {
      var before := steps[..|steps| - 1];
      StuckIsFinal(s, before);
      RunKeepsInv(s, before);
      StepLeavesStuck(Run(s, before), steps[|steps| - 1]);
    }
  }

  // ------------------------------------------------------------------ the consumer's part

  /** The schedule takes the state to one with one message more out, and draws no ticket. */
  predicate Delivers(s: State, r: State) {
    r.texts == s.texts && |r.output| == |s.output| + 1
  }

  lemma Then(s: State, first: Step, s': State, more: seq<Step>)
    requires Shaped(s) && s' == After(s, first)
    ensures Shaped(s') && Run(s, [first] + more) == Run(s', more)
  {
    RunOne(s, first);
    AfterShaped(s, first);
    RunOn(s, [first], more);
  }

  lemma FromWriting(s: State) returns (steps: seq<Step>)
    requires Inv(s) && s.consumer.Writing?
    ensures Delivers(s, Run(s, steps))
  {
    steps := [Write];
    RunOne(s, Write);
  }

  lemma FromLowering(s: State) returns (steps: seq<Step>)
    requires Inv(s) && s.consumer.Lowering?
    ensures Delivers(s, Run(s, steps))
  {
    var s' := After(s, Lower);
    StepKeepsInv(s, Lower);
    var more := FromWriting(s');
    steps := [Lower] + more;
    Then(s, Lower, s', more);
  }

  lemma FromMoving(s: State) returns (steps: seq<Step>)
    requires Inv(s) && s.consumer.Moving?
    ensures Delivers(s, Run(s, steps))
  {
    var s' := After(s, Move);
    StepKeepsInv(s, Move);
    var more := FromLowering(s');
    steps := [Move] + more;
    Then(s, Move, s', more);
  }

  /** With the flag up the consumer leaves its poll, and the message gets out. */
  lemma FromFlag(s: State) returns (steps: seq<Step>)
    requires Inv(s) && s.consumer.Polling? && s.flags[SlotOf(s.size, s.consumer.ticket)]
    ensures Delivers(s, Run(s, steps))
  {
    var s' := After(s, Poll);
    StepKeepsInv(s, Poll);
    var more := FromMoving(s');
    steps := [Poll] + more;
    Then(s, Poll, s', more);
  }

  // ------------------------------------------------------------------ the producer's part

  /** The consumer polls for the ticket of producer i. */
  predicate Awaited(s: State, i: nat) {
    Inv(s) && i < |s.producers| && s.consumer.Polling? && Holds(s.producers[i], s.consumer.ticket)
  }

  lemma FromRaising(s: State, i: nat) returns (steps: seq<Step>)
    requires Awaited(s, i) && s.producers[i].Raising?
    ensures Delivers(s, Run(s, steps))
  {
    var s' := After(s, Raise(i));
    StepKeepsInv(s, Raise(i));
    var more := FromFlag(s');
    steps := [Raise(i)] + more;
    Then(s, Raise(i), s', more);
  }

  lemma FromStoring(s: State, i: nat) returns (steps: seq<Step>)
    requires Awaited(s, i) && s.producers[i].Storing?
    ensures Delivers(s, Run(s, steps))
  {
    var s' := After(s, Store(i));
    StepKeepsInv(s, Store(i));
    assert ProducerOk(s, s.producers[i]);
    var more := FromRaising(s', i);
    steps := [Store(i)] + more;
    Then(s, Store(i), s', more);
  }

  /** A test that succeeds. */
  lemma FromPass(s: State, i: nat) returns (steps: seq<Step>)
    requires Awaited(s, i)
    requires var p := s.producers[i]; (p.SawRead? && p.read + s.size > s.write) || (p.SawWrite? && s.read + s.size > p.write)
    ensures Delivers(s, Run(s, steps))
  {
    var s' := After(s, Test(i));
    StepKeepsInv(s, Test(i));
    var more := FromStoring(s', i);
    steps := [Test(i)] + more;
    Then(s, Test(i), s', more);
  }

  /** With room in the ring a fresh look succeeds. */
  lemma FromWaiting(s: State, i: nat) returns (steps: seq<Step>)
    requires Awaited(s, i) && s.producers[i].Waiting? && s.read + s.size > s.write
    ensures Delivers(s, Run(s, steps))
  {
    var s' := After(s, LoadRead(i));
    StepKeepsInv(s, LoadRead(i));
    var more := FromPass(s', i);
    steps := [LoadRead(i)] + more;
    Then(s, LoadRead(i), s', more);
  }

  /** A stale look fails, and is repeated. */
  lemma FromStale(s: State, i: nat) returns (steps: seq<Step>)
    requires Awaited(s, i) && s.producers[i].SawRead? && s.producers[i].read + s.size <= s.write < s.read + s.size
    ensures Delivers(s, Run(s, steps))
  {
    var s' := After(s, Test(i));
    StepKeepsInv(s, Test(i));
    var more := FromWaiting(s', i);
    steps := [Test(i)] + more;
    Then(s, Test(i), s', more);
  }

  /** A producer that is awaited and not bound to wait raises its flag. */
  lemma FromProducer(s: State, i: nat) returns (steps: seq<Step>)
    requires Awaited(s, i) && !BoundToWait(s, s.producers[i], s.read)
    ensures Delivers(s, Run(s, steps))
  {
    var p := s.producers[i];
    assert ProducerOk(s, p);
    match p
    case Raising(_) => steps := FromRaising(s, i);
    case Storing(_) => steps := FromStoring(s, i);
    case Waiting(_) => steps := FromWaiting(s, i);
    case SawRead(_, read) =>
      if read + s.size > s.write {
        steps := FromPass(s, i);
      } else {
        steps := FromStale(s, i);
      }
    case SawWrite(_, _) => steps := FromPass(s, i);
  }

  // ------------------------------------------------------------------ together

  /** A ticket awaited whose flag is down is still in its producer's hands. */
  lemma AwaitedIsHeld(s: State) returns (i: nat)
    requires Inv(s) && s.consumer.Polling? && |s.output| < |s.texts|
    requires !s.flags[SlotOf(s.size, s.consumer.ticket)]
    ensures Awaited(s, i)
  {
    var c := s.consumer.ticket;
    assert c == Done(s) && c < s.write && Held(s, c);
    i :| 0 <= i < |s.producers| && Holds(s.producers[i], c);
  }

  lemma FromPolling(s: State) returns (steps: seq<Step>)
    requires Inv(s) && s.consumer.Polling? && |s.output| < |s.texts| && !Stuck(s)
    ensures Delivers(s, Run(s, steps))
  {
    if s.flags[SlotOf(s.size, s.consumer.ticket)] {
      steps := FromFlag(s);
    } else {
      var i := AwaitedIsHeld(s);
      assert Done(s) + 1 == s.read;
      steps := FromProducer(s, i);
    }
  }

  lemma FetchingIsNoExcuse(s: State)
    requires Inv(s) && s.consumer.Fetching?
    ensures Stuck(After(s, Fetch)) ==> Stuck(s)
  {
    var s' := After(s, Fetch);
    assert Done(s') == Done(s) && s'.producers == s.producers && s'.flags == s.flags;
    if i :| 0 <= i < |s.producers| && Holds(s.producers[i], Done(s)) && BoundToWait(s', s.producers[i], Done(s) + 1) {
      assert BoundToWait(s, s.producers[i], Done(s) + 1);
    }
  }

  lemma FromFetching(s: State) returns (steps: seq<Step>)
    requires Inv(s) && s.consumer.Fetching? && |s.output| < |s.texts| && !Stuck(s)
    ensures Delivers(s, Run(s, steps))
  {
    var s' := After(s, Fetch);
    StepKeepsInv(s, Fetch);
    FetchingIsNoExcuse(s);
    var more := FromPolling(s');
    steps := [Fetch] + more;
    Then(s, Fetch, s', more);
  }

  /** Unless stuck, the next message can get out. */
  lemma NextGetsOut(s: State) returns (steps: seq<Step>)
    requires Inv(s) && |s.output| < |s.texts| && !Stuck(s)
    ensures Delivers(s, Run(s, steps))
  {
    match s.consumer
    case Fetching => steps := FromFetching(s);
    case Polling(_) => steps := FromPolling(s);
    case Moving(_) => steps := FromMoving(s);
    case Lowering(_, _) => steps := FromLowering(s);
    case Writing(_, _) => steps := FromWriting(s);
  }

  ghost predicate CanDeliver(s: State)
    requires Shaped(s)
  {
    exists steps :: |Run(s, steps).output| > |s.output|
  }

  /** In every reachable state with a message drawn for and not yet out: some schedule gets one out if and only if the
      state is not stuck. */
  lemma DeliversUnlessStuck(size: nat, n: nat, steps: seq<Step>)
    requires size >= 1
    ensures var s := Run(Initial(size, n), steps); |s.output| < |s.texts| ==> (CanDeliver(s) <==> !Stuck(s))
  {
    var s := Run(Initial(size, n), steps);
    InitialInv(size, n);
    RunKeepsInv(Initial(size, n), steps);
    if |s.output| < |s.texts| {
      if Stuck(s) {
        forall more ensures |Run(s, more).output| <= |s.output| {
          StuckIsFinal(s, more);
        }
      } else {
        var more := NextGetsOut(s);
        assert |Run(s, more).output| > |s.output|;
      }
    }
  }

  // ------------------------------------------------------------------ one producer

  lemma LoneIsNeverStuck(s: State)
    requires Inv(s) && HoldsLatest(s)
    ensures !Stuck(s)
  {
  }

  lemma {:induction false} Drain(s: State) returns (steps: seq<Step>)
    requires Inv(s) && HoldsLatest(s)
    ensures Run(s, steps).output == Run(s, steps).texts == s.texts
    decreases |s.texts| - |s.output|
  {
    steps := [];
    if |s.output| < |s.texts| {
      LoneIsNeverStuck(s);
      var first := NextGetsOut(s);
      RunKeepsInv(s, first);
      LoneProducer(s, first);
      var more := Drain(Run(s, first));
      steps := first + more;
      RunOn(s, first, more);
    }
  }

  /** With one producer every message drawn for can get out: from every reachable state some schedule leaves the
      output complete. */
  lemma OneProducerDrains(size: nat, steps: seq<Step>) returns (more: seq<Step>)
    requires size >= 1
    ensures var s := Run(Initial(size, 1), steps);
            Run(s, more).output == s.texts && Run(s, more).texts == s.texts
  {
    var s := Run(Initial(size, 1), steps);
    InitialInv(size, 1);
    RunKeepsInv(Initial(size, 1), steps);
    LoneProducer(Initial(size, 1), steps);
    more := Drain(s);
  }
}
