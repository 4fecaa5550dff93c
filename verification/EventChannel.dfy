/** The lossy bounded event channel of the file watcher (`watcher.rs`): one
    producer, one consumer, a bounded queue and a shared stale flag, taken as
    atomic steps that may interleave in any order. */
module EventChannels {
  import opened Wrappers

  /** The producer is idle, or between a failed send and its flag store. */
  datatype Producer = Idle | Failed

  /** Where the consumer is inside `try_recv`. */
  datatype Consumer = Ready | Receiving | Draining(taken: nat) | Reporting

  datatype Reason = Lost | Disconnected

  /** What has happened so far: events are numbered in the order produced. */
  datatype Entry =
    | Produced(event: nat)
    | Delivered(event: nat)
    | Reported(reason: Reason)
    | NothingYet

  datatype Channel = Channel(
    queue: seq<nat>, stale: bool, connected: bool, disconnectReported: bool,
    producer: Producer, consumer: Consumer, produced: nat, drops: nat, log: seq<Entry>)

  datatype Step = Send | StoreFlag | HangUp | Swap | Drain | Report | Receive

  const OPENED := Channel([], false, true, false, Idle, Ready, 0, 0, [])

  predicate Enabled(c: Channel, step: Step) {
    match step
    case Send => c.producer.Idle? && c.connected
    case StoreFlag => c.producer.Failed?
    case HangUp => c.producer.Idle? && c.connected
    case Swap => c.consumer.Ready?
    case Drain => c.consumer.Draining?
    case Report => c.consumer.Reporting?
    case Receive => c.consumer.Receiving?
  }

  function Logged(c: Channel, e: Entry): Channel {
    c.(log := c.log + [e])
  }

  function Next(capacity: nat, c: Channel, step: Step): Channel
    requires Enabled(c, step)
  {
    match step
    case Send =>
      var sent := Logged(c.(produced := c.produced + 1), Produced(c.produced));
      if |c.queue| < capacity then sent.(queue := c.queue + [c.produced]) else sent.(producer := Failed)
    case StoreFlag => c.(stale := true, producer := Idle, drops := c.drops + 1)
    case HangUp => c.(connected := false)
    case Swap => if c.stale then c.(stale := false, consumer := Draining(0)) else c.(consumer := Receiving)
    case Drain =>
      if c.consumer.taken >= capacity then c.(consumer := Reporting)
      else if c.queue != [] then c.(queue := c.queue[1..], consumer := Draining(c.consumer.taken + 1))
      else if c.connected then c.(consumer := Reporting)
      else c.(consumer := Reporting, disconnectReported := true)
    case Report => Logged(c.(consumer := Ready), Reported(Lost))
    case Receive =>
      var ready := c.(consumer := Ready);
      if c.queue != [] then Logged(ready.(queue := c.queue[1..]), Delivered(c.queue[0]))
      else if c.connected || c.disconnectReported then Logged(ready, NothingYet)
      else Logged(ready.(disconnectReported := true), Reported(Disconnected))
  }

  predicate Runs(capacity: nat, c: Channel, steps: seq<Step>)
    decreases |steps|
  {
    steps == [] || (Enabled(c, steps[0]) && Runs(capacity, Next(capacity, c, steps[0]), steps[1..]))
  }

  function Run(capacity: nat, c: Channel, steps: seq<Step>): Channel
    requires Runs(capacity, c, steps)
    decreases |steps|
  {
    if steps == [] then c else Run(capacity, Next(capacity, c, steps[0]), steps[1..])
  }

  // ---------------------------------------------------------------- the claims

  predicate Covers(e: Entry, event: nat) {
    e == Delivered(event) || e == Reported(Lost)
  }

  /** After its production the event was delivered, or a loss was reported. */
  predicate Accounted(log: seq<Entry>, event: nat) {
    exists p, q :: 0 <= p < q < |log| && log[p] == Produced(event) && Covers(log[q], event)
  }

  predicate Recovering(c: Channel) {
    c.consumer.Draining? || c.consumer.Reporting?
  }

  /** The producer has failed to send this event and has yet to raise the flag. */
  predicate AboutToFlag(c: Channel, event: nat) {
    c.producer.Failed? && event + 1 == c.produced
  }

  predicate NotLost(c: Channel, event: nat) {
    Accounted(c.log, event) || event in c.queue || c.stale || Recovering(c) || AboutToFlag(c, event)
  }

  predicate ProducedOnce(log: seq<Entry>, event: nat) {
    exists p :: 0 <= p < |log| && log[p] == Produced(event)
  }

  /** Deliveries so far are in production order. */
  predicate InOrder(log: seq<Entry>) {
    forall p, q | 0 <= p < q < |log| && log[p].Delivered? && log[q].Delivered? :: log[p].event < log[q].event
  }

  function Tally(log: seq<Entry>, reason: Reason): nat {
    if log == [] then 0
    else Tally(log[..|log| - 1], reason) + (if log[|log| - 1] == Reported(reason) then 1 else 0)
  }

  function Count(flag: bool): nat {
    if flag then 1 else 0
  }

  predicate DeliveredBelow(log: seq<Entry>, bound: nat) {
    forall p | 0 <= p < |log| && log[p].Delivered? :: log[p].event < bound
  }

  /** The next event that can still be delivered. */
  function Frontier(c: Channel): nat {
    if c.queue == [] then c.produced else c.queue[0]
  }

  predicate QueueOk(capacity: nat, c: Channel) {
    |c.queue| <= capacity && InQueueOrder(c.queue, c.produced)
  }

  predicate InQueueOrder(queue: seq<nat>, bound: nat) {
    && (forall i | 0 <= i < |queue| :: queue[i] < bound)
    && (forall i, j | 0 <= i < j < |queue| :: queue[i] < queue[j])
  }

  /** Loss reports are paid for by losses, and a hang-up is reported at most once. */
  predicate ReportsOk(c: Channel) {
    && Tally(c.log, Lost) + Count(c.stale) + Count(Recovering(c)) <= c.drops
    && Tally(c.log, Disconnected) <= Count(c.disconnectReported)
    && (c.disconnectReported ==> !c.connected)
  }

  predicate Inv(capacity: nat, c: Channel) {
    && QueueOk(capacity, c)
    && InOrder(c.log) && DeliveredBelow(c.log, Frontier(c))
    && ReportsOk(c)
    && (forall k | 0 <= k < c.produced :: ProducedOnce(c.log, k))
    && (forall k | 0 <= k < c.produced :: NotLost(c, k))
  }

  lemma AccountedGrows(log: seq<Entry>, e: Entry, event: nat)
    requires Accounted(log, event)
    ensures Accounted(log + [e], event)
  {
    var p, q :| 0 <= p < q < |log| && log[p] == Produced(event) && Covers(log[q], event);
    assert (log + [e])[p] == log[p] && (log + [e])[q] == log[q];
  }

  lemma CoveredNow(log: seq<Entry>, e: Entry, event: nat)
    requires ProducedOnce(log, event) && Covers(e, event)
    ensures Accounted(log + [e], event)
  {
    var p :| 0 <= p < |log| && log[p] == Produced(event);
    assert (log + [e])[p] == log[p] && (log + [e])[|log|] == e;
  }

  lemma ProducedStays(log: seq<Entry>, e: Entry, event: nat)
    requires ProducedOnce(log, event) || e == Produced(event)
    ensures ProducedOnce(log + [e], event)
  {
    if ProducedOnce(log, event) {
      var p :| 0 <= p < |log| && log[p] == Produced(event);
      assert (log + [e])[p] == Produced(event);
    } else {
      assert (log + [e])[|log|] == e;
    }
  }

  lemma TallyOfAppend(log: seq<Entry>, e: Entry, reason: Reason)
    ensures Tally(log + [e], reason) == Tally(log, reason) + (if e == Reported(reason) then 1 else 0)
  {
    assert (log + [e])[..|log|] == log;
  }

  lemma DeliveryInOrder(log: seq<Entry>, e: Entry, bound: nat, bound': nat)
    requires InOrder(log) && DeliveredBelow(log, bound) && bound <= bound'
    requires e.Delivered? ==> bound <= e.event < bound'
    ensures InOrder(log + [e]) && DeliveredBelow(log + [e], bound')
  {
  }

  /** The entry a step appends to the log, if any. */
  function Appended(c: Channel, step: Step): Option<Entry>
    requires Enabled(c, step)
  {
    match step
    case Send => Some(Produced(c.produced))
    case Report => Some(Reported(Lost))
    case Receive =>
      Some(if c.queue != [] then Delivered(c.queue[0])
           else if c.connected || c.disconnectReported then NothingYet
           else Reported(Disconnected))
    case _ => None
  }

  lemma AppendedIs(capacity: nat, c: Channel, step: Step)
    requires Enabled(c, step)
    ensures Next(capacity, c, step).log == if Appended(c, step).Some? then c.log + [Appended(c, step).value] else c.log
  {
  }

  lemma PopKeepsOrder(queue: seq<nat>, bound: nat)
    requires InQueueOrder(queue, bound) && queue != []
    ensures InQueueOrder(queue[1..], bound) && (|queue| > 1 ==> queue[0] < queue[1..][0])
  {
  }

  lemma PushKeepsOrder(queue: seq<nat>, bound: nat)
    requires InQueueOrder(queue, bound)
    ensures InQueueOrder(queue, bound + 1) && InQueueOrder(queue + [bound], bound + 1)
  {
  }

  lemma StepKeepsQueue(capacity: nat, c: Channel, step: Step)
    requires QueueOk(capacity, c) && Enabled(c, step)
    ensures QueueOk(capacity, Next(capacity, c, step))
    ensures Frontier(c) <= Frontier(Next(capacity, c, step))
  {
    hide InQueueOrder;
    PushKeepsOrder(c.queue, c.produced);
    if c.queue != [] {
      PopKeepsOrder(c.queue, c.produced);
      FirstIsBelow(c.queue, c.produced);
    }
  }

  lemma FirstIsBelow(queue: seq<nat>, bound: nat)
    requires InQueueOrder(queue, bound) && queue != []
    ensures queue[0] < bound
  {
  }

  lemma StepKeepsOrder(capacity: nat, c: Channel, step: Step)
    requires QueueOk(capacity, c) && InOrder(c.log) && DeliveredBelow(c.log, Frontier(c)) && Enabled(c, step)
    ensures var c' := Next(capacity, c, step); InOrder(c'.log) && DeliveredBelow(c'.log, Frontier(c'))
  {
    hide InOrder;
    var c' := Next(capacity, c, step);
    StepKeepsQueue(capacity, c, step);
    AppendedIs(capacity, c, step);
    if Appended(c, step).Some? {
      DeliveryInOrder(c.log, Appended(c, step).value, Frontier(c), Frontier(c'));
    }
  }

  lemma StepKeepsReports(capacity: nat, c: Channel, step: Step)
    requires ReportsOk(c) && Enabled(c, step)
    ensures ReportsOk(Next(capacity, c, step))
  {
    hide Tally;
    AppendedIs(capacity, c, step);
    if Appended(c, step).Some? {
      TallyOfAppend(c.log, Appended(c, step).value, Lost);
      TallyOfAppend(c.log, Appended(c, step).value, Disconnected);
    }
  }

  lemma StepKeepsProduced(capacity: nat, c: Channel, step: Step, event: nat)
    requires (event < c.produced ==> ProducedOnce(c.log, event)) && Enabled(c, step)
    requires event < Next(capacity, c, step).produced
    ensures ProducedOnce(Next(capacity, c, step).log, event)
  {
    hide ProducedOnce;
    AppendedIs(capacity, c, step);
    if Appended(c, step).Some? {
      ProducedStays(c.log, Appended(c, step).value, event);
    }
  }

  /** An event leaves the queue only to be delivered or while a recovery runs. */
  lemma QueueLeaves(capacity: nat, c: Channel, step: Step, event: nat)
    requires Enabled(c, step) && event in c.queue
    ensures var c' := Next(capacity, c, step);
            event in c'.queue || Appended(c, step) == Some(Delivered(event)) || Recovering(c')
  {
    var i :| 0 <= i < |c.queue| && c.queue[i] == event;
    if i > 0 {
      assert c.queue[1..][i - 1] == event;
    }
  }

  lemma StepKeepsNotLost(capacity: nat, c: Channel, step: Step, event: nat)
    requires Enabled(c, step) && event < Next(capacity, c, step).produced
    requires event < c.produced ==> ProducedOnce(c.log, event) && NotLost(c, event)
    ensures NotLost(Next(capacity, c, step), event)
  {
    hide Accounted, ProducedOnce;
    var c' := Next(capacity, c, step);
    AppendedIs(capacity, c, step);
    if event == c.produced {
      assert |c.queue| < capacity ==> c'.queue[|c.queue|] == event;
    } else if Accounted(c.log, event) {
      if Appended(c, step).Some? {
        AccountedGrows(c.log, Appended(c, step).value, event);
      }
    } else if Appended(c, step).Some? && Covers(Appended(c, step).value, event) {
      CoveredNow(c.log, Appended(c, step).value, event);
    } else if event in c.queue {
      QueueLeaves(capacity, c, step, event);
    }
  }

  /** Every atomic step of either side keeps the invariant. */
  lemma StepKeepsInv(capacity: nat, c: Channel, step: Step)
    requires Inv(capacity, c) && Enabled(c, step)
    ensures Inv(capacity, Next(capacity, c, step))
  {
    hide QueueOk, InOrder, DeliveredBelow, ReportsOk, ProducedOnce, NotLost;
    var c' := Next(capacity, c, step);
    StepKeepsQueue(capacity, c, step);
    StepKeepsOrder(capacity, c, step);
    StepKeepsReports(capacity, c, step);
    forall k | 0 <= k < c'.produced
      ensures ProducedOnce(c'.log, k) && NotLost(c', k)
    {
      StepKeepsProduced(capacity, c, step, k);
      StepKeepsNotLost(capacity, c, step, k);
    }
  }

  lemma {:induction false} RunKeepsInv(capacity: nat, c: Channel, steps: seq<Step>)
    requires Inv(capacity, c) && Runs(capacity, c, steps)
    ensures Inv(capacity, Run(capacity, c, steps))
    decreases |steps|
  {
    hide Inv, Next, Enabled;
    if steps != [] {
      StepKeepsInv(capacity, c, steps[0]);
      RunKeepsInv(capacity, Next(capacity, c, steps[0]), steps[1..]);
    }
  }

  lemma OpenedInv(capacity: nat)
    ensures Inv(capacity, OPENED)
  {
  }

  /** Over every interleaving: a produced event has been delivered or is followed
      by a loss report, unless it is queued, the flag is set, a recovery is under
      way, or the producer is about to set the flag. Deliveries keep the order,
      no loss report comes without a loss, and a hang-up is reported at most once. */
  lemma NothingIsSilentlyLost(capacity: nat, steps: seq<Step>)
    requires Runs(capacity, OPENED, steps)
    ensures var c := Run(capacity, OPENED, steps);
            && (forall event | 0 <= event < c.produced :: NotLost(c, event))
            && InOrder(c.log) && Tally(c.log, Lost) <= c.drops && Tally(c.log, Disconnected) <= 1
  {
    hide Run;
    OpenedInv(capacity);
    RunKeepsInv(capacity, OPENED, steps);
  }

  predicate AllAccounted(c: Channel) {
    forall event | 0 <= event < c.produced :: Accounted(c.log, event)
  }

  /** The consumer is about to answer `None`. */
  predicate AnswersNone(c: Channel) {
    c.consumer.Receiving? && Appended(c, Receive) == Some(NothingYet)
  }

  /** With the flag clear, a `None` accounts for everything exactly when the producer
      is idle or the event it has just failed to send was covered by an earlier report. */
  lemma NoneAccountsForAll(capacity: nat, c: Channel)
    requires Inv(capacity, c) && AnswersNone(c) && !c.stale
    ensures AllAccounted(Next(capacity, c, Receive)) <==> NewestSettled(c)
  {
    hide Accounted;
    AccountedAtNone(c.log);
    forall event | 0 <= event < c.produced && !AboutToFlag(c, event)
      ensures Accounted(c.log, event)
    {
      assert NotLost(c, event);
    }
  }

  /** The producer is not about to flag a loss that nothing has reported yet. */
  predicate NewestSettled(c: Channel) {
    c.producer.Idle? || c.produced == 0 || Accounted(c.log, c.produced - 1)
  }

  /** Answering `None` neither delivers nor reports anything. */
  lemma AccountedAtNone(log: seq<Entry>)
    ensures forall event: nat :: Accounted(log + [NothingYet], event) <==> Accounted(log, event)
  {
    forall event: nat
      ensures Accounted(log + [NothingYet], event) <==> Accounted(log, event)
    {
      if Accounted(log, event) {
        AccountedGrows(log, NothingYet, event);
      }
      if Accounted(log + [NothingYet], event) {
        var all := log + [NothingYet];
        var p, q :| 0 <= p < q < |all| && all[p] == Produced(event) && Covers(all[q], event);
        assert log[p] == all[p] && log[q] == all[q];
      }
    }
  }

  predicate ByProducer(steps: seq<Step>) {
    forall step | step in steps :: step.Send? || step.StoreFlag? || step.HangUp?
  }

  /** What the producer can do inside a call that ends in `None`: a send would have
      filled the queue and a hang-up would have been reported, so at most it raises
      the flag for the event it had already failed to send. */
  lemma {:induction false} QuietDuring(capacity: nat, c: Channel, during: seq<Step>)
    requires capacity > 0 && c.consumer.Receiving? && (c.disconnectReported ==> !c.connected)
    requires ByProducer(during) && Runs(capacity, c, during) && AnswersNone(Run(capacity, c, during))
    ensures AnswersNone(c)
    ensures Run(capacity, c, during).log == c.log && Run(capacity, c, during).produced == c.produced
    decreases |during|
  {
    if during != [] {
      var c' := Next(capacity, c, during[0]);
      QuietDuring(capacity, c', during[1..]);
    }
  }

  /** The exact condition, at the moment a call begins: whatever the producer does
      until the call answers `None`, every event is then accounted for if and only if
      the producer was idle, or the event it was about to flag had been reported. */
  lemma CallAccountsForAllIff(capacity: nat, steps: seq<Step>, during: seq<Step>)
    requires capacity > 0 && Runs(capacity, OPENED, steps) && Run(capacity, OPENED, steps).consumer.Ready?
    requires ByProducer(during)
    requires var called := Next(capacity, Run(capacity, OPENED, steps), Swap);
             Runs(capacity, called, during) && AnswersNone(Run(capacity, called, during))
    ensures var c := Run(capacity, OPENED, steps);
            AllAccounted(Next(capacity, Run(capacity, Next(capacity, c, Swap), during), Receive)) <==> NewestSettled(c)
  {
    hide Inv, AllAccounted, Accounted, QueueOk;
    OpenedInv(capacity);
    RunKeepsInv(capacity, OPENED, steps);
    var c := Run(capacity, OPENED, steps);
    var called := Next(capacity, c, Swap);
    StepKeepsInv(capacity, c, Swap);
    ConsumerWaits(capacity, called, during);
    HangUpIsReportedLater(capacity, called);
    QuietDuring(capacity, called, during);
    NoneAccountsForAll(capacity, called);
    SameAccounts(Next(capacity, Run(capacity, called, during), Receive), Next(capacity, called, Receive));
  }

  lemma HangUpIsReportedLater(capacity: nat, c: Channel)
    requires Inv(capacity, c)
    ensures c.disconnectReported ==> !c.connected
  {
  }

  lemma SameAccounts(c: Channel, d: Channel)
    requires c.log == d.log && c.produced == d.produced
    ensures AllAccounted(c) <==> AllAccounted(d)
  {
  }

  lemma {:induction false} ConsumerWaits(capacity: nat, c: Channel, during: seq<Step>)
    requires ByProducer(during) && Runs(capacity, c, during)
    ensures Run(capacity, c, during).consumer == c.consumer
    decreases |during|
  {
    if during != [] {
      ConsumerWaits(capacity, Next(capacity, c, during[0]), during[1..]);
    }
  }

  /** An idle producer when the call ends is not enough: with the flag store landing
      between the swap and the receive, `None` is answered while a lost event is
      still unreported. */
  lemma NoneCanPrecedeTheReport() returns (steps: seq<Step>)
    ensures Runs(1, OPENED, steps)
    ensures var c := Run(1, OPENED, steps);
            AnswersNone(c) && c.producer.Idle? && c.produced == 2 && !Accounted(Next(1, c, Receive).log, 1)
  {
    hide Runs, Run;
    var log := [Produced(0), Produced(1)];
    assert Runs(1, OPENED, []) && Run(1, OPENED, []) == OPENED by { NothingRun(); }
    steps := Advance([], OPENED, Send);
    steps := Advance(steps, Channel([0], false, true, false, Idle, Ready, 1, 0, [Produced(0)]), Send);
    steps := Advance(steps, Channel([0], false, true, false, Failed, Ready, 2, 0, log), Swap);
    steps := Advance(steps, Channel([0], false, true, false, Failed, Receiving, 2, 0, log), Receive);
    steps := Advance(steps, Channel([], false, true, false, Failed, Ready, 2, 0, log + [Delivered(0)]), Swap);
    steps := Advance(steps, Channel([], false, true, false, Failed, Receiving, 2, 0, log + [Delivered(0)]), StoreFlag);
  }

  /** Nor does a raised flag at that point always mean an unreported loss: a report
      made while the producer was about to raise it can have covered the event. This
      is the other way in which `NewestSettled` can hold. */
  lemma FlagCanOutliveItsReport() returns (steps: seq<Step>)
    ensures Runs(1, OPENED, steps)
    ensures var c := Run(1, OPENED, steps);
            AnswersNone(c) && c.producer.Idle? && c.stale && AllAccounted(Next(1, c, Receive))
  {
    hide Runs, Run, AllAccounted;
    var log := [Produced(0), Produced(1), Produced(2)];
    steps := SecondLoss();
    steps := Advance(steps, Channel([0], true, true, false, Failed, Ready, 3, 1, log), Swap);
    steps := Advance(steps, Channel([0], false, true, false, Failed, Draining(0), 3, 1, log), Drain);
    steps := Advance(steps, Channel([], false, true, false, Failed, Draining(1), 3, 1, log), Drain);
    steps := Advance(steps, Channel([], false, true, false, Failed, Reporting, 3, 1, log), Report);
    steps := Advance(steps, Channel([], false, true, false, Failed, Ready, 3, 1, log + [Reported(Lost)]), Swap);
    steps := Advance(steps, Channel([], false, true, false, Failed, Receiving, 3, 1, log + [Reported(Lost)]),
                     StoreFlag);
    CoveredByOneReport();
  }

  /** Two sends have failed, and the flag is up for the first only. */
  lemma SecondLoss() returns (steps: seq<Step>)
    ensures Runs(1, OPENED, steps)
    ensures Run(1, OPENED, steps)
         == Channel([0], true, true, false, Failed, Ready, 3, 1, [Produced(0), Produced(1), Produced(2)])
  {
    hide Runs, Run;
    var log := [Produced(0), Produced(1)];
    assert Runs(1, OPENED, []) && Run(1, OPENED, []) == OPENED by { NothingRun(); }
    steps := Advance([], OPENED, Send);
    steps := Advance(steps, Channel([0], false, true, false, Idle, Ready, 1, 0, [Produced(0)]), Send);
    steps := Advance(steps, Channel([0], false, true, false, Failed, Ready, 2, 0, log), StoreFlag);
    steps := Advance(steps, Channel([0], true, true, false, Idle, Ready, 2, 1, log), Send);
  }

  lemma NothingRun()
    ensures Runs(1, OPENED, []) && Run(1, OPENED, []) == OPENED
  {
  }

  lemma Advance(before: seq<Step>, c: Channel, step: Step) returns (steps: seq<Step>)
    requires Runs(1, OPENED, before) && Run(1, OPENED, before) == c && Enabled(c, step)
    ensures steps == before + [step] && Runs(1, OPENED, steps) && Run(1, OPENED, steps) == Next(1, c, step)
  {
    hide Next;
    RunOfAppend(1, OPENED, before, step);
    steps := before + [step];
  }

  lemma CoveredByOneReport()
    ensures var c := Channel([], true, true, false, Idle, Receiving, 3, 2,
                             [Produced(0), Produced(1), Produced(2)] + [Reported(Lost)]);
            AllAccounted(Next(1, c, Receive))
  {
    var log := [Produced(0), Produced(1), Produced(2)] + [Reported(Lost)] + [NothingYet];
    forall event | 0 <= event < 3
      ensures Accounted(log, event)
    {
      assert log[event] == Produced(event) && Covers(log[3], event);
    }
  }

  // ------------------------------------------------------- one call at a time

  datatype Received = Event(event: nat) | Stale(reason: Reason)

  /** The answer a call gives for the entry it logs. */
  function Answer(e: Entry): Option<Received>
    requires !e.Produced?
  {
    match e
    case Delivered(event) => Some(Event(event))
    case Reported(reason) => Some(Stale(reason))
    case NothingYet => None
  }

  lemma {:induction false} RunOfAppend(capacity: nat, c: Channel, steps: seq<Step>, step: Step)
    requires Runs(capacity, c, steps) && Enabled(Run(capacity, c, steps), step)
    ensures Runs(capacity, c, steps + [step])
    ensures Run(capacity, c, steps + [step]) == Next(capacity, Run(capacity, c, steps), step)
    decreases |steps|
  {
    hide Next, Enabled;
    if steps == [] {
      assert [] + [step] == [step] && [step][1..] == [];
    } else {
      RunOfAppend(capacity, Next(capacity, c, steps[0]), steps[1..], step);
      assert (steps + [step])[1..] == steps[1..] + [step];
    }
  }

  function Events(queue: seq<nat>): seq<Received> {
    if queue == [] then [] else [Event(queue[0])] + Events(queue[1..])
  }

  /** What a consumer hears until its first `None`, if nothing else happens: a loss and
      nothing of what was queued behind it, or else the queued events in order; and the
      hang-up, unless it was reported before, or discarding the queue came upon it. */
  function Due(queue: seq<nat>, stale: bool, hungUp: bool, capacity: nat): seq<Received> {
    var hearsHangUp := hungUp && (stale ==> |queue| >= capacity);
    (if stale then [Stale(Lost)] else Events(queue)) + if hearsHangUp then [Stale(Disconnected)] else []
  }

  lemma DueStep(queue: seq<nat>, hungUp: bool, capacity: nat)
    requires queue != []
    ensures Due(queue, false, hungUp, capacity) == [Event(queue[0])] + Due(queue[1..], false, hungUp, capacity)
  {
  }

  lemma DueAfterLoss(queue: seq<nat>, hungUp: bool, capacity: nat)
    requires |queue| <= capacity
    ensures Due(queue, true, hungUp, capacity)
         == [Stale(Lost)] + Due([], false, hungUp && |queue| == capacity, capacity)
  {
  }

  lemma NextDue(queue: seq<nat>, stale: bool, hungUp: bool, capacity: nat)
    requires |queue| <= capacity
    ensures Due(queue, stale, hungUp, capacity)
         == if stale then [Stale(Lost)] + Due([], false, hungUp && |queue| == capacity, capacity)
            else if queue != [] then [Event(queue[0])] + Due(queue[1..], false, hungUp, capacity)
            else if hungUp then [Stale(Disconnected)] + Due([], false, false, capacity)
            else []
  {
    if stale {
      DueAfterLoss(queue, hungUp, capacity);
    } else if queue != [] {
      DueStep(queue, hungUp, capacity);
    }
  }

  /** The shared storage, with the model it stands for. A method runs its atomic
      steps without interruption; the lemmas above cover the interleavings. */
  class EventChannel {
    const capacity: nat
    var queue: seq<nat>
    var stale: bool
    var connected: bool
    var disconnectReported: bool
    ghost var model: Channel

    ghost predicate Mirrors()
      reads this
    {
      && model.queue == queue && model.stale == stale && model.connected == connected
      && model.disconnectReported == disconnectReported && model.producer.Idle?
      && Inv(capacity, model)
    }

    ghost predicate Valid()
      reads this
    {
      Mirrors() && model.consumer.Ready?
    }

    constructor (capacity: nat)
      ensures Valid() && this.capacity == capacity && model == OPENED
    {
      this.capacity := capacity;
      queue, stale, connected, disconnectReported, model := [], false, true, false, OPENED;
      new;
      OpenedInv(capacity);
    }

    /** A full queue refuses the event and raises the flag. */
    method TrySend(event: nat) returns (sent: bool)
      requires Valid() && connected && event == model.produced
      modifies this
      ensures Valid()
      ensures sent <==> |old(queue)| < capacity
      ensures var steps := if sent then [Send] else [Send, StoreFlag];
              Runs(capacity, old(model), steps) && model == Run(capacity, old(model), steps)
    {
      hide Inv;
      assert [Send][1..] == [] && [Send, StoreFlag][1..] == [StoreFlag] && [StoreFlag][1..] == [];
      StepKeepsInv(capacity, model, Send);
      model := Next(capacity, model, Send);
      sent := |queue| < capacity;
      if sent {
        queue := queue + [event];
      } else {
        StepKeepsInv(capacity, model, StoreFlag);
        model := Next(capacity, model, StoreFlag);
        stale := true;
      }
    }

    method HangUp()
      requires Valid() && connected
      modifies this
      ensures Valid() && model == Next(capacity, old(model), Step.HangUp)
    {
      hide Inv;
      StepKeepsInv(capacity, model, Step.HangUp);
      model := Next(capacity, model, Step.HangUp);
      connected := false;
    }

    /** Acknowledges the flag and discards what is queued behind the loss. */
    method RecoverEventLoss() returns (lost: bool, ghost steps: seq<Step>)
      requires Valid()
      modifies this
      ensures Mirrors() && lost == old(stale) && !stale && connected == old(connected)
      ensures Runs(capacity, old(model), steps) && model == Run(capacity, old(model), steps)
      ensures if lost then model.consumer.Reporting? && queue == []
              else model.consumer.Receiving? && queue == old(queue)
      ensures model.log == old(model.log) && model.produced == old(model.produced)
      ensures disconnectReported == (old(disconnectReported) || (lost && !connected && |old(queue)| < capacity))
    {
      hide Inv;
      steps := [];
      StepKeepsInv(capacity, model, Swap);
      RunOfAppend(capacity, model, [], Swap);
      model := Next(capacity, model, Swap);
      steps := [] + [Swap];
      lost := stale;
      stale := false;
      if lost {
        steps := DrainObsoleteEvents(old(model), steps);
      }
    }

    method DrainObsoleteEvents(ghost start: Channel, ghost before: seq<Step>) returns (ghost steps: seq<Step>)
      requires Mirrors() && model.consumer == Draining(0) && !stale
      requires Runs(capacity, start, before) && Run(capacity, start, before) == model
      modifies this
      ensures Mirrors() && model.consumer.Reporting? && queue == [] && !stale && connected == old(connected)
      ensures Runs(capacity, start, steps) && model == Run(capacity, start, steps)
      ensures model.log == old(model.log) && model.produced == old(model.produced)
      ensures disconnectReported == (old(disconnectReported) || (!connected && |old(queue)| < capacity))
    {
      steps := before;
      assert |queue| <= capacity;
      hide Inv;
      var taken := 0;
      while taken < capacity
        invariant taken <= capacity && taken + |queue| == |old(queue)| <= capacity
        invariant Mirrors() && model.consumer == Draining(taken) && !stale && connected == old(connected)
        invariant Runs(capacity, start, steps) && Run(capacity, start, steps) == model
        invariant model.log == old(model.log) && model.produced == old(model.produced)
        invariant disconnectReported == old(disconnectReported)
        decreases capacity - taken
      {
        StepKeepsInv(capacity, model, Drain);
        RunOfAppend(capacity, start, steps, Drain);
        model := Next(capacity, model, Drain);
        steps := steps + [Drain];
        if queue != [] {
          queue := queue[1..];
        } else {
          if !connected {
            disconnectReported := true;
          }
          return;
        }
        taken := taken + 1;
      }
      StepKeepsInv(capacity, model, Drain);
      RunOfAppend(capacity, start, steps, Drain);
      model := Next(capacity, model, Drain);
      steps := steps + [Drain];
    }

    /** A run of consumer steps, and the answer that its last entry stands for. */
    method TryRecv() returns (r: Option<Received>, ghost steps: seq<Step>)
      requires Valid()
      modifies this
      ensures Valid()
      ensures Runs(capacity, old(model), steps) && model == Run(capacity, old(model), steps)
      ensures |model.log| == |old(model.log)| + 1 && model.log[..|old(model.log)|] == old(model.log)
      ensures !model.log[|old(model.log)|].Produced? && r == Answer(model.log[|old(model.log)|])
      ensures old(stale) ==> r == Some(Stale(Lost)) && queue == [] && !stale
      ensures !old(stale) && old(queue) != [] ==> r == Some(Event(old(queue)[0])) && queue == old(queue)[1..] && !stale
      ensures !old(stale) && old(queue) == [] ==>
                && queue == [] && !stale
                && r == if old(connected) || old(disconnectReported) then None else Some(Stale(Disconnected))
      ensures connected == old(connected)
      ensures var drained := if old(stale) then |old(queue)| < capacity else old(queue) == [];
              disconnectReported == (old(disconnectReported) || (!connected && drained))
      ensures model.produced == old(model.produced)
    {
      hide Inv;
      var lost;
      lost, steps := RecoverEventLoss();
      if lost {
        StepKeepsInv(capacity, model, Report);
        RunOfAppend(capacity, old(model), steps, Report);
        model := Next(capacity, model, Report);
        steps := steps + [Report];
        return Some(Stale(Lost)), steps;
      }
      StepKeepsInv(capacity, model, Receive);
      RunOfAppend(capacity, old(model), steps, Receive);
      model := Next(capacity, model, Receive);
      steps := steps + [Receive];
      if queue != [] {
        r := Some(Event(queue[0]));
        queue := queue[1..];
      } else if connected {
        r := None;
      } else {
        r := if disconnectReported then None else Some(Stale(Disconnected));
        disconnectReported := true;
      }
    }

    /** Once the producer has stopped, polling to the first `None` takes a bounded
        number of answers, exactly those that are due, and accounts for every event. */
    method PollUntilNone() returns (answers: seq<Received>)
      requires Valid()
      modifies this
      ensures Valid() && queue == [] && !stale && AllAccounted(model)
      ensures |answers| <= |old(queue)| + 2
      ensures answers == Due(old(queue), old(stale), !connected && !old(disconnectReported), capacity)
      ensures connected == old(connected) && model.produced == old(model.produced)
    {
      hide Inv, Due, Events;
      answers := [];
      var polling := true;
      ghost var due := Due(queue, stale, !connected && !disconnectReported, capacity);
      while polling
        invariant Valid() && model.produced == old(model.produced) && connected == old(connected)
        invariant polling ==> |answers| + |queue| + Count(stale) + Count(!disconnectReported && !connected) <=
                                |old(queue)| + Count(old(stale)) + Count(!old(disconnectReported) && !connected)
        invariant |answers| <= |old(queue)| + 2
        invariant polling ==> answers + Due(queue, stale, !connected && !disconnectReported, capacity) == due
        invariant !polling ==> queue == [] && !stale && AllAccounted(model) && answers == due
        decreases polling, |queue| + Count(stale) + Count(!disconnectReported && !connected)
      {
        ghost var before, was, hungUp := queue, stale, !connected && !disconnectReported;
        QueueFits();
        var r, steps := TryRecv();
        NextDue(before, was, hungUp, capacity);
        if r.None? {
          NoneLeavesAll();
          polling := false;
        } else {
          Rebracket(answers, [r.value], Due(queue, stale, !connected && !disconnectReported, capacity));
          answers := answers + [r.value];
        }
      }
    }

    lemma QueueFits()
      requires Valid()
      ensures |queue| <= capacity
    {
    }

    lemma NoneLeavesAll()
      requires Valid() && queue == [] && !stale
      ensures AllAccounted(model)
    {
      hide Accounted;
      forall event | 0 <= event < model.produced
        ensures Accounted(model.log, event)
      {
        assert NotLost(model, event);
      }
    }
  }
}
