/** What the distributor's threads can do, and what their counters count. */
module DistributorRuns {
  import opened Sequences
  import opened Distributor

  /** What a step does to the producer and to the list of registered slots. */
  lemma ProducerIsFaithful<F>(st: State<F>, e: Event<F>)
    requires Next(st, e).Some?
    ensures var st' := Next(st, e).value;
      && st'.pushed == (if e.Snapshot? then st.pushed + [e.frame] else st.pushed)
      && (e.Snapshot? ==> st'.producer == Pushing(e.frame, st.registered))
      && (e.EnqueueNext? ==>
            && st.producer.Pushing? && st.producer.rest != []
            && st'.producer == Pushing(st.producer.frame, st.producer.rest[1..]))
      && (e.PushDone? ==> st.producer.Pushing? && st.producer.rest == [] && st'.producer.Idle?)
      && (!e.Snapshot? && !e.EnqueueNext? && !e.PushDone? ==> st'.producer == st.producer)
      && st'.registered == (
            if e.Add? then st.registered + [e.id]
            else if e.EraseSlot? && e.id in st.registered then RemoveFirst(st.registered, e.id)
            else st.registered)
  {
    hide SlotStep, Receive, RemoveFirst;
  }

  /** A frame is pushed for every snapshot and in that order. */
  function SnapshotsOf<F>(events: seq<Event<F>>): seq<F> {
    if events == [] then []
    else (if events[0].Snapshot? then [events[0].frame] else []) + SnapshotsOf(events[1..])
  }

  lemma {:induction false} RunPushes<F>(st: State<F>, events: seq<Event<F>>, last: State<F>)
    requires Run(st, events, last)
    ensures last.pushed == st.pushed + SnapshotsOf(events)
    decreases |events|
  {
    hide Next;
    if events != [] {
      ProducerIsFaithful(st, events[0]);
      RunPushes(Next(st, events[0]).value, events[1..], last);
    }
  }

  // ---------- The counters ----------

  function Consumed<F>(st: State<F>, id: ConsumerId): nat {
    if id in st.slots then st.slots[id].core.consumed else 0
  }

  function Failed<F>(st: State<F>, id: ConsumerId): nat {
    if id in st.slots then st.slots[id].failed else 0
  }

  lemma OneReturn<F>(st: State<F>, e: Event<F>, id: ConsumerId)
    requires Inv(st) && Next(st, e).Some?
    ensures id in st.slots ==> id in Next(st, e).value.slots
    ensures Consumed(Next(st, e).value, id) == Consumed(st, id) + (if e == Return(id, true) then 1 else 0)
    ensures Failed(Next(st, e).value, id) == Failed(st, id) + (if e == Return(id, false) then 1 else 0)
  {
    SlotsStay(st, e, id);
    hide Inv, Next;
    var st' := Next(st, e).value;
    if id in st.slots {
      HistoryIsFaithful(st, e, id, st.slots[id], st'.slots[id]);
    } else if id in st'.slots {
      NewSlotIsEmpty(st, e, id);
    }
  }

  lemma SlotsStay<F>(st: State<F>, e: Event<F>, id: ConsumerId)
    requires Next(st, e).Some?
    ensures id in st.slots ==> id in Next(st, e).value.slots
    ensures id !in Next(st, e).value.slots ==> e != Return(id, true) && e != Return(id, false)
    ensures id !in st.slots ==> e != Return(id, true) && e != Return(id, false)
  {
    hide SlotStep, Receive;
  }

  lemma {:induction false} RunCounts<F>(st: State<F>, events: seq<Event<F>>, last: State<F>, id: ConsumerId)
    requires Inv(st) && Run(st, events, last)
    ensures Consumed(last, id) == Consumed(st, id) + multiset(events)[Return(id, true)]
    ensures Failed(last, id) == Failed(st, id) + multiset(events)[Return(id, false)]
    decreases |events|
  {
    hide Inv, Next, Consumed, Failed;
    if events != [] {
      StepKeepsInv(st, events[0]);
      OneReturn(st, events[0], id);
      RunCounts(Next(st, events[0]).value, events[1..], last, id);
      assert events == [events[0]] + events[1..];
    }
  }

  /** Over any run, a slot has consumed as many frames as callbacks returned, and failed as many as threw. */
  lemma CountersCountReturns<F>(first: State<F>, events: seq<Event<F>>, last: State<F>, id: ConsumerId)
    requires Initial(first) && Run(first, events, last) && id in last.slots
    ensures last.slots[id].core.consumed == multiset(events)[Return(id, true)]
    ensures last.slots[id].failed == multiset(events)[Return(id, false)]
  {
    hide Run;
    RunCounts(first, events, last, id);
  }

  // ---------- What is possible ----------

  /** Registration and erasure are always possible; the producer waits for nothing but a slot's mutex. */
  lemma ProducerStepsArePossible<F>(st: State<F>, id: ConsumerId, frame: F, size: nat)
    requires Inv(st)
    ensures Next(st, Add(id, size)).Some? <==> id !in st.slots
    ensures Next(st, EraseSlot(id)).Some?
    ensures Next(st, Snapshot(frame)).Some? <==> st.producer.Idle?
    ensures Next(st, PushDone).Some? <==> st.producer.Pushing? && st.producer.rest == []
    ensures Next(st, EnqueueNext).Some? <==>
      && st.producer.Pushing? && st.producer.rest != []
      && !st.slots[st.producer.rest[0]].worker.Decided? && !st.slots[st.producer.rest[0]].worker.Popping?
  {
    hide AccountInv, ThreadInv, FanOutInv, SlotStep, Receive;
  }

  /** A worker waits for nothing but a frame, a remover for nothing but the end of the worker. */
  lemma SlotStepsArePossible<F>(s: Slot<F>, id: ConsumerId, ok: bool)
    requires ThreadInv(s)
    ensures SlotStep(s, LoopTest(id)).Some? <==> s.worker.LoopHead?
    ensures SlotStep(s, WaitTest(id)).Some? <==> s.worker.Waiting?
    ensures SlotStep(s, StopTest(id)).Some? <==> s.worker.Decided?
    ensures SlotStep(s, PopFront(id)).Some? <==> s.worker.Popping?
    ensures SlotStep(s, Return(id, ok)).Some? <==> s.worker.Calling?
    ensures SlotStep(s, StopFlag(id)).Some? <==> s.remover.Erased?
    ensures SlotStep(s, Join(id)).Some? <==> s.remover.Stopped? && s.worker.Exited?
    ensures SlotStep(s, ClearQueue(id)).Some? <==> s.remover.Joined?
  {}

  /** The steps of one slot's worker and remover. */
  ghost predicate SlotRun<F>(s: Slot<F>, events: seq<Event<F>>, last: Slot<F>)
    decreases |events|
  {
    if events == [] then last == s
    else SlotStep(s, events[0]).Some? && SlotRun(SlotStep(s, events[0]).value, events[1..], last)
  }

  ghost predicate Concern<F>(events: seq<Event<F>>, id: ConsumerId) {
    forall i :: 0 <= i < |events| ==> OfOneSlot(events[i]) && events[i].id == id
  }

  lemma {:induction false} SlotRunIsRun<F>(st: State<F>, id: ConsumerId, events: seq<Event<F>>, end: Slot<F>)
    requires id in st.slots && Concern(events, id) && SlotRun(st.slots[id], events, end)
    ensures Run(st, events, st.(slots := st.slots[id := end]))
    decreases |events|
  {
    hide SlotStep;
    if events == [] {
      assert st.slots[id := end] == st.slots;
    } else {
      var s := SlotStep(st.slots[id], events[0]).value;
      var st' := st.(slots := st.slots[id := s]);
      SlotRunIsRun(st', id, events[1..], end);
      assert st'.slots[id := end] == st.slots[id := end];
    }
  }

  lemma ServeSteps<F>(s: Slot<F>, id: ConsumerId, ok: bool) returns (events: seq<Event<F>>, end: Slot<F>)
    requires s.core.running && s.core.queue != [] && s.worker.LoopHead?
    ensures Concern(events, id) && SlotRun(s, events, end)
    ensures end.worker.LoopHead? && end.core.queue == s.core.queue[1..] && end.seen == s.seen + [s.core.queue[0]]
  {
    var a := SlotStep(s, LoopTest(id)).value;
    var b := SlotStep(a, WaitTest(id)).value;
    var c := SlotStep(b, StopTest(id)).value;
    var d := SlotStep(c, PopFront(id)).value;
    end := SlotStep(d, Return(id, ok)).value;
    events := [LoopTest(id), WaitTest(id), StopTest(id), PopFront(id), Return(id, ok)];
    var e4: seq<Event<F>> := [Return(id, ok)];
    var e3: seq<Event<F>> := [PopFront(id)] + e4;
    var e2: seq<Event<F>> := [StopTest(id)] + e3;
    var e1: seq<Event<F>> := [WaitTest(id)] + e2;
    assert e4[1..] == [] && e3[1..] == e4 && e2[1..] == e3 && e1[1..] == e2 && events[1..] == e1;
    assert SlotRun(d, e4, end);
    assert SlotRun(c, e3, end);
    assert SlotRun(b, e2, end);
    assert SlotRun(a, e1, end);
  }

  /** While it runs and a frame waits, a worker can hand the oldest one to the callback by its own steps. */
  lemma WorkerServesNext<F>(st: State<F>, id: ConsumerId, ok: bool) returns (events: seq<Event<F>>, last: State<F>)
    requires id in st.slots && st.slots[id].worker.LoopHead?
    requires st.slots[id].core.running && st.slots[id].core.queue != []
    ensures Run(st, events, last) && last.pushed == st.pushed && last.producer == st.producer && id in last.slots
    ensures var s, s' := st.slots[id], last.slots[id];
      s'.worker.LoopHead? && s'.core.queue == s.core.queue[1..] && s'.seen == s.seen + [s.core.queue[0]]
  {
    hide SlotStep, Run;
    var end;
    events, end := ServeSteps(st.slots[id], id, ok);
    SlotRunIsRun(st, id, events, end);
    last := st.(slots := st.slots[id := end]);
  }

  lemma RemoveSteps<F>(s: Slot<F>, id: ConsumerId) returns (events: seq<Event<F>>, end: Slot<F>)
    requires !s.core.running && s.remover.Stopped? && (s.worker.LoopHead? || s.worker.Waiting? || s.worker.Exited?)
    ensures Concern(events, id) && SlotRun(s, events, end)
    ensures end.remover.Cleared? && end.core.queue == [] && end.seen == s.seen
    decreases !s.worker.Exited?
  {
    if s.worker.Exited? {
      var joined := SlotStep(s, Join(id)).value;
      end := SlotStep(joined, ClearQueue(id)).value;
      var last: seq<Event<F>> := [ClearQueue(id)];
      events := [Join(id)] + last;
      assert events[1..] == last && last[1..] == [];
      assert SlotRun(joined, last, end);
    } else {
      var step := if s.worker.LoopHead? then LoopTest(id) else WaitTest(id);
      var decided := SlotStep(s, step).value;
      var rest;
      if decided.worker.Decided? {
        var out := SlotStep(decided, StopTest(id)).value;
        var more;
        more, end := RemoveSteps(out, id);
        rest := [StopTest(id)] + more;
        assert rest[1..] == more;
        assert SlotRun(decided, rest, end);
      } else {
        rest, end := RemoveSteps(decided, id);
      }
      events := [step] + rest;
      assert events[1..] == rest;
    }
  }

  /** Once the flag is cleared and no callback runs, worker and remover together finish the removal. */
  lemma RemovalCompletes<F>(st: State<F>, id: ConsumerId) returns (events: seq<Event<F>>, last: State<F>)
    requires Inv(st) && id in st.slots && st.slots[id].remover.Stopped?
    requires var w := st.slots[id].worker; w.LoopHead? || w.Waiting? || w.Exited?
    ensures Run(st, events, last) && id in last.slots
    ensures last.slots[id].remover.Cleared? && last.slots[id].core.queue == []
    ensures last.slots[id].seen == st.slots[id].seen
  {
    assert SlotInv(st.slots[id], Pending(st, id), st.pushed);
    hide SlotStep, Run;
    var end;
    events, end := RemoveSteps(st.slots[id], id);
    SlotRunIsRun(st, id, events, end);
    last := st.(slots := st.slots[id := end]);
  }
}
