/**
  Fan-out of one stream to many consumers: a producer pushes each frame into the bounded queue
  of every registered slot, and every slot has its own worker thread that takes frames out and
  calls the consumer. Frames are opaque values of type F.
*/
module Distributor {
  import opened Common
  import opened Sequences

  type ConsumerId = nat

  // ---------- One slot ----------

  /** The fields of a consumer slot that the threads share. */
  datatype Core<F> = Core(queue: seq<F>, max: nat, running: bool, dropped: nat, consumed: nat)

  function NewCore<F>(maxQueueSize: nat): (c: Core<F>)
    ensures c.max == if maxQueueSize == 0 then 1 else maxQueueSize
    ensures c.queue == [] && c.running && c.dropped == c.consumed == 0
  {
    Core([], if maxQueueSize == 0 then 1 else maxQueueSize, true, 0, 0)
  }

  /** A full queue loses its oldest frame. */
  function Enqueue<F>(c: Core<F>, frame: F): (r: Core<F>)
    requires c.max > 0
    ensures |c.queue| <= c.max ==> |r.queue| <= r.max
    ensures r.queue != [] && Last(r.queue) == frame && IsSuffix(r.queue, c.queue + [frame])
    ensures |r.queue| == if |c.queue| < c.max then |c.queue| + 1 else |c.queue|
    ensures r.dropped - c.dropped == |c.queue| + 1 - |r.queue|
    ensures r.max == c.max && r.running == c.running && r.consumed == c.consumed
  {
    if |c.queue| >= c.max
    then c.(queue := c.queue[1..] + [frame], dropped := c.dropped + 1)
    else c.(queue := c.queue + [frame])
  }

  /** Where a worker thread is. From Decided on it holds the slot's mutex until it has a frame or leaves. */
  datatype Worker<F> = LoopHead | Waiting | Decided | Popping | Calling(frame: F) | Exited | Crashed

  /** How far the removal of a consumer has come. */
  datatype Remover = Live | Erased | Stopped | Joined | Cleared

  /** How a frame left the queue; a dropped one made way for the arrival-th frame received. */
  datatype Removal = Taken | Dropped(arrival: nat)

  /**
    A slot with its threads and its history: frames received and seen by the callback, how the
    removed ones left, failed callbacks, takes after the stop, and the numbers of frames pushed
    when it was registered (`first`) and erased (`last`).
  */
  datatype Slot<F> = Slot(
    core: Core<F>, worker: Worker<F>, remover: Remover,
    received: seq<F>, removals: seq<Removal>, seen: seq<F>,
    failed: nat, lateTakes: nat, first: nat, last: nat)

  function NewSlot<F>(maxQueueSize: nat, pushedSoFar: nat): Slot<F> {
    Slot(NewCore(maxQueueSize), LoopHead, Live, [], [], [], 0, 0, pushedSoFar, pushedSoFar)
  }

  function Receive<F>(s: Slot<F>, frame: F): Slot<F>
    requires s.core.max > 0
  {
    var core := Enqueue(s.core, frame);
    s.(core := core, received := s.received + [frame],
      removals := if core.dropped > s.core.dropped then s.removals + [Dropped(|s.received|)] else s.removals)
  }

  /** front() of an empty deque would be undefined behaviour: the worker crashes. */
  function Take<F>(s: Slot<F>): Slot<F> {
    if s.core.queue == [] then s.(worker := Crashed) else
    var frame := s.core.queue[0];
    s.(core := s.core.(queue := s.core.queue[1..]), worker := Calling(frame),
      removals := s.removals + [Taken], seen := s.seen + [frame],
      lateTakes := if s.core.running then s.lateTakes else s.lateTakes + 1)
  }

  // ---------- The distributor ----------

  /** The producer holds a snapshot of the registered slots while it pushes a frame. */
  datatype Producer<F> = Idle | Pushing(frame: F, rest: seq<ConsumerId>)

  datatype State<F> = State(
    slots: map<ConsumerId, Slot<F>>, registered: seq<ConsumerId>, producer: Producer<F>, pushed: seq<F>)

  datatype Event<F> =
    | Add(id: ConsumerId, maxQueueSize: nat)
    | Snapshot(frame: F)
    | EnqueueNext
    | PushDone
    | LoopTest(id: ConsumerId)
    | WaitTest(id: ConsumerId)
    | StopTest(id: ConsumerId)
    | PopFront(id: ConsumerId)
    | Return(id: ConsumerId, ok: bool)
    | EraseSlot(id: ConsumerId)
    | StopFlag(id: ConsumerId)
    | Join(id: ConsumerId)
    | ClearQueue(id: ConsumerId)

  /** The slot's mutex is held by its worker. */
  predicate Locked<F>(s: Slot<F>) {
    s.worker.Decided? || s.worker.Popping?
  }

  /** A worker or remover step on one slot; None when it cannot happen. */
  function SlotStep<F>(s: Slot<F>, e: Event<F>): Option<Slot<F>> {
    match e
    case LoopTest(_) =>
      if !s.worker.LoopHead? then None
      else Some(s.(worker := if s.core.running then Waiting else Exited))
    case WaitTest(_) =>
      // the condition variable: go on when there is a frame or the slot was stopped
      if !s.worker.Waiting? then None
      else Some(if s.core.queue != [] || !s.core.running then s.(worker := Decided) else s)
    case StopTest(_) =>
      if !s.worker.Decided? then None
      else Some(s.(worker := if s.core.running then Popping else Exited))
    case PopFront(_) =>
      if !s.worker.Popping? then None else Some(Take(s))
    case Return(_, ok) =>
      if !s.worker.Calling? then None
      else if ok then Some(s.(worker := LoopHead, core := s.core.(consumed := s.core.consumed + 1)))
      else Some(s.(worker := LoopHead, failed := s.failed + 1))
    case StopFlag(_) =>
      if !s.remover.Erased? then None
      else Some(s.(remover := Stopped, core := s.core.(running := false)))
    case Join(_) =>
      if !s.remover.Stopped? || !s.worker.Exited? then None else Some(s.(remover := Joined))
    case ClearQueue(_) =>
      if !s.remover.Joined? || Locked(s) then None
      else Some(s.(remover := Cleared, core := s.core.(queue := [])))
    case _ => None
  }

  function Next<F>(st: State<F>, e: Event<F>): Option<State<F>> {
    match e
    case Add(id, maxQueueSize) =>
      if id in st.slots then None
      else Some(st.(slots := st.slots[id := NewSlot(maxQueueSize, |st.pushed|)], registered := st.registered + [id]))
    case Snapshot(frame) =>
      if !st.producer.Idle? then None
      else Some(st.(producer := Pushing(frame, st.registered), pushed := st.pushed + [frame]))
    case EnqueueNext =>
      if !st.producer.Pushing? || st.producer.rest == [] then None else
      var id := st.producer.rest[0];
      if id !in st.slots || st.slots[id].core.max == 0 || Locked(st.slots[id]) then None
      else Some(st.(slots := st.slots[id := Receive(st.slots[id], st.producer.frame)],
                    producer := st.producer.(rest := st.producer.rest[1..])))
    case PushDone =>
      if !st.producer.Pushing? || st.producer.rest != [] then None else Some(st.(producer := Idle))
    case EraseSlot(id) =>
      if id !in st.registered then Some(st)
      else if id !in st.slots then None
      else Some(st.(registered := RemoveFirst(st.registered, id),
                    slots := st.slots[id := st.slots[id].(remover := Erased, last := |st.pushed|)]))
    case _ =>
      if e.id !in st.slots then None else
      match SlotStep(st.slots[e.id], e)
      case None => None
      case Some(s) => Some(st.(slots := st.slots[e.id := s]))
  }

  ghost predicate Run<F>(st: State<F>, events: seq<Event<F>>, last: State<F>)
    decreases |events|
  {
    if events == [] then last == st
    else Next(st, events[0]).Some? && Run(Next(st, events[0]).value, events[1..], last)
  }

  ghost predicate Initial<F>(st: State<F>) {
    st == State(map[], [], Idle, [])
  }

  // ---------- The invariant ----------

  /** The positions, among the frames received, of those the worker took. */
  function TakenAt(removals: seq<Removal>): (at: seq<nat>)
    ensures |at| <= |removals|
    ensures forall k :: 0 <= k < |at| ==> at[k] < |removals| && removals[at[k]].Taken?
    ensures forall j, k :: 0 <= j < k < |at| ==> at[j] < at[k]
  {
    if removals == [] then []
    else TakenAt(removals[..|removals| - 1]) + if Last(removals).Taken? then [|removals| - 1] else []
  }

  /** The queue is what was received and not yet removed; after the removal at most one late frame. */
  ghost predicate QueueInv<F>(s: Slot<F>, pending: bool) {
    && s.core.max > 0 && |s.core.queue| <= s.core.max
    && |s.removals| <= |s.received|
    && (!s.remover.Cleared? ==> s.core.queue == s.received[|s.removals|..])
    && (s.remover.Cleared? ==> |s.core.queue| + (if pending then 1 else 0) <= 1 && IsSuffix(s.core.queue, s.received))
  }

  /** Every removed frame is accounted for, and a drop happens at exactly the max-th later arrival. */
  ghost predicate AccountInv<F>(s: Slot<F>) {
    && |s.removals| <= |s.received|
    && (forall i :: 0 <= i < |s.removals| && s.removals[i].Dropped? ==>
          s.removals[i].arrival == i + s.core.max < |s.received|)
    && |s.removals| == s.core.dropped + |TakenAt(s.removals)|
    && |s.seen| == |TakenAt(s.removals)| == s.core.consumed + s.failed + (if s.worker.Calling? then 1 else 0)
    && (forall k :: 0 <= k < |s.seen| ==> s.seen[k] == s.received[TakenAt(s.removals)[k]])
    && (s.worker.Calling? ==> s.seen != [] && Last(s.seen) == s.worker.frame)
  }

  ghost predicate ThreadInv<F>(s: Slot<F>) {
    && !s.worker.Crashed?
    && (s.worker.Decided? ==> s.core.queue != [] || !s.core.running)
    && (s.worker.Popping? ==> s.core.queue != [])
    && (s.core.running <==> s.remover.Live? || s.remover.Erased?)
    && (s.remover.Joined? || s.remover.Cleared? ==> s.worker.Exited?)
    && s.lateTakes <= 1
    && (s.core.running ==> s.lateTakes == 0)
    && (s.lateTakes == 1 ==> s.worker.Calling? || s.worker.LoopHead? || s.worker.Exited?)
  }

  function End<F>(s: Slot<F>, pushed: nat): nat {
    if s.remover.Live? then pushed else s.last
  }

  /** A slot has received exactly the frames pushed between its registration and its erasure. */
  ghost predicate FanOutInv<F>(s: Slot<F>, pending: bool, pushed: seq<F>) {
    var end := End(s, |pushed|);
    && s.first <= end <= |pushed|
    && (pending ==> s.first < end == |pushed|)
    && s.received == pushed[s.first..if pending then end - 1 else end]
  }

  ghost predicate SlotInv<F>(s: Slot<F>, pending: bool, pushed: seq<F>) {
    QueueInv(s, pending) && AccountInv(s) && ThreadInv(s) && FanOutInv(s, pending, pushed)
  }

  predicate Pending<F>(st: State<F>, id: ConsumerId) {
    st.producer.Pushing? && id in st.producer.rest
  }

  ghost predicate Inv<F>(st: State<F>) {
    && Distinct(st.registered)
    && (forall id :: id in st.registered <==> id in st.slots && st.slots[id].remover.Live?)
    && (st.producer.Pushing? ==>
          && st.pushed != [] && Last(st.pushed) == st.producer.frame
          && Distinct(st.producer.rest)
          && forall id :: id in st.producer.rest ==> id in st.slots)
    && (forall id :: id in st.slots ==> SlotInv(st.slots[id], Pending(st, id), st.pushed))
  }

  // ---------- Every step keeps it ----------

  /** A full queue holds the max newest frames received, so its head is max frames old. */
  lemma ReceiveDropsOldest<F>(s: Slot<F>, frame: F)
    requires QueueInv(s, true) && AccountInv(s) && |s.core.queue| == s.core.max
    ensures !s.remover.Cleared? && |s.received| == |s.removals| + s.core.max
    ensures var s' := Receive(s, frame);
      s'.removals == s.removals + [Dropped(|s.received|)] && s'.core.queue == s'.received[|s'.removals|..]
    ensures AccountInv(Receive(s, frame))
  {}

  lemma ReceiveKeepsAccount<F>(s: Slot<F>, frame: F)
    requires QueueInv(s, true) && AccountInv(s)
    ensures QueueInv(Receive(s, frame), false) && AccountInv(Receive(s, frame))
  {
    if |s.core.queue| == s.core.max {
      ReceiveDropsOldest(s, frame);
    } else {
      ReceiveAppends(s, frame);
    }
    hide AccountInv;
  }

  lemma ReceiveAppends<F>(s: Slot<F>, frame: F)
    requires QueueInv(s, true) && AccountInv(s) && |s.core.queue| < s.core.max
    ensures QueueInv(Receive(s, frame), false) && AccountInv(Receive(s, frame))
  {
    hide Receive, AccountInv;
    ReceiveIsAppend(s, frame);
    AppendedAccount(s, frame);
  }

  lemma ReceiveIsAppend<F>(s: Slot<F>, frame: F)
    requires |s.core.queue| < s.core.max
    ensures Receive(s, frame) == Appended(s, frame)
  {}

  function Appended<F>(s: Slot<F>, frame: F): Slot<F> {
    s.(core := s.core.(queue := s.core.queue + [frame]), received := s.received + [frame])
  }

  lemma AppendedAccount<F>(s: Slot<F>, frame: F)
    requires AccountInv(s)
    ensures AccountInv(Appended(s, frame))
  {
    hide TakenAt;
  }

  lemma ReceiveKeepsSlot<F>(s: Slot<F>, pushed: seq<F>)
    requires SlotInv(s, true, pushed) && !Locked(s) && pushed != []
    ensures SlotInv(Receive(s, Last(pushed)), false, pushed)
  {
    hide AccountInv, ThreadInv, FanOutInv;
    ReceiveKeepsAccount(s, Last(pushed));
    ReceiveKeepsFanOut(s, pushed);
    ReceiveKeepsThreads(s, Last(pushed));
  }

  lemma ReceiveKeepsThreads<F>(s: Slot<F>, frame: F)
    requires ThreadInv(s) && s.core.max > 0 && !Locked(s)
    ensures ThreadInv(Receive(s, frame))
  {}

  lemma ReceiveKeepsFanOut<F>(s: Slot<F>, pushed: seq<F>)
    requires FanOutInv(s, true, pushed) && s.core.max > 0
    ensures FanOutInv(Receive(s, Last(pushed)), false, pushed)
  {}

  lemma TakeKeepsSlot<F>(s: Slot<F>, pending: bool)
    requires QueueInv(s, pending) && AccountInv(s) && ThreadInv(s) && s.worker.Popping?
    ensures QueueInv(Take(s), pending) && AccountInv(Take(s)) && ThreadInv(Take(s))
  {}

  lemma StepKeepsQueue<F>(s: Slot<F>, e: Event<F>, pending: bool)
    requires QueueInv(s, pending) && !e.PopFront? && SlotStep(s, e).Some?
    ensures QueueInv(SlotStep(s, e).value, pending)
  {}

  lemma StepKeepsAccount<F>(s: Slot<F>, e: Event<F>)
    requires AccountInv(s) && !e.PopFront? && SlotStep(s, e).Some?
    ensures AccountInv(SlotStep(s, e).value)
  {}

  lemma StepKeepsThreads<F>(s: Slot<F>, e: Event<F>)
    requires ThreadInv(s) && !e.PopFront? && SlotStep(s, e).Some?
    ensures ThreadInv(SlotStep(s, e).value)
  {}

  lemma StepKeepsFanOut<F>(s: Slot<F>, e: Event<F>, pending: bool, pushed: seq<F>)
    requires FanOutInv(s, pending, pushed) && SlotStep(s, e).Some?
    ensures FanOutInv(SlotStep(s, e).value, pending, pushed)
    ensures SlotStep(s, e).value.remover.Live? <==> s.remover.Live?
  {}

  lemma SlotStepKeepsInv<F>(s: Slot<F>, e: Event<F>, pending: bool, pushed: seq<F>)
    requires SlotInv(s, pending, pushed) && SlotStep(s, e).Some?
    ensures SlotInv(SlotStep(s, e).value, pending, pushed)
    ensures SlotStep(s, e).value.remover.Live? <==> s.remover.Live?
  {
    hide QueueInv, AccountInv, ThreadInv, FanOutInv;
    StepKeepsFanOut(s, e, pending, pushed);
    if e.PopFront? {
      TakeKeepsSlot(s, pending);
    } else {
      StepKeepsQueue(s, e, pending);
      StepKeepsAccount(s, e);
      StepKeepsThreads(s, e);
    }
  }

  lemma SnapshotKeepsSlot<F>(s: Slot<F>, pushed: seq<F>, frame: F)
    requires SlotInv(s, false, pushed)
    ensures SlotInv(s, s.remover.Live?, pushed + [frame])
  {}

  lemma StepKeepsInv<F>(st: State<F>, e: Event<F>)
    requires Inv(st) && Next(st, e).Some?
    ensures Inv(Next(st, e).value)
  {
    hide QueueInv, AccountInv, ThreadInv, FanOutInv, SlotInv, SlotStep, Receive;
    var st' := Next(st, e).value;
    match e
    case Add(id, maxQueueSize) => AddKeepsInv(st, id, maxQueueSize);
    case Snapshot(frame) =>
      forall id | id in st'.slots
        ensures SlotInv(st'.slots[id], Pending(st', id), st'.pushed)
      {
        SnapshotKeepsSlot(st.slots[id], st.pushed, frame);
      }
    case EnqueueNext => EnqueueKeepsInv(st);
    case PushDone =>
    case EraseSlot(id) => EraseKeepsInv(st, id);
    case _ => SlotStepKeepsInv(st.slots[e.id], e, Pending(st, e.id), st.pushed);
  }

  lemma AddKeepsInv<F>(st: State<F>, id: ConsumerId, maxQueueSize: nat)
    requires Inv(st) && Next(st, Add(id, maxQueueSize)).Some?
    ensures Inv(Next(st, Add(id, maxQueueSize)).value)
  {
    var s: Slot<F> := NewSlot(maxQueueSize, |st.pushed|);
    assert !Pending(st, id);
    assert SlotInv(s, false, st.pushed);
    hide SlotInv, NewSlot;
    var st' := Next(st, Add(id, maxQueueSize)).value;
    forall id' | id' in st'.slots
      ensures SlotInv(st'.slots[id'], Pending(st', id'), st'.pushed)
    {}
  }

  lemma EnqueueKeepsInv<F>(st: State<F>)
    requires Inv(st) && Next(st, EnqueueNext).Some?
    ensures Inv(Next(st, EnqueueNext).value)
  {
    hide QueueInv, AccountInv, ThreadInv, FanOutInv;
    var id := st.producer.rest[0];
    var st' := Next(st, EnqueueNext).value;
    ReceiveKeepsSlot(st.slots[id], st.pushed);
    hide SlotInv;
    forall id' | id' in st'.slots
      ensures SlotInv(st'.slots[id'], Pending(st', id'), st'.pushed)
    {
      assert id' != id ==> Pending(st', id') == Pending(st, id');
    }
  }

  lemma EraseKeepsSlot<F>(s: Slot<F>, pending: bool, pushed: seq<F>)
    requires SlotInv(s, pending, pushed) && s.remover.Live?
    ensures SlotInv(s.(remover := Erased, last := |pushed|), pending, pushed)
  {}

  lemma EraseKeepsInv<F>(st: State<F>, id: ConsumerId)
    requires Inv(st) && Next(st, EraseSlot(id)).Some?
    ensures Inv(Next(st, EraseSlot(id)).value)
  {
    hide SlotInv, SlotStep, Receive, Distinct;
    if id in st.registered {
      EraseKeepsSlot(st.slots[id], Pending(st, id), st.pushed);
      RemoveFirstDistinct(st.registered, id);
      hide RemoveFirst;
      var st' := Next(st, EraseSlot(id)).value;
      forall x | x in st'.slots
        ensures SlotInv(st'.slots[x], Pending(st', x), st'.pushed)
      {
        assert Pending(st', x) == Pending(st, x);
      }
    }
  }

  lemma {:induction false} RunKeepsInv<F>(st: State<F>, events: seq<Event<F>>, last: State<F>)
    requires Inv(st) && Run(st, events, last)
    ensures Inv(last)
    decreases |events|
  {
    hide Inv;
    if events != [] {
      StepKeepsInv(st, events[0]);
      RunKeepsInv(Next(st, events[0]).value, events[1..], last);
    }
  }

  lemma ReachableInv<F>(first: State<F>, events: seq<Event<F>>, last: State<F>)
    requires Initial(first) && Run(first, events, last)
    ensures Inv(last)
  {
    RunKeepsInv(first, events, last);
  }

  lemma ReachableSlot<F>(first: State<F>, events: seq<Event<F>>, last: State<F>, id: ConsumerId)
    requires Initial(first) && Run(first, events, last) && id in last.slots
    ensures SlotInv(last.slots[id], Pending(last, id), last.pushed)
  {
    hide SlotInv;
    ReachableInv(first, events, last);
  }

  // ---------- What holds over every interleaving ----------

  lemma AccountedFor<F>(s: Slot<F>)
    requires AccountInv(s)
    ensures |s.removals| == s.core.dropped + s.core.consumed + s.failed + (if s.worker.Calling? then 1 else 0)
  {}

  /**
    Slot accounting: until it is cleared, a slot's queue is what it received without a prefix;
    that prefix is made up of the frames dropped, consumed, failed and at most one in flight.
  */
  lemma SlotAccounting<F>(first: State<F>, events: seq<Event<F>>, last: State<F>, id: ConsumerId)
    requires Initial(first) && Run(first, events, last) && id in last.slots
    ensures var s := last.slots[id];
      && |s.core.queue| <= s.core.max
      && (!s.remover.Cleared? ==>
            exists removed: seq<F> :: s.received == removed + s.core.queue
              && |removed| == s.core.dropped + s.core.consumed + s.failed + (if s.worker.Calling? then 1 else 0))
  {
    hide AccountInv, ThreadInv, FanOutInv, Run;
    ReachableSlot(first, events, last, id);
    var s := last.slots[id];
    AccountedFor(s);
    if !s.remover.Cleared? {
      var removed := s.received[..|s.removals|];
      assert s.received == removed + s.core.queue;
    }
  }

  /**
    Order and slack: the callback sees received frames in the order of their arrival, and a frame
    that it never sees was dropped when exactly max newer frames had arrived behind it.
  */
  lemma OrderAndSlack<F>(first: State<F>, events: seq<Event<F>>, last: State<F>, id: ConsumerId)
    requires Initial(first) && Run(first, events, last) && id in last.slots
    ensures var s := last.slots[id]; var at := TakenAt(s.removals);
      && |s.seen| == |at| && |s.removals| <= |s.received|
      && (forall j, k :: 0 <= j < k < |at| ==> at[j] < at[k])
      && (forall k :: 0 <= k < |at| ==> at[k] < |s.received| && s.seen[k] == s.received[at[k]])
      && (forall i: nat :: i < |s.removals| && i !in at ==>
            s.removals[i] == Dropped(i + s.core.max) && i + s.core.max < |s.received|)
  {
    hide Run;
    ReachableSlot(first, events, last, id);
    var s := last.slots[id];
    forall i: nat | i < |s.removals| && i !in TakenAt(s.removals)
      ensures s.removals[i].Dropped?
    {
      if s.removals[i].Taken? {
        TakenAtComplete(s.removals, i);
      }
    }
  }

  lemma {:induction false} TakenAtComplete(removals: seq<Removal>, i: nat)
    requires i < |removals| && removals[i].Taken?
    ensures i in TakenAt(removals)
  {
    var n := |removals| - 1;
    if i < n {
      TakenAtComplete(removals[..n], i);
      assert forall x :: x in TakenAt(removals[..n]) ==> x in TakenAt(removals);
    } else {
      assert TakenAt(removals)[|TakenAt(removals)| - 1] == i;
    }
  }

  /**
    Fan-out: whatever the other consumers do, a slot has received exactly the frames whose push
    began between its registration and its erasure, in order; the newest may still be on its way.
  */
  lemma FanOutIsComplete<F>(first: State<F>, events: seq<Event<F>>, last: State<F>, id: ConsumerId)
    requires Initial(first) && Run(first, events, last) && id in last.slots
    ensures var s := last.slots[id]; var end := End(s, |last.pushed|);
      && s.first <= end <= |last.pushed|
      && (Pending(last, id) ==> s.first < end)
      && s.received == last.pushed[s.first..if Pending(last, id) then end - 1 else end]
  {
    hide Run;
    ReachableSlot(first, events, last, id);
  }

  /** The next push goes to this slot. */
  predicate Hits<F>(st: State<F>, e: Event<F>, id: ConsumerId) {
    e.EnqueueNext? && st.producer.Pushing? && st.producer.rest != [] && st.producer.rest[0] == id
  }

  /** What a worker or remover step does to its slot, field by field. */
  lemma SlotStepIsFaithful<F>(s: Slot<F>, e: Event<F>)
    requires SlotStep(s, e).Some? && ThreadInv(s)
    ensures var s' := SlotStep(s, e).value;
      && s'.first == s.first && s'.last == s.last && s'.received == s.received
      && s'.core.max == s.core.max && s'.core.dropped == s.core.dropped
      && (s'.remover.Live? <==> s.remover.Live?)
      && s'.core.running == (s.core.running && !e.StopFlag?)
      && s'.core.consumed == s.core.consumed + (if e.Return? && e.ok then 1 else 0)
      && s'.failed == s.failed + (if e.Return? && !e.ok then 1 else 0)
      && (e.PopFront? ==> s.core.queue != [] && s'.core.queue == s.core.queue[1..])
      && s'.seen == (if e.PopFront? then s.seen + [s.core.queue[0]] else s.seen)
      && s'.lateTakes == s.lateTakes + (if e.PopFront? && !s.core.running then 1 else 0)
  {}

  lemma ReceiveIsFaithful<F>(s: Slot<F>, frame: F)
    requires s.core.max > 0
    ensures var s' := Receive(s, frame);
      && s'.first == s.first && s'.last == s.last && s'.remover == s.remover && s'.worker == s.worker
      && s'.seen == s.seen && s'.failed == s.failed && s'.lateTakes == s.lateTakes
      && s'.received == s.received + [frame]
      && s'.core.max == s.core.max && s'.core.running == s.core.running && s'.core.consumed == s.core.consumed
      && s'.core.dropped == s.core.dropped + (if |s.core.queue| >= s.core.max then 1 else 0)
  {}

  /**
    The history means what it says: over one step of the whole system, every field of a slot
    changes at exactly the event that is named for it.
  */
  lemma {:induction false} HistoryIsFaithful<F>(st: State<F>, e: Event<F>, id: ConsumerId, s: Slot<F>, s': Slot<F>)
    requires Inv(st) && id in st.slots && s == st.slots[id]
    requires var next := Next(st, e); next.Some? && id in next.value.slots && s' == next.value.slots[id]
    ensures s'.first == s.first && s'.core.max == s.core.max
    ensures s'.remover.Live? <==> s.remover.Live? && e != EraseSlot(id)
    ensures s.remover.Live? && !s'.remover.Live? ==> s'.remover.Erased?
    ensures s'.last == if s.remover.Live? && e == EraseSlot(id) then |st.pushed| else s.last
    ensures s'.core.running == (s.core.running && e != StopFlag(id))
    ensures Hits(st, e, id) ==> s'.received == s.received + [st.producer.frame]
    ensures !Hits(st, e, id) ==> s'.received == s.received
    ensures s'.core.dropped == s.core.dropped + if Hits(st, e, id) && |s.core.queue| >= s.core.max then 1 else 0
    ensures s'.core.consumed == s.core.consumed + if e == Return(id, true) then 1 else 0
    ensures s'.failed == s.failed + if e == Return(id, false) then 1 else 0
    ensures e == PopFront(id) ==> s.core.queue != [] && s'.seen == s.seen + [s.core.queue[0]]
    ensures e != PopFront(id) ==> s'.seen == s.seen
    ensures s'.lateTakes == s.lateTakes + if e == PopFront(id) && !s.core.running then 1 else 0
  {
    hide QueueInv, AccountInv, FanOutInv, SlotStep, Receive, Take;
    if Hits(st, e, id) {
      ReceiveIsFaithful(s, st.producer.frame);
    } else if OfOneSlot(e) && e.id == id {
      SlotStepIsFaithful(s, e);
    }
  }

  /** A slot comes with its registration alone, and starts empty and running, with its size forced to 1 or more. */
  lemma NewSlotIsEmpty<F>(st: State<F>, e: Event<F>, id: ConsumerId)
    requires Next(st, e).Some? && id !in st.slots && id in Next(st, e).value.slots
    ensures e.Add? && e.id == id
    ensures Next(st, e).value.slots[id] == Slot(
      Core([], if e.maxQueueSize == 0 then 1 else e.maxQueueSize, true, 0, 0), LoopHead, Live,
      [], [], [], 0, 0, |st.pushed|, |st.pushed|)
  {
    hide SlotStep, Receive;
  }

  predicate OfOneSlot<F>(e: Event<F>) {
    !e.Add? && !e.Snapshot? && !e.EnqueueNext? && !e.PushDone? && !e.EraseSlot?
  }

  /** The worker never pops an empty queue, and takes at most one frame once it has been stopped. */
  lemma StopIsPrompt<F>(first: State<F>, events: seq<Event<F>>, last: State<F>, id: ConsumerId)
    requires Initial(first) && Run(first, events, last) && id in last.slots
    ensures !last.slots[id].worker.Crashed? && last.slots[id].lateTakes <= 1
  {
    hide Run;
    ReachableSlot(first, events, last, id);
  }

  ghost predicate SameCallbacks<F>(s: Slot<F>, s': Slot<F>) {
    && s'.worker.Exited?
    && s'.seen == s.seen && s'.core.consumed == s.core.consumed && s'.failed == s.failed
  }

  lemma {:induction false} ExitedStaysSilent<F>(st: State<F>, events: seq<Event<F>>, last: State<F>, id: ConsumerId)
    requires Run(st, events, last) && id in st.slots && st.slots[id].worker.Exited?
    ensures id in last.slots && SameCallbacks(st.slots[id], last.slots[id])
    decreases |events|
  {
    if events != [] {
      ExitedStaysSilent(Next(st, events[0]).value, events[1..], last, id);
    }
  }

  /** After remove_consumer has joined the worker, no callback of that consumer ever runs again. */
  lemma NoCallbackAfterRemoval<F>(first: State<F>, before: seq<Event<F>>, mid: State<F>,
      after: seq<Event<F>>, last: State<F>, id: ConsumerId)
    requires Initial(first) && Run(first, before, mid) && Run(mid, after, last)
    requires id in mid.slots && (mid.slots[id].remover.Joined? || mid.slots[id].remover.Cleared?)
    ensures id in last.slots && last.slots[id].seen == mid.slots[id].seen && last.slots[id].worker.Exited?
    ensures last.slots[id].core.consumed == mid.slots[id].core.consumed && last.slots[id].failed == mid.slots[id].failed
  {
    ReachableSlot(first, before, mid, id);
    ExitedStaysSilent(mid, after, last, id);
  }

  /** A push with an old snapshot can leave at most one frame behind in a cleared queue. */
  lemma AtMostOneLateFrame<F>(first: State<F>, events: seq<Event<F>>, last: State<F>, id: ConsumerId)
    requires Initial(first) && Run(first, events, last)
    requires id in last.slots && last.slots[id].remover.Cleared?
    ensures |last.slots[id].core.queue| <= 1
  {
    hide Run;
    ReachableSlot(first, events, last, id);
  }
}
