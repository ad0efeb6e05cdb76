/** The flags of one RTSP source, and what each of its calls does to them. */
module SourceFlags {

  /**
    `awaiting` is the source's own flag; `current` is live555's "currently awaiting data";
    `tasks` counts the deliver tasks scheduled but not yet run.
  */
  datatype Flags = Flags(awaiting: bool, current: bool, tasks: nat)

  const NewSource := Flags(false, false, 0)

  /** A reader asks for the next frame. */
  function Request(f: Flags): Flags { f.(awaiting := true, current := true) }

  /** The reader stops. */
  function Stop(f: Flags): Flags { f.(awaiting := false, current := false) }

  /** New data was announced: a waiting source schedules one deliver task. */
  function Notify(f: Flags): Flags {
    if !f.awaiting then f else f.(awaiting := false, tasks := f.tasks + 1)
  }

  /** A deliver task found nobody waiting. */
  function Refuse(f: Flags): Flags { f.(awaiting := false) }

  /** A delivery found the queue empty. */
  function Starve(f: Flags): Flags { f.(awaiting := true) }

  /** A NAL was handed over; live555 clears its flag before it calls the reader back. */
  function Serve(f: Flags): Flags { f.(current := false) }
}

/**
  The wake-up protocol between any number of producer threads, which push access units and
  then raise one shared event trigger, and the event loop, which runs every source. Each
  event below is one atomic step; a queue's mutex is held while its sources are notified.
*/
module WakeUp {
  import opened Common
  import opened Sequences
  import opened AccessUnits
  import opened SourceFlags

  type QueueId = nat
  type SourceId = nat
  type ThreadId = nat

  /** Where a producer thread is inside on_frame. */
  datatype Producer = Outside | ReadyToPush(q: QueueId, u: AccessUnit) | BeforeTrigger(q: QueueId)

  /** Where the event loop is. While notifying, `sources` are those of `open` still to be told. */
  datatype Loop =
    | Idle
    | Notifying(rest: seq<QueueId>, open: Option<QueueId>, sources: seq<SourceId>)
    | Checking(s: SourceId)
    | Popping(s: SourceId)
    | Rearming(s: SourceId)

  datatype State = State(
    max: nat,
    order: seq<QueueId>,                 // the map of queues, in iteration order
    queues: map<QueueId, seq<AccessUnit>>,
    active: map<QueueId, seq<SourceId>>,
    flags: map<SourceId, Flags>,
    home: map<SourceId, QueueId>,
    producers: map<ThreadId, Producer>,
    pending: bool,                       // the event trigger has been raised
    loop: Loop)

  datatype Event =
    | Enter(p: ThreadId, q: QueueId, u: AccessUnit)
    | PushStep(p: ThreadId)
    | Trigger(p: ThreadId)
    | TakeTrigger
    | OpenQueue
    | NotifyOne
    | CloseQueue
    | EndNotify
    | GetNext(s: SourceId)
    | RunTask(s: SourceId)
    | Check
    | PopStep
    | Rearm
    | StopReading(s: SourceId)
    | Register(s: SourceId, q: QueueId)
    | Unregister(s: SourceId)

  predicate Locked(st: State, q: QueueId) {
    st.loop.Notifying? && st.loop.open == Some(q)
  }

  /** One atomic step; None when the event cannot happen in this state. */
  function Next(st: State, e: Event): Option<State> {
    if st.max == 0 then None else
    match e
    case Enter(p, q, u) =>
      if (p in st.producers && !st.producers[p].Outside?) || q !in st.queues
         || q !in st.active || Locked(st, q) then None
      // nothing is queued for a stream nobody listens to, but the trigger is raised all the same
      else Some(st.(producers := st.producers[p :=
          if st.active[q] != [] && u != [] then ReadyToPush(q, u) else BeforeTrigger(q)]))
    case PushStep(p) =>
      if p !in st.producers || !st.producers[p].ReadyToPush? then None else
      var ReadyToPush(q, u) := st.producers[p];
      if q !in st.queues || Locked(st, q) then None
      else Some(st.(queues := st.queues[q := PushUnit(st.queues[q], st.max, u)],
                       producers := st.producers[p := BeforeTrigger(q)]))
    case Trigger(p) =>
      if p !in st.producers || !st.producers[p].BeforeTrigger? then None
      else Some(st.(pending := true, producers := st.producers[p := Outside]))
    case TakeTrigger =>
      if !st.loop.Idle? || !st.pending then None
      else Some(st.(pending := false, loop := Notifying(st.order, None, [])))
    case OpenQueue =>
      if !st.loop.Notifying? || st.loop.open.Some? || st.loop.rest == [] || st.loop.rest[0] !in st.active then None
      else Some(st.(loop := Notifying(st.loop.rest[1..], Some(st.loop.rest[0]), st.active[st.loop.rest[0]])))
    case NotifyOne =>
      if !st.loop.Notifying? || st.loop.open.None? || st.loop.sources == []
         || st.loop.sources[0] !in st.flags then None else
      var s := st.loop.sources[0];
      Some(st.(flags := st.flags[s := Notify(st.flags[s])], loop := st.loop.(sources := st.loop.sources[1..])))
    case CloseQueue =>
      if !st.loop.Notifying? || st.loop.open.None? || st.loop.sources != [] then None
      else Some(st.(loop := st.loop.(open := None)))
    case EndNotify =>
      if !st.loop.Notifying? || st.loop.open.Some? || st.loop.rest != [] then None
      else Some(st.(loop := Idle))
    case GetNext(s) =>
      if !st.loop.Idle? || s !in st.flags || st.flags[s].current then None
      else Some(st.(flags := st.flags[s := Request(st.flags[s])], loop := Checking(s)))
    case RunTask(s) =>
      if !st.loop.Idle? || s !in st.flags || st.flags[s].tasks == 0 then None
      else Some(st.(flags := st.flags[s := st.flags[s].(tasks := st.flags[s].tasks - 1)], loop := Checking(s)))
    case Check =>
      if !st.loop.Checking? || st.loop.s !in st.flags then None else
      var s := st.loop.s;
      if st.flags[s].current then Some(st.(loop := Popping(s)))
      else Some(st.(flags := st.flags[s := Refuse(st.flags[s])], loop := Idle))
    case PopStep =>
      if !st.loop.Popping? || st.loop.s !in st.flags || st.loop.s !in st.home || st.home[st.loop.s] !in st.queues
         || Locked(st, st.home[st.loop.s]) then None else
      var s := st.loop.s;
      var (n, q) := PopNal(st.queues[st.home[s]]);
      var queues := st.queues[st.home[s] := q];
      if n.None? then Some(st.(queues := queues, loop := Rearming(s)))
      else Some(st.(queues := queues, flags := st.flags[s := Serve(st.flags[s])], loop := Idle))
    case Rearm =>
      if !st.loop.Rearming? || st.loop.s !in st.flags then None else
      var s := st.loop.s;
      Some(st.(flags := st.flags[s := Starve(st.flags[s])], loop := Idle))
    case StopReading(s) =>
      if !st.loop.Idle? || s !in st.flags then None
      else Some(st.(flags := st.flags[s := Stop(st.flags[s])]))
    case Register(s, q) =>
      if !st.loop.Idle? || s in st.flags || q !in st.active then None
      else Some(st.(flags := st.flags[s := NewSource], home := st.home[s := q],
                       active := st.active[q := st.active[q] + [s]]))
    case Unregister(s) =>
      // a source outlives its scheduled tasks and is stopped before it is closed
      if !st.loop.Idle? || s !in st.flags || s !in st.home || st.home[s] !in st.active
         || st.flags[s].tasks != 0 || st.flags[s].current then None else
      var q := st.home[s];
      Some(st.(flags := st.flags - {s}, home := st.home - {s}, active := st.active[q := RemoveFirst(st.active[q], s)]))
  }

  // ---------- The invariant ----------

  ghost predicate HasNal(q: seq<AccessUnit>) {
    Flatten(q) != []
  }

  ghost predicate AboutToTrigger(producers: map<ThreadId, Producer>, q: QueueId) {
    exists p :: p in producers && producers[p] == BeforeTrigger(q)
  }

  predicate YetToBeTold(st: State, s: SourceId)
    requires s in st.home
  {
    st.loop.Notifying? && (st.home[s] in st.loop.rest || (st.loop.open == Some(st.home[s]) && s in st.loop.sources))
  }

  /** Something is under way that will look at the queue on behalf of this source. */
  ghost predicate WakeUpUnderWay(st: State, s: SourceId)
    requires s in st.flags && s in st.home
  {
    || st.flags[s].tasks > 0
    || st.pending
    || AboutToTrigger(st.producers, st.home[s])
    || YetToBeTold(st, s)
    || st.loop == Checking(s)
    || st.loop == Popping(s)
  }

  ghost predicate SourceInv(st: State, s: SourceId)
    requires s in st.flags
  {
    && s in st.home && st.home[s] in st.queues && st.home[s] in st.active
    && s in st.active[st.home[s]]
    && (st.flags[s].current && HasNal(st.queues[st.home[s]]) ==> WakeUpUnderWay(st, s))
    // a notification is never ignored by a source that needs it
    && (st.flags[s].current && st.flags[s].tasks == 0
        && st.loop != Checking(s) && st.loop != Popping(s) && st.loop != Rearming(s)
        ==> st.flags[s].awaiting)
  }

  ghost predicate QueueWired(st: State, q: QueueId)
    requires q in st.active
  {
    && q in st.queues && q in st.order
    && Distinct(st.active[q])
    && (forall s :: s in st.active[q] ==> s in st.flags && s in st.home && st.home[s] == q)
  }

  ghost predicate LoopWired(st: State) {
    match st.loop
    case Idle => true
    case Notifying(rest, open, sources) =>
      && (forall q :: q in rest ==> q in st.active)
      && (open.Some? ==> open.value in st.active && forall s :: s in sources ==> s in st.active[open.value])
    case Checking(s) => s in st.flags
    case Popping(s) => s in st.flags && st.flags[s].current
    case Rearming(s) => s in st.flags && st.flags[s].current
  }

  ghost predicate Inv(st: State) {
    && st.max > 0
    && (forall q :: q in st.order ==> q in st.active)
    && (forall q :: q in st.active ==> QueueWired(st, q))
    && (forall p :: p in st.producers && st.producers[p].ReadyToPush? ==> st.producers[p].q in st.active)
    && LoopWired(st)
    && (forall s :: s in st.flags ==> SourceInv(st, s))
  }

  ghost predicate Initial(st: State) {
    && st.max > 0 && st.loop.Idle? && !st.pending
    && st.queues.Keys == st.active.Keys == (set q | q in st.order)
    && (forall q :: q in st.active ==> st.active[q] == [])
    && st.flags == map[] && st.home == map[] && st.producers == map[]
  }

  lemma InitialInv(st: State)
    requires Initial(st)
    ensures Inv(st)
  {}

  // ---------- Every step keeps it ----------

  lemma StaysWired(st: State, st': State, q: QueueId)
    requires q in st.active && QueueWired(st, q)
    requires st'.active == st.active && st'.order == st.order && st'.home == st.home
    requires st.queues.Keys <= st'.queues.Keys && st.flags.Keys <= st'.flags.Keys
    ensures QueueWired(st', q)
  {}

  ghost predicate SameWiring(st: State, st': State, s: SourceId) {
    && s in st.flags && s in st'.flags
    && st'.home == st.home && st'.active == st.active && st'.queues.Keys == st.queues.Keys
    && (s in st.home && st.home[s] in st.queues && HasNal(st'.queues[st.home[s]]) ==> HasNal(st.queues[st.home[s]]))
  }

  /** The steps of one source do not concern another, except for what they take from a shared queue. */
  lemma OtherSource(st: State, st': State, s: SourceId)
    requires SameWiring(st, st', s) && SourceInv(st, s)
    requires st'.flags[s] == st.flags[s] && st'.producers == st.producers && st'.pending == st.pending
    requires !st.loop.Notifying? && !st'.loop.Notifying?
    requires st.loop != Checking(s) && st.loop != Popping(s) && st.loop != Rearming(s)
    ensures SourceInv(st', s)
  {}

  /** A source's own step keeps it awake: it stops waiting, or is looked after, or was told already. */
  lemma OwnStep(st: State, st': State, s: SourceId)
    requires SameWiring(st, st', s) && SourceInv(st, s)
    requires st'.producers == st.producers && st'.pending == st.pending
    requires
      || !st'.flags[s].current
      || st'.loop == Checking(s) || st'.loop == Popping(s)
      || (st'.loop == Rearming(s) && !HasNal(st'.queues[if s in st.home then st.home[s] else 0]))
      || (st.loop == Rearming(s) && st'.loop.Idle? && st'.flags[s] == Starve(st.flags[s]))
    requires st'.loop == Rearming(s) ==> s in st.home && st.home[s] in st'.queues
    ensures SourceInv(st', s)
  {}

  /** While the loop is elsewhere, what producers do can only help a source. */
  lemma HelpedByProducer(st: State, st': State, s: SourceId)
    requires s in st.flags && SourceInv(st, s)
    requires st'.flags == st.flags && st'.home == st.home && st'.active == st.active && st'.loop == st.loop
    requires st'.queues.Keys == st.queues.Keys
    requires st.home[s] in st.queues && HasNal(st'.queues[st.home[s]]) ==>
      || (HasNal(st.queues[st.home[s]]) && (st.pending ==> st'.pending)
          && (AboutToTrigger(st.producers, st.home[s]) ==> AboutToTrigger(st'.producers, st.home[s]) || st'.pending))
      || AboutToTrigger(st'.producers, st.home[s])
    ensures SourceInv(st', s)
  {}

  lemma TriggersSurvive(producers: map<ThreadId, Producer>, p: ThreadId, pc: Producer, q: QueueId)
    requires AboutToTrigger(producers, q) && (p in producers ==> producers[p] != BeforeTrigger(q))
    ensures AboutToTrigger(producers[p := pc], q)
  {
    var p' :| p' in producers && producers[p'] == BeforeTrigger(q);
    assert p' in producers[p := pc];
  }

  /** During a notification round a source keeps waiting to be told, or has been told. */
  lemma InRound(st: State, st': State, s: SourceId)
    requires s in st.flags && SourceInv(st, s) && s in st.home
    requires st'.home == st.home && st'.active == st.active && st'.queues == st.queues && st'.producers == st.producers
    requires s in st'.flags &&
      (st'.flags[s] == st.flags[s] || (st.loop.Notifying? && st'.flags[s] == Notify(st.flags[s])))
    requires !(st.loop.Checking? || st.loop.Popping? || st.loop.Rearming?)
    requires !(st'.loop.Checking? || st'.loop.Popping? || st'.loop.Rearming?)
    requires st.pending && !st'.pending ==> YetToBeTold(st', s)
    requires YetToBeTold(st, s) ==> YetToBeTold(st', s) || (st.flags[s].current ==> st'.flags[s].tasks > 0)
    ensures SourceInv(st', s)
  {}

  lemma SourceFacts(st: State, s: SourceId)
    requires Inv(st) && s in st.flags
    ensures s in st.home && st.home[s] in st.queues && st.home[s] in st.active && st.home[s] in st.order
    ensures s in st.active[st.home[s]]
    ensures st.loop.Idle? || st.loop.Notifying? ==>
      st.flags[s].current && st.flags[s].tasks == 0 ==> st.flags[s].awaiting
  {}

  lemma EnterKeepsInv(st: State, p: ThreadId, q: QueueId, u: AccessUnit)
    requires Inv(st) && Next(st, Enter(p, q, u)).Some?
    ensures Inv(Next(st, Enter(p, q, u)).value)
  {
    hide SourceInv, QueueWired;
    var st' := Next(st, Enter(p, q, u)).value;
    forall h | h in st'.active
      ensures QueueWired(st', h)
    {
      StaysWired(st, st', h);
    }
    forall s | s in st'.flags
      ensures SourceInv(st', s)
    {
      SourceFacts(st, s);
      if AboutToTrigger(st.producers, st.home[s]) {
        TriggersSurvive(st.producers, p, st'.producers[p], st.home[s]);
      }
      HelpedByProducer(st, st', s);
    }
  }

  /** The queue fills, but then a trigger is on its way. */
  lemma PushKeepsInv(st: State, p: ThreadId)
    requires Inv(st) && Next(st, PushStep(p)).Some?
    ensures Inv(Next(st, PushStep(p)).value)
  {
    hide SourceInv, QueueWired;
    var st' := Next(st, PushStep(p)).value;
    forall q | q in st'.active
      ensures QueueWired(st', q)
    {
      StaysWired(st, st', q);
    }
    forall s | s in st'.flags
      ensures SourceInv(st', s)
    {
      SourceFacts(st, s);
      if st.producers[p].q == st.home[s] {
        assert st'.producers[p] == BeforeTrigger(st.home[s]);
      } else if AboutToTrigger(st.producers, st.home[s]) {
        TriggersSurvive(st.producers, p, st'.producers[p], st.home[s]);
      }
      HelpedByProducer(st, st', s);
    }
  }

  lemma TriggerKeepsInv(st: State, p: ThreadId)
    requires Inv(st) && Next(st, Trigger(p)).Some?
    ensures Inv(Next(st, Trigger(p)).value)
  {}

  /** The trigger is consumed, but every source of every queue is still to be told. */
  lemma OpeningKeepsInv(st: State, e: Event)
    requires Inv(st) && Next(st, e).Some? && (e.TakeTrigger? || e.OpenQueue?)
    ensures Inv(Next(st, e).value)
  {
    hide SourceInv, QueueWired;
    var st' := Next(st, e).value;
    forall q | q in st'.active
      ensures QueueWired(st', q)
    {
      StaysWired(st, st', q);
    }
    forall s | s in st'.flags
      ensures SourceInv(st', s)
    {
      SourceFacts(st, s);
      InRound(st, st', s);
    }
  }

  /** A source that waits and is told schedules a deliver task. */
  lemma RoundKeepsInv(st: State, e: Event)
    requires Inv(st) && Next(st, e).Some? && (e.NotifyOne? || e.CloseQueue? || e.EndNotify?)
    ensures Inv(Next(st, e).value)
  {
    hide SourceInv, QueueWired;
    var st' := Next(st, e).value;
    forall q | q in st'.active
      ensures QueueWired(st', q)
    {
      StaysWired(st, st', q);
    }
    forall s | s in st'.flags
      ensures SourceInv(st', s)
    {
      SourceFacts(st, s);
      InRound(st, st', s);
    }
  }

  /** A reader asks or stops, or a deliver task begins. */
  lemma ReaderKeepsInv(st: State, e: Event)
    requires Inv(st) && Next(st, e).Some? && (e.GetNext? || e.RunTask? || e.StopReading?)
    ensures Inv(Next(st, e).value)
  {
    hide SourceInv, QueueWired;
    var st' := Next(st, e).value;
    forall q | q in st'.active
      ensures QueueWired(st', q)
    {
      StaysWired(st, st', q);
    }
    forall s | s in st'.flags
      ensures SourceInv(st', s)
    {
      SourceFacts(st, s);
      if s == e.s {
        OwnStep(st, st', s);
      } else {
        OtherSource(st, st', s);
      }
    }
  }

  /** If the queue fills between an empty pop and re-arming, a trigger is on its way. */
  lemma CheckKeepsInv(st: State, e: Event)
    requires Inv(st) && Next(st, e).Some? && (e.Check? || e.Rearm?)
    ensures Inv(Next(st, e).value)
  {
    hide SourceInv, QueueWired;
    var st' := Next(st, e).value;
    forall q | q in st'.active
      ensures QueueWired(st', q)
    {
      StaysWired(st, st', q);
    }
    forall s | s in st'.flags
      ensures SourceInv(st', s)
    {
      SourceFacts(st, s);
      if s == st.loop.s {
        OwnStep(st, st', s);
      } else {
        OtherSource(st, st', s);
      }
    }
  }

  /** A delivery only takes from the queue, so it cannot create a need for a wake-up. */
  lemma PopServesKeepsInv(st: State, e: Event)
    requires Inv(st) && Next(st, e).Some? && e.PopStep?
    requires HasNal(st.queues[st.home[st.loop.s]])
    ensures Inv(Next(st, e).value)
  {
    hide SourceInv, QueueWired;
    var st' := Next(st, e).value;
    forall q | q in st'.active
      ensures QueueWired(st', q)
    {
      StaysWired(st, st', q);
    }
    forall s | s in st'.flags
      ensures SourceInv(st', s)
    {
      SourceFacts(st, s);
      if s == st.loop.s {
        OwnStep(st, st', s);
      } else {
        OtherSource(st, st', s);
      }
    }
  }

  /** A pop from an empty queue leaves nothing to be woken up for. */
  lemma PopEmptyKeepsInv(st: State, e: Event)
    requires Inv(st) && Next(st, e).Some? && e.PopStep?
    requires !HasNal(st.queues[st.home[st.loop.s]])
    ensures Inv(Next(st, e).value)
  {
    hide SourceInv, QueueWired;
    var st' := Next(st, e).value;
    forall q | q in st'.active
      ensures QueueWired(st', q)
    {
      StaysWired(st, st', q);
    }
    forall s | s in st'.flags
      ensures SourceInv(st', s)
    {
      SourceFacts(st, s);
      if s == st.loop.s {
        OwnStep(st, st', s);
      } else {
        OtherSource(st, st', s);
      }
    }
  }

  /** Registration changes only the wiring of the source it concerns. */
  lemma UnaffectedByRegistration(st: State, st': State, s: SourceId)
    requires s in st.flags && s in st'.flags && SourceInv(st, s)
    requires st'.flags[s] == st.flags[s] && s in st'.home && st'.home[s] == st.home[s]
    requires st'.queues == st.queues && st'.active.Keys == st.active.Keys && st.home[s] in st.active
    requires s in st'.active[st.home[s]]
    requires st'.producers == st.producers && st'.pending == st.pending && st'.loop == st.loop
    ensures SourceInv(st', s)
  {}

  lemma WiredWithOneMore(st: State, st': State, q: QueueId, s: SourceId, home: QueueId)
    requires q in st.active && QueueWired(st, q) && s !in st.flags && home in st.active
    requires st'.queues == st.queues && st'.order == st.order
    requires st'.active == st.active[home := st.active[home] + [s]]
    requires st'.home == st.home[s := home] && st'.flags == st.flags[s := NewSource]
    ensures QueueWired(st', q)
  {}

  lemma WiredMeansQueue(st: State, q: QueueId)
    requires q in st.active && QueueWired(st, q)
    ensures q in st.queues
  {}

  lemma WiredWithOneLess(st: State, st': State, q: QueueId, s: SourceId)
    requires q in st.active && QueueWired(st, q) && s in st.home && st.home[s] in st.active
    requires st'.queues == st.queues && st'.order == st.order
    requires st'.active == st.active[st.home[s] := RemoveFirst(st.active[st.home[s]], s)]
    requires st'.home == st.home - {s} && st'.flags == st.flags - {s}
    ensures QueueWired(st', q)
  {
    if q == st.home[s] {
      RemoveFirstDistinct(st.active[q], s);
    }
  }

  lemma RegisterKeepsInv(st: State, e: Event)
    requires Inv(st) && e.Register? && Next(st, e).Some?
    ensures Inv(Next(st, e).value)
  {
    hide SourceInv, QueueWired;
    var st' := Next(st, e).value;
    forall q | q in st'.active
      ensures QueueWired(st', q)
    {
      WiredWithOneMore(st, st', q, e.s, e.q);
    }
    assert e.s in st'.active[e.q];
    WiredMeansQueue(st, e.q);
    forall s | s in st'.flags
      ensures SourceInv(st', s)
    {
      if s == e.s {
        NewSourceInv(st', s);
      } else {
        SourceFacts(st, s);
        UnaffectedByRegistration(st, st', s);
      }
    }
  }

  lemma NewSourceInv(st: State, s: SourceId)
    requires s in st.flags && st.flags[s] == NewSource
    requires s in st.home && st.home[s] in st.queues && st.home[s] in st.active && s in st.active[st.home[s]]
    ensures SourceInv(st, s)
  {}

  lemma UnregisterKeepsInv(st: State, e: Event)
    requires Inv(st) && e.Unregister? && Next(st, e).Some?
    ensures Inv(Next(st, e).value)
  {
    hide SourceInv, QueueWired;
    var st' := Next(st, e).value;
    forall q | q in st'.active
      ensures QueueWired(st', q)
    {
      WiredWithOneLess(st, st', q, e.s);
    }
    forall s | s in st'.flags
      ensures SourceInv(st', s)
    {
      SourceFacts(st, s);
      UnaffectedByRegistration(st, st', s);
    }
  }

  lemma StepKeepsInv(st: State, e: Event)
    requires Inv(st) && Next(st, e).Some?
    ensures Inv(Next(st, e).value)
  {
    match e
    case Enter(p, q, u) => EnterKeepsInv(st, p, q, u);
    case PushStep(p) => PushKeepsInv(st, p);
    case Trigger(p) => TriggerKeepsInv(st, p);
    case GetNext(_) => ReaderKeepsInv(st, e);
    case RunTask(_) => ReaderKeepsInv(st, e);
    case StopReading(_) => ReaderKeepsInv(st, e);
    case Check => CheckKeepsInv(st, e);
    case PopStep =>
      if HasNal(st.queues[st.home[st.loop.s]]) {
        PopServesKeepsInv(st, e);
      } else {
        PopEmptyKeepsInv(st, e);
      }
    case Rearm => CheckKeepsInv(st, e);
    case Register(_, _) => RegisterKeepsInv(st, e);
    case Unregister(_) => UnregisterKeepsInv(st, e);
    case TakeTrigger => OpeningKeepsInv(st, e);
    case OpenQueue => OpeningKeepsInv(st, e);
    case _ => RoundKeepsInv(st, e);
  }

  // ---------- Whole runs ----------

  ghost predicate Run(st: State, events: seq<Event>, last: State)
    decreases |events|
  {
    if events == [] then last == st
    else Next(st, events[0]).Some? && Run(Next(st, events[0]).value, events[1..], last)
  }

  lemma {:induction false} RunKeepsInv(st: State, events: seq<Event>, last: State)
    requires Inv(st) && Run(st, events, last)
    ensures Inv(last)
    decreases |events|
  {
    if events != [] {
      StepKeepsInv(st, events[0]);
      RunKeepsInv(Next(st, events[0]).value, events[1..], last);
    }
  }

  /**
    No wake-up is ever lost, under any interleaving: a source whose reader waits while its
    queue holds a NAL has a deliver task scheduled, or the trigger is raised, or a producer is
    just about to raise it, or the event loop is on its way to this source.
  */
  lemma NoLostWakeUp(first: State, events: seq<Event>, last: State, s: SourceId)
    requires Initial(first) && Run(first, events, last) && s in last.flags
    ensures s in last.home && last.home[s] in last.queues
    ensures last.flags[s].current && HasNal(last.queues[last.home[s]]) ==> WakeUpUnderWay(last, s)
  {
    InitialInv(first);
    RunKeepsInv(first, events, last);
    assert SourceInv(last, s);
  }

  ghost predicate Quiet(st: State) {
    && st.loop.Idle? && !st.pending
    && (forall p :: p in st.producers ==> st.producers[p].Outside?)
    && (forall s :: s in st.flags ==> st.flags[s].tasks == 0)
  }

  /** When everything has come to rest, no reader waits in front of a queued NAL. */
  lemma QuietMeansServed(first: State, events: seq<Event>, last: State, s: SourceId)
    requires Initial(first) && Run(first, events, last) && Quiet(last)
    requires s in last.flags && last.flags[s].current
    ensures s in last.home && last.home[s] in last.queues
    ensures Flatten(last.queues[last.home[s]]) == []
  {
    NoLostWakeUp(first, events, last, s);
  }

  /** The event loop never gets stuck inside a callback: exactly one of its steps can be taken. */
  function LoopStep(st: State): Event {
    match st.loop
    case Idle => TakeTrigger
    case Notifying(rest, open, sources) =>
      if open.Some? then (if sources != [] then NotifyOne else CloseQueue)
      else if rest != [] then OpenQueue else EndNotify
    case Checking(_) => Check
    case Popping(_) => PopStep
    case Rearming(_) => Rearm
  }

  lemma LoopNeverStuck(first: State, events: seq<Event>, last: State)
    requires Initial(first) && Run(first, events, last) && !last.loop.Idle?
    ensures Next(last, LoopStep(last)).Some?
  {
    InitialInv(first);
    RunKeepsInv(first, events, last);
    InvMeansNotStuck(last);
  }

  lemma InvMeansNotStuck(st: State)
    requires Inv(st) && !st.loop.Idle?
    ensures Next(st, LoopStep(st)).Some?
  {
    if st.loop.Notifying? && st.loop.open.Some? {
      assert QueueWired(st, st.loop.open.value);
    } else if st.loop.Popping? {
      SourceFacts(st, st.loop.s);
    }
  }

  // ---------- The event loop comes to rest ----------

  ghost function TotalTasks(flags: map<SourceId, Flags>): nat {
    if flags == map[] then 0 else
    var s :| s in flags;
    flags[s].tasks + TotalTasks(flags - {s})
  }

  lemma {:induction false} TasksOfOne(flags: map<SourceId, Flags>, s: SourceId)
    requires s in flags
    ensures TotalTasks(flags) == flags[s].tasks + TotalTasks(flags - {s})
    decreases |flags|
  {
    var r :| r in flags && TotalTasks(flags) == flags[r].tasks + TotalTasks(flags - {r});
    if r != s {
      TasksOfOne(flags - {r}, s);
      TasksOfOne(flags - {s}, r);
      assert flags - {r} - {s} == flags - {s} - {r};
    }
  }

  lemma TasksAfterUpdate(flags: map<SourceId, Flags>, s: SourceId, f: Flags)
    requires s in flags
    ensures TotalTasks(flags[s := f]) == TotalTasks(flags) - flags[s].tasks + f.tasks
  {
    TasksOfOne(flags, s);
    TasksOfOne(flags[s := f], s);
    assert flags[s := f] - {s} == flags - {s};
  }

  ghost predicate AtRest(st: State) {
    st.loop.Idle? && !st.pending && forall s :: s in st.flags ==> st.flags[s].tasks == 0
  }

  /** What the event loop does next when no reader and no producer intervenes. */
  ghost function OwnStepOf(st: State): Event
    requires !AtRest(st)
  {
    if !st.loop.Idle? then LoopStep(st)
    else if st.pending then TakeTrigger
    else var s :| s in st.flags && st.flags[s].tasks > 0; RunTask(s)
  }

  function Bit(b: bool): nat { if b then 1 else 0 }

  function Stage(l: Loop): nat {
    match l
    case Checking(_) => 3
    case Popping(_) => 2
    case Rearming(_) => 1
    case _ => 0
  }

  /** How much of a notification round is left, by queues, by the open queue, and by its sources. */
  function RoundLeft(l: Loop): (nat, nat, nat) {
    match l
    case Notifying(rest, open, sources) => (1 + |rest|, Bit(open.Some?), |sources|)
    case _ => (0, 0, 0)
  }

  /** Each step of the event loop on its own brings it closer to rest. */
  ghost predicate Closer(st: State, st': State) {
    var (a, b, c) := RoundLeft(st.loop);
    var (a', b', c') := RoundLeft(st'.loop);
    && (st'.pending ==> st.pending)
    && (st.pending == st'.pending ==>
          || a' < a
          || (a' == a && b' < b)
          || (a' == a && b' == b && c' < c)
          || (a' == a && b' == b && c' == c && TotalTasks(st'.flags) < TotalTasks(st.flags))
          || (a' == a && b' == b && c' == c && TotalTasks(st'.flags) == TotalTasks(st.flags)
              && Stage(st'.loop) < Stage(st.loop)))
  }

  lemma RoundGetsCloser(st: State, e: Event)
    requires Next(st, e).Some?
    requires e.TakeTrigger? || e.OpenQueue? || e.NotifyOne? || e.CloseQueue? || e.EndNotify?
    ensures Closer(st, Next(st, e).value) && Next(st, e).value.producers == st.producers
  {}

  lemma CheckGetsCloser(st: State, e: Event)
    requires Next(st, e).Some? && (e.Check? || e.Rearm?)
    ensures Closer(st, Next(st, e).value) && Next(st, e).value.producers == st.producers
  {
    hide TotalTasks, PopNal;
    var s, st' := st.loop.s, Next(st, e).value;
    TasksAfterUpdate(st.flags, s, st'.flags[s]);
    assert st'.flags == st.flags[s := st'.flags[s]];
  }

  lemma PopGetsCloser(st: State, e: Event)
    requires Next(st, e).Some? && e.PopStep?
    ensures Closer(st, Next(st, e).value) && Next(st, e).value.producers == st.producers
  {
    hide TotalTasks, PopNal;
    var s, st' := st.loop.s, Next(st, e).value;
    TasksAfterUpdate(st.flags, s, st'.flags[s]);
    assert st'.flags == st.flags[s := st'.flags[s]];
  }

  lemma RunTaskGetsCloser(st: State, s: SourceId)
    requires Next(st, RunTask(s)).Some?
    ensures Closer(st, Next(st, RunTask(s)).value) && Next(st, RunTask(s)).value.producers == st.producers
  {
    hide TotalTasks;
    TasksAfterUpdate(st.flags, s, st.flags[s].(tasks := st.flags[s].tasks - 1));
  }

  lemma OwnStepGetsCloser(st: State)
    requires Inv(st) && !AtRest(st)
    ensures var e := OwnStepOf(st);
      Next(st, e).Some? && Closer(st, Next(st, e).value) && Next(st, e).value.producers == st.producers
  {
    hide Closer;
    var e := OwnStepOf(st);
    OwnStepIsPossible(st);
    if e.RunTask? {
      RunTaskGetsCloser(st, e.s);
    } else if e.Check? || e.Rearm? {
      CheckGetsCloser(st, e);
    } else if e.PopStep? {
      PopGetsCloser(st, e);
    } else {
      RoundGetsCloser(st, e);
    }
  }

  lemma OwnStepIsPossible(st: State)
    requires Inv(st) && !AtRest(st)
    ensures Next(st, OwnStepOf(st)).Some?
  {
    if !st.loop.Idle? {
      InvMeansNotStuck(st);
    }
  }

  /**
    From every reachable state the event loop comes to rest by its own steps alone, and if no
    producer is inside on_frame then, every reader still waiting has an empty queue in front of it.
  */
  lemma {:induction false} LoopComesToRest(st: State) returns (events: seq<Event>, last: State)
    requires Inv(st)
    ensures Run(st, events, last) && AtRest(last) && last.producers == st.producers
    ensures (forall p :: p in st.producers ==> st.producers[p].Outside?) ==>
      forall s :: s in last.flags && last.flags[s].current ==>
        s in last.home && last.home[s] in last.queues && Flatten(last.queues[last.home[s]]) == []
    decreases st.pending, RoundLeft(st.loop).0, RoundLeft(st.loop).1, RoundLeft(st.loop).2,
      TotalTasks(st.flags), Stage(st.loop)
  {
    hide Next, SourceInv, QueueWired, LoopWired;
    if AtRest(st) {
      events, last := [], st;
      if forall p :: p in st.producers ==> st.producers[p].Outside? {
        AtRestMeansServed(st);
      }
    } else {
      var e := OwnStepOf(st);
      OwnStepGetsCloser(st);
      StepKeepsInv(st, e);
      var more;
      more, last := LoopComesToRest(Next(st, e).value);
      events := [e] + more;
      assert events[1..] == more;
    }
  }

  /** After any run at all, the event loop alone can serve every waiting reader that has a NAL queued. */
  lemma {:induction false} WaitingReadersAreServed(first: State, events: seq<Event>, mid: State)
    returns (more: seq<Event>, last: State)
    requires Initial(first) && Run(first, events, mid)
    requires forall p :: p in mid.producers ==> mid.producers[p].Outside?
    ensures Run(mid, more, last) && AtRest(last)
    ensures forall s :: s in last.flags && last.flags[s].current ==>
      s in last.home && last.home[s] in last.queues && Flatten(last.queues[last.home[s]]) == []
  {
    hide Run, Inv, Initial;
    InitialInv(first);
    RunKeepsInv(first, events, mid);
    more, last := LoopComesToRest(mid);
  }

  lemma AtRestMeansServed(st: State)
    requires Inv(st) && AtRest(st) && forall p :: p in st.producers ==> st.producers[p].Outside?
    ensures forall s :: s in st.flags && st.flags[s].current ==>
      s in st.home && st.home[s] in st.queues && Flatten(st.queues[st.home[s]]) == []
  {}
}
