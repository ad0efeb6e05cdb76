/** What the single steps of the wake-up protocol do, and what a stopped reader is spared. */
module WakeUpSteps {
  import opened Common
  import opened Sequences
  import A = AccessUnits
  import opened SourceFlags
  import opened WakeUp

  // ---------- The flags of one source ----------

  /** A request sets both waiting flags, a stop clears both, and a task that runs is used up. */
  lemma ReaderStepFlags(st: State, e: Event, s: SourceId)
    requires Next(st, e).Some? && s in st.flags && (e.GetNext? || e.StopReading? || e.RunTask?)
    ensures s in Next(st, e).value.flags
    ensures var f, f' := st.flags[s], Next(st, e).value.flags[s];
      if e.s != s then f' == f
      else if e.GetNext? then f' == Flags(true, true, f.tasks)
      else if e.StopReading? then f' == Flags(false, false, f.tasks)
      else f.tasks > 0 && f' == Flags(f.awaiting, f.current, f.tasks - 1)
  {}

  /** A delivery clears the reader's flag when it has a NAL, and the source's own when nobody waits. */
  lemma DeliveryStepFlags(st: State, e: Event, s: SourceId)
    requires Next(st, e).Some? && s in st.flags && (e.Check? || e.PopStep? || e.Rearm?)
    ensures s in Next(st, e).value.flags && s in st.flags
    ensures var f, f' := st.flags[s], Next(st, e).value.flags[s];
      && (e.Check? ==> f' == if st.loop.s == s && !f.current then Flags(false, false, f.tasks) else f)
      && (e.PopStep? && st.loop.s == s ==>
            f' == if Flatten(st.queues[st.home[s]]) == [] then f else Flags(f.awaiting, false, f.tasks))
      && (e.PopStep? && st.loop.s != s ==> f' == f)
      && (e.Rearm? ==> f' == if st.loop.s == s then Flags(true, f.current, f.tasks) else f)
  {}

  /** The notified source, if it waits, gets exactly one task for its flag. */
  lemma NotifiedFlags(st: State, s: SourceId)
    requires Next(st, NotifyOne).Some? && s in st.flags
    ensures s in Next(st, NotifyOne).value.flags && st.loop.sources != []
    ensures var f, f' := st.flags[s], Next(st, NotifyOne).value.flags[s];
      f' == if st.loop.sources[0] == s && f.awaiting then Flags(false, f.current, f.tasks + 1) else f
  {}

  /** No other step changes the flags of a source that stays; a new one waits for nothing. */
  lemma OtherStepFlags(st: State, e: Event, s: SourceId)
    requires Next(st, e).Some? && s in Next(st, e).value.flags && !e.NotifyOne?
    requires !e.GetNext? && !e.StopReading? && !e.RunTask? && !e.Check? && !e.PopStep? && !e.Rearm?
    ensures Next(st, e).value.flags[s] == if s in st.flags then st.flags[s] else Flags(false, false, 0)
  {
    hide A.PushUnit;
  }

  // ---------- The event loop and the trigger ----------

  /** Where each step of the event loop leads, and what raises and takes the trigger. */
  lemma LoopMovesOnlySo(st: State, e: Event)
    requires Next(st, e).Some?
    ensures var st' := Next(st, e).value;
      && st'.pending == (e.Trigger? || (st.pending && !e.TakeTrigger?))
      && (e.TakeTrigger? ==> st'.loop == Notifying(st.order, None, []))
      && (e.GetNext? || e.RunTask? ==> st.loop.Idle? && st'.loop == Checking(e.s))
      && (e.Check? ==> st.loop.Checking? && st.loop.s in st.flags)
      && (e.Check? ==> st'.loop == if st.flags[st.loop.s].current then Popping(st.loop.s) else Idle)
      && (e.PopStep? ==> st.loop.Popping? && st.loop.s in st.home && st.home[st.loop.s] in st.queues)
      && (e.PopStep? ==>
            st'.loop == if Flatten(st.queues[st.home[st.loop.s]]) == [] then Rearming(st.loop.s) else Idle)
      && (e.Rearm? ==> st.loop.Rearming? && st'.loop.Idle?)
  {
    hide A.PushUnit;
  }

  /** A producer carries its unit to the queue only if somebody listens, and raises the trigger in any case. */
  lemma ProducerMovesOnlySo(st: State, e: Event, p: ThreadId)
    requires Next(st, e).Some? && (e.Enter? || e.PushStep? || e.Trigger?) && e.p == p
    ensures p in Next(st, e).value.producers
    ensures var st' := Next(st, e).value;
      && (e.Enter? ==> e.q in st.active && st'.queues == st.queues)
      && (e.Enter? ==>
            st'.producers[p] == if st.active[e.q] != [] && e.u != [] then ReadyToPush(e.q, e.u) else BeforeTrigger(e.q))
      && (e.PushStep? ==> p in st.producers && st.producers[p].ReadyToPush? && st.producers[p].q in st.queues)
      && (e.PushStep? ==>
            var q, u := st.producers[p].q, st.producers[p].u;
            st'.producers[p] == BeforeTrigger(q) && st'.queues == st.queues[q := A.PushUnit(st.queues[q], st.max, u)])
      && (e.Trigger? ==> p in st.producers && st.producers[p].BeforeTrigger?)
      && (e.Trigger? ==> st'.producers[p].Outside? && st'.pending)
  {}

  /** Readers may ask and stop whenever the event loop is idle, and then a scheduled task may run. */
  lemma ReaderStepsArePossible(st: State, s: SourceId)
    requires st.max > 0 && s in st.flags
    ensures Next(st, GetNext(s)).Some? <==> st.loop.Idle? && !st.flags[s].current
    ensures Next(st, StopReading(s)).Some? <==> st.loop.Idle?
    ensures Next(st, RunTask(s)).Some? <==> st.loop.Idle? && st.flags[s].tasks > 0
    ensures Next(st, TakeTrigger).Some? <==> st.loop.Idle? && st.pending
  {}

  /** A source may come whenever the loop is idle, and go once it is stopped and has no task left. */
  lemma SourcesComeAndGo(st: State, s: SourceId, q: QueueId)
    requires Inv(st)
    ensures s !in st.flags && q in st.active ==> (Next(st, Register(s, q)).Some? <==> st.loop.Idle?)
    ensures s in st.flags ==>
      (Next(st, Unregister(s)).Some? <==> st.loop.Idle? && !st.flags[s].current && st.flags[s].tasks == 0)
  {
    hide Next;
    if s in st.flags {
      SourceFacts(st, s);
      hide Inv;
      MayGo(st, s);
    } else if q in st.active {
      hide Inv;
      MayCome(st, s, q);
    }
  }

  lemma MayGo(st: State, s: SourceId)
    requires st.max > 0 && s in st.flags && s in st.home && st.home[s] in st.active
    ensures Next(st, Unregister(s)).Some? <==> st.loop.Idle? && !st.flags[s].current && st.flags[s].tasks == 0
  {}

  lemma MayCome(st: State, s: SourceId, q: QueueId)
    requires st.max > 0 && s !in st.flags && q in st.active
    ensures Next(st, Register(s, q)).Some? <==> st.loop.Idle?
  {}

  /** A producer waits for nothing but the mutex of the queue while its sources are notified. */
  lemma ProducerStepsArePossible(st: State, p: ThreadId, q: QueueId, u: A.AccessUnit)
    requires Inv(st)
    ensures q in st.active && (p !in st.producers || st.producers[p].Outside?) ==>
      (Next(st, Enter(p, q, u)).Some? <==> !(st.loop.Notifying? && st.loop.open == Some(q)))
    ensures p in st.producers && st.producers[p].ReadyToPush? ==>
      (Next(st, PushStep(p)).Some? <==> !(st.loop.Notifying? && st.loop.open == Some(st.producers[p].q)))
    ensures p in st.producers && st.producers[p].BeforeTrigger? ==> Next(st, Trigger(p)).Some?
  {
    hide A.PushUnit, SourceInv, LoopWired;
    if q in st.active {
      WiredMeansQueue(st, q);
    }
    if p in st.producers && st.producers[p].ReadyToPush? {
      WiredMeansQueue(st, st.producers[p].q);
    }
    hide QueueWired;
  }

  // ---------- After a stop ----------

  ghost predicate Left(st: State, s: SourceId, tasks: nat) {
    && (s in st.flags ==> !st.flags[s].current && !st.flags[s].awaiting && st.flags[s].tasks <= tasks)
    && st.loop != Popping(s) && st.loop != Rearming(s)
  }

  lemma StaysLeft(st: State, e: Event, s: SourceId, tasks: nat)
    requires Left(st, s, tasks) && Next(st, e).Some? && e != GetNext(s)
    ensures Left(Next(st, e).value, s, tasks)
  {
    hide A.PushUnit, A.PopNal;
  }

  lemma {:induction false} RunStaysLeft(st: State, events: seq<Event>, last: State, s: SourceId, tasks: nat)
    requires Left(st, s, tasks) && Run(st, events, last) && GetNext(s) !in events
    ensures Left(last, s, tasks)
    decreases |events|
  {
    hide Next, Left;
    if events != [] {
      assert events[0] in events;
      StaysLeft(st, events[0], s, tasks);
      RunStaysLeft(Next(st, events[0]).value, events[1..], last, s, tasks);
    }
  }

  /**
    A reader that has stopped is left alone until it asks again, whatever happens meanwhile: it
    does not wait, no task is scheduled for it any more, and the event loop never takes a NAL for it.
  */
  lemma NothingAfterStop(st: State, events: seq<Event>, last: State, s: SourceId)
    requires Next(st, StopReading(s)).Some? && s in st.flags
    requires Run(Next(st, StopReading(s)).value, events, last) && GetNext(s) !in events
    ensures s in last.flags ==>
      !last.flags[s].current && !last.flags[s].awaiting && last.flags[s].tasks <= st.flags[s].tasks
    ensures last.loop != Popping(s) && last.loop != Rearming(s)
  {
    hide Run;
    RunStaysLeft(Next(st, StopReading(s)).value, events, last, s, st.flags[s].tasks);
  }
}
