/**
  Where the wake-up protocol meets the trace law: what producers and sources do to one queue,
  in any interleaving, is a run of pushes and pops on that queue.
*/
module QueueTraces {
  import opened Sequences
  import opened AccessUnits
  import W = WakeUp

  /** The call on queue q that a step of the protocol makes, if it makes one. */
  function CallBy(st: W.State, e: W.Event, q: W.QueueId): seq<Event> {
    match e
    case PushStep(p) =>
      if p in st.producers && st.producers[p].ReadyToPush? && st.producers[p].q == q
      then [Push(st.producers[p].u)] else []
    case PopStep =>
      if st.loop.Popping? && st.loop.s in st.home && st.home[st.loop.s] == q then [Pop] else []
    case _ => []
  }

  /** The NAL from queue q that a step hands to a reader. */
  function HandedBy(st: W.State, e: W.Event, q: W.QueueId): seq<NalUnit> {
    if CallBy(st, e, q) == [Pop] && q in st.queues && PopNal(st.queues[q]).0.Some?
    then [PopNal(st.queues[q]).0.value] else []
  }

  function Calls(st: W.State, events: seq<W.Event>, q: W.QueueId): seq<Event>
    decreases |events|
  {
    if events == [] || W.Next(st, events[0]).None? then []
    else CallBy(st, events[0], q) + Calls(W.Next(st, events[0]).value, events[1..], q)
  }

  /** All NALs from queue q that any reader is handed, in order. */
  function Handed(st: W.State, events: seq<W.Event>, q: W.QueueId): seq<NalUnit>
    decreases |events|
  {
    if events == [] || W.Next(st, events[0]).None? then []
    else HandedBy(st, events[0], q) + Handed(W.Next(st, events[0]).value, events[1..], q)
  }

  lemma StepMatches(st: W.State, e: W.Event, q: W.QueueId, t: Trace)
    requires W.Next(st, e).Some? && q in st.queues && t.queue == st.queues[q]
    ensures var st' := W.Next(st, e).value;
      && st'.max == st.max > 0 && st'.queues.Keys == st.queues.Keys
      && var t' := Run(t, st.max, CallBy(st, e, q));
        t'.queue == st'.queues[q] && t'.popped == t.popped + HandedBy(st, e, q)
  {
    hide Step;
    var call := CallBy(st, e, q);
    if call == [] {
      OtherStepMatches(st, e, q);
    } else {
      assert call[1..] == [];
      assert Run(t, st.max, call) == Step(t, st.max, call[0]);
      CallMatches(st, e, q, t);
    }
  }

  lemma OtherStepMatches(st: W.State, e: W.Event, q: W.QueueId)
    requires W.Next(st, e).Some? && q in st.queues && CallBy(st, e, q) == []
    ensures var st' := W.Next(st, e).value;
      st'.max == st.max > 0 && st'.queues.Keys == st.queues.Keys && st'.queues[q] == st.queues[q]
  {
    hide PushUnit, PopNal;
  }

  lemma CallMatches(st: W.State, e: W.Event, q: W.QueueId, t: Trace)
    requires W.Next(st, e).Some? && q in st.queues && t.queue == st.queues[q] && CallBy(st, e, q) != []
    ensures var st' := W.Next(st, e).value;
      && st'.max == st.max > 0 && st'.queues.Keys == st.queues.Keys
      && var t' := Step(t, st.max, CallBy(st, e, q)[0]);
        t'.queue == st'.queues[q] && t'.popped == t.popped + HandedBy(st, e, q)
  {
    hide PushUnit, PopNal, Mark;
  }

  lemma {:induction false} RunOfBoth(t: Trace, max: nat, a: seq<Event>, b: seq<Event>)
    requires max > 0
    ensures Run(t, max, a + b) == Run(Run(t, max, a), max, b)
    decreases |a|
  {
    hide Step;
    if a == [] {
      assert a + b == b;
    } else {
      assert (a + b)[1..] == a[1..] + b;
      RunOfBoth(Step(t, max, a[0]), max, a[1..], b);
    }
  }

  lemma {:induction false} RunMatches(st: W.State, events: seq<W.Event>, last: W.State, q: W.QueueId, t: Trace)
    requires W.Run(st, events, last) && st.max > 0 && q in st.queues && t.queue == st.queues[q]
    ensures q in last.queues
    ensures var t' := Run(t, st.max, Calls(st, events, q));
      t'.queue == last.queues[q] && t'.popped == t.popped + Handed(st, events, q)
    decreases |events|
  {
    hide W.Next, Step, CallBy, HandedBy;
    if events != [] {
      var e, st' := events[0], W.Next(st, events[0]).value;
      StepMatches(st, e, q, t);
      RunMatches(st', events[1..], last, q, Run(t, st.max, CallBy(st, e, q)));
      RunOfBoth(t, st.max, CallBy(st, e, q), Calls(st', events[1..], q));
    }
  }

  lemma {:induction false} NothingIsCleared(st: W.State, events: seq<W.Event>, q: W.QueueId)
    ensures Clear !in Calls(st, events, q)
    decreases |events|
  {
    hide W.Next;
    if events != [] && W.Next(st, events[0]).Some? {
      NothingIsCleared(W.Next(st, events[0]).value, events[1..], q);
    }
  }

  /**
    In every run of the protocol, the queue of a stream has gone through a run of pushes and
    pops that keeps the trace law, and what its readers were handed is what that run delivered.
  */
  lemma EveryQueueIsATrace(first: W.State, events: seq<W.Event>, last: W.State, q: W.QueueId)
    requires W.Initial(first) && W.Run(first, events, last)
    requires q in first.queues && first.queues[q] == []
    ensures q in last.queues
    ensures var t := Run(Start, first.max, Calls(first, events, q));
      && Inv(t, first.max) && Cleared !in t.fate
      && t.queue == last.queues[q] && t.popped == Handed(first, events, q)
  {
    hide W.Run, Run, Inv;
    RunMatches(first, events, last, q, Start);
    NothingIsCleared(first, events, q);
    NeverCleared(Start, first.max, Calls(first, events, q));
    StartInv(first.max);
    TraceLaw(Start, first.max, Calls(first, events, q));
  }

  lemma StartInv(max: nat)
    requires max > 0
    ensures Inv(Start, max)
  {}

  /**
    When everything has come to rest, a stream with a waiting reader has left nothing behind:
    every unit ever pushed was handed out whole, or had max newer units pushed behind it.
  */
  lemma RestLeavesNothingBehind(first: W.State, events: seq<W.Event>, last: W.State, s: W.SourceId, i: nat)
    requires W.Initial(first) && W.Run(first, events, last) && W.Quiet(last)
    requires s in last.flags && last.flags[s].current && s in last.home
    requires last.home[s] in first.queues && first.queues[last.home[s]] == []
    requires i < |Run(Start, first.max, Calls(first, events, last.home[s])).pushed|
    ensures var t := Run(Start, first.max, Calls(first, events, last.home[s]));
      Shape(t) && (t.taken[i] == |t.pushed[i]| || i + first.max < |t.pushed|)
  {
    hide W.Run, Run;
    var q := last.home[s];
    var t := Run(Start, first.max, Calls(first, events, q));
    EveryQueueIsATrace(first, events, last, q);
    W.QuietMeansServed(first, events, last, s);
    if t.queue != [] {
      QueuedMeansNal(t, first.max);
    }
    OutcomeOf(t, first.max, i);
  }

  lemma QueuedMeansNal(t: Trace, max: nat)
    requires Inv(t, max) && t.queue != []
    ensures Flatten(t.queue) != []
  {
    assert WaitsInPlace(t, Head(t));
  }

  // ---------- What one producer thread pushes ----------

  /** The access units with which on_frame is entered for queue q. */
  function Entered(events: seq<W.Event>, q: W.QueueId): seq<AccessUnit> {
    if events == [] then [] else EnteredBy(events[0], q) + Entered(events[1..], q)
  }

  function EnteredBy(e: W.Event, q: W.QueueId): seq<AccessUnit> {
    if e.Enter? && e.q == q then [e.u] else []
  }

  /** Whether somebody listened to queue q at each of these entries. */
  function Listening(st: W.State, events: seq<W.Event>, q: W.QueueId): seq<bool>
    decreases |events|
  {
    if events == [] || W.Next(st, events[0]).None? then []
    else ListeningAt(st, events[0], q) + Listening(W.Next(st, events[0]).value, events[1..], q)
  }

  function ListeningAt(st: W.State, e: W.Event, q: W.QueueId): seq<bool> {
    if e.Enter? && e.q == q then [q in st.active && st.active[q] != []] else []
  }

  /** The units that are queued: the non-empty ones that somebody listens to. */
  function Kept(units: seq<AccessUnit>, listening: seq<bool>): seq<AccessUnit>
    requires |units| == |listening|
  {
    if units == [] then []
    else (if listening[0] && units[0] != [] then [units[0]] else []) + Kept(units[1..], listening[1..])
  }

  /** The unit that thread p has entered with and not pushed yet. */
  function InHand(st: W.State, p: W.ThreadId, q: W.QueueId): seq<AccessUnit> {
    if p in st.producers && st.producers[p].ReadyToPush? && st.producers[p].q == q then [st.producers[p].u] else []
  }

  /** Thread p alone feeds queue q. */
  ghost predicate FedBy(events: seq<W.Event>, p: W.ThreadId, q: W.QueueId) {
    forall i :: 0 <= i < |events| && events[i].Enter? && events[i].q == q ==> events[i].p == p
  }

  ghost predicate OnlyFeeder(st: W.State, p: W.ThreadId, q: W.QueueId) {
    && (forall r :: r in st.producers && st.producers[r].ReadyToPush? && st.producers[r].q == q ==> r == p)
    && InHand(st, p, q) != [[]]
  }

  lemma StepPushes(st: W.State, e: W.Event, p: W.ThreadId, q: W.QueueId)
    requires W.Next(st, e).Some? && OnlyFeeder(st, p, q) && (e.Enter? && e.q == q ==> e.p == p)
    ensures var st' := W.Next(st, e).value;
      && OnlyFeeder(st', p, q)
      && |ListeningAt(st, e, q)| == |EnteredBy(e, q)|
      && InHand(st, p, q) + Kept(EnteredBy(e, q), ListeningAt(st, e, q)) ==
        PushesOf(CallBy(st, e, q)) + InHand(st', p, q)
  {
    match e
    case Enter(_, _, _) => EnterPushes(st, e, p, q);
    case PushStep(r) => PushPushes(st, r, p, q);
    case _ =>
      hide Kept, PushesOf;
      NothingYet();
      OthersPushNothing(st, e, p, q);
  }

  lemma EnterPushes(st: W.State, e: W.Event, p: W.ThreadId, q: W.QueueId)
    requires e.Enter? && W.Next(st, e).Some? && OnlyFeeder(st, p, q) && (e.q == q ==> e.p == p)
    ensures var st' := W.Next(st, e).value;
      && OnlyFeeder(st', p, q)
      && InHand(st, p, q) + Kept(EnteredBy(e, q), ListeningAt(st, e, q)) == InHand(st', p, q)
  {
    var entered, listening := EnteredBy(e, q), ListeningAt(st, e, q);
    assert entered != [] ==> entered[1..] == [] && listening[1..] == [];
  }

  lemma PushPushes(st: W.State, r: W.ThreadId, p: W.ThreadId, q: W.QueueId)
    requires W.Next(st, W.PushStep(r)).Some? && OnlyFeeder(st, p, q)
    ensures var st' := W.Next(st, W.PushStep(r)).value;
      && OnlyFeeder(st', p, q)
      && InHand(st, p, q) == PushesOf(CallBy(st, W.PushStep(r), q)) + InHand(st', p, q)
  {
    hide PushUnit;
    var call := CallBy(st, W.PushStep(r), q);
    assert call != [] ==> call[1..] == [];
  }

  lemma OthersPushNothing(st: W.State, e: W.Event, p: W.ThreadId, q: W.QueueId)
    requires W.Next(st, e).Some? && OnlyFeeder(st, p, q) && !e.Enter? && !e.PushStep?
    ensures var st' := W.Next(st, e).value;
      && OnlyFeeder(st', p, q) && InHand(st', p, q) == InHand(st, p, q)
      && EnteredBy(e, q) == [] && ListeningAt(st, e, q) == [] && PushesOf(CallBy(st, e, q)) == []
  {
    hide PopNal;
    var call := CallBy(st, e, q);
    assert call != [] ==> call[1..] == [] && call[0] == Pop;
  }

  lemma {:induction false} KeptAppend(u: seq<AccessUnit>, v: seq<AccessUnit>, a: seq<bool>, b: seq<bool>)
    requires |u| == |a| && |v| == |b|
    ensures Kept(u + v, a + b) == Kept(u, a) + Kept(v, b)
  {
    if u == [] {
      assert u + v == v && a + b == b;
    } else {
      assert (u + v)[1..] == u[1..] + v && (a + b)[1..] == a[1..] + b;
      KeptAppend(u[1..], v, a[1..], b);
    }
  }

  lemma {:induction false} PushesAppend(a: seq<Event>, b: seq<Event>)
    ensures PushesOf(a + b) == PushesOf(a) + PushesOf(b)
  {
    if a == [] {
      assert a + b == b;
    } else {
      assert (a + b)[1..] == a[1..] + b;
      PushesAppend(a[1..], b);
    }
  }

  lemma {:induction false} RunPushesInOrder(
      st: W.State, events: seq<W.Event>, last: W.State,
      p: W.ThreadId, q: W.QueueId)
    requires W.Run(st, events, last) && OnlyFeeder(st, p, q) && FedBy(events, p, q)
    ensures |Listening(st, events, q)| == |Entered(events, q)|
    ensures InHand(st, p, q) + Kept(Entered(events, q), Listening(st, events, q)) ==
      PushesOf(Calls(st, events, q)) + InHand(last, p, q)
    decreases |events|
  {
    hide W.Next, CallBy, InHand, OnlyFeeder, EnteredBy, ListeningAt, Kept, PushesOf;
    if events == [] {
      NothingYet();
    } else {
      var e, st' := events[0], W.Next(st, events[0]).value;
      StepPushes(st, e, p, q);
      RunPushesInOrder(st', events[1..], last, p, q);
      var units, more := EnteredBy(e, q), Entered(events[1..], q);
      var heard, later := ListeningAt(st, e, q), Listening(st', events[1..], q);
      KeptAppend(units, more, heard, later);
      PushesAppend(CallBy(st, e, q), Calls(st', events[1..], q));
      Regroup(InHand(st, p, q), Kept(units, heard), Kept(more, later), PushesOf(CallBy(st, e, q)),
        InHand(st', p, q), PushesOf(Calls(st', events[1..], q)), InHand(last, p, q));
    }
  }

  lemma KeptOne(u: AccessUnit, listened: bool)
    ensures Kept([u], [listened]) == if listened && u != [] then [u] else []
  {}

  lemma NothingYet()
    ensures Kept([], []) == [] && PushesOf([]) == []
  {}

  lemma Regroup<T>(a: seq<T>, b: seq<T>, c: seq<T>, d: seq<T>, e: seq<T>, f: seq<T>, g: seq<T>)
    requires a + b == d + e && e + c == f + g
    ensures a + (b + c) == (d + f) + g
  {
    assert a + (b + c) == (a + b) + c;
    assert (d + e) + c == d + (e + c);
  }

  /**
    When one thread feeds a queue, the units pushed are those it entered with, in order, that were
    not empty and that somebody listened to; the newest may still be in its hands.
  */
  lemma PushesAreThoseEntered(first: W.State, events: seq<W.Event>, last: W.State, p: W.ThreadId, q: W.QueueId)
    requires W.Initial(first) && W.Run(first, events, last) && FedBy(events, p, q)
    ensures |Listening(first, events, q)| == |Entered(events, q)|
    ensures Kept(Entered(events, q), Listening(first, events, q)) ==
      PushesOf(Calls(first, events, q)) + InHand(last, p, q)
  {
    hide W.Run, Kept, FedBy, PushesOf, Calls, Entered, Listening;
    RunPushesInOrder(first, events, last, p, q);
    var kept := Kept(Entered(events, q), Listening(first, events, q));
    assert InHand(first, p, q) == [] && [] + kept == kept;
  }
}
