/**
  From the clock to the network: frames are stamped, fanned out, cut into NALs, queued and
  delivered. The parts are composed here, over every interleaving of their threads.
*/
module EndToEnd {
  import opened Common
  import opened Sequences
  import opened Frames
  import opened AnnexB
  import opened AnnexBLaws
  import opened AccessUnits
  import opened Presentation
  import opened NalPipeline
  import D = Distributor
  import W = WakeUp
  import Q = QueueTraces

  /** Frames created in this order: each carries the timestamp issued for its place among all frames. */
  ghost predicate CreatedInOrder(frames: seq<Frame>, readings: seq<nat>, at: seq<nat>) {
    && |at| == |frames|
    && (forall i, j :: 0 <= i < j < |at| ==> at[i] < at[j])
    && (forall i :: 0 <= i < |at| ==> at[i] < |readings| && frames[i].timestamp == Issue(0, readings)[at[i]])
  }

  ghost predicate TimesAscend(frames: seq<Frame>) {
    forall i, j :: 0 <= i < j < |frames| ==> frames[i].timestamp < frames[j].timestamp
  }

  lemma CreationOrderIsTimeOrder(frames: seq<Frame>, readings: seq<nat>, at: seq<nat>)
    requires CreatedInOrder(frames, readings, at)
    ensures TimesAscend(frames)
  {
    IssueRepairs(0, readings);
  }

  lemma PickedInTimeOrder(pushed: seq<Frame>, lo: nat, hi: nat, seen: seq<Frame>, at: seq<nat>)
    requires TimesAscend(pushed) && lo <= hi <= |pushed| && |seen| == |at|
    requires forall j, k :: 0 <= j < k < |at| ==> at[j] < at[k]
    requires forall k :: 0 <= k < |at| ==> at[k] < hi - lo && seen[k] == pushed[lo..hi][at[k]]
    ensures TimesAscend(seen)
  {}

  /** A consumer sees frames in time order, whatever the distributor dropped. */
  lemma SeenInTimeOrder(first: D.State<Frame>, events: seq<D.Event<Frame>>, last: D.State<Frame>, id: D.ConsumerId)
    requires D.Initial(first) && D.Run(first, events, last) && id in last.slots
    requires TimesAscend(last.pushed)
    ensures TimesAscend(last.slots[id].seen)
  {
    hide D.Run, D.TakenAt, TimesAscend;
    D.OrderAndSlack(first, events, last, id);
    D.FanOutIsComplete(first, events, last, id);
    var s := last.slots[id];
    var end := D.End(s, |last.pushed|);
    PickedInTimeOrder(last.pushed, s.first, if D.Pending(last, id) then end - 1 else end,
      s.seen, D.TakenAt(s.removals));
  }

  /** The access unit of each frame. */
  function UnitsOf(frames: seq<Frame>, codec: CodecType): (us: seq<AccessUnit>)
    ensures |us| == |frames|
    ensures forall i :: 0 <= i < |frames| ==> us[i] == UnitOf(FrameNals(frames[i], codec))
  {
    seq(|frames|, i requires 0 <= i < |frames| => UnitOf(FrameNals(frames[i], codec)))
  }

  /** Those that are queued; nothing is while nobody listens. */
  function Units(frames: seq<Frame>, listening: seq<bool>, codec: CodecType): seq<AccessUnit>
    requires |listening| == |frames|
  {
    Q.Kept(UnitsOf(frames, codec), listening)
  }

  lemma NoUnits(listening: seq<bool>, codec: CodecType)
    requires listening == []
    ensures Units([], listening, codec) == []
  {}

  lemma UnitsGrow(frames: seq<Frame>, listening: seq<bool>, codec: CodecType)
    requires |listening| == |frames| > 0
    ensures var n := |frames| - 1;
      var before, unit := Units(frames[..n], listening[..n], codec), UnitOf(FrameNals(frames[n], codec));
      Units(frames, listening, codec) == if listening[n] && unit != [] then before + [unit] else before
  {
    var n := |frames| - 1;
    var us := UnitsOf(frames, codec);
    assert us == UnitsOf(frames[..n], codec) + [us[n]] && listening == listening[..n] + [listening[n]];
    Q.KeptAppend(UnitsOf(frames[..n], codec), [us[n]], listening[..n], [listening[n]]);
    Q.KeptOne(us[n], listening[n]);
  }

  lemma {:induction false} UnitsAreStamped(seen: seq<Frame>, listening: seq<bool>, codec: CodecType)
    requires |listening| == |seen| && TimesAscend(seen)
    ensures var us := Units(seen, listening, codec);
      && Stamped(us)
      && forall i :: 0 <= i < |us| ==> seen != [] && us[i] != [] && us[i][0].timestamp <= Last(seen).timestamp
  {
    hide Units, UnitOf, FrameNals;
    if seen == [] {
      NoUnits(listening, codec);
    } else {
      var n := |seen| - 1;
      UnitsAreStamped(seen[..n], listening[..n], codec);
      UnitIsStamped(seen[n], codec);
      UnitsGrow(seen, listening, codec);
      assert n > 0 ==> Last(seen[..n]).timestamp < seen[n].timestamp;
      var before, unit := Units(seen[..n], listening[..n], codec), UnitOf(FrameNals(seen[n], codec));
      if unit != [] {
        StampedExtend(before, unit, seen[n].timestamp);
      }
      hide Stamped;
    }
  }

  lemma StampedExtend(before: seq<AccessUnit>, unit: AccessUnit, time: nat)
    requires Stamped(before) && unit != [] && forall n :: n in unit ==> n.timestamp == time
    requires forall i :: 0 <= i < |before| ==> before[i] != [] && before[i][0].timestamp < time
    ensures Stamped(before + [unit])
  {}

  lemma UnitIsStamped(f: Frame, codec: CodecType)
    ensures forall n :: n in UnitOf(FrameNals(f, codec)) ==> n.timestamp == f.timestamp
  {}

  /** Presentation times over any run of the queue that pushes the units of these frames, or the first of them. */
  lemma TraceFollowsTheClock(
      frames: seq<Frame>, listening: seq<bool>, codec: CodecType,
      max: nat, queueEvents: seq<Event>)
    requires TimesAscend(frames) && |listening| == |frames|
    requires max > 0 && PushesOf(queueEvents) <= Units(frames, listening, codec)
    ensures FollowsTheClock(Run(Start, max, queueEvents))
  {
    hide Units, Run, Owners, TimesAscend;
    UnitsAreStamped(frames, listening, codec);
    StampedPrefix(PushesOf(queueEvents), Units(frames, listening, codec));
    hide Stamped;
    OwnersCount(max, queueEvents);
    var t := Run(Start, max, queueEvents);
    forall j, k | 0 <= j < k < |t.popped|
      ensures DeliveredAt(t, j) <= DeliveredAt(t, k)
      ensures DeliveredAt(t, j) == DeliveredAt(t, k) <==> Owners(t.taken)[j] == Owners(t.taken)[k]
    {
      PresentationNeverGoesBack(max, queueEvents, j, k);
    }
  }

  lemma StampedPrefix(some: seq<AccessUnit>, all: seq<AccessUnit>)
    requires Stamped(all) && some <= all
    ensures Stamped(some)
  {
    assert forall i :: 0 <= i < |some| ==> some[i] == all[i];
  }

  function DeliveredAt(t: Trace, k: nat): nat
    requires k < |t.popped|
  {
    Micros(PresentationTime(t.popped[k].timestamp))
  }

  /** Presentation times never go back, and two NALs have the same one exactly when they share a unit. */
  ghost predicate FollowsTheClock(t: Trace) {
    && |Owners(t.taken)| == |t.popped|
    && forall j, k :: 0 <= j < k < |t.popped| ==>
        && DeliveredAt(t, j) <= DeliveredAt(t, k)
        && (DeliveredAt(t, j) == DeliveredAt(t, k) <==> Owners(t.taken)[j] == Owners(t.taken)[k])
  }

  lemma OwnersCount(max: nat, queueEvents: seq<Event>)
    requires max > 0
    ensures var t := Run(Start, max, queueEvents); |Owners(t.taken)| == |t.popped|
  {
    TraceLaw(Start, max, queueEvents);
    var t := Run(Start, max, queueEvents);
    OwnersMatch(t.pushed, t.taken);
  }

  /** Thread p hands these frames to the server, for queue q, which nobody else feeds. */
  ghost predicate Serves(steps: seq<W.Event>, p: W.ThreadId, q: W.QueueId, frames: seq<Frame>, codec: CodecType) {
    Q.FedBy(steps, p, q) && Q.Entered(steps, q) == UnitsOf(frames, codec)
  }

  /** What is pushed then are the units of the frames somebody listened to, the newest perhaps not yet. */
  lemma PushesAreUnits(
      start: W.State, steps: seq<W.Event>, end: W.State, p: W.ThreadId, q: W.QueueId,
      frames: seq<Frame>, codec: CodecType)
    requires W.Initial(start) && W.Run(start, steps, end) && Serves(steps, p, q, frames, codec)
    ensures |Q.Listening(start, steps, q)| == |frames|
    ensures Units(frames, Q.Listening(start, steps, q), codec) ==
      PushesOf(Q.Calls(start, steps, q)) + Q.InHand(end, p, q)
  {
    hide W.Run, Q.FedBy, Q.Kept, Q.Calls, Q.InHand, Q.Listening, PushesOf;
    Q.PushesAreThoseEntered(start, steps, end, p, q);
  }

  /**
    End to end: for any behaviour of the clock, of the other consumers and of the readers, and any
    interleaving of the threads of the distributor and of the RTSP server, the presentation times
    handed out for a stream never go back, and two NALs have the same one exactly when they belong
    to the same frame. The worker of slot `id` hands the frames it sees to the server as thread p.
  */
  lemma DeliveryFollowsTheClock(
      readings: seq<nat>, at: seq<nat>,
      first: D.State<Frame>, events: seq<D.Event<Frame>>, last: D.State<Frame>, id: D.ConsumerId,
      start: W.State, steps: seq<W.Event>, end: W.State, p: W.ThreadId, q: W.QueueId,
      frames: seq<Frame>, codec: CodecType)
    requires D.Initial(first) && D.Run(first, events, last) && id in last.slots
    requires CreatedInOrder(last.pushed, readings, at)
    requires W.Initial(start) && W.Run(start, steps, end) && q in start.queues && start.queues[q] == []
    requires frames <= last.slots[id].seen && Serves(steps, p, q, frames, codec)
    ensures var t := Run(Start, start.max, Q.Calls(start, steps, q));
      t.popped == Q.Handed(start, steps, q) && FollowsTheClock(t)
  {
    hide D.Run, W.Run, Units, Run, Q.Calls, Q.Handed, Q.Listening, Q.InHand, Inv, Serves, CreatedInOrder, PushesOf;
    CreationOrderIsTimeOrder(last.pushed, readings, at);
    SeenInTimeOrder(first, events, last, id);
    assert TimesAscend(frames) by {
      assert forall i :: 0 <= i < |frames| ==> frames[i] == last.slots[id].seen[i];
    }
    hide TimesAscend, FollowsTheClock;
    Q.EveryQueueIsATrace(start, steps, end, q);
    PushesAreUnits(start, steps, end, p, q, frames, codec);
    TraceFollowsTheClock(frames, Q.Listening(start, steps, q), codec, start.max, Q.Calls(start, steps, q));
  }

  // ---------- What the delivered NALs contain ----------

  ghost predicate Bare(u: AccessUnit) {
    forall n :: n in u ==> Payload(n.data)
  }

  lemma {:induction false} PacksAreBare(packs: seq<Pack>, codec: CodecType, timestamp: nat)
    ensures forall n :: n in NalsOfPacks(packs, codec, timestamp) ==> Payload(n.data)
  {
    hide Payload, Split;
    if packs != [] {
      var p := Last(packs);
      PacksAreBare(packs[..|packs| - 1], codec, timestamp);
      if p.data.Some? {
        SplitGivesPayloads(p.data.value);
      }
    }
  }

  lemma {:induction false} UnitsAreBare(seen: seq<Frame>, listening: seq<bool>, codec: CodecType)
    requires |listening| == |seen|
    ensures forall i :: 0 <= i < |Units(seen, listening, codec)| ==> Bare(Units(seen, listening, codec)[i])
  {
    hide Units, UnitOf, FrameNals, Bare;
    if seen == [] {
      NoUnits(listening, codec);
    } else {
      var n := |seen| - 1;
      UnitsAreBare(seen[..n], listening[..n], codec);
      FrameIsBare(seen[n], codec);
      UnitsGrow(seen, listening, codec);
    }
  }

  lemma FrameIsBare(f: Frame, codec: CodecType)
    ensures Bare(UnitOf(FrameNals(f, codec)))
  {
    hide UnitOf, Payload, NalsOfPacks, Bare;
    PacksAreBare(f.packs, codec, f.timestamp);
    UnitIsBare(FrameNals(f, codec));
  }

  lemma UnitIsBare(ns: seq<ParsedNal>)
    requires forall n :: n in ns ==> Payload(n.data)
    ensures Bare(UnitOf(ns))
  {}

  lemma TraceIsBare(
      frames: seq<Frame>, listening: seq<bool>, codec: CodecType,
      max: nat, queueEvents: seq<Event>, k: nat)
    requires |listening| == |frames|
    requires max > 0 && PushesOf(queueEvents) <= Units(frames, listening, codec)
    requires k < |Run(Start, max, queueEvents).popped|
    ensures Payload(Run(Start, max, queueEvents).popped[k].data)
  {
    UnitsAreBare(frames, listening, codec);
    TraceLaw(Start, max, queueEvents);
    RunPushes(Start, max, queueEvents);
    var t := Run(Start, max, queueEvents);
    assert t.pushed == PushesOf(queueEvents);
    OwnersMatch(t.pushed, t.taken);
    hide Units, Run, Payload, Delivered;
    assert Bare(t.pushed[Owners(t.taken)[k]]);
  }

  /** Every NAL handed to a reader is a non-empty bare payload, without a start code in it. */
  lemma DeliveredNalsAreBare(
      start: W.State, steps: seq<W.Event>, end: W.State, p: W.ThreadId, q: W.QueueId,
      frames: seq<Frame>, codec: CodecType, k: nat)
    requires W.Initial(start) && W.Run(start, steps, end) && q in start.queues && start.queues[q] == []
    requires Serves(steps, p, q, frames, codec) && k < |Q.Handed(start, steps, q)|
    ensures Payload(Q.Handed(start, steps, q)[k].data)
  {
    hide W.Run, Units, Run, Q.Calls, Q.Handed, Q.Listening, Q.InHand, Inv, Serves, PushesOf, Payload;
    Q.EveryQueueIsATrace(start, steps, end, q);
    PushesAreUnits(start, steps, end, p, q, frames, codec);
    TraceIsBare(frames, Q.Listening(start, steps, q), codec, start.max, Q.Calls(start, steps, q), k);
  }
}
