/**
  The bounded queue of access units between the frame producer and the RTSP sources:
  whole units go in, single NAL units come out, and the oldest unit is dropped on overflow.
*/
module AccessUnits {
  import opened Common
  import opened Sequences

  datatype NalUnit = NalUnit(data: seq<byte>, timestamp: nat, isIdr: bool)

  type AccessUnit = seq<NalUnit>

  // ---------- What one call does ----------

  /** Units are dropped from the front until there is room for one more. */
  function PushUnit(q: seq<AccessUnit>, max: nat, u: AccessUnit): (r: seq<AccessUnit>)
    requires max > 0
    ensures |q| <= max ==> |r| <= max
    ensures u == [] ==> r == q
    ensures u != [] ==> r != [] && Last(r) == u && IsSuffix(r[..|r| - 1], q)
    ensures u != [] && |q| < max ==> |r| == |q| + 1
    ensures u != [] && |q| >= max ==> |r| == max
  {
    if u == [] then q
    else if |q| < max then q + [u]
    else q[|q| - max + 1..] + [u]
  }

  /** The first NAL of the first unit that has one, and the queue behind it. */
  function PopNal(q: seq<AccessUnit>): (r: (Option<NalUnit>, seq<AccessUnit>))
    ensures r.0.None? <==> Flatten(q) == []
    ensures r.0.None? ==> r.1 == []
    ensures r.0.Some? ==> Flatten(q) == [r.0.value] + Flatten(r.1)
    ensures |r.1| <= |q|
  {
    if q == [] then (None, [])
    else if q[0] == [] then PopNal(q[1..])
    else if |q[0]| == 1 then (Some(q[0][0]), q[1..])
    else (Some(q[0][0]), [q[0][1..]] + q[1..])
  }

  // ---------- Whole runs ----------

  datatype Event = Push(u: AccessUnit) | Pop | Clear

  /** How a unit left the queue: `displacer` is the index of the pushed unit that displaced it. */
  datatype Fate = Queued | Finished | Overflowed(displacer: nat) | Cleared

  /** The queue with its history: units pushed, NALs taken of each, its fate, NALs delivered. */
  datatype Trace = Trace(
    queue: seq<AccessUnit>,
    pushed: seq<AccessUnit>,
    taken: seq<nat>,
    fate: seq<Fate>,
    popped: seq<NalUnit>)

  const Start := Trace([], [], [], [], [])

  function Mark(fate: seq<Fate>, lo: nat, hi: nat, f: Fate): (r: seq<Fate>)
    ensures |r| == |fate|
  {
    seq(|fate|, i requires 0 <= i < |fate| => if lo <= i < hi then f else fate[i])
  }

  function Head(t: Trace): int {
    |t.pushed| - |t.queue|
  }

  function Step(t: Trace, max: nat, e: Event): Trace
    requires max > 0
  {
    match e
    case Push(u) =>
      if u == [] then t else
      var q := PushUnit(t.queue, max, u);
      var lost := |t.queue| + 1 - |q|;
      Trace(q, t.pushed + [u], t.taken + [0],
        (if 0 <= Head(t) && 0 <= lost then Mark(t.fate, Head(t), Head(t) + lost, Overflowed(|t.pushed|))
         else t.fate) + [Queued],
        t.popped)
    case Pop =>
      var (n, q) := PopNal(t.queue);
      if n.None? then t.(queue := q) else
      var h := Head(t);
      t.(queue := q,
        taken := if 0 <= h < |t.taken| then t.taken[h := t.taken[h] + 1] else t.taken,
        fate := if 0 <= h && |q| < |t.queue| then Mark(t.fate, h, h + 1, Finished) else t.fate,
        popped := t.popped + [n.value])
    case Clear =>
      t.(queue := [], fate := if 0 <= Head(t) then Mark(t.fate, Head(t), |t.pushed|, Cleared) else t.fate)
  }

  function Run(t: Trace, max: nat, events: seq<Event>): Trace
    requires max > 0
    decreases |events|
  {
    if events == [] then t else Run(Step(t, max, events[0]), max, events[1..])
  }

  /** The NALs delivered, unit by unit: a prefix of each. */
  function Delivered(pushed: seq<AccessUnit>, taken: seq<nat>): seq<NalUnit>
    requires |pushed| == |taken|
    requires forall i :: 0 <= i < |pushed| ==> taken[i] <= |pushed[i]|
  {
    if pushed == [] then []
    else Delivered(pushed[..|pushed| - 1], taken[..|taken| - 1]) + Last(pushed)[..Last(taken)]
  }

  ghost predicate Shape(t: Trace) {
    && |t.pushed| == |t.taken| == |t.fate|
    && |t.queue| <= |t.pushed|
    && (forall i :: 0 <= i < |t.pushed| ==> t.pushed[i] != [] && t.taken[i] <= |t.pushed[i]|)
  }

  /** A queued unit is what is left of the pushed one; only the head may be trimmed. */
  ghost predicate WaitsInPlace(t: Trace, i: nat)
    requires Shape(t) && Head(t) <= i < |t.pushed|
  {
    && t.taken[i] < |t.pushed[i]|
    && t.queue[i - Head(t)] == t.pushed[i][t.taken[i]..]
    && (Head(t) < i ==> t.taken[i] == 0)
  }

  /** A unit still waits, was delivered whole, was cleared, or made way for the max-th unit behind it. */
  ghost predicate FateIsExact(t: Trace, max: nat, i: nat)
    requires Shape(t) && i < |t.pushed|
  {
    && (t.fate[i].Queued? <==> Head(t) <= i)
    && (t.fate[i].Finished? <==> t.taken[i] == |t.pushed[i]|)
    && (t.fate[i].Overflowed? ==> t.fate[i].displacer == i + max < |t.pushed|)
  }

  ghost predicate Inv(t: Trace, max: nat) {
    && Shape(t)
    && |t.queue| <= max
    && (forall i :: Head(t) <= i < |t.pushed| ==> WaitsInPlace(t, i))
    && (forall i :: 0 <= i < |t.pushed| ==> FateIsExact(t, max, i))
    && t.popped == Delivered(t.pushed, t.taken)
  }

  lemma {:induction false} DeliveredTakesOne(pushed: seq<AccessUnit>, taken: seq<nat>, h: nat)
    requires |pushed| == |taken| && h < |pushed|
    requires forall i :: 0 <= i < |pushed| ==> taken[i] <= |pushed[i]|
    requires taken[h] < |pushed[h]|
    requires forall i :: h < i < |pushed| ==> taken[i] == 0
    ensures Delivered(pushed, taken[h := taken[h] + 1]) == Delivered(pushed, taken) + [pushed[h][taken[h]]]
  {
    var n := |pushed| - 1;
    var taken' := taken[h := taken[h] + 1];
    if h == n {
      assert taken'[..n] == taken[..n];
      assert Last(pushed)[..taken[h] + 1] == Last(pushed)[..taken[h]] + [pushed[h][taken[h]]];
    } else {
      DeliveredTakesOne(pushed[..n], taken[..n], h);
      assert taken'[..n] == taken[..n][h := taken[h] + 1];
    }
  }

  lemma DeliveredGrows(pushed: seq<AccessUnit>, taken: seq<nat>, u: AccessUnit)
    requires |pushed| == |taken|
    requires forall i :: 0 <= i < |pushed| ==> taken[i] <= |pushed[i]|
    ensures Delivered(pushed + [u], taken + [0]) == Delivered(pushed, taken)
  {}

  /** The effect of a push, field by field: at most the oldest unit makes way. */
  ghost predicate MadeRoom(t: Trace, t': Trace, max: nat, u: AccessUnit)
    requires Shape(t)
  {
    var n := |t.pushed|;
    && t'.pushed == t.pushed + [u]
    && t'.taken == t.taken + [0]
    && t'.popped == t.popped
    && |t'.fate| == n + 1 && t'.fate[n] == Queued
    && if |t.queue| < max
       then t'.queue == t.queue + [u] && t'.fate[..n] == t.fate
       else t.queue != [] && t'.queue == t.queue[1..] + [u] && t'.fate[..n] == t.fate[Head(t) := Overflowed(n)]
  }

  lemma PushMakesRoom(t: Trace, max: nat, u: AccessUnit)
    requires max > 0 && Shape(t) && |t.queue| <= max && u != []
    ensures MadeRoom(t, Step(t, max, Push(u)), max, u)
  {}

  lemma MadeRoomKeepsUnits(t: Trace, t': Trace, max: nat, u: AccessUnit)
    requires max > 0 && Inv(t, max) && u != [] && MadeRoom(t, t', max, u) && Shape(t')
    ensures forall i :: Head(t') <= i < |t'.pushed| ==> WaitsInPlace(t', i)
    ensures forall i :: 0 <= i < |t'.pushed| ==> FateIsExact(t', max, i)
  {
    forall i | Head(t') <= i < |t'.pushed|
      ensures WaitsInPlace(t', i)
    {
      if i < |t.pushed| {
        assert WaitsInPlace(t, i);
      }
    }
    forall i | 0 <= i < |t'.pushed|
      ensures FateIsExact(t', max, i)
    {
      if i < |t.pushed| {
        assert FateIsExact(t, max, i) && t'.fate[i] == t'.fate[..|t.pushed|][i];
        assert i == Head(t) ==> t.queue == [] || WaitsInPlace(t, i);
      }
    }
  }

  lemma PushKeepsInv(t: Trace, max: nat, u: AccessUnit)
    requires max > 0 && Inv(t, max) && u != []
    ensures Inv(Step(t, max, Push(u)), max)
  {
    var t' := Step(t, max, Push(u));
    PushMakesRoom(t, max, u);
    DeliveredGrows(t.pushed, t.taken, u);
    assert Shape(t');
    MadeRoomKeepsUnits(t, t', max, u);
  }

  /** The effect of a pop on a non-empty queue, field by field. */
  ghost predicate TookOne(t: Trace, t': Trace)
    requires Shape(t) && t.queue != [] && t.queue[0] != []
  {
    var h := Head(t);
    && t'.pushed == t.pushed
    && t'.taken == t.taken[h := t.taken[h] + 1]
    && t'.popped == t.popped + [t.queue[0][0]]
    && |t'.fate| == |t.fate|
    && (forall i :: 0 <= i < |t.fate| && i != h ==> t'.fate[i] == t.fate[i])
    && if |t.queue[0]| == 1
       then t'.queue == t.queue[1..] && t'.fate[h] == Finished
       else t'.queue == [t.queue[0][1..]] + t.queue[1..] && t'.fate[h] == t.fate[h]
  }

  lemma TookOneKeepsWaiting(t: Trace, t': Trace, max: nat)
    requires Inv(t, max) && t.queue != [] && t.queue[0] != [] && TookOne(t, t')
    ensures Shape(t')
    ensures forall i :: Head(t') <= i < |t.pushed| ==> WaitsInPlace(t', i)
  {
    assert WaitsInPlace(t, Head(t));
    assert Shape(t');
    forall i | Head(t') <= i < |t.pushed|
      ensures WaitsInPlace(t', i)
    {
      assert WaitsInPlace(t, i);
    }
  }

  lemma TookOneKeepsFates(t: Trace, t': Trace, max: nat)
    requires Inv(t, max) && t.queue != [] && t.queue[0] != [] && TookOne(t, t') && Shape(t')
    ensures forall i :: 0 <= i < |t.pushed| ==> FateIsExact(t', max, i)
  {
    assert WaitsInPlace(t, Head(t));
    forall i | 0 <= i < |t.pushed|
      ensures FateIsExact(t', max, i)
    {
      assert FateIsExact(t, max, i);
    }
  }

  lemma TookOneDelivers(t: Trace, max: nat)
    requires Inv(t, max) && t.queue != []
    ensures t.queue[0] != [] && t.taken[Head(t)] < |t.pushed[Head(t)]|
    ensures Delivered(t.pushed, t.taken[Head(t) := t.taken[Head(t)] + 1]) == t.popped + [t.queue[0][0]]
  {
    var h := Head(t);
    assert WaitsInPlace(t, h);
    forall i | h < i < |t.pushed|
      ensures t.taken[i] == 0
    {
      assert WaitsInPlace(t, i);
    }
    DeliveredTakesOne(t.pushed, t.taken, h);
  }

  lemma PopTakesOne(t: Trace, max: nat)
    requires max > 0 && Shape(t) && t.queue != [] && t.queue[0] != []
    ensures TookOne(t, Step(t, max, Pop))
  {}

  lemma PopKeepsInv(t: Trace, max: nat)
    requires max > 0 && Inv(t, max)
    ensures Inv(Step(t, max, Pop), max)
  {
    if t.queue != [] {
      TookOneDelivers(t, max);
      var t' := Step(t, max, Pop);
      PopTakesOne(t, max);
      TookOneKeepsWaiting(t, t', max);
      TookOneKeepsFates(t, t', max);
    }
  }

  lemma ClearKeepsInv(t: Trace, max: nat)
    requires max > 0 && Inv(t, max)
    ensures Inv(Step(t, max, Clear), max)
  {
    var t' := Step(t, max, Clear);
    assert Shape(t');
    forall i | 0 <= i < |t.pushed|
      ensures FateIsExact(t', max, i)
    {
      assert FateIsExact(t, max, i);
      assert Head(t) <= i ==> WaitsInPlace(t, i);
    }
  }

  lemma StepKeepsInv(t: Trace, max: nat, e: Event)
    requires max > 0 && Inv(t, max)
    ensures Inv(Step(t, max, e), max)
  {
    match e
    case Push(u) => if u != [] { PushKeepsInv(t, max, u); }
    case Pop => PopKeepsInv(t, max);
    case Clear => ClearKeepsInv(t, max);
  }

  /** The trace law, over every run from the empty queue. */
  lemma {:induction false} TraceLaw(t: Trace, max: nat, events: seq<Event>)
    requires max > 0 && Inv(t, max)
    ensures Inv(Run(t, max, events), max)
    decreases |events|
  {
    if events != [] {
      StepKeepsInv(t, max, events[0]);
      TraceLaw(Step(t, max, events[0]), max, events[1..]);
    }
  }

  // ---------- Consequences ----------

  /** A pop hands over the first NAL of the whole queue whenever there is one. */
  lemma PopHandsOver(t: Trace, max: nat)
    requires Inv(t, max) && max > 0
    ensures var t' := Step(t, max, Pop);
      && t'.pushed == t.pushed
      && (t.queue == [] ==> t'.popped == t.popped && t'.queue == [])
      && (t.queue != [] ==>
            && t.queue[0] != [] && t'.popped == t.popped + [t.queue[0][0]]
            && t'.queue == (if |t.queue[0]| == 1 then t.queue[1..] else [t.queue[0][1..]] + t.queue[1..]))
  {
    hide Mark;
    if t.queue != [] {
      assert WaitsInPlace(t, Head(t));
    }
  }

  /** Clearing takes exactly the units that were queued, and marks them. */
  lemma ClearTakesTheQueued(t: Trace, max: nat)
    requires Inv(t, max) && max > 0
    ensures var t' := Step(t, max, Clear);
      && t'.queue == [] && t'.pushed == t.pushed && t'.popped == t.popped && |t'.fate| == |t.fate|
      && forall i :: 0 <= i < |t.fate| ==> t'.fate[i] == if t.fate[i].Queued? then Cleared else t.fate[i]
  {
    var t' := Step(t, max, Clear);
    forall i | 0 <= i < |t.fate|
      ensures t'.fate[i] == if t.fate[i].Queued? then Cleared else t.fate[i]
    {
      assert FateIsExact(t, max, i);
    }
  }

  function PushesOf(events: seq<Event>): seq<AccessUnit> {
    if events == [] then []
    else (if events[0].Push? && events[0].u != [] then [events[0].u] else []) + PushesOf(events[1..])
  }

  lemma StepPushes(t: Trace, max: nat, e: Event)
    requires max > 0
    ensures Step(t, max, e).pushed == t.pushed + if e.Push? && e.u != [] then [e.u] else []
  {
    hide Mark, PushUnit, PopNal;
  }

  lemma {:induction false} RunPushes(t: Trace, max: nat, events: seq<Event>)
    requires max > 0
    ensures Run(t, max, events).pushed == t.pushed + PushesOf(events)
    decreases |events|
  {
    hide Step;
    if events != [] {
      StepPushes(t, max, events[0]);
      RunPushes(Step(t, max, events[0]), max, events[1..]);
    }
  }

  /**
    Without Clear, a unit is delivered whole, is still queued, or was displaced by exactly
    the max-th unit pushed behind it: a consumer that keeps up loses nothing.
  */
  lemma NothingIsLostEarly(max: nat, events: seq<Event>, i: nat)
    requires max > 0 && Clear !in events && i < |PushesOf(events)|
    ensures var t := Run(Start, max, events);
      && t.pushed == PushesOf(events) && Shape(t)
      && (t.taken[i] == |t.pushed[i]| || Head(t) <= i || i + max < |t.pushed|)
  {
    TraceLaw(Start, max, events);
    RunPushes(Start, max, events);
    NeverCleared(Start, max, events);
    OutcomeOf(Run(Start, max, events), max, i);
  }

  lemma OutcomeOf(t: Trace, max: nat, i: nat)
    requires Inv(t, max) && Cleared !in t.fate && i < |t.pushed|
    ensures t.taken[i] == |t.pushed[i]| || Head(t) <= i || i + max < |t.pushed|
  {
    assert FateIsExact(t, max, i);
    assert t.fate[i] in t.fate;
  }

  lemma {:induction false} NeverCleared(t: Trace, max: nat, events: seq<Event>)
    requires max > 0 && Clear !in events && Cleared !in t.fate
    ensures Cleared !in Run(t, max, events).fate
    decreases |events|
  {
    if events != [] {
      assert events[0] in events;
      NeverCleared(Step(t, max, events[0]), max, events[1..]);
    }
  }
}
