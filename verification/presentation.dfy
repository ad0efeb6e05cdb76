/** Presentation times of the NAL units a source delivers. */
module Presentation {
  import opened Sequences
  import opened AccessUnits

  /** A timeval: seconds and microseconds. */
  datatype Time = Time(sec: nat, usec: nat)

  function PresentationTime(timestampMs: nat): (t: Time)
    ensures t.sec * 1_000_000 + t.usec == 1000 * timestampMs && t.usec < 1_000_000
    ensures Micros(t) == 1000 * timestampMs
  {
    Time(timestampMs / 1000, timestampMs % 1000 * 1000)
  }

  function Micros(t: Time): nat {
    t.sec * 1_000_000 + t.usec
  }

  /** All NALs of a unit carry its timestamp, and later units carry later ones. */
  ghost predicate Stamped(units: seq<AccessUnit>) {
    && (forall i :: 0 <= i < |units| ==> units[i] != [])
    && (forall i, n :: 0 <= i < |units| && n in units[i] ==> n.timestamp == units[i][0].timestamp)
    && (forall i, j :: 0 <= i < j < |units| ==> units[i][0].timestamp < units[j][0].timestamp)
  }

  /** The unit each delivered NAL came from. */
  function Owners(taken: seq<nat>): seq<nat> {
    if taken == [] then [] else Owners(taken[..|taken| - 1]) + seq(Last(taken), _ => |taken| - 1)
  }

  lemma {:induction false} OwnersMatch(pushed: seq<AccessUnit>, taken: seq<nat>)
    requires |pushed| == |taken|
    requires forall i :: 0 <= i < |pushed| ==> taken[i] <= |pushed[i]|
    ensures |Owners(taken)| == |Delivered(pushed, taken)|
    ensures forall k :: 0 <= k < |Owners(taken)| ==>
      Owners(taken)[k] < |pushed| && Delivered(pushed, taken)[k] in pushed[Owners(taken)[k]]
    ensures forall j, k :: 0 <= j < k < |Owners(taken)| ==> Owners(taken)[j] <= Owners(taken)[k]
  {
    if pushed != [] {
      var n := |pushed| - 1;
      OwnersMatch(pushed[..n], taken[..n]);
      var before := |Owners(taken[..n])|;
      forall k | 0 <= k < |Owners(taken)|
        ensures Owners(taken)[k] < |pushed| && Delivered(pushed, taken)[k] in pushed[Owners(taken)[k]]
      {
        if k < before {
          assert Delivered(pushed, taken)[k] == Delivered(pushed[..n], taken[..n])[k];
          assert pushed[..n][Owners(taken)[k]] == pushed[Owners(taken)[k]];
        } else {
          assert Delivered(pushed, taken)[k] == pushed[n][k - before];
        }
      }
    }
  }

  /**
    Over every run of the queue, delivered presentation times never go back: they are equal
    within an access unit and strictly larger from one unit to the next.
  */
  lemma PresentationNeverGoesBack(max: nat, events: seq<Event>, j: nat, k: nat)
    requires max > 0 && Stamped(PushesOf(events))
    requires j < k < |Run(Start, max, events).popped|
    ensures var t := Run(Start, max, events);
      var a, b := Micros(PresentationTime(t.popped[j].timestamp)), Micros(PresentationTime(t.popped[k].timestamp));
      && |Owners(t.taken)| == |t.popped|
      && a <= b && (a == b <==> Owners(t.taken)[j] == Owners(t.taken)[k])
  {
    TraceLaw(Start, max, events);
    RunPushes(Start, max, events);
    var t := Run(Start, max, events);
    assert t.pushed == PushesOf(events);
    OrderOf(t, max, j, k);
  }

  lemma OrderOf(t: Trace, max: nat, j: nat, k: nat)
    requires Inv(t, max) && Stamped(t.pushed) && j < k < |t.popped|
    ensures |Owners(t.taken)| == |t.popped|
    ensures t.popped[j].timestamp <= t.popped[k].timestamp
    ensures t.popped[j].timestamp == t.popped[k].timestamp <==> Owners(t.taken)[j] == Owners(t.taken)[k]
  {
    OwnersMatch(t.pushed, t.taken);
    var a, b := Owners(t.taken)[j], Owners(t.taken)[k];
    assert t.popped[j].timestamp == t.pushed[a][0].timestamp;
    assert t.popped[k].timestamp == t.pushed[b][0].timestamp;
  }
}
