/** The distributor's objects: each critical section as a method that updates them in place. */
module StreamDistribution {
  import opened Common
  import opened Sequences
  import D = Distributor

  class ConsumerSlot<F> {
    const consumerId: nat
    const maxQueueSize: nat
    var queue: seq<F>
    var running: bool
    var dropped: nat
    var consumed: nat

    /** The shared fields as one value. */
    ghost function View(): D.Core<F>
      reads this
    {
      D.Core(queue, maxQueueSize, running, dropped, consumed)
    }

    constructor (id: nat, maxQueueSize: nat)
      ensures consumerId == id && View() == D.NewCore(maxQueueSize)
    {
      consumerId := id;
      this.maxQueueSize := if maxQueueSize == 0 then 1 else maxQueueSize;
      queue, running, dropped, consumed := [], true, 0, 0;
    }

    /** The producer's critical section. */
    method Enqueue(frame: F)
      requires maxQueueSize > 0
      modifies this
      ensures View() == D.Enqueue(old(View()), frame)
    {
      if |queue| >= maxQueueSize {
        queue := queue[1..];
        dropped := dropped + 1;
      }
      queue := queue + [frame];
    }

    /** The worker's critical section, once its wait is over; None when it is to stop. */
    method TakeFront() returns (frame: Option<F>)
      requires queue != [] || !running
      modifies this
      ensures old(running) ==>
        frame == Some(old(queue)[0]) && View() == old(View()).(queue := old(queue)[1..])
      ensures !old(running) ==> frame.None? && View() == old(View())
    {
      if !running {
        return None;
      }
      frame := Some(queue[0]);
      queue := queue[1..];
    }

    method Stop()
      modifies this
      ensures View() == old(View()).(running := false)
    {
      running := false;
    }

    method Clear()
      modifies this
      ensures View() == old(View()).(queue := [])
    {
      queue := [];
    }
  }

  class StreamDistributor<F> {
    var slots: seq<ConsumerSlot<F>>
    var nextConsumerId: nat

    /** Ids are unique, so no slot is registered twice, and every slot has room for a frame. */
    ghost predicate Valid()
      reads this, slots
    {
      && (forall i, j :: 0 <= i < j < |slots| ==> slots[i].consumerId != slots[j].consumerId)
      && (forall i :: 0 <= i < |slots| ==> slots[i].consumerId < nextConsumerId && slots[i].maxQueueSize > 0)
    }

    constructor ()
      ensures Valid() && slots == []
    {
      slots, nextConsumerId := [], 0;
    }

    method AddConsumer(maxQueueSize: nat) returns (id: nat)
      requires Valid()
      modifies this
      ensures Valid() && id == old(nextConsumerId) && nextConsumerId == id + 1
      ensures |slots| == |old(slots)| + 1 && slots[..|old(slots)|] == old(slots)
      ensures fresh(Last(slots)) && Last(slots).consumerId == id && Last(slots).View() == D.NewCore(maxQueueSize)
    {
      id := nextConsumerId;
      nextConsumerId := nextConsumerId + 1;
      var slot := new ConsumerSlot<F>(id, maxQueueSize);
      slots := slots + [slot];
    }

    /** Without interference, a push puts the frame into every registered slot exactly once. */
    method Push(frame: F)
      requires Valid()
      modifies slots
      ensures Valid()
      ensures forall i :: 0 <= i < |slots| ==> slots[i].View() == D.Enqueue(old(slots[i].View()), frame)
    {
      hide D.Enqueue;
      var snapshot := slots;
      for i := 0 to |snapshot|
        invariant forall j :: 0 <= j < i ==> snapshot[j].View() == D.Enqueue(old(snapshot[j].View()), frame)
        invariant forall j :: i <= j < |snapshot| ==> snapshot[j].View() == old(snapshot[j].View())
      {
        assert forall j :: 0 <= j < |snapshot| && j != i ==> snapshot[j] != snapshot[i];
        snapshot[i].Enqueue(frame);
      }
    }

    /** Joining the worker thread is not part of this method; see the step system. */
    method RemoveConsumer(id: nat) returns (target: Option<ConsumerSlot<F>>, ghost at: nat)
      requires Valid()
      modifies this, slots
      ensures Valid() && nextConsumerId == old(nextConsumerId)
      ensures target.None? <==> forall i :: 0 <= i < |old(slots)| ==> old(slots)[i].consumerId != id
      ensures target.None? ==> slots == old(slots) && at == |slots|
      ensures target.Some? ==>
        && at < |old(slots)| && target.value == old(slots)[at] && target.value.consumerId == id
        && slots == old(slots)[..at] + old(slots)[at + 1..]
        && target.value.View() == old(target.value.View()).(running := false, queue := [])
      ensures forall i :: 0 <= i < |old(slots)| && i != at ==> old(slots)[i].View() == old(slots[i].View())
    {
      var it := 0;
      while it < |slots| && slots[it].consumerId != id
        invariant it <= |slots| && forall i :: 0 <= i < it ==> slots[i].consumerId != id
        decreases |slots| - it
      {
        it := it + 1;
      }
      at := it;
      if it == |slots| {
        return None, at;
      }
      var slot := slots[it];
      target := Some(slot);
      slots := slots[..it] + slots[it + 1..];
      slot.Stop();
      slot.Clear();
    }
  }
}
