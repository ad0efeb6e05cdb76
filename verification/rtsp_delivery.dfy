/** The frame queue and the stream source as objects updated in place. */
module RtspDelivery {
  import opened Common
  import opened Sequences
  import opened AccessUnits
  import opened Presentation
  import opened SourceFlags

  class RtspFrameQueue {
    var queue: seq<AccessUnit>
    var activeSources: seq<RtspStreamSource>
    const maxQueueSize: nat

    constructor (maxQueueSize: nat)
      ensures this.maxQueueSize == if maxQueueSize == 0 then 1 else maxQueueSize
      ensures queue == [] && activeSources == []
    {
      this.maxQueueSize := if maxQueueSize == 0 then 1 else maxQueueSize;
      queue, activeSources := [], [];
    }

    method PushAccessUnit(nals: AccessUnit)
      requires maxQueueSize > 0
      modifies this`queue
      ensures queue == PushUnit(old(queue), maxQueueSize, nals)
    {
      if nals == [] {
        return;
      }
      while |queue| >= maxQueueSize
        invariant |queue| <= |old(queue)| && queue == old(queue)[|old(queue)| - |queue|..]
        invariant |queue| == |old(queue)| || |queue| >= maxQueueSize - 1
        decreases |queue|
      {
        DropOldestAccessUnit();
      }
      queue := queue + [nals];
    }

    method PushNalUnit(nal: NalUnit)
      requires maxQueueSize > 0
      modifies this`queue
      ensures queue == PushUnit(old(queue), maxQueueSize, [nal])
    {
      PushAccessUnit([nal]);
    }

    method DropOldestAccessUnit()
      requires queue != []
      modifies this`queue
      ensures queue == old(queue)[1..]
    {
      queue := queue[1..];
    }

    /** None stands for the result `false`, which leaves the caller's NAL untouched. */
    method PopNalUnit() returns (nal: Option<NalUnit>)
      modifies this`queue
      ensures (nal, queue) == PopNal(old(queue))
    {
      while queue != [] && queue[0] == []
        invariant PopNal(queue) == PopNal(old(queue))
        decreases |queue|
      {
        queue := queue[1..];
      }
      if queue == [] {
        return None;
      }
      nal := Some(queue[0][0]);
      var rest := queue[0][1..];
      if rest == [] {
        queue := queue[1..];
      } else {
        queue := [rest] + queue[1..];
      }
    }

    method RegisterSource(source: RtspStreamSource)
      modifies this`activeSources
      ensures activeSources == old(activeSources) + [source]
    {
      activeSources := activeSources + [source];
    }

    method UnregisterSource(source: RtspStreamSource)
      modifies this`activeSources
      ensures activeSources == RemoveFirst(old(activeSources), source)
    {
      var i := 0;
      while i < |activeSources|
        invariant i <= |activeSources| && activeSources == old(activeSources)
        invariant source !in activeSources[..i]
        decreases |activeSources| - i
      {
        if activeSources[i] == source {
          RemoveFirstAt(activeSources, source, i);
          activeSources := activeSources[..i] + activeSources[i + 1..];
          return;
        }
        i := i + 1;
      }
      RemoveFirstAt(activeSources, source, i);
    }

    ghost function Active(): set<RtspStreamSource>
      reads this`activeSources
    {
      set s | s in activeSources
    }

    /** The queue's mutex is held; a source registered twice is told twice, with the effect of once. */
    method NotifyActiveSources()
      modifies Active()`awaitingFrame, Active()`deliverTasks
      ensures forall s :: s in activeSources ==>
        !s.awaitingFrame && s.deliverTasks == old(s.deliverTasks) + if old(s.awaitingFrame) then 1 else 0
      ensures forall s :: s in activeSources ==> s.Flags() == Notify(old(s.Flags()))
    {
      for i := 0 to |activeSources|
        invariant forall s :: s in activeSources[..i] ==> s.Flags() == Notify(old(s.Flags()))
        invariant forall s :: s in activeSources && s !in activeSources[..i] ==> s.Flags() == old(s.Flags())
      {
        var source := activeSources[i];
        source.NotifyFrameAvailable();
        assert activeSources[..i + 1] == activeSources[..i] + [source];
      }
    }

    method Clear()
      modifies this`queue
      ensures queue == []
    {
      queue := [];
    }

    method HasActiveSources() returns (r: bool)
      ensures r <==> activeSources != []
    {
      r := activeSources != [];
    }
  }

  const DURATION_US: nat := 1000000 / 30

  /** A live555 framed source; its reader's callback after a delivery is not part of this model. */
  class RtspStreamSource {
    const frameQueue: RtspFrameQueue
    var awaitingFrame: bool
    var isCurrentlyAwaitingData: bool
    var deliverTasks: nat          // deliver tasks in the event loop's schedule
    var to: array<byte>            // the reader's buffer
    var maxSize: nat
    var frameSize: nat
    var numTruncatedBytes: nat
    var presentationTime: Time
    var durationInMicroseconds: nat

    ghost function Flags(): Flags
      reads this`awaitingFrame, this`isCurrentlyAwaitingData, this`deliverTasks
    {
      SourceFlags.Flags(awaitingFrame, isCurrentlyAwaitingData, deliverTasks)
    }

    constructor (queue: RtspFrameQueue, buffer: array<byte>)
      modifies queue`activeSources
      ensures frameQueue == queue && !awaitingFrame && !isCurrentlyAwaitingData && deliverTasks == 0
      ensures Flags() == NewSource
      ensures queue.activeSources == old(queue.activeSources) + [this]
    {
      frameQueue := queue;
      awaitingFrame, isCurrentlyAwaitingData, deliverTasks := false, false, 0;
      to, maxSize := buffer, 0;
      frameSize, numTruncatedBytes, presentationTime, durationInMicroseconds := 0, 0, Time(0, 0), 0;
      new;
      queue.RegisterSource(this);
    }

    method NotifyFrameAvailable()
      modifies this`awaitingFrame, this`deliverTasks
      ensures !awaitingFrame
      ensures deliverTasks == old(deliverTasks) + if old(awaitingFrame) then 1 else 0
      ensures Flags() == Notify(old(Flags()))
    {
      if !awaitingFrame {
        return;
      }
      awaitingFrame := false;
      deliverTasks := deliverTasks + 1;
    }

    method DoStopGettingFrames()
      modifies this`awaitingFrame, this`isCurrentlyAwaitingData
      ensures !awaitingFrame && !isCurrentlyAwaitingData && deliverTasks == old(deliverTasks)
      ensures Flags() == Stop(old(Flags()))
    {
      awaitingFrame := false;
      isCurrentlyAwaitingData := false;
    }

    /** The reader's buffer holds as much of the NAL as fits, and nothing else of it was touched. */
    twostate predicate Filled(nal: NalUnit)
      reads this, to
    {
      && to == old(to) && maxSize == old(maxSize)
      && frameSize <= maxSize <= to.Length
      && frameSize == (if |nal.data| <= maxSize then |nal.data| else maxSize)
      && frameSize + numTruncatedBytes == |nal.data|
      && to[..] == nal.data[..frameSize] + old(to[..])[frameSize..]
      && presentationTime == PresentationTime(nal.timestamp)
      && durationInMicroseconds == DURATION_US
    }

    method DeliverFrame()
      requires maxSize <= to.Length
      modifies this`awaitingFrame, this`isCurrentlyAwaitingData, this`frameSize, this`numTruncatedBytes,
        this`presentationTime, this`durationInMicroseconds, to, frameQueue`queue
      ensures old(!isCurrentlyAwaitingData) ==>
        && !awaitingFrame && !isCurrentlyAwaitingData && Flags() == Refuse(old(Flags()))
        && unchanged(to) && frameQueue.queue == old(frameQueue.queue)
      ensures old(isCurrentlyAwaitingData) ==>
        var (nal, rest) := PopNal(old(frameQueue.queue));
        && frameQueue.queue == rest
        && (nal.None? ==>
              awaitingFrame && isCurrentlyAwaitingData && Flags() == Starve(old(Flags())) && unchanged(to))
        && (nal.Some? ==>
              && awaitingFrame == old(awaitingFrame) && !isCurrentlyAwaitingData && Flags() == Serve(old(Flags()))
              && Filled(nal.value))
    {
      if !isCurrentlyAwaitingData {
        awaitingFrame := false;
        return;
      }
      var popped := frameQueue.PopNalUnit();
      if popped.None? {
        awaitingFrame := true;
        return;
      }
      var nal := popped.value;
      if |nal.data| > maxSize {
        numTruncatedBytes := |nal.data| - maxSize;
        CopyIn(nal.data, maxSize);
        frameSize := maxSize;
      } else {
        frameSize := |nal.data|;
        numTruncatedBytes := 0;
        CopyIn(nal.data, |nal.data|);
      }
      presentationTime := Time(nal.timestamp / 1000, nal.timestamp % 1000 * 1000);
      durationInMicroseconds := 1000000 / 30;
      isCurrentlyAwaitingData := false;  // FramedSource::afterGetting
    }

    method CopyIn(data: seq<byte>, n: nat)
      requires n <= |data| && n <= to.Length
      modifies to
      ensures to[..] == data[..n] + old(to[..])[n..]
    {
      for k := 0 to n
        invariant forall j :: 0 <= j < k ==> to[j] == data[j]
        invariant forall j :: k <= j < to.Length ==> to[j] == old(to[j])
      {
        to[k] := data[k];
      }
    }

    /** live555 marks the source as awaiting data and asks it for a frame. */
    method DoGetNextFrame()
      requires maxSize <= to.Length
      modifies this`awaitingFrame, this`isCurrentlyAwaitingData, this`frameSize, this`numTruncatedBytes,
        this`presentationTime, this`durationInMicroseconds, to, frameQueue`queue
      ensures var (nal, rest) := PopNal(old(frameQueue.queue));
        && frameQueue.queue == rest
        && awaitingFrame && isCurrentlyAwaitingData == nal.None?
        && (nal.None? ==> Flags() == Starve(Request(old(Flags()))) && unchanged(to))
        && (nal.Some? ==> Flags() == Serve(Request(old(Flags()))) && Filled(nal.value))
    {
      isCurrentlyAwaitingData := true;
      awaitingFrame := true;
      DeliverFrame();
    }

    /** The event loop runs one scheduled deliver task. */
    method RunDeliverTask()
      requires deliverTasks > 0 && maxSize <= to.Length
      modifies this`awaitingFrame, this`isCurrentlyAwaitingData, this`deliverTasks, this`frameSize,
        this`numTruncatedBytes, this`presentationTime, this`durationInMicroseconds, to, frameQueue`queue
      ensures deliverTasks == old(deliverTasks) - 1
      ensures old(isCurrentlyAwaitingData) && PopNal(old(frameQueue.queue)).0.Some? ==>
        !isCurrentlyAwaitingData && Filled(PopNal(old(frameQueue.queue)).0.value)
      ensures old(isCurrentlyAwaitingData) && PopNal(old(frameQueue.queue)).0.None? ==>
        isCurrentlyAwaitingData && awaitingFrame
      ensures old(!isCurrentlyAwaitingData) ==> !isCurrentlyAwaitingData && !awaitingFrame
      ensures frameQueue.queue ==
        if old(isCurrentlyAwaitingData) then PopNal(old(frameQueue.queue)).1 else old(frameQueue.queue)
    {
      deliverTasks := deliverTasks - 1;
      DeliverFrame();
    }
  }
}
