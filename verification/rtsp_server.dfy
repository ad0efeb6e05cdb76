/** The RTSP server: its streams, and what it does with every frame. */
module RtspServing {
  import opened Common
  import opened Frames
  import opened AnnexB
  import opened AccessUnits
  import opened SourceFlags
  import opened NalPipeline
  import opened RtspDelivery

  const FRAME_QUEUE_SIZE: nat := 5

  /** The codec a stream type is served with; None when it is not served. */
  function CodecFor(t: StreamType): Option<CodecType> {
    match t
    case VideoMain => Some(H265)
    case VideoSub => Some(H264)
    case _ => None
  }

  class ParameterSetCache {
    var vps: seq<byte>
    var sps: seq<byte>
    var pps: seq<byte>

    ghost function View(): Cache
      reads this
    {
      Cache(vps, sps, pps)
    }

    constructor ()
      ensures View() == EmptyCache
    {
      vps, sps, pps := [], [], [];
    }
  }

  /** A live555 media session, which belongs to live555. */
  type Session = nat

  class RtspServer {
    var started: bool                   // the live555 server object exists
    var running: bool
    var triggerPending: bool
    var sessions: map<StreamType, Session>
    var frameQueues: map<StreamType, RtspFrameQueue>
    var parameterSets: map<StreamType, ParameterSetCache>
    var streamCodecs: map<StreamType, CodecType>

    /** The four maps describe the same streams, and no two streams share a queue or a cache. */
    ghost predicate Valid()
      reads this
    {
      && sessions.Keys == frameQueues.Keys == parameterSets.Keys == streamCodecs.Keys
      && (forall t :: t in streamCodecs ==> CodecFor(t) == Some(streamCodecs[t]) && frameQueues[t].maxQueueSize > 0)
      && (forall t, u :: t in frameQueues && u in frameQueues && t != u ==>
            frameQueues[t] != frameQueues[u] && parameterSets[t] != parameterSets[u])
    }

    constructor ()
      ensures Valid() && sessions == map[] && !started && !running && !triggerPending
    {
      started, running, triggerPending := false, false, false;
      sessions, frameQueues, parameterSets, streamCodecs := map[], map[], map[], map[];
    }

    /** `session` is what live555 created, None when it failed. */
    method AddStream(t: StreamType, session: Option<Session>) returns (ok: bool)
      requires Valid()
      modifies this`sessions, this`frameQueues, this`parameterSets, this`streamCodecs
      ensures Valid()
      ensures ok <==> started && t !in old(sessions) && (t == VideoMain || t == VideoSub) && session.Some?
      ensures ok ==>
        && sessions == old(sessions)[t := session.value]
        && t in frameQueues && fresh(frameQueues[t]) && frameQueues == old(frameQueues)[t := frameQueues[t]]
        && frameQueues[t].queue == [] && frameQueues[t].activeSources == []
        && frameQueues[t].maxQueueSize == FRAME_QUEUE_SIZE
        && t in parameterSets && fresh(parameterSets[t]) && parameterSets == old(parameterSets)[t := parameterSets[t]]
        && parameterSets[t].View() == EmptyCache
        && streamCodecs == old(streamCodecs)[t := if t == VideoMain then H265 else H264]
      ensures !ok ==>
        && sessions == old(sessions) && frameQueues == old(frameQueues)
        && parameterSets == old(parameterSets) && streamCodecs == old(streamCodecs)
    {
      if !started || t in sessions {
        return false;
      }
      var codec := H264;
      if t == VideoMain {
        codec := H265;
      } else if t == VideoSub {
        codec := H264;
      } else {
        return false;
      }
      var queue := new RtspFrameQueue(FRAME_QUEUE_SIZE);
      var cache := new ParameterSetCache();
      if session.None? {
        return false;
      }
      Install(t, session.value, queue, cache, codec);
      ok := true;
    }

    method Install(t: StreamType, session: Session, queue: RtspFrameQueue, cache: ParameterSetCache, codec: CodecType)
      requires Valid() && CodecFor(t) == Some(codec) && queue.maxQueueSize > 0
      requires queue !in frameQueues.Values && cache !in parameterSets.Values
      modifies this`sessions, this`frameQueues, this`parameterSets, this`streamCodecs
      ensures Valid()
      ensures sessions == old(sessions)[t := session] && frameQueues == old(frameQueues)[t := queue]
      ensures parameterSets == old(parameterSets)[t := cache] && streamCodecs == old(streamCodecs)[t := codec]
    {
      sessions := sessions[t := session];
      frameQueues := frameQueues[t := queue];
      parameterSets := parameterSets[t := cache];
      streamCodecs := streamCodecs[t := codec];
      forall u | u in frameQueues && u != t
        ensures frameQueues[u] != queue && parameterSets[u] != cache
      {
        assert old(frameQueues)[u] in old(frameQueues).Values && old(parameterSets)[u] in old(parameterSets).Values;
      }
    }

    method RemoveStream(t: StreamType)
      requires Valid()
      modifies this`sessions, this`frameQueues, this`parameterSets, this`streamCodecs
      ensures Valid()
      ensures sessions == old(sessions) - {t} && frameQueues == old(frameQueues) - {t}
      ensures parameterSets == old(parameterSets) - {t} && streamCodecs == old(streamCodecs) - {t}
    {
      if t !in sessions {
        return;
      }
      sessions := sessions - {t};
      frameQueues := frameQueues - {t};
      parameterSets := parameterSets - {t};
      streamCodecs := streamCodecs - {t};
    }

    ghost function CacheOf(t: StreamType): set<ParameterSetCache>
      reads this
    {
      if t in parameterSets then {parameterSets[t]} else {}
    }

    ghost function QueueOf(t: StreamType): set<RtspFrameQueue>
      reads this
    {
      if t in frameQueues then {frameQueues[t]} else {}
    }

    /** One NAL: a parameter set goes to the cache as well as into the access unit. */
    method CacheNal(cache: ParameterSetCache, nal: ParsedNal)
      modifies cache
      ensures cache.vps == if nal.isVps then nal.data else old(cache.vps)
      ensures cache.sps == if nal.isSps then nal.data else old(cache.sps)
      ensures cache.pps == if nal.isPps then nal.data else old(cache.pps)
      ensures cache.View() == AbsorbOne(old(cache.View()), nal)
    {
      if nal.isVps || nal.isSps || nal.isPps {
        if nal.isVps {
          cache.vps := nal.data;
        }
        if nal.isSps {
          cache.sps := nal.data;
        }
        if nal.isPps {
          cache.pps := nal.data;
        }
      }
    }

    method AbsorbNals(cache: ParameterSetCache, nals: seq<ParsedNal>, unit: AccessUnit) returns (unit': AccessUnit)
      modifies cache
      ensures cache.View() == Absorb(old(cache.View()), nals)
      ensures unit' == unit + UnitOf(nals)
    {
      unit' := unit;
      for j := 0 to |nals|
        invariant cache.View() == Absorb(old(cache.View()), nals[..j])
        invariant unit' == unit + UnitOf(nals[..j])
      {
        CacheNal(cache, nals[j]);
        unit' := unit' + [NalUnit(nals[j].data, nals[j].timestamp, nals[j].isIdr)];
        assert nals[..j + 1][..j] == nals[..j];
      }
      assert nals[..|nals|] == nals;
    }

    method ProcessFrameNals(frame: Frame)
      requires Valid() && Measured(frame)
      modifies CacheOf(frame.streamType), QueueOf(frame.streamType)`queue
      ensures Valid()
      ensures frame.streamType in streamCodecs ==>
        var t := frame.streamType; var ns := FrameNals(frame, streamCodecs[t]); var q := frameQueues[t];
        && parameterSets[t].View() == Absorb(old(parameterSets[t].View()), ns)
        && q.queue ==
            (if q.activeSources != [] then PushUnit(old(q.queue), q.maxQueueSize, UnitOf(ns)) else old(q.queue))
    {
      var t := frame.streamType;
      if t !in streamCodecs || t !in frameQueues || t !in parameterSets {
        return;
      }
      var codec, queue, cache := streamCodecs[t], frameQueues[t], parameterSets[t];
      var unit := GatherNals(cache, frame, codec);
      var listening := queue.HasActiveSources();
      if listening && unit != [] {
        queue.PushAccessUnit(unit);
      }
    }

    /** One pack: cut it into NALs, cache the parameter sets, extend the access unit. */
    method AddPack(cache: ParameterSetCache, pk: Pack, codec: CodecType, ts: nat, isIdr: bool, unit: AccessUnit)
      returns (unit': AccessUnit)
      modifies cache
      ensures cache.View() == Absorb(old(cache.View()), NalsOfPack(pk, codec, ts))
      ensures unit' == unit + UnitOf(NalsOfPack(pk, codec, ts))
    {
      if pk.data.None? || pk.len == 0 {
        return unit;
      }
      var nals := SplitAnnexBNals(pk.data.value, codec, ts, isIdr, []);
      assert nals == NalsOfPack(pk, codec, ts);
      unit' := AbsorbNals(cache, nals, unit);
    }

    /** The loop over the packs. */
    method GatherNals(cache: ParameterSetCache, frame: Frame, codec: CodecType) returns (unit: AccessUnit)
      modifies cache
      ensures cache.View() == Absorb(old(cache.View()), FrameNals(frame, codec))
      ensures unit == UnitOf(FrameNals(frame, codec))
    {
      hide NalsOfPack, NalsOfPacks, UnitOf, Absorb;
      var packs, ts, isIdr := frame.packs, frame.timestamp, FrameIsIdr(frame);
      ghost var before := cache.View();
      unit := [];
      NothingGathered(before, packs, codec, ts);
      for i := 0 to |packs|
        invariant cache.View() == Absorb(before, NalsOfPacks(packs[..i], codec, ts))
        invariant unit == UnitOf(NalsOfPacks(packs[..i], codec, ts))
      {
        PackAppends(before, packs, i, codec, ts);
        unit := AddPack(cache, packs[i], codec, ts, isIdr, unit);
      }
      assert packs[..|packs|] == packs;
    }

    static lemma NothingGathered(c: Cache, packs: seq<Pack>, codec: CodecType, ts: nat)
      ensures NalsOfPacks(packs[..0], codec, ts) == [] && Absorb(c, []) == c && UnitOf([]) == []
    {}

    static lemma PackAppends(c: Cache, packs: seq<Pack>, i: nat, codec: CodecType, ts: nat)
      requires i < |packs|
      ensures var before, more := NalsOfPacks(packs[..i], codec, ts), NalsOfPack(packs[i], codec, ts);
        && NalsOfPacks(packs[..i + 1], codec, ts) == before + more
        && Absorb(c, before + more) == Absorb(Absorb(c, before), more)
        && UnitOf(before + more) == UnitOf(before) + UnitOf(more)
    {
      assert packs[..i + 1][..i] == packs[..i];
      hide Absorb, UnitOf, NalsOfPack;
      AbsorbAppend(c, NalsOfPacks(packs[..i], codec, ts), NalsOfPack(packs[i], codec, ts));
      UnitAppend(NalsOfPacks(packs[..i], codec, ts), NalsOfPack(packs[i], codec, ts));
    }

    /** Runs on a consumer thread; the trigger is raised whether or not anything was queued. */
    method OnFrame(frame: Frame)
      requires Valid() && Measured(frame)
      modifies this`triggerPending, CacheOf(frame.streamType), QueueOf(frame.streamType)`queue
      ensures Valid()
      ensures !running ==> triggerPending == old(triggerPending)
      ensures running ==> triggerPending
      ensures frame.streamType in streamCodecs ==>
        var t := frame.streamType; var ns := FrameNals(frame, streamCodecs[t]); var q := frameQueues[t];
        && parameterSets[t].View() ==
            (if running then Absorb(old(parameterSets[t].View()), ns) else old(parameterSets[t].View()))
        && q.queue ==
            (if running && q.activeSources != []
              then PushUnit(old(q.queue), q.maxQueueSize, UnitOf(ns)) else old(q.queue))
    {
      if !running {
        return;
      }
      ProcessFrameNals(frame);
      triggerPending := true;
    }

    /** The caches hold what the frames so far have left in them. */
    ghost predicate Caches(frames: seq<Frame>)
      requires Valid()
      reads this, parameterSets.Values
    {
      forall t :: t in streamCodecs ==> parameterSets[t].View() == CacheAfter(frames, t, streamCodecs[t])
    }

    /** What one frame does to the caches of all streams. */
    method OnNextFrame(frame: Frame)
      requires Valid() && running && Measured(frame)
      modifies this`triggerPending, parameterSets.Values, frameQueues.Values`queue
      ensures Valid() && triggerPending
      ensures forall t :: t in streamCodecs ==>
        parameterSets[t].View() == AbsorbFrame(old(parameterSets[t].View()), frame, t, streamCodecs[t])
    {
      hide Valid, Absorb, FrameNals, UnitOf, PushUnit, Measured;
      forall t | t in streamCodecs
        ensures t in parameterSets && t in frameQueues
        ensures parameterSets[t] in CacheOf(frame.streamType) <==> t == frame.streamType
      {
        OneCacheEach(t, frame.streamType);
      }
      OnFrame(frame);
    }

    lemma OneCacheEach(t: StreamType, u: StreamType)
      requires Valid() && t in streamCodecs
      ensures t in parameterSets && t in frameQueues
      ensures parameterSets[t] in CacheOf(u) <==> t == u
    {}

    static lemma AfterOneMore(past: seq<Frame>, frame: Frame, t: StreamType, codec: CodecType)
      ensures CacheAfter(past + [frame], t, codec) == AbsorbFrame(CacheAfter(past, t, codec), frame, t, codec)
    {
      assert (past + [frame])[..|past|] == past;
    }

    /** A running server is called once for every frame, of whatever stream, heard or not. */
    method OnFrames(frames: seq<Frame>, ghost past: seq<Frame>)
      requires Valid() && running && Caches(past) && forall f :: f in frames ==> Measured(f)
      modifies this`triggerPending, parameterSets.Values, frameQueues.Values`queue
      ensures Valid() && Caches(past + frames)
      ensures frames != [] ==> triggerPending
    {
      hide Valid, CacheAfter, AbsorbFrame, Measured;
      assert past + frames[..0] == past;
      for i := 0 to |frames|
        invariant Valid() && Caches(past + frames[..i])
        invariant i > 0 ==> triggerPending
      {
        ghost var before := past + frames[..i];
        forall t, codec
          ensures CacheAfter(before + [frames[i]], t, codec) ==
            AbsorbFrame(CacheAfter(before, t, codec), frames[i], t, codec)
        {
          AfterOneMore(before, frames[i], t, codec);
        }
        OnNextFrame(frames[i]);
        assert before + [frames[i]] == past + frames[..i + 1];
      }
      assert frames[..|frames|] == frames;
    }

    ghost function AllSources(): set<RtspStreamSource>
      reads this, frameQueues.Values
    {
      set t, s | t in frameQueues && s in frameQueues[t].activeSources :: s
    }

    /** Runs in the event loop: every source of every stream is told, in whatever order. */
    method HandleFrameTrigger()
      modifies AllSources()`awaitingFrame, AllSources()`deliverTasks
      ensures forall t, s :: t in frameQueues && s in frameQueues[t].activeSources ==>
        s.Flags() == Notify(old(s.Flags()))
    {
      var todo := frameQueues.Keys;
      ghost var told: set<StreamType> := {};
      while todo != {}
        invariant todo <= frameQueues.Keys && told == frameQueues.Keys - todo
        invariant forall t, s :: t in told && s in frameQueues[t].activeSources ==> s.Flags() == Notify(old(s.Flags()))
        invariant forall s :: s in AllSources() ==> s.Flags() == old(s.Flags()) || s.Flags() == Notify(old(s.Flags()))
        decreases todo
      {
        var t :| t in todo;
        assert frameQueues[t].Active() <= AllSources();
        frameQueues[t].NotifyActiveSources();
        todo := todo - {t};
        told := told + {t};
      }
    }
  }
}
