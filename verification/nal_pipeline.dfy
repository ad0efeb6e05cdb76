/** What becomes of a frame's bytes: its NALs, its access unit, and the parameter-set cache. */
module NalPipeline {
  import opened Common
  import opened Sequences
  import opened Frames
  import opened AnnexB
  import opened AccessUnits

  /** The NALs of a frame, pack by pack; a pack without bytes is passed over. */
  function NalsOfPacks(packs: seq<Pack>, codec: CodecType, timestamp: nat): (ns: seq<ParsedNal>)
    ensures forall n :: n in ns ==> n.timestamp == timestamp
  {
    if packs == [] then []
    else NalsOfPacks(packs[..|packs| - 1], codec, timestamp) + NalsOfPack(Last(packs), codec, timestamp)
  }

  function NalsOfPack(p: Pack, codec: CodecType, timestamp: nat): (ns: seq<ParsedNal>)
    ensures forall n :: n in ns ==> n.timestamp == timestamp
  {
    if p.data.None? || p.len == 0 then [] else ClassifyAll(Split(p.data.value), codec, timestamp)
  }

  function FrameNals(f: Frame, codec: CodecType): (ns: seq<ParsedNal>)
    ensures forall n :: n in ns ==> n.timestamp == f.timestamp
  {
    NalsOfPacks(f.packs, codec, f.timestamp)
  }

  function UnitOf(ns: seq<ParsedNal>): (u: AccessUnit)
    ensures |u| == |ns|
    ensures forall i :: 0 <= i < |ns| ==> u[i] == NalUnit(ns[i].data, ns[i].timestamp, ns[i].isIdr)
  {
    seq(|ns|, i requires 0 <= i < |ns| => NalUnit(ns[i].data, ns[i].timestamp, ns[i].isIdr))
  }

  lemma UnitAppend(a: seq<ParsedNal>, b: seq<ParsedNal>)
    ensures UnitOf(a + b) == UnitOf(a) + UnitOf(b)
  {}

  // ---------- The parameter-set cache ----------

  datatype Cache = Cache(vps: seq<byte>, sps: seq<byte>, pps: seq<byte>)

  const EmptyCache := Cache([], [], [])

  predicate HasSpsPps(c: Cache) { c.sps != [] && c.pps != [] }

  predicate HasVpsSpsPps(c: Cache) { c.vps != [] && c.sps != [] && c.pps != [] }

  predicate Ready(c: Cache, codec: CodecType) {
    if codec == H265 then HasVpsSpsPps(c) else HasSpsPps(c)
  }

  function AbsorbOne(c: Cache, n: ParsedNal): Cache {
    Cache(if n.isVps then n.data else c.vps, if n.isSps then n.data else c.sps, if n.isPps then n.data else c.pps)
  }

  function Absorb(c: Cache, ns: seq<ParsedNal>): Cache {
    if ns == [] then c else AbsorbOne(Absorb(c, ns[..|ns| - 1]), Last(ns))
  }

  lemma {:induction false} AbsorbAppend(c: Cache, a: seq<ParsedNal>, b: seq<ParsedNal>)
    ensures Absorb(c, a + b) == Absorb(Absorb(c, a), b)
  {
    if b == [] {
      assert a + b == a;
    } else {
      assert (a + b)[..|a + b| - 1] == a + b[..|b| - 1];
      AbsorbAppend(c, a, b[..|b| - 1]);
    }
  }

  /** The NALs of all frames of one stream, in order, whatever other streams deliver in between. */
  function History(frames: seq<Frame>, t: StreamType, codec: CodecType): seq<ParsedNal> {
    if frames == [] then [] else
    var before, f := History(frames[..|frames| - 1], t, codec), Last(frames);
    if f.streamType == t then before + FrameNals(f, codec) else before
  }

  /** A frame concerns the cache of its own stream only. */
  function AbsorbFrame(c: Cache, f: Frame, t: StreamType, codec: CodecType): Cache {
    if f.streamType == t then Absorb(c, FrameNals(f, codec)) else c
  }

  /** The cache of one stream after the server has seen these frames. */
  function CacheAfter(frames: seq<Frame>, t: StreamType, codec: CodecType): Cache {
    if frames == [] then EmptyCache
    else AbsorbFrame(CacheAfter(frames[..|frames| - 1], t, codec), Last(frames), t, codec)
  }

  ghost predicate NoneBehind(kind: ParsedNal -> bool, ns: seq<ParsedNal>, i: nat) {
    forall j :: i < j < |ns| ==> !kind(ns[j])
  }

  /** `data` is the payload of the last NAL of a kind, or still empty when there was none. */
  ghost predicate IsLastOfKind(data: seq<byte>, kind: ParsedNal -> bool, ns: seq<ParsedNal>) {
    || (data == [] && forall i :: 0 <= i < |ns| ==> !kind(ns[i]))
    || (data != [] && exists i :: 0 <= i < |ns| && kind(ns[i]) && ns[i].data == data && NoneBehind(kind, ns, i))
  }

  predicate IsVps(n: ParsedNal) { n.isVps }
  predicate IsSps(n: ParsedNal) { n.isSps }
  predicate IsPps(n: ParsedNal) { n.isPps }

  ghost predicate Classified(ns: seq<ParsedNal>, codec: CodecType) {
    forall n :: n in ns ==> n == ClassifyNal(n.data, codec, n.timestamp)
  }

  lemma LastOfKindGrows(data: seq<byte>, kind: ParsedNal -> bool, ns: seq<ParsedNal>, n: ParsedNal)
    requires IsLastOfKind(data, kind, ns) && (kind(n) ==> n.data != [])
    ensures IsLastOfKind(if kind(n) then n.data else data, kind, ns + [n])
  {
    var ns' := ns + [n];
    if kind(n) {
      assert ns'[|ns|] == n && NoneBehind(kind, ns', |ns|);
    } else if data != [] {
      var i :| 0 <= i < |ns| && kind(ns[i]) && ns[i].data == data && NoneBehind(kind, ns, i);
      assert ns'[i] == ns[i] && NoneBehind(kind, ns', i);
    }
  }

  lemma {:induction false} AbsorbKeepsLast(ns: seq<ParsedNal>, codec: CodecType)
    requires Classified(ns, codec)
    ensures var c := Absorb(EmptyCache, ns);
      IsLastOfKind(c.vps, IsVps, ns) && IsLastOfKind(c.sps, IsSps, ns) && IsLastOfKind(c.pps, IsPps, ns)
  {
    hide IsLastOfKind, ClassifyNal;
    if ns == [] {
      NoneOfKind(IsVps);
      NoneOfKind(IsSps);
      NoneOfKind(IsPps);
    } else {
      var before, n := ns[..|ns| - 1], Last(ns);
      AbsorbKeepsLast(before, codec);
      ParameterSetsHaveBytes(ns, codec);
      var c := Absorb(EmptyCache, before);
      LastOfKindGrows(c.vps, IsVps, before, n);
      LastOfKindGrows(c.sps, IsSps, before, n);
      LastOfKindGrows(c.pps, IsPps, before, n);
      assert before + [n] == ns;
    }
  }

  lemma NoneOfKind(kind: ParsedNal -> bool)
    ensures IsLastOfKind([], kind, [])
  {}

  lemma ParameterSetsHaveBytes(ns: seq<ParsedNal>, codec: CodecType)
    requires Classified(ns, codec)
    ensures forall n :: n in ns && (n.isVps || n.isSps || n.isPps) ==> n.data != []
  {}

  lemma {:induction false} PacksAreClassified(packs: seq<Pack>, codec: CodecType, timestamp: nat)
    ensures Classified(NalsOfPacks(packs, codec, timestamp), codec)
  {
    hide Split, ClassifyNal;
    if packs != [] {
      PacksAreClassified(packs[..|packs| - 1], codec, timestamp);
    }
  }

  lemma {:induction false} CacheIsFold(frames: seq<Frame>, t: StreamType, codec: CodecType)
    ensures CacheAfter(frames, t, codec) == Absorb(EmptyCache, History(frames, t, codec))
    ensures Classified(History(frames, t, codec), codec)
  {
    hide FrameNals, Absorb, ClassifyNal;
    if frames == [] {
      AbsorbNothing();
    } else {
      var before, f := frames[..|frames| - 1], Last(frames);
      CacheIsFold(before, t, codec);
      FrameIsClassified(f, codec);
      AbsorbAppend(EmptyCache, History(before, t, codec), FrameNals(f, codec));
    }
  }

  lemma AbsorbNothing()
    ensures Absorb(EmptyCache, []) == EmptyCache
  {}

  lemma FrameIsClassified(f: Frame, codec: CodecType)
    ensures Classified(FrameNals(f, codec), codec)
  {
    PacksAreClassified(f.packs, codec, f.timestamp);
  }

  /**
    For every run of frames, the cached VPS, SPS and PPS are the last NAL of each kind among all
    NALs the stream has delivered so far.
  */
  lemma CacheEqualsHistory(frames: seq<Frame>, t: StreamType, codec: CodecType)
    ensures var c, ns := CacheAfter(frames, t, codec), History(frames, t, codec);
      IsLastOfKind(c.vps, IsVps, ns) && IsLastOfKind(c.sps, IsSps, ns) && IsLastOfKind(c.pps, IsPps, ns)
  {
    CacheIsFold(frames, t, codec);
    AbsorbKeepsLast(History(frames, t, codec), codec);
  }

  /** The stream is ready exactly when every kind it needs has occurred. */
  lemma ReadyExactly(frames: seq<Frame>, t: StreamType, codec: CodecType)
    ensures var ns := History(frames, t, codec);
      Ready(CacheAfter(frames, t, codec), codec) <==>
        && (codec == H265 ==> exists n :: n in ns && n.isVps)
        && (exists n :: n in ns && n.isSps)
        && (exists n :: n in ns && n.isPps)
  {
    CacheEqualsHistory(frames, t, codec);
    var c, ns := CacheAfter(frames, t, codec), History(frames, t, codec);
    hide CacheAfter, History;
    OccursIffCached(c.vps, IsVps, ns);
    OccursIffCached(c.sps, IsSps, ns);
    OccursIffCached(c.pps, IsPps, ns);
    assert forall n: ParsedNal :: n.isVps == IsVps(n) && n.isSps == IsSps(n) && n.isPps == IsPps(n);
  }

  lemma OccursIffCached(data: seq<byte>, kind: ParsedNal -> bool, ns: seq<ParsedNal>)
    requires IsLastOfKind(data, kind, ns)
    ensures data != [] <==> exists n :: n in ns && kind(n)
  {}

  /** Readiness never reverts. */
  lemma {:induction false} ReadyStaysReady(frames: seq<Frame>, more: seq<Frame>, t: StreamType, codec: CodecType)
    requires Ready(CacheAfter(frames, t, codec), codec)
    ensures Ready(CacheAfter(frames + more, t, codec), codec)
  {
    ReadyExactly(frames, t, codec);
    ReadyExactly(frames + more, t, codec);
    HistoryGrows(frames, more, t, codec);
  }

  lemma {:induction false} HistoryGrows(frames: seq<Frame>, more: seq<Frame>, t: StreamType, codec: CodecType)
    ensures History(frames, t, codec) <= History(frames + more, t, codec)
  {
    if more == [] {
      assert frames + more == frames;
    } else {
      var n := |more| - 1;
      assert (frames + more)[..|frames + more| - 1] == frames + more[..n];
      HistoryGrows(frames, more[..n], t, codec);
    }
  }
}
