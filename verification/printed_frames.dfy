/** From printed NALs to the access unit and the cache: of a well-formed frame nothing is lost or added. */
module PrintedFrames {
  import opened Common
  import opened Sequences
  import opened Frames
  import opened AnnexB
  import opened AnnexBLaws
  import opened NalPipeline

  /** The pack is these NALs, printed behind these start codes, and the codes do not eat into them. */
  ghost predicate PrintedAs(p: Pack, nals: seq<seq<byte>>, codes: seq<nat>) {
    && |nals| == |codes| && CodeLengths(codes)
    && (forall i :: 0 <= i < |nals| ==> Payload(nals[i]))
    && (forall i: nat :: !LosesZero(nals, codes, i))
    && (p.data == Some(Join(nals, codes)) || (nals == [] && p.data.None?))
    && p.len == |Join(nals, codes)|
  }

  ghost predicate FramePrintedAs(f: Frame, nals: seq<seq<seq<byte>>>, codes: seq<seq<nat>>) {
    && |f.packs| == |nals| == |codes|
    && forall i :: 0 <= i < |nals| ==> PrintedAs(f.packs[i], nals[i], codes[i])
  }

  /** A printed pack gives exactly the NALs it was printed from. */
  lemma PackGivesItsNals(p: Pack, nals: seq<seq<byte>>, codes: seq<nat>, codec: CodecType, timestamp: nat)
    requires PrintedAs(p, nals, codes)
    ensures NalsOfPack(p, codec, timestamp) == ClassifyAll(nals, codec, timestamp)
  {
    hide Split, ClassifyNal, LosesZero, Payload;
    RoundTripExactly(nals, codes);
    if nals != [] {
      JoinIsLonger(nals, codes);
    }
  }

  lemma JoinIsLonger(nals: seq<seq<byte>>, codes: seq<nat>)
    requires |nals| == |codes| && nals != []
    ensures |Join(nals, codes)| > 0
  {}

  lemma {:induction false} FlattenBack<T>(ss: seq<seq<T>>)
    requires ss != []
    ensures Flatten(ss) == Flatten(ss[..|ss| - 1]) + ss[|ss| - 1]
  {
    var n := |ss| - 1;
    if n > 0 {
      FlattenBack(ss[1..]);
      assert ss[1..][..n - 1] == ss[..n][1..];
      assert ss[0] + (Flatten(ss[..n][1..]) + ss[n]) == (ss[0] + Flatten(ss[..n][1..])) + ss[n];
    } else {
      assert ss[1..] == [] && ss[..n] == [];
    }
  }

  lemma {:induction false} PacksGiveTheirNals(
      f: Frame, nals: seq<seq<seq<byte>>>, codes: seq<seq<nat>>, codec: CodecType, n: nat)
    requires FramePrintedAs(f, nals, codes) && n <= |nals|
    ensures NalsOfPacks(f.packs[..n], codec, f.timestamp) == ClassifyAll(Flatten(nals[..n]), codec, f.timestamp)
  {
    hide PrintedAs, NalsOfPack, ClassifyNal;
    if n > 0 {
      PacksGiveTheirNals(f, nals, codes, codec, n - 1);
      PackGivesItsNals(f.packs[n - 1], nals[n - 1], codes[n - 1], codec, f.timestamp);
      FlattenBack(nals[..n]);
      assert nals[..n][..n - 1] == nals[..n - 1] && f.packs[..n][..n - 1] == f.packs[..n - 1];
    }
  }

  /**
    What a printed frame becomes: exactly its NALs, those of all packs in order, each classified
    by itself and stamped with the frame's time; and so does the access unit that is queued for it.
  */
  lemma FrameGivesItsNals(f: Frame, nals: seq<seq<seq<byte>>>, codes: seq<seq<nat>>, codec: CodecType)
    requires FramePrintedAs(f, nals, codes)
    ensures var all, ns, unit := Flatten(nals), FrameNals(f, codec), UnitOf(FrameNals(f, codec));
      && |ns| == |unit| == |all|
      && (forall j :: 0 <= j < |all| ==> ns[j] == ClassifyNal(all[j], codec, f.timestamp))
      && (forall j :: 0 <= j < |all| ==> unit[j].data == all[j] && unit[j].timestamp == f.timestamp)
      && (forall j :: 0 <= j < |all| ==> unit[j].isIdr == ClassifyNal(all[j], codec, f.timestamp).isIdr)
  {
    hide NalsOfPacks, FramePrintedAs, Flatten;
    Lengths(f, nals, codes);
    PacksGiveTheirNals(f, nals, codes, codec, |f.packs|);
    assert f.packs[..|f.packs|] == f.packs && nals[..|nals|] == nals;
  }

  lemma Lengths(f: Frame, nals: seq<seq<seq<byte>>>, codes: seq<seq<nat>>)
    requires FramePrintedAs(f, nals, codes)
    ensures |f.packs| == |nals|
  {}

  // ---------- The cache ----------

  /** NAL i of the list is the last one of a kind. */
  ghost predicate IsLast(kind: ParsedNal -> bool, nals: seq<seq<byte>>, codec: CodecType, i: nat) {
    && i < |nals| && kind(ClassifyNal(nals[i], codec, 0))
    && forall j :: i < j < |nals| ==> !kind(ClassifyNal(nals[j], codec, 0))
  }

  ghost predicate HasNone(kind: ParsedNal -> bool, nals: seq<seq<byte>>, codec: CodecType) {
    forall j :: 0 <= j < |nals| ==> !kind(ClassifyNal(nals[j], codec, 0))
  }

  lemma TimeDoesNotMatter(d: seq<byte>, codec: CodecType, s: nat, t: nat)
    ensures var a, b := ClassifyNal(d, codec, s), ClassifyNal(d, codec, t);
      IsVps(a) == IsVps(b) && IsSps(a) == IsSps(b) && IsPps(a) == IsPps(b)
  {}

  lemma {:induction false} AbsorbNone(c: Cache, ns: seq<ParsedNal>)
    ensures (forall n :: n in ns ==> !IsVps(n)) ==> Absorb(c, ns).vps == c.vps
    ensures (forall n :: n in ns ==> !IsSps(n)) ==> Absorb(c, ns).sps == c.sps
    ensures (forall n :: n in ns ==> !IsPps(n)) ==> Absorb(c, ns).pps == c.pps
  {
    if ns != [] {
      AbsorbNone(c, ns[..|ns| - 1]);
      assert Last(ns) in ns;
    }
  }

  lemma AbsorbLast(c: Cache, ns: seq<ParsedNal>, i: nat)
    requires i < |ns|
    ensures IsVps(ns[i]) && (forall n :: n in ns[i + 1..] ==> !IsVps(n)) ==> Absorb(c, ns).vps == ns[i].data
    ensures IsSps(ns[i]) && (forall n :: n in ns[i + 1..] ==> !IsSps(n)) ==> Absorb(c, ns).sps == ns[i].data
    ensures IsPps(ns[i]) && (forall n :: n in ns[i + 1..] ==> !IsPps(n)) ==> Absorb(c, ns).pps == ns[i].data
  {
    var front, back := ns[..i + 1], ns[i + 1..];
    assert ns == front + back && front[..i] == ns[..i] && Last(front) == ns[i];
    AbsorbAppend(c, front, back);
    AbsorbNone(Absorb(c, front), back);
  }

  /**
    One printed frame more, and the stream's cache holds its last parameter set of each kind; of a
    kind it does not carry the old one stays, and the caches of other streams stay as they are.
  */
  lemma CacheTakesTheLast(
      frames: seq<Frame>, f: Frame, nals: seq<seq<seq<byte>>>, codes: seq<seq<nat>>, t: StreamType, codec: CodecType,
      i: nat)
    requires FramePrintedAs(f, nals, codes)
    ensures CacheAfter([], t, codec) == Cache([], [], [])
    ensures var c, c', all := CacheAfter(frames, t, codec), CacheAfter(frames + [f], t, codec), Flatten(nals);
      && (f.streamType != t ==> c' == c)
      && (f.streamType == t ==>
            && (IsLast(IsVps, all, codec, i) ==> c'.vps == all[i])
            && (IsLast(IsSps, all, codec, i) ==> c'.sps == all[i])
            && (IsLast(IsPps, all, codec, i) ==> c'.pps == all[i])
            && (HasNone(IsVps, all, codec) ==> c'.vps == c.vps)
            && (HasNone(IsSps, all, codec) ==> c'.sps == c.sps)
            && (HasNone(IsPps, all, codec) ==> c'.pps == c.pps))
  {
    hide Absorb, FrameNals, ClassifyNal, Flatten, UnitOf, FramePrintedAs, IsLast, HasNone;
    assert (frames + [f])[..|frames|] == frames;
    FrameGivesItsNals(f, nals, codes, codec);
    AbsorbPrinted(CacheAfter(frames, t, codec), FrameNals(f, codec), Flatten(nals), codec, f.timestamp, i);
  }

  lemma AbsorbPrinted(c: Cache, ns: seq<ParsedNal>, all: seq<seq<byte>>, codec: CodecType, timestamp: nat, i: nat)
    requires |ns| == |all| && forall j :: 0 <= j < |all| ==> ns[j] == ClassifyNal(all[j], codec, timestamp)
    ensures var c' := Absorb(c, ns);
      && (IsLast(IsVps, all, codec, i) ==> c'.vps == all[i])
      && (IsLast(IsSps, all, codec, i) ==> c'.sps == all[i])
      && (IsLast(IsPps, all, codec, i) ==> c'.pps == all[i])
      && (HasNone(IsVps, all, codec) ==> c'.vps == c.vps)
      && (HasNone(IsSps, all, codec) ==> c'.sps == c.sps)
      && (HasNone(IsPps, all, codec) ==> c'.pps == c.pps)
  {
    hide Absorb, ClassifyNal, IsVps, IsSps, IsPps;
    forall j | 0 <= j < |all|
      ensures IsVps(ns[j]) == IsVps(ClassifyNal(all[j], codec, 0))
      ensures IsSps(ns[j]) == IsSps(ClassifyNal(all[j], codec, 0))
      ensures IsPps(ns[j]) == IsPps(ClassifyNal(all[j], codec, 0))
    {
      TimeDoesNotMatter(all[j], codec, timestamp, 0);
    }
    AbsorbNone(c, ns);
    if i < |all| {
      NalData(ns, all, codec, timestamp, i);
      AbsorbLast(c, ns, i);
    }
  }

  lemma NalData(ns: seq<ParsedNal>, all: seq<seq<byte>>, codec: CodecType, timestamp: nat, i: nat)
    requires i < |all| == |ns| && ns[i] == ClassifyNal(all[i], codec, timestamp)
    ensures ns[i].data == all[i]
  {}
}
