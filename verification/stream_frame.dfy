/** Encoded frames: monotonic timestamps, and the deep copy that detaches a frame from the encoder's buffers. */
module Frames {
  import opened Common

  // ---------- Frames as values ----------

  /** A pack of a frame; `data` is None for a null pointer. */
  datatype Pack = Pack(data: Option<seq<byte>>, len: nat, naluType: NaluType)

  datatype Frame = Frame(streamType: StreamType, codec: CodecType, timestamp: nat, packs: seq<Pack>)

  /** A non-null pack has `len` bytes. */
  ghost predicate Measured(f: Frame) {
    forall p :: p in f.packs && p.data.Some? ==> |p.data.value| == p.len
  }

  /** Moreover, a null pack claims none. */
  ghost predicate WellFormed(f: Frame) {
    Measured(f) && forall p :: p in f.packs && p.data.None? ==> p.len == 0
  }

  predicate HasIdrPack(packs: seq<Pack>) {
    exists i :: 0 <= i < |packs| && packs[i].naluType == IdrSlice
  }

  predicate FrameIsIdr(f: Frame) {
    f.codec == MJPEG || HasIdrPack(f.packs)
  }

  // ---------- Timestamps ----------

  function NextTimestamp(last: nat, now: nat): (ts: nat)
    ensures ts > last && ts >= now
    ensures ts == now || ts == last + 1
  {
    if now <= last then last + 1 else now
  }

  /** All timestamps issued for a sequence of clock readings. */
  function Issue(last: nat, readings: seq<nat>): (ts: seq<nat>)
    ensures |ts| == |readings|
    decreases |readings|
  {
    if readings == [] then []
    else var t := NextTimestamp(last, readings[0]); [t] + Issue(t, readings[1..])
  }

  /** A strictly increasing sequence, above `last` and never below the readings. */
  ghost predicate Repairs(last: nat, readings: seq<nat>, ts: seq<nat>) {
    && |ts| == |readings|
    && (forall i :: 0 <= i < |ts| ==> ts[i] > last && ts[i] >= readings[i])
    && (forall i, j :: 0 <= i < j < |ts| ==> ts[i] < ts[j])
  }

  lemma {:induction false} IssueRepairs(last: nat, readings: seq<nat>)
    ensures Repairs(last, readings, Issue(last, readings))
    decreases |readings|
  {
    if readings != [] {
      var t := NextTimestamp(last, readings[0]);
      IssueRepairs(t, readings[1..]);
      var ts, rest := Issue(last, readings), Issue(t, readings[1..]);
      forall i | 0 < i < |ts|
        ensures ts[i] == rest[i - 1] > t && ts[i] >= readings[i]
      {}
    }
  }

  /** The issued timestamps are the least repair of the clock, whatever the clock does. */
  lemma {:induction false} IssueIsLeastRepair(last: nat, readings: seq<nat>, other: seq<nat>)
    requires Repairs(last, readings, other)
    ensures Repairs(last, readings, Issue(last, readings))
    ensures forall i :: 0 <= i < |readings| ==> Issue(last, readings)[i] <= other[i]
    decreases |readings|
  {
    IssueRepairs(last, readings);
    if readings != [] {
      var t := NextTimestamp(last, readings[0]);
      assert t <= other[0];
      IssueIsLeastRepair(t, readings[1..], other[1..]);
      forall i | 0 < i < |readings|
        ensures Issue(last, readings)[i] <= other[i]
      {
        assert Issue(t, readings[1..])[i - 1] <= other[1..][i - 1];
      }
    }
  }

  class MonotonicClock {
    var lastTimestamp: nat

    constructor ()
      ensures lastTimestamp == 0
    {
      lastTimestamp := 0;
    }

    method NextTimestampMs(reading: nat) returns (now: nat)
      modifies this
      ensures now == lastTimestamp == NextTimestamp(old(lastTimestamp), reading)
    {
      now := reading;
      if now <= lastTimestamp {
        now := lastTimestamp + 1;
      }
      lastTimestamp := now;
    }
  }

  // ---------- The deep copy ----------

  const MAX_PACKS: nat := 16

  /** A pack as the encoder hands it over: a pointer into a buffer it will release. */
  datatype FramePack = FramePack(data: array?<byte>, len: nat, naluType: NaluType)

  ghost predicate Readable(p: FramePack) {
    p.data != null ==> p.len <= p.data.Length
  }

  ghost function PackView(p: FramePack): Pack
    requires Readable(p)
    reads p.data
  {
    Pack(if p.data == null then None else Some(p.data[..p.len]), p.len, p.naluType)
  }

  method CopyPack(pk: FramePack) returns (copied: FramePack, bytes: array<byte>)
    requires Readable(pk)
    ensures fresh(bytes) && Readable(copied)
    ensures copied.len == pk.len && copied.naluType == pk.naluType
    ensures copied.data == if pk.data != null && pk.len > 0 then bytes else null
    ensures pk.data != null && pk.len > 0 ==> bytes[..] == pk.data[..pk.len]
  {
    if pk.data != null && pk.len > 0 {
      bytes := new byte[pk.len](k requires 0 <= k < pk.len reads pk.data => pk.data[k]);
      copied := pk.(data := bytes);
    } else {
      bytes := new byte[0];
      copied := pk.(data := null);
    }
  }

  class StreamFrame {
    const streamType: StreamType
    const codec: CodecType
    const timestamp: nat
    const packCount: nat
    var packs: seq<FramePack>
    var packData: seq<array<byte>>

    ghost predicate Valid()
      reads this, packData
    {
      && packCount <= |packs|
      && packCount <= MAX_PACKS
      && |packData| == packCount
      && (forall i :: 0 <= i < packCount ==>
            Readable(packs[i]) && (packs[i].data == null || packs[i].data == packData[i]))
    }

    ghost function View(): (f: Frame)
      requires Valid()
      reads this, packData
    {
      Frame(streamType, codec, timestamp,
        seq(packCount, i requires 0 <= i < packCount reads this, packData requires Valid() => PackView(packs[i])))
    }

    constructor (
        streamType: StreamType, codec: CodecType, data: seq<FramePack>, packCount: nat,
        clock: MonotonicClock, reading: nat)
      requires |data| == MAX_PACKS && packCount <= MAX_PACKS
      requires forall i :: 0 <= i < packCount ==> Readable(data[i])
      modifies clock
      ensures Valid() && forall i :: 0 <= i < |packData| ==> fresh(packData[i])
      ensures timestamp == clock.lastTimestamp == NextTimestamp(old(clock.lastTimestamp), reading)
      ensures this.streamType == streamType && this.codec == codec && this.packCount == packCount
      ensures forall i :: 0 <= i < packCount ==>
        packs[i].len == data[i].len && packs[i].naluType == data[i].naluType
      ensures forall i :: 0 <= i < packCount ==>
        packs[i].data == if data[i].data != null && data[i].len > 0 then packData[i] else null
      ensures forall i :: 0 <= i < packCount && data[i].data != null && data[i].len > 0 ==>
        Readable(data[i]) && packData[i][..] == old(data[i].data[..data[i].len])
    {
      this.streamType, this.codec, this.packCount := streamType, codec, packCount;
      packs, packData := data, [];
      var ts := clock.NextTimestampMs(reading);
      timestamp := ts;
      new;
      for i := 0 to packCount
        invariant |packs| == MAX_PACKS && |packData| == i && clock.lastTimestamp == timestamp
        invariant forall j :: i <= j < MAX_PACKS ==> packs[j] == data[j]
        invariant forall j :: 0 <= j < i ==> fresh(packData[j])
        invariant forall j :: 0 <= j < i ==>
          Readable(packs[j]) && (packs[j].data == null || packs[j].data == packData[j])
        invariant forall j :: 0 <= j < i ==> packs[j].len == data[j].len && packs[j].naluType == data[j].naluType
        invariant forall j :: 0 <= j < i ==>
          packs[j].data == if data[j].data != null && data[j].len > 0 then packData[j] else null
        invariant forall j :: 0 <= j < i && data[j].data != null && data[j].len > 0 ==>
          Readable(data[j]) && packData[j][..] == old(data[j].data[..data[j].len])
      {
        var pk, copy := CopyPack(packs[i]);
        packData := packData + [copy];
        packs := packs[i := pk];
      }
    }

    method IsIdr() returns (idr: bool)
      requires Valid()
      ensures idr <==> codec == MJPEG || exists i :: 0 <= i < packCount && packs[i].naluType == IdrSlice
      ensures idr == FrameIsIdr(View())
    {
      if codec == MJPEG {
        return true;
      }
      var count := packCount;
      if count > MAX_PACKS {
        count := MAX_PACKS;
      }
      for i := 0 to count
        invariant forall j :: 0 <= j < i ==> packs[j].naluType != IdrSlice
      {
        if packs[i].naluType == IdrSlice {
          assert View().packs[i].naluType == IdrSlice;
          return true;
        }
      }
      return false;
    }
  }

  /** What the encoder may do with its buffers once it has them back. */
  method Overwrite(data: seq<FramePack>, packCount: nat, later: (nat, nat) -> byte)
    requires packCount <= |data|
    modifies set i | 0 <= i < packCount && data[i].data != null :: data[i].data
  {
    for i := 0 to packCount {
      if data[i].data != null {
        for k := 0 to data[i].data.Length {
          data[i].data[k] := later(i, k);
        }
      }
    }
  }

  /** Whatever the encoder writes to its buffers afterwards, `later`, the frame keeps its bytes. */
  method FrameOutlivesItsSource(streamType: StreamType, codec: CodecType, data: seq<FramePack>, packCount: nat,
      clock: MonotonicClock, reading: nat, later: (nat, nat) -> byte) returns (frame: StreamFrame)
    requires |data| == MAX_PACKS && packCount <= MAX_PACKS
    requires forall i :: 0 <= i < packCount ==> Readable(data[i])
    modifies clock, set i | 0 <= i < packCount && data[i].data != null :: data[i].data
    ensures frame.Valid() && frame.packCount == packCount
    ensures frame.streamType == streamType && frame.codec == codec
      && frame.timestamp == NextTimestamp(old(clock.lastTimestamp), reading)
    ensures forall i :: 0 <= i < packCount ==>
      frame.packs[i].len == data[i].len && frame.packs[i].naluType == data[i].naluType
    ensures forall i :: 0 <= i < packCount && (data[i].data == null || data[i].len == 0) ==> frame.packs[i].data == null
    ensures forall i :: 0 <= i < packCount && data[i].data != null && data[i].len > 0 ==>
      && Readable(data[i]) && frame.packs[i].data != null
      && frame.packs[i].data[..] == old(data[i].data[..data[i].len])
      && frame.View().packs[i].data == Some(old(data[i].data[..data[i].len]))
  {
    frame := new StreamFrame(streamType, codec, data, packCount, clock, reading);
    Overwrite(data, packCount, later);
    forall i | 0 <= i < packCount && data[i].data != null && data[i].len > 0
      ensures frame.packs[i].data != null && frame.View().packs[i].data == Some(frame.packs[i].data[..])
    {
      var pk := frame.packs[i];
      assert frame.View().packs[i] == PackView(pk);
      assert pk.data[..pk.len] == pk.data[..];
    }
  }
}
