/**
  The Annex B splitter: a byte stream is cut into NAL units at the start codes
  00 00 01 and 00 00 00 01 (Annex B of ITU-T H.264 and of ITU-T H.265).

  The reference meaning is `Split`, which looks for the first 00 00 01, gives
  one zero before it to the start code, and continues behind it. The scanner
  that jumps by 1, 3 or 4 bytes is proved against it.
*/
module AnnexB {
  import opened Common
  import opened Sequences

  // ---------- Start codes ----------

  predicate Occurs(b: seq<byte>, p: nat) {
    p + 3 <= |b| && b[p] == 0 && b[p + 1] == 0 && b[p + 2] == 1
  }

  ghost predicate Clean(b: seq<byte>) {
    forall p: nat :: !Occurs(b, p)
  }

  function StartCode(len: nat): seq<byte> {
    if len == 4 then [0, 0, 0, 1] else [0, 0, 1]
  }

  /** The length of the start code that begins at i, 0 when none does. */
  function StartCodeLen(b: seq<byte>, i: nat): (r: nat)
    requires i <= |b|
    ensures r == 3 <==> Occurs(b, i)
    ensures r == 4 <==> i < |b| && b[i] == 0 && Occurs(b, i + 1)
    ensures r != 0 ==> i + r <= |b| && b[i..i + r] == StartCode(r)
  {
    if i + 3 <= |b| && b[i] == 0 && b[i + 1] == 0 && b[i + 2] == 1 then 3
    else if i + 4 <= |b| && b[i] == 0 && b[i + 1] == 0 && b[i + 2] == 0 && b[i + 3] == 1 then 4
    else 0
  }

  // ---------- The reference meaning ----------

  /** The first occurrence at or after i, |b| when there is none. */
  function Find(b: seq<byte>, i: nat): (p: nat)
    requires i <= |b|
    ensures i <= p <= |b|
    ensures p < |b| ==> Occurs(b, p)
    ensures forall q: nat :: i <= q < p ==> !Occurs(b, q)
    decreases |b| - i
  {
    if i == |b| || Occurs(b, i) then i else Find(b, i + 1)
  }

  /** The end of the payload in front of the occurrence at f: one zero goes to the start code. */
  function PieceEnd(b: seq<byte>, start: nat, f: nat): (e: nat)
    requires start <= f <= |b|
    ensures start <= e <= f
  {
    if f < |b| && start < f && b[f - 1] == 0 then f - 1 else f
  }

  /** The payloads, empty ones included, from a position just behind a start code. */
  function Pieces(b: seq<byte>, start: nat): (ps: seq<seq<byte>>)
    requires start <= |b|
    ensures |ps| > 0
    decreases |b| - start
  {
    var f := Find(b, start);
    [b[start..PieceEnd(b, start, f)]] + if f == |b| then [] else Pieces(b, f + 3)
  }

  lemma UnfoldPieces(b: seq<byte>, start: nat)
    requires start <= |b|
    ensures var f := Find(b, start);
      && start <= f <= |b| && (f < |b| ==> Occurs(b, f) && f + 3 <= |b|)
      && Pieces(b, start) == [b[start..PieceEnd(b, start, f)]] + if f == |b| then [] else Pieces(b, f + 3)
  {}

  predicate NonEmpty(p: seq<byte>) { p != [] }

  function DropEmpty(ps: seq<seq<byte>>): seq<seq<byte>> { Filter(NonEmpty, ps) }

  function Split(b: seq<byte>): seq<seq<byte>> {
    var f := Find(b, 0);
    DropEmpty(if f == |b| then [b] else Pieces(b, f + 3))
  }

  // ---------- The scan ----------

  /** A start code counts as 4 bytes exactly when a zero comes before its 00 00 01. */
  function CodeLenEndingAt(b: seq<byte>, offset: nat): nat {
    if 4 <= offset <= |b| && b[offset - 4] == 0 then 4 else 3
  }

  /** Where the search for the n-th start code begins. */
  function SearchFrom(offsets: seq<nat>, n: nat): nat
    requires n <= |offsets|
  {
    if n == 0 then 0 else offsets[n - 1]
  }

  /** The n-th offset is behind the first occurrence that follows the one before. */
  ghost predicate Linked(b: seq<byte>, offsets: seq<nat>, scLens: seq<nat>, n: nat)
    requires n < |offsets| == |scLens|
  {
    && SearchFrom(offsets, n) < offsets[n] <= |b|
    && offsets[n] == Find(b, SearchFrom(offsets, n)) + 3
    && scLens[n] == CodeLenEndingAt(b, offsets[n])
  }

  /**
    What the scan has found up to position i. No occurrence at i has a zero before it: that
    zero would have begun a 4-byte code.
  */
  ghost predicate ScannedTo(b: seq<byte>, i: nat, offsets: seq<nat>, scLens: seq<nat>) {
    && i <= |b|
    && |offsets| == |scLens|
    && (forall n :: 0 <= n < |offsets| ==> Linked(b, offsets, scLens, n))
    && SearchFrom(offsets, |offsets|) <= i
    && Find(b, SearchFrom(offsets, |offsets|)) == Find(b, i)
    && (Occurs(b, i) ==> i == 0 || b[i - 1] != 0)
  }

  /** The offsets behind every occurrence of 00 00 01, in order, with the code lengths. */
  ghost predicate ExactScan(b: seq<byte>, offsets: seq<nat>, scLens: seq<nat>) {
    ScannedTo(b, |b|, offsets, scLens)
  }

  lemma RecordKeepsScan(b: seq<byte>, i: nat, offsets: seq<nat>, scLens: seq<nat>)
    requires ScannedTo(b, i, offsets, scLens) && i < |b| && StartCodeLen(b, i) != 0
    ensures var len := StartCodeLen(b, i);
      ScannedTo(b, i + len, offsets + [i + len], scLens + [len])
  {
    var len := StartCodeLen(b, i);
    assert Find(b, i) == i + len - 3;
    var offsets', scLens' := offsets + [i + len], scLens + [len];
    forall n | 0 <= n < |offsets'|
      ensures Linked(b, offsets', scLens', n)
    {
      if n < |offsets| {
        assert Linked(b, offsets, scLens, n);
      }
    }
  }

  method Scan(b: seq<byte>) returns (offsets: seq<nat>, scLens: seq<nat>)
    ensures ExactScan(b, offsets, scLens)
  {
    offsets, scLens := [], [];
    var i := 0;
    while i < |b|
      invariant ScannedTo(b, i, offsets, scLens)
      decreases |b| - i
    {
      var scLen := StartCodeLen(b, i);
      if scLen > 0 {
        RecordKeepsScan(b, i, offsets, scLens);
        offsets := offsets + [i + scLen];
        scLens := scLens + [scLen];
        i := i + scLen;
        continue;
      }
      i := i + 1;
    }
  }

  lemma {:induction false} OffsetOfOccurrence(b: seq<byte>, offsets: seq<nat>, scLens: seq<nat>, p: nat, n: nat)
    requires ExactScan(b, offsets, scLens) && n <= |offsets|
    requires Occurs(b, p) && SearchFrom(offsets, n) <= p
    ensures p + 3 in offsets
    decreases |offsets| - n
  {
    var f := Find(b, SearchFrom(offsets, n));
    if n < |offsets| {
      assert Linked(b, offsets, scLens, n);
      if f < p {
        OffsetOfOccurrence(b, offsets, scLens, p, n + 1);
      } else {
        assert offsets[n] == p + 3;
      }
    }
  }

  lemma {:induction false} OffsetsAscend(b: seq<byte>, offsets: seq<nat>, scLens: seq<nat>, j: nat, k: nat)
    requires ExactScan(b, offsets, scLens) && j < k < |offsets|
    ensures offsets[j] + 3 <= offsets[k]
    decreases k - j
  {
    assert Linked(b, offsets, scLens, k);
    if j + 1 < k {
      OffsetsAscend(b, offsets, scLens, j, k - 1);
    }
  }

  /** The jumping scan finds all occurrences of 00 00 01 and nothing else, in order, with the right lengths. */
  lemma ScanIsExact(b: seq<byte>, offsets: seq<nat>, scLens: seq<nat>)
    requires ExactScan(b, offsets, scLens)
    ensures |offsets| == |scLens|
    ensures forall e: nat :: e in offsets <==> 3 <= e && Occurs(b, e - 3)
    ensures forall j, k :: 0 <= j < k < |offsets| ==> offsets[j] + 3 <= offsets[k]
    ensures forall j :: 0 <= j < |offsets| ==> scLens[j] == if 4 <= offsets[j] && b[offsets[j] - 4] == 0 then 4 else 3
  {
    forall e: nat
      ensures e in offsets <==> 3 <= e && Occurs(b, e - 3)
    {
      if 3 <= e && Occurs(b, e - 3) {
        OffsetOfOccurrence(b, offsets, scLens, e - 3, 0);
      }
      if e in offsets {
        var n :| 0 <= n < |offsets| && offsets[n] == e;
        assert Linked(b, offsets, scLens, n);
      }
    }
    forall j, k | 0 <= j < k < |offsets|
      ensures offsets[j] + 3 <= offsets[k]
    {
      OffsetsAscend(b, offsets, scLens, j, k);
    }
    forall j | 0 <= j < |offsets|
      ensures offsets[j] <= |b| && scLens[j] == CodeLenEndingAt(b, offsets[j])
    {
      assert Linked(b, offsets, scLens, j);
    }
  }

  // ---------- The splitter meets the reference ----------

  datatype ParsedNal = ParsedNal(
    data: seq<byte>, timestamp: nat, isIdr: bool, isVps: bool, isSps: bool, isPps: bool)

  datatype H264NalType = NonIdr264 | Idr264 | Sps264 | Pps264 | Other264

  datatype H265NalType = Vps265 | Sps265 | Pps265 | IdrWRadl265 | IdrNLp265 | Other265

  function ParseH264NalType(data: seq<byte>): H264NalType {
    if |data| < 1 then Other264 else
    var t := data[0] % 32;  // the low five bits
    if t == 1 then NonIdr264
    else if t == 5 then Idr264
    else if t == 7 then Sps264
    else if t == 8 then Pps264
    else Other264
  }

  function ParseH265NalType(data: seq<byte>): H265NalType {
    if |data| < 2 then Other265 else
    var t := (data[0] / 2) % 64;  // six bits above the lowest
    if t == 32 then Vps265
    else if t == 33 then Sps265
    else if t == 34 then Pps265
    else if t == 19 then IdrWRadl265
    else if t == 20 then IdrNLp265
    else Other265
  }

  /** A NAL is classified by its own header alone; the frame's flag plays no part. */
  function ClassifyNal(data: seq<byte>, codec: CodecType, timestamp: nat): (n: ParsedNal)
    ensures n.data == data && n.timestamp == timestamp
    ensures codec.MJPEG? ==> !n.isIdr && !n.isVps && !n.isSps && !n.isPps
    ensures codec.H264? ==> !n.isVps
    ensures data == [] ==> !n.isIdr && !n.isVps && !n.isSps && !n.isPps
    ensures !(n.isVps && n.isSps) && !(n.isVps && n.isPps) && !(n.isSps && n.isPps)
    ensures n.isIdr ==> !n.isVps && !n.isSps && !n.isPps
    ensures codec.H264? && data != [] ==>
      var t := data[0] % 32; (n.isIdr <==> t == 5) && (n.isSps <==> t == 7) && (n.isPps <==> t == 8)
    ensures codec.H265? && |data| >= 2 ==>
      var t := data[0] / 2 % 64;
      (n.isVps <==> t == 32) && (n.isSps <==> t == 33) && (n.isPps <==> t == 34) && (n.isIdr <==> t == 19 || t == 20)
    ensures codec.H265? && |data| < 2 ==> !n.isIdr && !n.isVps && !n.isSps && !n.isPps
  {
    match codec
    case H264 =>
      var t := ParseH264NalType(data);
      ParsedNal(data, timestamp, t.Idr264?, false, t.Sps264?, t.Pps264?)
    case H265 =>
      var t := ParseH265NalType(data);
      ParsedNal(data, timestamp, t.IdrWRadl265? || t.IdrNLp265?, t.Vps265?, t.Sps265?, t.Pps265?)
    case MJPEG =>
      ParsedNal(data, timestamp, false, false, false, false)
  }

  function ClassifyAll(ps: seq<seq<byte>>, codec: CodecType, timestamp: nat): (ns: seq<ParsedNal>)
    ensures |ns| == |ps|
    ensures forall i :: 0 <= i < |ps| ==> ns[i] == ClassifyNal(ps[i], codec, timestamp)
  {
    seq(|ps|, i requires 0 <= i < |ps| => ClassifyNal(ps[i], codec, timestamp))
  }

  lemma DropEmptyCons(p: seq<byte>, ps: seq<seq<byte>>)
    ensures DropEmpty([p] + ps) == if p == [] then DropEmpty(ps) else [p] + DropEmpty(ps)
  {}

  method SplitAnnexBNals(data: seq<byte>, codec: CodecType, timestamp: nat, isIdr: bool, out: seq<ParsedNal>)
    returns (result: seq<ParsedNal>)
    ensures result == out + ClassifyAll(Split(data), codec, timestamp)
  {
    if |data| == 0 {
      SplitWithoutCode(data);
      return out;
    }
    var nalOffsets, nalScLens := Scan(data);
    if nalOffsets == [] {
      SplitWithoutCode(data);
      return out + [ClassifyNal(data, codec, timestamp)];
    }
    OffsetsInBounds(data, nalOffsets, nalScLens);
    SplitIsCuts(data, nalOffsets, nalScLens);
    result := EmitNals(data, nalOffsets, nalScLens, codec, timestamp, out);
  }

  /** What lies between the n-th recorded start code and the next one. */
  function Cut(b: seq<byte>, offsets: seq<nat>, scLens: seq<nat>, n: nat): seq<byte>
    requires n < |offsets| == |scLens|
  {
    var end := if n + 1 < |offsets| then offsets[n + 1] - scLens[n + 1] else |b|;
    if offsets[n] <= end <= |b| then b[offsets[n]..end] else []
  }

  function CutsFrom(b: seq<byte>, offsets: seq<nat>, scLens: seq<nat>, n: nat): seq<seq<byte>>
    requires n <= |offsets| == |scLens|
    decreases |offsets| - n
  {
    if n == |offsets| then [] else [Cut(b, offsets, scLens, n)] + CutsFrom(b, offsets, scLens, n + 1)
  }

  /** The second loop of the splitter: cut between the recorded offsets, skipping empty payloads. */
  method EmitNals(data: seq<byte>, nalOffsets: seq<nat>, nalScLens: seq<nat>,
      codec: CodecType, timestamp: nat, out: seq<ParsedNal>)
    returns (result: seq<ParsedNal>)
    requires |nalOffsets| == |nalScLens|
    requires forall n :: 0 <= n < |nalOffsets| ==> nalOffsets[n] <= |data|
    ensures result == out + ClassifyAll(DropEmpty(CutsFrom(data, nalOffsets, nalScLens, 0)), codec, timestamp)
  {
    result := out;
    for n := 0 to |nalOffsets|
      invariant WithRest(result, DropEmpty(CutsFrom(data, nalOffsets, nalScLens, n)), codec, timestamp) ==
        WithRest(out, DropEmpty(CutsFrom(data, nalOffsets, nalScLens, 0)), codec, timestamp)
    {
      var start := nalOffsets[n];
      var end := if n + 1 < |nalOffsets| then nalOffsets[n + 1] - nalScLens[n + 1] else |data|;
      EmitOne(result, data, nalOffsets, nalScLens, n, codec, timestamp);
      if end <= start {
        continue;
      }
      result := result + [ClassifyNal(data[start..end], codec, timestamp)];
    }
  }

  /** What has been emitted followed by what is still to come. */
  ghost function WithRest(result: seq<ParsedNal>, rest: seq<seq<byte>>, codec: CodecType,
      timestamp: nat): seq<ParsedNal> {
    result + ClassifyAll(rest, codec, timestamp)
  }

  lemma EmitOne(result: seq<ParsedNal>, b: seq<byte>, offsets: seq<nat>, scLens: seq<nat>, n: nat,
      codec: CodecType, timestamp: nat)
    requires n < |offsets| == |scLens|
    ensures var p := Cut(b, offsets, scLens, n);
      WithRest(result, DropEmpty(CutsFrom(b, offsets, scLens, n)), codec, timestamp) ==
      WithRest(if p == [] then result else result + [ClassifyNal(p, codec, timestamp)],
        DropEmpty(CutsFrom(b, offsets, scLens, n + 1)), codec, timestamp)
  {
    hide Cut, ClassifyNal, ClassifyAll, DropEmpty;
    var p, rest := Cut(b, offsets, scLens, n), CutsFrom(b, offsets, scLens, n + 1);
    assert CutsFrom(b, offsets, scLens, n) == [p] + rest;
    hide CutsFrom;
    DropEmptyCons(p, rest);
    var kept := DropEmpty(rest);
    ClassifyCons(p, kept, codec, timestamp);
    var nal := ClassifyNal(p, codec, timestamp);
    assert result + ([nal] + ClassifyAll(kept, codec, timestamp)) ==
      (result + [nal]) + ClassifyAll(kept, codec, timestamp);
  }

  lemma ClassifyCons(p: seq<byte>, ps: seq<seq<byte>>, codec: CodecType, timestamp: nat)
    ensures ClassifyAll([p] + ps, codec, timestamp) ==
      [ClassifyNal(p, codec, timestamp)] + ClassifyAll(ps, codec, timestamp)
  {}

  // ---------- The cuts are the reference pieces ----------

  lemma SplitWithoutCode(b: seq<byte>)
    requires Find(b, 0) == |b|
    ensures Split(b) == if b == [] then [] else [b]
  {
    DropEmptyCons(b, []);
    assert [b] + [] == [b];
  }

  lemma OffsetsInBounds(b: seq<byte>, offsets: seq<nat>, scLens: seq<nat>)
    requires ExactScan(b, offsets, scLens)
    ensures forall n :: 0 <= n < |offsets| ==> offsets[n] <= |b|
  {
    forall n | 0 <= n < |offsets|
      ensures offsets[n] <= |b|
    {
      assert Linked(b, offsets, scLens, n);
    }
  }

  lemma FirstLink(b: seq<byte>, offsets: seq<nat>, scLens: seq<nat>)
    requires ExactScan(b, offsets, scLens) && offsets != []
    ensures Find(b, 0) < |b| && Find(b, 0) + 3 == offsets[0] <= |b|
  {
    assert Linked(b, offsets, scLens, 0);
  }

  lemma SplitIsCuts(b: seq<byte>, offsets: seq<nat>, scLens: seq<nat>)
    requires ExactScan(b, offsets, scLens) && offsets != []
    ensures Split(b) == DropEmpty(CutsFrom(b, offsets, scLens, 0))
  {
    hide Find, Pieces, CutsFrom, DropEmpty, ScannedTo;
    FirstLink(b, offsets, scLens);
    PiecesAreCuts(b, offsets, scLens, 0);
  }

  lemma OffsetsDelimitPiece(b: seq<byte>, offsets: seq<nat>, scLens: seq<nat>, n: nat)
    requires ExactScan(b, offsets, scLens) && n < |offsets|
    ensures offsets[n] <= |b|
    ensures var f := Find(b, offsets[n]);
      if n + 1 < |offsets|
      then f < |b| && f + 3 == offsets[n + 1] && PieceEnd(b, offsets[n], f) + scLens[n + 1] == offsets[n + 1]
      else f == |b| && PieceEnd(b, offsets[n], f) == |b|
  {
    assert Linked(b, offsets, scLens, n);
    assert b[offsets[n] - 1] == 1;
    if n + 1 < |offsets| {
      assert Linked(b, offsets, scLens, n + 1);
    }
  }

  lemma CutIsPiece(b: seq<byte>, offsets: seq<nat>, scLens: seq<nat>, n: nat)
    requires ExactScan(b, offsets, scLens) && n < |offsets|
    ensures offsets[n] <= |b|
    ensures var f := Find(b, offsets[n]);
      && f + 3 == (if n + 1 < |offsets| then offsets[n + 1] else |b| + 3)
      && Cut(b, offsets, scLens, n) == b[offsets[n]..PieceEnd(b, offsets[n], f)]
  {
    hide ExactScan, Find, PieceEnd;
    OffsetsDelimitPiece(b, offsets, scLens, n);
  }

  lemma {:induction false} PiecesAreCuts(b: seq<byte>, offsets: seq<nat>, scLens: seq<nat>, n: nat)
    requires ExactScan(b, offsets, scLens) && n < |offsets|
    ensures offsets[n] <= |b| && Pieces(b, offsets[n]) == CutsFrom(b, offsets, scLens, n)
    decreases |offsets| - n
  {
    hide Find, PieceEnd, Pieces, Cut;
    CutIsPiece(b, offsets, scLens, n);
    UnfoldPieces(b, offsets[n]);
    if n + 1 < |offsets| {
      PiecesAreCuts(b, offsets, scLens, n + 1);
    } else {
      assert CutsFrom(b, offsets, scLens, n + 1) == [];
    }
  }
}
