/** What splitting means: exact conservation, clean payloads, and the exact round trip. */
module AnnexBLaws {
  import opened Common
  import opened Sequences
  import opened AnnexB

  /** The printer: every NAL behind its own start code. */
  function Join(nals: seq<seq<byte>>, codes: seq<nat>): seq<byte>
    requires |nals| == |codes|
  {
    if nals == [] then [] else StartCode(codes[0]) + nals[0] + Join(nals[1..], codes[1..])
  }

  ghost predicate CodeLengths(codes: seq<nat>) {
    forall i :: 0 <= i < |codes| ==> codes[i] == 3 || codes[i] == 4
  }

  ghost predicate Payload(p: seq<byte>) {
    p != [] && Clean(p)
  }

  /** The start code behind NAL i is the short one. */
  predicate ShortCodeFollows(codes: seq<nat>, i: nat) {
    i + 1 < |codes| && codes[i + 1] == 3
  }

  // ---------- One start code ----------

  /** Without one trailing zero, if there is one. */
  function Trim(b: seq<byte>): seq<byte> {
    if b != [] && Last(b) == 0 then b[..|b| - 1] else b
  }

  lemma FindIs(b: seq<byte>, start: nat, f: nat)
    requires start <= f <= |b| && (f < |b| ==> Occurs(b, f))
    requires forall q: nat :: start <= q < f ==> !Occurs(b, q)
    ensures Find(b, start) == f
  {}

  lemma FindInClean(b: seq<byte>)
    requires Clean(b)
    ensures Find(b, 0) == |b|
  {}

  lemma FindInUnclean(b: seq<byte>)
    requires !Clean(b)
    ensures Find(b, 0) < |b|
  {}

  /** Occurrences in a suffix are occurrences in the whole, shifted. */
  lemma FindShifted(x: seq<byte>, y: seq<byte>, t: nat)
    requires t <= |y|
    ensures Find(x + y, |x| + t) == |x| + Find(y, t)
  {
    var b, f := x + y, Find(y, t);
    assert f < |y| ==> Occurs(b, |x| + f);
    forall q: nat | |x| + t <= q < |x| + f
      ensures !Occurs(b, q)
    {
      assert Occurs(b, q) <==> Occurs(y, q - |x|);
    }
    FindIs(b, |x| + t, |x| + f);
  }

  lemma PieceShifted(x: seq<byte>, y: seq<byte>, t: nat, f: nat)
    requires t <= f <= |y|
    ensures (x + y)[|x| + t..PieceEnd(x + y, |x| + t, |x| + f)] == y[t..PieceEnd(y, t, f)]
  {}

  lemma {:induction false} PiecesShifted(x: seq<byte>, y: seq<byte>, t: nat)
    requires t <= |y|
    ensures Pieces(x + y, |x| + t) == Pieces(y, t)
    decreases |y| - t
  {
    hide Find, Pieces, PieceEnd;
    var f := Find(y, t);
    UnfoldPieces(y, t);
    UnfoldPieces(x + y, |x| + t);
    FindShifted(x, y, t);
    PieceShifted(x, y, t, f);
    if f < |y| {
      PiecesShifted(x, y, f + 3);
    }
  }

  lemma FindBehindClean(x: seq<byte>, c: nat, rest: seq<byte>)
    requires Clean(x) && (c == 3 || c == 4)
    ensures Find(x + StartCode(c) + rest, 0) == |x| + c - 3
  {
    var b := x + StartCode(c) + rest;
    forall q: nat | q < |x| + c - 3
      ensures !Occurs(b, q)
    {
      assert q + 3 <= |x| ==> (Occurs(b, q) <==> Occurs(x, q));
    }
    FindIs(b, 0, |x| + c - 3);
  }

  lemma PieceBehindClean(x: seq<byte>, c: nat, rest: seq<byte>)
    requires c == 3 || c == 4
    ensures var b := x + StartCode(c) + rest;
      b[0..PieceEnd(b, 0, |x| + c - 3)] == if c == 3 then Trim(x) else x
  {}

  /** A clean payload comes back, except that a short code takes a trailing zero with it. */
  lemma PiecesBehindClean(x: seq<byte>, c: nat, rest: seq<byte>)
    requires Clean(x) && (c == 3 || c == 4)
    ensures Pieces(x + StartCode(c) + rest, 0) == [if c == 3 then Trim(x) else x] + Pieces(rest, 0)
  {
    hide Find, Pieces, PieceEnd, Trim;
    FindBehindClean(x, c, rest);
    PieceBehindClean(x, c, rest);
    UnfoldPieces(x + StartCode(c) + rest, 0);
    PiecesShifted(x + StartCode(c), rest, 0);
  }

  // ---------- Payloads are clean, and splitting one gives it back ----------

  lemma CleanSlice(b: seq<byte>, lo: nat, hi: nat)
    requires lo <= hi <= |b| && forall q: nat :: lo <= q && q + 3 <= hi ==> !Occurs(b, q)
    ensures Clean(b[lo..hi])
  {
    forall p: nat
      ensures !Occurs(b[lo..hi], p)
    {
      assert lo + p + 3 <= hi ==> !Occurs(b, lo + p);
    }
  }

  lemma {:induction false} PiecesClean(b: seq<byte>, start: nat)
    requires start <= |b|
    ensures forall i :: 0 <= i < |Pieces(b, start)| ==> Clean(Pieces(b, start)[i])
    decreases |b| - start
  {
    var f := Find(b, start);
    CleanSlice(b, start, PieceEnd(b, start, f));
    if f < |b| {
      PiecesClean(b, f + 3);
    }
  }

  lemma {:induction false} DropEmptyPayloads(ps: seq<seq<byte>>)
    requires forall i :: 0 <= i < |ps| ==> Clean(ps[i])
    ensures forall i :: 0 <= i < |DropEmpty(ps)| ==> Payload(DropEmpty(ps)[i])
  {
    if ps != [] {
      hide Clean;
      DropEmptyPayloads(ps[1..]);
      DropEmptyCons(ps[0], ps[1..]);
      assert [ps[0]] + ps[1..] == ps;
    }
  }

  lemma SplitGivesPayloads(b: seq<byte>)
    ensures forall i :: 0 <= i < |Split(b)| ==> Payload(Split(b)[i])
  {
    var f := Find(b, 0);
    if f == |b| {
      CleanSlice(b, 0, f);
      assert b[0..f] == b;
      DropEmptyPayloads([b]);
    } else {
      PiecesClean(b, f + 3);
      DropEmptyPayloads(Pieces(b, f + 3));
    }
  }

  lemma SplitOfPayload(p: seq<byte>)
    requires Payload(p)
    ensures Split(p) == [p]
  {
    FindInClean(p);
    SplitWithoutCode(p);
  }

  /** No emitted NAL contains a start code, and each is a fixed point of the splitter. */
  lemma EmittedNalsAreFixedPoints(b: seq<byte>, i: nat)
    requires i < |Split(b)|
    ensures Payload(Split(b)[i]) && Split(Split(b)[i]) == [Split(b)[i]]
  {
    SplitGivesPayloads(b);
    SplitOfPayload(Split(b)[i]);
  }

  // ---------- Conservation ----------

  lemma JoinCons(p: seq<byte>, ps: seq<seq<byte>>, c: nat, cs: seq<nat>)
    requires |ps| == |cs|
    ensures Join([p] + ps, [c] + cs) == StartCode(c) + (p + Join(ps, cs))
  {}

  /** The length of the start code whose 00 00 01 is at f, seen from the piece that begins at start. */
  function CodeAfter(b: seq<byte>, start: nat, f: nat): nat
    requires start <= f <= |b|
  {
    f + 3 - PieceEnd(b, start, f)
  }

  lemma CutAtCode(b: seq<byte>, start: nat, f: nat)
    requires start <= f && Occurs(b, f)
    ensures var c, e := CodeAfter(b, start, f), PieceEnd(b, start, f);
      && (c == 3 || c == 4) && b[start..] == b[start..e] + (StartCode(c) + b[f + 3..])
      && (c == 3 && start < e ==> Last(b[start..e]) != 0)
  {}

  /** b is its first piece, then every start code with its piece; no short code had a zero to take. */
  ghost predicate Conserved(b: seq<byte>, pieces: seq<seq<byte>>, codes: seq<nat>) {
    && |pieces| == |codes| + 1 && CodeLengths(codes)
    && b == pieces[0] + Join(pieces[1..], codes)
    && forall i :: 0 <= i < |codes| && codes[i] == 3 && pieces[i] != [] ==> Last(pieces[i]) != 0
  }

  lemma ConservedCons(b: seq<byte>, p: seq<byte>, c: nat, pieces: seq<seq<byte>>, codes: seq<nat>, rest: seq<byte>)
    requires Conserved(rest, pieces, codes) && (c == 3 || c == 4)
    requires b == p + (StartCode(c) + rest)
    requires c == 3 && p != [] ==> Last(p) != 0
    ensures Conserved(b, [p] + pieces, [c] + codes)
  {
    JoinCons(pieces[0], pieces[1..], c, codes);
    assert [pieces[0]] + pieces[1..] == pieces;
    assert ([p] + pieces)[1..] == pieces;
  }

  lemma ConservedOne(b: seq<byte>, start: nat)
    requires start <= |b|
    ensures PieceEnd(b, start, |b|) == |b| && Conserved(b[start..], [b[start..|b|]], [])
  {}

  lemma {:induction false} PiecesConserve(b: seq<byte>, start: nat) returns (codes: seq<nat>)
    requires start <= |b|
    ensures Conserved(b[start..], Pieces(b, start), codes)
    decreases |b| - start
  {
    hide Find, Pieces, PieceEnd, Conserved;
    var f := Find(b, start);
    UnfoldPieces(b, start);
    if f == |b| {
      codes := [];
      ConservedOne(b, start);
      assert [b[start..|b|]] + [] == [b[start..|b|]];
    } else {
      CutAtCode(b, start, f);
      codes := PiecesConserve(b, f + 3);
      var p, c := b[start..PieceEnd(b, start, f)], CodeAfter(b, start, f);
      ConservedCons(b[start..], p, c, Pieces(b, f + 3), codes, b[f + 3..]);
      codes := [c] + codes;
    }
  }

  /**
    With a start code in it, a buffer is a discarded clean prefix, then codes and payloads in
    turn. No zero that could belong to a short start code is left in front of it.
  */
  lemma {:induction false} BytesAreConserved(b: seq<byte>)
    returns (prefix: seq<byte>, pieces: seq<seq<byte>>, codes: seq<nat>)
    requires !Clean(b)
    ensures |pieces| == |codes| > 0 && CodeLengths(codes) && Clean(prefix)
    ensures b == prefix + Join(pieces, codes)
    ensures Split(b) == DropEmpty(pieces)
    ensures forall i :: 0 <= i < |pieces| && ShortCodeFollows(codes, i) && pieces[i] != [] ==> Last(pieces[i]) != 0
    ensures codes[0] == 3 && prefix != [] ==> Last(prefix) != 0
  {
    hide Find, Pieces, PieceEnd, DropEmpty, Join, Clean;
    FindInUnclean(b);
    PiecesClean(b, 0);
    UnfoldPieces(b, 0);
    codes := PiecesConserve(b, 0);
    var all := Pieces(b, 0);
    prefix, pieces := all[0], all[1..];
    assert b[0..] == b;
    forall i | 0 <= i < |pieces| && ShortCodeFollows(codes, i) && pieces[i] != []
      ensures Last(pieces[i]) != 0
    {
      assert all[i + 1] == pieces[i] && codes[i + 1] == 3;
    }
  }

  // ---------- The round trip ----------

  /** What comes back: a NAL in front of a short code loses one trailing zero. */
  function Returned(nals: seq<seq<byte>>, codes: seq<nat>): (r: seq<seq<byte>>)
    requires |nals| == |codes|
    ensures |r| == |nals|
  {
    if nals == [] then []
    else [if ShortCodeFollows(codes, 0) then Trim(nals[0]) else nals[0]] + Returned(nals[1..], codes[1..])
  }

  lemma {:induction false} PiecesOfJoin(nals: seq<seq<byte>>, codes: seq<nat>)
    requires |nals| == |codes| > 0 && CodeLengths(codes)
    requires forall i :: 0 <= i < |nals| ==> Clean(nals[i])
    ensures Pieces(nals[0] + Join(nals[1..], codes[1..]), 0) == Returned(nals, codes)
  {
    hide Find;
    var x, rest := nals[0], Join(nals[1..], codes[1..]);
    if |nals| == 1 {
      FindInClean(x);
      assert x + rest == x == x[0..];
    } else {
      PiecesOfJoin(nals[1..], codes[1..]);
      var behind := nals[1] + Join(nals[1..][1..], codes[1..][1..]);
      assert rest == StartCode(codes[1]) + behind;
      assert x + rest == x + StartCode(codes[1]) + behind;
      PiecesBehindClean(x, codes[1], behind);
    }
  }

  lemma SplitBehindCode(rest: seq<byte>, c: nat)
    requires c == 3 || c == 4
    ensures Split(StartCode(c) + rest) == DropEmpty(Pieces(rest, 0))
  {
    hide Find, Pieces, DropEmpty;
    var b := StartCode(c) + rest;
    assert b == [] + StartCode(c) + rest;
    FindBehindClean([], c, rest);
    PiecesShifted(StartCode(c), rest, 0);
  }

  lemma {:induction false} SplitOfJoin(nals: seq<seq<byte>>, codes: seq<nat>)
    requires |nals| == |codes| && CodeLengths(codes)
    requires forall i :: 0 <= i < |nals| ==> Clean(nals[i])
    ensures Split(Join(nals, codes)) == DropEmpty(Returned(nals, codes))
  {
    hide Find, Pieces, Split;
    if nals == [] {
      FindInClean([]);
      SplitWithoutCode([]);
    } else {
      PiecesOfJoin(nals, codes);
      SplitBehindCode(nals[0] + Join(nals[1..], codes[1..]), codes[0]);
      JoinCons(nals[0], nals[1..], codes[0], codes[1..]);
      assert [nals[0]] + nals[1..] == nals && [codes[0]] + codes[1..] == codes;
    }
  }

  function TotalLength(ps: seq<seq<byte>>): nat {
    if ps == [] then 0 else |ps[0]| + TotalLength(ps[1..])
  }

  lemma {:induction false} FilterKeepsLength(ps: seq<seq<byte>>)
    ensures TotalLength(DropEmpty(ps)) == TotalLength(ps)
  {
    if ps != [] {
      FilterKeepsLength(ps[1..]);
      DropEmptyCons(ps[0], ps[1..]);
      assert [ps[0]] + ps[1..] == ps;
      assert ps[0] != [] ==> DropEmpty(ps)[0] == ps[0] && DropEmpty(ps)[1..] == DropEmpty(ps[1..]);
    }
  }

  /** NAL i would lose a zero in the round trip. */
  predicate LosesZero(nals: seq<seq<byte>>, codes: seq<nat>, i: nat)
    requires |nals| == |codes|
  {
    i < |nals| && ShortCodeFollows(codes, i) && nals[i] != [] && Last(nals[i]) == 0
  }

  lemma {:induction false} ReturnedLength(nals: seq<seq<byte>>, codes: seq<nat>)
    requires |nals| == |codes|
    ensures TotalLength(Returned(nals, codes)) <= TotalLength(nals)
    ensures TotalLength(Returned(nals, codes)) == TotalLength(nals) ==> forall i: nat :: !LosesZero(nals, codes, i)
    ensures (forall i: nat :: !LosesZero(nals, codes, i)) ==> Returned(nals, codes) == nals
  {
    if nals != [] {
      ReturnedLength(nals[1..], codes[1..]);
      assert LosesZero(nals, codes, 0) <==> ShortCodeFollows(codes, 0) && Trim(nals[0]) != nals[0];
      forall i: nat
        ensures LosesZero(nals, codes, i + 1) <==> LosesZero(nals[1..], codes[1..], i)
      {
        assert ShortCodeFollows(codes, i + 1) <==> ShortCodeFollows(codes[1..], i);
      }
      forall i: nat | LosesZero(nals, codes, i) && TotalLength(Returned(nals, codes)) == TotalLength(nals)
        ensures false
      {
        assert i > 0 ==> LosesZero(nals[1..], codes[1..], i - 1);
      }
    }
  }

  /**
    Printing and splitting is the identity exactly on lists of non-empty NALs without a
    start code inside, where no NAL in front of a short start code ends in a zero.
  */
  lemma {:induction false} RoundTripExactly(nals: seq<seq<byte>>, codes: seq<nat>)
    requires |nals| == |codes| && CodeLengths(codes)
    ensures Split(Join(nals, codes)) == nals <==>
      && (forall i :: 0 <= i < |nals| ==> Payload(nals[i]))
      && (forall i: nat :: !LosesZero(nals, codes, i))
  {
    SplitGivesPayloads(Join(nals, codes));
    if forall i :: 0 <= i < |nals| ==> Payload(nals[i]) {
      SplitOfJoin(nals, codes);
      FilterKeepsLength(Returned(nals, codes));
      ReturnedLength(nals, codes);
      FilterAllNonEmpty(nals);
    }
  }

  lemma {:induction false} FilterAllNonEmpty(ps: seq<seq<byte>>)
    requires forall i :: 0 <= i < |ps| ==> ps[i] != []
    ensures DropEmpty(ps) == ps
  {
    if ps != [] {
      FilterAllNonEmpty(ps[1..]);
    }
  }

  /** Rewriting any buffer with 4-byte start codes does not change what it splits into. */
  lemma NormalisationIsStable(b: seq<byte>)
    ensures var nals := Split(b);
      Split(Join(nals, seq(|nals|, _ => 4))) == nals
  {
    var nals := Split(b);
    SplitGivesPayloads(b);
    RoundTripExactly(nals, seq(|nals|, _ => 4));
  }

  /** A NAL ending in a zero does not survive a short start code behind it. */
  lemma TrailingZeroIsLost()
    ensures var nals: seq<seq<byte>> := [[0x65, 0], [0x41]];
      Split(Join(nals, [3, 3])) != nals
  {}

  // ---------- Classification reads the type field of the header ----------

  /** The H.264 header byte: forbidden_zero_bit, nal_ref_idc, nal_unit_type. */
  lemma H264TypeDecides(forbidden: nat, refIdc: nat, t: nat, rest: seq<byte>, timestamp: nat)
    requires forbidden < 2 && refIdc < 4 && t < 32
    ensures var n := ClassifyNal([(forbidden * 128 + refIdc * 32 + t) as byte] + rest, H264, timestamp);
      (n.isIdr <==> t == 5) && (n.isSps <==> t == 7) && (n.isPps <==> t == 8) && !n.isVps
  {}

  /** The H.265 header: forbidden_zero_bit, nal_unit_type, and the rest of its two bytes. */
  lemma H265TypeDecides(forbidden: nat, t: nat, layerBit: nat, second: byte, rest: seq<byte>, timestamp: nat)
    requires forbidden < 2 && t < 64 && layerBit < 2
    ensures var n := ClassifyNal([(forbidden * 128 + t * 2 + layerBit) as byte, second] + rest, H265, timestamp);
      && (n.isVps <==> t == 32) && (n.isSps <==> t == 33) && (n.isPps <==> t == 34)
      && (n.isIdr <==> t == 19 || t == 20)
  {
    hide ClassifyNal;
    var first := (forbidden * 128 + t * 2 + layerBit) as byte;
    var data := [first, second] + rest;
    assert data[0] == first && first / 2 % 64 == t as byte;
  }
}
