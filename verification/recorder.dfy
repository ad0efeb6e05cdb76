/** The recorder: a bounded write queue that gives up non-IDR frames first, and its writer thread. */
module Recorder {
  import opened Common
  import opened Sequences
  import opened Frames

  datatype Entry = Entry(data: seq<byte>, isIdr: bool)

  /** The bytes of a pack; a null pointer has none. */
  function BytesOf(p: Pack): seq<byte> {
    match p.data
    case Some(d) => d
    case None => []
  }

  function Bytes(packs: seq<Pack>): seq<byte> {
    if packs == [] then [] else Bytes(packs[..|packs| - 1]) + BytesOf(Last(packs))
  }

  function EntryOf(f: Frame): Entry {
    Entry(Bytes(f.packs), FrameIsIdr(f))
  }

  function TotalLen(packs: seq<Pack>): nat {
    if packs == [] then 0 else TotalLen(packs[..|packs| - 1]) + Last(packs).len
  }

  /** A null pack has length 0, any other has `len` bytes. */
  ghost predicate Sized(packs: seq<Pack>) {
    forall i :: 0 <= i < |packs| ==> packs[i].len == match packs[i].data case Some(d) => |d| case None => 0
  }

  lemma UnfoldBytes(packs: seq<Pack>)
    requires packs != []
    ensures var n := |packs| - 1;
      && Bytes(packs) == Bytes(packs[..n]) + BytesOf(packs[n])
      && TotalLen(packs) == TotalLen(packs[..n]) + packs[n].len
  {}

  lemma {:induction false} LengthOfBytes(packs: seq<Pack>)
    requires Sized(packs)
    ensures |Bytes(packs)| == TotalLen(packs)
  {
    if packs != [] {
      LengthOfBytes(packs[..|packs| - 1]);
    }
  }

  /** Byte k of pack i stands behind all bytes of the packs in front. */
  lemma {:induction false} BytesInPlace(packs: seq<Pack>, i: nat, k: nat)
    requires Sized(packs)
    requires i < |packs| && packs[i].data.Some? && k < packs[i].len
    ensures k < |packs[i].data.value| && TotalLen(packs[..i]) + k < |Bytes(packs)|
    ensures Bytes(packs)[TotalLen(packs[..i]) + k] == packs[i].data.value[k]
  {
    hide Bytes, TotalLen;
    var n := |packs| - 1;
    UnfoldBytes(packs);
    if i < n {
      assert packs[..n][i] == packs[i] && packs[..n][..i] == packs[..i];
      BytesInPlace(packs[..n], i, k);
    } else {
      LengthOfBytes(packs[..n]);
    }
  }

  /** These are the bytes of all packs, one pack behind the other. */
  ghost predicate Concatenates(data: seq<byte>, packs: seq<Pack>) {
    |data| == TotalLen(packs) && forall i, k: nat :: HasByte(packs, i, k) ==> InPlace(data, packs, i, k)
  }

  predicate HasByte(packs: seq<Pack>, i: int, k: nat) {
    0 <= i < |packs| && packs[i].data.Some? && k < packs[i].len
  }

  ghost predicate InPlace(data: seq<byte>, packs: seq<Pack>, i: int, k: nat)
    requires HasByte(packs, i, k)
  {
    var at := TotalLen(packs[..i]) + k;
    k < |packs[i].data.value| && at < |data| && data[at] == packs[i].data.value[k]
  }

  lemma BytesConcatenate(packs: seq<Pack>)
    requires Sized(packs)
    ensures Concatenates(Bytes(packs), packs)
  {
    hide Bytes, TotalLen, Sized;
    LengthOfBytes(packs);
    forall i, k: nat | HasByte(packs, i, k)
      ensures InPlace(Bytes(packs), packs, i, k)
    {
      BytesInPlace(packs, i, k);
    }
  }

  /** An entry is the whole of its frame, byte by byte, and knows whether it is an IDR frame. */
  lemma EntryIsWhole(f: Frame)
    requires WellFormed(f)
    ensures EntryOf(f).isIdr <==> f.codec == MJPEG || exists i :: 0 <= i < |f.packs| && f.packs[i].naluType == IdrSlice
    ensures Concatenates(EntryOf(f).data, f.packs)
  {
    hide Concatenates;
    assert forall i :: 0 <= i < |f.packs| ==> f.packs[i] in f.packs;
    BytesConcatenate(f.packs);
  }

  // ---------- The drop policy ----------

  function FirstNonIdr(q: seq<Entry>): (k: nat)
    ensures k <= |q|
    ensures k < |q| ==> !q[k].isIdr
    ensures forall j :: 0 <= j < k ==> q[j].isIdr
  {
    if q == [] || !q[0].isIdr then 0 else 1 + FirstNonIdr(q[1..])
  }

  /** The place that try_drop_frame empties: the oldest non-IDR entry, or the oldest of all. */
  function Victim(q: seq<Entry>): (k: nat)
    requires q != []
    ensures k < |q|
    ensures q[k].isIdr ==> k == 0 && forall j :: 0 <= j < |q| ==> q[j].isIdr
    ensures forall j :: 0 <= j < k ==> q[j].isIdr
  {
    var k := FirstNonIdr(q);
    if k < |q| then k else 0
  }

  predicate IsIdrEntry(e: Entry) { e.isIdr }

  predicate IsOtherEntry(e: Entry) { !e.isIdr }

  function Idrs(q: seq<Entry>): seq<Entry> { Filter(IsIdrEntry, q) }

  function Others(q: seq<Entry>): seq<Entry> { Filter(IsOtherEntry, q) }

  lemma {:induction false} OnlyIdrs(q: seq<Entry>)
    requires forall j :: 0 <= j < |q| ==> q[j].isIdr
    ensures Idrs(q) == q && Others(q) == []
  {
    if q != [] {
      OnlyIdrs(q[1..]);
    }
  }

  /** Removing the victim takes the oldest of its kind and leaves the other kind as it was. */
  lemma VictimIsOldestOfItsKind(q: seq<Entry>)
    requires q != []
    ensures var k := Victim(q); var r := RemoveAt(q, k);
      if q[k].isIdr then Idrs(q) == [q[k]] + Idrs(r) && Others(r) == Others(q) == []
      else Others(q) == [q[k]] + Others(r) && Idrs(r) == Idrs(q)
  {
    hide Idrs, Others;
    var k := Victim(q);
    var a, b := q[..k], q[k + 1..];
    OnlyIdrs(a);
    KindsOfThree(a, q[k], b);
    assert q == a + [q[k]] + b;
    if q[k].isIdr {
      OnlyIdrs(b);
      assert a == [] && [] + [q[k]] + Idrs(b) == [q[k]] + Idrs(b);
    } else {
      assert [] + [q[k]] + Others(b) == [q[k]] + Others(b);
    }
  }

  lemma KindsOfThree(a: seq<Entry>, x: Entry, b: seq<Entry>)
    ensures Idrs(a + [x] + b) == Idrs(a) + (if x.isIdr then [x] else []) + Idrs(b)
    ensures Others(a + [x] + b) == Others(a) + (if x.isIdr then [] else [x]) + Others(b)
    ensures Idrs(a + b) == Idrs(a) + Idrs(b) && Others(a + b) == Others(a) + Others(b)
  {
    hide Filter;
    FilterMiddle(IsIdrEntry, a, x, b);
    FilterAppend(IsIdrEntry, a, b);
    FilterMiddle(IsOtherEntry, a, x, b);
    FilterAppend(IsOtherEntry, a, b);
  }

  lemma KindsOfAppend(a: seq<Entry>, x: Entry)
    ensures Idrs(a + [x]) == Idrs(a) + if x.isIdr then [x] else []
    ensures Others(a + [x]) == Others(a) + if x.isIdr then [] else [x]
  {
    hide Filter;
    FilterAppend(IsIdrEntry, a, [x]);
    FilterAppend(IsOtherEntry, a, [x]);
    FilterOne(IsIdrEntry, x);
    FilterOne(IsOtherEntry, x);
  }

  function MakeRoom(q: seq<Entry>, max: nat): (r: seq<Entry>)
    requires max > 0
    ensures |q| <= max ==> |r| < max
  {
    if |q| >= max then RemoveAt(q, Victim(q)) else q
  }

  // ---------- Whole runs ----------

  /** From Decided on the writer holds the mutex until it has an entry or leaves. */
  datatype Writer = LoopHead | Waiting | Decided | Popping | Writing(entry: Entry) | Exited | Crashed

  /**
    The recorder with its history: the frames received, the arrival numbers of the entries that
    are queued, were taken, or were dropped, and what has been written to the file.
  */
  datatype State = State(
    queue: seq<Entry>, running: bool, dropped: nat, consumed: nat, writer: Writer,
    frames: seq<Frame>, queuedAt: seq<nat>, takenAt: seq<nat>, droppedAt: seq<nat>, file: seq<Entry>)

  const Start := State([], true, 0, 0, LoopHead, [], [], [], [], [])

  datatype Event = OnFrame(frame: Frame) | LoopTest | WaitTest | StopTest | PopFront | Write | StopFlag

  function Receive(st: State, max: nat, f: Frame): State
    requires max > 0
  {
    var full := |st.queue| >= max;
    var k := if full then Victim(st.queue) else 0;
    var room := if full && k < |st.queuedAt| then RemoveAt(st.queuedAt, k) else st.queuedAt;
    st.(queue := MakeRoom(st.queue, max) + [EntryOf(f)],
      dropped := if full then st.dropped + 1 else st.dropped,
      frames := st.frames + [f],
      queuedAt := room + [|st.frames|],
      droppedAt := if full && k < |st.queuedAt| then st.droppedAt + [st.queuedAt[k]] else st.droppedAt)
  }

  function Take(st: State): State {
    if st.queue == [] || st.queuedAt == [] then st.(writer := Crashed) else
    st.(queue := st.queue[1..], writer := Writing(st.queue[0]),
      queuedAt := st.queuedAt[1..], takenAt := st.takenAt + [st.queuedAt[0]])
  }

  /** One atomic step; None when it cannot happen. */
  function Next(st: State, max: nat, e: Event): Option<State>
    requires max > 0
  {
    match e
    case OnFrame(f) =>
      if st.writer.Decided? || st.writer.Popping? then None else Some(Receive(st, max, f))
    case LoopTest =>
      if !st.writer.LoopHead? then None else Some(st.(writer := if st.running then Waiting else Exited))
    case WaitTest =>
      if !st.writer.Waiting? then None
      else Some(if st.queue != [] || !st.running then st.(writer := Decided) else st)
    case StopTest =>
      if !st.writer.Decided? then None else Some(st.(writer := if st.running then Popping else Exited))
    case PopFront =>
      if !st.writer.Popping? then None else Some(Take(st))
    case Write =>
      if !st.writer.Writing? then None
      else Some(st.(writer := LoopHead, file := st.file + [st.writer.entry], consumed := st.consumed + 1))
    case StopFlag => Some(st.(running := false))
  }

  ghost predicate Run(st: State, max: nat, events: seq<Event>, last: State)
    requires max > 0
    decreases |events|
  {
    if events == [] then last == st
    else Next(st, max, events[0]).Some? && Run(Next(st, max, events[0]).value, max, events[1..], last)
  }

  function Entries(frames: seq<Frame>): (es: seq<Entry>)
    ensures |es| == |frames|
    ensures forall i :: 0 <= i < |frames| ==> es[i] == EntryOf(frames[i])
  {
    seq(|frames|, i requires 0 <= i < |frames| => EntryOf(frames[i]))
  }

  /** Each entry is the whole of the frame that arrived at its number. */
  ghost predicate ComeFrom(es: seq<Entry>, at: seq<nat>, frames: seq<Frame>) {
    && |es| == |at|
    && forall j :: 0 <= j < |at| ==> at[j] < |frames| && es[j] == EntryOf(frames[at[j]])
  }

  ghost predicate Ascending(at: seq<nat>) {
    forall i, j :: 0 <= i < j < |at| ==> at[i] < at[j]
  }

  function Taken(st: State): seq<Entry> {
    st.file + if st.writer.Writing? then [st.writer.entry] else []
  }

  /** Taken before queued, both in the order of arrival; nothing lost but what was dropped. */
  ghost predicate OrderInv(st: State) {
    && ComeFrom(st.queue, st.queuedAt, st.frames)
    && ComeFrom(Taken(st), st.takenAt, st.frames)
    && Ascending(st.takenAt + st.queuedAt)
  }

  ghost predicate CountInv(st: State, max: nat) {
    && |st.queue| == |st.queuedAt| <= max
    && |st.frames| == |st.takenAt| + |st.droppedAt| + |st.queuedAt|
    && st.consumed == |st.file|
    && st.dropped == |st.droppedAt|
    && |st.takenAt| == st.consumed + (if st.writer.Writing? then 1 else 0)
  }

  /** Every frame was taken, is queued, or was dropped. */
  ghost predicate PlaceInv(st: State) {
    forall i: nat :: i < |st.frames| ==> i in st.takenAt || i in st.queuedAt || i in st.droppedAt
  }

  ghost predicate KindInv(st: State) {
    && IsSuffix(Idrs(st.queue), Idrs(Entries(st.frames)))
    && IsSuffix(Others(st.queue), Others(Entries(st.frames)))
  }

  ghost predicate WriterInv(st: State) {
    && !st.writer.Crashed?
    && (st.writer.Decided? ==> st.queue != [] || !st.running)
    && (st.writer.Popping? ==> st.queue != [])
  }

  ghost predicate Inv(st: State, max: nat) {
    OrderInv(st) && CountInv(st, max) && PlaceInv(st) && KindInv(st) && WriterInv(st)
  }

  lemma AscendingRemove(a: seq<nat>, b: seq<nat>, k: nat)
    requires Ascending(a + b) && k < |b|
    ensures Ascending(a + RemoveAt(b, k))
  {
    var r := a + RemoveAt(b, k);
    forall i, j | 0 <= i < j < |r|
      ensures r[i] < r[j]
    {
      var i' := if i < |a| + k then i else i + 1;
      var j' := if j < |a| + k then j else j + 1;
      assert r[i] == (a + b)[i'] && r[j] == (a + b)[j'];
    }
  }

  lemma AscendingExtend(a: seq<nat>, b: seq<nat>, n: nat)
    requires Ascending(a + b) && forall i :: 0 <= i < |a + b| ==> (a + b)[i] < n
    ensures Ascending(a + (b + [n]))
  {
    assert a + (b + [n]) == (a + b) + [n];
  }

  lemma ReceiveKeepsOrder(st: State, max: nat, f: Frame)
    requires max > 0 && OrderInv(st) && |st.queue| <= max
    ensures OrderInv(Receive(st, max, f))
  {
    hide EntryOf, FirstNonIdr, ComeFrom, Ascending;
    ComeFromBounds(st.queue, st.queuedAt, st.frames);
    ComeFromBounds(Taken(st), st.takenAt, st.frames);
    var full := |st.queue| >= max;
    var k := if full then Victim(st.queue) else 0;
    var queue, room := MakeRoom(st.queue, max), if full then RemoveAt(st.queuedAt, k) else st.queuedAt;
    if full {
      AscendingRemove(st.takenAt, st.queuedAt, k);
      ComeFromRemove(st.queue, st.queuedAt, st.frames, k);
    }
    ComeFromBounds(queue, room, st.frames);
    AscendingExtend(st.takenAt, room, |st.frames|);
    ComeFromGrows(queue, room, st.frames, f);
    ComeFromGrows(Taken(st), st.takenAt, st.frames, f);
  }

  lemma ComeFromBounds(es: seq<Entry>, at: seq<nat>, frames: seq<Frame>)
    requires ComeFrom(es, at, frames)
    ensures |es| == |at| && forall i :: 0 <= i < |at| ==> at[i] < |frames|
  {}

  lemma ComeFromRemove(es: seq<Entry>, at: seq<nat>, frames: seq<Frame>, k: nat)
    requires ComeFrom(es, at, frames) && k < |es| == |at|
    ensures ComeFrom(RemoveAt(es, k), RemoveAt(at, k), frames)
  {}

  /** One more frame leaves old entries alone and may add one of its own. */
  lemma ComeFromGrows(es: seq<Entry>, at: seq<nat>, frames: seq<Frame>, f: Frame)
    requires ComeFrom(es, at, frames)
    ensures ComeFrom(es, at, frames + [f]) && ComeFrom(es + [EntryOf(f)], at + [|frames|], frames + [f])
  {}

  lemma SuffixGrows<T>(s: seq<T>, whole: seq<T>, more: seq<T>)
    requires IsSuffix(s, whole)
    ensures IsSuffix(s + more, whole + more)
  {}

  lemma SuffixShrinks<T>(x: seq<T>, s: seq<T>, whole: seq<T>)
    requires IsSuffix(x + s, whole)
    ensures IsSuffix(s, whole)
  {}

  lemma RoomKeepsKinds(q: seq<Entry>, max: nat, all: seq<Entry>)
    requires max > 0 && IsSuffix(Idrs(q), Idrs(all)) && IsSuffix(Others(q), Others(all))
    ensures var r := MakeRoom(q, max); IsSuffix(Idrs(r), Idrs(all)) && IsSuffix(Others(r), Others(all))
  {
    if |q| >= max {
      VictimIsOldestOfItsKind(q);
      var k := Victim(q);
      hide Idrs, Others, Victim, RemoveAt;
      var r := RemoveAt(q, k);
      if q[k].isIdr {
        SuffixShrinks([q[k]], Idrs(r), Idrs(all));
      } else {
        SuffixShrinks([q[k]], Others(r), Others(all));
      }
    }
  }

  lemma ReceiveKeepsKinds(st: State, max: nat, f: Frame)
    requires max > 0 && KindInv(st)
    ensures KindInv(Receive(st, max, f))
  {
    var all, room, e := Entries(st.frames), MakeRoom(st.queue, max), EntryOf(f);
    RoomKeepsKinds(st.queue, max, all);
    KindsOfAppend(room, e);
    KindsOfAppend(all, e);
    assert Entries(st.frames + [f]) == all + [e];
    hide Idrs, Others, MakeRoom, Entries, EntryOf;
    SuffixGrows(Idrs(room), Idrs(all), if e.isIdr then [e] else []);
    SuffixGrows(Others(room), Others(all), if e.isIdr then [] else [e]);
  }

  lemma TakeKeepsKinds(st: State)
    requires KindInv(st) && st.queue != [] && st.queuedAt != []
    ensures KindInv(Take(st))
  {}

  lemma TakeKeepsOrder(st: State)
    requires OrderInv(st) && st.queue != [] && !st.writer.Writing?
    ensures OrderInv(Take(st))
  {
    var st' := Take(st);
    assert st'.takenAt + st'.queuedAt == st.takenAt + st.queuedAt;
  }

  lemma ReceiveKeepsPlaces(st: State, max: nat, f: Frame)
    requires max > 0 && PlaceInv(st) && |st.queuedAt| == |st.queue|
    ensures PlaceInv(Receive(st, max, f))
  {
    hide FirstNonIdr, EntryOf;
    var st', k := Receive(st, max, f), if st.queue == [] then 0 else Victim(st.queue);
    if |st.queue| >= max {
      MembersAfterRemove(st.queuedAt, k);
    }
    forall i: nat | i < |st'.frames|
      ensures i in st'.takenAt || i in st'.queuedAt || i in st'.droppedAt
    {
      assert st'.queuedAt[|st'.queuedAt| - 1] == |st.frames|;
    }
  }

  lemma MembersAfterRemove(s: seq<nat>, k: nat)
    requires k < |s|
    ensures forall x :: x in s <==> x == s[k] || x in RemoveAt(s, k)
  {
    assert s == s[..k] + [s[k]] + s[k + 1..];
  }

  lemma TakeKeepsPlaces(st: State)
    requires PlaceInv(st) && st.queue != [] && st.queuedAt != []
    ensures PlaceInv(Take(st))
  {}

  lemma WriterStepKeepsRest(st: State, max: nat, e: Event)
    requires max > 0 && OrderInv(st) && KindInv(st) && PlaceInv(st)
    requires !e.OnFrame? && !e.PopFront? && Next(st, max, e).Some?
    ensures var st' := Next(st, max, e).value; OrderInv(st') && KindInv(st') && PlaceInv(st')
  {}

  lemma StepKeepsInv(st: State, max: nat, e: Event)
    requires max > 0 && Inv(st, max) && Next(st, max, e).Some?
    ensures Inv(Next(st, max, e).value, max)
  {
    hide OrderInv, KindInv, PlaceInv;
    match e
    case OnFrame(f) =>
      ReceiveKeepsOrder(st, max, f);
      ReceiveKeepsKinds(st, max, f);
      ReceiveKeepsPlaces(st, max, f);
    case PopFront =>
      TakeKeepsOrder(st);
      TakeKeepsKinds(st);
      TakeKeepsPlaces(st);
    case _ => WriterStepKeepsRest(st, max, e);
  }

  lemma {:induction false} RunKeepsInv(st: State, max: nat, events: seq<Event>, last: State)
    requires max > 0 && Inv(st, max) && Run(st, max, events, last)
    ensures Inv(last, max)
    decreases |events|
  {
    hide Inv;
    if events != [] {
      StepKeepsInv(st, max, events[0]);
      RunKeepsInv(Next(st, max, events[0]).value, max, events[1..], last);
    }
  }

  // ---------- What holds over every interleaving ----------

  lemma ReachableInv(max: nat, events: seq<Event>, last: State)
    requires max > 0 && Run(Start, max, events, last)
    ensures Inv(last, max)
  {
    assert Inv(Start, max);
    RunKeepsInv(Start, max, events, last);
  }

  /**
    Of either kind, IDR or not, the queue holds exactly the newest received, in order: a frame
    is given up only together with every older frame of its kind.
  */
  lemma QueueKeepsTheNewestOfEachKind(max: nat, events: seq<Event>, last: State)
    requires max > 0 && Run(Start, max, events, last)
    ensures |last.queue| <= max
    ensures IsSuffix(Idrs(last.queue), Idrs(Entries(last.frames)))
    ensures IsSuffix(Others(last.queue), Others(Entries(last.frames)))
  {
    ReachableInv(max, events, last);
  }

  /** An IDR entry is dropped only by a new frame that finds max IDR entries and nothing else. */
  lemma IdrIsDroppedLast(max: nat, events: seq<Event>, last: State, f: Frame)
    requires max > 0 && Run(Start, max, events, last)
    requires |Receive(last, max, f).droppedAt| > |last.droppedAt|
    ensures var st' := Receive(last, max, f); var d := Last(st'.droppedAt);
      && |last.queue| == max && d < |last.frames|
      && (FrameIsIdr(last.frames[d]) ==>
            && d == last.queuedAt[0]
            && Idrs(last.queue) == last.queue
            && st'.queue == last.queue[1..] + [EntryOf(f)])
  {
    hide Run, KindInv, PlaceInv, WriterInv;
    ReachableInv(max, events, last);
    hide OrderInv;
    FullQueueDrops(last, max, f);
    var k := Victim(last.queue);
    QueuedIsIdr(last, k);
    hide EntryOf, FrameIsIdr;
    if last.queue[k].isIdr {
      OnlyIdrs(last.queue);
    }
  }

  lemma FullQueueDrops(st: State, max: nat, f: Frame)
    requires max > 0 && CountInv(st, max) && |Receive(st, max, f).droppedAt| > |st.droppedAt|
    ensures |st.queue| == max && Last(Receive(st, max, f).droppedAt) == st.queuedAt[Victim(st.queue)]
    ensures Receive(st, max, f).queue == RemoveAt(st.queue, Victim(st.queue)) + [EntryOf(f)]
  {
    hide Victim;
  }

  lemma QueuedIsIdr(st: State, k: nat)
    requires OrderInv(st) && k < |st.queue|
    ensures |st.queue| == |st.queuedAt| && st.queuedAt[k] < |st.frames|
    ensures st.queue[k].isIdr == FrameIsIdr(st.frames[st.queuedAt[k]])
  {}

  /** The file holds whole frames, in the order of their arrival and none twice. */
  lemma FileIsInOrder(max: nat, events: seq<Event>, last: State)
    requires max > 0 && Run(Start, max, events, last)
    ensures |last.file| <= |last.takenAt| && Ascending(last.takenAt)
    ensures forall j :: 0 <= j < |last.file| ==>
      last.takenAt[j] < |last.frames| && last.file[j] == EntryOf(last.frames[last.takenAt[j]])
    ensures forall i, j :: 0 <= i < |last.takenAt| && 0 <= j < |last.queuedAt| ==> last.takenAt[i] < last.queuedAt[j]
  {
    ReachableInv(max, events, last);
    var both := last.takenAt + last.queuedAt;
    forall i, j | 0 <= i < j < |last.takenAt|
      ensures last.takenAt[i] < last.takenAt[j]
    {
      assert both[i] < both[j];
    }
    forall i, j | 0 <= i < |last.takenAt| && 0 <= j < |last.queuedAt|
      ensures last.takenAt[i] < last.queuedAt[j]
    {
      assert both[i] < both[|last.takenAt| + j];
    }
    forall j | 0 <= j < |last.file|
      ensures last.takenAt[j] < |last.frames| && last.file[j] == EntryOf(last.frames[last.takenAt[j]])
    {
      assert Taken(last)[j] == last.file[j];
    }
  }

  /** n elements that cover the numbers below n are those numbers, each once. */
  lemma {:induction false} CoverOnce(m: multiset<nat>, n: nat)
    requires |m| == n && forall i: nat :: i < n ==> i in m
    ensures forall i: nat :: m[i] == if i < n then 1 else 0
  {
    if n > 0 {
      var rest := m - multiset{n - 1};
      assert m == rest + multiset{n - 1};
      CoverOnce(rest, n - 1);
    }
  }

  lemma PlacesAreUnique(taken: seq<nat>, queued: seq<nat>, dropped: seq<nat>, n: nat)
    requires |taken| + |queued| + |dropped| == n
    requires forall i: nat :: i < n ==> i in taken || i in queued || i in dropped
    ensures forall i: nat :: multiset(taken + queued + dropped)[i] == if i < n then 1 else 0
  {
    var all := taken + queued + dropped;
    forall i: nat | i < n
      ensures i in multiset(all)
    {
      assert i in all;
    }
    CoverOnce(multiset(all), n);
  }

  /** Every frame received is in exactly one place and there once: taken for writing, queued, or dropped. */
  lemma FramesAreConserved(max: nat, events: seq<Event>, last: State)
    requires max > 0 && Run(Start, max, events, last)
    ensures |last.frames| == last.consumed + last.dropped + |last.queue| + (if last.writer.Writing? then 1 else 0)
    ensures last.consumed == |last.file| && last.dropped == |last.droppedAt| && !last.writer.Crashed?
    ensures forall i: nat ::
      multiset(last.takenAt + last.queuedAt + last.droppedAt)[i] == if i < |last.frames| then 1 else 0
  {
    ReachableInv(max, events, last);
    hide OrderInv, KindInv, Run;
    PlacesAreUnique(last.takenAt, last.queuedAt, last.droppedAt, |last.frames|);
  }

  // ---------- What the history means, and what the writer can do ----------

  /** Every step changes exactly what it is named for. */
  lemma HistoryIsFaithful(st: State, max: nat, e: Event)
    requires max > 0 && Inv(st, max) && Next(st, max, e).Some?
    ensures var st' := Next(st, max, e).value;
      && st'.frames == (if e.OnFrame? then st.frames + [e.frame] else st.frames)
      && st'.dropped == st.dropped + (if e.OnFrame? && |st.queue| == max then 1 else 0)
      && st'.running == (st.running && !e.StopFlag?)
      && (e.PopFront? ==> st.queue != [] && st'.queue == st.queue[1..] && st'.writer == Writing(st.queue[0]))
      && (e.Write? ==> st.writer.Writing?)
      && st'.file == (if e.Write? then st.file + [st.writer.entry] else st.file)
      && st'.consumed == st.consumed + (if e.Write? then 1 else 0)
  {
    hide OrderInv, PlaceInv, KindInv, EntryOf, Victim;
  }

  /** Which step is possible when; a frame may come at any time but while the mutex is held. */
  lemma StepsArePossible(st: State, max: nat, f: Frame)
    requires max > 0
    ensures Next(st, max, OnFrame(f)).Some? <==> !st.writer.Decided? && !st.writer.Popping?
    ensures Next(st, max, StopFlag).Some?
    ensures Next(st, max, LoopTest).Some? <==> st.writer.LoopHead?
    ensures Next(st, max, WaitTest).Some? <==> st.writer.Waiting?
    ensures Next(st, max, StopTest).Some? <==> st.writer.Decided?
    ensures Next(st, max, PopFront).Some? <==> st.writer.Popping?
    ensures Next(st, max, Write).Some? <==> st.writer.Writing?
  {}

  /** While it runs and an entry waits, the writer can write the oldest one by its own steps. */
  lemma WriterWritesNext(st: State, max: nat) returns (last: State)
    requires max > 0 && Inv(st, max) && st.running && st.queue != [] && st.writer.LoopHead?
    ensures Run(st, max, [LoopTest, WaitTest, StopTest, PopFront, Write], last)
    ensures last.writer.LoopHead? && last.file == st.file + [st.queue[0]] && last.queue == st.queue[1..]
  {
    hide OrderInv, PlaceInv, KindInv;
    var a := Next(st, max, LoopTest).value;
    var b := Next(a, max, WaitTest).value;
    var c := Next(b, max, StopTest).value;
    var d := Next(c, max, PopFront).value;
    last := Next(d, max, Write).value;
    assert Run(d, max, [Write], last);
    assert [PopFront, Write][1..] == [Write];
    assert [StopTest, PopFront, Write][1..] == [PopFront, Write];
    assert [WaitTest, StopTest, PopFront, Write][1..] == [StopTest, PopFront, Write];
    assert [LoopTest, WaitTest, StopTest, PopFront, Write][1..] == [WaitTest, StopTest, PopFront, Write];
  }

  /** Once stopped the writer takes one more entry at most, and only if it was past its last test. */
  lemma {:induction false} StopIsPrompt(st: State, max: nat, events: seq<Event>, last: State)
    requires max > 0 && !st.running && Run(st, max, events, last)
    ensures !last.running
    ensures |last.takenAt| <= |st.takenAt| + (if st.writer.Popping? then 1 else 0)
    decreases |events|
  {
    hide Victim, EntryOf;
    if events != [] {
      StopIsPrompt(Next(st, max, events[0]).value, max, events[1..], last);
    }
  }

  /** A stopped writer that is not writing leaves its loop by its own steps. */
  lemma StoppedWriterExits(st: State, max: nat) returns (events: seq<Event>, last: State)
    requires max > 0 && !st.running && (st.writer.LoopHead? || st.writer.Waiting?)
    ensures Run(st, max, events, last) && last.writer.Exited? && last.takenAt == st.takenAt && last.file == st.file
  {
    if st.writer.LoopHead? {
      events, last := [LoopTest], Next(st, max, LoopTest).value;
    } else {
      var mid := Next(st, max, WaitTest).value;
      events, last := [WaitTest, StopTest], Next(mid, max, StopTest).value;
      assert events[1..] == [StopTest] && Run(mid, max, [StopTest], last);
    }
  }

  // ---------- The recorder as an object ----------

  class RecorderConsumer {
    var writeQueue: seq<Entry>
    const maxQueueSize: nat
    var running: bool
    var dropped: nat
    var consumed: nat
    var file: seq<byte>

    constructor (writeQueueSize: nat)
      ensures maxQueueSize == writeQueueSize && writeQueue == [] && running
      ensures dropped == 0 && consumed == 0 && file == []
    {
      maxQueueSize := writeQueueSize;
      writeQueue, running, dropped, consumed, file := [], true, 0, 0, [];
    }

    /** A null pack must have length 0, and the queue must have room for one entry. */
    method OnFrame(frame: Frame)
      requires maxQueueSize > 0 && WellFormed(frame)
      modifies this`writeQueue, this`dropped
      ensures writeQueue == MakeRoom(old(writeQueue), maxQueueSize) + [EntryOf(frame)]
      ensures Concatenates(Last(writeQueue).data, frame.packs)
      ensures Last(writeQueue).isIdr <==>
        frame.codec == MJPEG || exists i :: 0 <= i < |frame.packs| && frame.packs[i].naluType == IdrSlice
      ensures dropped == old(dropped) + if |old(writeQueue)| >= maxQueueSize then 1 else 0
    {
      hide Bytes, Concatenates;
      assert forall i :: 0 <= i < |frame.packs| ==> frame.packs[i] in frame.packs;
      EntryIsWhole(frame);
      var data := Gather(frame.packs);
      var entry := Entry(data, FrameIsIdr(frame));
      if |writeQueue| >= maxQueueSize {
        TryDropFrame();
      }
      writeQueue := writeQueue + [entry];
    }

    /** Two passes: add up the lengths, then copy every pack to its position. */
    static method Gather(packs: seq<Pack>) returns (data: seq<byte>)
      requires Sized(packs)
      ensures Concatenates(data, packs)
      ensures data == Bytes(packs)
    {
      hide Bytes, Concatenates;
      var totalLen := 0;
      NoBytes(packs);
      for i := 0 to |packs|
        invariant totalLen == |Bytes(packs[..i])|
      {
        OneMorePack(packs, i);
        totalLen := totalLen + packs[i].len;
      }
      assert packs[..|packs|] == packs;
      var buffer := new byte[totalLen];
      CopyPacks(packs, buffer);
      data := buffer[..];
      BytesConcatenate(packs);
    }

    static method CopyPacks(packs: seq<Pack>, buffer: array<byte>)
      requires Sized(packs)
      requires buffer.Length == |Bytes(packs)|
      modifies buffer
      ensures buffer[..] == Bytes(packs)
    {
      hide Bytes;
      var pos := 0;
      NoBytes(packs);
      for i := 0 to |packs|
        invariant pos == |Bytes(packs[..i])| <= buffer.Length
        invariant buffer[..pos] == Bytes(packs[..i])
      {
        OneMorePack(packs, i);
        BytesGrow(packs, i + 1);
        if packs[i].data.Some? {
          CopyTo(buffer, pos, packs[i].data.value);
        }
        pos := pos + packs[i].len;
      }
      assert packs[..|packs|] == packs && buffer[..pos] == buffer[..];
    }

    static lemma NoBytes(packs: seq<Pack>)
      ensures Bytes(packs[..0]) == []
    {}

    static lemma OneMorePack(packs: seq<Pack>, i: nat)
      requires i < |packs|
      ensures packs[i] in packs && Bytes(packs[..i + 1]) == Bytes(packs[..i]) + BytesOf(packs[i])
    {
      assert packs[..i + 1][..i] == packs[..i];
    }

    static lemma {:induction false} BytesGrow(packs: seq<Pack>, n: nat)
      requires n <= |packs|
      ensures |Bytes(packs[..n])| <= |Bytes(packs)|
      decreases |packs| - n
    {
      if n < |packs| {
        BytesGrow(packs, n + 1);
        assert packs[..n + 1][..n] == packs[..n];
      } else {
        assert packs[..n] == packs;
      }
    }

    static method CopyTo(buffer: array<byte>, pos: nat, data: seq<byte>)
      requires pos + |data| <= buffer.Length
      modifies buffer
      ensures buffer[..pos + |data|] == old(buffer[..pos]) + data
    {
      for k := 0 to |data|
        invariant forall j :: 0 <= j < pos ==> buffer[j] == old(buffer[j])
        invariant forall j :: 0 <= j < k ==> buffer[pos + j] == data[j]
      {
        buffer[pos + k] := data[k];
      }
    }

    method TryDropFrame()
      requires writeQueue != []
      modifies this`writeQueue, this`dropped
      ensures writeQueue == RemoveAt(old(writeQueue), Victim(old(writeQueue)))
      ensures dropped == old(dropped) + 1
    {
      for it := 0 to |writeQueue|
        invariant writeQueue == old(writeQueue) && dropped == old(dropped)
        invariant forall j :: 0 <= j < it ==> writeQueue[j].isIdr
      {
        if !writeQueue[it].isIdr {
          assert FirstNonIdr(writeQueue) == it;
          writeQueue := writeQueue[..it] + writeQueue[it + 1..];
          dropped := dropped + 1;
          return;
        }
      }
      writeQueue := writeQueue[1..];
      dropped := dropped + 1;
    }

    /** One turn of the writer once its wait is over: None when it is to stop. */
    method WriteOne() returns (written: Option<Entry>)
      requires writeQueue != [] || !running
      modifies this`writeQueue, this`file, this`consumed
      ensures !running ==>
        written.None? && writeQueue == old(writeQueue) && file == old(file) && consumed == old(consumed)
      ensures running ==>
        && written == Some(old(writeQueue)[0]) && writeQueue == old(writeQueue)[1..]
        && file == old(file) + old(writeQueue)[0].data && consumed == old(consumed) + 1
    {
      if !running {
        return None;
      }
      var entry := writeQueue[0];
      writeQueue := writeQueue[1..];
      file := file + entry.data;
      consumed := consumed + 1;
      written := Some(entry);
    }
  }
}
