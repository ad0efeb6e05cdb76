/**
  The intrusive circular doubly linked list. A list is a ring of nodes that begins with its
  head; `s` in the contracts is the sequence view of such a ring.
*/
module OsalList {
  import opened Sequences

  class ListHead {
    var next: ListHead?
    var prev: ListHead?
  }

  ghost predicate Ring(s: seq<ListHead>)
    reads s
  {
    && |s| > 0
    && (forall i, j :: 0 <= i < j < |s| ==> s[i] != s[j])
    && (forall i {:trigger s[i].next} :: 0 <= i < |s| - 1 ==> s[i].next == s[i + 1])
    && (forall i {:trigger s[i].prev} :: 0 < i < |s| ==> s[i].prev == s[i - 1])
    && s[|s| - 1].next == s[0]
    && s[0].prev == s[|s| - 1]
  }

  /** A pointer argument that may be NULL, as a frame. */
  ghost function Maybe(node: ListHead?): set<ListHead> {
    if node == null then {} else {node}
  }

  ghost function NextOf(node: ListHead?): set<ListHead>
    reads Maybe(node)
  {
    if node == null then {} else Maybe(node.next)
  }

  ghost function PrevOf(node: ListHead?): set<ListHead>
    reads Maybe(node)
  {
    if node == null then {} else Maybe(node.prev)
  }

  ghost predicate Apart(s: seq<ListHead>, t: seq<ListHead>) {
    forall i, j :: 0 <= i < |s| && 0 <= j < |t| ==> s[i] != t[j]
  }

  /** The pointers determine the sequence: a ring has one view from each of its nodes. */
  lemma RingIsUnique(s: seq<ListHead>, t: seq<ListHead>)
    requires Ring(s) && Ring(t) && s[0] == t[0]
    ensures s == t
  {
    var i := 0;
    while i + 1 < |s| && i + 1 < |t|
      invariant 0 <= i < |s| && i < |t|
      invariant forall j :: 0 <= j <= i ==> s[j] == t[j]
    {
      assert s[i].next == s[i + 1] && t[i].next == t[i + 1];
      i := i + 1;
    }
    assert s[i].next == t[i].next;
  }

  /** Any node of a ring can be taken as its head. */
  lemma RingFrom(s: seq<ListHead>, k: nat)
    requires Ring(s) && k < |s|
    ensures Ring(s[k..] + s[..k])
  {}

  method InitListHead(list: ListHead?)
    modifies Maybe(list)
    ensures list != null ==> Ring([list])
  {
    if list == null {
      return;
    }
    list.next := list;
    list.prev := list;
  }

  // ---------- Insertion ----------

  method ListAddBetween(node: ListHead?, prev: ListHead?, next: ListHead?)
    modifies Maybe(node), Maybe(prev)`next, Maybe(next)`prev
    ensures node != null && prev != null && next != null && node != prev && node != next ==>
      && next.prev == node && node.next == next && node.prev == prev && prev.next == node
    ensures node == null || prev == null || next == null ==>
      && (prev != null ==> prev.next == old(prev.next)) && (next != null ==> next.prev == old(next.prev))
      && (node != null ==> node.next == old(node.next) && node.prev == old(node.prev))
    ensures prev != null && prev != next && prev != node ==> prev.prev == old(prev.prev)
    ensures next != null && prev != next && next != node ==> next.next == old(next.next)
  {
    if node == null || prev == null || next == null {
      return;
    }
    next.prev := node;
    node.next := next;
    node.prev := prev;
    prev.next := node;
  }

  /** A null entry changes nothing. */
  method ListAdd(cur: ListHead?, head: ListHead, ghost s: seq<ListHead>)
    requires Ring(s) && s[0] == head && cur !in s
    modifies Maybe(cur), head`next, head.next`prev
    ensures if cur == null then Ring(s) else Ring([head, cur] + s[1..])
  {
    ListAddBetween(cur, head, head.next);
  }

  method ListAddTail(cur: ListHead?, head: ListHead, ghost s: seq<ListHead>)
    requires Ring(s) && s[0] == head && cur !in s
    modifies Maybe(cur), head`prev, head.prev`next
    ensures if cur == null then Ring(s) else Ring(s + [cur])
  {
    ListAddBetween(cur, head.prev, head);
  }

  // ---------- Deletion ----------

  method ListDelBetween(prev: ListHead?, next: ListHead?)
    modifies Maybe(prev)`next, Maybe(next)`prev
    ensures prev != null && next != null ==> next.prev == prev && prev.next == next
    ensures prev == null || next == null ==>
      && (prev != null ==> prev.next == old(prev.next)) && (next != null ==> next.prev == old(next.prev))
  {
    if prev == null || next == null {
      return;
    }
    next.prev := prev;
    prev.next := next;
  }

  /** The place of an entry on a list; a null entry is on none. */
  ghost predicate Located(entry: ListHead?, s: seq<ListHead>, k: nat)
    reads s
  {
    entry != null ==> Ring(s) && k < |s| && s[k] == entry
  }

  /** The entry keeps its own pointers; the rest of the ring closes behind it. */
  method ListDelEntry(entry: ListHead?, ghost s: seq<ListHead>, ghost k: nat)
    requires Located(entry, s, k)
    modifies PrevOf(entry)`next, NextOf(entry)`prev
    ensures entry != null && |s| > 1 ==>
      Ring(RemoveAt(s, k)) && entry.next == old(entry.next) && entry.prev == old(entry.prev)
    ensures entry != null && |s| == 1 ==> Ring(s)
  {
    if entry == null {
      return;
    }
    ListDelBetween(entry.prev, entry.next);
  }

  /** The two poison addresses that mark a deleted entry are parameters. */
  method ListDel(entry: ListHead?, poison1: ListHead, poison2: ListHead, ghost s: seq<ListHead>, ghost k: nat)
    requires Located(entry, s, k)
    modifies Maybe(entry), PrevOf(entry)`next, NextOf(entry)`prev
    ensures entry != null && |s| > 1 ==> Ring(RemoveAt(s, k))
    ensures entry != null ==> entry.next == poison1 && entry.prev == poison2
  {
    if entry == null {
      return;
    }
    ListDelEntry(entry, s, k);
    entry.next := poison1;
    entry.prev := poison2;
  }

  method ListDelInit(entry: ListHead?, ghost s: seq<ListHead>, ghost k: nat)
    requires Located(entry, s, k)
    modifies Maybe(entry), PrevOf(entry)`next, NextOf(entry)`prev
    ensures entry != null && |s| > 1 ==> Ring(RemoveAt(s, k))
    ensures entry != null ==> Ring([entry])
  {
    ListDelEntry(entry, s, k);
    InitListHead(entry);
  }

  // ---------- Replacing and moving ----------

  method ListReplace(oldNode: ListHead, node: ListHead, ghost s: seq<ListHead>, ghost k: nat)
    requires Ring(s) && k < |s| && s[k] == oldNode && node !in s
    modifies node, oldNode.next`prev, oldNode.prev`next, oldNode`prev
    ensures Ring(s[k := node])
  {
    node.next := oldNode.next;
    node.next.prev := node;
    node.prev := oldNode.prev;
    node.prev.next := node;
  }

  method ListReplaceInit(oldNode: ListHead, node: ListHead, ghost s: seq<ListHead>, ghost k: nat)
    requires Ring(s) && k < |s| && s[k] == oldNode && node !in s
    modifies node, oldNode.next`prev, oldNode.prev`next, oldNode
    ensures Ring(s[k := node]) && Ring([oldNode])
  {
    ListReplace(oldNode, node, s, k);
    InitListHead(oldNode);
  }

  /** The ring t that receives the entry is either another ring or what is left of the entry's own. */
  ghost predicate Receives(t: seq<ListHead>, list: ListHead?, s: seq<ListHead>, k: nat)
    reads s, t
  {
    && Located(list, s, k)
    && |t| > 0
    && ((list != null && t == RemoveAt(s, k)) || (Ring(t) && (list != null ==> Apart(s, t))))
  }

  lemma EntryLeaves(s: seq<ListHead>, k: nat, t: seq<ListHead>)
    requires k < |s| && Receives(t, s[k], s, k)
    ensures s[k] !in RemoveAt(s, k) && s[k] !in t
    ensures Apart(s, t) ==> forall x :: x in RemoveAt(s, k) ==> x !in t
  {
    assert s[k] in s;
  }

  method ListMove(list: ListHead?, head: ListHead, ghost s: seq<ListHead>, ghost k: nat, ghost t: seq<ListHead>)
    requires Receives(t, list, s, k) && t[0] == head
    modifies Maybe(list), PrevOf(list)`next, NextOf(list)`prev, head`next, NextOf(head)`prev
    ensures if list == null then Ring(t) else Ring([head, list] + t[1..])
    ensures list != null && Apart(s, t) && |s| > 1 ==> Ring(RemoveAt(s, k))
  {
    if list != null {
      EntryLeaves(s, k, t);
    }
    ListDelEntry(list, s, k);
    assert Ring(t) && (list != null ==> head.next in {old(head.next), old(list.next)});
    hide Ring, Apart, RemoveAt;
    ListAdd(list, head, t);
  }

  method ListMoveTail(list: ListHead?, head: ListHead, ghost s: seq<ListHead>, ghost k: nat, ghost t: seq<ListHead>)
    requires Receives(t, list, s, k) && t[0] == head
    modifies Maybe(list), PrevOf(list)`next, NextOf(list)`prev, head`prev, PrevOf(head)`next
    ensures if list == null then Ring(t) else Ring(t + [list])
    ensures list != null && Apart(s, t) && |s| > 1 ==> Ring(RemoveAt(s, k))
  {
    if list != null {
      EntryLeaves(s, k, t);
    }
    ListDelEntry(list, s, k);
    assert Ring(t) && (list != null ==> head.prev in {old(head.prev), old(list.prev)});
    hide Ring, Apart, RemoveAt;
    ListAddTail(list, head, t);
  }

  // ---------- Queries ----------

  method ListEmpty(head: ListHead?, ghost s: seq<ListHead>) returns (r: int)
    requires Located(head, s, 0)
    ensures head == null ==> r == -1
    ensures head != null ==> r == if |s| == 1 then 1 else 0
  {
    if head == null {
      return -1;
    }
    assert |s| > 1 ==> s[0].next == s[1];
    r := if head.next == head then 1 else 0;
  }

  method ListEmptyCareful(head: ListHead?, ghost s: seq<ListHead>) returns (r: int)
    requires Located(head, s, 0)
    ensures head == null ==> r == -1
    ensures head != null ==> r == if |s| == 1 then 1 else 0
  {
    if head == null {
      return -1;
    }
    assert |s| > 1 ==> s[0].next == s[1];
    var next := head.next;
    r := if next == head && next == head.prev then 1 else 0;
  }

  method ListIsSingular(head: ListHead?, ghost s: seq<ListHead>) returns (r: bool)
    requires Located(head, s, 0)
    ensures r <==> head != null && |s| == 2
  {
    var empty := ListEmpty(head, s);
    assert head != null && |s| > 1 ==> s[0].next == s[1] && s[|s| - 1] == head.prev;
    r := empty == 0 && head.next == head.prev;
  }

  method ListIsLast(list: ListHead?, head: ListHead?, ghost s: seq<ListHead>, ghost k: nat) returns (r: int)
    requires list != null && head != null ==> Ring(s) && s[0] == head && k < |s| && s[k] == list
    ensures list == null || head == null ==> r == -1
    ensures list != null && head != null ==> r == if k == |s| - 1 then 1 else 0
  {
    if list == null || head == null {
      return -1;
    }
    assert k < |s| - 1 ==> s[k].next == s[k + 1];
    r := if list.next == head then 1 else 0;
  }

  // ---------- Rotation ----------

  ghost function Rotated(s: seq<ListHead>): seq<ListHead>
    requires |s| > 0
  {
    if |s| == 1 then s else [s[0]] + s[2..] + [s[1]]
  }

  lemma RotatedIsMoved(s: seq<ListHead>)
    requires |s| > 1
    ensures RemoveAt(s, 1)[0] == s[0] && RemoveAt(s, 1) + [s[1]] == Rotated(s)
  {}

  method ListRotateLeft(head: ListHead?, ghost s: seq<ListHead>)
    requires Located(head, s, 0)
    modifies if head == null then [] else s
    ensures head != null ==> Ring(Rotated(s))
  {
    hide Ring;
    var empty := ListEmpty(head, s);
    if empty == 0 {
      var first := head.next;
      Neighbours(s, 0);
      Neighbours(s, 1);
      RotatedIsMoved(s);
      ListMoveTail(first, head, s, 1, RemoveAt(s, 1));
    }
  }

  lemma Neighbours(s: seq<ListHead>, k: nat)
    requires Ring(s) && k < |s|
    ensures s[k].next == s[if k + 1 == |s| then 0 else k + 1]
    ensures s[k].prev == s[if k == 0 then |s| - 1 else k - 1]
  {}

  /** The view after i rotations: the entries from the (i+1)-th on, then the first i. */
  ghost function RotatedBy(s: seq<ListHead>, i: nat): seq<ListHead>
    requires i < |s|
  {
    [s[0]] + s[i + 1..] + s[1..i + 1]
  }

  lemma RotateOnceMore(s: seq<ListHead>, i: nat)
    requires i + 1 < |s|
    ensures Rotated(RotatedBy(s, i)) == RotatedBy(s, i + 1)
  {
    var rest, front := s[i + 2..], s[1..i + 1];
    assert s[i + 1..] == [s[i + 1]] + rest;
    assert RotatedBy(s, i) == [s[0]] + ([s[i + 1]] + (rest + front));
    assert RotatedBy(s, i + 1) == [s[0]] + (rest + front) + [s[i + 1]];
  }

  lemma RotatedBySame(s: seq<ListHead>, i: nat)
    requires i < |s|
    ensures forall x :: x in RotatedBy(s, i) <==> x in s
    ensures RotatedBy(s, 0) == s && RotatedBy(s, |s| - 1) == s
  {}

  /** Rotating a list of n entries n times is the identity. */
  method RotateAllTheWay(head: ListHead, ghost s: seq<ListHead>, n: nat)
    requires Ring(s) && s[0] == head && n == |s| - 1
    modifies s
    ensures Ring(s)
  {
    hide Ring, Rotated;
    RotatedBySame(s, 0);
    for i := 0 to n
      invariant Ring(RotatedBy(s, i))
    {
      RotatedBySame(s, i);
      RotateOnceMore(s, i);
      ListRotateLeft(head, RotatedBy(s, i));
    }
  }

  // ---------- Cutting and splicing ----------

  method ListCutAt(list: ListHead, head: ListHead, entry: ListHead, ghost s: seq<ListHead>, ghost k: nat)
    requires Ring(s) && s[0] == head && list !in s && 0 < k < |s| && s[k] == entry
    modifies list, head`next, head.next`prev, entry`next, entry.next`prev
    ensures Ring([list] + s[1..k + 1]) && Ring([head] + s[k + 1..])
  {
    hide Ring, Distinct;
    RingIsChained(s);
    OnlyThere(s, 0);
    OnlyThere(s, 1);
    OnlyThere(s, k);
    OnlyThere(s, if k + 1 < |s| then k + 1 else 0);
    var newFirst := entry.next;
    list.next := head.next;
    list.next.prev := list;
    list.prev := entry;
    entry.next := list;
    head.next := newFirst;
    newFirst.prev := head;
    forall i | 1 <= i < |s| - 1 && i != k
      ensures s[i].next == s[i + 1] && s[i + 1].prev == s[i]
    {
      assert old(s[i].next) == s[i + 1] && old(s[i + 1].prev) == s[i];
    }
    ClosesToRing(list, s, 1, k);
    if k < |s| - 1 {
      ClosesToRing(head, s, k + 1, |s| - 1);
      assert s[k + 1..|s| - 1 + 1] == s[k + 1..];
    } else {
      AloneIsRing(head);
      assert [head] + s[k + 1..] == [head];
    }
  }

  ghost predicate Chained(s: seq<ListHead>, lo: nat, hi: nat)
    requires hi < |s|
    reads s
  {
    forall i {:trigger s[i].next} :: lo <= i < hi ==> s[i].next == s[i + 1] && s[i + 1].prev == s[i]
  }

  lemma OnlyThere(s: seq<ListHead>, k: nat)
    requires Distinct(s) && k < |s|
    ensures forall i :: 0 <= i < |s| && i != k ==> s[i] != s[k]
  {}

  lemma RingIsChained(s: seq<ListHead>)
    requires Ring(s)
    ensures |s| > 0 && Distinct(s) && Chained(s, 0, |s| - 1)
    ensures s[|s| - 1].next == s[0] && s[0].prev == s[|s| - 1]
  {
    forall i | 0 <= i < |s| - 1
      ensures s[i].next == s[i + 1] && s[i + 1].prev == s[i]
    {}
  }

  /** A head and a chain whose ends point to it and it to them. */
  lemma ClosesToRing(h: ListHead, s: seq<ListHead>, lo: nat, hi: nat)
    requires lo <= hi < |s| && Chained(s, lo, hi) && Distinct(s)
    requires h.next == s[lo] && s[lo].prev == h && h.prev == s[hi] && s[hi].next == h
    requires forall i :: lo <= i <= hi ==> s[i] != h
    ensures Ring([h] + s[lo..hi + 1])
  {
    var r := [h] + s[lo..hi + 1];
    assert forall i :: 0 < i < |r| ==> r[i] == s[lo + i - 1];
    forall i | 0 <= i < |r| - 1
      ensures r[i].next == r[i + 1] && r[i + 1].prev == r[i]
    {
      assert i > 0 ==> s[lo + i - 1].next == s[lo + i];
    }
  }

  lemma AloneIsRing(h: ListHead)
    requires h.next == h && h.prev == h
    ensures Ring([h])
  {}

  /**
    Moves the entries up to and including `entry` to `list`. A null or empty list is not cut at
    all, and neither is a list of one entry at a node that is not on it (k == |s|).
  */
  method ListCutPosition(list: ListHead?, head: ListHead?, entry: ListHead?, ghost s: seq<ListHead>, ghost k: nat)
    requires Located(head, s, 0) && (head != null ==> list !in s)
    requires head != null ==> if k < |s| then s[k] == entry else k == |s| <= 2 && entry !in s
    requires head != null && 0 < k < |s| ==> list != null
    modifies Maybe(list), Maybe(head)`next, NextOf(head)`prev, Maybe(entry)`next, NextOf(entry)`prev
    ensures head != null && (|s| == 1 || k == |s|) ==> Ring(s)
    ensures list != null && (head == null || |s| == 1 || k == |s|) ==>
      list.next == old(list.next) && list.prev == old(list.prev)
    ensures head != null && |s| > 1 && k == 0 ==> Ring(s) && (list != null ==> Ring([list]))
    ensures head != null && |s| > 1 && 0 < k < |s| ==> Ring([list] + s[1..k + 1]) && Ring([head] + s[k + 1..])
  {
    assert head != null && |s| > 1 ==> s[0].next == s[1];
    var empty := ListEmpty(head, s);
    if empty != 0 {
      return;
    }
    var singular := ListIsSingular(head, s);
    if singular && head.next != entry && head != entry {
      return;
    }
    if entry == head {
      InitListHead(list);
    } else {
      ListCutAt(list, head, entry, s, k);
    }
  }

  /** The entries of ring u, without its head, go between two neighbours of ring t. */
  method ListSpliceBetween(list: ListHead, prev: ListHead, next: ListHead,
      ghost u: seq<ListHead>, ghost t: seq<ListHead>, ghost k: nat)
    requires Ring(u) && u[0] == list && |u| > 1
    requires Ring(t) && Apart(u, t) && k < |t| && t[k] == prev && next == t[if k + 1 == |t| then 0 else k + 1]
    modifies list.next`prev, list.prev`next, prev`next, next`prev
    ensures Ring(t[..k + 1] + u[1..] + t[k + 1..])
    ensures list.next == old(list.next) && list.prev == old(list.prev)
  {
    hide Ring, Distinct, Apart;
    RingIsChained(u);
    RingIsChained(t);
    ghost var m, n := |u| - 1, if k + 1 == |t| then 0 else k + 1;
    OnlyThere(u, 1);
    OnlyThere(u, m);
    OnlyThere(t, k);
    OnlyThere(t, n);
    OnNoOther(u, t, 1, k);
    OnNoOther(u, t, m, n);
    var first := list.next;
    var last := list.prev;
    first.prev := prev;
    prev.next := first;
    last.next := next;
    next.prev := last;
    forall i | 1 <= i < m
      ensures u[i].next == u[i + 1] && u[i + 1].prev == u[i]
    {
      assert old(u[i].next) == u[i + 1] && old(u[i + 1].prev) == u[i];
    }
    forall i | 0 <= i < |t| - 1 && i != k
      ensures t[i].next == t[i + 1] && t[i + 1].prev == t[i]
    {
      assert old(t[i].next) == t[i + 1] && old(t[i + 1].prev) == t[i];
    }
    SplicedIsRing(u, t, k);
  }

  lemma OnNoOther(u: seq<ListHead>, t: seq<ListHead>, i: nat, k: nat)
    requires Apart(u, t) && i < |u| && k < |t|
    ensures forall j :: 0 <= j < |t| ==> t[j] != u[i]
    ensures forall j :: 0 <= j < |u| ==> u[j] != t[k]
  {}

  /** The chain of u between places k and k + 1 of the chain of t. */
  lemma SplicedIsRing(u: seq<ListHead>, t: seq<ListHead>, k: nat)
    requires Distinct(u) && Distinct(t) && Apart(u, t) && |u| > 1 && k < |t|
    requires Chained(u, 1, |u| - 1) && Chained(t, 0, k)
    requires t[k].next == u[1] && u[1].prev == t[k]
    requires k + 1 < |t| ==>
      && Chained(t, k + 1, |t| - 1)
      && u[|u| - 1].next == t[k + 1] && t[k + 1].prev == u[|u| - 1]
      && t[|t| - 1].next == t[0] && t[0].prev == t[|t| - 1]
    requires k + 1 == |t| ==> u[|u| - 1].next == t[0] && t[0].prev == u[|u| - 1]
    ensures Ring(t[..k + 1] + u[1..] + t[k + 1..])
  {
    var r, m := t[..k + 1] + u[1..] + t[k + 1..], |u| - 1;
    assert forall i :: 0 <= i <= k ==> r[i] == t[i];
    assert forall i :: k < i <= k + m ==> r[i] == u[i - k];
    assert forall i :: k + m < i < |r| ==> r[i] == t[i - m];
    forall i | 0 <= i < |r| - 1
      ensures r[i].next == r[i + 1] && r[i + 1].prev == r[i]
    {
      if i < k {
        assert t[i].next == t[i + 1];
      } else if k < i < k + m {
        assert u[i - k].next == u[i - k + 1];
      } else if i > k + m {
        assert t[i - m].next == t[i - m + 1];
      }
    }
    SplicedIsDistinct(u, t, k);
  }

  lemma SplicedIsDistinct(u: seq<ListHead>, t: seq<ListHead>, k: nat)
    requires Distinct(u) && Distinct(t) && Apart(u, t) && |u| > 1 && k < |t|
    ensures Distinct(t[..k + 1] + u[1..] + t[k + 1..])
  {
    var r, m := t[..k + 1] + u[1..] + t[k + 1..], |u| - 1;
    assert forall i :: 0 <= i <= k ==> r[i] == t[i];
    assert forall i :: k < i <= k + m ==> r[i] == u[i - k];
    assert forall i :: k + m < i < |r| ==> r[i] == t[i - m];
  }

  /** The entries of a list; a null list has none. */
  ghost function Entries(list: ListHead?, u: seq<ListHead>): seq<ListHead>
    requires list != null ==> |u| > 0
  {
    if list == null then [] else u[1..]
  }

  method ListSplice(list: ListHead?, head: ListHead, ghost u: seq<ListHead>, ghost t: seq<ListHead>)
    requires Located(list, u, 0) && Ring(t) && t[0] == head && (list != null ==> Apart(u, t))
    modifies NextOf(list)`prev, PrevOf(list)`next, head`next, head.next`prev
    ensures Ring([head] + Entries(list, u) + t[1..])
    ensures list != null ==> list.next == old(list.next) && list.prev == old(list.prev)
  {
    var empty := ListEmpty(list, u);
    if empty == 0 {
      assert |t| > 1 ==> t[0].next == t[1];
      ListSpliceBetween(list, head, head.next, u, t, 0);
      assert t[..1] == [head];
    } else {
      assert [head] + Entries(list, u) + t[1..] == t;
    }
  }

  method ListSpliceTail(list: ListHead?, head: ListHead, ghost u: seq<ListHead>, ghost t: seq<ListHead>)
    requires Located(list, u, 0) && Ring(t) && t[0] == head && (list != null ==> Apart(u, t))
    modifies NextOf(list)`prev, PrevOf(list)`next, head`prev, head.prev`next
    ensures Ring(t + Entries(list, u))
    ensures list != null ==> list.next == old(list.next) && list.prev == old(list.prev)
  {
    var empty := ListEmpty(list, u);
    if empty == 0 {
      ListSpliceBetween(list, head.prev, head, u, t, |t| - 1);
      assert t[..|t|] + u[1..] + t[|t|..] == t + u[1..];
    } else {
      assert t + Entries(list, u) == t;
    }
  }

  /** The head of a list does not move with its entries. */
  lemma HeadStaysBehind(u: seq<ListHead>, t: seq<ListHead>)
    requires Ring(u) && Ring(t) && Apart(u, t)
    ensures |u| > 0 && |t| > 0 && u[0] !in u[1..] && u[0] !in t
    ensures |u| == 1 ==> u == [u[0]] && [t[0]] + u[1..] + t[1..] == t && t + u[1..] == t
  {
    assert u[0] in u;
  }

  method ListSpliceInit(list: ListHead?, head: ListHead, ghost u: seq<ListHead>, ghost t: seq<ListHead>)
    requires Located(list, u, 0) && Ring(t) && t[0] == head && (list != null ==> Apart(u, t))
    modifies Maybe(list), NextOf(list)`prev, PrevOf(list)`next, head`next, head.next`prev
    ensures Ring([head] + Entries(list, u) + t[1..]) && (list != null ==> Ring([list]))
  {
    if list != null {
      HeadStaysBehind(u, t);
    }
    hide Ring, Apart;
    var empty := ListEmpty(list, u);
    if empty == 0 {
      ListSplice(list, head, u, t);
      InitListHead(list);
    } else if list == null {
      assert [head] + Entries(list, u) + t[1..] == t;
    }
  }

  method ListSpliceTailInit(list: ListHead?, head: ListHead, ghost u: seq<ListHead>, ghost t: seq<ListHead>)
    requires Located(list, u, 0) && Ring(t) && t[0] == head && (list != null ==> Apart(u, t))
    modifies Maybe(list), NextOf(list)`prev, PrevOf(list)`next, head`prev, head.prev`next
    ensures Ring(t + Entries(list, u)) && (list != null ==> Ring([list]))
  {
    if list != null {
      HeadStaysBehind(u, t);
    }
    hide Ring, Apart;
    var empty := ListEmpty(list, u);
    if empty == 0 {
      ListSpliceTail(list, head, u, t);
      InitListHead(list);
    } else if list == null {
      assert t + Entries(list, u) == t;
    }
  }

  /** Cutting a list at any of its nodes and splicing the cut part back restores both lists. */
  method CutAndSpliceBack(list: ListHead, head: ListHead, entry: ListHead, ghost s: seq<ListHead>, ghost k: nat)
    requires Ring(s) && s[0] == head && k < |s| && s[k] == entry && Ring([list]) && list !in s
    modifies list, s
    ensures Ring(s) && Ring([list])
  {
    ghost var u, t := [list] + s[1..k + 1], [head] + s[k + 1..];
    PartsOf(s, list, k);
    hide Ring, Apart;
    ListCutPosition(list, head, entry, s, k);
    assert Ring(u) && Ring(t);
    ListSpliceInit(list, head, u, t);
  }

  lemma PartsOf(s: seq<ListHead>, list: ListHead, k: nat)
    requires Ring(s) && k < |s| && list !in s
    ensures var u, t := [list] + s[1..k + 1], [s[0]] + s[k + 1..];
      && Apart(u, t) && [s[0]] + Entries(list, u) + t[1..] == s
      && (k == 0 ==> u == [list] && t == s)
  {
    var u, t := [list] + s[1..k + 1], [s[0]] + s[k + 1..];
    forall i, j | 0 <= i < |u| && 0 <= j < |t|
      ensures u[i] != t[j]
    {
      assert i > 0 ==> u[i] == s[i];
      assert t[j] == s[if j == 0 then 0 else k + j];
    }
    assert [s[0]] + Entries(list, u) + t[1..] == s;
  }
}
