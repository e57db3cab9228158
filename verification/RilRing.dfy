/** The doubly linked rings of events around a sentinel. */
module RilRing {
  import opened RilTime

  class RilEvent {
    var next: RilEvent?
    var prev: RilEvent?
    var fd: int
    var timeout: TimeVal
    /** Stands for the callback and its argument. */
    const id: nat

    constructor (id: nat)
      ensures this.id == id && next == null && prev == null && timeout == TimeVal(0, 0) && fd == -1
    {
      this.id := id;
      next, prev := null, null;
      fd := -1;
      timeout := TimeVal(0, 0);
    }
  }

  /** Node i of the ring: 0 and |s| + 1 are the sentinel. */
  function Node(list: RilEvent, s: seq<RilEvent>, i: nat): RilEvent
    requires i <= |s| + 1
  {
    if i == 0 || i == |s| + 1 then list else s[i - 1]
  }

  ghost function Nodes(s: seq<RilEvent>): set<RilEvent> { set e | e in s }

  ghost predicate Distinct(list: RilEvent, s: seq<RilEvent>)
  {
    list !in s && forall i, j :: 0 <= i < j < |s| ==> s[i] != s[j]
  }

  /** The list s hangs on the sentinel: next and prev are inverse all the way around. */
  ghost predicate Ring(list: RilEvent, s: seq<RilEvent>)
    reads list, s
  {
    && Distinct(list, s)
    && forall i {:trigger Node(list, s, i)} :: 0 <= i <= |s| ==>
         Node(list, s, i).next == Node(list, s, i + 1) && Node(list, s, i + 1).prev == Node(list, s, i)
  }

  lemma RingLink(list: RilEvent, s: seq<RilEvent>, i: nat)
    requires Ring(list, s) && i <= |s|
    ensures Node(list, s, i).next == Node(list, s, i + 1)
  {}

  lemma RingDistinct(list: RilEvent, s: seq<RilEvent>)
    requires Ring(list, s)
    ensures Distinct(list, s)
  {}

  /** init_list */
  method InitList(list: RilEvent)
    modifies list
    ensures Ring(list, [])
    ensures list.timeout == TimeVal(0, 0)
  {
    list.next := list;
    list.prev := list;
    list.fd := -1;
    list.timeout := TimeVal(0, 0);
  }

  /** addToList: links ev in front of the node at, which is node k + 1 of the ring. */
  method AddToList(ev: RilEvent, at: RilEvent, ghost list: RilEvent, ghost s: seq<RilEvent>, ghost k: nat)
    requires Ring(list, s) && k <= |s| && at == Node(list, s, k + 1)
    requires ev != list && ev !in s
    modifies list`next, list`prev, ev`next, ev`prev, Nodes(s)`next, Nodes(s)`prev
    ensures Ring(list, s[..k] + [ev] + s[k..])
  {
    assert Node(list, s, k).next == Node(list, s, k + 1);
    ev.next := at;
    ev.prev := at.prev;
    ev.prev.next := ev;
    at.prev := ev;
    ghost var t := s[..k] + [ev] + s[k..];
    forall i | 0 <= i <= |t|
      ensures Node(list, t, i).next == Node(list, t, i + 1) && Node(list, t, i + 1).prev == Node(list, t, i)
    {
      if i < k {
        assert Node(list, t, i) == Node(list, s, i) && Node(list, t, i + 1) == Node(list, s, i + 1);
      } else if i > k + 1 {
        assert Node(list, t, i) == Node(list, s, i - 1) && Node(list, t, i + 1) == Node(list, s, i);
      }
    }
  }

  /** removeFromList: unlinks ev, which is element k of the list. */
  method RemoveFromList(ev: RilEvent, ghost list: RilEvent, ghost s: seq<RilEvent>, ghost k: nat)
    requires Ring(list, s) && k < |s| && s[k] == ev
    modifies list`next, list`prev, Nodes(s)`next, Nodes(s)`prev
    ensures Ring(list, s[..k] + s[k + 1..])
    ensures ev.next == null && ev.prev == null
  {
    assert Node(list, s, k + 1) == ev;
    assert Node(list, s, k).next == ev;
    ev.next.prev := ev.prev;
    ev.prev.next := ev.next;
    ev.next := null;
    ev.prev := null;
    ghost var t := s[..k] + s[k + 1..];
    forall i | 0 <= i <= |t|
      ensures Node(list, t, i).next == Node(list, t, i + 1) && Node(list, t, i + 1).prev == Node(list, t, i)
    {
      NodesRemoved(list, s, k, i);
      if i < k {
        assert old(Node(list, s, i).next) == Node(list, s, i + 1) && old(Node(list, s, i + 1).prev) == Node(list, s, i);
      } else if i > k {
        assert old(Node(list, s, i + 1).next) == Node(list, s, i + 2)
            && old(Node(list, s, i + 2).prev) == Node(list, s, i + 1);
      }
    }
  }

  /** The nodes on either side of link i once element k is gone. */
  lemma NodesRemoved(list: RilEvent, s: seq<RilEvent>, k: nat, i: nat)
    requires Distinct(list, s) && k < |s| && i < |s|
    ensures var t := s[..k] + s[k + 1..];
      && Node(list, t, i) == (if i <= k then Node(list, s, i) else Node(list, s, i + 1))
      && Node(list, t, i + 1) == (if i < k then Node(list, s, i + 1) else Node(list, s, i + 2))
    ensures i < k ==> Node(list, s, i) != Node(list, s, k) && Node(list, s, i) != s[k]
    ensures i < k ==> Node(list, s, i + 1) != s[k] && Node(list, s, i + 1) != Node(list, s, k + 2)
    ensures i > k ==> Node(list, s, i + 1) != Node(list, s, k) && Node(list, s, i + 1) != s[k]
    ensures i > k ==> Node(list, s, i + 2) != s[k] && Node(list, s, i + 2) != Node(list, s, k + 2)
    ensures i == k ==> Node(list, s, k) != s[k] && Node(list, s, k + 2) != s[k]
  {}
}
