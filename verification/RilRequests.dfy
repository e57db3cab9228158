/** The lists of outstanding requests, one per slot, and what acks and completions do to them. */
module RilRequests {
  import opened Options

  const RESPONSE_SOLICITED := 0
  const RESPONSE_SOLICITED_ACK := 2
  const RESPONSE_SOLICITED_ACK_EXP := 3
  const SLOTS := 4

  /** The list that a socket's requests go on; sockets beyond the SIM count share the first. */
  function ListOf(sims: nat, socket: int): (k: nat)
    ensures k < SLOTS
  {
    if sims >= 2 && socket == 1 then 1
    else if sims >= 3 && socket == 2 then 2
    else if sims >= 4 && socket == 3 then 3
    else 0
  }

  /** Each slot that the SIM count covers has the list of its own number; two others share the first. */
  lemma ListsShared(sims: nat, a: int, b: int)
    ensures ListOf(sims, a) == ListOf(sims, b) <==> a == b || (!OwnList(sims, a) && !OwnList(sims, b))
    ensures OwnList(sims, a) ==> ListOf(sims, a) == a
    ensures !OwnList(sims, a) ==> ListOf(sims, a) == 0
  {}

  predicate OwnList(sims: nat, socket: int) { 1 <= socket < sims && socket < SLOTS }

  /** What is sent to the client. */
  datatype Message =
    | Acknowledged(socket: int, token: int)
    | Response(socket: int, token: int, responseType: int, wakeLock: bool)

  /** The flags of a request. */
  datatype Flags = Flags(cancelled: bool, local: bool, acked: bool)

  /**
   * What completing a request sends: nothing for a local or cancelled one. A response that an ack went
   * ahead of asks for an ack itself, and holds the wake lock until that comes.
   */
  function Completion(version: int, socket: int, token: int, f: Flags): Option<Message>
  {
    if f.local || f.cancelled then None
    else if version >= 13 && f.acked then Some(Response(socket, token, RESPONSE_SOLICITED_ACK_EXP, true))
    else Some(Response(socket, token, RESPONSE_SOLICITED, false))
  }

  class RequestInfo {
    const token: int
    const socketId: int
    var next: RequestInfo?
    var cancelled: bool
    var local: bool
    var wasAckSent: bool

    constructor (token: int, socketId: int, next: RequestInfo?)
      ensures this.token == token && this.socketId == socketId && this.next == next
      ensures !cancelled && !local && !wasAckSent
    {
      this.token, this.socketId, this.next := token, socketId, next;
      cancelled, local, wasAckSent := false, false, false;
    }

    function FlagsOf(): Flags reads this { Flags(cancelled, local, wasAckSent) }
  }

  /** Element i of the list s, or null behind its end. */
  function At(s: seq<RequestInfo>, i: nat): RequestInfo?
    requires i <= |s|
  {
    if i < |s| then s[i] else null
  }

  ghost predicate Chain(head: RequestInfo?, s: seq<RequestInfo>)
    reads s
  {
    && head == At(s, 0)
    && (forall i {:trigger s[i].next} :: 0 <= i < |s| ==> s[i].next == At(s, i + 1))
    && (forall i, j :: 0 <= i < j < |s| ==> s[i] != s[j])
  }

  /** The list without the first x; the order of the rest stays. */
  function Without<T(==)>(s: seq<T>, x: T): seq<T>
  {
    if s == [] then [] else if s[0] == x then s[1..] else [s[0]] + Without(s[1..], x)
  }

  lemma {:induction false} WithoutAt<T>(s: seq<T>, i: nat)
    requires i < |s| && s[i] !in s[..i]
    ensures Without(s, s[i]) == s[..i] + s[i + 1..]
  {
    if i > 0 {
      assert s[0] == s[..i][0];
      assert s[1..][..i - 1] == s[..i][1..];
      WithoutAt(s[1..], i - 1);
    }
  }

  class Requests {
    const sims: nat
    const commands: nat
    const version: int
    /** s_pendingRequests and its siblings. */
    const heads: array<RequestInfo?>
    ghost var lists: seq<seq<RequestInfo>>
    /** Every request on any list. */
    ghost var members: set<RequestInfo>

    ghost predicate Valid()
      reads this, heads, members
    {
      && heads.Length == SLOTS == |lists|
      && (forall k, r :: 0 <= k < SLOTS && r in lists[k] ==> r in members && ListOf(sims, r.socketId) == k)
      && (forall k :: 0 <= k < SLOTS ==> Chain(heads[k], lists[k]))
    }

    constructor (sims: nat, commands: nat, version: int)
      ensures Valid() && fresh(heads) && lists == [[], [], [], []]
      ensures this.sims == sims && this.commands == commands && this.version == version
    {
      this.sims, this.commands, this.version := sims, commands, version;
      heads := new RequestInfo?[SLOTS](_ => null);
      lists := [[], [], [], []];
      members := {};
    }

    /** addRequestToList: an unknown request is refused; a known one goes to the front of its slot's list. */
    method AddRequestToList(serial: int, slotId: int, request: int) returns (pRI: RequestInfo?)
      requires Valid()
      modifies this`lists, this`members, heads
      ensures Valid() && members <= old(members) + (if pRI == null then {} else {pRI})
      ensures request >= commands ==> pRI == null && lists == old(lists)
      ensures request < commands ==> pRI != null && fresh(pRI) && pRI.token == serial && pRI.socketId == slotId
      ensures request < commands ==> pRI.FlagsOf() == Flags(false, false, false)
      ensures request < commands ==>
        lists == old(lists)[ListOf(sims, slotId) := [pRI] + old(lists)[ListOf(sims, slotId)]]
    {
      hide ListOf;
      if request >= commands { return null; }
      var k := ListOf(sims, slotId);
      pRI := new RequestInfo(serial, slotId, heads[k]);
      ghost var s := [pRI] + lists[k];
      assert forall i :: 0 < i < |s| ==> s[i] == lists[k][i - 1];
      assert Chain(pRI, s);
      heads[k] := pRI;
      lists := lists[k := s];
      members := members + {pRI};
    }

    /**
     * checkAndDequeueRequestInfoIfAck: looks for the request in its slot's list. An ack marks it and
     * leaves it there; anything else takes it off.
     */
    method CheckAndDequeue(pRI: RequestInfo?, isAck: bool) returns (found: bool)
      requires Valid()
      modifies this`lists, heads, members`next
      modifies if pRI == null then {} else {pRI}
      ensures Valid()
      ensures found <==> pRI != null && pRI in old(lists)[ListOf(sims, pRI.socketId)]
      ensures !found || isAck ==> lists == old(lists)
      ensures found && isAck ==> pRI.FlagsOf() == old(pRI.FlagsOf()).(acked := true)
      ensures pRI != null && !(found && isAck) ==> pRI.FlagsOf() == old(pRI.FlagsOf())
      ensures found && !isAck ==>
        var k := ListOf(sims, pRI.socketId);
        lists == old(lists)[k := Without<RequestInfo>(old(lists)[k], pRI)]
    {
      if pRI == null { return false; }
      hide Without, ListOf;
      var k := ListOf(sims, pRI.socketId);
      ghost var s := lists[k];
      var prev: RequestInfo? := null;
      var cur := heads[k];
      ghost var i := 0;
      while cur != null
        invariant i <= |s| && cur == At(s, i)
        invariant prev == if i == 0 then null else s[i - 1]
        invariant forall j :: 0 <= j < i ==> s[j] != pRI
        decreases |s| - i
      {
        if cur == pRI {
          if isAck {
            pRI.wasAckSent := true;
          } else {
            Unlink(k, prev, cur, i);
          }
          return true;
        }
        prev := cur;
        cur := cur.next;
        i := i + 1;
      }
      found := false;
    }

    /** *ppCur = (*ppCur)->p_next, where ppCur is the list head or the previous element's link. */
    method Unlink(k: nat, prev: RequestInfo?, cur: RequestInfo, ghost i: nat)
      requires Valid() && k < SLOTS && i < |lists[k]| && cur == lists[k][i]
      requires prev == if i == 0 then null else lists[k][i - 1]
      modifies this`lists, heads, members`next
      ensures Valid() && lists == old(lists)[k := Without(old(lists)[k], cur)]
    {
      ghost var s := lists[k];
      ghost var t := s[..i] + s[i + 1..];
      WithoutAt(s, i);
      hide Without, ListOf, Chain;
      assert prev != null ==> prev in s && ListOf(sims, prev.socketId) == k;
      var head := heads[k];
      if prev == null { head := cur.next; heads[k] := head; }
      Relink(prev, cur, head, s, i);
      forall m | 0 <= m < SLOTS && m != k ensures Chain(heads[m], lists[m]) {
        assert old(Chain(heads[m], lists[m]));
        assert prev !in lists[m];
      }
      lists := lists[k := t];
    }

    static method Relink(prev: RequestInfo?, cur: RequestInfo, head: RequestInfo?,
                         ghost s: seq<RequestInfo>, ghost i: nat)
      requires i < |s| && cur == s[i] && prev == if i == 0 then null else s[i - 1]
      requires Chain(At(s, 0), s) && head == if i == 0 then cur.next else s[0]
      modifies if prev == null then {} else {prev}`next
      ensures Chain(head, s[..i] + s[i + 1..])
    {
      assert cur.next == At(s, i + 1);
      if prev != null { prev.next := cur.next; }
      ghost var t := s[..i] + s[i + 1..];
      forall j | 0 <= j < |t| ensures t[j].next == At(t, j + 1) {
        var m := if j < i then j else j + 1;
        assert t[j] == s[m] && old(s[m].next) == At(s, m + 1);
      }
    }

    /** RIL_onRequestAck */
    method OnRequestAck(t: RequestInfo?) returns (sent: Option<Message>)
      requires Valid()
      modifies this`lists, heads, members`next
      modifies if t == null then {} else {t}
      ensures Valid() && lists == old(lists)
      ensures t == null || t !in old(lists)[ListOf(sims, t.socketId)] ==> sent == None
      ensures t != null && t in old(lists)[ListOf(sims, t.socketId)] ==>
        && t.FlagsOf() == old(t.FlagsOf()).(acked := true)
        && sent == if old(t.cancelled) then None else Some(Acknowledged(t.socketId, t.token))
    {
      var found := CheckAndDequeue(t, true);
      if !found { return None; }
      sent := if t.cancelled then None else Some(Acknowledged(t.socketId, t.token));
    }

    /** RIL_onRequestComplete */
    method OnRequestComplete(t: RequestInfo?) returns (sent: Option<Message>)
      requires Valid()
      modifies this`lists, heads, members`next
      modifies if t == null then {} else {t}
      ensures Valid()
      ensures t == null || t !in old(lists)[ListOf(sims, t.socketId)] ==> sent == None && lists == old(lists)
      ensures t != null && t in old(lists)[ListOf(sims, t.socketId)] ==>
        var k := ListOf(sims, t.socketId);
        && lists == old(lists)[k := Without<RequestInfo>(old(lists)[k], t)]
        && sent == Completion(version, t.socketId, t.token, old(t.FlagsOf()))
    {
      var found := CheckAndDequeue(t, false);
      if !found { return None; }
      if t.local { return None; }
      if !t.cancelled {
        if version >= 13 && t.wasAckSent {
          sent := Some(Response(t.socketId, t.token, RESPONSE_SOLICITED_ACK_EXP, true));
        } else {
          sent := Some(Response(t.socketId, t.token, RESPONSE_SOLICITED, false));
        }
      } else {
        sent := None;
      }
    }
  }
}
