/** What both ways of reaching the radio have in common: a queue of events, and waiting for an answer. */
module FmTransport {
  import opened Options
  import opened Words

  /** An HCI event: its code, the length of its parameters, and these. */
  type Event = seq<byte>

  const CMD_COMPLETE: byte := 0x0e
  const VENDOR: byte := 0xff
  const VSC_OPCODE := 0xfc15
  const QUEUE_MAX := 8
  const TRIES := 16

  function Half(low: int, high: int): int { low + 0x100 * high }

  /** A Command Complete event for this command. */
  predicate Completes(e: Event, opcode: nat)
  {
    |e| >= 5 && e[0] == CMD_COMPLETE && Half(e[3], e[4]) == opcode
  }

  predicate IsVendor(e: Event) { e != [] && e[0] == VENDOR }

  /** The return parameters, the number of events looked at, and the vendor events among those. */
  datatype Outcome = Outcome(response: Option<Event>, taken: nat, vendor: seq<Event>)

  function Await(events: seq<Event>, opcode: nat, tries: nat): Outcome
  {
    if tries == 0 || events == [] then Outcome(None, 0, [])
    else if Completes(events[0], opcode) then Outcome(Some(events[0][5..]), 1, [])
    else
      var o := Await(events[1..], opcode, tries - 1);
      Outcome(o.response, o.taken + 1, (if IsVendor(events[0]) then [events[0]] else []) + o.vendor)
  }

  function Vendors(events: seq<Event>): seq<Event>
  {
    if events == [] then [] else (if IsVendor(events[0]) then [events[0]] else []) + Vendors(events[1..])
  }

  /** The answer is that of the first Command Complete within the given number of events. */
  lemma {:induction false} AwaitFirst(events: seq<Event>, opcode: nat, tries: nat, k: nat)
    requires k < |events| && k < tries && Completes(events[k], opcode)
    requires forall j :: 0 <= j < k ==> !Completes(events[j], opcode)
    ensures Await(events, opcode, tries) == Outcome(Some(events[k][5..]), k + 1, Vendors(events[..k]))
  {
    if k > 0 {
      AwaitFirst(events[1..], opcode, tries - 1, k - 1);
      assert events[1..][..k - 1] == events[..k][1..];
    }
  }

  /** Without one all the events are looked at, up to that number. */
  lemma {:induction false} AwaitNone(events: seq<Event>, opcode: nat, tries: nat)
    requires forall j :: 0 <= j < |events| && j < tries ==> !Completes(events[j], opcode)
    ensures var n := if |events| < tries then |events| else tries;
      Await(events, opcode, tries) == Outcome(None, n, Vendors(events[..n]))
  {
    if tries > 0 && events != [] {
      AwaitNone(events[1..], opcode, tries - 1);
      var n := if |events| < tries then |events| else tries;
      assert events[1..][..n - 1] == events[..n][1..];
    }
  }

  /** One more event, when those before did not answer. */
  lemma {:induction false} AwaitSnoc(events: seq<Event>, e: Event, opcode: nat, tries: nat)
    requires |events| < tries && Await(events, opcode, tries).response.None?
    ensures Await(events, opcode, tries).taken == |events|
    ensures var o, n := Await(events, opcode, tries), Await(events + [e], opcode, tries);
      && n.taken == |events| + 1
      && n.response == (if Completes(e, opcode) then Some(e[5..]) else None)
      && n.vendor == o.vendor + if !Completes(e, opcode) && IsVendor(e) then [e] else []
  {
    if events == [] {
      assert [] + [e] == [e] && [e][1..] == [];
    } else {
      assert (events + [e])[1..] == events[1..] + [e];
      AwaitSnoc(events[1..], e, opcode, tries - 1);
    }
  }

  // What is sent, and what answers it.

  /** hci_send: the command packet, with the opcode's low byte first. */
  function Command(opcode: nat, params: seq<byte>): seq<byte>
    requires opcode < 0x1_0000 && |params| < 0x100
  {
    [0x01, opcode % 0x100, opcode / 0x100, |params|] + params
  }

  /** The Command Complete event with these return parameters; it repeats the opcode bytes of the command. */
  function Complete(packets: byte, cmd: seq<byte>, params: seq<byte>): Event
    requires |cmd| >= 3 && |params| < 0xfd
  {
    [0x0e, |params| + 3, packets, cmd[1], cmd[2]] + params
  }

  /** An event answers a command exactly if it is such an event for the opcode bytes that were sent. */
  lemma CompletesIff(e: Event, opcode: nat, params: seq<byte>)
    requires opcode < 0x1_0000 && |params| < 0x100
    ensures Completes(e, opcode) <==>
      |e| >= 5 && e[0] == 0x0e && e[3] == Command(opcode, params)[1] && e[4] == Command(opcode, params)[2]
  {}

  /** A wait ends with the answer to its own command, whatever comes before, and passes over any other's. */
  lemma CommandAnswered(before: seq<Event>, opcode: nat, sent: seq<byte>, other: nat, otherSent: seq<byte>,
                        packets: byte, params: seq<byte>, after: seq<Event>)
    requires opcode < 0x1_0000 && other < 0x1_0000 && |sent| < 0x100 && |otherSent| < 0x100 && |params| < 0xfd
    requires |before| < TRIES && forall i :: 0 <= i < |before| ==> !Completes(before[i], opcode)
    ensures var e := Complete(packets, Command(other, otherSent), params);
      && (other == opcode ==> Await(before + [e] + after, opcode, TRIES).response == Some(params))
      && (Completes(e, opcode) <==> other == opcode)
  {
    var e := Complete(packets, Command(other, otherSent), params);
    assert e[5..] == params;
    var all := before + [e] + after;
    CompletesIff(e, opcode, sent);
    if other == opcode {
      assert all[|before|] == e && forall i :: 0 <= i < |before| ==> all[i] == before[i];
      AwaitFirst(all, opcode, TRIES, |before|);
    }
  }

  /** A vendor event that comes while the answer is awaited is kept for later. */
  lemma VendorKept(opcode: nat, sent: seq<byte>, vendor: seq<byte>, packets: byte, params: seq<byte>)
    requires opcode < 0x1_0000 && |sent| < 0x100 && |vendor| < 0x100 && |params| < 0xfd
    ensures var v, e := [0xff, |vendor|] + vendor, Complete(packets, Command(opcode, sent), params);
      Await([v, e], opcode, TRIES) == Outcome(Some(params), 2, [v])
  {
    var v, e: Event := [0xff, |vendor|] + vendor, Complete(packets, Command(opcode, sent), params);
    assert e[5..] == params && [v, e][1..] == [e] && [v] + [] == [v];
    CompletesIff(e, opcode, sent);
  }

  // The queue of vendor events.

  function Cut<T>(s: seq<T>, n: nat): seq<T> { if |s| <= n then s else s[..n] }

  /** A new event goes in last; the oldest one makes room for it. */
  function Pushed(q: seq<Event>, e: Event, slot: nat): seq<Event>
  {
    (if |q| == QUEUE_MAX then q[1..] else q) + [Cut(e, slot)]
  }

  function PushAll(q: seq<Event>, events: seq<Event>, slot: nat): seq<Event>
    decreases |events|
  {
    if events == [] then q else PushAll(Pushed(q, events[0], slot), events[1..], slot)
  }

  function Newest(events: seq<Event>): seq<Event>
  {
    if |events| <= QUEUE_MAX then events else events[|events| - QUEUE_MAX..]
  }

  /** The queue holds the newest events, uncut if they fit a slot, in order. */
  lemma {:induction false} PushAllNewest(q: seq<Event>, events: seq<Event>, slot: nat)
    requires |q| <= QUEUE_MAX && forall e :: e in events ==> |e| <= slot
    ensures PushAll(q, events, slot) == Newest(q + events)
    decreases |events|
  {
    if events == [] {
      assert q + events == q;
    } else {
      PushNewest(q, events[0], events[1..], slot);
      hide Pushed, Newest;
      PushAllNewest(Pushed(q, events[0], slot), events[1..], slot);
      assert q + ([events[0]] + events[1..]) == q + events;
    }
  }

  lemma PushNewest(q: seq<Event>, e: Event, rest: seq<Event>, slot: nat)
    requires |q| <= QUEUE_MAX && |e| <= slot
    ensures |Pushed(q, e, slot)| <= QUEUE_MAX && Newest(Pushed(q, e, slot) + rest) == Newest(q + ([e] + rest))
  {
    var all := q + ([e] + rest);
    if |q| == QUEUE_MAX {
      assert q[1..] + [e] + rest == all[1..];
    } else {
      assert q + [e] + rest == all;
    }
  }

  lemma {:induction false} PushAllSnoc(q: seq<Event>, events: seq<Event>, e: Event, slot: nat)
    ensures PushAll(q, events + [e], slot) == Pushed(PushAll(q, events, slot), e, slot)
    decreases |events|
  {
    if events == [] {
      assert [] + [e] == [e] && [e][1..] == [];
    } else {
      assert (events + [e])[1..] == events[1..] + [e];
      PushAllSnoc(Pushed(q, events[0], slot), events[1..], e, slot);
    }
  }

  /** The queue while waiting: what one more event, behind some that did not answer, does to it. */
  lemma OneMoreEvent(q: seq<Event>, events: seq<Event>, e: Event, opcode: nat, slot: nat)
    requires |events| < TRIES && Await(events, opcode, TRIES).response.None?
    ensures var o, n := Await(events, opcode, TRIES), Await(events + [e], opcode, TRIES);
      && o.taken == |events| && n.taken == |events| + 1
      && n.response == (if Completes(e, opcode) then Some(e[5..]) else None)
      && PushAll(q, n.vendor, slot) ==
        if !Completes(e, opcode) && IsVendor(e) then Pushed(PushAll(q, o.vendor, slot), e, slot)
        else PushAll(q, o.vendor, slot)
  {
    AwaitSnoc(events, e, opcode, TRIES);
    var o := Await(events, opcode, TRIES);
    PushAllSnoc(q, o.vendor, e, slot);
    assert o.vendor + [] == o.vendor;
  }

  lemma NoEvent(q: seq<Event>, opcode: nat, slot: nat)
    ensures Await([], opcode, TRIES) == Outcome(None, 0, []) && PushAll(q, [], slot) == q
  {}

  lemma {:induction false} PushAllSlots(q: seq<Event>, events: seq<Event>, a: nat, b: nat)
    requires forall e :: e in events ==> |e| <= a && |e| <= b
    ensures PushAll(q, events, a) == PushAll(q, events, b)
    decreases |events|
  {
    if events != [] { PushAllSlots(Pushed(q, events[0], a), events[1..], a, b); }
  }

  lemma {:induction false} AwaitVendorIn(events: seq<Event>, opcode: nat, tries: nat)
    ensures forall e :: e in Await(events, opcode, tries).vendor ==> e in events
  {
    if events != [] && tries > 0 && !Completes(events[0], opcode) { AwaitVendorIn(events[1..], opcode, tries - 1); }
  }

  lemma Wrap(head: nat, i: nat)
    requires head < QUEUE_MAX && i < QUEUE_MAX
    ensures ((head + 1) % QUEUE_MAX + i) % QUEUE_MAX == (head + (i + 1)) % QUEUE_MAX
  {}

  /** The ring of pending events. */
  class EventQueue {
    const queue: array<Event>
    const slot: nat
    var queue_head: nat
    var queue_count: nat

    ghost predicate Valid()
      reads this
    {
      queue.Length == QUEUE_MAX && queue_head < QUEUE_MAX && queue_count <= QUEUE_MAX
    }

    /** The events, the oldest one first. */
    ghost function Contents(): (q: seq<Event>)
      requires Valid()
      reads this, queue
      ensures |q| == queue_count
    {
      seq(queue_count, i requires 0 <= i < queue_count reads this, queue requires Valid() =>
        queue[(queue_head + i) % QUEUE_MAX])
    }

    constructor (slot: nat)
      ensures Valid() && Contents() == [] && this.slot == slot && fresh(queue)
    {
      queue := new Event[QUEUE_MAX](_ => []);
      this.slot, queue_head, queue_count := slot, 0, 0;
    }

    method DropOldest()
      requires Valid() && queue_count > 0
      modifies this
      ensures Valid() && Contents() == old(Contents())[1..]
    {
      queue_head := (queue_head + 1) % QUEUE_MAX;
      queue_count := queue_count - 1;
      forall i | 0 <= i < queue_count ensures Contents()[i] == old(Contents())[i + 1] {
        Wrap(old(queue_head), i);
      }
    }

    method AddLast(evt: Event)
      requires Valid() && queue_count < QUEUE_MAX
      modifies this, queue
      ensures Valid() && Contents() == old(Contents()) + [Cut(evt, slot)]
    {
      hide Cut;
      var idx := (queue_head + queue_count) % QUEUE_MAX;
      queue[idx] := Cut(evt, slot);
      queue_count := queue_count + 1;
      assert forall i :: 0 <= i < queue_count - 1 ==> Contents()[i] == old(Contents())[i];
    }

    /** queue_push */
    method Push(evt: Event)
      requires Valid()
      modifies this, queue
      ensures Valid() && Contents() == Pushed(old(Contents()), evt, slot)
    {
      hide Contents;
      if queue_count == QUEUE_MAX { DropOldest(); }
      AddLast(evt);
    }

    /** queue_pop */
    method Pop(outsz: nat) returns (evt: Option<Event>)
      requires Valid()
      modifies this
      ensures Valid()
      ensures if old(Contents()) == [] then evt == None && Contents() == []
              else evt == Some(Cut(old(Contents())[0], outsz)) && Contents() == old(Contents())[1..]
    {
      if queue_count == 0 { return None; }
      evt := Some(Cut(queue[queue_head], outsz));
      DropOldest();
    }
  }

  /** What comes back to the caller: the count, and the bytes in its buffer, if it gave one. */
  datatype Answer = Answer(count: nat, resp: seq<byte>)

  function Given(response: seq<byte>, respsz: Option<nat>): Answer
  {
    if respsz.None? then Answer(|response|, []) else Answer(|Cut(response, respsz.value)|, Cut(response, respsz.value))
  }

  function AnswerOf(o: Outcome, respsz: Option<nat>): Option<Answer>
  {
    if o.response.None? then None else Some(Given(o.response.value, respsz))
  }

  /** The caller gets as much of the return parameters as it has room for, or only their number. */
  lemma GivenIs(response: seq<byte>, respsz: Option<nat>)
    ensures Given(response, respsz).resp <= response
    ensures respsz.None? ==> Given(response, respsz) == Answer(|response|, [])
    ensures respsz.Some? ==> Given(response, respsz).count == |Given(response, respsz).resp| <= respsz.value
    ensures respsz.Some? && Given(response, respsz).resp != response ==> |Given(response, respsz).resp| == respsz.value
  {}

  /** One event while waiting for the answer to a command; a result ends the wait. */
  method HandleEvent(queue: EventQueue, evt: Event, opcode: nat, respsz: Option<nat>) returns (answer: Option<Answer>)
    requires queue.Valid() && evt != []
    modifies queue, queue.queue
    ensures queue.Valid()
    ensures answer == if Completes(evt, opcode) then Some(Given(evt[5..], respsz)) else None
    ensures queue.Contents() ==
      if !Completes(evt, opcode) && IsVendor(evt) then Pushed(old(queue.Contents()), evt, queue.slot)
      else old(queue.Contents())
  {
    answer := None;
    if evt[0] == CMD_COMPLETE && |evt| >= 5 {
      var op := Half(evt[3], evt[4]);
      if op == opcode { answer := Some(Given(evt[5..], respsz)); }
      return;
    }
    if evt[0] == VENDOR { queue.Push(evt); }
  }

  // Two waits for the same events.

  /** The wait is over, and looked at just these events. */
  ghost predicate Ended(events: seq<Event>, opcode: nat)
  {
    var o := Await(events, opcode, TRIES);
    o.taken == |events| && (o.response.Some? || |events| == TRIES)
  }

  lemma {:induction false} AwaitPrefix(a: seq<Event>, b: seq<Event>, opcode: nat, tries: nat)
    requires a <= b && Await(a, opcode, tries).taken == |a|
    requires Await(a, opcode, tries).response.Some? || |a| == tries
    ensures Await(b, opcode, tries) == Await(a, opcode, tries)
    decreases |a|
  {
    if tries > 0 && a != [] && !Completes(a[0], opcode) { AwaitPrefix(a[1..], b[1..], opcode, tries - 1); }
  }

  /** Of two waits that are over, neither went on longer than the other if they saw the same events. */
  lemma SameWait(a: seq<Event>, b: seq<Event>, opcode: nat)
    requires Ended(a, opcode) && Ended(b, opcode) && (a <= b || b <= a)
    ensures a == b
  {
    if a <= b { AwaitPrefix(a, b, opcode, TRIES); } else { AwaitPrefix(b, a, opcode, TRIES); }
  }
}
