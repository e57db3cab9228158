/** The radio behind the Bluetooth HAL's message socket, and why it is the same transport. */
module FmHci {
  import opened Options
  import opened Words
  import opened FmTransport
  import opened FmUart

  /** OP_EVENT */
  const OP_EVENT: byte := 0x04

  /** MAX_MESSAGE: a longer message is cut by recv. */
  const MAX_MESSAGE := 260

  type Message = seq<byte>

  datatype Received = Received(event: Event, rest: seq<Message>)

  /** The first event message; one of less than two bytes ends the wait. */
  function NextEvent(msgs: seq<Message>): (r: Option<Received>)
    ensures r.Some? ==> |r.value.rest| < |msgs| && 0 < |r.value.event| < MAX_MESSAGE
  {
    if msgs == [] then None
    else
      var m := Cut(msgs[0], MAX_MESSAGE);
      if |m| < 2 then None
      else if m[0] != OP_EVENT then NextEvent(msgs[1..])
      else Some(Received(m[1..], msgs[1..]))
  }

  /** t is left when these events have been received from s. */
  ghost predicate Carries(s: seq<Message>, events: seq<Event>, t: seq<Message>)
    decreases |events|
  {
    if events == [] then t == s
    else
      var r := NextEvent(s);
      r.Some? && r.value.event == events[0] && Carries(r.value.rest, events[1..], t)
  }

  lemma {:induction false} CarriesSnoc(s: seq<Message>, events: seq<Event>, t: seq<Message>, r: Received)
    requires Carries(s, events, t) && NextEvent(t) == Some(r)
    ensures Carries(s, events + [r.event], r.rest)
    decreases |events|
  {
    hide NextEvent;
    if events == [] {
      assert [] + [r.event] == [r.event] && [r.event][1..] == [];
    } else {
      assert (events + [r.event])[1..] == events[1..] + [r.event];
      CarriesSnoc(NextEvent(s).value.rest, events[1..], t, r);
    }
  }

  lemma {:induction false} CarriesUnique(s: seq<Message>, a: seq<Event>, x: seq<Message>,
                                         b: seq<Event>, y: seq<Message>)
    requires Carries(s, a, x) && Carries(s, b, y) && |a| <= |b|
    ensures a == b[..|a|]
    decreases |a|
  {
    hide NextEvent;
    if a != [] {
      CarriesUnique(NextEvent(s).value.rest, a[1..], x, b[1..], y);
      assert a == [a[0]] + a[1..] && b[..|a|] == [b[0]] + b[1..][..|a| - 1];
    }
  }

  class Hci {
    /** The messages that the socket has still to deliver. */
    var rest: seq<Message>
    /** How often the socket has timed out, failed or ended so far. */
    ghost var faults: nat
    const queue: EventQueue

    ghost predicate Valid()
      reads this, queue
    {
      queue.Valid() && queue.slot == MAX_MESSAGE
    }

    constructor (msgs: seq<Message>)
      ensures Valid() && rest == msgs && faults == 0 && queue.Contents() == []
      ensures fresh(queue) && fresh(queue.queue)
    {
      rest, faults := msgs, 0;
      queue := new EventQueue(MAX_MESSAGE);
    }

    /** recv_message */
    method RecvMessage(msgsz: nat) returns (msg: Option<Message>)
      modifies this`rest, this`faults
      ensures msg.None? ==> faults > old(faults) && rest == old(rest)
      ensures msg.Some? ==> faults == old(faults) && old(rest) != [] && rest == old(rest)[1..]
      ensures msg.Some? ==> msg.value == Cut(old(rest)[0], msgsz)
    {
      var failed: bool := *;
      if failed || rest == [] {
        faults := faults + 1;
        return None;
      }
      msg := Some(Cut(rest[0], msgsz));
      rest := rest[1..];
    }

    /** recv_event */
    method RecvEvent(evtsz: nat) returns (evt: Option<Event>)
      modifies this`rest, this`faults
      ensures evt.Some? ==>
        && faults == old(faults) && NextEvent(old(rest)).Some?
        && evt.value == Cut(NextEvent(old(rest)).value.event, evtsz) && rest == NextEvent(old(rest)).value.rest
      ensures evt.None? ==> faults > old(faults) || NextEvent(old(rest)).None?
    {
      while true
        invariant faults == old(faults) && NextEvent(rest) == NextEvent(old(rest))
        decreases |rest|
      {
        var msg := RecvMessage(MAX_MESSAGE);
        if msg.None? || |msg.value| < 2 { return None; }
        if msg.value[0] == OP_EVENT { return Some(Cut(msg.value[1..], evtsz)); }
      }
    }

    /** transport_vsc; events are those received, behind which the socket is at seen. */
    method TransportVsc(sent: bool, respsz: Option<nat>)
      returns (answer: Option<Answer>, ghost events: seq<Event>, ghost seen: seq<Message>)
      requires Valid()
      modifies this`rest, this`faults, queue, queue.queue
      ensures Valid()
      ensures Carries(old(rest), events, seen)
      ensures var o := Await(events, VSC_OPCODE, TRIES);
        && o.taken == |events| && answer == AnswerOf(o, respsz)
        && queue.Contents() == PushAll(old(queue.Contents()), o.vendor, MAX_MESSAGE)
      ensures sent && faults == old(faults) ==> answer.Some? || |events| == TRIES || NextEvent(seen).None?
      ensures !sent || faults > old(faults) ==> answer == None
      ensures !sent ==> events == [] && rest == old(rest)
    {
      hide NextEvent, Await, Pushed, PushAll;
      answer, events, seen := None, [], rest;
      NoEvent(queue.Contents(), VSC_OPCODE, MAX_MESSAGE);
      if !sent { return; }
      var tries := 0;
      while tries < TRIES
        invariant Valid() && |events| == tries <= TRIES && answer == None
        invariant Carries(old(rest), events, rest) && faults == old(faults) && seen == rest
        invariant var o := Await(events, VSC_OPCODE, TRIES);
          && o.response.None? && o.taken == |events|
          && queue.Contents() == PushAll(old(queue.Contents()), o.vendor, MAX_MESSAGE)
      {
        var evt := RecvEvent(MAX_MESSAGE);
        if evt.None? { return; }
        CarriesSnoc(old(rest), events, seen, Received(evt.value, rest));
        OneMoreEvent(old(queue.Contents()), events, evt.value, VSC_OPCODE, MAX_MESSAGE);
        events, seen := events + [evt.value], rest;
        answer := HandleEvent(queue, evt.value, VSC_OPCODE, respsz);
        if answer.Some? { return; }
        tries := tries + 1;
      }
    }

    /** transport_wait_event */
    method WaitEvent(evtsz: nat) returns (evt: Option<Event>)
      requires Valid()
      modifies this`rest, this`faults, queue
      ensures Valid()
      ensures var q := old(queue.Contents()); queue.Contents() == if q == [] then [] else q[1..]
      ensures faults == old(faults) ==> evt == MessageWaited(old(queue.Contents()), old(rest), evtsz)
      ensures faults > old(faults) ==> evt == None && MessageWaited(old(queue.Contents()), [], evtsz) == None
    {
      evt := queue.Pop(evtsz);
      if evt.Some? && evt.value != [] { return; }
      evt := RecvEvent(evtsz);
    }
  }

  /** What waiting for an event answers if the socket does not fail. */
  function MessageWaited(q: seq<Event>, msgs: seq<Message>, evtsz: nat): Option<Event>
  {
    if q != [] && Cut(q[0], evtsz) != [] then Some(Cut(q[0], evtsz))
    else
      var r := NextEvent(msgs);
      if r.None? then None else Some(Cut(r.value.event, evtsz))
  }

  /** An event fits a message and is not cut. */
  lemma EventAfterOthers(e: Event, others: seq<Message>, tail: seq<Message>)
    requires WellFormed(e)
    requires forall m :: m in others ==> |m| >= 2 && m[0] != OP_EVENT
    ensures NextEvent(others + [[OP_EVENT] + e] + tail) == Some(Received(e, tail))
  {
    if others == [] {
      Small(e[1]);
      assert others + [[OP_EVENT] + e] + tail == [[OP_EVENT] + e] + tail;
      assert ([OP_EVENT] + e)[1..] == e;
    } else {
      var all := others + [[OP_EVENT] + e] + tail;
      assert all[1..] == others[1..] + [[OP_EVENT] + e] + tail && all[0] == others[0];
      EventAfterOthers(e, others[1..], tail);
    }
  }

  /** What the socket carries when each event comes behind other messages, with tail at the end. */
  function Messages(others: seq<seq<Message>>, events: seq<Event>, tail: seq<Message>): seq<Message>
    requires |others| == |events|
  {
    if events == [] then tail else others[0] + [[OP_EVENT] + events[0]] + Messages(others[1..], events[1..], tail)
  }

  /** Messages of other kinds. */
  ghost predicate Others(msgs: seq<Message>) { forall m :: m in msgs ==> |m| >= 2 && m[0] != OP_EVENT }

  /** All events sent are received, in order, and nothing of what follows them. */
  lemma {:induction false} MessagesCarry(others: seq<seq<Message>>, events: seq<Event>, tail: seq<Message>)
    requires |others| == |events| && (forall i :: 0 <= i < |others| ==> Others(others[i]))
    requires forall i :: 0 <= i < |events| ==> WellFormed(events[i])
    ensures Carries(Messages(others, events, tail), events, tail)
  {
    hide NextEvent;
    if events != [] {
      assert Others(others[0]);
      EventAfterOthers(events[0], others[0], Messages(others[1..], events[1..], tail));
      MessagesCarry(others[1..], events[1..], tail);
    }
  }

  lemma {:induction false} CarriesEnd(s: seq<Message>, all: seq<Event>, x: seq<Message>, a: seq<Event>, y: seq<Message>)
    requires Carries(s, all, x) && NextEvent(x).None? && Carries(s, a, y)
    ensures |a| <= |all|
    decreases |all|
  {
    hide NextEvent;
    if all != [] && a != [] { CarriesEnd(NextEvent(s).value.rest, all[1..], x, a[1..], y); }
  }

  /**
   * Given the same events, whatever garbage or other messages lie between them, both transports answer the
   * same and leave the same events queued.
   */
  lemma CommandsAgree(bytes: seq<byte>, msgs: seq<Message>, all: seq<Event>, x: seq<byte>, y: seq<Message>,
                      a: seq<Event>, s: seq<byte>, b: seq<Event>, t: seq<Message>, q: seq<Event>)
    requires Frames(bytes, all, x) && Carries(msgs, all, y)
    requires Frames(bytes, a, s) && Carries(msgs, b, t) && Ended(a, VSC_OPCODE) && Ended(b, VSC_OPCODE)
    requires |a| <= |all| && |b| <= |all|
    ensures a == b
    ensures var v := Await(a, VSC_OPCODE, TRIES).vendor; PushAll(q, v, EVENT_SIZE) == PushAll(q, v, MAX_MESSAGE)
  {
    FramesUnique(bytes, a, s, all, x);
    CarriesUnique(msgs, b, t, all, y);
    SameWait(a, b, VSC_OPCODE);
    FramesFit(bytes, a, s);
    AwaitVendorIn(a, VSC_OPCODE, TRIES);
    hide Frames, Carries, Await, PushAll;
    PushAllSlots(q, Await(a, VSC_OPCODE, TRIES).vendor, EVENT_SIZE, MAX_MESSAGE);
  }

  /**
   * So for any events at all, sent on the line behind any garbage and on the socket behind any other messages:
   * the two commands, once over, have seen the same ones, answer the same and queue the same.
   */
  lemma TransportsAgree(junk: seq<seq<byte>>, others: seq<seq<Message>>, events: seq<Event>, x: seq<byte>,
                        y: seq<Message>, a: seq<Event>, s: seq<byte>, b: seq<Event>, t: seq<Message>, q: seq<Event>)
    requires |junk| == |others| == |events| && (forall i :: 0 <= i < |events| ==> WellFormed(events[i]))
    requires forall i :: 0 <= i < |events| ==> EVENT_PKT !in junk[i] && Others(others[i])
    requires FirstFrame(x).None? && NextEvent(y).None?
    requires Frames(Stream(junk, events, x), a, s) && Carries(Messages(others, events, y), b, t)
    requires Ended(a, VSC_OPCODE) && Ended(b, VSC_OPCODE)
    ensures a == b
    ensures var v := Await(a, VSC_OPCODE, TRIES).vendor; PushAll(q, v, EVENT_SIZE) == PushAll(q, v, MAX_MESSAGE)
  {
    hide FirstFrame, NextEvent, Frames, Carries, Await, PushAll, Stream, Messages, Ended;
    StreamFrames(junk, events, x);
    MessagesCarry(others, events, y);
    FramesEnd(Stream(junk, events, x), events, x, a, s);
    CarriesEnd(Messages(others, events, y), events, y, b, t);
    CommandsAgree(Stream(junk, events, x), Messages(others, events, y), events, x, y, a, s, b, t, q);
  }

  /** Waiting for an event agrees too, exactly if one is queued or the caller has room for the next one. */
  lemma WaitsAgree(q: seq<Event>, bytes: seq<byte>, msgs: seq<Message>, e: Event, s: seq<byte>, t: seq<Message>,
                   evtsz: nat)
    requires FirstFrame(bytes) == Some(Framed(e, s)) && NextEvent(msgs) == Some(Received(e, t))
    requires forall i :: 0 <= i < |q| ==> q[i] != []
    ensures Waited(q, bytes, evtsz) == MessageWaited(q, msgs, evtsz) <==> (q != [] && evtsz > 0) || |e| <= evtsz
  {}
}
