/** The radio behind a serial line: H4 framing and the transport on top of it. */
module FmUart {
  import opened Options
  import opened Words
  import opened FmTransport

  /** HCI_EVENT_PKT */
  const EVENT_PKT: byte := 0x04

  /** sizeof(evt) in hci_command, and the size of a queue slot. */
  const EVENT_SIZE := 300

  /** What follows the first event indicator. */
  function AfterMark(s: seq<byte>): (rest: Option<seq<byte>>)
    ensures rest.Some? ==> |rest.value| < |s|
  {
    if s == [] then None else if s[0] == EVENT_PKT then Some(s[1..]) else AfterMark(s[1..])
  }

  datatype Framed = Framed(event: Event, rest: seq<byte>)

  /** The length of an event with this much in its parameters. */
  function Total(parameters: int): int { 2 + parameters }

  /** The event whose code and length bytes begin s. */
  function EventAt(s: seq<byte>): Option<Framed>
  {
    if |s| < 2 || |s| < Total(s[1]) then None else Some(Framed(s[..Total(s[1])], s[Total(s[1])..]))
  }

  function FirstFrame(s: seq<byte>): (f: Option<Framed>)
    ensures f.Some? ==> |f.value.rest| < |s| && WellFormed(f.value.event)
  {
    var rest := AfterMark(s);
    if rest.None? then None else EventAt(rest.value)
  }

  predicate WellFormed(e: Event) { |e| >= 2 && |e| == Total(e[1]) }

  /** What the controller sends for an event. */
  function Encode(e: Event): seq<byte> { [EVENT_PKT] + e }

  lemma {:induction false} MarkBehind(junk: seq<byte>, s: seq<byte>)
    requires EVENT_PKT !in junk
    ensures AfterMark(junk + [EVENT_PKT] + s) == Some(s)
  {
    if junk == [] {
      assert junk + [EVENT_PKT] + s == [EVENT_PKT] + s;
    } else {
      assert (junk + [EVENT_PKT] + s)[1..] == junk[1..] + [EVENT_PKT] + s;
      MarkBehind(junk[1..], s);
    }
  }

  /** Garbage without an event indicator is skipped, and the event behind it is received whole. */
  lemma FrameAfterJunk(junk: seq<byte>, e: Event, tail: seq<byte>)
    requires EVENT_PKT !in junk && WellFormed(e)
    ensures FirstFrame(junk + Encode(e) + tail) == Some(Framed(e, tail))
  {
    assert junk + Encode(e) + tail == junk + [EVENT_PKT] + (e + tail);
    MarkBehind(junk, e + tail);
    hide AfterMark;
    assert (e + tail)[..|e|] == e && (e + tail)[|e|..] == tail;
  }

  /** Byte by byte: indicator, code and length, and then as many parameters. */
  lemma FrameBytes(junk: seq<byte>, code: byte, params: seq<byte>, tail: seq<byte>)
    requires 0x04 !in junk && |params| < 0x100
    ensures FirstFrame(junk + [0x04, code, |params|] + params + tail)
      == Some(Framed([code, |params|] + params, tail))
  {
    var e := [code, |params|] + params;
    assert junk + [0x04, code, |params|] + params + tail == junk + Encode(e) + tail;
    FrameAfterJunk(junk, e, tail);
  }

  /** t is left when these events have been received from s. */
  ghost predicate Frames(s: seq<byte>, events: seq<Event>, t: seq<byte>)
    decreases |events|
  {
    if events == [] then t == s
    else
      var f := FirstFrame(s);
      f.Some? && f.value.event == events[0] && Frames(f.value.rest, events[1..], t)
  }

  /** What the line carries when each event comes behind some garbage, with tail at the end. */
  function Stream(junk: seq<seq<byte>>, events: seq<Event>, tail: seq<byte>): seq<byte>
    requires |junk| == |events|
  {
    if events == [] then tail else junk[0] + Encode(events[0]) + Stream(junk[1..], events[1..], tail)
  }

  /** All events sent are received, in order, and nothing of what follows them. */
  lemma {:induction false} StreamFrames(junk: seq<seq<byte>>, events: seq<Event>, tail: seq<byte>)
    requires |junk| == |events| && (forall i :: 0 <= i < |junk| ==> EVENT_PKT !in junk[i])
    requires forall i :: 0 <= i < |events| ==> WellFormed(events[i])
    ensures Frames(Stream(junk, events, tail), events, tail)
  {
    hide FirstFrame;
    if events != [] {
      FrameAfterJunk(junk[0], events[0], Stream(junk[1..], events[1..], tail));
      StreamFrames(junk[1..], events[1..], tail);
    }
  }

  /** A stream that holds no further event gives no more than these. */
  lemma {:induction false} FramesEnd(s: seq<byte>, all: seq<Event>, x: seq<byte>, a: seq<Event>, y: seq<byte>)
    requires Frames(s, all, x) && FirstFrame(x).None? && Frames(s, a, y)
    ensures |a| <= |all|
    decreases |all|
  {
    hide FirstFrame;
    if all != [] && a != [] { FramesEnd(FirstFrame(s).value.rest, all[1..], x, a[1..], y); }
  }

  lemma {:induction false} FramesSnoc(s: seq<byte>, events: seq<Event>, t: seq<byte>, f: Framed)
    requires Frames(s, events, t) && FirstFrame(t) == Some(f)
    ensures Frames(s, events + [f.event], f.rest)
    decreases |events|
  {
    hide FirstFrame;
    if events == [] {
      assert [] + [f.event] == [f.event] && [f.event][1..] == [];
    } else {
      assert (events + [f.event])[1..] == events[1..] + [f.event];
      FramesSnoc(FirstFrame(s).value.rest, events[1..], t, f);
    }
  }

  /** A stream carries one sequence of events only: of two, one is the beginning of the other. */
  lemma {:induction false} FramesUnique(s: seq<byte>, a: seq<Event>, x: seq<byte>, b: seq<Event>, y: seq<byte>)
    requires Frames(s, a, x) && Frames(s, b, y) && |a| <= |b|
    ensures a == b[..|a|]
    decreases |a|
  {
    hide FirstFrame;
    if a != [] {
      FramesUnique(FirstFrame(s).value.rest, a[1..], x, b[1..], y);
      assert a == [a[0]] + a[1..] && b[..|a|] == [b[0]] + b[1..][..|a| - 1];
    }
  }

  /** No event is too long for hci_command's buffer, nor for a queue slot. */
  lemma FitsBuffer(s: seq<byte>)
    ensures forall e: Event :: WellFormed(e) ==> |e| <= EVENT_SIZE
    ensures AfterMark(s).Some? && |AfterMark(s).value| >= 2 ==> AfterMark(s).value[1] <= EVENT_SIZE - 2
  {
    forall e: Event | WellFormed(e) ensures |e| <= EVENT_SIZE { Small(e[1]); }
    if AfterMark(s).Some? && |AfterMark(s).value| >= 2 { Small(AfterMark(s).value[1]); }
  }

  /** No received event is too long for either transport's queue. */
  lemma {:induction false} FramesFit(s: seq<byte>, events: seq<Event>, t: seq<byte>)
    requires Frames(s, events, t)
    ensures forall e :: e in events ==> |e| <= Total(255)
    decreases |events|
  {
    if events != [] {
      Small(events[0][1]);
      hide FirstFrame;
      FramesFit(FirstFrame(s).value.rest, events[1..], t);
    }
  }

  lemma Small(b: byte)
    ensures b < 256
  {}

  /** What waiting for an event answers if the line does not fail. */
  function Waited(q: seq<Event>, s: seq<byte>, evtsz: nat): Option<Event>
  {
    if q != [] && Cut(q[0], evtsz) != [] then Some(Cut(q[0], evtsz))
    else
      var f := FirstFrame(s);
      if f.None? || |f.value.event| > evtsz then None else Some(f.value.event)
  }

  class Uart {
    /** The bytes that the line has still to deliver. */
    var rest: seq<byte>
    /** How often the line has timed out, failed or ended so far. */
    ghost var faults: nat
    const queue: EventQueue

    ghost predicate Valid()
      reads this, queue
    {
      queue.Valid() && queue.slot == EVENT_SIZE
    }

    constructor (bytes: seq<byte>)
      ensures Valid() && rest == bytes && faults == 0 && queue.Contents() == []
      ensures fresh(queue) && fresh(queue.queue)
    {
      rest, faults := bytes, 0;
      queue := new EventQueue(EVENT_SIZE);
    }

    /** poll and read: any number of bytes up to max, or none. */
    method Read(max: nat) returns (chunk: seq<byte>)
      modifies this`rest, this`faults
      ensures |chunk| <= max && old(rest) == chunk + rest
      ensures faults == old(faults) + if chunk == [] then 1 else 0
    {
      chunk := [];
      var failed: bool := *;
      if failed || rest == [] || max == 0 {
        faults := faults + 1;
        return;
      }
      var n: nat :| 1 <= n <= max && n <= |rest|;
      chunk := rest[..n];
      rest := rest[n..];
    }

    /** read_exact */
    method ReadExact(n: nat) returns (buf: Option<seq<byte>>)
      modifies this`rest, this`faults
      ensures |rest| <= |old(rest)|
      ensures buf.Some? ==> |buf.value| == n && old(rest) == buf.value + rest && faults == old(faults)
      ensures buf.None? ==> faults > old(faults)
    {
      var got: seq<byte> := [];
      while |got| < n
        invariant |got| <= n && old(rest) == got + rest && faults == old(faults)
      {
        var r := Read(n - |got|);
        if r == [] { return None; }
        got := got + r;
      }
      buf := Some(got);
    }

    /** hci_recv; an event that the caller has no room for is given up behind its header. */
    method HciRecv(evtsz: int) returns (evt: Option<Event>)
      modifies this`rest, this`faults
      ensures |rest| <= |old(rest)|
      ensures evt.Some? ==>
        faults == old(faults) && FirstFrame(old(rest)) == Some(Framed(evt.value, rest)) && |evt.value| <= evtsz
      ensures evt.None? && faults == old(faults) ==>
        var at := AfterMark(old(rest));
        at.Some? && |at.value| >= 2 && at.value[1] > evtsz - 2 && rest == at.value[2..]
    {
      var found := false;
      while !found
        invariant |rest| <= |old(rest)| && faults == old(faults)
        invariant AfterMark(old(rest)) == if found then Some(rest) else AfterMark(rest)
        decreases !found, |rest|
      {
        var mark := ReadExact(1);
        if mark.None? { return None; }
        found := mark.value[0] == EVENT_PKT;
      }
      ghost var at := rest;
      var hdr := ReadExact(2);
      if hdr.None? || hdr.value[1] > evtsz - 2 { return None; }
      assert at[..2] == hdr.value && at[2..] == rest;
      evt := Some(hdr.value);
      if hdr.value[1] != 0 {
        ghost var behind := rest;
        var body := ReadExact(hdr.value[1]);
        if body.None? { return None; }
        evt := Some(hdr.value + body.value);
        assert at == hdr.value + body.value + rest;
      } else {
        assert at == hdr.value + rest;
      }
    }

    /**
     * hci_command; sent says whether the command could be written, respsz the size of the caller's buffer.
     * events are those received, behind which the line is at seen.
     */
    method HciCommand(opcode: nat, sent: bool, respsz: Option<nat>)
      returns (answer: Option<Answer>, ghost events: seq<Event>, ghost seen: seq<byte>)
      requires Valid()
      modifies this`rest, this`faults, queue, queue.queue
      ensures Valid()
      ensures Frames(old(rest), events, seen) && (faults == old(faults) ==> seen == rest)
      ensures var o := Await(events, opcode, TRIES);
        && o.taken == |events| && answer == AnswerOf(o, respsz)
        && queue.Contents() == PushAll(old(queue.Contents()), o.vendor, EVENT_SIZE)
      ensures sent && faults == old(faults) ==> answer.Some? || |events| == TRIES
      ensures !sent || faults > old(faults) ==> answer == None
      ensures !sent ==> events == [] && rest == old(rest)
    {
      hide AfterMark, FirstFrame, Await, Pushed, PushAll;
      answer, events, seen := None, [], rest;
      NoEvent(queue.Contents(), opcode, EVENT_SIZE);
      if !sent { return; }
      var tries := 0;
      while tries < TRIES
        invariant Valid() && |events| == tries <= TRIES && answer == None
        invariant Frames(old(rest), events, rest) && faults == old(faults) && seen == rest
        invariant var o := Await(events, opcode, TRIES);
          && o.response.None? && o.taken == |events|
          && queue.Contents() == PushAll(old(queue.Contents()), o.vendor, EVENT_SIZE)
      {
        var evt := HciRecv(EVENT_SIZE);
        if evt.None? {
          FitsBuffer(seen);
          return;
        }
        FramesSnoc(old(rest), events, seen, Framed(evt.value, rest));
        OneMoreEvent(old(queue.Contents()), events, evt.value, opcode, EVENT_SIZE);
        events, seen := events + [evt.value], rest;
        answer := HandleEvent(queue, evt.value, opcode, respsz);
        if answer.Some? { return; }
        tries := tries + 1;
      }
    }

    /** transport_wait_event: an event from the queue, or else from the line. */
    method WaitEvent(evtsz: nat) returns (evt: Option<Event>)
      requires Valid()
      modifies this`rest, this`faults, queue
      ensures Valid()
      ensures var q := old(queue.Contents()); queue.Contents() == if q == [] then [] else q[1..]
      ensures faults == old(faults) ==> evt == Waited(old(queue.Contents()), old(rest), evtsz)
      ensures faults > old(faults) ==> evt == None && Waited(old(queue.Contents()), [], evtsz) == None
    {
      evt := queue.Pop(evtsz);
      if evt.Some? && evt.value != [] { return; }
      evt := HciRecv(evtsz);
    }
  }
}
