/** The radio daemon's command lines, put together from whatever chunks the socket delivers. */
module FmLines {
  import opened Options
  import opened Strings

  const SIZE := 512

  /** The first newline before any NUL, as strchr finds it. */
  function Newline(held: string): (i: Option<nat>)
    ensures i.Some? ==> i.value < |held| && held[i.value] == '\n' && '\0' !in held[..i.value]
    ensures i.Some? ==> '\n' !in held[..i.value]
  {
    var i := IndexOf(CStr(held), '\n');
    if i == |CStr(held)| then None else Some(i)
  }

  /** One carriage return at the end of a line is dropped. */
  function Strip(line: string): string
  {
    if line != "" && line[|line| - 1] == '\r' then line[..|line| - 1] else line
  }

  /** The lines passed on, what is held for later, and whether the client quit. */
  datatype Session = Session(handled: seq<string>, held: string, quit: bool)

  /** Takes complete lines off the front. */
  function Drain(held: string): Session
    decreases |held|
  {
    var i := Newline(held);
    if i.None? then Session([], held, false)
    else if Strip(held[..i.value]) == "quit" then Session([], held, true)
    else
      var s := Drain(held[i.value + 1..]);
      s.(handled := [Strip(held[..i.value])] + s.handled)
  }

  /** A full buffer without a line in it is thrown away. */
  predicate Full(s: Session) { !s.quit && |s.held| >= SIZE - 1 }

  function Drained(s: Session, chunk: string): Session
  {
    var d := Drain(s.held + chunk);
    Session(s.handled + d.handled, d.held, d.quit)
  }

  function Feed(s: Session, chunk: string): Session
  {
    var d := Drained(s, chunk);
    if s.quit then s else if Full(d) then d.(held := "") else d
  }

  function After(chunks: seq<string>): Session
  {
    if chunks == [] then Session([], "", false)
    else Feed(After(chunks[..|chunks| - 1]), chunks[|chunks| - 1])
  }

  function Stream(chunks: seq<string>): string
  {
    if chunks == [] then "" else Stream(chunks[..|chunks| - 1]) + chunks[|chunks| - 1]
  }

  // What the client meant.

  /** The lines that end with a newline, without their carriage returns. */
  function Lines(stream: string): seq<string>
    decreases |stream|
  {
    var i := IndexOf(stream, '\n');
    if i == |stream| then [] else [Strip(stream[..i])] + Lines(stream[i + 1..])
  }

  function BeforeQuit(lines: seq<string>): seq<string>
  {
    if lines == [] || lines[0] == "quit" then [] else [lines[0]] + BeforeQuit(lines[1..])
  }

  /** No line up to the one that quits, and no unfinished one, has more than 510 bytes. */
  predicate Short(stream: string)
    decreases |stream|
  {
    var i := IndexOf(stream, '\n');
    i < SIZE - 1 && (i == |stream| || Strip(stream[..i]) == "quit" || Short(stream[i + 1..]))
  }

  /** A line as a client may send it: with a line feed, or a carriage return and a line feed. */
  datatype Ending = Lf | CrLf

  function Mark(e: Ending): string { if e.Lf? then "\n" else "\r\n" }

  function Sent(lines: seq<string>, ends: seq<Ending>): string
    requires |lines| == |ends|
  {
    if lines == [] then "" else lines[0] + Mark(ends[0]) + Sent(lines[1..], ends[1..])
  }

  /** No line feed in it, and no carriage return at its end; others are kept. */
  predicate Plain(line: string) { '\n' !in line && (line == "" || line[|line| - 1] != '\r') }

  /** One carriage return goes and no more, so that both endings give the same line. */
  lemma OneReturnGoes(line: string)
    ensures Strip(line + "\r") == line
    ensures (line == "" || line[|line| - 1] != '\r') ==> Strip(line) == line
  {}

  lemma LineAndMark(line: string, e: Ending, t: string)
    requires Plain(line)
    ensures Lines(line + Mark(e) + t) == [line] + Lines(t)
  {
    var a := if e.Lf? then line else line + "\r";
    var s := line + Mark(e) + t;
    assert s == a + ['\n'] + t;
    IndexOfIn(a, '\n', t);
    OneReturnGoes(line);
    assert s[..|a|] == a && s[|a| + 1..] == t;
  }

  /** The lines come out as they were sent, however each one ends. */
  lemma {:induction false} LinesSent(lines: seq<string>, ends: seq<Ending>, t: string)
    requires |lines| == |ends| && forall i :: 0 <= i < |lines| ==> Plain(lines[i])
    ensures Lines(Sent(lines, ends) + t) == lines + Lines(t)
  {
    hide Lines, Plain;
    if lines == [] {
      assert Sent(lines, ends) + t == t;
    } else {
      var rest := Sent(lines[1..], ends[1..]);
      assert Sent(lines, ends) + t == lines[0] + Mark(ends[0]) + (rest + t);
      LineAndMark(lines[0], ends[0], rest + t);
      LinesSent(lines[1..], ends[1..], t);
      assert lines == [lines[0]] + lines[1..];
    }
  }

  lemma NewlineInText(s: string)
    requires '\0' !in s
    ensures Newline(s) == if '\n' in s then Some(IndexOf(s, '\n')) else None
  {
    IndexOfAbsent(s, '\0');
    assert s[..|s|] == s;
    if '\n' !in s { IndexOfAbsent(s, '\n'); }
  }

  lemma {:induction false} IndexOfAppend(s: string, t: string, c: char)
    requires c in s
    ensures IndexOf(s + t, c) == IndexOf(s, c)
  {
    if s[0] != c {
      assert (s + t)[1..] == s[1..] + t;
      IndexOfAppend(s[1..], t, c);
    }
  }

  lemma FirstLine(s: string, t: string)
    requires '\n' in s
    ensures IndexOf(s, '\n') < |s| && IndexOf(s + t, '\n') == IndexOf(s, '\n')
    ensures (s + t)[..IndexOf(s, '\n')] == s[..IndexOf(s, '\n')]
    ensures (s + t)[IndexOf(s, '\n') + 1..] == s[IndexOf(s, '\n') + 1..] + t
  {
    IndexOfAppend(s, t, '\n');
    Present(s, '\n');
  }

  lemma {:induction false} Present(s: string, c: char)
    requires c in s
    ensures IndexOf(s, c) < |s|
  {
    if s[0] != c { Present(s[1..], c); }
  }

  function FirstOf(s: string): (line: string)
    requires '\n' in s
  {
    Strip(s[..IndexOf(s, '\n')])
  }

  function RestOf(s: string): (rest: string)
    requires '\n' in s
    ensures |rest| < |s|
  {
    Present(s, '\n');
    s[IndexOf(s, '\n') + 1..]
  }

  lemma LinesFirst(s: string, t: string)
    requires '\n' in s
    ensures Meant(s + t) == if FirstOf(s) == "quit" then [] else [FirstOf(s)] + Meant(RestOf(s) + t)
  {
    FirstLine(s, t);
    hide IndexOf, Strip, RestOf;
    var ls := Lines(RestOf(s) + t);
    assert Lines(s + t) == [FirstOf(s)] + ls;
    assert ([FirstOf(s)] + ls)[1..] == ls;
  }

  lemma DrainFirst(s: string)
    requires '\0' !in s
    ensures '\n' !in s ==> Drain(s) == Session([], s, false)
    ensures '\n' in s && FirstOf(s) == "quit" ==> Drain(s) == Session([], s, true)
    ensures '\n' in s && FirstOf(s) != "quit" ==>
      '\0' !in RestOf(s) && Drain(s) == Drain(RestOf(s)).(handled := [FirstOf(s)] + Drain(RestOf(s)).handled)
  {
    hide IndexOf, Newline, Strip;
    NewlineInText(s);
    if '\n' in s { Present(s, '\n'); }
  }

  /** What draining s says about the lines of s and any text behind it. */
  ghost predicate Follows(d: Session, s: string, t: string)
  {
    if d.quit then Meant(s + t) == d.handled
    else '\n' !in d.held && Meant(s + t) == d.handled + Meant(d.held + t)
  }

  /** The commands that the client meant to have handled. */
  function Meant(stream: string): seq<string> { BeforeQuit(Lines(stream)) }

  /** Draining the front of a text, whatever follows it. */
  lemma {:induction false} DrainFollows(s: string, t: string)
    requires '\0' !in s
    ensures Follows(Drain(s), s, t)
    decreases |s|
  {
    hide Drain, FirstOf, RestOf, Meant;
    DrainFirst(s);
    if '\n' !in s {
      assert [] + Meant(s + t) == Meant(s + t);
    } else {
      LinesFirst(s, t);
      if FirstOf(s) != "quit" {
        var d := Drain(RestOf(s));
        DrainFollows(RestOf(s), t);
        assert [FirstOf(s)] + (d.handled + Meant(d.held + t)) == [FirstOf(s)] + d.handled + Meant(d.held + t);
      }
    }
  }

  lemma {:induction false} IndexOfBehind(h: string, t: string, c: char)
    requires c !in h
    ensures IndexOf(h + t, c) == |h| + IndexOf(t, c)
  {
    if h == "" {
      assert h + t == t;
    } else {
      assert (h + t)[1..] == h[1..] + t;
      IndexOfBehind(h[1..], t, c);
    }
  }

  lemma ShortFirst(s: string, t: string)
    requires '\n' in s
    ensures Short(s + t) <==> IndexOf(s, '\n') < SIZE - 1 && (FirstOf(s) == "quit" || Short(RestOf(s) + t))
  {
    FirstLine(s, t);
    hide IndexOf, Strip;
  }

  lemma ShortHeld(h: string, t: string)
    requires '\n' !in h
    ensures Short(h + t) ==> |h| < SIZE - 1
    ensures Short(h) <==> |h| < SIZE - 1
    ensures Meant(h) == []
  {
    IndexOfBehind(h, t, '\n');
    IndexOfAbsent(h, '\n');
  }

  /** Of what the buffer can hold, draining does not change whether the lines are short. */
  lemma {:induction false} DrainShort(s: string, t: string)
    requires '\0' !in s && |s| <= SIZE - 1
    ensures var d := Drain(s);
      '\0' !in d.held && if d.quit then Short(s + t) else Short(s + t) <==> Short(d.held + t)
    decreases |s|
  {
    hide Drain, FirstOf, RestOf, Short;
    DrainFirst(s);
    if '\n' in s {
      ShortFirst(s, t);
      Present(s, '\n');
      if FirstOf(s) != "quit" { DrainShort(RestOf(s), t); }
    }
  }

  function Init(chunks: seq<string>): seq<string>
    requires chunks != []
  {
    chunks[..|chunks| - 1]
  }

  function Last(chunks: seq<string>): string
    requires chunks != []
  {
    chunks[|chunks| - 1]
  }

  /** No read is given more than the buffer has room for. */
  predicate Fits(chunks: seq<string>)
  {
    chunks != [] ==> Fits(Init(chunks)) && |After(Init(chunks)).held| + |Last(chunks)| <= SIZE - 1
  }

  /** Some full buffer was thrown away. */
  predicate Discards(chunks: seq<string>)
  {
    && chunks != []
    && (Discards(Init(chunks))
        || (!After(Init(chunks)).quit && Full(Drained(After(Init(chunks)), Last(chunks)))))
  }

  /** What has been handled and is held says what any text behind it means. */
  ghost predicate Accounts(s: Session, stream: string, t: string)
  {
    && '\0' !in s.held
    && (s.quit ==> Meant(stream + t) == s.handled && Short(stream + t))
    && (!s.quit ==> '\n' !in s.held)
    && (!s.quit ==> Meant(stream + t) == s.handled + Meant(s.held + t))
    && (!s.quit ==> (Short(stream + t) <==> Short(s.held + t)))
  }

  lemma Joined<T>(a: seq<T>, b: seq<T>, c: seq<T>)
    ensures a + (b + c) == a + b + c
  {}

  /** One more read that does not fill the buffer for nothing. */
  lemma FeedAccounts(s: Session, stream: string, chunk: string, t: string)
    requires Accounts(s, stream, chunk + t) && '\0' !in chunk
    requires s.quit || (|s.held| + |chunk| <= SIZE - 1 && !Full(Drained(s, chunk)))
    ensures Accounts(Feed(s, chunk), stream + chunk, t)
  {
    hide Drain, Meant, Short;
    Joined(stream, chunk, t);
    if !s.quit {
      Joined(s.held, chunk, t);
      DrainFollows(s.held + chunk, t);
      DrainShort(s.held + chunk, t);
      var d := Drain(s.held + chunk);
      if !d.quit { Joined(s.handled, d.handled, Meant(d.held + t)); }
    }
  }

  lemma {:induction false} RunAccounts(chunks: seq<string>, t: string)
    requires Fits(chunks) && '\0' !in Stream(chunks) && !Discards(chunks)
    ensures Accounts(After(chunks), Stream(chunks), t)
  {
    hide Accounts, Feed, Full, Drained;
    if chunks == [] {
      StartAccounts(t);
    } else {
      RunAccounts(Init(chunks), Last(chunks) + t);
      FeedAccounts(After(Init(chunks)), Stream(Init(chunks)), Last(chunks), t);
    }
  }

  lemma StartAccounts(t: string)
    ensures Accounts(Session([], "", false), "", t)
  {
    assert "" + t == t && [] + Meant(t) == Meant(t);
  }

  /** While the lines are short no buffer is thrown away. */
  lemma {:induction false} ShortKept(chunks: seq<string>, t: string)
    requires Fits(chunks) && '\0' !in Stream(chunks) && Short(Stream(chunks) + t)
    ensures !Discards(chunks)
  {
    if chunks != [] {
      var before, c := Init(chunks), Last(chunks);
      assert Stream(chunks) + t == Stream(before) + (c + t);
      hide Short, Stream, Drain;
      ShortKept(before, c + t);
      RunAccounts(before, c + t);
      var s := After(before);
      if !s.quit {
        assert s.held + (c + t) == s.held + c + t;
        DrainFollows(s.held + c, t);
        DrainShort(s.held + c, t);
        var d := Drain(s.held + c);
        if !d.quit { ShortHeld(d.held, t); }
      }
    }
  }

  /**
   * However the bytes arrive: no buffer is thrown away exactly if no line is too long, and then the commands
   * handled are the client's lines, in order, up to the one that quits.
   */
  lemma Reassembled(chunks: seq<string>)
    requires Fits(chunks) && '\0' !in Stream(chunks)
    ensures !Discards(chunks) <==> Short(Stream(chunks))
    ensures Short(Stream(chunks)) ==> After(chunks).handled == Meant(Stream(chunks))
  {
    var stream := Stream(chunks);
    assert stream + "" == stream;
    hide Short, Meant, Stream, Discards, Fits, After;
    if Short(stream) { ShortKept(chunks, ""); }
    if !Discards(chunks) {
      RunAccounts(chunks, "");
      var s := After(chunks);
      assert s.held + "" == s.held;
      if !s.quit { ShortHeld(s.held, ""); }
    }
  }

  /** What a client sends as lines is handled as these lines, however they end and however the bytes arrive. */
  lemma CommandsArrive(chunks: seq<string>, lines: seq<string>, ends: seq<Ending>)
    requires Fits(chunks) && '\0' !in Stream(chunks) && Short(Stream(chunks))
    requires |lines| == |ends| && (forall i :: 0 <= i < |lines| ==> Plain(lines[i]))
    requires Stream(chunks) == Sent(lines, ends)
    ensures After(chunks).handled == BeforeQuit(lines)
  {
    hide Short, Stream, Fits, After, Plain, Sent, BeforeQuit;
    Reassembled(chunks);
    LinesSent(lines, ends, "");
    assert Sent(lines, ends) + "" == Sent(lines, ends);
    assert Lines("") == [] && lines + [] == lines;
  }

  /** The last read has filled the buffer without completing a line. */
  predicate DiscardsLast(chunks: seq<string>)
  {
    chunks != [] && !After(Init(chunks)).quit && Full(Drained(After(Init(chunks)), Last(chunks)))
  }

  /** After a buffer was thrown away what was handled stays so, and the rest is served as by a new session. */
  lemma {:induction false} FreshAgain(chunks: seq<string>, more: seq<string>)
    requires DiscardsLast(chunks)
    ensures var s, t := After(chunks), After(more);
      After(chunks + more) == Session(s.handled + t.handled, t.held, t.quit)
    ensures After(Init(chunks)).handled <= After(chunks).handled
    decreases |more|
  {
    hide Drain;
    if more == [] {
      assert chunks + more == chunks;
    } else {
      FreshAgain(chunks, Init(more));
      assert Init(chunks + more) == chunks + Init(more) && Last(chunks + more) == Last(more);
      hide After, Full;
      AfterLast(chunks + more);
      AfterLast(more);
    }
  }

  lemma AfterLast(chunks: seq<string>)
    requires chunks != []
    ensures After(chunks) == Feed(After(Init(chunks)), Last(chunks))
  {}

  /** The client's socket: rest is what it has still to deliver, ended whether a read has failed. */
  class Socket {
    var rest: string
    var ended: bool

    constructor (stream: string)
      ensures rest == stream && !ended
    {
      rest, ended := stream, false;
    }

    /** read: at least one byte and at most max, or none at the end and on errors. */
    method Read(max: nat) returns (chunk: string)
      modifies this
      ensures |chunk| <= max && old(rest) == chunk + rest
      ensures ended == (old(ended) || chunk == "")
    {
      chunk := "";
      var failed: bool := *;
      if failed || rest == "" || max == 0 {
        ended := true;
        return;
      }
      var n: nat :| 1 <= n <= max && n <= |rest|;
      chunk := rest[..n];
      rest := rest[n..];
    }
  }

  /** The C string in a buffer is the text before its first NUL. */
  lemma CStrIs(text: string, s: string)
    requires '\0' !in text && |text| < |s| && s[..|text|] == text && s[|text|] == '\0'
    ensures CStr(s) == text
  {
    assert s == text + ['\0'] + s[|text| + 1..];
    IndexOfIn(text, '\0', s[|text| + 1..]);
  }

  lemma DrainNewline(held: string)
    ensures Newline(held).None? ==> Drain(held) == Session([], held, false)
    ensures Newline(held).Some? ==>
      var line, rest := Strip(held[..Newline(held).value]), Drain(held[Newline(held).value + 1..]);
      Drain(held) == if line == "quit" then Session([], held, true) else rest.(handled := [line] + rest.handled)
  {}

  lemma OneMore(chunks: seq<string>, chunk: string)
    ensures var all := chunks + [chunk];
      && After(all) == Feed(After(chunks), chunk) && Stream(all) == Stream(chunks) + chunk
      && (Fits(all) <==> Fits(chunks) && |After(chunks).held| + |chunk| <= SIZE - 1)
  {
    assert Init(chunks + [chunk]) == chunks;
  }

  lemma NewlineIs(held: string, i: nat)
    requires i <= |held| && '\n' !in held[..i] && '\0' !in held[..i]
    requires i == |held| || held[i] == '\n' || held[i] == '\0'
    ensures Newline(held) == if i < |held| && held[i] == '\n' then Some(i) else None
  {
    var text := held[..i];
    if i == |held| {
      assert held == text;
      IndexOfAbsent(held, '\0');
      IndexOfAbsent(held, '\n');
    } else {
      assert held == text + [held[i]] + held[i + 1..];
      if held[i] == '\0' {
        IndexOfIn(text, '\0', held[i + 1..]);
        IndexOfAbsent(text, '\n');
      } else {
        var c := CStr(held);
        assert forall k :: 0 <= k < i ==> held[k] == text[k];
        assert c == text + ['\n'] + c[i + 1..] by { NulBehind(held, i); }
        IndexOfIn(text, '\n', c[i + 1..]);
      }
    }
  }

  lemma NulBehind(held: string, i: nat)
    requires i < |held| && forall k :: 0 <= k <= i ==> held[k] != '\0'
    ensures IndexOf(held, '\0') > i
  {}

  /** strchr for a newline in the buffer. */
  method StrChr(buf: array<char>, used: nat) returns (at: Option<nat>)
    requires used < buf.Length && buf[used] == '\0'
    ensures at == Newline(buf[..used])
  {
    var i := 0;
    while buf[i] != '\n' && buf[i] != '\0'
      invariant i <= used && forall k :: 0 <= k < i ==> buf[k] != '\n' && buf[k] != '\0'
      decreases used - i
    {
      i := i + 1;
    }
    assert buf[..i] == buf[..used][..i];
    hide Newline;
    NewlineIs(buf[..used], i);
    at := if buf[i] == '\n' then Some(i) else None;
  }

  /** Ends the line at the newline, and one byte earlier behind a carriage return; the line is a C string then. */
  method EndLine(buf: array<char>, nl: nat) returns (line: string)
    requires nl < buf.Length && '\0' !in buf[..nl]
    modifies buf
    ensures line == Strip(old(buf[..nl]))
    ensures forall k :: nl < k < buf.Length ==> buf[k] == old(buf[k])
  {
    ghost var text := buf[..nl];
    buf[nl] := '\0';
    if nl > 0 && buf[nl - 1] == '\r' { buf[nl - 1] := '\0'; }
    assert buf[..][..|Strip(text)|] == Strip(text);
    hide CStr;
    CStrIs(Strip(text), buf[..]);
    line := CStr(buf[..]);
  }

  /** memmove to the front of the buffer, with the NUL behind the text. */
  method MoveDown(buf: array<char>, from: nat, to: nat, ghost held: string) returns (used: nat)
    requires from <= to < buf.Length && |held| == to && forall k :: from <= k < to ==> buf[k] == held[k]
    modifies buf
    ensures used == to - from && buf[..used] == held[from..] && buf[used] == old(buf[to])
  {
    forall k | 0 <= k <= to - from { buf[k] := buf[k + from]; }
    used := to - from;
  }

  /** The inner loop of serve_client, which takes the complete lines out of the buffer. */
  method TakeLines(buf: array<char>, size: nat, before: seq<string>)
    returns (quit: bool, used: nat, handled: seq<string>)
    requires buf.Length == SIZE && size < SIZE && buf[size] == '\0'
    modifies buf
    ensures used < SIZE && buf[used] == '\0'
    ensures var d := Drain(old(buf[..size]));
      handled == before + d.handled && quit == d.quit && (!quit ==> buf[..used] == d.held)
  {
    hide Drain, Strip;
    quit, used, handled := false, size, before;
    while true
      invariant used < SIZE && buf[used] == '\0'
      invariant before + Drain(old(buf[..size])).handled == handled + Drain(buf[..used]).handled
      invariant Drain(old(buf[..size])).quit == Drain(buf[..used]).quit
      invariant !Drain(buf[..used]).quit ==> Drain(old(buf[..size])).held == Drain(buf[..used]).held
      decreases used
    {
      ghost var held, taken := buf[..used], handled;
      DrainNewline(held);
      var nl := StrChr(buf, used);
      if nl.None? { return; }
      assert buf[..nl.value] == held[..nl.value];
      var line := EndLine(buf, nl.value);
      if line == "quit" {
        quit := true;
        return;
      }
      handled := handled + [line];
      used := MoveDown(buf, nl.value + 1, used, held);
      Joined(taken, [line], Drain(buf[..used]).handled);
    }
  }

  /** Where a read puts its bytes, and the NUL behind them. */
  method Append(buf: array<char>, used: nat, chunk: string) returns (end: nat)
    requires used + |chunk| < buf.Length
    modifies buf
    ensures end == used + |chunk| && buf[..end] == old(buf[..used]) + chunk && buf[end] == '\0'
  {
    forall k | 0 <= k < |chunk| { buf[used + k] := chunk[k]; }
    end := used + |chunk|;
    buf[end] := '\0';
  }

  /** One turn of serve_client's loop: a read, and the lines it completes. */
  method Serve(fd: Socket, buf: array<char>, size: nat, before: seq<string>)
    returns (chunk: string, quit: bool, used: nat, handled: seq<string>)
    requires buf.Length == SIZE && size < SIZE - 1
    modifies fd, buf
    ensures |chunk| <= SIZE - 1 - size && old(fd.rest) == chunk + fd.rest && used < SIZE - 1
    ensures chunk != "" ==>
      var s := Feed(Session(before, old(buf[..size]), false), chunk);
      handled == s.handled && quit == s.quit && (!quit ==> buf[..used] == s.held)
    ensures chunk == "" ==> handled == before && fd.ended
  {
    hide Drain;
    quit, used, handled := false, size, before;
    chunk := fd.Read(SIZE - size - 1);
    if chunk == "" { return; }
    used := Append(buf, size, chunk);
    quit, used, handled := TakeLines(buf, used, before);
    if used >= SIZE - 1 { used := 0; }
  }

  /** serve_client, with its buffer; chunks are what the reads delivered. */
  method ServeClient(fd: Socket) returns (handled: seq<string>, ghost chunks: seq<string>)
    modifies fd
    ensures old(fd.rest) == Stream(chunks) + fd.rest
    ensures Fits(chunks) && handled == After(chunks).handled
    ensures After(chunks).quit || fd.ended
  {
    hide Drain, After, Fits, Stream, Feed;
    var buf := new char[SIZE](_ => '\0');
    var used: nat := 0;
    handled, chunks := [], [];
    Nothing();
    while true
      invariant old(fd.rest) == Stream(chunks) + fd.rest
      invariant Fits(chunks) && used < SIZE - 1
      invariant After(chunks) == Session(handled, buf[..used], false)
      decreases |fd.rest|
    {
      var chunk, quit;
      chunk, quit, used, handled := Serve(fd, buf, used, handled);
      if chunk == "" { return; }
      OneMore(chunks, chunk);
      Joined(Stream(chunks), chunk, fd.rest);
      chunks := chunks + [chunk];
      if quit { return; }
    }
  }

  lemma Nothing()
    ensures After([]) == Session([], "", false) && Fits([]) && Stream([]) == ""
  {}
}
