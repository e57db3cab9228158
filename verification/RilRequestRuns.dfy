/** Runs of additions, acks and completions on the request lists of all slots. */
module RilRequestRuns {
  import opened Options
  import opened RilRequests

  datatype Config = Config(sims: nat, commands: nat, version: int)

  datatype Req = Req(socket: int, token: int, flags: Flags)

  /** lists hold request ids, front first; log is what was sent, with the request it was sent for. */
  datatype State = State(lists: seq<seq<nat>>, info: map<nat, Req>, log: seq<(nat, Message)>)

  datatype Step =
    | Add(id: nat, token: int, socket: int, request: int)
    | Ack(id: nat)
    | Complete(id: nat)
    | Cancel(id: nat)
    | MarkLocal(id: nat)

  function Home(c: Config, s: State, id: nat): nat
    requires id in s.info
  {
    ListOf(c.sims, s.info[id].socket)
  }

  /** Whether the request is found when its ack or completion comes. */
  predicate IsPending(c: Config, s: State, id: nat)
  {
    id in s.info && Home(c, s, id) < |s.lists| && id in s.lists[Home(c, s, id)]
  }

  function Sent(s: State, id: nat, m: Option<Message>): seq<(nat, Message)>
  {
    if m.None? then s.log else s.log + [(id, m.value)]
  }

  function SetFlags(s: State, id: nat, f: Flags): map<nat, Req>
    requires id in s.info
  {
    s.info[id := s.info[id].(flags := f)]
  }

  /** A request gets an id of its own; acks and completions of what is not listed are invalid tokens. */
  function Next(c: Config, s: State, step: Step): State
  {
    match step
    case Add(id, token, socket, request) =>
      var k := ListOf(c.sims, socket);
      if request >= c.commands || id in s.info || k >= |s.lists| then s
      else s.(lists := s.lists[k := [id] + s.lists[k]],
              info := s.info[id := Req(socket, token, Flags(false, false, false))])
    case Ack(id) =>
      if !IsPending(c, s, id) then s
      else
        var r := s.info[id];
        s.(info := SetFlags(s, id, r.flags.(acked := true)),
           log := Sent(s, id, if r.flags.cancelled then None else Some(Acknowledged(r.socket, r.token))))
    case Complete(id) =>
      if !IsPending(c, s, id) then s
      else
        var r, k := s.info[id], Home(c, s, id);
        s.(lists := s.lists[k := Without(s.lists[k], id)],
           log := Sent(s, id, Completion(c.version, r.socket, r.token, r.flags)))
    case Cancel(id) => if id in s.info then s.(info := SetFlags(s, id, s.info[id].flags.(cancelled := true))) else s
    case MarkLocal(id) => if id in s.info then s.(info := SetFlags(s, id, s.info[id].flags.(local := true))) else s
  }

  function Run(c: Config, steps: seq<Step>): State
  {
    if steps == [] then State([[], [], [], []], map[], [])
    else Next(c, Run(c, steps[..|steps| - 1]), steps[|steps| - 1])
  }

  predicate Unique(s: seq<nat>) { forall i, j :: 0 <= i < j < |s| ==> s[i] != s[j] }

  /** Every request is on the list of its own slot only, once. */
  ghost predicate ListsOk(c: Config, s: State)
  {
    && |s.lists| == SLOTS
    && (forall k :: 0 <= k < SLOTS ==> Unique(s.lists[k]))
    && (forall k, id {:trigger id in s.lists[k]} ::
        0 <= k < SLOTS && id in s.lists[k] ==> id in s.info && Home(c, s, id) == k)
  }

  /** A request that was answered is on no list, and was answered once. */
  ghost predicate LogOk(c: Config, s: State)
  {
    && (forall i :: 0 <= i < |s.log| && s.log[i].1.Response? ==> s.log[i].0 in s.info && !IsPending(c, s, s.log[i].0))
    && (forall i, j :: 0 <= i < j < |s.log| && s.log[i].1.Response? && s.log[j].1.Response? ==>
        s.log[i].0 != s.log[j].0)
  }

  ghost predicate Inv(c: Config, s: State) { ListsOk(c, s) && LogOk(c, s) }

  /** Removing an element of a duplicate-free list removes exactly it and keeps the order of the rest. */
  lemma {:induction false} WithoutExact(s: seq<nat>, x: nat)
    requires Unique(s) && x in s
    ensures exists i :: 0 <= i < |s| && s[i] == x && Without(s, x) == s[..i] + s[i + 1..]
    ensures Unique(Without(s, x))
    ensures forall y :: y in Without(s, x) <==> y in s && y != x
  {
    var i :| 0 <= i < |s| && s[i] == x;
    WithoutAt(s, i);
    hide Without;
    DropExact(s, i);
  }

  lemma DropExact(s: seq<nat>, i: nat)
    requires Unique(s) && i < |s|
    ensures Unique(s[..i] + s[i + 1..])
    ensures forall y :: y in s[..i] + s[i + 1..] <==> y in s && y != s[i]
  {
    var r := s[..i] + s[i + 1..];
    forall y ensures y in r <==> y in s && y != s[i] {
      if y in s && y != s[i] {
        var j :| 0 <= j < |s| && s[j] == y;
        assert r[if j < i then j else j - 1] == y;
      }
    }
  }

  lemma InvStep(c: Config, s: State, step: Step)
    requires Inv(c, s)
    ensures Inv(c, Next(c, s, step))
  {
    match step
    case Complete(id) => if IsPending(c, s, id) { CompleteLists(c, s, id); CompleteLog(c, s, id); }
    case Add(id, token, socket, request) => AddKeeps(c, s, id, token, socket, request);
    case Ack(id) => SameLists(c, s, Next(c, s, step));
    case Cancel(id) => SameLists(c, s, Next(c, s, step));
    case MarkLocal(id) => SameLists(c, s, Next(c, s, step));
  }

  /** A step that changes only flags, and at most adds an acknowledgement to the log. */
  lemma SameLists(c: Config, s: State, r: State)
    requires Inv(c, s) && r.lists == s.lists && r.info.Keys == s.info.Keys
    requires forall id :: id in s.info ==> r.info[id].socket == s.info[id].socket
    requires r.log == s.log || (|r.log| == |s.log| + 1 && r.log[..|s.log|] == s.log && !r.log[|s.log|].1.Response?)
    ensures Inv(c, r)
  {
    assert forall i :: 0 <= i < |s.log| ==> r.log[i] == s.log[i];
    assert forall id :: IsPending(c, r, id) <==> IsPending(c, s, id);
  }

  lemma AddKeeps(c: Config, s: State, id: nat, token: int, socket: int, request: int)
    requires Inv(c, s)
    ensures Inv(c, Next(c, s, Add(id, token, socket, request)))
  {
    var r := Next(c, s, Add(id, token, socket, request));
    if r != s {
      var k := ListOf(c.sims, socket);
      hide ListOf;
      assert forall i :: i in s.info ==> i in r.info && r.info[i] == s.info[i];
      assert id !in s.lists[k];
      assert forall m :: 0 <= m < SLOTS && m != k ==> r.lists[m] == s.lists[m];
      assert Unique(r.lists[k]);
      forall m, y | 0 <= m < SLOTS && y in r.lists[m] ensures y in r.info && Home(c, r, y) == m {
        if y != id { assert y in s.lists[m]; }
      }
      forall i | 0 <= i < |s.log| && s.log[i].1.Response? ensures !IsPending(c, r, s.log[i].0) {
        assert s.log[i].0 in s.info && !IsPending(c, s, s.log[i].0);
      }
      assert ListsOk(c, r);
    }
  }

  lemma CompleteLists(c: Config, s: State, id: nat)
    requires Inv(c, s) && IsPending(c, s, id)
    ensures ListsOk(c, Next(c, s, Complete(id)))
    ensures forall other :: IsPending(c, Next(c, s, Complete(id)), other) <==> IsPending(c, s, other) && other != id
  {
    WithoutExact(s.lists[Home(c, s, id)], id);
    hide Without;
  }

  lemma CompleteLog(c: Config, s: State, id: nat)
    requires Inv(c, s) && IsPending(c, s, id)
    requires forall other :: IsPending(c, Next(c, s, Complete(id)), other) <==> IsPending(c, s, other) && other != id
    ensures LogOk(c, Next(c, s, Complete(id)))
  {
    assert id in s.info && Home(c, s, id) < |s.lists|;
    hide Without;
    assert forall i :: 0 <= i < |s.log| && s.log[i].1.Response? ==> s.log[i].0 != id;
  }

  lemma {:induction false} Reachable(c: Config, steps: seq<Step>)
    ensures Inv(c, Run(c, steps))
  {
    if steps != [] {
      Reachable(c, steps[..|steps| - 1]);
      InvStep(c, Run(c, steps[..|steps| - 1]), steps[|steps| - 1]);
    }
  }

  /** In every run a request is only ever on the list of its own slot. */
  lemma LivesAtHome(c: Config, steps: seq<Step>, k: nat, id: nat)
    requires k < SLOTS && k < |Run(c, steps).lists| && id in Run(c, steps).lists[k]
    ensures id in Run(c, steps).info && Home(c, Run(c, steps), id) == k
  {
    Reachable(c, steps);
  }

  /** In every run each request is answered at most once. */
  lemma AnsweredOnce(c: Config, steps: seq<Step>, i: nat, j: nat)
    requires i < j < |Run(c, steps).log|
    requires Run(c, steps).log[i].1.Response? && Run(c, steps).log[j].1.Response?
    ensures Run(c, steps).log[i].0 != Run(c, steps).log[j].0
  {
    Reachable(c, steps);
  }

  /** A completion takes off exactly its own request: every other request stays as pending as it was. */
  lemma CompleteRemovesOne(c: Config, steps: seq<Step>, id: nat, other: nat)
    ensures var s := Run(c, steps);
      && !IsPending(c, Next(c, s, Complete(id)), id)
      && (other != id ==> IsPending(c, Next(c, s, Complete(id)), other) == IsPending(c, s, other))
  {
    var s := Run(c, steps);
    Reachable(c, steps);
    hide Run;
    if IsPending(c, s, id) { CompleteLists(c, s, id); }
  }

  lemma {:induction false} OncePending(c: Config, steps: seq<Step>, more: seq<Step>, id: nat)
    requires id in Run(c, steps).info
    ensures id in Run(c, steps + more).info
    ensures IsPending(c, Run(c, steps + more), id) <==> IsPending(c, Run(c, steps), id) && Complete(id) !in more
    decreases |more|
  {
    hide Run, Inv, IsPending, Next;
    if more == [] {
      assert steps + more == steps;
    } else {
      var n := |more| - 1;
      OncePending(c, steps, more[..n], id);
      assert more == more[..n] + [more[n]];
      RunLast(c, steps, more);
      Reachable(c, steps + more[..n]);
      StepPending(c, Run(c, steps + more[..n]), more[n], id);
    }
  }

  lemma RunLast(c: Config, steps: seq<Step>, more: seq<Step>)
    requires more != []
    ensures Run(c, steps + more) == Next(c, Run(c, steps + more[..|more| - 1]), more[|more| - 1])
  {
    hide Next, Inv, IsPending;
    var all := steps + more;
    assert all[..|all| - 1] == steps + more[..|more| - 1] && all[|all| - 1] == more[|more| - 1];
  }

  lemma StepPending(c: Config, s: State, step: Step, id: nat)
    requires Inv(c, s) && id in s.info
    ensures id in Next(c, s, step).info
    ensures IsPending(c, Next(c, s, step), id) <==> IsPending(c, s, id) && step != Complete(id)
  {
    if step.Complete? && IsPending(c, s, step.id) { CompleteLists(c, s, step.id); }
  }

  /** However many acks, cancellations and other requests come: a request stays pending until it is completed. */
  lemma PendingUntilCompleted(c: Config, steps: seq<Step>, more: seq<Step>, id: nat)
    requires IsPending(c, Run(c, steps), id)
    ensures IsPending(c, Run(c, steps + more), id) <==> Complete(id) !in more
  {
    OncePending(c, steps, more, id);
  }

  /** An ack for the request was accepted somewhere in the run. */
  ghost predicate WasAcked(c: Config, steps: seq<Step>, id: nat)
  {
    exists n :: 0 <= n < |steps| && steps[n] == Ack(id) && IsPending(c, Run(c, steps[..n]), id)
  }

  lemma WasAckedSnoc(c: Config, steps: seq<Step>, step: Step, id: nat)
    ensures WasAcked(c, steps + [step], id) <==>
      WasAcked(c, steps, id) || (step == Ack(id) && IsPending(c, Run(c, steps), id))
  {
    var all := steps + [step];
    assert all[..|steps|] == steps;
    if WasAcked(c, steps, id) {
      var n :| 0 <= n < |steps| && steps[n] == Ack(id) && IsPending(c, Run(c, steps[..n]), id);
      assert all[n] == Ack(id) && all[..n] == steps[..n];
    }
    if WasAcked(c, all, id) {
      var n :| 0 <= n < |all| && all[n] == Ack(id) && IsPending(c, Run(c, all[..n]), id);
      if n < |steps| { assert steps[n] == Ack(id) && all[..n] == steps[..n]; }
    }
    if step == Ack(id) { assert all[|steps|] == Ack(id); }
  }

  lemma {:induction false} FlagIsHistory(c: Config, steps: seq<Step>, id: nat)
    ensures id in Run(c, steps).info ==> (Run(c, steps).info[id].flags.acked <==> WasAcked(c, steps, id))
    ensures id !in Run(c, steps).info ==> !WasAcked(c, steps, id)
  {
    if steps != [] {
      var n := |steps| - 1;
      FlagIsHistory(c, steps[..n], id);
      assert steps == steps[..n] + [steps[n]];
      WasAckedSnoc(c, steps[..n], steps[n], id);
    }
  }

  /**
   * The response to a request that is neither local nor cancelled asks for an ack (RESPONSE_SOLICITED_ACK_EXP
   * rather than RESPONSE_SOLICITED), and holds the wake lock, exactly when the version is 13 or later and an
   * ack for it was accepted before.
   */
  lemma ResponseType(c: Config, steps: seq<Step>, id: nat)
    requires IsPending(c, Run(c, steps), id)
    requires !Run(c, steps).info[id].flags.local && !Run(c, steps).info[id].flags.cancelled
    ensures var s, r := Run(c, steps), Run(c, steps + [Complete(id)]);
      && |r.log| == |s.log| + 1
      && r.log[|s.log|].0 == id && r.log[|s.log|].1.Response?
      && r.log[|s.log|].1.socket == s.info[id].socket && r.log[|s.log|].1.token == s.info[id].token
      && r.log[..|s.log|] == s.log
      && r.log[|s.log|].1.responseType == (if c.version >= 13 && WasAcked(c, steps, id) then 3 else 0)
      && (r.log[|s.log|].1.wakeLock <==> c.version >= 13 && WasAcked(c, steps, id))
  {
    var all := steps + [Complete(id)];
    assert all[..|all| - 1] == steps;
    FlagIsHistory(c, steps, id);
  }

  /** The request was cancelled, or marked as local, after it was added. */
  ghost predicate WasMarked(c: Config, steps: seq<Step>, mark: Step, id: nat)
  {
    exists n :: 0 <= n < |steps| && steps[n] == mark && id in Run(c, steps[..n]).info
  }

  lemma WasMarkedSnoc(c: Config, steps: seq<Step>, step: Step, mark: Step, id: nat)
    ensures WasMarked(c, steps + [step], mark, id) <==>
      WasMarked(c, steps, mark, id) || (step == mark && id in Run(c, steps).info)
  {
    var all := steps + [step];
    assert all[..|steps|] == steps;
    if WasMarked(c, steps, mark, id) {
      var n :| 0 <= n < |steps| && steps[n] == mark && id in Run(c, steps[..n]).info;
      assert all[n] == mark && all[..n] == steps[..n];
    }
    if WasMarked(c, all, mark, id) {
      var n :| 0 <= n < |all| && all[n] == mark && id in Run(c, all[..n]).info;
      if n < |steps| { assert steps[n] == mark && all[..n] == steps[..n]; }
    }
    if step == mark { assert all[|steps|] == mark; }
  }

  lemma {:induction false} MarksAreHistory(c: Config, steps: seq<Step>, id: nat)
    ensures id in Run(c, steps).info ==>
      && (Run(c, steps).info[id].flags.cancelled <==> WasMarked(c, steps, Cancel(id), id))
      && (Run(c, steps).info[id].flags.local <==> WasMarked(c, steps, MarkLocal(id), id))
    ensures id !in Run(c, steps).info ==>
      !WasMarked(c, steps, Cancel(id), id) && !WasMarked(c, steps, MarkLocal(id), id)
  {
    hide WasMarked;
    if steps == [] {
      NoMarks(c, id);
    } else {
      var n := |steps| - 1;
      MarksAreHistory(c, steps[..n], id);
      assert steps == steps[..n] + [steps[n]];
      WasMarkedSnoc(c, steps[..n], steps[n], Cancel(id), id);
      WasMarkedSnoc(c, steps[..n], steps[n], MarkLocal(id), id);
      hide Run;
      assert Run(c, steps) == Next(c, Run(c, steps[..n]), steps[n]) by { LastStep(c, steps); }
      MarkStep(c, Run(c, steps[..n]), steps[n], id);
    }
  }

  lemma NoMarks(c: Config, id: nat)
    ensures id !in Run(c, []).info && forall mark :: !WasMarked(c, [], mark, id)
  {}

  lemma LastStep(c: Config, steps: seq<Step>)
    requires steps != []
    ensures Run(c, steps) == Next(c, Run(c, steps[..|steps| - 1]), steps[|steps| - 1])
  {}

  lemma MarkStep(c: Config, s: State, step: Step, id: nat)
    ensures id in s.info ==> id in Next(c, s, step).info
    ensures id in s.info ==>
      (Next(c, s, step).info[id].flags.cancelled <==> s.info[id].flags.cancelled || step == Cancel(id))
    ensures id in s.info ==>
      (Next(c, s, step).info[id].flags.local <==> s.info[id].flags.local || step == MarkLocal(id))
    ensures id !in s.info && id in Next(c, s, step).info ==>
      !Next(c, s, step).info[id].flags.cancelled && !Next(c, s, step).info[id].flags.local
  {
    hide Without, Completion, ListOf;
  }

  /** A completed request is answered exactly if it was neither cancelled nor marked as local since it was added. */
  lemma AnsweredUnlessMarked(c: Config, steps: seq<Step>, id: nat)
    requires IsPending(c, Run(c, steps), id)
    ensures var s, r := Run(c, steps), Run(c, steps + [Complete(id)]);
      if WasMarked(c, steps, Cancel(id), id) || WasMarked(c, steps, MarkLocal(id), id) then r.log == s.log
      else exists m: Message :: m.Response? && r.log == s.log + [(id, m)]
  {
    var all := steps + [Complete(id)];
    assert all[..|all| - 1] == steps;
    MarksAreHistory(c, steps, id);
    var f, k := Run(c, steps).info[id].flags, Run(c, steps).info[id];
    if !f.cancelled && !f.local {
      var m := Completion(c.version, k.socket, k.token, f).value;
      assert m.Response? && Run(c, all).log == Run(c, steps).log + [(id, m)];
    }
  }

  /** And an ack is acknowledged exactly if the request is pending and was not cancelled. */
  lemma AckedUnlessCancelled(c: Config, steps: seq<Step>, id: nat)
    ensures var s, r := Run(c, steps), Run(c, steps + [Ack(id)]);
      if !IsPending(c, s, id) || WasMarked(c, steps, Cancel(id), id) then r.log == s.log
      else r.log == s.log + [(id, Acknowledged(s.info[id].socket, s.info[id].token))]
  {
    var all := steps + [Ack(id)];
    assert all[..|all| - 1] == steps;
    MarksAreHistory(c, steps, id);
  }
}
