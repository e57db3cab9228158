/** The event loop's objects go through the runs: each call is a run of steps, and what runs keep holds of them. */
module RilLoop {
  import opened Options
  import opened RilTime
  import opened RilRing
  import opened RilTimers
  import opened RilRuns

  lemma {:induction false} RunsOn(s: State, a: seq<Step>, b: seq<Step>)
    requires Runs(s, a) && Runs(End(s, a), b)
    ensures Runs(s, a + b) && End(s, a + b) == End(End(s, a), b)
    decreases |a|
  {
    hide Enabled, Next;
    if a == [] {
      assert a + b == b;
    } else {
      assert (a + b)[1..] == a[1..] + b;
      RunsOn(Next(s, a[0]), a[1..], b);
    }
  }

  lemma RunsOnce(s: State, a: seq<Step>, step: Step)
    requires Runs(s, a) && Enabled(End(s, a), step)
    ensures Runs(s, a + [step]) && End(s, a + [step]) == Next(End(s, a), step)
  {
    hide Enabled, Next;
    assert [step][1..] == [] && Runs(End(s, a), [step]);
    assert End(End(s, a), [step]) == Next(End(s, a), step);
    RunsOn(s, a, [step]);
  }

  /** The step that a callback's timer is. */
  function ArmSteps(arm: RilTimers.Arm): seq<Step>
    requires Later(arm)
  {
    if arm.NoArm? then [] else [Step.Arm(arm.ev.id, arm.now.Micros(), arm.tv.Micros())]
  }

  predicate Later(arm: RilTimers.Arm) { arm.Arm? ==> arm.tv.Micros() >= 0 }

  /** From the n-th callback on events are armed once each, and time does not go back. */
  ghost predicate Allowed(s: State, arms: seq<RilTimers.Arm>, n: nat)
  {
    && (forall i :: n <= i < |arms| && arms[i].Arm? ==> arms[i].ev.id !in s.armed && s.clock <= arms[i].now.Micros())
    && (forall i, j :: n <= i < j < |arms| && arms[i].Arm? && arms[j].Arm? ==>
         arms[i].ev.id != arms[j].ev.id && arms[i].now.Micros() <= arms[j].now.Micros())
  }

  ghost predicate AllLater(arms: seq<RilTimers.Arm>) { forall i :: 0 <= i < |arms| ==> Later(arms[i]) }

  /** Each of the first n callbacks is fired, and adds its timer. */
  ghost function Firing(arms: seq<RilTimers.Arm>, n: nat): seq<Step>
    requires n <= |arms| && AllLater(arms)
  {
    if n == 0 then [] else Firing(arms, n - 1) + ([Fire] + ArmSteps(arms[n - 1]))
  }

  /** Where the run is when n of the pending timers of s have fired. */
  ghost predicate FiredSome(s: State, arms: seq<RilTimers.Arm>, n: nat, r: State)
    requires n <= |arms| == |s.pending|
  {
    && r.phase == s.phase && r.pass == s.pass
    && r.pending == s.pending[n..] && r.fired == s.fired + s.pending[..n]
    && r.timers == ArmAll(s.timers, arms, n) && Allowed(r, arms, n)
  }

  lemma FireOnce(s: State, arms: seq<RilTimers.Arm>, n: nat, r: State)
    requires s.phase.Firing? && n < |arms| == |s.pending| && AllLater(arms) && FiredSome(s, arms, n, r)
    ensures Enabled(r, Fire) && Runs(Next(r, Fire), ArmSteps(arms[n]))
    ensures FiredSome(s, arms, n + 1, End(Next(r, Fire), ArmSteps(arms[n])))
  {
    var u := Next(r, Fire);
    hide Insert, Allowed;
    assert u.pending == s.pending[n + 1..] && u.fired == s.fired + s.pending[..n + 1];
    ArmOnce(u, arms, n);
  }

  lemma ArmOnce(u: State, arms: seq<RilTimers.Arm>, n: nat)
    requires n < |arms| && AllLater(arms) && Allowed(u, arms, n)
    ensures Runs(u, ArmSteps(arms[n])) && Allowed(End(u, ArmSteps(arms[n])), arms, n + 1)
    ensures var e := End(u, ArmSteps(arms[n]));
      && e.timers == AfterArm(u.timers, View1(arms[n]))
      && (e.phase, e.pass, e.pending, e.fired) == (u.phase, u.pass, u.pending, u.fired)
  {
    hide Insert;
    var steps := ArmSteps(arms[n]);
    if arms[n].Arm? {
      assert steps == [steps[0]] && [steps[0]][1..] == [];
      assert Enabled(u, steps[0]);
      assert End(u, steps) == Next(u, steps[0]);
    }
  }

  lemma {:induction false} FiringRuns(s: State, arms: seq<RilTimers.Arm>, n: nat)
    requires s.phase.Firing? && n <= |arms| == |s.pending| && AllLater(arms) && Allowed(s, arms, 0)
    ensures Runs(s, Firing(arms, n)) && FiredSome(s, arms, n, End(s, Firing(arms, n)))
  {
    hide Enabled, Next;
    if n > 0 {
      FiringRuns(s, arms, n - 1);
      var r := End(s, Firing(arms, n - 1));
      FireOnce(s, arms, n - 1, r);
      hide FiredSome, Allowed, AllLater;
      var more := [Fire] + ArmSteps(arms[n - 1]);
      assert more[1..] == ArmSteps(arms[n - 1]);
      RunsOn(s, Firing(arms, n - 1), more);
    }
  }

  /** The loop object is where the run is. */
  ghost predicate Shows(loop: EventLoop, s: State)
    reads loop, loop.timers, loop.pending
  {
    loop.Timers() == s.timers && loop.Pending() == s.pending && loop.fired == s.fired
  }

  /** The loop object has gone through the run from time begin on. */
  ghost predicate Follows(loop: EventLoop, begin: int, run: seq<Step>)
    reads loop, loop.timerList, loop.pendingList, loop.timers, loop.pending
  {
    loop.Valid() && Runs(Start(begin), run) && Shows(loop, End(Start(begin), run))
  }

  method Begin(begin: int) returns (loop: EventLoop)
    ensures fresh(loop) && Follows(loop, begin, [])
  {
    loop := new EventLoop();
  }

  /** ril_timer_add, by whichever thread, is one step of the run. */
  method AddTimer(loop: EventLoop, ev: RilEvent, tv: TimeVal, now: TimeVal, ghost begin: int, ghost run: seq<Step>)
    returns (ghost longer: seq<Step>)
    requires Follows(loop, begin, run) && loop.Unlinked(ev)
    requires now.Normal() && tv.Normal() && tv.Micros() >= 0
    requires var s := End(Start(begin), run); ev.id !in s.armed && s.clock <= now.Micros()
    modifies loop`timers, ev, loop.timerList`next, loop.timerList`prev
    modifies Nodes(loop.timers)`next, Nodes(loop.timers)`prev
    ensures Follows(loop, begin, longer)
    ensures longer == run + [Step.Arm(ev.id, now.Micros(), tv.Micros())]
  {
    hide Nodes, End, Runs, Insert, EventLoop.Valid, EventLoop.Unlinked, View;
    var step := Step.Arm(ev.id, now.Micros(), tv.Micros());
    longer := run + [step];
    RunsOnce(Start(begin), run, step);
    loop.TimerAdd(ev, Some(tv), now);
  }

  lemma ArmsStay(loop: EventLoop, arms: seq<RilTimers.Arm>, t: seq<RilEvent>, p: seq<RilEvent>,
                 u: seq<RilEvent>, q: seq<RilEvent>)
    requires loop.ArmsFrom(arms, 0, t, p) && Nodes(u) <= Nodes(t) && Nodes(q) <= Nodes(t) + Nodes(p)
    ensures loop.ArmsFrom(arms, 0, u, q)
  {
    assert forall e :: (e in u ==> e in Nodes(u)) && (e in q ==> e in Nodes(q));
    forall j | 0 <= j < |arms| && arms[j].Arm? ensures loop.ArmApart(arms[j], u, q) {
      assert loop.ArmApart(arms[j], t, p);
    }
  }

  /** All of a pass, as the run sees it. */
  lemma PassRuns(begin: int, run: seq<Step>, now: int, arms: seq<RilTimers.Arm>) returns (longer: seq<Step>)
    requires Runs(Start(begin), run)
    requires var s := End(Start(begin), run);
      && Enabled(s, Process(now)) && AllLater(arms) && Allowed(Next(s, Process(now)), arms, 0)
      && |arms| == |Next(s, Process(now)).pending|
    ensures run <= longer && Runs(Start(begin), longer)
    ensures var u := Next(End(Start(begin), run), Process(now));
      var e := End(Start(begin), longer);
      && e.phase == Top && e.pass == now && e.pending == [] && e.fired == u.fired + u.pending
      && e.timers == ArmAll(u.timers, arms, |arms|)
  {
    hide Runs, End, Allowed, AllLater, ArmAll, Firing, Insert;
    RunsOnce(Start(begin), run, Process(now));
    var u := Next(End(Start(begin), run), Process(now));
    FiringRuns(u, arms, |arms|);
    var passed := run + [Process(now)];
    RunsOn(Start(begin), passed, Firing(arms, |arms|));
    var all := passed + Firing(arms, |arms|);
    assert End(Start(begin), all).pending == [];
    RunsOnce(Start(begin), all, EndPass);
    longer := all + [EndPass];
  }

  /** What every state between passes promises. */
  lemma PassPromises(begin: int, run: seq<Step>)
    requires Runs(Start(begin), run) && End(Start(begin), run).phase == Top
    ensures var e := End(Start(begin), run);
      Sorted(e.timers) && Sorted(e.fired) && forall i :: 0 <= i < |e.timers| ==> e.timers[i].deadline >= e.pass
  {
    RunKeeps(Start(begin), run);
    FiredInOrder(begin, run);
  }

  /**
   * A turn of ril_event_loop after select: processTimeouts and firePending. It continues the run by a whole
   * pass, so that on the object too the queue is sorted and holds nothing overdue, nothing is pending, and all
   * timers have fired in the order of their deadlines. arms[i] is the timer that the i-th callback adds.
   */
  method Pass(loop: EventLoop, now: TimeVal, arms: seq<RilTimers.Arm>, ghost begin: int, ghost run: seq<Step>)
    returns (ghost longer: seq<Step>)
    requires Follows(loop, begin, run) && now.Normal() && loop.ArmsFrom(arms, 0, loop.timers, loop.pending)
    requires var s := End(Start(begin), run);
      && s.phase == Top && s.clock <= now.Micros()
      && |arms| == |s.pending| + Before(s.timers, now.Micros())
      && AllLater(arms) && Allowed(Next(s, Process(now.Micros())), arms, 0)
    modifies loop`timers, loop`pending, loop`fired, loop.timerList`next, loop.timerList`prev
    modifies loop.pendingList`next, loop.pendingList`prev, Nodes(loop.timers)`next, Nodes(loop.timers)`prev
    modifies Nodes(loop.pending)`next, Nodes(loop.pending)`prev, ArmEvents(arms)
    ensures run <= longer && Follows(loop, begin, longer)
    ensures End(Start(begin), longer).phase == Top && End(Start(begin), longer).pass == now.Micros()
    ensures loop.Pending() == [] && Sorted(loop.Timers()) && Sorted(loop.fired)
    ensures forall i :: 0 <= i < |loop.Timers()| ==> loop.Timers()[i].deadline >= now.Micros()
  {
    hide Nodes, End, Runs, EventLoop.Valid, EventLoop.ArmsFrom, View, Allowed, AllLater, ArmAll, Before;
    hide ArmEvents, Sorted;
    longer := PassRuns(begin, run, now.Micros(), arms);
    PassPromises(begin, longer);
    ghost var t, p := loop.timers, loop.pending;
    loop.ProcessTimeouts(now);
    ArmsStay(loop, arms, t, p, loop.timers, loop.pending);
    assert |loop.Pending()| == |loop.pending|;
    loop.FirePending(arms);
  }
}
