/** Whole runs of the event loop, with timers added at any moment by callbacks and other threads. */
module RilRuns {
  import opened RilTimers

  /** What the loop is about to do: start a pass, or go on firing. */
  datatype Phase = Top | Firing

  /**
   * clock is the latest time anyone read, pass the time the current or last pass read; armed holds the
   * ids given out so far.
   */
  datatype State = State(
    clock: int, pass: int, phase: Phase,
    timers: seq<Timer>, pending: seq<Timer>, fired: seq<Timer>, armed: set<nat>)

  datatype Step =
    | Arm(id: nat, now: int, delay: nat)
    | Process(now: int)
    | Fire
    | EndPass

  /** Events are armed once each; the clock never goes back; the loop alternates passes and firing. */
  predicate Enabled(s: State, step: Step)
  {
    match step
    case Arm(id, now, delay) => id !in s.armed && s.clock <= now
    case Process(now) => s.phase == Top && s.clock <= now
    case Fire => s.phase == Firing && s.pending != []
    case EndPass => s.phase == Firing && s.pending == []
  }

  function Next(s: State, step: Step): State
    requires Enabled(s, step)
  {
    match step
    case Arm(id, now, delay) =>
      s.(clock := now, timers := Insert(s.timers, Timer(id, now + delay)), armed := s.armed + {id})
    case Process(now) =>
      var k := Before(s.timers, now);
      s.(clock := now, pass := now, phase := Firing, timers := s.timers[k..], pending := s.pending + s.timers[..k])
    case Fire =>
      s.(pending := s.pending[1..], fired := s.fired + [s.pending[0]])
    case EndPass => s.(phase := Top)
  }

  function Start(now: int): State { State(now, now, Top, [], [], [], {}) }

  /** The states that a sequence of steps leads through. */
  predicate Runs(s: State, steps: seq<Step>)
    decreases |steps|
  {
    steps == [] || (Enabled(s, steps[0]) && Runs(Next(s, steps[0]), steps[1..]))
  }

  function End(s: State, steps: seq<Step>): State
    requires Runs(s, steps)
    decreases |steps|
  {
    if steps == [] then s else End(Next(s, steps[0]), steps[1..])
  }

  function All(s: State): seq<Timer> { s.fired + s.pending + s.timers }

  /** Every armed timer is in exactly one place, exactly once. */
  ghost predicate Conserved(s: State)
  {
    && (forall i :: 0 <= i < |All(s)| ==> All(s)[i].id in s.armed)
    && (forall i, j :: 0 <= i < j < |All(s)| ==> All(s)[i].id != All(s)[j].id)
    && (forall id :: id in s.armed ==> exists i :: 0 <= i < |All(s)| && All(s)[i].id == id)
  }

  ghost predicate Inv(s: State)
  {
    && s.pass <= s.clock
    && (s.phase == Top ==> s.pending == [])
    && Sorted(s.timers) && Sorted(s.fired + s.pending)
    && (forall i :: 0 <= i < |s.timers| ==> s.timers[i].deadline >= s.pass)
    && (forall i :: 0 <= i < |s.fired + s.pending| ==> (s.fired + s.pending)[i].deadline < s.pass)
  }

  lemma InvArm(s: State, t: Timer)
    requires Inv(s) && t.deadline >= s.pass
    ensures Sorted(Insert(s.timers, t))
    ensures forall i :: 0 <= i < |Insert(s.timers, t)| ==> Insert(s.timers, t)[i].deadline >= s.pass
  {
    InsertSorted(s.timers, t);
    var r := Insert(s.timers, t);
    var k := Before(s.timers, t.deadline);
    forall i | 0 <= i < |r| ensures r[i].deadline >= s.pass {
      assert i < k ==> r[i] == s.timers[i];
      assert i > k ==> r[i] == s.timers[i - 1];
    }
  }

  /** What was not due before the last pass comes, in order, behind what was. */
  lemma InvProcess(s: State, now: int)
    requires Inv(s) && s.phase == Top && s.clock <= now
    ensures var k := Before(s.timers, now);
      && Sorted(s.timers[k..]) && Sorted(s.fired + (s.pending + s.timers[..k]))
      && (forall i :: 0 <= i < |s.timers[k..]| ==> s.timers[k..][i].deadline >= now)
      && (forall i :: 0 <= i < |s.fired + (s.pending + s.timers[..k])| ==>
           (s.fired + (s.pending + s.timers[..k]))[i].deadline < now)
  {
    var k := Before(s.timers, now);
    var a := s.fired + s.pending;
    assert s.fired + (s.pending + s.timers[..k]) == a + s.timers[..k];
    forall i | k <= i < |s.timers| ensures s.timers[i].deadline >= now { BeforeIsAll(s.timers, now, i); }
    assert forall i :: 0 <= i < |a| ==> a[i].deadline < now;
    SortedJoin(a, s.timers[..k], s.pass);
  }

  lemma SortedJoin(a: seq<Timer>, b: seq<Timer>, mid: int)
    requires Sorted(a) && Sorted(b)
    requires forall i :: 0 <= i < |a| ==> a[i].deadline < mid
    requires forall i :: 0 <= i < |b| ==> b[i].deadline >= mid
    ensures Sorted(a + b)
  {}

  lemma InvStep(s: State, step: Step)
    requires Inv(s) && Enabled(s, step)
    ensures Inv(Next(s, step))
  {
    hide Before, Insert;
    match step
    case Arm(id, now, delay) => InvArm(s, Timer(id, now + delay));
    case Process(now) => InvProcess(s, now);
    case Fire => assert s.fired + [s.pending[0]] + s.pending[1..] == s.fired + s.pending;
    case EndPass =>
  }

  lemma SameConserved(s: State, r: State)
    requires Conserved(s) && All(r) == All(s) && r.armed == s.armed
    ensures Conserved(r)
  {}

  /** Timers change places, but none is lost and none appears twice. */
  lemma ConservedStep(s: State, step: Step)
    requires Conserved(s) && Enabled(s, step)
    ensures Conserved(Next(s, step))
  {
    hide Conserved;
    match step
    case Arm(id, now, delay) =>
      var t, k := Timer(id, now + delay), Before(s.timers, now + delay);
      ArmConserved(s, t, k);
      SameConserved(s.(timers := s.timers[..k] + [t] + s.timers[k..], armed := s.armed + {id}), Next(s, step));
    case Process(now) =>
      var k := Before(s.timers, now);
      assert s.timers == s.timers[..k] + s.timers[k..];
      SameConserved(s, Next(s, step));
    case Fire => SameConserved(s, Next(s, step));
    case EndPass => SameConserved(s, Next(s, step));
  }

  lemma ArmConserved(s: State, t: Timer, k: nat)
    requires Conserved(s) && t.id !in s.armed && k <= |s.timers|
    ensures Conserved(s.(timers := s.timers[..k] + [t] + s.timers[k..], armed := s.armed + {t.id}))
  {
    var r := s.(timers := s.timers[..k] + [t] + s.timers[k..], armed := s.armed + {t.id});
    var at := |s.fired| + |s.pending| + k;
    assert |All(r)| == |All(s)| + 1 && All(r)[at] == t;
    assert forall i :: 0 <= i < |All(r)| && i != at ==> All(r)[i] == All(s)[if i < at then i else i - 1];
    forall id | id in s.armed ensures exists i :: 0 <= i < |All(r)| && All(r)[i].id == id {
      var i :| 0 <= i < |All(s)| && All(s)[i].id == id;
      assert All(r)[if i < at then i else i + 1].id == id;
    }
  }

  lemma {:induction false} RunKeeps(s: State, steps: seq<Step>)
    requires Inv(s) && Conserved(s) && Runs(s, steps)
    ensures Inv(End(s, steps)) && Conserved(End(s, steps))
    decreases |steps|
  {
    if steps != [] {
      InvStep(s, steps[0]);
      ConservedStep(s, steps[0]);
      RunKeeps(Next(s, steps[0]), steps[1..]);
    }
  }

  /** The timers fired so far are a prefix of those fired later. */
  lemma {:induction false} FiredGrows(s: State, steps: seq<Step>)
    requires Runs(s, steps)
    ensures s.fired <= End(s, steps).fired
    decreases |steps|
  {
    if steps != [] { FiredGrows(Next(s, steps[0]), steps[1..]); }
  }

  /** A step of the run fires timer number i, which is due before the time that this step's pass read. */
  predicate FiredBy(s: State, steps: seq<Step>, i: nat, n: nat)
  {
    && n < |steps| && Runs(s, steps[..n]) && steps[n].Fire? && Runs(s, steps)
    && var at := End(s, steps[..n]);
    && |at.fired| == i < |End(s, steps).fired| && at.pending != [] && at.pending[0] == End(s, steps).fired[i]
    && at.pending[0].deadline < at.pass <= at.clock
  }

  ghost predicate FiredInTime(s: State, steps: seq<Step>, i: nat) { exists n :: FiredBy(s, steps, i, n) }

  /** Every timer that was fired along a run was fired by one step, after its deadline. */
  lemma {:induction false} SomeStepFired(s: State, steps: seq<Step>, i: nat) returns (n: nat)
    requires Inv(s) && Runs(s, steps) && |s.fired| <= i < |End(s, steps).fired|
    ensures FiredBy(s, steps, i, n)
    decreases |steps|
  {
    var r, rest := Next(s, steps[0]), steps[1..];
    InvStep(s, steps[0]);
    if |r.fired| > i {
      FiredGrows(r, rest);
      n := 0;
      assert steps[..0] == [];
      assert s.pending[0] == (s.fired + s.pending)[|s.fired|];
    } else {
      n := SomeStepFired(r, rest, i);
      assert steps[..n + 1][0] == steps[0] && steps[..n + 1][1..] == rest[..n];
      n := n + 1;
    }
  }

  /**
   * In every run from the start: the sequence of fired deadlines never decreases, no timer fires twice,
   * and each was fired by a step whose pass had read a time behind its deadline.
   */
  lemma FiredInOrder(now: int, steps: seq<Step>)
    requires Runs(Start(now), steps)
    ensures Sorted(End(Start(now), steps).fired)
    ensures forall i, j :: 0 <= i < j < |End(Start(now), steps).fired| ==>
      End(Start(now), steps).fired[i].id != End(Start(now), steps).fired[j].id
    ensures forall i :: 0 <= i < |End(Start(now), steps).fired| ==> FiredInTime(Start(now), steps, i)
  {
    var e := End(Start(now), steps);
    RunKeeps(Start(now), steps);
    forall i | 0 <= i < |e.fired| ensures e.fired[i] == (e.fired + e.pending)[i] == All(e)[i] {}
    hide Inv, Conserved, FiredBy, End, Runs, Sorted;
    forall i | 0 <= i < |e.fired| ensures FiredInTime(Start(now), steps, i) {
      var n := SomeStepFired(Start(now), steps, i);
    }
  }

  /**
   * A timer fires in a state reached by a run only when its own deadline has passed on the clock of that
   * very moment: never early.
   */
  lemma NeverEarly(now: int, steps: seq<Step>)
    requires Runs(Start(now), steps) && Enabled(End(Start(now), steps), Fire)
    ensures End(Start(now), steps).pending[0].deadline < End(Start(now), steps).clock
  {
    var e := End(Start(now), steps);
    RunKeeps(Start(now), steps);
    assert e.pending[0] == (e.fired + e.pending)[|e.fired|];
  }

  /**
   * After a loop pass the pending list is empty, no queued timer is due before the time of that pass, and
   * so every armed timer that was due before it has fired.
   */
  lemma PassIsComplete(now: int, steps: seq<Step>, t: Timer)
    requires Runs(Start(now), steps)
    requires End(Start(now), steps).phase == Top
    ensures End(Start(now), steps).pending == []
    ensures forall i :: 0 <= i < |End(Start(now), steps).timers| ==>
      End(Start(now), steps).timers[i].deadline >= End(Start(now), steps).pass
    ensures t in All(End(Start(now), steps)) && t.deadline < End(Start(now), steps).pass ==>
      t in End(Start(now), steps).fired
  {
    RunKeeps(Start(now), steps);
  }
}
