/** The counted wake lock, and the cancellable timers that release it. */
module RilWake {
  import opened Options
  import opened RilTimers
  import opened RilRuns

  /** ANDROID_WAKE_LOCK_USECS */
  const WAKE_TIMEOUT := 200_000

  /** cancelled holds the wake timers, not yet expired, whose user parameter has been set. */
  datatype Wake = Wake(count: int, held: bool, last: Option<nat>, cancelled: set<nat>)

  function Cancel(w: Wake): set<nat>
  {
    if w.last.Some? then w.cancelled + {w.last.value} else w.cancelled
  }

  /** A grab: taking the lock queues a timer, unless that fails and the lock is dropped at once. */
  function Grab(w: Wake, info: Option<nat>): Wake
  {
    if info.None? then w.(held := false)
    else Wake(w.count + 1, true, info, Cancel(w))
  }

  function Release(w: Wake): Wake
  {
    if w.count > 1 then w.(count := w.count - 1) else w.(count := 0, held := false, cancelled := Cancel(w))
  }

  /** The wake timer id expires. */
  function Expire(w: Wake, id: nat): Wake
  {
    var v := if id in w.cancelled then w else w.(count := 0, held := false);
    v.(last := if w.last == Some(id) then None else w.last, cancelled := w.cancelled - {id})
  }

  class UserCallbackInfo {
    /** Whether the user parameter is non-null, which cancels the callback. */
    var userParam: bool
    const id: nat

    constructor (id: nat)
      ensures this.id == id && !userParam
    {
      this.id := id;
      userParam := false;
    }
  }

  /** The globals of the wake lock at version 13 and later. */
  class WakeLock {
    var count: int
    var held: bool
    var last: UserCallbackInfo?
    /** The callback infos that have not been freed. */
    ghost var live: set<UserCallbackInfo>

    ghost predicate Valid()
      reads this, live
    {
      && (last != null ==> last in live)
      && forall a, b :: a in live && b in live && a.id == b.id ==> a == b
    }

    ghost function View(): Wake
      reads this, live
    {
      Wake(count, held, if last == null then None else Some(last.id), set i | i in live && i.userParam :: i.id)
    }

    constructor ()
      ensures Valid() && live == {} && View() == Wake(0, false, None, {})
    {
      count, held, last, live := 0, false, null, {};
    }

    /** grabPartialWakeLock; info is the queued timer's record, null when it could not be had. */
    method GrabPartialWakeLock(info: UserCallbackInfo?)
      requires Valid()
      requires info != null ==> !info.userParam && info !in live && forall a :: a in live ==> a.id != info.id
      modifies this, last
      ensures Valid() && live == old(live) + (if info == null then {} else {info})
      ensures View() == Grab(old(View()), if info == null then None else Some(info.id))
    {
      held := true;
      if info == null {
        held := false;
      } else {
        count := count + 1;
        if last != null { last.userParam := true; }
        last := info;
        live := live + {info};
      }
    }

    /** releaseWakeLock */
    method ReleaseWakeLock()
      requires Valid()
      modifies this, last
      ensures Valid() && live == old(live) && View() == Release(old(View()))
    {
      if count > 1 {
        count := count - 1;
      } else {
        count := 0;
        held := false;
        if last != null { last.userParam := true; }
      }
    }

    /** wakeTimeoutCallback */
    method WakeTimeoutCallback(param: bool)
      modifies this`count, this`held
      ensures if param then count == old(count) && held == old(held) else count == 0 && !held
    {
      if !param {
        count := 0;
        held := false;
      }
    }

    /** userTimerCallback for a wake timer: its record is freed at the end. */
    method UserTimerCallback(info: UserCallbackInfo)
      requires Valid() && info in live
      modifies this
      ensures Valid() && live == old(live) - {info} && View() == Expire(old(View()), info.id)
    {
      WakeTimeoutCallback(info.userParam);
      if last != null && last == info { last := null; }
      live := live - {info};
    }
  }

  /**
   * The event loop and the wake lock together. wakeIds are the timers queued by grabs, lastGrab the time
   * of the latest one that queued one, failed whether a grab has failed to since.
   */
  datatype System = System(loop: State, wake: Wake, wakeIds: set<nat>, lastGrab: int, failed: bool)

  datatype Action =
    | GrabLock(id: nat, now: int)
    | GrabFails
    | ReleaseLock
    | Loop(step: Step)

  predicate Possible(s: System, a: Action)
  {
    match a
    case GrabLock(id, now) => Enabled(s.loop, Step.Arm(id, now, WAKE_TIMEOUT))
    case GrabFails => true
    case ReleaseLock => true
    case Loop(step) => Enabled(s.loop, step)
  }

  /** Firing a wake timer runs its callback; other timers' callbacks do not touch the lock by themselves. */
  function Act(s: System, a: Action): System
    requires Possible(s, a)
  {
    match a
    case GrabLock(id, now) =>
      System(Next(s.loop, Step.Arm(id, now, WAKE_TIMEOUT)), Grab(s.wake, Some(id)), s.wakeIds + {id}, now, false)
    case GrabFails => s.(wake := Grab(s.wake, None), failed := true)
    case ReleaseLock => s.(wake := Release(s.wake))
    case Loop(step) =>
      s.(loop := Next(s.loop, step),
         wake := if step.Fire? && s.loop.pending[0].id in s.wakeIds
           then Expire(s.wake, s.loop.pending[0].id) else s.wake)
  }

  predicate Behaves(s: System, actions: seq<Action>)
    decreases |actions|
  {
    actions == [] || (Possible(s, actions[0]) && Behaves(Act(s, actions[0]), actions[1..]))
  }

  function After(s: System, actions: seq<Action>): System
    requires Behaves(s, actions)
    decreases |actions|
  {
    if actions == [] then s else After(Act(s, actions[0]), actions[1..])
  }

  function Boot(now: int): System { System(RilRuns.Start(now), Wake(0, false, None, {}), {}, now, false) }

  /** The timers still to fire. */
  function Waiting(s: State): seq<Timer> { s.pending + s.timers }

  /**
   * At most one wake timer is not cancelled, and it is the latest; while the lock is held that timer is
   * still queued and the count is positive.
   */
  ghost predicate WakeSafe(s: System)
  {
    && s.wakeIds <= s.loop.armed && s.wake.cancelled <= s.wakeIds
    && (forall t :: t in Waiting(s.loop) && Pending(s, t.id) ==> s.wake.last == Some(t.id))
    && (s.wake.last.Some? ==> LastQueued(s))
    && 0 <= s.wake.count && (s.wake.held <==> s.wake.count > 0 && !s.failed)
    && (s.wake.count > 0 ==> s.wake.last.Some? && s.wake.last.value !in s.wake.cancelled)
  }

  /** Timer id is a wake timer that will release the lock when it expires. */
  predicate Pending(s: System, id: nat) { id in s.wakeIds && id !in s.wake.cancelled }

  predicate LastQueued(s: System)
    requires s.wake.last.Some?
  {
    s.wake.last.value in s.wakeIds && Timer(s.wake.last.value, s.lastGrab + WAKE_TIMEOUT) in Waiting(s.loop)
  }

  ghost predicate Safe(s: System) { Inv(s.loop) && Conserved(s.loop) && WakeSafe(s) }

  lemma WaitingArm(s: State, id: nat, now: int, delay: nat)
    requires Conserved(s) && Enabled(s, Step.Arm(id, now, delay))
    ensures var r := Next(s, Step.Arm(id, now, delay));
      && r.armed == s.armed + {id}
      && (forall t :: t in Waiting(r) <==> t in Waiting(s) || t == Timer(id, now + delay))
    ensures forall t :: t in Waiting(s) ==> t.id in s.armed
  {
    var r := Next(s, Step.Arm(id, now, delay));
    var k := Before(s.timers, now + delay);
    assert s.timers == s.timers[..k] + s.timers[k..];
    assert Waiting(r) == s.pending + (s.timers[..k] + [Timer(id, now + delay)] + s.timers[k..]);
    forall t | t in Waiting(s) ensures t.id in s.armed { WaitingArmed(s, t); }
  }

  lemma WaitingArmed(s: State, t: Timer)
    requires Conserved(s) && t in Waiting(s)
    ensures t.id in s.armed
  {
    var i :| 0 <= i < |Waiting(s)| && Waiting(s)[i] == t;
    assert All(s)[|s.fired| + i] == t;
  }

  lemma WaitingFire(s: State)
    requires Conserved(s) && Enabled(s, Step.Fire)
    ensures forall t :: t in Waiting(Next(s, Step.Fire)) <==> t in Waiting(s) && t.id != s.pending[0].id
    ensures s.pending[0] in Waiting(s)
    ensures forall t :: t in Waiting(s) && t.id == s.pending[0].id ==> t == s.pending[0]
  {
    var r := Next(s, Step.Fire);
    assert Waiting(s) == [s.pending[0]] + Waiting(r);
    forall t | t in Waiting(r) ensures t.id != s.pending[0].id {
      var i :| 0 <= i < |Waiting(r)| && Waiting(r)[i] == t;
      assert All(s)[|s.fired|] == s.pending[0] && All(s)[|s.fired| + 1 + i] == t;
    }
  }

  lemma WaitingSame(s: State, step: Step)
    requires Enabled(s, step) && (step.Process? || step.EndPass?)
    ensures forall t :: t in Waiting(Next(s, step)) <==> t in Waiting(s)
    ensures Next(s, step).armed == s.armed
  {
    if step.Process? {
      var k := Before(s.timers, step.now);
      assert s.timers == s.timers[..k] + s.timers[k..];
      assert Waiting(Next(s, step)) == Waiting(s);
    }
  }

  lemma WakeStep(s: System, a: Action)
    requires Safe(s) && Possible(s, a)
    ensures WakeSafe(Act(s, a))
  {
    hide Inv, Conserved, Before, Waiting, Next, Insert;
    match a
    case GrabLock(id, now) => WaitingArm(s.loop, id, now, WAKE_TIMEOUT); GrabKeeps(s, id, now);
    case GrabFails =>
    case ReleaseLock =>
    case Loop(step) =>
      match step
      case Arm(id, now, delay) => WaitingArm(s.loop, id, now, delay);
      case Fire => WaitingFire(s.loop); FireKeeps(s);
      case Process(now) => WaitingSame(s.loop, step);
      case EndPass => WaitingSame(s.loop, step);
  }

  lemma GrabKeeps(s: System, id: nat, now: int)
    requires Safe(s) && Possible(s, GrabLock(id, now))
    ensures WakeSafe(Act(s, GrabLock(id, now)))
  {
    hide Inv, Conserved, Waiting, Next, Insert, Before;
    WaitingArm(s.loop, id, now, WAKE_TIMEOUT);
    var r := Act(s, GrabLock(id, now));
    forall t | t in Waiting(r.loop) && Pending(r, t.id) ensures r.wake.last == Some(t.id) {
      assert t in Waiting(s.loop) && t.id != id ==> Pending(s, t.id);
    }
  }

  lemma FireKeeps(s: System)
    requires Safe(s) && Possible(s, Loop(Step.Fire))
    ensures WakeSafe(Act(s, Loop(Step.Fire)))
  {
    var id := s.loop.pending[0].id;
    var r := Act(s, Loop(Step.Fire));
    assert r.loop.armed == s.loop.armed;
    WaitingFire(s.loop);
    assert s.wake.last.Some? ==> LastQueued(s);
    hide Inv, Conserved, Waiting, Next;
    forall t | t in Waiting(r.loop) && Pending(r, t.id) ensures r.wake.last == Some(t.id) {
      assert Pending(s, t.id);
    }
    if id in s.wakeIds && id !in s.wake.cancelled { assert Pending(s, id); }
  }

  lemma {:induction false} StaysSafe(s: System, actions: seq<Action>)
    requires Safe(s) && Behaves(s, actions)
    ensures Safe(After(s, actions))
    decreases |actions|
  {
    if actions != [] {
      var a := actions[0];
      WakeStep(s, a);
      match a {
        case GrabLock(id, now) =>
          InvStep(s.loop, Step.Arm(id, now, WAKE_TIMEOUT)); ConservedStep(s.loop, Step.Arm(id, now, WAKE_TIMEOUT));
        case Loop(step) => InvStep(s.loop, step); ConservedStep(s.loop, step);
        case GrabFails =>
        case ReleaseLock =>
      }
      StaysSafe(Act(s, a), actions[1..]);
    }
  }

  /**
   * The lock is never held without a live release: in every reachable state the latest wake timer is the
   * only one that may be queued and not cancelled, and while the lock is held it is so, to expire
   * WAKE_TIMEOUT after the latest grab, and the count is positive.
   */
  lemma HeldHasRelease(now: int, actions: seq<Action>)
    requires Behaves(Boot(now), actions)
    ensures var s := After(Boot(now), actions);
      && (forall t :: t in Waiting(s.loop) && Pending(s, t.id) ==> s.wake.last == Some(t.id))
      && (s.wake.held ==>
           && s.wake.count > 0 && s.wake.last.Some? && Pending(s, s.wake.last.value)
           && Timer(s.wake.last.value, s.lastGrab + WAKE_TIMEOUT) in Waiting(s.loop))
  {
    hide Behaves, After, Waiting, Inv, Conserved;
    StartSafe(now);
    StaysSafe(Boot(now), actions);
  }

  lemma StartSafe(now: int)
    ensures Safe(Boot(now))
  {}

  /** When the timer of a held lock expires, the lock is released, whatever the count. */
  lemma ExpiryReleases(now: int, actions: seq<Action>)
    requires Behaves(Boot(now), actions) && Possible(After(Boot(now), actions), Loop(Step.Fire))
    requires After(Boot(now), actions).wake.last == Some(After(Boot(now), actions).loop.pending[0].id)
    ensures var r := Act(After(Boot(now), actions), Loop(Step.Fire)); !r.wake.held && r.wake.count == 0
  {
    StaysSafe(Boot(now), actions);
    hide Behaves, After, Waiting;
  }

  /**
   * No lock outlives its timeout by more than one loop pass: between passes a lock is held only if the
   * last pass began at most WAKE_TIMEOUT after the latest grab.
   */
  lemma HeldIsBounded(now: int, actions: seq<Action>)
    requires Behaves(Boot(now), actions)
    requires After(Boot(now), actions).loop.phase == Top && After(Boot(now), actions).wake.held
    ensures After(Boot(now), actions).loop.pass <= After(Boot(now), actions).lastGrab + WAKE_TIMEOUT
  {
    StaysSafe(Boot(now), actions);
    QueuedIsLater(After(Boot(now), actions));
  }

  lemma QueuedIsLater(s: System)
    requires Safe(s) && s.loop.phase == Top && s.wake.held
    ensures s.loop.pass <= s.lastGrab + WAKE_TIMEOUT
  {
    hide Conserved, Inv, Waiting;
    WaitsAtTop(s.loop, Timer(s.wake.last.value, s.lastGrab + WAKE_TIMEOUT));
  }

  lemma WaitsAtTop(s: State, t: Timer)
    requires Inv(s) && s.phase == Top && t in Waiting(s)
    ensures t.deadline >= s.pass
  {
    assert Waiting(s) == s.timers;
  }

  /** The latest of the grabs, if there was any, could not queue its timer. */
  predicate LastGrabFailed(actions: seq<Action>)
  {
    actions != [] && var a := actions[|actions| - 1];
    a.GrabFails? || (!a.GrabLock? && LastGrabFailed(actions[..|actions| - 1]))
  }

  /**
   * In every run the lock is held exactly while the count is positive and the latest grab did not fail; so
   * the count tells whether it is held exactly if it is zero or that grab did not fail.
   */
  lemma HeldIffCounted(now: int, actions: seq<Action>)
    requires Behaves(Boot(now), actions)
    ensures var w := After(Boot(now), actions).wake;
      && (w.held <==> w.count > 0 && !LastGrabFailed(actions))
      && ((w.held <==> w.count > 0) <==> w.count == 0 || !LastGrabFailed(actions))
  {
    StaysSafe(Boot(now), actions);
    FailedIsLast(Boot(now), actions);
    hide Behaves, After, LastGrabFailed, Inv, Conserved, Waiting;
  }

  lemma {:induction false} FailedIsLast(s: System, actions: seq<Action>)
    requires Behaves(s, actions) && !s.failed
    ensures After(s, actions).failed == LastGrabFailed(actions)
  {
    if actions != [] {
      var before, a := actions[..|actions| - 1], actions[|actions| - 1];
      AfterLast(s, actions);
      FailedIsLast(s, before);
      hide Behaves, After;
    }
  }

  /** The last action of a run. */
  lemma {:induction false} AfterLast(s: System, actions: seq<Action>)
    requires Behaves(s, actions) && actions != []
    ensures var before, a := actions[..|actions| - 1], actions[|actions| - 1];
      && Behaves(s, before) && Possible(After(s, before), a) && After(s, actions) == Act(After(s, before), a)
    decreases |actions|
  {
    hide Act, Possible;
    var rest := actions[1..];
    if rest == [] {
      assert actions == [actions[0]] && actions[..0] == [];
    } else {
      AfterLast(Act(s, actions[0]), rest);
      assert actions[..|actions| - 1][1..] == rest[..|rest| - 1];
      assert actions[..|actions| - 1][0] == actions[0];
    }
  }

  /** A failed grab may drop a lock that others still count on. */
  lemma FailedGrabDropsLock(now: int)
    ensures Behaves(Boot(now), [GrabLock(0, now), GrabFails])
    ensures var w := After(Boot(now), [GrabLock(0, now), GrabFails]).wake; w.count == 1 && !w.held
  {
    var s := Act(Boot(now), GrabLock(0, now));
    assert [GrabLock(0, now), GrabFails][1..] == [GrabFails] && [GrabFails][1..] == [];
    assert Behaves(Act(s, GrabFails), []) && After(Act(s, GrabFails), []) == Act(s, GrabFails);
    assert Behaves(s, [GrabFails]) && After(s, [GrabFails]) == Act(s, GrabFails);
  }

  // What the count counts.

  /** The timer of the latest grab that queued one. */
  function Latest(actions: seq<Action>): Option<nat>
  {
    if actions == [] then None
    else
      var a := actions[|actions| - 1];
      if a.GrabLock? then Some(a.id) else Latest(actions[..|actions| - 1])
  }

  /** The last action fires the timer of the latest grab. */
  predicate Expires(now: int, actions: seq<Action>)
    requires Behaves(Boot(now), actions)
  {
    actions != [] && actions[|actions| - 1] == Loop(Step.Fire) &&
    var before := actions[..|actions| - 1];
    Behaves(Boot(now), before) && var s := After(Boot(now), before);
    s.loop.pending != [] && Latest(before) == Some(s.loop.pending[0].id)
  }

  /** Grabs, less releases, but never less than none; an expiry begins again. */
  function Balance(now: int, actions: seq<Action>): nat
    requires Behaves(Boot(now), actions)
  {
    if actions == [] then 0
    else
      AfterLast(Boot(now), actions);
      var before := Balance(now, actions[..|actions| - 1]);
      if Expires(now, actions) then 0
      else
        match actions[|actions| - 1]
        case GrabLock(_, _) => before + 1
        case ReleaseLock => if before == 0 then 0 else before - 1
        case _ => before
  }

  /** How the count relates to the actions so far. */
  ghost predicate Counts(s: System, n: nat, latest: Option<nat>)
  {
    && s.wake.count == n
    && (s.wake.last.Some? ==> s.wake.last == latest)
    && (latest.Some? ==> latest.value in s.wakeIds)
  }

  lemma CountsStep(s: System, n: nat, latest: Option<nat>, a: Action)
    requires Safe(s) && Counts(s, n, latest) && Possible(s, a) && a != Loop(Step.Fire)
    ensures Counts(Act(s, a),
                   if a.GrabLock? then n + 1 else if a.ReleaseLock? && n > 0 then n - 1 else n,
                   if a.GrabLock? then Some(a.id) else latest)
  {
    hide Inv, Conserved, Next, Waiting;
  }

  lemma CountsFire(s: System, n: nat, latest: Option<nat>)
    requires Safe(s) && Counts(s, n, latest) && Possible(s, Loop(Step.Fire))
    ensures s.loop.pending != []
    ensures Counts(Act(s, Loop(Step.Fire)), if latest == Some(s.loop.pending[0].id) then 0 else n, latest)
  {
    var id := s.loop.pending[0].id;
    WaitingFire(s.loop);
    hide Inv, Conserved, Next, Waiting;
    assert Pending(s, id) ==> s.wake.last == Some(id);
  }

  /** The balance after one more action. */
  lemma BalanceLast(now: int, actions: seq<Action>)
    requires Behaves(Boot(now), actions) && actions != []
    ensures var before, a := actions[..|actions| - 1], actions[|actions| - 1];
      && Behaves(Boot(now), before) && Possible(After(Boot(now), before), a)
      && After(Boot(now), actions) == Act(After(Boot(now), before), a)
      && var n, latest, s := Balance(now, before), Latest(before), After(Boot(now), before);
      && Latest(actions) == (if a.GrabLock? then Some(a.id) else latest)
      && Balance(now, actions) ==
           if a.GrabLock? then n + 1 else if a.ReleaseLock? && n > 0 then n - 1
           else if a == Loop(Step.Fire) && s.loop.pending != [] && latest == Some(s.loop.pending[0].id) then 0 else n
  {
    AfterLast(Boot(now), actions);
    hide Behaves, After, Possible, Act, Boot;
  }

  lemma {:induction false} CountsAlways(now: int, actions: seq<Action>)
    requires Behaves(Boot(now), actions)
    ensures Counts(After(Boot(now), actions), Balance(now, actions), Latest(actions))
  {
    hide Behaves, After, Safe, Possible, Act, Counts, Balance, Latest;
    StartCounts(now);
    if actions != [] {
      BalanceLast(now, actions);
      var before, a := actions[..|actions| - 1], actions[|actions| - 1];
      CountsAlways(now, before);
      StaysSafe(Boot(now), before);
      var s := After(Boot(now), before);
      if a == Loop(Step.Fire) {
        CountsFire(s, Balance(now, before), Latest(before));
      } else {
        CountsStep(s, Balance(now, before), Latest(before), a);
      }
    }
  }

  lemma StartCounts(now: int)
    ensures Behaves(Boot(now), []) && Counts(After(Boot(now), []), Balance(now, []), Latest([]))
    ensures Safe(Boot(now))
  {}

  /** In every run the count is the balance of grabs and releases since the latest grab's timer last expired. */
  lemma CountIsBalance(now: int, actions: seq<Action>)
    requires Behaves(Boot(now), actions)
    ensures After(Boot(now), actions).wake.count == Balance(now, actions)
  {
    CountsAlways(now, actions);
  }

  /** No expiry of the latest grab's timer anywhere in the run. */
  predicate NoExpiry(now: int, actions: seq<Action>)
    requires Behaves(Boot(now), actions)
  {
    actions == [] ||
    (AfterLast(Boot(now), actions); !Expires(now, actions) && NoExpiry(now, actions[..|actions| - 1]))
  }

  function Grabs(actions: seq<Action>): nat
  {
    if actions == [] then 0
    else Grabs(actions[..|actions| - 1]) + if actions[|actions| - 1].GrabLock? then 1 else 0
  }

  function Releases(actions: seq<Action>): nat
  {
    if actions == [] then 0
    else Releases(actions[..|actions| - 1]) + if actions[|actions| - 1].ReleaseLock? then 1 else 0
  }

  /** No release comes before its grab. */
  predicate Paired(actions: seq<Action>)
  {
    actions == [] || (Releases(actions) <= Grabs(actions) && Paired(actions[..|actions| - 1]))
  }

  lemma {:induction false} BalanceIsNet(now: int, actions: seq<Action>)
    requires Behaves(Boot(now), actions) && NoExpiry(now, actions) && Paired(actions)
    ensures Balance(now, actions) == Grabs(actions) - Releases(actions)
  {
    if actions != [] {
      AfterLast(Boot(now), actions);
      hide Behaves, Expires;
      BalanceIsNet(now, actions[..|actions| - 1]);
    }
  }

  /**
   * In a run without an expiry in which no release comes before its grab, the lock is held exactly until the
   * releases have caught up with the grabs, unless the latest grab failed.
   */
  lemma HeldUntilReleased(now: int, actions: seq<Action>)
    requires Behaves(Boot(now), actions) && NoExpiry(now, actions) && Paired(actions)
    ensures After(Boot(now), actions).wake.count == Grabs(actions) - Releases(actions)
    ensures After(Boot(now), actions).wake.held <==> Releases(actions) < Grabs(actions) && !LastGrabFailed(actions)
  {
    CountIsBalance(now, actions);
    BalanceIsNet(now, actions);
    HeldIffCounted(now, actions);
  }
}
