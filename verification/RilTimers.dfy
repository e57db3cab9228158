/** The event loop's timer queue: a sorted list of deadlines, kept in a ring. */
module RilTimers {
  import opened Options
  import opened RilTime
  import opened RilRing

  /** A queued timer, its deadline in microseconds. */
  datatype Timer = Timer(id: nat, deadline: int)

  ghost predicate Sorted(ts: seq<Timer>)
  {
    forall i, j :: 0 <= i < j < |ts| ==> ts[i].deadline <= ts[j].deadline
  }

  /** How many leading timers are due before d. */
  function Before(ts: seq<Timer>, d: int): (k: nat)
    ensures k <= |ts|
    ensures forall i :: 0 <= i < k ==> ts[i].deadline < d
    ensures k < |ts| ==> ts[k].deadline >= d
  {
    if ts == [] || ts[0].deadline >= d then 0 else 1 + Before(ts[1..], d)
  }

  /** Puts t in front of the first timer that is not due before it. */
  function Insert(ts: seq<Timer>, t: Timer): seq<Timer>
  {
    var k := Before(ts, t.deadline);
    ts[..k] + [t] + ts[k..]
  }

  /** t stands at k, behind exactly the timers that are due before it and in front of equal ones. */
  ghost predicate InsertedAt(ts: seq<Timer>, t: Timer, k: nat, r: seq<Timer>)
    requires k <= |ts|
  {
    && |r| == |ts| + 1 && r[..k] == ts[..k] && r[k] == t && r[k + 1..] == ts[k..]
    && (forall i :: 0 <= i < k ==> ts[i].deadline < t.deadline)
    && (forall i :: k <= i < |ts| ==> t.deadline <= ts[i].deadline)
  }

  lemma InsertSorted(ts: seq<Timer>, t: Timer)
    requires Sorted(ts)
    ensures Sorted(Insert(ts, t))
    ensures exists k :: 0 <= k <= |ts| && InsertedAt(ts, t, k, Insert(ts, t))
  {
    var k := Before(ts, t.deadline);
    var r := Insert(ts, t);
    assert InsertedAt(ts, t, k, r);
    forall i, j | 0 <= i < j < |r| ensures r[i].deadline <= r[j].deadline {
      assert i < k ==> ts[i].deadline < t.deadline;
      assert j > k && k < |ts| ==> ts[k].deadline <= ts[j - 1].deadline;
    }
  }

  /** In a sorted queue the timers due before now are exactly a prefix. */
  lemma BeforeIsAll(ts: seq<Timer>, now: int, i: nat)
    requires Sorted(ts) && i < |ts|
    ensures ts[i].deadline < now <==> i < Before(ts, now)
  {}

  lemma BeforeUnique(ts: seq<Timer>, d: int, k: nat)
    requires k <= |ts|
    requires forall i :: 0 <= i < k ==> ts[i].deadline < d
    requires k < |ts| ==> ts[k].deadline >= d
    ensures Before(ts, d) == k
  {}

  /** The first k of the timers was, all due before d, have moved behind the pending ones ahead. */
  ghost predicate Moved(was: seq<Timer>, ahead: seq<Timer>, d: int, k: nat, ts: seq<Timer>, ps: seq<Timer>)
  {
    && k <= |was| && ts == was[k..] && ps == ahead + was[..k]
    && forall i :: 0 <= i < k ==> was[i].deadline < d
  }

  lemma NoneMoved(was: seq<Timer>, ahead: seq<Timer>, d: int)
    ensures Moved(was, ahead, d, 0, was, ahead)
  {}

  lemma OneMoved(was: seq<Timer>, ahead: seq<Timer>, d: int, k: nat, ts: seq<Timer>, ps: seq<Timer>)
    requires Moved(was, ahead, d, k, ts, ps) && ts != [] && ts[0].deadline < d
    ensures k < |was| && Moved(was, ahead, d, k + 1, ts[1..], ps + [ts[0]])
  {}

  lemma AllMoved(was: seq<Timer>, ahead: seq<Timer>, d: int, k: nat, ts: seq<Timer>, ps: seq<Timer>)
    requires Moved(was, ahead, d, k, ts, ps) && (ts != [] ==> ts[0].deadline >= d)
    ensures k == Before(was, d) && ts == was[k..] && ps == ahead + was[..k]
  {
    BeforeUnique(was, d, k);
  }

  ghost function ViewOf(e: RilEvent): Timer
    reads e
  {
    Timer(e.id, e.timeout.Micros())
  }

  ghost function View(s: seq<RilEvent>): (ts: seq<Timer>)
    reads s
    ensures |ts| == |s| && forall i :: 0 <= i < |s| ==> ts[i] == ViewOf(s[i])
  {
    seq(|s|, i requires 0 <= i < |s| reads s => ViewOf(s[i]))
  }

  /** What a callback does to the timers: nothing, or adding ev at time now to fire after tv. */
  datatype Arm = NoArm | Arm(ev: RilEvent, tv: TimeVal, now: TimeVal)

  function View1(arm: Arm): Option<Timer>
  {
    if arm.NoArm? then None else Some(Timer(arm.ev.id, arm.now.Micros() + arm.tv.Micros()))
  }

  function AfterArm(ts: seq<Timer>, t: Option<Timer>): seq<Timer>
  {
    if t.None? then ts else Insert(ts, t.value)
  }

  /** The queue after the first n of the callbacks. */
  function ArmAll(ts: seq<Timer>, arms: seq<Arm>, n: nat): seq<Timer>
    requires n <= |arms|
  {
    if n == 0 then ts else AfterArm(ArmAll(ts, arms, n - 1), View1(arms[n - 1]))
  }

  ghost function ArmEvents(arms: seq<Arm>): set<RilEvent>
  {
    set i | 0 <= i < |arms| && arms[i].Arm? :: arms[i].ev
  }

  /** How long a timer still has, nothing once it is overdue: max(0, deadline - now). */
  function Until(t: Timer, now: int): nat { if t.deadline > now then t.deadline - now else 0 }

  class EventLoop {
    const timerList: RilEvent
    const pendingList: RilEvent
    ghost var timers: seq<RilEvent>
    ghost var pending: seq<RilEvent>
    /** The timers whose callbacks have been called, in order. */
    ghost var fired: seq<Timer>

    ghost predicate Valid()
      reads this, timerList, pendingList, timers, pending
    {
      && Ring(timerList, timers) && Ring(pendingList, pending)
      && timerList != pendingList
      && timerList !in pending && pendingList !in timers
      && Nodes(timers) !! Nodes(pending)
      && forall i :: 0 <= i < |timers| ==> timers[i].timeout.Normal()
    }

    ghost function Timers(): seq<Timer> reads this, timers { View(timers) }

    ghost function Pending(): seq<Timer> reads this, pending { View(pending) }

    /** ril_event_init */
    constructor ()
      ensures Valid() && timers == [] && pending == [] && fired == []
      ensures fresh(timerList) && fresh(pendingList)
    {
      timerList := new RilEvent(0);
      pendingList := new RilEvent(0);
      timers, pending, fired := [], [], [];
      new;
      InitList(timerList);
      InitList(pendingList);
    }

    ghost predicate Unlinked(ev: RilEvent)
      reads this
    {
      ev != timerList && ev != pendingList && ev !in timers && ev !in pending
    }

    /** ril_timer_add at time now; without a time it does nothing. */
    method TimerAdd(ev: RilEvent, tv: Option<TimeVal>, now: TimeVal)
      requires Valid() && Unlinked(ev)
      requires now.Normal() && (tv.Some? ==> tv.value.Normal())
      modifies this`timers, ev, timerList`next, timerList`prev, Nodes(timers)`next, Nodes(timers)`prev
      ensures Valid() && Pending() == old(Pending())
      ensures tv.None? ==> timers == old(timers) && Timers() == old(Timers())
      ensures tv.Some? ==> Nodes(timers) == Nodes(old(timers)) + {ev}
      ensures tv.Some? ==> Timers() == Insert(old(Timers()), Timer(ev.id, now.Micros() + tv.value.Micros()))
    {
      hide Valid, View, Nodes, Before, Unlinked, Node;
      if tv.Some? {
        SetTimeout(ev, tv.value, now);
        var list, k := FindPlace(ev);
        Link(ev, list, k);
      }
    }

    method SetTimeout(ev: RilEvent, tv: TimeVal, now: TimeVal)
      requires Valid() && Unlinked(ev) && now.Normal() && tv.Normal()
      modifies ev`fd, ev`timeout
      ensures Valid() && Timers() == old(Timers()) && Pending() == old(Pending()) && ev.timeout.Normal()
      ensures ev.timeout.Micros() == now.Micros() + tv.Micros()
    {
      ev.fd := -1;
      Arithmetic(now, tv);
      ev.timeout := Add(now, tv);
    }

    /** addToList in front of element k. */
    method Link(ev: RilEvent, list: RilEvent, ghost k: nat)
      requires Valid() && Unlinked(ev) && ev.timeout.Normal() && k <= |timers| && list == Node(timerList, timers, k + 1)
      modifies this`timers, ev`next, ev`prev, timerList`next, timerList`prev, Nodes(timers)`next, Nodes(timers)`prev
      ensures Valid() && Nodes(timers) == Nodes(old(timers)) + {ev} && Pending() == old(Pending())
      ensures Timers() == old(Timers())[..k] + [ViewOf(ev)] + old(Timers())[k..]
    {
      hide Ring, Distinct;
      AddToList(ev, list, timerList, timers, k);
      timers := timers[..k] + [ev] + timers[k..];
    }

    /** Walks past the timers that are due before ev. */
    method FindPlace(ev: RilEvent) returns (list: RilEvent, ghost k: nat)
      requires Valid() && Unlinked(ev) && ev.timeout.Normal()
      ensures k == Before(Timers(), ev.timeout.Micros()) && k <= |timers| && list == Node(timerList, timers, k + 1)
    {
      hide Ring;
      RingLink(timerList, timers, 0);
      RingDistinct(timerList, timers);
      list := timerList.next;
      k := 0;
      while list != timerList && Less(list.timeout, ev.timeout)
        invariant k <= |timers| && list == Node(timerList, timers, k + 1)
        invariant forall i :: 0 <= i < k ==> timers[i].timeout.Micros() < ev.timeout.Micros()
        decreases |timers| - k
      {
        Arithmetic(list.timeout, ev.timeout);
        RingLink(timerList, timers, k + 1);
        list := list.next;
        k := k + 1;
      }
      if list != timerList { Arithmetic(list.timeout, ev.timeout); }
      BeforeUnique(Timers(), ev.timeout.Micros(), k);
    }

    /** processTimeouts at time now: moves the due timers, in order, to the end of the pending list. */
    method ProcessTimeouts(now: TimeVal)
      requires Valid() && now.Normal()
      modifies this`timers, this`pending, timerList`next, timerList`prev, pendingList`next, pendingList`prev
      modifies Nodes(timers)`next, Nodes(timers)`prev, Nodes(pending)`next, Nodes(pending)`prev
      ensures Valid()
      ensures Timers() == old(Timers())[Before(old(Timers()), now.Micros())..]
      ensures Pending() == old(Pending()) + old(Timers())[..Before(old(Timers()), now.Micros())]
      ensures Nodes(timers) <= Nodes(old(timers)) && Nodes(pending) <= Nodes(old(timers)) + Nodes(old(pending))
    {
      hide Valid, View, Nodes, Before, Less, Moved;
      var tev := First();
      ghost var was, ahead, k := Timers(), Pending(), 0;
      ghost var all, rest := timers, pending;
      NoneMoved(was, ahead, now.Micros());
      while tev != timerList && Less(tev.timeout, now)
        invariant Valid() && tev == Node(timerList, timers, 1)
        invariant k <= |was| && Moved(was, ahead, now.Micros(), k, Timers(), Pending())
        invariant Nodes(timers) <= Nodes(all) && Nodes(pending) <= Nodes(all) + Nodes(rest)
        decreases |was| - k
      {
        DueFirst(now);
        OneMoved(was, ahead, now.Micros(), k, Timers(), Pending());
        tev := MoveFirst(tev);
        k := k + 1;
      }
      DueFirst(now);
      AllMoved(was, ahead, now.Micros(), k, Timers(), Pending());
    }

    /** timer_list.next */
    method First() returns (tev: RilEvent)
      requires Valid()
      ensures tev == Node(timerList, timers, 1) && |Timers()| == |timers|
    {
      RingLink(timerList, timers, 0);
      tev := timerList.next;
    }

    lemma DueFirst(now: TimeVal)
      requires Valid() && now.Normal()
      ensures timers == [] <==> Node(timerList, timers, 1) == timerList
      ensures |Timers()| == |timers|
      ensures timers != [] ==> Node(timerList, timers, 1) == timers[0]
      ensures timers != [] ==> (Less(timers[0].timeout, now) <==> Timers()[0].deadline < now.Micros())
    {
      if timers != [] { Arithmetic(timers[0].timeout, now); }
    }

    /** One turn of the loop: the first timer leaves its ring for the pending one. */
    method MoveFirst(tev: RilEvent) returns (next: RilEvent)
      requires Valid() && timers != [] && tev == timers[0]
      modifies this`timers, this`pending, timerList`next, timerList`prev, pendingList`next, pendingList`prev
      modifies Nodes(timers)`next, Nodes(timers)`prev, Nodes(pending)`next, Nodes(pending)`prev
      ensures Valid()
      ensures timers == old(timers)[1..] && pending == old(pending) + [tev]
      ensures next == Node(timerList, timers, 1)
      ensures Timers() == old(Timers())[1..] && Pending() == old(Pending()) + [old(Timers())[0]]
      ensures Nodes(timers) <= Nodes(old(timers)) && Nodes(pending) <= Nodes(old(pending)) + Nodes(old(timers))
    {
      hide Valid, View, Nodes;
      next := Unlink(tev);
      Append(tev);
    }

    method Unlink(tev: RilEvent) returns (next: RilEvent)
      requires Valid() && timers != [] && tev == timers[0]
      modifies this`timers, timerList`next, timerList`prev, Nodes(timers)`next, Nodes(timers)`prev
      ensures Valid() && Unlinked(tev) && tev.timeout.Normal() && tev in Nodes(old(timers))
      ensures timers == old(timers)[1..] && next == Node(timerList, timers, 1)
      ensures Timers() == old(Timers())[1..] && ViewOf(tev) == old(Timers())[0] && Pending() == old(Pending())
      ensures Nodes(timers) <= Nodes(old(timers))
    {
      hide Ring, Distinct;
      RingDistinct(timerList, timers);
      HeadApart(timerList, timers);
      hide Nodes;
      RingLink(timerList, timers, 1);
      next := tev.next;
      RemoveFromList(tev, timerList, timers, 0);
      assert timers[..0] + timers[1..] == timers[1..];
      timers := timers[1..];
    }

    lemma HeadApart(list: RilEvent, s: seq<RilEvent>)
      requires Distinct(list, s) && s != []
      ensures s[0] !in s[1..] && s[0] in Nodes(s) && Nodes(s[1..]) <= Nodes(s)
      ensures forall e :: e in s ==> e in Nodes(s)
    {}

    /** addToList at the end of the pending list. */
    method Append(ev: RilEvent)
      requires Valid() && Unlinked(ev)
      modifies this`pending, ev`next, ev`prev, pendingList`next, pendingList`prev
      modifies Nodes(pending)`next, Nodes(pending)`prev
      ensures Valid() && pending == old(pending) + [ev]
      ensures Pending() == old(Pending()) + [ViewOf(ev)] && Timers() == old(Timers())
      ensures Nodes(pending) == Nodes(old(pending)) + {ev}
    {
      hide Ring, Distinct;
      AddToList(ev, pendingList, pendingList, pending, |pending|);
      assert pending[..|pending|] + [ev] + pending[|pending|..] == pending + [ev];
      pending := pending + [ev];
    }

    /** calcNextTimeout at time now: how long until the first deadline, or none when no timer is queued. */
    method CalcNextTimeout(now: TimeVal) returns (tv: Option<TimeVal>)
      requires Valid() && Sorted(Timers()) && now.Normal()
      ensures tv.None? <==> timers == []
      ensures tv.Some? ==> tv.value.Normal()
      ensures tv.Some? ==> exists i :: 0 <= i < |timers| && tv.value.Micros() == Until(Timers()[i], now.Micros())
      ensures tv.Some? ==> forall i :: 0 <= i < |timers| ==> tv.value.Micros() <= Until(Timers()[i], now.Micros())
    {
      var tev := timerList.next;
      RingLink(timerList, timers, 0);
      if tev == timerList { return None; }
      Arithmetic(now, tev.timeout);
      Arithmetic(tev.timeout, now);
      assert Timers()[0] == ViewOf(tev);
      if Less(now, tev.timeout) {
        tv := Some(Sub(tev.timeout, now));
      } else {
        tv := Some(TimeVal(0, 0));
      }
      assert tv.value.Micros() == Until(Timers()[0], now.Micros());
    }

    /** Takes the first pending event out of its ring; next is where the loop goes on. */
    method UnlinkPending(ev: RilEvent) returns (next: RilEvent)
      requires Valid() && pending != [] && ev == pending[0]
      modifies pendingList`next, pendingList`prev, Nodes(pending)`next, Nodes(pending)`prev
      ensures Ring(pendingList, pending[1..]) && Ring(timerList, timers)
      ensures next == Node(pendingList, pending[1..], 1)
    {
      hide Ring, Distinct, View;
      RingDistinct(pendingList, pending);
      HeadApart(pendingList, pending);
      RingLink(pendingList, pending, 1);
      next := ev.next;
      RemoveFromList(ev, pendingList, pending, 0);
      assert pending[..0] + pending[1..] == pending[1..];
    }

    method TakePending(ev: RilEvent) returns (next: RilEvent)
      requires Valid() && pending != [] && ev == pending[0]
      modifies this`pending, pendingList`next, pendingList`prev, Nodes(pending)`next, Nodes(pending)`prev
      ensures Valid() && pending == old(pending)[1..] && Pending() == old(Pending())[1..]
      ensures ViewOf(ev) == old(Pending())[0] && Timers() == old(Timers())
      ensures next == Node(pendingList, pending, 1) && Nodes(pending) <= Nodes(old(pending))
    {
      hide Ring;
      next := UnlinkPending(ev);
      pending := pending[1..];
    }

    /** The callback of a fired timer: it may itself add a timer. */
    method Callback(ghost t: Timer, arm: Arm)
      requires Valid() && (arm.Arm? ==> Unlinked(arm.ev) && arm.tv.Normal() && arm.now.Normal())
      modifies this`timers, this`fired, timerList`next, timerList`prev, Nodes(timers)`next, Nodes(timers)`prev
      modifies if arm.Arm? then {arm.ev} else {}
      ensures Valid() && fired == old(fired) + [t]
      ensures Timers() == AfterArm(old(Timers()), View1(arm))
      ensures Pending() == old(Pending())
      ensures Nodes(timers) <= Nodes(old(timers)) + (if arm.Arm? then {arm.ev} else {})
    {
      hide Valid, View, Nodes, Ring;
      Record(t);
      if arm.Arm? { TimerAdd(arm.ev, Some(arm.tv), arm.now); }
    }

    ghost method Record(t: Timer)
      requires Valid()
      modifies this`fired
      ensures Valid() && Timers() == old(Timers()) && Pending() == old(Pending()) && fired == old(fired) + [t]
    {
      hide View, Nodes, Ring;
      fired := fired + [t];
    }

    /** The timers that the callbacks will add from the i-th on are distinct and linked nowhere. */
    ghost predicate ArmsFrom(arms: seq<Arm>, i: nat, t: seq<RilEvent>, p: seq<RilEvent>)
    {
      && (forall j :: i <= j < |arms| && arms[j].Arm? ==> ArmApart(arms[j], t, p))
      && (forall j, k :: i <= j < k < |arms| && arms[j].Arm? && arms[k].Arm? ==> arms[j].ev != arms[k].ev)
    }

    ghost predicate ArmApart(arm: Arm, t: seq<RilEvent>, p: seq<RilEvent>)
    {
      arm.Arm? ==>
        && arm.ev != timerList && arm.ev != pendingList && arm.ev !in t && arm.ev !in p
        && arm.tv.Normal() && arm.now.Normal()
    }

    lemma NextArms(arms: seq<Arm>, i: nat, t: seq<RilEvent>, p: seq<RilEvent>, t': seq<RilEvent>, p': seq<RilEvent>)
      requires i < |arms| && ArmsFrom(arms, i, t, p)
      requires Nodes(t') <= Nodes(t) + (if arms[i].Arm? then {arms[i].ev} else {})
      requires Nodes(p') <= Nodes(p)
      ensures ArmsFrom(arms, i + 1, t', p')
    {
      assert forall e :: (e in t' ==> e in Nodes(t')) && (e in p' ==> e in Nodes(p'));
      forall j | i + 1 <= j < |arms| && arms[j].Arm? ensures ArmApart(arms[j], t', p') {
        assert ArmApart(arms[j], t, p);
      }
    }

    lemma FirstPending()
      requires Valid()
      ensures pending == [] <==> Node(pendingList, pending, 1) == pendingList
      ensures pending != [] ==> Node(pendingList, pending, 1) == pending[0]
      ensures pendingList.next == Node(pendingList, pending, 1) && |Pending()| == |pending|
    {
      RingLink(pendingList, pending, 0);
    }

    /**
     * firePending: takes each pending event off its list, having looked up its successor, and calls its
     * callback. arms[i] is the timer that the i-th callback adds, if any.
     */
    method FirePending(arms: seq<Arm>)
      requires Valid() && |arms| == |pending| && ArmsFrom(arms, 0, timers, pending)
      modifies this`timers, this`pending, this`fired, timerList`next, timerList`prev, pendingList`next, pendingList`prev
      modifies Nodes(timers)`next, Nodes(timers)`prev, Nodes(pending)`next, Nodes(pending)`prev, ArmEvents(arms)
      ensures Valid() && pending == []
      ensures fired == old(fired) + old(Pending())
      ensures Timers() == ArmAll(old(Timers()), arms, |arms|)
    {
      hide Valid, View, Nodes, ArmsFrom, ArmEvents, ArmAll, AfterArm;
      ghost var was, before, begin := Pending(), fired, Timers();
      ghost var t0, p0 := Nodes(timers), Nodes(pending);
      FirstPending();
      var ev := pendingList.next;
      var i := 0;
      NoArms(begin, arms);
      while ev != pendingList
        invariant Valid() && ev == Node(pendingList, pending, 1)
        invariant i <= |arms| == |was| && |pending| == |arms| - i
        invariant Pending() == was[i..] && fired == before + was[..i]
        invariant Timers() == ArmAll(begin, arms, i)
        invariant ArmsFrom(arms, i, timers, pending)
        invariant Nodes(timers) <= t0 + ArmEvents(arms) && Nodes(pending) <= p0
        decreases |arms| - i
      {
        FirstPending();
        ev := FireOne(ev, arms, i, was[i]);
        OneFired(before, was, begin, arms, i);
        i := i + 1;
      }
      FirstPending();
    }

    lemma NoArms(begin: seq<Timer>, arms: seq<Arm>)
      ensures ArmAll(begin, arms, 0) == begin
    {}

    lemma OneFired(before: seq<Timer>, was: seq<Timer>, begin: seq<Timer>, arms: seq<Arm>, i: nat)
      requires i < |was| == |arms|
      ensures was[i..][1..] == was[i + 1..] && before + was[..i] + [was[i]] == before + was[..i + 1]
      ensures AfterArm(ArmAll(begin, arms, i), View1(arms[i])) == ArmAll(begin, arms, i + 1)
    {}

    lemma ThisArm(arms: seq<Arm>, i: nat, t: seq<RilEvent>, p: seq<RilEvent>)
      requires i < |arms| && ArmsFrom(arms, i, t, p)
      ensures arms[i].Arm? ==> ArmApart(arms[i], t, p) && arms[i].ev in ArmEvents(arms)
    {}

    /** One turn of the loop. */
    method FireOne(ev: RilEvent, arms: seq<Arm>, i: nat, ghost t: Timer) returns (next: RilEvent)
      requires Valid() && pending != [] && ev == pending[0] && t == Pending()[0]
      requires i < |arms| && ArmsFrom(arms, i, timers, pending)
      modifies this`timers, this`pending, this`fired, timerList`next, timerList`prev, pendingList`next, pendingList`prev
      modifies Nodes(timers)`next, Nodes(timers)`prev, Nodes(pending)`next, Nodes(pending)`prev, ArmEvents(arms)
      ensures Valid() && next == Node(pendingList, pending, 1) && pending == old(pending)[1..]
      ensures Pending() == old(Pending())[1..] && fired == old(fired) + [t]
      ensures Timers() == AfterArm(old(Timers()), View1(arms[i]))
      ensures ArmsFrom(arms, i + 1, timers, pending)
      ensures Nodes(timers) <= Nodes(old(timers)) + ArmEvents(arms) && Nodes(pending) <= Nodes(old(pending))
    {
      hide Valid, View, Nodes, ArmsFrom, ArmEvents, AfterArm;
      ThisArm(arms, i, timers, pending);
      next := TakePending(ev);
      Callback(t, arms[i]);
      NextArms(arms, i, old(timers), old(pending), timers, pending);
    }
  }
}
