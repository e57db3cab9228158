/**
 * Resetting the callbacks of a dead client: interleaved threads over the slots' reader/writer locks, with a
 * counter that tells a thread whether the callbacks were replaced while it held no lock.
 */
module RilCallbacks {
  import opened Options

  /** The radio service and the OEM hook service of a slot have callbacks and a counter each. */
  datatype Kind = Radio | OemHook

  datatype Service = Service(slot: nat, kind: Kind)

  /** The callback pointers; each holds the registration that it came with. */
  datatype Fields = Fields(response: Option<nat>, indication: Option<nat>,
                           response11: Option<nat>, indication11: Option<nat>)

  const EMPTY := Fields(None, None, None, None)

  /** Which pointers a client registers, and which of them also speak the 1.1 interface. */
  datatype Client = Client(response: bool, indication: bool, response11: bool, indication11: bool)

  function Only(b: bool, g: nat): Option<nat> { if b then Some(g) else None }

  /** The 1.1 pointers are kept only as a pair. */
  function Installed(kind: Kind, c: Client, g: nat): Fields
  {
    var both := kind == Radio && c.response && c.indication && c.response11 && c.indication11;
    Fields(Only(c.response, g), Only(c.indication, g), Only(both, g), Only(both, g))
  }

  /**
   * What a client that registered finds: each pointer that it gave, of the 1.1 interface only for the radio
   * service and only if it gave both pointers and both of them speak it.
   */
  predicate Serves(f: Fields, kind: Kind, c: Client, g: nat)
  {
    && f.response == (if c.response then Some(g) else None)
    && f.indication == (if c.indication then Some(g) else None)
    && f.response11 == f.indication11
    && (if kind.Radio? && c.response && c.indication && c.response11 && c.indication11 then f.response11 == Some(g)
        else f.response11 == None)
  }

  /** The callbacks and the counter of one service, as the reset and the registration change them. */
  datatype Slot = Slot(fields: Fields, counter: nat)

  function Reset(s: Slot, counter: nat): Slot
  {
    if s.counter == counter then Slot(EMPTY, s.counter + 1) else s
  }

  function Register(s: Slot, kind: Kind, c: Client, g: nat): Slot
  {
    Slot(Installed(kind, c, g), s.counter + 1)
  }

  /** The members of a service object that these functions touch, under the write lock. */
  class ServiceImpl {
    const kind: Kind
    var mResponse: Option<nat>
    var mIndication: Option<nat>
    var mResponseV1_1: Option<nat>
    var mIndicationV1_1: Option<nat>
    var mCounter: nat

    constructor (kind: Kind)
      ensures this.kind == kind && View() == Slot(EMPTY, 0)
    {
      this.kind := kind;
      mResponse, mIndication, mResponseV1_1, mIndicationV1_1, mCounter := None, None, None, None, 0;
    }

    function View(): Slot
      reads this
    {
      Slot(Fields(mResponse, mIndication, mResponseV1_1, mIndicationV1_1), mCounter)
    }

    /** The middle of checkReturnStatus, with the counter noted before the lock was dropped. */
    method ResetIfUnchanged(counter: nat)
      requires kind == OemHook ==> mResponseV1_1 == None && mIndicationV1_1 == None
      modifies this
      ensures View() == Reset(old(View()), counter)
    {
      if counter == mCounter {
        if kind == Radio {
          mResponse := None;
          mIndication := None;
          mResponseV1_1 := None;
          mIndicationV1_1 := None;
        } else {
          mResponse := None;
          mIndication := None;
        }
        mCounter := mCounter + 1;
      }
    }

    /** setResponseFunctions; g names the registration, c says what the client gave and what can be cast. */
    method SetResponseFunctions(c: Client, g: nat)
      requires kind == OemHook ==> mResponseV1_1 == None && mIndicationV1_1 == None
      modifies this
      ensures View() == Register(old(View()), kind, c, g)
    {
      mResponse := Only(c.response, g);
      mIndication := Only(c.indication, g);
      if kind == Radio {
        mResponseV1_1 := Only(c.response && c.response11, g);
        mIndicationV1_1 := Only(c.indication && c.indication11, g);
        if mResponseV1_1 == None || mIndicationV1_1 == None {
          mResponseV1_1 := None;
          mIndicationV1_1 := None;
        }
      }
      mCounter := mCounter + 1;
    }
  }

  /**
   * getRadioServiceRwlock: slots 2, 3 and 4 have locks of their own when the SIM count reaches them;
   * every other slot shares the first lock.
   */
  function LockOf(sims: nat, slot: nat): (l: nat)
    ensures l in {1, 2, 3, 4}
  {
    if sims >= 4 && slot == 4 then 4
    else if sims >= 3 && slot == 3 then 3
    else if sims >= 2 && slot == 2 then 2
    else 1
  }

  /** Whether a slot number gets a lock of its own. */
  predicate OwnLock(sims: nat, slot: nat) { 2 <= slot <= sims && slot <= 4 }

  /** Two slots share a lock exactly if neither has its own: slots are numbered from 0, so 0 and 1 always do. */
  lemma LockShared(sims: nat, a: nat, b: nat)
    ensures LockOf(sims, a) == LockOf(sims, b) <==> a == b || (!OwnLock(sims, a) && !OwnLock(sims, b))
  {}

  /**
   * Where a thread is. Inside holds the slot's lock, for reading, or for writing around a NITZ
   * indication; then come the points of checkReturnStatus; the last two are setResponseFunctions.
   * In checkReturnStatus held says how the caller held the lock, if it did, g is the registration whose call
   * failed and c0 the counter at that call; c is the counter that was noted.
   */
  datatype Pc =
    | Outside
    | Inside(slot: nat, write: bool)
    | Failed(svc: Service, held: Option<bool>, g: nat, c0: nat)
    | Noted(svc: Service, held: Option<bool>, g: nat, c0: nat, c: nat)
    | Dropped(svc: Service, held: Option<bool>, g: nat, c0: nat, c: nat)
    | Excluding(svc: Service, held: Option<bool>, g: nat, c0: nat, c: nat)
    | Checked(svc: Service, held: Option<bool>, g: nat)
    | Returning(svc: Service, held: Option<bool>, g: nat)
    | Registering(svc: Service)
    | Registered(svc: Service)

  function HeldAt(svc: Service, held: Option<bool>): Option<(nat, bool)>
  {
    if held.Some? then Some((svc.slot, held.value)) else None
  }

  /** The slot whose lock the thread holds, and how. */
  function Holds(pc: Pc): Option<(nat, bool)>
  {
    match pc
    case Outside => None
    case Inside(slot, write) => Some((slot, write))
    case Failed(svc, held, _, _) => HeldAt(svc, held)
    case Noted(svc, held, _, _, _) => HeldAt(svc, held)
    case Dropped(_, _, _, _, _) => None
    case Excluding(svc, _, _, _, _) => Some((svc.slot, true))
    case Checked(svc, _, _) => Some((svc.slot, true))
    case Returning(_, _, _) => None
    case Registering(svc) => Some((svc.slot, true))
    case Registered(svc) => Some((svc.slot, true))
  }

  /**
   * kept are the locks that threads went on holding for reading after checkReturnStatus, although they came
   * without one; reg is the registration now in force, next the first unused one, cleared what was reset, in
   * order.
   */
  datatype State = State(
    threads: map<nat, Pc>, kept: set<(nat, nat)>, slots: map<Service, Slot>, reg: map<Service, Option<nat>>,
    next: nat, cleared: seq<(Service, nat)>)

  /** A call fails at the callback it has read: of the slot whose lock the thread holds, or of any without one. */
  datatype Step =
    | Enter(slot: nat, write: bool)
    | CallOk
    | CallFails(svc: Service, which: nat)
    | Note
    | Drop
    | Exclude
    | Check
    | DropWrite
    | Reacquire
    | Leave
    | StartRegister(svc: Service)
    | Install(client: Client)
    | EndRegister

  function Pointer(f: Fields, which: nat): Option<nat>
  {
    if which == 0 then f.response else if which == 1 then f.indication else if which == 2 then f.response11
    else f.indication11
  }

  /** Whether no other thread stands in the way of taking lock l. */
  predicate Free(sims: nat, s: State, l: nat, write: bool)
  {
    && (forall t :: t in s.threads ==> var h := Holds(s.threads[t]);
         h.Some? && LockOf(sims, h.value.0) == l ==> !write && !h.value.1)
    && (write ==> forall k :: k in s.kept ==> k.1 != l)
  }

  predicate Enabled(sims: nat, s: State, t: nat, step: Step)
  {
    t in s.threads && var pc := s.threads[t];
    match step
    case Enter(slot, write) => pc == Outside && Free(sims, s, LockOf(sims, slot), write)
    case CallOk => pc.Inside? || pc == Outside
    case CallFails(svc, which) =>
      && (pc == Outside || (pc.Inside? && pc.slot == svc.slot))
      && svc in s.slots && Pointer(s.slots[svc].fields, which).Some?
    case Note => pc.Failed? && pc.svc in s.slots
    case Drop => pc.Noted?
    case Exclude => pc.Dropped? && Free(sims, s, LockOf(sims, pc.svc.slot), true)
    case Check => pc.Excluding? && pc.svc in s.slots && pc.svc in s.reg
    case DropWrite => pc.Checked?
    case Reacquire => pc.Returning? && Free(sims, s, LockOf(sims, pc.svc.slot), false)
    case Leave => pc.Inside?
    case StartRegister(svc) => pc == Outside && svc in s.slots && Free(sims, s, LockOf(sims, svc.slot), true)
    case Install(client) => pc.Registering? && pc.svc in s.slots
    case EndRegister => pc.Registered?
  }

  /**
   * The unlock of a thread that came without a lock gives up the one it kept from an earlier time, and has no
   * effect if there is none. Its last step takes a read lock all the same, and nothing releases that.
   */
  function Next(sims: nat, s: State, t: nat, step: Step): State
    requires Enabled(sims, s, t, step)
  {
    var pc := s.threads[t];
    match step
    case Enter(slot, write) => s.(threads := s.threads[t := Inside(slot, write)])
    case CallOk => s
    case CallFails(svc, which) =>
      var held := if pc.Inside? then Some(pc.write) else None;
      var g := Pointer(s.slots[svc].fields, which).value;
      s.(threads := s.threads[t := Failed(svc, held, g, s.slots[svc].counter)])
    case Note => s.(threads := s.threads[t := Noted(pc.svc, pc.held, pc.g, pc.c0, s.slots[pc.svc].counter)])
    case Drop =>
      s.(threads := s.threads[t := Dropped(pc.svc, pc.held, pc.g, pc.c0, pc.c)],
         kept := if pc.held.Some? then s.kept else s.kept - {(t, LockOf(sims, pc.svc.slot))})
    case Exclude => s.(threads := s.threads[t := Excluding(pc.svc, pc.held, pc.g, pc.c0, pc.c)])
    case Check =>
      var r := s.(threads := s.threads[t := Checked(pc.svc, pc.held, pc.g)],
                  slots := s.slots[pc.svc := Reset(s.slots[pc.svc], pc.c)]);
      if s.slots[pc.svc].counter != pc.c then r
      else r.(reg := s.reg[pc.svc := None],
              cleared := if s.reg[pc.svc].Some? then s.cleared + [(pc.svc, s.reg[pc.svc].value)] else s.cleared)
    case DropWrite => s.(threads := s.threads[t := Returning(pc.svc, pc.held, pc.g)])
    case Reacquire =>
      if pc.held.Some? then s.(threads := s.threads[t := Inside(pc.svc.slot, false)])
      else s.(threads := s.threads[t := Outside], kept := s.kept + {(t, LockOf(sims, pc.svc.slot))})
    case Leave => s.(threads := s.threads[t := Outside])
    case StartRegister(svc) => s.(threads := s.threads[t := Registering(svc)])
    case Install(client) =>
      s.(threads := s.threads[t := Registered(pc.svc)],
         slots := s.slots[pc.svc := Register(s.slots[pc.svc], pc.svc.kind, client, s.next)],
         reg := s.reg[pc.svc := Some(s.next)], next := s.next + 1)
    case EndRegister => s.(threads := s.threads[t := Outside])
  }

  /** No thread holds a lock that another holds for writing. */
  ghost predicate Exclusion(sims: nat, s: State)
  {
    forall t, u {:trigger s.threads[t], s.threads[u]} ::
      t in s.threads && u in s.threads && t != u ==> !Clash(sims, Holds(s.threads[t]), Holds(s.threads[u]))
  }

  /** Nor one that a thread kept. */
  ghost predicate KeptShared(sims: nat, s: State)
  {
    forall t, k {:trigger s.threads[t], k in s.kept} ::
      t in s.threads && k in s.kept ==> !Writes(sims, Holds(s.threads[t]), k.1)
  }

  predicate Writes(sims: nat, h: Option<(nat, bool)>, l: nat)
  {
    h.Some? && LockOf(sims, h.value.0) == l && h.value.1
  }

  predicate Clash(sims: nat, h: Option<(nat, bool)>, k: Option<(nat, bool)>)
  {
    h.Some? && k.Some? && LockOf(sims, h.value.0) == LockOf(sims, k.value.0) && (h.value.1 || k.value.1)
  }

  predicate From(f: Option<nat>, reg: Option<nat>) { f.Some? ==> f == reg }

  /** The callbacks of a service all belong to the registration in force. */
  predicate Whole(f: Fields, reg: Option<nat>)
  {
    From(f.response, reg) && From(f.indication, reg) && From(f.response11, reg) && From(f.indication11, reg)
    && (f.response11.Some? <==> f.indication11.Some?)
  }

  /** What a thread that saw a call fail may rely on, at each of its points. */
  predicate Knows(s: State, pc: Pc)
  {
    match pc
    case Failed(svc, held, g, c0) => Outdated(s, svc, g, c0) && (held.Some? ==> s.slots[svc].counter == c0)
    case Noted(svc, held, g, c0, c) =>
      Since(s, svc, g, c0, c) && (held.Some? ==> c == c0 == s.slots[svc].counter)
    case Dropped(svc, held, g, c0, c) => Since(s, svc, g, c0, c) && (held.Some? ==> c == c0)
    case Excluding(svc, held, g, c0, c) => Since(s, svc, g, c0, c) && (held.Some? ==> c == c0)
    case Checked(svc, _, g) => svc in s.reg && s.reg[svc] != Some(g) && g < s.next
    case Returning(svc, _, g) => svc in s.reg && s.reg[svc] != Some(g) && g < s.next
    case _ => true
  }

  /** Registration g is in force exactly as long as the counter is what it was. */
  predicate Outdated(s: State, svc: Service, g: nat, c0: nat)
  {
    && svc in s.reg && svc in s.slots && g < s.next
    && c0 <= s.slots[svc].counter
    && (s.slots[svc].counter == c0 <==> s.reg[svc] == Some(g))
  }

  predicate Since(s: State, svc: Service, g: nat, c0: nat, c: nat)
  {
    Outdated(s, svc, g, c0) && c0 <= c <= s.slots[svc].counter
  }

  ghost predicate Services(s: State) { FieldsOk(s) && NamesOk(s) }

  ghost predicate FieldsOk(s: State)
  {
    s.slots.Keys == s.reg.Keys && forall svc :: svc in s.slots ==> Whole(s.slots[svc].fields, s.reg[svc])
  }

  /** Registrations are used once: those in force differ from each other and from those cleared. */
  ghost predicate NamesOk(s: State)
  {
    && (forall svc :: svc in s.reg && s.reg[svc].Some? ==> s.reg[svc].value < s.next)
    && (forall i :: 0 <= i < |s.cleared| ==> s.cleared[i].1 < s.next)
    && (forall svc, i :: svc in s.reg && 0 <= i < |s.cleared| ==> s.reg[svc] != Some(s.cleared[i].1))
    && (forall svc, other :: svc in s.reg && other in s.reg && svc != other && s.reg[svc].Some? ==>
         s.reg[svc] != s.reg[other])
    && (forall i, j :: 0 <= i < j < |s.cleared| ==> s.cleared[i].1 != s.cleared[j].1)
  }

  ghost predicate Inv(sims: nat, s: State)
  {
    && Exclusion(sims, s) && KeptShared(sims, s) && Services(s)
    && forall t :: t in s.threads ==> Knows(s, s.threads[t])
  }

  /** Steps that take a lock. */
  predicate Takes(step: Step) { step.Enter? || step.Exclude? || step.Reacquire? || step.StartRegister? }

  /** Any other step keeps the lock it finds, or gives it up. */
  lemma LockOnlyTaken(sims: nat, s: State, t: nat, step: Step)
    requires Enabled(sims, s, t, step)
    ensures Next(sims, s, t, step).threads.Keys == s.threads.Keys
    ensures forall u :: u in s.threads && u != t ==> Next(sims, s, t, step).threads[u] == s.threads[u]
    ensures !Takes(step) ==>
      || Holds(Next(sims, s, t, step).threads[t]) == Holds(s.threads[t])
      || Holds(Next(sims, s, t, step).threads[t]) == None
    ensures Takes(step) && Holds(Next(sims, s, t, step).threads[t]).Some? ==>
      var h := Holds(Next(sims, s, t, step).threads[t]).value; Free(sims, s, LockOf(sims, h.0), h.1)
  {
    hide Free, LockOf;
  }

  lemma ExclusionStep(sims: nat, s: State, t: nat, step: Step)
    requires Exclusion(sims, s) && Enabled(sims, s, t, step)
    ensures Exclusion(sims, Next(sims, s, t, step))
  {
    LockOnlyTaken(sims, s, t, step);
    hide Next, Enabled, LockOf, Holds;
    var r := Next(sims, s, t, step);
    forall u | u in r.threads && u != t
      ensures !Clash(sims, Holds(r.threads[t]), Holds(r.threads[u]))
      ensures !Clash(sims, Holds(r.threads[u]), Holds(r.threads[t]))
    {
      assert !Clash(sims, Holds(s.threads[t]), Holds(s.threads[u]));
    }
    forall u, v | u in r.threads && v in r.threads && u != v
      ensures !Clash(sims, Holds(r.threads[u]), Holds(r.threads[v]))
    {
      if u != t && v != t { assert !Clash(sims, Holds(s.threads[u]), Holds(s.threads[v])); }
    }
  }

  /** A thread comes to keep a lock only where none is held for writing. */
  lemma KeptOnlyTaken(sims: nat, s: State, t: nat, step: Step)
    requires Enabled(sims, s, t, step)
    ensures forall k :: k in Next(sims, s, t, step).kept && k !in s.kept ==>
      Takes(step) && k.0 == t && Free(sims, s, k.1, false) && Holds(Next(sims, s, t, step).threads[t]) == None
  {}

  lemma KeptSharedStep(sims: nat, s: State, t: nat, step: Step)
    requires KeptShared(sims, s) && Enabled(sims, s, t, step)
    ensures KeptShared(sims, Next(sims, s, t, step))
  {
    LockOnlyTaken(sims, s, t, step);
    KeptOnlyTaken(sims, s, t, step);
    hide Next, Enabled, LockOf, Holds;
    var r := Next(sims, s, t, step);
    forall u, k | u in r.threads && k in r.kept ensures !Writes(sims, Holds(r.threads[u]), k.1) {
      if k in s.kept { assert !Writes(sims, Holds(s.threads[u]), k.1); }
    }
  }

  /** From s to r the service svc gets new callbacks x of registration g, which is none or a new one. */
  ghost predicate Replaced(s: State, r: State, svc: Service, x: Slot, g: Option<nat>)
  {
    && svc in s.slots && svc in s.reg && r.slots == s.slots[svc := x] && r.reg == s.reg[svc := g]
    && x.counter == s.slots[svc].counter + 1 && Whole(x.fields, g)
    && ((g == None && r.next == s.next) || (g == Some(s.next) && r.next == s.next + 1))
    && (r.cleared == s.cleared
        || (g == None && s.reg[svc].Some? && r.cleared == s.cleared + [(svc, s.reg[svc].value)]))
  }

  /** A step either replaces the callbacks of the acting thread's service, or changes nothing but threads. */
  lemma StepEffect(sims: nat, s: State, t: nat, step: Step)
    requires Inv(sims, s) && Enabled(sims, s, t, step)
    ensures var r := Next(sims, s, t, step);
      || (r.slots == s.slots && r.reg == s.reg && r.next == s.next && r.cleared == s.cleared)
      || ((step.Check? || step.Install?) && s.threads[t].svc in s.slots
          && exists x, g :: Replaced(s, r, s.threads[t].svc, x, g))
  {
    hide LockOf, Free, Exclusion, Knows;
    var r := Next(sims, s, t, step);
    match step
    case Check =>
      var svc := s.threads[t].svc;
      if r.slots != s.slots { assert Replaced(s, r, svc, Slot(EMPTY, s.slots[svc].counter + 1), None); }
    case Install(client) =>
      var svc := s.threads[t].svc;
      assert Replaced(s, r, svc, Register(s.slots[svc], svc.kind, client, s.next), Some(s.next));
    case _ =>
  }

  lemma ReplacedServices(s: State, r: State, svc: Service, x: Slot, g: Option<nat>)
    requires Services(s) && Replaced(s, r, svc, x, g)
    ensures Services(r)
  {
    ReplacedFields(s, r, svc, x, g);
    ReplacedNames(s, r, svc, x, g);
  }

  lemma ReplacedFields(s: State, r: State, svc: Service, x: Slot, g: Option<nat>)
    requires FieldsOk(s) && Replaced(s, r, svc, x, g)
    ensures FieldsOk(r)
  {
    hide Whole;
  }

  lemma ReplacedNames(s: State, r: State, svc: Service, x: Slot, g: Option<nat>)
    requires NamesOk(s) && Replaced(s, r, svc, x, g)
    ensures NamesOk(r)
  {
    hide Whole;
    assert forall other :: other in s.reg && other != svc ==> r.reg[other] == s.reg[other];
    assert forall i :: 0 <= i < |s.cleared| ==> r.cleared[i] == s.cleared[i];
  }

  /** What a thread knows stays true, unless it relied on the lock that the acting thread held. */
  lemma ReplacedKnows(s: State, r: State, svc: Service, x: Slot, g: Option<nat>, pc: Pc)
    requires Services(s) && Replaced(s, r, svc, x, g) && Knows(s, pc)
    requires (pc.Failed? || pc.Noted?) && pc.held.Some? ==> pc.svc != svc
    ensures Knows(r, pc)
  {
    hide Whole;
  }

  lemma ServicesStep(sims: nat, s: State, t: nat, step: Step)
    requires Inv(sims, s) && Enabled(sims, s, t, step)
    ensures Services(Next(sims, s, t, step))
  {
    StepEffect(sims, s, t, step);
    var r := Next(sims, s, t, step);
    hide Next, Enabled, Exclusion, Knows, Replaced;
    if r.slots != s.slots || r.reg != s.reg || r.next != s.next || r.cleared != s.cleared {
      var x, g :| Replaced(s, r, s.threads[t].svc, x, g);
      ReplacedServices(s, r, s.threads[t].svc, x, g);
    }
  }

  /** A thread at a point where it holds the service's lock sees the callbacks change only by its own hand. */
  lemma Undisturbed(sims: nat, s: State, t: nat, step: Step, u: nat)
    requires Exclusion(sims, s) && Enabled(sims, s, t, step) && u in s.threads && u != t
    requires step.Check? || step.Install?
    requires (s.threads[u].Failed? || s.threads[u].Noted?) && s.threads[u].held.Some?
    ensures s.threads[t].svc != s.threads[u].svc
  {
    assert !Clash(sims, Holds(s.threads[t]), Holds(s.threads[u]));
  }

  lemma KnowsOthers(sims: nat, s: State, t: nat, step: Step, u: nat)
    requires Inv(sims, s) && Enabled(sims, s, t, step) && u in s.threads && u != t
    ensures Knows(Next(sims, s, t, step), s.threads[u])
  {
    assert Knows(s, s.threads[u]);
    StepEffect(sims, s, t, step);
    if (step.Check? || step.Install?) && (s.threads[u].Failed? || s.threads[u].Noted?) && s.threads[u].held.Some? {
      Undisturbed(sims, s, t, step, u);
    }
    var r := Next(sims, s, t, step);
    hide Next, Enabled, Exclusion, Replaced, Services;
    if r.slots != s.slots || r.reg != s.reg || r.next != s.next || r.cleared != s.cleared {
      var x, g :| Replaced(s, r, s.threads[t].svc, x, g);
      ReplacedKnows(s, r, s.threads[t].svc, x, g, s.threads[u]);
    }
  }

  lemma KnowsOwn(sims: nat, s: State, t: nat, step: Step)
    requires Inv(sims, s) && Enabled(sims, s, t, step)
    ensures Knows(Next(sims, s, t, step), NextPc(sims, s, t, step))
  {
    ThreadKnows(sims, s, t);
    hide LockOf, Free, Exclusion, Holds, Knows, Inv, NextPc, Next, Enabled;
    match step
    case CallFails(svc, which) => FailKnows(sims, s, t, svc, which);
    case Check => CheckKnows(sims, s, t);
    case Note => NoteKnows(sims, s, t);
    case _ => if Takes(step) { TakeKnows(sims, s, t, step); } else { QuietKnows(sims, s, t, step); }
  }

  lemma ThreadKnows(sims: nat, s: State, t: nat)
    requires Inv(sims, s)
    ensures Services(s) && (t in s.threads ==> Knows(s, s.threads[t]))
  {}

  /** Steps that take a lock. */
  lemma TakeKnows(sims: nat, s: State, t: nat, step: Step)
    requires Enabled(sims, s, t, step) && Knows(s, s.threads[t]) && Takes(step)
    ensures Knows(Next(sims, s, t, step), NextPc(sims, s, t, step))
  {
    hide LockOf, Free;
  }

  /** Steps after which the thread relies on nothing new. */
  lemma QuietKnows(sims: nat, s: State, t: nat, step: Step)
    requires NamesOk(s) && Enabled(sims, s, t, step) && Knows(s, s.threads[t]) && !Takes(step)
    requires !step.CallFails? && !step.Check? && !step.Note?
    ensures Knows(Next(sims, s, t, step), NextPc(sims, s, t, step))
  {
    hide LockOf, Free;
  }

  lemma FailKnows(sims: nat, s: State, t: nat, svc: Service, which: nat)
    requires Services(s) && Enabled(sims, s, t, CallFails(svc, which))
    ensures Knows(Next(sims, s, t, CallFails(svc, which)), NextPc(sims, s, t, CallFails(svc, which)))
  {
    hide LockOf, Free, Services;
    FailedCall(s, svc, which);
  }

  /** Where the acting thread is after its step. */
  function NextPc(sims: nat, s: State, t: nat, step: Step): Pc
    requires Enabled(sims, s, t, step)
  {
    Next(sims, s, t, step).threads[t]
  }

  lemma NoteKnows(sims: nat, s: State, t: nat)
    requires Services(s) && Enabled(sims, s, t, Note) && Knows(s, s.threads[t])
    ensures Knows(Next(sims, s, t, Note), NextPc(sims, s, t, Note))
  {
    hide LockOf, Free, Whole;
  }

  lemma CheckKnows(sims: nat, s: State, t: nat)
    requires Enabled(sims, s, t, Check) && Knows(s, s.threads[t])
    ensures Knows(Next(sims, s, t, Check), NextPc(sims, s, t, Check))
  {
    hide LockOf, Free;
  }

  lemma FailedCall(s: State, svc: Service, which: nat)
    requires Services(s) && svc in s.slots && Pointer(s.slots[svc].fields, which).Some?
    ensures svc in s.reg && s.reg[svc] == Pointer(s.slots[svc].fields, which) && s.reg[svc].value < s.next
  {
    assert Whole(s.slots[svc].fields, s.reg[svc]);
  }

  lemma InvStep(sims: nat, s: State, t: nat, step: Step)
    requires Inv(sims, s) && Enabled(sims, s, t, step)
    ensures Inv(sims, Next(sims, s, t, step))
  {
    ExclusionStep(sims, s, t, step);
    KeptSharedStep(sims, s, t, step);
    ServicesStep(sims, s, t, step);
    LockOnlyTaken(sims, s, t, step);
    KnowsOwn(sims, s, t, step);
    var r := Next(sims, s, t, step);
    forall u | u in r.threads ensures Knows(r, r.threads[u]) {
      if u != t { KnowsOthers(sims, s, t, step, u); }
      hide Next, Knows;
    }
  }

  /** A run: which thread takes which step. */
  predicate Runs(sims: nat, s: State, run: seq<(nat, Step)>)
    decreases |run|
  {
    run == [] || (Enabled(sims, s, run[0].0, run[0].1) && Runs(sims, Next(sims, s, run[0].0, run[0].1), run[1..]))
  }

  function End(sims: nat, s: State, run: seq<(nat, Step)>): State
    requires Runs(sims, s, run)
    decreases |run|
  {
    if run == [] then s else End(sims, Next(sims, s, run[0].0, run[0].1), run[1..])
  }

  /** All threads outside, no service has callbacks. */
  function Start(threads: set<nat>, services: set<Service>): State
  {
    State(map t | t in threads :: Outside, {}, map v | v in services :: Slot(EMPTY, 0), map v | v in services :: None,
          0, [])
  }

  lemma {:induction false} Reachable(sims: nat, s: State, run: seq<(nat, Step)>)
    requires Inv(sims, s) && Runs(sims, s, run)
    ensures Inv(sims, End(sims, s, run))
    decreases |run|
  {
    if run != [] {
      InvStep(sims, s, run[0].0, run[0].1);
      hide Inv, Next, Enabled;
      Reachable(sims, Next(sims, s, run[0].0, run[0].1), run[1..]);
    }
  }

  lemma StartsSafe(sims: nat, threads: set<nat>, services: set<Service>)
    ensures Inv(sims, Start(threads, services))
  {}

  /** From s to r thread t's reset took away a registration that is not the one whose call failed. */
  ghost predicate HitsNewer(s: State, r: State, t: nat)
  {
    && t in s.threads && s.threads[t].Excluding?
    && exists h :: h != s.threads[t].g && r.cleared == s.cleared + [(s.threads[t].svc, h)]
  }

  /**
   * Over all interleavings: a reset goes wrong exactly if the callbacks were replaced between the failing call
   * and the noting of the counter and not since; a caller that held the lock never sees that.
   */
  lemma ResetHitsOnlyTheDead(sims: nat, threads: set<nat>, services: set<Service>, run: seq<(nat, Step)>, t: nat)
    requires Runs(sims, Start(threads, services), run)
    requires Enabled(sims, End(sims, Start(threads, services), run), t, Check)
    ensures var s := End(sims, Start(threads, services), run);
      var pc := s.threads[t];
      && (HitsNewer(s, Next(sims, s, t, Check), t) <==>
           s.reg[pc.svc].Some? && s.slots[pc.svc].counter == pc.c && pc.c != pc.c0)
      && (pc.held.Some? ==> pc.c == pc.c0)
      && Cleared(s, Next(sims, s, t, Check), t)
  {
    StartsSafe(sims, threads, services);
    Reachable(sims, Start(threads, services), run);
    var s := End(sims, Start(threads, services), run);
    InvStep(sims, s, t, Check);
    hide End, Runs, Start;
    CheckedHits(sims, s, t);
    CheckedClears(sims, s, t);
  }

  /**
   * From s to r thread t's reset changed its service only if the counter was the one noted, and nothing else;
   * the failed registration is not in force afterwards, whoever removed it.
   */
  ghost predicate Cleared(s: State, r: State, t: nat)
  {
    && t in s.threads && s.threads[t].Excluding? && s.threads[t].svc in s.slots && s.slots.Keys == r.slots.Keys
    && s.slots.Keys == s.reg.Keys == r.reg.Keys
    && var Excluding(svc, _, g, c0, c) := s.threads[t];
    && (r.slots[svc] != s.slots[svc] ==> (s.reg[svc] == Some(g) <==> c == c0) && r.slots[svc].fields == EMPTY)
    && (forall other :: other in s.slots && other != svc ==> r.slots[other] == s.slots[other])
    && r.reg[svc] != Some(g)
    && Whole(r.slots[svc].fields, r.reg[svc])
  }

  lemma CheckedHits(sims: nat, s: State, t: nat)
    requires Inv(sims, s) && Enabled(sims, s, t, Check)
    ensures var pc := s.threads[t];
      && (HitsNewer(s, Next(sims, s, t, Check), t) <==>
           s.reg[pc.svc].Some? && s.slots[pc.svc].counter == pc.c && pc.c != pc.c0)
      && (pc.held.Some? ==> pc.c == pc.c0)
  {
    assert Knows(s, s.threads[t]);
    hide LockOf, Free, Exclusion, KeptShared, Whole, NamesOk;
    var pc, r := s.threads[t], Next(sims, s, t, Check);
    if s.reg[pc.svc].Some? && s.slots[pc.svc].counter == pc.c && pc.c != pc.c0 {
      assert r.cleared == s.cleared + [(pc.svc, s.reg[pc.svc].value)];
    }
    if HitsNewer(s, r, t) {
      var h :| h != pc.g && r.cleared == s.cleared + [(pc.svc, h)];
      assert r.cleared[|s.cleared|] == (pc.svc, h);
    }
  }

  lemma CheckedClears(sims: nat, s: State, t: nat)
    requires Inv(sims, s) && Enabled(sims, s, t, Check) && FieldsOk(Next(sims, s, t, Check))
    ensures Cleared(s, Next(sims, s, t, Check), t)
  {
    assert Knows(s, s.threads[t]);
    hide LockOf, Free, Exclusion, KeptShared, Whole, NamesOk;
  }

  /** A registration that is newer than the failed one survives the reset of a thread that came with the lock. */
  lemma NewerRegistrationSurvives(sims: nat, threads: set<nat>, services: set<Service>, run: seq<(nat, Step)>, t: nat)
    requires Runs(sims, Start(threads, services), run)
    requires Enabled(sims, End(sims, Start(threads, services), run), t, Check)
    requires var s := End(sims, Start(threads, services), run);
      s.threads[t].held.Some? && s.reg[s.threads[t].svc] != Some(s.threads[t].g)
    ensures var s := End(sims, Start(threads, services), run);
      Next(sims, s, t, Check).slots == s.slots && Next(sims, s, t, Check).reg == s.reg
  {
    StartsSafe(sims, threads, services);
    Reachable(sims, Start(threads, services), run);
    var s := End(sims, Start(threads, services), run);
    hide End, Runs, Start, LockOf, Free, Exclusion, KeptShared;
    assert Knows(s, s.threads[t]);
  }

  /** Each registration is cleared at most once. */
  lemma ClearedOnce(sims: nat, threads: set<nat>, services: set<Service>, run: seq<(nat, Step)>, i: nat, j: nat)
    requires Runs(sims, Start(threads, services), run)
    requires i < j < |End(sims, Start(threads, services), run).cleared|
    ensures var log := End(sims, Start(threads, services), run).cleared; log[i].1 != log[j].1
  {
    StartsSafe(sims, threads, services);
    Reachable(sims, Start(threads, services), run);
  }

  /** On its way through checkReturnStatus, after noting the counter. */
  predicate OnItsWay(pc: Pc, slot: nat, held: Option<bool>)
  {
    match pc
    case Noted(svc, h, _, _, _) => svc.slot == slot && h == held
    case Dropped(svc, h, _, _, _) => svc.slot == slot && h == held
    case Excluding(svc, h, _, _, _) => svc.slot == slot && h == held
    case Checked(svc, h, _) => svc.slot == slot && h == held
    case Returning(svc, h, _) => svc.slot == slot && h == held
    case _ => false
  }

  /** Thread t takes back a lock at the end of the run, and not before. */
  predicate ComesBack(run: seq<(nat, Step)>, t: nat)
  {
    run != [] && run[|run| - 1] == (t, Reacquire) && forall i :: 0 <= i < |run| - 1 ==> run[i] != (t, Reacquire)
  }

  /** Back in the caller: inside with a read lock, or with a read lock that it keeps. */
  predicate Back(sims: nat, s: State, t: nat, slot: nat, held: Option<bool>)
  {
    t in s.threads &&
    if held.Some? then s.threads[t] == Inside(slot, false)
    else s.threads[t] == Outside && (t, LockOf(sims, slot)) in s.kept
  }

  lemma {:induction false} WayBack(sims: nat, s: State, run: seq<(nat, Step)>, t: nat, slot: nat, held: Option<bool>)
    requires Runs(sims, s, run) && ComesBack(run, t) && t in s.threads && OnItsWay(s.threads[t], slot, held)
    ensures Back(sims, End(sims, s, run), t, slot, held)
    decreases |run|
  {
    WayStep(sims, s, run[0].0, run[0].1, t, slot, held);
    if |run| > 1 {
      hide Next, Enabled, OnItsWay, Back;
      assert forall i :: 0 <= i < |run| - 2 ==> run[1..][i] == run[i + 1];
      WayBack(sims, Next(sims, s, run[0].0, run[0].1), run[1..], t, slot, held);
    }
  }

  lemma WayStep(sims: nat, s: State, u: nat, step: Step, t: nat, slot: nat, held: Option<bool>)
    requires Enabled(sims, s, u, step) && t in s.threads && OnItsWay(s.threads[t], slot, held)
    ensures (u, step) != (t, Reacquire) ==>
      t in Next(sims, s, u, step).threads && OnItsWay(Next(sims, s, u, step).threads[t], slot, held)
    ensures (u, step) == (t, Reacquire) ==> Back(sims, Next(sims, s, u, step), t, slot, held)
  {
    hide Free, LockOf;
  }

  /**
   * However the others run meanwhile, a thread that noted the counter comes back with its slot's lock for
   * reading: even if it came in with the write lock, and even if it came without any.
   */
  lemma ReturnsWithReadLock(sims: nat, threads: set<nat>, services: set<Service>,
                            before: seq<(nat, Step)>, after: seq<(nat, Step)>, t: nat)
    requires Runs(sims, Start(threads, services), before)
    requires var s := End(sims, Start(threads, services), before);
      t in s.threads && s.threads[t].Noted? && Runs(sims, s, after) && ComesBack(after, t)
    ensures var s := End(sims, Start(threads, services), before);
      var r := End(sims, s, after);
      && Back(sims, r, t, s.threads[t].svc.slot, s.threads[t].held)
      && forall u :: u in r.threads && u != t ==>
          !Writes(sims, Holds(r.threads[u]), LockOf(sims, s.threads[t].svc.slot))
  {
    StartsSafe(sims, threads, services);
    Reachable(sims, Start(threads, services), before);
    var s := End(sims, Start(threads, services), before);
    Reachable(sims, s, after);
    WayBack(sims, s, after, t, s.threads[t].svc.slot, s.threads[t].held);
    hide Runs, End, Start, Next, Enabled, Services, Knows, LockOf;
    var r := End(sims, s, after);
    forall u | u in r.threads && u != t
      ensures !Writes(sims, Holds(r.threads[u]), LockOf(sims, s.threads[t].svc.slot))
    {
      if s.threads[t].held.Some? { assert !Clash(sims, Holds(r.threads[t]), Holds(r.threads[u])); }
    }
  }

  /** A lock that thread t keeps stays so until t itself drops one again, whatever the other threads do. */
  lemma {:induction false} StaysKept(sims: nat, s: State, run: seq<(nat, Step)>, t: nat, l: nat)
    requires Runs(sims, s, run) && (t, l) in s.kept && (t, Drop) !in run
    ensures (t, l) in End(sims, s, run).kept
    decreases |run|
  {
    if run != [] {
      assert (t, l) in Next(sims, s, run[0].0, run[0].1).kept;
      hide Next, Enabled;
      StaysKept(sims, Next(sims, s, run[0].0, run[0].1), run[1..], t, l);
    }
  }

  /** And as long as it is kept no client can register with a slot of that lock. */
  lemma KeptBlocks(sims: nat, s: State, run: seq<(nat, Step)>, t: nat, u: nat, svc: Service)
    requires Runs(sims, s, run) && (t, LockOf(sims, svc.slot)) in s.kept && (t, Drop) !in run
    ensures !Enabled(sims, End(sims, s, run), u, StartRegister(svc))
  {
    StaysKept(sims, s, run, t, LockOf(sims, svc.slot));
  }

  // What the services hold.

  /** The clients that have registered, by the number of their registration, those known before included. */
  function Clients(sims: nat, s: State, run: seq<(nat, Step)>, known: map<nat, Client>): map<nat, Client>
    requires Runs(sims, s, run)
    decreases |run|
  {
    if run == [] then known
    else Clients(sims, Next(sims, s, run[0].0, run[0].1), run[1..],
                 if run[0].1.Install? then known[s.next := run[0].1.client] else known)
  }

  /** Each service holds what the client in force gave, and nothing if none is. */
  ghost predicate AllServed(s: State, known: map<nat, Client>)
  {
    && s.slots.Keys == s.reg.Keys
    && (forall g :: g in known ==> g < s.next)
    && (forall v :: v in s.reg && s.reg[v].None? ==> s.slots[v].fields == Fields(None, None, None, None))
    && (forall v :: v in s.reg && s.reg[v].Some? ==> s.reg[v].value in known)
    && (forall v :: v in s.reg && s.reg[v].Some? ==>
         Serves(s.slots[v].fields, v.kind, known[s.reg[v].value], s.reg[v].value))
  }

  lemma ServedStep(sims: nat, s: State, known: map<nat, Client>, t: nat, step: Step)
    requires AllServed(s, known) && Enabled(sims, s, t, step)
    ensures AllServed(Next(sims, s, t, step), if step.Install? then known[s.next := step.client] else known)
  {
    hide Free, LockOf, Holds;
    if step.Install? {
      var kind := s.threads[t].svc.kind;
      assert Serves(Installed(kind, step.client, s.next), kind, step.client, s.next);
    }
    hide Serves, Installed;
  }

  lemma {:induction false} ServedAfter(sims: nat, s: State, run: seq<(nat, Step)>, known: map<nat, Client>)
    requires Runs(sims, s, run) && AllServed(s, known)
    ensures AllServed(End(sims, s, run), Clients(sims, s, run, known))
    decreases |run|
  {
    if run != [] {
      ServedStep(sims, s, known, run[0].0, run[0].1);
      hide Next, Enabled, AllServed;
      ServedAfter(sims, Next(sims, s, run[0].0, run[0].1), run[1..],
                  if run[0].1.Install? then known[s.next := run[0].1.client] else known);
    }
  }

  /** In every run each service holds exactly the pointers of the client in force, the 1.1 ones as a pair. */
  lemma ClientsServed(sims: nat, threads: set<nat>, services: set<Service>, run: seq<(nat, Step)>)
    requires Runs(sims, Start(threads, services), run)
    ensures AllServed(End(sims, Start(threads, services), run), Clients(sims, Start(threads, services), run, map[]))
  {
    ServedAfter(sims, Start(threads, services), run, map[]);
  }

  // What the counter tells.

  /** Some step of the run gives svc new callbacks, or none. */
  predicate Replaces(sims: nat, s: State, run: seq<(nat, Step)>, svc: Service)
    requires Runs(sims, s, run) && svc in s.slots
    decreases |run|
  {
    run != [] && var r := Next(sims, s, run[0].0, run[0].1);
    svc in r.slots && (r.slots[svc].counter != s.slots[svc].counter || Replaces(sims, r, run[1..], svc))
  }

  lemma CounterStep(sims: nat, s: State, t: nat, step: Step, svc: Service)
    requires Enabled(sims, s, t, step) && svc in s.slots
    ensures var r := Next(sims, s, t, step);
      svc in r.slots && s.slots[svc].counter <= r.slots[svc].counter
      && (r.slots[svc] != s.slots[svc] <==> r.slots[svc].counter != s.slots[svc].counter)
  {
    hide LockOf, Free;
  }

  lemma {:induction false} CounterTells(sims: nat, s: State, run: seq<(nat, Step)>, svc: Service)
    requires Runs(sims, s, run) && svc in s.slots
    ensures svc in End(sims, s, run).slots && s.slots[svc].counter <= End(sims, s, run).slots[svc].counter
    ensures End(sims, s, run).slots[svc].counter != s.slots[svc].counter <==> Replaces(sims, s, run, svc)
    decreases |run|
  {
    if run != [] {
      CounterStep(sims, s, run[0].0, run[0].1, svc);
      hide Next, Enabled;
      CounterTells(sims, Next(sims, s, run[0].0, run[0].1), run[1..], svc);
    }
  }

  lemma {:induction false} StaysFailed(sims: nat, s: State, run: seq<(nat, Step)>, t: nat)
    requires Runs(sims, s, run) && t in s.threads && s.threads[t].Failed? && (t, Note) !in run
    ensures t in End(sims, s, run).threads && End(sims, s, run).threads[t] == s.threads[t]
    decreases |run|
  {
    if run != [] {
      var step := run[0].1;
      assert step == Note || run[0].0 != t;
      LockOnlyTaken(sims, s, run[0].0, step);
      hide Next, Enabled;
      StaysFailed(sims, Next(sims, s, run[0].0, run[0].1), run[1..], t);
    }
  }

  /** The counter noted is not the one at the failing call exactly if the callbacks were replaced meanwhile. */
  lemma NotedLate(sims: nat, s: State, svc: Service, which: nat, run: seq<(nat, Step)>, t: nat)
    requires Enabled(sims, s, t, CallFails(svc, which))
    requires var u := Next(sims, s, t, CallFails(svc, which));
      Runs(sims, u, run) && (t, Note) !in run && Enabled(sims, End(sims, u, run), t, Note)
    ensures var u := Next(sims, s, t, CallFails(svc, which));
      var pc := Next(sims, End(sims, u, run), t, Note).threads[t];
      && pc.Noted? && pc.svc == svc && Some(pc.g) == Pointer(s.slots[svc].fields, which)
      && (pc.c != pc.c0 <==> Replaces(sims, u, run, svc))
  {
    var u := Next(sims, s, t, CallFails(svc, which));
    StaysFailed(sims, u, run, t);
    CounterTells(sims, u, run, svc);
    hide Free, LockOf, Runs, Replaces, End;
  }

  // Callers that hold the lock, as the original's comment demands.

  /** Every call that fails in the run is made by a thread that holds a lock. */
  predicate CallersHoldLock(sims: nat, s: State, run: seq<(nat, Step)>)
    requires Runs(sims, s, run)
    decreases |run|
  {
    run == [] || ((run[0].1.CallFails? ==> s.threads[run[0].0].Inside?)
                  && CallersHoldLock(sims, Next(sims, s, run[0].0, run[0].1), run[1..]))
  }

  predicate CameWithLock(pc: Pc)
  {
    match pc
    case Failed(_, held, _, _) => held.Some?
    case Noted(_, held, _, _, _) => held.Some?
    case Dropped(_, held, _, _, _) => held.Some?
    case Excluding(_, held, _, _, _) => held.Some?
    case Checked(_, held, _) => held.Some?
    case Returning(_, held, _) => held.Some?
    case _ => true
  }

  ghost predicate AllWithLock(s: State) { s.kept == {} && forall t :: t in s.threads ==> CameWithLock(s.threads[t]) }

  lemma {:induction false} StayWithLock(sims: nat, s: State, run: seq<(nat, Step)>)
    requires Runs(sims, s, run) && AllWithLock(s) && CallersHoldLock(sims, s, run)
    ensures AllWithLock(End(sims, s, run))
    decreases |run|
  {
    if run != [] {
      WithLockStep(sims, s, run[0].0, run[0].1);
      hide Next, Enabled, AllWithLock;
      StayWithLock(sims, Next(sims, s, run[0].0, run[0].1), run[1..]);
    }
  }

  lemma WithLockStep(sims: nat, s: State, t: nat, step: Step)
    requires AllWithLock(s) && Enabled(sims, s, t, step) && (step.CallFails? ==> s.threads[t].Inside?)
    ensures AllWithLock(Next(sims, s, t, step))
  {
    hide Free, LockOf;
  }

  /** If all callers hold the lock no reset goes wrong, and no lock is kept. */
  lemma LockedCallersAreSafe(sims: nat, threads: set<nat>, services: set<Service>, run: seq<(nat, Step)>, t: nat)
    requires Runs(sims, Start(threads, services), run)
    requires CallersHoldLock(sims, Start(threads, services), run)
    ensures var s := End(sims, Start(threads, services), run);
      s.kept == {} && (Enabled(sims, s, t, Check) ==> !HitsNewer(s, Next(sims, s, t, Check), t))
  {
    StayWithLock(sims, Start(threads, services), run);
    var s := End(sims, Start(threads, services), run);
    if Enabled(sims, s, t, Check) {
      assert CameWithLock(s.threads[t]);
      ResetHitsOnlyTheDead(sims, threads, services, run, t);
    }
  }

  // A caller without the lock.

  lemma {:induction false} Extend(sims: nat, s: State, run: seq<(nat, Step)>, t: nat, step: Step)
    requires Runs(sims, s, run) && Enabled(sims, End(sims, s, run), t, step)
    ensures Runs(sims, s, run + [(t, step)])
    ensures End(sims, s, run + [(t, step)]) == Next(sims, End(sims, s, run), t, step)
    decreases |run|
  {
    hide Enabled, Next;
    if run == [] {
      assert run + [(t, step)] == [(t, step)] && [(t, step)][1..] == [];
    } else {
      assert (run + [(t, step)])[1..] == run[1..] + [(t, step)];
      Extend(sims, Next(sims, s, run[0].0, run[0].1), run[1..], t, step);
    }
  }

  const PHONE := Service(0, Radio)
  const DUMB := Client(true, true, false, false)
  const FIRST := Start({1, 2}, {PHONE})

  /** Thread 2 registers a client. */
  lemma RegisterOnce(run: seq<(nat, Step)>) returns (more: seq<(nat, Step)>)
    requires Runs(1, FIRST, run)
    requires var s := End(1, FIRST, run);
      && s.threads.Keys == {1, 2} && s.kept == {} && Holds(s.threads[1]) == None && s.threads[2] == Outside
      && PHONE in s.slots
    ensures Runs(1, FIRST, more)
    ensures var s := End(1, FIRST, run);
      End(1, FIRST, more) == s.(slots := s.slots[PHONE := Register(s.slots[PHONE], Radio, DUMB, s.next)],
                                reg := s.reg[PHONE := Some(s.next)], next := s.next + 1)
  {
    hide Runs, End;
    var s := End(1, FIRST, run);
    Extend(1, FIRST, run, 2, StartRegister(PHONE));
    more := run + [(2, StartRegister(PHONE))];
    Extend(1, FIRST, more, 2, Install(DUMB));
    more := more + [(2, Install(DUMB))];
    Extend(1, FIRST, more, 2, EndRegister);
    more := more + [(2, EndRegister)];
    assert End(1, FIRST, more).threads == s.threads;
  }

  lemma FirstState()
    ensures Runs(1, FIRST, []) && End(1, FIRST, []) == FIRST
    ensures FIRST == State(map[1 := Outside, 2 := Outside], {}, map[PHONE := Slot(EMPTY, 0)], map[PHONE := None], 0, [])
  {}

  /** Thread 1's call fails without a lock, and then thread 2 registers another client. */
  lemma FailedThenReplaced() returns (run: seq<(nat, Step)>)
    ensures Runs(1, FIRST, run)
    ensures End(1, FIRST, run) ==
      State(map[1 := Failed(PHONE, None, 0, 1), 2 := Outside], {},
            map[PHONE := Slot(Installed(Radio, DUMB, 1), 2)], map[PHONE := Some(1)], 2, [])
  {
    hide Runs, End;
    FirstState();
    run := RegisterOnce([]);
    Extend(1, FIRST, run, 1, CallFails(PHONE, 0));
    run := run + [(1, CallFails(PHONE, 0))];
    run := RegisterOnce(run);
  }

  /**
   * A caller without the lock, and a client that registers before the counter is noted: the reset takes the new
   * registration away.
   */
  lemma NewerRegistrationLost() returns (run: seq<(nat, Step)>)
    ensures Runs(1, FIRST, run)
    ensures var s := End(1, FIRST, run);
      && s.threads == map[1 := Excluding(PHONE, None, 0, 1, 2), 2 := Outside] && s.kept == {}
      && Enabled(1, s, 1, Check) && s.reg[PHONE] == Some(1)
      && HitsNewer(s, Next(1, s, 1, Check), 1) && Next(1, s, 1, Check).reg[PHONE] == None
  {
    hide Runs, End;
    run := FailedThenReplaced();
    Extend(1, FIRST, run, 1, Note);
    run := run + [(1, Note)];
    Extend(1, FIRST, run, 1, Drop);
    run := run + [(1, Drop)];
    Extend(1, FIRST, run, 1, Exclude);
    run := run + [(1, Exclude)];
    var s := End(1, FIRST, run);
    assert Next(1, s, 1, Check).cleared == s.cleared + [(PHONE, 1)];
  }

  /** Then the caller keeps a read lock, so that no client of the slot registers until the caller fails once more. */
  lemma ThenNobodyRegisters() returns (run: seq<(nat, Step)>)
    ensures Runs(1, FIRST, run) && End(1, FIRST, run).threads == map[1 := Outside, 2 := Outside]
    ensures forall more: seq<(nat, Step)>, u: nat, svc: Service ::
      Runs(1, End(1, FIRST, run), more) && (1, Drop) !in more && LockOf(1, svc.slot) == 1 ==>
        !Enabled(1, End(1, End(1, FIRST, run), more), u, StartRegister(svc))
  {
    hide Runs, End, HitsNewer;
    run := NewerRegistrationLost();
    Extend(1, FIRST, run, 1, Check);
    run := run + [(1, Check)];
    Extend(1, FIRST, run, 1, DropWrite);
    run := run + [(1, DropWrite)];
    Extend(1, FIRST, run, 1, Reacquire);
    run := run + [(1, Reacquire)];
    var s := End(1, FIRST, run);
    forall more: seq<(nat, Step)>, u: nat, svc: Service
      | Runs(1, s, more) && (1, Drop) !in more && LockOf(1, svc.slot) == 1
      ensures !Enabled(1, End(1, s, more), u, StartRegister(svc))
    {
      KeptBlocks(1, s, more, 1, u, svc);
    }
  }
}
