/** The session tables shared by all camera devices, over every interleaving of opening and closing. */
module CameraTables {
  import opened Options
  import opened CameraFrames

  const SLOTS := 4

  /** Where a device object is in opening and closing, each of which takes its turns under sSessionLock. */
  datatype Phase = Idle | Opening | Open | Closing | Left

  /** A device object; device says whether the camera module's device is open. */
  datatype Dev = Dev(camera: nat, device: bool, extension: bool, slot: int, memory: Memory, phase: Phase)

  /** The statics, the device objects and the heaps that have not been put back. */
  datatype World = World(slots: seq<Option<nat>>, primary: map<nat, nat>, extensions: set<nat>, sony: set<nat>,
                         devs: map<nat, Dev>, live: set<Heap>)

  const NOTHING := Memory(map[], map[])
  const START_TABLES := World([None, None, None, None], map[], {}, {}, map[], {})

  /** The first free slot, or -1. */
  function FreeSlot(slots: seq<Option<nat>>, from: nat): (i: int)
    requires from <= |slots|
    ensures i == -1 || (from <= i < |slots| && slots[i].None?)
    ensures forall j :: from <= j < (if i == -1 then |slots| else i) ==> slots[j].Some?
    decreases |slots| - from
  {
    if from == |slots| then -1 else if slots[from].None? then from else FreeSlot(slots, from + 1)
  }

  /**
   * open up to the camera module's answer: a camera with a primary session is opened as an extension. A
   * refusal leaves the object where it was, but without the module's device.
   */
  function Decide(w: World, d: nat, ok: bool): World
    requires d in w.devs
  {
    var v := w.devs[d];
    w.(devs := w.devs[d := v.(extension := v.camera in w.primary, device := ok,
                              phase := if ok then Opening else v.phase)])
  }

  /** The rest of open: other devices may have come and gone meanwhile. */
  function Enter(w: World, d: nat): World
    requires d in w.devs
  {
    var v := w.devs[d];
    if v.extension then
      w.(extensions := w.extensions + {d},
         sony := if v.camera in w.primary then w.sony + {w.primary[v.camera]} else w.sony,
         devs := w.devs[d := v.(phase := Open)])
    else
      var slot := FreeSlot(w.slots, 0);
      w.(primary := w.primary[v.camera := d],
         slots := if slot < 0 then w.slots else w.slots[slot := Some(d)],
         devs := w.devs[d := v.(phase := Open, slot := slot)])
  }

  /** closeLocked closes the camera module's device first. */
  function Shut(w: World, d: nat): World
    requires d in w.devs
  {
    w.(devs := w.devs[d := w.devs[d].(device := false, phase := Closing)])
  }

  /** Then it leaves the tables. */
  function Leave(w: World, d: nat): World
    requires d in w.devs && w.devs[d].slot < |w.slots|
  {
    var v := w.devs[d];
    w.(primary := if v.camera in w.primary && w.primary[v.camera] == d then w.primary - {v.camera} else w.primary,
       extensions := w.extensions - {d},
       sony := w.sony - {d},
       slots := if v.slot >= 0 then w.slots[v.slot := None] else w.slots,
       devs := w.devs[d := v.(slot := -1, phase := Left)])
  }

  /** And an extension forgets its memory. */
  function Clear(w: World, d: nat): World
    requires d in w.devs
  {
    var v := w.devs[d];
    w.(devs := w.devs[d := v.(memory := if v.extension then NOTHING else v.memory, phase := Idle)])
  }

  /** A frame of heap is delivered to d; id is the client's answer if it has to be registered. */
  function Receive(w: World, d: nat, heap: Heap, id: nat): World
    requires d in w.devs
  {
    w.(devs := w.devs[d := w.devs[d].(memory := Answered(w.devs[d].memory, heap, id))])
  }

  /** sPutMemory: every extension session forgets the heap before it is gone. */
  function PutBack(w: World, heap: Heap): World
  {
    w.(live := w.live - {heap},
       devs := map d | d in w.devs :: if d in w.extensions
         then w.devs[d].(memory := Forget(w.devs[d].memory, heap)) else w.devs[d])
  }

  datatype Move =
    | New(d: nat, camera: nat)
    | Allocate(heap: Heap)
    | OpenDecide(d: nat, ok: bool)
    | OpenEnter(d: nat)
    | CloseShut(d: nat)
    | CloseLeave(d: nat)
    | CloseClear(d: nat)
    | Receives(d: nat, heap: Heap, id: nat)
    | PutMemory(heap: Heap)

  predicate InPhase(w: World, d: nat, phase: Phase) { d in w.devs && w.devs[d].phase == phase }

  /**
   * A device's own lock orders its calls. Nothing keeps an open device from being opened again, with another
   * client. Frames come to extension sessions that are open or being opened, and for heaps that exist; the
   * client answers what it likes.
   */
  predicate Can(w: World, m: Move)
  {
    match m
    case New(d, _) => d !in w.devs
    case Allocate(heap) => heap !in w.live
    case OpenDecide(d, _) => InPhase(w, d, Idle) || InPhase(w, d, Open)
    case OpenEnter(d) => InPhase(w, d, Opening)
    case CloseShut(d) => InPhase(w, d, Idle) || InPhase(w, d, Open)
    case CloseLeave(d) => InPhase(w, d, Closing) && w.devs[d].slot < |w.slots|
    case CloseClear(d) => InPhase(w, d, Left)
    case Receives(d, heap, id) =>
      (InPhase(w, d, Open) || InPhase(w, d, Opening)) && d in w.extensions && heap in w.live
    case PutMemory(heap) => heap in w.live
  }

  function Apply(w: World, m: Move): World
    requires Can(w, m)
  {
    match m
    case New(d, camera) => w.(devs := w.devs[d := Dev(camera, false, false, -1, NOTHING, Idle)])
    case Allocate(heap) => w.(live := w.live + {heap})
    case OpenDecide(d, ok) => Decide(w, d, ok)
    case OpenEnter(d) => Enter(w, d)
    case CloseShut(d) => Shut(w, d)
    case CloseLeave(d) => Leave(w, d)
    case CloseClear(d) => Clear(w, d)
    case Receives(d, heap, id) => Receive(w, d, heap, id)
    case PutMemory(heap) => PutBack(w, heap)
  }

  // Runs, from the start, and the states on their way.

  predicate Runs(moves: seq<Move>)
    decreases |moves|, 0
  {
    moves == [] || (Runs(moves[..|moves| - 1]) && Can(End(moves[..|moves| - 1]), moves[|moves| - 1]))
  }

  function End(moves: seq<Move>): World
    requires Runs(moves)
    decreases |moves|, 1
  {
    if moves == [] then START_TABLES else Apply(End(moves[..|moves| - 1]), moves[|moves| - 1])
  }

  lemma {:induction false} Prefix(moves: seq<Move>, n: nat)
    requires Runs(moves) && n <= |moves|
    ensures Runs(moves[..n])
    ensures n < |moves| ==> Can(End(moves[..n]), moves[n])
    ensures n < |moves| ==> Runs(moves[..n + 1]) && End(moves[..n + 1]) == Apply(End(moves[..n]), moves[n])
  {
    hide Can, Apply;
    if n == |moves| {
      assert moves[..n] == moves;
    } else {
      var before := moves[..|moves| - 1];
      if n < |before| {
        Prefix(before, n);
        assert before[..n] == moves[..n] && before[..n + 1] == moves[..n + 1];
      } else {
        assert moves[..n + 1] == moves && moves[..n] == before;
      }
    }
  }

  /** The state after n moves. */
  function At(moves: seq<Move>, n: nat): World
    requires Runs(moves) && n <= |moves|
  {
    Prefix(moves, n);
    End(moves[..n])
  }

  ghost predicate Always(moves: seq<Move>, p: World -> bool)
    requires Runs(moves)
  {
    forall n :: 0 <= n <= |moves| ==> p(At(moves, n))
  }

  ghost predicate Never(moves: seq<Move>, bad: (World, Move) -> bool)
    requires Runs(moves)
  {
    forall n :: 0 <= n < |moves| ==> !bad(At(moves, n), moves[n])
  }

  /** What holds at the start and only bad moves break holds always if no bad move is made. */
  lemma {:induction false} NeverThenAlways(moves: seq<Move>, n: nat, p: World -> bool, bad: (World, Move) -> bool)
    requires Runs(moves) && n <= |moves| && p(START_TABLES) && Never(moves, bad)
    requires forall w, m :: Base(w) && p(w) && Can(w, m) && !bad(w, m) ==> p(Apply(w, m))
    ensures p(At(moves, n))
  {
    hide Base, Can, Apply;
    if n > 0 {
      NeverThenAlways(moves, n - 1, p, bad);
      Prefix(moves, n - 1);
      AtBase(moves, n - 1);
      assert !bad(At(moves, n - 1), moves[n - 1]);
    }
  }

  /** What every bad move breaks does not hold always if one is made. */
  lemma AlwaysThenNever(moves: seq<Move>, p: World -> bool, bad: (World, Move) -> bool)
    requires Runs(moves) && Always(moves, p)
    requires forall w, m :: Base(w) && p(w) && Can(w, m) && bad(w, m) ==> !p(Apply(w, m))
    ensures Never(moves, bad)
  {
    hide Base, Can, Apply;
    forall n | 0 <= n < |moves| ensures !bad(At(moves, n), moves[n]) {
      Prefix(moves, n);
      AtBase(moves, n);
      assert p(At(moves, n)) && p(At(moves, n + 1));
    }
  }

  // What every run keeps, whatever the order of its moves.

  /** A device in the tables may be in these phases. */
  predicate InTables(w: World, d: nat)
  {
    d in w.devs && (w.devs[d].phase.Opening? || w.devs[d].phase.Open? || w.devs[d].phase.Closing?)
  }

  ghost predicate SlotsFit(w: World)
  {
    && |w.slots| == SLOTS
    && (forall d :: d in w.devs ==> -1 <= w.devs[d].slot < SLOTS)
    && (forall i :: 0 <= i < SLOTS && w.slots[i].Some? ==> w.slots[i].value in w.devs)
  }

  ghost predicate TablesFit(w: World)
  {
    && (forall c :: c in w.primary ==> InTables(w, w.primary[c]) && w.devs[w.primary[c]].camera == c)
    && (forall d :: d in w.sony ==> InTables(w, d))
    && (forall d :: d in w.extensions ==> InTables(w, d))
    && (forall d :: InPhase(w, d, Idle) || InPhase(w, d, Left) ==> w.devs[d].slot == -1)
    && (forall d :: d in w.devs && w.devs[d].device ==> w.devs[d].phase.Opening? || w.devs[d].phase.Open?)
    && (forall d :: InPhase(w, d, Opening) ==> w.devs[d].device)
  }

  ghost predicate Base(w: World) { SlotsFit(w) && TablesFit(w) }

  lemma SlotsFitStep(w: World, m: Move)
    requires SlotsFit(w) && Can(w, m)
    ensures SlotsFit(Apply(w, m))
  {}

  lemma TablesFitStep(w: World, m: Move)
    requires TablesFit(w) && Can(w, m)
    ensures TablesFit(Apply(w, m))
  {
    hide TablesFit;
    match m
    case OpenEnter(d) => EnterFits(w, d);
    case CloseLeave(d) => LeaveFits(w, d);
    case PutMemory(heap) => PutFits(w, heap);
    case Allocate(heap) => AllocateFits(w, heap);
    case _ => OneFits(w, m);
  }

  lemma EnterFits(w: World, d: nat)
    requires TablesFit(w) && InPhase(w, d, Opening)
    ensures TablesFit(Enter(w, d))
  {}

  lemma LeaveFits(w: World, d: nat)
    requires TablesFit(w) && InPhase(w, d, Closing) && w.devs[d].slot < |w.slots|
    ensures TablesFit(Leave(w, d))
  {}

  lemma PutFits(w: World, heap: Heap)
    requires TablesFit(w)
    ensures TablesFit(PutBack(w, heap))
  {}

  lemma AllocateFits(w: World, heap: Heap)
    requires TablesFit(w)
    ensures TablesFit(w.(live := w.live + {heap}))
  {}

  lemma OneFits(w: World, m: Move)
    requires TablesFit(w) && Can(w, m)
    requires m.New? || m.OpenDecide? || m.CloseShut? || m.CloseClear? || m.Receives?
    ensures TablesFit(Apply(w, m))
  {}

  lemma {:induction false} AtBase(moves: seq<Move>, n: nat)
    requires Runs(moves) && n <= |moves|
    ensures Base(At(moves, n))
  {
    hide SlotsFit, TablesFit, Can, Apply;
    if n == 0 {
      StartFits();
    } else {
      AtBase(moves, n - 1);
      Prefix(moves, n - 1);
      SlotsFitStep(At(moves, n - 1), moves[n - 1]);
      TablesFitStep(At(moves, n - 1), moves[n - 1]);
    }
  }

  lemma StartFits()
    ensures Base(START_TABLES)
  {}

  // Slots.

  /** Slot i names a device exactly when the device's slot is i. */
  ghost predicate SlotTable(w: World)
  {
    |w.slots| == SLOTS &&
    forall d, i :: d in w.devs && 0 <= i < SLOTS ==> (w.slots[i] == Some(d) <==> w.devs[d].slot == i)
  }

  /** A device that has a slot is about to claim another. */
  predicate Reclaims(w: World, m: Move)
  {
    m.OpenEnter? && InPhase(w, m.d, Opening) && !w.devs[m.d].extension && w.devs[m.d].slot >= 0
  }

  lemma EnterSlots(w: World, d: nat)
    requires SlotsFit(w) && SlotTable(w) && InPhase(w, d, Opening)
    ensures SlotTable(Enter(w, d)) <==> w.devs[d].extension || w.devs[d].slot < 0
  {
    var v, t := w.devs[d], Enter(w, d);
    if !v.extension && v.slot >= 0 {
      assert w.slots[v.slot] == Some(d);
      assert t.slots[v.slot] == Some(d) && t.devs[d].slot != v.slot;
    }
  }

  lemma LeaveSlots(w: World, d: nat)
    requires SlotsFit(w) && SlotTable(w) && d in w.devs
    ensures SlotTable(Leave(w, d))
  {}

  lemma SameSlots(w: World, m: Move)
    requires SlotsFit(w) && SlotTable(w) && Can(w, m) && !m.OpenEnter? && !m.CloseLeave?
    ensures SlotTable(Apply(w, m))
  {}

  lemma SlotTableStep(w: World, m: Move)
    requires Base(w) && SlotTable(w) && Can(w, m)
    ensures SlotTable(Apply(w, m)) <==> !Reclaims(w, m)
  {
    Fits(w);
    hide Base, SlotsFit, SlotTable;
    match m
    case OpenEnter(d) => EnterSlots(w, d);
    case CloseLeave(d) => LeaveSlots(w, d);
    case _ => SameSlots(w, m);
  }

  lemma Fits(w: World)
    requires Base(w)
    ensures SlotsFit(w)
  {}

  /** Slots and owners agree all the time exactly if no device claims a slot while it has one. */
  lemma SlotIffOwner(moves: seq<Move>)
    requires Runs(moves)
    ensures Always(moves, SlotTable) <==> Never(moves, Reclaims)
  {
    hide Base, SlotTable, Reclaims, Can, Apply;
    forall w, m | Base(w) && SlotTable(w) && Can(w, m) ensures SlotTable(Apply(w, m)) <==> !Reclaims(w, m) {
      SlotTableStep(w, m);
    }
    Exactly(moves, SlotTable, Reclaims) by { StartSlots(); }
  }

  lemma StartSlots()
    ensures SlotTable(START_TABLES)
  {}

  /** What holds at the start and exactly the bad moves break holds always exactly if none is made. */
  lemma Exactly(moves: seq<Move>, p: World -> bool, bad: (World, Move) -> bool)
    requires Runs(moves) && p(START_TABLES)
    requires forall w, m :: Base(w) && p(w) && Can(w, m) ==> (p(Apply(w, m)) <==> !bad(w, m))
    ensures Always(moves, p) <==> Never(moves, bad)
  {
    hide Base, Can, Apply, Runs;
    if Never(moves, bad) {
      forall n | 0 <= n <= |moves| ensures p(At(moves, n)) { NeverThenAlways(moves, n, p, bad); }
    }
    if Always(moves, p) { AlwaysThenNever(moves, p, bad); }
  }

  // What a closed device leaves behind.

  /** A closed device's own two maps are empty. */
  ghost predicate ClosedClean(w: World) { forall d :: InPhase(w, d, Idle) ==> w.devs[d].memory == NOTHING }

  /** closeLocked takes a device that has memory for a primary session. */
  predicate LeavesMemory(w: World, m: Move)
  {
    m.CloseClear? && InPhase(w, m.d, Left) && !w.devs[m.d].extension && w.devs[m.d].memory != NOTHING
  }

  lemma ClosedCleanStep(w: World, m: Move)
    requires ClosedClean(w) && Can(w, m)
    ensures ClosedClean(Apply(w, m)) <==> !LeavesMemory(w, m)
  {
    if LeavesMemory(w, m) { assert InPhase(Apply(w, m), m.d, Idle); }
  }

  /** Closed devices never keep memory exactly if none is cleared as a primary session while it has some. */
  lemma ClosedHoldsNothing(moves: seq<Move>)
    requires Runs(moves)
    ensures Always(moves, ClosedClean) <==> Never(moves, LeavesMemory)
  {
    hide Base, ClosedClean, LeavesMemory, Can, Apply;
    forall w, m | ClosedClean(w) && Can(w, m) ensures ClosedClean(Apply(w, m)) <==> !LeavesMemory(w, m) {
      ClosedCleanStep(w, m);
    }
    Exactly(moves, ClosedClean, LeavesMemory) by { StartClean(); }
  }

  lemma StartClean()
    ensures ClosedClean(START_TABLES)
  {}

  /** In every run a closed device has no open device of the module, is in no table and has no slot. */
  lemma ClosedIsOut(moves: seq<Move>, d: nat)
    requires Runs(moves) && InPhase(End(moves), d, Idle)
    ensures var w := End(moves);
      && !w.devs[d].device && w.devs[d].slot == -1
      && d !in w.extensions && d !in w.sony && (forall c :: c in w.primary ==> w.primary[c] != d)
      && (SlotTable(w) ==> Some(d) !in w.slots)
  {
    AtBase(moves, |moves|);
    assert moves[..|moves|] == moves;
    hide Runs, Can, Apply;
    var w := End(moves);
    assert Base(w);
  }

  // Heaps put back.

  /** Extension sessions refer to no heap that was put back. */
  ghost predicate HeapsLive(w: World)
  {
    forall d :: d in w.extensions && d in w.devs ==> w.devs[d].memory.foreign.Keys <= w.live
  }

  /** A device becomes an extension session that remembers a heap put back. */
  predicate BringsDead(w: World, m: Move)
  {
    && m.OpenEnter? && InPhase(w, m.d, Opening) && w.devs[m.d].extension && m.d !in w.extensions
    && !(w.devs[m.d].memory.foreign.Keys <= w.live)
  }

  lemma HeapsLiveStep(w: World, m: Move)
    requires Base(w) && HeapsLive(w) && Can(w, m)
    ensures HeapsLive(Apply(w, m)) <==> !BringsDead(w, m)
  {
    hide SlotsFit;
    if BringsDead(w, m) { assert m.d in Apply(w, m).extensions; }
  }

  /** sPutMemory leaves no reference to its heap, ever, exactly if no device comes with one from before. */
  lemma PutHeapForgotten(moves: seq<Move>)
    requires Runs(moves)
    ensures Always(moves, HeapsLive) <==> Never(moves, BringsDead)
  {
    hide Base, HeapsLive, BringsDead, Can, Apply;
    forall w, m | Base(w) && HeapsLive(w) && Can(w, m) ensures HeapsLive(Apply(w, m)) <==> !BringsDead(w, m) {
      HeapsLiveStep(w, m);
    }
    Exactly(moves, HeapsLive, BringsDead) by { StartLive(); }
  }

  lemma StartLive()
    ensures HeapsLive(START_TABLES)
  {}

  // The two maps of a device.

  ghost predicate AllInverse(w: World) { forall d :: d in w.devs ==> Inverse(w.devs[d].memory) }

  /** A heap is filed under an id that stands for another one. */
  predicate FilesTwice(w: World, m: Move)
  {
    && m.Receives? && m.d in w.devs
    && m.heap !in w.devs[m.d].memory.foreign && m.id in w.devs[m.d].memory.ids
  }

  lemma InverseStep(w: World, m: Move)
    requires AllInverse(w) && Can(w, m)
    ensures AllInverse(Apply(w, m)) <==> !FilesTwice(w, m)
  {
    var t := Apply(w, m);
    hide Inverse, Answered, Forget;
    assert Inverse(NOTHING) by { EmptyInverse(); }
    if m.Receives? { AnsweredInverse(w.devs[m.d].memory, m.heap, m.id); }
    if m.PutMemory? {
      forall d | d in w.devs ensures Inverse(t.devs[d].memory) { ForgetInverse(w.devs[d].memory, m.heap); }
    }
    if FilesTwice(w, m) { assert !Inverse(t.devs[m.d].memory); }
  }

  /** All devices' maps stay inverse exactly if no heap is filed under an id that stands for another one. */
  lemma ExtensionMapsInverse(moves: seq<Move>)
    requires Runs(moves)
    ensures Always(moves, AllInverse) <==> Never(moves, FilesTwice)
  {
    hide Base, AllInverse, FilesTwice, Can, Apply;
    forall w, m | AllInverse(w) && Can(w, m) ensures AllInverse(Apply(w, m)) <==> !FilesTwice(w, m) {
      InverseStep(w, m);
    }
    Exactly(moves, AllInverse, FilesTwice) by { StartInverse(); }
  }

  lemma StartInverse()
    ensures AllInverse(START_TABLES)
  {}

  /** The same answer about two heaps of one device. */
  predicate Repeats(a: Move, b: Move)
  {
    a.Receives? && b.Receives? && a.d == b.d && a.id == b.id && a.heap != b.heap
  }

  /** No client ever answers with the same id, or twice with 0, for two heaps of one device. */
  ghost predicate NoneRepeated(moves: seq<Move>)
  {
    forall i, j :: 0 <= i < |moves| && 0 <= j < |moves| ==> !Repeats(moves[i], moves[j])
  }

  /** The client of d was asked about heap and answered id, among the first n moves. */
  ghost predicate Answers(moves: seq<Move>, n: nat, d: nat, heap: Heap, id: nat)
  {
    exists i :: 0 <= i < n && i < |moves| && moves[i] == Receives(d, heap, id)
  }

  ghost predicate AllAnswered(moves: seq<Move>, n: nat, w: World)
  {
    forall d, id :: d in w.devs && id in w.devs[d].memory.ids ==>
      Answers(moves, n, d, w.devs[d].memory.ids[id], id)
  }

  lemma AnswersLater(moves: seq<Move>, n: nat, d: nat, heap: Heap, id: nat)
    requires n < |moves| && (Answers(moves, n, d, heap, id) || moves[n] == Receives(d, heap, id))
    ensures Answers(moves, n + 1, d, heap, id)
  {}

  lemma AnsweredStep(moves: seq<Move>, n: nat, w: World)
    requires n < |moves| && Can(w, moves[n]) && AllAnswered(moves, n, w)
    ensures AllAnswered(moves, n + 1, Apply(w, moves[n]))
  {
    var t := Apply(w, moves[n]);
    hide Answers;
    forall d, id | d in t.devs && id in t.devs[d].memory.ids
      ensures Answers(moves, n + 1, d, t.devs[d].memory.ids[id], id)
    {
      AnswersLater(moves, n, d, t.devs[d].memory.ids[id], id);
    }
  }

  lemma {:induction false} AnsweredAt(moves: seq<Move>, n: nat)
    requires Runs(moves) && n <= |moves|
    ensures AllAnswered(moves, n, At(moves, n))
  {
    hide Can, Apply, Answers;
    if n > 0 {
      AnsweredAt(moves, n - 1);
      Prefix(moves, n - 1);
      AnsweredStep(moves, n - 1, At(moves, n - 1));
    }
  }

  lemma NotFiledTwice(moves: seq<Move>, n: nat)
    requires Runs(moves) && NoneRepeated(moves) && n < |moves| && AllInverse(At(moves, n))
    ensures !FilesTwice(At(moves, n), moves[n])
  {
    hide Runs;
    AnsweredAt(moves, n);
    var w, m := At(moves, n), moves[n];
    if m.Receives? && m.d in w.devs && m.id in w.devs[m.d].memory.ids {
      var heap := w.devs[m.d].memory.ids[m.id];
      assert Answers(moves, n, m.d, heap, m.id);
      var i :| 0 <= i < n && moves[i] == Receives(m.d, heap, m.id);
      assert !Repeats(moves[i], moves[n]);
      assert Inverse(w.devs[m.d].memory);
    }
  }

  /** With clients whose answers never repeat for one device the maps are always inverse. */
  lemma {:induction false} InverseUnlessRepeated(moves: seq<Move>, n: nat)
    requires Runs(moves) && NoneRepeated(moves) && n <= |moves|
    ensures AllInverse(At(moves, n))
  {
    hide AllInverse, NoneRepeated, Can, Apply, FilesTwice;
    if n == 0 {
      StartInverse();
    } else {
      InverseUnlessRepeated(moves, n - 1);
      NotFiledTwice(moves, n - 1);
      Prefix(moves, n - 1);
      InverseStep(At(moves, n - 1), moves[n - 1]);
    }
  }

  // Primary sessions.

  /** d is open as its camera's primary session. */
  predicate PrimarySession(w: World, d: nat) { InPhase(w, d, Open) && w.devs[d].device && !w.devs[d].extension }

  ghost predicate OnePrimary(w: World)
  {
    forall d, e :: PrimarySession(w, d) && PrimarySession(w, e) && w.devs[d].camera == w.devs[e].camera ==> d == e
  }

  /** A primary session enters over one that is open. */
  predicate Displaces(w: World, m: Move)
  {
    && m.OpenEnter? && InPhase(w, m.d, Opening) && !w.devs[m.d].extension && w.devs[m.d].camera in w.primary
    && PrimarySession(w, w.primary[w.devs[m.d].camera])
  }

  ghost predicate Listed(w: World)
  {
    forall d :: PrimarySession(w, d) ==> w.devs[d].camera in w.primary && w.primary[w.devs[d].camera] == d
  }

  lemma ListedStep(w: World, m: Move)
    requires Base(w) && Listed(w) && Can(w, m) && !Displaces(w, m)
    ensures Listed(Apply(w, m))
  {
    hide SlotsFit, FreeSlot;
  }

  lemma DisplacedStep(w: World, m: Move)
    requires Base(w) && OnePrimary(w) && Can(w, m) && Displaces(w, m)
    ensures !OnePrimary(Apply(w, m))
  {
    hide SlotsFit, FreeSlot;
    var t := Apply(w, m);
    assert PrimarySession(t, m.d) && PrimarySession(t, w.primary[w.devs[m.d].camera]);
  }

  /** No camera ever has two primary sessions exactly if none enters over one that is open. */
  lemma OnePrimaryEach(moves: seq<Move>)
    requires Runs(moves)
    ensures Always(moves, OnePrimary) <==> Never(moves, Displaces)
  {
    hide Base, Displaces, Can, Apply, Runs, PrimarySession;
    if Never(moves, Displaces) {
      forall w, m | Base(w) && Listed(w) && Can(w, m) && !Displaces(w, m) ensures Listed(Apply(w, m)) {
        ListedStep(w, m);
      }
      assert Listed(START_TABLES) by { StartListed(); }
      forall n | 0 <= n <= |moves| ensures OnePrimary(At(moves, n)) {
        NeverThenAlways(moves, n, Listed, Displaces);
      }
    }
    if Always(moves, OnePrimary) {
      forall w, m | Base(w) && OnePrimary(w) && Can(w, m) && Displaces(w, m) ensures !OnePrimary(Apply(w, m)) {
        DisplacedStep(w, m);
      }
      AlwaysThenNever(moves, OnePrimary, Displaces);
    }
  }

  lemma StartListed()
    ensures Listed(START_TABLES)
  {}

  // Opening an open device.

  /** open is called on an open device that is not its camera's primary session any more. */
  predicate Reopens(w: World, m: Move)
  {
    m.OpenDecide? && InPhase(w, m.d, Open) && w.devs[m.d].camera !in w.primary
  }

  /** What only reopening a displaced device breaks. */
  ghost predicate Orderly(w: World)
  {
    && (forall d :: d in w.devs && !w.devs[d].extension ==> w.devs[d].memory == NOTHING)
    && (forall d :: d in w.extensions && d in w.devs ==> w.devs[d].extension)
    && (forall d :: InPhase(w, d, Opening) && !w.devs[d].extension ==> w.devs[d].slot < 0)
    && (forall d :: d in w.devs && d !in w.extensions && !w.devs[d].phase.Left? ==> w.devs[d].memory == NOTHING)
  }

  lemma OrderlyStep(w: World, m: Move)
    requires Base(w) && Orderly(w) && Can(w, m) && !Reopens(w, m)
    ensures Orderly(Apply(w, m))
  {
    hide Orderly, SlotsFit, TablesFit;
    match m
    case OpenDecide(d, ok) => OrderlyDecide(w, d, ok);
    case OpenEnter(d) => OrderlyEnter(w, d);
    case _ => OrderlyMove(w, m);
  }

  lemma OrderlyDecide(w: World, d: nat, ok: bool)
    requires TablesFit(w) && Orderly(w) && d in w.devs
    requires w.devs[d].phase.Idle? || (w.devs[d].phase.Open? && w.devs[d].camera in w.primary)
    ensures Orderly(Decide(w, d, ok))
  {
    assert w.devs[d].phase.Idle? ==> d !in w.extensions && InPhase(w, d, Idle);
    hide TablesFit;
  }

  lemma OrderlyEnter(w: World, d: nat)
    requires Orderly(w) && InPhase(w, d, Opening)
    ensures Orderly(Enter(w, d))
  {
    hide FreeSlot;
  }

  lemma OrderlyMove(w: World, m: Move)
    requires TablesFit(w) && Orderly(w) && Can(w, m) && !m.OpenDecide? && !m.OpenEnter?
    ensures Orderly(Apply(w, m))
  {
    assert m.New? ==> m.d !in w.extensions;
    assert m.CloseClear? ==> m.d !in w.extensions;
    hide TablesFit;
  }

  /** Without that, slots, memory and heaps are as they should be in every state. */
  lemma OrderlyRuns(moves: seq<Move>)
    requires Runs(moves) && Never(moves, Reopens)
    ensures Always(moves, SlotTable) && Always(moves, ClosedClean) && Always(moves, HeapsLive)
  {
    hide Base, Runs, Can, Apply, SlotTable, ClosedClean, HeapsLive;
    assert Never(moves, Reclaims) && Never(moves, LeavesMemory) && Never(moves, BringsDead) by {
      forall n | 0 <= n < |moves|
        ensures !Reclaims(At(moves, n), moves[n]) && !LeavesMemory(At(moves, n), moves[n])
        ensures !BringsDead(At(moves, n), moves[n])
      {
        OrderlyAt(moves, n);
      }
    }
    SlotIffOwner(moves);
    ClosedHoldsNothing(moves);
    PutHeapForgotten(moves);
  }

  lemma OrderlyAt(moves: seq<Move>, n: nat)
    requires Runs(moves) && Never(moves, Reopens) && n <= |moves|
    ensures Orderly(At(moves, n))
  {
    hide Base, Runs, Can, Apply, Orderly, Reopens;
    forall w, m | Base(w) && Orderly(w) && Can(w, m) && !Reopens(w, m) ensures Orderly(Apply(w, m)) {
      OrderlyStep(w, m);
    }
    assert Orderly(START_TABLES) by { StartOrderly(); }
    NeverThenAlways(moves, n, Orderly, Reopens);
  }

  lemma StartOrderly()
    ensures Orderly(START_TABLES)
  {}

  /** Opening an open device again keeps the slots right exactly if it has none or comes back as an extension. */
  lemma ReopeningLosesSlot(moves: seq<Move>, d: nat)
    requires Runs(moves) && InPhase(End(moves), d, Open) && SlotTable(End(moves))
    ensures var w := End(moves);
      SlotTable(Enter(Decide(w, d, true), d)) <==> w.devs[d].slot < 0 || w.devs[d].camera in w.primary
  {
    hide SlotTable, SlotsFit, TablesFit, Runs, Enter;
    AtBase(moves, |moves|);
    assert moves[..|moves|] == moves;
    var w := End(moves);
    SameSlots(w, OpenDecide(d, true));
    SlotsFitStep(w, OpenDecide(d, true));
    EnterSlots(Decide(w, d, true), d);
  }

  lemma Extend(moves: seq<Move>, m: Move)
    requires Runs(moves) && Can(End(moves), m)
    ensures Runs(moves + [m]) && End(moves + [m]) == Apply(End(moves), m)
  {
    assert (moves + [m])[..|moves|] == moves;
  }

  /** Both devices of camera 0 have found that it has no primary session. */
  lemma BothDecided() returns (moves: seq<Move>)
    ensures Runs(moves)
    ensures var v := Dev(0, true, false, -1, NOTHING, Opening);
      End(moves) == World([None, None, None, None], map[], {}, {}, map[1 := v, 2 := v], {})
  {
    hide Runs, End;
    moves := [];
    assert Runs(moves) && End(moves) == START_TABLES by { StartRuns(); }
    Extend(moves, New(1, 0));
    moves := moves + [New(1, 0)];
    Extend(moves, New(2, 0));
    moves := moves + [New(2, 0)];
    Extend(moves, OpenDecide(1, true));
    moves := moves + [OpenDecide(1, true)];
    Extend(moves, OpenDecide(2, true));
    moves := moves + [OpenDecide(2, true)];
  }

  lemma StartRuns()
    ensures Runs([]) && End([]) == START_TABLES
  {}

  /** The two turns of open let another session in between: one camera can have two primary sessions. */
  lemma TwoPrimaries() returns (moves: seq<Move>)
    ensures Runs(moves) && PrimarySession(End(moves), 1) && PrimarySession(End(moves), 2)
    ensures var v := Dev(0, true, false, 0, NOTHING, Open);
      End(moves) == World([Some(1), Some(2), None, None], map[0 := 2], {}, {}, map[1 := v, 2 := v.(slot := 1)], {})
  {
    hide Runs, End;
    moves := BothDecided();
    assert FreeSlot(End(moves).slots, 0) == 0;
    Extend(moves, OpenEnter(1));
    moves := moves + [OpenEnter(1)];
    assert FreeSlot(End(moves).slots, 0) == 1;
    Extend(moves, OpenEnter(2));
    moves := moves + [OpenEnter(2)];
  }

  /** A displaced device that is opened again has two slots to its name, of which it remembers one. */
  lemma SlotLost() returns (moves: seq<Move>)
    ensures Runs(moves)
    ensures var w := End(moves);
      1 in w.devs && w.slots == [Some(1), Some(1), None, None] && w.devs[1].slot == 1 && !SlotTable(w)
  {
    hide Runs, End;
    moves := TwoPrimaries();
    Extend(moves, CloseShut(2));
    moves := moves + [CloseShut(2)];
    Extend(moves, CloseLeave(2));
    moves := moves + [CloseLeave(2)];
    assert End(moves).primary == map[] && End(moves).slots == [Some(1), None, None, None];
    Extend(moves, OpenDecide(1, true));
    moves := moves + [OpenDecide(1, true)];
    assert FreeSlot(End(moves).slots, 0) == 1;
    Extend(moves, OpenEnter(1));
    moves := moves + [OpenEnter(1)];
    assert End(moves).slots[0] == Some(1);
  }

  predicate NoneRefused(moves: seq<Move>)
  {
    forall k :: 0 <= k < |moves| && moves[k].Receives? ==> moves[k].id != 0
  }

  const FRAME_HEAP := Heap(7, 0, 1, 1)

  /** Device 1 is camera 0's primary session, device 2 an extension session that knows a heap under id 1. */
  lemma ExtensionRuns() returns (moves: seq<Move>)
    ensures Runs(moves) && NoneRefused(moves)
    ensures var m := Memory(map[FRAME_HEAP := 1], map[1 := FRAME_HEAP]);
      End(moves) == World([Some(1), None, None, None], map[0 := 1], {2}, {1},
                          map[1 := Dev(0, true, false, 0, NOTHING, Open), 2 := Dev(0, true, true, -1, m, Open)],
                          {FRAME_HEAP})
  {
    hide Runs, End;
    moves := PrimaryRuns();
    Extend(moves, New(2, 0));
    moves := moves + [New(2, 0)];
    Extend(moves, OpenDecide(2, true));
    moves := moves + [OpenDecide(2, true)];
    Extend(moves, OpenEnter(2));
    moves := moves + [OpenEnter(2)];
    Extend(moves, Allocate(FRAME_HEAP));
    moves := moves + [Allocate(FRAME_HEAP)];
    Extend(moves, Receives(2, FRAME_HEAP, 1));
    moves := moves + [Receives(2, FRAME_HEAP, 1)];
  }

  lemma PrimaryRuns() returns (moves: seq<Move>)
    ensures Runs(moves) && NoneRefused(moves)
    ensures End(moves) == World([Some(1), None, None, None], map[0 := 1], {}, {},
                                map[1 := Dev(0, true, false, 0, NOTHING, Open)], {})
  {
    hide Runs, End;
    moves := [];
    assert Runs(moves) && End(moves) == START_TABLES by { StartRuns(); }
    Extend(moves, New(1, 0));
    moves := moves + [New(1, 0)];
    Extend(moves, OpenDecide(1, true));
    moves := moves + [OpenDecide(1, true)];
    assert FreeSlot(End(moves).slots, 0) == 0;
    Extend(moves, OpenEnter(1));
    moves := moves + [OpenEnter(1)];
  }

  /** The client of a device opened again counts from 1 again: without any refusal two heaps share an id. */
  lemma NewClientCollides() returns (moves: seq<Move>)
    ensures Runs(moves) && NoneRefused(moves) && !AllInverse(End(moves))
  {
    hide Runs, End;
    moves := ExtensionRuns();
    var other := FRAME_HEAP.(address := 8);
    Extend(moves, OpenDecide(2, true));
    moves := moves + [OpenDecide(2, true)];
    Extend(moves, OpenEnter(2));
    moves := moves + [OpenEnter(2)];
    Extend(moves, Allocate(other));
    moves := moves + [Allocate(other)];
    Extend(moves, Receives(2, other, 1));
    moves := moves + [Receives(2, other, 1)];
    assert End(moves).devs[2].memory.foreign[FRAME_HEAP] == 1 && End(moves).devs[2].memory.ids[1] == other;
    assert !Inverse(End(moves).devs[2].memory);
  }

  /** The primary session is closed, and device 2, which has memory, is opened again as one. */
  lemma SuccessorRuns() returns (moves: seq<Move>)
    ensures Runs(moves)
    ensures var m := Memory(map[FRAME_HEAP := 1], map[1 := FRAME_HEAP]);
      End(moves) == World([Some(2), None, None, None], map[0 := 2], {2}, {},
                          map[1 := Dev(0, false, false, -1, NOTHING, Left), 2 := Dev(0, true, false, 0, m, Open)],
                          {FRAME_HEAP})
  {
    hide Runs, End;
    moves := ExtensionRuns();
    Extend(moves, CloseShut(1));
    moves := moves + [CloseShut(1)];
    Extend(moves, CloseLeave(1));
    moves := moves + [CloseLeave(1)];
    assert End(moves).primary == map[] && End(moves).slots == [None, None, None, None];
    Extend(moves, OpenDecide(2, true));
    moves := moves + [OpenDecide(2, true)];
    assert FreeSlot(End(moves).slots, 0) == 0;
    Extend(moves, OpenEnter(2));
    moves := moves + [OpenEnter(2)];
  }

  /** Closing it then leaves its memory. */
  lemma MemoryLeft() returns (moves: seq<Move>)
    ensures Runs(moves)
    ensures var m := Memory(map[FRAME_HEAP := 1], map[1 := FRAME_HEAP]);
      End(moves) == World([None, None, None, None], map[], {}, {},
                          map[1 := Dev(0, false, false, -1, NOTHING, Left), 2 := Dev(0, false, false, -1, m, Idle)],
                          {FRAME_HEAP})
    ensures !ClosedClean(End(moves))
  {
    hide Runs, End;
    moves := SuccessorRuns();
    Extend(moves, CloseShut(2));
    moves := moves + [CloseShut(2)];
    Extend(moves, CloseLeave(2));
    moves := moves + [CloseLeave(2)];
    assert End(moves).primary == map[] && End(moves).slots == [None, None, None, None];
    Extend(moves, CloseClear(2));
    moves := moves + [CloseClear(2)];
    assert InPhase(End(moves), 2, Idle) && FRAME_HEAP in End(moves).devs[2].memory.foreign;
  }

  /** And a heap that is put back then is still known when the device becomes an extension session once more. */
  lemma DeadHeapBack() returns (moves: seq<Move>)
    ensures Runs(moves) && !HeapsLive(End(moves))
  {
    hide Runs, End;
    moves := MemoryLeft();
    Extend(moves, PutMemory(FRAME_HEAP));
    moves := moves + [PutMemory(FRAME_HEAP)];
    Extend(moves, CloseClear(1));
    moves := moves + [CloseClear(1)];
    Extend(moves, OpenDecide(1, true));
    moves := moves + [OpenDecide(1, true)];
    assert FreeSlot(End(moves).slots, 0) == 0;
    Extend(moves, OpenEnter(1));
    moves := moves + [OpenEnter(1)];
    Extend(moves, OpenDecide(2, true));
    moves := moves + [OpenDecide(2, true)];
    Extend(moves, OpenEnter(2));
    moves := moves + [OpenEnter(2)];
    assert 2 in End(moves).extensions && FRAME_HEAP in End(moves).devs[2].memory.foreign;
    assert FRAME_HEAP !in End(moves).live;
  }

  // What the flags of a device tell.

  /** The latest of the moves that open or shut the camera module's device for d has opened it. */
  predicate Opened(moves: seq<Move>, d: nat)
  {
    moves != [] && var m := moves[|moves| - 1];
    if m.OpenDecide? && m.d == d then m.ok
    else if m.CloseShut? && m.d == d then false
    else Opened(moves[..|moves| - 1], d)
  }

  lemma NewIsNoDevice(moves: seq<Move>, d: nat)
    requires Runs(moves) && d !in End(moves).devs
    ensures !Opened(moves, d)
  {
    if moves != [] {
      NewIsNoDevice(moves[..|moves| - 1], d);
    }
  }

  /** A device holds the module's device exactly if its latest open went well and it was not shut since. */
  lemma {:induction false} DeviceIffOpened(moves: seq<Move>, d: nat)
    requires Runs(moves) && d in End(moves).devs
    ensures End(moves).devs[d].device <==> Opened(moves, d)
  {
    var before, m := moves[..|moves| - 1], moves[|moves| - 1];
    if d in End(before).devs {
      DeviceIffOpened(before, d);
    } else {
      NewIsNoDevice(before, d);
    }
    hide Can, Apply, Runs;
    FlagsStep(End(before), m, d);
  }

  lemma FlagsStep(w: World, m: Move, d: nat)
    requires Can(w, m) && d in Apply(w, m).devs
    ensures d in w.devs || m.New?
    ensures var v := Apply(w, m).devs[d];
      if m.OpenDecide? && m.d == d then v.device == m.ok && v.extension == (w.devs[d].camera in w.primary)
      else if d !in w.devs then !v.device && !v.extension
      else v.extension == w.devs[d].extension && v.device == (w.devs[d].device && !(m.CloseShut? && m.d == d))
    ensures m.OpenDecide? || m.CloseShut? ==> m.d in w.devs
  {
    hide FreeSlot;
  }

  /** The camera of d had a primary session when d was last opened, well or not. */
  predicate OpenedBeside(moves: seq<Move>, d: nat)
    requires Runs(moves)
    decreases |moves|
  {
    moves != [] && var before, m := moves[..|moves| - 1], moves[|moves| - 1];
    if m.OpenDecide? && m.d == d then End(before).devs[d].camera in End(before).primary else OpenedBeside(before, d)
  }

  lemma NewIsNotBeside(moves: seq<Move>, d: nat)
    requires Runs(moves) && d !in End(moves).devs
    ensures !OpenedBeside(moves, d)
  {
    if moves != [] {
      NewIsNotBeside(moves[..|moves| - 1], d);
    }
  }

  /** A device is an extension session exactly if its camera had a primary session at its latest open. */
  lemma {:induction false} ExtensionIffBeside(moves: seq<Move>, d: nat)
    requires Runs(moves) && d in End(moves).devs
    ensures End(moves).devs[d].extension <==> OpenedBeside(moves, d)
  {
    var before, m := moves[..|moves| - 1], moves[|moves| - 1];
    if d in End(before).devs {
      ExtensionIffBeside(before, d);
    } else {
      NewIsNotBeside(before, d);
    }
    hide Can, Apply, Runs;
    FlagsStep(End(before), m, d);
  }
}
