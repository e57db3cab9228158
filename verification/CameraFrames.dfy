/** The two-sided memory registry of an extension session, and the way back of a delivered frame. */
module CameraFrames {
  import opened Options

  const NO_MEMORY: nat := 0xffff_ffff

  /**
   * A camera heap: the object's address, where the camera's process maps it, and its buffers. The address
   * tells objects apart; it is used again only after the object was put back.
   */
  datatype Heap = Heap(address: nat, data: nat, bufSize: nat, numBufs: nat)

  /** The same memory where the client's process maps it. */
  datatype Mapping = Mapping(base: nat, bufSize: nat, numBufs: nat)

  /** The client's side: mHeaps and mNextId. */
  datatype Client = Client(heaps: map<nat, Mapping>, nextId: nat)

  /** The device's side: mForeignMemory and mMemoryMap. */
  datatype Memory = Memory(foreign: map<Heap, nat>, ids: map<nat, Heap>)

  datatype Frame = Frame(id: nat, index: nat)

  /** base is where the memory came to be mapped, None if the descriptor is bad or cannot be mapped. */
  function Register(c: Client, base: Option<nat>, bufSize: nat, numBufs: nat): (Client, nat)
  {
    if base.None? then (c, 0)
    else (Client(c.heaps[c.nextId := Mapping(base.value, bufSize, numBufs)], c.nextId + 1), c.nextId)
  }

  function Unregister(c: Client, id: nat): Client { c.(heaps := c.heaps - {id}) }

  function End(m: Mapping): nat { m.base + m.bufSize * m.numBufs }

  predicate Holds(m: Mapping, address: nat) { m.bufSize != 0 && m.base <= address < End(m) }

  /** What searching the client's heaps for an address may answer. */
  ghost predicate Found(c: Client, address: nat, frame: Option<Frame>)
  {
    match frame
    case None => forall id :: id in c.heaps ==> !Holds(c.heaps[id], address)
    case Some(f) =>
      && f.id in c.heaps && Holds(c.heaps[f.id], address)
      && f.index == (address - c.heaps[f.id].base) / c.heaps[f.id].bufSize
  }

  /** The address of a delivered frame, if the client knows its memory. */
  function Delivered(c: Client, f: Frame): Option<nat>
  {
    if f.id !in c.heaps || f.index >= c.heaps[f.id].numBufs then None
    else Some(c.heaps[f.id].base + f.index * c.heaps[f.id].bufSize)
  }

  /** A frame's heap gets the id that the client answers, unless it has one. */
  function Answered(m: Memory, heap: Heap, id: nat): Memory
  {
    if heap in m.foreign then m else Memory(m.foreign[heap := id], m.ids[id := heap])
  }

  function Forget(m: Memory, heap: Heap): Memory
  {
    if heap !in m.foreign then m else Memory(m.foreign - {heap}, m.ids - {m.foreign[heap]})
  }

  /** The address that a release reaches in the camera's process. */
  function Released(m: Memory, open: bool, f: Frame): Option<nat>
  {
    if !open || f.id !in m.ids || f.index >= m.ids[f.id].numBufs then None
    else Some(m.ids[f.id].data + f.index * m.ids[f.id].bufSize)
  }

  // Frame arithmetic.

  lemma MulMono(a: nat, b: nat, k: nat)
    requires a <= b
    ensures a * k <= b * k
  {}

  lemma DivFrame(i: nat, k: nat, r: nat)
    requires r < k
    ensures (i * k + r) / k == i
  {
    var x := i * k + r;
    var q := x / k;
    assert x == q * k + x % k;
    if q < i {
      MulMono(q + 1, i, k);
    } else if q > i {
      MulMono(i + 1, q, k);
    }
  }

  predicate Apart(a: Mapping, b: Mapping)
  {
    a.bufSize * a.numBufs == 0 || b.bufSize * b.numBufs == 0 || End(a) <= b.base || End(b) <= a.base
  }

  ghost predicate Disjoint(c: Client)
  {
    forall x, y :: x in c.heaps && y in c.heaps && x != y ==> Apart(c.heaps[x], c.heaps[y])
  }

  lemma InFrame(m: Mapping, index: nat, offset: nat)
    requires index < m.numBufs && offset < m.bufSize
    ensures Holds(m, m.base + index * m.bufSize + offset)
    ensures (index * m.bufSize + offset) / m.bufSize == index
  {
    DivFrame(index, m.bufSize, offset);
    MulMono(index + 1, m.numBufs, m.bufSize);
    assert (index + 1) * m.bufSize == index * m.bufSize + m.bufSize;
  }

  lemma HeldOnce(a: Mapping, b: Mapping, address: nat)
    requires Apart(a, b) && Holds(a, address)
    ensures !Holds(b, address)
  {}

  /** Any address inside frame index of memory id is found as that frame. */
  lemma FrameFound(c: Client, f: Frame, offset: nat, found: Option<Frame>)
    requires Disjoint(c) && Delivered(c, f).Some? && offset < c.heaps[f.id].bufSize
    requires Found(c, Delivered(c, f).value + offset, found)
    ensures found == Some(f)
  {
    hide Holds, Apart;
    var m := c.heaps[f.id];
    var address := Delivered(c, f).value + offset;
    InFrame(m, f.index, offset);
    assert found.Some?;
    if found.value.id != f.id { HeldOnce(m, c.heaps[found.value.id], address); }
    assert address - m.base == f.index * m.bufSize + offset;
  }

  // Runs of an extension session, from its opening on.

  /** origin remembers for which heap the client handed out an id. */
  datatype System = System(client: Client, memory: Memory, open: bool, origin: map<nat, Heap>)

  datatype Step =
    | Deliver(heap: Heap, base: Option<nat>, replied: bool)
    | Put(heap: Heap, replied: bool)
    | Close

  const START := System(Client(map[], 1), Memory(map[], map[]), true, map[])

  /** foreignMemoryId: the first frame of a heap registers it; the client may do so and its reply be lost. */
  function Registered(s: System, heap: Heap, base: Option<nat>, replied: bool): System
  {
    if heap in s.memory.foreign then s
    else
      var (client, id) := Register(s.client, base, heap.bufSize, heap.numBufs);
      var memory := if replied then Answered(s.memory, heap, id) else s.memory;
      System(client, memory, s.open, if base.None? then s.origin else s.origin[id := heap])
  }

  /** sForgetForeignMemory for this session; the client may not hear of it. */
  function Forgotten(s: System, heap: Heap, replied: bool): System
  {
    if heap !in s.memory.foreign then s
    else s.(client := if replied then Unregister(s.client, s.memory.foreign[heap]) else s.client,
            memory := Forget(s.memory, heap))
  }

  function Next(s: System, step: Step): System
  {
    match step
    case Deliver(heap, base, replied) => Registered(s, heap, base, replied)
    case Put(heap, replied) => Forgotten(s, heap, replied)
    case Close => s.(open := false, memory := Memory(map[], map[]))
  }

  /** Frames come only while the session is open, and memory is mapped where nothing is. */
  ghost predicate Enabled(s: System, step: Step)
  {
    match step
    case Deliver(heap, base, _) =>
      s.open && (base.Some? ==>
        forall x :: x in s.client.heaps ==> Apart(s.client.heaps[x], Mapping(base.value, heap.bufSize, heap.numBufs)))
    case _ => true
  }

  /** t follows from s by these steps. */
  ghost predicate Leads(s: System, steps: seq<Step>, t: System)
    decreases |steps|
  {
    if steps == [] then t == s else Enabled(s, steps[0]) && Leads(Next(s, steps[0]), steps[1..], t)
  }

  ghost predicate Inv(s: System)
  {
    && s.client.nextId > 0
    && (forall id :: id in s.client.heaps ==> 0 < id < s.client.nextId)
    && Disjoint(s.client)
    && (forall id :: id in s.origin <==> 0 < id < s.client.nextId)
    && Linked(s)
    && Paired(s)
  }

  /** A device id is one that the client gave for this heap and still knows. */
  ghost predicate Linked(s: System)
  {
    forall id :: id in s.memory.ids && id != 0 ==>
      && id in s.origin && s.origin[id] == s.memory.ids[id]
      && id in s.client.heaps
      && s.client.heaps[id].bufSize == s.memory.ids[id].bufSize
      && s.client.heaps[id].numBufs == s.memory.ids[id].numBufs
  }

  /** Away from id 0, which stands for a failed registration, the two maps are inverse. */
  ghost predicate Paired(s: System)
  {
    && (forall h :: h in s.memory.foreign && s.memory.foreign[h] != 0 ==>
        s.memory.foreign[h] in s.memory.ids && s.memory.ids[s.memory.foreign[h]] == h)
    && (forall id :: id in s.memory.ids && id != 0 ==>
        s.memory.ids[id] in s.memory.foreign && s.memory.foreign[s.memory.ids[id]] == id)
  }

  lemma RegisteredInv(s: System, heap: Heap, base: Option<nat>, replied: bool)
    requires Inv(s) && Enabled(s, Deliver(heap, base, replied))
    ensures Inv(Registered(s, heap, base, replied))
  {}

  lemma ForgottenInv(s: System, heap: Heap, replied: bool)
    requires Inv(s)
    ensures Inv(Forgotten(s, heap, replied))
  {}

  /** An id once handed out belongs to its heap for ever, and once forgotten is never used again. */
  ghost predicate Later(s: System, t: System)
  {
    && s.client.nextId <= t.client.nextId
    && (forall id :: id in s.origin ==> id in t.origin && t.origin[id] == s.origin[id])
    && (forall id :: id in t.memory.ids && 0 < id < s.client.nextId ==> id in s.memory.ids)
    && (forall id :: id in t.client.heaps && id < s.client.nextId ==>
        id in s.client.heaps && t.client.heaps[id] == s.client.heaps[id])
    && (t.open ==> s.open)
  }

  lemma StepLater(s: System, step: Step)
    requires Inv(s) && Enabled(s, step)
    ensures Inv(Next(s, step)) && Later(s, Next(s, step))
  {
    match step
    case Deliver(heap, base, replied) => RegisteredInv(s, heap, base, replied);
    case Put(heap, replied) => ForgottenInv(s, heap, replied);
    case Close =>
  }

  lemma {:induction false} RunLater(s: System, steps: seq<Step>, t: System)
    requires Inv(s) && Leads(s, steps, t)
    ensures Inv(t) && Later(s, t)
    decreases |steps|
  {
    if steps != [] {
      StepLater(s, steps[0]);
      var u := Next(s, steps[0]);
      RunLater(u, steps[1..], t);
      hide Inv, Next;
      LaterTransitive(s, u, t);
    }
  }

  lemma LaterTransitive(s: System, u: System, t: System)
    requires Later(s, u) && Later(u, t)
    ensures Later(s, t)
  {}

  ghost predicate Reachable(s: System) { exists steps: seq<Step> :: Leads(START, steps, s) }

  lemma ReachableInv(s: System)
    requires Reachable(s)
    ensures Inv(s)
  {
    var steps :| Leads(START, steps, s);
    RunLater(START, steps, s);
  }

  /** Heap is registered under id, and the client could map it. */
  predicate Registers(s: System, heap: Heap, id: nat)
  {
    heap in s.memory.foreign && s.memory.foreign[heap] == id && id != 0
  }

  function Buffer(heap: Heap, index: nat): nat { heap.data + index * heap.bufSize }

  /** The frame that was delivered is the one that any address inside it releases. */
  lemma ReleaseReturns(s: System, heap: Heap, id: nat, index: nat, offset: nat, found: Option<Frame>)
    requires Reachable(s) && s.open && Registers(s, heap, id) && index < heap.numBufs && offset < heap.bufSize
    ensures Delivered(s.client, Frame(id, index)).Some?
    ensures Found(s.client, Delivered(s.client, Frame(id, index)).value + offset, found) ==>
      found == Some(Frame(id, index))
    ensures Released(s.memory, s.open, Frame(id, index)) == Some(Buffer(heap, index))
  {
    ReachableInv(s);
    hide Reachable;
    if Found(s.client, Delivered(s.client, Frame(id, index)).value + offset, found) {
      FrameFound(s.client, Frame(id, index), offset, found);
    }
  }

  /**
   * A release that was sent for a frame of heap arrives however much later: it reaches that frame's buffer
   * if the heap is still registered as it was, and otherwise none at all.
   */
  lemma LateRelease(s: System, steps: seq<Step>, t: System, heap: Heap, id: nat, index: nat)
    requires Reachable(s) && Leads(s, steps, t) && Registers(s, heap, id) && index < heap.numBufs
    ensures Released(t.memory, t.open, Frame(id, index))
      == if t.open && Registers(t, heap, id) then Some(Buffer(heap, index)) else None
  {
    ReachableInv(s);
    RunLater(s, steps, t);
    hide Reachable, Leads;
    assert s.origin[id] == heap;
  }

  /** An address that the client still finds after any steps is found as the same frame of the same memory. */
  lemma LateFind(s: System, steps: seq<Step>, t: System, f: Frame, offset: nat, found: Option<Frame>)
    requires Reachable(s) && Leads(s, steps, t) && Delivered(s.client, f).Some? && f.id in t.client.heaps
    requires offset < s.client.heaps[f.id].bufSize
    requires Found(t.client, Delivered(s.client, f).value + offset, found)
    ensures found == Some(f)
  {
    ReachableInv(s);
    RunLater(s, steps, t);
    hide Reachable, Leads;
    assert f.id < s.client.nextId;
    FrameFound(t.client, f, offset, found);
  }

  /** An id that has been unregistered stays so: every release naming it is rejected. */
  lemma ForgottenForEver(s: System, heap: Heap, replied: bool, steps: seq<Step>, t: System, id: nat, index: nat)
    requires Reachable(s) && Registers(s, heap, id) && Leads(Forgotten(s, heap, replied), steps, t)
    ensures Released(t.memory, t.open, Frame(id, index)) == None
  {
    ReachableInv(s);
    ForgottenInv(s, heap, replied);
    RunLater(Forgotten(s, heap, replied), steps, t);
    hide Reachable, Leads;
  }

  ghost predicate Inverse(m: Memory)
  {
    && (forall h :: h in m.foreign ==> m.foreign[h] in m.ids && m.ids[m.foreign[h]] == h)
    && (forall id :: id in m.ids ==> m.ids[id] in m.foreign && m.foreign[m.ids[id]] == id)
  }

  /** Heaps whose registration the client refused. */
  ghost predicate Refused(m: Memory, h: Heap) { h in m.foreign && m.foreign[h] == 0 }

  /** The client refuses a heap, and its answer arrives, while another heap is filed under id 0. */
  predicate Collides(s: System, step: Step)
  {
    step.Deliver? && step.heap !in s.memory.foreign && step.base.None? && step.replied && 0 in s.memory.ids
  }

  predicate NeverCollides(s: System, steps: seq<Step>)
    decreases |steps|
  {
    steps == [] || (!Collides(s, steps[0]) && NeverCollides(Next(s, steps[0]), steps[1..]))
  }

  /** The maps are inverse in s and after each of the steps. */
  ghost predicate InverseThroughout(s: System, steps: seq<Step>)
    decreases |steps|
  {
    Inverse(s.memory) && (steps == [] || InverseThroughout(Next(s, steps[0]), steps[1..]))
  }

  lemma AnsweredInverse(m: Memory, heap: Heap, id: nat)
    requires Inverse(m)
    ensures Inverse(Answered(m, heap, id)) <==> heap in m.foreign || id !in m.ids
  {
    if heap !in m.foreign && id in m.ids {
      assert Answered(m, heap, id).foreign[m.ids[id]] == id;
    }
  }

  lemma ForgetInverse(m: Memory, heap: Heap)
    requires Inverse(m)
    ensures Inverse(Forget(m, heap))
  {}

  lemma InverseStep(s: System, step: Step)
    requires Inv(s) && Inverse(s.memory)
    ensures Inverse(Next(s, step).memory) <==> !Collides(s, step)
  {
    assert s.client.nextId !in s.memory.ids;
    hide Inv, Inverse, Answered, Forget;
    match step
    case Deliver(heap, base, replied) =>
      AnsweredInverse(s.memory, heap, if base.None? then 0 else s.client.nextId);
    case Put(heap, replied) => ForgetInverse(s.memory, heap);
    case Close => EmptyInverse();
  }

  lemma EmptyInverse()
    ensures Inverse(Memory(map[], map[]))
  {}

  lemma {:induction false} InverseFrom(s: System, steps: seq<Step>, t: System)
    requires Inv(s) && Inverse(s.memory) && Leads(s, steps, t)
    ensures InverseThroughout(s, steps) <==> NeverCollides(s, steps)
    decreases |steps|
  {
    hide Inv, Inverse, Next, Collides;
    if steps != [] {
      InverseStep(s, steps[0]);
      StepLater(s, steps[0]);
      if !Collides(s, steps[0]) { InverseFrom(Next(s, steps[0]), steps[1..], t); }
    }
  }

  /** A session's maps are inverse all the time exactly if no refusal meets one that is filed already. */
  lemma MapsInverse(steps: seq<Step>, t: System)
    requires Leads(START, steps, t)
    ensures InverseThroughout(START, steps) <==> NeverCollides(START, steps)
  {
    InverseFrom(START, steps, t);
  }

  ghost predicate RefusesNone(steps: seq<Step>)
  {
    forall k :: 0 <= k < |steps| && steps[k].Deliver? ==> steps[k].base.Some?
  }

  lemma {:induction false} NoneCollides(s: System, steps: seq<Step>)
    requires RefusesNone(steps)
    ensures NeverCollides(s, steps)
    decreases |steps|
  {
    if steps != [] { NoneCollides(Next(s, steps[0]), steps[1..]); }
  }

  /** So with a client that refuses nothing the maps are always inverse. */
  lemma FreshIdsInverse(steps: seq<Step>, t: System)
    requires Leads(START, steps, t) && RefusesNone(steps)
    ensures InverseThroughout(START, steps)
  {
    NoneCollides(START, steps);
    MapsInverse(steps, t);
  }

  /** Two refused heaps share id 0, so that the maps are not inverse. */
  lemma RefusalsCollide() returns (s: System)
    ensures Reachable(s) && s.open && !Inverse(s.memory)
  {
    var a, b := Heap(1, 0, 1, 1), Heap(2, 0, 1, 1);
    var steps := [Deliver(a, None, true), Deliver(b, None, true)];
    var u := Next(START, steps[0]);
    s := Next(u, steps[1]);
    assert steps[1..] == [steps[1]] && steps[1..][1..] == [];
    assert Leads(u, steps[1..], s);
    assert Leads(START, steps, s);
    assert s.memory.foreign[a] == 0 && s.memory.ids[0] == b && a != b;
  }

  /** A refused heap's frames are never delivered, nor can any address name them. */
  lemma RefusedIsSilent(s: System, heap: Heap, index: nat, address: nat, found: Option<Frame>)
    requires Reachable(s) && Refused(s.memory, heap) && Found(s.client, address, found)
    ensures Delivered(s.client, Frame(s.memory.foreign[heap], index)) == None
    ensures found.Some? ==> found.value.id != 0
  {
    ReachableInv(s);
  }
}
