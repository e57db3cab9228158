/** The session tables of CameraDevice and the methods that change them. */
module CameraSessions {
  import opened Options
  import opened CameraFrames
  import opened CameraTables
  import opened CameraDevices

  ghost function Ids(devices: set<CameraDevice>): set<nat> { set d | d in devices :: d.id }

  lemma IdsPlus(devices: set<CameraDevice>, d: CameraDevice)
    ensures Ids(devices + {d}) == Ids(devices) + {d.id}
  {
    assert forall i :: i in Ids(devices) + {d.id} ==> i in Ids(devices + {d}) by {
      assert d in devices + {d};
      forall i | i in Ids(devices) ensures i in Ids(devices + {d}) {
        var e :| e in devices && e.id == i;
        assert e in devices + {d};
      }
    }
  }

  lemma IdsMinus(devices: set<CameraDevice>, d: CameraDevice)
    requires forall e :: e in devices && e.id == d.id ==> e == d
    ensures Ids(devices - {d}) == Ids(devices) - {d.id}
  {
    forall i | i in Ids(devices) - {d.id} ensures i in Ids(devices - {d}) {
      var e :| e in devices && e.id == i;
      assert e in devices - {d};
    }
  }

  ghost function IdOf(d: CameraDevice?): Option<nat> { if d == null then None else Some(d.id) }

  class Sessions {
    const sMemorySlots: array<CameraDevice?>
    var sPrimarySessions: map<nat, CameraDevice>
    var sExtensionSessions: set<CameraDevice>
    var sSonyClientSessions: set<CameraDevice>
    /** All device objects, by id, and the heaps not yet put back. */
    ghost var objects: map<nat, CameraDevice>
    ghost var live: set<Heap>

    ghost predicate Known(d: CameraDevice)
      reads this
    {
      d.id in objects && objects[d.id] == d
    }

    ghost predicate Valid()
      reads this, sMemorySlots
    {
      && sMemorySlots.Length == SLOTS
      && (forall i :: i in objects ==> objects[i].id == i)
      && (forall i :: 0 <= i < SLOTS && sMemorySlots[i] != null ==> Known(sMemorySlots[i]))
      && (forall c :: c in sPrimarySessions ==> Known(sPrimarySessions[c]))
      && (forall d :: d in sExtensionSessions ==> Known(d))
      && (forall d :: d in sSonyClientSessions ==> Known(d))
    }

    ghost function Slots(): seq<Option<nat>>
      reads sMemorySlots
    {
      SlotIds(sMemorySlots[..])
    }

    ghost function Primary(): map<nat, nat>
      reads this
    {
      map c | c in sPrimarySessions :: sPrimarySessions[c].id
    }

    ghost function Devs(): map<nat, Dev>
      reads this, objects.Values
    {
      map i | i in objects :: objects[i].View()
    }

    ghost function View(): World
      reads this, sMemorySlots, objects.Values
    {
      World(Slots(), Primary(), Ids(sExtensionSessions), Ids(sSonyClientSessions), Devs(), live)
    }

    lemma Seen(d: CameraDevice)
      requires Valid() && Known(d)
      ensures d.id in Devs() && Devs()[d.id] == d.View() && |Slots()| == SLOTS
      ensures d.mCameraIdInt in sPrimarySessions <==> d.mCameraIdInt in Primary()
    {}

    /** Only d has changed. */
    twostate lemma OneDevice(d: CameraDevice)
      requires old(Valid()) && old(Known(d)) && objects == old(objects)
      requires forall i :: i in objects && i != d.id ==> objects[i].View() == old(objects[i].View())
      ensures Devs() == old(Devs())[d.id := d.View()]
    {
      hide CameraDevice.View;
    }

    constructor ()
      ensures Valid() && View() == START_TABLES
    {
      sMemorySlots := new CameraDevice?[SLOTS](_ => null);
      sPrimarySessions, sExtensionSessions, sSonyClientSessions := map[], {}, {};
      objects, live := map[], {};
    }

    /** claimMemorySlot, whose compare-and-exchange cannot be interrupted by another claim. */
    method ClaimMemorySlot(d: CameraDevice) returns (slot: int)
      requires Valid() && Known(d)
      modifies sMemorySlots
      ensures Valid() && slot == FreeSlot(old(Slots()), 0) && slot < SLOTS
      ensures Slots() == if slot < 0 then old(Slots()) else old(Slots())[slot := Some(d.id)]
    {
      for i := 0 to SLOTS
        invariant FreeSlot(Slots(), 0) == FreeSlot(Slots(), i)
        invariant sMemorySlots[..] == old(sMemorySlots[..])
      {
        if sMemorySlots[i] == null {
          sMemorySlots[i] := d;
          return i;
        }
      }
      slot := -1;
    }

    /** releaseMemorySlot */
    method ReleaseMemorySlot(d: CameraDevice)
      requires Valid() && d.mMemorySlot < SLOTS
      modifies sMemorySlots, d`mMemorySlot
      ensures Valid() && d.mMemorySlot < 0 && (old(d.mMemorySlot) < 0 ==> d.mMemorySlot == old(d.mMemorySlot))
      ensures old(d.mMemorySlot) >= 0 ==> d.mMemorySlot == -1
      ensures Slots() == if old(d.mMemorySlot) >= 0 then old(Slots())[old(d.mMemorySlot) := None] else old(Slots())
    {
      if d.mMemorySlot >= 0 {
        sMemorySlots[d.mMemorySlot] := null;
        d.mMemorySlot := -1;
      }
    }

    /** sGetMemorySlot: the device on whose behalf the camera gets memory, if the slot is in use. */
    method GetMemorySlot(slot: nat) returns (d: CameraDevice?)
      requires Valid() && slot < SLOTS
      ensures d == sMemorySlots[slot]
      ensures SlotTable(View()) ==> forall i :: i in objects ==> (objects[i] == d <==> objects[i].mMemorySlot == slot)
    {
      d := sMemorySlots[slot];
      SlotOwner(slot);
    }

    lemma SlotOwner(slot: nat)
      requires Valid() && slot < SLOTS
      ensures SlotTable(View()) ==>
        forall i :: i in objects ==> (objects[i] == sMemorySlots[slot] <==> objects[i].mMemorySlot == slot)
    {
      forall i | i in objects && SlotTable(View())
        ensures objects[i] == sMemorySlots[slot] <==> objects[i].mMemorySlot == slot
      {
        assert Devs()[i].slot == objects[i].mMemorySlot;
        assert View().slots[slot] == Some(i) <==> Devs()[i].slot == slot;
        assert View().slots[slot] == IdOf(sMemorySlots[slot]);
      }
    }

    /** open, up to the camera module's answer. */
    method OpenDecide(d: CameraDevice, callback: DeviceCallback, ok: bool)
      requires Valid() && Known(d)
      modifies d
      ensures Valid() && View() == Decide(old(View()), d.id, ok)
    {
      d.mExtension := d.mCameraIdInt in sPrimarySessions;
      if ok {
        d.mDevice, d.mDeviceCallback, d.phase := true, callback, Opening;
      } else {
        d.mDevice := false;
      }
      OneDevice(d);
      hide Devs, Slots, Primary, Ids;
    }

    method EnterExtension(d: CameraDevice)
      requires Valid() && Known(d)
      modifies this`sExtensionSessions, this`sSonyClientSessions
      ensures Valid() && Primary() == old(Primary())
      ensures Ids(sExtensionSessions) == old(Ids(sExtensionSessions)) + {d.id}
      ensures Ids(sSonyClientSessions) == old(Ids(sSonyClientSessions)) +
        if d.mCameraIdInt in sPrimarySessions then {Primary()[d.mCameraIdInt]} else {}
    {
      hide Ids;
      IdsPlus(sExtensionSessions, d);
      sExtensionSessions := sExtensionSessions + {d};
      if d.mCameraIdInt in sPrimarySessions {
        IdsPlus(sSonyClientSessions, sPrimarySessions[d.mCameraIdInt]);
        sSonyClientSessions := sSonyClientSessions + {sPrimarySessions[d.mCameraIdInt]};
      }
    }

    method EnterPrimary(d: CameraDevice)
      requires Valid() && Known(d)
      modifies this`sPrimarySessions, sMemorySlots, d`mMemorySlot
      ensures Valid() && Primary() == old(Primary())[d.mCameraIdInt := d.id]
      ensures d.mMemorySlot == FreeSlot(old(Slots()), 0) && d.mMemorySlot < SLOTS
      ensures Slots() == if d.mMemorySlot < 0 then old(Slots()) else old(Slots())[d.mMemorySlot := Some(d.id)]
    {
      hide Slots, FreeSlot, Ids, Devs;
      d.mMemorySlot := ClaimMemorySlot(d);
      sPrimarySessions := sPrimarySessions[d.mCameraIdInt := d];
    }

    /** open, under sSessionLock for the second time. */
    method OpenEnter(d: CameraDevice)
      requires Valid() && Known(d)
      modifies this`sPrimarySessions, this`sExtensionSessions, this`sSonyClientSessions
      modifies sMemorySlots, d`mMemorySlot, d`phase
      ensures Valid() && View() == Enter(old(View()), d.id)
    {
      hide Devs, Slots, Ids, FreeSlot, Primary;
      Seen(d);
      if d.mExtension { EnterExtension(d); } else { EnterPrimary(d); }
      d.phase := Open;
      hide Valid;
      OneDevice(d);
    }

    /** closeLocked: the camera module's device is closed first. */
    method CloseShut(d: CameraDevice)
      requires Valid() && Known(d)
      modifies d`mDevice, d`phase
      ensures Valid() && View() == Shut(old(View()), d.id)
    {
      d.mDevice := false;
      d.phase := Closing;
      OneDevice(d);
      hide Devs, Slots, Primary, Ids;
    }

    method LeaveTables(d: CameraDevice)
      requires Valid() && Known(d)
      modifies this`sPrimarySessions, this`sExtensionSessions, this`sSonyClientSessions
      ensures Valid()
      ensures Ids(sExtensionSessions) == old(Ids(sExtensionSessions)) - {d.id}
      ensures Ids(sSonyClientSessions) == old(Ids(sSonyClientSessions)) - {d.id}
      ensures Primary() ==
        if d.mCameraIdInt in old(Primary()) && old(Primary())[d.mCameraIdInt] == d.id
        then old(Primary()) - {d.mCameraIdInt} else old(Primary())
    {
      hide Ids;
      if d.mCameraIdInt in sPrimarySessions && sPrimarySessions[d.mCameraIdInt] == d {
        sPrimarySessions := sPrimarySessions - {d.mCameraIdInt};
      }
      IdsMinus(sExtensionSessions, d);
      IdsMinus(sSonyClientSessions, d);
      sExtensionSessions := sExtensionSessions - {d};
      sSonyClientSessions := sSonyClientSessions - {d};
    }

    /** closeLocked under sSessionLock. */
    method CloseLeave(d: CameraDevice)
      requires Valid() && Known(d) && -1 <= d.mMemorySlot < SLOTS
      modifies this`sPrimarySessions, this`sExtensionSessions, this`sSonyClientSessions
      modifies sMemorySlots, d`mMemorySlot, d`phase
      ensures Valid() && View() == Leave(old(View()), d.id)
    {
      hide Devs, Slots, Primary, Ids;
      Seen(d);
      LeaveTables(d);
      ReleaseMemorySlot(d);
      d.phase := Left;
      hide Valid;
      OneDevice(d);
    }

    /** closeLocked under the lock of the memory maps. */
    method CloseClear(d: CameraDevice)
      requires Valid() && Known(d)
      modifies d`mForeignMemory, d`mMemoryMap, d`phase
      ensures Valid() && View() == Clear(old(View()), d.id)
    {
      if d.mExtension {
        d.mForeignMemory := map[];
        d.mMemoryMap := map[];
      }
      d.phase := Idle;
      OneDevice(d);
      hide Devs, Slots, Primary, Ids;
    }

    /** The extension sessions outside rest have forgotten heap. */
    twostate predicate HaveForgotten(heap: Heap, rest: set<CameraDevice>)
      reads this, objects.Values
    {
      forall i :: i in old(objects) && i in objects ==>
        objects[i].View() ==
          if objects[i] in sExtensionSessions && objects[i] !in rest
          then old(objects[i].View()).(memory := Forget(old(objects[i].View()).memory, heap))
          else old(objects[i].View())
    }

    twostate lemma AllHaveForgotten(heap: Heap)
      requires old(Valid()) && objects == old(objects) && sExtensionSessions == old(sExtensionSessions)
      requires HaveForgotten(heap, {})
      ensures Devs() == PutBack(old(View()), heap).devs
    {
      hide CameraDevice.View, Forget;
      forall i | i in objects ensures i in Ids(sExtensionSessions) <==> objects[i] in sExtensionSessions {}
    }

    lemma ExtensionsKnown()
      requires Valid()
      ensures forall d :: d in sExtensionSessions ==> d.id in objects && objects[d.id] == d
    {}

    ghost method Drop(heap: Heap)
      requires Valid()
      modifies this`live
      ensures Valid() && View() == old(View()).(live := old(live) - {heap})
    {
      live := live - {heap};
    }

    /** sForgetForeignMemory; heard says which clients learn that the heap is unregistered. */
    method ForgetForeignMemory(heap: Heap, heard: set<CameraDevice>)
      requires Valid()
      modifies sExtensionSessions
      modifies set d | d in sExtensionSessions && d.mDeviceCallback != null :: d.mDeviceCallback
      ensures Valid() && HaveForgotten(heap, {})
    {
      hide Forget, Valid, CameraDevice.View;
      ExtensionsKnown();
      var rest := sExtensionSessions;
      while rest != {}
        invariant rest <= sExtensionSessions && HaveForgotten(heap, rest)
        invariant forall d :: d in sExtensionSessions ==> d.mDeviceCallback == old(d.mDeviceCallback)
        decreases |rest|
      {
        var d :| d in rest;
        assert d.View() == old(d.View()) by { assert objects[d.id].View() == old(objects[d.id].View()); }
        d.ForgetForeignMemory(heap, d in heard);
        rest := rest - {d};
      }
    }

    /** sPutMemory: all sessions forget the heap before it goes. */
    method PutMemory(heap: Heap, heard: set<CameraDevice>)
      requires Valid()
      modifies this`live, sExtensionSessions
      modifies set d | d in sExtensionSessions && d.mDeviceCallback != null :: d.mDeviceCallback
      ensures Valid() && View() == PutBack(old(View()), heap)
    {
      hide Slots, Ids, Forget, Valid, HaveForgotten, Devs, Primary;
      ForgetForeignMemory(heap, heard);
      AllHaveForgotten(heap);
      Drop(heap);
    }
  }

  ghost function SlotIds(slots: seq<CameraDevice?>): (ids: seq<Option<nat>>)
    ensures |ids| == |slots| && forall i :: 0 <= i < |slots| ==> ids[i] == IdOf(slots[i])
  {
    seq(|slots|, i requires 0 <= i < |slots| => IdOf(slots[i]))
  }
}
