/** Camera device objects, their shared session tables, and the client's callback object. */
module CameraDevices {
  import opened Options
  import opened CameraFrames
  import opened CameraTables

  /** The client's DeviceCallback. */
  class DeviceCallback {
    var mHeaps: map<nat, Mapping>
    var mNextId: nat
    /** Whether the application has set a timestamp callback. */
    var mDataTimestamp: bool

    ghost function View(): Client reads this { Client(mHeaps, mNextId) }

    constructor ()
      ensures View() == Client(map[], 1) && !mDataTimestamp
    {
      mHeaps, mNextId, mDataTimestamp := map[], 1, false;
    }

    method RegisterMemory(base: Option<nat>, bufferSize: nat, bufferCount: nat) returns (id: nat)
      modifies this`mHeaps, this`mNextId
      ensures (View(), id) == Register(old(View()), base, bufferSize, bufferCount)
    {
      if base.None? { return 0; }
      id := mNextId;
      mNextId := mNextId + 1;
      mHeaps := mHeaps[id := Mapping(base.value, bufferSize, bufferCount)];
    }

    method UnregisterMemory(id: nat)
      modifies this`mHeaps
      ensures View() == Unregister(old(View()), id)
    {
      mHeaps := mHeaps - {id};
    }

    /** The heaps are searched in no particular order. */
    method FindFrame(address: nat) returns (frame: Option<Frame>)
      ensures Found(View(), address, frame)
    {
      var rest := mHeaps.Keys;
      while rest != {}
        invariant rest <= mHeaps.Keys
        invariant forall id :: id in mHeaps && id !in rest ==> !Holds(mHeaps[id], address)
        decreases |rest|
      {
        var id :| id in rest;
        if Holds(mHeaps[id], address) {
          return Some(Frame(id, (address - mHeaps[id].base) / mHeaps[id].bufSize));
        }
        rest := rest - {id};
      }
      frame := None;
    }

    method DataCallbackTimestamp(id: nat, index: nat) returns (delivered: Option<nat>)
      ensures delivered == if mDataTimestamp then Delivered(View(), Frame(id, index)) else None
    {
      if id !in mHeaps || index >= mHeaps[id].numBufs || !mDataTimestamp { return None; }
      delivered := Some(mHeaps[id].base + index * mHeaps[id].bufSize);
    }

    /** releaseRecordingFrame on the client's side. */
    method ReleaseRecordingFrame(device: CameraDevice, address: nat) returns (released: Option<nat>)
      ensures exists frame ::
        && Found(View(), address, frame)
        && released == if frame.None? then None else Released(device.Memories(), device.mDevice, frame.value)
    {
      var frame := FindFrame(address);
      if frame.None? { return None; }
      released := device.ReleaseRecordingFrame(frame.value.id, frame.value.index);
    }
  }

  class CameraDevice {
    const mCameraIdInt: nat
    /** Whether the camera module's device is open. */
    var mDevice: bool
    var mExtension: bool
    var mMemorySlot: int
    var mDeviceCallback: DeviceCallback?
    var mForeignMemory: map<Heap, nat>
    var mMemoryMap: map<nat, Heap>
    ghost var phase: Phase
    /** Tells device objects apart. */
    ghost const id: nat

    ghost function View(): Dev
      reads this
    {
      Dev(mCameraIdInt, mDevice, mExtension, mMemorySlot, Memories(), phase)
    }

    ghost function Memories(): Memory reads this { Memory(mForeignMemory, mMemoryMap) }

    constructor (cameraId: nat, ghost id: nat)
      ensures View() == Dev(cameraId, false, false, -1, NOTHING, Idle) && mDeviceCallback == null && this.id == id
    {
      this.id := id;
      mCameraIdInt, mDevice, mExtension, mMemorySlot, mDeviceCallback := cameraId, false, false, -1, null;
      mForeignMemory, mMemoryMap, phase := map[], map[], Idle;
    }

    /** foreignMemoryId; data is None for a null pointer, and the client's reply may be lost. */
    method ForeignMemoryId(data: Option<Heap>, base: Option<nat>, replied: bool) returns (id: Option<nat>)
      requires mDeviceCallback != null
      modifies this`mForeignMemory, this`mMemoryMap, mDeviceCallback`mHeaps, mDeviceCallback`mNextId
      ensures data.None? ==>
        id == Some(NO_MEMORY) && Memories() == old(Memories()) && mDeviceCallback.View() == old(mDeviceCallback.View())
      ensures data.Some? ==>
        var s := System(old(mDeviceCallback.View()), old(Memories()), true, map[]);
        var t := Registered(s, data.value, base, replied);
        && mDeviceCallback.View() == t.client && Memories() == t.memory
        && id == if data.value in t.memory.foreign then Some(t.memory.foreign[data.value]) else None
    {
      if data.None? { return Some(NO_MEMORY); }
      var mem := data.value;
      if mem in mForeignMemory { return Some(mForeignMemory[mem]); }
      var reply := mDeviceCallback.RegisterMemory(base, mem.bufSize, mem.numBufs);
      if !replied { return None; }
      mForeignMemory := mForeignMemory[mem := reply];
      mMemoryMap := mMemoryMap[reply := mem];
      id := Some(reply);
    }

    /** sExtDataCbTimestamp; the result is the address at which the client's application gets the frame. */
    method ExtDataCbTimestamp(data: Option<Heap>, index: nat, base: Option<nat>, replied: bool)
      returns (delivered: Option<nat>)
      modifies this`mForeignMemory, this`mMemoryMap, mDeviceCallback
      ensures data.None? || mDeviceCallback == null ==>
        delivered == None && Memories() == old(Memories())
      ensures data.Some? && mDeviceCallback != null ==>
        var s := System(old(mDeviceCallback.View()), old(Memories()), true, map[]);
        var t := Registered(s, data.value, base, replied);
        && mDeviceCallback.View() == t.client && Memories() == t.memory
        && delivered == if data.value !in t.memory.foreign || !mDeviceCallback.mDataTimestamp then None
                        else Delivered(t.client, Frame(t.memory.foreign[data.value], index))
    {
      delivered := None;
      if data.None? || mDeviceCallback == null { return; }
      var id := ForeignMemoryId(data, base, replied);
      if id.None? { return; }
      delivered := mDeviceCallback.DataCallbackTimestamp(id.value, index);
    }

    /** What sForgetForeignMemory does to one session; the client may not hear of it. */
    method ForgetForeignMemory(mem: Heap, heard: bool)
      modifies this`mForeignMemory, this`mMemoryMap, mDeviceCallback
      ensures View() == old(View()).(memory := Forget(old(View()).memory, mem))
      ensures mDeviceCallback == old(mDeviceCallback)
      ensures mDeviceCallback != null ==>
        mDeviceCallback.View() ==
          if mem in old(mForeignMemory) && heard
          then Unregister(old(mDeviceCallback.View()), old(mForeignMemory)[mem])
          else old(mDeviceCallback.View())
    {
      if mem !in mForeignMemory { return; }
      if mDeviceCallback != null && heard { mDeviceCallback.UnregisterMemory(mForeignMemory[mem]); }
      mMemoryMap := mMemoryMap - {mForeignMemory[mem]};
      mForeignMemory := mForeignMemory - {mem};
    }

    /** releaseRecordingFrameLocked; the result is the address that the camera gets back. */
    method ReleaseRecordingFrame(memId: nat, bufferIndex: nat) returns (data: Option<nat>)
      ensures data == Released(Memories(), mDevice, Frame(memId, bufferIndex))
    {
      if !mDevice || memId !in mMemoryMap { return None; }
      var camMemory := mMemoryMap[memId];
      if bufferIndex >= camMemory.numBufs { return None; }
      data := Some(camMemory.data + bufferIndex * camMemory.bufSize);
    }
  }
}
