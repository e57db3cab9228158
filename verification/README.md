# Models and proofs for a Sony phone's vendor support code

This project models five parts of the repository in Dafny and proves what they promise:

* the translator that turns a version 2 GPU program binary into a version 7 one
  (`Words`, `Bits`, `Seal` and the `Xlate` files);
* the timer loop, wake lock, pending requests and callback registration of the RIL daemon (the `Ril` files);
* the camera parameter string, in its parsed and its unparsed form, and its translation between the vendor's
  and an application's view (`Strings`, `CameraParams`, `CameraFlat`, `CameraFixups`, `CameraShown`);
* the frame memory that a camera device and its client both keep account of, and the tables that all camera
  devices share (`CameraFrames`, `CameraTables`, `CameraDevices`, `CameraSessions`);
* the FM daemon's command lines and its two ways of exchanging HCI events (the `Fm` files).

Code that changes state is modelled by methods over arrays, linked nodes and objects with the original's
fields. Each method is proved against a specification function or predicate; lemmas over whole runs are then
proved about those. Code that threads share is a set of atomic steps, one for each critical section (or each
whole function where the code takes no lock), and run lemmas quantify over every interleaving of them.

Environment assumptions, all stated as guards of steps or as arguments: `read` and `recv` may return any
positive part of what was asked for or fail at any time; the monotonic clock never goes back and relative times
are normalised and not negative; a client's answer over binder may be lost; memory is mapped where nothing else
is mapped. Allocation succeeds except where the wake lock code handles its failure.

What stands out in the code:

* `WellFormedV2` collects what `translate_v2_to_v7` relies on without checking it. Beyond unique types and
  section starts inside the file this includes that every followed aux pair lies word-aligned in the symbol
  section, that the object table lies behind the header words and ends at or before the first object, and that
  the search for a byte in use behind that table ends inside the new file: the window of up to 1120 bytes from the
  table ends there, or a byte of the section stops the search. `XlateSample` exhibits a file that meets all of it.
* A symbol pointer is relocated by where its target's section goes. Targets that stay at their place in the
  section are found again (`PointerFollows`); one at or behind the first object of a grown code section is missed
  by 56 bytes (`PointerFallsShort`). Pointers into the program header follow it (`PointerToHeader`); in a file without
  one the same offsets are sent to the front of the file (`RelocHeader`).
* Relocation is strictly increasing from offset 0x244 on exactly if the first moved section starts at or before
  0x248; the padding in front of a later one is owned by no section and stays put (`RelocIncreasingEverywhere`).
* `getRadioServiceRwlock` compares its argument with 2, 3 and 4 while slots are numbered from 0, so that slots 0
  and 1 share a lock and the last lock is not used. The callback proofs hold with the locks as they are chosen.
* `checkReturnStatus` expects its caller to hold the slot's lock, but the error answers of requests (`setupDataCall`
  with an unknown MVNO type, for one) reach it without any. Then a client that registers between the failing call
  and the noting of the counter is wiped (`NewerRegistrationLost`; `ResetHitsOnlyTheDead` and `NotedLate` say exactly
  when), and the caller keeps a read lock that blocks all later registrations of the slot (`ThenNobodyRegisters`).
  With callers that hold the lock neither happens (`LockedCallersAreSafe`).
* A failed grab of the wake lock drops the lock even if others still count on it (`FailedGrabDropsLock`). In every
  run the lock is held exactly while the count is positive and the latest grab did not fail (`HeldIffCounted`).
* A client that refuses to register memory answers 0, and the device files heaps under that id as well. Its two
  maps stay inverse exactly if no refusal arrives while another heap is filed under id 0 (`MapsInverse`,
  `RefusalsCollide`). Frames of refused heaps are never delivered. A device opened again keeps its maps while its new
  client counts from 1, so there ids collide even without a refusal (`NewClientCollides`).
* `open` looks for a primary session and registers one in two separate critical sections, so two devices can
  become primary sessions of one camera (`TwoPrimaries`). A camera has at most one exactly if none enters the
  second section over an open one (`OnePrimaryEach`).
* `open` does not refuse a device that is open. One that was displaced from its camera then claims a second slot
  and loses track of the first (`SlotLost`, `ReopeningLosesSlot`). `SlotIffOwner`, `ClosedHoldsNothing` and
  `PutHeapForgotten` give the exact step that breaks each invariant, and `SlotLost`, `MemoryLeft` and `DeadHeapBack`
  are runs that get there; no run reaches any of these steps unless an
  open device is opened again while its camera has no primary session (`OrderlyRuns`).
* HDR scene mode set while recording is not shown again, and a stabiliser left at still HDR shows a scene mode
  that was never set (`SceneSurvives` says exactly when the scene mode survives).
* An event longer than the caller's buffer is an error on the serial line and is cut on the message socket; the
  two transports agree exactly if the event fits or one is queued (`WaitsAgree`).

The HCI packet layout follows the Bluetooth Core Specification 5.2: Volume 4 Part A section 2 (packet
indicators), Volume 4 Part E section 5.4.1 (opcodes), 5.4.4 (event packets) and 7.7.14 (Command Complete).

## Model

| member | source | states |
|---|---|---|
| `Seal.ComputeRotXor` | libshim/alfort_xlate.c:40-44 | the in-place loop computes the recursive checksum of the whole buffer, with 32-bit rotation |
| `Seal.SealBits` | libshim/alfort_xlate.c:40-44 | bit k of the checksum is the parity of the bits that rotation brings there: of byte i of n bytes the one 7 * (n - i) places lower around the word |
| `Bits.WordBits` | libshim/alfort_xlate.c:30-31 | a word is read lowest byte first, as on the device: bit 8 * i + j of the word at an offset is bit j of byte i |
| `Seal.OneByteChangesSeal` | libshim/alfort_xlate.c:40-44 | byte strings of any length that differ in exactly one byte never have the same checksum |
| `XlateTable.ParseTable` | libshim/alfort_xlate.c:103-109 | the working rows are the 13 entries of the file's table, with their own sizes and no place yet |
| `XlateTable.ComputeSpans` | libshim/alfort_xlate.c:111-115 | the quadratic search gives every row the distance to the least start above its own, or to the end of the file |
| `XlateTable.ComputeSizes` | libshim/alfort_xlate.c:117-124 | new sizes by type: 20 for a type 5 of size 16, the key length for type 2, 56 more for grown code, else unchanged |
| `XlateTable.CollectStarts` | libshim/alfort_xlate.c:126-131 | deduplication and insertion sort leave exactly the distinct starts in ascending order |
| `XlateTable.SortStarts` | libshim/alfort_xlate.c:131 | the in-place insertion sort keeps the elements and makes them strictly ascending, given that none repeats |
| `XlateTable.FindOwner` | libshim/alfort_xlate.c:153-154 | the last row at a start owns the slot, and its length reaches the next start |
| `XlateTable.Place` | libshim/alfort_xlate.c:133-162 | every row gets the place of its slot in the plan; the map and the running offset are the plan's |
| `XlateTable.Relocate` | libshim/alfort_xlate.c:181-203 | the relocation macros compute the plan's relocation, and report a match exactly if some slot holds the offset |
| `XlateLayout.NextStartIsEnd` | libshim/alfort_xlate.c:111-115 | the span of each section ends where the next distinct start lies: sections lie back to back |
| `XlateLayout.SlotStep` | libshim/alfort_xlate.c:136-162 | new slots are 4-aligned, and each starts at most three bytes behind the one before it, four behind the header group |
| `XlateLayout.SlotsDisjoint` | libshim/alfort_xlate.c:136-162 | new slots keep the old section order, are pairwise disjoint and lie inside the new file |
| `XlateLayout.NewFileFits` | libshim/alfort_xlate.c:164 | no 32-bit offset wraps: the new size is below 2^31 |
| `XlateLayout.RelocInSlot` | libshim/alfort_xlate.c:181-191 | an old offset inside a moved section is found in that section's slot and keeps its distance to the start |
| `XlateLayout.RelocIncreasing` | libshim/alfort_xlate.c:181-191 | relocation is strictly increasing on offsets that lie in moved sections |
| `XlateLayout.RelocGap` | libshim/alfort_xlate.c:181-191 | offsets of the padding before the first moved section are not relocated |
| `XlateLayout.RelocIncreasingEverywhere` | libshim/alfort_xlate.c:181-191 | from 0x244 on relocation is strictly increasing if and only if the first moved section starts at or before 0x248 |
| `XlateFile.MatchedExactly` | libshim/alfort_xlate.c:193-203 | relocation matches exactly the 84 offsets of the header group and those from the first moved section to the end of the file |
| `XlateFile.RelocHeader` | libshim/alfort_xlate.c:181-191 | an offset of the old header keeps its distance to the header: to 0x208 if it was in front, to its slot if it has one, to 0 if there is none |
| `XlateFile.RelocBehindHeader` | libshim/alfort_xlate.c:181-191 | the 20 offsets behind the old header, in the group, stay where they are |
| `XlateFile.SlotSizes` | libshim/alfort_xlate.c:147-161 | slots have exactly the room that the section needs (20 bytes for type 5 of size 16, 56 more for grown code), in whole words, and the size in the new table fits them if it fitted |
| `XlateCode.OpenGap` | libshim/alfort_xlate.c:233-235 | the move and the clearing leave the bytes before the insertion point, 56 zero bytes, and then the old rest |
| `XlateCode.ShiftOffsets` | libshim/alfort_xlate.c:237-238 | exactly the offset word of each listed entry grows by 56 |
| `XlateCode.AppendsIffClean` | libshim/alfort_xlate.c:240-247 | the decision made on the rewritten bytes is one about the old section: unused window, first object behind it |
| `XlateCode.RewriteTable` | libshim/alfort_xlate.c:237-255 | the grown section is right byte by byte, appended types and count included |
| `XlateCode.ObjectsKept` | libshim/alfort_xlate.c:232-238 | each rewritten table entry leads to exactly the object's old bytes, 56 further on |
| `XlateCode.AppendedTypes` | libshim/alfort_xlate.c:240-254 | when types are appended the table lists 56: the new ones empty, older ones unchanged but for their offset, no object byte touched |
| `XlateSymbols.FixWord` | libshim/alfort_xlate.c:266-271 | a pointer is relocated if it is matched (or always, where the code says so), and nothing else is written |
| `XlateSymbols.FixAux` | libshim/alfort_xlate.c:273-282 | the pair written through the relocated aux pointer is the pair at its old place in the section, relocated |
| `XlateSymbols.FixRecords` | libshim/alfort_xlate.c:262-283 | after the record loop exactly the words of the records and their aux pairs are relocated |
| `XlateSymbols.FixBlocks` | libshim/alfort_xlate.c:285-289 | the trailing loop relocates exactly the heads of blocks whose third word is all ones |
| `XlateSymbols.FixSymbols` | libshim/alfort_xlate.c:258-290 | although the loops overlap, each word ends as the old word or its relocation, decided by its position alone |
| `Xlate.WriteSection` | libshim/alfort_xlate.c:221-296 | one section is copied and rewritten by its owner's type; everything outside its slot is untouched |
| `Xlate.WriteGroup` | libshim/alfort_xlate.c:205-219 | build key and program header, the latter with the new symbol count, land at their places |
| `Xlate.WriteRows` | libshim/alfort_xlate.c:298-306 | the new table holds type plus one, new place and size, count and next of every row, and zeros |
| `Xlate.WriteSeal` | libshim/alfort_xlate.c:308-310 | recomputing the checksum with the seal word cleared gives the stored word; nothing but seal and driver key changes |
| `Xlate.Translate` | libshim/alfort_xlate.c:95-316 | the error codes in the order of the checks and of the missing key, and for a version 2 file a complete translated file |
| `XlateMeaning.TranslatedCarries` | libshim/alfort_xlate.c:95-316 | what the translator writes is a file that carries every section translated |
| `XlateMeaning.VerbatimByte` | libshim/alfort_xlate.c:181-227 | out[RELOC(p)] == in[p] for every byte p of a section that is copied as it is |
| `XlateMeaning.ByteStays` | libshim/alfort_xlate.c:181-296 | every byte that stays at its place is found at its relocated offset: of a symbol section all outside the relocated words, of a code section all before the first object that is not table, of other sections all but a rewritten head |
| `XlateMeaning.SymbolWord` | libshim/alfort_xlate.c:258-290 | each word of the new symbol section, read in the file, is the old word or its relocation |
| `XlateMeaning.PointerFollows` | libshim/alfort_xlate.c:181-290 | following a rewritten symbol pointer, aligned or not, finds the byte that the old pointer found, for every target that stays at its place |
| `XlateMeaning.PointerToSymbol` | libshim/alfort_xlate.c:181-290 | a pointer to a symbol word finds that word, relocated in turn if it is a pointer |
| `XlateFile.PointerToHeader` | libshim/alfort_xlate.c:181-219 | a symbol pointer into the program header finds the same byte of it in the new file, and one to its first word the new symbol count |
| `XlateFile.PointerToMovedHeader` | libshim/alfort_xlate.c:181-227 | if the header has a slot of its own, the pointer finds the byte as far into that section |
| `XlateFile.SymbolField` | libshim/alfort_xlate.c:262-271 | the word at 0x4c + 96 * r + 4 * f of the symbol section, for each record and its six fields, becomes its relocation |
| `XlateFile.AuxPair` | libshim/alfort_xlate.c:273-282 | both words of the pair that the fourth field leads to, read through the relocated pointer, are the old ones relocated |
| `XlateFile.BlockHead` | libshim/alfort_xlate.c:285-289 | each 32-byte block behind the records whose third word is all ones begins with its old first word relocated |
| `XlateFile.PointerHead` | libshim/alfort_xlate.c:292-295 | the first word of the pointer section is relocated |
| `XlateFile.CodeHead` | libshim/alfort_xlate.c:229-231 | the code section begins with the new symbol count, grown or not |
| `XlateFile.GapIsZero` | libshim/alfort_xlate.c:235 | the 56 bytes inserted before the first object are zero unless types were appended there |
| `XlateMeaning.PointerFallsShort` | libshim/alfort_xlate.c:181-290 | a pointer to a byte at or behind the first object of a grown code section lands 56 bytes before that byte, on the old byte 56 before it if that is an object byte too |
| `XlateMeaning.CodeByte` | libshim/alfort_xlate.c:229-257 | where each byte of the grown code section is found in the new file |
| `XlateMeaning.ObjectFollows` | libshim/alfort_xlate.c:229-257 | an object reached through the new file's table has its old bytes |
| `XlateMeaning.RowFollows` | libshim/alfort_xlate.c:298-306 | every row but that of a build key at 0x1f0 gives the relocation of its old place, where its section now starts; the program header's is the fixed one |
| `XlateFile.RowSays` | libshim/alfort_xlate.c:298-306 | all eight words of each new row in words of the old file: type plus one, relocated place, size by type, count and next unchanged, zeros |
| `XlateFile.HeaderSays` | libshim/alfort_xlate.c:168-176 | the new header: version 7, both sizes the length of the file, the new symbol count; so that translating it again gives -3 |
| `XlateFile.KeySays` | libshim/alfort_xlate.c:205-216 | a build key section in front holds the 20 bytes of the key that was looked up |
| `XlateMeaning.TamperingBreaksSeal` | libshim/alfort_xlate.c:308-310 | changing one byte of a finished file outside the seal word breaks the seal |
| `XlateSample.SampleIsWellFormed` | libshim/alfort_xlate.c:97-118 | a concrete file with a symbol and its aux pair meets everything that is demanded of a version 2 file, grown or not |
| `XlateSample.SamplePointer` | libshim/alfort_xlate.c:273-282 | in that file a live aux pair holds a pointer to a byte that stays, so that pointers do follow |
| `RilTime.Arithmetic` | libril/ril_event.cpp:37-66 | on normalised times the field-wise sum, difference and comparison are those of the instants, normalised again |
| `RilRing.InitList` | libril/ril_event.cpp:104-110 | a sentinel alone is an empty ring |
| `RilRing.AddToList` | libril/ril_event.cpp:112-119 | the node is linked in before the given one, next and prev stay inverse all around, other nodes keep their links |
| `RilRing.RemoveFromList` | libril/ril_event.cpp:121-131 | the node is taken out, its links cleared, and the rest stays a ring |
| `RilTimers.EventLoop.TimerAdd` | libril/ril_event.cpp:286-312 | the timer with deadline now plus tv goes in front of the first one with a deadline not below it |
| `RilTimers.EventLoop.ProcessTimeouts` | libril/ril_event.cpp:158-180 | exactly the timers due before now move, in order, to the end of the pending ring |
| `RilTimers.EventLoop.CalcNextTimeout` | libril/ril_event.cpp:215-238 | normalised max(0, deadline - now) of some timer, least over all timers, and nothing if none is queued |
| `RilTimers.EventLoop.FirePending` | libril/ril_event.cpp:202-213 | every pending event fires once, in order, while its callback may add timers; the pending ring is empty afterwards |
| `RilTimers.InsertSorted` | libril/ril_event.cpp:297-309 | inserting into a sorted queue gives a sorted queue: the timer stands behind exactly those due before it, in front of equal ones, and the others keep their order |
| `RilRuns.RunKeeps` | libril/ril_event.cpp:345-383 | over every run timers are neither lost nor doubled, queues stay sorted, and nothing overdue waits behind |
| `RilRuns.FiredInOrder` | libril/ril_event.cpp:345-383 | over every run fired deadlines never decrease, no timer fires twice, and each was fired by a step whose own pass had read a time behind its deadline |
| `RilRuns.NeverEarly` | libril/ril_event.cpp:345-383 | no timer fires before its own deadline |
| `RilRuns.PassIsComplete` | libril/ril_event.cpp:345-383 | after a pass nothing is pending and every armed timer due before that pass's now has fired |
| `RilLoop.AddTimer` | libril/ril_event.cpp:286-312 | adding a timer to the objects continues the run by its step |
| `RilLoop.FiringRuns` | libril/ril_event.cpp:202-213 | firing all pending events while callbacks add timers is a run of alternating steps, with the queue that the loop leaves |
| `RilLoop.Pass` | libril/ril_event.cpp:375-381 | a turn of the loop on the objects continues a run by a whole pass: afterwards the queue is sorted with nothing overdue, nothing is pending, and timers have fired in the order of deadlines |
| `RilWake.WakeLock.GrabPartialWakeLock` | libril/ril.cpp:660-684 | counts, cancels the previous wake timer and remembers the new one, or drops the lock if none could be queued |
| `RilWake.WakeLock.ReleaseWakeLock` | libril/ril.cpp:686-708 | counts down, and the last release drops the lock and cancels the timer |
| `RilWake.WakeLock.UserTimerCallback` | libril/ril.cpp:348-362 | an uncancelled expiry drops the lock and the count; the last timer is forgotten when it is the one that expired |
| `RilWake.HeldHasRelease` | libril/ril.cpp:660-731 | in every reachable state an uncancelled queued wake timer is the latest one; while the lock is held there is one, due a timeout after the latest grab, and the count is positive |
| `RilWake.ExpiryReleases` | libril/ril.cpp:713-731 | when that timer expires the lock is released, whatever the count |
| `RilWake.HeldIsBounded` | libril/ril.cpp:660-731 | between passes a lock is held only if the last pass began within the timeout of the latest grab |
| `RilWake.HeldIffCounted` | libril/ril.cpp:660-708 | in every run the lock is held exactly while the count is positive and the latest grab did not fail, so the count tells it exactly if it is zero or that grab did not fail |
| `RilWake.CountIsBalance` | libril/ril.cpp:660-731 | in every run the count is the balance of grabs and releases, never below zero, since the timer of the latest grab last expired |
| `RilWake.HeldUntilReleased` | libril/ril.cpp:660-708 | in a run without an expiry where no release precedes its grab, the lock is held exactly until the releases have caught up with the grabs, unless the latest grab failed |
| `RilWake.FailedGrabDropsLock` | libril/ril.cpp:668-671 | a reachable state in which a failed grab has dropped a lock that is still counted |
| `RilRequests.Requests.AddRequestToList` | libril/ril.cpp:205-259 | an unknown request is refused; any other goes to the front of its slot's list and of no other |
| `RilRequests.Requests.CheckAndDequeue` | libril/ril.cpp:512-566 | found exactly if listed for its slot; an ack only marks it, anything else removes exactly it |
| `RilRequests.Requests.OnRequestAck` | libril/ril.cpp:568-600 | lists stay as they are, and an acknowledgement goes out for a listed request that is not cancelled |
| `RilRequests.Requests.OnRequestComplete` | libril/ril.cpp:601-658 | the request leaves its list and its response, with its type, goes out unless it is local or cancelled |
| `RilRequestRuns.LivesAtHome` | libril/ril.cpp:205-259 | in every run a request is only ever on the list of its own slot |
| `RilRequestRuns.AnsweredOnce` | libril/ril.cpp:601-658 | in every run each request is answered at most once |
| `RilRequestRuns.PendingUntilCompleted` | libril/ril.cpp:512-658 | whatever acks, cancellations and requests come, a pending request stays so exactly until its completion |
| `RilRequestRuns.CompleteRemovesOne` | libril/ril.cpp:601-658 | a completion takes off its own request, every other one stays as pending as it was |
| `RilRequestRuns.WithoutExact` | libril/ril.cpp:546-561 | removing an element of a list without repeats removes exactly it and keeps the order |
| `RilRequestRuns.ResponseType` | libril/ril.cpp:631-640 | the response to a request neither local nor cancelled has type 3 (ACK_EXP) exactly when version >= 13 and an ack was accepted before, and else type 0 |
| `RilRequestRuns.AnsweredUnlessMarked` | libril/ril.cpp:601-658 | in every run a completed request is answered exactly if it was neither cancelled nor marked as local since it was added |
| `RilRequestRuns.AckedUnlessCancelled` | libril/ril.cpp:568-600 | an ack is acknowledged exactly if the request is pending and was not cancelled since it was added |
| `RilRequests.ListsShared` | libril/ril.cpp:205-240 | slots that the SIM count covers have lists of their own, two others share the first |
| `RilCallbacks.ServiceImpl.ResetIfUnchanged` | libril/ril_service.cpp:797-812 | the callbacks are cleared and the counter raised exactly if the counter is the one noted |
| `RilCallbacks.ServiceImpl.SetResponseFunctions` | libril/ril_service.cpp:834-844 | a registration replaces all callbacks, the 1.1 pair only together, and raises the counter |
| `RilCallbacks.ClientsServed` | libril/ril_service.cpp:834-844 | in every run a service holds exactly the pointers that the client in force gave, the 1.1 ones exactly if it gave both and both speak it, and none if no client is in force |
| `RilCallbacks.LockShared` | libril/ril_service.cpp:8837-8851 | two slots share a lock exactly if neither number is from 2 to the SIM count, so slots 0 and 1 always do |
| `RilCallbacks.ResetHitsOnlyTheDead` | libril/ril_service.cpp:777-821 | over all interleavings, with callers that hold the lock or not, a reset takes away another registration than the failed one if and only if the counter is the one noted but not the one at the failing call, and a client is registered; never for a caller with the lock |
| `RilCallbacks.NotedLate` | libril/ril_service.cpp:777-787 | the noted counter differs from the one at the failing call if and only if the callbacks were replaced in between |
| `RilCallbacks.NewerRegistrationSurvives` | libril/ril_service.cpp:777-821 | a registration newer than the failed one survives the reset of a caller that came with the lock |
| `RilCallbacks.LockedCallersAreSafe` | libril/ril_service.cpp:784-816 | in every run whose failing callers hold the lock no reset goes wrong and no lock is kept |
| `RilCallbacks.NewerRegistrationLost` | libril/ril_service.cpp:777-821 | a run in which a caller without the lock takes away a registration that is newer than the one whose call failed |
| `RilCallbacks.ClearedOnce` | libril/ril_service.cpp:777-821 | each registration is cleared at most once |
| `RilCallbacks.ReturnsWithReadLock` | libril/ril_service.cpp:813-821 | over every interleaving a thread that noted the counter comes back with its slot's lock for reading, even from the write lock; one that came without a lock keeps it |
| `RilCallbacks.KeptBlocks` | libril/ril_service.cpp:817-819 | as long as a thread keeps a lock, whatever the others do, no client can register with a slot of that lock |
| `RilCallbacks.ThenNobodyRegisters` | libril/ril_service.cpp:777-836 | a run after which all threads are outside and yet no registration with slot 0 or 1 can start, until the same caller fails again |
| `CameraParams.Parameters.constructor` | camera/device/SonyParameters.cpp:56-71 | the index loop builds the map that parsing entry by entry defines, for every input string |
| `CameraParams.Parameters.Set` | camera/device/SonyParameters.cpp:83-88 | a missing value, or one with '=' or ';' before its first NUL, is ignored; another is stored up to its NUL |
| `CameraParams.Parameters.Flatten` | camera/device/SonyParameters.cpp:92-101 | writes every entry once, in the order of the keys, separated by ';' |
| `CameraParams.ParseFlatten` | camera/device/SonyParameters.cpp:56-101 | parse(flatten(m)) == m for every map with '='-free keys and ';'-free values, in whatever order it is written |
| `CameraParams.LastEntryWins` | camera/device/SonyParameters.cpp:56-71 | of entries with the same key in a string the last one counts |
| `CameraParams.LessIs` | camera/device/SonyParameters.cpp:92-101 | keys are written in the order in which a prefix comes first and else the first different character decides |
| `CameraParams.ParseClean` | camera/device/SonyParameters.cpp:56-71 | the parser produces only such maps |
| `CameraParams.SetClean` | camera/device/SonyParameters.cpp:83-88 | setting under a '='-free key preserves them |
| `CameraParams.FlattenIdempotent` | camera/device/SonyParameters.cpp:56-101 | flatten after parse is idempotent, and keeps the map, on every string |
| `CameraFlat.SetParam` | camera/device/CameraDevice.cpp:129-134 | on a flattened string: the result stands for the map with that key updated, or for the same map if it is absent |
| `CameraFlat.FindParamIsFind` | camera/device/CameraDevice.cpp:116-122 | the prefix test and the search behind ';' together are one search in the string with a ';' put in front |
| `CameraFlat.GetParamIsLookup` | camera/device/CameraDevice.cpp:116-127 | on a flattened string getParam is map lookup, empty if absent |
| `CameraFlat.SetParamIsUpdate` | camera/device/CameraDevice.cpp:129-134 | parsing the result of setParam gives the map with that key updated, or unchanged if it is absent |
| `CameraFixups.FixupGetParameters` | camera/device/SonyParameters.cpp:113-161 | flattens the map that the vendor-to-application steps make of the parsed one |
| `CameraFixups.FixupSetParameters` | camera/device/SonyParameters.cpp:163-220 | flattens the map that the application-to-vendor steps make of the parsed one |
| `CameraFixups.ExposureSurvives` | camera/device/SonyParameters.cpp:113-220 | where "auto" is offered, shutter speed and ISO survive set then get exactly if ISO is "auto" or "iso-prio" is offered |
| `CameraFixups.SceneSurvives` | camera/device/SonyParameters.cpp:113-220 | exactly when the scene mode survives set then get, for every map |
| `CameraFixups.VideoHdrSurvives` | camera/device/SonyParameters.cpp:113-220 | exactly when the video HDR setting survives set then get, for every map |
| `CameraFixups.ApplicationSees` | camera/device/SonyParameters.cpp:113-220 | these three statements for the strings that go in and come out |
| `CameraFixups.IsoOffered` | camera/device/SonyParameters.cpp:121-128 | the ISO values shown are the vendor's, each behind "ISO", and then "auto" |
| `CameraShown.ExposureShown` | camera/device/SonyParameters.cpp:141-158 | whatever stood there: the vendor's ISO value is shown exactly in iso-prio and manual, its shutter speed exactly in shutter-prio and manual, "auto" in all other modes |
| `CameraShown.SceneShown` | camera/device/SonyParameters.cpp:130-132 | the scene mode is shown as hdr exactly if the stabiliser is on-still-hdr, and else unchanged |
| `CameraShown.VideoHdrShown` | camera/device/SonyParameters.cpp:134-138 | video HDR and its values are shown as the vendor has them, if it has both |
| `CameraShown.HdrOffered` | camera/device/SonyParameters.cpp:116-119 | the value of scene-mode-values for every map |
| `CameraShown.HdrListed` | camera/device/SonyParameters.cpp:116-119 | hdr is offered exactly if it was or the vendor offers still HDR, and then as one more item behind the others |
| `CameraShown.IsoListShown` | camera/device/SonyParameters.cpp:121-128 | the list of ISO values stands under iso-values for every map |
| `CameraShown.GetKeepsOthers` | camera/device/SonyParameters.cpp:113-161 | no key but the seven of the application is touched |
| `CameraShown.ExposureTold` | camera/device/SonyParameters.cpp:168-195 | for every map: the exposure mode, ISO value and shutter speed that the vendor is told |
| `CameraShown.StabiliserTold` | camera/device/SonyParameters.cpp:197-218 | the still stabiliser is off while recording, else the one for the scene mode; hdr becomes auto |
| `CameraShown.RecordingTold` | camera/device/SonyParameters.cpp:212-218 | while recording the video stabiliser is on-intelligent-active if that is offered, else on |
| `CameraShown.VideoHdrTold` | camera/device/SonyParameters.cpp:207-210 | the vendor's video HDR becomes the application's, if both are there |
| `CameraShown.FpsTold` | camera/device/SonyParameters.cpp:166 | the frame rate range is always 1000,60000 |
| `CameraShown.SetKeepsOthers` | camera/device/SonyParameters.cpp:163-220 | no key but these eight is touched |
| `CameraShown.ExposureReadBack` | camera/device/SonyParameters.cpp:113-220 | for every map shutter speed and ISO value survive set then get exactly if the mode picked shows both of them |
| `CameraFrames.FrameFound` | camera/extension/sonycamera.cpp:92-104 | any address inside frame i of memory id is found as (id, i), whatever order the heaps are searched in |
| `CameraFrames.ReleaseReturns` | camera/device/CameraDevice.cpp:664-732 | any address inside a delivered frame names that frame, whose release reaches base + i * bufSize of the heap delivered |
| `CameraFrames.LateRelease` | camera/device/CameraDevice.cpp:1090-1132 | a release that arrives any number of steps later reaches that buffer if the heap is still registered as it was, else none |
| `CameraFrames.LateFind` | camera/extension/sonycamera.cpp:92-142 | as long as the client keeps a memory its addresses go on naming the same frames |
| `CameraFrames.ForgottenForEver` | camera/device/CameraDevice.cpp:688-702 | releases naming an unregistered id are rejected in all later states |
| `CameraFrames.MapsInverse` | camera/device/CameraDevice.cpp:664-702 | the two maps are inverse throughout a run if and only if no refusal arrives while a heap is filed under id 0 |
| `CameraFrames.FreshIdsInverse` | camera/device/CameraDevice.cpp:664-702 | throughout every run in which the client refuses nothing the two maps are inverse |
| `CameraFrames.RefusalsCollide` | camera/device/CameraDevice.cpp:677-685 | a run with two refused registrations after which the maps are not inverse |
| `CameraFrames.RefusedIsSilent` | camera/extension/sonycamera.cpp:120-142 | frames of a refused heap are never delivered and no address names id 0 |
| `CameraDevices.DeviceCallback.RegisterMemory` | camera/extension/sonycamera.cpp:120-136 | a mapped memory gets the next id, anything else 0 and no entry |
| `CameraDevices.DeviceCallback.UnregisterMemory` | camera/extension/sonycamera.cpp:138-142 | the id's entry is dropped |
| `CameraDevices.DeviceCallback.FindFrame` | camera/extension/sonycamera.cpp:92-104 | finds a memory that holds the address and its frame number, or none exactly if none does |
| `CameraDevices.DeviceCallback.DataCallbackTimestamp` | camera/extension/sonycamera.cpp:179-222 | the frame reaches the application if its memory is known, its index in range and a callback set |
| `CameraDevices.DeviceCallback.ReleaseRecordingFrame` | camera/extension/sonycamera.cpp:317-325 | a release by address is the device's release of the frame found there |
| `CameraDevices.CameraDevice.ForeignMemoryId` | camera/device/CameraDevice.cpp:664-686 | a heap keeps its id, a new one is registered with the client and filed both ways, a lost reply files nothing |
| `CameraDevices.CameraDevice.ExtDataCbTimestamp` | camera/device/CameraDevice.cpp:722-732 | the frame is delivered under the heap's id, registered on the way if need be |
| `CameraDevices.CameraDevice.ForgetForeignMemory` | camera/device/CameraDevice.cpp:690-701 | both entries of the heap go, and the client is told |
| `CameraDevices.CameraDevice.ReleaseRecordingFrame` | camera/device/CameraDevice.cpp:1090-1132 | closed device, unknown id or index out of range are rejected; else the buffer's address in the heap |
| `CameraTables.SlotIffOwner` | camera/device/CameraDevice.cpp:849-912 | in all states of a run slot i names a device exactly when its slot is i, if and only if none claims a slot while it has one |
| `CameraTables.ClosedHoldsNothing` | camera/device/CameraDevice.cpp:1304-1331 | in all states of a run closed devices refer to no memory, if and only if none is cleared as a primary session while it has memory |
| `CameraTables.ClosedIsOut` | camera/device/CameraDevice.cpp:1304-1331 | in every run a closed device has no slot, is in no table and has no open device of the camera module |
| `CameraTables.MemoryLeft` | camera/device/CameraDevice.cpp:1304-1331 | a run after which a closed device refers to memory |
| `CameraTables.PutHeapForgotten` | camera/device/CameraDevice.cpp:550-569 | in all states of a run no extension session refers to a heap that was put back, if and only if no device becomes one while it remembers such a heap |
| `CameraTables.DeadHeapBack` | camera/device/CameraDevice.cpp:550-569 | a run after which an extension session refers to a heap that was put back |
| `CameraTables.ExtensionMapsInverse` | camera/device/CameraDevice.cpp:664-702 | over all interleavings and whatever the clients answer, every device's maps are inverse in all states, if and only if no heap is filed under an id that stands for another one |
| `CameraTables.InverseUnlessRepeated` | camera/device/CameraDevice.cpp:664-702 | if no client answers with one id, or with 0, for two heaps of one device, the maps are inverse in all states of every run |
| `CameraTables.NewClientCollides` | camera/device/CameraDevice.cpp:849-884 | a run without any refusal after which the maps of a device that was opened again are not inverse |
| `CameraTables.TwoPrimaries` | camera/device/CameraDevice.cpp:860-908 | a run after which one camera has two open primary sessions |
| `CameraTables.OnePrimaryEach` | camera/device/CameraDevice.cpp:860-908 | in all states of a run each camera has at most one primary session, if and only if none enters over one that is open |
| `CameraTables.ReopeningLosesSlot` | camera/device/CameraDevice.cpp:849-912 | after any run that kept the slots right, reopening an open device keeps them so if and only if it has no slot or its camera has a primary session |
| `CameraTables.SlotLost` | camera/device/CameraDevice.cpp:849-912 | a run after which a displaced and reopened device stands in two slots and knows one |
| `CameraTables.OrderlyRuns` | camera/device/CameraDevice.cpp:849-912 | in every run in which no open device is opened while its camera has no primary session, slots, closed devices and heaps put back are right in all states |
| `CameraTables.DeviceIffOpened` | camera/device/CameraDevice.cpp:849-884 | in every run a device has the camera module's device exactly if its latest open went well and it was not shut since |
| `CameraTables.ExtensionIffBeside` | camera/device/CameraDevice.cpp:860-863 | in every run a device is an extension session exactly if its camera had a primary session at its latest open |
| `CameraSessions.Sessions.ClaimMemorySlot` | camera/device/CameraDevice.cpp:463-472 | the first free slot is taken, or none if all are in use |
| `CameraSessions.Sessions.ReleaseMemorySlot` | camera/device/CameraDevice.cpp:474-479 | the device's slot is emptied, if it has one |
| `CameraSessions.Sessions.GetMemorySlot` | camera/device/CameraDevice.cpp:491-498 | while the slots are right, the one device whose own slot number it is, or none if no device has it |
| `CameraSessions.Sessions.OpenDecide` | camera/device/CameraDevice.cpp:860-884 | the first critical section of open as a step of the tables |
| `CameraSessions.Sessions.OpenEnter` | camera/device/CameraDevice.cpp:886-908 | the second one, for extensions and for primary sessions |
| `CameraSessions.Sessions.CloseLeave` | camera/device/CameraDevice.cpp:1316-1325 | the critical section of closing as a step of the tables |
| `CameraSessions.Sessions.PutMemory` | camera/device/CameraDevice.cpp:550-569 | the loop over all extension sessions makes every one of them forget the heap, and touches no other device |
| `FmLines.ServeClient` | fmradio/fmd.c:247-274 | the buffer, scanned and moved in place, handles for any chunks exactly what draining them in turn defines, until quit or end |
| `FmLines.TakeLines` | fmradio/fmd.c:259-270 | the inner loop handles the complete lines of the buffer in order and keeps the rest |
| `FmLines.DrainFollows` | fmradio/fmd.c:259-270 | draining a prefix of a text handles the first of its lines and leaves what the others continue |
| `FmLines.Reassembled` | fmradio/fmd.c:247-274 | for every NUL-free stream and chunking: nothing is discarded exactly if no line up to quit exceeds 510 bytes, and then the lines before quit are handled in order |
| `FmLines.CommandsArrive` | fmradio/fmd.c:247-274 | lines sent with LF or CR LF in any mixture and any chunks are handled as they were meant, up to quit |
| `FmLines.OneReturnGoes` | fmradio/fmd.c:261-263 | exactly one carriage return at the end of a line goes |
| `FmLines.FreshAgain` | fmradio/fmd.c:271-272 | after a full buffer was thrown away the rest is served as by a new session |
| `FmTransport.EventQueue.Push` | fmradio/fm_uart.c:128-142 | the ring is a queue of eight; the oldest event makes room |
| `FmTransport.EventQueue.Pop` | fmradio/fm_uart.c:144-157 | the oldest event, cut to the caller's buffer, or none |
| `FmTransport.PushAllNewest` | fmradio/fm_uart.c:128-142 | after any number of pushes the queue holds the newest eight events, uncut if they fit a slot, in order |
| `FmTransport.AwaitFirst` | fmradio/fm_uart.c:167-184 | the answer is that of the first matching Command Complete; the vendor events before it were seen in order |
| `FmTransport.AwaitNone` | fmradio/fm_uart.c:167-185 | without a match all events, at most 16, are looked at and there is no answer |
| `FmTransport.SameWait` | fmradio/fm_uart.c:167-185 | two waits that are over saw the same events if one stream is a prefix of the other |
| `FmUart.Uart.ReadExact` | fmradio/fm_uart.c:78-93 | the next n bytes whatever the reads return, or failure only if the line failed |
| `FmUart.Uart.HciRecv` | fmradio/fm_uart.c:109-126 | the first frame behind the first 0x04 byte, for any chunking; gives up behind a header whose event does not fit |
| `FmUart.FrameAfterJunk` | fmradio/fm_uart.c:109-126 | an event sent behind bytes other than 0x04 is received whole, and what follows it is left |
| `FmUart.FrameBytes` | fmradio/fm_uart.c:109-126 | behind other bytes: 0x04, a code, a length and as many parameters are received as one event |
| `FmUart.StreamFrames` | fmradio/fm_uart.c:109-126 | any list of events, each sent behind bytes other than 0x04, is received whole and in order, and what follows is left |
| `FmUart.FramesUnique` | fmradio/fm_uart.c:109-126 | a stream carries one sequence of events |
| `FmTransport.HandleEvent` | fmradio/fm_uart.c:171-183 | an event ends the wait exactly if it completes the command; other vendor events are queued |
| `FmTransport.CommandAnswered` | fmradio/fm_uart.c:95-182 | a Command Complete with the opcode bytes of the command sent ends the wait with its return parameters; one for any other command does not match |
| `FmTransport.CompletesIff` | fmradio/fm_uart.c:101-174 | an event answers exactly if it is a Command Complete of at least five bytes whose fourth and fifth are the second and third of the command packet |
| `FmTransport.VendorKept` | fmradio/fm_uart.c:171-183 | a vendor event before the answer is kept for the queue |
| `FmTransport.GivenIs` | fmradio/fm_uart.c:175-180 | the caller gets the first bytes of the return parameters, as many as fit, or only their number |
| `FmUart.Uart.HciCommand` | fmradio/fm_uart.c:159-186 | the answer, the events consumed and the queue are those of waiting on the stream's events, at most 16 |
| `FmUart.Uart.WaitEvent` | fmradio/fm_uart.c:195-204 | the oldest queued event if it gives any byte, or else the next frame |
| `FmHci.Hci.RecvEvent` | fmradio/fm_hci.c:91-108 | the next event message; other messages are passed over and a short one ends the wait |
| `FmHci.EventAfterOthers` | fmradio/fm_hci.c:91-108 | an event in a message behind non-event messages is received whole |
| `FmHci.MessagesCarry` | fmradio/fm_hci.c:91-108 | any list of events, each sent behind other messages, is received whole and in order |
| `FmHci.Hci.TransportVsc` | fmradio/fm_hci.c:110-146 | the same contract as hci_command, over messages |
| `FmHci.Hci.WaitEvent` | fmradio/fm_hci.c:148-157 | the oldest queued event if it gives any byte, or else the next event message, cut to the caller's buffer |
| `FmHci.CommandsAgree` | fmradio/fm_hci.c:110-146 | given the same events, whatever lies between them, both transports consume the same ones and queue the same |
| `FmHci.TransportsAgree` | fmradio/fm_hci.c:110-146 | for any list of events, sent over both transports behind any garbage and any other messages, the commands consume, answer and queue the same |
| `FmHci.WaitsAgree` | fmradio/fm_hci.c:148-157 | waiting agrees exactly if an event is queued or the next one fits the caller's buffer |

## Left out

- Xlate.Translate: takes the build key as an argument; reading it from the driver file is not part of this model.
- Xlate.Translate: null arguments, a failed allocation and files of 2^31 - 0x1000 bytes or more are not modelled.
- Xlate.Translate: a build key or program header section that starts elsewhere than at 0x1f0 must span 20 or 64 bytes.
- RilTimers.EventLoop.TimerAdd: seconds are unbounded, so overflow of `tv_sec` is not modelled.
- RilWake.WakeLock.GrabPartialWakeLock: the path of versions below 13 is left out; `s_wakelock_count` is unbounded.
- RilWake.WakeLock.UserTimerCallback: one step, although the code clears the pointer without taking the lock.
- RilRequests.Requests.OnRequestComplete: the freed request's address is not reused for a later one.
- RilCallbacks.ServiceImpl.ResetIfUnchanged: the counters are unbounded.
- RilCallbacks.ResetHitsOnlyTheDead: releasing a lock that the thread does not hold is undefined in POSIX; here it has
  no effect. A lock that releases another reader's hold is not modelled.
- RilLoop.Pass: between the timeouts and the firing, events of ready descriptors join the pending list; here none do.
- CameraFrames.MapsInverse: a session begins with both maps empty and has one client; `CameraTables` has the others.
- CameraFrames.LateRelease: ids are unbounded, so the wrap of the client's 32-bit counter is not modelled.
- CameraTables.PutHeapForgotten: frames come only to devices in the table of extension sessions, for live heaps.
- CameraTables.ClosedHoldsNothing: the memory of a primary session itself, registered with its own client, is left out.
- CameraSessions.Sessions.OpenDecide: the camera module's answer is an argument, and so is the choice of the opener.
- CameraFixups.ExposureSurvives: its short condition is for maps that offer "auto" and ISO values as applications
  write them; `CameraShown.ExposureReadBack` has all others.
- FmUart.Uart.HciCommand: whether the command could be written is an argument.
- FmLines.ServeClient: what a command does is left out; splitting it writes NULs into its own line only, which is
  moved away next.
- The file watch table and the reading of ready descriptors in the event loop.
- Data races finer than one critical section, or than one function where there is no lock.
- Preview windows, native-handle video frames and their batches: the batch size is never set.
- Request, response and indication converters, the SAP socket, other HALs, firmware download and the FM register
  sequences: field-by-field copying or straight-line sequences.
