# Verified model of the Roc VAD driver

Roc VAD is a macOS audio driver that publishes virtual audio devices. A sender device takes
what applications play and passes it on to the network; a receiver device answers applications
from what the network delivers. This project models the driver's three stateful cores in Dafny
and proves what they promise.

**The sample path** (`Modular.dfy`, `SampleWindow.dfy`, `RingBuffer.dfy`, `SignalRefinement.dfy`,
`ReceiverStream.dfy`, `SenderStream.dfy`, `FrameAlignment.dfy`, `RequestHandler.dfy`).
`RingBuffers.RingBuffer` is the circular buffer as it is written: an array, a rotating physical
offset, a head and a tail, and wrapping copies. Its methods are proved against
`SampleWindow.Window`, a window of absolute sample times with no circular storage in sight, and
that in turn against a plain map from time to sample in which the latest write wins.
`RequestHandlers.RequestHandler` drives the buffer in both directions; its methods take the steps
of two small state machines, and those are proved, over all runs of requests, against one
endless network stream (receiver) and one emission in which every time is sent exactly once (sender).
The handler's ghost record of requests ties these runs to the object.

**The index allocator** (`BitChunks.dfy`, `ChunkVector.dfy`, `IndexSpec.dfy`, `IndexAllocator.dfy`).
`IndexAllocators.IndexAllocator` works on 64-bit words with masks and a nested cyclic search. It is
proved to implement `IndexSpec.Alloc`, a finite set of live indices with a capacity, a cursor and a
soft maximum; growth bound, reuse policy and pigeonhole arguments are proved there, over all runs.

**Devices, their table and its persistence** (`DeviceDefs.dfy`, `EnumTables.dfy`, `RpcSerdes.dfy`,
`Devices.dfy`, `DeviceTable.dfy`, `DeviceManager.dfy`). `Devices.Device` and
`DeviceManagers.DeviceManager` keep device objects in two maps, an allocator and a stored message
list. Every method of the manager takes a step of the state machine in `DeviceTables`; the manager's
ghost field `run` records them, so that what is proved of every run holds of every manager. On top
stands the restart theorem: a manager started on the storage another one has left has the same devices.

## Where the code does not do what one would expect

Where the code falls short of what it is for, the exact condition under which it does not is proved
as an if-and-only-if over things a caller can check beforehand, and a failing input is constructed.

- A copy of exactly the buffer size moves nothing, because both physical offsets coincide
  (driver/ring_buffer.cpp:145-149 and 163-167): such a write is lost although the window moves, and a
  read of the whole window leaves the caller's memory as it was. A block copied in and out again comes
  back exactly when it is shorter than the buffer (`RingBuffers.CopiesUndoExactly`); see also
  `SignalRefinement.KeepsExactly`, `SignalRefinement.ReadBackExactly`, `SignalRefinement.ReadExactly`.
- A write after a gap does not silence the gap; a read hears what an older time left in those cells
  (`SignalRefinement.GapIsStale`), and a sender forwards it.
- A read that does not touch the window computes wrapped lengths that do not fill the output: exactly
  then (`SampleWindow.ReadPlanExactly`; the lengths are modelled in unsigned 64-bit arithmetic).
- A first write that ends before one buffer size is dropped (driver/ring_buffer.cpp:69-71). A sender
  never sends what was written before the committing call (`SenderStream.UnsentCall`,
  `SenderStream.EmissionStarts`), and for a receiver the network samples pulled for such a read are
  gone. Nothing is lost that way exactly when the first call that writes, or the first read that asks
  for, anything ends at or after one buffer size (`SenderStream.NothingUnsentExactly`,
  `ReceiverStream.NothingDroppedExactly`, with losing runs in `SenderStream.FirstHalfIsUnsent` and
  `ReceiverStream.FirstHalfIsLost`).
- For the same reason two clients of a receiver can hear different things for the same time: one that
  reads before the commit hears silence, a later one the network (`ReceiverStream.EarlyClientDisagrees`).
  They agree, whatever the network delivers, exactly under the guard of
  `ReceiverStream.ClientsAgreeExactly`.
- Which requests a receiver answers, and a sender forwards, correctly in spite of that is decided
  exactly by `ReceiverStream.RequestOk` and `SenderStream.RequestOk`, which look at times and counts
  only (`ReceiverStream.RequestExactly`, `SenderStream.RequestExactly`).
- A buffer shorter than half a sample is accepted and gets no samples at all
  (`DeviceDefs.SomeSamplesExactly`, `DeviceDefs.EmptyBufferIsComplete`); such a handler can be built,
  but its first copy divides by zero (driver/ring_buffer.cpp:145), so it is not `Valid()`.
- A search for a free index from right behind the bitset wraps to the first chunk but looks at that
  chunk last. It finds the cyclically first free index exactly if one of the two parts has nothing free
  (`IndexSpec.FindFreeExactly`); `IndexSpec.SmallerIndexMissed` is a run of the allocator in which it
  takes a larger index than it should.
- If creating a device fails after its index has been taken, the index is never released
  (driver/device.cpp:145-156, the destructor of a half-built object does not run). That happens exactly
  to the requests of `DeviceTables.WastesIndex` (`DeviceTables.LosesExactly`, for one those of
  `DeviceTables.NoLengthWastesIndex`). The index stays refused for the life of the manager
  (`DeviceTables.LostForGood`); a restart frees it (`DeviceTables.RestartIsIdentity`).
- Endpoints with the same slot and interface may change places when a device is created again, and only
  they may (`DeviceTables.RecreatedExactly`); every restart there can be restores the very same table
  exactly when no device has such endpoints (`DeviceTables.RestartExactly`).
- A restart on which the network refuses some devices and accepts others forgets the refused ones for
  good, because every accepted one has the table saved anew: storage still lists all devices exactly if
  all or none were accepted (`DeviceTables.RestartForgetsExactly`; `DeviceTables.RefusedIsForgotten`
  constructs such a restart).
- The message about packet encoding ids allows 255, the code refuses it (driver/rpc_serdes.cpp:528-532);
  the model follows the code (`RpcSerdes.PacketEncodingRoundTrip`).

## Model

| member | source | states |
|---|---|---|
| RingBuffers.RingBuffer.Restart | driver/ring_buffer.cpp:28-37 | the buffer stands for a fresh, silent window |
| RingBuffers.RingBuffer.Write | driver/ring_buffer.cpp:58-93 | the array after a write stands for the window `SampleWindow.Write` gives, and the offset is rotated with the head |
| RingBuffers.RingBuffer.MoveWindow | driver/ring_buffer.cpp:68-88 | head, tail and offset move forward together; a first write that ends too early changes nothing |
| RingBuffers.RingBuffer.Read | driver/ring_buffer.cpp:104-136 | the caller's memory holds silence, window, silence in the right places and nothing beyond the request changes |
| RingBuffers.RingBuffer.NeedWriteCount | driver/ring_buffer.cpp:49-56 | the least number of samples behind the tail that reaches a time, at most one buffer |
| RingBuffers.RingBuffer.CanReadCount | driver/ring_buffer.cpp:95-102 | as many samples from a time on as reach the tail, at most one buffer |
| RingBuffers.RingBuffer.CopyToBuffer | driver/ring_buffer.cpp:138-154 | straight or split, the copy replaces exactly one stretch of the window's view |
| RingBuffers.RingBuffer.CopyFromBuffer | driver/ring_buffer.cpp:156-172 | straight or split, the caller's memory is as before with one stretch of the window's view in it; a copy of the buffer size leaves it alone |
| RingBuffers.CopiesUndoExactly | driver/ring_buffer.cpp:138-172 | copying a block in and out again gives it back, whatever the caller's memory held, exactly when it is shorter than the buffer |
| RingBuffers.OtherCellsStay | driver/ring_buffer.cpp:138-154 | a copy changes no cell outside its range |
| RingBuffers.CellsMeaning | driver/ring_buffer.cpp:138-154 | a wrapping copy replaces one contiguous stretch of the logical view; one of the buffer size replaces nothing |
| RingBuffers.UnrolledRotated | driver/ring_buffer.cpp:85-87 | advancing the head and rotating the offset keeps the cell of every time, modulo the size |
| SampleWindow.WrittenAt | driver/ring_buffer.cpp:58-93 | after a write every time of the window has the block's sample, silence after a first write, or that of the old time sharing its cell |
| SampleWindow.ReadPlanExactly | driver/ring_buffer.cpp:117-135 | the three lengths of a read, which `RingBuffer.Read` is shown to use, sum to the request exactly when the request touches the window |
| SignalRefinement.WindowAdvances | driver/ring_buffer.cpp:68-88 | between restarts head and tail never decrease and lie one buffer apart; a write that commits moves the tail to its end, if that lies ahead |
| SignalRefinement.KeepsExactly | driver/ring_buffer.cpp:58-93 | the buffer follows the reference map through a write exactly when the write is shorter than the buffer and leaves no gap |
| SignalRefinement.WholeBufferIsLost | driver/ring_buffer.cpp:145-149 | a write of a whole buffer is lost: reference and buffer differ |
| SignalRefinement.GapIsStale | driver/ring_buffer.cpp:80-92 | a gap after the tail shows stale samples instead of silence |
| SignalRefinement.ReadBackExactly | driver/ring_buffer.cpp:58-93 | a block can be read back, whatever it holds, exactly when it commits and is shorter than the buffer |
| SignalRefinement.ReadExactly | driver/ring_buffer.cpp:104-136 | a read gives the promised samples, whatever memory held, exactly when it does not span the whole window |
| SignalRefinement.RunRefines | driver/ring_buffer.cpp:28-93 | after any run of such writes and restarts the buffer shows, for every time in the window, the latest write covering it |
| SignalRefinement.RunReads | driver/ring_buffer.cpp:104-136 | after any such run a read returns the latest writes inside the window and silence outside it |
| RequestHandlers.ApplyVolume | driver/request_handler.cpp:36-47 | each of the first samples is multiplied by the volume in place, the others are untouched |
| RequestHandlers.RequestHandler.OnStartIO | driver/request_handler.cpp:51-62 | a new stream starts from a fresh buffer; nothing is pulled or sent, and the record of requests starts anew |
| RequestHandlers.RequestHandler.OnReadClientInput | driver/request_handler.cpp:80-113 | one step of the receiver model; as long as all reads since the start were acceptable the client hears the one stream; frame alignment kept |
| RequestHandlers.RequestHandler.OnWriteMixedOutput | driver/request_handler.cpp:123-157 | one step of the sender model; as long as all writes since the start were acceptable exactly the one emission has been sent; frame alignment kept |
| RequestHandlers.RequestHandler.constructor | driver/request_handler.cpp:19-32 | usable exactly with at least one buffer sample and one channel; then the buffer holds whole frames and every position is on a frame boundary |
| ReceiverStream.ServesWell | driver/request_handler.cpp:80-113 | an acceptable request is answered from the reference stream and leaves the handler in step with it |
| ReceiverStream.RequestExactly | driver/request_handler.cpp:80-113 | the acceptable requests are exactly those always served well; every other one fails for some network, volume or memory |
| ReceiverStream.RunAnswers | driver/request_handler.cpp:80-113 | over every run of acceptable requests each answer is one and the same stream, cut to the window of that moment |
| ReceiverStream.StreamGrows | driver/request_handler.cpp:93-109 | the stream is only ever extended at its end |
| ReceiverStream.ClientsAgree | driver/request_handler.cpp:74-113 | once the buffer is committed, overlapping clients hear the same sample for the same time, if the later one still finds it in the window |
| ReceiverStream.ClientsAgreeExactly | driver/request_handler.cpp:74-113 | overlapping clients hear the same for every network exactly if the earlier one's request came no earlier than the commit, or the stream is silent at that time for the later one too |
| ReceiverStream.EarlyClientDisagrees | driver/ring_buffer.cpp:68-71 | a run of two acceptable reads whose clients hear different samples for the same time |
| ReceiverStream.PulledOnce | driver/request_handler.cpp:93-109 | since the commit the tail has moved by exactly the number of samples pulled |
| ReceiverStream.StreamStarts | driver/request_handler.cpp:93-109 | over every run the stream starts with the first committing request, behind the samples pulled in vain before it |
| ReceiverStream.PulledIsDroppedOrPlayed | driver/request_handler.cpp:93-109 | over every run each pulled sample was either lost before the commit or is in the stream |
| ReceiverStream.NothingDroppedExactly | driver/ring_buffer.cpp:68-71 | no pulled sample is lost exactly when the first request that asks for anything ends at or after one buffer size |
| ReceiverStream.FirstHalfIsLost | driver/ring_buffer.cpp:68-71 | a run of two acceptable reads, of which the first is answered with silence and its samples are lost |
| ReceiverStream.HeardInOrder | driver/request_handler.cpp:80-113 | over every run of acceptable reads, the sample heard for a time is the network's, counted from the committing read on behind all that was asked for before it, multiplied by the volume of the first read that reached past that time; before the committing read, and more than a buffer before the furthest end of a read, it is silence |
| ReceiverStream.HeardBeforeCommit | driver/request_handler.cpp:80-113 | before any read commits the buffer all reads hear silence |
| ReceiverStream.VolumeOfFirst | driver/request_handler.cpp:93-109 | every time of the stream has the volume of the first read that reached past it |
| ReceiverStream.StreamStartTime | driver/request_handler.cpp:93-109 | the stream starts at the time of the committing read |
| ReceiverStream.RecentExactly | driver/ring_buffer.cpp:73-88 | a time is less than a buffer behind the tail exactly if no read since the commit ends further ahead |
| ReceiverStream.DroppedIsAsked | driver/request_handler.cpp:93-109 | what is lost is all that was asked for before the commit |
| SenderStream.SendsWell | driver/request_handler.cpp:123-157 | an acceptable call appends exactly the new times to what is sent, and the send position reaches the tail |
| SenderStream.RequestExactly | driver/request_handler.cpp:123-157 | the acceptable calls are exactly those always forwarded well; every other one fails for some content |
| SenderStream.EverySampleSentOnce | driver/request_handler.cpp:123-157 | conservation: over every run of acceptable calls one sample is sent for each time from the first commit to the tail, in order, and nothing stays pending |
| SenderStream.FirstCallWins | driver/request_handler.cpp:135-156 | each time was sent with the sample, at the volume, of the first call that reached past it |
| SenderStream.EmissionStarts | driver/request_handler.cpp:135-156 | the emission starts with the call that commits the window |
| SenderStream.UnsentCall | driver/ring_buffer.cpp:68-71 | a call before the commit sends nothing, and no time is ever sent with a sample of it |
| SenderStream.NothingUnsentExactly | driver/ring_buffer.cpp:68-71 | no written sample is lost for want of a commit exactly when the first call that writes anything ends at or after one buffer size |
| SenderStream.FirstHalfIsUnsent | driver/ring_buffer.cpp:68-71 | a run of two acceptable calls whose first half is never sent |
| SenderStream.SentInOrder | driver/request_handler.cpp:123-157 | after every run the sample sent for a time stands at its place on the wire and is that of the first call reaching past it, multiplied by its volume |
| FrameAlignment.WriteAligned | driver/ring_buffer.cpp:73-87 | whole-frame writes keep size, head, tail and offset on frame boundaries |
| FrameAlignment.PullAligned | driver/request_handler.cpp:89-108 | what a whole-frame read pulls, and where it is put, is whole frames |
| FrameAlignment.SendAligned | driver/request_handler.cpp:131-151 | whole-frame writes keep the send position on a frame boundary |
| FrameAlignment.CellChannel | driver/ring_buffer.cpp:145-153 | the physical cell of a time always carries that time's channel |
| IndexAllocators.IndexAllocator.AllocateAndAcquire | driver/index_allocator.cpp:28-62 | the bitset code hands out the index the set model chooses, and the set gains exactly that index |
| IndexAllocators.IndexAllocator.Acquire | driver/index_allocator.cpp:64-76 | refused exactly if the index is live, with nothing changed; otherwise it is live |
| IndexAllocators.IndexAllocator.Release | driver/index_allocator.cpp:78-84 | exactly this index is free again |
| IndexAllocators.IndexAllocator.FindFree | driver/index_allocator.cpp:86-125 | the nested loops return the cyclic first free index, or the capacity if every bit is set |
| IndexAllocators.IndexAllocator.IsFree | driver/index_allocator.cpp:127-137 | the bit test decides membership in the set |
| IndexAllocators.IndexAllocator.SetFree | driver/index_allocator.cpp:139-153 | one membership changes, and growing the bitset changes none |
| IndexSpec.CyclicallyFirstUnique | driver/index_allocator.cpp:86-125 | there is only one index a cyclic search can rightly find |
| IndexSpec.FindFreeInside | driver/index_allocator.cpp:86-125 | from a start inside the bitset: the smallest free index at or after it, else the smallest free one, else the capacity |
| IndexSpec.FindFreeExactly | driver/index_allocator.cpp:86-125 | from any start that answer is found exactly if the start is inside or one of the two searched parts has nothing free |
| IndexSpec.AllocationIsCyclic | driver/index_allocator.cpp:51-56 | if the candidate is taken, below the soft maximum, the allocated index is the cyclically first free one after it; from a candidate at the end of the bitset exactly if one of the two searched parts has nothing free |
| IndexSpec.CandidateIsNext | driver/index_allocator.cpp:30-32 | the candidate is the index after the cursor, in 32-bit arithmetic |
| IndexSpec.SmallerIndexMissed | driver/index_allocator.cpp:86-111 | runs after which an allocation takes a larger index although a smaller one comes first |
| IndexSpec.SearchStart | driver/index_allocator.cpp:53-55 | an allocation searches from inside the bitset or from right behind it |
| IndexSpec.ChooseFreshExactly | driver/index_allocator.cpp:28-62 | an allocated index was not live, exactly as long as the 32-bit space is not exhausted |
| IndexSpec.AllocateKeepsValid | driver/index_allocator.cpp:28-62 | allocation adds exactly one index, never zero, and keeps zero live |
| IndexSpec.ReuseIsPostponed | driver/index_allocator.cpp:28-55 | an index at or below the cursor is handed out only at the soft maximum, or if everything above the cursor is taken |
| IndexSpec.ReuseIsSmallest | driver/index_allocator.cpp:51-56 | at the soft maximum the smallest free index is reused, and it is at most the number of live ones |
| IndexSpec.SmallestFreeIsSmall | driver/index_allocator.cpp:86-125 | pigeonhole: the smallest free index is at most the number of live ones |
| IndexSpec.RunBounded | driver/index_allocator.cpp:28-76 | over every run soft maximum and capacity stay within max(99, 4 * peak) and the largest acquired index, plus one chunk |
| IndexSpec.AllocateBounded | driver/index_allocator.cpp:28-62 | every index handed out stays below that bound |
| IndexSpec.RaisedExactly | driver/index_allocator.cpp:34-47 | the soft maximum is doubled exactly if the cursor has reached it, over half of it is live, and 32 bits hold the double |
| IndexSpec.SoftMaximumDoubles | driver/index_allocator.cpp:28-47 | over every run the soft maximum is 99 times a power of two |
| IndexSpec.FreshUntilSoftMaximum | driver/index_allocator.cpp:28-76 | until the soft maximum is reached, allocation gives the next index up, whatever is acquired and released in between |
| IndexSpec.NeverHandedOutAgain | driver/index_allocator.cpp:28-76 | the index then handed out is larger than any that was live at any time of the run |
| EnumTables.EnumFromRpc | driver/rpc_serdes.cpp:22-31 | the loop returns the first matching row's driver value, or fails if there is none |
| EnumTables.EnumToRpc | driver/rpc_serdes.cpp:33-42 | the loop returns the first matching row's wire value, or fails if there is none |
| EnumTables.LookupsAreInverse | driver/rpc_serdes.cpp:22-42 | with distinct columns the two first-match lookups are inverse bijections |
| EnumTables.SampleFormatMapOneToOne | common/enum_map.cpp:28-67 | the sample format table is one to one and covers every format |
| EnumTables.SampleFormatNumbers | common/enum_map.cpp:28-67 | every sample format travels under its own wire number, both ways |
| EnumTables.InterfaceNumbers | common/enum_map.cpp:13-18 | the wire number of every interface |
| EnumTables.ChannelLayoutNumbers | common/enum_map.cpp:69-73 | the wire number of every channel layout |
| EnumTables.FecEncodingNumbers | common/enum_map.cpp:75-80 | the wire number of every error correction |
| EnumTables.TunerBackendNumbers | common/enum_map.cpp:82-88 | the wire number of every latency tuner backend |
| EnumTables.TunerProfileNumbers | common/enum_map.cpp:90-107 | the wire number of every latency tuner profile |
| EnumTables.ResamplerBackendNumbers | common/enum_map.cpp:109-114 | the wire number of every resampler backend |
| EnumTables.ResamplerProfileNumbers | common/enum_map.cpp:116-121 | the wire number of every resampler profile |
| RpcSerdes.PacketEncodingRoundTrip | driver/rpc_serdes.cpp:526-584 | a packet encoding survives writing and reading exactly when it is well formed |
| RpcSerdes.PacketEncodingWritten | driver/rpc_serdes.cpp:573-584 | every encoding can be written, and every field of the message is the field of that name |
| RpcSerdes.PacketEncodingRead | driver/rpc_serdes.cpp:526-571 | which messages are packet encodings, and which encoding each of them is, field by field |
| RpcSerdes.EndpointRoundTrip | driver/rpc_serdes.cpp:586-607 | an endpoint survives exactly when its uri is not empty |
| RpcSerdes.EndpointWritten | driver/rpc_serdes.cpp:601-607 | every field of the message is the field of that name |
| RpcSerdes.EndpointRead | driver/rpc_serdes.cpp:586-599 | which messages are endpoints, and which endpoint each of them is; an absent slot is slot zero |
| RpcSerdes.SenderRoundTrip | driver/rpc_serdes.cpp:176-259 | every well-formed sender configuration survives |
| RpcSerdes.SenderWritten | driver/rpc_serdes.cpp:384-445 | every field of a sender message is the field of that name, the packet length as a signed number |
| RpcSerdes.SenderRead | driver/rpc_serdes.cpp:176-259 | which messages are sender configurations; every field is the field of that name or, if that is absent, its default |
| RpcSerdes.ReceiverRoundTrip | driver/rpc_serdes.cpp:261-334 | every well-formed receiver configuration survives |
| RpcSerdes.ReceiverWritten | driver/rpc_serdes.cpp:447-507 | every field of a receiver message is the field of that name |
| RpcSerdes.ReceiverRead | driver/rpc_serdes.cpp:261-334 | which messages are receiver configurations; every field is the field of that name or, if that is absent, its default |
| RpcSerdes.AcceptedExactly | driver/rpc_serdes.cpp:75-351 | an info is accepted exactly if some message converts to it |
| RpcSerdes.DeviceRoundTrip | driver/rpc_serdes.cpp:75-524 | every complete info can be written, reading gives it back without derived fields, and completing it restores it |
| RpcSerdes.DeviceWritten | driver/rpc_serdes.cpp:353-524 | every field of a device message is the field of that name, and its endpoints are written one by one in order |
| RpcSerdes.DeviceRead | driver/rpc_serdes.cpp:75-351 | which messages are device infos, and which info each of them is, field by field; an absent flag means enabled |
| RpcSerdes.DeviceEncodingWritten | driver/rpc_serdes.cpp:365-377 | rate, length, layout and track count are written under their names |
| RpcSerdes.DeviceEncodingRead | driver/rpc_serdes.cpp:135-173 | which messages are device encodings; an absent rate, layout or length has its default |
| RpcSerdes.AbsentConfigRead | driver/rpc_serdes.cpp:77-104 | the configuration of a device whose message has none, value by value |
| RpcSerdes.MapResultExactly | driver/rpc_serdes.cpp:56-73 | a list converts exactly if each of its elements does |
| RpcSerdes.DeviceListFromRpc | driver/rpc_serdes.cpp:56-66 | the loop converts every message in order or fails with the first failure |
| RpcSerdes.DeviceListToRpc | driver/rpc_serdes.cpp:68-73 | the loop converts every info in order or fails with the first failure |
| RpcSerdes.DevicesRoundTrip | driver/rpc_serdes.cpp:56-73 | a list of complete infos survives storage up to derived fields |
| DeviceDefs.CompletedIsComplete | driver/device.cpp:145-169 | completing an accepted info gives a complete one, and forgetting derived fields undoes it |
| DeviceDefs.CompletedFields | driver/device.cpp:145-169 | exactly what completing an info fills in, and that it leaves everything else alone |
| DeviceDefs.DigitsExactly | driver/device.cpp:145-169 | the number in a default name is the index, in decimal without leading zeros |
| DeviceDefs.SamplesNearest | driver/device.cpp:39-50 | the sample count is length times rate to the nearest whole, halves up |
| DeviceDefs.SomeSamplesExactly | driver/device.cpp:39-50 | a buffer has samples exactly if it lasts at least half a sample |
| DeviceDefs.EmptyBufferIsComplete | driver/device.cpp:145-169 | devices without a single buffer sample are accepted |
| Devices.CreatableExactly | driver/device.cpp:145-248 | a device comes about exactly with a buffer of some length, endpoints that go its way, and network consent |
| Devices.KeyOrder | driver/device.cpp:337-350 | keys and the comparison order endpoints by slot, and within a slot by interface |
| Devices.SortEndpoints | driver/device.cpp:337-350 | the result is sorted by slot and interface and a permutation of the list |
| Devices.SortKeepsExactly | driver/device.cpp:337-350 | every sort leaves a list alone exactly when it is sorted and its keys identify its endpoints |
| Devices.Device.Create | driver/device.cpp:135-248 | refused without effect if the index is taken; otherwise the index is taken whether or not the device comes about, and the info is the completed one, sorted |
| Devices.Device.Toggle | driver/device.cpp:270-293 | the device is shown exactly if enabled, whatever was the case before |
| Devices.Device.Bind | driver/device.cpp:295-304 | only a receiver can be bound; the new endpoint joins the sorted list, a failure changes nothing |
| Devices.Device.Connect | driver/device.cpp:306-315 | only a sender can be connected; the new endpoint joins the sorted list, a failure changes nothing |
| Devices.Device.Destroy | driver/device.cpp:250-263 | the device is no longer shown and exactly its index is released |
| DeviceManagers.DeviceStorage.LoadDevices | driver/device_storage.cpp:25-58 | nothing without an entry or if any message does not convert, otherwise the converted list |
| DeviceManagers.DeviceStorage.SaveDevices | driver/device_storage.cpp:60-77 | the entry is overwritten with the converted list |
| DeviceManagers.DeviceManager.GetAllDevices | driver/device_manager.cpp:29-42 | the infos of the table in strictly ascending index order |
| DeviceManagers.DeviceManager.GetDevice | driver/device_manager.cpp:44-58 | an index leads to the info with that index, a uid to the one with that uid; it fails exactly if there is none |
| DeviceManagers.DeviceManager.FindDevice | driver/device_manager.cpp:196-218 | either table leads to the one object of that device, or the request fails |
| DeviceManagers.DeviceManager.AddDevice | driver/device_manager.cpp:60-91 | takes an `Add` step of the state machine; succeeds exactly if the request is admissible, and then exactly one new object is in the table, under a free index and with the given or a fresh uid |
| DeviceManagers.DeviceManager.DeleteDevice | driver/device_manager.cpp:93-123 | takes a `Delete` step; the named device is gone from both tables, no longer shown, and its index is free |
| DeviceManagers.DeviceManager.ToggleDevice | driver/device_manager.cpp:125-143 | takes a `Toggle` step; the named device is enabled, and shown, exactly if asked for |
| DeviceManagers.DeviceManager.BindDevice | driver/device_manager.cpp:145-168 | takes a `Bind` step and keeps objects, tables, allocator and storage in agreement |
| DeviceManagers.DeviceManager.ConnectDevice | driver/device_manager.cpp:170-194 | takes a `Connect` step and keeps objects, tables, allocator and storage in agreement |
| DeviceManagers.DeviceManager.LoadDevices | driver/device_manager.cpp:220-240 | the loop adds the stored devices in order, skipping failures, and is a run of the state machine |
| DeviceManagers.DeviceManager.constructor | driver/device_manager.cpp:19-27 | a new manager is sound and its run is exactly the loading of what was stored |
| DeviceManagers.Restart | driver/device_manager.cpp:19-27 | a manager started on the storage of another has exactly the devices the network still accepts, each as it was but for the order of endpoints with equal keys |
| DeviceTables.ListingUnique | driver/device_manager.cpp:36-39 | a table has only one listing in ascending index order |
| DeviceTables.StepKeeps | driver/device_manager.cpp:60-194 | every operation keeps tables, allocator and lost indices in agreement; success saves the table, failure changes neither tables nor storage |
| DeviceTables.LosesExactly | driver/device.cpp:145-156 | an index is lost exactly by a request that passes the first checks and whose device cannot be created with the index it takes |
| DeviceTables.NoLengthWastesIndex | driver/device.cpp:145-169 | a request with a buffer of no length is one of those |
| DeviceTables.OthersUntouched | driver/device_manager.cpp:60-194 | no operation touches a device it does not name |
| DeviceTables.ResolvedExactly | driver/device_manager.cpp:196-218 | a selector leads to the one device with that index, or that uid |
| DeviceTables.SucceedsExactly | driver/device_manager.cpp:93-194 | deleting, toggling, binding and connecting succeed exactly if a device is named that allows it and the network consents |
| DeviceTables.AddSucceedsExactly | driver/device_manager.cpp:60-91 | adding succeeds exactly with a free or no index, a free or no uid, a buffer of some length, endpoints that go the right way, and network consent |
| DeviceTables.AddAddsOne | driver/device_manager.cpp:60-91 | an added device is in both tables under an index that was free, with the completed info; nothing else changes |
| DeviceTables.DeleteRemoves | driver/device_manager.cpp:93-123 | a deleted device is gone from both tables and exactly its index is free again; nothing else changes |
| DeviceTables.ToggleSets | driver/device_manager.cpp:125-143 | a toggled device is enabled as asked; nothing else changes |
| DeviceTables.BindAddsOne | driver/device.cpp:295-304 | a bind changes one device, whose sorted local list gains exactly the new endpoint |
| DeviceTables.ConnectAddsOne | driver/device.cpp:306-315 | a connect changes one device, whose sorted remote list gains exactly the new endpoint |
| DeviceTables.RunAgrees | driver/device_manager.cpp:60-194 | in every reachable state the tables agree, live indices are zero plus one per device plus one per wasteful request, and storage mirrors the table from the first success on |
| DeviceTables.StoredIsListing | driver/device_manager.cpp:242-247 | storage converts back to the infos of all devices in strictly ascending index order |
| DeviceTables.LostForGood | driver/device.cpp:148-156 | a lost index belongs to no device and is refused in every later state of the run |
| DeviceTables.RecreatedExactly | driver/device.cpp:236-244 | a device is created again as it was, whatever the sort does, exactly when its endpoint keys identify its endpoints |
| DeviceTables.LoadingRebuilds | driver/device_manager.cpp:229-239 | loading any listing rebuilds the accepted devices up to the order of endpoints, the stored list growing with the table at every step |
| DeviceTables.RestartKeepsAccepted | driver/device_manager.cpp:220-247 | after any run with a success, a restart brings back exactly the devices the network accepts, each as it was but for the order of its endpoints; storage is left alone if there are none |
| DeviceTables.RestartIsIdentity | driver/device_manager.cpp:220-247 | if all are accepted and endpoint keys identify, tables and stored list are the same as before, and only lost indices have become free |
| DeviceTables.RestartExactly | driver/device_manager.cpp:220-247 | if all are accepted, every restart there can be restores the very same table exactly when endpoint keys identify the endpoints of every device |
| DeviceTables.RestartExists | driver/device_manager.cpp:220-247 | whatever was saved and whatever is accepted now, there is such a restart |
| DeviceTables.RestartStores | driver/device_manager.cpp:229-247 | after a restart storage lists the accepted devices, or still all of them if none was accepted |
| DeviceTables.RestartForgetsExactly | driver/device_manager.cpp:229-247 | storage still lists every device exactly if all or none were accepted |
| DeviceTables.RefusedIsForgotten | driver/device_manager.cpp:229-247 | with one device refused and one accepted there is a restart that forgets the refused one |

## Left out

- Timestamps and counts are unbounded naturals; 64-bit wrap-around is modelled only in the lengths of a read (`SampleWindow.PlanRead`), and 32-bit wrap-around of indices in the allocator.
- RingBuffers.RingBuffer.Write: the asserted position of the block (driver/ring_buffer.cpp:142-143) is a precondition, as is a buffer of at least one sample (`Valid()`); a build without assertions would copy into wrong cells.
- RingBuffers.RingBuffer.Read: requires a request that touches the window; outside it only the wrapped lengths are stated (`SampleWindow.ReadPlanExactly`), not the memory they would overrun.
- Samples and the gain are real numbers: floating-point rounding, the volume curve and mute are not modelled; each request sees one gain.
- `DeviceDefs.BufferSamples` rounds the exact product half up, where the code rounds a double.
- The network is an endless input, a sent sequence and, for creating, binding and connecting, an outcome given by the caller; sender, receiver and toolkit internals are foreign code.
- The audio framework is a single flag telling whether a device is shown; its parameter structs are not modelled.
- Generated uids are parameters that are required to be unused; `UidGenerator`'s randomness is not modelled.
- Storage writes succeed, and bytes and durations are taken as faithful encodings of messages and nanoseconds.
- roc/config.h is not part of this model: its constants are taken as pairwise distinct, its default slot as 0, and its interface numbers as increasing in the order the model lists them.
- IndexAllocators.IndexAllocator.AllocateAndAcquire: requires that the 32-bit index space is not exhausted.
- IndexAllocators.IndexAllocator.Release: requires a live index other than zero, which is what its only caller passes.
- DeviceManagers.DeviceManager.AddDevice: requires an info a message converts to, which is what both callers pass.
- Operations run one at a time under one recursive lock and are modelled as atomic steps.
- Logging, the gRPC service, the command-line tool and the texts of error messages are not modelled.
