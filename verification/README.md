# Verified model of a CUDA-over-TCP runtime

This Dafny project models the parts of the runtime where a mistake would lose
data, mix up sessions or misread an input, and proves what they promise.

A client library offers the CUDA runtime API. Device pointers are addresses in a
reserved range, streams and events are local handles, and asynchronous copies
become hidden transfers. A server holds the native objects behind numbers that
restart in every session. The project has one module per piece:

| module | piece |
|---|---|
| `Frontiers`, `Causality`, `CausalRuns` | vector clocks over stream slots, happens-before, hidden transfers, every run of API calls |
| `TransferTable` | the fixed table of hidden transfers, its searches and drains, non-blocking queries |
| `Sessions`, `SlotTable` | client handles against server tables over reconnects, failures and shutdowns |
| `Lifetime` | when the server may release staging, memory and code, against per-stream device queues |
| `Gate` | the mutex, condition variable, callback slot and worker, as thread steps |
| `Pitched`, `Regions` | pitched 2D and 3D copies and the checks on their regions, in 64-bit arithmetic |
| `Arena`, `HostPages` | the address arena and pointer resolution; the page-lock registry and its sweep |
| `Launch` | kernel argument layout, marshalling and address translation |
| `MsgPack`, `Metadata`, `MetadataPrinter`, `ElfNotes`, `ElfImage` | the metadata parser, the ELF note walk, ELF extents and fat binaries |
| `Wire`, `Schema`, `Hello` | big- and little-endian numbers, schema-driven payloads, the HELLO message |
| `Arith`, `Bytes` | repeated addition and machine ranges used by the others |

State the source changes in place is a class where the source has an object
(`TransferTable.Table`, `SlotTable.Table`, `Arena.Table`, `HostPages.Registry`,
`MsgPack.Reader`); loops of the source are loops here, each proved against a
function or relation whose own properties are lemmas. Protocols that are about
whole runs are state machines on values, so that a lemma can speak of every run.

The network and the driver are parameters. A request succeeds, is refused, or
loses the connection before or after the server acted on it. Driver calls may
fail. The device finishes queued work whenever it likes.

## Where the code does less than one might expect

- `cudaMemset2DAsync` and the synchronous copies and memsets do not merge the
  default stream's frontier. `CausalRuns.SkippingBreaksCoverage` is a four-call
  run after which a copy that happens before a stream's last operation is not
  behind that stream's frontier. `CausalRuns.Skipped` reads off the client's
  tables which pending copies such an operation passes by. The theorems about
  every run hold with those copies as the only exceptions, and hold outright in
  runs whose unordered operations are issued at settled lanes, where nothing is
  passed by. `CausalRuns.SkippingExact` is the other half: a pending copy of a
  lane the legacy rule orders first, or any pending copy the operation's lane then
  sees and nothing missed before, is left uncovered exactly when it is one of them.
- A launch whose by-value arguments make the payload longer than 64 MiB is
  serialised by the client and dropped by the server's session loop:
  `Launch.LargeValueRefused`. `Launch.AcceptedExactly` is the exact condition.
- The server drops a module's kernels before the driver has agreed to unload the
  module, so a client kernel handle can outlive its record:
  `Sessions.KernelOutlivesRecord`. `Sessions.KernelHasRecord` is the exact
  condition over every run: a live kernel handle has its record exactly when no
  unload of its module has failed at the driver since the handle was made.
- The asynchronous two-dimensional copy to the host accepts a host pitch below the
  row width. The rows are written in order, so later rows win:
  `Pitched.OverlappingRows`. `Pitched.ArrivesWholeExactly`: every payload arrives
  whole exactly when there is one row or the pitch is at least the width.
- The staging of a copy that was enqueued but whose event was not recorded is
  released after a wait whose answer is ignored. `Lifetime.UnrecordedExact`: the
  release is clean exactly when that wait worked. `Lifetime.ConsumedExact` says the
  same of the consuming modes of the three-dimensional asynchronous copy.
- Map counts are doubled in 32 bits when a value is skipped, so the top bit of a
  32-bit count is lost. Within a note, whose length has 32 bits, every legal value is
  still skipped exactly (`MsgPack.SkipExactInNotes`), but more is accepted: a header
  that announces 2^31 pairs with nothing after it passes for a whole value
  (`MsgPack.TruncatedMapAccepted`). `MsgPack.WholeExactly`: what is skipped is a legal
  encoding exactly when no map header on the way announces 2^31 pairs or more;
  `MsgPack.AcceptedExactly` says what is accepted in general.
- The emitted encoders compare the claimed capacity with the least length at the
  start and again at each counted field, not at words. `Schema.WordPastTheEnd`: a word
  after counted bytes is written past the capacity. `Schema.InsideExactly`: a schema is
  free of this exactly when every word ends, at the latest, within the least length;
  by `Schema.WordsFirst` that covers schemas with all words before counted fields.
- A refused unlock leaves a host registration in place with some of its pages already
  unlocked. `HostPages.Registry.Release` keeps a weaker invariant then, and a later
  successful release of that registration restores the full one.

## Model

| member | source | states |
|---|---|---|
| Frontiers.MergeLoop | src/corex_remote_cuda.c:1947-1957 | the in-place merge loop computes the entrywise maximum |
| Frontiers.MergeLub | src/corex_remote_cuda.c:1947-1957 | merging is the least upper bound of two frontiers |
| Causality.SeesPrefix | src/corex_remote_cuda.c:1994-2014 | submitting more work never changes what happened before earlier operations |
| Causality.SeesNewest | src/corex_remote_cuda.c:1994-2014 | the newest operation sees its own transfer and exactly what its predecessors see |
| Causality.DrainExact | src/corex_remote_cuda.c:1873-1945 | a drain succeeds exactly when every selected transfer is answered; then the selected ones are gone, the others untouched, and host memory is the submit-order fold of the selected payloads |
| Causality.DrainFailedIsPrefix | src/corex_remote_cuda.c:1836-1885 | a drain that fails without losing the session has retired the first few selected transfers and nothing else |
| CausalRuns.OrderedReady | src/corex_remote_cuda.c:1996-2014 | after the legacy ordering the lane's frontier covers everything the next operation waits for |
| CausalRuns.SkippedReady | src/corex_remote_cuda.c:1996-2014 | an operation issued without the legacy ordering leaves uncovered only copies already missed and those the client's tables show it passes by |
| CausalRuns.IssueStepsKeep | src/corex_remote_cuda.c:2735-2840 | ordered operations keep the invariant; an unordered one that is answered adds only the copies it passes by to the exceptions |
| CausalRuns.DrainedKeeps | src/corex_remote_cuda.c:1873-1945 | draining keeps the invariant, changes only pending transfers and host memory, and on success leaves nothing that matched |
| CausalRuns.RecordKeeps | src/corex_remote_cuda.c:3716-3745 | recording keeps the invariant: the event's snapshot covers everything pending that happens before the record |
| CausalRuns.WaitKeeps | src/corex_remote_cuda.c:3805-3839 | waiting keeps the invariant: the stream then covers everything pending before the event's record |
| CausalRuns.KillStreamKeeps | src/corex_remote_cuda.c:3410-3446 | killing a stream with nothing pending behind its frontier keeps the invariant, so nothing pending is left from its slot |
| CausalRuns.StepKeeps | src/corex_remote_cuda.c:3064-3840 | every API call keeps the invariant, the copies an unordered operation passes by becoming exceptions |
| CausalRuns.EveryRunKeeps | src/corex_remote_cuda.c:3064-3840 | the invariant holds after every run of calls, errors, failures and reconnects, its exceptions being the copies unordered operations of the running session passed by |
| CausalRuns.SettledRunMissesNothing | src/corex_remote_cuda.c:1996-2014 | a run whose unordered operations are all issued at settled lanes has no exceptions |
| CausalRuns.FrontiersAreCausal | src/corex_remote_cuda.c:1803-2014 | in every run a pending transfer that happens before a live lane's tail is behind its frontier or was passed by, no entry is ahead of its slot, a lane's own entry is the last number issued, and every pending transfer belongs to a live lane whose tail it happens before |
| CausalRuns.HostFunctionSeesThePast | src/corex_remote_cuda.c:3487-3548 | before a host function is called, the payloads behind the ordered frontier are delivered and nothing the stream and the legacy rule order before it is pending, what was passed by aside |
| CausalRuns.SyncDeliversThePast | src/corex_remote_cuda.c:3448-3480 | in every run a successful stream synchronisation delivers the covered payloads once each in submit order, leaves every other transfer and every host byte outside their destinations, and leaves nothing pending that happened before the stream's last operation, what was passed by aside |
| CausalRuns.SettledSyncDeliversThePast | src/corex_remote_cuda.c:3448-3480 | in settled runs the same without exception |
| CausalRuns.EventSyncDeliversThePast | src/corex_remote_cuda.c:3747-3768 | in every run a successful event synchronisation delivers the covered payloads and leaves nothing pending that happened before the event's record, what was passed by aside |
| CausalRuns.DeviceSyncDeliversAll | src/corex_remote_cuda.c:3316-3331 | a successful device synchronisation delivers every payload in submit order and leaves nothing pending |
| CausalRuns.SkippingExact | src/corex_remote_cuda.c:2839-2840 | in every run, after an unordered operation the lane's tail sees every pending copy of a lane the legacy rule orders first; the frontier covers such a copy, and any other copy the tail sees that was not missed before, exactly when it was not passed by |
| CausalRuns.SkippingBreaksCoverage | src/corex_remote_cuda.c:2839-2840 | a concrete run in which the two-dimensional memset leaves an earlier copy uncovered |
| TransferTable.OldestIsFirst | src/corex_remote_cuda.c:1814-1834 | the least submit order among matching slots is the first match of the submit-ordered list |
| TransferTable.LiveCountIsPending | src/corex_remote_cuda.c:1784-1801 | the live slots are as many as the pending transfers, and a free slot exists exactly while they are fewer than the slots |
| TransferTable.Table.FindFree | src/corex_remote_cuda.c:1784-1791 | the first free slot, or none because all are held |
| TransferTable.Table.CountLive | src/corex_remote_cuda.c:1793-1801 | the number of held slots |
| TransferTable.Table.Oldest | src/corex_remote_cuda.c:1814-1834 | a matching slot of least submit order, or none matches |
| TransferTable.Table.Consume | src/corex_remote_cuda.c:1836-1871 | one wait: on success the payload is in host memory and the slot is free, on error nothing changed, on loss the table is empty |
| TransferTable.Table.Retire | src/corex_remote_cuda.c:1873-1945 | the drain loop is the specified drain, terminates, and waits only for matching transfers |
| TransferTable.Table.Enter | src/corex_remote_cuda.c:1784-1791 | a new transfer is entered exactly while fewer are pending than there are slots |
| TransferTable.Table.Poll | src/corex_remote_cuda.c:1891-1916 | asks only, never waits; pending means the last answer showed a covered copy unfinished, ready means all covered copies are finished, an error means the last request broke |
| TransferTable.Table.RetireIfReady | src/corex_remote_cuda.c:1886-1918 | a query is all or nothing: not ready consumes nothing, ready is the full drain, every wait is for a copy already finished; over an unbroken link it is one or the other, and the drain if all was finished at the start |
| TransferTable.FinishedBefore | src/corex_remote_cuda.c:1886-1918 | copies observed finished stay finished, so later waits on them never block |
| SlotTable.RoomLeft | server/runtime_server.c:306-443 | a table has a free slot exactly while it holds fewer records than slots |
| SlotTable.Table.Find | server/runtime_server.c:306-314 | the search returns the slot of the record with that number, or none exists |
| SlotTable.Table.New | server/runtime_server.c:323-335 | a new record takes a free slot and the next number; with no room nothing changes |
| SlotTable.Table.Clear | server/runtime_server.c:445-457 | clearing a slot removes exactly its record |
| SlotTable.Table.ClearOwned | server/runtime_server.c:552-570 | clearing by owner removes exactly the records of that owner |
| Sessions.ServedNew | server/runtime_server.c:803-881 | a creation keeps every record, never reuses a number, and answers with a record of the stated size and owner |
| Sessions.UnloadedKeeps | src/corex_remote_cuda.c:1696-1726 | client and server forget the same variables and the module, so the remaining handles still agree |
| Sessions.DropKeeps | server/runtime_server.c:1341-1400 | free, destroy and unload keep the agreement, whether refused, failed or lost |
| Sessions.AwaitKeeps | server/runtime_server.c:4119-4209 | a transfer goes on both sides together; an unexpected payload length cannot occur |
| Sessions.LostKeeps | src/corex_remote_cuda.c:198-271 | losing the connection leaves no live handle |
| Sessions.ConnectKeeps | src/corex_remote_cuda.c:2021-2089 | connecting takes a new generation and starts with no live handle |
| Sessions.EveryRunKeeps | src/corex_remote_cuda.c:198-390 | the session invariant holds after every run of calls, errors, losses, shutdowns and reconnects |
| Sessions.TablesAgree | server/runtime_server.c:306-457 | in every run a live client handle is of the active generation and, unless it is a kernel, names a used server record; a record it names has the same size, owner and direction |
| Sessions.NoForeignIdentifier | src/corex_remote_cuda.c:1436-1638 | no request ever carries a number issued in another session |
| Sessions.GenerationsNeverRepeat | src/corex_remote_cuda.c:2021-2051 | one generation per session, nonzero and strictly increasing, also when the 64-bit counter runs out |
| Sessions.StaleForever | src/corex_remote_cuda.c:4892-4980 | a dead handle, or one whose session is over, never resolves again |
| Sessions.AgreementKeptExactly | server/runtime_server.c:1732-1788 | a request keeps kernel agreement exactly when it is not an unload that fails at the driver of a module with a live client kernel |
| Sessions.KernelHasRecord | server/runtime_server.c:1732-1788 | in every run a live kernel handle has its record exactly when no unload of its module failed at the driver after the handle was made |
| Sessions.KernelsAgreeExactly | server/runtime_server.c:1732-1788 | in every run the kernel tables agree exactly when no live kernel handle has seen such an unload |
| Sessions.KernelOutlivesRecord | server/runtime_server.c:1732-1788 | a concrete run after which a live client kernel has no server record |
| Sessions.FailLoop | src/corex_remote_cuda.c:198-249 | the failure loops kill the handles of the failed generation and no other |
| Sessions.UnloadLoop | src/corex_remote_cuda.c:1601-1716 | the unload loops kill the module, its kernels and its variables and nothing else |
| Lifetime.WaitedIsClean | server/runtime_server.c:4119-4209 | a transfer's event covers every queued use of its staging |
| Lifetime.UnrecordedExact | server/runtime_server.c:3756-3775 | staging of an unrecorded copy is released in use exactly when the ignored wait failed |
| Lifetime.ConsumedExact | server/runtime_server.c:1052-1061 | staging of a copy the request itself consumes is released in use exactly when the wait for its event failed |
| Lifetime.CleanupKeeps | server/runtime_server.c:642-797 | with working waits the session cleanup releases nothing in use |
| Lifetime.EveryRunKeeps | server/runtime_server.c:3604-4018 | the lifetime invariant holds after every sequence of requests and device completions |
| Lifetime.CheckedReleasesAreSafe | server/runtime_server.c:1341-1400 | over every run and whatever barriers answer, a wait releases only staging no queued work uses; that memory and code go only with every queue empty follows from the barrier of the same request |
| Lifetime.NothingReleasedInFlight | server/runtime_server.c:445-568 | with working barriers nothing is ever released while queued work uses it |
| Lifetime.NoKernelStranded | server/runtime_server.c:2852-2890 | a used kernel always has a used module, so remaking the context strands none |
| Gate.StepKeeps | src/corex_remote_cuda.c:3487-3548 | every step of every thread keeps the gate invariant |
| Gate.NothingOvertakes | src/corex_runtime_context.c:18-25 | between a submission and its completion no entry passes the gate and the slot is not overwritten |
| Gate.RunsOnceAndInOrder | src/corex_remote_cuda.c:3487-3514 | a submitted function runs at most once, a host function only after its synchronisation and drain succeeded |
| Gate.OneInside | src/corex_runtime_context.c:18-30 | at most one thread is inside, and none while a callback is pending |
| Pitched.AtInjective | src/corex_remote_cuda.c:1849-1859 | on sound shapes the map from (z, y, x) to an address is injective |
| Pitched.ScatterInto | src/corex_remote_cuda.c:1849-1859 | the retirement loops write the rows in order, overlapping rows included |
| Pitched.LastRowWins | src/corex_remote_cuda.c:1849-1859 | a byte several rows claim holds the last row's byte |
| Pitched.ScatterOutside | src/corex_remote_cuda.c:1849-1859 | whatever the pitches, nothing outside the region is touched |
| Pitched.ScatterMeaning | src/corex_remote_cuda.c:1849-1859 | where no row reaches into a later one, every packed byte is in its place and nothing else is touched |
| Pitched.ArrivesWholeExactly | src/corex_remote_cuda.c:2801-2824 | every payload of a two-dimensional copy arrives whole exactly when there is one row or the host pitch is at least the width |
| Pitched.OverlappingRows | src/corex_remote_cuda.c:2801-2824 | of two overlapping rows the first keeps only the bytes before the pitch |
| Pitched.OverlapExample | src/corex_remote_cuda.c:2801-2824 | a concrete destination that loses a byte |
| Pitched.PackFrom | src/corex_remote_cuda.c:2975-3062 | the packing loops produce the packed region |
| Pitched.PackUnique | src/corex_remote_cuda.c:2975-3062 | a region has one packed form |
| Pitched.HostToDevice | server/runtime_server.c:978-1063 | pack, wire and server descriptor together are the nested copy of the region, nothing else touched |
| Pitched.DeviceToHost | server/runtime_server.c:978-1063 | server descriptor, wire and scatter together are the nested copy of the region, nothing else touched |
| Pitched.ThereAndBack | server/runtime_server.c:978-1063 | a region copied to the device and back restores exactly the host memory it came from |
| Regions.GuardedStep | src/corex_remote_cuda.c:2483-2501 | a guarded step neither wraps nor passes the limit, and its guard is exact |
| Regions.Checked2dExact | src/corex_remote_cuda.c:2466-2481 | accepted exactly when the shape is sound and every byte is inside, with no wraparound |
| Regions.Checked3dExact | src/corex_remote_cuda.c:2483-2501 | accepted exactly when the box is well placed and every byte is inside; the offset is the unbounded one |
| Regions.Valid3dExact | server/runtime_server.c:967-976 | the server accepts exactly the well-shaped descriptors whose every byte is inside |
| Regions.ClientAcceptsServerAccepts | server/runtime_server.c:967-976 | a region the client accepts is accepted by the server when sizes agree, and is sound, inside and of whole rows per slice |
| Regions.AcceptedToDevice | src/corex_remote_cuda.c:2975-3062 | whenever the checks accept both regions, the three-dimensional copy to the device is the nested copy |
| Regions.AcceptedToHost | src/corex_remote_cuda.c:2975-3062 | whenever the checks accept both regions, the three-dimensional copy to the host is the nested copy |
| Arena.MaskTest | src/corex_remote_cuda.c:1392-1394 | the mask test decides powers of two |
| Arena.MaskRoundsUp | src/corex_remote_cuda.c:1398-1398 | adding the mask and clearing its bits gives the least multiple at or above the value |
| Arena.AlignUp | src/corex_remote_cuda.c:1387-1400 | the least multiple at or above the value; refused exactly when the alignment is no power of two or the sum would wrap |
| Arena.OneSpan | src/corex_remote_cuda.c:1450-1493 | a pointer, one past the end included, lies in at most one span ever handed out |
| Arena.OneHit | src/corex_remote_cuda.c:1450-1493 | at most one slot answers for a pointer |
| Arena.ResolvesOnce | src/corex_remote_cuda.c:1450-1493 | resolution has one answer |
| Arena.ResolvesToItsSpan | src/corex_remote_cuda.c:1450-1493 | a pointer into memory once handed out resolves to nothing or to that same memory |
| Arena.FreedNeverResolves | src/corex_remote_cuda.c:2411-2456 | once memory is freed, a pointer into it resolves to nothing for the rest of the process, over every later allocation, release and session |
| Arena.Table.Prepare | src/corex_remote_cuda.c:2314-2333 | a free slot and room for size and guard, or one of them is missing |
| Arena.Table.Commit | src/corex_remote_cuda.c:2335-2364 | the new span starts at the cursor, the cursor moves past its guard, and every span ever handed out stays disjoint |
| Arena.Table.Resolve | src/corex_remote_cuda.c:1450-1493 | the linear search is the lookup of the one live span that holds the pointer |
| Arena.Table.FreePointer | src/corex_remote_cuda.c:2411-2456 | succeeds exactly on null, or on the base of a live allocation once the server confirms; only that entry changes |
| Arena.Table.EndSession | src/corex_remote_cuda.c:4958-4972 | ending a session kills its allocations and keeps the cursor |
| HostPages.RegisteredApart | src/corex_remote_cuda.c:5740-5751 | not overlapping an owned mapping by bytes means sharing no page with it |
| HostPages.VacatedSpans | src/corex_remote_cuda.c:5759-5798 | without one entry the spanned pages are exactly those of the others |
| HostPages.LookedMeans | src/corex_remote_cuda.c:5779-5788 | one look finds a covered stretch, or a stretch no other entry spans |
| HostPages.Registry.Look | src/corex_remote_cuda.c:5779-5788 | the farthest end reached by entries at or before the cursor and the next start after it |
| HostPages.Registry.Sweep | src/corex_remote_cuda.c:5773-5795 | unlocks exactly the entry's pages no other entry spans, the cursor strictly increasing; succeeds exactly when no unlock of its runs fails, and a failed one has unlocked only such pages |
| HostPages.Registry.Release | src/corex_remote_cuda.c:5759-5798 | succeeds exactly on a registered base whose unlocks all work; the locked pages stay within the union of the registered spans and only pages of this entry alone are ever unlocked; success takes the entry's own pages off those lacking their lock, so it restores the union once they are all that is lacking |
| HostPages.Registry.Register | src/corex_remote_cuda.c:5726-5757 | each outcome exactly, flags included: success on a supported range whose guards hold, that overlaps no entry, with room and a working lock; the locked pages stay the union, lost locks on its pages come back, and owned mappings stay apart |
| HostPages.Registry.Alloc | src/corex_remote_cuda.c:5704-5724 | each outcome exactly, flags included: success on size zero, or with a free entry and working mapping and lock; the locked pages stay the union and owned mappings stay apart |
| Launch.SlotsAgree | src/corex_remote_cuda.c:4053-4227 | the layout the client accepts agrees with the metadata argument by argument |
| Launch.NormaliseLoop | src/corex_remote_cuda.c:4131-4207 | the loop over the metadata computes the layout or refuses it |
| Launch.SerialiseExact | src/corex_remote_cuda.c:4735-4830 | a launch is serialised exactly when dimensions are nonzero, sizes fit 32 bits and every pointer is usable |
| Launch.UsableExact | src/corex_remote_cuda.c:4789-4798 | a pointer is usable exactly when it points into a live allocation |
| Launch.LaunchArrives | server/runtime_server.c:3344-3555 | every serialised launch decodes to the same kernel, stream, dimensions and value bytes, with each pointer at native base plus its distance from the client's base |
| Launch.AgreeInEveryRun | server/runtime_server.c:3344-3555 | in every run the server knows each allocation the client can resolve, under the same number and size |
| Launch.LaunchArrivesInEveryRun | server/runtime_server.c:3344-3555 | in every run a launch serialised from live handles is found and decoded as sent |
| Launch.AcceptedExactly | server/runtime_server.c:4661-4668 | of the serialised launches the server accepts exactly those of at most 64 MiB |
| Launch.LargeValueRefused | server/runtime_server.c:4661-4668 | a concrete launch that is serialised and then refused |
| Launch.SerialiseLoop | src/corex_remote_cuda.c:4788-4817 | the loop over the arguments writes their encoding or stops at an unusable pointer |
| Launch.DecodeLoop | server/runtime_server.c:3410-3536 | the loop over the arguments decodes them or reports the first failure |
| MsgPack.Skip | src/corex_metadata.c:540-741 | on every input skipping terminates, moves forward and stays inside the input |
| MsgPack.SkipExact | src/corex_metadata.c:522-741 | skipping consumes exactly one value, in any legal encoding |
| MsgPack.SkippedIffNarrow | src/corex_metadata.c:540-741 | skipping any legal value succeeds, never passes its end, and stops there exactly when no map in it has 2^31 pairs or more |
| MsgPack.SkipExactInNotes | src/corex_metadata.c:540-741 | in an input shorter than 2^32 bytes every legal value is skipped exactly |
| MsgPack.AcceptedExactly | src/corex_metadata.c:540-741 | skipping accepts exactly the encodings of legal values without such maps in which the top bit of 32-bit map counts may be set |
| MsgPack.WholeExactly | src/corex_metadata.c:540-741 | what is skipped is the encoding of a legal value exactly when no map header on the way announces 2^31 pairs or more |
| MsgPack.TruncatedMapAccepted | src/corex_metadata.c:706-721 | a five-byte map header with nothing after it is accepted as a whole value |
| MsgPack.TextRead | src/corex_metadata.c:263-348 | a string is read back whatever the width of its length |
| MsgPack.UintRead | src/corex_metadata.c:355-515 | a nonnegative integer is read back from any signed or unsigned width |
| MsgPack.CountRead | src/corex_metadata.c:146-252 | a container count is read back whatever its width |
| MsgPack.Reader.SkipValue | src/corex_metadata.c:540-741 | the reader skips what the specification skips and its cursor never leaves the input |
| MsgPack.Reader.SkipValues | src/corex_metadata.c:525-538 | the counted loop skips that many values |
| Metadata.CutKeeps | src/corex_metadata.c:330-347 | text without a zero that fits its buffer is kept as it is |
| Metadata.ParseArgRead | src/corex_metadata.c:767-883 | an argument record is read back from any printing of it |
| Metadata.ParseKernelRead | src/corex_metadata.c:885-1018 | a kernel record is read back from any printing of it |
| Metadata.ParseInvertsPrint | src/corex_metadata.c:1020-1148 | a module record is read back from any printing: any order, any widths, unknown keys between; trailing bytes are refused |
| Metadata.ParseArgLoop | src/corex_metadata.c:767-883 | the loop over an argument's fields is the specified parse |
| Metadata.ParseKernelLoop | src/corex_metadata.c:885-1018 | the loop over a kernel's fields is the specified parse |
| Metadata.ParseRootLoop | src/corex_metadata.c:1020-1148 | the loop over a module's fields is the specified parse |
| MetadataPrinter.ParseInvertsPrinter | src/corex_metadata.c:1020-1148 | every module record that fits the C structures survives printing and parsing |
| ElfNotes.NoteReadBack | src/corex_metadata.c:1470-1510 | a written note is read back wherever it stands |
| ElfNotes.WalkFindsFirst | src/corex_metadata.c:1470-1544 | over any list of notes the walk finds the first Iluvatar note of type 0x0A |
| ElfNotes.WalkFindsNone | src/corex_metadata.c:1470-1553 | with no such note nothing is found |
| ElfNotes.FindNoteLoop | src/corex_metadata.c:1470-1544 | the loop is the specified walk |
| ElfNotes.EntryOffsetFits | src/corex_metadata.c:1185-1203 | offsets of section entries do not wrap |
| ElfNotes.FindSection | src/corex_metadata.c:1403-1446 | the first section named ".note" with every section before it sound, or there is none |
| ElfNotes.ParseImage | src/corex_metadata.c:1263-1553 | the result is the module in the first wanted note of the first ".note" section; without kernels, notes or sound tables it is refused |
| ElfNotes.PrintedModuleFound | src/corex_metadata.c:1470-1544 | a module printed into the first wanted note is found and read back |
| ElfImage.Extent | src/corex_fatbin_runtime.c:150-197 | the loops compute the least bound on everything the image refers to, or no extent exists |
| ElfImage.ExtentLocal | src/corex_fatbin_runtime.c:150-197 | the extent depends only on the bytes inside it and is the same for every longer input |
| ElfImage.ExtractOne | src/corex_fatbin_runtime.c:199-227 | an image is found exactly when there is a sole one |
| ElfImage.LibraryImage | src/corex_fatbin_runtime.c:229-254 | the normaliser returns the image the code starts with or the sole image of a fat binary |
| ElfImage.NormalisingTwice | src/corex_remote_cuda.c:6045-6092 | normalising a normal image returns it unchanged |
| Wire.BigRoundTrip | include/internal/corex_protocol.h:218-272 | a number below the width's range survives writing and reading |
| Wire.FromBigRoundTrip | include/internal/corex_protocol.h:218-272 | bytes that were read are the bytes of the number read |
| Wire.TakeWritten | include/internal/corex_protocol.h:266-294 | a number is read back wherever it was written |
| Schema.DecodeInvertsEncode | scripts/generate-api-schema.py:179-268 | for every schema decoding inverts encoding |
| Schema.AcceptedReencodes | scripts/generate-api-schema.py:179-268 | for every schema an accepted payload is the encoding of what it decodes to |
| Schema.EncodedLength | scripts/generate-api-schema.py:140-152 | encoded lengths lie within the wire bounds |
| Schema.BoundsAttained | scripts/generate-api-schema.py:140-152 | both wire bounds are reached |
| Schema.EncodingsPass | scripts/generate-api-schema.py:345-361 | the length check never turns away an encoding |
| Schema.ValidatePayload | scripts/generate-api-schema.py:345-361 | accepted exactly when the opcode is in the table and the length within its bounds |
| Schema.EncodeInto | scripts/generate-api-schema.py:200-238 | for every claimed capacity the emitted encoder succeeds exactly when the least length and every counted field end within it, the values fit and strings are followed by a zero byte; it then writes their encoding, and never writes past its stated reach |
| Schema.InsideExactly | scripts/generate-api-schema.py:200-238 | the encoder of a schema stays inside every claimed capacity exactly when each of its words ends, at the latest, within the least length |
| Schema.WordsFirst | scripts/generate-api-schema.py:200-238 | schemas with all words before counted fields meet that condition |
| Schema.WordPastTheEnd | scripts/generate-api-schema.py:200-238 | counted bytes and then a word: with 8 bytes claimed, 12 are written |
| Schema.DecodeFrom | scripts/generate-api-schema.py:239-268 | the emitted decoder is the specified one |
| Hello.DecodeInvertsEncode | include/internal/corex_protocol.h:296-363 | a greeting survives the round trip exactly when it names a device and distinct nonzero capabilities |
| Hello.AcceptedReencodes | include/internal/corex_protocol.h:323-363 | every accepted message is the encoding of what it decodes to |
| Hello.DecodeFrom | include/internal/corex_protocol.h:323-363 | the decoder's loops are the specified decoder |

## Left out

- Graphs and stream capture: capture is taken to be inactive and graph fields at their plain values.
- Sockets, configuration, logging and the program entry points: a request is a step with an outcome.
- The vendor driver and its thin wrapper: driver calls are parameters, the device is a set of queues.
- Scalar queries and setters, device properties, error names and the entry-point table: each is settled by reading one branch.
- The launch-configuration stack: a plain bounded stack.
- Finding loaded objects, reading files, mapping and locking memory: their effect is a parameter or a set of pages.
- The legacy host modes of the two-dimensional asynchronous opcode and its decoder: the client sends only device-to-device copies there. The consuming modes of the three-dimensional opcode appear in `Lifetime` only.
- Request and response headers: fixed words like those of HELLO, with no further property.
- Memory pools: pool handles take no part in the session agreement or in the check before a context is remade.
- CausalRuns.EveryRunKeeps: sequence numbers and submit orders are unbounded, so the wrap of a 64-bit counter is not modelled.
- TransferTable.Table.Consume: the temporary buffer of a two- or three-dimensional payload is taken to be available; its loss behaves like a refused wait.
- Sessions.EveryRunKeeps: client table capacities appear only as a creation that finds no place for its handle.
- Lifetime.EveryRunKeeps: a state machine on values, with one counter for all numbers; the in-place tables are `SlotTable.Table`.
- Lifetime.CheckedReleasesAreSafe: a stream-ordered free hands the memory to the driver and is not a release here.
- Gate.StepKeeps: safety only; that a waiting thread is eventually woken is not stated.
- HostPages.Registry.Release: the device synchronisation before a release is part of `CausalRuns`, not of the registry.
- Arena.Table.FreePointer: module variables and graph allocations, which it refuses or retires differently, are not modelled.
- Launch.LaunchArrivesInEveryRun: that the address table lists live memory handles, and the handler the session's records, is how the two models are joined.
- Launch.LaunchArrives: native addresses are unbounded numbers, so the sum of base and offset does not wrap.
- ElfNotes.ParseImage: error texts are not modelled.
