# Capture-HPC, verified models of its core

Capture-HPC is a client honeypot: kernel drivers record what happens on a client, the client visits
URLs and reports state changes, and a server hands out URLs and decides which are malicious. This
project models the parts of it where correctness is an unbounded property and proves them in Dafny.
Objects that the original updates in place are classes here, loops are loops, and each method is
proved against a function or an invariant whose consequences are proved as lemmas.

`dafny verify dfyconfig.toml` checks everything.

| files | what they model |
|---|---|
| Basics | an optional value, and sums over sequences |
| Words, EventImage, EventStaging, EventReuse, RingQueue, EventRing | the kernel's event ring: events built in staging buffers that are used again and again, copied into four lists used as a ring, linked by byte offsets |
| Bitmap, SharedEvents, StaleTail, SharedEventList | the event list shared by kernel and client, and the bitmap both sides reserve and release blocks in |
| HashMap | the kernel's chained hash map, with its heap of pairs and entries |
| UrlJobs, UrlBounds, UrlEffects, UrlVerdicts, UrlBulk, UrlCounters, UrlGroups | the server's scheduler, dac and bulk: a state machine, its bounds, what its steps do to each URL and group, its verdicts and counters, and the objects that refine its steps |
| StateChanges, ProcessTrees, ProcessForest | the forest of processes state changes are hung in, and the sorted list made of a tree |
| Dispatcher | the Internet Explorer plugins' dispatcher and its sixty worker threads, interleaved freely |
| Base64, UrlCodec, FileTransfer | Base64 against section 4 of RFC 4648, percent coding, and a file sent in parts |

Memory is a sequence of bytes with 32-bit little-endian words (Words), so that offsets, links and
relocation are proved about bytes and not about an abstraction of them. The struct layouts are those
of a 32-bit build: in the ring Event is 12 bytes, EventData 16 and EventList 36; in the shared list
Event is 20, DataContainer 16 and the block memory starts at offset 4120.

## Where the code does not do what it is for

In these places the property one would expect is false of the code. The code is modelled as it is
and the exact condition is proved.

- A staging buffer used a second time still has the earlier event's data offsets in its header, as
  nothing clears them (EventRingList.c:97-104, 227-237), so the first AddEventData writes a link at
  the stale offset. `EventReuse.EventComesOut` says exactly when an event of any list of fields
  comes out right all the same, `EventReuse.EventComesOutAfter` the same from the events built in
  the buffer before. `EventReuse.SecondUse` shows that after an event of one field a further event of
  one field never does and one of two fields always does.
- Consuming the only event of the shared list leaves the list's tail naming it
  (NetworkMonitor.cpp:263). `SharedEventList.EventList.ProcessEvent` leaves a well-formed list if and
  only if the head event was not the only one; `SharedEventList.DrainToEmpty` is the smallest run in
  which it was. The next InsertEvent writes through the stale tail, and
  `SharedEventList.EventList.InsertEvent` says exactly when that does no harm;
  `SharedEventList.DrainThenInsert` is the run in which the new event comes to link to itself.
- The dispatcher can lose a worker's signal once a group has more than sixty URLs, and then never
  leaves its loop. `Dispatcher.CountableExactly` shows that sixty is the exact limit,
  `Dispatcher.LargeGroupsCanLose` gives the run, and `Dispatcher.CanStillLeave` shows for groups of any
  size that the loop can still be left exactly as long as no signal has been lost.
- A URL that has failed is reported as failed even by a successful retry, as its error code stays
  (UrlGroup.java:107-112). `UrlVerdicts.RetryReportsError` gives the run, `UrlVerdicts.RetryOfOneUrl` at
  one URL; `UrlVerdicts.RunReports` says for every run exactly when a finished visit reports a URL as
  visited: when the last error code written to it was OK, or none ever was.
- Percent decoding does not undo the plus sign that encoding makes of a space
  (Url.cpp:85, 107-144). `UrlCodec.RoundTrip` shows that a text comes back if and only if it has no space.
- Url::encode writes the halves of a surrogate pair one by one, as three octets each, which section 3
  of RFC 3629 forbids (Url.cpp:71-105). `UrlCodec.FormRoundTrip` shows that a decoder that takes such
  octets gets every text back, and one that refuses them exactly the texts without surrogates.
- Base64::decode turns pad characters into up to two extra bytes (CaptureGlobal.cpp:36-45), which
  `Base64.RoundTrip` counts exactly.

## Model

| member | source | states |
|---|---|---|
| RingQueue.RunConserves | capture-client/KernelDrivers/CaptureKernelDrivers/Common/EventRingList.c:257-398 | Over every sequence of AddEvent calls and read requests, the events that left the ring, in the order they left, followed by those still pending, are exactly the events written, in order: each is delivered once, dropped once or still pending, and none overtakes another |
| RingQueue.WriteIsFifo | capture-client/KernelDrivers/CaptureKernelDrivers/Common/EventRingList.c:292-398 | One AddEvent keeps everything pending, in order, with the new event last; only when the ring is full and the write list too short is the whole oldest list lost, and nothing else |
| RingQueue.ReadIsFifo | capture-client/KernelDrivers/CaptureKernelDrivers/Common/EventRingList.c:257-290 | A read request removes exactly the events of the oldest list from the front |
| RingQueue.StepKeepsShape | capture-client/KernelDrivers/CaptureKernelDrivers/Common/EventRingList.c:257-398 | Two to four lists are pending after every operation and none holds more than its length |
| RingQueue.OpensOnlyWhenFull | capture-client/KernelDrivers/CaptureKernelDrivers/Common/EventRingList.c:329-360 | An event that fits into the write list goes there and nothing else changes; only one that does not fit opens a new list, behind the full one, and as long as fewer than four are pending costs nothing |
| RingQueue.RunFilled | capture-client/KernelDrivers/CaptureKernelDrivers/Common/EventRingList.c:329-360 | After every run each list opened by a write begins with an event that did not fit into the list before it |
| RingQueue.DroppedLate | capture-client/KernelDrivers/CaptureKernelDrivers/Common/EventRingList.c:292-398 | Over every run an event is dropped only after at least 2 * length + 2 further bytes of events have been written, length being that of a list; the k-th event written is the k-th to leave |
| RingQueue.DrainDeliversAll | capture-client/KernelDrivers/CaptureKernelDrivers/Common/EventRingList.c:257-290 | As many read requests as there are pending lists deliver everything pending, in order |
| RingQueue.RoundRead | capture-client/KernelDrivers/CaptureKernelDrivers/Common/EventRingList.c:257-290 | Moving the read position, and the write position when it is caught up with, is the queue's read step on the lists read round the ring |
| RingQueue.RoundNextWrite | capture-client/KernelDrivers/CaptureKernelDrivers/Common/EventRingList.c:292-327 | Moving the write position, and the read position when it is caught up with, appends an emptied list and gives up the oldest exactly when all four are pending |
| EventRing.EventRingList.constructor | capture-client/KernelDrivers/CaptureKernelDrivers/Common/EventRingList.c:400-440 | The initial ring has distinct read and write positions, two empty pending lists, and unused buffers |
| EventRing.EventRingList.AcquireReadEventList | capture-client/KernelDrivers/CaptureKernelDrivers/Common/EventRingList.c:257-290 | Hands out the oldest pending list, which is never the new write list; the read position moves on by one, the write position only if it is caught up with; no list's contents change but those of a newly opened one |
| EventRing.EventRingList.AcquireNextWriteEventList | capture-client/KernelDrivers/CaptureKernelDrivers/Common/EventRingList.c:292-327 | The write position moves on by one and the new write list is empty; the pending lists stay, but for the oldest, which is lost exactly when all four are pending; positions, pointers and lists stay in agreement |
| EventRing.EventRingList.AcquireWriteEventList | capture-client/KernelDrivers/CaptureKernelDrivers/Common/EventRingList.c:329-360 | If the write list has room, positions, write list and all lists stay as they are; only otherwise the next list is opened, which costs the oldest only when all four are pending |
| EventRing.EventRingList.WriteImage | capture-client/KernelDrivers/CaptureKernelDrivers/Common/EventRingList.c:329-391 | An event that fits is put behind the others of the write list, and positions and all other lists stay; one that does not fit is the first of the next list |
| EventRing.EventRingList.AddEvent | capture-client/KernelDrivers/CaptureKernelDrivers/Common/EventRingList.c:362-398 | If the event fits into the write list, positions and all lists before the last stay as they are and the staged bytes are the last list's new last event; otherwise they are the only event of a newly opened list; the buffer is released and every invariant of ring, lists and buffers holds again |
| EventRing.EventRingList.ReadEventList | capture-client/KernelDrivers/CaptureKernelDrivers/Common/EventRingList.c:729-753 | The bytes delivered decode, from the head offset, to exactly the events of the oldest list in order, ending at 0, and the queue takes its read step |
| EventRing.EventRingList.CreateEventBuffers | capture-client/KernelDrivers/CaptureKernelDrivers/Common/EventRingList.c:29-56 | The pool grows to exactly the number asked for, or as far as memory goes, or not at all past 256; old buffers stay, in their places, and new ones are unused |
| EventRing.EventRingList.CreateEvent | capture-client/KernelDrivers/CaptureKernelDrivers/Common/EventRingList.c:58-95 | Takes the first buffer that is not in use, grows the pool only when all are, starts an event of 12 bytes in it, records what the buffer held then, and leaves every other buffer as it was; fails exactly when no buffer is free and none can be added |
| EventRing.EventBuffer.AddEventData | capture-client/KernelDrivers/CaptureKernelDrivers/Common/EventRingList.c:155-202 | Succeeds iff the record fits; then the buffer's bytes are those of the specification, and the staged fields grow by exactly this one |
| EventRing.EventBuffer.ReserveEventDataSpace | capture-client/KernelDrivers/CaptureKernelDrivers/Common/EventRingList.c:477-521 | As AddEventData, with whatever the buffer held as value, and the position of the value returned |
| EventRing.EventBuffer.ImageCarries | capture-client/KernelDrivers/CaptureKernelDrivers/Common/EventRingList.c:58-95 | The bytes AddEvent copies carry exactly the staged fields wherever they are put iff the tail offset the header had at CreateEvent does no harm to them: it is 0, or 12 with two fields or more, or misses or matches the first value |
| EventRing.EventList.Reset | capture-client/KernelDrivers/CaptureKernelDrivers/Common/EventRingList.c:239-250 | The list is empty, ready and well formed again |
| EventRing.EventList.Append | capture-client/KernelDrivers/CaptureKernelDrivers/Common/EventRingList.c:375-391 | One image more in the list: used and free space add up to the length, head and tail offsets and the chain of events are those of the longer list |
| EventRing.EventList.CopyOut | capture-client/KernelDrivers/CaptureKernelDrivers/Common/EventRingList.c:739-741 | The used bytes decode to exactly the events put into the list, in order |
| EventImage.EventCarriesAnywhere | capture-client/KernelDrivers/CaptureKernelDrivers/Common/EventRingList.c:155-202 | Relocation: a staged event's bytes mean the same fields wherever they are copied, whatever list link is put in front of them and whatever follows |
| EventImage.ReadListBytes | capture-client/KernelDrivers/CaptureKernelDrivers/Common/EventRingList.c:362-398 | A reader of a list's bytes finds exactly the events whose images the list was given, in order, and then offset 0 |
| EventImage.AppendImage | capture-client/KernelDrivers/CaptureKernelDrivers/Common/EventRingList.c:383-391 | Writing an image behind the last and its offset into the last one's link turns a list's bytes into those of the list with one more event |
| EventImage.DataChainUnique | capture-client/KernelDrivers/CaptureKernelDrivers/Common/EventRingList.c:191-199 | A chain of data can be read in one way only |
| EventImage.EventChainUnique | capture-client/KernelDrivers/CaptureKernelDrivers/Common/EventRingList.c:383-391 | A chain of events can be read in one way only |
| EventStaging.StageFieldAppends | capture-client/KernelDrivers/CaptureKernelDrivers/Common/EventRingList.c:176-199 | On a buffer holding the bytes of an event with some fields, AddEventData makes the bytes of the event with one more |
| EventReuse.EventComesOut | capture-client/KernelDrivers/CaptureKernelDrivers/Common/EventRingList.c:176-199 | For any list of fields and any earlier contents of the buffer: the event carries exactly these fields, in place and wherever it is copied, iff the stale tail offset is 0; or it is 12 and there are at least two fields; or it lies behind the first record's header and the four bytes written there miss its value or are in it anyway |
| EventReuse.EventComesOutAfter | capture-client/KernelDrivers/CaptureKernelDrivers/Common/EventRingList.c:227-237 | The same condition from the events built in the buffer before: the stale offset is where the last record of the last of them that had data started |
| EventReuse.SecondUse | capture-client/KernelDrivers/CaptureKernelDrivers/Common/EventRingList.c:97-104 | In a new buffer the first event comes out right; after one of one field no event of one field does, and every event of two |
| EventReuse.TailIsStaleOffset | capture-client/KernelDrivers/CaptureKernelDrivers/Common/EventRingList.c:176-199 | Over any number of events, the header's tail offset stays where the last record of the last event with data started |
| HashMap.HashMap.Insert | capture-client/KernelDrivers/CaptureKernelDrivers/Common/HashMap.c:64-115 | Appends the value to its key's queue and touches no other; fails exactly when memory for what it needs is missing, and then changes nothing; all buckets stay doubly linked lists of keys that hash to them |
| HashMap.HashMap.FindPair | capture-client/KernelDrivers/CaptureKernelDrivers/Common/HashMap.c:117-140 | Finds the first pair of the key, and none iff the key's queue is empty |
| HashMap.HashMap.FindValue | capture-client/KernelDrivers/CaptureKernelDrivers/Common/HashMap.c:142-150 | The oldest value of the key, or NULL |
| HashMap.HashMap.Remove | capture-client/KernelDrivers/CaptureKernelDrivers/Common/HashMap.c:152-188 | Drops exactly the oldest value of the key; true iff there was one |
| HashMap.HashMap.Iterate | capture-client/KernelDrivers/CaptureKernelDrivers/Common/HashMap.c:190-208 | The visitor sees all pairs, bucket by bucket in list order |
| HashMap.HashMap.IterateVisitsAll | capture-client/KernelDrivers/CaptureKernelDrivers/Common/HashMap.c:190-208 | Of the pairs visited, those of any key are exactly the key's queue: each stored pair is visited once |
| HashMap.QueueAfterInsert | capture-client/KernelDrivers/CaptureKernelDrivers/Common/HashMap.c:95-110 | A pair at the end of its bucket lengthens its own key's queue only |
| HashMap.QueueAfterRemove | capture-client/KernelDrivers/CaptureKernelDrivers/Common/HashMap.c:163-183 | Taking out the first pair of a key shortens that key's queue by its head and no other |
| Bitmap.MaskClears | capture-client/EventList.h:126-131 | The shifted mask clears exactly the bits from shift on, count of them, for every alignment and length |
| Bitmap.BufferClearBits | capture-client/EventList.h:104-137 | The byte-wise loop ends and clears exactly the bits from the block's index on, as many as blocks, cut at the bitmap's size, and changes no other bit |
| Bitmap.FindClearBitsAndSet | capture-client/KernelDrivers/CaptureKernelDrivers/Common/EventList.c:61 | Sets exactly a run that was clear: the first from the hint on, or else the first from the start; fails only if there is no clear run anywhere, and then changes nothing |
| Bitmap.Buffer.constructor | capture-client/KernelDrivers/CaptureKernelDrivers/Common/EventList.c:28-41 | Nothing is reserved and no bit is set |
| Bitmap.Buffer.ReserveSpace | capture-client/KernelDrivers/CaptureKernelDrivers/Common/EventList.c:48-79 | The new reservation lies inside the buffer, apart from all live ones, has the least number of blocks that hold the size, and the set bits stay exactly the union of all; it fails only if no run of free blocks is long enough |
| Bitmap.Buffer.Release | capture-client/EventList.h:104-137 | Releasing a live reservation takes away exactly that one |
| Bitmap.SameReservations | capture-client/KernelDrivers/CaptureKernelDrivers/Common/EventList.c:28-79 | Which reservations are live determines every byte of the bitmap |
| Bitmap.ReserveThenRelease | capture-client/KernelDrivers/CaptureKernelDrivers/Common/EventList.c:48-79 | Reserving and releasing the same size restores the bitmap byte for byte |
| SharedEventList.EventList.constructor | capture-client/KernelDrivers/CaptureKernelDrivers/Common/EventList.c:82-100 | An empty, well-formed list with nothing reserved |
| SharedEventList.EventList.CreateEvent | capture-client/KernelDrivers/CaptureKernelDrivers/Common/EventList.c:190-204 | An event of zero bytes in two blocks reserved for it joins the events being filled, whatever the list's tail names, and no other byte changes; it fails only if no two adjacent blocks are free, and then changes nothing |
| SharedEventList.EventList.AddEventData | capture-client/KernelDrivers/CaptureKernelDrivers/Common/EventList.c:242-280 | A container with the key, type, size and data, in blocks of its own, becomes the event's last; every other event's blocks, containers and links are as they were. Without data it holds what its blocks held |
| SharedEventList.EventList.InsertEvent | capture-client/KernelDrivers/CaptureKernelDrivers/Common/EventList.c:207-231 | The filled event becomes the last of the queue, marked ready, with the former tail as its predecessor. A well-formed list stays so; a drained one is well formed afterwards iff the write through its stale tail hits no event struct and changes no byte of a container; if it hits the new event itself, the event links to itself |
| StaleTail.StaleInsertSound | capture-client/KernelDrivers/CaptureKernelDrivers/Common/EventList.c:213-224 | That equivalence on the bytes of the block memory, for every drained list and every block the tail may name |
| StaleTail.FreeIsHarmless | capture-client/KernelDrivers/CaptureKernelDrivers/Common/EventList.c:220 | A stale tail into blocks that are still free does no harm |
| StaleTail.OwnBlockLinksToItself | capture-client/KernelDrivers/CaptureKernelDrivers/Common/EventList.c:220 | A new event given the blocks the stale tail names gets itself as its successor |
| SharedEventList.EventList.ProcessEvent | capture-client/NetworkMonitor.cpp:145-267 | Hands over exactly the fields the producer stored in the head event, in order, gives back exactly the blocks of that event and its containers, and leaves the others as they were; the list is well formed afterwards iff that event was not its only one |
| SharedEventList.Send | capture-client/KernelDrivers/CaptureKernelDrivers/Common/EventList.c:189-273 | Creating, filling and inserting an event puts exactly the given field at the end of the queue, or leaves the queue as it was; a well-formed list stays so |
| SharedEventList.SendTwoReceiveOne | capture-client/NetworkMonitor.cpp:208-267 | Of two events sent the first is received, with what was put in, and the second stays queued |
| SharedEventList.DrainToEmpty | capture-client/NetworkMonitor.cpp:263-265 | One event inserted and consumed: the list is empty, nothing is reserved, and the tail still names the event |
| SharedEventList.DrainThenInsert | capture-client/KernelDrivers/CaptureKernelDrivers/Common/EventList.c:213-224 | The next event inserted is given the same blocks: the list's one event links to itself |
| SharedEvents.Added | capture-client/KernelDrivers/CaptureKernelDrivers/Common/EventList.c:250-270 | Writing and linking a container keeps all events' contents, the ownership of blocks and the queue, with one container more in the one event |
| SharedEvents.Inserted | capture-client/KernelDrivers/CaptureKernelDrivers/Common/EventList.c:213-224 | InsertEvent's writes move the event to the end of the queue and keep everything else said of the list |
| SharedEvents.Consumed | capture-client/NetworkMonitor.cpp:221-265 | Without the head event and its blocks what is left is a sound list of the others |
| UrlJobs.StepKeepsWellFormed | capture-server/capture/UrlGroupsController.java:75-195 | Every step, the loss of a client before its visit included, keeps all groups non-empty, retried at most once, and made of known URLs |
| UrlJobs.HalvesSplit | capture-server/capture/UrlGroupsController.java:116-139 | A split's halves put together are the group's URLs in order, and neither is empty |
| UrlJobs.StepConserves | capture-server/capture/UrlGroupsController.java:75-195 | Every URL waiting or in a group before a step is still so after it, or settled by it, exactly as often |
| UrlJobs.RunConserves | capture-server/capture/UrlGroupsController.java:75-195 | Over any run no URL is lost or duplicated |
| UrlEffects.CodeMeaning | capture-server/capture/Url.java:299-315 | Known error codes are kept, every other becomes 0x10006000, and only 0 means no error |
| UrlEffects.TurnAllEffect | capture-server/capture/UrlGroup.java:96-120 | State and code of every URL after setUrlGroupState, one by one: visiting; visited or in error by its own code; in error with the group's code where it had none; URLs of other groups as they were |
| UrlEffects.FailAllEffect | capture-server/capture/UrlGroupsController.java:172-181 | After update has gone over a failed group, its URLs and no others are in error with the group's code |
| UrlEffects.EndVerdict | capture-server/capture/UrlGroup.java:197-227 | The verdict of every URL after a visit has finished or failed: under bulk the one reported for it, else safe if nothing was found, malicious if it was alone, and unchanged in a malicious group of several or another group |
| UrlEffects.VerdictStays | capture-server/capture/UrlGroupsController.java:75-195 | Nothing else changes a verdict |
| UrlEffects.EndOutcome | capture-server/capture/UrlGroupsController.java:112-195 | What goes back on the queue: the halves of a malicious dac group of several URLs, the second on top, cut at half their number; else the group itself after its first error; else nothing |
| UrlEffects.RunKeepsSizes | capture-server/capture/UrlGroupsController.java:75-99 | Over any run in which the configured group size never exceeds m, no group has ever more than max(1, m) URLs, if none has to begin with |
| UrlBounds.StepAccounts | capture-server/capture/UrlGroupsController.java:106-195 | For any measure of groups, visits begun and what remains in the server change by exactly what a step adds and puts back |
| UrlBounds.EndLowersQuota | capture-server/capture/UrlGroupsController.java:141-194 | However a visit ends, the groups put back are worth at least one visit less than the one visited, with 4n - 2 for a fresh group and 4n - 3 for one that has failed; of a group lost before its visit, no more than the group |
| UrlBounds.GroupStops | capture-server/capture/UrlGroupsController.java:106-195 | From one group of n URLs every run, errors and retries included, makes at most 4n - 2 visits |
| UrlBounds.ServerStops | capture-server/capture/UrlGroupsController.java:75-195 | A server run over N URLs, with any batches, makes at most 4N visits |
| UrlBounds.RunSpendsCost | capture-server/capture/UrlGroupsController.java:112-139 | In an error-free dac run the visits made and the visits still due add up to exactly the recursive cost of the groups, in every order of visits |
| UrlBounds.GroupCost | capture-server/capture/UrlGroupsController.java:112-139 | Such a run over n URLs, k malicious, takes at most min(2n - 1, 1 + 2k ceil(log2 n)) visits, and exactly the cost once no group is left |
| UrlBounds.CostLogarithmic | capture-server/capture/UrlGroupsController.java:116-139 | The cost is at most 1 + 2k ceil(log2 n) |
| UrlBounds.CostLinear | capture-server/capture/UrlGroupsController.java:116-139 | The cost is at most 2n - 1 |
| UrlBounds.CeilLog2Meaning | capture-server/capture/UrlGroupsController.java:121 | The logarithm used in the bound is the least exponent whose power of two reaches n |
| UrlVerdicts.StepKeepsSearching | capture-server/capture/UrlGroupsController.java:75-195 | Every truthful dac step keeps: pending URLs undecided and in one group only, settled ones visited with their true verdict, and safe and malicious counting exactly the settled |
| UrlVerdicts.VerdictsAreTrue | capture-server/capture/UrlGroup.java:96-227 | At every point of an error-free dac run what has been decided is right and counted once; when nothing is pending every URL has its true verdict and safe and malicious are the numbers of safe and malicious URLs |
| UrlBulk.StepKeepsDeciding | capture-server/capture/UrlGroup.java:209-224 | Every truthful bulk step keeps: pending URLs undecided and in one group only, all others visited with their true verdict, and safe and malicious counting exactly those |
| UrlBulk.BulkVerdictsAreTrue | capture-server/capture/UrlGroup.java:197-227 | At every point of an error-free bulk run every URL done with has its true verdict, by its own state changes or the group's flag, safe and malicious are the numbers of safe and malicious ones among those, and nothing is decided of the others; when nothing is pending that is every URL |
| UrlVerdicts.FinishEffect | capture-server/capture/UrlGroup.java:96-224 | What a finished visit does to URLs and counters: all safe, or the only one malicious, or no verdict at all for a malicious group of several |
| UrlVerdicts.FinishReports | capture-server/capture/UrlGroup.java:107-112 | A finished visit reports a URL as visited iff the URL has no error code, and keeps the code |
| UrlVerdicts.FailReports | capture-server/capture/UrlGroupsController.java:172-181 | A failed visit leaves every URL of its group in error, with the group's code |
| UrlVerdicts.CodesStay | capture-server/capture/UrlGroup.java:96-112 | Taking, starting and finishing visits never changes a URL's error code |
| UrlVerdicts.DropReports | capture-server/capture/Client.java:442-454 | A group lost before its visit leaves its URLs in error, with the group's code, and no other URL's code changes |
| UrlVerdicts.CodeIsLastWritten | capture-server/capture/UrlGroupsController.java:172-181 | At every point of every run a URL's error code is the last one written to it, by the failure or loss of a group of its or for itself |
| UrlVerdicts.RunReports | capture-server/capture/UrlGroup.java:107-112 | Over every run, errors and retries included, a finished visit reports a URL as visited iff the last error code written to it was 0 or none ever was |
| UrlVerdicts.RetryReportsError | capture-server/capture/UrlGroupsController.java:172-194 | Wherever a group fails for the first time and is not split, the run in which its retry succeeds at once ends with the group visited and every one of its URLs in error |
| UrlVerdicts.RetryOfOneUrl | capture-server/capture/UrlGroupsController.java:172-194 | The smallest such run: one client, one URL |
| UrlCounters.BeginCounts | capture-server/capture/Url.java:170-245 | Beginning a group's visit raises the visiting counter by the number of its URLs not being visited already, and no other counter |
| UrlCounters.FinishCounts | capture-server/capture/Url.java:170-245 | The end of a visit raises visited by the group's URLs without an error not visited before, and the error counter by those with one, not in error before, that have a verdict |
| UrlCounters.ErrorCounts | capture-server/capture/Url.java:170-245 | A group's error counts, of its URLs not in error yet, those with a verdict as errors and the malicious ones as malicious, and changes no other counter |
| UrlCounters.CountersAreRight | capture-server/capture/UrlGroupsController.java:75-195 | Over any run, errors, splits and retries included, visiting is the number of URL visits begun and visited the number of URLs without an error in finished visits |
| UrlGroups.Url.SetUrlState | capture-server/capture/Url.java:170-245 | The new state, and by how much each of the five counters rises, by state and verdict; nothing at all if the state is the old one |
| UrlGroups.UrlGroup.SetUrlGroupState | capture-server/capture/UrlGroup.java:96-120 | The state and code of every URL, one by one, the counters those of the specification's fold, and only an ERROR raises the error count |
| UrlGroups.UrlGroup.SetMalicious | capture-server/capture/UrlGroup.java:197-227 | Which URL gets which verdict: under bulk the one of its own state changes, or the flag without them; else safe for all, malicious for one alone, none for several; no other URL changes |
| UrlGroups.UrlGroupsController.TakeUrlGroup | capture-server/capture/UrlGroupsController.java:75-99 | From an empty queue a new group of as many waiting URLs, in order, as the configured size allows, all if fewer wait and one if the size is 0; else the group on top of the queue. On the whole server state it is the step TakeNew or TakeOld |
| UrlGroups.Halve | capture-server/capture/UrlGroupsController.java:117-130 | The loop cuts the URLs at half their number |
| UrlGroups.UrlGroupsController.Update | capture-server/capture/UrlGroupsController.java:106-195 | What goes on and off the queue and the two lists for each state, the halves of a split on top of the queue in order, the single retry, and the error marked on every URL |
| UrlGroups.UrlGroupsController.Begin | capture-server/capture/UrlGroupsController.java:109-110 | The objects' state afterwards is the state machine's Start step on their state before, and every group is still in one place only |
| UrlGroups.UrlGroupsController.Finish | capture-server/capture/UrlGroupsController.java:112-139 | The same for the Finish step: setMalicious, setUrlGroupState and update together |
| UrlGroups.UrlGroupsController.Fail | capture-server/capture/UrlGroupsController.java:141-194 | The same for the Fail step |
| UrlGroups.UrlGroupsController.Drop | capture-server/capture/Client.java:442-454 | The same for the Drop step, of a group whose visit has not begun: it is in no list to be removed from, and no verdict is set |
| UrlGroups.UrlGroupsController.SetUrlCode | capture-server/capture/Client.java:282 | The same for an error code written to one URL |
| UrlGroups.UrlGroupsController.constructor | capture-server/capture/UrlGroupsController.java:13-27 | The objects start as the state with all URLs waiting and no group anywhere |
| StateChanges.KeyOrder | capture-server/capture/ProcessStateChange.java:99-112 | The comparator is a total order, and equal only for equal time and type |
| StateChanges.StringLeqMeans | capture-server/capture/ProcessStateChange.java:106-108 | Types are compared by the first character they differ in, a proper prefix being smaller, and only equal ones are equal |
| StateChanges.SortedMeans | capture-server/capture/ProcessStateChange.java:99-112 | A list is in the comparator's order iff times never decrease, and of two events of one time with different types the later one's type is a proper prefix of the earlier one's or has the smaller character where they first differ |
| StateChanges.StableSortMeets | capture-server/capture/ProcessStateChange.java:99-112 | The sort is in that order, stable, and loses and duplicates nothing |
| StateChanges.StableSortUnique | capture-server/capture/ProcessStateChange.java:99-112 | There is only one stable sort of a list |
| StateChanges.SortedInside | capture-server/capture/ProcessStateChange.java:92-112 | Sorting a stretch of a list beforehand does not change the sorted list |
| ProcessTrees.OneSort | capture-server/capture/ProcessStateChange.java:89-115 | Sorting at every level of the tree gives what one stable sort of the flattened tree gives |
| ProcessTrees.AllStateChangesComplete | capture-server/capture/ProcessStateChange.java:89-115 | The list holds every event of the tree exactly once, times never decreasing, types at one time from the end of the alphabet, events of equal time and type in tree order |
| ProcessTrees.TiesInTreeOrder | capture-server/capture/ProcessStateChange.java:92-98 | Events of one time and type are listed with the process's object changes first, then what its children list, child by child, and the process itself last |
| ProcessTrees.FirstMatch | capture-server/capture/ProcessStateChange.java:57-83 | An event is hung under the first node in pre-order whose process id it looks for, and nothing else changes |
| ProcessTrees.HandlePlaces | capture-server/capture/StateChangeHandler.java:37-90 | Where any event goes: under that node, or as a new tree, of the process alone, or of a process made up from the object change, with its process id, process and time and CaptureClient.exe, 0, as parent |
| ProcessTrees.HandleKeepsProper | capture-server/capture/StateChangeHandler.java:37-90 | Object changes hang under their process and processes under their parent |
| ProcessTrees.HandleBag | capture-server/capture/StateChangeHandler.java:37-90 | The forest grows by exactly the event, and by one made-up process iff it is an object change of an unknown process |
| ProcessTrees.HandleAllKeeps | capture-server/capture/StateChangeHandler.java:37-90 | Both, over any sequence of events |
| ProcessTrees.HandleAllInOrder | capture-server/capture/StateChangeHandler.java:37-90 | Over any sequence of events the object changes under a process, and the processes under it, are in the order they came in |
| ProcessTrees.RootsDistinct | capture-server/capture/StateChangeHandler.java:68-84 | Over any sequence of events at most one process is made up for a process id |
| ProcessForest.ProcessStateChange.AddStateChange | capture-server/capture/ProcessStateChange.java:57-83 | The nodes in place represent the tree of the specification after the insertion; if the event is not taken nothing at all changes |
| ProcessForest.AddToFirst | capture-server/capture/StateChangeHandler.java:43-66 | The loop over trees: the first that takes the event takes it |
| ProcessForest.ProcessStateChange.GetAllStateChanges | capture-server/capture/ProcessStateChange.java:89-115 | The list collected and sorted at every level is that of the specification: it holds exactly the events of the tree, times never decreasing, and types at one time from the end of the alphabet |
| ProcessForest.StateChangeHandler.AddStateChange | capture-server/capture/StateChangeHandler.java:37-90 | Every event is accepted and the handler's trees represent the forest of the specification |
| Dispatcher.StepKeepsSafe | capture-client/ApplicationPlugins/InternetExplorer/Application_InternetExplorer.cpp:39-70 | Every step of the dispatcher or of a worker keeps the protocol's invariant: busy flags exact, URLs handed out once, visits counted after they return |
| Dispatcher.VisitsAreNew | capture-client/ApplicationPlugins/InternetExplorer/Application_InternetExplorer.cpp:137-152 | Under every interleaving a URL is handed to at most one worker and never visited twice |
| Dispatcher.LeavesAfterAllReturned | capture-client/ApplicationPlugins/InternetExplorer/Application_InternetExplorer.cpp:137-188 | n_visited_urls never exceeds the visits returned; when the loop is left every URL has been visited, every visit has returned and no worker is inside one, so the instances can be deleted |
| Dispatcher.StepPotential | capture-client/ApplicationPlugins/InternetExplorer/Application_InternetExplorer.cpp:137-164 | The number of visits that can still be counted falls by one exactly at the steps that lose a signal, and never otherwise changes |
| Dispatcher.SmallGroupsAreCounted | capture-client/ApplicationPlugins/InternetExplorer/Application_InternetExplorer.cpp:137-164 | For at most sixty URLs, started with all workers idle and no signal pending, no signal is lost: when all is quiet every URL has been counted |
| Dispatcher.LargeGroupsCanLose | capture-client/ApplicationPlugins/InternetExplorer/Application_InternetExplorer.cpp:137-164 | For every larger group there is a run in which a signal is lost |
| Dispatcher.CountableExactly | capture-client/ApplicationPlugins/InternetExplorer/Application_InternetExplorer.cpp:137-164 | All runs keep all visits countable iff the group has at most sixty URLs |
| Dispatcher.NeverLeaves | capture-client/ApplicationPlugins/InternetExplorer/Application_InternetExplorer.cpp:138-164 | Once a signal is lost the dispatcher never leaves its loop, whatever happens |
| Dispatcher.CanStillLeave | capture-client/ApplicationPlugins/InternetExplorer/Application_InternetExplorer.cpp:137-164 | At every point of every run, for groups of any size: the run can be continued until the loop is left iff no signal has been lost so far |
| Dispatcher.NeverStuckExactly | capture-client/ApplicationPlugins/InternetExplorer/Application_InternetExplorer.cpp:137-164 | The loop can be left from every reachable state iff the group has at most sixty URLs |
| Base64.EncodedIsEncoding | capture-client/CaptureGlobal.cpp:54-96 | For every byte string the text made is the encoding of section 4 of RFC 4648, stated on bits |
| Base64.EncodingUnique | capture-client/CaptureGlobal.cpp:54-96 | That encoding is unique |
| Base64.RfcRoundTrip | capture-server/capture/ClientFileReceiver.java:44-45 | A decoder of section 4 of RFC 4648 undoes the encoding |
| Base64.Encode | capture-client/CaptureGlobal.cpp:54-96 | The loops over blocks and pad characters, in the buffer allocated, make exactly that text |
| Base64.RoundTrip | capture-client/CaptureGlobal.cpp:29-96 | Decoding the encoded bytes gives them back as a prefix, followed by exactly as many bytes as there are pad characters, at most two |
| Base64.DecodedIsDecoding | capture-client/CaptureGlobal.cpp:29-52 | Of any text of characters of the alphabet in whole groups of four, decode makes the one string of bytes the text is the encoding of |
| Base64.Decode | capture-client/CaptureGlobal.cpp:29-52 | The loop over groups of four writes exactly the specified bytes inside the buffer, and a terminator behind them if there is room; for whole groups of the alphabet the bytes the text encodes |
| UrlCodec.RoundTrip | capture-client/Url.cpp:71-144 | Decoding an encoded text gives it back with each space turned into a plus sign, for all 16-bit code units; so it is the same text iff it has no space |
| UrlCodec.UnitDecoded | capture-client/Url.cpp:114-142 | Whatever state the decoder's sequence variables are in, the octets of a code unit are reassembled into it |
| UrlCodec.UnitText | capture-client/Url.cpp:79-101 | Letters, digits and the nine marks stand for themselves, a space becomes a plus sign, and every other character one or more triplets of % and two lower-case hex digits |
| UrlCodec.EncodedAlphabet | capture-client/Url.cpp:71-105 | An encoded text is made of those only, and has exactly as many plus signs as the original has spaces |
| UrlCodec.FormRoundTrip | capture-server/capture/UrlGroup.java:73 | A decoder of form data, with the plus sign for a space and octets of UTF-8, gives every text back; one that refuses the octets of surrogates, as section 3 of RFC 3629 wants, exactly the texts without surrogates |
| UrlCodec.EncodedInjective | capture-client/Url.cpp:71-105 | Two texts have the same encoding iff they are the same |
| UrlCodec.DecodesWellFormed | capture-client/Url.cpp:107-144 | What anyone has encoded correctly without plus signs is decoded to what that decoder makes of it, and a text without % to itself |
| UrlCodec.Encode | capture-client/Url.cpp:71-105 | The text made consists of letters, digits, the nine marks, plus signs and % with two lower-case hex digits, and a decoder of form data gives the original back, every character of it |
| UrlCodec.Decode | capture-client/Url.cpp:107-144 | The index arithmetic and sequence state of the loop are the specified state machine; well-formed text without a plus sign is decoded as the standard has it |
| FileTransfer.FileUploader.SendFilePart | capture-client/FileUploader.cpp:179-226 | One part for the stretch read, with its encoding; nothing at the end of the file; 0 once the end has been seen, even after a last short part |
| FileTransfer.FileUploader.SendFile | capture-client/FileUploader.cpp:159-166 | The loop ends, and its parts tile the file from 0 to its size without gap or overlap and carry it |
| FileTransfer.ClientFileReceiver.ReceiveFilePart | capture-server/capture/ClientFileReceiver.java:37-59 | Appends the decoded part iff it is in Base64 and decodes to as many bytes as its positions say; else nothing is written |
| FileTransfer.CompleteExactly | capture-server/capture/ClientFileReceiver.java:37-59 | Of parts that tile a stretch as many bytes are written as it has iff every one of them is in Base64 and decodes to its length; never more |
| FileTransfer.TilesMakeTheFile | capture-server/capture/ClientFileReceiver.java:37-59 | Parts that tile a file and carry its stretches are received as the file |
| FileTransfer.Transfer | capture-client/FileUploader.cpp:159-226 | A file sent part by part and received in that order arrives as it was |

## Left out

- Locks, interrupt levels and interlocked operations in the ring and the shared list: each public operation is one step. The hand-over of list locks in AcquireReadEventList and AcquireNextWriteEventList is not modelled, and the spin on a write list that is not ready ends at once, as in every state between operations it is ready.
- EventRing.EventRingList.CreateEvent: returns -1 where the source goes on scanning until another thread frees a buffer.
- EventRing.EventBuffer.AddEventData: requires that header and value together stay below 2^32, as the source's addition does not check for wrap-around.
- EventRing.EventRingList.constructor: every allocation succeeds, and sizeof(Event) <= buffer length <= list length, 1 to 256 buffers, which the source does not check.
- EventRing.EventBuffer.ReserveEventDataSpace: requires that header and length together stay below 2^32, as above; what a caller later writes into the space reserved is not modelled.
- Keys of the ring (AddKey, GetKeyHash), the other control codes, deletion of rings and maps.
- SharedEventList.EventList.AddEventData: requires sizes that do not wrap around in the round-up to blocks; kernel and client use one layout here, that of the kernel's struct, although the client's struct lacks bitmap_lock.
- SharedEventList.EventList.InsertEvent: what happens to a list once a write through a stale tail has done harm.
- SharedEventList.Send: for a drained list, whether it is well formed afterwards is left to InsertEvent's condition.
- Bitmap.Buffer.ReserveSpace: requires a size above 0 that does not wrap around in the round-up to blocks.
- The shared semaphore, mapping of the buffer, what NetworkMonitor makes of the fields it reads, and exclusion lists.
- Bitmap.FindClearBitsAndSet: RtlFindClearBitsAndSet is a scan from the hint on and then from the start, with its documented result.
- UrlGroups.UrlGroupsController.Begin: identifiers, dates, log and database writes, and setting of the initial-group flag on URLs are not modelled, here and in the other scheduler methods; the observer call is an ordinary call. The groups clients hold are a parameter, as each is a field of its Client.
- The counters safe, malicious and urlError over runs with errors: what each step adds to them is proved, and visiting and visited over all runs, but the verdict theorems are about error-free runs.
- Runs that mix dac and bulk visits: the verdict theorems are about runs with one of them.
- Client.disconnect, which reports ERROR twice, the lifecycle of clients and virtual machines, and the revert queue. One outcome for each visit is assumed.
- A bulk visit whose map of own state changes lacks a URL of the group, which ends in an exception.
- StateChanges.StableSortMeets: the library's merge sort is replaced by its documented contract; types are compared by Dafny characters, which differ from UTF-16 order only outside the basic plane. Dates are integers.
- ProcessForest.StateChangeHandler.AddStateChange: as for ProcessStateChange.AddStateChange.
- ProcessForest.ProcessStateChange.AddStateChange: a process is added without anything hung under it, as the client handler creates it; the CSV text of events is not modelled.
- Dispatcher.StepKeepsSafe: one step for each access to shared variables; n_visiting and the event set after it are one step. Failure of WaitForMultipleObjects is not modelled. The bulk plugin's dispatcher is the same protocol.
- Base64.Decode: requires bytes from 1 to 127; the source takes those of 128 and above, being signed characters, for negative indices, and 0 for the end of the string.
- Base64.Encode: lengths beyond the range of the source's int are not excluded and do not overflow here; the two tables are given as ranges of character codes.
- UrlCodec.Decode: wcstol also takes digits of other scripts; only ASCII hexadecimal digits are digits here.
- FileTransfer.FileUploader.SendFilePart: requires files below 2 GB, as the client's positions are of type long.
- FileTransfer.FileUploader.SendFile: likewise.
- FileTransfer.Transfer: files of 2 GB and more, which the receiver's int fields cannot take; re-sending of parts on request, rejection and timeouts, and the XML around a part. The receiver's library decoder is that of section 4 of RFC 4648.
- Which tree a URL's process id selects (getStateChangesCSV, getRemainderStateChangesCSV).
- Server::xml_escape, configuration, databases, sockets, COM and process control.
